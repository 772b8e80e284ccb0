/**
 Kelly sizing and the order decision of the markov executor.
 Probabilities and money are reals; an order is represented by its USD size.
 */
module Kelly {
  import opened Wrappers

  function Clamp(x: real, lo: real, hi: real): real {
    if x < lo then lo else if x > hi then hi else x
  }

  function Min(x: real, y: real): real {
    if x <= y then x else y
  }

  function Max(x: real, y: real): real {
    if x >= y then x else y
  }

  /** Full Kelly fraction of one side, in odds form. */
  function KellyForSide(pTrue: real, pMarket: real): real {
    if pMarket <= 0.0 || pMarket >= 1.0 then 0.0
    else
      var b := (1.0 - pMarket) / pMarket;
      if b <= 0.0 then 0.0 else pTrue - (1.0 - pTrue) / b
  }

  datatype Side = BuyYes | BuyNo | NoBet

  datatype Sizing = Sizing(fraction: real, betUsd: real, side: Side)

  function KellyFraction(pTrue: real, pMarket: real, bankrollUsd: real, scale: real, maxFraction: real): Sizing {
    var pT := Clamp(pTrue, 0.0, 1.0);
    var pM := Clamp(pMarket, 0.0, 1.0);
    var bankroll := Max(0.0, bankrollUsd);
    var yesFull := KellyForSide(pT, pM);
    if yesFull > 0.0 then
      var f := Clamp(yesFull * scale, 0.0, maxFraction);
      Sizing(f, bankroll * f, BuyYes)
    else
      var noFull := KellyForSide(1.0 - pT, 1.0 - pM);
      if noFull > 0.0 then
        var f := Clamp(noFull * scale, 0.0, maxFraction);
        Sizing(f, bankroll * f, BuyNo)
      else
        Sizing(0.0, 0.0, NoBet)
  }

  /** The fields of a logged markov opportunity that sizing depends on. */
  datatype Opportunity = Opportunity(yesSide: bool, calibratedProbYes: real, marketPrice: real)

  const MIN_ORDER_USD := 1.0
  const MAX_FRACTION := 1.0

  /** The gates around the Kelly stake: remaining budget, minimum size, usable limit price. */
  function CapStake(stake: real, limitPrice: real, remaining: real): Option<real> {
    var bet := Min(stake, remaining);
    if bet < MIN_ORDER_USD then None
    else if !(limitPrice > 0.0 && limitPrice < 1.0) then None
    else Some(bet)
  }

  /** Model probability and market price of the side the opportunity recommends. */
  function SideProb(p: Opportunity): real {
    if p.yesSide then p.calibratedProbYes else 1.0 - p.calibratedProbYes
  }

  function SidePrice(p: Opportunity): real {
    if p.yesSide then p.marketPrice else 1.0 - p.marketPrice
  }

  /** None is a skip with a logged reason; Some is the USD size of the LIMIT order. */
  function DecideOrder(p: Opportunity, perSignal: real, remaining: real, scale: real): Option<real> {
    if !(SideProb(p) > SidePrice(p)) then None
    else if remaining <= 0.0 then None
    else CapStake(KellyFraction(SideProb(p), SidePrice(p), perSignal, scale, MAX_FRACTION).betUsd,
                  p.marketPrice, remaining)
  }

  lemma DivMulCancel(x: real, y: real, z: real)
    requires y != 0.0 && z != 0.0
    ensures x / (y / z) == x * z / y
  {
    var q := x / (y / z);
    assert q * (y / z) == x;
    assert q * y == x * z by {
      assert (y / z) * z == y;
      assert q * y == q * ((y / z) * z);
      assert q * ((y / z) * z) == (q * (y / z)) * z;
    }
  }

  /** The odds form is edge over the probability left on the table. */
  lemma KellyClosedForm(pTrue: real, pMarket: real)
    requires 0.0 < pMarket < 1.0
    ensures KellyForSide(pTrue, pMarket) == (pTrue - pMarket) / (1.0 - pMarket)
  {
    var q := 1.0 - pMarket;
    DivMulCancel(1.0 - pTrue, q, pMarket);
    assert KellyForSide(pTrue, pMarket) == pTrue - (1.0 - pTrue) * pMarket / q;
    assert pTrue * q - (1.0 - pTrue) * pMarket == pTrue - pMarket;
    assert (pTrue * q) / q == pTrue;
    assert pTrue - (1.0 - pTrue) * pMarket / q == (pTrue * q - (1.0 - pTrue) * pMarket) / q;
  }

  /** The fraction of the bankroll staked on an edge. */
  function EdgeFraction(pTrue: real, pMarket: real, scale: real): (f: real)
    requires pMarket < 1.0
    ensures 0.0 <= f <= 1.0
  {
    Clamp((Clamp(pTrue, 0.0, 1.0) - pMarket) / (1.0 - pMarket) * scale, 0.0, 1.0)
  }

  /** With an edge inside (0, 1) the stake is that fraction of the bankroll, on the YES side. */
  lemma KellyStake(pTrue: real, pMarket: real, perSignal: real, scale: real)
    requires 0.0 < pMarket < 1.0 && pMarket < pTrue
    ensures var k := KellyFraction(pTrue, pMarket, perSignal, scale, MAX_FRACTION);
            k.side == BuyYes && k.betUsd == Max(0.0, perSignal) * EdgeFraction(pTrue, pMarket, scale)
  {
    var pT := Clamp(pTrue, 0.0, 1.0);
    KellyClosedForm(pT, pMarket);
    QuotientPositive(pT - pMarket, 1.0 - pMarket);
  }

  lemma QuotientPositive(x: real, y: real)
    requires x > 0.0 && y > 0.0
    ensures x / y > 0.0
  {
  }

  // ---------------------------------------------------------------- when an order is placed

  /** The fractional-Kelly share of an edge: (pt - pm) / (1 - pm) * scale, kept between nothing and everything. */
  function Share(pt: real, pm: real, scale: real): real
    requires pm < 1.0
  {
    var scaled := ((if pt > 1.0 then 1.0 else pt) - pm) / (1.0 - pm) * scale;
    if scaled < 0.0 then 0.0 else if scaled > 1.0 then 1.0 else scaled
  }

  /** That share of the cap, or what remains if that is less, comes to the minimum of a dollar. */
  ghost predicate Bets(cap: real, share: real, remaining: real, bet: real) {
    bet >= 1.0 && bet == if cap * share <= remaining then cap * share else remaining
  }

  /**
   An order of this size is due, told from the logged fields: the market price is inside (0, 1), the recommended
   side is underpriced, budget is left, and the share of the per-signal cap is worth an order.
   */
  ghost predicate Due(p: Opportunity, perSignal: real, remaining: real, scale: real, bet: real) {
    var pt := if p.yesSide then p.calibratedProbYes else 1.0 - p.calibratedProbYes;
    var pm := if p.yesSide then p.marketPrice else 1.0 - p.marketPrice;
    && 0.0 < p.marketPrice < 1.0 && pm < pt && remaining > 0.0
    && Bets(perSignal, Share(pt, pm, scale), remaining, bet)
  }

  lemma ShareIsEdge(pt: real, pm: real, scale: real)
    requires 0.0 < pm < 1.0 && pm < pt
    ensures Share(pt, pm, scale) == EdgeFraction(pt, pm, scale)
  {
    var top := if pt > 1.0 then 1.0 else pt;
    assert Clamp(pt, 0.0, 1.0) == top;
    var scaled := (top - pm) / (1.0 - pm) * scale;
    assert Clamp(scaled, 0.0, 1.0) == if scaled < 0.0 then 0.0 else if scaled > 1.0 then 1.0 else scaled;
  }

  lemma NegativeTimes(x: real, f: real)
    requires x < 0.0 && 0.0 <= f
    ensures x * f <= 0.0
  {
  }

  /** A bankroll below zero stakes nothing, and no order comes of it. */
  lemma CappedExactly(bankroll: real, f: real, limitPrice: real, remaining: real, bet: real)
    requires 0.0 <= f <= 1.0 && 0.0 < limitPrice < 1.0
    ensures CapStake(Max(0.0, bankroll) * f, limitPrice, remaining) == Some(bet)
       <==> Bets(bankroll, f, remaining, bet)
  {
    if bankroll < 0.0 {
      NegativeTimes(bankroll, f);
      assert Max(0.0, bankroll) * f == 0.0;
    } else {
      assert Max(0.0, bankroll) * f == bankroll * f;
    }
  }

  lemma EdgeExactly(pt: real, pm: real, limitPrice: real, perSignal: real, remaining: real, scale: real, bet: real)
    requires 0.0 < pm < 1.0 && pm < pt && 0.0 < limitPrice < 1.0
    ensures CapStake(KellyFraction(pt, pm, perSignal, scale, MAX_FRACTION).betUsd, limitPrice, remaining) == Some(bet)
       <==> Bets(perSignal, Share(pt, pm, scale), remaining, bet)
  {
    KellyStake(pt, pm, perSignal, scale);
    ShareIsEdge(pt, pm, scale);
    CappedExactly(perSignal, EdgeFraction(pt, pm, scale), limitPrice, remaining, bet);
  }

  /** The stake of a placed order, whatever it is, passed the gates. */
  lemma Gates(p: Opportunity, perSignal: real, remaining: real, scale: real)
    ensures 0.0 < p.marketPrice < 1.0 && SidePrice(p) < SideProb(p) && remaining > 0.0 ==>
              DecideOrder(p, perSignal, remaining, scale)
              == CapStake(KellyFraction(SideProb(p), SidePrice(p), perSignal, scale, MAX_FRACTION).betUsd,
                          p.marketPrice, remaining)
    ensures DecideOrder(p, perSignal, remaining, scale).Some? ==>
              0.0 < p.marketPrice < 1.0 && SidePrice(p) < SideProb(p) && remaining > 0.0
  {
  }

  /** An order is placed if and only if one is due, and it is the one that is due. */
  lemma OrderExactly(p: Opportunity, perSignal: real, remaining: real, scale: real, bet: real)
    ensures DecideOrder(p, perSignal, remaining, scale) == Some(bet) <==> Due(p, perSignal, remaining, scale, bet)
  {
    Gates(p, perSignal, remaining, scale);
    if 0.0 < p.marketPrice < 1.0 && SidePrice(p) < SideProb(p) && remaining > 0.0 {
      EdgeExactly(SideProb(p), SidePrice(p), p.marketPrice, perSignal, remaining, scale, bet);
    }
  }

  lemma BetWithinCap(cap: real, f: real, remaining: real, bet: real)
    requires 0.0 <= f <= 1.0 && Bets(cap, f, remaining, bet)
    ensures bet <= cap && bet <= remaining
  {
    if cap < 0.0 {
      NegativeTimes(cap, f);
    } else {
      assert cap * (1.0 - f) >= 0.0;
    }
  }

  /**
   An order is placed only on the side with a positive edge, never exceeds the
   remaining budget nor the per-signal cap, and is otherwise exactly the clamped
   fractional-Kelly stake.
   */
  lemma DecideOrderSound(p: Opportunity, perSignal: real, remaining: real, scale: real)
    requires DecideOrder(p, perSignal, remaining, scale).Some?
    ensures 0.0 < SidePrice(p) < 1.0 && SidePrice(p) < SideProb(p)
    ensures var bet := DecideOrder(p, perSignal, remaining, scale).value;
            && MIN_ORDER_USD <= bet <= remaining
            && bet <= perSignal
            && Bets(perSignal, EdgeFraction(SideProb(p), SidePrice(p), scale), remaining, bet)
  {
    var bet := DecideOrder(p, perSignal, remaining, scale).value;
    OrderExactly(p, perSignal, remaining, scale, bet);
    ShareIsEdge(SideProb(p), SidePrice(p), scale);
    BetWithinCap(perSignal, EdgeFraction(SideProb(p), SidePrice(p), scale), remaining, bet);
  }

  /** No order is placed exactly when none of any size is due. */
  lemma SomeOrNone(p: Opportunity, perSignal: real, remaining: real, scale: real)
    ensures DecideOrder(p, perSignal, remaining, scale).None?
       <==> forall bet :: !Due(p, perSignal, remaining, scale, bet)
  {
    forall bet
      ensures DecideOrder(p, perSignal, remaining, scale) == Some(bet) <==> Due(p, perSignal, remaining, scale, bet)
    {
      OrderExactly(p, perSignal, remaining, scale, bet);
    }
    var order := DecideOrder(p, perSignal, remaining, scale);
    if order.Some? { assert Due(p, perSignal, remaining, scale, order.value); }
  }

  /** A NO opportunity is decided as the YES one of the complementary probability and price. */
  lemma MirrorSides(c: real, m: real, perSignal: real, remaining: real, scale: real)
    ensures DecideOrder(Opportunity(false, c, m), perSignal, remaining, scale)
         == DecideOrder(Opportunity(true, 1.0 - c, 1.0 - m), perSignal, remaining, scale)
  {
    var a, b := Opportunity(false, c, m), Opportunity(true, 1.0 - c, 1.0 - m);
    assert SideProb(a) == SideProb(b) && SidePrice(a) == SidePrice(b);
  }
}

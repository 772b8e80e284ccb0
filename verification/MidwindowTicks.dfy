/** The order and range of the reconstructed ticks, and what a window of the backtest may see. */
module MidwindowTicks {

  import opened Midwindow
  import opened Wrappers

  // ---------------------------------------------------------------- order and range

  /** Candles inside the interval. */
  function Selected(candles: seq<Candle>, startSec: int, endSec: int): nat {
    if candles == [] then 0
    else
      Selected(candles[..|candles| - 1], startSec, endSec)
      + if Inside(candles[|candles| - 1], startSec, endSec) then 1 else 0
  }

  /** 31 ticks per candle. */
  lemma {:induction false} TickCount(candles: seq<Candle>, startSec: int, endSec: int)
    ensures |Ticks(candles, startSec, endSec)| == 31 * Selected(candles, startSec, endSec)
  {
    if candles != [] { TickCount(candles[..|candles| - 1], startSec, endSec); }
  }

  ghost predicate Rising(ticks: seq<Tick>) {
    forall i, j :: 0 <= i < j < |ticks| ==> ticks[i].ts < ticks[j].ts
  }

  /** All ticks lie in an interval of milliseconds, the end excluded. */
  ghost predicate Within(ticks: seq<Tick>, lo: int, hi: int) {
    forall i :: 0 <= i < |ticks| ==> lo <= ticks[i].ts < hi
  }

  lemma CandleRising(c: Candle)
    ensures Rising(TicksOf(c)) && Within(TicksOf(c), c.start * 1000, c.start * 1000 + 60_000)
  {
  }

  lemma RisingConcat(a: seq<Tick>, b: seq<Tick>, lo: int, mid: int, hi: int)
    requires Rising(a) && Rising(b) && Within(a, lo, mid) && Within(b, mid, hi) && lo <= mid <= hi
    ensures Rising(a + b) && Within(a + b, lo, hi)
  {
  }

  /** The selected candles start before hi. */
  ghost predicate Before(candles: seq<Candle>, startSec: int, endSec: int, hi: int) {
    forall i :: 0 <= i < |candles| && Inside(candles[i], startSec, endSec) ==> candles[i].start < hi
  }

  lemma Earlier(candles: seq<Candle>, startSec: int, endSec: int, hi: int)
    requires Minutes(candles) && candles != [] && hi == candles[|candles| - 1].start
    ensures Before(candles[..|candles| - 1], startSec, endSec, hi)
  {
  }

  lemma MinutesInit(candles: seq<Candle>)
    requires Minutes(candles) && candles != []
    ensures Minutes(candles[..|candles| - 1]) && candles[|candles| - 1].start % 60 == 0
  {
  }

  /** The ticks of one more candle, after ticks that end before it starts. */
  lemma OneMoreCandle(candles: seq<Candle>, startSec: int, endSec: int, hi: int)
    requires candles != [] && Inside(candles[|candles| - 1], startSec, endSec)
    requires candles[|candles| - 1].start + 60 <= hi
    requires var before := Ticks(candles[..|candles| - 1], startSec, endSec);
             Rising(before) && Within(before, startSec * 1000, candles[|candles| - 1].start * 1000)
    ensures Rising(Ticks(candles, startSec, endSec))
    ensures Within(Ticks(candles, startSec, endSec), startSec * 1000, hi * 1000)
  {
    var init, c := candles[..|candles| - 1], candles[|candles| - 1];
    CandleRising(c);
    RisingConcat(Ticks(init, startSec, endSec), TicksOf(c), startSec * 1000, c.start * 1000, hi * 1000);
  }

  lemma {:induction false} TicksRise(candles: seq<Candle>, startSec: int, endSec: int, hi: int)
    requires Minutes(candles) && startSec <= hi && hi % 60 == 0 && Before(candles, startSec, endSec, hi)
    ensures Rising(Ticks(candles, startSec, endSec))
    ensures Within(Ticks(candles, startSec, endSec), startSec * 1000, hi * 1000)
  {
    if candles != [] {
      var init, c := candles[..|candles| - 1], candles[|candles| - 1];
      MinutesInit(candles);
      if Inside(c, startSec, endSec) {
        Earlier(candles, startSec, endSec, c.start);
        TicksRise(init, startSec, endSec, c.start);
        OneMoreCandle(candles, startSec, endSec, hi);
      } else {
        TicksRise(init, startSec, endSec, hi);
        assert Ticks(candles, startSec, endSec) == Ticks(init, startSec, endSec);
      }
    }
  }

  /** Over any interval that ends on a minute, tick times rise strictly and stay inside it. */
  lemma TicksInOrder(candles: seq<Candle>, startSec: int, endSec: int)
    requires Minutes(candles) && startSec <= endSec && endSec % 60 == 0
    ensures Rising(Ticks(candles, startSec, endSec))
    ensures Within(Ticks(candles, startSec, endSec), startSec * 1000, endSec * 1000)
  {
    TicksRise(candles, startSec, endSec, endSec);
  }

  /** Low is the lowest price of a candle and high the highest. */
  predicate Proper(c: Candle) {
    c.low <= c.open <= c.high && c.low <= c.close <= c.high
  }

  lemma {:induction false} SameSign(d: real, k: nat)
    ensures 0.0 <= d ==> 0.0 <= d * k as real
    ensures d <= 0.0 ==> d * k as real <= 0.0
  {
    if k > 0 {
      SameSign(d, k - 1);
      assert d * k as real == d * (k - 1) as real + d;
    }
  }

  /** k tenths of a difference lie between nothing and the whole of it. */
  lemma Tenths(d: real, k: nat)
    requires k <= PER_LEG
    ensures 0.0 <= d ==> 0.0 <= d * (k as real / 10.0) <= d
    ensures d <= 0.0 ==> d <= d * (k as real / 10.0) <= 0.0
  {
    SameSign(d, k);
    SameSign(d, PER_LEG - k);
    assert d * k as real + d * (PER_LEG - k) as real == 10.0 * d;
    assert d * (k as real / 10.0) == d * k as real / 10.0;
  }

  lemma Convex(lo: real, hi: real, from: real, to: real, k: nat)
    requires lo <= from <= hi && lo <= to <= hi && k <= PER_LEG
    ensures lo <= Between(from, to, k) <= hi
  {
    var d := to - from;
    var part := d * (k as real / 10.0);
    Tenths(d, k);
    assert Between(from, to, k) == from + part;
    StaysInside(lo, hi, from, to, part);
  }

  lemma StaysInside(lo: real, hi: real, from: real, to: real, part: real)
    requires lo <= from <= hi && lo <= to <= hi
    requires 0.0 <= to - from ==> 0.0 <= part <= to - from
    requires to - from <= 0.0 ==> to - from <= part <= 0.0
    ensures lo <= from + part <= hi
  {
  }

  lemma TickPrice(c: Candle, n: nat)
    requires Proper(c) && n <= SUB_TICKS
    ensures c.low <= TickOf(c, n).price <= c.high
  {
    if n < SUB_TICKS {
      Convex(c.low, c.high, Waypoint(c, n / PER_LEG), Waypoint(c, n / PER_LEG + 1), n % PER_LEG);
    }
  }

  /** The tick falls into the minute of the candle and its price into the candle's range. */
  predicate Covers(c: Candle, tick: Tick) {
    c.start * 1000 <= tick.ts < (c.start + 60) * 1000 && c.low <= tick.price <= c.high
  }

  lemma OwnCandleCovers(c: Candle, n: nat)
    requires Proper(c) && n <= SUB_TICKS
    ensures Covers(c, TicksOf(c)[n])
  {
    CandleRising(c);
    TickPrice(c, n);
    assert TicksOf(c)[n] == TickOf(c, n);
  }

  /** Every reconstructed price lies between the low and the high of the candle of its own minute. */
  lemma {:induction false} PricesInRange(candles: seq<Candle>, startSec: int, endSec: int, i: nat)
    requires (forall c :: c in candles ==> Proper(c)) && i < |Ticks(candles, startSec, endSec)|
    ensures exists c :: c in candles && Inside(c, startSec, endSec) && Covers(c, Ticks(candles, startSec, endSec)[i])
  {
    var init, c := candles[..|candles| - 1], candles[|candles| - 1];
    assert candles == init + [c];
    var before := Ticks(init, startSec, endSec);
    if i < |before| {
      PricesInRange(init, startSec, endSec, i);
      var x :| x in init && Inside(x, startSec, endSec) && Covers(x, before[i]);
      assert x in candles;
    } else {
      OwnCandleCovers(c, i - |before|);
      assert c in candles;
    }
  }

  // ---------------------------------------------------------------- what a window sees

  /** The candles that start before t. */
  function StartingBefore(candles: seq<Candle>, t: int): seq<Candle> {
    if candles == [] then []
    else
      var c, before := candles[|candles| - 1], StartingBefore(candles[..|candles| - 1], t);
      if c.start < t then before + [c] else before
  }

  lemma {:induction false} TicksOfPast(candles: seq<Candle>, startSec: int, endSec: int, horizon: int)
    requires endSec <= horizon
    ensures Ticks(candles, startSec, endSec) == Ticks(StartingBefore(candles, horizon), startSec, endSec)
  {
    if candles != [] {
      var init, c := candles[..|candles| - 1], candles[|candles| - 1];
      TicksOfPast(init, startSec, endSec, horizon);
      var past := StartingBefore(init, horizon);
      assert (past + [c])[..|past|] == past;
    }
  }

  lemma {:induction false} AtOfPast(candles: seq<Candle>, endSec: int, t: int)
    requires t < endSec
    ensures At(candles, t) == At(StartingBefore(candles, endSec), t)
  {
    if candles != [] {
      var init, c := candles[..|candles| - 1], candles[|candles| - 1];
      AtOfPast(init, endSec, t);
      var past := StartingBefore(init, endSec);
      assert (past + [c])[..|past|] == past;
    }
  }

  /** Two histories that agree on every candle before T+120 s give the same ticks for the window at T. */
  lemma TicksDoNotLookAhead(a: seq<Candle>, b: seq<Candle>, t0: int)
    requires StartingBefore(a, t0 + 120) == StartingBefore(b, t0 + 120)
    ensures Ticks(a, t0, t0 + 120) == Ticks(b, t0, t0 + 120)
  {
    TicksOfPast(a, t0, t0 + 120, t0 + 120);
    TicksOfPast(b, t0, t0 + 120, t0 + 120);
  }

  /**
   The snapshot of the window at T does look ahead, by exactly one number: two histories that
   agree on every candle before T+120 s give the same snapshot if and only if the candles that
   start at T+120 s close at the same price, a price known only at T+180 s.
   */
  lemma SnapshotLooksAhead(a: seq<Candle>, b: seq<Candle>, t0: int, openA: Candle, openB: Candle,
                           t120A: Candle, t120B: Candle)
    requires StartingBefore(a, t0 + 120) == StartingBefore(b, t0 + 120)
    requires At(a, t0) == Some(openA) && At(b, t0) == Some(openB)
    requires At(a, t0 + 120) == Some(t120A) && At(b, t0 + 120) == Some(t120B)
    ensures SnapshotAt(a, t0, openA, t120A) == SnapshotAt(b, t0, openB, t120B) <==> t120A.close == t120B.close
  {
    TicksDoNotLookAhead(a, b, t0);
    AtOfPast(a, t0 + 120, t0);
    AtOfPast(b, t0 + 120, t0);
  }

  /** What the strategy says at a window, from the candles alone that start before T+180 s. */
  lemma SideOfPast(candles: seq<Candle>, t0: int, detect: Snapshot -> Option<Side>)
    requires RowAt(candles, t0, detect).Some?
    ensures var past := StartingBefore(candles, t0 + 180);
            && At(past, t0).Some? && At(past, t0 + 120).Some?
            && RowAt(candles, t0, detect).value.side
               == detect(SnapshotAt(past, t0, At(past, t0).value, At(past, t0 + 120).value))
  {
    TicksOfPast(candles, t0, t0 + 120, t0 + 180);
    AtOfPast(candles, t0 + 180, t0);
    AtOfPast(candles, t0 + 180, t0 + 120);
  }

  /** Nothing after the candle at T+120 s reaches the strategy. */
  lemma SignalSeesNoMore(a: seq<Candle>, b: seq<Candle>, t0: int, detect: Snapshot -> Option<Side>)
    requires StartingBefore(a, t0 + 180) == StartingBefore(b, t0 + 180)
    requires RowAt(a, t0, detect).Some? && RowAt(b, t0, detect).Some?
    ensures RowAt(a, t0, detect).value.side == RowAt(b, t0, detect).value.side
  {
    SideOfPast(a, t0, detect);
    SideOfPast(b, t0, detect);
  }

  // ---------------------------------------------------------------- the rows

  /** A window the backtest visits from t0 on: on the grid, and closing by the last candle. */
  predicate Visited(t0: int, lastSec: int, t: int) {
    t >= t0 && t % 300 == 0 && t + 300 <= lastSec
  }

  lemma VisitedStep(t0: int, lastSec: int, t: int)
    requires t0 % WINDOW == 0 && t0 + WINDOW <= lastSec
    ensures Visited(t0, lastSec, t) <==> t == t0 || Visited(t0 + WINDOW, lastSec, t)
  {
  }

  /** One row for every visited window that has its three candles, and no other row. */
  lemma {:induction false} RowsAre(candles: seq<Candle>, t0: int, lastSec: int, detect: Snapshot -> Option<Side>,
                                   row: Row)
    requires t0 % WINDOW == 0
    ensures row in RowsFrom(candles, t0, lastSec, detect)
       <==> Visited(t0, lastSec, row.windowOpenSec) && RowAt(candles, row.windowOpenSec, detect) == Some(row)
    decreases lastSec - t0
  {
    if t0 + WINDOW <= lastSec {
      RowsAre(candles, t0 + WINDOW, lastSec, detect, row);
      VisitedStep(t0, lastSec, row.windowOpenSec);
    }
  }
}

/** What a row of the mid-window backtest says, and where along its candle a reconstructed price lies. */
module MidwindowRows {

  import opened Midwindow
  import opened Wrappers

  // ---------------------------------------------------------------- ticks

  /** A price k tenths of the way from one price to another. */
  ghost predicate Along(price: real, from: real, to: real, k: int) {
    price * 10.0 == from * (10 - k) as real + to * k as real
  }

  lemma BetweenAlong(from: real, to: real, k: nat)
    requires k <= PER_LEG
    ensures Along(Between(from, to, k), from, to, k)
  {
    var x := k as real;
    assert (x / 10.0) * 10.0 == x;
    assert (to - from) * (x / 10.0) * 10.0 == (to - from) * x;
    assert (10 - k) as real == 10.0 - x;
    assert from * (10.0 - x) == from * 10.0 - from * x;
  }

  /**
   The 31 ticks of a candle: ten from open to high, ten from high to low and ten from low to close, two seconds and
   a tenth of the way apart, and the close in the last millisecond of the minute.
   */
  lemma TicksAlong(c: Candle, n: nat)
    requires n < 30
    ensures |TicksOf(c)| == 31 && TicksOf(c)[30] == Tick(c.start * 1000 + 59_999, c.close)
    ensures var t := TicksOf(c)[n];
            && t.ts == c.start * 1000 + 2000 * n
            && if n < 10 then Along(t.price, c.open, c.high, n)
               else if n < 20 then Along(t.price, c.high, c.low, n - 10)
               else Along(t.price, c.low, c.close, n - 20)
  {
    var leg := if n < 10 then 0 else if n < 20 then 1 else 2;
    assert n / PER_LEG == leg && n % PER_LEG == n - 10 * leg;
    assert TicksOf(c)[n] == TickOf(c, n) && TicksOf(c)[30] == TickOf(c, 30);
    BetweenAlong(Waypoint(c, leg), Waypoint(c, leg + 1), n - 10 * leg);
  }

  lemma TicksOfOne(c: Candle, startSec: int, endSec: int)
    ensures Ticks([c], startSec, endSec) == if startSec <= c.start < endSec then TicksOf(c) else []
  {
    assert [c][..0] == [] && [] + TicksOf(c) == TicksOf(c);
  }

  /** The ticks of an interval are those of its candles, in their order. */
  lemma {:induction false} TicksConcat(a: seq<Candle>, b: seq<Candle>, startSec: int, endSec: int)
    ensures Ticks(a + b, startSec, endSec) == Ticks(a, startSec, endSec) + Ticks(b, startSec, endSec)
  {
    if b == [] {
      assert a + b == a;
    } else {
      assert (a + b)[..|a + b| - 1] == a + b[..|b| - 1];
      TicksConcat(a, b[..|b| - 1], startSec, endSec);
    }
  }

  // ---------------------------------------------------------------- rows

  /** The candle that starts at t is the one found. */
  lemma {:induction false} CandleFound(candles: seq<Candle>, i: nat)
    requires Minutes(candles) && i < |candles|
    ensures At(candles, candles[i].start) == Some(candles[i])
  {
    if i < |candles| - 1 { CandleFound(candles[..|candles| - 1], i); }
  }

  lemma {:induction false} CandleMissing(candles: seq<Candle>, t: int)
    ensures At(candles, t).None? <==> forall i :: 0 <= i < |candles| ==> candles[i].start != t
  {
    if candles != [] && candles[|candles| - 1].start != t { CandleMissing(candles[..|candles| - 1], t); }
  }

  /**
   A window gets a row exactly when the candles at its start, two minutes and five minutes later are there. The row
   holds the open of the first, the close of the second and the open of the third, what the strategy says to the
   window's ticks up to then, and whether that was the direction of the third against the first.
   */
  lemma RowExactly(candles: seq<Candle>, t0: int, detect: Snapshot -> Option<Side>)
    ensures RowAt(candles, t0, detect).None?
       <==> At(candles, t0).None? || At(candles, t0 + 120).None? || At(candles, t0 + 300).None?
    ensures RowAt(candles, t0, detect).Some? ==>
              var row := RowAt(candles, t0, detect).value;
              var a, b, c := At(candles, t0).value, At(candles, t0 + 120).value, At(candles, t0 + 300).value;
              && row.windowOpenSec == t0 && row.priceAtOpen == a.open && row.priceAtT120 == b.close
              && row.priceAtT300 == c.open
              && row.side == detect(Snapshot(t0, t0 + 120, a.open, b.close, Ticks(candles, t0, t0 + 120)))
              && (row.hit == None <==> row.side == None)
              && (row.hit == Some(true)
                  <==> (row.side == Some(Up) && c.open > a.open) || (row.side == Some(Down) && c.open <= a.open))
  {
  }

  /** The windows visited: every full five minutes on the grid, from the first candle to the last. */
  lemma {:induction false} WindowsExactly(candles: seq<Candle>, t0: int, lastSec: int, detect: Snapshot -> Option<Side>,
                                          i: nat)
    requires t0 % 300 == 0 && i < |RowsFrom(candles, t0, lastSec, detect)|
    ensures var rows := RowsFrom(candles, t0, lastSec, detect);
            && t0 <= rows[i].windowOpenSec <= lastSec - 300 && rows[i].windowOpenSec % 300 == 0
            && (i > 0 ==> rows[i - 1].windowOpenSec < rows[i].windowOpenSec)
    decreases lastSec - t0
  {
    var first := OneOrNone(RowAt(candles, t0, detect));
    var rest := RowsFrom(candles, t0 + 300, lastSec, detect);
    if i >= |first| { WindowsExactly(candles, t0 + 300, lastSec, detect, i - |first|); }
  }

  /** The whole backtest starts at the first grid point at or after the first candle. */
  lemma StartsOnGrid(candles: seq<Candle>, detect: Snapshot -> Option<Side>) returns (t0: int)
    requires candles != []
    ensures t0 % 300 == 0 && candles[0].start <= t0 < candles[0].start + 300
    ensures Rows(candles, detect) == RowsFrom(candles, t0, candles[|candles| - 1].start, detect)
  {
    t0 := FirstAligned(candles[0].start);
  }
}

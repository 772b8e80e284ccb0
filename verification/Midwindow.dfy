/**
 The mid-window backtest: ticks reconstructed from minute candles along open, high, low and
 close, and one row per five-minute window with the candles it needs. The strategy is any
 function of the snapshot. Prices are exact.
 */
module Midwindow {

  import opened Wrappers

  const SUB_TICKS := 30
  const PER_LEG := 10
  const SUB_MS := 2000
  const WINDOW := 300

  datatype Candle = Candle(start: int, open: real, high: real, low: real, close: real)

  datatype Tick = Tick(ts: int, price: real)

  /** Sorted by start; the candles of one instrument are whole minutes. */
  ghost predicate Minutes(candles: seq<Candle>) {
    && (forall i :: 0 <= i < |candles| ==> candles[i].start % 60 == 0)
    && (forall i, j :: 0 <= i < j < |candles| ==> candles[i].start < candles[j].start)
  }

  function Waypoint(c: Candle, k: nat): real
    requires k <= 3
  {
    if k == 0 then c.open else if k == 1 then c.high else if k == 2 then c.low else c.close
  }

  /** Price k tenths of the way along a leg. */
  function Between(from: real, to: real, k: nat): real
    requires k <= PER_LEG
  {
    from + (to - from) * (k as real / 10.0)
  }

  /** Sub-tick n of a candle. */
  function SubTick(c: Candle, n: nat): Tick
    requires n < SUB_TICKS
  {
    Tick(c.start * 1000 + n * SUB_MS, Between(Waypoint(c, n / PER_LEG), Waypoint(c, n / PER_LEG + 1), n % PER_LEG))
  }

  /** The ticks of a candle so far: n sub-ticks, and the closing tick as the 31st. */
  function TickOf(c: Candle, n: nat): Tick
    requires n <= SUB_TICKS
  {
    if n < SUB_TICKS then SubTick(c, n) else Tick((c.start + 60) * 1000 - 1, c.close)
  }

  function TicksOf(c: Candle): (ticks: seq<Tick>)
    ensures |ticks| == SUB_TICKS + 1
  {
    seq(SUB_TICKS + 1, n requires 0 <= n <= SUB_TICKS => TickOf(c, n))
  }

  predicate Inside(c: Candle, startSec: int, endSec: int) {
    startSec <= c.start < endSec
  }

  function Ticks(candles: seq<Candle>, startSec: int, endSec: int): seq<Tick> {
    if candles == [] then []
    else
      var c := candles[|candles| - 1];
      Ticks(candles[..|candles| - 1], startSec, endSec) + if Inside(c, startSec, endSec) then TicksOf(c) else []
  }

  method ReconstructTicks(candles: seq<Candle>, startSec: int, endSec: int) returns (ticks: seq<Tick>)
    ensures ticks == Ticks(candles, startSec, endSec)
  {
    ticks := [];
    for i := 0 to |candles|
      invariant ticks == Ticks(candles[..i], startSec, endSec)
    {
      var c := candles[i];
      assert candles[..i + 1][..i] == candles[..i];
      if c.start < startSec || c.start >= endSec { continue; }
      var own := CandleTicks(c);
      ticks := ticks + own;
    }
    assert candles[..|candles|] == candles;
  }

  /** The three legs of one candle and its closing tick. */
  method CandleTicks(c: Candle) returns (ticks: seq<Tick>)
    ensures ticks == TicksOf(c)
  {
    ticks := [];
    var subIdx := 0;
    for leg := 0 to 3
      invariant subIdx == leg * PER_LEG && |ticks| == subIdx
      invariant forall n :: 0 <= n < subIdx ==> ticks[n] == TickOf(c, n)
    {
      var from, to := Waypoint(c, leg), Waypoint(c, leg + 1);
      for k := 0 to PER_LEG
        invariant subIdx == leg * PER_LEG + k && |ticks| == subIdx
        invariant forall n :: 0 <= n < subIdx ==> ticks[n] == TickOf(c, n)
      {
        assert subIdx / PER_LEG == leg && subIdx % PER_LEG == k;
        ticks := ticks + [Tick(c.start * 1000 + subIdx * SUB_MS, Between(from, to, k))];
        subIdx := subIdx + 1;
      }
    }
    ticks := ticks + [Tick((c.start + 60) * 1000 - 1, c.close)];
    assert forall n :: 0 <= n <= SUB_TICKS ==> ticks[n] == TickOf(c, n);
  }

  // ---------------------------------------------------------------- the backtest

  datatype Side = Up | Down

  datatype Snapshot = Snapshot(windowOpenSec: int, nowSec: int, priceAtOpen: real, priceNow: real,
                               ticksSinceOpen: seq<Tick>)

  datatype Row = Row(windowOpenSec: int, priceAtOpen: real, priceAtT120: real, priceAtT300: real, side: Option<Side>,
                     hit: Option<bool>)

  /** The candle that starts at t; the last one listed if several do. */
  function At(candles: seq<Candle>, t: int): (c: Option<Candle>)
    ensures c.Some? ==> c.value in candles && c.value.start == t
  {
    if candles == [] then None
    else if candles[|candles| - 1].start == t then Some(candles[|candles| - 1])
    else At(candles[..|candles| - 1], t)
  }

  function SnapshotAt(candles: seq<Candle>, t0: int, open: Candle, t120: Candle): Snapshot {
    Snapshot(t0, t0 + 120, open.open, t120.close, Ticks(candles, t0, t0 + 120))
  }

  function RowAt(candles: seq<Candle>, t0: int, detect: Snapshot -> Option<Side>): Option<Row> {
    var open, t120, t300 := At(candles, t0), At(candles, t0 + 120), At(candles, t0 + WINDOW);
    if open == None || t120 == None || t300 == None then None
    else
      var side := detect(SnapshotAt(candles, t0, open.value, t120.value));
      var up := t300.value.open > open.value.open;
      Some(Row(t0, open.value.open, t120.value.close, t300.value.open, side,
               if side == None then None else Some((side.value == Up) == up)))
  }

  /** The rows of the windows from t0 on. */
  function RowsFrom(candles: seq<Candle>, t0: int, lastSec: int, detect: Snapshot -> Option<Side>): seq<Row>
    decreases lastSec - t0
  {
    if t0 + WINDOW > lastSec then []
    else
      OneOrNone(RowAt(candles, t0, detect)) + RowsFrom(candles, t0 + WINDOW, lastSec, detect)
  }

  function OneOrNone(row: Option<Row>): seq<Row> {
    if row == None then [] else [row.value]
  }

  lemma RowsStep(rows: seq<Row>, row: Option<Row>, rest: seq<Row>)
    ensures rows + (OneOrNone(row) + rest) == (if row.Some? then rows + [row.value] else rows) + rest
  {
  }

  /** Math.ceil(sec / 300) * 300. */
  function FirstAligned(sec: int): (t: int)
    ensures t % WINDOW == 0 && sec <= t < sec + WINDOW
  {
    (sec + WINDOW - 1) / WINDOW * WINDOW
  }

  function Rows(candles: seq<Candle>, detect: Snapshot -> Option<Side>): seq<Row> {
    if candles == [] then []
    else RowsFrom(candles, FirstAligned(candles[0].start), candles[|candles| - 1].start, detect)
  }

  method RunBacktest(candles: seq<Candle>, detect: Snapshot -> Option<Side>) returns (rows: seq<Row>)
    ensures rows == Rows(candles, detect)
  {
    var byStart := ByStart(candles);
    rows := [];
    if |candles| == 0 { return; }
    var firstSec, lastSec := candles[0].start, candles[|candles| - 1].start;
    var t0 := FirstAligned(firstSec);
    ghost var whole := RowsFrom(candles, t0, lastSec, detect);
    assert rows + whole == whole;
    while t0 + WINDOW <= lastSec
      invariant rows + RowsFrom(candles, t0, lastSec, detect) == whole
      decreases lastSec - t0
    {
      ghost var rest := RowsFrom(candles, t0 + WINDOW, lastSec, detect);
      var row := OneRow(candles, byStart, t0, detect);
      RowsStep(rows, row, rest);
      if row.Some? { rows := rows + [row.value]; }
      t0 := t0 + WINDOW;
    }
    assert rows + [] == rows;
  }

  method ByStart(candles: seq<Candle>) returns (byStart: map<int, Candle>)
    ensures forall t :: (if t in byStart then Some(byStart[t]) else None) == At(candles, t)
  {
    byStart := map[];
    for i := 0 to |candles|
      invariant forall t :: (if t in byStart then Some(byStart[t]) else None) == At(candles[..i], t)
    {
      assert candles[..i + 1][..i] == candles[..i];
      byStart := byStart[candles[i].start := candles[i]];
    }
    assert candles[..|candles|] == candles;
  }

  method OneRow(candles: seq<Candle>, byStart: map<int, Candle>, t0: int, detect: Snapshot -> Option<Side>)
    returns (row: Option<Row>)
    requires forall t :: (if t in byStart then Some(byStart[t]) else None) == At(candles, t)
    ensures row == RowAt(candles, t0, detect)
  {
    if t0 !in byStart || t0 + 120 !in byStart || t0 + WINDOW !in byStart { return None; }
    var openC, t120C, t300C := byStart[t0], byStart[t0 + 120], byStart[t0 + WINDOW];
    var ticks := ReconstructTicks(candles, t0, t0 + 120);
    var side := detect(Snapshot(t0, t0 + 120, openC.open, t120C.close, ticks));
    var realizedUp := t300C.open > openC.open;
    var hit := if side == None then None
               else Some((side.value == Up && realizedUp) || (side.value == Down && !realizedUp));
    row := Some(Row(t0, openC.open, t120C.close, t300C.open, side, hit));
  }
}

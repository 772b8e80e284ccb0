/**
 The backward-paging candle backfill. The server holds minute candles and answers
 a request with the newest BATCH_LIMIT of them at or below `to_ts`; a run walks down
 from the clock, or from just below the oldest stored row, until it passes the lower
 bound, gets an empty page or is cut short by an error or a crash.
 */
module CoindeskBackfill {

  import opened CandleTable

  const BATCH_LIMIT := 2000
  const MINUTE := 60

  /** Start times of the candles of one instrument, oldest first; whole minutes are a minute apart. */
  ghost predicate Candles(avail: seq<int>) {
    forall i, j :: 0 <= i < j < |avail| ==> avail[i] + MINUTE <= avail[j]
  }

  /** How many candles start at or before `to`. */
  function Below(avail: seq<int>, to: int): (n: nat)
    ensures n <= |avail|
  {
    if avail == [] then 0
    else if avail[|avail| - 1] <= to then |avail|
    else Below(avail[..|avail| - 1], to)
  }

  lemma {:induction false} BelowSound(avail: seq<int>, to: int, i: nat)
    requires Candles(avail) && i < |avail|
    ensures i < Below(avail, to) <==> avail[i] <= to
  {
    if avail[|avail| - 1] > to && i < |avail| - 1 {
      BelowSound(avail[..|avail| - 1], to, i);
    }
  }

  /** Index of the oldest candle of the page that ends just before index n. */
  function PageStart(n: nat): (i: nat)
    requires n > 0
    ensures i < n
  {
    if n <= BATCH_LIMIT then 0 else n - BATCH_LIMIT
  }

  /** The server's answer: the newest BATCH_LIMIT candles at or below `to`. */
  function Page(avail: seq<int>, to: int): seq<int>
  {
    var n := Below(avail, to);
    if n == 0 then [] else avail[PageStart(n)..n]
  }

  datatype Stop = Bound | Error | Empty | NoProgress

  /** Complete: every request is answered. Cut(p): answered p times, then an error or a crash. */
  datatype Fate = Complete | Cut(pages: nat)

  function Next(fate: Fate): Fate {
    match fate
    case Complete => Complete
    case Cut(p) => Cut(if p == 0 then 0 else p - 1)
  }

  /** A run: its clock, its lower bound and how long it lasts. */
  datatype Run = Run(now: int, lower: int, fate: Fate)

  datatype Walked = Walked(lo: nat, calls: nat, stopped: Stop)

  /** Starts a minute apart make `earliest - 60` the exact next cursor. */
  lemma BelowIndex(avail: seq<int>, i: nat)
    requires Candles(avail) && i < |avail|
    ensures Below(avail, avail[i] - MINUTE) == i
  {
    var n := Below(avail, avail[i] - MINUTE);
    BelowSound(avail, avail[i] - MINUTE, i);
    if n < i { BelowSound(avail, avail[i] - MINUTE, n); }
  }

  /** The cursor one minute below candle i: everything before it and nothing else. */
  function Cursor(avail: seq<int>, i: nat): (ts: int)
    requires Candles(avail) && i < |avail|
    ensures Below(avail, ts) == i
  {
    BelowIndex(avail, i);
    avail[i] - MINUTE
  }

  /** The cursor that follows the page at `to`. */
  function NextTs(avail: seq<int>, to: int): (next: int)
    requires Candles(avail) && Below(avail, to) > 0
    ensures next < to
    ensures Below(avail, next) == PageStart(Below(avail, to))
    ensures |Page(avail, to)| > 0 && Page(avail, to)[0] - MINUTE == next
  {
    var i := PageStart(Below(avail, to));
    BelowSound(avail, to, i);
    BelowIndex(avail, i);
    avail[i] - MINUTE
  }

  /** The walk down from `toTs`: index of the oldest candle stored, requests answered, why it stopped. */
  function Walk(avail: seq<int>, lower: int, toTs: int, fate: Fate): (w: Walked)
    requires Candles(avail)
    ensures w.lo <= Below(avail, toTs)
    decreases toTs - lower
  {
    var n := Below(avail, toTs);
    if toTs <= lower then Walked(n, 0, Bound)
    else if fate == Cut(0) then Walked(n, 0, Error)
    else if n == 0 then Walked(n, 1, Empty)
    else
      var w := Walk(avail, lower, NextTs(avail, toTs), Next(fate));
      Walked(w.lo, w.calls + 1, w.stopped)
  }

  // ---------------------------------------------------------------- the table and one run

  /** Where a run starts: the clock, or one minute below the oldest stored row if that is earlier. */
  function StartTs(stored: set<int>, now: int): int {
    match OldestRow(stored)
    case None => now
    case Some(m) => if now <= m - MINUTE then now else m - MINUTE
  }

  datatype Swept = Swept(stored: set<int>, calls: nat, stopped: Stop)

  /** The loop: page after page into the table. */
  function Sweep(avail: seq<int>, stored: set<int>, lower: int, toTs: int, fate: Fate, calls: nat): Swept
    decreases toTs - lower
  {
    if toTs <= lower then Swept(stored, calls, Bound)
    else if fate == Cut(0) then Swept(stored, calls, Error)
    else
      var rows := Page(avail, toTs);
      if |rows| == 0 then Swept(stored, calls + 1, Empty)
      else if rows[0] - MINUTE >= toTs then Swept(stored + Rows(rows), calls + 1, NoProgress)
      else Sweep(avail, stored + Rows(rows), lower, rows[0] - MINUTE, Next(fate), calls + 1)
  }

  function SweepOf(avail: seq<int>, stored: set<int>, run: Run): Swept
  {
    Sweep(avail, stored, run.lower, StartTs(stored, run.now), run.fate, 0)
  }

  /** A page on top of the block below it is the longer block. */
  lemma PageOnBlock(avail: seq<int>, stored: set<int>, lo: nat, toTs: int)
    requires Candles(avail) && Below(avail, toTs) > 0
    requires lo <= PageStart(Below(avail, toTs))
    ensures var n := Below(avail, toTs);
            stored + Rows(Page(avail, toTs)) + Rows(avail[lo..PageStart(n)]) == stored + Rows(avail[lo..n])
  {
    var n := Below(avail, toTs);
    RowsSplit(avail, lo, PageStart(n), n);
  }

  /** What a sweep should leave: the walk's block on top of the table. */
  function SweptBlock(avail: seq<int>, stored: set<int>, lower: int, toTs: int, fate: Fate, calls: nat): Swept
    requires Candles(avail)
  {
    var w := Walk(avail, lower, toTs, fate);
    Swept(stored + Rows(avail[w.lo..Below(avail, toTs)]), w.calls + calls, w.stopped)
  }

  lemma BlockStep(avail: seq<int>, stored: set<int>, lower: int, toTs: int, fate: Fate, calls: nat)
    requires Candles(avail) && toTs > lower && fate != Cut(0) && Below(avail, toTs) > 0
    ensures SweptBlock(avail, stored + Rows(Page(avail, toTs)), lower, NextTs(avail, toTs), Next(fate), calls + 1)
         == SweptBlock(avail, stored, lower, toTs, fate, calls)
  {
    PageOnBlock(avail, stored, Walk(avail, lower, NextTs(avail, toTs), Next(fate)).lo, toTs);
  }

  lemma EmptyBlock(avail: seq<int>, stored: set<int>, n: nat)
    requires n <= |avail|
    ensures stored + Rows(avail[n..n]) == stored
  {
    assert avail[n..n] == [];
  }

  lemma SweepStep(avail: seq<int>, stored: set<int>, lower: int, toTs: int, fate: Fate, calls: nat)
    requires Candles(avail) && toTs > lower && fate != Cut(0) && Below(avail, toTs) > 0
    ensures Sweep(avail, stored, lower, toTs, fate, calls)
         == Sweep(avail, stored + Rows(Page(avail, toTs)), lower, NextTs(avail, toTs), Next(fate), calls + 1)
  {
    var next := NextTs(avail, toTs);
  }

  /** A sweep stores a block of candles: the ones from where the walk ends up to the cursor it started at. */
  lemma {:induction false} SweepIsWalk(avail: seq<int>, stored: set<int>, lower: int, toTs: int, fate: Fate, calls: nat)
    requires Candles(avail)
    ensures Sweep(avail, stored, lower, toTs, fate, calls) == SweptBlock(avail, stored, lower, toTs, fate, calls)
    decreases toTs - lower
  {
    var n := Below(avail, toTs);
    if toTs <= lower || fate == Cut(0) || n == 0 {
      EmptyBlock(avail, stored, n);
    } else {
      SweepStep(avail, stored, lower, toTs, fate, calls);
      SweepIsWalk(avail, stored + Rows(Page(avail, toTs)), lower, NextTs(avail, toTs), Next(fate), calls + 1);
      BlockStep(avail, stored, lower, toTs, fate, calls);
    }
  }

  // ---------------------------------------------------------------- the reported ends

  function Min(a: int, b: int): int {
    if b < a then b else a
  }

  function Max(a: int, b: int): int {
    if b > a then b else a
  }

  /** The loop's oldest and newest start time, in step with `Sweep`. */
  datatype Ends = Ends(oldest: int, newest: int)

  function Widen(ends: Ends, rows: seq<int>): Ends
    requires |rows| > 0
  {
    Ends(Min(ends.oldest, rows[0]), Max(ends.newest, rows[|rows| - 1]))
  }

  function EndsOf(avail: seq<int>, lower: int, toTs: int, fate: Fate, ends: Ends): Ends
    decreases toTs - lower
  {
    if toTs <= lower || fate == Cut(0) then ends
    else
      var rows := Page(avail, toTs);
      if |rows| == 0 then ends
      else if rows[0] - MINUTE >= toTs then Widen(ends, rows)
      else EndsOf(avail, lower, rows[0] - MINUTE, Next(fate), Widen(ends, rows))
  }

  /** The ends of a block of candles, folded into the ends so far. */
  function BlockEnds(avail: seq<int>, lo: nat, n: nat, ends: Ends): Ends
    requires lo <= n <= |avail|
  {
    if lo == n then ends else Ends(Min(ends.oldest, avail[lo]), Max(ends.newest, avail[n - 1]))
  }

  lemma PageEnds(avail: seq<int>, toTs: int, ends: Ends)
    requires Candles(avail) && Below(avail, toTs) > 0
    ensures |Page(avail, toTs)| > 0
    ensures Widen(ends, Page(avail, toTs))
         == BlockEnds(avail, PageStart(Below(avail, toTs)), Below(avail, toTs), ends)
  {
    var n, rows := Below(avail, toTs), Page(avail, toTs);
    assert rows[0] == avail[PageStart(n)] && rows[|rows| - 1] == avail[n - 1];
  }

  lemma EndsStep(avail: seq<int>, lower: int, toTs: int, fate: Fate, ends: Ends)
    requires Candles(avail) && toTs > lower && fate != Cut(0) && Below(avail, toTs) > 0
    ensures EndsOf(avail, lower, toTs, fate, ends)
         == EndsOf(avail, lower, NextTs(avail, toTs), Next(fate),
                   BlockEnds(avail, PageStart(Below(avail, toTs)), Below(avail, toTs), ends))
  {
    PageEnds(avail, toTs, ends);
    var _ := NextTs(avail, toTs);
  }

  lemma BlocksJoin(avail: seq<int>, lo: nat, mid: nat, n: nat, ends: Ends)
    requires Candles(avail) && lo <= mid < n <= |avail|
    ensures BlockEnds(avail, lo, mid, BlockEnds(avail, mid, n, ends)) == BlockEnds(avail, lo, n, ends)
  {
  }

  /** The reported ends are the ends of the block the sweep stores. */
  lemma {:induction false} EndsAreBlock(avail: seq<int>, lower: int, toTs: int, fate: Fate, ends: Ends)
    requires Candles(avail)
    ensures EndsOf(avail, lower, toTs, fate, ends)
         == BlockEnds(avail, Walk(avail, lower, toTs, fate).lo, Below(avail, toTs), ends)
    decreases toTs - lower
  {
    var n := Below(avail, toTs);
    if toTs > lower && fate != Cut(0) && n > 0 {
      var next, mid := NextTs(avail, toTs), PageStart(n);
      EndsStep(avail, lower, toTs, fate, ends);
      EndsAreBlock(avail, lower, next, Next(fate), BlockEnds(avail, mid, n, ends));
      BlocksJoin(avail, Walk(avail, lower, next, Next(fate)).lo, mid, n, ends);
    }
  }

  /** `toTs` before the loop. */
  method StartAt(table: Table, run: Run) returns (toTs: int)
    ensures toTs == StartTs(table.stored, run.now)
  {
    toTs := run.now;
    var existing := OldestRow(table.stored);
    if existing.Some? {
      toTs := if toTs <= existing.value - MINUTE then toTs else existing.value - MINUTE;
    }
  }

  // ---------------------------------------------------------------- the loop

  /** The variables of the loop. */
  datatype Loop = Loop(stored: set<int>, toTs: int, fate: Fate, calls: nat, ends: Ends, inserted: nat)

  /** One page goes in and the cursor goes down. */
  function Turn(avail: seq<int>, s: Loop): Loop
    requires |Page(avail, s.toTs)| > 0
  {
    var rows := Page(avail, s.toTs);
    Loop(s.stored + Rows(rows), rows[0] - MINUTE, Next(s.fate), s.calls + 1, Widen(s.ends, rows),
         s.inserted + NewRows(s.stored, rows))
  }

  predicate Goes(avail: seq<int>, lower: int, s: Loop) {
    && s.toTs > lower && s.fate != Cut(0)
    && |Page(avail, s.toTs)| > 0 && Page(avail, s.toTs)[0] - MINUTE < s.toTs
  }

  /** n turns lead from one state of the loop to the other. */
  ghost predicate Turns(avail: seq<int>, lower: int, a: Loop, b: Loop, n: nat)
    decreases n
  {
    if n == 0 then a == b else Goes(avail, lower, a) && Turns(avail, lower, Turn(avail, a), b, n - 1)
  }

  ghost predicate Reached(avail: seq<int>, lower: int, a: Loop, b: Loop) {
    exists n: nat :: Turns(avail, lower, a, b, n)
  }

  /** Where and how the loop ends when it does not go on. */
  ghost predicate Closes(avail: seq<int>, lower: int, s: Loop, last: Loop, stopped: Stop) {
    if s.toTs <= lower then last == s && stopped == Bound
    else if s.fate == Cut(0) then last == s && stopped == Error
    else if |Page(avail, s.toTs)| == 0 then last == s.(calls := s.calls + 1) && stopped == Empty
    else Page(avail, s.toTs)[0] - MINUTE >= s.toTs && last == Turn(avail, s) && stopped == NoProgress
  }

  ghost predicate Ended(avail: seq<int>, lower: int, start: Loop, last: Loop, stopped: Stop) {
    exists s :: Reached(avail, lower, start, s) && Closes(avail, lower, s, last, stopped)
  }

  lemma ReachedStart(avail: seq<int>, lower: int, s: Loop)
    ensures Reached(avail, lower, s, s)
  {
    assert Turns(avail, lower, s, s, 0);
  }

  lemma {:induction false} TurnsMore(avail: seq<int>, lower: int, a: Loop, b: Loop, n: nat)
    requires Turns(avail, lower, a, b, n) && Goes(avail, lower, b)
    ensures Turns(avail, lower, a, Turn(avail, b), n + 1)
    decreases n
  {
    if n > 0 { TurnsMore(avail, lower, Turn(avail, a), b, n - 1); }
  }

  lemma ReachedMore(avail: seq<int>, lower: int, a: Loop, b: Loop)
    requires Reached(avail, lower, a, b) && Goes(avail, lower, b)
    ensures Reached(avail, lower, a, Turn(avail, b))
  {
    var n: nat :| Turns(avail, lower, a, b, n);
    TurnsMore(avail, lower, a, b, n);
  }

  /** What a sweep from here comes to. */
  function SweepFrom(avail: seq<int>, lower: int, s: Loop): Swept {
    Sweep(avail, s.stored, lower, s.toTs, s.fate, s.calls)
  }

  function EndsFrom(avail: seq<int>, lower: int, s: Loop): Ends {
    EndsOf(avail, lower, s.toTs, s.fate, s.ends)
  }

  lemma SweepTurn(avail: seq<int>, lower: int, s: Loop)
    requires Goes(avail, lower, s)
    ensures SweepFrom(avail, lower, s) == SweepFrom(avail, lower, Turn(avail, s))
    ensures EndsFrom(avail, lower, s) == EndsFrom(avail, lower, Turn(avail, s))
  {
  }

  lemma {:induction false} TurnsSweep(avail: seq<int>, lower: int, a: Loop, b: Loop, n: nat)
    requires Turns(avail, lower, a, b, n)
    ensures SweepFrom(avail, lower, a) == SweepFrom(avail, lower, b)
    ensures EndsFrom(avail, lower, a) == EndsFrom(avail, lower, b)
    decreases n
  {
    if n > 0 {
      var next := Turn(avail, a);
      SweepTurn(avail, lower, a);
      TurnsSweep(avail, lower, next, b, n - 1);
    }
  }

  lemma TurnGrows(avail: seq<int>, s: Loop)
    requires |Page(avail, s.toTs)| > 0
    ensures |Turn(avail, s).stored| - Turn(avail, s).inserted == |s.stored| - s.inserted
  {
    NewRowsGrow(s.stored, Page(avail, s.toTs));
  }

  lemma {:induction false} TurnsGrow(avail: seq<int>, lower: int, a: Loop, b: Loop, n: nat)
    requires Turns(avail, lower, a, b, n)
    ensures |b.stored| - b.inserted == |a.stored| - a.inserted
    decreases n
  {
    if n > 0 {
      TurnGrows(avail, a);
      TurnsGrow(avail, lower, Turn(avail, a), b, n - 1);
    }
  }

  /** The loop's last state is what the specified sweep comes to. */
  lemma EndedIsSweep(avail: seq<int>, lower: int, start: Loop, last: Loop, stopped: Stop)
    requires Ended(avail, lower, start, last, stopped)
    ensures SweepFrom(avail, lower, start) == Swept(last.stored, last.calls, stopped)
    ensures EndsFrom(avail, lower, start) == last.ends
  {
    var s :| Reached(avail, lower, start, s) && Closes(avail, lower, s, last, stopped);
    var n: nat :| Turns(avail, lower, start, s, n);
    TurnsSweep(avail, lower, start, s, n);
  }

  lemma EndedGrows(avail: seq<int>, lower: int, start: Loop, last: Loop, stopped: Stop)
    requires Ended(avail, lower, start, last, stopped)
    ensures |last.stored| - last.inserted == |start.stored| - start.inserted
  {
    var s :| Reached(avail, lower, start, s) && Closes(avail, lower, s, last, stopped);
    var n: nat :| Turns(avail, lower, start, s, n);
    TurnsGrow(avail, lower, start, s, n);
    if stopped.NoProgress? { TurnGrows(avail, s); }
  }

  /** One page into the table, and the reported ends with it. */
  method StorePage(table: Table, rows: seq<int>, before: Ends) returns (inserted: nat, ends: Ends)
    requires |rows| > 0
    modifies table
    ensures table.stored == old(table.stored) + Rows(rows)
    ensures ends == Widen(before, rows) && inserted == NewRows(old(table.stored), rows)
  {
    NewRowsGrow(table.stored, rows);
    inserted := table.InsertBatch(rows);
    var earliest, latest := rows[0], rows[|rows| - 1];
    ends := before;
    if earliest < ends.oldest { ends := ends.(oldest := earliest); }
    if latest > ends.newest { ends := ends.(newest := latest); }
  }

  /** The loop from a cursor down. */
  method WalkDown(table: Table, avail: seq<int>, run: Run, startTs: int)
    returns (inserted: nat, calls: nat, ends: Ends, stopped: Stop, ghost last: Loop)
    modifies table
    ensures Ended(avail, run.lower, Loop(old(table.stored), startTs, run.fate, 0, Ends(run.now, 0), 0), last, stopped)
    ensures last.stored == table.stored && last.calls == calls && last.ends == ends && last.inserted == inserted
  {
    inserted, calls, ends := 0, 0, Ends(run.now, 0);
    var toTs, fate := startTs, run.fate;
    last := Loop(table.stored, toTs, fate, calls, ends, inserted);
    ReachedStart(avail, run.lower, last);
    ghost var start := last;
    while true
      invariant last == Loop(table.stored, toTs, fate, calls, ends, inserted)
      invariant Reached(avail, run.lower, start, last)
      decreases toTs - run.lower
    {
      ghost var s := last;
      if toTs <= run.lower { stopped := Bound; break; }
      if fate == Cut(0) { stopped := Error; break; }
      var rows := Page(avail, toTs);
      calls := calls + 1;
      if |rows| == 0 { stopped, last := Empty, s.(calls := calls); break; }
      var added;
      added, ends := StorePage(table, rows, ends);
      inserted, last := inserted + added, Turn(avail, s);
      var nextToTs := rows[0] - MINUTE;
      if nextToTs >= toTs { stopped := NoProgress; break; }
      ReachedMore(avail, run.lower, start, s);
      toTs, fate := nextToTs, Next(fate);
    }
  }

  method BackfillInstrument(table: Table, avail: seq<int>, run: Run)
    returns (inserted: nat, calls: nat, oldest: int, newest: int, stopped: Stop)
    modifies table
    ensures Swept(table.stored, calls, stopped) == SweepOf(avail, old(table.stored), run)
    ensures inserted == |table.stored| - |old(table.stored)|
    ensures Ends(oldest, newest)
         == EndsOf(avail, run.lower, StartTs(old(table.stored), run.now), run.fate, Ends(run.now, 0))
  {
    var toTs := StartAt(table, run);
    ghost var start := Loop(table.stored, toTs, run.fate, 0, Ends(run.now, 0), 0);
    var ends;
    ghost var last;
    inserted, calls, ends, stopped, last := WalkDown(table, avail, run, toTs);
    EndedIsSweep(avail, run.lower, start, last, stopped);
    EndedGrows(avail, run.lower, start, last, stopped);
    oldest, newest := ends.oldest, ends.newest;
  }
}

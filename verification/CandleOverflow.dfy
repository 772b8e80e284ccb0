/**
 The 350-candle limit of the historical candle backfill: which request windows hold more
 candles than one answer can carry, and what becomes of the candle that is left out.
 */
module CandleOverflow {

  import opened CandleTable
  import opened CandleTiling
  import opened CandleWindows
  import opened Wrappers

  /** The window holds a candle more than an answer may. */
  predicate Overflows(w: Window, g: nat)
    requires g > 0
  {
    Starts(g, w.start, w.end) > MAX_CANDLES
  }

  lemma ModShift(x: int, g: nat, m: nat)
    requires g > 0
    ensures (x - m * g) % g == x % g
  {
    DivShift(x, g, m);
    assert x - m * g == (x / g - m) * g + x % g;
    DivModUnique(x - m * g, x / g - m, x % g, g);
  }

  /** a - k is a candle start. */
  predicate Lands(a: int, g: nat, k: int)
    requires g > 0
  {
    (a - k) % g == 0
  }

  lemma FullBefore(since: int, g: nat, earliest: int, k: nat)
    requires k > 0 && End(since, g, earliest, k) >= since
    ensures End(since, g, earliest, k - 1) - Span(g) >= since
  {
  }

  /** k windows further down the end has moved by k full spans and k seconds. */
  lemma EndAt(since: int, g: nat, earliest: int, k: nat)
    requires g > 0 && (k > 0 ==> End(since, g, earliest, k - 1) - Span(g) >= since)
    ensures End(since, g, earliest, k) == (earliest - k) - (MAX_CANDLES * k) * g
  {
    EndIs(since, g, earliest, k);
    TimesIs(k, Span(g) + 1);
    Distribute(k, g);
  }

  lemma Distribute(k: nat, g: nat)
    ensures k * (Span(g) + 1) == k + (MAX_CANDLES * k) * g
  {
  }

  /** Among the windows before the clamped one, window k overflows exactly when earliest - k is a candle start. */
  lemma OverflowAt(since: int, g: nat, earliest: int, k: nat)
    requires g > 0 && End(since, g, earliest, k) - Span(g) >= since
    ensures Overflows(WindowAt(since, g, End(since, g, earliest, k)), g) <==> Lands(earliest, g, k)
  {
    FullWindowStarts(g, End(since, g, earliest, k));
    if k > 0 { FullBefore(since, g, earliest, k); }
    EndAt(since, g, earliest, k);
    ModShift(earliest - k, g, MAX_CANDLES * k);
  }

  /** Of any g consecutive numbers exactly one has a given residue. */
  lemma OneResidue(a: int, g: nat, base: nat) returns (k: nat)
    requires g > 0
    ensures base <= k < base + g && Lands(a, g, k)
    ensures forall j :: base <= j < base + g && Lands(a, g, j) ==> j == k
  {
    var q, r := (a - base) / g, (a - base) % g;
    assert a - base == q * g + r;
    k := base + r;
    DivModUnique(a - k, q, 0, g);
    forall j | base <= j < base + g && Lands(a, g, j) ensures j == k {
      assert a - j == ((a - j) / g) * g;
      assert k - j == ((a - j) / g - q) * g by {
        assert k - j == (a - j) - q * g;
      }
      SmallMultiple((a - j) / g - q, g, k - j);
    }
  }

  /** Exactly one of every g consecutive unclamped windows overflows. */
  lemma OneOverflowInEvery(windows: seq<Window>, since: int, g: nat, earliest: int, base: nat) returns (k: nat)
    requires g > 0 && Tiles(windows, since, g, earliest) && base + g <= |windows|
    requires forall j :: base <= j < base + g ==> windows[j].end - Span(g) >= since
    ensures base <= k < base + g && Overflows(windows[k], g)
    ensures forall j :: base <= j < base + g && Overflows(windows[j], g) ==> j == k
  {
    k := OneResidue(earliest, g, base);
    forall j | base <= j < base + g
      ensures Overflows(windows[j], g) <==> Lands(earliest, g, j)
    {
      OverflowAt(since, g, earliest, j);
    }
  }

  /** A resumed walk starts on a stored candle, so its first full window overflows. */
  lemma ResumeOverflows(since: int, g: nat, earliest: int)
    requires g > 0 && earliest % g == 0 && earliest - Span(g) >= since
    ensures Overflows(WindowAt(since, g, earliest), g)
  {
    OverflowAt(since, g, earliest, 0);
  }

  // ---------------------------------------------------------------- the candle left out

  /** The candle starts of a window, newest first down to the n-th. */
  function Aligned(g: nat, end: int, n: nat): (s: set<int>)
    requires g > 0
    ensures forall t :: t in s ==> end - Times(n, g) < t <= end
    decreases n
  {
    if n == 0 then {} else Aligned(g, end, n - 1) + {end - Times(n - 1, g)}
  }

  lemma {:induction false} AlignedSize(g: nat, end: int, n: nat)
    requires g > 0
    ensures |Aligned(g, end, n)| == n
  {
    if n > 0 { AlignedSize(g, end, n - 1); }
  }

  lemma {:induction false} AlignedStarts(g: nat, end: int, n: nat)
    requires g > 0 && end % g == 0
    ensures forall t :: t in Aligned(g, end, n) ==> t % g == 0
  {
    if n > 0 {
      AlignedStarts(g, end, n - 1);
      TimesIs(n - 1, g);
      ModShift(end, g, n - 1);
    }
  }

  lemma {:induction false} RowsSize(rows: seq<int>)
    ensures |Rows(rows)| <= |rows|
  {
    if rows != [] { RowsSize(rows[..|rows| - 1]); }
  }

  /** An answer to an overflowing window leaves out a candle start of that window. */
  lemma OverflowMisses(since: int, g: nat, end: int, rows: seq<int>) returns (missed: int)
    requires g > 0 && end - Span(g) >= since && Overflows(WindowAt(since, g, end), g)
    requires |rows| <= MAX_CANDLES
    ensures WindowAt(since, g, end).Holds(missed) && missed % g == 0 && missed !in Rows(rows)
  {
    FullWindowStarts(g, end);
    var all := Aligned(g, end, MAX_CANDLES + 1);
    AlignedSize(g, end, MAX_CANDLES + 1);
    AlignedStarts(g, end, MAX_CANDLES + 1);
    RowsSize(rows);
    TimesIs(MAX_CANDLES, g);
    if forall t :: t in all ==> t in Rows(rows) {
      SubsetSize(all, Rows(rows));
      assert false;
    }
    missed :| missed in all && missed !in Rows(rows);
    AlignedLow(g, end, MAX_CANDLES + 1, missed);
  }

  lemma {:induction false} SubsetSize(a: set<int>, b: set<int>)
    requires forall t :: t in a ==> t in b
    ensures |a| <= |b|
  {
    if a != {} {
      if forall t :: t !in a { assert false; }
      var t :| t in a;
      SubsetSize(a - {t}, b - {t});
    }
  }

  lemma {:induction false} AlignedLow(g: nat, end: int, n: nat, t: int)
    requires g > 0 && n > 0 && t in Aligned(g, end, n)
    ensures end - Times(n - 1, g) <= t <= end
  {
    if t in Aligned(g, end, n - 1) {
      AlignedLow(g, end, n - 1, t);
    }
  }

  // ---------------------------------------------------------------- later runs

  /** Every answer holds only candles of its window. */
  ghost predicate Honest(since: int, g: nat, end: int, replies: seq<Reply>)
    decreases |replies|
  {
    if end <= since || replies == [] then true
    else
      match replies[0]
      case Fails => Honest(since, g, end, replies[1..])
      case Page(rows) =>
        var w := WindowAt(since, g, end);
        (forall t :: t in rows ==> w.Holds(t)) && Honest(since, g, w.start - 1, replies[1..])
  }

  lemma {:induction false} WalkStaysBelow(since: int, g: nat, end: int, replies: seq<Reply>, empties: nat,
                                          windows: seq<Window>, stored: set<int>, t: int)
    requires Honest(since, g, end, replies) && t > end
    ensures var after := Walk(since, g, end, replies, empties, windows, stored).stored;
            stored <= after && (t in after <==> t in stored)
    decreases |replies|
  {
    if end > since && replies != [] {
      var w := WindowAt(since, g, end);
      match replies[0] {
        case Fails => WalkStaysBelow(since, g, end, replies[1..], empties, windows, stored, t);
        case Page(rows) =>
          RowsIn(rows, t);
          if |rows| > 0 {
            WalkStaysBelow(since, g, w.start - 1, replies[1..], 0, windows + [w], stored + Rows(rows), t);
          } else if empties < 2 {
            WalkStaysBelow(since, g, w.start - 1, replies[1..], empties + 1, windows + [w], stored, t);
          }
      }
    }
  }

  datatype RunInput = RunInput(now: int, since: int, replies: seq<Reply>)

  function AfterRuns(g: nat, db: Db, runs: seq<RunInput>): Db
    decreases |runs|
  {
    if runs == [] then db
    else AfterRuns(g, AfterRun(db, runs[0].now, runs[0].since, g, runs[0].replies), runs[1..])
  }

  ghost predicate HonestRuns(g: nat, db: Db, runs: seq<RunInput>)
    decreases |runs|
  {
    runs != [] ==>
      && Honest(runs[0].since, g, db.Earliest(runs[0].now), runs[0].replies)
      && HonestRuns(g, AfterRun(db, runs[0].now, runs[0].since, g, runs[0].replies), runs[1..])
  }

  /** A meta row names a stored candle, the oldest when it was written. */
  predicate Marked(db: Db) {
    db.meta.Some? && db.meta.value in db.stored
  }

  lemma RunAboveMeta(g: nat, db: Db, now: int, since: int, replies: seq<Reply>, t: int)
    requires Marked(db) && t > db.meta.value && Honest(since, g, db.meta.value, replies)
    ensures var after := AfterRun(db, now, since, g, replies);
            Marked(after) && after.meta.value <= db.meta.value && (t in after.stored <==> t in db.stored)
  {
    WalkStaysBelow(since, g, db.meta.value, replies, 0, [], db.stored, t);
    var w := Walk(since, g, db.meta.value, replies, 0, [], db.stored);
    assert db.meta.value in w.stored;
    assert IsOldest(w.stored, OldestRow(w.stored));
  }

  /**
   Once a run has written the meta row, no series of later runs, killed or not, changes anything
   above it: a candle missing there stays missing.
   */
  lemma {:induction false} NeverRefetched(g: nat, db: Db, runs: seq<RunInput>, t: int)
    requires Marked(db) && t > db.meta.value && HonestRuns(g, db, runs)
    ensures t in AfterRuns(g, db, runs).stored <==> t in db.stored
    decreases |runs|
  {
    if runs != [] {
      var r := runs[0];
      RunAboveMeta(g, db, r.now, r.since, r.replies, t);
      NeverRefetched(g, AfterRun(db, r.now, r.since, g, r.replies), runs[1..], t);
    }
  }

  /** Answers that lead the walk down to the window of t and deliver t there. */
  lemma {:induction false} Reachable(since: int, g: nat, end: int, t: int, stored: set<int>, windows: seq<Window>)
    returns (replies: seq<Reply>)
    requires since < t <= end
    ensures Honest(since, g, end, replies)
    ensures t in Walk(since, g, end, replies, 0, windows, stored).stored
    decreases end - t
  {
    var w := WindowAt(since, g, end);
    var rest: seq<Reply>, row := [], t;
    if t < w.start {
      row := w.start;
      rest := Reachable(since, g, w.start - 1, t, stored + Rows([row]), windows + [w]);
    } else {
      RowsIn([t], t);
    }
    replies := [Page([row])] + rest;
    assert replies[1..] == rest;
  }

  ghost predicate Delivers(db: Db, now: int, since: int, g: nat, t: int, replies: seq<Reply>) {
    Honest(since, g, db.Earliest(now), replies) && t in AfterRun(db, now, since, g, replies).stored
  }

  /** The next run can store a missing candle exactly when it starts at or above it. */
  lemma NextRunDelivers(db: Db, now: int, since: int, g: nat, t: int)
    requires t !in db.stored && since < t
    ensures (exists replies :: Delivers(db, now, since, g, t, replies)) <==> t <= db.Earliest(now)
  {
    var end := db.Earliest(now);
    if t <= end {
      var replies := Reachable(since, g, end, t, db.stored, []);
      assert Delivers(db, now, since, g, t, replies);
    } else {
      forall replies | Honest(since, g, end, replies)
        ensures !Delivers(db, now, since, g, t, replies)
      {
        WalkStaysBelow(since, g, end, replies, 0, [], db.stored, t);
      }
    }
  }

  const NEW_DB := Db({}, None)
  const KILLED := RunInput(60, -100000, [Page([0])])
  const AGAIN := RunInput(60, -100000, [Page([60])])

  /** A killed first run writes no meta row, so the next one starts at the clock and stores what was missing. */
  lemma KilledRunStartsOver()
    ensures HonestRuns(60, NEW_DB, [KILLED, AGAIN])
    ensures AfterRuns(60, NEW_DB, [KILLED]) == Db({0}, None)
    ensures AfterRuns(60, NEW_DB, [KILLED, AGAIN]).stored == {0, 60}
  {
    var db := Db({0}, None);
    assert [KILLED][1..] == [] && [KILLED, AGAIN][1..] == [AGAIN] && [AGAIN][1..] == [];
    assert AfterRun(NEW_DB, 60, -100000, 60, [Page([0])]) == db;
    assert Rows([60]) == {60};
    assert AfterRun(db, 60, -100000, 60, [Page([60])]).stored == {0, 60};
    assert AfterRuns(60, db, [AGAIN]).stored == {0, 60};
    assert AfterRuns(60, NEW_DB, [KILLED, AGAIN]) == AfterRuns(60, db, [AGAIN]);
  }
}

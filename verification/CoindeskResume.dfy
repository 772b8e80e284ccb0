/**
 Crash and resume equivalence of the candle backfill: however often a run is cut
 short and started again, the table ends as one uninterrupted run would leave it.
 */
module CoindeskResume {

  import opened CandleTable
  import opened CoindeskBackfill
  import opened Wrappers

  /** The table after a series of runs. */
  function Campaign(avail: seq<int>, stored: set<int>, runs: seq<Run>): set<int>
    requires Candles(avail)
    decreases |runs|
  {
    if runs == [] then stored else Campaign(avail, After(avail, stored, runs[0]), runs[1..])
  }

  function After(avail: seq<int>, stored: set<int>, run: Run): set<int>
    requires Candles(avail)
  {
    SweepOf(avail, stored, run).stored
  }

  /** The clock never goes back from one run to the next. */
  ghost predicate Clocked(runs: seq<Run>) {
    forall i, j :: 0 <= i < j < |runs| ==> runs[i].now <= runs[j].now
  }

  /** Candles lo up to hi, as a table. */
  function Block(avail: seq<int>, lo: nat, hi: nat): set<int>
    requires lo <= hi <= |avail|
  {
    Rows(avail[lo..hi])
  }

  lemma InBlock(avail: seq<int>, lo: nat, hi: nat, i: nat)
    requires Candles(avail) && lo <= hi <= |avail| && i < |avail|
    ensures avail[i] in Block(avail, lo, hi) <==> lo <= i < hi
  {
    RowsIn(avail[lo..hi], avail[i]);
    if lo <= i < hi {
      assert avail[lo..hi][i - lo] == avail[i];
    }
  }

  /** The first run on an empty table. */
  lemma Fresh(avail: seq<int>, run: Run)
    requires Candles(avail)
    ensures var w := Walk(avail, run.lower, run.now, run.fate);
            After(avail, {}, run) == Block(avail, w.lo, Below(avail, run.now))
  {
    SweepIsWalk(avail, {}, run.lower, run.now, run.fate, 0);
  }

  lemma OldestOfBlock(avail: seq<int>, lo: nat, hi: nat)
    requires Candles(avail) && lo < hi <= |avail|
    ensures OldestRow(Block(avail, lo, hi)) == Some(avail[lo])
  {
    var stored := Block(avail, lo, hi);
    InBlock(avail, lo, hi, lo);
    forall x | x in stored ensures avail[lo] <= x {
      RowsIn(avail[lo..hi], x);
    }
  }

  lemma StartOfBlock(avail: seq<int>, lo: nat, hi: nat, now: int)
    requires Candles(avail) && lo < hi <= |avail| && avail[lo] <= now
    ensures StartTs(Block(avail, lo, hi), now) == Cursor(avail, lo)
  {
    OldestOfBlock(avail, lo, hi);
  }

  /** A resumed run extends the block downwards and leaves its newest end alone. */
  lemma Resumed(avail: seq<int>, lo: nat, hi: nat, run: Run)
    requires Candles(avail) && lo < hi <= |avail| && avail[lo] <= run.now
    ensures var w := Walk(avail, run.lower, Cursor(avail, lo), run.fate);
            w.lo <= lo && After(avail, Block(avail, lo, hi), run) == Block(avail, w.lo, hi)
  {
    var end := Walk(avail, run.lower, Cursor(avail, lo), run.fate).lo;
    StartOfBlock(avail, lo, hi, run.now);
    SweepIsWalk(avail, Block(avail, lo, hi), run.lower, Cursor(avail, lo), run.fate, 0);
    BlocksJoin(avail, end, lo, hi);
  }

  lemma BlocksJoin(avail: seq<int>, lo: nat, mid: nat, hi: nat)
    requires lo <= mid <= hi <= |avail|
    ensures Block(avail, mid, hi) + Rows(avail[lo..mid]) == Block(avail, lo, hi)
  {
    RowsSplit(avail, lo, mid, hi);
  }

  // ---------------------------------------------------------------- cut and continue

  /** Stopping a walk anywhere and walking on from there ends where the unbroken walk ends. */
  lemma {:induction false} CutAndContinue(avail: seq<int>, lower: int, toTs: int, fate: Fate)
    requires Candles(avail)
    ensures var lo := Walk(avail, lower, toTs, fate).lo;
            lo < Below(avail, toTs) ==>
              Walk(avail, lower, Cursor(avail, lo), Complete).lo == Walk(avail, lower, toTs, Complete).lo
    decreases toTs - lower
  {
    if toTs <= lower || fate == Cut(0) || Below(avail, toTs) == 0 {
    } else {
      CutAndContinue(avail, lower, NextTs(avail, toTs), Next(fate));
    }
  }

  /** Every candle an unbroken walk leaves below itself is at or below the lower bound. */
  lemma {:induction false} WalkCovers(avail: seq<int>, lower: int, toTs: int, i: nat)
    requires Candles(avail) && i < Walk(avail, lower, toTs, Complete).lo
    ensures avail[i] <= lower
    decreases toTs - lower
  {
    BelowSound(avail, toTs, i);
    if toTs > lower && Below(avail, toTs) > 0 {
      WalkCovers(avail, lower, NextTs(avail, toTs), i);
    }
  }

  lemma BelowMonotone(avail: seq<int>, a: int, b: int)
    requires Candles(avail) && a <= b
    ensures Below(avail, a) <= Below(avail, b)
  {
    var n := Below(avail, a);
    if 0 < n {
      BelowSound(avail, a, n - 1);
      BelowSound(avail, b, n - 1);
    }
  }

  /** An unbroken walk goes past the lower bound by at most one page. */
  lemma {:induction false} Overshoot(avail: seq<int>, lower: int, toTs: int)
    requires Candles(avail) && toTs > lower
    ensures Below(avail, lower) <= Walk(avail, lower, toTs, Complete).lo + BATCH_LIMIT
    decreases toTs - lower
  {
    BelowMonotone(avail, lower, toTs);
    if Below(avail, toTs) > 0 {
      var next := NextTs(avail, toTs);
      if next > lower {
        Overshoot(avail, lower, next);
      }
    }
  }

  // ---------------------------------------------------------------- campaigns

  /** The first run of a series that leaves anything in an empty table (the last run if none does). */
  function Anchor(avail: seq<int>, runs: seq<Run>): (k: nat)
    requires Candles(avail) && runs != []
    ensures k < |runs|
    ensures forall j :: 0 <= j < k ==> After(avail, {}, runs[j]) == {}
    ensures k + 1 < |runs| ==> After(avail, {}, runs[k]) != {}
    decreases |runs|
  {
    if |runs| == 1 || After(avail, {}, runs[0]) != {} then 0 else Anchor(avail, runs[1..]) + 1
  }

  ghost predicate SameBound(runs: seq<Run>, lower: int) {
    forall j :: 0 <= j < |runs| ==> runs[j].lower == lower
  }

  lemma EmptyBlock(avail: seq<int>, lo: nat, hi: nat)
    requires lo <= hi <= |avail|
    ensures Block(avail, lo, hi) == {} <==> lo == hi
  {
    if lo < hi {
      RowsIn(avail[lo..hi], avail[lo]);
      assert avail[lo..hi][0] == avail[lo];
    }
  }

  /** From a block on, a series that ends in an unbroken run ends where one unbroken run from that block ends. */
  lemma {:induction false} BlockCampaign(avail: seq<int>, lo: nat, hi: nat, runs: seq<Run>, lower: int, start: int)
    requires Candles(avail) && lo < hi <= |avail| && avail[lo] <= start
    requires runs != [] && runs[|runs| - 1].fate == Complete && SameBound(runs, lower)
    requires forall j :: 0 <= j < |runs| ==> start <= runs[j].now
    ensures var end := Walk(avail, lower, Cursor(avail, lo), Complete).lo;
            end <= lo && Campaign(avail, Block(avail, lo, hi), runs) == Block(avail, end, hi)
    decreases |runs|
  {
    var run, rest := runs[0], runs[1..];
    Resumed(avail, lo, hi, run);
    var next := Walk(avail, lower, Cursor(avail, lo), run.fate).lo;
    if |runs| == 1 {
      assert rest == [];
    } else {
      CutAndContinue(avail, lower, Cursor(avail, lo), run.fate);
      assert rest[|rest| - 1] == runs[|runs| - 1];
      assert next == lo || avail[next] <= avail[lo];
      BlockCampaign(avail, next, hi, rest, lower, start);
    }
  }

  /** Once the first run has stored a block, the series ends where one unbroken run from its clock ends. */
  lemma FirstRunStores(avail: seq<int>, run: Run, rest: seq<Run>)
    requires Candles(avail) && After(avail, {}, run) != {}
    requires rest != [] && rest[|rest| - 1].fate == Complete && SameBound(rest, run.lower)
    requires forall j :: 0 <= j < |rest| ==> run.now <= rest[j].now
    ensures Campaign(avail, After(avail, {}, run), rest) == After(avail, {}, Run(run.now, run.lower, Complete))
  {
    var w, n := Walk(avail, run.lower, run.now, run.fate), Below(avail, run.now);
    Fresh(avail, run);
    EmptyBlock(avail, w.lo, n);
    BelowSound(avail, run.now, w.lo);
    BlockCampaign(avail, w.lo, n, rest, run.lower, run.now);
    CutAndContinue(avail, run.lower, run.now, run.fate);
    Fresh(avail, Run(run.now, run.lower, Complete));
  }

  /**
   Runs cut short at any page and resumed any number of times, the last one running to its
   end, leave exactly the table of one uninterrupted run started when the first of them that
   stored anything was.
   */
  lemma {:induction false} ResumeEqualsOneRun(avail: seq<int>, runs: seq<Run>, lower: int)
    requires Candles(avail) && Clocked(runs) && SameBound(runs, lower)
    requires runs != [] && runs[|runs| - 1].fate == Complete
    ensures Campaign(avail, {}, runs) == After(avail, {}, Run(runs[Anchor(avail, runs)].now, lower, Complete))
    decreases |runs|
  {
    var run, rest := runs[0], runs[1..];
    if |runs| == 1 {
      assert rest == [];
    } else {
      assert rest[|rest| - 1] == runs[|runs| - 1];
      if After(avail, {}, run) == {} {
        ResumeEqualsOneRun(avail, rest, lower);
      } else {
        FirstRunStores(avail, run, rest);
      }
    }
  }

  /** What one uninterrupted run leaves: every candle above the bound up to its clock, and at most a page more. */
  lemma OneRunContents(avail: seq<int>, now: int, lower: int, i: nat)
    requires Candles(avail) && i < |avail|
    ensures var stored := After(avail, {}, Run(now, lower, Complete));
            && (lower < avail[i] <= now ==> avail[i] in stored)
            && (avail[i] in stored ==> avail[i] <= now && Below(avail, lower) <= i + BATCH_LIMIT)
  {
    var lo, n := Walk(avail, lower, now, Complete).lo, Below(avail, now);
    Fresh(avail, Run(now, lower, Complete));
    InBlock(avail, lo, n, i);
    BelowSound(avail, now, i);
    if i < lo { WalkCovers(avail, lower, now, i); }
    if now > lower { Overshoot(avail, lower, now); }
  }

  /** Everything below candle n is at or below the bound. */
  ghost predicate Passed(avail: seq<int>, n: nat, lower: int)
    requires n <= |avail|
  {
    forall i :: 0 <= i < n ==> avail[i] <= lower
  }

  /** One more run on a block, and where the block then starts. */
  lemma BlockNext(avail: seq<int>, lo: nat, hi: nat, run: Run) returns (next: nat)
    requires Candles(avail) && lo < hi <= |avail| && avail[lo] <= run.now
    ensures next <= lo && avail[next] <= avail[lo]
    ensures After(avail, Block(avail, lo, hi), run) == Block(avail, next, hi)
    ensures run.fate == Complete ==> Passed(avail, next, run.lower)
  {
    Resumed(avail, lo, hi, run);
    next := Walk(avail, run.lower, Cursor(avail, lo), run.fate).lo;
    if run.fate == Complete {
      forall i | 0 <= i < next ensures avail[i] <= run.lower {
        WalkCovers(avail, run.lower, Cursor(avail, lo), i);
      }
    }
  }

  /** With bounds that differ from run to run, the block still reaches down to the last run's bound. */
  lemma {:induction false} BlockReaches(avail: seq<int>, lo: nat, hi: nat, runs: seq<Run>, start: int)
    returns (end: nat)
    requires Candles(avail) && lo < hi <= |avail| && avail[lo] <= start
    requires runs != [] && runs[|runs| - 1].fate == Complete
    requires forall j :: 0 <= j < |runs| ==> start <= runs[j].now
    ensures end <= lo && Campaign(avail, Block(avail, lo, hi), runs) == Block(avail, end, hi)
    ensures Passed(avail, end, runs[|runs| - 1].lower)
    decreases |runs|
  {
    var rest := runs[1..];
    end := BlockNext(avail, lo, hi, runs[0]);
    if rest != [] {
      assert rest[|rest| - 1] == runs[|runs| - 1];
      end := BlockReaches(avail, end, hi, rest, start);
    }
  }

  /**
   The --days mode, where every run has its own lower bound: once a run completes, every candle
   above that run's bound and up to the first productive start is stored, and nothing newer than
   that start ever is, however late the last run.
   */
  lemma {:induction false} DaysCampaign(avail: seq<int>, runs: seq<Run>, i: nat)
    requires Candles(avail) && Clocked(runs) && i < |avail|
    requires runs != [] && runs[|runs| - 1].fate == Complete
    ensures var start := runs[Anchor(avail, runs)].now;
            && (runs[|runs| - 1].lower < avail[i] <= start ==> avail[i] in Campaign(avail, {}, runs))
            && (avail[i] in Campaign(avail, {}, runs) ==> avail[i] <= start)
    decreases |runs|
  {
    var run, rest := runs[0], runs[1..];
    if |runs| == 1 {
      assert rest == [] && run == Run(run.now, run.lower, Complete);
      assert Campaign(avail, {}, runs) == After(avail, {}, run);
      assert Anchor(avail, runs) == 0;
      OneRunContents(avail, run.now, run.lower, i);
    } else {
      assert rest[|rest| - 1] == runs[|runs| - 1];
      var n, lo := Below(avail, run.now), Walk(avail, run.lower, run.now, run.fate).lo;
      Fresh(avail, run);
      EmptyBlock(avail, lo, n);
      if lo == n {
        DaysCampaign(avail, rest, i);
      } else {
        BelowSound(avail, run.now, lo);
        BelowSound(avail, run.now, i);
        var end := BlockReaches(avail, lo, n, rest, run.now);
        InBlock(avail, end, n, i);
      }
    }
  }
}

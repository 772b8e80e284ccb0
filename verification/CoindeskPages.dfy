/**
 What a page and a walk of the backward-paging backfill hold, in the server's own numbers: pages of
 2000 candles, cursors 60 seconds below the oldest candle seen.
 */
module CoindeskPages {

  import opened CandleTable
  import opened CoindeskBackfill

  /** A page holds a candle exactly when it starts at or before `to` and fewer than 2000 others lie between. */
  lemma PageExactly(avail: seq<int>, to: int, i: nat)
    requires Candles(avail) && i < |avail|
    ensures avail[i] in Page(avail, to) <==> avail[i] <= to && (i + 2000 < |avail| ==> avail[i + 2000] > to)
    ensures Candles(Page(avail, to))
  {
    var n := Below(avail, to);
    BelowSound(avail, to, i);
    if i + 2000 < |avail| { BelowSound(avail, to, i + 2000); }
    if n > 0 {
      InSlice(avail, PageStart(n), n, i);
    }
  }

  lemma InSlice(avail: seq<int>, lo: nat, hi: nat, i: nat)
    requires Candles(avail) && lo <= hi <= |avail| && i < |avail|
    ensures avail[i] in avail[lo..hi] <==> lo <= i < hi
  {
    if lo <= i < hi { assert avail[lo..hi][i - lo] == avail[i]; }
  }

  /** A run starts at the clock or 60 seconds below the oldest stored row, and never above either. */
  lemma StartExactly(stored: set<int>, now: int, m: int)
    requires m in stored
    ensures StartTs(stored, now) <= now && StartTs(stored, now) <= m - 60
    ensures StartTs(stored, now) == now || StartTs(stored, now) + 60 in stored
    ensures StartTs({}, now) == now
  {
  }

  /** Index of the oldest of the n candles left after k pages of 2000. */
  function Left(n: nat, k: nat): nat {
    if n <= 2000 * k then 0 else n - 2000 * k
  }

  /** The cursor after k pages: 60 seconds below the oldest candle fetched. */
  function After(avail: seq<int>, toTs: int, n: nat, k: nat): int
    requires n <= |avail| && (k > 0 ==> n > 0)
  {
    if k == 0 then toTs else avail[Left(n, k)] - 60
  }

  /** k pages with candles were answered, each at a cursor above the bound, and then the walk stopped. */
  ghost predicate Stopped(avail: seq<int>, lower: int, toTs: int, fate: Fate, w: Walked, k: nat) {
    var n := Below(avail, toTs);
    && (k > 0 ==> 2000 * (k - 1) < n)
    && w.lo == Left(n, k)
    && (forall j: nat :: j < k ==> After(avail, toTs, n, j) > lower)
    && (fate.Cut? ==> w.calls <= fate.pages)
    && match w.stopped
       case Bound => w.calls == k && After(avail, toTs, n, k) <= lower
       case Error => w.calls == k && After(avail, toTs, n, k) > lower && fate == Cut(k)
       case Empty => w.calls == k + 1 && After(avail, toTs, n, k) > lower && w.lo == 0
       case NoProgress => false
  }

  lemma AfterNext(avail: seq<int>, toTs: int, j: nat)
    requires Candles(avail) && Below(avail, toTs) > 0
    requires Below(avail, NextTs(avail, toTs)) > 0 || j == 0
    ensures After(avail, NextTs(avail, toTs), Below(avail, NextTs(avail, toTs)), j)
         == After(avail, toTs, Below(avail, toTs), j + 1)
  {
  }

  /** One more page in front of a walk. */
  lemma StoppedStep(avail: seq<int>, lower: int, toTs: int, fate: Fate, w: Walked, k: nat)
    requires Candles(avail) && Below(avail, toTs) > 0 && toTs > lower && fate != Cut(0)
    requires Stopped(avail, lower, NextTs(avail, toTs), Next(fate), w, k)
    ensures Stopped(avail, lower, toTs, fate, Walked(w.lo, w.calls + 1, w.stopped), k + 1)
  {
    var n, next := Below(avail, toTs), NextTs(avail, toTs);
    var rest := Below(avail, next);
    AfterNext(avail, toTs, 0);
    if k > 0 { AfterNext(avail, toTs, k); }
    forall j: nat | j < k + 1
      ensures After(avail, toTs, n, j) > lower
    {
      if j > 0 {
        assert After(avail, next, rest, j - 1) > lower;
        AfterNext(avail, toTs, j - 1);
      }
    }
  }

  /**
   A walk fetches k full steps of 2000 candles, and stops at the bound, at the error that cuts it after k
   pages, or at an empty page with nothing older left.
   */
  lemma {:induction false} WalkExactly(avail: seq<int>, lower: int, toTs: int, fate: Fate) returns (k: nat)
    requires Candles(avail)
    ensures Stopped(avail, lower, toTs, fate, Walk(avail, lower, toTs, fate), k)
    decreases toTs - lower
  {
    k := 0;
    if toTs > lower && fate != Cut(0) && Below(avail, toTs) > 0 {
      var next := NextTs(avail, toTs);
      var rest := WalkExactly(avail, lower, next, Next(fate));
      StoppedStep(avail, lower, toTs, fate, Walk(avail, lower, next, Next(fate)), rest);
      k := rest + 1;
    }
  }

  /** What a run adds to the table, how many requests it makes and why it ends. */
  lemma SweepExactly(avail: seq<int>, stored: set<int>, run: Run) returns (k: nat, w: Walked)
    requires Candles(avail)
    ensures Stopped(avail, run.lower, StartTs(stored, run.now), run.fate, w, k)
    ensures var n := Below(avail, StartTs(stored, run.now));
            w.lo <= n && SweepOf(avail, stored, run) == Swept(stored + Rows(avail[w.lo..n]), w.calls, w.stopped)
  {
    var toTs := StartTs(stored, run.now);
    w := Walk(avail, run.lower, toTs, run.fate);
    k := WalkExactly(avail, run.lower, toTs, run.fate);
    SweepIsWalk(avail, stored, run.lower, toTs, run.fate, 0);
  }

  /** The reported ends: the oldest and newest candle of the block, unless the ends so far reach further. */
  lemma EndsExactly(avail: seq<int>, lower: int, toTs: int, fate: Fate, ends: Ends)
    requires Candles(avail)
    ensures var n, lo := Below(avail, toTs), Walk(avail, lower, toTs, fate).lo;
            var e := EndsOf(avail, lower, toTs, fate, ends);
            && (lo == n ==> e == ends)
            && (lo < n ==> e.oldest == if avail[lo] <= ends.oldest then avail[lo] else ends.oldest)
            && (lo < n ==> e.newest == if avail[n - 1] >= ends.newest then avail[n - 1] else ends.newest)
  {
    EndsAreBlock(avail, lower, toTs, fate, ends);
  }
}

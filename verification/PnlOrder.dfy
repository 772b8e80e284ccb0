/**
 The wallet PnL backfill does not depend on the order in which its feeds list positions, trades
 and redemptions. The order of the capsules is fixed: without capital the first one gets the PnL.
 */
module PnlOrder {

  import opened PnlBackfill
  import opened PnlHistory
  import opened PnlRerun

  /** The same closing events and capsules. */
  ghost predicate SameEvents(a: Inputs, b: Inputs) {
    && (forall t :: t in a.trades <==> t in b.trades)
    && (forall r :: r in a.redemptions <==> r in b.redemptions)
    && a.capsules == b.capsules
  }

  /** The attributions of one position. */
  function Part(pos: Position, feed: Inputs, cutoffMs: int): seq<Attrib> {
    var verdict := Judge(pos, feed, cutoffMs);
    if verdict.Attributed? then verdict.rows else []
  }

  lemma JudgeOrderFree(pos: Position, a: Inputs, b: Inputs, cutoffMs: int)
    requires SameEvents(a, b)
    ensures Judge(pos, a, cutoffMs) == Judge(pos, b, cutoffMs)
  {
    CloseMsOrderFree(a.trades, a.redemptions, b.trades, b.redemptions, pos.conditionId);
  }

  /** The same positions in the same order have the same attributions and counters. */
  lemma {:induction false} AttributionsOrderFree(closed: seq<Position>, a: Inputs, b: Inputs, cutoffMs: int)
    requires SameEvents(a, b)
    ensures Attributions(closed, a, cutoffMs) == Attributions(closed, b, cutoffMs)
    ensures CountsOf(closed, a, cutoffMs) == CountsOf(closed, b, cutoffMs)
  {
    if closed != [] {
      JudgeOrderFree(closed[|closed| - 1], a, b, cutoffMs);
      AttributionsOrderFree(closed[..|closed| - 1], a, b, cutoffMs);
    }
  }

  /** What the attributions of a list of positions give one row, and whether they give it anything. */
  function SumOf(closed: seq<Position>, feed: Inputs, cutoffMs: int, key: Key): real {
    SumFor(Attributions(closed, feed, cutoffMs), key)
  }

  predicate Hits(closed: seq<Position>, feed: Inputs, cutoffMs: int, key: Key) {
    Has(Attributions(closed, feed, cutoffMs), key)
  }

  /** One list of positions comes to another list and one more position. */
  ghost predicate Adds(longer: seq<Position>, closed: seq<Position>, pos: Position, feed: Inputs, cutoffMs: int,
                       key: Key)
  {
    && SumOf(longer, feed, cutoffMs, key)
       == SumOf(closed, feed, cutoffMs, key) + SumFor(Part(pos, feed, cutoffMs), key)
    && (Hits(longer, feed, cutoffMs, key)
        <==> Hits(closed, feed, cutoffMs, key) || Has(Part(pos, feed, cutoffMs), key))
    && CountsOf(longer, feed, cutoffMs) == Tally(CountsOf(closed, feed, cutoffMs), Judge(pos, feed, cutoffMs))
  }

  lemma AddPosition(closed: seq<Position>, pos: Position, feed: Inputs, cutoffMs: int, key: Key)
    ensures Adds(closed + [pos], closed, pos, feed, cutoffMs, key)
  {
    assert (closed + [pos])[..|closed|] == closed;
    ConcatFor(Attributions(closed, feed, cutoffMs), Part(pos, feed, cutoffMs), key);
  }

  lemma TallySwap(c: Counts, x: Verdict, y: Verdict)
    ensures Tally(Tally(c, x), y) == Tally(Tally(c, y), x)
  {
  }

  /** Two positions can be added in either order. */
  lemma AddsSwap(longer: seq<Position>, a: seq<Position>, b: seq<Position>, rest: seq<Position>, x: Position,
                 y: Position, feed: Inputs, cutoffMs: int, key: Key)
    requires Adds(longer, a, y, feed, cutoffMs, key) && Adds(a, rest, x, feed, cutoffMs, key)
    requires Adds(b, rest, y, feed, cutoffMs, key)
    ensures Adds(longer, b, x, feed, cutoffMs, key)
  {
    TallySwap(CountsOf(rest, feed, cutoffMs), Judge(x, feed, cutoffMs), Judge(y, feed, cutoffMs));
  }

  function Without(closed: seq<Position>, i: nat): (rest: seq<Position>)
    requires i < |closed|
    ensures |rest| == |closed| - 1
  {
    closed[..i] + closed[i + 1..]
  }

  lemma WithoutAppend(closed: seq<Position>, pos: Position, i: nat)
    requires i < |closed|
    ensures Without(closed + [pos], i) == Without(closed, i) + [pos]
  {
  }

  lemma WithoutLast(closed: seq<Position>, pos: Position)
    ensures Without(closed + [pos], |closed|) == closed
  {
  }

  /** Taking one position out of a list takes out its part, wherever it stands. */
  lemma {:induction false} TakeOut(closed: seq<Position>, i: nat, feed: Inputs, cutoffMs: int, key: Key)
    requires i < |closed|
    ensures Adds(closed, Without(closed, i), closed[i], feed, cutoffMs, key)
    decreases |closed|
  {
    var init, last := closed[..|closed| - 1], closed[|closed| - 1];
    assert closed == init + [last];
    AddPosition(init, last, feed, cutoffMs, key);
    if i == |init| {
      WithoutLast(init, last);
    } else {
      var rest := Without(init, i);
      TakeOut(init, i, feed, cutoffMs, key);
      WithoutAppend(init, last, i);
      AddPosition(rest, last, feed, cutoffMs, key);
      AddsSwap(closed, init, rest + [last], rest, closed[i], last, feed, cutoffMs, key);
    }
  }

  lemma WithoutSet(closed: seq<Position>, i: nat)
    requires i < |closed|
    ensures multiset(Without(closed, i)) == multiset(closed) - multiset{closed[i]}
  {
    assert closed == closed[..i] + [closed[i]] + closed[i + 1..];
  }

  lemma SamePosition(xs: seq<Position>, ys: seq<Position>) returns (j: nat)
    requires multiset(xs) == multiset(ys) && xs != []
    ensures j < |ys| && ys[j] == xs[0]
    ensures multiset(Without(xs, 0)) == multiset(Without(ys, j))
  {
    assert xs[0] in multiset(xs) && xs[0] in ys;
    j :| 0 <= j < |ys| && ys[j] == xs[0];
    WithoutSet(xs, 0);
    WithoutSet(ys, j);
  }

  /** Positions in another order give every row the same attributions in sum, and the same counters. */
  lemma {:induction false} SumsOrderFree(xs: seq<Position>, ys: seq<Position>, feed: Inputs, cutoffMs: int, key: Key)
    requires multiset(xs) == multiset(ys)
    ensures SumOf(xs, feed, cutoffMs, key) == SumOf(ys, feed, cutoffMs, key)
    ensures Hits(xs, feed, cutoffMs, key) <==> Hits(ys, feed, cutoffMs, key)
    ensures CountsOf(xs, feed, cutoffMs) == CountsOf(ys, feed, cutoffMs)
    decreases |xs|
  {
    if xs == [] {
      assert |multiset(ys)| == |ys|;
      assert ys == [];
    } else {
      var j := SamePosition(xs, ys);
      TakeOut(xs, 0, feed, cutoffMs, key);
      TakeOut(ys, j, feed, cutoffMs, key);
      SumsOrderFree(Without(xs, 0), Without(ys, j), feed, cutoffMs, key);
    }
  }

  /** Two runs over the same feeds in any order leave the same table and report the same counters. */
  lemma StoredOrderFree(a: Inputs, b: Inputs, cutoffMs: int, before: map<Key, real>,
                        after1: map<Key, real>, after2: map<Key, real>)
    requires SameEvents(a, b) && multiset(a.closed) == multiset(b.closed)
    requires Overwritten(before, after1, Attributions(a.closed, a, cutoffMs))
    requires Overwritten(before, after2, Attributions(b.closed, b, cutoffMs))
    ensures after1 == after2 && CountsOf(a.closed, a, cutoffMs) == CountsOf(b.closed, b, cutoffMs)
  {
    AttributionsOrderFree(b.closed, b, a, cutoffMs);
    SumsOrderFree(a.closed, b.closed, a, cutoffMs, ("", 0));
    forall key
      ensures key in after1 <==> key in after2
      ensures key in after1 ==> after1[key] == after2[key]
    {
      SumsOrderFree(a.closed, b.closed, a, cutoffMs, key);
    }
  }
}

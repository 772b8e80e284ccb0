/**
 Running the wallet PnL backfill again later, on the same feed and capsules: the lookback
 cutoff has moved on, and the rows of the cutoff's own day are summed from part of their positions.
 */
module PnlRerun {

  import opened ExecLog
  import opened PnlBackfill
  import opened PnlHistory
  import opened Wrappers

  /** The attributions that a run with cutoff c1 makes and a run with cutoff c2 leaves out. */
  function Dropped(closed: seq<Position>, feed: Inputs, c1: nat, c2: nat): seq<Attrib> {
    if closed == [] then []
    else
      var pos := closed[|closed| - 1];
      var verdict := Judge(pos, feed, c1);
      Dropped(closed[..|closed| - 1], feed, c1, c2)
      + if verdict.Attributed? && Judge(pos, feed, c2) == PreCutoff then verdict.rows else []
  }

  lemma {:induction false} ConcatFor(r1: seq<Attrib>, r2: seq<Attrib>, key: Key)
    ensures SumFor(r1 + r2, key) == SumFor(r1, key) + SumFor(r2, key)
    ensures Has(r1 + r2, key) <==> Has(r1, key) || Has(r2, key)
  {
    if r2 == [] {
      assert r1 + r2 == r1;
    } else {
      var init, last := r2[..|r2| - 1], r2[|r2| - 1];
      assert r1 + r2 == (r1 + init) + [last] && r2 == init + [last];
      HasAppend(r1 + init, last, key);
      HasAppend(init, last, key);
      ConcatFor(r1, init, key);
    }
  }

  /** A later cutoff either leaves a verdict alone or turns it into PreCutoff. */
  lemma JudgeLater(pos: Position, feed: Inputs, c1: nat, c2: nat)
    requires c1 <= c2
    ensures Judge(pos, feed, c2) == Judge(pos, feed, c1) || Judge(pos, feed, c2) == PreCutoff
  {
  }

  /** A later cutoff drops some attributions and changes none of the others. */
  lemma {:induction false} CutoffSplits(closed: seq<Position>, feed: Inputs, c1: nat, c2: nat, key: Key)
    requires c1 <= c2
    ensures var rows1, rows2 := Attributions(closed, feed, c1), Attributions(closed, feed, c2);
            var gone := Dropped(closed, feed, c1, c2);
            && SumFor(rows1, key) == SumFor(rows2, key) + SumFor(gone, key)
            && (Has(rows1, key) <==> Has(rows2, key) || Has(gone, key))
  {
    if closed != [] {
      var init, pos := closed[..|closed| - 1], closed[|closed| - 1];
      CutoffSplits(init, feed, c1, c2, key);
      JudgeLater(pos, feed, c1, c2);
      var v1, v2 := Judge(pos, feed, c1), Judge(pos, feed, c2);
      var part1 := if v1.Attributed? then v1.rows else [];
      var part2 := if v2.Attributed? then v2.rows else [];
      var gone := if v1.Attributed? && v2 == PreCutoff then v1.rows else [];
      ConcatFor(Attributions(init, feed, c1), part1, key);
      ConcatFor(Attributions(init, feed, c2), part2, key);
      ConcatFor(Dropped(init, feed, c1, c2), gone, key);
    }
  }

  lemma {:induction false} SplitDay(active: seq<Capsule>, day: nat, usd: real, total: real)
    requires total > 0.0
    ensures forall a :: a in Split(active, day, usd, total) ==> a.day == day
  {
    if active != [] { SplitDay(active[..|active| - 1], day, usd, total); }
  }

  lemma AttributedDay(pos: Position, feed: Inputs, cutoff: nat, a: Attrib)
    requires Judge(pos, feed, cutoff).Attributed? && a in Judge(pos, feed, cutoff).rows
    ensures var closeMs := CloseMs(feed.trades, feed.redemptions, pos.conditionId);
            closeMs.Some? && closeMs.value >= cutoff && a.day == DateOf(closeMs.value)
  {
    var closeMs := CloseMs(feed.trades, feed.redemptions, pos.conditionId).value;
    var active := ActiveCapsulesAt(feed.capsules, closeMs);
    var total := TotalCapital(active);
    if total > 0.0 { SplitDay(active, DateOf(closeMs), pos.realizedPnl.value, total); }
  }

  lemma {:induction false} KeptDays(closed: seq<Position>, feed: Inputs, cutoff: nat)
    ensures forall a :: a in Attributions(closed, feed, cutoff) ==> a.day >= DateOf(cutoff)
  {
    if closed != [] {
      KeptDays(closed[..|closed| - 1], feed, cutoff);
      var pos := closed[|closed| - 1];
      forall a | Judge(pos, feed, cutoff).Attributed? && a in Judge(pos, feed, cutoff).rows
        ensures a.day >= DateOf(cutoff)
      {
        AttributedDay(pos, feed, cutoff, a);
      }
    }
  }

  lemma {:induction false} DroppedDays(closed: seq<Position>, feed: Inputs, c1: nat, c2: nat)
    ensures forall a :: a in Dropped(closed, feed, c1, c2) ==> a.day <= DateOf(c2)
  {
    if closed != [] {
      DroppedDays(closed[..|closed| - 1], feed, c1, c2);
      var pos := closed[|closed| - 1];
      forall a | Judge(pos, feed, c1).Attributed? && Judge(pos, feed, c2) == PreCutoff && a in Judge(pos, feed, c1).rows
        ensures a.day <= DateOf(c2)
      {
        AttributedDay(pos, feed, c1, a);
      }
    }
  }

  /**
   A second run with a later cutoff adds and removes no row. It changes the stored value of a row
   exactly when it rewrites that row after dropping positions whose shares do not cancel, and that
   can only happen on the cutoff's own day.
   */
  lemma RerunChanges(before: map<Key, real>, first: map<Key, real>, second: map<Key, real>,
                     feed: Inputs, c1: nat, c2: nat, key: Key)
    requires c1 <= c2
    requires Overwritten(before, first, Attributions(feed.closed, feed, c1))
    requires Overwritten(first, second, Attributions(feed.closed, feed, c2))
    ensures key in second <==> key in first
    ensures key in first ==>
              (second[key] != first[key] <==>
                 Has(Attributions(feed.closed, feed, c2), key)
                 && SumFor(Dropped(feed.closed, feed, c1, c2), key) != 0.0)
    ensures key in first && key.1 != DateOf(c2) ==> second[key] == first[key]
  {
    CutoffSplits(feed.closed, feed, c1, c2, key);
    KeptDays(feed.closed, feed, c2);
    DroppedDays(feed.closed, feed, c1, c2);
    var gone := Dropped(feed.closed, feed, c1, c2);
    if !Has(gone, key) { SumForAbsent(gone, key); }
  }

  // ---------------------------------------------------------------- a row that shrinks

  const CAPSULE := Capsule("c", Live, false, 100.0, At(0), Missing)
  const NOON := 43_200_000
  const DAWN := 21_600_000
  const FEED := Inputs([Position("a", Usd(5.0)), Position("b", Usd(7.0))],
                       [Trade("a", true, 0), Trade("b", true, 43_200)], [], [CAPSULE])

  lemma FeedCloses()
    ensures CloseMs(FEED.trades, [], "a") == Some(0) && CloseMs(FEED.trades, [], "b") == Some(NOON)
  {
    var ta, tb := Trade("a", true, 0), Trade("b", true, 43_200);
    assert [ta, tb][..1] == [ta] && [ta][..0] == [];
    assert LastSell([ta], "a") == Some(0) && LastSell([ta], "b") == None;
  }

  lemma FeedActive(tsMs: nat)
    ensures ActiveCapsulesAt(FEED.capsules, tsMs) == [CAPSULE]
  {
    assert [CAPSULE][1..] == [];
  }

  lemma FeedVerdicts()
    ensures Judge(FEED.closed[0], FEED, 0) == Attributed([Attrib("c", 0, 5.0)])
    ensures Judge(FEED.closed[0], FEED, DAWN) == PreCutoff
    ensures forall cutoff :: cutoff <= DAWN ==> Judge(FEED.closed[1], FEED, cutoff) == Attributed([Attrib("c", 0, 7.0)])
  {
    FeedCloses();
    FeedActive(0);
    FeedActive(NOON);
  }

  lemma FeedRows(cutoff: int)
    requires cutoff == 0 || cutoff == DAWN
    ensures Attributions(FEED.closed, FEED, cutoff)
         == (if cutoff == 0 then [Attrib("c", 0, 5.0)] else []) + [Attrib("c", 0, 7.0)]
  {
    FeedVerdicts();
    var closed := FEED.closed;
    assert closed[..1][..0] == [] && closed[..1][0] == closed[0];
    assert Attributions(closed[..1], FEED, cutoff) == if cutoff == 0 then [Attrib("c", 0, 5.0)] else [];
  }

  /** Two positions closed on one day, the later run's cutoff between them: a row of 12 becomes 7. */
  lemma PartialDayOverwrites()
    ensures SumFor(Attributions(FEED.closed, FEED, 0), ("c", 0)) == 12.0
    ensures SumFor(Attributions(FEED.closed, FEED, DAWN), ("c", 0)) == 7.0
    ensures Has(Attributions(FEED.closed, FEED, DAWN), ("c", 0))
  {
    var a, b := Attrib("c", 0, 5.0), Attrib("c", 0, 7.0);
    FeedRows(0);
    FeedRows(DAWN);
    HasAppend([], a, ("c", 0));
    HasAppend([], b, ("c", 0));
    assert [] + [a] == [a];
    HasAppend([a], b, ("c", 0));
  }
}

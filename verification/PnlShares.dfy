/**
 Who gets what of a position's PnL, told from the closing events and the capsules alone: when it is counted at
 all, which capsules share it, the part of each, and what that comes to in the stored row of a capsule and day.
 */
module PnlShares {

  import opened ExecLog
  import opened PnlBackfill
  import opened PnlHistory
  import opened PnlRerun
  import opened Wrappers

  // ---------------------------------------------------------------- verdicts

  /** The latest closing event of the condition is at this time. */
  ghost predicate ClosesLast(feed: Inputs, id: string, ms: nat) {
    && ClosedAt(feed.trades, feed.redemptions, id, ms)
    && forall other: nat :: ClosedAt(feed.trades, feed.redemptions, id, other) ==> other <= ms
  }

  /** Some capsule is active at the time. */
  ghost predicate Manned(feed: Inputs, ms: nat) {
    exists c :: c in feed.capsules && Active(c, ms)
  }

  lemma LastClose(feed: Inputs, id: string, ms: nat)
    ensures CloseMs(feed.trades, feed.redemptions, id) == Some(ms) <==> ClosesLast(feed, id, ms)
  {
    CloseMsIsLatest(feed.trades, feed.redemptions, id);
  }

  /**
   A position without a proper PnL is passed over. Any other is attributed exactly when its last closing event
   is at or after the cutoff with a capsule active; it is before the cutoff exactly when that event is; and it is
   an orphan exactly when there is no closing event, or none active at the last one.
   */
  lemma JudgeExactly(pos: Position, feed: Inputs, cutoffMs: int)
    ensures var verdict, id := Judge(pos, feed, cutoffMs), pos.conditionId;
            if pos.realizedPnl == NotFinite || pos.realizedPnl == Usd(0.0) then verdict == Nothing
            else
              && verdict != Nothing
              && (verdict.Attributed?
                  <==> exists ms: nat :: ClosesLast(feed, id, ms) && ms >= cutoffMs && Manned(feed, ms))
              && (verdict == PreCutoff <==> exists ms: nat :: ClosesLast(feed, id, ms) && ms < cutoffMs)
  {
    forall ms: nat
      ensures CloseMs(feed.trades, feed.redemptions, pos.conditionId) == Some(ms)
         <==> ClosesLast(feed, pos.conditionId, ms)
    {
      LastClose(feed, pos.conditionId, ms);
    }
    var last := CloseMs(feed.trades, feed.redemptions, pos.conditionId);
    if last.Some? {
      var active := ActiveCapsulesAt(feed.capsules, last.value);
      assert active != [] ==> active[0] in active;
    }
  }

  // ---------------------------------------------------------------- capsules

  /** Reserve capsules are never active, and no capsule is before it has been activated. */
  lemma NeverActive(c: Capsule, ms: int)
    ensures c.reserve || !c.activated.At? || ms < c.activated.ms ==> !Active(c, ms)
  {
  }

  /** From its activation on a live or paper capsule is active, and so is one with no readable last update. */
  lemma ActiveForGood(c: Capsule, ms: int)
    requires !c.reserve && c.activated.At? && ms >= c.activated.ms
    requires c.status in {Live, Paper} || !c.updated.At?
    ensures Active(c, ms)
  {
  }

  /** A paused, stopped or closed one is active up to and including its last update. */
  lemma ActiveUntil(c: Capsule, ms: int)
    requires !c.reserve && c.activated.At? && ms >= c.activated.ms
    requires c.status in {Paused, Stopped, Closed} && c.updated.At?
    ensures Active(c, ms) <==> ms <= c.updated.ms
  {
  }

  lemma ActiveOne(c: Capsule, ms: int)
    ensures ActiveCapsulesAt([c], ms) == if Active(c, ms) then [c] else []
  {
    assert [c][1..] == [];
  }

  /** The filter keeps the order of the capsules. */
  lemma {:induction false} ActiveConcat(a: seq<Capsule>, b: seq<Capsule>, ms: int)
    ensures ActiveCapsulesAt(a + b, ms) == ActiveCapsulesAt(a, ms) + ActiveCapsulesAt(b, ms)
  {
    if a == [] {
      assert a + b == b;
    } else {
      assert (a + b)[1..] == a[1..] + b;
      ActiveConcat(a[1..], b, ms);
    }
  }

  // ---------------------------------------------------------------- the parts of one position

  /** Capital is shared when there is any and more than one capsule to share it. */
  predicate Shared(active: seq<Capsule>) {
    |active| >= 2 && TotalCapital(active) > 0.0
  }

  lemma TotalOne(c: Capsule)
    ensures TotalCapital([c]) == c.capital
  {
    assert [c][..0] == [];
  }

  lemma {:induction false} TotalOfBoth(a: seq<Capsule>, b: seq<Capsule>)
    ensures TotalCapital(a + b) == TotalCapital(a) + TotalCapital(b)
  {
    if b == [] {
      assert a + b == a;
    } else {
      assert (a + b)[..|a + b| - 1] == a + b[..|b| - 1];
      TotalOfBoth(a, b[..|b| - 1]);
    }
  }

  lemma PortionIs(usd: real, capital: real, total: real)
    requires total > 0.0
    ensures Portion(usd, capital, total) * total == usd * capital
  {
    var share := capital / total;
    assert share * total == capital;
    assert usd * share * total == usd * (share * total);
  }

  /** The capsule's own part of the PnL on the day: in proportion to its capital. */
  ghost predicate IsPart(row: Attrib, c: Capsule, day: nat, usd: real, total: real) {
    row.capsule == c.id && row.day == day && row.usd * total == usd * c.capital
  }

  lemma {:induction false} SplitAt(active: seq<Capsule>, day: nat, usd: real, total: real, i: nat)
    requires total > 0.0 && i < |active|
    ensures IsPart(Split(active, day, usd, total)[i], active[i], day, usd, total)
  {
    if i < |active| - 1 {
      SplitAt(active[..|active| - 1], day, usd, total, i);
    } else {
      PortionIs(usd, active[i].capital, total);
    }
  }

  /** Each sharing capsule gets its own part, in proportion to its capital; otherwise the first one gets everything. */
  lemma PartsExactly(active: seq<Capsule>, closeMs: nat, usd: real)
    requires active != []
    ensures var rows, day := Attribute(active, closeMs, usd), closeMs / 86_400_000;
            if Shared(active) then
              && |rows| == |active|
              && forall i :: 0 <= i < |rows| ==> IsPart(rows[i], active[i], day, usd, TotalCapital(active))
            else rows == [Attrib(active[0].id, day, usd)]
  {
    if Shared(active) {
      forall i | 0 <= i < |active|
        ensures IsPart(Attribute(active, closeMs, usd)[i], active[i], DateOf(closeMs), usd, TotalCapital(active))
      {
        SplitAt(active, DateOf(closeMs), usd, TotalCapital(active), i);
      }
    }
  }

  // ---------------------------------------------------------------- the stored row

  /** The capital that the capsules of an id have among the active ones: that of the one capsule, if ids differ. */
  function CapitalOf(active: seq<Capsule>, id: string): real {
    if active == [] then 0.0
    else
      var c := active[|active| - 1];
      CapitalOf(active[..|active| - 1], id) + if c.id == id then c.capital else 0.0
  }

  /** What a capsule gets of the PnL of a position closed while these were active. */
  function ShareOf(active: seq<Capsule>, usd: real, id: string): real
    requires active != []
  {
    if Shared(active) then usd * CapitalOf(active, id) / TotalCapital(active)
    else if active[0].id == id then usd else 0.0
  }

  /** What a position closed on the day adds to the row of a capsule. */
  function Gets(pos: Position, feed: Inputs, cutoffMs: int, id: string, day: nat): real {
    match CloseMs(feed.trades, feed.redemptions, pos.conditionId)
    case None => 0.0
    case Some(ms) =>
      var active := ActiveCapsulesAt(feed.capsules, ms);
      if pos.realizedPnl.Usd? && ms >= cutoffMs && ms / 86_400_000 == day && active != []
      then ShareOf(active, pos.realizedPnl.value, id) else 0.0
  }

  function DayShare(closed: seq<Position>, feed: Inputs, cutoffMs: int, id: string, day: nat): real {
    if closed == [] then 0.0
    else Gets(closed[0], feed, cutoffMs, id, day) + DayShare(closed[1..], feed, cutoffMs, id, day)
  }

  lemma SumForFirst(a: Attrib, key: Key)
    ensures SumFor([a], key) == if KeyOf(a) == key then a.usd else 0.0
  {
    assert [a][..0] == [];
  }

  lemma PortionOfNothing(usd: real, total: real)
    requires total > 0.0
    ensures Portion(usd, 0.0, total) == 0.0
  {
    assert 0.0 / total == 0.0;
  }

  lemma PortionAsQuotient(usd: real, capital: real, total: real)
    requires total > 0.0
    ensures Portion(usd, capital, total) == usd * capital / total
  {
    PortionIs(usd, capital, total);
  }

  lemma {:induction false} SplitSum(active: seq<Capsule>, day: nat, usd: real, total: real, id: string, d: nat)
    requires total > 0.0
    ensures SumFor(Split(active, day, usd, total), (id, d))
         == if d == day then Portion(usd, CapitalOf(active, id), total) else 0.0
  {
    if active == [] {
      PortionOfNothing(usd, total);
    } else {
      var init, c := active[..|active| - 1], active[|active| - 1];
      SplitSum(init, day, usd, total, id, d);
      HasAppend(Split(init, day, usd, total), Attrib(c.id, day, Portion(usd, c.capital, total)), (id, d));
      if c.id == id { PartsOfOne(usd, CapitalOf(init, id), c.capital, total); }
    }
  }

  lemma PartOf(active: seq<Capsule>, closeMs: nat, usd: real, id: string, day: nat)
    requires active != []
    ensures SumFor(Attribute(active, closeMs, usd), (id, day))
         == if closeMs / 86_400_000 == day then ShareOf(active, usd, id) else 0.0
  {
    if Shared(active) {
      SplitSum(active, DateOf(closeMs), usd, TotalCapital(active), id, day);
      PortionAsQuotient(usd, CapitalOf(active, id), TotalCapital(active));
    } else {
      SumForFirst(Attrib(active[0].id, DateOf(closeMs), usd), (id, day));
    }
  }

  lemma NothingOfNothing(active: seq<Capsule>, id: string)
    requires active != []
    ensures ShareOf(active, 0.0, id) == 0.0
  {
    if Shared(active) {
      assert 0.0 * CapitalOf(active, id) == 0.0;
    }
  }

  lemma VerdictSum(pos: Position, feed: Inputs, cutoffMs: int, id: string, day: nat)
    ensures var verdict := Judge(pos, feed, cutoffMs);
            SumFor(if verdict.Attributed? then verdict.rows else [], (id, day)) == Gets(pos, feed, cutoffMs, id, day)
  {
    var last := CloseMs(feed.trades, feed.redemptions, pos.conditionId);
    if pos.realizedPnl.Usd? && last.Some? {
      var active := ActiveCapsulesAt(feed.capsules, last.value);
      if active != [] {
        PartOf(active, last.value, pos.realizedPnl.value, id, day);
        if pos.realizedPnl.value == 0.0 { NothingOfNothing(active, id); }
      }
    }
  }

  lemma {:induction false} DayShareAppend(closed: seq<Position>, pos: Position, feed: Inputs, cutoffMs: int,
                                          id: string, day: nat)
    ensures DayShare(closed + [pos], feed, cutoffMs, id, day)
         == DayShare(closed, feed, cutoffMs, id, day) + Gets(pos, feed, cutoffMs, id, day)
  {
    if closed == [] {
      assert [] + [pos] == [pos] && [pos][1..] == [];
    } else {
      assert (closed + [pos])[1..] == closed[1..] + [pos];
      DayShareAppend(closed[1..], pos, feed, cutoffMs, id, day);
    }
  }

  /** The attributions of a capsule and day add up to its shares of the positions closed that day. */
  lemma {:induction false} RowShare(closed: seq<Position>, feed: Inputs, cutoffMs: int, id: string, day: nat)
    ensures SumFor(Attributions(closed, feed, cutoffMs), (id, day)) == DayShare(closed, feed, cutoffMs, id, day)
  {
    if closed != [] {
      var init, pos := closed[..|closed| - 1], closed[|closed| - 1];
      var verdict := Judge(pos, feed, cutoffMs);
      assert closed == init + [pos];
      RowShare(init, feed, cutoffMs, id, day);
      VerdictSum(pos, feed, cutoffMs, id, day);
      ConcatFor(Attributions(init, feed, cutoffMs), if verdict.Attributed? then verdict.rows else [], (id, day));
      DayShareAppend(init, pos, feed, cutoffMs, id, day);
    }
  }

  /** The position is counted on the day, and the capsule is one of those that share it. */
  ghost predicate Reaches(pos: Position, feed: Inputs, cutoffMs: int, id: string, day: nat) {
    && pos.realizedPnl.Usd? && pos.realizedPnl.value != 0.0
    && exists ms: nat ::
         && ClosesLast(feed, pos.conditionId, ms) && ms >= cutoffMs && ms / 86_400_000 == day
         && var active := ActiveCapsulesAt(feed.capsules, ms);
            active != [] && if Shared(active) then exists c :: c in active && c.id == id else active[0].id == id
  }

  lemma PartExists(active: seq<Capsule>, closeMs: nat, usd: real, id: string, day: nat)
    requires active != []
    ensures Has(Attribute(active, closeMs, usd), (id, day))
       <==> && closeMs / 86_400_000 == day
            && if Shared(active) then exists c :: c in active && c.id == id else active[0].id == id
  {
    PartsExactly(active, closeMs, usd);
    var rows := Attribute(active, closeMs, usd);
    if Shared(active) {
      forall i | 0 <= i < |active| ensures rows[i] in rows { }
      if c :| c in active && c.id == id {
        var i :| 0 <= i < |active| && active[i] == c;
        assert KeyOf(rows[i]).0 == id;
      }
    }
    if !Shared(active) { assert rows[0] in rows; }
  }

  lemma VerdictReaches(pos: Position, feed: Inputs, cutoffMs: int, id: string, day: nat)
    ensures var verdict := Judge(pos, feed, cutoffMs);
            Has(if verdict.Attributed? then verdict.rows else [], (id, day)) <==> Reaches(pos, feed, cutoffMs, id, day)
  {
    var last := CloseMs(feed.trades, feed.redemptions, pos.conditionId);
    forall ms: nat
      ensures last == Some(ms) <==> ClosesLast(feed, pos.conditionId, ms)
    {
      LastClose(feed, pos.conditionId, ms);
    }
    if pos.realizedPnl.Usd? && last.Some? {
      var active := ActiveCapsulesAt(feed.capsules, last.value);
      if active != [] { PartExists(active, last.value, pos.realizedPnl.value, id, day); }
    }
  }

  lemma {:induction false} RowExists(closed: seq<Position>, feed: Inputs, cutoffMs: int, id: string, day: nat)
    ensures Has(Attributions(closed, feed, cutoffMs), (id, day))
       <==> exists pos :: pos in closed && Reaches(pos, feed, cutoffMs, id, day)
  {
    if closed != [] {
      var init, pos := closed[..|closed| - 1], closed[|closed| - 1];
      var verdict := Judge(pos, feed, cutoffMs);
      assert closed == init + [pos];
      RowExists(init, feed, cutoffMs, id, day);
      VerdictReaches(pos, feed, cutoffMs, id, day);
      ConcatFor(Attributions(init, feed, cutoffMs), if verdict.Attributed? then verdict.rows else [], (id, day));
    }
  }

  /**
   A run writes the row of a capsule and day exactly when a position that counts was closed that day and reaches the
   capsule; the value is the sum of pnl * capital / total over the positions closed that day, the undivided ones
   going to the first capsule.
   */
  lemma StoredShare(before: map<Key, real>, after: map<Key, real>, feed: Inputs, cutoffMs: int, id: string, day: nat)
    requires Overwritten(before, after, Attributions(feed.closed, feed, cutoffMs))
    ensures if exists pos :: pos in feed.closed && Reaches(pos, feed, cutoffMs, id, day)
            then (id, day) in after && after[(id, day)] == DayShare(feed.closed, feed, cutoffMs, id, day)
            else if (id, day) in before then (id, day) in after && after[(id, day)] == before[(id, day)]
            else (id, day) !in after
  {
    RowShare(feed.closed, feed, cutoffMs, id, day);
    RowExists(feed.closed, feed, cutoffMs, id, day);
  }
}

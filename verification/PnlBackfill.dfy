/** The run of the wallet PnL backfill over the stored table, and the conservation of the PnL through it. */
module PnlBackfill {

  import opened ExecLog
  import opened PnlHistory
  import opened Wrappers

  /** The stored rows after a run: every grouped row overwrites, all others stay. */
  ghost predicate Overwritten(before: map<Key, real>, after: map<Key, real>, rows: seq<Attrib>) {
    && (forall key :: key in after <==> key in before || Has(rows, key))
    && (forall key :: key in after ==> after[key] == if Has(rows, key) then SumFor(rows, key) else before[key])
  }

  lemma HasAppend(rows: seq<Attrib>, a: Attrib, key: Key)
    ensures Has(rows + [a], key) <==> Has(rows, key) || KeyOf(a) == key
    ensures SumFor(rows + [a], key) == SumFor(rows, key) + if KeyOf(a) == key then a.usd else 0.0
  {
    assert (rows + [a])[..|rows|] == rows;
    assert a in rows + [a];
  }

  lemma {:induction false} SumForAbsent(rows: seq<Attrib>, key: Key)
    requires !Has(rows, key)
    ensures SumFor(rows, key) == 0.0
  {
    if rows != [] {
      var init, last := rows[..|rows| - 1], rows[|rows| - 1];
      assert rows == init + [last];
      HasAppend(init, last, key);
      SumForAbsent(init, key);
    }
  }

  /** One more attribution in its group, which it may open. */
  lemma GroupStep(byKey: map<Key, real>, rows: seq<Attrib>, a: Attrib)
    requires Groups(byKey, rows)
    ensures var key := KeyOf(a);
            Groups(byKey[key := if key in byKey then byKey[key] + a.usd else a.usd], rows + [a])
  {
    var key := KeyOf(a);
    forall k
      ensures Has(rows + [a], k) <==> Has(rows, k) || key == k
      ensures SumFor(rows + [a], k) == SumFor(rows, k) + if key == k then a.usd else 0.0
    {
      HasAppend(rows, a, k);
    }
    if key !in byKey { SumForAbsent(rows, key); }
  }

  class Ledger {
    var rows: map<Key, real>

    constructor ()
      ensures rows == map[]
    {
      rows := map[];
    }

    static method AttributeOne(active: seq<Capsule>, closeMs: nat, usd: real) returns (rows: seq<Attrib>)
      requires active != []
      ensures rows == Attribute(active, closeMs, usd)
    {
      var total, day := TotalCapital(active), DateOf(closeMs);
      if total <= 0.0 || |active| == 1 {
        return [Attrib(active[0].id, day, usd)];
      }
      rows := [];
      for i := 0 to |active|
        invariant rows == Split(active[..i], day, usd, total)
      {
        var c := active[i];
        assert active[..i + 1] == active[..i] + [c];
        rows := rows + [Attrib(c.id, day, Portion(usd, c.capital, total))];
      }
      assert active[..|active|] == active;
    }

    static method AttributeAll(feed: Inputs, cutoffMs: int) returns (rows: seq<Attrib>, counts: Counts)
      ensures rows == Attributions(feed.closed, feed, cutoffMs)
      ensures counts == CountsOf(feed.closed, feed, cutoffMs)
    {
      var closeTs := CloseTsByCondition(feed.trades, feed.redemptions);
      rows, counts := [], Counts(0, 0, 0);
      for i := 0 to |feed.closed|
        invariant rows == Attributions(feed.closed[..i], feed, cutoffMs)
        invariant counts == CountsOf(feed.closed[..i], feed, cutoffMs)
      {
        var pos := feed.closed[i];
        assert feed.closed[..i + 1][..i] == feed.closed[..i];
        var verdict := JudgeOne(pos, closeTs, feed, cutoffMs);
        match verdict
        case Nothing =>
        case Orphan => counts := counts.(orphan := counts.orphan + 1);
        case PreCutoff => counts := counts.(preCutoff := counts.preCutoff + 1);
        case Attributed(parts) =>
          counts := counts.(attributable := counts.attributable + 1);
          rows := rows + parts;
      }
      assert feed.closed[..|feed.closed|] == feed.closed;
    }

    /** What one position counts as, with its attributions if it has any. */
    static method JudgeOne(pos: Position, closeTs: map<string, nat>, feed: Inputs, cutoffMs: int)
      returns (verdict: Verdict)
      requires Agrees(closeTs, id => CloseMs(feed.trades, feed.redemptions, id))
      ensures verdict == Judge(pos, feed, cutoffMs)
    {
      if pos.realizedPnl == NotFinite || pos.realizedPnl == Usd(0.0) { return Nothing; }
      if pos.conditionId !in closeTs { return Orphan; }
      var closeMs := closeTs[pos.conditionId];
      if closeMs < cutoffMs { return PreCutoff; }
      var active := ActiveCapsulesAt(feed.capsules, closeMs);
      if active == [] { return Orphan; }
      var parts := AttributeOne(active, closeMs, pos.realizedPnl.value);
      return Attributed(parts);
    }

    /** Group by (capsule, day); `order` is the insertion order of the map. */
    static method Group(rows: seq<Attrib>) returns (byKey: map<Key, real>, order: seq<Key>)
      ensures Groups(byKey, rows) && Lists(order, byKey)
    {
      byKey, order := map[], [];
      for i := 0 to |rows|
        invariant Groups(byKey, rows[..i]) && Lists(order, byKey)
      {
        var a, key := rows[i], KeyOf(rows[i]);
        assert rows[..i + 1] == rows[..i] + [a];
        GroupStep(byKey, rows[..i], a);
        if key in byKey {
          byKey := byKey[key := byKey[key] + a.usd];
        } else {
          byKey, order := byKey[key := a.usd], order + [key];
        }
      }
      assert rows[..|rows|] == rows;
    }

    /** One upsert per row, in whatever order the rows are listed. */
    method Upsert(byKey: map<Key, real>, order: seq<Key>)
      requires Lists(order, byKey)
      modifies this
      ensures rows == old(rows) + byKey
    {
      for i := 0 to |order|
        invariant forall key :: key in rows <==> key in old(rows) || key in order[..i]
        invariant forall key :: key in rows ==> rows[key] == if key in order[..i] then byKey[key] else old(rows)[key]
      {
        assert order[i] in order;
        assert order[..i + 1] == order[..i] + [order[i]];
        rows := rows[order[i] := byKey[order[i]]];
      }
      assert order[..|order|] == order;
    }

    /** The whole run; None when there is no capsule to attribute to. */
    method Backfill(feed: Inputs, cutoffMs: int, dryRun: bool) returns (counts: Option<Counts>)
      modifies this
      ensures feed.capsules == [] ==> counts == None && rows == old(rows)
      ensures feed.capsules != [] ==> counts == Some(CountsOf(feed.closed, feed, cutoffMs))
      ensures dryRun ==> rows == old(rows)
      ensures feed.capsules != [] && !dryRun ==>
                Overwritten(old(rows), rows, Attributions(feed.closed, feed, cutoffMs))
    {
      if feed.capsules == [] { return None; }
      if feed.closed == [] { return Some(Counts(0, 0, 0)); }
      var attributions, n := AttributeAll(feed, cutoffMs);
      var byKey, order := Group(attributions);
      if !dryRun { Upsert(byKey, order); }
      counts := Some(n);
    }
  }

  // ---------------------------------------------------------------- conservation

  lemma PartsOfOne(usd: real, a: real, b: real, total: real)
    requires total > 0.0
    ensures Portion(usd, a, total) + Portion(usd, b, total) == Portion(usd, a + b, total)
  {
    assert a / total + b / total == (a + b) / total;
  }

  lemma TotalAppend(rows: seq<Attrib>, a: Attrib)
    ensures Total(rows + [a]) == Total(rows) + a.usd
  {
    assert (rows + [a])[..|rows|] == rows;
  }

  lemma {:induction false} TotalConcat(r1: seq<Attrib>, r2: seq<Attrib>)
    ensures Total(r1 + r2) == Total(r1) + Total(r2)
  {
    if r2 == [] {
      assert r1 + r2 == r1;
    } else {
      var init, last := r2[..|r2| - 1], r2[|r2| - 1];
      assert r1 + r2 == (r1 + init) + [last];
      TotalAppend(r1 + init, last);
      TotalConcat(r1, init);
    }
  }

  lemma {:induction false} SplitTotal(active: seq<Capsule>, day: nat, usd: real, total: real)
    requires total > 0.0
    ensures Total(Split(active, day, usd, total)) == Portion(usd, TotalCapital(active), total)
  {
    if active == [] {
    } else {
      var init, c := active[..|active| - 1], active[|active| - 1];
      SplitTotal(init, day, usd, total);
      TotalAppend(Split(init, day, usd, total), Attrib(c.id, day, Portion(usd, c.capital, total)));
      PartsOfOne(usd, TotalCapital(init), c.capital, total);
    }
  }

  /** Whatever the split, the parts of one position add up to its PnL. */
  lemma AttributeTotal(active: seq<Capsule>, closeMs: nat, usd: real)
    requires active != []
    ensures Total(Attribute(active, closeMs, usd)) == usd
  {
    var total := TotalCapital(active);
    if total <= 0.0 || |active| == 1 {
      TotalAppend([], Attrib(active[0].id, DateOf(closeMs), usd));
      assert [] + [Attrib(active[0].id, DateOf(closeMs), usd)] == [Attrib(active[0].id, DateOf(closeMs), usd)];
    } else {
      SplitTotal(active, DateOf(closeMs), usd, total);
      assert total / total == 1.0;
    }
  }

  /** realizedPnl over the attributable positions. */
  function AttributedPnl(closed: seq<Position>, feed: Inputs, cutoffMs: int): real {
    if closed == [] then 0.0
    else
      var pos := closed[|closed| - 1];
      AttributedPnl(closed[..|closed| - 1], feed, cutoffMs)
      + if Judge(pos, feed, cutoffMs).Attributed? then pos.realizedPnl.value else 0.0
  }

  lemma {:induction false} AttributionsTotal(closed: seq<Position>, feed: Inputs, cutoffMs: int)
    ensures Total(Attributions(closed, feed, cutoffMs)) == AttributedPnl(closed, feed, cutoffMs)
  {
    if closed == [] {
    } else {
      var init, pos := closed[..|closed| - 1], closed[|closed| - 1];
      AttributionsTotal(init, feed, cutoffMs);
      var verdict := Judge(pos, feed, cutoffMs);
      if verdict.Attributed? {
        TotalConcat(Attributions(init, feed, cutoffMs), verdict.rows);
        var closeMs := CloseMs(feed.trades, feed.redemptions, pos.conditionId).value;
        AttributeTotal(ActiveCapsulesAt(feed.capsules, closeMs), closeMs, pos.realizedPnl.value);
      } else {
        assert Attributions(closed, feed, cutoffMs) == Attributions(init, feed, cutoffMs);
      }
    }
  }

  function SumOver(order: seq<Key>, rows: seq<Attrib>): real {
    if order == [] then 0.0 else SumOver(order[..|order| - 1], rows) + SumFor(rows, order[|order| - 1])
  }

  lemma {:induction false} SumOverAppend(order: seq<Key>, rows: seq<Attrib>, a: Attrib)
    requires forall i, j :: 0 <= i < j < |order| ==> order[i] != order[j]
    ensures SumOver(order, rows + [a]) == SumOver(order, rows) + if KeyOf(a) in order then a.usd else 0.0
  {
    if order == [] {
    } else {
      var init, key := order[..|order| - 1], order[|order| - 1];
      assert order == init + [key];
      SumOverAppend(init, rows, a);
      HasAppend(rows, a, key);
    }
  }

  lemma {:induction false} SumOverEmpty(order: seq<Key>)
    ensures SumOver(order, []) == 0.0
  {
    if order != [] { SumOverEmpty(order[..|order| - 1]); }
  }

  lemma {:induction false} SumOverAll(order: seq<Key>, rows: seq<Attrib>)
    requires forall i, j :: 0 <= i < j < |order| ==> order[i] != order[j]
    requires forall a :: a in rows ==> KeyOf(a) in order
    ensures SumOver(order, rows) == Total(rows)
  {
    if rows == [] {
      SumOverEmpty(order);
    } else {
      var init, a := rows[..|rows| - 1], rows[|rows| - 1];
      assert rows == init + [a];
      SumOverAll(order, init);
      SumOverAppend(order, init, a);
    }
  }

  lemma {:induction false} TotalOfIsSumOver(byKey: map<Key, real>, order: seq<Key>, rows: seq<Attrib>)
    requires forall key :: key in order ==> key in byKey && byKey[key] == SumFor(rows, key)
    ensures TotalOf(byKey, order) == SumOver(order, rows)
  {
    if order != [] {
      assert order[|order| - 1] in order;
      TotalOfIsSumOver(byKey, order[..|order| - 1], rows);
    }
  }

  /** The rows written add up exactly to the realized PnL of the attributable positions. */
  lemma PnlConserved(feed: Inputs, cutoffMs: int, byKey: map<Key, real>, order: seq<Key>)
    requires Groups(byKey, Attributions(feed.closed, feed, cutoffMs)) && Lists(order, byKey)
    ensures TotalOf(byKey, order) == AttributedPnl(feed.closed, feed, cutoffMs)
  {
    var rows := Attributions(feed.closed, feed, cutoffMs);
    forall a | a in rows ensures KeyOf(a) in order { assert Has(rows, KeyOf(a)); }
    TotalOfIsSumOver(byKey, order, rows);
    SumOverAll(order, rows);
    AttributionsTotal(feed.closed, feed, cutoffMs);
  }

  /** Positions whose PnL is zero or not a number. */
  function Worthless(closed: seq<Position>): nat {
    if closed == [] then 0
    else
      var pnl := closed[|closed| - 1].realizedPnl;
      Worthless(closed[..|closed| - 1]) + if pnl == NotFinite || pnl == Usd(0.0) then 1 else 0
  }

  /** The three counters and the skipped positions account for every closed position. */
  lemma {:induction false} CountsPartition(closed: seq<Position>, feed: Inputs, cutoffMs: int)
    ensures var counts := CountsOf(closed, feed, cutoffMs);
            counts.attributable + counts.orphan + counts.preCutoff + Worthless(closed) == |closed|
  {
    if closed != [] { CountsPartition(closed[..|closed| - 1], feed, cutoffMs); }
  }

  /** The string key "capsule|date" identifies its two parts, because dates have ten characters. */
  lemma KeyTextInjective(c1: string, d1: string, c2: string, d2: string)
    requires |d1| == |d2| == 10 && c1 + "|" + d1 == c2 + "|" + d2
    ensures c1 == c2 && d1 == d2
  {
    var k1, k2 := c1 + "|" + d1, c2 + "|" + d2;
    assert |k1| == |c1| + 11 && |k2| == |c2| + 11;
    assert c1 == k1[..|c1|] && c2 == k2[..|c2|];
    assert d1 == k1[|c1| + 1..] && d2 == k2[|c2| + 1..];
  }
}

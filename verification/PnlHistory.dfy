/**
 The wallet PnL backfill: the latest SELL or REDEEM of each condition dates its close, each
 closed position is attributed to the capsules active at that time in proportion to their
 capital, and the shares are summed per capsule and UTC day and written over the stored rows.
 Money is exact.
 */
module PnlHistory {

  import opened ExecLog
  import opened Wrappers

  // ---------------------------------------------------------------- close times

  datatype Trade = Trade(conditionId: string, sell: bool, timestamp: nat)

  datatype Redemption = Redemption(conditionId: string, timestamp: nat)

  function Later(a: Option<nat>, b: nat): Option<nat> {
    if a.None? || b > a.value then Some(b) else a
  }

  /** Latest SELL of a condition, in ms. */
  function LastSell(trades: seq<Trade>, id: string): Option<nat> {
    if trades == [] then None
    else
      var t, before := trades[|trades| - 1], LastSell(trades[..|trades| - 1], id);
      if t.sell && t.conditionId == id then Later(before, t.timestamp * 1000) else before
  }

  /** Latest SELL or REDEEM of a condition, in ms. */
  function CloseMs(trades: seq<Trade>, redemptions: seq<Redemption>, id: string): Option<nat> {
    if redemptions == [] then LastSell(trades, id)
    else
      var r, before := redemptions[|redemptions| - 1], CloseMs(trades, redemptions[..|redemptions| - 1], id);
      if r.conditionId == id then Later(before, r.timestamp * 1000) else before
  }

  /** The map agrees with a lookup function on every condition. */
  ghost predicate Agrees(m: map<string, nat>, lookup: string -> Option<nat>) {
    forall id :: (if id in m then Some(m[id]) else None) == lookup(id)
  }

  method CloseTsByCondition(trades: seq<Trade>, redemptions: seq<Redemption>) returns (m: map<string, nat>)
    ensures Agrees(m, id => CloseMs(trades, redemptions, id))
  {
    m := map[];
    for i := 0 to |trades|
      invariant Agrees(m, id => LastSell(trades[..i], id))
    {
      var t := trades[i];
      assert trades[..i + 1][..i] == trades[..i];
      if t.sell {
        var tsMs := t.timestamp * 1000;
        if t.conditionId !in m || tsMs > m[t.conditionId] { m := m[t.conditionId := tsMs]; }
      }
    }
    assert trades[..|trades|] == trades;
    for i := 0 to |redemptions|
      invariant Agrees(m, id => CloseMs(trades, redemptions[..i], id))
    {
      var r := redemptions[i];
      assert redemptions[..i + 1][..i] == redemptions[..i];
      var tsMs := r.timestamp * 1000;
      if r.conditionId !in m || tsMs > m[r.conditionId] { m := m[r.conditionId := tsMs]; }
    }
    assert redemptions[..|redemptions|] == redemptions;
  }

  /** An event that closes a condition, at a time in ms. */
  predicate ClosedAt(trades: seq<Trade>, redemptions: seq<Redemption>, id: string, ms: nat) {
    || (exists t :: t in trades && t.sell && t.conditionId == id && t.timestamp * 1000 == ms)
    || (exists r :: r in redemptions && r.conditionId == id && r.timestamp * 1000 == ms)
  }

  lemma {:induction false} LastSellIsLatest(trades: seq<Trade>, id: string)
    ensures match LastSell(trades, id)
            case None => forall t :: t in trades && t.sell ==> t.conditionId != id
            case Some(ms) =>
              && ClosedAt(trades, [], id, ms)
              && forall t :: t in trades && t.sell && t.conditionId == id ==> t.timestamp * 1000 <= ms
  {
    if trades == [] {
    } else {
      var init, last := trades[..|trades| - 1], trades[|trades| - 1];
      assert trades == init + [last];
      LastSellIsLatest(init, id);
    }
  }

  /** The close time is the maximum over the closing events; there is none exactly when there is no such event. */
  lemma {:induction false} CloseMsIsLatest(trades: seq<Trade>, redemptions: seq<Redemption>, id: string)
    ensures match CloseMs(trades, redemptions, id)
            case None => forall ms: nat :: !ClosedAt(trades, redemptions, id, ms)
            case Some(latest) =>
              && ClosedAt(trades, redemptions, id, latest)
              && forall ms: nat :: ClosedAt(trades, redemptions, id, ms) ==> ms <= latest
  {
    if redemptions == [] {
      LastSellIsLatest(trades, id);
    } else {
      var init, last := redemptions[..|redemptions| - 1], redemptions[|redemptions| - 1];
      assert redemptions == init + [last];
      CloseMsIsLatest(trades, init, id);
      assert last in redemptions;
      forall ms: nat ensures ClosedAt(trades, redemptions, id, ms)
        <==> ClosedAt(trades, init, id, ms) || (last.conditionId == id && last.timestamp * 1000 == ms)
      {
      }
    }
  }

  /** The order in which the feeds list their events does not matter. */
  lemma CloseMsOrderFree(t1: seq<Trade>, r1: seq<Redemption>, t2: seq<Trade>, r2: seq<Redemption>, id: string)
    requires forall t :: t in t1 <==> t in t2
    requires forall r :: r in r1 <==> r in r2
    ensures CloseMs(t1, r1, id) == CloseMs(t2, r2, id)
  {
    CloseMsIsLatest(t1, r1, id);
    CloseMsIsLatest(t2, r2, id);
    forall ms: nat ensures ClosedAt(t1, r1, id, ms) <==> ClosedAt(t2, r2, id, ms) { }
  }

  // ---------------------------------------------------------------- capsules

  datatype Stamp = Missing | Invalid | At(ms: int)

  datatype Status = Live | Paper | Paused | Stopped | Closed

  datatype Capsule = Capsule(id: string, status: Status, reserve: bool, capital: real, activated: Stamp, updated: Stamp)

  predicate Active(c: Capsule, tsMs: int) {
    && !c.reserve
    && c.activated.At? && c.activated.ms <= tsMs
    && (c.status == Live || c.status == Paper || !c.updated.At? || tsMs <= c.updated.ms)
  }

  function ActiveCapsulesAt(capsules: seq<Capsule>, tsMs: int): (active: seq<Capsule>)
    ensures forall c :: c in active <==> c in capsules && Active(c, tsMs)
  {
    if capsules == [] then []
    else
      var rest := ActiveCapsulesAt(capsules[1..], tsMs);
      assert forall c :: c in capsules <==> c == capsules[0] || c in capsules[1..];
      if Active(capsules[0], tsMs) then [capsules[0]] + rest else rest
  }

  // ---------------------------------------------------------------- attribution

  datatype Pnl = NotFinite | Usd(value: real)

  datatype Position = Position(conditionId: string, realizedPnl: Pnl)

  datatype Attrib = Attrib(capsule: string, day: nat, usd: real)

  datatype Verdict = Nothing | Orphan | PreCutoff | Attributed(rows: seq<Attrib>)

  /** The feed and the capsules a run reads. */
  datatype Inputs = Inputs(closed: seq<Position>, trades: seq<Trade>, redemptions: seq<Redemption>,
                           capsules: seq<Capsule>)

  function TotalCapital(active: seq<Capsule>): real {
    if active == [] then 0.0 else TotalCapital(active[..|active| - 1]) + active[|active| - 1].capital
  }

  /** The part of an amount that goes to `capital` out of `total`. */
  function Portion(usd: real, capital: real, total: real): real
    requires total > 0.0
  {
    usd * (capital / total)
  }

  function Split(active: seq<Capsule>, day: nat, usd: real, total: real): (rows: seq<Attrib>)
    requires total > 0.0
    ensures |rows| == |active|
  {
    if active == [] then []
    else
      var c := active[|active| - 1];
      Split(active[..|active| - 1], day, usd, total) + [Attrib(c.id, day, Portion(usd, c.capital, total))]
  }

  function Attribute(active: seq<Capsule>, closeMs: nat, usd: real): (rows: seq<Attrib>)
    requires active != []
    ensures rows != []
  {
    var total := TotalCapital(active);
    if total <= 0.0 || |active| == 1 then [Attrib(active[0].id, DateOf(closeMs), usd)]
    else Split(active, DateOf(closeMs), usd, total)
  }

  function Judge(pos: Position, feed: Inputs, cutoffMs: int): Verdict {
    if pos.realizedPnl == NotFinite || pos.realizedPnl == Usd(0.0) then Nothing
    else
      match CloseMs(feed.trades, feed.redemptions, pos.conditionId)
      case None => Orphan
      case Some(closeMs) =>
        if closeMs < cutoffMs then PreCutoff
        else
          var active := ActiveCapsulesAt(feed.capsules, closeMs);
          if active == [] then Orphan else Attributed(Attribute(active, closeMs, pos.realizedPnl.value))
  }

  /** The attributions of a list of positions, in order. */
  function Attributions(closed: seq<Position>, feed: Inputs, cutoffMs: int): seq<Attrib> {
    if closed == [] then []
    else
      var verdict := Judge(closed[|closed| - 1], feed, cutoffMs);
      Attributions(closed[..|closed| - 1], feed, cutoffMs) + if verdict.Attributed? then verdict.rows else []
  }

  datatype Counts = Counts(attributable: nat, orphan: nat, preCutoff: nat)

  function Tally(counts: Counts, verdict: Verdict): Counts {
    match verdict
    case Nothing => counts
    case Orphan => counts.(orphan := counts.orphan + 1)
    case PreCutoff => counts.(preCutoff := counts.preCutoff + 1)
    case Attributed(_) => counts.(attributable := counts.attributable + 1)
  }

  function CountsOf(closed: seq<Position>, feed: Inputs, cutoffMs: int): Counts {
    if closed == [] then Counts(0, 0, 0)
    else
      Tally(CountsOf(closed[..|closed| - 1], feed, cutoffMs), Judge(closed[|closed| - 1], feed, cutoffMs))
  }

  // ---------------------------------------------------------------- rows

  type Key = (string, nat)

  function KeyOf(a: Attrib): Key {
    (a.capsule, a.day)
  }

  /** What the attributions give one (capsule, day), and whether they give it anything. */
  function SumFor(rows: seq<Attrib>, key: Key): real {
    if rows == [] then 0.0
    else
      var a := rows[|rows| - 1];
      SumFor(rows[..|rows| - 1], key) + if KeyOf(a) == key then a.usd else 0.0
  }

  predicate Has(rows: seq<Attrib>, key: Key) {
    exists a :: a in rows && KeyOf(a) == key
  }

  /** One row per (capsule, day), with the sum of its attributions. */
  ghost predicate Groups(byKey: map<Key, real>, rows: seq<Attrib>) {
    && (forall key :: key in byKey <==> Has(rows, key))
    && (forall key :: key in byKey ==> byKey[key] == SumFor(rows, key))
  }

  function Total(rows: seq<Attrib>): real {
    if rows == [] then 0.0 else Total(rows[..|rows| - 1]) + rows[|rows| - 1].usd
  }

  /** Sum of the written rows, in any listing of their keys. */
  function TotalOf(byKey: map<Key, real>, order: seq<Key>): real
    requires forall key :: key in order ==> key in byKey
  {
    if order == [] then 0.0 else TotalOf(byKey, order[..|order| - 1]) + byKey[order[|order| - 1]]
  }

  ghost predicate Lists(order: seq<Key>, byKey: map<Key, real>) {
    && (forall key :: key in order <==> key in byKey)
    && (forall i, j :: 0 <= i < j < |order| ==> order[i] != order[j])
  }
}

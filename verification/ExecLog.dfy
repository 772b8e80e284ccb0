/**
 The part of the evolution_log table that the auto-executors read and write:
 one row per handled opportunity, with the UTC date of the row deciding which
 daily cap it counts against. Rows are only ever appended.
 */
module ExecLog {

  const MS_PER_DAY := 86_400_000

  /** UTC date number of an instant in epoch milliseconds. */
  function DateOf(ms: nat): nat {
    ms / MS_PER_DAY
  }

  lemma DateMonotone(a: nat, b: nat)
    requires a <= b
    ensures DateOf(a) <= DateOf(b)
  {
  }

  datatype Kind = Accepted | Rejected | Skipped | Failed

  /** `worker` is the worker process that appended the row, `at` its created_at in ms. */
  datatype ExecEvent = ExecEvent(worker: nat, source: nat, orderUsd: real, kind: Kind, at: nat)

  type Log = seq<ExecEvent>

  /** SUM(orderUsd) over the rows of one date, whatever their verdict. */
  function UsdOn(log: Log, d: nat): real {
    if log == [] then 0.0
    else
      var e := log[|log| - 1];
      UsdOn(log[..|log| - 1], d) + if DateOf(e.at) == d then e.orderUsd else 0.0
  }

  /** COUNT(*) over the rows of one date. */
  function CountOn(log: Log, d: nat): nat {
    if log == [] then 0
    else CountOn(log[..|log| - 1], d) + if DateOf(log[|log| - 1].at) == d then 1 else 0
  }

  /** Ids of the opportunities handled on one date. */
  function IdsOn(log: Log, d: nat): (ids: set<nat>)
    ensures forall id :: id in ids <==> exists e :: e in log && e.source == id && DateOf(e.at) == d
  {
    set e | e in log && DateOf(e.at) == d :: e.source
  }

  /** Ids of the opportunities handled on any date. */
  function AllIds(log: Log): (ids: set<nat>)
    ensures forall id :: id in ids <==> exists e :: e in log && e.source == id
  {
    set e | e in log :: e.source
  }

  /** USD of the accepted rows of one date. */
  function AcceptedOn(log: Log, d: nat): real {
    if log == [] then 0.0
    else
      var e := log[|log| - 1];
      AcceptedOn(log[..|log| - 1], d) + if DateOf(e.at) == d && e.kind == Accepted then e.orderUsd else 0.0
  }

  /** How many rows carry the given source id, over all dates. */
  function RowsFor(log: Log, id: nat): nat {
    if log == [] then 0
    else RowsFor(log[..|log| - 1], id) + if log[|log| - 1].source == id then 1 else 0
  }

  lemma Append(log: Log, e: ExecEvent, d: nat, id: nat)
    ensures UsdOn(log + [e], d) == UsdOn(log, d) + if DateOf(e.at) == d then e.orderUsd else 0.0
    ensures CountOn(log + [e], d) == CountOn(log, d) + if DateOf(e.at) == d then 1 else 0
    ensures AcceptedOn(log + [e], d)
         == AcceptedOn(log, d) + if DateOf(e.at) == d && e.kind == Accepted then e.orderUsd else 0.0
    ensures RowsFor(log + [e], id) == RowsFor(log, id) + if e.source == id then 1 else 0
  {
    assert (log + [e])[..|log|] == log;
  }

  lemma {:induction false} RowsForPositive(log: Log, id: nat)
    ensures RowsFor(log, id) > 0 <==> id in AllIds(log)
  {
    if log == [] {
    } else {
      var init, e := log[..|log| - 1], log[|log| - 1];
      assert log == init + [e];
      RowsForPositive(init, id);
    }
  }
}

/**
 pollOnce of the three auto-executors, as methods that append to the log they
 hold. `answers` is the environment: how and when each submit call ends.
 */
module ExecWorkers {
  import opened Wrappers
  import opened ExecLog
  import opened ExecMachine
  import opened ExecDrive
  import Kelly

  /** The counters pollOnce returns. */
  datatype Summary = Summary(checked: nat, executed: nat, skipped: nat, remainingBudget: real)

  /** How many opportunities a poll looks at: none when it idles on the cap. */
  function Checked(pol: Policy, log: Log, nowMs: nat, opps: seq<Opp>): nat {
    var today := DateOf(nowMs);
    if OutOfBudget(pol, Budget(pol, log, today), log, today) then 0
    else |Recent(opps, LookbackSec(pol), nowMs / 1000)|
  }

  function Report(r: Polled, checked: nat): Option<Summary> {
    if r.thrown then None else Some(Summary(checked, r.executed, r.skipped, r.remaining))
  }

  /** The dedup set late-scalp builds from the rows of one date. */
  method CollectIdsOn(log: Log, today: nat) returns (ids: set<nat>)
    ensures ids == IdsOn(log, today)
  {
    ids := {};
    for i := 0 to |log|
      invariant ids == IdsOn(log[..i], today)
    {
      assert log[..i + 1] == log[..i] + [log[i]];
      if DateOf(log[i].at) == today {
        ids := ids + {log[i].source};
      }
    }
    assert log[..|log|] == log;
  }

  /** The dedup set the other two build from every row. */
  method CollectIds(log: Log) returns (ids: set<nat>)
    ensures ids == AllIds(log)
  {
    ids := {};
    for i := 0 to |log|
      invariant ids == AllIds(log[..i])
    {
      assert log[..i + 1] == log[..i] + [log[i]];
      ids := ids + {log[i].source};
    }
    assert log[..|log|] == log;
  }

  class LateScalpWorker {
    const id: nat
    const capUsd: real
    const perSignal: real
    var log: Log

    constructor (id: nat, capUsd: real, perSignal: real, log: Log)
      ensures this.id == id && this.capUsd == capUsd && this.perSignal == perSignal && this.log == log
    {
      this.id := id;
      this.capUsd := capUsd;
      this.perSignal := perSignal;
      this.log := log;
    }

    function Pol(): Policy {
      LateScalp(capUsd, perSignal)
    }

    /** The three tests between the budget and the order: payload, seconds left, minimum size. */
    method SizeOrder(o: Opp, nowMs: nat, remaining: real) returns (usd: Option<real>)
      ensures Decide(Pol(), nowMs, remaining, o) == if usd.Some? then Order(usd.value) else Pass
    {
      if !o.payload.ScalpPayload? { return None; }
      var elapsed := (nowMs - o.payload.scanMs) as real / 1000.0;
      if o.payload.remainingSec - elapsed < MIN_SECONDS_LEFT { return None; }
      var orderUsd := Kelly.Min(perSignal, Kelly.Min(remaining, o.payload.capitalRequired));
      if orderUsd < MIN_SCALP_USD { return None; }
      return Some(orderUsd);
    }

    /** The row of an answered order. */
    method Record(o: Opp, usd: real, a: Answer)
      requires a.result.Returned?
      modifies this`log
      ensures log == old(log) + [ExecEvent(id, o.id, usd, if a.result.ok then Accepted else Rejected, a.at)]
    {
      log := log + [ExecEvent(id, o.id, usd, if a.result.ok then Accepted else Rejected, a.at)];
    }

    /** None when router.submit threw and the poll aborted with nothing logged for that order. */
    method PollOnce(nowMs: nat, opps: seq<Opp>, answers: seq<Answer>) returns (summary: Option<Summary>)
      requires |answers| >= |Recent(opps, 300, nowMs / 1000)|
      modifies this`log
      ensures var r := Poll(Pol(), id, nowMs, old(log), opps, answers);
              && log == r.log && r.session.Idle?
              && summary == Report(r, Checked(Pol(), old(log), nowMs, opps))
    {
      var today := DateOf(nowMs);
      var remaining := capUsd - UsdOn(log, today);
      if remaining <= 0.0 {
        return Some(Summary(0, 0, 0, 0.0));
      }
      var queue := Recent(opps, 300, nowMs / 1000);
      var done := CollectIdsOn(log, today);
      FromStart(Pol(), id, nowMs, log, opps, answers);
      summary := Handle(today, nowMs, remaining, done, queue, answers);
    }

    /** The loop of a poll over the opportunities it found. */
    method Handle(today: nat, nowMs: nat, budget: real, done: set<nat>, queue: seq<Opp>, answers: seq<Answer>)
      returns (summary: Option<Summary>)
      requires |answers| >= |queue|
      modifies this`log
      ensures var r := From(Call(Pol(), id, today, nowMs, done, queue, answers),
                            Position(nowMs, old(log), budget, 0, 0, 0, 0));
              log == r.log && r.session.Idle? && summary == Report(r, |queue|)
    {
      ghost var call := Call(Pol(), id, today, nowMs, done, queue, answers);
      ghost var at := Position(nowMs, log, budget, 0, 0, 0, 0);
      ghost var result := From(call, at);
      var remaining, executed, skipped, k, clock := budget, 0, 0, 0, nowMs;
      for i := 0 to |queue|
        invariant k <= i && at == Position(clock, log, remaining, executed, skipped, i, k) && From(call, at) == result
      {
        var o := queue[i];
        if o.id in done {
          FromSkip(call, at);
          at := at.(i := i + 1, skipped := skipped + 1);
          skipped := skipped + 1;
          continue;
        }
        if remaining <= 0.0 {
          FromStop(call, at);
          return Some(Summary(|queue|, executed, skipped, remaining));
        }
        var sized := SizeOrder(o, nowMs, remaining);
        if sized.None? {
          FromSkip(call, at);
          at := at.(i := i + 1, skipped := skipped + 1);
          skipped := skipped + 1;
          continue;
        }
        var orderUsd := sized.value;
        FromSubmit(call, at, orderUsd);
        at := Answered(call, at, orderUsd);
        var a := answers[k];
        if a.result.Thrown? {
          return None;
        }
        Record(o, orderUsd, a);
        k, clock := k + 1, a.at;
        if a.result.ok {
          executed := executed + 1;
          remaining := remaining - orderUsd;
        } else {
          skipped := skipped + 1;
        }
      }
      FromStop(call, at);
      return Some(Summary(|queue|, executed, skipped, remaining));
    }
  }

  class MarkovWorker {
    const id: nat
    const capUsd: real
    const perSignal: real
    const scale: real
    var log: Log

    constructor (id: nat, capUsd: real, perSignal: real, scale: real, log: Log)
      ensures this.id == id && this.capUsd == capUsd && this.perSignal == perSignal && this.scale == scale
      ensures this.log == log
    {
      this.id := id;
      this.capUsd := capUsd;
      this.perSignal := perSignal;
      this.scale := scale;
      this.log := log;
    }

    function Pol(): Policy {
      Markov(capUsd, perSignal, scale)
    }

    /** The row of an order, answered or thrown; returns what it takes from the budget. */
    method Record(o: Opp, usd: real, a: Answer) returns (spent: real)
      modifies this`log
      ensures log == old(log) + [if a.result.Thrown? then ExecEvent(id, o.id, 0.0, Failed, a.at)
                                 else ExecEvent(id, o.id, usd, if a.result.ok then Accepted else Rejected, a.at)]
      ensures spent == if a.result.Thrown? then 0.0 else usd
    {
      match a.result
      case Returned(ok) =>
        log := log + [ExecEvent(id, o.id, usd, if ok then Accepted else Rejected, a.at)];
        spent := usd;
      case Thrown =>
        log := log + [ExecEvent(id, o.id, 0.0, Failed, a.at)];
        spent := 0.0;
    }

    method PollOnce(nowMs: nat, opps: seq<Opp>, answers: seq<Answer>) returns (summary: Summary)
      requires |answers| >= |Recent(opps, 7200, nowMs / 1000)|
      modifies this`log
      ensures var r := Poll(Pol(), id, nowMs, old(log), opps, answers);
              && log == r.log && r.session.Idle? && !r.thrown
              && Some(summary) == Report(r, Checked(Pol(), old(log), nowMs, opps))
    {
      var today := DateOf(nowMs);
      var remaining := capUsd - UsdOn(log, today);
      if remaining <= 0.0 {
        return Summary(0, 0, 0, 0.0);
      }
      var queue := Recent(opps, 7200, nowMs / 1000);
      var done := CollectIds(log);
      FromStart(Pol(), id, nowMs, log, opps, answers);
      summary := Handle(today, nowMs, remaining, done, queue, answers);
    }

    /** The loop of a poll over the opportunities it found. */
    method Handle(today: nat, nowMs: nat, budget: real, done: set<nat>, queue: seq<Opp>, answers: seq<Answer>)
      returns (summary: Summary)
      requires |answers| >= |queue|
      modifies this`log
      ensures var r := From(Call(Pol(), id, today, nowMs, done, queue, answers),
                            Position(nowMs, old(log), budget, 0, 0, 0, 0));
              log == r.log && r.session.Idle? && !r.thrown && Some(summary) == Report(r, |queue|)
    {
      ghost var call := Call(Pol(), id, today, nowMs, done, queue, answers);
      ghost var at := Position(nowMs, log, budget, 0, 0, 0, 0);
      ghost var result := From(call, at);
      var remaining, executed, skipped, k, clock := budget, 0, 0, 0, nowMs;
      for i := 0 to |queue|
        invariant k <= i && at == Position(clock, log, remaining, executed, skipped, i, k) && From(call, at) == result
      {
        var o := queue[i];
        if o.id in done {
          FromSkip(call, at);
          at := at.(i := i + 1, skipped := skipped + 1);
          skipped := skipped + 1;
          continue;
        }
        if remaining <= 0.0 {
          FromStop(call, at);
          return Summary(|queue|, executed, skipped, remaining);
        }
        if !o.payload.MarkovPayload? {
          FromSkip(call, at);
          at := at.(i := i + 1, skipped := skipped + 1);
          skipped := skipped + 1;
          continue;
        }
        var decision := Kelly.DecideOrder(o.payload.opportunity, perSignal, remaining, scale);
        if decision.None? {
          FromNote(call, at);
          at := at.(log := log + [ExecEvent(id, o.id, 0.0, Skipped, clock)], i := i + 1, skipped := skipped + 1);
          log := log + [ExecEvent(id, o.id, 0.0, Skipped, clock)];
          skipped := skipped + 1;
          continue;
        }
        var betUsd := decision.value;
        FromSubmit(call, at, betUsd);
        at := Answered(call, at, betUsd);
        var a := answers[k];
        var spent := Record(o, betUsd, a);
        k, clock := k + 1, a.at;
        executed := executed + 1;
        remaining := remaining - spent;
      }
      FromStop(call, at);
      return Summary(|queue|, executed, skipped, remaining);
    }
  }

  class ConsensusWorker {
    const id: nat
    const capCount: int
    const perSignal: real
    var log: Log

    constructor (id: nat, capCount: int, perSignal: real, log: Log)
      ensures this.id == id && this.capCount == capCount && this.perSignal == perSignal && this.log == log
    {
      this.id := id;
      this.capCount := capCount;
      this.perSignal := perSignal;
      this.log := log;
    }

    function Pol(): Policy {
      Consensus(capCount, perSignal)
    }

    /** The row of an order, answered or thrown. */
    method Record(o: Opp, usd: real, a: Answer)
      modifies this`log
      ensures log == old(log) + [if a.result.Thrown? then ExecEvent(id, o.id, 0.0, Failed, a.at)
                                 else ExecEvent(id, o.id, usd, if a.result.ok then Accepted else Rejected, a.at)]
    {
      match a.result
      case Returned(ok) =>
        log := log + [ExecEvent(id, o.id, usd, if ok then Accepted else Rejected, a.at)];
      case Thrown =>
        log := log + [ExecEvent(id, o.id, 0.0, Failed, a.at)];
    }

    /** The summary has no budget; that field is 0. */
    method PollOnce(nowMs: nat, signals: seq<Opp>, answers: seq<Answer>) returns (summary: Summary)
      requires |answers| >= |Recent(signals, 1800, nowMs / 1000)|
      modifies this`log
      ensures var r := Poll(Pol(), id, nowMs, old(log), signals, answers);
              && log == r.log && r.session.Idle? && !r.thrown
              && Some(summary) == Report(r, Checked(Pol(), old(log), nowMs, signals))
    {
      var today := DateOf(nowMs);
      if CountOn(log, today) >= capCount {
        return Summary(0, 0, 0, 0.0);
      }
      var queue := Recent(signals, 1800, nowMs / 1000);
      var done := CollectIds(log);
      FromStart(Pol(), id, nowMs, log, signals, answers);
      summary := Handle(today, nowMs, done, queue, answers);
    }

    /** The loop of a poll over the signals it found. */
    method Handle(today: nat, nowMs: nat, done: set<nat>, queue: seq<Opp>, answers: seq<Answer>)
      returns (summary: Summary)
      requires |answers| >= |queue|
      modifies this`log
      ensures var r := From(Call(Pol(), id, today, nowMs, done, queue, answers),
                            Position(nowMs, old(log), 0.0, 0, 0, 0, 0));
              log == r.log && r.session.Idle? && !r.thrown && Some(summary) == Report(r, |queue|)
    {
      ghost var call := Call(Pol(), id, today, nowMs, done, queue, answers);
      ghost var at := Position(nowMs, log, 0.0, 0, 0, 0, 0);
      ghost var result := From(call, at);
      var executed, skipped, k, clock := 0, 0, 0, nowMs;
      for i := 0 to |queue|
        invariant k <= i && at == Position(clock, log, 0.0, executed, skipped, i, k) && From(call, at) == result
      {
        var o := queue[i];
        if o.id in done {
          FromSkip(call, at);
          at := at.(i := i + 1, skipped := skipped + 1);
          skipped := skipped + 1;
          continue;
        }
        if CountOn(log, today) >= capCount {
          FromStop(call, at);
          return Summary(|queue|, executed, skipped, 0.0);
        }
        if !o.payload.SignalPayload? {
          FromSkip(call, at);
          at := at.(i := i + 1, skipped := skipped + 1);
          skipped := skipped + 1;
          continue;
        }
        FromSubmit(call, at, perSignal);
        at := Answered(call, at, perSignal);
        var a := answers[k];
        Record(o, perSignal, a);
        k, clock := k + 1, a.at;
        executed := executed + 1;
      }
      FromStop(call, at);
      return Summary(|queue|, executed, skipped, 0.0);
    }
  }
}

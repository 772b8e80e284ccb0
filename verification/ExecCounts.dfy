/** What the counters of a poll count: its orders by their rows, and the entries it went over. */
module ExecCounts {
  import opened ExecDrive
  import opened ExecLog
  import opened ExecMachine
  import opened ExecPolls

  /** Rows of executed orders: late-scalp counts the accepted ones, the others every one they submitted. */
  function Executed(pol: Policy, log: Log): nat {
    if log == [] then 0
    else
      Executed(pol, log[..|log| - 1])
      + if (if pol.LateScalp? then log[|log| - 1].kind == Accepted else log[|log| - 1].kind != Skipped) then 1 else 0
  }

  lemma ExecutedAppend(pol: Policy, log: Log, e: ExecEvent)
    ensures Executed(pol, log + [e])
         == Executed(pol, log) + if (if pol.LateScalp? then e.kind == Accepted else e.kind != Skipped) then 1 else 0
  {
    assert (log + [e])[..|log|] == log;
  }

  /** From a position of the loop on: new executions are new rows of executed orders, and each entry counts once. */
  ghost predicate Counted(c: Call, p: Position, r: Polled) {
    && r.executed + Executed(c.pol, p.log) == p.executed + Executed(c.pol, r.log)
    && r.executed + r.skipped + p.i <= p.executed + p.skipped + |c.queue|
    && (r.executed + r.skipped + p.i == p.executed + p.skipped + |c.queue|
        || Exhausted(c.pol, r.remaining, r.log, c.today))
  }

  /** The next position of a loop that goes on, or a stop. */
  lemma NextPosition(c: Call, p: Position) returns (next: Position)
    requires p.i < |c.queue| && |c.queue| - p.i <= |c.answers| - p.k && !From(c, p).thrown
    ensures next == p ==> From(c, p) == Polled(p.log, Idle, p.executed, p.skipped, p.remaining, false)
                          && Exhausted(c.pol, p.remaining, p.log, c.today)
    ensures next != p ==>
              && next.i == p.i + 1 && p.k <= next.k <= p.k + 1 && next.k <= |c.answers|
              && From(c, next) == From(c, p)
              && next.executed + next.skipped == p.executed + p.skipped + 1
              && next.executed + Executed(c.pol, p.log) == p.executed + Executed(c.pol, next.log)
  {
    var o := c.queue[p.i];
    if o.id !in c.done && Exhausted(c.pol, p.remaining, p.log, c.today) {
      next := p;
      FromStop(c, p);
    } else if o.id in c.done || Decide(c.pol, c.startMs, p.remaining, o).Pass? {
      next := p.(i := p.i + 1, skipped := p.skipped + 1);
      FromSkip(c, p);
    } else if Decide(c.pol, c.startMs, p.remaining, o).Note? {
      var e := ExecEvent(c.worker, o.id, 0.0, Skipped, p.clock);
      next := p.(log := p.log + [e], i := p.i + 1, skipped := p.skipped + 1);
      FromNote(c, p);
      ExecutedAppend(c.pol, p.log, e);
      if !c.pol.Markov? { NeverNotes(c.pol, c.startMs, p.remaining, o); }
    } else {
      var usd := Decide(c.pol, c.startMs, p.remaining, o).usd;
      next := Answered(c, p, usd);
      FromSubmit(c, p, usd);
      ExecutedAppend(c.pol, p.log, next.log[|p.log|]);
    }
  }

  lemma NeverNotes(pol: Policy, startMs: nat, remaining: real, o: Opp)
    requires !pol.Markov?
    ensures !Decide(pol, startMs, remaining, o).Note?
  {
  }

  lemma {:induction false} CountsFrom(c: Call, p: Position)
    requires p.i <= |c.queue| && |c.queue| - p.i <= |c.answers| - p.k && !From(c, p).thrown
    ensures Counted(c, p, From(c, p))
    decreases |c.queue| - p.i
  {
    if p.i == |c.queue| {
      FromStop(c, p);
    } else {
      var next := NextPosition(c, p);
      if next != p { CountsFrom(c, next); }
    }
  }

  /**
   A poll that answers every submit reports as executed just the orders whose rows it appends, the rejected
   late-scalp ones apart, and as skipped every other entry it went over: all of them, unless it ran out of budget.
   */
  lemma PollCounts(pol: Policy, worker: nat, nowMs: nat, log: Log, opps: seq<Opp>, answers: seq<Answer>)
    requires !OutOfBudget(pol, Budget(pol, log, DateOf(nowMs)), log, DateOf(nowMs))
    requires |answers| >= |Recent(opps, LookbackSec(pol), nowMs / 1000)|
    requires !Poll(pol, worker, nowMs, log, opps, answers).thrown
    ensures var r := Poll(pol, worker, nowMs, log, opps, answers);
            var entries := |Recent(opps, LookbackSec(pol), nowMs / 1000)|;
            && r.executed == Executed(pol, r.log) - Executed(pol, log)
            && r.executed + r.skipped <= entries
            && (r.executed + r.skipped == entries || Exhausted(pol, r.remaining, r.log, DateOf(nowMs)))
  {
    FromStart(pol, worker, nowMs, log, opps, answers);
    CountsFrom(CallOf(pol, worker, nowMs, log, opps, answers), StartOf(pol, nowMs, log));
  }

  /** A poll that starts with nothing to spend goes over nothing and reports zeros. */
  lemma NothingToSpend(pol: Policy, worker: nat, nowMs: nat, log: Log, opps: seq<Opp>, answers: seq<Answer>)
    requires Exhausted(pol, StartBudget(pol, log, DateOf(nowMs)), log, DateOf(nowMs))
    ensures Poll(pol, worker, nowMs, log, opps, answers) == Polled(log, Idle, 0, 0, 0.0, false)
    ensures Open(pol, worker, nowMs, log, opps).taken == 0
  {
    if !pol.Consensus? { BudgetIs(pol, log, DateOf(nowMs)); }
  }
}

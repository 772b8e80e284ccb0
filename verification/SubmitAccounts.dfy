/**
 Conservation of submit calls, for any number of workers: each call is answered
 by exactly one logged row, is still in flight, or is recorded as lost.
 */
module SubmitAccounts {
  import opened ExecLog
  import opened ExecMachine

  /** Submit calls for an opportunity, on any date and by any worker. */
  function Total(subs: seq<Sub>, id: nat): nat {
    if subs == [] then 0
    else Total(subs[..|subs| - 1], id) + if subs[|subs| - 1].id == id then 1 else 0
  }

  /** Rows that answer a submit call for the opportunity. */
  function Answered(log: Log, id: nat): nat {
    if log == [] then 0
    else
      var e := log[|log| - 1];
      Answered(log[..|log| - 1], id) + if e.source == id && e.kind != Skipped then 1 else 0
  }

  function Holds(s: Session, id: nat): nat {
    if s.Waiting? && s.order.id == id then 1 else 0
  }

  /** Submit calls for the opportunity that workers are waiting on. */
  function InFlightCount(ss: seq<Session>, id: nat): nat {
    if ss == [] then 0 else Holds(ss[0], id) + InFlightCount(ss[1..], id)
  }

  lemma {:induction false} InFlightUpdate(ss: seq<Session>, p: nat, s: Session, id: nat)
    requires p < |ss|
    ensures InFlightCount(ss[p := s], id) == InFlightCount(ss, id) - Holds(ss[p], id) + Holds(s, id)
  {
    if p == 0 {
      assert ss[p := s][1..] == ss[1..];
    } else {
      assert ss[p := s][1..] == ss[1..][p - 1 := s];
      InFlightUpdate(ss[1..], p - 1, s, id);
    }
  }

  lemma {:induction false} InFlightNone(ss: seq<Session>, id: nat)
    requires forall s :: s in ss ==> s.Idle?
    ensures InFlightCount(ss, id) == 0
  {
    if ss != [] {
      assert ss[0] in ss && forall s :: s in ss[1..] ==> s in ss;
      InFlightNone(ss[1..], id);
    }
  }

  lemma {:induction false} NotesAnswerNothing(pol: Policy, worker: nat, nowMs: nat, log: Log, log': Log,
                                              id: nat)
    requires NotesOnly(pol, worker, nowMs, log, log')
    ensures Answered(log', id) == Answered(log, id)
    decreases |log'|
  {
    if |log'| == |log| {
      assert log' == log'[..|log|];
    } else {
      NotesInit(pol, worker, nowMs, log, log');
      NotesAnswerNothing(pol, worker, nowMs, log, log'[..|log'| - 1], id);
    }
  }

  ghost predicate Balanced(w: World, id: nat) {
    Total(w.submits, id) == Total(w.lost, id) + Answered(w.log, id) + InFlightCount(w.sessions, id)
  }

  lemma TotalAppend(subs: seq<Sub>, s: Sub, id: nat)
    ensures Total(subs + [s], id) == Total(subs, id) + if s.id == id then 1 else 0
  {
    assert (subs + [s])[..|subs|] == subs;
  }

  lemma AnsweredAppend(log: Log, e: ExecEvent, id: nat)
    ensures Answered(log + [e], id) == Answered(log, id) + if e.source == id && e.kind != Skipped then 1 else 0
  {
    assert (log + [e])[..|log|] == log;
  }

  /** Launching from a log that already answers the old order keeps the balance. */
  lemma LaunchBalances(pol: Policy, w: World, p: nat, log1: Log, st: Stretch, id: nat)
    requires p < |w.sessions| && NotesOnly(pol, p, w.now, log1, st.log)
    requires Balanced(w, id) && Answered(log1, id) == Answered(w.log, id) + Holds(w.sessions[p], id)
    ensures Balanced(Launch(w, p, st), id)
  {
    NotesAnswerNothing(pol, p, w.now, log1, st.log, id);
    InFlightUpdate(w.sessions, p, st.session, id);
    if st.session.Waiting? {
      TotalAppend(w.submits, Sub(p, st.session.order.id, st.session.today), id);
    }
  }

  lemma DropBalances(w: World, p: nat, id: nat)
    requires Active(w, p) && Balanced(w, id)
    ensures Balanced(Drop(w, p), id)
  {
    InFlightUpdate(w.sessions, p, Idle, id);
    TotalAppend(w.lost, Sub(p, w.sessions[p].order.id, w.sessions[p].today), id);
  }

  lemma ApplyBalances(pol: Policy, w: World, step: Step, id: nat)
    requires WellFormed(pol, w) && Balanced(w, id)
    ensures Balanced(Apply(pol, w, step), id)
  {
    match step
    case Begin(p) =>
      if p < |w.sessions| && w.sessions[p].Idle? {
        OpenWaiting(pol, w, p);
        LaunchBalances(pol, w, p, w.log, Open(pol, p, w.now, w.log, w.opps), id);
      }
    case Reply(p, result) =>
      if Active(w, p) {
        if result.Thrown? && pol.LateScalp? {
          DropBalances(w, p, id);
        } else {
          var s := w.sessions[p];
          var remaining := if result.Returned? then Settle(pol, s.remaining, s.order.usd, result.ok) else s.remaining;
          var st := Resume(pol, p, w.now, w.log, s, result);
          AdvanceSound(pol, p, w.now, ReplyLog(w, p, result), s.today, s.startMs, remaining, s.done, s.queue);
          AnsweredAppend(w.log, ReplyEvent(w, p, result), id);
          LaunchBalances(pol, w, p, ReplyLog(w, p, result), st, id);
        }
      }
    case Crash(p) =>
      if Active(w, p) { DropBalances(w, p, id); }
    case _ =>
  }

  lemma {:induction false} RunBalances(pol: Policy, w: World, steps: seq<Step>, id: nat)
    requires WellFormed(pol, w) && Balanced(w, id)
    ensures Balanced(Run(pol, w, steps), id)
    decreases |steps|
  {
    if steps != [] {
      ApplyWellFormed(pol, w, steps[0]);
      ApplyBalances(pol, w, steps[0], id);
      RunBalances(pol, Apply(pol, w, steps[0]), steps[1..], id);
    }
  }

  /** In every run of any number of workers: submitted = answered + lost + in flight. */
  lemma EverySubmitAccounted(pol: Policy, now: nat, workers: nat, steps: seq<Step>, id: nat)
    ensures Balanced(Run(pol, Init(now, workers), steps), id)
  {
    InFlightNone(Init(now, workers).sessions, id);
    RunBalances(pol, Init(now, workers), steps, id);
  }
}

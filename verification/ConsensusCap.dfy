/**
 The daily count cap of the consensus executor. The cap is re-read before each
 submit, but always for the date the poll started on, so rows that a poll logs
 after midnight escape it.
 */
module ConsensusCap {
  import opened ExecLog
  import opened ExecMachine

  function Max(x: int, y: int): int {
    if x >= y then x else y
  }

  /** Rows a step logs on date d on behalf of a poll that started on another date. */
  function Late(pol: Policy, w: World, step: Step, d: nat): nat {
    if step.Reply? && Active(w, step.p) && w.sessions[step.p].today != d
    then Max(0, CountOn(Apply(pol, w, step).log, d) - CountOn(w.log, d)) else 0
  }

  /** Rows of date d logged by polls that straddled midnight, over a run. */
  function Straddled(pol: Policy, w: World, steps: seq<Step>, d: nat): nat
    decreases |steps|
  {
    if steps == [] then 0
    else Late(pol, w, steps[0], d) + Straddled(pol, Apply(pol, w, steps[0]), steps[1..], d)
  }

  lemma {:induction false} NoRows(log: Log, d: nat)
    requires forall e :: e in log ==> DateOf(e.at) < d
    ensures CountOn(log, d) == 0
  {
    if log != [] {
      NoRows(log[..|log| - 1], d);
    }
  }

  /** `late` is the number of straddling rows of date d so far. */
  ghost predicate Inv(pol: Policy, w: World, d: nat, late: nat) {
    && pol.Consensus? && WellFormed(pol, w) && |w.sessions| == 1
    && late <= CountOn(w.log, d) <= Max(Max(pol.capCount, 0), late)
    && var s := w.sessions[0];
       s.Waiting? ==>
         && (s.today == d ==> CountOn(w.log, d) < pol.capCount)
         && (s.today < d ==> CountOn(w.log, d) == late)
  }

  /** In consensus a stretch logs nothing of its own. */
  lemma StretchLogsNothing(pol: Policy, p: nat, nowMs: nat, log: Log, today: nat, startMs: nat, done: set<nat>,
                           queue: seq<Opp>)
    requires pol.Consensus?
    ensures var st := Advance(pol, p, nowMs, log, today, startMs, 0.0, done, queue);
            && st.log == log
            && (st.session.Waiting? ==>
                  st.session.today == today && st.session.remaining == 0.0 && CountOn(log, today) < pol.capCount)
  {
    AdvanceSound(pol, p, nowMs, log, today, startMs, 0.0, done, queue);
  }

  ghost predicate ZeroBudget(w: World) {
    forall p :: 0 <= p < |w.sessions| && w.sessions[p].Waiting? ==> w.sessions[p].remaining == 0.0
  }

  lemma BeginKeepsInv(pol: Policy, w: World, d: nat, late: nat)
    requires Inv(pol, w, d, late) && w.sessions[0].Idle?
    ensures Inv(pol, Apply(pol, w, Begin(0)), d, late) && ZeroBudget(Apply(pol, w, Begin(0)))
  {
    ApplyWellFormed(pol, w, Begin(0));
    var today := DateOf(w.now);
    var q := Recent(w.opps, LookbackSec(pol), w.now / 1000);
    StretchLogsNothing(pol, 0, w.now, w.log, today, w.now, DoneIds(pol, w.log, today), q);
    if today < d {
      NoRows(w.log, d);
    }
  }

  /** What an answer changes: one row on the present date, and a session that goes on only while its date has room. */
  lemma ReplyChanges(pol: Policy, w: World, p: nat, result: Result, d: nat) returns (next: World)
    requires pol.Consensus? && WellFormed(pol, w) && ZeroBudget(w) && Active(w, p)
    ensures next == Apply(pol, w, Reply(p, result)) && next.now == w.now
    ensures WellFormed(pol, next) && |next.sessions| == |w.sessions| && ZeroBudget(next)
    ensures next.sessions == w.sessions[p := next.sessions[p]]
    ensures CountOn(next.log, d) == CountOn(w.log, d) + if DateOf(w.now) == d then 1 else 0
    ensures next.sessions[p].Waiting? ==>
              next.sessions[p].today == w.sessions[p].today && CountOn(next.log, next.sessions[p].today) < pol.capCount
  {
    next := Apply(pol, w, Reply(p, result));
    ApplyWellFormed(pol, w, Reply(p, result));
    var s, log1 := w.sessions[p], ReplyLog(w, p, result);
    Append(w.log, ReplyEvent(w, p, result), d, 0);
    StretchLogsNothing(pol, p, w.now, log1, s.today, s.startMs, s.done, s.queue);
  }

  lemma ReplyKeepsInv(pol: Policy, w: World, result: Result, d: nat, late: nat)
    requires Inv(pol, w, d, late) && ZeroBudget(w) && Active(w, 0)
    ensures var w' := Apply(pol, w, Reply(0, result));
            Inv(pol, w', d, late + Late(pol, w, Reply(0, result), d)) && ZeroBudget(w')
  {
    var next := ReplyChanges(pol, w, 0, result, d);
    assert w.sessions[0].today <= DateOf(w.now);
  }

  lemma ApplyKeepsInv(pol: Policy, w: World, step: Step, d: nat, late: nat)
    requires Inv(pol, w, d, late) && ZeroBudget(w)
    ensures Inv(pol, Apply(pol, w, step), d, late + Late(pol, w, step, d)) && ZeroBudget(Apply(pol, w, step))
  {
    if step.Begin? && step.p == 0 && w.sessions[0].Idle? {
      BeginKeepsInv(pol, w, d, late);
    } else if step.Reply? && Active(w, step.p) {
      ReplyKeepsInv(pol, w, step.result, d, late);
    } else {
      ApplyWellFormed(pol, w, step);
    }
  }

  lemma {:induction false} RunKeepsInv(pol: Policy, w: World, steps: seq<Step>, d: nat, late: nat)
    requires Inv(pol, w, d, late) && ZeroBudget(w)
    ensures Inv(pol, Run(pol, w, steps), d, late + Straddled(pol, w, steps, d))
    decreases |steps|
  {
    if steps != [] {
      ApplyKeepsInv(pol, w, steps[0], d, late);
      RunKeepsInv(pol, Apply(pol, w, steps[0]), steps[1..], d, late + Late(pol, w, steps[0], d));
    }
  }

  /**
   For one worker the rows of a date are at most the cap or, if larger, the rows
   straddling polls put there; so the cap is exceeded exactly when straddling
   polls alone exceed it, and never when no poll straddles midnight.
   */
  lemma CountCap(pol: Policy, now: nat, steps: seq<Step>, d: nat)
    requires pol.Consensus?
    ensures var n := CountOn(Run(pol, Init(now, 1), steps).log, d);
            var late := Straddled(pol, Init(now, 1), steps, d);
            && n <= Max(Max(pol.capCount, 0), late)
            && (n > Max(pol.capCount, 0) <==> late > Max(pol.capCount, 0))
  {
    RunKeepsInv(pol, Init(now, 1), steps, d, 0);
  }

  // ---------------------------------------------------------------- several workers

  /** Polls of date d that are waiting for a submit. */
  function Pending(s: Session, d: nat): nat {
    if s.Waiting? && s.today == d then 1 else 0
  }

  function PendingOn(sessions: seq<Session>, d: nat): (n: nat)
    ensures n <= |sessions|
  {
    if sessions == [] then 0 else Pending(sessions[0], d) + PendingOn(sessions[1..], d)
  }

  lemma {:induction false} PendingUpdate(sessions: seq<Session>, i: nat, s: Session, d: nat)
    requires i < |sessions|
    ensures PendingOn(sessions[i := s], d) == PendingOn(sessions, d) - Pending(sessions[i], d) + Pending(s, d)
  {
    if i == 0 {
      assert sessions[i := s][1..] == sessions[1..];
    } else {
      assert sessions[i := s][1..] == sessions[1..][i - 1 := s];
      PendingUpdate(sessions[1..], i - 1, s, d);
    }
  }

  lemma {:induction false} NonePending(sessions: seq<Session>, d: nat)
    requires forall p :: 0 <= p < |sessions| ==> sessions[p] == Idle
    ensures PendingOn(sessions, d) == 0
  {
    if sessions != [] { NonePending(sessions[1..], d); }
  }

  /** Rows of date d logged and still to come of the orders in flight. */
  ghost predicate Bounded(pol: Policy, w: World, d: nat, n: nat, late: nat) {
    && pol.Consensus? && WellFormed(pol, w) && ZeroBudget(w) && |w.sessions| == n > 0
    && CountOn(w.log, d) + PendingOn(w.sessions, d) <= Max(pol.capCount, 0) + (n - 1) + late
  }

  /** A worker that waits on date d has just found room under the cap, whatever the others do. */
  lemma StretchBounded(pol: Policy, w: World, w': World, p: nat, d: nat, n: nat, late: nat)
    requires Bounded(pol, w, d, n, late) && p < |w.sessions| && WellFormed(pol, w') && ZeroBudget(w')
    requires |w'.sessions| == |w.sessions| && w'.sessions == w.sessions[p := w'.sessions[p]]
    requires Pending(w'.sessions[p], d) == 1 ==> CountOn(w'.log, d) < pol.capCount
    requires CountOn(w'.log, d) <= CountOn(w.log, d) + Pending(w.sessions[p], d)
    ensures Bounded(pol, w', d, n, late)
  {
    PendingUpdate(w.sessions, p, w'.sessions[p], d);
  }

  lemma BeginBounded(pol: Policy, w: World, p: nat, d: nat, n: nat, late: nat)
    requires Bounded(pol, w, d, n, late) && p < |w.sessions| && w.sessions[p].Idle?
    ensures Bounded(pol, Apply(pol, w, Begin(p)), d, n, late)
  {
    ApplyWellFormed(pol, w, Begin(p));
    var today := DateOf(w.now);
    var q := Recent(w.opps, LookbackSec(pol), w.now / 1000);
    StretchLogsNothing(pol, p, w.now, w.log, today, w.now, DoneIds(pol, w.log, today), q);
    StretchBounded(pol, w, Apply(pol, w, Begin(p)), p, d, n, late);
  }

  lemma ReplyBounded(pol: Policy, w: World, p: nat, result: Result, d: nat, n: nat, late: nat)
    requires Bounded(pol, w, d, n, late) && Active(w, p)
    ensures Bounded(pol, Apply(pol, w, Reply(p, result)), d, n, late + Late(pol, w, Reply(p, result), d))
  {
    var next := ReplyChanges(pol, w, p, result, d);
    if w.sessions[p].today == d {
      StretchBounded(pol, w, next, p, d, n, late);
    } else {
      PendingUpdate(w.sessions, p, next.sessions[p], d);
    }
  }

  lemma ApplyBounded(pol: Policy, w: World, step: Step, d: nat, n: nat, late: nat)
    requires Bounded(pol, w, d, n, late)
    ensures Bounded(pol, Apply(pol, w, step), d, n, late + Late(pol, w, step, d))
  {
    if step.Begin? && step.p < |w.sessions| && w.sessions[step.p].Idle? {
      BeginBounded(pol, w, step.p, d, n, late);
    } else if step.Reply? && Active(w, step.p) {
      ReplyBounded(pol, w, step.p, step.result, d, n, late);
    } else {
      ApplyWellFormed(pol, w, step);
      if step.Crash? && step.p < |w.sessions| { PendingUpdate(w.sessions, step.p, Idle, d); }
    }
  }

  lemma {:induction false} RunBounded(pol: Policy, w: World, steps: seq<Step>, d: nat, n: nat, late: nat)
    requires Bounded(pol, w, d, n, late)
    ensures Bounded(pol, Run(pol, w, steps), d, n, late + Straddled(pol, w, steps, d))
    decreases |steps|
  {
    if steps != [] {
      ApplyBounded(pol, w, steps[0], d, n, late);
      RunBounded(pol, Apply(pol, w, steps[0]), steps[1..], d, n, late + Late(pol, w, steps[0], d));
    }
  }

  /** n workers put at most the cap and one row more for every further worker on a date, besides straddling rows. */
  lemma CountCapOfWorkers(pol: Policy, now: nat, n: nat, steps: seq<Step>, d: nat)
    requires pol.Consensus? && n > 0
    ensures CountOn(Run(pol, Init(now, n), steps).log, d)
         <= Max(pol.capCount, 0) + (n - 1) + Straddled(pol, Init(now, n), steps, d)
  {
    NonePending(Init(now, n).sessions, d);
    RunBounded(pol, Init(now, n), steps, d, n, 0);
  }
}

/**
 The daily USD caps of the late-scalp and markov executors over whole runs,
 with any number of workers sharing the log, and how sharp the bound is.
 */
module DailyCap {
  import opened ExecLog
  import opened ExecMachine
  import Kelly

  /** What a row costs against the cap: accepted orders for late-scalp, every order for markov. */
  function Charge(pol: Policy, e: ExecEvent): real {
    if pol.LateScalp? && e.kind != Accepted then 0.0 else e.orderUsd
  }

  /** Charges of one date by the workers numbered below n. */
  function ChargedBelow(pol: Policy, log: Log, d: nat, n: nat): real {
    if log == [] then 0.0
    else
      var e := log[|log| - 1];
      ChargedBelow(pol, log[..|log| - 1], d, n) + if DateOf(e.at) == d && e.worker < n then Charge(pol, e) else 0.0
  }

  /** Charges of one date by one worker. */
  function ChargedBy(pol: Policy, log: Log, d: nat, p: nat): real {
    if log == [] then 0.0
    else
      var e := log[|log| - 1];
      ChargedBy(pol, log[..|log| - 1], d, p) + if DateOf(e.at) == d && e.worker == p then Charge(pol, e) else 0.0
  }

  lemma ChargedAppend(pol: Policy, log: Log, e: ExecEvent, d: nat, p: nat)
    ensures ChargedBy(pol, log + [e], d, p)
         == ChargedBy(pol, log, d, p) + if DateOf(e.at) == d && e.worker == p then Charge(pol, e) else 0.0
  {
    assert (log + [e])[..|log|] == log;
  }

  lemma {:induction false} SplitWorkers(pol: Policy, log: Log, d: nat, n: nat)
    ensures ChargedBelow(pol, log, d, n + 1) == ChargedBelow(pol, log, d, n) + ChargedBy(pol, log, d, n)
  {
    if log != [] {
      SplitWorkers(pol, log[..|log| - 1], d, n);
    }
  }

  lemma {:induction false} BelowZero(pol: Policy, log: Log, d: nat)
    ensures ChargedBelow(pol, log, d, 0) == 0.0
  {
    if log != [] {
      BelowZero(pol, log[..|log| - 1], d);
    }
  }

  /** Counting every worker gives the plain per-date sums. */
  lemma {:induction false} BelowAll(pol: Policy, log: Log, d: nat, n: nat)
    requires forall e :: e in log ==> e.worker < n
    ensures ChargedBelow(pol, log, d, n) == if pol.LateScalp? then AcceptedOn(log, d) else UsdOn(log, d)
  {
    if log != [] {
      BelowAll(pol, log[..|log| - 1], d, n);
    }
  }

  lemma {:induction false} ChargedBounds(pol: Policy, log: Log, d: nat, p: nat)
    requires forall e :: e in log ==> e.orderUsd >= 0.0
    ensures 0.0 <= ChargedBy(pol, log, d, p) <= UsdOn(log, d)
    ensures (forall e :: e in log ==> DateOf(e.at) < d) ==> UsdOn(log, d) == 0.0
  {
    if log != [] {
      ChargedBounds(pol, log[..|log| - 1], d, p);
    }
  }

  lemma {:induction false} NotesFree(pol: Policy, worker: nat, nowMs: nat, log: Log, log': Log,
                                     d: nat, p: nat)
    requires NotesOnly(pol, worker, nowMs, log, log')
    ensures ChargedBy(pol, log', d, p) == ChargedBy(pol, log, d, p)
    decreases |log'|
  {
    if |log'| == |log| {
      assert log' == log'[..|log|];
    } else {
      NotesInit(pol, worker, nowMs, log, log');
      NotesFree(pol, worker, nowMs, log, log'[..|log'| - 1], d, p);
    }
  }

  // ---------------------------------------------------------------- the invariant

  /** What a waiting worker may still charge on a date not before its poll's start date. */
  function Open(w: World, p: nat, d: nat): real
    requires p < |w.sessions|
  {
    var s := w.sessions[p];
    if s.Waiting? && d >= s.today then s.remaining else 0.0
  }

  function Cap(pol: Policy): real {
    if pol.Consensus? then 0.0 else Kelly.Max(pol.capUsd, 0.0)
  }

  ghost predicate CapHolds(pol: Policy, w: World, p: nat, d: nat)
    requires p < |w.sessions|
  {
    ChargedBy(pol, w.log, d, p) + Open(w, p, d) <= Cap(pol)
  }

  ghost predicate CapInv(pol: Policy, w: World) {
    forall p: nat, d: nat :: p < |w.sessions| ==> CapHolds(pol, w, p, d)
  }

  /** A stretch keeps the bound when its starting log and budget satisfy it. */
  lemma LaunchKeepsCap(pol: Policy, w: World, q: nat, log1: Log, st: Stretch,
                       today: nat, remaining: real, p: nat, d: nat)
    requires q < |w.sessions| && p < |w.sessions|
    requires NotesOnly(pol, q, w.now, log1, st.log)
    requires st.session.Waiting? ==> st.session.today == today && st.session.remaining == remaining
    requires ChargedBy(pol, log1, d, p) <= Cap(pol)
    requires p == q && d >= today ==> ChargedBy(pol, log1, d, p) + remaining <= Cap(pol)
    requires p != q ==> ChargedBy(pol, log1, d, p) + Open(w, p, d) <= Cap(pol)
    ensures CapHolds(pol, Launch(w, q, st), p, d)
  {
    NotesFree(pol, q, w.now, log1, st.log, d, p);
  }

  lemma OpenNonNegative(pol: Policy, w: World, p: nat, d: nat)
    requires !pol.Consensus? && WellFormed(pol, w) && p < |w.sessions|
    ensures Open(w, p, d) >= 0.0
  {
    assert SessionOk(pol, w, w.sessions[p]);
  }

  /** The budget read at the start of a poll leaves room for every date from today on. */
  lemma BudgetFits(pol: Policy, w: World, p: nat, d: nat)
    requires !pol.Consensus? && WellFormed(pol, w) && d >= DateOf(w.now)
    requires Budget(pol, w.log, DateOf(w.now)) > 0.0
    ensures ChargedBy(pol, w.log, d, p) + Budget(pol, w.log, DateOf(w.now)) <= Cap(pol)
  {
    ChargedBounds(pol, w.log, d, p);
    ChargedBounds(pol, w.log, DateOf(w.now), p);
    assert forall e :: e in w.log ==> DateOf(e.at) <= DateOf(w.now);
  }

  lemma BeginKeepsCap(pol: Policy, w: World, q: nat, p: nat, d: nat)
    requires !pol.Consensus? && WellFormed(pol, w) && CapInv(pol, w)
    requires q < |w.sessions| && p < |w.sessions| && w.sessions[q].Idle?
    ensures CapHolds(pol, Apply(pol, w, Begin(q)), p, d)
  {
    var today := DateOf(w.now);
    var remaining := Budget(pol, w.log, today);
    var done := DoneIds(pol, w.log, today);
    var queue := Recent(w.opps, LookbackSec(pol), w.now / 1000);
    var st := ExecMachine.Open(pol, q, w.now, w.log, w.opps);
    assert CapHolds(pol, w, p, d);
    OpenNonNegative(pol, w, p, d);
    if remaining > 0.0 {
      AdvanceSound(pol, q, w.now, w.log, today, w.now, remaining, done, queue);
      if d >= today {
        BudgetFits(pol, w, p, d);
      }
      LaunchKeepsCap(pol, w, q, w.log, st, today, remaining, p, d);
    }
  }

  lemma ReplyKeepsCap(pol: Policy, w: World, q: nat, result: Result, p: nat, d: nat)
    requires !pol.Consensus? && WellFormed(pol, w) && CapInv(pol, w)
    requires Active(w, q) && p < |w.sessions| && !(result.Thrown? && pol.LateScalp?)
    ensures CapHolds(pol, Apply(pol, w, Reply(q, result)), p, d)
  {
    var s := w.sessions[q];
    var log1 := ReplyLog(w, q, result);
    var st := Resume(pol, q, w.now, w.log, s, result);
    var remaining := After(pol, s, result);
    AdvanceSound(pol, q, w.now, log1, s.today, s.startMs, remaining, s.done, s.queue);
    AfterBounds(pol, w, q, result);
    ReplyCharge(pol, w, q, result, p, d);
    assert CapHolds(pol, w, p, d);
    OpenNonNegative(pol, w, p, d);
    LaunchKeepsCap(pol, w, q, log1, st, s.today, remaining, p, d);
  }

  /** The budget a worker has left after a reply. */
  function After(pol: Policy, s: Session, result: Result): real
    requires s.Waiting?
  {
    if result.Returned? then Settle(pol, s.remaining, s.order.usd, result.ok) else s.remaining
  }

  lemma AfterBounds(pol: Policy, w: World, q: nat, result: Result)
    requires !pol.Consensus? && WellFormed(pol, w) && Active(w, q)
    ensures 0.0 <= After(pol, w.sessions[q], result) <= w.sessions[q].remaining
    ensures w.sessions[q].today <= DateOf(w.now)
  {
    assert SessionOk(pol, w, w.sessions[q]);
    DateMonotone(w.sessions[q].startMs, w.now);
  }

  /** A reply charges its own worker, on the current date, exactly what it takes off the budget. */
  lemma ReplyCharge(pol: Policy, w: World, q: nat, result: Result, p: nat, d: nat)
    requires !pol.Consensus? && Active(w, q) && !(result.Thrown? && pol.LateScalp?)
    ensures ChargedBy(pol, ReplyLog(w, q, result), d, p)
         == ChargedBy(pol, w.log, d, p)
            + if p == q && d == DateOf(w.now) then w.sessions[q].remaining - After(pol, w.sessions[q], result) else 0.0
  {
    var e := ReplyEvent(w, q, result);
    ChargedAppend(pol, w.log, e, d, p);
    assert Charge(pol, e) == w.sessions[q].remaining - After(pol, w.sessions[q], result);
  }

  lemma ApplyKeepsCap(pol: Policy, w: World, step: Step)
    requires !pol.Consensus? && WellFormed(pol, w) && CapInv(pol, w)
    ensures CapInv(pol, Apply(pol, w, step))
  {
    var w' := Apply(pol, w, step);
    forall p: nat, d: nat | p < |w'.sessions|
      ensures CapHolds(pol, w', p, d)
    {
      assert CapHolds(pol, w, p, d);
      match step
      case Begin(q) =>
        if q < |w.sessions| && w.sessions[q].Idle? {
          BeginKeepsCap(pol, w, q, p, d);
        }
      case Reply(q, result) =>
        if Active(w, q) && !(result.Thrown? && pol.LateScalp?) {
          ReplyKeepsCap(pol, w, q, result, p, d);
        } else if Active(w, q) {
          assert w.sessions[q].remaining >= 0.0;
        }
      case Crash(q) =>
        if Active(w, q) {
          assert w.sessions[q].remaining >= 0.0;
        }
      case _ =>
    }
  }

  lemma {:induction false} RunKeepsCap(pol: Policy, w: World, steps: seq<Step>)
    requires !pol.Consensus? && WellFormed(pol, w) && CapInv(pol, w)
    ensures WellFormed(pol, Run(pol, w, steps)) && CapInv(pol, Run(pol, w, steps))
    ensures |Run(pol, w, steps).sessions| == |w.sessions|
    decreases |steps|
  {
    if steps != [] {
      ApplyWellFormed(pol, w, steps[0]);
      ApplyKeepsCap(pol, w, steps[0]);
      RunKeepsCap(pol, Apply(pol, w, steps[0]), steps[1..]);
    }
  }

  /** n copies of an amount. */
  function Times(n: nat, x: real): real {
    if n == 0 then 0.0 else Times(n - 1, x) + x
  }

  lemma OneMore(n: nat, x: real)
    ensures (n + 1) as real * x == n as real * x + x
  {
  }

  lemma {:induction false} TimesIsProduct(n: nat, x: real)
    ensures Times(n, x) == n as real * x
  {
    if n > 0 {
      TimesIsProduct(n - 1, x);
      OneMore(n - 1, x);
    }
  }

  lemma {:induction false} CapTimesWorkers(pol: Policy, w: World, d: nat, n: nat)
    requires !pol.Consensus? && WellFormed(pol, w) && CapInv(pol, w) && n <= |w.sessions|
    ensures ChargedBelow(pol, w.log, d, n) <= Times(n, Cap(pol))
  {
    if n == 0 {
      BelowZero(pol, w.log, d);
    } else {
      CapTimesWorkers(pol, w, d, n - 1);
      OneWorkerMore(pol, w, d, n - 1);
    }
  }

  lemma OneWorkerMore(pol: Policy, w: World, d: nat, n: nat)
    requires !pol.Consensus? && WellFormed(pol, w) && CapInv(pol, w) && n < |w.sessions|
    ensures ChargedBelow(pol, w.log, d, n + 1) <= ChargedBelow(pol, w.log, d, n) + Cap(pol)
  {
    SplitWorkers(pol, w.log, d, n);
    assert CapHolds(pol, w, n, d);
    assert Open(w, n, d) >= 0.0;
  }

  lemma DailyTotal(pol: Policy, now: nat, workers: nat, steps: seq<Step>, d: nat)
    requires !pol.Consensus?
    ensures var log := Run(pol, Init(now, workers), steps).log;
            (if pol.LateScalp? then AcceptedOn(log, d) else UsdOn(log, d)) <= Times(workers, Cap(pol))
  {
    var w := Run(pol, Init(now, workers), steps);
    forall p: nat, d: nat | p < workers ensures CapHolds(pol, Init(now, workers), p, d) {
    }
    RunKeepsCap(pol, Init(now, workers), steps);
    CapTimesWorkers(pol, w, d, workers);
    BelowAll(pol, w.log, d, workers);
  }

  /**
   In every run, whatever the verdicts, throws, crashes and midnight crossings,
   the USD logged on one date is at most the cap times the number of workers:
   accepted USD for late-scalp, USD of every submitted order for markov.
   */
  lemma DailyCapHolds(pol: Policy, now: nat, workers: nat, steps: seq<Step>, d: nat)
    requires !pol.Consensus?
    ensures var log := Run(pol, Init(now, workers), steps).log;
            (if pol.LateScalp? then AcceptedOn(log, d) else UsdOn(log, d)) <= workers as real * Cap(pol)
  {
    DailyTotal(pol, now, workers, steps, d);
    TimesIsProduct(workers, Cap(pol));
  }

  /** One worker never exceeds its cap on any date. */
  lemma SingleWorkerCap(pol: Policy, now: nat, steps: seq<Step>, d: nat)
    requires !pol.Consensus?
    ensures var log := Run(pol, Init(now, 1), steps).log;
            (if pol.LateScalp? then AcceptedOn(log, d) else UsdOn(log, d)) <= Cap(pol)
  {
    DailyCapHolds(pol, now, 1, steps, d);
  }
}

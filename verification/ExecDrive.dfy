/**
 A whole call of pollOnce: the stretches of one worker driven by the answers its
 submit calls get. The result is the specification of the three worker methods,
 and is shown to be a run of the step machine.
 */
module ExecDrive {
  import opened ExecLog
  import opened ExecMachine

  /** How and when a submit call ends. */
  datatype Answer = Answer(at: nat, result: Result)

  /** `thrown` means pollOnce itself throws, which only late-scalp lets happen. */
  datatype Polled = Polled(log: Log, session: Session, executed: nat, skipped: nat, remaining: real, thrown: bool)

  function Plus(r: Polled, executed: nat, skipped: nat): Polled {
    r.(executed := r.executed + executed, skipped := r.skipped + skipped)
  }

  function Drive(pol: Policy, worker: nat, st: Stretch, answers: seq<Answer>): Polled
    decreases |answers|
  {
    if st.session.Idle? || answers == [] then
      Polled(st.log, st.session, 0, st.skipped, st.remaining, false)
    else
      var a := answers[0];
      if a.result.Thrown? && pol.LateScalp? then
        Polled(st.log, Idle, 0, st.skipped, st.remaining, true)
      else
        var r := Drive(pol, worker, Resume(pol, worker, a.at, st.log, st.session, a.result), answers[1..]);
        if pol.LateScalp? && !a.result.ok then Plus(r, 0, st.skipped + 1) else Plus(r, 1, st.skipped)
  }

  /** One poll with enough answers for every opportunity it may submit. */
  function Poll(pol: Policy, worker: nat, nowMs: nat, log: Log, opps: seq<Opp>, answers: seq<Answer>): Polled {
    Drive(pol, worker, Open(pol, worker, nowMs, log, opps), answers)
  }

  /** Waiting for each answer and taking it, as steps. */
  function Script(p: nat, now: nat, answers: seq<Answer>): seq<Step>
    decreases |answers|
  {
    if answers == [] then []
    else
      var at := if answers[0].at >= now then answers[0].at else now;
      [Tick(at - now)] + ([Reply(p, answers[0].result)] + Script(p, at, answers[1..]))
  }

  ghost predicate Timely(now: nat, answers: seq<Answer>)
    decreases |answers|
  {
    answers == [] || (now <= answers[0].at && Timely(answers[0].at, answers[1..]))
  }

  lemma WaitIs(pol: Policy, w: World, at: nat)
    requires w.now <= at
    ensures Apply(pol, w, Tick(at - w.now)) == w.(now := at)
  {
  }

  /** Waiting until a time and taking a step. */
  lemma WaitThen(pol: Policy, w: World, at: nat, step: Step, rest: seq<Step>)
    requires w.now <= at
    ensures Run(pol, w, [Tick(at - w.now)] + ([step] + rest)) == Run(pol, Apply(pol, w.(now := at), step), rest)
  {
    FirstStep(pol, w, Tick(at - w.now), [step] + rest);
    WaitIs(pol, w, at);
    FirstStep(pol, w.(now := at), step, rest);
  }

  /** Answers to an idle worker change nothing but the clock. */
  lemma {:induction false} IdleRun(pol: Policy, w: World, p: nat, answers: seq<Answer>)
    requires p < |w.sessions| && w.sessions[p].Idle?
    ensures var w' := Run(pol, w, Script(p, w.now, answers)); w' == w.(now := w'.now)
    decreases |answers|
  {
    if answers != [] {
      var at := if answers[0].at >= w.now then answers[0].at else w.now;
      WaitThen(pol, w, at, Reply(p, answers[0].result), Script(p, at, answers[1..]));
      IdleRun(pol, w.(now := at), p, answers[1..]);
    }
  }

  lemma ScriptCons(p: nat, now: nat, answers: seq<Answer>)
    requires answers != [] && now <= answers[0].at
    ensures Script(p, now, answers)
         == [Tick(answers[0].at - now)] + ([Reply(p, answers[0].result)] + Script(p, answers[0].at, answers[1..]))
  {
  }

  lemma ScriptStep(pol: Policy, w: World, p: nat, answers: seq<Answer>) returns (rest: seq<Step>)
    requires answers != [] && w.now <= answers[0].at
    ensures rest == Script(p, answers[0].at, answers[1..])
    ensures var w2 := Apply(pol, w.(now := answers[0].at), Reply(p, answers[0].result));
            Run(pol, w, Script(p, w.now, answers)) == Run(pol, w2, rest)
  {
    rest := Script(p, answers[0].at, answers[1..]);
    ScriptCons(p, w.now, answers);
    WaitThen(pol, w, answers[0].at, Reply(p, answers[0].result), rest);
  }

  lemma {:induction false} DriveRun(pol: Policy, w: World, p: nat, st: Stretch, answers: seq<Answer>)
    requires p < |w.sessions| && w.sessions[p] == st.session && w.log == st.log
    requires Timely(w.now, answers)
    ensures var w' := Run(pol, w, Script(p, w.now, answers));
            var r := Drive(pol, p, st, answers);
            w'.log == r.log && w'.sessions == w.sessions[p := r.session] && w'.opps == w.opps
    decreases |answers|
  {
    if st.session.Idle? {
      IdleRun(pol, w, p, answers);
    } else if answers != [] {
      var a := answers[0];
      var w2 := Apply(pol, w.(now := a.at), Reply(p, a.result));
      var _ := ScriptStep(pol, w, p, answers);
      if a.result.Thrown? && pol.LateScalp? {
        IdleRun(pol, w2, p, answers[1..]);
      } else {
        var next := Resume(pol, p, a.at, st.log, st.session, a.result);
        DriveRun(pol, w2, p, next, answers[1..]);
        SameSlot(w.sessions, p, next.session, Drive(pol, p, next, answers[1..]).session);
      }
    }
  }

  lemma SameSlot(sessions: seq<Session>, p: nat, a: Session, b: Session)
    requires p < |sessions|
    ensures sessions[p := a][p := b] == sessions[p := b]
  {
  }

  /** pollOnce of an idle worker is a run of the step machine with the same log and final session. */
  lemma PollIsRun(pol: Policy, w: World, p: nat, answers: seq<Answer>)
    requires p < |w.sessions| && w.sessions[p].Idle? && Timely(w.now, answers)
    ensures var w' := Run(pol, w, [Begin(p)] + Script(p, w.now, answers));
            var r := Poll(pol, p, w.now, w.log, w.opps, answers);
            w'.log == r.log && w'.sessions == w.sessions[p := r.session] && w'.opps == w.opps
  {
    var st := Open(pol, p, w.now, w.log, w.opps);
    assert ([Begin(p)] + Script(p, w.now, answers))[1..] == Script(p, w.now, answers);
    DriveRun(pol, Apply(pol, w, Begin(p)), p, st, answers);
  }

  // ---------------------------------------------------------------- one loop iteration

  /** The rest of a poll from a given loop position. */
  function Rest(pol: Policy, worker: nat, clock: nat, log: Log, today: nat, startMs: nat, remaining: real,
                done: set<nat>, queue: seq<Opp>, answers: seq<Answer>): Polled
  {
    Drive(pol, worker, Advance(pol, worker, clock, log, today, startMs, remaining, done, queue), answers)
  }

  /** What stays the same during one poll, and where its loop is. */
  datatype Call = Call(pol: Policy, worker: nat, today: nat, startMs: nat, done: set<nat>, queue: seq<Opp>,
                       answers: seq<Answer>)

  datatype Position = Position(clock: nat, log: Log, remaining: real, executed: nat, skipped: nat, i: nat, k: nat)

  /** The outcome of the poll seen from a position of its loop. */
  function From(c: Call, p: Position): Polled
    requires p.i <= |c.queue| && p.k <= |c.answers|
  {
    Plus(Rest(c.pol, c.worker, p.clock, p.log, c.today, c.startMs, p.remaining, c.done, c.queue[p.i..],
              c.answers[p.k..]),
         p.executed, p.skipped)
  }

  /** The loop of a poll that is not idle. */
  function CallOf(pol: Policy, worker: nat, nowMs: nat, log: Log, opps: seq<Opp>, answers: seq<Answer>): Call {
    var today := DateOf(nowMs);
    Call(pol, worker, today, nowMs, DoneIds(pol, log, today), Recent(opps, LookbackSec(pol), nowMs / 1000), answers)
  }

  function StartOf(pol: Policy, nowMs: nat, log: Log): Position {
    Position(nowMs, log, Budget(pol, log, DateOf(nowMs)), 0, 0, 0, 0)
  }

  lemma FromStart(pol: Policy, worker: nat, nowMs: nat, log: Log, opps: seq<Opp>, answers: seq<Answer>)
    requires !OutOfBudget(pol, Budget(pol, log, DateOf(nowMs)), log, DateOf(nowMs))
    ensures From(CallOf(pol, worker, nowMs, log, opps, answers), StartOf(pol, nowMs, log))
         == Poll(pol, worker, nowMs, log, opps, answers)
  {
    var queue := Recent(opps, LookbackSec(pol), nowMs / 1000);
    assert queue[0..] == queue && answers[0..] == answers;
  }

  lemma FromStop(c: Call, p: Position)
    requires p.i <= |c.queue| && p.k <= |c.answers|
    requires p.i < |c.queue| ==> c.queue[p.i].id !in c.done && OutOfBudget(c.pol, p.remaining, p.log, c.today)
    ensures From(c, p) == Polled(p.log, Idle, p.executed, p.skipped, p.remaining, false)
  {
  }

  lemma FromSkip(c: Call, p: Position)
    requires p.i < |c.queue| && p.k <= |c.answers|
    requires c.queue[p.i].id in c.done
          || (!OutOfBudget(c.pol, p.remaining, p.log, c.today)
              && Decide(c.pol, c.startMs, p.remaining, c.queue[p.i]).Pass?)
    ensures From(c, p) == From(c, p.(i := p.i + 1, skipped := p.skipped + 1))
  {
    assert c.queue[p.i..][1..] == c.queue[p.i + 1..];
  }

  lemma FromNote(c: Call, p: Position)
    requires p.i < |c.queue| && p.k <= |c.answers| && c.queue[p.i].id !in c.done
    requires !OutOfBudget(c.pol, p.remaining, p.log, c.today)
    requires Decide(c.pol, c.startMs, p.remaining, c.queue[p.i]).Note?
    ensures var e := ExecEvent(c.worker, c.queue[p.i].id, 0.0, Skipped, p.clock);
            From(c, p) == From(c, p.(log := p.log + [e], i := p.i + 1, skipped := p.skipped + 1))
  {
    assert c.queue[p.i..][1..] == c.queue[p.i + 1..];
  }

  /** The position after an answered order. */
  function Answered(c: Call, p: Position, usd: real): Position
    requires p.i < |c.queue| && p.k < |c.answers|
  {
    var a, id := c.answers[p.k], c.queue[p.i].id;
    var next := p.(clock := a.at, i := p.i + 1, k := p.k + 1);
    match a.result
    case Returned(ok) =>
      var logged := next.(log := p.log + [ExecEvent(c.worker, id, usd, if ok then Accepted else Rejected, a.at)],
                          remaining := Settle(c.pol, p.remaining, usd, ok));
      if c.pol.LateScalp? && !ok then logged.(skipped := p.skipped + 1) else logged.(executed := p.executed + 1)
    case Thrown =>
      next.(log := p.log + [ExecEvent(c.worker, id, 0.0, Failed, a.at)], executed := p.executed + 1)
  }

  lemma FromSubmit(c: Call, p: Position, usd: real)
    requires p.i < |c.queue| && p.k < |c.answers| && c.queue[p.i].id !in c.done
    requires !OutOfBudget(c.pol, p.remaining, p.log, c.today)
    requires Decide(c.pol, c.startMs, p.remaining, c.queue[p.i]) == Order(usd)
    ensures From(c, p)
         == if c.pol.LateScalp? && c.answers[p.k].result.Thrown?
            then Polled(p.log, Idle, p.executed, p.skipped, p.remaining, true)
            else From(c, Answered(c, p, usd))
  {
    assert c.queue[p.i..][1..] == c.queue[p.i + 1..];
    assert c.answers[p.k..][1..] == c.answers[p.k + 1..];
  }
}

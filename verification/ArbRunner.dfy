/**
 The single-market arb runner: evaluations triggered by the CLOB websocket and by
 on-chain fills interleave at their await points and share `attempts`,
 `lastEvalTs` and `stopped`. Each evaluation is a task; a step runs one handler
 or resumes one task up to its next await. The number of arbs an evaluation finds
 is chosen by the environment.
 */
module ArbRunner {

  const WS_THROTTLE_MS := 750

  datatype Trigger = Ws | OnChain

  /** Suspended at the order-book refetch, suspended at an execution with `left` arbs still to try, or done. */
  datatype Task = Refetching | Executing(left: nat) | Finished

  datatype Eval = Eval(trigger: Trigger, at: nat)

  /** `launched`, `verdicts` and `evals` are history. */
  datatype State = State(now: nat, attempts: nat, lastEvalTs: nat, stopped: bool, exited: bool, tasks: seq<Task>,
                         launched: nat, verdicts: nat, evals: seq<Eval>)

  datatype Step =
    | Tick(ms: nat)
    | Message(arbs: nat)
    | Fill(watched: bool)
    | Refetched(i: nat, arbs: nat)
    | Verdict(i: nat)
    | Timeout

  /** After the loop: exit when the attempts are used up. */
  function Leave(max: nat, s: State, i: nat): State
    requires i < |s.tasks|
  {
    s.(tasks := s.tasks[i := Finished], exited := s.exited || s.attempts >= max)
  }

  /** The head of the loop over the arbs still to try. */
  function Loop(max: nat, s: State, i: nat, left: nat): State
    requires i < |s.tasks|
  {
    if left == 0 then Leave(max, s, i)
    else if s.attempts >= max then Leave(max, s.(stopped := true), i)
    else
      s.(attempts := s.attempts + 1, launched := s.launched + 1, tasks := s.tasks[i := Executing(left - 1)])
  }

  /** From the book snapshot on; no arbs means a plain return. */
  function Detect(max: nat, s: State, i: nat, arbs: nat): State
    requires i < |s.tasks|
  {
    if arbs == 0 then s.(tasks := s.tasks[i := Finished]) else Loop(max, s, i, arbs)
  }

  predicate Admitted(max: nat, s: State, trigger: Trigger) {
    && !s.stopped && s.attempts < max
    && (trigger == Ws ==> s.now - s.lastEvalTs >= WS_THROTTLE_MS)
  }

  /** A new evaluation as a new task. */
  function Start(s: State, trigger: Trigger): State {
    s.(lastEvalTs := s.now, tasks := s.tasks + [Refetching], evals := s.evals + [Eval(trigger, s.now)])
  }

  function Apply(max: nat, s: State, step: Step): State {
    if s.exited then s
    else
      match step
      case Tick(ms) => s.(now := s.now + ms)
      case Message(arbs) =>
        if Admitted(max, s, Ws) then Detect(max, Start(s, Ws), |s.tasks|, arbs) else s
      case Fill(watched) =>
        if watched && Admitted(max, s, OnChain) then Start(s, OnChain) else s
      case Refetched(i, arbs) =>
        if i < |s.tasks| && s.tasks[i].Refetching? then Detect(max, s, i, arbs) else s
      case Verdict(i) =>
        if i < |s.tasks| && s.tasks[i].Executing?
        then Loop(max, s.(verdicts := s.verdicts + 1), i, s.tasks[i].left) else s
      case Timeout => s.(stopped := true, exited := true)
  }

  function Run(max: nat, s: State, steps: seq<Step>): State
    decreases |steps|
  {
    if steps == [] then s else Run(max, Apply(max, s, steps[0]), steps[1..])
  }

  /** Start-up at a wall-clock time; lastEvalTs is 0, so the first message is not throttled. */
  function Init(now: nat): State {
    State(now, 0, 0, false, false, [], 0, 0, [])
  }

  // ---------------------------------------------------------------- invariant

  function IsExecuting(t: Task): nat {
    if t.Executing? then 1 else 0
  }

  /** Executions launched and still awaited. */
  function InFlight(tasks: seq<Task>): nat {
    if tasks == [] then 0 else IsExecuting(tasks[0]) + InFlight(tasks[1..])
  }

  lemma {:induction false} InFlightUpdate(tasks: seq<Task>, i: nat, t: Task)
    requires i < |tasks|
    ensures InFlight(tasks[i := t]) == InFlight(tasks) - IsExecuting(tasks[i]) + IsExecuting(t)
  {
    if i == 0 {
      assert tasks[i := t][1..] == tasks[1..];
    } else {
      assert tasks[i := t][1..] == tasks[1..][i - 1 := t];
      InFlightUpdate(tasks[1..], i - 1, t);
    }
  }

  lemma {:induction false} InFlightAppend(tasks: seq<Task>, t: Task)
    ensures InFlight(tasks + [t]) == InFlight(tasks) + IsExecuting(t)
  {
    if tasks == [] {
      assert tasks + [t] == [t] && [t][1..] == [];
    } else {
      assert (tasks + [t])[1..] == tasks[1..] + [t];
      InFlightAppend(tasks[1..], t);
    }
  }

  /** Every websocket evaluation starts at least 750 ms after the evaluation before it, of either kind. */
  ghost predicate Spaced(evals: seq<Eval>) {
    && (forall k :: 0 < k < |evals| && evals[k].trigger == Ws ==> evals[k].at - evals[k - 1].at >= WS_THROTTLE_MS)
    && (forall k :: 0 < k < |evals| ==> evals[k - 1].at <= evals[k].at)
  }

  /** Attempts, launches and verdicts agree, and at the cap something is in flight until the process exits. */
  ghost predicate Tallied(max: nat, s: State) {
    && s.launched == s.attempts <= max
    && s.launched == s.verdicts + InFlight(s.tasks)
    && (s.stopped ==> s.exited)
    && (!s.exited && s.attempts == max && max > 0 ==> InFlight(s.tasks) > 0)
  }

  ghost predicate Paced(evals: seq<Eval>, last: nat, now: nat) {
    Spaced(evals) && last <= now && (evals != [] ==> last == evals[|evals| - 1].at)
  }

  ghost predicate Inv(max: nat, s: State) {
    Tallied(max, s) && Paced(s.evals, s.lastEvalTs, s.now)
  }

  lemma LoopKeeps(max: nat, s: State, i: nat, left: nat)
    requires i < |s.tasks| && !s.exited && !s.stopped && s.launched == s.attempts <= max
    requires s.launched == s.verdicts + InFlight(s.tasks) - IsExecuting(s.tasks[i])
    requires Paced(s.evals, s.lastEvalTs, s.now)
    ensures Inv(max, Loop(max, s, i, left))
  {
    InFlightUpdate(s.tasks, i, Finished);
    if left > 0 {
      InFlightUpdate(s.tasks, i, Executing(left - 1));
    }
  }

  lemma StartKeeps(max: nat, s: State, trigger: Trigger)
    requires Inv(max, s) && !s.exited && Admitted(max, s, trigger)
    ensures Inv(max, Start(s, trigger))
  {
    InFlightAppend(s.tasks, Refetching);
  }

  lemma DetectKeeps(max: nat, s: State, i: nat, arbs: nat)
    requires Inv(max, s) && !s.exited && i < |s.tasks| && s.tasks[i].Refetching?
    ensures Inv(max, Detect(max, s, i, arbs))
  {
    if arbs == 0 {
      InFlightUpdate(s.tasks, i, Finished);
    } else {
      LoopKeeps(max, s, i, arbs);
    }
  }

  lemma EvaluationKeeps(max: nat, s: State, arbs: nat)
    requires Inv(max, s) && !s.exited && Admitted(max, s, Ws)
    ensures Inv(max, Detect(max, Start(s, Ws), |s.tasks|, arbs))
  {
    StartKeeps(max, s, Ws);
    DetectKeeps(max, Start(s, Ws), |s.tasks|, arbs);
  }

  lemma VerdictKeeps(max: nat, s: State, i: nat)
    requires Inv(max, s) && !s.exited && i < |s.tasks| && s.tasks[i].Executing?
    ensures Inv(max, Loop(max, s.(verdicts := s.verdicts + 1), i, s.tasks[i].left))
  {
    LoopKeeps(max, s.(verdicts := s.verdicts + 1), i, s.tasks[i].left);
  }

  lemma ApplyKeeps(max: nat, s: State, step: Step)
    requires Inv(max, s)
    ensures Inv(max, Apply(max, s, step))
  {
    if !s.exited {
      match step
      case Message(arbs) =>
        if Admitted(max, s, Ws) { EvaluationKeeps(max, s, arbs); }
      case Fill(watched) =>
        if watched && Admitted(max, s, OnChain) { StartKeeps(max, s, OnChain); }
      case Refetched(i, arbs) =>
        if i < |s.tasks| && s.tasks[i].Refetching? { DetectKeeps(max, s, i, arbs); }
      case Verdict(i) =>
        if i < |s.tasks| && s.tasks[i].Executing? { VerdictKeeps(max, s, i); }
      case _ =>
    }
  }

  lemma {:induction false} RunKeeps(max: nat, s: State, steps: seq<Step>)
    requires Inv(max, s)
    ensures Inv(max, Run(max, s, steps))
    decreases |steps|
  {
    if steps != [] {
      ApplyKeeps(max, s, steps[0]);
      RunKeeps(max, Apply(max, s, steps[0]), steps[1..]);
    }
  }

  // ---------------------------------------------------------------- theorems

  /** Under every interleaving: launched = attempts <= max, and every launch is answered or in flight. */
  lemma AttemptsBounded(max: nat, now: nat, steps: seq<Step>)
    ensures var s := Run(max, Init(now), steps);
            s.launched == s.attempts <= max && s.launched == s.verdicts + InFlight(s.tasks)
  {
    RunKeeps(max, Init(now), steps);
  }

  lemma ThrottleHolds(max: nat, now: nat, steps: seq<Step>)
    ensures Spaced(Run(max, Init(now), steps).evals)
  {
    RunKeeps(max, Init(now), steps);
  }

  function WsEvals(evals: seq<Eval>): nat {
    if evals == [] then 0 else WsEvals(evals[..|evals| - 1]) + if evals[|evals| - 1].trigger == Ws then 1 else 0
  }

  /** So the websocket starts at most one evaluation per 750 ms, however many on-chain ones mix in. */
  lemma {:induction false} WsRate(evals: seq<Eval>)
    requires Spaced(evals) && evals != []
    ensures (WsEvals(evals) - 1) * WS_THROTTLE_MS <= evals[|evals| - 1].at - evals[0].at
  {
    var init := evals[..|evals| - 1];
    if init == [] {
      assert WsEvals(init) == 0;
    } else {
      assert Spaced(init) by {
        assert forall k :: 0 <= k < |init| ==> init[k] == evals[k];
      }
      WsRate(init);
      assert init[|init| - 1] == evals[|evals| - 2];
    }
  }

  lemma WsRateOfRuns(max: nat, now: nat, steps: seq<Step>)
    requires Run(max, Init(now), steps).evals != []
    ensures var evals := Run(max, Init(now), steps).evals;
            (WsEvals(evals) - 1) * WS_THROTTLE_MS <= evals[|evals| - 1].at - evals[0].at
  {
    ThrottleHolds(max, now, steps);
    WsRate(Run(max, Init(now), steps).evals);
  }

  /** The runner cannot hang at the cap: something is in flight, and its verdict ends the process. */
  lemma CapLeadsToExit(max: nat, now: nat, steps: seq<Step>, i: nat)
    requires max > 0
    ensures var s := Run(max, Init(now), steps);
            && (!s.exited && s.attempts == max ==> InFlight(s.tasks) > 0)
            && (s.attempts == max && i < |s.tasks| && s.tasks[i].Executing? ==> Apply(max, s, Verdict(i)).exited)
  {
    RunKeeps(max, Init(now), steps);
  }

  // ---------------------------------------------------------------- verdicts lost at the exit

  predicate NoTimeout(steps: seq<Step>) {
    forall k :: 0 <= k < |steps| ==> steps[k] != Timeout
  }

  predicate NoneRefetching(tasks: seq<Task>) {
    forall i :: 0 <= i < |tasks| ==> !tasks[i].Refetching?
  }

  lemma {:induction false} ExitedStays(max: nat, s: State, steps: seq<Step>)
    requires s.exited
    ensures Run(max, s, steps) == s
    decreases |steps|
  {
    if steps != [] { ExitedStays(max, s, steps[1..]); }
  }

  lemma LeaveAtCap(max: nat, s: State, i: nat, left: nat)
    requires i < |s.tasks| && s.attempts >= max
    ensures var s' := Loop(max, s, i, left);
            s'.exited && s'.launched == s.launched && s'.verdicts == s.verdicts
  {
  }

  /** At the cap a step changes nothing that counts, or ends the process with at most one more verdict. */
  lemma StepAtCap(max: nat, s: State, step: Step)
    requires !s.exited && s.attempts >= max
    ensures var s' := Apply(max, s, step);
            && s'.attempts == s.attempts && s'.launched == s.launched
            && s'.verdicts == s.verdicts + (if step.Verdict? && s'.exited then 1 else 0)
            && (!s'.exited ==> InFlight(s'.tasks) == InFlight(s.tasks))
            && (!s'.exited && NoneRefetching(s.tasks) ==> NoneRefetching(s'.tasks))
            && (s'.exited && NoneRefetching(s.tasks) ==> step.Verdict? || step.Timeout?)
  {
    match step
    case Refetched(i, arbs) =>
      if i < |s.tasks| && s.tasks[i].Refetching? {
        if arbs == 0 {
          InFlightUpdate(s.tasks, i, Finished);
        } else {
          LeaveAtCap(max, s, i, arbs);
        }
      }
    case Verdict(i) =>
      if i < |s.tasks| && s.tasks[i].Executing? {
        LeaveAtCap(max, s.(verdicts := s.verdicts + 1), i, s.tasks[i].left);
      }
    case _ =>
  }

  /** Every exit from the cap loses all executions in flight, or all but one. */
  lemma {:induction false} LostFromCap(max: nat, s: State, steps: seq<Step>)
    requires !s.exited && s.attempts >= max && s.launched == s.verdicts + InFlight(s.tasks)
    requires Run(max, s, steps).exited
    ensures var t := Run(max, s, steps);
            InFlight(s.tasks) - 1 <= t.launched - t.verdicts <= InFlight(s.tasks)
    decreases |steps|
  {
    var s' := Apply(max, s, steps[0]);
    StepAtCap(max, s, steps[0]);
    if s'.exited {
      ExitedStays(max, s', steps[1..]);
    } else {
      LostFromCap(max, s', steps[1..]);
    }
  }

  /** With nothing but executions left, only a verdict or the timeout ends the process. */
  lemma {:induction false} VerdictEnds(max: nat, s: State, steps: seq<Step>)
    requires !s.exited && s.attempts >= max && NoneRefetching(s.tasks) && NoTimeout(steps)
    requires Run(max, s, steps).exited
    ensures var t := Run(max, s, steps); t.launched == s.launched && t.verdicts == s.verdicts + 1
    decreases |steps|
  {
    var s' := Apply(max, s, steps[0]);
    StepAtCap(max, s, steps[0]);
    if s'.exited {
      ExitedStays(max, s', steps[1..]);
    } else {
      VerdictEnds(max, s', steps[1..]);
    }
  }

  lemma {:induction false} SomeExecuting(tasks: seq<Task>) returns (i: nat)
    requires InFlight(tasks) > 0
    ensures i < |tasks| && tasks[i].Executing?
  {
    if tasks[0].Executing? {
      i := 0;
    } else {
      i := SomeExecuting(tasks[1..]);
      i := i + 1;
    }
  }

  /** However the run goes on, short of the timeout, it exits with every verdict. */
  ghost predicate KeepsVerdicts(max: nat, s: State) {
    forall more :: NoTimeout(more) && Run(max, s, more).exited ==>
      Run(max, s, more).verdicts == Run(max, s, more).launched
  }

  lemma OneStep(max: nat, s: State, step: Step)
    ensures Run(max, s, [step]) == Apply(max, s, step)
  {
    assert [step][1..] == [];
  }

  /** A refetch that finds an arb, or a first of several verdicts, ends the process with a verdict missing. */
  lemma LosesOne(max: nat, s: State)
    requires max > 0 && Inv(max, s) && !s.exited && s.attempts == max
    requires InFlight(s.tasks) != 1 || !NoneRefetching(s.tasks)
    ensures !KeepsVerdicts(max, s)
  {
    var step: Step;
    if InFlight(s.tasks) != 1 {
      var i := SomeExecuting(s.tasks);
      step := Verdict(i);
      LeaveAtCap(max, s.(verdicts := s.verdicts + 1), i, s.tasks[i].left);
    } else {
      var i :| 0 <= i < |s.tasks| && s.tasks[i].Refetching?;
      step := Refetched(i, 1);
      LeaveAtCap(max, s, i, 1);
    }
    OneStep(max, s, step);
    assert NoTimeout([step]);
    assert Run(max, s, [step]).exited;
  }

  /**
   Whether verdicts can be lost is decided when the cap is reached: without the timeout none is lost
   on any continuation if and only if one execution is in flight and no evaluation is refetching.
   */
  lemma CapDecides(max: nat, now: nat, steps: seq<Step>)
    requires max > 0
    requires var s := Run(max, Init(now), steps); !s.exited && s.attempts == max
    ensures var s := Run(max, Init(now), steps);
            KeepsVerdicts(max, s) <==> InFlight(s.tasks) == 1 && NoneRefetching(s.tasks)
  {
    var s := Run(max, Init(now), steps);
    RunKeeps(max, Init(now), steps);
    if InFlight(s.tasks) == 1 && NoneRefetching(s.tasks) {
      forall more | NoTimeout(more) && Run(max, s, more).exited
        ensures Run(max, s, more).verdicts == Run(max, s, more).launched
      {
        VerdictEnds(max, s, more);
      }
    } else {
      LosesOne(max, s);
    }
  }

  /** With two or more in flight at the cap every run that exits, by whatever step, has lost a verdict. */
  lemma FateAtCap(max: nat, now: nat, steps: seq<Step>, more: seq<Step>)
    requires var s := Run(max, Init(now), steps); !s.exited && s.attempts == max && InFlight(s.tasks) >= 2
    requires Run(max, Run(max, Init(now), steps), more).exited
    ensures var t := Run(max, Run(max, Init(now), steps), more); t.verdicts < t.launched
  {
    RunKeeps(max, Init(now), steps);
    LostFromCap(max, Run(max, Init(now), steps), more);
  }

  /** A step before a run that loses a verdict makes a longer one. */
  lemma LosesFrom(max: nat, s: State, step: Step)
    requires step != Timeout && !KeepsVerdicts(max, Apply(max, s, step))
    ensures !KeepsVerdicts(max, s)
  {
    var s' := Apply(max, s, step);
    var more :| NoTimeout(more) && Run(max, s', more).exited
                && Run(max, s', more).verdicts != Run(max, s', more).launched;
    assert ([step] + more)[1..] == more && ([step] + more)[0] == step;
    assert Run(max, s, [step] + more) == Run(max, s', more);
    assert NoTimeout([step] + more);
  }

  /** A fill whose evaluation finds one arb, next to an evaluation that keeps refetching. */
  lemma OneMore(max: nat, s: State, j: nat)
    requires Inv(max, s) && !s.exited && s.attempts < max && j < |s.tasks| && s.tasks[j].Refetching?
    ensures var s' := Apply(max, Apply(max, s, Fill(true)), Refetched(|s.tasks|, 1));
            Inv(max, s') && !s'.exited && s'.attempts == s.attempts + 1 && j < |s'.tasks| && s'.tasks[j].Refetching?
  {
    ApplyKeeps(max, s, Fill(true));
    ApplyKeeps(max, Apply(max, s, Fill(true)), Refetched(|s.tasks|, 1));
  }

  /** While an evaluation is refetching, others can use up the attempts; its arb then ends the process too early. */
  lemma {:induction false} LosesBeside(max: nat, s: State, j: nat)
    requires Inv(max, s) && !s.exited && s.attempts < max && j < |s.tasks| && s.tasks[j].Refetching?
    ensures !KeepsVerdicts(max, s)
    decreases max - s.attempts
  {
    var s1 := Apply(max, s, Fill(true));
    var s2 := Apply(max, s1, Refetched(|s.tasks|, 1));
    OneMore(max, s, j);
    if s2.attempts < max {
      LosesBeside(max, s2, j);
    } else {
      LosesOne(max, s2);
    }
    LosesFrom(max, s1, Refetched(|s.tasks|, 1));
    LosesFrom(max, s, Fill(true));
  }

  /** Below the cap a verdict can always still be lost. */
  lemma LosesBelowCap(max: nat, s: State)
    requires Inv(max, s) && !s.exited && s.attempts < max
    ensures !KeepsVerdicts(max, s)
  {
    ApplyKeeps(max, s, Fill(true));
    LosesBeside(max, Apply(max, s, Fill(true)), |s.tasks|);
    LosesFrom(max, s, Fill(true));
  }

  /**
   In every live reachable state: no continuation short of the timeout loses a verdict if and only if the
   attempts are used up, one execution is in flight and no evaluation is refetching.
   */
  lemma VerdictsSafeExactly(max: nat, now: nat, steps: seq<Step>)
    requires max > 0 && !Run(max, Init(now), steps).exited
    ensures var s := Run(max, Init(now), steps);
            KeepsVerdicts(max, s) <==> s.attempts == max && InFlight(s.tasks) == 1 && NoneRefetching(s.tasks)
  {
    var s := Run(max, Init(now), steps);
    RunKeeps(max, Init(now), steps);
    if s.attempts < max {
      LosesBelowCap(max, s);
    } else {
      CapDecides(max, now, steps);
    }
  }

  // ---------------------------------------------------------------- the runner object

  class Runner {
    const max: nat
    var now: nat
    var attempts: nat
    var lastEvalTs: nat
    var stopped: bool
    var exited: bool
    var tasks: seq<Task>
    ghost var launched: nat
    ghost var verdicts: nat
    ghost var evals: seq<Eval>

    constructor (max: nat, now: nat)
      ensures Valid() && this.max == max && Now() == Init(now)
    {
      this.max := max;
      this.now := now;
      attempts, lastEvalTs, stopped, exited, tasks := 0, 0, false, false, [];
      launched, verdicts, evals := 0, 0, [];
    }

    ghost function Now(): State
      reads this
    {
      State(now, attempts, lastEvalTs, stopped, exited, tasks, launched, verdicts, evals)
    }

    ghost predicate Valid()
      reads this
    {
      Inv(max, Now())
    }

    /** The body of tryEvaluate up to its first await; returns whether the evaluation goes on. */
    method TryEvaluate(trigger: Trigger) returns (goesOn: bool)
      requires Valid() && !exited
      modifies this
      ensures Valid()
      ensures goesOn == Admitted(max, old(Now()), trigger)
      ensures Now() == if goesOn then Start(old(Now()), trigger) else old(Now())
    {
      if stopped || attempts >= max {
        return false;
      }
      if trigger == Ws && now - lastEvalTs < WS_THROTTLE_MS {
        return false;
      }
      StartKeeps(max, Now(), trigger);
      lastEvalTs := now;
      tasks := tasks + [Refetching];
      evals := evals + [Eval(trigger, now)];
      return true;
    }

    /** The for loop from its head to the next await or past its end. */
    method Continue(i: nat, left: nat)
      requires !exited && i < |tasks|
      modifies this
      ensures Now() == Loop(max, old(Now()), i, left)
    {
      if left > 0 {
        if attempts >= max {
          stopped := true;
        } else {
          attempts := attempts + 1;
          launched := launched + 1;
          tasks := tasks[i := Executing(left - 1)];
          return;
        }
      }
      tasks := tasks[i := Finished];
      if attempts >= max {
        exited := true;
      }
    }

    /** From the book snapshot to the next await or past the end of the evaluation. */
    method Snapshot(i: nat, arbs: nat)
      requires !exited && i < |tasks|
      modifies this
      ensures Now() == Detect(max, old(Now()), i, arbs)
    {
      if arbs == 0 { tasks := tasks[i := Finished]; } else { Continue(i, arbs); }
    }

    method OnMessage(arbs: nat)
      requires Valid()
      modifies this
      ensures Valid() && Now() == Apply(max, old(Now()), Message(arbs))
    {
      ApplyKeeps(max, Now(), Message(arbs));
      if exited || stopped { return; }
      var goesOn := TryEvaluate(Ws);
      if goesOn { Snapshot(|tasks| - 1, arbs); }
    }

    method OnFill(watched: bool)
      requires Valid()
      modifies this
      ensures Valid() && Now() == Apply(max, old(Now()), Fill(watched))
    {
      ApplyKeeps(max, Now(), Fill(watched));
      if exited || stopped || !watched { return; }
      var _ := TryEvaluate(OnChain);
    }

    method OnRefetched(i: nat, arbs: nat)
      requires Valid()
      modifies this
      ensures Valid() && Now() == Apply(max, old(Now()), Refetched(i, arbs))
    {
      ApplyKeeps(max, Now(), Refetched(i, arbs));
      if exited || i >= |tasks| || !tasks[i].Refetching? { return; }
      Snapshot(i, arbs);
    }

    method OnVerdict(i: nat)
      requires Valid()
      modifies this
      ensures Valid() && Now() == Apply(max, old(Now()), Verdict(i))
    {
      ApplyKeeps(max, Now(), Verdict(i));
      if exited || i >= |tasks| || !tasks[i].Executing? { return; }
      verdicts := verdicts + 1;
      Continue(i, tasks[i].left);
    }

    /** Time passes between two handlers. */
    method OnTick(ms: nat)
      requires Valid()
      modifies this
      ensures Valid() && Now() == Apply(max, old(Now()), Tick(ms))
    {
      ApplyKeeps(max, Now(), Tick(ms));
      if exited { return; }
      now := now + ms;
    }

    method OnTimeout()
      requires Valid()
      modifies this
      ensures Valid() && Now() == Apply(max, old(Now()), Timeout)
    {
      ApplyKeeps(max, Now(), Timeout);
      if exited { return; }
      stopped, exited := true, true;
    }
  }
}

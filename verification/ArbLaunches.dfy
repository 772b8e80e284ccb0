/**
 What each event of the arb runner does to the attempts, in every reachable state that is still live, and
 how many executions one evaluation launches.
 */
module ArbLaunches {
  import opened ArbRunner

  /** What no event but time touches, and no event but an evaluation. */
  ghost predicate SameBut(s: State, after: State, tasks: seq<Task>) {
    && after.now == s.now && after.lastEvalTs == s.lastEvalTs && after.evals == s.evals && after.tasks == tasks
  }

  /** One more attempt and launch, and its evaluation waits for it with `left` arbs still to try. */
  ghost predicate Launches(s: State, after: State) {
    && after.attempts == s.attempts + 1 && after.launched == s.launched + 1
    && InFlight(after.tasks) == InFlight(s.tasks) + 1 && !after.exited && !after.stopped
  }

  ghost predicate LaunchesNothing(s: State, after: State) {
    after.attempts == s.attempts && after.launched == s.launched
  }

  ghost predicate Evaluates(s: State, after: State, trigger: Trigger) {
    after.now == s.now && after.lastEvalTs == s.now && after.evals == s.evals + [Eval(trigger, s.now)]
  }

  /**
   A websocket message at least 750 ms after the last evaluation and below the cap evaluates: with arbs it
   launches the first at once and keeps the others for later, without it launches nothing. Any other is ignored.
   */
  lemma MessageExactly(max: nat, now: nat, steps: seq<Step>, arbs: nat)
    requires !Run(max, Init(now), steps).exited
    ensures var s := Run(max, Init(now), steps);
            var after := Apply(max, s, Message(arbs));
            if s.attempts < max && s.now - s.lastEvalTs >= 750 then
              && Evaluates(s, after, Ws) && after.verdicts == s.verdicts
              && if arbs > 0 then Launches(s, after) && after.tasks == s.tasks + [Executing(arbs - 1)]
                 else LaunchesNothing(s, after) && after.tasks == s.tasks + [Finished] && !after.exited
            else after == s
  {
    var s := Run(max, Init(now), steps);
    RunKeeps(max, Init(now), steps);
    InFlightAppend(s.tasks, Executing(if arbs > 0 then arbs - 1 else 0));
    var started := s.tasks + [Refetching];
    assert arbs > 0 ==> started[|s.tasks| := Executing(arbs - 1)] == s.tasks + [Executing(arbs - 1)];
    assert started[|s.tasks| := Finished] == s.tasks + [Finished];
  }

  /** A fill of a watched token evaluates below the cap, whenever the last evaluation was; it refetches first. */
  lemma FillExactly(max: nat, now: nat, steps: seq<Step>, watched: bool)
    requires !Run(max, Init(now), steps).exited
    ensures var s := Run(max, Init(now), steps);
            var after := Apply(max, s, Fill(watched));
            if watched && s.attempts < max then
              && Evaluates(s, after, OnChain) && after.verdicts == s.verdicts && !after.exited
              && LaunchesNothing(s, after) && after.tasks == s.tasks + [Refetching]
            else after == s
  {
    RunKeeps(max, Init(now), steps);
  }

  /** After the refetch the first arb is launched, unless others have used up the attempts: then the process exits. */
  lemma RefetchedExactly(max: nat, now: nat, steps: seq<Step>, i: nat, arbs: nat)
    requires var s := Run(max, Init(now), steps); !s.exited && i < |s.tasks| && s.tasks[i].Refetching?
    ensures var s := Run(max, Init(now), steps);
            var after := Apply(max, s, Refetched(i, arbs));
            && after.verdicts == s.verdicts
            && if arbs > 0 && s.attempts < max then
                 Launches(s, after) && SameBut(s, after, s.tasks[i := Executing(arbs - 1)])
               else
                 && LaunchesNothing(s, after) && SameBut(s, after, s.tasks[i := Finished])
                 && after.exited == after.stopped == (arbs > 0)
  {
    var s := Run(max, Init(now), steps);
    RunKeeps(max, Init(now), steps);
    if arbs > 0 { InFlightUpdate(s.tasks, i, Executing(arbs - 1)); }
  }

  /**
   A verdict is counted, and the next arb launched while there are arbs and attempts left; otherwise the
   evaluation is over, and the process exits once the attempts are used up.
   */
  lemma VerdictExactly(max: nat, now: nat, steps: seq<Step>, i: nat)
    requires var s := Run(max, Init(now), steps); !s.exited && i < |s.tasks| && s.tasks[i].Executing?
    ensures var s := Run(max, Init(now), steps);
            var after, left := Apply(max, s, Verdict(i)), s.tasks[i].left;
            && after.verdicts == s.verdicts + 1
            && if left > 0 && s.attempts < max then
                 && after.attempts == s.attempts + 1 && after.launched == s.launched + 1 && !after.exited
                 && SameBut(s, after, s.tasks[i := Executing(left - 1)])
               else
                 && LaunchesNothing(s, after) && SameBut(s, after, s.tasks[i := Finished])
                 && after.exited == (s.attempts >= max) && after.stopped == (left > 0)
  {
    RunKeeps(max, Init(now), steps);
  }

  // ---------------------------------------------------------------- a whole evaluation

  /** n verdicts for one task. */
  function Verdicts(i: nat, n: nat): seq<Step> {
    if n == 0 then [] else [Verdict(i)] + Verdicts(i, n - 1)
  }

  function Less(a: nat, b: nat): nat {
    if a <= b then a else b
  }

  lemma FirstStep(max: nat, s: State, step: Step, rest: seq<Step>)
    ensures Run(max, s, [step] + rest) == Run(max, Apply(max, s, step), rest)
  {
    assert ([step] + rest)[1..] == rest;
  }

  /** Verdicts of a task that is over change nothing. */
  lemma {:induction false} VerdictsIdle(max: nat, s: State, i: nat, n: nat)
    requires s.exited || i >= |s.tasks| || !s.tasks[i].Executing?
    ensures Run(max, s, Verdicts(i, n)) == s
  {
    if n > 0 {
      FirstStep(max, s, Verdict(i), Verdicts(i, n - 1));
      VerdictsIdle(max, s, i, n - 1);
    }
  }

  /** An execution in flight with `left` arbs behind it and enough verdicts. */
  lemma {:induction false} VerdictsLaunch(max: nat, s: State, i: nat, left: nat)
    requires !s.exited && i < |s.tasks| && s.tasks[i] == Executing(left) && s.attempts <= max
    ensures var t, more := Run(max, s, Verdicts(i, left + 1)), Less(left, max - s.attempts);
            && t.launched == s.launched + more && t.attempts == s.attempts + more
            && t.verdicts == s.verdicts + 1 + more
            && t.tasks == s.tasks[i := Finished] && (t.exited <==> t.attempts == max)
    decreases left
  {
    var after := Apply(max, s, Verdict(i));
    FirstStep(max, s, Verdict(i), Verdicts(i, left));
    if left > 0 && s.attempts < max {
      VerdictsLaunch(max, after, i, left - 1);
      assert after.tasks[i := Finished] == s.tasks[i := Finished];
    } else {
      VerdictsIdle(max, after, i, left);
    }
  }

  /** The smaller of n and the attempts left was launched and answered, and the process exited exactly at the cap. */
  ghost predicate Launched(max: nat, s: State, t: State, n: nat)
    requires s.attempts <= max
  {
    var count := Less(n, max - s.attempts);
    && t.launched == s.launched + count && t.attempts == s.attempts + count && t.verdicts == s.verdicts + count
    && (t.exited <==> t.attempts == max)
  }

  /**
   With only its own verdicts coming back, a websocket evaluation that finds n arbs launches the smaller of n and the
   attempts left, every one of them answered, and ends the process exactly when that uses up the attempts.
   */
  lemma MessageLaunches(max: nat, now: nat, steps: seq<Step>, n: nat)
    requires var s := Run(max, Init(now), steps); !s.exited && s.attempts < max && s.now - s.lastEvalTs >= 750
    ensures var s := Run(max, Init(now), steps);
            Launched(max, s, Run(max, s, [Message(n)] + Verdicts(|s.tasks|, n)), n)
  {
    var s := Run(max, Init(now), steps);
    MessageExactly(max, now, steps, n);
    FirstStep(max, s, Message(n), Verdicts(|s.tasks|, n));
    if n > 0 { VerdictsLaunch(max, Apply(max, s, Message(n)), |s.tasks|, n - 1); }
  }

  /** A refetch that finds n arbs, and then only its own verdicts. */
  lemma RefetchedLaunches(max: nat, s: State, i: nat, n: nat)
    requires !s.exited && s.attempts < max && i < |s.tasks| && s.tasks[i].Refetching?
    ensures Launched(max, s, Run(max, s, [Refetched(i, n)] + Verdicts(i, n)), n)
  {
    FirstStep(max, s, Refetched(i, n), Verdicts(i, n));
    if n > 0 { VerdictsLaunch(max, Apply(max, s, Refetched(i, n)), i, n - 1); }
  }

  /** The same for an evaluation that a fill triggers. */
  lemma FillLaunches(max: nat, now: nat, steps: seq<Step>, n: nat)
    requires var s := Run(max, Init(now), steps); !s.exited && s.attempts < max
    ensures var s := Run(max, Init(now), steps);
            var i := |s.tasks|;
            Launched(max, s, Run(max, s, [Fill(true)] + ([Refetched(i, n)] + Verdicts(i, n))), n)
  {
    var s := Run(max, Init(now), steps);
    var i := |s.tasks|;
    FillExactly(max, now, steps, true);
    FirstStep(max, s, Fill(true), [Refetched(i, n)] + Verdicts(i, n));
    RefetchedLaunches(max, Apply(max, s, Fill(true)), i, n);
  }

  /** Time moves the clock and nothing else, and the timeout ends the process with everything in flight. */
  lemma TickAndTimeout(max: nat, s: State, ms: nat)
    requires !s.exited
    ensures Apply(max, s, Tick(ms)) == s.(now := s.now + ms)
    ensures Apply(max, s, Timeout) == s.(stopped := true, exited := true)
  {
  }
}

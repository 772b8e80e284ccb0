/**
 What the commands of the process manager record: the wanted state, the pid and the start count of every
 factory after a start, a stop or a resume, and what a stopped factory is spared until it is started again.
 */
module FactoryWants {

  import opened FactoryCtl
  import opened FactoryRuns
  import opened Wrappers

  function AsWork(w: World): Work {
    Work(w.file, w.os)
  }

  /** Some factory of the first k targets is n. */
  predicate Reached(cmd: Command, k: nat, n: Name)
    requires k <= |Targets(cmd)|
  {
    exists i :: 0 <= i < k && Targets(cmd)[i] == n
  }

  lemma ReachedNext(cmd: Command, k: nat, n: Name)
    requires 0 < k <= |Targets(cmd)|
    ensures Reached(cmd, k, n) <==> Reached(cmd, k - 1, n) || Targets(cmd)[k - 1] == n
  {
  }

  // ---------------------------------------------------------------- stop

  lemma {:induction false} StopSoFar(names: seq<Name>, w: Work, ok: set<Name>, k: nat, n: Name)
    requires k <= |names|
    ensures var f := Each(Stop(names), w, ok, k).mem.Get(n);
            if Reached(Stop(names), k, n) then f == Factory(Stopped, None, w.mem.Get(n).startCount)
            else f == w.mem.Get(n)
  {
    if k > 0 {
      StopSoFar(names, w, ok, k - 1, n);
      StopSoFar(names, w, ok, k - 1, names[k - 1]);
      ReachedNext(Stop(names), k, n);
    }
  }

  /** Whatever the kills do, a stop records every named factory as stopped and without a worker, and no other. */
  lemma StopRecords(w: World, names: seq<Name>, ok: set<Name>, n: Name)
    ensures var before, after := w.file.Get(n), Apply(w, Do(Stop(names), ok)).file.Get(n);
            if n in names then after.desired == Stopped && after.pid == None && after.startCount == before.startCount
            else after == before
  {
    StopSoFar(names, AsWork(w), ok, |names|, n);
    assert n in names <==> Reached(Stop(names), |names|, n);
  }

  /** A kill that works was sent to process p: it is the recorded worker of one of the first k named factories. */
  ghost predicate Killed(names: seq<Name>, file: File, ok: set<Name>, k: nat, p: nat)
    requires k <= |names|
  {
    exists i :: 0 <= i < k && names[i] in ok && file.Get(names[i]).pid == Some(p)
  }

  lemma {:induction false} StopSurvivors(names: seq<Name>, w: Work, ok: set<Name>, k: nat, p: nat)
    requires k <= |names|
    ensures var os := Each(Stop(names), w, ok, k).os;
            && os.nextPid == w.os.nextPid
            && (p in os.live <==> p in w.os.live && !Killed(names, w.mem, ok, k, p))
            && (p in os.live ==> os.live[p] == w.os.live[p])
  {
    if k > 0 {
      StopSurvivors(names, w, ok, k - 1, p);
      StopSoFar(names, w, ok, k - 1, names[k - 1]);
      assert Killed(names, w.mem, ok, k, p)
        <==> Killed(names, w.mem, ok, k - 1, p) || (names[k - 1] in ok && w.mem.Get(names[k - 1]).pid == Some(p));
    }
  }

  /** A stop ends just the recorded workers of the named factories whose kills work. */
  lemma StopEnds(w: World, names: seq<Name>, ok: set<Name>, p: nat)
    ensures p in Apply(w, Do(Stop(names), ok)).os.live
       <==> p in w.os.live && !exists n :: n in names && n in ok && w.file.Get(n).pid == Some(p)
  {
    StopSurvivors(names, AsWork(w), ok, |names|, p);
    if n :| n in names && n in ok && w.file.Get(n).pid == Some(p) {
      var i :| 0 <= i < |names| && names[i] == n;
      assert Killed(names, w.file, ok, |names|, p);
    }
  }

  // ---------------------------------------------------------------- start and resume

  /** The factory has a new live worker of its own, recorded as wanted, and one more start to its count. */
  ghost predicate Started(before: Work, after: Work, n: Name) {
    var old', f := before.mem.Get(n), after.mem.Get(n);
    && f.desired == Running && f.startCount == old'.startCount + 1
    && f.pid.Some? && f.pid.value >= before.os.nextPid && f.pid.value in after.os.live
    && after.os.live[f.pid.value] == n
  }

  /** What a start or resume makes of a factory once it has reached it. */
  ghost predicate Handled(cmd: Command, w: Work, now: Work, ok: set<Name>, n: Name) {
    var before := w.mem.Get(n);
    if cmd.Resume? && before.desired == Stopped then now.mem.Get(n) == before
    else if w.os.IsAlive(before.pid) then
      now.mem.Get(n) == before.(desired := Running) && now.os.IsAlive(before.pid)
    else if n in ok then Started(w, now, n)
    else now.mem.Get(n) == before
  }

  /** Neither its entry nor the life of its worker has changed. */
  ghost predicate Untouched(w: Work, now: Work, n: Name) {
    && now.mem.Get(n) == w.mem.Get(n)
    && (now.os.IsAlive(w.mem.Get(n).pid) <==> w.os.IsAlive(w.mem.Get(n).pid))
  }

  /** Processes are only added, with new ids, and no recorded id is one of the new ones. */
  ghost predicate OnlyAdds(w: Work, now: Work) {
    && w.os.nextPid <= now.os.nextPid
    && (forall p :: p in w.os.live ==> p in now.os.live && now.os.live[p] == w.os.live[p])
    && (forall p :: p in now.os.live && p !in w.os.live ==> w.os.nextPid <= p < now.os.nextPid)
  }

  /** Every process and every recorded id is older than the next one. */
  ghost predicate Aged(w: Work) {
    && (forall p :: p in w.os.live ==> p < w.os.nextPid)
    && (forall n :: w.mem.Get(n).pid.Some? ==> w.mem.Get(n).pid.value < w.os.nextPid)
  }

  lemma OneAdds(cmd: Command, now: Work, n: Name, ok: bool)
    requires !cmd.Stop? && Aged(now)
    ensures Aged(One(cmd, now, n, ok)) && OnlyAdds(now, One(cmd, now, n, ok))
  {
  }

  lemma {:induction false} EachAdds(cmd: Command, w: Work, ok: set<Name>, k: nat)
    requires !cmd.Stop? && k <= |Targets(cmd)| && Aged(w)
    ensures Aged(Each(cmd, w, ok, k)) && OnlyAdds(w, Each(cmd, w, ok, k))
  {
    if k > 0 {
      EachAdds(cmd, w, ok, k - 1);
      OneAdds(cmd, Each(cmd, w, ok, k - 1), Targets(cmd)[k - 1], Targets(cmd)[k - 1] in ok);
    }
  }

  /** Handling one factory leaves the entries of the others and their workers alone. */
  lemma OthersStay(cmd: Command, now: Work, m: Name, ok: bool, n: Name)
    requires !cmd.Stop? && Aged(now) && m != n
    ensures Untouched(now, One(cmd, now, m, ok), n)
  {
  }

  /** A factory reached for the first time is handled; reached again it stays as it is. */
  lemma HandleOne(cmd: Command, w: Work, now: Work, ok: set<Name>, n: Name, again: bool)
    requires !cmd.Stop? && Aged(w) && Aged(now) && OnlyAdds(w, now)
    requires if again then Handled(cmd, w, now, ok, n) else Untouched(w, now, n)
    ensures Handled(cmd, w, One(cmd, now, n, n in ok), ok, n)
  {
  }

  /** Other factories do not disturb what was done for n. */
  lemma KeepHandled(cmd: Command, w: Work, now: Work, after: Work, ok: set<Name>, n: Name)
    requires Handled(cmd, w, now, ok, n) && Untouched(now, after, n) && OnlyAdds(now, after)
    ensures Handled(cmd, w, after, ok, n)
  {
  }

  lemma {:induction false} SpawnsSoFar(cmd: Command, w: Work, ok: set<Name>, k: nat, n: Name)
    requires !cmd.Stop? && k <= |Targets(cmd)| && Aged(w)
    ensures if Reached(cmd, k, n) then Handled(cmd, w, Each(cmd, w, ok, k), ok, n)
            else Untouched(w, Each(cmd, w, ok, k), n)
  {
    if k > 0 {
      var m, now := Targets(cmd)[k - 1], Each(cmd, w, ok, k - 1);
      SpawnsSoFar(cmd, w, ok, k - 1, n);
      EachAdds(cmd, w, ok, k - 1);
      OneAdds(cmd, now, m, m in ok);
      ReachedNext(cmd, k, n);
      if m == n {
        HandleOne(cmd, w, now, ok, n, Reached(cmd, k - 1, n));
      } else {
        OthersStay(cmd, now, m, m in ok, n);
        if Reached(cmd, k - 1, n) { KeepHandled(cmd, w, now, One(cmd, now, m, m in ok), ok, n); }
      }
    }
  }

  lemma Reachable(steps: seq<Step>)
    ensures var w := Run(INIT, steps); Aged(AsWork(w))
  {
    RunKeeps(INIT, steps);
  }

  /**
   In every reachable state: a start records each named factory as wanted, with the worker that was alive or a
   new one of its own and one more start; one whose spawn fails, and every other, keeps its entry.
   */
  lemma StartRecords(steps: seq<Step>, names: seq<Name>, ok: set<Name>, n: Name)
    ensures var w := Run(INIT, steps);
            var before, after := w.file.Get(n), Apply(w, Do(Start(names), ok)).file.Get(n);
            if n !in names then after == before
            else if w.os.IsAlive(before.pid) then after == before.(desired := Running)
            else if n in ok then
              Started(AsWork(w), AsWork(Apply(w, Do(Start(names), ok))), n)
            else after == before
  {
    var w := Run(INIT, steps);
    Reachable(steps);
    SpawnsSoFar(Start(names), AsWork(w), ok, |names|, n);
    assert n in names <==> Reached(Start(names), |names|, n);
  }

  lemma NameListed(n: Name)
    ensures Reached(Resume, 3, n)
  {
    assert FACTORY_NAMES[0] == Btc5m && FACTORY_NAMES[1] == Multi && FACTORY_NAMES[2] == Updown;
    assert Targets(Resume)[if n == Btc5m then 0 else if n == Multi then 1 else 2] == n;
  }

  /** In every reachable state a resume starts just the wanted factories without a worker, and wants no other. */
  lemma ResumeRecords(steps: seq<Step>, ok: set<Name>, n: Name)
    ensures var w := Run(INIT, steps);
            var before, after := w.file.Get(n), Apply(w, Do(Resume, ok)).file.Get(n);
            if before.desired == Stopped || w.os.IsAlive(before.pid) || n !in ok then after == before
            else Started(AsWork(w), AsWork(Apply(w, Do(Resume, ok))), n)
  {
    var w := Run(INIT, steps);
    Reachable(steps);
    NameListed(n);
    SpawnsSoFar(Resume, AsWork(w), ok, 3, n);
    RunKeeps(INIT, steps);
  }

  // ---------------------------------------------------------------- after a stop

  /** No start, interrupted or not, names the factory. */
  predicate Spares(step: Step, n: Name) {
    (step.Do? || step.Interrupted?) && step.cmd.Start? ==> n !in step.cmd.names
  }

  /** The factory has gained no process and no start, and is still not wanted. */
  ghost predicate Quiet(w: World, after: World, n: Name) {
    && after.file.Get(n).desired == Stopped && after.file.Get(n).startCount <= w.file.Get(n).startCount
    && forall p :: p in after.os.live && after.os.live[p] == n ==> p in w.os.live && w.os.live[p] == n
  }

  lemma OneQuiet(cmd: Command, now: Work, m: Name, ok: bool, n: Name)
    requires now.mem.Get(n).desired == Stopped && (cmd.Start? ==> m != n)
    ensures var after := One(cmd, now, m, ok);
            && after.mem.Get(n).desired == Stopped && after.mem.Get(n).startCount == now.mem.Get(n).startCount
            && forall p :: p in after.os.live && after.os.live[p] == n ==> p in now.os.live && now.os.live[p] == n
  {
  }

  lemma {:induction false} EachQuiet(cmd: Command, w: Work, ok: set<Name>, k: nat, n: Name)
    requires k <= |Targets(cmd)| && w.mem.Get(n).desired == Stopped && (cmd.Start? ==> n !in cmd.names)
    ensures var now := Each(cmd, w, ok, k);
            && now.mem.Get(n).desired == Stopped && now.mem.Get(n).startCount == w.mem.Get(n).startCount
            && forall p :: p in now.os.live && now.os.live[p] == n ==> p in w.os.live && w.os.live[p] == n
  {
    if k > 0 {
      EachQuiet(cmd, w, ok, k - 1, n);
      OneQuiet(cmd, Each(cmd, w, ok, k - 1), Targets(cmd)[k - 1], Targets(cmd)[k - 1] in ok, n);
    }
  }

  lemma StepQuiet(w: World, step: Step, n: Name)
    requires w.file.Get(n).desired == Stopped && Spares(step, n)
    ensures Quiet(w, Apply(w, step), n)
  {
    match step
    case Do(cmd, ok) => EachQuiet(cmd, AsWork(w), ok, |Targets(cmd)|, n);
    case Interrupted(cmd, ok, handled) =>
      EachQuiet(cmd, AsWork(w), ok, if handled <= |Targets(cmd)| then handled else |Targets(cmd)|, n);
    case _ =>
  }

  lemma {:induction false} RunQuiet(w: World, steps: seq<Step>, n: Name)
    requires w.file.Get(n).desired == Stopped && forall i :: 0 <= i < |steps| ==> Spares(steps[i], n)
    ensures Quiet(w, Run(w, steps), n)
    decreases |steps|
  {
    if steps != [] {
      StepQuiet(w, steps[0], n);
      RunQuiet(Apply(w, steps[0]), steps[1..], n);
    }
  }

  /**
   After a stop no run of resumes, crashes, lost files, stops and starts of other factories, interrupted or not, ever
   adds a live process of a stopped factory or raises its start count.
   */
  lemma StoppedStaysStopped(w: World, names: seq<Name>, ok: set<Name>, steps: seq<Step>, n: Name)
    requires n in names && forall i :: 0 <= i < |steps| ==> Spares(steps[i], n)
    ensures var stopped := Apply(w, Do(Stop(names), ok)); Quiet(stopped, Run(stopped, steps), n)
  {
    StopRecords(w, names, ok, n);
    RunQuiet(Apply(w, Do(Stop(names), ok)), steps, n);
  }
}

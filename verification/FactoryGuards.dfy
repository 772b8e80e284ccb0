/**
 Which command, in which state, breaks the rule of one worker for each factory: told from the
 state before the command and from which of its kills and spawns work.
 */
module FactoryGuards {

  import opened FactoryCtl
  import opened FactoryRuns
  import opened Wrappers

  /** The first targets an interrupted command handles. */
  function Handled(cmd: Command, handled: nat): (k: nat)
    ensures k <= |Targets(cmd)|
  {
    if handled <= |Targets(cmd)| then handled else |Targets(cmd)|
  }

  predicate Alive(w: World, n: Name) {
    w.os.IsAlive(w.file.Get(n).pid)
  }

  /** A start or resume that reaches factory n starts a process for it. */
  predicate Spawns(w: World, cmd: Command, ok: set<Name>, n: Name) {
    match cmd
    case Start(_) => !Alive(w, n) && n in ok
    case Resume => w.file.Get(n).desired == Running && !Alive(w, n) && n in ok
    case Stop(_) => false
  }

  /**
   A stop whose kills end every recorded worker they are sent to; any other command that is not
   interrupted; an interrupted one none of whose handled targets needs a process; a crash; a lost file
   while no recorded worker is alive.
   */
  predicate Harmless(w: World, step: Step) {
    match step
    case Do(cmd, ok) => cmd.Stop? ==> forall n :: n in cmd.names && Alive(w, n) ==> n in ok
    case Interrupted(cmd, ok, handled) =>
      forall i :: 0 <= i < Handled(cmd, handled) ==> !Spawns(w, cmd, ok, Targets(cmd)[i])
    case Dies(_) => true
    case FileLost => !Alive(w, Btc5m) && !Alive(w, Multi) && !Alive(w, Updown)
  }

  ghost predicate Known(w: World) {
    Consistent(w.file, w.os, w.escaped)
  }

  lemma NoEscapeAlive(w: World)
    requires Known(w)
    ensures OneWorkerEach(w) <==> forall p :: p in w.escaped ==> p !in w.os.live
  {
    forall p | p in w.escaped && p in w.os.live ensures !OneWorkerEach(w) {
      assert w.file.Get(w.os.live[p]).pid != Some(p);
    }
  }

  /** A command revives no process. */
  lemma StillGone(cmd: Command, w: World, ok: set<Name>, k: nat, p: nat)
    requires Known(w) && k <= |Targets(cmd)| && p in w.escaped && p !in w.os.live
    ensures p !in Each(cmd, Work(w.file, w.os), ok, k).os.live
  {
    EachGrows(cmd, Work(w.file, w.os), ok, k);
  }

  // ---------------------------------------------------------------- stop

  /** Factory n has not been handled: its entry is as before, and so is its worker. */
  ghost predicate Untouched(w: World, now: Work, n: Name) {
    now.mem.Get(n) == w.file.Get(n) && (now.os.IsAlive(w.file.Get(n).pid) <==> Alive(w, n))
  }

  /** Stopping one factory ends no worker of another. */
  lemma StopOneLeaves(w: World, now: Work, m: Name, ok: bool, n: Name, escaped: set<nat>)
    requires Consistent(now.mem, now.os, escaped) && m != n && Untouched(w, now, n)
    ensures Untouched(w, One(Stop([m]), now, m, ok), n)
  {
  }

  /** A stop that has handled k targets has cleared their pids and left all other factories alone. */
  lemma {:induction false} StopSoFar(names: seq<Name>, w: World, ok: set<Name>, k: nat, n: Name)
    requires Known(w) && k <= |names|
    ensures var now := Each(Stop(names), Work(w.file, w.os), ok, k);
            if n in names[..k] then now.mem.Get(n).pid == None else Untouched(w, now, n)
  {
    if k > 0 {
      var m, start := names[k - 1], Work(w.file, w.os);
      assert names[..k] == names[..k - 1] + [m];
      StopSoFar(names, w, ok, k - 1, n);
      if m != n && n !in names[..k - 1] {
        var before := Each(Stop(names), start, ok, k - 1);
        EachKeeps(Stop(names), start, ok, k - 1, w.escaped);
        StopOneLeaves(w, before, m, m in ok, n, w.escaped + Forgotten(Stop(names), start, ok, k - 1));
      }
    }
  }

  /** A worker that has escaped stays alive while a stop handles another factory, or fails to end its own. */
  lemma StopOneSpares(now: Work, m: Name, ok: bool, escaped: set<nat>, p: nat)
    requires Consistent(now.mem, now.os, escaped) && p in now.os.live
    requires p in escaped || p in Left(Stop([m]), now, m, ok)
    ensures p in One(Stop([m]), now, m, ok).os.live
  {
  }

  /** The forgotten workers are alive. */
  lemma {:induction false} ForgottenLive(names: seq<Name>, w: World, ok: set<Name>, k: nat)
    requires Known(w) && k <= |names|
    ensures forall p :: p in Forgotten(Stop(names), Work(w.file, w.os), ok, k)
              ==> p in Each(Stop(names), Work(w.file, w.os), ok, k).os.live
  {
    if k > 0 {
      var cmd, start, n := Stop(names), Work(w.file, w.os), names[k - 1];
      var before, gone := Each(cmd, start, ok, k - 1), Forgotten(cmd, start, ok, k - 1);
      ForgottenLive(names, w, ok, k - 1);
      EachKeeps(cmd, start, ok, k - 1, w.escaped);
      forall p | p in Forgotten(cmd, start, ok, k)
        ensures p in Each(cmd, start, ok, k).os.live
      {
        StopOneSpares(before, n, n in ok, w.escaped + gone, p);
      }
    }
  }

  /** There is a forgotten worker exactly when a kill leaves a recorded worker alive. */
  lemma {:induction false} StopForgets(names: seq<Name>, w: World, ok: set<Name>, k: nat)
    requires Known(w) && k <= |names|
    ensures Forgotten(Stop(names), Work(w.file, w.os), ok, k) == {}
       <==> forall i :: 0 <= i < k && Alive(w, names[i]) ==> names[i] in ok
  {
    if k > 0 {
      StopForgets(names, w, ok, k - 1);
      StopSoFar(names, w, ok, k - 1, names[k - 1]);
      FirstTime(names, k - 1, names[k - 1]);
    }
  }

  lemma FirstTime(names: seq<Name>, k: nat, n: Name)
    requires k <= |names|
    ensures n in names[..k] <==> exists i :: 0 <= i < k && names[i] == n
  {
    if i :| 0 <= i < k && names[i] == n {
      assert names[..k][i] == n;
    }
  }

  lemma StopExactly(names: seq<Name>, w: World, ok: set<Name>)
    requires Known(w) && OneWorkerEach(w)
    ensures OneWorkerEach(Apply(w, Do(Stop(names), ok))) <==> Harmless(w, Do(Stop(names), ok))
  {
    var cmd, k := Stop(names), |names|;
    NoEscapeAlive(w);
    ApplyKeeps(w, Do(cmd, ok));
    NoEscapeAlive(Apply(w, Do(cmd, ok)));
    StopForgets(names, w, ok, k);
    ForgottenLive(names, w, ok, k);
    forall p | p in w.escaped ensures p !in Apply(w, Do(cmd, ok)).os.live { StillGone(cmd, w, ok, k, p); }
    var gone := Forgotten(cmd, Work(w.file, w.os), ok, k);
    assert gone != {} ==> exists p :: p in gone;
  }

  // ---------------------------------------------------------------- start and resume

  /** As long as no handled target needs a process, nothing but a desired state changes. */
  lemma {:induction false} NothingSpawned(cmd: Command, w: World, ok: set<Name>, k: nat, n: Name)
    requires !cmd.Stop? && k <= |Targets(cmd)|
    requires forall i :: 0 <= i < k ==> !Spawns(w, cmd, ok, Targets(cmd)[i])
    ensures var now := Each(cmd, Work(w.file, w.os), ok, k);
            && now.os == w.os && now.mem.Get(n).pid == w.file.Get(n).pid
            && (cmd.Resume? ==> now.mem.Get(n) == w.file.Get(n))
  {
    if k > 0 {
      NothingSpawned(cmd, w, ok, k - 1, n);
      NothingSpawned(cmd, w, ok, k - 1, Targets(cmd)[k - 1]);
    }
  }

  /** The first target that needs a process gets one, and no later target ends it. */
  lemma {:induction false} SomethingSpawned(cmd: Command, w: World, ok: set<Name>, k: nat)
    requires Known(w) && !cmd.Stop? && k <= |Targets(cmd)|
    requires exists i :: 0 <= i < k && Spawns(w, cmd, ok, Targets(cmd)[i])
    ensures w.os.nextPid in Each(cmd, Work(w.file, w.os), ok, k).os.live
    ensures Each(cmd, Work(w.file, w.os), ok, k).os.nextPid > w.os.nextPid
  {
    if exists i :: 0 <= i < k - 1 && Spawns(w, cmd, ok, Targets(cmd)[i]) {
      SomethingSpawned(cmd, w, ok, k - 1);
    } else {
      NothingSpawned(cmd, w, ok, k - 1, Targets(cmd)[k - 1]);
    }
  }

  lemma InterruptedExactly(cmd: Command, w: World, ok: set<Name>, handled: nat)
    requires Known(w) && OneWorkerEach(w)
    ensures OneWorkerEach(Apply(w, Interrupted(cmd, ok, handled))) <==> Harmless(w, Interrupted(cmd, ok, handled))
  {
    var k, step := Handled(cmd, handled), Interrupted(cmd, ok, handled);
    var after := Apply(w, step);
    NoEscapeAlive(w);
    ApplyKeeps(w, step);
    NoEscapeAlive(after);
    forall p | p in w.escaped ensures p !in after.os.live { StillGone(cmd, w, ok, k, p); }
    EachGrows(cmd, Work(w.file, w.os), ok, k);
    if cmd.Stop? {
      StopSpawnsNothing(cmd, Work(w.file, w.os), ok, k);
    } else if Harmless(w, step) {
      NothingSpawned(cmd, w, ok, k, Btc5m);
    } else {
      SomethingSpawned(cmd, w, ok, k);
      assert w.os.nextPid in NewPids(w.os, after.os);
    }
  }

  lemma UninterruptedKeeps(cmd: Command, w: World, ok: set<Name>)
    requires Known(w) && OneWorkerEach(w) && !cmd.Stop?
    ensures OneWorkerEach(Apply(w, Do(cmd, ok)))
  {
    NoEscapeAlive(w);
    ApplyKeeps(w, Do(cmd, ok));
    NoEscapeAlive(Apply(w, Do(cmd, ok)));
    NothingForgotten(cmd, Work(w.file, w.os), ok, |Targets(cmd)|);
    forall p | p in w.escaped ensures p !in Apply(w, Do(cmd, ok)).os.live {
      StillGone(cmd, w, ok, |Targets(cmd)|, p);
    }
  }

  lemma LostExactly(w: World)
    requires Known(w) && OneWorkerEach(w)
    ensures OneWorkerEach(Apply(w, FileLost)) <==> Harmless(w, FileLost)
  {
    forall p | p in w.os.live ensures Alive(w, w.os.live[p]) { }
    forall n | Alive(w, n) ensures !OneWorkerEach(Apply(w, FileLost)) {
      assert w.file.Get(n).pid.value in w.os.live;
    }
  }

  // ---------------------------------------------------------------- theorems

  lemma KeptExactly(w: World, step: Step)
    requires Known(w) && OneWorkerEach(w)
    ensures OneWorkerEach(Apply(w, step)) <==> Harmless(w, step)
  {
    match step
    case Do(cmd, ok) =>
      if cmd.Stop? { StopExactly(cmd.names, w, ok); } else { UninterruptedKeeps(cmd, w, ok); }
    case Interrupted(cmd, ok, handled) => InterruptedExactly(cmd, w, ok, handled);
    case Dies(pid) =>
    case FileLost => LostExactly(w);
  }

  /** In every reachable state with one worker each, the next step keeps it so if and only if it is harmless. */
  lemma HarmlessExactly(steps: seq<Step>, step: Step)
    requires OneWorkerEach(Run(INIT, steps))
    ensures OneWorkerEach(Apply(Run(INIT, steps), step)) <==> Harmless(Run(INIT, steps), step)
  {
    RunKeeps(INIT, steps);
    KeptExactly(Run(INIT, steps), step);
  }

  /** One worker each after every step of the run. */
  ghost predicate Always(w: World, steps: seq<Step>)
    decreases |steps|
  {
    OneWorkerEach(w) && (steps != [] ==> Always(Apply(w, steps[0]), steps[1..]))
  }

  ghost predicate HarmlessRun(w: World, steps: seq<Step>)
    decreases |steps|
  {
    steps != [] ==> Harmless(w, steps[0]) && HarmlessRun(Apply(w, steps[0]), steps[1..])
  }

  lemma {:induction false} AlwaysFrom(w: World, steps: seq<Step>)
    requires Known(w) && OneWorkerEach(w)
    ensures Always(w, steps) <==> HarmlessRun(w, steps)
    decreases |steps|
  {
    if steps != [] {
      ApplyKeeps(w, steps[0]);
      KeptExactly(w, steps[0]);
      if OneWorkerEach(Apply(w, steps[0])) { AlwaysFrom(Apply(w, steps[0]), steps[1..]); }
    }
  }

  /** A run has one worker each after every one of its steps if and only if every step is harmless where it happens. */
  lemma AlwaysExactly(steps: seq<Step>)
    ensures Always(INIT, steps) <==> HarmlessRun(INIT, steps)
  {
    AlwaysFrom(INIT, steps);
  }

  // ---------------------------------------------------------------- doubled workers

  /** Two live processes work for the factory. */
  ghost predicate Doubled(os: Os, n: Name) {
    exists p, q :: p != q && p in os.live && q in os.live && os.live[p] == os.live[q] == n
  }

  lemma OneTarget(cmd: Command, w: Work, ok: set<Name>)
    requires |Targets(cmd)| == 1
    ensures Each(cmd, w, ok, 1) == One(cmd, w, Targets(cmd)[0], Targets(cmd)[0] in ok)
  {
    assert Each(cmd, w, ok, 0) == w;
  }

  lemma StartSpawns(w: World, n: Name)
    requires !Alive(w, n)
    ensures Apply(w, Do(Start([n]), {n})).os == w.os.Spawn(n)
  {
    OneTarget(Start([n]), Work(w.file, w.os), {n});
  }

  lemma InterruptedStartSpawns(w: World, n: Name)
    requires !Alive(w, n)
    ensures var w1 := Apply(w, Interrupted(Start([n]), {n}, 1)); w1.os == w.os.Spawn(n) && w1.file == w.file
  {
    OneTarget(Start([n]), Work(w.file, w.os), {n});
  }

  /** In every reachable state: stop a live worker with a kill that does not end it, start again, and there are two. */
  lemma FailedKillDoubles(steps: seq<Step>, n: Name)
    requires Alive(Run(INIT, steps), n)
    ensures Doubled(Apply(Apply(Run(INIT, steps), Do(Stop([n]), {})), Do(Start([n]), {n})).os, n)
  {
    var w := Run(INIT, steps);
    RunKeeps(INIT, steps);
    OneTarget(Stop([n]), Work(w.file, w.os), {});
    var w1 := Apply(w, Do(Stop([n]), {}));
    StartSpawns(w1, n);
    var os := w.os.Spawn(n);
    assert os.live[w.file.Get(n).pid.value] == n && os.live[w.os.nextPid] == n;
  }

  /** In every reachable state without a worker: a start that dies before the write and another start leave two. */
  lemma InterruptedStartDoubles(steps: seq<Step>, n: Name)
    requires !Alive(Run(INIT, steps), n)
    ensures Doubled(Apply(Apply(Run(INIT, steps), Interrupted(Start([n]), {n}, 1)), Do(Start([n]), {n})).os, n)
  {
    var w := Run(INIT, steps);
    RunKeeps(INIT, steps);
    InterruptedStartSpawns(w, n);
    var w1 := Apply(w, Interrupted(Start([n]), {n}, 1));
    StartSpawns(w1, n);
    var os := w.os.Spawn(n).Spawn(n);
    assert os.live[w.os.nextPid] == n && os.live[w.os.nextPid + 1] == n;
  }
}

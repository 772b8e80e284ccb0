/**
 Whole runs of the factory process manager: which live workers the state file knows, when
 every factory has at most one, and what resume restores.
 */
module FactoryRuns {

  import opened FactoryCtl
  import opened Wrappers

  datatype Step =
    | Do(cmd: Command, ok: set<Name>)
    | Interrupted(cmd: Command, ok: set<Name>, handled: nat)
    | Dies(pid: nat)
    | FileLost

  /** `escaped` is history: the processes the file stopped recording, or never recorded. */
  datatype World = World(file: File, os: Os, escaped: set<nat>)

  const INIT := World(EMPTY_STATE, Os(map[], 1), {})

  /** The workers one target of a stop forgets. */
  function Left(cmd: Command, w: Work, n: Name, ok: bool): set<nat> {
    if cmd.Stop? && w.os.IsAlive(w.mem.Get(n).pid) && !ok then {w.mem.Get(n).pid.value} else {}
  }

  /** The workers a stop forgets although their kill did not end them. */
  function Forgotten(cmd: Command, w: Work, ok: set<Name>, k: nat): set<nat>
    requires k <= |Targets(cmd)|
  {
    if k == 0 then {}
    else
      var n := Targets(cmd)[k - 1];
      Forgotten(cmd, w, ok, k - 1) + Left(cmd, Each(cmd, w, ok, k - 1), n, n in ok)
  }

  function NewPids(before: Os, after: Os): set<nat> {
    after.live.Keys - before.live.Keys
  }

  function Recorded(file: File): set<nat> {
    set n: Name | file.Get(n).pid.Some? :: file.Get(n).pid.value
  }

  function Apply(w: World, step: Step): World {
    match step
    case Do(cmd, ok) =>
      var k := |Targets(cmd)|;
      var after := Each(cmd, Work(w.file, w.os), ok, k);
      World(after.mem, after.os, w.escaped + Forgotten(cmd, Work(w.file, w.os), ok, k))
    case Interrupted(cmd, ok, handled) =>
      var k := if handled <= |Targets(cmd)| then handled else |Targets(cmd)|;
      var after := Each(cmd, Work(w.file, w.os), ok, k);
      World(w.file, after.os, w.escaped + NewPids(w.os, after.os))
    case Dies(pid) => w.(os := w.os.Without(pid))
    case FileLost => World(EMPTY_STATE, w.os, w.escaped + Recorded(w.file))
  }

  function Run(w: World, steps: seq<Step>): World
    decreases |steps|
  {
    if steps == [] then w else Run(Apply(w, steps[0]), steps[1..])
  }

  // ---------------------------------------------------------------- what every step keeps

  /** Pid p is known to belong to no one else, and every live process is either recorded or escaped, never both. */
  ghost predicate Consistent(mem: File, os: Os, escaped: set<nat>) {
    && (forall p :: p in os.live || p in escaped ==> p < os.nextPid)
    && (forall n :: mem.Get(n).pid.Some? ==> mem.Get(n).pid.value < os.nextPid)
    && (forall n :: os.IsAlive(mem.Get(n).pid) ==> os.live[mem.Get(n).pid.value] == n)
    && (forall n :: mem.Get(n).pid.Some? ==> mem.Get(n).pid.value !in escaped)
    && (forall p :: p in os.live && p !in escaped ==> mem.Get(os.live[p]).pid == Some(p))
    && (forall n :: mem.Get(n).desired == Stopped ==> mem.Get(n).pid == None)
  }

  lemma LaunchKeeps(w: Work, n: Name, escaped: set<nat>)
    requires Consistent(w.mem, w.os, escaped) && !w.os.IsAlive(w.mem.Get(n).pid)
    ensures Consistent(Launch(w, n).mem, Launch(w, n).os, escaped)
  {
  }

  lemma WantKeeps(mem: File, os: Os, n: Name, escaped: set<nat>)
    requires Consistent(mem, os, escaped)
    ensures Consistent(mem.Set(n, mem.Get(n).(desired := Running)), os, escaped)
  {
  }

  /** Forgetting a live worker lets it escape; ending it first does not. */
  lemma StopKeeps(mem: File, os: Os, n: Name, ok: bool, escaped: set<nat>)
    requires Consistent(mem, os, escaped)
    ensures var pid, cleared := mem.Get(n).pid, mem.Set(n, mem.Get(n).(desired := Stopped, pid := None));
            if !os.IsAlive(pid) then Consistent(cleared, os, escaped)
            else if ok then Consistent(cleared, os.Without(pid.value), escaped)
            else Consistent(cleared, os, escaped + {pid.value})
  {
  }

  lemma OneKeeps(cmd: Command, w: Work, n: Name, ok: bool, escaped: set<nat>)
    requires Consistent(w.mem, w.os, escaped)
    ensures var after := One(cmd, w, n, ok); Consistent(after.mem, after.os, escaped + Left(cmd, w, n, ok))
  {
    assert escaped + {} == escaped;
    if cmd.Stop? {
      StopKeeps(w.mem, w.os, n, ok, escaped);
    } else if w.os.IsAlive(w.mem.Get(n).pid) {
      WantKeeps(w.mem, w.os, n, escaped);
    } else {
      LaunchKeeps(w, n, escaped);
    }
  }

  lemma {:induction false} EachKeeps(cmd: Command, w: Work, ok: set<Name>, k: nat, escaped: set<nat>)
    requires k <= |Targets(cmd)| && Consistent(w.mem, w.os, escaped)
    ensures var after := Each(cmd, w, ok, k); Consistent(after.mem, after.os, escaped + Forgotten(cmd, w, ok, k))
  {
    if k == 0 {
      assert escaped + {} == escaped;
    } else {
      EachKeeps(cmd, w, ok, k - 1, escaped);
      var n, before, gone := Targets(cmd)[k - 1], Each(cmd, w, ok, k - 1), Forgotten(cmd, w, ok, k - 1);
      OneKeeps(cmd, before, n, n in ok, escaped + gone);
      assert escaped + gone + Left(cmd, before, n, n in ok) == escaped + (gone + Left(cmd, before, n, n in ok));
    }
  }

  /** A command only adds processes with new ids, or removes some. */
  ghost predicate Grown(before: Os, after: Os) {
    && before.nextPid <= after.nextPid
    && forall p :: p in after.live ==>
         (p in before.live && after.live[p] == before.live[p]) || before.nextPid <= p < after.nextPid
  }

  lemma {:induction false} EachGrows(cmd: Command, w: Work, ok: set<Name>, k: nat)
    requires k <= |Targets(cmd)|
    ensures Grown(w.os, Each(cmd, w, ok, k).os)
  {
    if k > 0 { EachGrows(cmd, w, ok, k - 1); }
  }

  lemma ApplyKeeps(w: World, step: Step)
    requires Consistent(w.file, w.os, w.escaped)
    ensures var after := Apply(w, step); Consistent(after.file, after.os, after.escaped)
  {
    match step {
      case Do(cmd, ok) => EachKeeps(cmd, Work(w.file, w.os), ok, |Targets(cmd)|, w.escaped);
      case Interrupted(cmd, ok, handled) =>
        EachGrows(cmd, Work(w.file, w.os), ok, if handled <= |Targets(cmd)| then handled else |Targets(cmd)|);
      case Dies(pid) =>
      case FileLost => LostKeeps(w);
    }
  }

  lemma LostKeeps(w: World)
    requires Consistent(w.file, w.os, w.escaped)
    ensures Consistent(EMPTY_STATE, w.os, w.escaped + Recorded(w.file))
  {
    forall p | p in w.os.live ensures p in w.escaped + Recorded(w.file) {
      if p !in w.escaped { assert w.file.Get(w.os.live[p]).pid == Some(p); }
    }
  }

  lemma {:induction false} RunKeeps(w: World, steps: seq<Step>)
    requires Consistent(w.file, w.os, w.escaped)
    ensures var after := Run(w, steps); Consistent(after.file, after.os, after.escaped)
    decreases |steps|
  {
    if steps == [] {
    } else {
      ApplyKeeps(w, steps[0]);
      RunKeeps(Apply(w, steps[0]), steps[1..]);
    }
  }

  // ---------------------------------------------------------------- one worker per factory

  /** Each factory has at most one live worker, and it is the one the file records. */
  ghost predicate OneWorkerEach(w: World) {
    && (forall p :: p in w.os.live ==> w.file.Get(w.os.live[p]).pid == Some(p))
    && (forall p, q :: p in w.os.live && q in w.os.live && w.os.live[p] == w.os.live[q] ==> p == q)
  }

  /** In every run this holds exactly while no process that ever escaped the file is still alive. */
  lemma OneWorkerExactly(steps: seq<Step>)
    ensures var w := Run(INIT, steps); OneWorkerEach(w) <==> forall p :: p in w.escaped ==> p !in w.os.live
  {
    RunKeeps(INIT, steps);
    var w := Run(INIT, steps);
    forall p | p in w.escaped && p in w.os.live ensures !OneWorkerEach(w) {
      var n := w.os.live[p];
      assert w.file.Get(n).pid != Some(p);
    }
  }

  /** A stop whose kills all work; a start or resume that is not interrupted; a readable file. */
  predicate Clean(step: Step) {
    match step
    case Do(cmd, ok) => cmd.Stop? ==> forall n :: n in cmd.names ==> n in ok
    case Interrupted(cmd, _, _) => cmd.Stop?
    case Dies(_) => true
    case FileLost => false
  }

  lemma {:induction false} NothingForgotten(cmd: Command, w: Work, ok: set<Name>, k: nat)
    requires k <= |Targets(cmd)| && (cmd.Stop? ==> forall n :: n in cmd.names ==> n in ok)
    ensures Forgotten(cmd, w, ok, k) == {}
  {
    if k > 0 { NothingForgotten(cmd, w, ok, k - 1); }
  }

  lemma {:induction false} StopSpawnsNothing(cmd: Command, w: Work, ok: set<Name>, k: nat)
    requires cmd.Stop? && k <= |cmd.names|
    ensures Each(cmd, w, ok, k).os.nextPid == w.os.nextPid
  {
    if k > 0 { StopSpawnsNothing(cmd, w, ok, k - 1); }
  }

  lemma {:induction false} CleanEscapes(w: World, steps: seq<Step>)
    requires forall i :: 0 <= i < |steps| ==> Clean(steps[i])
    ensures Run(w, steps).escaped == w.escaped
    decreases |steps|
  {
    if steps != [] {
      var step := steps[0];
      match step {
        case Do(cmd, ok) => NothingForgotten(cmd, Work(w.file, w.os), ok, |Targets(cmd)|);
        case Interrupted(cmd, ok, handled) =>
          var k := if handled <= |cmd.names| then handled else |cmd.names|;
          StopSpawnsNothing(cmd, Work(w.file, w.os), ok, k);
          EachGrows(cmd, Work(w.file, w.os), ok, k);
          assert NewPids(w.os, Each(cmd, Work(w.file, w.os), ok, k).os) == {};
        case Dies(_) =>
        case FileLost =>
      }
      assert Apply(w, step).escaped == w.escaped;
      CleanEscapes(Apply(w, step), steps[1..]);
    }
  }

  /** Any number of starts, stops, resumes and worker crashes with working kills keep one worker each. */
  lemma CleanRunsKeepOneWorker(steps: seq<Step>)
    requires forall i :: 0 <= i < |steps| ==> Clean(steps[i])
    ensures OneWorkerEach(Run(INIT, steps))
    ensures forall n, p :: p in Run(INIT, steps).os.live && Run(INIT, steps).os.live[p] == n
              ==> Run(INIT, steps).file.Get(n).desired == Running
  {
    CleanEscapes(INIT, steps);
    OneWorkerExactly(steps);
    RunKeeps(INIT, steps);
  }

  // ---------------------------------------------------------------- resume

  lemma ResumeOne(w: Work, n: Name, ok: bool, escaped: set<nat>, k: Name)
    requires Consistent(w.mem, w.os, escaped)
    ensures var after := One(Resume, w, n, ok);
            && after.mem.Get(k).desired == w.mem.Get(k).desired
            && (w.os.IsAlive(w.mem.Get(k).pid) ==>
                  after.os.IsAlive(after.mem.Get(k).pid) && after.mem.Get(k) == w.mem.Get(k))
            && (ok && n == k && w.mem.Get(k).desired == Running ==> after.os.IsAlive(after.mem.Get(k).pid))
            && (w.mem.Get(k).desired == Stopped ==> after.mem.Get(k) == w.mem.Get(k))
            && (n != k ==> after.mem.Get(k) == w.mem.Get(k))
  {
  }

  /**
   A resume whose spawns succeed leaves every wanted factory alive, touches no stopped one, keeps the
   workers it finds alive, and starts a process only for a wanted factory that had none.
   */
  lemma ResumeRestores(w: World, ok: set<Name>, n: Name)
    requires Consistent(w.file, w.os, w.escaped) && forall k :: k in ok
    ensures var after := Apply(w, Do(Resume, ok));
            && after.file.Get(n).desired == w.file.Get(n).desired
            && (w.file.Get(n).desired == Running ==> after.os.IsAlive(after.file.Get(n).pid))
            && (w.file.Get(n).desired == Stopped ==> after.file.Get(n) == w.file.Get(n))
            && (w.os.IsAlive(w.file.Get(n).pid) ==> after.file.Get(n) == w.file.Get(n))
  {
    var start := Work(w.file, w.os);
    var w1, w2 := Each(Resume, start, ok, 1), Each(Resume, start, ok, 2);
    EachKeeps(Resume, start, ok, 1, w.escaped);
    EachKeeps(Resume, start, ok, 2, w.escaped);
    NothingForgotten(Resume, start, ok, 1);
    NothingForgotten(Resume, start, ok, 2);
    assert w.escaped + {} == w.escaped;
    assert Each(Resume, start, ok, 0) == start;
    ResumeOne(start, Btc5m, true, w.escaped, n);
    ResumeOne(w1, Multi, true, w.escaped, n);
    ResumeOne(w2, Updown, true, w.escaped, n);
  }

  lemma {:induction false} ResumeSpawnsOnly(w: Work, ok: set<Name>, k: nat, escaped: set<nat>, p: nat)
    requires Consistent(w.mem, w.os, escaped) && k <= 3
    requires var after := Each(Resume, w, ok, k); p in after.os.live && p !in w.os.live
    ensures var n := Each(Resume, w, ok, k).os.live[p];
            w.mem.Get(n).desired == Running && !w.os.IsAlive(w.mem.Get(n).pid)
  {
    if k > 0 {
      var before, n := Each(Resume, w, ok, k - 1), FACTORY_NAMES[k - 1];
      EachKeeps(Resume, w, ok, k - 1, escaped);
      if p in before.os.live {
        ResumeSpawnsOnly(w, ok, k - 1, escaped, p);
      } else {
        ResumeEarlier(w, ok, k - 1, n, escaped);
      }
    }
  }

  /** Up to its own turn resume has neither changed a factory nor ended its worker. */
  lemma {:induction false} ResumeEarlier(w: Work, ok: set<Name>, k: nat, n: Name, escaped: set<nat>)
    requires Consistent(w.mem, w.os, escaped) && k <= 3
    requires forall i :: 0 <= i < k ==> FACTORY_NAMES[i] != n
    ensures var after := Each(Resume, w, ok, k);
            after.mem.Get(n) == w.mem.Get(n) && (w.os.IsAlive(w.mem.Get(n).pid) ==> after.os.IsAlive(w.mem.Get(n).pid))
  {
    if k > 0 { ResumeEarlier(w, ok, k - 1, n, escaped); }
  }

  /** Once every wanted factory is alive, another resume changes nothing at all. */
  lemma {:induction false} ResumeIdle(w: World, ok: set<Name>)
    requires forall n :: w.file.Get(n).desired == Running ==> w.os.IsAlive(w.file.Get(n).pid)
    ensures Apply(w, Do(Resume, ok)) == w
  {
    var start := Work(w.file, w.os);
    assert Each(Resume, start, ok, 0) == start;
    assert Each(Resume, start, ok, 1) == start;
    assert Each(Resume, start, ok, 2) == start;
    NothingForgotten(Resume, start, ok, 3);
  }

  /** Resuming twice is resuming once, in any reachable world. */
  lemma ResumeTwice(steps: seq<Step>, ok: set<Name>, ok2: set<Name>)
    requires forall k :: k in ok
    ensures var once := Apply(Run(INIT, steps), Do(Resume, ok)); Apply(once, Do(Resume, ok2)) == once
  {
    var w := Run(INIT, steps);
    RunKeeps(INIT, steps);
    forall n: Name ensures var once := Apply(w, Do(Resume, ok));
                           once.file.Get(n).desired == Running ==> once.os.IsAlive(once.file.Get(n).pid) {
      ResumeRestores(w, ok, n);
    }
    ResumeIdle(Apply(w, Do(Resume, ok)), ok2);
  }

  // ---------------------------------------------------------------- start counts

  function Starts(file: File): nat {
    file.btc5m.startCount + file.multi.startCount + file.updown.startCount
  }

  lemma {:induction false} EachCounts(cmd: Command, w: Work, ok: set<Name>, k: nat)
    requires k <= |Targets(cmd)|
    ensures var after := Each(cmd, w, ok, k);
            Starts(after.mem) - Starts(w.mem) == after.os.nextPid - w.os.nextPid
  {
    if k > 0 { EachCounts(cmd, w, ok, k - 1); }
  }

  /** While no command is interrupted and the file stays readable, the start counts add up to the processes spawned. */
  lemma {:induction false} StartCountsExact(w: World, steps: seq<Step>)
    requires forall i :: 0 <= i < |steps| ==> !steps[i].Interrupted? && !steps[i].FileLost?
    ensures Starts(Run(w, steps).file) - Starts(w.file) == Run(w, steps).os.nextPid - w.os.nextPid
    decreases |steps|
  {
    if steps != [] {
      if steps[0].Do? {
        EachCounts(steps[0].cmd, Work(w.file, w.os), steps[0].ok, |Targets(steps[0].cmd)|);
      }
      StartCountsExact(Apply(w, steps[0]), steps[1..]);
    }
  }
}

/**
 The factory process manager: start, stop and resume read the state file, act on the
 operating system factory by factory and write the file back at the end. Workers crash
 on their own, a kill may leave its worker alive, a spawn may fail, the controller may die
 before it writes, and an unreadable file reads as the empty state. Process ids are not reused.
 */
module FactoryCtl {

  import opened Wrappers

  datatype Name = Btc5m | Multi | Updown

  const FACTORY_NAMES := [Btc5m, Multi, Updown]

  datatype Desired = Running | Stopped

  datatype Factory = Factory(desired: Desired, pid: Option<nat>, startCount: nat)

  const FRESH := Factory(Stopped, None, 0)

  datatype File = File(btc5m: Factory, multi: Factory, updown: Factory) {
    function Get(n: Name): Factory {
      match n
      case Btc5m => btc5m
      case Multi => multi
      case Updown => updown
    }

    function Set(n: Name, f: Factory): (file: File)
      ensures forall k :: file.Get(k) == if k == n then f else Get(k)
    {
      match n
      case Btc5m => this.(btc5m := f)
      case Multi => this.(multi := f)
      case Updown => this.(updown := f)
    }
  }

  const EMPTY_STATE := File(FRESH, FRESH, FRESH)

  /** The processes alive, each with the factory it works for, and the next process id. */
  datatype Os = Os(live: map<nat, Name>, nextPid: nat) {
    predicate IsAlive(pid: Option<nat>) {
      pid.Some? && pid.value in live
    }

    function Spawn(n: Name): Os {
      Os(live[nextPid := n], nextPid + 1)
    }

    function Without(pid: nat): Os {
      this.(live := live - {pid})
    }
  }

  /** What a command works on: the state it has in memory and the operating system. */
  datatype Work = Work(mem: File, os: Os)

  datatype Command = Start(names: seq<Name>) | Stop(names: seq<Name>) | Resume

  function Targets(cmd: Command): seq<Name> {
    match cmd
    case Start(names) => names
    case Stop(names) => names
    case Resume => FACTORY_NAMES
  }

  function Launch(w: Work, n: Name): Work {
    var f := w.mem.Get(n);
    Work(w.mem.Set(n, Factory(Running, Some(w.os.nextPid), f.startCount + 1)), w.os.Spawn(n))
  }

  /** One factory. `ok` says whether the spawn succeeds, or whether the kill really ends the worker. */
  function One(cmd: Command, w: Work, n: Name, ok: bool): Work {
    var f := w.mem.Get(n);
    match cmd
    case Start(_) =>
      if w.os.IsAlive(f.pid) then w.(mem := w.mem.Set(n, f.(desired := Running)))
      else if ok then Launch(w, n) else w
    case Stop(_) =>
      var mem := w.mem.Set(n, f.(desired := Stopped, pid := None));
      Work(mem, if w.os.IsAlive(f.pid) && ok then w.os.Without(f.pid.value) else w.os)
    case Resume =>
      if f.desired == Stopped || w.os.IsAlive(f.pid) then w
      else if ok then Launch(w, n) else w
  }

  /** The first k targets in order. */
  function Each(cmd: Command, w: Work, ok: set<Name>, k: nat): Work
    requires k <= |Targets(cmd)|
  {
    if k == 0 then w
    else
      var n := Targets(cmd)[k - 1];
      One(cmd, Each(cmd, w, ok, k - 1), n, n in ok)
  }

  // ---------------------------------------------------------------- the commands

  class Controller {
    var file: File
    var os: Os

    constructor ()
      ensures file == EMPTY_STATE && os == Os(map[], 1)
    {
      file, os := EMPTY_STATE, Os(map[], 1);
    }

    /** child_process.spawn: a new process, or none. */
    method SpawnFactory(n: Name, ok: bool) returns (pid: Option<nat>)
      modifies this`os
      ensures ok ==> pid == Some(old(os).nextPid) && os == old(os).Spawn(n)
      ensures !ok ==> pid == None && os == old(os)
    {
      if ok {
        pid, os := Some(os.nextPid), os.Spawn(n);
      } else {
        pid := None;
      }
    }

    /** The signal is sent; the worker dies or does not. */
    method KillFactory(pid: nat, ok: bool)
      modifies this`os
      ensures os == if ok then old(os).Without(pid) else old(os)
    {
      if ok { os := os.Without(pid); }
    }

    method CmdStart(names: seq<Name>, ok: set<Name>)
      modifies this
      ensures Work(file, os) == Each(Start(names), Work(old(file), old(os)), ok, |names|)
    {
      var state := file;
      for i := 0 to |names|
        invariant Work(state, os) == Each(Start(names), Work(old(file), old(os)), ok, i)
      {
        var n := names[i];
        var s := state.Get(n);
        if os.IsAlive(s.pid) {
          state := state.Set(n, s.(desired := Running));
          continue;
        }
        var pid := SpawnFactory(n, n in ok);
        if pid.Some? {
          state := state.Set(n, Factory(Running, pid, s.startCount + 1));
        }
      }
      file := state;
    }

    method CmdStop(names: seq<Name>, ok: set<Name>)
      modifies this
      ensures Work(file, os) == Each(Stop(names), Work(old(file), old(os)), ok, |names|)
    {
      var state := file;
      for i := 0 to |names|
        invariant Work(state, os) == Each(Stop(names), Work(old(file), old(os)), ok, i)
      {
        var n := names[i];
        var s := state.Get(n);
        if !os.IsAlive(s.pid) {
          state := state.Set(n, s.(desired := Stopped, pid := None));
          continue;
        }
        KillFactory(s.pid.value, n in ok);
        state := state.Set(n, s.(desired := Stopped, pid := None));
      }
      file := state;
    }

    method CmdResume(ok: set<Name>) returns (restarted: seq<Name>)
      modifies this
      ensures Work(file, os) == Each(Resume, Work(old(file), old(os)), ok, |FACTORY_NAMES|)
      ensures |restarted| == os.nextPid - old(os).nextPid
    {
      var state := file;
      restarted := [];
      for i := 0 to |FACTORY_NAMES|
        invariant Work(state, os) == Each(Resume, Work(old(file), old(os)), ok, i)
        invariant |restarted| == os.nextPid - old(os).nextPid
      {
        var n := FACTORY_NAMES[i];
        var s := state.Get(n);
        if s.desired == Stopped || os.IsAlive(s.pid) {
          continue;
        }
        var pid := SpawnFactory(n, n in ok);
        if pid.Some? {
          state := state.Set(n, s.(pid := pid, startCount := s.startCount + 1));
          restarted := restarted + [n];
        }
      }
      file := state;
    }
  }
}

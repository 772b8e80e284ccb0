/**
 The wallet observer: trades listed by each poll are classified and logged once per seen-set,
 and the seen-set is rebuilt from the last seven days of the log at start-up. A trade is marked
 as seen before it is classified, and a failure ends the poll.
 */
module ObserveWallet {

  const WEEK := 604_800

  type Key = (string, string)

  /** A classified trade in the log; `at` is its created_at in seconds. */
  datatype Entry = Entry(key: Key, at: nat)

  /** `dropped` is history: keys marked as seen since start-up whose classification failed. */
  datatype State = State(log: seq<Entry>, seen: set<Key>, dropped: set<Key>)

  /** Keys logged at or after a time. */
  function KeysSince(log: seq<Entry>, from: int): (keys: set<Key>)
    ensures forall key :: key in keys <==> exists e :: e in log && e.key == key && e.at >= from
  {
    set e | e in log && e.at >= from :: e.key
  }

  function Boot(st: State, now: nat): State {
    State(st.log, KeysSince(st.log, now - WEEK), {})
  }

  /** One listed trade; `ok` is false when classifying it throws. */
  function Handle(st: State, wallet: string, tx: string, now: nat, ok: bool): State {
    var key := (wallet, tx);
    if tx == "" || key in st.seen then st
    else if ok then st.(seen := st.seen + {key}, log := st.log + [Entry(key, now)])
    else st.(seen := st.seen + {key}, dropped := st.dropped + {key})
  }

  /** Classifying trade k of the list throws. */
  predicate Throws(st: State, wallet: string, tx: string, ok: bool) {
    !ok && tx != "" && (wallet, tx) !in st.seen
  }

  /** The poll from trade i of the list on; trades whose position is in `fails` throw when they are classified. */
  function PollFrom(st: State, wallet: string, txs: seq<string>, i: nat, now: nat, fails: set<nat>): State
    decreases |txs| - i
  {
    if i >= |txs| then st
    else
      var after := Handle(st, wallet, txs[i], now, i !in fails);
      if Throws(st, wallet, txs[i], i !in fails) then after else PollFrom(after, wallet, txs, i + 1, now, fails)
  }

  /** The poll ends with the exception of a trade it could not classify. */
  predicate Aborts(st: State, wallet: string, txs: seq<string>, i: nat, now: nat, fails: set<nat>)
    decreases |txs| - i
  {
    i < |txs|
    && (Throws(st, wallet, txs[i], i !in fails)
        || Aborts(Handle(st, wallet, txs[i], now, i !in fails), wallet, txs, i + 1, now, fails))
  }

  class Observer {
    var log: seq<Entry>
    var seen: set<Key>
    ghost var dropped: set<Key>

    ghost function Snapshot(): State
      reads this
    {
      State(log, seen, dropped)
    }

    /** Start-up over an existing log. */
    constructor (log: seq<Entry>, now: nat)
      ensures Snapshot() == Boot(State(log, {}, {}), now)
    {
      this.log := log;
      this.dropped := {};
      new;
      seen := {};
      for i := 0 to |log|
        invariant this.log == log && dropped == {}
        invariant seen == KeysSince(log[..i], now - WEEK)
      {
        assert log[..i + 1] == log[..i] + [log[i]];
        if log[i].at >= now - WEEK { seen := seen + {log[i].key}; }
      }
      assert log[..|log|] == log;
    }

    /** One poll of one wallet; -1 stands for the exception that ends it. */
    method PollWallet(wallet: string, txs: seq<string>, now: nat, fails: set<nat>) returns (newClassified: int)
      modifies this
      ensures Snapshot() == PollFrom(old(Snapshot()), wallet, txs, 0, now, fails)
      ensures newClassified == -1 <==> Aborts(old(Snapshot()), wallet, txs, 0, now, fails)
      ensures newClassified != -1 ==> newClassified == |log| - |old(log)|
    {
      newClassified := 0;
      for i := 0 to |txs|
        invariant PollFrom(Snapshot(), wallet, txs, i, now, fails)
               == PollFrom(old(Snapshot()), wallet, txs, 0, now, fails)
        invariant Aborts(Snapshot(), wallet, txs, i, now, fails) == Aborts(old(Snapshot()), wallet, txs, 0, now, fails)
        invariant newClassified == |log| - |old(log)| >= 0
      {
        if txs[i] == "" { continue; }
        var key := (wallet, txs[i]);
        if key in seen { continue; }
        seen := seen + {key};
        if i in fails {
          dropped := dropped + {key};
          return -1;
        }
        log := log + [Entry(key, now)];
        newClassified := newClassified + 1;
      }
    }
  }

  // ---------------------------------------------------------------- whole runs

  datatype Step = Tick(sec: nat) | Restart | Poll(wallet: string, txs: seq<string>, fails: set<nat>)

  datatype World = World(st: State, now: nat, bootAt: nat)

  function Apply(w: World, step: Step): World {
    match step
    case Tick(sec) => w.(now := w.now + sec)
    case Restart => w.(st := Boot(w.st, w.now), bootAt := w.now)
    case Poll(wallet, txs, fails) => w.(st := PollFrom(w.st, wallet, txs, 0, w.now, fails))
  }

  function Run(w: World, steps: seq<Step>): World
    decreases |steps|
  {
    if steps == [] then w else Run(Apply(w, steps[0]), steps[1..])
  }

  function Init(now: nat): World {
    World(State([], {}, {}), now, now)
  }

  /** Two entries of one trade are more than a week apart. */
  ghost predicate WeekApart(log: seq<Entry>) {
    forall i, j :: 0 <= i < j < |log| && log[i].key == log[j].key ==> log[j].at - log[i].at > 604_800
  }

  /** The seen-set holds exactly the trades logged since a week before start-up, and the dropped ones. */
  ghost predicate Inv(st: State, now: nat, bootAt: nat) {
    && bootAt <= now
    && (forall e :: e in st.log ==> e.at <= now)
    && (forall key :: key in st.seen <==>
          key in st.dropped || exists e :: e in st.log && e.key == key && e.at >= bootAt - WEEK)
    && WeekApart(st.log)
  }

  lemma HandleKeeps(st: State, wallet: string, tx: string, now: nat, ok: bool, bootAt: nat)
    requires Inv(st, now, bootAt)
    ensures Inv(Handle(st, wallet, tx, now, ok), now, bootAt)
  {
    var key := (wallet, tx);
    if tx != "" && key !in st.seen && ok {
      AppendKeeps(st, Entry(key, now), now, bootAt);
    }
  }

  lemma AppendKeeps(st: State, e: Entry, now: nat, bootAt: nat)
    requires Inv(st, now, bootAt) && e.at == now && e.key !in st.seen
    ensures Inv(st.(seen := st.seen + {e.key}, log := st.log + [e]), now, bootAt)
  {
  }

  lemma {:induction false} PollKeeps(st: State, wallet: string, txs: seq<string>, i: nat, now: nat, fails: set<nat>,
                                     bootAt: nat)
    requires Inv(st, now, bootAt)
    ensures Inv(PollFrom(st, wallet, txs, i, now, fails), now, bootAt)
    decreases |txs| - i
  {
    if i < |txs| {
      HandleKeeps(st, wallet, txs[i], now, i !in fails, bootAt);
      PollKeeps(Handle(st, wallet, txs[i], now, i !in fails), wallet, txs, i + 1, now, fails, bootAt);
    }
  }

  lemma {:induction false} RunKeeps(w: World, steps: seq<Step>)
    requires Inv(w.st, w.now, w.bootAt)
    ensures var after := Run(w, steps); Inv(after.st, after.now, after.bootAt)
    decreases |steps|
  {
    if steps != [] {
      if steps[0].Poll? {
        PollKeeps(w.st, steps[0].wallet, steps[0].txs, 0, w.now, steps[0].fails, w.bootAt);
      }
      RunKeeps(Apply(w, steps[0]), steps[1..]);
    }
  }

  /** However often the observer restarts, it never classifies one trade twice within seven days. */
  lemma NeverTwiceInAWeek(now: nat, steps: seq<Step>)
    ensures WeekApart(Run(Init(now), steps).st.log)
  {
    RunKeeps(Init(now), steps);
  }

  /**
   In any reachable state, a listed trade that was classified before is classified again exactly
   when its last classification lies more than seven days before the last start-up and it has not
   been dropped since.
   */
  lemma ClassifiedAgain(now: nat, steps: seq<Step>, wallet: string, tx: string)
    requires tx != ""
    ensures var w := Run(Init(now), steps);
            && var after := Handle(w.st, wallet, tx, w.now, true);
            after.log != w.st.log <==>
              (wallet, tx) !in w.st.dropped
              && forall e :: e in w.st.log && e.key == (wallet, tx) ==> e.at < w.bootAt - 604_800
  {
    RunKeeps(Init(now), steps);
    var w := Run(Init(now), steps);
    assert |w.st.log + [Entry((wallet, tx), w.now)]| == |w.st.log| + 1;
  }

  // ---------------------------------------------------------------- dropped trades

  function Times(log: seq<Entry>, key: Key): nat {
    if log == [] then 0 else Times(log[..|log| - 1], key) + if log[|log| - 1].key == key then 1 else 0
  }

  lemma HandleSkipsSeen(st: State, wallet: string, tx: string, now: nat, ok: bool, key: Key)
    requires key in st.seen
    ensures var after := Handle(st, wallet, tx, now, ok);
            key in after.seen && Times(after.log, key) == Times(st.log, key)
  {
    var longer := st.log + [Entry((wallet, tx), now)];
    assert longer[..|st.log|] == st.log;
  }

  lemma {:induction false} PollSkipsSeen(st: State, wallet: string, txs: seq<string>, i: nat, now: nat, fails: set<nat>,
                                         key: Key)
    requires key in st.seen
    ensures var after := PollFrom(st, wallet, txs, i, now, fails);
            key in after.seen && Times(after.log, key) == Times(st.log, key)
    decreases |txs| - i
  {
    if i < |txs| {
      HandleSkipsSeen(st, wallet, txs[i], now, i !in fails, key);
      PollSkipsSeen(Handle(st, wallet, txs[i], now, i !in fails), wallet, txs, i + 1, now, fails, key);
    }
  }

  /** A trade whose classification failed is not tried again before the next restart. */
  lemma {:induction false} DroppedUntilRestart(w: World, steps: seq<Step>, key: Key)
    requires key in w.st.seen && forall i :: 0 <= i < |steps| ==> !steps[i].Restart?
    ensures Times(Run(w, steps).st.log, key) == Times(w.st.log, key)
    decreases |steps|
  {
    if steps != [] {
      if steps[0].Poll? {
        PollSkipsSeen(w.st, steps[0].wallet, steps[0].txs, 0, w.now, steps[0].fails, key);
      }
      DroppedUntilRestart(Apply(w, steps[0]), steps[1..], key);
    }
  }

  /** A trade still listed after a restart eight days later is classified a second time. */
  lemma RestartAfterAWeek(wallet: string, tx: string)
    requires tx != ""
    ensures Run(Init(0), [Poll(wallet, [tx], {}), Tick(WEEK + 1), Restart, Poll(wallet, [tx], {})]).st.log
         == [Entry((wallet, tx), 0), Entry((wallet, tx), WEEK + 1)]
  {
    var key := (wallet, tx);
    var poll := Poll(wallet, [tx], {});
    var steps := [poll, Tick(WEEK + 1), Restart, poll];
    assert steps[1..] == [Tick(WEEK + 1), Restart, poll] && steps[1..][1..] == [Restart, poll];
    assert steps[1..][1..][1..] == [poll];
    PollOne(State([], {}, {}), wallet, tx, 0);
    var w1 := Apply(Init(0), poll);
    var w3 := Apply(Apply(w1, Tick(WEEK + 1)), Restart);
    assert w1.st.log == [] + [Entry(key, 0)] == [Entry(key, 0)];
    assert w3.st == State([Entry(key, 0)], {}, {});
    PollOne(w3.st, wallet, tx, WEEK + 1);
    assert Run(w3, [poll]) == Run(Apply(w3, poll), []);
    assert Run(Init(0), steps) == Run(w1, steps[1..]);
    assert Run(w1, steps[1..]) == Run(Apply(w1, Tick(WEEK + 1)), [Restart, poll]);
  }

  lemma PollOne(st: State, wallet: string, tx: string, now: nat)
    requires tx != "" && (wallet, tx) !in st.seen
    ensures PollFrom(st, wallet, [tx], 0, now, {}).log == st.log + [Entry((wallet, tx), now)]
  {
    var after := Handle(st, wallet, tx, now, true);
    assert PollFrom(after, wallet, [tx], 1, now, {}) == after;
  }
}

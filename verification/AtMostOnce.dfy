/**
 At-most-once execution over whole runs, worker by worker. Markov and consensus
 dedup against every logged row, late-scalp only against the rows of the poll's
 own date, so its guarantee is per date. Workers that share the log do not wait
 for each other, so n of them give n where one gives one.
 */
module AtMostOnce {
  import opened ExecLog
  import opened ExecMachine

  /** Submit calls for an opportunity by workers lo up to hi; for late-scalp only those of polls started on date d. */
  function SubsIn(pol: Policy, subs: seq<Sub>, lo: nat, hi: nat, id: nat, d: nat): nat {
    if subs == [] then 0
    else
      var s := subs[|subs| - 1];
      SubsIn(pol, subs[..|subs| - 1], lo, hi, id, d)
      + if lo <= s.worker < hi && s.id == id && (pol.LateScalp? ==> s.today == d) then 1 else 0
  }

  /** Rows of an opportunity by workers lo up to hi; for late-scalp only those of date d. */
  function RowsIn(pol: Policy, log: Log, lo: nat, hi: nat, id: nat, d: nat): nat {
    if log == [] then 0
    else
      var e := log[|log| - 1];
      RowsIn(pol, log[..|log| - 1], lo, hi, id, d)
      + if lo <= e.worker < hi && e.source == id && (pol.LateScalp? ==> DateOf(e.at) == d) then 1 else 0
  }

  function SubsBy(pol: Policy, subs: seq<Sub>, p: nat, id: nat, d: nat): nat {
    SubsIn(pol, subs, p, p + 1, id, d)
  }

  function RowsBy(pol: Policy, log: Log, p: nat, id: nat, d: nat): nat {
    RowsIn(pol, log, p, p + 1, id, d)
  }

  /** Rows of an opportunity by worker p; for late-scalp only those of date d or later. */
  function RowsSince(pol: Policy, log: Log, p: nat, id: nat, d: nat): nat {
    if log == [] then 0
    else
      var e := log[|log| - 1];
      RowsSince(pol, log[..|log| - 1], p, id, d)
      + if e.worker == p && e.source == id && (pol.LateScalp? ==> DateOf(e.at) >= d) then 1 else 0
  }

  lemma RowsAppend(pol: Policy, log: Log, e: ExecEvent, p: nat, id: nat, d: nat)
    ensures RowsBy(pol, log + [e], p, id, d)
         == RowsBy(pol, log, p, id, d)
            + if e.worker == p && e.source == id && (pol.LateScalp? ==> DateOf(e.at) == d) then 1 else 0
    ensures RowsSince(pol, log + [e], p, id, d)
         == RowsSince(pol, log, p, id, d)
            + if e.worker == p && e.source == id && (pol.LateScalp? ==> DateOf(e.at) >= d) then 1 else 0
  {
    assert (log + [e])[..|log|] == log;
  }

  lemma SubsAppend(pol: Policy, subs: seq<Sub>, s: Sub, lo: nat, hi: nat, id: nat, d: nat)
    ensures SubsIn(pol, subs + [s], lo, hi, id, d)
         == SubsIn(pol, subs, lo, hi, id, d)
            + if lo <= s.worker < hi && s.id == id && (pol.LateScalp? ==> s.today == d) then 1 else 0
  {
    assert (subs + [s])[..|subs|] == subs;
  }

  lemma {:induction false} RowsAtMostSince(pol: Policy, log: Log, p: nat, id: nat, d: nat, d': nat)
    requires pol.LateScalp? ==> d <= d'
    ensures RowsBy(pol, log, p, id, d') <= RowsSince(pol, log, p, id, d)
  {
    if log != [] {
      RowsAtMostSince(pol, log[..|log| - 1], p, id, d, d');
    }
  }

  /** With no row from the future, the dedup set holds every id with a row since today, whoever logged it. */
  lemma {:induction false} DoneCovers(pol: Policy, log: Log, p: nat, id: nat, today: nat)
    requires forall e :: e in log ==> DateOf(e.at) <= today
    requires id !in DoneIds(pol, log, today)
    ensures RowsSince(pol, log, p, id, today) == 0
  {
    if log != [] {
      var init, e := log[..|log| - 1], log[|log| - 1];
      assert e in log && forall x :: x in init ==> x in log;
      DoneCovers(pol, init, p, id, today);
    }
  }

  /** No row of the worker since the poll's date for any queued, not deduplicated opportunity. */
  ghost predicate QueueClear(pol: Policy, log: Log, p: nat, today: nat, done: set<nat>, queue: seq<Opp>) {
    forall o :: o in queue && o.id !in done ==> RowsSince(pol, log, p, o.id, today) == 0
  }

  ghost predicate RowsUnique(pol: Policy, log: Log, p: nat) {
    forall id: nat, d: nat :: RowsBy(pol, log, p, id, d) <= 1
  }

  /** A row of the worker for an opportunity it has none for yet. */
  lemma AppendRow(pol: Policy, log: Log, e: ExecEvent, p: nat, today: nat)
    requires p == e.worker && today <= DateOf(e.at)
    requires RowsUnique(pol, log, p) && RowsSince(pol, log, p, e.source, today) == 0
    ensures RowsUnique(pol, log + [e], p)
    ensures forall id: nat, d: nat :: RowsSince(pol, log + [e], p, id, d) >= RowsSince(pol, log, p, id, d)
    ensures forall id: nat, d: nat ::
              id != e.source ==> RowsSince(pol, log + [e], p, id, d) == RowsSince(pol, log, p, id, d)
    ensures RowsSince(pol, log + [e], p, e.source, today) == 1
  {
    forall id: nat, d: nat ensures RowsBy(pol, log + [e], p, id, d) <= 1 {
      RowsAppend(pol, log, e, p, id, d);
      if id == e.source && (pol.LateScalp? ==> d >= today) {
        RowsAtMostSince(pol, log, p, id, today, d);
      }
    }
    forall id: nat, d: nat
      ensures RowsSince(pol, log + [e], p, id, d) >= RowsSince(pol, log, p, id, d)
      ensures id != e.source ==> RowsSince(pol, log + [e], p, id, d) == RowsSince(pol, log, p, id, d)
    {
      RowsAppend(pol, log, e, p, id, d);
    }
    RowsAppend(pol, log, e, p, e.source, today);
  }

  /** A stretch adds at most one row per id and leaves the rest of the queue clear. */
  ghost predicate LeavesClear(pol: Policy, p: nat, log: Log, today: nat, done: set<nat>, st: Stretch) {
    && RowsUnique(pol, st.log, p)
    && (forall id: nat, d: nat :: RowsSince(pol, st.log, p, id, d) >= RowsSince(pol, log, p, id, d))
    && (st.session.Waiting? ==>
          && RowsSince(pol, st.log, p, st.session.order.id, today) == 0
          && QueueClear(pol, st.log, p, today, done, st.session.queue))
  }

  lemma {:induction false} AdvanceRows(pol: Policy, p: nat, nowMs: nat, log: Log, today: nat, startMs: nat,
                                       remaining: real, done: set<nat>, queue: seq<Opp>)
    requires Ascending(queue) && QueueClear(pol, log, p, today, done, queue) && RowsUnique(pol, log, p)
    requires today <= DateOf(nowMs)
    ensures LeavesClear(pol, p, log, today, done,
                        Advance(pol, p, nowMs, log, today, startMs, remaining, done, queue))
    decreases |queue|
  {
    if queue != [] && (queue[0].id in done || !OutOfBudget(pol, remaining, log, today)) {
      var o, rest := queue[0], queue[1..];
      assert forall x :: x in rest ==> x in queue;
      if o.id in done || Decide(pol, startMs, remaining, o).Pass? {
        AdvanceRows(pol, p, nowMs, log, today, startMs, remaining, done, rest);
      } else if Decide(pol, startMs, remaining, o).Note? {
        var e := ExecEvent(p, o.id, 0.0, Skipped, nowMs);
        AppendRow(pol, log, e, p, today);
        AdvanceRows(pol, p, nowMs, log + [e], today, startMs, remaining, done, rest);
      }
    }
  }

  // ---------------------------------------------------------------- the invariant of one worker

  /** Submit calls of the worker whose outcome is not known to be lost. */
  function Kept(pol: Policy, w: World, p: nat, id: nat, d: nat): int {
    SubsBy(pol, w.submits, p, id, d) - SubsBy(pol, w.lost, p, id, d)
  }

  ghost predicate Pending(pol: Policy, w: World, p: nat, id: nat, d: nat) {
    Active(w, p) && w.sessions[p].order.id == id && (pol.LateScalp? ==> w.sessions[p].today == d)
  }

  /** A kept submit call is in flight or has a row that the worker's later polls will see. */
  ghost predicate KeptOk(pol: Policy, w: World, p: nat, id: nat, d: nat) {
    && 0 <= Kept(pol, w, p, id, d) <= 1
    && (Kept(pol, w, p, id, d) == 1 ==> RowsSince(pol, w.log, p, id, d) > 0 || Pending(pol, w, p, id, d))
  }

  ghost predicate SessionClear(pol: Policy, w: World, p: nat, s: Session) {
    s.Waiting? ==>
      && RowsSince(pol, w.log, p, s.order.id, s.today) == 0
      && QueueClear(pol, w.log, p, s.today, s.done, s.queue)
      && Kept(pol, w, p, s.order.id, s.today) == 1
      && forall o :: o in s.queue && o.id !in s.done ==> Kept(pol, w, p, o.id, s.today) == 0
  }

  ghost predicate Mine(pol: Policy, w: World, p: nat)
    requires p < |w.sessions|
  {
    && RowsUnique(pol, w.log, p)
    && SessionClear(pol, w, p, w.sessions[p])
    && forall id: nat, d: nat :: KeptOk(pol, w, p, id, d)
  }

  ghost predicate Inv(pol: Policy, w: World, p: nat) {
    WellFormed(pol, w) && p < |w.sessions| && Mine(pol, w, p)
  }

  /** Launching counts one more kept submit call, for the order it leaves in flight. */
  lemma KeptAfterLaunch(pol: Policy, w: World, p: nat, st: Stretch, id: nat, d: nat)
    requires p < |w.sessions|
    ensures var w' := Launch(w, p, st);
            Kept(pol, w', p, id, d) == Kept(pol, w, p, id, d) + if Pending(pol, w', p, id, d) then 1 else 0
  {
    if st.session.Waiting? {
      SubsAppend(pol, w.submits, Sub(p, st.session.order.id, st.session.today), p, p + 1, id, d);
    }
  }

  /** What a stretch needs of the log and the bookkeeping it starts from. */
  ghost predicate Ready(pol: Policy, w: World, p: nat, log1: Log, today: nat, done: set<nat>, queue: seq<Opp>) {
    && p < |w.sessions| && today <= DateOf(w.now)
    && Ascending(queue) && QueueClear(pol, log1, p, today, done, queue) && RowsUnique(pol, log1, p)
    && (forall o :: o in queue && o.id !in done ==> Kept(pol, w, p, o.id, today) == 0)
    && forall id: nat, d: nat ::
         0 <= Kept(pol, w, p, id, d) <= 1 && (Kept(pol, w, p, id, d) == 1 ==> RowsSince(pol, log1, p, id, d) > 0)
  }

  lemma NotLaunched(pol: Policy, w: World, p: nat, st: Stretch, id: nat, d: nat)
    requires p < |w.sessions| && st.session.Waiting? && st.session.order.id != id && Kept(pol, w, p, id, d) == 0
    ensures Kept(pol, Launch(w, p, st), p, id, d) == 0
  {
    KeptAfterLaunch(pol, w, p, st, id, d);
  }

  lemma LaunchedClear(pol: Policy, w: World, p: nat, log1: Log, today: nat, startMs: nat, remaining: real,
                      done: set<nat>, queue: seq<Opp>, st: Stretch)
    requires Ready(pol, w, p, log1, today, done, queue) && LeavesClear(pol, p, log1, today, done, st)
    requires Stops(pol, today, startMs, remaining, done, queue, st)
    ensures RowsUnique(pol, Launch(w, p, st).log, p)
    ensures SessionClear(pol, Launch(w, p, st), p, st.session)
  {
    if st.session.Waiting? {
      var s := st.session;
      assert queue[st.taken - 1] in queue;
      KeptAfterLaunch(pol, w, p, st, s.order.id, today);
      forall i | 0 <= i < |s.queue| && s.queue[i].id !in done
        ensures Kept(pol, Launch(w, p, st), p, s.queue[i].id, today) == 0
      {
        assert s.queue[i] == queue[st.taken + i];
        NotLaunched(pol, w, p, st, s.queue[i].id, today);
      }
    }
  }

  lemma LaunchClear(pol: Policy, w: World, p: nat, log1: Log, today: nat, startMs: nat, remaining: real,
                    done: set<nat>, queue: seq<Opp>)
    requires Ready(pol, w, p, log1, today, done, queue)
    ensures var w' := Launch(w, p, Advance(pol, p, w.now, log1, today, startMs, remaining, done, queue));
            RowsUnique(pol, w'.log, p) && SessionClear(pol, w', p, w'.sessions[p])
  {
    AdvanceRows(pol, p, w.now, log1, today, startMs, remaining, done, queue);
    AdvanceSound(pol, p, w.now, log1, today, startMs, remaining, done, queue);
    LaunchedClear(pol, w, p, log1, today, startMs, remaining, done, queue,
                  Advance(pol, p, w.now, log1, today, startMs, remaining, done, queue));
  }

  lemma LaunchKept(pol: Policy, w: World, p: nat, log1: Log, today: nat, startMs: nat, remaining: real,
                   done: set<nat>, queue: seq<Opp>, id: nat, d: nat)
    requires Ready(pol, w, p, log1, today, done, queue)
    ensures KeptOk(pol, Launch(w, p, Advance(pol, p, w.now, log1, today, startMs, remaining, done, queue)), p, id, d)
  {
    var st := Advance(pol, p, w.now, log1, today, startMs, remaining, done, queue);
    AdvanceRows(pol, p, w.now, log1, today, startMs, remaining, done, queue);
    AdvanceSound(pol, p, w.now, log1, today, startMs, remaining, done, queue);
    KeptAfterLaunch(pol, w, p, st, id, d);
    if Pending(pol, Launch(w, p, st), p, id, d) {
      assert queue[st.taken - 1] in queue;
      SameDate(pol, w, p, id, d, today);
    }
  }

  /** A stretch that starts from a clear queue keeps the bookkeeping. */
  lemma LaunchKeeps(pol: Policy, w: World, p: nat, log1: Log, today: nat, startMs: nat, remaining: real,
                    done: set<nat>, queue: seq<Opp>)
    requires Ready(pol, w, p, log1, today, done, queue)
    ensures Mine(pol, Launch(w, p, Advance(pol, p, w.now, log1, today, startMs, remaining, done, queue)), p)
  {
    LaunchClear(pol, w, p, log1, today, startMs, remaining, done, queue);
    var w' := Launch(w, p, Advance(pol, p, w.now, log1, today, startMs, remaining, done, queue));
    forall id: nat, d: nat ensures KeptOk(pol, w', p, id, d) {
      LaunchKept(pol, w, p, log1, today, startMs, remaining, done, queue, id, d);
    }
  }

  /** Outside late-scalp the date does not matter. */
  lemma SameDate(pol: Policy, w: World, p: nat, id: nat, d: nat, d': nat)
    requires pol.LateScalp? ==> d == d'
    ensures Kept(pol, w, p, id, d) == Kept(pol, w, p, id, d')
  {
    SubsSameDate(pol, w.submits, p, id, d, d');
    SubsSameDate(pol, w.lost, p, id, d, d');
  }

  lemma {:induction false} SubsSameDate(pol: Policy, subs: seq<Sub>, p: nat, id: nat, d: nat, d': nat)
    requires pol.LateScalp? ==> d == d'
    ensures SubsBy(pol, subs, p, id, d) == SubsBy(pol, subs, p, id, d')
  {
    if subs != [] {
      SubsSameDate(pol, subs[..|subs| - 1], p, id, d, d');
    }
  }

  lemma {:induction false} RowsSameDate(pol: Policy, log: Log, p: nat, id: nat, d: nat, d': nat)
    requires pol.LateScalp? ==> d == d'
    ensures RowsSince(pol, log, p, id, d) == RowsSince(pol, log, p, id, d')
  {
    if log != [] {
      RowsSameDate(pol, log[..|log| - 1], p, id, d, d');
    }
  }

  lemma BeginReady(pol: Policy, w: World, p: nat)
    requires Inv(pol, w, p) && w.sessions[p].Idle?
    ensures var today := DateOf(w.now);
            Ready(pol, w, p, w.log, today, DoneIds(pol, w.log, today), Recent(w.opps, LookbackSec(pol), w.now / 1000))
  {
    var today := DateOf(w.now);
    var q := Recent(w.opps, LookbackSec(pol), w.now / 1000);
    RecentSound(w.opps, LookbackSec(pol), w.now / 1000);
    assert forall e :: e in w.log ==> DateOf(e.at) <= today;
    forall o | o in q && o.id !in DoneIds(pol, w.log, today)
      ensures RowsSince(pol, w.log, p, o.id, today) == 0 && Kept(pol, w, p, o.id, today) == 0
    {
      DoneCovers(pol, w.log, p, o.id, today);
      assert KeptOk(pol, w, p, o.id, today);
    }
    forall id: nat, d: nat
      ensures 0 <= Kept(pol, w, p, id, d) <= 1 && (Kept(pol, w, p, id, d) == 1 ==> RowsSince(pol, w.log, p, id, d) > 0)
    {
      assert KeptOk(pol, w, p, id, d);
    }
  }

  lemma BeginKeeps(pol: Policy, w: World, p: nat)
    requires Inv(pol, w, p) && w.sessions[p].Idle?
    ensures Mine(pol, Apply(pol, w, Begin(p)), p)
  {
    var today := DateOf(w.now);
    BeginReady(pol, w, p);
    if !OutOfBudget(pol, Budget(pol, w.log, today), w.log, today) {
      LaunchKeeps(pol, w, p, w.log, today, w.now, Budget(pol, w.log, today), DoneIds(pol, w.log, today),
                  Recent(w.opps, LookbackSec(pol), w.now / 1000));
    } else {
      var w' := Apply(pol, w, Begin(p));
      forall id: nat, d: nat ensures KeptOk(pol, w', p, id, d) {
        assert KeptOk(pol, w, p, id, d);
      }
    }
  }

  /** After a logged reply the kept submit calls all have rows, and the rest of the queue is clear. */
  lemma ReplyReady(pol: Policy, w: World, p: nat, result: Result)
    requires Inv(pol, w, p) && Active(w, p) && !(result.Thrown? && pol.LateScalp?)
    ensures var s := w.sessions[p]; Ready(pol, w, p, ReplyLog(w, p, result), s.today, s.done, s.queue)
  {
    var s := w.sessions[p];
    var log1 := ReplyLog(w, p, result);
    AppendRow(pol, w.log, ReplyEvent(w, p, result), p, s.today);
    assert forall o :: o in s.queue ==> o.id != s.order.id;
    forall id: nat, d: nat
      ensures 0 <= Kept(pol, w, p, id, d) <= 1 && (Kept(pol, w, p, id, d) == 1 ==> RowsSince(pol, log1, p, id, d) > 0)
    {
      assert KeptOk(pol, w, p, id, d);
      if Pending(pol, w, p, id, d) {
        RowsSameDate(pol, log1, p, id, d, s.today);
      }
    }
  }

  lemma ReplyKeeps(pol: Policy, w: World, p: nat, result: Result)
    requires Inv(pol, w, p) && Active(w, p) && !(result.Thrown? && pol.LateScalp?)
    ensures Mine(pol, Apply(pol, w, Reply(p, result)), p)
  {
    ReplyReady(pol, w, p, result);
    var s := w.sessions[p];
    var remaining := if result.Returned? then Settle(pol, s.remaining, s.order.usd, result.ok) else s.remaining;
    LaunchKeeps(pol, w, p, ReplyLog(w, p, result), s.today, s.startMs, remaining, s.done, s.queue);
  }

  lemma DropKeeps(pol: Policy, w: World, p: nat)
    requires Inv(pol, w, p) && Active(w, p)
    ensures Mine(pol, Drop(w, p), p)
  {
    var s := w.sessions[p];
    var w' := Drop(w, p);
    forall id: nat, d: nat ensures KeptOk(pol, w', p, id, d) {
      assert KeptOk(pol, w, p, id, d);
      SubsAppend(pol, w.lost, Sub(p, s.order.id, s.today), p, p + 1, id, d);
      if Pending(pol, w, p, id, d) {
        SameDate(pol, w, p, id, d, s.today);
      }
    }
  }

  // ---------------------------------------------------------------- steps of other workers

  /** Another worker's rows and submit calls are none of worker p's business. */
  lemma {:induction false} NotesOfOther(pol: Policy, q: nat, nowMs: nat, log: Log, log': Log, p: nat, id: nat, d: nat)
    requires p != q && NotesOnly(pol, q, nowMs, log, log')
    ensures RowsSince(pol, log', p, id, d) == RowsSince(pol, log, p, id, d)
    ensures RowsBy(pol, log', p, id, d) == RowsBy(pol, log, p, id, d)
    decreases |log'|
  {
    if |log'| == |log| {
      assert log' == log'[..|log|];
    } else {
      NotesInit(pol, q, nowMs, log, log');
      assert log' == log'[..|log'| - 1] + [log'[|log'| - 1]];
      RowsAppend(pol, log'[..|log'| - 1], log'[|log'| - 1], p, id, d);
      NotesOfOther(pol, q, nowMs, log, log'[..|log'| - 1], p, id, d);
    }
  }

  /** What worker p's bookkeeping looks at is the same in both worlds. */
  ghost predicate Untouched(pol: Policy, w: World, w': World, p: nat) {
    && p < |w.sessions| == |w'.sessions| && w'.sessions[p] == w.sessions[p]
    && forall id: nat, d: nat ::
         && RowsSince(pol, w'.log, p, id, d) == RowsSince(pol, w.log, p, id, d)
         && RowsBy(pol, w'.log, p, id, d) == RowsBy(pol, w.log, p, id, d)
         && Kept(pol, w', p, id, d) == Kept(pol, w, p, id, d)
  }

  lemma UntouchedKeeps(pol: Policy, w: World, w': World, p: nat)
    requires Untouched(pol, w, w', p) && Mine(pol, w, p)
    ensures Mine(pol, w', p)
  {
    forall id: nat, d: nat ensures KeptOk(pol, w', p, id, d) { assert KeptOk(pol, w, p, id, d); }
  }

  lemma OtherLaunch(pol: Policy, w: World, q: nat, log1: Log, st: Stretch, p: nat)
    requires p < |w.sessions| && q < |w.sessions| && p != q && NotesOnly(pol, q, w.now, log1, st.log)
    requires forall id: nat, d: nat ::
               && RowsSince(pol, log1, p, id, d) == RowsSince(pol, w.log, p, id, d)
               && RowsBy(pol, log1, p, id, d) == RowsBy(pol, w.log, p, id, d)
    ensures Untouched(pol, w, Launch(w, q, st), p)
  {
    forall id: nat, d: nat
      ensures RowsSince(pol, st.log, p, id, d) == RowsSince(pol, w.log, p, id, d)
      ensures RowsBy(pol, st.log, p, id, d) == RowsBy(pol, w.log, p, id, d)
      ensures Kept(pol, Launch(w, q, st), p, id, d) == Kept(pol, w, p, id, d)
    {
      NotesOfOther(pol, q, w.now, log1, st.log, p, id, d);
      if st.session.Waiting? {
        SubsAppend(pol, w.submits, Sub(q, st.session.order.id, st.session.today), p, p + 1, id, d);
      }
    }
  }

  lemma OtherReply(pol: Policy, w: World, q: nat, result: Result, p: nat)
    requires WellFormed(pol, w) && p < |w.sessions| && p != q && Active(w, q) && !(result.Thrown? && pol.LateScalp?)
    ensures Untouched(pol, w, Apply(pol, w, Reply(q, result)), p)
  {
    var s, log1 := w.sessions[q], ReplyLog(w, q, result);
    var remaining := if result.Returned? then Settle(pol, s.remaining, s.order.usd, result.ok) else s.remaining;
    AdvanceSound(pol, q, w.now, log1, s.today, s.startMs, remaining, s.done, s.queue);
    forall id: nat, d: nat
      ensures RowsSince(pol, log1, p, id, d) == RowsSince(pol, w.log, p, id, d)
      ensures RowsBy(pol, log1, p, id, d) == RowsBy(pol, w.log, p, id, d)
    {
      RowsAppend(pol, w.log, ReplyEvent(w, q, result), p, id, d);
    }
    OtherLaunch(pol, w, q, log1, Resume(pol, q, w.now, w.log, s, result), p);
  }

  lemma OtherDrop(pol: Policy, w: World, q: nat, p: nat)
    requires p < |w.sessions| && p != q && Active(w, q)
    ensures Untouched(pol, w, Drop(w, q), p)
  {
    forall id: nat, d: nat ensures Kept(pol, Drop(w, q), p, id, d) == Kept(pol, w, p, id, d) {
      SubsAppend(pol, w.lost, Sub(q, w.sessions[q].order.id, w.sessions[q].today), p, p + 1, id, d);
    }
  }

  lemma OtherStep(pol: Policy, w: World, step: Step, p: nat)
    requires WellFormed(pol, w) && p < |w.sessions|
    requires (step.Begin? || step.Reply? || step.Crash?) ==> step.p != p
    ensures Untouched(pol, w, Apply(pol, w, step), p)
  {
    match step
    case Begin(q) =>
      if q < |w.sessions| && w.sessions[q].Idle? {
        OpenWaiting(pol, w, q);
        OtherLaunch(pol, w, q, w.log, Open(pol, q, w.now, w.log, w.opps), p);
      }
    case Reply(q, result) =>
      if Active(w, q) {
        if result.Thrown? && pol.LateScalp? { OtherDrop(pol, w, q, p); } else { OtherReply(pol, w, q, result, p); }
      }
    case Crash(q) =>
      if Active(w, q) { OtherDrop(pol, w, q, p); }
    case _ =>
  }

  lemma OwnStep(pol: Policy, w: World, step: Step, p: nat)
    requires Inv(pol, w, p) && (step.Begin? || step.Reply? || step.Crash?) && step.p == p
    ensures Mine(pol, Apply(pol, w, step), p)
  {
    match step
    case Begin(_) =>
      if w.sessions[p].Idle? { BeginKeeps(pol, w, p); }
    case Reply(_, result) =>
      if Active(w, p) {
        if result.Thrown? && pol.LateScalp? { DropKeeps(pol, w, p); } else { ReplyKeeps(pol, w, p, result); }
      }
    case Crash(_) =>
      if Active(w, p) { DropKeeps(pol, w, p); }
  }

  lemma ApplyKeeps(pol: Policy, w: World, step: Step, p: nat)
    requires Inv(pol, w, p)
    ensures Inv(pol, Apply(pol, w, step), p)
  {
    ApplyWellFormed(pol, w, step);
    if (step.Begin? || step.Reply? || step.Crash?) && step.p == p {
      OwnStep(pol, w, step, p);
    } else {
      OtherStep(pol, w, step, p);
      UntouchedKeeps(pol, w, Apply(pol, w, step), p);
    }
  }

  lemma {:induction false} RunKeeps(pol: Policy, w: World, steps: seq<Step>, p: nat)
    requires Inv(pol, w, p)
    ensures Inv(pol, Run(pol, w, steps), p)
    decreases |steps|
  {
    if steps != [] {
      ApplyKeeps(pol, w, steps[0], p);
      RunKeeps(pol, Apply(pol, w, steps[0]), steps[1..], p);
    }
  }

  // ---------------------------------------------------------------- theorems

  /**
   In every run an opportunity is submitted by each worker at most once plus once
   per submit of that worker whose outcome was lost (a crash before the append; for
   late-scalp also a throw), and logged by it at most once. For late-scalp both
   hold per date.
   */
  lemma WorkerAtMostOnce(pol: Policy, now: nat, workers: nat, steps: seq<Step>, p: nat, id: nat, d: nat)
    requires p < workers
    ensures var w := Run(pol, Init(now, workers), steps);
            && SubsBy(pol, w.submits, p, id, d) <= 1 + SubsBy(pol, w.lost, p, id, d)
            && RowsBy(pol, w.log, p, id, d) <= 1
  {
    RunKeeps(pol, Init(now, workers), steps, p);
    assert KeptOk(pol, Run(pol, Init(now, workers), steps), p, id, d);
  }

  lemma {:induction false} SubsSplit(pol: Policy, subs: seq<Sub>, n: nat, id: nat, d: nat)
    ensures SubsIn(pol, subs, 0, n + 1, id, d) == SubsIn(pol, subs, 0, n, id, d) + SubsBy(pol, subs, n, id, d)
  {
    if subs != [] { SubsSplit(pol, subs[..|subs| - 1], n, id, d); }
  }

  lemma {:induction false} RowsSplit(pol: Policy, log: Log, n: nat, id: nat, d: nat)
    ensures RowsIn(pol, log, 0, n + 1, id, d) == RowsIn(pol, log, 0, n, id, d) + RowsBy(pol, log, n, id, d)
  {
    if log != [] { RowsSplit(pol, log[..|log| - 1], n, id, d); }
  }

  lemma {:induction false} NobodyBelowZero(pol: Policy, subs: seq<Sub>, log: Log, id: nat, d: nat)
    ensures SubsIn(pol, subs, 0, 0, id, d) == 0 && RowsIn(pol, log, 0, 0, id, d) == 0
    decreases |subs| + |log|
  {
    if subs != [] { NobodyBelowZero(pol, subs[..|subs| - 1], log, id, d); }
    if log != [] { NobodyBelowZero(pol, subs, log[..|log| - 1], id, d); }
  }

  /**
   Together the first n workers submit an opportunity at most n times plus the lost outcomes, and
   log it at most n times.
   */
  lemma {:induction false} AtMostOnceHolds(pol: Policy, now: nat, workers: nat, steps: seq<Step>, n: nat, id: nat,
                                           d: nat)
    requires n <= workers
    ensures var w := Run(pol, Init(now, workers), steps);
            && SubsIn(pol, w.submits, 0, n, id, d) <= n + SubsIn(pol, w.lost, 0, n, id, d)
            && RowsIn(pol, w.log, 0, n, id, d) <= n
  {
    var w := Run(pol, Init(now, workers), steps);
    if n == 0 {
      NobodyBelowZero(pol, w.submits, w.log, id, d);
    } else {
      AtMostOnceHolds(pol, now, workers, steps, n - 1, id, d);
      WorkerAtMostOnce(pol, now, workers, steps, n - 1, id, d);
      SubsSplit(pol, w.submits, n - 1, id, d);
      SubsSplit(pol, w.lost, n - 1, id, d);
      RowsSplit(pol, w.log, n - 1, id, d);
    }
  }
}

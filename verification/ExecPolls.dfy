/**
 What one poll does, told without the loop: which opportunities it looks at, what it decides on each of
 them, where it stops, what it logs on the way and for an answer, and what that leaves for the next poll.
 */
module ExecPolls {
  import opened ExecLog
  import opened ExecMachine
  import Kelly

  // ---------------------------------------------------------------- decisions

  /** A late-scalp order of this size is due: 15 s are left, and it is the smallest limit and at least 50 cents. */
  ghost predicate ScalpDue(cap: real, remaining: real, startMs: nat, o: Opp, usd: real) {
    && o.payload.ScalpPayload? && usd >= 0.5
    && o.payload.remainingSec * 1000.0 - (startMs - o.payload.scanMs) as real >= 15_000.0
    && usd in {cap, remaining, o.payload.capitalRequired}
    && usd <= cap && usd <= remaining && usd <= o.payload.capitalRequired
  }

  lemma ScalpExactly(pol: Policy, startMs: nat, remaining: real, o: Opp, usd: real)
    requires pol.LateScalp?
    ensures Decide(pol, startMs, remaining, o) == Order(usd) <==> ScalpDue(pol.perSignal, remaining, startMs, o, usd)
    ensures !Decide(pol, startMs, remaining, o).Note?
  {
  }

  /** Markov submits what is due, notes a readable opportunity with nothing due, and passes over any other. */
  lemma MarkovExactly(pol: Policy, startMs: nat, remaining: real, o: Opp, usd: real)
    requires pol.Markov?
    ensures Decide(pol, startMs, remaining, o) == Order(usd)
       <==> o.payload.MarkovPayload? && Kelly.Due(o.payload.opportunity, pol.perSignal, remaining, pol.scale, usd)
    ensures Decide(pol, startMs, remaining, o).Pass? <==> !o.payload.MarkovPayload?
  {
    if o.payload.MarkovPayload? {
      Kelly.OrderExactly(o.payload.opportunity, pol.perSignal, remaining, pol.scale, usd);
    }
  }

  lemma ConsensusExactly(pol: Policy, startMs: nat, remaining: real, o: Opp, usd: real)
    requires pol.Consensus?
    ensures Decide(pol, startMs, remaining, o) == Order(usd) <==> o.payload.SignalPayload? && usd == pol.perSignal
    ensures !Decide(pol, startMs, remaining, o).Note?
  {
  }

  // ---------------------------------------------------------------- where a stretch stops

  /** No order may be submitted any more: the running budget is gone, or the date has its count. */
  ghost predicate Exhausted(pol: Policy, remaining: real, log: Log, today: nat) {
    if pol.Consensus? then CountOn(log, today) >= pol.capCount else remaining <= 0.0
  }

  /** The skip notes for a part of the queue, in its order: one for each entry that is not done and is noted. */
  function NotesFor(pol: Policy, worker: nat, nowMs: nat, startMs: nat, remaining: real, done: set<nat>,
                    part: seq<Opp>): Log
  {
    if part == [] then []
    else
      (if part[0].id !in done && Decide(pol, startMs, remaining, part[0]).Note?
       then [ExecEvent(worker, part[0].id, 0.0, Skipped, nowMs)] else [])
      + NotesFor(pol, worker, nowMs, startMs, remaining, done, part[1..])
  }

  /** The entry is gone over: it is done, or there is budget and nothing is ordered for it. */
  ghost predicate Gone(pol: Policy, log: Log, today: nat, startMs: nat, remaining: real, done: set<nat>, o: Opp) {
    o.id in done || (!Exhausted(pol, remaining, log, today) && !Decide(pol, startMs, remaining, o).Order?)
  }

  /** The stretch goes over the first n entries and stops there. */
  ghost predicate StopsAfter(pol: Policy, worker: nat, nowMs: nat, log: Log, today: nat, startMs: nat,
                             remaining: real, done: set<nat>, queue: seq<Opp>, n: nat, st: Stretch)
  {
    && n <= |queue| && st.skipped == n && st.remaining == remaining
    && st.taken == n + (if st.session.Idle? then 0 else 1)
    && st.log == log + NotesFor(pol, worker, nowMs, startMs, remaining, done, queue[..n])
    && (forall i :: 0 <= i < n ==> Gone(pol, log, today, startMs, remaining, done, queue[i]))
    && if n == |queue| then st.session == Idle
       else
         && queue[n].id !in done
         && if Exhausted(pol, remaining, log, today) then st.session == Idle
            else exists usd :: Decide(pol, startMs, remaining, queue[n]) == Order(usd)
                   && st.session == Waiting(today, startMs, remaining, done, queue[n + 1..], InFlight(queue[n].id, usd))
  }

  lemma NotesCons(pol: Policy, worker: nat, nowMs: nat, startMs: nat, remaining: real, done: set<nat>,
                  queue: seq<Opp>, n: nat)
    requires n < |queue|
    ensures NotesFor(pol, worker, nowMs, startMs, remaining, done, queue[..n + 1])
         == (if queue[0].id !in done && Decide(pol, startMs, remaining, queue[0]).Note?
             then [ExecEvent(worker, queue[0].id, 0.0, Skipped, nowMs)] else [])
            + NotesFor(pol, worker, nowMs, startMs, remaining, done, queue[1..][..n])
  {
    assert queue[..n + 1][1..] == queue[1..][..n];
  }

  lemma StopsLater(pol: Policy, worker: nat, nowMs: nat, log: Log, log1: Log, today: nat, startMs: nat,
                   remaining: real, done: set<nat>, queue: seq<Opp>, n: nat, st: Stretch)
    requires queue != [] && StopsAfter(pol, worker, nowMs, log1, today, startMs, remaining, done, queue[1..], n, st)
    requires Exhausted(pol, remaining, log1, today) <==> Exhausted(pol, remaining, log, today)
    requires Gone(pol, log, today, startMs, remaining, done, queue[0])
    requires log1 == log + if queue[0].id !in done && Decide(pol, startMs, remaining, queue[0]).Note?
                           then [ExecEvent(worker, queue[0].id, 0.0, Skipped, nowMs)] else []
    ensures StopsAfter(pol, worker, nowMs, log, today, startMs, remaining, done, queue, n + 1, Skip(st))
  {
    NotesCons(pol, worker, nowMs, startMs, remaining, done, queue, n);
    forall i | 0 <= i < n + 1 ensures Gone(pol, log, today, startMs, remaining, done, queue[i]) {
      if i > 0 { assert queue[i] == queue[1..][i - 1]; }
    }
    if n < |queue| - 1 {
      assert queue[1..][n] == queue[n + 1] && queue[1..][n + 1..] == queue[n + 2..];
    }
  }

  /**
   Between two submits the loop goes over the entries that are done or not worth an order, notes some of them,
   and stops at the end, at the first other one when nothing may be submitted any more, or else with its order.
   */
  lemma {:induction false} StretchExactly(pol: Policy, worker: nat, nowMs: nat, log: Log, today: nat, startMs: nat,
                                          remaining: real, done: set<nat>, queue: seq<Opp>) returns (n: nat)
    ensures StopsAfter(pol, worker, nowMs, log, today, startMs, remaining, done, queue, n,
                       Advance(pol, worker, nowMs, log, today, startMs, remaining, done, queue))
    decreases |queue|
  {
    n := 0;
    if queue == [] {
    } else if queue[0].id in done
           || (!Exhausted(pol, remaining, log, today) && !Decide(pol, startMs, remaining, queue[0]).Order?) {
      var o, rest := queue[0], queue[1..];
      var log1 := log + if o.id !in done && Decide(pol, startMs, remaining, o).Note?
                        then [ExecEvent(worker, o.id, 0.0, Skipped, nowMs)] else [];
      assert log + [] == log;
      n := StretchExactly(pol, worker, nowMs, log1, today, startMs, remaining, done, rest);
      StopsLater(pol, worker, nowMs, log, log1, today, startMs, remaining, done, queue, n,
                 Advance(pol, worker, nowMs, log1, today, startMs, remaining, done, rest));
      n := n + 1;
    } else {
      assert queue[..0] == [] && log + [] == log;
    }
  }

  // ---------------------------------------------------------------- opening a poll

  /** How many seconds back the three executors look. */
  function Horizon(pol: Policy): nat {
    if pol.LateScalp? then 5 * 60 else if pol.Markov? then 2 * 60 * 60 else 30 * 60
  }

  /** The entries a poll goes over: what was logged inside its look-back, in the order of the log. */
  ghost predicate Seen(pol: Policy, opps: seq<Opp>, nowMs: nat, queue: seq<Opp>) {
    Ascending(queue) && forall o :: o in queue <==> o in opps && o.createdAt >= nowMs / 1000 - Horizon(pol)
  }

  /** The entries it takes for done: late-scalp those with a row of the present date, the others those with any row. */
  ghost predicate Deduped(pol: Policy, log: Log, today: nat, done: set<nat>) {
    forall id :: id in done <==> exists e :: e in log && e.source == id && (pol.LateScalp? ==> DateOf(e.at) == today)
  }

  /** The budget it starts with: the cap less the USD of every row of the date, whatever became of the order. */
  function BudgetOf(pol: Policy, log: Log, today: nat): real
    requires !pol.Consensus?
  {
    if log == [] then pol.capUsd
    else BudgetOf(pol, log[1..], today) - if DateOf(log[0].at) == today then log[0].orderUsd else 0.0
  }

  lemma {:induction false} UsdFirst(log: Log, today: nat)
    requires log != []
    ensures UsdOn(log, today) == UsdOn(log[1..], today) + if DateOf(log[0].at) == today then log[0].orderUsd else 0.0
    decreases |log|
  {
    var init := log[..|log| - 1];
    if init == [] {
      assert log[1..] == [] && UsdOn([], today) == 0.0;
    } else {
      UsdFirst(init, today);
      assert log[1..][..|log| - 2] == init[1..];
    }
  }

  lemma {:induction false} BudgetIs(pol: Policy, log: Log, today: nat)
    requires !pol.Consensus?
    ensures Budget(pol, log, today) == BudgetOf(pol, log, today)
    decreases |log|
  {
    if log != [] {
      UsdFirst(log, today);
      BudgetIs(pol, log[1..], today);
    }
  }

  lemma QueueIs(pol: Policy, w: World)
    requires WellFormed(pol, w)
    ensures Seen(pol, w.opps, w.now, Recent(w.opps, LookbackSec(pol), w.now / 1000))
  {
    RecentSound(w.opps, LookbackSec(pol), w.now / 1000);
  }

  lemma DoneIs(pol: Policy, log: Log, today: nat)
    ensures Deduped(pol, log, today, DoneIds(pol, log, today))
  {
  }

  /** The budget of a new poll; consensus has none. */
  function StartBudget(pol: Policy, log: Log, today: nat): real {
    if pol.Consensus? then 0.0 else BudgetOf(pol, log, today)
  }

  /** A poll of an idle worker that has nothing to spend changes nothing; any other goes over what it sees. */
  lemma OpenExactly(pol: Policy, w: World, p: nat) returns (done: set<nat>, queue: seq<Opp>, n: nat, st: Stretch)
    requires WellFormed(pol, w) && p < |w.sessions| && w.sessions[p].Idle?
    ensures Seen(pol, w.opps, w.now, queue) && Deduped(pol, w.log, DateOf(w.now), done)
    ensures var today := DateOf(w.now);
            var budget := StartBudget(pol, w.log, today);
            && StopsAfter(pol, p, w.now, w.log, today, w.now, budget, done, queue, n, st)
            && Apply(pol, w, Begin(p)) == if Exhausted(pol, budget, w.log, today) then w else Launch(w, p, st)
  {
    var today := DateOf(w.now);
    var budget := Budget(pol, w.log, today);
    done, queue := DoneIds(pol, w.log, today), Recent(w.opps, LookbackSec(pol), w.now / 1000);
    QueueIs(pol, w);
    DoneIs(pol, w.log, today);
    n := StretchExactly(pol, p, w.now, w.log, today, w.now, budget, done, queue);
    st := Advance(pol, p, w.now, w.log, today, w.now, budget, done, queue);
    if !pol.Consensus? { BudgetIs(pol, w.log, today); }
    assert w.sessions[p := Idle] == w.sessions;
  }

  /** A stretch replaces the log and the session of its own worker and counts the submit it ends in, if any. */
  lemma LaunchExactly(w: World, p: nat, st: Stretch)
    requires p < |w.sessions|
    ensures var after := Launch(w, p, st);
            && after.now == w.now && after.opps == w.opps && after.lost == w.lost && after.log == st.log
            && |after.sessions| == |w.sessions| && after.sessions[p] == st.session
            && (forall q :: 0 <= q < |w.sessions| && q != p ==> after.sessions[q] == w.sessions[q])
            && after.submits == w.submits
               + if st.session.Waiting? then [Sub(p, st.session.order.id, st.session.today)] else []
  {
  }

  // ---------------------------------------------------------------- answers

  /** The row an answer leaves: the order's id, its USD unless the call threw, and the verdict. */
  ghost predicate RowOf(s: Session, p: nat, now: nat, result: Result, e: ExecEvent) {
    && s.Waiting? && e.worker == p && e.source == s.order.id && e.at == now
    && match result
       case Returned(true) => e.kind == Accepted && e.orderUsd == s.order.usd
       case Returned(false) => e.kind == Rejected && e.orderUsd == s.order.usd
       case Thrown => e.kind == Failed && e.orderUsd == 0.0
  }

  /** What an answer takes off the budget of the poll that is running. */
  function Spent(pol: Policy, s: Session, result: Result): real
    requires s.Waiting?
  {
    if result.Thrown? || pol.Consensus? || (pol.LateScalp? && !result.ok) then 0.0 else s.order.usd
  }

  /** An answer is logged and the loop goes on over the rest of its queue. */
  lemma AnswerExactly(pol: Policy, w: World, p: nat, result: Result) returns (n: nat, e: ExecEvent, st: Stretch)
    requires Active(w, p) && !(result.Thrown? && pol.LateScalp?)
    ensures RowOf(w.sessions[p], p, w.now, result, e)
    ensures var s := w.sessions[p];
            && StopsAfter(pol, p, w.now, w.log + [e], s.today, s.startMs, s.remaining - Spent(pol, s, result), s.done,
                          s.queue, n, st)
            && Apply(pol, w, Reply(p, result)) == Launch(w, p, st)
  {
    var s := w.sessions[p];
    var remaining := s.remaining - Spent(pol, s, result);
    e := ReplyEvent(w, p, result);
    n := StretchExactly(pol, p, w.now, w.log + [e], s.today, s.startMs, remaining, s.done, s.queue);
    st := Advance(pol, p, w.now, w.log + [e], s.today, s.startMs, remaining, s.done, s.queue);
  }

  /** A throw ends a late-scalp poll as a crash would, and a process that dies logs nothing. */
  lemma LostExactly(pol: Policy, w: World, p: nat)
    requires Active(w, p)
    ensures var after := Apply(pol, w, Crash(p));
            && after.now == w.now && after.opps == w.opps && after.log == w.log && after.submits == w.submits
            && after.sessions == w.sessions[p := Idle]
            && after.lost == w.lost + [Sub(p, w.sessions[p].order.id, w.sessions[p].today)]
            && (pol.LateScalp? ==> Apply(pol, w, Reply(p, Thrown)) == after)
  {
  }

  /**
   A rejected late-scalp order costs the running poll nothing, but the next poll of the date starts with
   its USD gone all the same.
   */
  lemma RejectedCostsNextPoll(pol: Policy, w: World, p: nat)
    requires pol.LateScalp? && Active(w, p)
    ensures var s, after := w.sessions[p], Apply(pol, w, Reply(p, Returned(false)));
            && (after.sessions[p].Waiting? ==> after.sessions[p].remaining == s.remaining)
            && Budget(pol, after.log, DateOf(w.now)) == Budget(pol, w.log, DateOf(w.now)) - s.order.usd
  {
    var s, e := w.sessions[p], ReplyEvent(w, p, Returned(false));
    AdvanceSound(pol, p, w.now, w.log + [e], s.today, s.startMs, s.remaining, s.done, s.queue);
    Append(w.log, e, DateOf(w.now), 0);
  }
}

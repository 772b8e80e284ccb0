/**
 When the consensus executor can exceed its daily cap: told from the state of its one worker,
 for a poll that is suspended past midnight and for a worker that is idle before it.
 */
module ConsensusMidnight {
  import opened ConsensusCap
  import opened ExecLog
  import opened ExecMachine

  /** The queued signals a poll would still submit: not done and with a payload that parses. */
  function Orderable(done: set<nat>, queue: seq<Opp>): nat {
    if queue == [] then 0
    else (if queue[0].id !in done && queue[0].payload.SignalPayload? then 1 else 0) + Orderable(done, queue[1..])
  }

  /** The orders a poll has in flight and still to come. */
  function Coming(s: Session): nat {
    if s.Waiting? then 1 + Orderable(s.done, s.queue) else 0
  }

  /** A stretch logs nothing and keeps what is to come, all of it while its own date has room. */
  lemma {:induction false} StretchComing(pol: Policy, p: nat, nowMs: nat, log: Log, today: nat, startMs: nat,
                                         done: set<nat>, queue: seq<Opp>)
    requires pol.Consensus?
    ensures var st := Advance(pol, p, nowMs, log, today, startMs, 0.0, done, queue);
            && st.log == log && Coming(st.session) <= Orderable(done, queue)
            && (CountOn(log, today) < pol.capCount ==> Coming(st.session) == Orderable(done, queue))
            && (st.session.Waiting? ==> st.session.today == today && CountOn(log, today) < pol.capCount)
    decreases |queue|
  {
    if queue != [] && (queue[0].id in done || Decide(pol, startMs, 0.0, queue[0]).Pass?) {
      StretchComing(pol, p, nowMs, log, today, startMs, done, queue[1..]);
    }
  }

  // ---------------------------------------------------------------- what can still be logged

  /** No poll for a date before d can be opened any more. */
  predicate Closed(pol: Policy, w: World, d: nat)
    requires pol.Consensus?
  {
    pol.capCount <= 0 || DateOf(w.now) >= d || (DateOf(w.now) + 1 == d && CountOn(w.log, DateOf(w.now)) >= pol.capCount)
  }

  /** Rows of date d stay below the cap or below `most`, whichever is larger. */
  ghost predicate AtMost(pol: Policy, w: World, d: nat, most: nat) {
    && pol.Consensus? && |w.sessions| == 1 && Closed(pol, w, d) && ZeroBudget(w)
    && CountOn(w.log, d) <= Max(Max(pol.capCount, 0), most)
    && var s := w.sessions[0];
       s.Waiting? ==>
         && s.today <= DateOf(w.now)
         && (s.today < d ==> CountOn(w.log, d) + Coming(s) <= most)
         && (s.today == d ==> CountOn(w.log, d) < pol.capCount)
  }

  lemma BeginAtMost(pol: Policy, w: World, d: nat, most: nat)
    requires AtMost(pol, w, d, most) && w.sessions[0].Idle?
    ensures AtMost(pol, Apply(pol, w, Begin(0)), d, most)
  {
    var today := DateOf(w.now);
    var queue := Recent(w.opps, LookbackSec(pol), w.now / 1000);
    var done := DoneIds(pol, w.log, today);
    StretchComing(pol, 0, w.now, w.log, today, w.now, done, queue);
    AdvanceSound(pol, 0, w.now, w.log, today, w.now, 0.0, done, queue);
  }

  /** What an answer changes: one row on the current date, and what is still to come. */
  ghost predicate Answers(pol: Policy, w: World, next: World, d: nat) {
    && pol.Consensus? && Active(w, 0) && |next.sessions| == |w.sessions| && next.now == w.now
    && CountOn(next.log, d) == CountOn(w.log, d) + (if DateOf(w.now) == d then 1 else 0)
    && CountOn(next.log, DateOf(w.now)) == CountOn(w.log, DateOf(w.now)) + 1
    && var s, after := w.sessions[0], next.sessions[0];
       && Coming(after) < Coming(s)
       && (after.Waiting? ==>
             after.today == s.today && after.remaining == s.remaining && CountOn(next.log, s.today) < pol.capCount)
       && (CountOn(next.log, s.today) < pol.capCount ==> Coming(after) + 1 == Coming(s))
  }

  lemma AnswerOne(pol: Policy, w: World, result: Result, d: nat) returns (next: World)
    requires pol.Consensus? && Active(w, 0) && w.sessions[0].remaining == 0.0
    ensures next == Apply(pol, w, Reply(0, result)) && Answers(pol, w, next, d)
  {
    var s, log1 := w.sessions[0], ReplyLog(w, 0, result);
    next := Apply(pol, w, Reply(0, result));
    Append(w.log, ReplyEvent(w, 0, result), d, 0);
    Append(w.log, ReplyEvent(w, 0, result), DateOf(w.now), 0);
    StretchComing(pol, 0, w.now, log1, s.today, s.startMs, s.done, s.queue);
    AdvanceSound(pol, 0, w.now, log1, s.today, s.startMs, 0.0, s.done, s.queue);
  }

  lemma AnsweredAtMost(pol: Policy, w: World, next: World, d: nat, most: nat)
    requires AtMost(pol, w, d, most) && Answers(pol, w, next, d)
    ensures AtMost(pol, next, d, most)
  {
  }

  lemma ReplyAtMost(pol: Policy, w: World, result: Result, d: nat, most: nat)
    requires AtMost(pol, w, d, most) && Active(w, 0)
    ensures AtMost(pol, Apply(pol, w, Reply(0, result)), d, most)
  {
    var next := AnswerOne(pol, w, result, d);
    AnsweredAtMost(pol, w, next, d, most);
  }

  lemma ApplyAtMost(pol: Policy, w: World, step: Step, d: nat, most: nat)
    requires AtMost(pol, w, d, most)
    ensures AtMost(pol, Apply(pol, w, step), d, most)
  {
    if step.Begin? && step.p == 0 && w.sessions[0].Idle? {
      BeginAtMost(pol, w, d, most);
    } else if step.Reply? && Active(w, step.p) {
      ReplyAtMost(pol, w, step.result, d, most);
    }
  }

  lemma {:induction false} RunAtMost(pol: Policy, w: World, steps: seq<Step>, d: nat, most: nat)
    requires AtMost(pol, w, d, most)
    ensures AtMost(pol, Run(pol, w, steps), d, most)
    decreases |steps|
  {
    if steps != [] {
      ApplyAtMost(pol, w, steps[0], d, most);
      RunAtMost(pol, Apply(pol, w, steps[0]), steps[1..], d, most);
    }
  }

  // ---------------------------------------------------------------- how to log it

  function Fills(m: nat): seq<Step> {
    if m == 0 then [] else [Reply(0, Returned(true))] + Fills(m - 1)
  }

  /** One worker, suspended on date d in a poll of an earlier date that still has room. */
  ghost predicate Suspended(pol: Policy, w: World, d: nat) {
    && pol.Consensus? && |w.sessions| == 1 && DateOf(w.now) == d
    && var s := w.sessions[0];
       s.Waiting? && s.today < d && s.remaining == 0.0 && CountOn(w.log, s.today) < pol.capCount
  }

  /** m orders are still to come, all for date d. */
  ghost predicate Filling(pol: Policy, w: World, d: nat, m: nat) {
    |w.sessions| == 1 && Coming(w.sessions[0]) == m && (m > 0 ==> Suspended(pol, w, d))
  }

  /** The first accepted answer, and the world it leads to. */
  lemma FillNext(pol: Policy, w: World, d: nat, m: nat) returns (next: World)
    requires Filling(pol, w, d, m + 1)
    ensures Run(pol, w, Fills(m + 1)) == Run(pol, next, Fills(m))
    ensures Filling(pol, next, d, m) && CountOn(next.log, d) == CountOn(w.log, d) + 1
  {
    next := AnswerOne(pol, w, Returned(true), d);
    var same := AnswerOne(pol, w, Returned(true), w.sessions[0].today);
    FirstStep(pol, w, Reply(0, Returned(true)), Fills(m));
  }

  /** Accepting everything that is still to come logs all of it on date d. */
  lemma {:induction false} FillsRun(pol: Policy, w: World, d: nat, m: nat)
    requires Filling(pol, w, d, m)
    ensures CountOn(Run(pol, w, Fills(m)).log, d) == CountOn(w.log, d) + m
    decreases m
  {
    if m > 0 {
      var next := FillNext(pol, w, d, m - 1);
      FillsRun(pol, next, d, m - 1);
    }
  }

  ghost predicate CanExceed(pol: Policy, w: World, d: nat)
    requires pol.Consensus?
  {
    exists more :: CountOn(Run(pol, w, more).log, d) > Max(pol.capCount, 0)
  }

  lemma CannotExceed(pol: Policy, w: World, d: nat, most: nat)
    requires AtMost(pol, w, d, most) && most <= Max(pol.capCount, 0)
    ensures !CanExceed(pol, w, d)
  {
    forall more
      ensures CountOn(Run(pol, w, more).log, d) <= Max(pol.capCount, 0)
    {
      RunAtMost(pol, w, more, d, most);
    }
  }

  // ---------------------------------------------------------------- suspended past midnight

  /** In a reachable state a waiting worker's own date has room, and its poll did not start in the future. */
  lemma WaitingHasRoom(pol: Policy, now: nat, steps: seq<Step>)
    requires pol.Consensus?
    ensures var w := Run(pol, Init(now, 1), steps);
            && |w.sessions| == 1 && ZeroBudget(w)
            && var s := w.sessions[0];
               s.Waiting? ==> CountOn(w.log, s.today) < pol.capCount && s.today <= DateOf(w.now)
  {
    var w := Run(pol, Init(now, 1), steps);
    RunKeepsInv(pol, Init(now, 1), steps, 0, 0);
    RunKeepsZero(pol, Init(now, 1), steps, 0, 0);
    if w.sessions[0].Waiting? {
      RunKeepsInv(pol, Init(now, 1), steps, w.sessions[0].today, 0);
    }
  }

  lemma {:induction false} RunKeepsZero(pol: Policy, w: World, steps: seq<Step>, d: nat, late: nat)
    requires Inv(pol, w, d, late) && ZeroBudget(w)
    ensures ZeroBudget(Run(pol, w, steps))
    decreases |steps|
  {
    if steps != [] {
      ApplyKeepsInv(pol, w, steps[0], d, late);
      RunKeepsZero(pol, Apply(pol, w, steps[0]), steps[1..], d, late + Late(pol, w, steps[0], d));
    }
  }

  /**
   A poll that is suspended on a later date than it started on can still put more rows on that date than
   the cap allows if and only if the rows already there, the order in flight and the queued signals that
   are not done and parse come to more than the cap.
   */
  lemma SuspendedExactly(pol: Policy, now: nat, steps: seq<Step>)
    requires pol.Consensus?
    requires var w := Run(pol, Init(now, 1), steps);
             w.sessions != [] && w.sessions[0].Waiting? && w.sessions[0].today < DateOf(w.now)
    ensures var w := Run(pol, Init(now, 1), steps);
            var d, s := DateOf(w.now), w.sessions[0];
            CanExceed(pol, w, d) <==> CountOn(w.log, d) + 1 + Orderable(s.done, s.queue) > pol.capCount
  {
    var w := Run(pol, Init(now, 1), steps);
    var d := DateOf(w.now);
    WaitingHasRoom(pol, now, steps);
    var m := Coming(w.sessions[0]);
    if CountOn(w.log, d) + m > pol.capCount {
      FillsRun(pol, w, d, m);
      assert CountOn(Run(pol, w, Fills(m)).log, d) > Max(pol.capCount, 0);
    } else {
      CannotExceed(pol, w, d, CountOn(w.log, d) + m);
    }
  }

  // ---------------------------------------------------------------- idle before midnight

  function Signals(m: nat): seq<Step> {
    if m == 0 then [] else [Offer(SignalPayload)] + Signals(m - 1)
  }

  /** The opportunities m new signals become. */
  function NewOpps(id: nat, createdAt: nat, m: nat): seq<Opp>
    decreases m
  {
    if m == 0 then [] else [Opp(id, createdAt, SignalPayload)] + NewOpps(id + 1, createdAt, m - 1)
  }

  lemma Appended(a: seq<Opp>, o: Opp, rest: seq<Opp>)
    ensures a + [o] + rest == a + ([o] + rest)
  {
  }

  lemma {:induction false} SignalsRun(pol: Policy, w: World, m: nat)
    ensures Run(pol, w, Signals(m)) == w.(opps := w.opps + NewOpps(|w.opps|, w.now / 1000, m))
    decreases m
  {
    if m == 0 {
      assert w.opps + [] == w.opps;
    } else {
      var n, sec := |w.opps|, w.now / 1000;
      var w' := w.(opps := w.opps + [Opp(n, sec, SignalPayload)]);
      FirstStep(pol, w, Offer(SignalPayload), Signals(m - 1));
      SignalsRun(pol, w', m - 1);
      Appended(w.opps, Opp(n, sec, SignalPayload), NewOpps(n + 1, sec, m - 1));
    }
  }

  /** The look-back keeps new signals at the end of whatever it finds before them. */
  lemma {:induction false} RecentWithNew(opps: seq<Opp>, added: seq<Opp>, lookback: nat, nowSec: nat)
    requires Recent(added, lookback, nowSec) == added
    ensures Recent(opps + added, lookback, nowSec) == Recent(opps, lookback, nowSec) + added
  {
    if opps == [] {
      assert opps + added == added && [] + added == added;
    } else {
      assert (opps + added)[1..] == opps[1..] + added;
      RecentWithNew(opps[1..], added, lookback, nowSec);
    }
  }

  lemma {:induction false} NewOppsRecent(id: nat, createdAt: nat, m: nat, lookback: nat)
    ensures Recent(NewOpps(id, createdAt, m), lookback, createdAt) == NewOpps(id, createdAt, m)
    decreases m
  {
    if m > 0 { NewOppsRecent(id + 1, createdAt, m - 1, lookback); }
  }

  /** New signals are all orderable when no id in the dedup set is as high as theirs. */
  lemma {:induction false} NewOrderable(done: set<nat>, queue: seq<Opp>, id: nat, createdAt: nat, m: nat)
    requires forall i :: i in done ==> i < id
    ensures Orderable(done, queue + NewOpps(id, createdAt, m)) >= m
    decreases |queue| + m
  {
    var added := NewOpps(id, createdAt, m);
    if queue != [] {
      assert (queue + added)[1..] == queue[1..] + added;
      NewOrderable(done, queue[1..], id, createdAt, m);
    } else if m > 0 {
      assert queue + added == added && [] + added[1..] == added[1..] == NewOpps(id + 1, createdAt, m - 1);
      NewOrderable(done, [], id + 1, createdAt, m - 1);
    }
  }

  /** Every row answers an opportunity there is. */
  ghost predicate Sourced(w: World) {
    forall e :: e in w.log ==> e.source < |w.opps|
  }

  lemma ApplySourced(pol: Policy, w: World, step: Step)
    requires pol.Consensus? && WellFormed(pol, w) && Sourced(w) && |w.sessions| == 1 && ZeroBudget(w)
    ensures Sourced(Apply(pol, w, step))
  {
    if step.Begin? && step.p == 0 && w.sessions[0].Idle? {
      var today := DateOf(w.now);
      StretchComing(pol, 0, w.now, w.log, today, w.now, DoneIds(pol, w.log, today),
                    Recent(w.opps, LookbackSec(pol), w.now / 1000));
    } else if step.Reply? && Active(w, step.p) {
      var s := w.sessions[0];
      StretchComing(pol, 0, w.now, ReplyLog(w, 0, step.result), s.today, s.startMs, s.done, s.queue);
    }
  }

  lemma {:induction false} RunSourced(pol: Policy, w: World, steps: seq<Step>, d: nat, late: nat)
    requires Inv(pol, w, d, late) && ZeroBudget(w) && Sourced(w)
    ensures Sourced(Run(pol, w, steps))
    decreases |steps|
  {
    if steps != [] {
      ApplySourced(pol, w, steps[0]);
      ApplyKeepsInv(pol, w, steps[0], d, late);
      RunSourced(pol, Apply(pol, w, steps[0]), steps[1..], d, late + Late(pol, w, steps[0], d));
    }
  }

  lemma {:induction false} IdsKnown(log: Log, n: nat)
    requires forall e :: e in log ==> e.source < n
    ensures forall i :: i in AllIds(log) ==> i < n
  {
    if log != [] {
      assert log[|log| - 1] in log;
      IdsKnown(log[..|log| - 1], n);
    }
  }

  /** One idle worker in the last millisecond before date d, on a date with room. */
  ghost predicate Eve(pol: Policy, w: World, d: nat) {
    && pol.Consensus? && w.sessions == [Idle] && Sourced(w)
    && w.now + 1 == d * MS_PER_DAY && CountOn(w.log, d - 1) < pol.capCount
  }

  lemma EveDates(now: nat, d: nat)
    requires now + 1 == d * MS_PER_DAY
    ensures d > 0 && DateOf(now) == d - 1 && DateOf(now + 1) == d
  {
  }

  /** A poll that opens then with m new signals is suspended past midnight with at least m orders to come. */
  lemma EvePoll(pol: Policy, w: World, d: nat, m: nat)
    requires Eve(pol, w, d) && m > 0
    ensures var w' := Run(pol, w, Signals(m) + [Begin(0), Tick(1)]);
            Suspended(pol, w', d) && Coming(w'.sessions[0]) >= m && w'.log == w.log
  {
    var w1 := w.(opps := w.opps + NewOpps(|w.opps|, w.now / 1000, m));
    EveDates(w.now, d);
    SignalsRun(pol, w, m);
    RunConcat(pol, w, Signals(m), [Begin(0), Tick(1)]);
    OpenOnEve(pol, w, d, m);
    var w2 := Apply(pol, w1, Begin(0));
    FirstStep(pol, w1, Begin(0), [Tick(1)]);
    FirstStep(pol, w2, Tick(1), []);
    assert [Begin(0)] + [Tick(1)] == [Begin(0), Tick(1)] && [Tick(1)] + [] == [Tick(1)];
  }

  /** The poll itself, with the signals in place. */
  lemma OpenOnEve(pol: Policy, w: World, d: nat, m: nat)
    requires Eve(pol, w, d) && m > 0 && DateOf(w.now) == d - 1
    ensures var st := Open(pol, 0, w.now, w.log, w.opps + NewOpps(|w.opps|, w.now / 1000, m));
            && st.log == w.log && Coming(st.session) >= m
            && st.session.today == d - 1 && st.session.remaining == 0.0
  {
    var sec, added := w.now / 1000, NewOpps(|w.opps|, w.now / 1000, m);
    var before := Recent(w.opps, LookbackSec(pol), sec);
    var done, queue := DoneIds(pol, w.log, d - 1), Recent(w.opps + added, LookbackSec(pol), sec);
    NewOppsRecent(|w.opps|, sec, m, LookbackSec(pol));
    RecentWithNew(w.opps, added, LookbackSec(pol), sec);
    IdsKnown(w.log, |w.opps|);
    NewOrderable(done, before, |w.opps|, sec, m);
    StretchComing(pol, 0, w.now, w.log, d - 1, w.now, done, queue);
    AdvanceSound(pol, 0, w.now, w.log, d - 1, w.now, 0.0, done, queue);
  }

  function Wait(w: World, d: nat): nat
    requires DateOf(w.now) < d
    ensures w.now + Wait(w, d) + 1 == d * MS_PER_DAY
  {
    d * MS_PER_DAY - 1 - w.now
  }

  /** Waiting for the eve, opening a poll on enough signals and accepting everything after midnight. */
  lemma EveExceeds(pol: Policy, w: World, d: nat)
    requires Eve(pol, w, d)
    ensures CanExceed(pol, w, d)
  {
    var m := pol.capCount + 1;
    var steps := Signals(m) + [Begin(0), Tick(1)];
    var w' := Run(pol, w, steps);
    EvePoll(pol, w, d, m);
    FillsRun(pol, w', d, Coming(w'.sessions[0]));
    var fills := Fills(Coming(w'.sessions[0]));
    RunConcat(pol, w, steps, fills);
    assert CountOn(Run(pol, w, steps + fills).log, d) > Max(pol.capCount, 0);
  }

  lemma ExceedsLater(pol: Policy, w: World, step: Step, d: nat)
    requires pol.Consensus? && CanExceed(pol, Apply(pol, w, step), d)
    ensures CanExceed(pol, w, d)
  {
    var more :| CountOn(Run(pol, Apply(pol, w, step), more).log, d) > Max(pol.capCount, 0);
    assert ([step] + more)[1..] == more;
    assert CountOn(Run(pol, w, [step] + more).log, d) > Max(pol.capCount, 0);
  }

  /** An idle worker before date d: nothing of d is logged yet, nor of any later date than its own. */
  lemma IdleReachable(pol: Policy, now: nat, steps: seq<Step>, d: nat)
    requires pol.Consensus? && DateOf(Run(pol, Init(now, 1), steps).now) < d
    ensures var w := Run(pol, Init(now, 1), steps); Sourced(w) && ZeroBudget(w) && CountOn(w.log, d) == 0
    ensures forall e :: e in Run(pol, Init(now, 1), steps).log ==> e.at <= Run(pol, Init(now, 1), steps).now
  {
    var w := Run(pol, Init(now, 1), steps);
    RunKeepsInv(pol, Init(now, 1), steps, 0, 0);
    RunKeepsZero(pol, Init(now, 1), steps, 0, 0);
    RunSourced(pol, Init(now, 1), steps, 0, 0);
    NoRows(w.log, d);
  }

  /**
   From a reachable state in which the worker is idle before date d, the rows of d can still exceed the cap
   if and only if the cap is positive and a poll can still be opened on the date before d: that date lies
   ahead or has room.
   */
  lemma IdleExactly(pol: Policy, now: nat, steps: seq<Step>, d: nat)
    requires pol.Consensus?
    requires var w := Run(pol, Init(now, 1), steps); w.sessions == [Idle] && DateOf(w.now) < d
    ensures var w := Run(pol, Init(now, 1), steps);
            CanExceed(pol, w, d)
            <==> pol.capCount > 0 && (DateOf(w.now) + 1 < d || CountOn(w.log, DateOf(w.now)) < pol.capCount)
  {
    var w := Run(pol, Init(now, 1), steps);
    IdleReachable(pol, now, steps, d);
    if Closed(pol, w, d) {
      CannotExceed(pol, w, d, 0);
    } else {
      if DateOf(w.now) + 1 < d {
        NoRows(w.log, d - 1);
      }
      var eve := Apply(pol, w, Tick(Wait(w, d)));
      EveExceeds(pol, eve, d);
      ExceedsLater(pol, w, Tick(Wait(w, d)), d);
    }
  }
}

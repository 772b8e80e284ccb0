/**
 When one late-scalp worker can execute an opportunity twice although no outcome is lost:
 exactly when a poll at the first midnight after the offer, with the whole cap, would order it.
 */
module LateScalpOnce {
  import opened ExecLog
  import opened ExecMachine
  import opened AtMostOnce
  import opened SubmitAccounts
  import opened LateScalpDates

  /** A poll at t, not before `since`, sees the opportunity and finds it worth an order with the whole cap. */
  predicate Worth(pol: Policy, since: nat, t: nat, o: Opp)
    requires pol.LateScalp?
  {
    since <= t && Seen(o.createdAt, t) && Decide(pol, t, pol.capUsd, o).Order?
  }

  /** What is worth an order with less left is worth one with the whole cap. */
  lemma MoreBudget(pol: Policy, t: nat, remaining: real, o: Opp)
    requires pol.LateScalp? && remaining <= pol.capUsd && Decide(pol, t, remaining, o).Order?
    ensures Decide(pol, t, pol.capUsd, o).Order?
  {
  }

  lemma {:induction false} SpentIsPositive(log: Log, d: nat)
    requires forall e :: e in log ==> e.orderUsd >= 0.0
    ensures UsdOn(log, d) >= 0.0
  {
    if log != [] {
      assert log[|log| - 1] in log;
      SpentIsPositive(log[..|log| - 1], d);
    }
  }

  // ---------------------------------------------------------------- what a submit call says

  /** The order a session waits for was worth it when its poll started. */
  ghost predicate SessionWorth(pol: Policy, since: nat, w: World, s: Session)
    requires pol.LateScalp?
  {
    s.Waiting? ==>
      && s.remaining <= pol.capUsd && s.today == DateOf(s.startMs) && s.order.id < |w.opps|
      && Worth(pol, since, s.startMs, w.opps[s.order.id])
  }

  ghost predicate SubWorth(pol: Policy, since: nat, w: World, s: Sub)
    requires pol.LateScalp?
  {
    s.id < |w.opps| && exists t: nat :: DateOf(t) == s.today && Worth(pol, since, t, w.opps[s.id])
  }

  ghost predicate Inv(pol: Policy, since: nat, w: World) {
    && pol.LateScalp? && WellFormed(pol, w) && since <= w.now
    && (forall p :: 0 <= p < |w.sessions| ==>
          SessionWorth(pol, since, w, w.sessions[p])
          && (w.sessions[p].Waiting? ==> since <= w.sessions[p].startMs))
    && (forall s :: s in w.submits ==> SubWorth(pol, since, w, s))
  }

  /** A stretch that stops at an order, from at most the whole cap. */
  lemma StretchWorth(pol: Policy, since: nat, w: World, p: nat, log: Log, today: nat, startMs: nat, remaining: real,
                     done: set<nat>, queue: seq<Opp>)
    requires pol.LateScalp? && WellFormed(pol, w) && remaining <= pol.capUsd && since <= startMs
    requires today == DateOf(startMs)
    requires forall o :: o in queue ==> o in w.opps && Seen(o.createdAt, startMs)
    ensures SessionWorth(pol, since, w, Advance(pol, p, w.now, log, today, startMs, remaining, done, queue).session)
  {
    var st := Advance(pol, p, w.now, log, today, startMs, remaining, done, queue);
    AdvanceSound(pol, p, w.now, log, today, startMs, remaining, done, queue);
    if st.session.Waiting? {
      var o := queue[st.taken - 1];
      assert o in queue && o in w.opps && o == w.opps[o.id];
      MoreBudget(pol, startMs, remaining, o);
    }
  }

  lemma BeginWorth(pol: Policy, since: nat, w: World, p: nat)
    requires Inv(pol, since, w) && p < |w.sessions|
    ensures SessionWorth(pol, since, w, Open(pol, p, w.now, w.log, w.opps).session)
  {
    var today := DateOf(w.now);
    var queue := Recent(w.opps, LookbackSec(pol), w.now / 1000);
    OppsAscend(pol, w);
    RecentSound(w.opps, LookbackSec(pol), w.now / 1000);
    SpentIsPositive(w.log, today);
    StretchWorth(pol, since, w, p, w.log, today, w.now, Budget(pol, w.log, today), DoneIds(pol, w.log, today), queue);
  }

  lemma OppsAscend(pol: Policy, w: World)
    requires WellFormed(pol, w)
    ensures Ascending(w.opps)
  {
  }

  lemma ReplyWorth(pol: Policy, since: nat, w: World, p: nat, ok: bool)
    requires Inv(pol, since, w) && Active(w, p)
    ensures SessionWorth(pol, since, w, Resume(pol, p, w.now, w.log, w.sessions[p], Returned(ok)).session)
  {
    var s := w.sessions[p];
    StretchWorth(pol, since, w, p, ReplyLog(w, p, Returned(ok)), s.today, s.startMs,
                 Settle(pol, s.remaining, s.order.usd, ok), s.done, s.queue);
  }

  /** A worker that moves on to such a session, with the submit call it makes. */
  lemma LaunchWorth(pol: Policy, since: nat, w: World, p: nat, st: Stretch)
    requires Inv(pol, since, w) && p < |w.sessions| && SessionWorth(pol, since, w, st.session)
    requires WellFormed(pol, Launch(w, p, st))
    ensures Inv(pol, since, Launch(w, p, st))
  {
    var w' := Launch(w, p, st);
    forall s | s in w'.submits
      ensures SubWorth(pol, since, w', s)
    {
      if s in w.submits {
        assert SubWorth(pol, since, w, s);
      } else {
        assert DateOf(st.session.startMs) == s.today;
      }
    }
  }

  lemma OfferWorth(pol: Policy, since: nat, w: World, payload: Payload)
    requires Inv(pol, since, w)
    ensures Inv(pol, since, Apply(pol, w, Offer(payload)))
  {
    var w' := Apply(pol, w, Offer(payload));
    ApplyWellFormed(pol, w, Offer(payload));
    forall s | s in w'.submits
      ensures SubWorth(pol, since, w', s)
    {
      assert SubWorth(pol, since, w, s);
    }
  }

  lemma DropWorth(pol: Policy, since: nat, w: World, p: nat)
    requires Inv(pol, since, w) && Active(w, p) && WellFormed(pol, Drop(w, p))
    ensures Inv(pol, since, Drop(w, p))
  {
    forall s | s in w.submits
      ensures SubWorth(pol, since, Drop(w, p), s)
    {
      assert SubWorth(pol, since, w, s);
    }
  }

  lemma ApplyWorth(pol: Policy, since: nat, w: World, step: Step)
    requires Inv(pol, since, w)
    ensures Inv(pol, since, Apply(pol, w, step))
  {
    ApplyWellFormed(pol, w, step);
    match step
    case Tick(ms) => TickWorth(pol, since, w, ms);
    case Offer(payload) => OfferWorth(pol, since, w, payload);
    case Begin(p) =>
      if p < |w.sessions| && w.sessions[p].Idle? {
        BeginWorth(pol, since, w, p);
        LaunchWorth(pol, since, w, p, Open(pol, p, w.now, w.log, w.opps));
      }
    case Reply(p, result) =>
      if Active(w, p) {
        match result
        case Returned(ok) =>
          ReplyWorth(pol, since, w, p, ok);
          LaunchWorth(pol, since, w, p, Resume(pol, p, w.now, w.log, w.sessions[p], result));
        case Thrown => DropWorth(pol, since, w, p);
      }
    case Crash(p) => if Active(w, p) { DropWorth(pol, since, w, p); }
  }

  lemma TickWorth(pol: Policy, since: nat, w: World, ms: nat)
    requires Inv(pol, since, w)
    ensures Inv(pol, since, Apply(pol, w, Tick(ms)))
  {
    ApplyWellFormed(pol, w, Tick(ms));
    forall s | s in w.submits
      ensures SubWorth(pol, since, w.(now := w.now + ms), s)
    {
      assert SubWorth(pol, since, w, s);
    }
  }

  lemma {:induction false} RunWorth(pol: Policy, since: nat, w: World, steps: seq<Step>)
    requires Inv(pol, since, w)
    ensures Inv(pol, since, Run(pol, w, steps))
    decreases |steps|
  {
    if steps != [] {
      ApplyWorth(pol, since, w, steps[0]);
      RunWorth(pol, since, Apply(pol, w, steps[0]), steps[1..]);
    }
  }

  // ---------------------------------------------------------------- twice exactly

  lemma {:induction false} SomeOfTotal(pol: Policy, subs: seq<Sub>, n: nat, id: nat, d: nat)
    ensures SubsIn(pol, subs, 0, n, id, d) <= Total(subs, id)
  {
    if subs != [] { SomeOfTotal(pol, subs[..|subs| - 1], n, id, d); }
  }

  /** Submit calls of an opportunity on two dates. */
  ghost predicate OnTwoDates(subs: seq<Sub>, id: nat) {
    exists a, b :: a in subs && b in subs && a.id == id && b.id == id && a.today < b.today
  }

  lemma OneDateOnce(pol: Policy, now: nat, steps: seq<Step>, id: nat)
    requires pol.LateScalp? && !OnTwoDates(Run(pol, Init(now, 1), steps).submits, id)
    ensures var w := Run(pol, Init(now, 1), steps); Total(w.submits, id) <= 1 + Total(w.lost, id)
  {
    var w := Run(pol, Init(now, 1), steps);
    RunKeepsDates(pol, Init(now, 1), steps);
    if s :| s in w.submits && s.id == id {
      forall x | x in w.submits && x.id == id
        ensures x.today == s.today
      {
      }
      TotalByDate(pol, w.submits, 1, id, s.today, s.today);
      AtMostOnceHolds(pol, now, 1, steps, 1, id, s.today);
      SomeOfTotal(pol, w.lost, 1, id, s.today);
    } else {
      TotalOfNone(w.submits, id);
    }
  }

  lemma {:induction false} OffersStay(pol: Policy, w: World, steps: seq<Step>, o: Opp)
    requires w.opps != [] && w.opps[0] == o
    ensures var w' := Run(pol, w, steps); w'.opps != [] && w'.opps[0] == o
    decreases |steps|
  {
    if steps != [] { OffersStay(pol, Apply(pol, w, steps[0]), steps[1..], o); }
  }

  /** The opportunity is offered first; then one worker, the clock and the router do what they like. */
  function After(k: Case, steps: seq<Step>): World {
    Run(k.pol, Init(k.at, 1), [Offer(k.payload)] + steps)
  }

  /** It was submitted a second time although no outcome was lost for it. */
  ghost predicate Twice(k: Case, steps: seq<Step>) {
    Total(After(k, steps).submits, 0) > 1 + Total(After(k, steps).lost, 0)
  }

  /** Polls on two dates that would each order it with the whole cap. */
  ghost predicate TwoDates(k: Case) {
    exists t: nat, u: nat :: k.Orders(t) && k.Orders(u) && DateOf(t) < DateOf(u)
  }

  lemma TwiceNeedsTwoDates(k: Case, steps: seq<Step>)
    requires k.pol.LateScalp? && Twice(k, steps)
    ensures TwoDates(k)
  {
    var w := After(k, steps);
    RunWorth(k.pol, k.at, Init(k.at, 1), [Offer(k.payload)] + steps);
    var w1 := Apply(k.pol, Init(k.at, 1), Offer(k.payload));
    RunFrom(k.pol, Init(k.at, 1), Offer(k.payload), steps, w1);
    OffersStay(k.pol, w1, steps, k.Chance());
    if !OnTwoDates(w.submits, 0) {
      OneDateOnce(k.pol, k.at, [Offer(k.payload)] + steps, 0);
    }
    var a, b :| a in w.submits && b in w.submits && a.id == 0 && b.id == 0 && a.today < b.today;
    assert SubWorth(k.pol, k.at, w, a) && SubWorth(k.pol, k.at, w, b);
    var t: nat :| DateOf(t) == a.today && Worth(k.pol, k.at, t, w.opps[a.id]);
    var u: nat :| DateOf(u) == b.today && Worth(k.pol, k.at, u, w.opps[b.id]);
    assert k.Orders(t) && k.Orders(u);
  }

  /** The first midnight after the opportunity is offered. */
  function Midnight(at: nat): nat {
    (DateOf(at) + 1) * MS_PER_DAY
  }

  lemma MidnightDates(at: nat, u: nat)
    ensures at < Midnight(at) && DateOf(Midnight(at)) == DateOf(at) + 1
    ensures DateOf(u) > DateOf(at) ==> Midnight(at) <= u
  {
  }

  /** An opportunity worth an order at some poll is worth one at every earlier poll since it was offered. */
  lemma WorthBefore(k: Case, t: nat, u: nat)
    requires k.at <= t <= u && k.Orders(u)
    ensures k.Orders(t)
  {
    var scan := k.payload.scanMs;
    assert (t - scan) as real <= (u - scan) as real;
  }

  /** Two such dates exist exactly when it is still worth an order at the first midnight. */
  lemma TwoDatesExactly(k: Case)
    requires k.pol.LateScalp?
    ensures TwoDates(k) <==> k.Orders(Midnight(k.at))
  {
    if t: nat, u: nat :| k.Orders(t) && k.Orders(u) && DateOf(t) < DateOf(u) {
      DateMonotone(k.at, t);
      MidnightDates(k.at, u);
      WorthBefore(k, Midnight(k.at), u);
    } else if k.Orders(Midnight(k.at)) {
      MidnightDates(k.at, k.at);
      WorthBefore(k, k.at, Midnight(k.at));
    }
  }

  lemma TwiceOnTwoDates(k: Case)
    requires k.pol.LateScalp?
    ensures (exists steps :: Twice(k, steps)) <==> TwoDates(k)
  {
    if TwoDates(k) {
      var t: nat, u: nat :| k.Orders(t) && k.Orders(u) && DateOf(t) < DateOf(u);
      var steps := [Tick(t - k.at)] + (Round(true) + ([Tick(u - t)] + Round(true)));
      TwiceAcrossMidnight(k, t, u, true, true);
      assert TwoPolls(k, t, u, true, true) == [Offer(k.payload)] + steps;
      assert Twice(k, steps);
    }
    forall steps | Twice(k, steps)
      ensures TwoDates(k)
    {
      TwiceNeedsTwoDates(k, steps);
    }
  }

  /**
   One worker can submit the opportunity twice without a lost outcome, by some run, if and only if it is
   still worth an order, with the whole cap, to a poll at the first midnight after it is offered.
   */
  lemma TwiceExactly(k: Case)
    requires k.pol.LateScalp?
    ensures (exists steps :: Twice(k, steps)) <==> k.Orders(Midnight(k.at))
  {
    TwoDatesExactly(k);
    TwiceOnTwoDates(k);
  }
}

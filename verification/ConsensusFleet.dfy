/**
 n consensus workers that open their polls before any of them logs a row reach the limit of cap + n - 1
 rows on one date, without a poll that straddles midnight.
 */
module ConsensusFleet {
  import opened ConsensusCap
  import opened ConsensusMidnight
  import opened ExecLog
  import opened ExecMachine

  /** All waiting polls are of the present date d. */
  ghost predicate OnDay(pol: Policy, w: World, d: nat) {
    && pol.Consensus? && DateOf(w.now) == d && ZeroBudget(w)
    && forall p :: 0 <= p < |w.sessions| && w.sessions[p].Waiting? ==> w.sessions[p].today == d
  }

  lemma DayStep(pol: Policy, w: World, step: Step, d: nat)
    requires OnDay(pol, w, d) && !step.Tick?
    ensures OnDay(pol, Apply(pol, w, step), d) && Late(pol, w, step, d) == 0
  {
    if step.Begin? && step.p < |w.sessions| && w.sessions[step.p].Idle? {
      var queue := Recent(w.opps, LookbackSec(pol), w.now / 1000);
      AdvanceSound(pol, step.p, w.now, w.log, d, w.now, 0.0, DoneIds(pol, w.log, d), queue);
    } else if step.Reply? && Active(w, step.p) {
      var s := w.sessions[step.p];
      AdvanceSound(pol, step.p, w.now, ReplyLog(w, step.p, step.result), s.today, s.startMs, 0.0, s.done, s.queue);
    }
  }

  predicate NoTicks(steps: seq<Step>) {
    forall k :: 0 <= k < |steps| ==> !steps[k].Tick?
  }

  lemma {:induction false} NothingStraddles(pol: Policy, w: World, steps: seq<Step>, d: nat)
    requires OnDay(pol, w, d) && NoTicks(steps)
    ensures Straddled(pol, w, steps, d) == 0 && OnDay(pol, Run(pol, w, steps), d)
    decreases |steps|
  {
    if steps != [] {
      DayStep(pol, w, steps[0], d);
      NothingStraddles(pol, Apply(pol, w, steps[0]), steps[1..], d);
    }
  }

  function Begins(p: nat, n: nat): seq<Step>
    requires p <= n
    decreases n - p
  {
    if p == n then [] else [Begin(p)] + Begins(p + 1, n)
  }

  /** One answer for each worker from p on. */
  function Replies(p: nat, n: nat): seq<Step>
    requires p <= n
    decreases n - p
  {
    if p == n then [] else [Reply(p, Returned(true))] + Replies(p + 1, n)
  }

  /**
   Signals for the whole cap, a poll by every worker, answers to the first one but for its last order,
   and then one answer to each.
   */
  function Steps(cap: nat, n: nat): seq<Step>
    requires cap > 0
  {
    Signals(cap) + (Begins(0, n) + (Fills(cap - 1) + Replies(0, n)))
  }

  predicate WaitsOn(s: Session, d: nat) {
    s.Waiting? && s.today == d && s.remaining == 0.0
  }

  ghost predicate Waits(w: World, p: nat, d: nat, coming: nat) {
    p < |w.sessions| && WaitsOn(w.sessions[p], d) && Coming(w.sessions[p]) == coming
  }

  /** A poll opened on the empty log. */
  lemma BeginWaits(pol: Policy, w: World, p: nat, m: nat)
    requires pol.Consensus? && pol.capCount > 0 && m > 0 && w.log == [] && p < |w.sessions| && w.sessions[p] == Idle
    requires w.opps == NewOpps(0, w.now / 1000, m)
    ensures var w' := Apply(pol, w, Begin(p));
            && w' == w.(sessions := w.sessions[p := w'.sessions[p]], submits := w'.submits)
            && Waits(w', p, DateOf(w.now), m)
  {
    var sec, today := w.now / 1000, DateOf(w.now);
    NewOppsRecent(0, sec, m, LookbackSec(pol));
    assert AllIds(w.log) == {};
    AllOrderable(0, sec, m);
    StretchComing(pol, p, w.now, w.log, today, w.now, {}, w.opps);
    AdvanceSound(pol, p, w.now, w.log, today, w.now, 0.0, {}, w.opps);
  }

  lemma {:induction false} AllOrderable(id: nat, createdAt: nat, m: nat)
    ensures Orderable({}, NewOpps(id, createdAt, m)) == m
    decreases m
  {
    if m > 0 { AllOrderable(id + 1, createdAt, m - 1); }
  }

  lemma {:induction false} BeginsRun(pol: Policy, w: World, p: nat, m: nat)
    requires pol.Consensus? && pol.capCount > 0 && m > 0 && w.log == [] && p <= |w.sessions|
    requires w.opps == NewOpps(0, w.now / 1000, m)
    requires forall q :: 0 <= q < |w.sessions| ==>
               if q < p then Waits(w, q, DateOf(w.now), m) else w.sessions[q] == Idle
    ensures var w' := Run(pol, w, Begins(p, |w.sessions|));
            && w'.now == w.now && w'.log == [] && |w'.sessions| == |w.sessions|
            && forall q :: 0 <= q < |w.sessions| ==> Waits(w', q, DateOf(w.now), m)
    decreases |w.sessions| - p
  {
    var n := |w.sessions|;
    if p < n {
      BeginWaits(pol, w, p, m);
      FirstStep(pol, w, Begin(p), Begins(p + 1, n));
      BeginsRun(pol, Apply(pol, w, Begin(p)), p + 1, m);
    }
  }

  /** An answer on the poll's own date: one row more, and one order less to come while there is room. */
  lemma ReplyAdds(pol: Policy, w: World, p: nat, d: nat, coming: nat)
    requires pol.Consensus? && DateOf(w.now) == d && Waits(w, p, d, coming)
    ensures var w' := Apply(pol, w, Reply(p, Returned(true)));
            && w'.now == w.now && CountOn(w'.log, d) == CountOn(w.log, d) + 1
            && w'.sessions == w.sessions[p := w'.sessions[p]] && |w'.sessions| == |w.sessions|
            && (CountOn(w.log, d) + 1 < pol.capCount && coming > 1 ==> Waits(w', p, d, coming - 1))
  {
    var result := Returned(true);
    var s, log1 := w.sessions[p], ReplyLog(w, p, result);
    Append(w.log, ReplyEvent(w, p, result), d, 0);
    StretchComing(pol, p, w.now, log1, s.today, s.startMs, s.done, s.queue);
    AdvanceSound(pol, p, w.now, log1, s.today, s.startMs, 0.0, s.done, s.queue);
  }

  /** The first worker logs j rows and waits for its next order; the others wait as before. */
  lemma {:induction false} FillsFirst(pol: Policy, w: World, d: nat, m: nat, j: nat)
    requires pol.Consensus? && DateOf(w.now) == d && w.sessions != [] && j < m
    requires CountOn(w.log, d) + j < pol.capCount && Waits(w, 0, d, m)
    requires forall q :: 0 < q < |w.sessions| ==> WaitsOn(w.sessions[q], d)
    ensures var w' := Run(pol, w, Fills(j));
            && w'.now == w.now && CountOn(w'.log, d) == CountOn(w.log, d) + j && |w'.sessions| == |w.sessions|
            && Waits(w', 0, d, m - j) && forall q :: 0 < q < |w.sessions| ==> w'.sessions[q] == w.sessions[q]
    decreases j
  {
    if j > 0 {
      ReplyAdds(pol, w, 0, d, m);
      FirstStep(pol, w, Reply(0, Returned(true)), Fills(j - 1));
      FillsFirst(pol, Apply(pol, w, Reply(0, Returned(true))), d, m - 1, j - 1);
    }
  }

  /** One more row for every worker that is still waiting. */
  lemma {:induction false} RepliesRun(pol: Policy, w: World, p: nat, d: nat)
    requires pol.Consensus? && DateOf(w.now) == d && p <= |w.sessions|
    requires forall q :: p <= q < |w.sessions| ==> WaitsOn(w.sessions[q], d)
    ensures CountOn(Run(pol, w, Replies(p, |w.sessions|)).log, d) == CountOn(w.log, d) + (|w.sessions| - p)
    decreases |w.sessions| - p
  {
    var n := |w.sessions|;
    if p < n {
      ReplyAdds(pol, w, p, d, Coming(w.sessions[p]));
      FirstStep(pol, w, Reply(p, Returned(true)), Replies(p + 1, n));
      RepliesRun(pol, Apply(pol, w, Reply(p, Returned(true))), p + 1, d);
    }
  }

  lemma {:induction false} PartsTickless(m: nat, p: nat, n: nat)
    requires p <= n
    ensures NoTicks(Signals(m)) && NoTicks(Fills(m)) && NoTicks(Begins(p, n)) && NoTicks(Replies(p, n))
    decreases m + (n - p)
  {
    if m > 0 {
      PartsTickless(m - 1, p, n);
    } else if p < n {
      PartsTickless(0, p + 1, n);
    }
  }

  lemma Tickless(cap: nat, n: nat)
    requires cap > 0
    ensures NoTicks(Steps(cap, n))
  {
    PartsTickless(cap, 0, n);
    PartsTickless(cap - 1, 0, n);
  }

  /** For every cap and every number of workers: cap + n - 1 rows on one date, none of them straddling. */
  lemma WorkersReachCap(pol: Policy, now: nat, n: nat)
    requires pol.Consensus? && pol.capCount > 0 && n > 0
    ensures var steps := Steps(pol.capCount, n);
            && CountOn(Run(pol, Init(now, n), steps).log, DateOf(now)) == pol.capCount + n - 1
            && Straddled(pol, Init(now, n), steps, DateOf(now)) == 0
  {
    var m, d, w0 := pol.capCount, DateOf(now), Init(now, n);
    Tickless(m, n);
    NothingStraddles(pol, w0, Steps(m, n), d);
    var w2 := AllWaiting(pol, now, n);
    FillsFirst(pol, w2, d, m, m - 1);
    RepliesRun(pol, Run(pol, w2, Fills(m - 1)), 0, d);
    RunConcat(pol, w2, Fills(m - 1), Replies(0, n));
  }

  /** After the signals and the polls all workers wait, on the empty log. */
  lemma AllWaiting(pol: Policy, now: nat, n: nat) returns (w: World)
    requires pol.Consensus? && pol.capCount > 0 && n > 0
    ensures Run(pol, Init(now, n), Steps(pol.capCount, n)) == Run(pol, w, Fills(pol.capCount - 1) + Replies(0, n))
    ensures w.now == now && w.log == [] && |w.sessions| == n && Waits(w, 0, DateOf(now), pol.capCount)
    ensures forall q :: 0 <= q < n ==> WaitsOn(w.sessions[q], DateOf(now))
  {
    var m, w0 := pol.capCount, Init(now, n);
    var w1 := Run(pol, w0, Signals(m));
    var rest := Fills(m - 1) + Replies(0, n);
    w := Run(pol, w1, Begins(0, n));
    SignalsRun(pol, w0, m);
    assert [] + NewOpps(0, now / 1000, m) == NewOpps(0, now / 1000, m);
    BeginsRun(pol, w1, 0, m);
    forall q | 0 <= q < n
      ensures WaitsOn(w.sessions[q], DateOf(now))
    {
      assert Waits(w, q, DateOf(now), m);
    }
    RunConcat(pol, w0, Signals(m), Begins(0, n) + rest);
    RunConcat(pol, w1, Begins(0, n), rest);
  }
}

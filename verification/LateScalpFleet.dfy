/**
 Late-scalp with n workers: polls opened by all of them before any answer submit the same
 opportunity n times on one date, and 2 n times when two dates would order it, with no outcome lost.
 */
module LateScalpFleet {
  import opened ExecLog
  import opened ExecMachine
  import opened AtMostOnce
  import opened SubmitAccounts
  import opened LateScalpDates

  /** A worker that has submitted the opportunity in a poll of time t. */
  function Submitted(k: Case, t: nat): Session
    requires k.Orders(t)
  {
    Waiting(DateOf(t), t, k.pol.capUsd, {}, [], InFlight(0, k.Usd(t)))
  }

  /** Nothing of date d is logged. */
  ghost predicate NoneOn(log: Log, d: nat) {
    forall e :: e in log ==> DateOf(e.at) != d
  }

  lemma {:induction false} NoneOnSums(log: Log, d: nat)
    requires NoneOn(log, d)
    ensures UsdOn(log, d) == 0.0 && IdsOn(log, d) == {}
  {
    if log != [] {
      assert log[|log| - 1] in log;
      NoneOnSums(log[..|log| - 1], d);
    }
  }

  /** The rows and submit calls of the fleet for its one opportunity. */
  function Rows(k: Case, w: World, n: nat, d: nat): nat {
    RowsIn(k.pol, w.log, 0, n, 0, d)
  }

  lemma BeginOne(k: Case, t: nat, w: World, p: nat)
    requires k.Orders(t) && NoneOn(w.log, DateOf(t)) && p < |w.sessions| && w.sessions[p] == Idle
    requires w.now == t && w.opps == [k.Chance()]
    ensures Apply(k.pol, w, Begin(p))
         == w.(sessions := w.sessions[p := Submitted(k, t)], submits := w.submits + [Sub(p, 0, DateOf(t))])
  {
    NoneOnSums(w.log, DateOf(t));
    var opps := [k.Chance()];
    assert opps[1..] == [];
    assert Recent(opps, LOOKBACK_SEC, t / 1000) == opps;
  }

  /** The workers before p are in one state, the others in another. */
  ghost predicate Split(sessions: seq<Session>, p: nat, before: Session, after: Session) {
    forall q :: 0 <= q < |sessions| ==> sessions[q] == if q < p then before else after
  }

  /** What a round of submits changes: sessions and submit calls only. */
  ghost predicate OnlySubmits(w: World, w': World) {
    && w'.now == w.now && w'.opps == w.opps && w'.log == w.log && w'.lost == w.lost
    && |w'.sessions| == |w.sessions|
  }

  /** The workers before p have submitted the opportunity in a poll of time t, the others are idle. */
  ghost predicate Submitting(k: Case, t: nat, w: World, p: nat) {
    && k.Orders(t) && w.now == t && w.opps == [k.Chance()] && NoneOn(w.log, DateOf(t))
    && p <= |w.sessions| && Split(w.sessions, p, Submitted(k, t), Idle)
  }

  lemma BeginNext(k: Case, t: nat, w: World, p: nat) returns (next: World)
    requires Submitting(k, t, w, p) && p < |w.sessions|
    ensures Leads(k.pol, w, next) && OnlySubmits(w, next) && Submitting(k, t, next, p + 1)
    ensures Total(next.submits, 0) == Total(w.submits, 0) + 1
  {
    next := Apply(k.pol, w, Begin(p));
    LeadsStep(k.pol, w, Begin(p));
    BeginOne(k, t, w, p);
    TotalAppend(w.submits, Sub(p, 0, DateOf(t)), 0);
  }

  /** A poll by each worker from p on. */
  lemma {:induction false} BeginsLead(k: Case, t: nat, w: World, p: nat) returns (w': World)
    requires Submitting(k, t, w, p)
    ensures Leads(k.pol, w, w') && OnlySubmits(w, w') && Submitting(k, t, w', |w.sessions|)
    ensures Total(w'.submits, 0) == Total(w.submits, 0) + (|w.sessions| - p)
    decreases |w.sessions| - p
  {
    if p == |w.sessions| {
      w' := w;
      LeadsNowhere(k.pol, w);
    } else {
      var next := BeginNext(k, t, w, p);
      w' := BeginsLead(k, t, next, p + 1);
      LeadsOn(k.pol, w, next, w');
    }
  }

  /** What a round of answers changes: sessions and rows of t's date only. */
  ghost predicate OnlyRows(w: World, w': World, d: nat) {
    && w'.now == w.now && w'.opps == w.opps && w'.submits == w.submits && w'.lost == w.lost
    && |w'.sessions| == |w.sessions|
    && forall e :: e in w'.log ==> e in w.log || DateOf(e.at) == d
  }

  /** The workers before p have been answered, the others wait. */
  ghost predicate Answering(k: Case, t: nat, w: World, p: nat) {
    k.Orders(t) && p <= |w.sessions| && w.now == t && Split(w.sessions, p, Idle, Submitted(k, t))
  }

  lemma ReplyOne(k: Case, t: nat, w: World, p: nat)
    requires k.Orders(t) && p < |w.sessions| && w.now == t && w.sessions[p] == Submitted(k, t)
    ensures Apply(k.pol, w, Reply(p, Returned(true)))
         == w.(sessions := w.sessions[p := Idle], log := w.log + [ExecEvent(p, 0, k.Usd(t), Accepted, t)])
  {
  }

  lemma RowsAppend(k: Case, log: Log, n: nat, e: ExecEvent)
    requires k.pol.LateScalp? && e.worker < n && e.source == 0
    ensures RowsIn(k.pol, log + [e], 0, n, 0, DateOf(e.at)) == RowsIn(k.pol, log, 0, n, 0, DateOf(e.at)) + 1
  {
    assert (log + [e])[..|log|] == log;
  }

  lemma ReplyNext(k: Case, t: nat, w: World, p: nat) returns (next: World)
    requires Answering(k, t, w, p) && p < |w.sessions|
    ensures Leads(k.pol, w, next) && OnlyRows(w, next, DateOf(t)) && Answering(k, t, next, p + 1)
    ensures Rows(k, next, |w.sessions|, DateOf(t)) == Rows(k, w, |w.sessions|, DateOf(t)) + 1
  {
    var e := ExecEvent(p, 0, k.Usd(t), Accepted, t);
    next := w.(sessions := w.sessions[p := Idle], log := w.log + [e]);
    ReplyOne(k, t, w, p);
    LeadsStep(k.pol, w, Reply(p, Returned(true)));
    RowsAppend(k, w.log, |w.sessions|, e);
  }

  /** An answer for each worker from p on. */
  lemma {:induction false} RepliesLead(k: Case, t: nat, w: World, p: nat) returns (w': World)
    requires Answering(k, t, w, p)
    ensures Leads(k.pol, w, w') && OnlyRows(w, w', DateOf(t)) && Answering(k, t, w', |w.sessions|)
    ensures Rows(k, w', |w.sessions|, DateOf(t)) == Rows(k, w, |w.sessions|, DateOf(t)) + (|w.sessions| - p)
    decreases |w.sessions| - p
  {
    if p == |w.sessions| {
      w' := w;
      LeadsNowhere(k.pol, w);
    } else {
      var next := ReplyNext(k, t, w, p);
      w' := RepliesLead(k, t, next, p + 1);
      LeadsOn(k.pol, w, next, w');
    }
  }

  lemma {:induction false} NoRows(pol: Policy, log: Log, n: nat, d: nat)
    requires pol.LateScalp? && NoneOn(log, d)
    ensures RowsIn(pol, log, 0, n, 0, d) == 0
  {
    if log != [] {
      assert log[|log| - 1] in log;
      NoRows(pol, log[..|log| - 1], n, d);
    }
  }

  /** All workers idle at t with nothing lost and nothing of t's date logged. */
  ghost predicate Ready(k: Case, t: nat, w: World) {
    && w.now == t && w.opps == [k.Chance()] && w.lost == [] && NoneOn(w.log, DateOf(t))
    && Split(w.sessions, |w.sessions|, Idle, Idle)
  }

  /** What a round leaves: every worker has submitted the opportunity once more and logged it on d. */
  ghost predicate Done(k: Case, w: World, w': World, d: nat) {
    && w'.now == w.now && w'.opps == w.opps && w'.lost == w.lost && |w'.sessions| == |w.sessions|
    && Split(w'.sessions, |w'.sessions|, Idle, Idle)
    && (forall e :: e in w'.log ==> e in w.log || DateOf(e.at) == d)
    && Total(w'.submits, 0) == Total(w.submits, 0) + |w.sessions| && Rows(k, w', |w.sessions|, d) == |w.sessions|
  }

  /** A poll by every worker and then an answer for every worker. */
  lemma Round(k: Case, t: nat, w: World) returns (w': World)
    requires k.Orders(t) && Ready(k, t, w)
    ensures Leads(k.pol, w, w') && Done(k, w, w', DateOf(t))
  {
    var n := |w.sessions|;
    var w1 := BeginsLead(k, t, w, 0);
    w' := RepliesLead(k, t, w1, 0);
    LeadsOn(k.pol, w, w1, w');
    NoRows(k.pol, w.log, n, DateOf(t));
  }

  /** The opportunity is offered to n idle workers and time passes until t. */
  lemma Offered(k: Case, n: nat, t: nat) returns (w: World)
    requires k.at <= t
    ensures Leads(k.pol, Init(k.at, n), w)
    ensures Ready(k, t, w) && |w.sessions| == n && w.log == [] && w.submits == []
  {
    var w0 := Init(k.at, n);
    var w1 := w0.(opps := [k.Chance()]);
    w := w1.(now := t);
    LeadsStep(k.pol, w0, Offer(k.payload));
    LeadsStep(k.pol, w1, Tick(t - k.at));
    LeadsOn(k.pol, w0, w1, w);
  }

  /** All of n workers have submitted the opportunity once, on the date of t, and are idle. */
  ghost predicate OnceEach(k: Case, n: nat, t: nat, w: World) {
    && w.now == t && w.opps == [k.Chance()] && w.lost == [] && |w.sessions| == n && Split(w.sessions, n, Idle, Idle)
    && Total(w.submits, 0) == n && Rows(k, w, n, DateOf(t)) == n
    && forall e :: e in w.log ==> DateOf(e.at) == DateOf(t)
  }

  /** The first round, on the date of t. */
  lemma FirstRound(k: Case, n: nat, t: nat) returns (w: World)
    requires k.Orders(t)
    ensures Leads(k.pol, Init(k.at, n), w) && OnceEach(k, n, t, w)
  {
    var w1 := Offered(k, n, t);
    w := Round(k, t, w1);
    LeadsOn(k.pol, Init(k.at, n), w1, w);
  }

  /** The limit of one submit and one row by each of n workers on a date is reached. */
  lemma OneDateReached(k: Case, n: nat, t: nat) returns (steps: seq<Step>)
    requires k.Orders(t)
    ensures var w := Run(k.pol, Init(k.at, n), steps);
            Total(w.submits, 0) == n && w.lost == [] && Rows(k, w, n, DateOf(t)) == n
  {
    var w := FirstRound(k, n, t);
    steps :| Run(k.pol, Init(k.at, n), steps) == w;
  }

  /** The same workers at u, where nothing is logged yet. */
  lemma Later(k: Case, n: nat, w: World, t: nat, u: nat) returns (later: World)
    requires t <= u && DateOf(t) != DateOf(u) && OnceEach(k, n, t, w)
    ensures Leads(k.pol, w, later)
    ensures Ready(k, u, later) && |later.sessions| == n && Total(later.submits, 0) == n
  {
    later := w.(now := u);
    LeadsStep(k.pol, w, Tick(u - t));
  }

  /** A second round on another date. */
  lemma SecondRound(k: Case, n: nat, w: World, t: nat, u: nat) returns (w': World)
    requires k.Orders(u) && t <= u && DateOf(t) != DateOf(u) && OnceEach(k, n, t, w)
    ensures Leads(k.pol, w, w') && Total(w'.submits, 0) == n + n && w'.lost == []
  {
    var later := Later(k, n, w, t, u);
    w' := Round(k, u, later);
    LeadsOn(k.pol, w, later, w');
  }

  /** The limit of two submits by each of n workers for a window that spans midnight is reached. */
  lemma TwoDatesReached(k: Case, n: nat, t: nat, u: nat) returns (steps: seq<Step>)
    requires k.Orders(t) && k.Orders(u) && t <= u && DateOf(t) != DateOf(u)
    ensures var w := Run(k.pol, Init(k.at, n), steps); Total(w.submits, 0) == n + n && w.lost == []
  {
    var w := FirstRound(k, n, t);
    var w' := SecondRound(k, n, w, t, u);
    LeadsOn(k.pol, Init(k.at, n), w, w');
    steps :| Run(k.pol, Init(k.at, n), steps) == w';
  }
}

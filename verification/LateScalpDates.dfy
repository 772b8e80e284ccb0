/**
 Late-scalp over several dates. A poll looks back five minutes, so an opportunity is
 seen on one date, or on two when midnight falls inside that window; each date gives
 every worker one submit, plus one per lost outcome. An opportunity whose window spans
 midnight and that is still worth an order at a poll on each date is executed twice,
 and a router that keeps throwing is retried without limit.
 */
module LateScalpDates {
  import opened ExecLog
  import opened ExecMachine
  import opened AtMostOnce
  import opened SubmitAccounts

  const LOOKBACK_SEC := 300

  /** A poll that starts at t sees an opportunity created at second c. */
  predicate Seen(c: nat, t: nat) {
    c <= t / 1000 <= c + LOOKBACK_SEC
  }

  /** First and last UTC date on which a poll can see it. */
  function FirstDate(c: nat): nat {
    DateOf(c * 1000)
  }

  function LastDate(c: nat): nat {
    DateOf((c + LOOKBACK_SEC) * 1000)
  }

  lemma SeenDates(c: nat, t: nat)
    requires Seen(c, t)
    ensures FirstDate(c) <= DateOf(t) <= LastDate(c) <= FirstDate(c) + 1
  {
  }

  /** The window lies on one date exactly when no two polls on different dates see the opportunity. */
  lemma OneDateExactly(c: nat)
    ensures FirstDate(c) == LastDate(c)
       <==> forall t: nat, u: nat :: Seen(c, t) && Seen(c, u) ==> DateOf(t) == DateOf(u)
  {
    forall t: nat | Seen(c, t) ensures FirstDate(c) <= DateOf(t) <= LastDate(c) { SeenDates(c, t); }
    assert Seen(c, c * 1000) && Seen(c, (c + LOOKBACK_SEC) * 1000);
  }

  // ---------------------------------------------------------------- how often at most

  /** Every submit call is by a worker there is and for an opportunity, on a date that sees it. */
  ghost predicate DatesOk(w: World, subs: seq<Sub>) {
    forall s :: s in subs ==>
      s.worker < |w.sessions| && s.id < |w.opps|
      && FirstDate(w.opps[s.id].createdAt) <= s.today <= LastDate(w.opps[s.id].createdAt)
  }

  lemma SessionDates(pol: Policy, w: World, p: nat)
    requires pol.LateScalp? && WellFormed(pol, w) && Active(w, p)
    ensures w.sessions[p].order.id < |w.opps|
    ensures var c := w.opps[w.sessions[p].order.id].createdAt; FirstDate(c) <= w.sessions[p].today <= LastDate(c)
  {
    var s := w.sessions[p];
    SeenDates(w.opps[s.order.id].createdAt, s.startMs);
  }

  lemma LaunchKeepsDates(pol: Policy, w: World, p: nat, st: Stretch)
    requires pol.LateScalp? && DatesOk(w, w.submits) && DatesOk(w, w.lost) && p < |w.sessions|
    requires WellFormed(pol, Launch(w, p, st))
    ensures var w' := Launch(w, p, st); DatesOk(w', w'.submits) && DatesOk(w', w'.lost)
  {
    if st.session.Waiting? {
      SessionDates(pol, Launch(w, p, st), p);
    }
  }

  lemma DropKeepsDates(pol: Policy, w: World, p: nat)
    requires pol.LateScalp? && WellFormed(pol, w) && DatesOk(w, w.submits) && DatesOk(w, w.lost) && Active(w, p)
    ensures var w' := Drop(w, p); DatesOk(w', w'.submits) && DatesOk(w', w'.lost)
  {
    SessionDates(pol, w, p);
  }

  lemma ApplyKeepsDates(pol: Policy, w: World, step: Step)
    requires pol.LateScalp? && WellFormed(pol, w) && DatesOk(w, w.submits) && DatesOk(w, w.lost)
    ensures var w' := Apply(pol, w, step);
            DatesOk(w', w'.submits) && DatesOk(w', w'.lost) && |w'.sessions| == |w.sessions|
  {
    ApplyWellFormed(pol, w, step);
    match step
    case Begin(p) =>
      if p < |w.sessions| && w.sessions[p].Idle? {
        LaunchKeepsDates(pol, w, p, Open(pol, p, w.now, w.log, w.opps));
      }
    case Reply(p, result) =>
      if Active(w, p) {
        if result.Thrown? { DropKeepsDates(pol, w, p); }
        else { LaunchKeepsDates(pol, w, p, Resume(pol, p, w.now, w.log, w.sessions[p], result)); }
      }
    case Crash(p) =>
      if Active(w, p) { DropKeepsDates(pol, w, p); }
    case _ =>
  }

  lemma {:induction false} RunKeepsDates(pol: Policy, w: World, steps: seq<Step>)
    requires pol.LateScalp? && WellFormed(pol, w) && DatesOk(w, w.submits) && DatesOk(w, w.lost)
    ensures var w' := Run(pol, w, steps);
            DatesOk(w', w'.submits) && DatesOk(w', w'.lost) && |w'.sessions| == |w.sessions|
    decreases |steps|
  {
    if steps != [] {
      ApplyWellFormed(pol, w, steps[0]);
      ApplyKeepsDates(pol, w, steps[0]);
      RunKeepsDates(pol, Apply(pol, w, steps[0]), steps[1..]);
    }
  }

  /** The submit calls of an opportunity, date by date. */
  lemma {:induction false} TotalByDate(pol: Policy, subs: seq<Sub>, n: nat, id: nat, lo: nat, hi: nat)
    requires pol.LateScalp? && lo <= hi <= lo + 1
    requires forall s :: s in subs ==> s.worker < n && (s.id == id ==> lo <= s.today <= hi)
    ensures Total(subs, id)
         == SubsIn(pol, subs, 0, n, id, lo) + if lo == hi then 0 else SubsIn(pol, subs, 0, n, id, hi)
  {
    if subs != [] {
      var init, last := subs[..|subs| - 1], subs[|subs| - 1];
      assert last in subs && forall s :: s in init ==> s in subs;
      TotalByDate(pol, init, n, id, lo, hi);
    }
  }

  lemma {:induction false} TotalOfNone(subs: seq<Sub>, id: nat)
    requires forall s :: s in subs ==> s.id != id
    ensures Total(subs, id) == 0
  {
    if subs != [] {
      TotalOfNone(subs[..|subs| - 1], id);
    }
  }

  /**
   Over a whole run, plus one per lost outcome: one submit by each worker for an opportunity whose
   look-back window lies on one date, two for one whose window spans midnight, none for an id that
   was never offered.
   */
  lemma OncePerDate(pol: Policy, now: nat, workers: nat, steps: seq<Step>, id: nat)
    requires pol.LateScalp?
    ensures var w := Run(pol, Init(now, workers), steps);
            Total(w.submits, id) <= Total(w.lost, id)
              + if id >= |w.opps| then 0
                else if FirstDate(w.opps[id].createdAt) == LastDate(w.opps[id].createdAt) then workers
                else 2 * workers
  {
    var w := Run(pol, Init(now, workers), steps);
    RunKeepsDates(pol, Init(now, workers), steps);
    if id < |w.opps| {
      var c := w.opps[id].createdAt;
      SeenDates(c, c * 1000);
      TotalByDate(pol, w.submits, workers, id, FirstDate(c), LastDate(c));
      TotalByDate(pol, w.lost, workers, id, FirstDate(c), LastDate(c));
      AtMostOnceHolds(pol, now, workers, steps, workers, id, FirstDate(c));
      AtMostOnceHolds(pol, now, workers, steps, workers, id, LastDate(c));
    } else {
      TotalOfNone(w.submits, id);
    }
  }

  /** One worker: an opportunity whose window does not span midnight is submitted once, plus once per lost outcome. */
  lemma OnceWithinADate(pol: Policy, now: nat, steps: seq<Step>, id: nat)
    requires pol.LateScalp?
    ensures var w := Run(pol, Init(now, 1), steps);
            (id < |w.opps| ==> FirstDate(w.opps[id].createdAt) == LastDate(w.opps[id].createdAt))
            ==> Total(w.submits, id) <= 1 + Total(w.lost, id)
  {
    OncePerDate(pol, now, 1, steps, id);
  }

  // ---------------------------------------------------------------- both limits are met

  /** One opportunity on offer since time `at`, and a policy. */
  datatype Case = Case(pol: Policy, payload: Payload, at: nat) {
    function Chance(): Opp {
      Opp(0, at / 1000, payload)
    }

    /** A poll at t sees the opportunity and, with the whole cap left, finds it worth an order. */
    predicate Orders(t: nat) {
      pol.LateScalp? && at <= t && Seen(at / 1000, t) && Decide(pol, t, pol.capUsd, Chance()).Order?
    }

    function Usd(t: nat): real
      requires Orders(t)
    {
      Decide(pol, t, pol.capUsd, Chance()).usd
    }

    /** One idle worker at time t, with the opportunity on offer and this log and history. */
    function Idling(t: nat, log: Log, submits: seq<Sub>, lost: seq<Sub>): World {
      World(t, [Chance()], log, [Idle], submits, lost)
    }

    function Filled(t: nat, ok: bool): ExecEvent
      requires Orders(t)
    {
      ExecEvent(0, 0, Usd(t), if ok then Accepted else Rejected, t)
    }
  }

  /** A poll on a date without rows submits the opportunity. */
  lemma PollTakes(k: Case, t: nat, log: Log, submits: seq<Sub>, lost: seq<Sub>)
    requires k.Orders(t) && UsdOn(log, DateOf(t)) == 0.0 && IdsOn(log, DateOf(t)) == {}
    ensures var d := DateOf(t);
            Apply(k.pol, k.Idling(t, log, submits, lost), Begin(0))
            == World(t, [k.Chance()], log, [Waiting(d, t, k.pol.capUsd, {}, [], InFlight(0, k.Usd(t)))],
                     submits + [Sub(0, 0, d)], lost)
  {
    var opps := [k.Chance()];
    assert opps[1..] == [];
    assert Recent(opps, LOOKBACK_SEC, t / 1000) == opps;
  }

  /** Poll it and have it answered. */
  lemma PollAndFill(k: Case, t: nat, ok: bool, log: Log, submits: seq<Sub>)
    requires k.Orders(t) && UsdOn(log, DateOf(t)) == 0.0 && IdsOn(log, DateOf(t)) == {}
    ensures Apply(k.pol, Apply(k.pol, k.Idling(t, log, submits, []), Begin(0)), Reply(0, Returned(ok)))
         == k.Idling(t, log + [k.Filled(t, ok)], submits + [Sub(0, 0, DateOf(t))], [])
  {
    PollTakes(k, t, log, submits, []);
  }

  lemma OtherDateEmpty(e: ExecEvent, d: nat)
    requires DateOf(e.at) != d
    ensures UsdOn([e], d) == 0.0 && IdsOn([e], d) == {}
  {
    Append([], e, d, 0);
    assert [] + [e] == [e];
  }

  function Round(ok: bool): seq<Step> {
    [Begin(0), Reply(0, Returned(ok))]
  }

  function TwoPolls(k: Case, t: nat, u: nat, ok1: bool, ok2: bool): seq<Step>
    requires k.at <= t <= u
  {
    [Offer(k.payload)] + ([Tick(t - k.at)] + (Round(ok1) + ([Tick(u - t)] + Round(ok2))))
  }

  lemma RunFrom(pol: Policy, w: World, a: Step, rest: seq<Step>, w': World)
    requires Apply(pol, w, a) == w'
    ensures Run(pol, w, [a] + rest) == Run(pol, w', rest)
  {
    assert ([a] + rest)[1..] == rest;
  }

  lemma RunTwo(pol: Policy, w: World, a: Step, b: Step, rest: seq<Step>)
    ensures Run(pol, w, [a, b] + rest) == Run(pol, Apply(pol, Apply(pol, w, a), b), rest)
  {
    assert ([a, b] + rest)[1..] == [b] + rest && ([b] + rest)[1..] == rest;
  }

  lemma OnOffer(k: Case, t: nat, rest: seq<Step>)
    requires k.at <= t
    ensures Run(k.pol, Init(k.at, 1), [Offer(k.payload)] + ([Tick(t - k.at)] + rest))
         == Run(k.pol, k.Idling(t, [], [], []), rest)
  {
    RunFrom(k.pol, Init(k.at, 1), Offer(k.payload), [Tick(t - k.at)] + rest, k.Idling(k.at, [], [], []));
    RunFrom(k.pol, k.Idling(k.at, [], [], []), Tick(t - k.at), rest, k.Idling(t, [], [], []));
  }

  /** A poll on a date without rows, answered. */
  lemma RoundRun(k: Case, t: nat, ok: bool, log: Log, submits: seq<Sub>, rest: seq<Step>)
    requires k.Orders(t) && UsdOn(log, DateOf(t)) == 0.0 && IdsOn(log, DateOf(t)) == {}
    ensures Run(k.pol, k.Idling(t, log, submits, []), Round(ok) + rest)
         == Run(k.pol, k.Idling(t, log + [k.Filled(t, ok)], submits + [Sub(0, 0, DateOf(t))], []), rest)
  {
    PollAndFill(k, t, ok, log, submits);
    RunTwo(k.pol, k.Idling(t, log, submits, []), Begin(0), Reply(0, Returned(ok)), rest);
  }

  lemma WaitRun(k: Case, t: nat, u: nat, log: Log, submits: seq<Sub>, rest: seq<Step>)
    requires t <= u
    ensures Run(k.pol, k.Idling(t, log, submits, []), [Tick(u - t)] + rest)
         == Run(k.pol, k.Idling(u, log, submits, []), rest)
  {
    RunFrom(k.pol, k.Idling(t, log, submits, []), Tick(u - t), rest, k.Idling(u, log, submits, []));
  }

  /** The second poll of the run, from the world the first one leaves. */
  lemma SecondPoll(k: Case, u: nat, ok: bool, e: ExecEvent, s: Sub)
    requires k.Orders(u) && DateOf(e.at) != DateOf(u)
    ensures Run(k.pol, k.Idling(u, [e], [s], []), Round(ok))
         == k.Idling(u, [e, k.Filled(u, ok)], [s, Sub(0, 0, DateOf(u))], [])
  {
    OtherDateEmpty(e, DateOf(u));
    RoundRun(k, u, ok, [e], [s], []);
    assert Round(ok) + [] == Round(ok);
    assert [e] + [k.Filled(u, ok)] == [e, k.Filled(u, ok)];
    assert [s] + [Sub(0, 0, DateOf(u))] == [s, Sub(0, 0, DateOf(u))];
  }

  lemma FirstPoll(k: Case, t: nat, ok: bool, rest: seq<Step>)
    requires k.Orders(t)
    ensures Run(k.pol, Init(k.at, 1), [Offer(k.payload)] + ([Tick(t - k.at)] + (Round(ok) + rest)))
         == Run(k.pol, k.Idling(t, [k.Filled(t, ok)], [Sub(0, 0, DateOf(t))], []), rest)
  {
    OnOffer(k, t, Round(ok) + rest);
    assert IdsOn([], DateOf(t)) == {};
    RoundRun(k, t, ok, [], [], rest);
    assert [] + [k.Filled(t, ok)] == [k.Filled(t, ok)];
    assert [] + [Sub(0, 0, DateOf(t))] == [Sub(0, 0, DateOf(t))];
  }

  lemma TotalOfPair(a: Sub, b: Sub)
    requires a.id == b.id
    ensures Total([a, b], a.id) == 2
  {
    TotalAppend([], a, a.id);
    TotalAppend([a], b, a.id);
    assert [] + [a] == [a] && [a] + [b] == [a, b];
  }

  /**
   Any opportunity that is worth an order at two polls on different dates is submitted and logged on
   both of them, whatever the verdicts, with no outcome lost.
   */
  lemma TwiceAcrossMidnight(k: Case, t: nat, u: nat, ok1: bool, ok2: bool)
    requires k.Orders(t) && k.Orders(u) && t <= u && DateOf(t) != DateOf(u)
    ensures var w := Run(k.pol, Init(k.at, 1), TwoPolls(k, t, u, ok1, ok2));
            && w.log == [k.Filled(t, ok1), k.Filled(u, ok2)] && w.lost == []
            && Total(w.submits, 0) == 2
  {
    FirstPoll(k, t, ok1, [Tick(u - t)] + Round(ok2));
    WaitRun(k, t, u, [k.Filled(t, ok1)], [Sub(0, 0, DateOf(t))], Round(ok2));
    SecondPoll(k, u, ok2, k.Filled(t, ok1), Sub(0, 0, DateOf(t)));
    TotalOfPair(Sub(0, 0, DateOf(t)), Sub(0, 0, DateOf(u)));
  }

  function Throws(m: nat): seq<Step> {
    if m == 0 then [] else [Begin(0), Reply(0, Thrown)] + Throws(m - 1)
  }

  lemma ThrowOnce(k: Case, t: nat, submits: seq<Sub>, lost: seq<Sub>)
    requires k.Orders(t)
    ensures var s := Sub(0, 0, DateOf(t));
            Apply(k.pol, Apply(k.pol, k.Idling(t, [], submits, lost), Begin(0)), Reply(0, Thrown))
            == k.Idling(t, [], submits + [s], lost + [s])
  {
    PollTakes(k, t, [], submits, lost);
  }

  lemma {:induction false} ThrowsRepeatFrom(k: Case, t: nat, submits: seq<Sub>, lost: seq<Sub>, m: nat)
    requires k.Orders(t)
    ensures var w := Run(k.pol, k.Idling(t, [], submits, lost), Throws(m));
            w.log == [] && Total(w.submits, 0) == Total(submits, 0) + m
    decreases m
  {
    if m > 0 {
      var s := Sub(0, 0, DateOf(t));
      ThrowOnce(k, t, submits, lost);
      RunTwo(k.pol, k.Idling(t, [], submits, lost), Begin(0), Reply(0, Thrown), Throws(m - 1));
      TotalAppend(submits, s, 0);
      ThrowsRepeatFrom(k, t, submits + [s], lost + [s], m - 1);
    }
  }

  /**
   A throw records nothing: m of them in a row are m submits of any opportunity worth an order,
   on one date, and no row.
   */
  lemma ThrowsRepeat(k: Case, t: nat, m: nat)
    requires k.Orders(t)
    ensures var w := Run(k.pol, Init(k.at, 1), [Offer(k.payload)] + ([Tick(t - k.at)] + Throws(m)));
            w.log == [] && Total(w.submits, 0) == m
  {
    OnOffer(k, t, Throws(m));
    ThrowsRepeatFrom(k, t, [], [], m);
  }
}

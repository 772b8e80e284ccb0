/**
 The three auto-executors as one step machine over the shared event log.

 A poll reads the log, runs synchronously until it awaits `router.submit`, and
 continues when the call returns or throws. Between those points the clock may
 move, scanners may log new opportunities, other workers may run, and a worker
 process may die. The three workers differ only in the budget they read, the
 dedup set they build, how they size an order, and what a throw records; the
 `Policy` selects between these.
 */
module ExecMachine {
  import opened ExecLog
  import Kelly

  datatype Policy =
    | LateScalp(capUsd: real, perSignal: real)
    | Markov(capUsd: real, perSignal: real, scale: real)
    | Consensus(capCount: int, perSignal: real)

  /** Logged payload of a source event; `Malformed` is one whose JSON does not parse. */
  datatype Payload =
    | ScalpPayload(capitalRequired: real, remainingSec: real, scanMs: int)
    | MarkovPayload(opportunity: Kelly.Opportunity)
    | SignalPayload
    | Malformed

  /** A source event; `createdAt` is in epoch seconds, as the log stores it. */
  datatype Opp = Opp(id: nat, createdAt: nat, payload: Payload)

  /** What one loop iteration does: nothing, log a zero-USD skip, or submit an order. */
  datatype Decision = Pass | Note | Order(usd: real)

  const MIN_SCALP_USD := 0.5
  const MIN_SECONDS_LEFT := 15.0

  function Decide(pol: Policy, startMs: nat, remaining: real, o: Opp): Decision {
    match pol
    case LateScalp(_, perSignal) =>
      if !o.payload.ScalpPayload? then Pass
      else
        var elapsed := (startMs - o.payload.scanMs) as real / 1000.0;
        if o.payload.remainingSec - elapsed < MIN_SECONDS_LEFT then Pass
        else
          var usd := Kelly.Min(perSignal, Kelly.Min(remaining, o.payload.capitalRequired));
          if usd < MIN_SCALP_USD then Pass else Order(usd)
    case Markov(_, perSignal, scale) =>
      if !o.payload.MarkovPayload? then Pass
      else
        var bet := Kelly.DecideOrder(o.payload.opportunity, perSignal, remaining, scale);
        if bet.None? then Note else Order(bet.value)
    case Consensus(_, perSignal) =>
      if o.payload.SignalPayload? then Order(perSignal) else Pass
  }

  /** The budget a poll starts with. */
  function Budget(pol: Policy, log: Log, today: nat): real {
    if pol.Consensus? then 0.0 else pol.capUsd - UsdOn(log, today)
  }

  /** The stop test: USD workers look at their own running budget, consensus re-reads the log. */
  predicate OutOfBudget(pol: Policy, remaining: real, log: Log, today: nat) {
    if pol.Consensus? then CountOn(log, today) >= pol.capCount else remaining <= 0.0
  }

  /** Late-scalp only looks at today's rows, the other two at all of them. */
  function DoneIds(pol: Policy, log: Log, today: nat): set<nat> {
    if pol.LateScalp? then IdsOn(log, today) else AllIds(log)
  }

  /** How many seconds back a poll looks for opportunities. */
  function LookbackSec(pol: Policy): nat {
    match pol
    case LateScalp(_, _) => 300
    case Markov(_, _, _) => 7200
    case Consensus(_, _) => 1800
  }

  function Recent(opps: seq<Opp>, lookback: nat, nowSec: nat): seq<Opp> {
    if opps == [] then []
    else
      var rest := Recent(opps[1..], lookback, nowSec);
      if opps[0].createdAt + lookback >= nowSec then [opps[0]] + rest else rest
  }

  /** Late-scalp charges an accepted order only, markov every returned one. */
  function Settle(pol: Policy, remaining: real, usd: real, ok: bool): real {
    match pol
    case LateScalp(_, _) => if ok then remaining - usd else remaining
    case Markov(_, _, _) => remaining - usd
    case Consensus(_, _) => remaining
  }

  datatype InFlight = InFlight(id: nat, usd: real)

  /** A worker between polls, or suspended at `await router.submit`. */
  datatype Session =
    | Idle
    | Waiting(today: nat, startMs: nat, remaining: real, done: set<nat>, queue: seq<Opp>, order: InFlight)

  /** Result of one synchronous stretch; `taken` counts the queue entries it consumed. */
  datatype Stretch = Stretch(log: Log, session: Session, skipped: nat, remaining: real, taken: nat)

  /** The for loop from its current position up to the next submit or its end. */
  function Advance(pol: Policy, worker: nat, nowMs: nat, log: Log,
                   today: nat, startMs: nat, remaining: real, done: set<nat>, queue: seq<Opp>): Stretch
    decreases |queue|
  {
    if queue == [] then Stretch(log, Idle, 0, remaining, 0)
    else
      var o, rest := queue[0], queue[1..];
      if o.id in done then
        Skip(Advance(pol, worker, nowMs, log, today, startMs, remaining, done, rest))
      else if OutOfBudget(pol, remaining, log, today) then
        Stretch(log, Idle, 0, remaining, 0)
      else
        match Decide(pol, startMs, remaining, o)
        case Pass =>
          Skip(Advance(pol, worker, nowMs, log, today, startMs, remaining, done, rest))
        case Note =>
          var log' := log + [ExecEvent(worker, o.id, 0.0, Skipped, nowMs)];
          Skip(Advance(pol, worker, nowMs, log', today, startMs, remaining, done, rest))
        case Order(usd) =>
          Stretch(log, Waiting(today, startMs, remaining, done, rest, InFlight(o.id, usd)), 0, remaining, 1)
  }

  function Skip(s: Stretch): Stretch {
    s.(skipped := s.skipped + 1, taken := s.taken + 1)
  }

  /** The start of pollOnce: idle when out of budget, else the first stretch of the loop. */
  function Open(pol: Policy, worker: nat, nowMs: nat, log: Log, opps: seq<Opp>): Stretch {
    var today := DateOf(nowMs);
    var remaining := Budget(pol, log, today);
    if OutOfBudget(pol, remaining, log, today) then Stretch(log, Idle, 0, 0.0, 0)
    else
      Advance(pol, worker, nowMs, log, today, nowMs, remaining, DoneIds(pol, log, today),
              Recent(opps, LookbackSec(pol), nowMs / 1000))
  }

  /** How a submit call ends. */
  datatype Result = Returned(ok: bool) | Thrown

  /** Logging the verdict and running on; a throw gets here only in markov and consensus. */
  function Resume(pol: Policy, worker: nat, nowMs: nat, log: Log, s: Session, result: Result): Stretch
    requires s.Waiting?
  {
    match result
    case Returned(ok) =>
      var e := ExecEvent(worker, s.order.id, s.order.usd, if ok then Accepted else Rejected, nowMs);
      Advance(pol, worker, nowMs, log + [e], s.today, s.startMs,
              Settle(pol, s.remaining, s.order.usd, ok), s.done, s.queue)
    case Thrown =>
      var e := ExecEvent(worker, s.order.id, 0.0, Failed, nowMs);
      Advance(pol, worker, nowMs, log + [e], s.today, s.startMs, s.remaining, s.done, s.queue)
  }

  // ---------------------------------------------------------------- runs

  /** One submit call: who made it, for which opportunity, and the date its poll started on. */
  datatype Sub = Sub(worker: nat, id: nat, today: nat)

  /** `submits` and `lost` are history: all submit calls, and those whose outcome was never logged. */
  datatype World = World(now: nat, opps: seq<Opp>, log: Log, sessions: seq<Session>,
                         submits: seq<Sub>, lost: seq<Sub>)

  datatype Step =
    | Tick(ms: nat)
    | Offer(payload: Payload)
    | Begin(p: nat)
    | Reply(p: nat, result: Result)
    | Crash(p: nat)

  predicate Active(w: World, p: nat) {
    p < |w.sessions| && w.sessions[p].Waiting?
  }

  function Launch(w: World, p: nat, st: Stretch): World
    requires p < |w.sessions|
  {
    w.(log := st.log,
       sessions := w.sessions[p := st.session],
       submits := if st.session.Waiting?
                  then w.submits + [Sub(p, st.session.order.id, st.session.today)] else w.submits)
  }

  function Drop(w: World, p: nat): World
    requires Active(w, p)
  {
    w.(sessions := w.sessions[p := Idle],
       lost := w.lost + [Sub(p, w.sessions[p].order.id, w.sessions[p].today)])
  }

  /** A step that is not enabled changes nothing. */
  function Apply(pol: Policy, w: World, step: Step): World {
    match step
    case Tick(ms) => w.(now := w.now + ms)
    case Offer(payload) => w.(opps := w.opps + [Opp(|w.opps|, w.now / 1000, payload)])
    case Begin(p) =>
      if p < |w.sessions| && w.sessions[p].Idle?
      then Launch(w, p, Open(pol, p, w.now, w.log, w.opps)) else w
    case Reply(p, result) =>
      if !Active(w, p) then w
      else if result.Thrown? && pol.LateScalp? then Drop(w, p)
      else Launch(w, p, Resume(pol, p, w.now, w.log, w.sessions[p], result))
    case Crash(p) => if Active(w, p) then Drop(w, p) else w
  }

  function Run(pol: Policy, w: World, steps: seq<Step>): World
    decreases |steps|
  {
    if steps == [] then w else Run(pol, Apply(pol, w, steps[0]), steps[1..])
  }

  function Init(now: nat, workers: nat): World {
    World(now, [], [], seq(workers, i => Idle), [], [])
  }

  lemma {:induction false} RunConcat(pol: Policy, w: World, a: seq<Step>, b: seq<Step>)
    ensures Run(pol, w, a + b) == Run(pol, Run(pol, w, a), b)
    decreases |a|
  {
    if a == [] {
      assert a + b == b;
    } else {
      assert (a + b)[1..] == a[1..] + b;
      RunConcat(pol, Apply(pol, w, a[0]), a[1..], b);
    }
  }

  lemma FirstStep(pol: Policy, w: World, step: Step, rest: seq<Step>)
    ensures Run(pol, w, [step] + rest) == Run(pol, Apply(pol, w, step), rest)
  {
    assert ([step] + rest)[1..] == rest;
  }

  /** Some run leads from one world to the other. */
  ghost predicate Leads(pol: Policy, w: World, w': World) {
    exists steps :: Run(pol, w, steps) == w'
  }

  lemma LeadsNowhere(pol: Policy, w: World)
    ensures Leads(pol, w, w)
  {
    assert Run(pol, w, []) == w;
  }

  lemma LeadsStep(pol: Policy, w: World, step: Step)
    ensures Leads(pol, w, Apply(pol, w, step))
  {
    FirstStep(pol, w, step, []);
  }

  lemma LeadsOn(pol: Policy, w: World, next: World, w': World)
    requires Leads(pol, w, next) && Leads(pol, next, w')
    ensures Leads(pol, w, w')
  {
    var a :| Run(pol, w, a) == next;
    var b :| Run(pol, next, b) == w';
    RunConcat(pol, w, a, b);
  }

  // ---------------------------------------------------------------- invariants

  predicate Ascending(q: seq<Opp>) {
    forall i, j :: 0 <= i < j < |q| ==> q[i].id < q[j].id
  }

  lemma {:induction false} RecentSound(opps: seq<Opp>, lookback: nat, nowSec: nat)
    requires Ascending(opps)
    ensures Ascending(Recent(opps, lookback, nowSec))
    ensures forall o :: o in Recent(opps, lookback, nowSec) <==> o in opps && o.createdAt + lookback >= nowSec
  {
    if opps != [] {
      var first, rest := opps[0], Recent(opps[1..], lookback, nowSec);
      RecentSound(opps[1..], lookback, nowSec);
      assert forall o :: o in opps <==> o == first || o in opps[1..];
      AscendingCons(first, rest);
    }
  }

  lemma AscendingCons(o: Opp, rest: seq<Opp>)
    requires Ascending(rest) && forall x :: x in rest ==> o.id < x.id
    ensures Ascending([o] + rest)
  {
  }

  lemma {:induction false} RecentAll(opps: seq<Opp>, lookback: nat, nowSec: nat)
    requires forall o :: o in opps ==> o.createdAt + lookback >= nowSec
    ensures Recent(opps, lookback, nowSec) == opps
  {
    if opps != [] {
      RecentAll(opps[1..], lookback, nowSec);
    }
  }

  /** The rows a stretch may add of its own: zero-USD skip notes, and those only in markov. */
  ghost predicate NotesOnly(pol: Policy, worker: nat, nowMs: nat, log: Log, log': Log) {
    && |log| <= |log'| && log'[..|log|] == log
    && (!pol.Markov? ==> log' == log)
    && forall i :: |log| <= i < |log'| ==>
         log'[i].worker == worker && log'[i].orderUsd == 0.0 && log'[i].kind == Skipped && log'[i].at == nowMs
  }

  /** All but the last of the added rows are again added rows. */
  lemma NotesInit(pol: Policy, worker: nat, nowMs: nat, log: Log, log': Log)
    requires NotesOnly(pol, worker, nowMs, log, log') && |log'| > |log|
    ensures NotesOnly(pol, worker, nowMs, log, log'[..|log'| - 1])
    ensures log'[|log'| - 1].orderUsd == 0.0 && log'[|log'| - 1].kind == Skipped
  {
    var init := log'[..|log'| - 1];
    assert init[..|log|] == log'[..|log|];
    assert forall i :: 0 <= i < |init| ==> init[i] == log'[i];
  }

  lemma NotesMore(pol: Policy, worker: nat, nowMs: nat, log: Log, e: ExecEvent, log': Log)
    requires pol.Markov? && e == ExecEvent(worker, e.source, 0.0, Skipped, nowMs)
    requires NotesOnly(pol, worker, nowMs, log + [e], log')
    ensures NotesOnly(pol, worker, nowMs, log, log')
  {
    assert log'[..|log|] == log'[..|log| + 1][..|log|];
    assert log'[..|log| + 1][|log|] == e;
  }

  /** A stretch over the queue ends at its end, or waits on an order for an opportunity that is not done. */
  ghost predicate Stops(pol: Policy, today: nat, startMs: nat, remaining: real, done: set<nat>, queue: seq<Opp>,
                        st: Stretch)
  {
    && st.taken <= |queue| && st.remaining == remaining
    && (st.session.Waiting? ==>
          && st.taken > 0
          && st.session == Waiting(today, startMs, remaining, done, queue[st.taken..], st.session.order)
          && st.session.order.id == queue[st.taken - 1].id
          && st.session.order.id !in done
          && !OutOfBudget(pol, remaining, st.log, today)
          && Decide(pol, startMs, remaining, queue[st.taken - 1]) == Order(st.session.order.usd))
  }

  lemma StopsSkip(pol: Policy, today: nat, startMs: nat, remaining: real, done: set<nat>, queue: seq<Opp>,
                  st: Stretch)
    requires queue != [] && Stops(pol, today, startMs, remaining, done, queue[1..], st)
    ensures Stops(pol, today, startMs, remaining, done, queue, Skip(st))
  {
    assert queue[1..][st.taken..] == queue[st.taken + 1..];
  }

  /** Where a stretch stops: at the first opportunity that is not done and is worth an order. */
  lemma {:induction false} AdvanceSound(pol: Policy, worker: nat, nowMs: nat, log: Log, today: nat, startMs: nat,
                                        remaining: real, done: set<nat>, queue: seq<Opp>)
    ensures var st := Advance(pol, worker, nowMs, log, today, startMs, remaining, done, queue);
            NotesOnly(pol, worker, nowMs, log, st.log) && Stops(pol, today, startMs, remaining, done, queue, st)
    decreases |queue|
  {
    if queue != [] && (queue[0].id in done || !OutOfBudget(pol, remaining, log, today)) {
      var o, rest := queue[0], queue[1..];
      if o.id in done || Decide(pol, startMs, remaining, o).Pass? {
        AdvanceSound(pol, worker, nowMs, log, today, startMs, remaining, done, rest);
        StopsSkip(pol, today, startMs, remaining, done, queue,
                  Advance(pol, worker, nowMs, log, today, startMs, remaining, done, rest));
      } else if Decide(pol, startMs, remaining, o).Note? {
        var e := ExecEvent(worker, o.id, 0.0, Skipped, nowMs);
        AdvanceSound(pol, worker, nowMs, log + [e], today, startMs, remaining, done, rest);
        var st := Advance(pol, worker, nowMs, log + [e], today, startMs, remaining, done, rest);
        NotesMore(pol, worker, nowMs, log, e, st.log);
        StopsSkip(pol, today, startMs, remaining, done, queue, st);
      }
    }
  }

  /** Facts about clocks, ids and sizes that hold in every reachable state. */
  ghost predicate WellFormed(pol: Policy, w: World) {
    && (forall i :: 0 <= i < |w.opps| ==> w.opps[i].id == i && w.opps[i].createdAt <= w.now / 1000)
    && (forall e :: e in w.log ==> e.at <= w.now && e.worker < |w.sessions| && (!pol.Consensus? ==> e.orderUsd >= 0.0))
    && (forall p :: 0 <= p < |w.sessions| ==> SessionOk(pol, w, w.sessions[p]))
  }

  ghost predicate SessionOk(pol: Policy, w: World, s: Session) {
    s.Waiting? ==>
      && s.startMs <= w.now && s.today == DateOf(s.startMs)
      && s.order.id < |w.opps| && s.order.id !in s.done
      && Fresh(pol, s.startMs, w.opps[s.order.id])
      && Ascending(s.queue)
      && (forall o :: o in s.queue ==> s.order.id < o.id && o in w.opps && Fresh(pol, s.startMs, o))
      && (!pol.Consensus? ==> 0.0 <= s.order.usd <= s.remaining)
  }

  /** Logged before the poll started and inside its look-back window. */
  predicate Fresh(pol: Policy, startMs: nat, o: Opp) {
    o.createdAt <= startMs / 1000 <= o.createdAt + LookbackSec(pol)
  }

  lemma DecideFits(pol: Policy, startMs: nat, remaining: real, o: Opp)
    requires !pol.Consensus? && Decide(pol, startMs, remaining, o).Order?
    ensures 0.0 <= Decide(pol, startMs, remaining, o).usd <= remaining
  {
    if pol.Markov? {
      Kelly.DecideOrderSound(o.payload.opportunity, pol.perSignal, remaining, pol.scale);
    }
  }

  /** Late-scalp places the smallest of its three limits, and passes when that is too little or the window too close. */
  lemma ScalpSizing(pol: Policy, startMs: nat, remaining: real, o: Opp)
    requires pol.LateScalp? && o.payload.ScalpPayload?
    ensures var close := o.payload.remainingSec * 1000.0 < (startMs - o.payload.scanMs) as real + 15_000.0;
            match Decide(pol, startMs, remaining, o)
            case Order(usd) =>
              && !close && usd >= MIN_SCALP_USD
              && usd in {pol.perSignal, remaining, o.payload.capitalRequired}
              && usd <= pol.perSignal && usd <= remaining && usd <= o.payload.capitalRequired
            case Pass =>
              close || pol.perSignal < MIN_SCALP_USD || remaining < MIN_SCALP_USD
              || o.payload.capitalRequired < MIN_SCALP_USD
            case Note => false
  {
  }

  lemma OpenWaiting(pol: Policy, w: World, p: nat)
    requires WellFormed(pol, w) && p < |w.sessions|
    ensures var st := Open(pol, p, w.now, w.log, w.opps); SessionOk(pol, w, st.session)
    ensures var st := Open(pol, p, w.now, w.log, w.opps);
            NotesOnly(pol, p, w.now, w.log, st.log)
  {
    var today := DateOf(w.now);
    var q := Recent(w.opps, LookbackSec(pol), w.now / 1000);
    RecentSound(w.opps, LookbackSec(pol), w.now / 1000);
    if !OutOfBudget(pol, Budget(pol, w.log, today), w.log, today) {
      StretchOk(pol, w, p, w.log, today, w.now, Budget(pol, w.log, today), DoneIds(pol, w.log, today), q);
    }
  }

  /** A stretch over a good queue ends in a good session. */
  lemma StretchOk(pol: Policy, w: World, p: nat, log: Log, today: nat, startMs: nat, remaining: real,
                  done: set<nat>, queue: seq<Opp>)
    requires WellFormed(pol, w) && startMs <= w.now && today == DateOf(startMs)
    requires Ascending(queue) && forall o :: o in queue ==> o in w.opps && Fresh(pol, startMs, o)
    ensures var st := Advance(pol, p, w.now, log, today, startMs, remaining, done, queue);
            SessionOk(pol, w, st.session) && NotesOnly(pol, p, w.now, log, st.log)
  {
    AdvanceSound(pol, p, w.now, log, today, startMs, remaining, done, queue);
    var st := Advance(pol, p, w.now, log, today, startMs, remaining, done, queue);
    if st.session.Waiting? {
      var o := queue[st.taken - 1];
      assert o in queue;
      assert forall i :: st.taken <= i < |queue| ==> queue[i] in queue;
      if !pol.Consensus? {
        DecideFits(pol, startMs, remaining, o);
      }
    }
  }

  lemma BeginWellFormed(pol: Policy, w: World, p: nat)
    requires WellFormed(pol, w) && p < |w.sessions| && w.sessions[p].Idle?
    ensures WellFormed(pol, Apply(pol, w, Begin(p)))
  {
    OpenWaiting(pol, w, p);
    LaunchWellFormed(pol, w, p, w.log, Open(pol, p, w.now, w.log, w.opps));
  }

  lemma ReplyWellFormed(pol: Policy, w: World, p: nat, result: Result)
    requires WellFormed(pol, w) && Active(w, p) && !(result.Thrown? && pol.LateScalp?)
    ensures WellFormed(pol, Apply(pol, w, Reply(p, result)))
  {
    var s := w.sessions[p];
    var log1 := ReplyLog(w, p, result);
    var remaining := if result.Returned? then Settle(pol, s.remaining, s.order.usd, result.ok) else s.remaining;
    StretchOk(pol, w, p, log1, s.today, s.startMs, remaining, s.done, s.queue);
    LaunchWellFormed(pol, w, p, log1, Resume(pol, p, w.now, w.log, s, result));
  }

  lemma TickWellFormed(pol: Policy, w: World, now: nat)
    requires WellFormed(pol, w) && w.now <= now
    ensures WellFormed(pol, w.(now := now))
  {
  }

  lemma OfferWellFormed(pol: Policy, w: World, payload: Payload)
    requires WellFormed(pol, w)
    ensures WellFormed(pol, w.(opps := w.opps + [Opp(|w.opps|, w.now / 1000, payload)]))
  {
  }

  lemma DropWellFormed(pol: Policy, w: World, p: nat)
    requires WellFormed(pol, w) && Active(w, p)
    ensures WellFormed(pol, Drop(w, p))
  {
  }

  lemma ApplyWellFormed(pol: Policy, w: World, step: Step)
    requires WellFormed(pol, w)
    ensures WellFormed(pol, Apply(pol, w, step))
  {
    match step
    case Tick(ms) => TickWellFormed(pol, w, w.now + ms);
    case Offer(payload) => OfferWellFormed(pol, w, payload);
    case Begin(p) => if p < |w.sessions| && w.sessions[p].Idle? { BeginWellFormed(pol, w, p); }
    case Reply(p, result) =>
      if Active(w, p) && result.Thrown? && pol.LateScalp? {
        DropWellFormed(pol, w, p);
      } else if Active(w, p) {
        ReplyWellFormed(pol, w, p, result);
      }
    case Crash(p) => if Active(w, p) { DropWellFormed(pol, w, p); }
  }

  /** The row a reply appends before the loop runs on. */
  function ReplyEvent(w: World, p: nat, result: Result): ExecEvent
    requires Active(w, p)
  {
    var s := w.sessions[p];
    match result
    case Returned(ok) => ExecEvent(p, s.order.id, s.order.usd, if ok then Accepted else Rejected, w.now)
    case Thrown => ExecEvent(p, s.order.id, 0.0, Failed, w.now)
  }

  function ReplyLog(w: World, p: nat, result: Result): Log
    requires Active(w, p)
  {
    w.log + [ReplyEvent(w, p, result)]
  }

  lemma LaunchWellFormed(pol: Policy, w: World, p: nat, log: Log, st: Stretch)
    requires WellFormed(pol, w) && p < |w.sessions|
    requires forall e :: e in log ==>
               e.at <= w.now && e.worker < |w.sessions| && (!pol.Consensus? ==> e.orderUsd >= 0.0)
    requires NotesOnly(pol, p, w.now, log, st.log)
    requires SessionOk(pol, w, st.session)
    ensures WellFormed(pol, Launch(w, p, st))
  {
  }

  lemma {:induction false} RunWellFormed(pol: Policy, w: World, steps: seq<Step>)
    requires WellFormed(pol, w)
    ensures WellFormed(pol, Run(pol, w, steps))
    decreases |steps|
  {
    if steps != [] {
      ApplyWellFormed(pol, w, steps[0]);
      RunWellFormed(pol, Apply(pol, w, steps[0]), steps[1..]);
    }
  }

  // ---------------------------------------------------------------- the order of the rows

  /** Rows are dated in the order in which they were appended, and none lies in the future. */
  ghost predicate Dated(log: Log, now: nat) {
    && (forall i :: 0 <= i < |log| ==> log[i].at <= now)
    && (forall i, j :: 0 <= i < j < |log| ==> log[i].at <= log[j].at)
  }

  lemma DatedRow(log: Log, now: nat, e: ExecEvent)
    requires Dated(log, now) && e.at == now
    ensures Dated(log + [e], now)
  {
  }

  lemma DatedNotes(pol: Policy, worker: nat, nowMs: nat, log: Log, log': Log)
    requires Dated(log, nowMs) && NotesOnly(pol, worker, nowMs, log, log')
    ensures Dated(log', nowMs)
  {
    forall i | 0 <= i < |log| ensures log'[i] == log[i] { assert log'[..|log|][i] == log'[i]; }
  }

  lemma ApplyDated(pol: Policy, w: World, step: Step)
    requires WellFormed(pol, w) && Dated(w.log, w.now)
    ensures var w' := Apply(pol, w, step); Dated(w'.log, w'.now)
  {
    match step
    case Begin(p) =>
      if p < |w.sessions| && w.sessions[p].Idle? {
        OpenWaiting(pol, w, p);
        DatedNotes(pol, p, w.now, w.log, Open(pol, p, w.now, w.log, w.opps).log);
      }
    case Reply(p, result) =>
      if Active(w, p) && !(result.Thrown? && pol.LateScalp?) { ReplyDated(pol, w, p, result); }
    case _ =>
  }

  lemma ReplyDated(pol: Policy, w: World, p: nat, result: Result)
    requires Active(w, p) && Dated(w.log, w.now)
    ensures Dated(Resume(pol, p, w.now, w.log, w.sessions[p], result).log, w.now)
  {
    var s, log1 := w.sessions[p], ReplyLog(w, p, result);
    var remaining := if result.Returned? then Settle(pol, s.remaining, s.order.usd, result.ok) else s.remaining;
    DatedRow(w.log, w.now, ReplyEvent(w, p, result));
    AdvanceSound(pol, p, w.now, log1, s.today, s.startMs, remaining, s.done, s.queue);
    DatedNotes(pol, p, w.now, log1, Resume(pol, p, w.now, w.log, s, result).log);
  }

  /** In every run, with any number of workers, the log is in the order of its dates. */
  lemma {:induction false} RunDated(pol: Policy, w: World, steps: seq<Step>)
    requires WellFormed(pol, w) && Dated(w.log, w.now)
    ensures var w' := Run(pol, w, steps); Dated(w'.log, w'.now)
    decreases |steps|
  {
    if steps != [] {
      ApplyDated(pol, w, steps[0]);
      ApplyWellFormed(pol, w, steps[0]);
      RunDated(pol, Apply(pol, w, steps[0]), steps[1..]);
    }
  }
}

/**
 The bound of one cap per late-scalp worker is reached: workers that read the
 same log before any of them appends each spend the whole cap, on the very same
 opportunities.
 */
module CapReached {
  import opened ExecLog
  import opened ExecMachine
  import opened DailyCap

  /** The setting: a cap worth exactly k orders of one size between the minimum and the per-signal size. */
  datatype Setting = Setting(now: nat, per: real, k: nat, perSignal: real) {
    ghost predicate Ok() {
      MIN_SCALP_USD <= per <= perSignal && k >= 1
    }
    function Pol(): Policy {
      LateScalp(Times(k, per), perSignal)
    }
    function Opps(): seq<Opp> {
      seq(k, i requires 0 <= i => Opp(i, now / 1000, ScalpPayload(per, MIN_SECONDS_LEFT, now)))
    }
    /** A worker about to be answered on its i-th order. */
    function At(i: nat): Session
      requires i <= k
    {
      if i == k then Idle
      else Waiting(DateOf(now), now, Times(k - i, per), {}, Opps()[i + 1..], InFlight(i, per))
    }
  }

  lemma {:induction false} AtLeastOne(n: nat, x: real)
    requires n >= 1 && x >= 0.0
    ensures Times(n, x) >= x
  {
    if n > 1 {
      AtLeastOne(n - 1, x);
    }
  }

  /** With budget left the loop submits the next opportunity at the size it asks for. */
  lemma AdvanceTakesNext(s: Setting, p: nat, log: Log, i: nat)
    requires s.Ok() && i <= s.k
    ensures var st := Advance(s.Pol(), p, s.now, log, DateOf(s.now), s.now, Times(s.k - i, s.per), {}, s.Opps()[i..]);
            st.log == log && st.session == s.At(i)
  {
    if i < s.k {
      AtLeastOne(s.k - i, s.per);
      assert s.Opps()[i..][0] == s.Opps()[i];
      assert s.Opps()[i..][1..] == s.Opps()[i + 1..];
      var o := s.Opps()[i];
      assert Decide(s.Pol(), s.now, Times(s.k - i, s.per), o) == Order(s.per);
    }
  }

  /** Offering the opportunities one by one. */
  lemma {:induction false} OffersLead(s: Setting, n: nat, j: nat)
    requires s.Ok() && j <= s.k
    ensures Leads(s.Pol(), Init(s.now, n), Init(s.now, n).(opps := s.Opps()[..j]))
    decreases j
  {
    var w := Init(s.now, n);
    if j == 0 {
      LeadsNowhere(s.Pol(), w);
    } else {
      var before, offer := w.(opps := s.Opps()[..j - 1]), Offer(ScalpPayload(s.per, MIN_SECONDS_LEFT, s.now));
      OffersLead(s, n, j - 1);
      LeadsStep(s.Pol(), before, offer);
      assert s.Opps()[..j] == s.Opps()[..j - 1] + [s.Opps()[j - 1]];
      assert Apply(s.Pol(), before, offer) == w.(opps := s.Opps()[..j]);
      LeadsOn(s.Pol(), w, before, w.(opps := s.Opps()[..j]));
    }
  }

  /** The workers before p wait for the answer to their first order, the others are idle, and nothing is logged. */
  ghost predicate Opened(s: Setting, w: World, p: nat, n: nat) {
    && s.Ok() && w.now == s.now && w.opps == s.Opps() && w.log == [] && p <= n == |w.sessions|
    && forall q :: 0 <= q < n ==> w.sessions[q] == if q < p then s.At(0) else Idle
  }

  /** Opening a poll on the empty log leaves the worker waiting on the first order. */
  lemma BeginNext(s: Setting, w: World, p: nat, n: nat) returns (next: World)
    requires Opened(s, w, p, n) && p < n
    ensures Leads(s.Pol(), w, next) && Opened(s, next, p + 1, n)
  {
    next := Apply(s.Pol(), w, Begin(p));
    LeadsStep(s.Pol(), w, Begin(p));
    RecentAll(s.Opps(), 300, s.now / 1000);
    AtLeastOne(s.k, s.per);
    AdvanceTakesNext(s, p, [], 0);
    assert s.Opps()[0..] == s.Opps();
    assert DoneIds(s.Pol(), [], DateOf(s.now)) == {};
    assert Budget(s.Pol(), [], DateOf(s.now)) == Times(s.k, s.per);
  }

  lemma {:induction false} BeginsLead(s: Setting, w: World, p: nat, n: nat) returns (w': World)
    requires Opened(s, w, p, n)
    ensures Leads(s.Pol(), w, w') && Opened(s, w', n, n)
    decreases n - p
  {
    if p == n {
      w' := w;
      LeadsNowhere(s.Pol(), w);
    } else {
      var next := BeginNext(s, w, p, n);
      w' := BeginsLead(s, next, p + 1, n);
      LeadsOn(s.Pol(), w, next, w');
    }
  }

  /** Worker p is about to be answered on its i-th order, or done. */
  ghost predicate Answering(s: Setting, w: World, p: nat, i: nat) {
    s.Ok() && w.now == s.now && i <= s.k && p < |w.sessions| && w.sessions[p] == s.At(i)
  }

  /** Only worker p has gone on, and this much was accepted meanwhile. */
  ghost predicate Paid(w: World, w': World, p: nat, usd: real) {
    && w'.now == w.now && |w'.sessions| == |w.sessions|
    && (forall q :: 0 <= q < |w.sessions| && q != p ==> w'.sessions[q] == w.sessions[q])
    && AcceptedOn(w'.log, DateOf(w.now)) == AcceptedOn(w.log, DateOf(w.now)) + usd
  }

  lemma PaidTwice(w: World, next: World, w': World, p: nat, a: real, b: real)
    requires Paid(w, next, p, a) && Paid(next, w', p, b)
    ensures Paid(w, w', p, b + a)
  {
  }

  lemma AcceptOne(s: Setting, w: World, p: nat, i: nat) returns (next: World)
    requires Answering(s, w, p, i) && i < s.k
    ensures next == Apply(s.Pol(), w, Reply(p, Returned(true)))
    ensures Answering(s, next, p, i + 1) && Paid(w, next, p, s.per)
  {
    var e := ExecEvent(p, i, s.per, Accepted, s.now);
    next := Apply(s.Pol(), w, Reply(p, Returned(true)));
    AdvanceTakesNext(s, p, w.log + [e], i + 1);
    Append(w.log, e, DateOf(s.now), i);
  }

  lemma AcceptNext(s: Setting, w: World, p: nat, i: nat) returns (next: World)
    requires Answering(s, w, p, i) && i < s.k
    ensures Leads(s.Pol(), w, next) && Answering(s, next, p, i + 1) && Paid(w, next, p, s.per)
  {
    next := AcceptOne(s, w, p, i);
    LeadsStep(s.Pol(), w, Reply(p, Returned(true)));
  }

  /** Accepting the orders of one worker from the i-th on. */
  lemma {:induction false} AcceptsLead(s: Setting, w: World, p: nat, i: nat) returns (w': World)
    requires Answering(s, w, p, i)
    ensures Leads(s.Pol(), w, w') && Answering(s, w', p, s.k) && Paid(w, w', p, Times(s.k - i, s.per))
    decreases s.k - i
  {
    if i == s.k {
      w' := w;
      LeadsNowhere(s.Pol(), w);
    } else {
      var next := AcceptNext(s, w, p, i);
      w' := AcceptsLead(s, next, p, i + 1);
      PaidTwice(w, next, w', p, s.per, Times(s.k - i - 1, s.per));
      LeadsOn(s.Pol(), w, next, w');
    }
  }

  /** The workers from p on wait for the answer to their first order. */
  ghost predicate Queued(s: Setting, w: World, p: nat, n: nat) {
    s.Ok() && w.now == s.now && p <= n == |w.sessions| && forall q :: p <= q < n ==> w.sessions[q] == s.At(0)
  }

  ghost predicate Earned(w: World, w': World, d: nat, usd: real) {
    AcceptedOn(w'.log, d) == AcceptedOn(w.log, d) + usd
  }

  lemma EarnedTwice(w: World, next: World, w': World, d: nat, a: real, b: real)
    requires Earned(w, next, d, a) && Earned(next, w', d, b)
    ensures Earned(w, w', d, b + a)
  {
  }

  lemma AcceptWorker(s: Setting, w: World, p: nat, n: nat) returns (next: World)
    requires Queued(s, w, p, n) && p < n
    ensures Leads(s.Pol(), w, next)
    ensures Queued(s, next, p + 1, n) && Earned(w, next, DateOf(s.now), Times(s.k, s.per))
  {
    next := AcceptsLead(s, w, p, 0);
  }

  /** Accepting every order of every worker, one worker after the other. */
  lemma {:induction false} AcceptAllLead(s: Setting, w: World, p: nat, n: nat) returns (w': World)
    requires Queued(s, w, p, n)
    ensures Leads(s.Pol(), w, w') && Earned(w, w', DateOf(s.now), Times(n - p, Times(s.k, s.per)))
    decreases n - p
  {
    if p == n {
      w' := w;
      LeadsNowhere(s.Pol(), w);
    } else {
      var next := AcceptWorker(s, w, p, n);
      w' := AcceptAllLead(s, next, p + 1, n);
      EarnedTwice(w, next, w', DateOf(s.now), Times(s.k, s.per), Times(n - p - 1, Times(s.k, s.per)));
      LeadsOn(s.Pol(), w, next, w');
    }
  }

  /** k fresh opportunities, then n polls opened on the empty log, then every submit accepted. */
  lemma WorstRun(s: Setting, n: nat) returns (w': World)
    requires s.Ok()
    ensures Leads(s.Pol(), Init(s.now, n), w')
    ensures AcceptedOn(w'.log, DateOf(s.now)) == Times(n, Times(s.k, s.per))
  {
    var w0 := Init(s.now, n);
    var w1 := w0.(opps := s.Opps());
    assert s.Opps()[..s.k] == s.Opps();
    OffersLead(s, n, s.k);
    var w2 := BeginsLead(s, w1, 0, n);
    w' := AcceptAllLead(s, w2, 0, n);
    LeadsOn(s.Pol(), w0, w1, w2);
    LeadsOn(s.Pol(), w0, w2, w');
  }

  lemma SplitInto(k: nat, cap: real)
    requires k >= 1
    ensures Times(k, cap / k as real) == cap
  {
    TimesIsProduct(k, cap / k as real);
    Cancels(k as real, cap);
  }

  lemma Cancels(k: real, cap: real)
    requires k != 0.0
    ensures k * (cap / k) == cap
  {
  }

  lemma PartBounds(k: nat, cap: real, lo: real, hi: real)
    requires k >= 1 && k as real * lo <= cap <= k as real * hi
    ensures lo <= cap / k as real <= hi
  {
    var n, part := k as real, cap / k as real;
    Cancels(n, cap);
    assert n * part == cap;
    if part < lo { Grows(n, part, lo); }
    if hi < part { Grows(n, hi, part); }
  }

  lemma Grows(n: real, x: real, y: real)
    requires n >= 1.0 && x < y
    ensures n * x < n * y
  {
    assert n * y - n * x == n * (y - x);
    assert n * (y - x) >= y - x by {
      assert n * (y - x) - (y - x) == (n - 1.0) * (y - x);
    }
  }

  /**
   n workers together reach n times the cap on one date, for every cap that k orders can make up:
   between k times the minimum and k times the per-signal size.
   */
  lemma BoundIsReached(now: nat, cap: real, perSignal: real, k: nat, n: nat) returns (steps: seq<Step>)
    requires k >= 1 && k as real * MIN_SCALP_USD <= cap <= k as real * perSignal
    ensures AcceptedOn(Run(LateScalp(cap, perSignal), Init(now, n), steps).log, DateOf(now)) == n as real * cap
  {
    var s := Setting(now, cap / k as real, k, perSignal);
    PartBounds(k, cap, MIN_SCALP_USD, perSignal);
    SplitInto(k, cap);
    var w' := WorstRun(s, n);
    steps :| Run(s.Pol(), Init(s.now, n), steps) == w';
    TimesIsProduct(n, cap);
  }
}

/** What the wallet scanner's ring, flags and counters say about everything the wallets did. */
module WalletRing {

  import opened EnvText
  import opened WalletStream

  /** The trade times of one wallet, in the order they arrived. */
  function History(trades: seq<Trade>, w: string): seq<int> {
    if trades == [] then []
    else
      var t := trades[|trades| - 1];
      History(trades[..|trades| - 1], w) + if t.wallet == w then [t.ts] else []
  }

  function Tail(h: seq<int>): seq<int> {
    if |h| <= RING then h else h[|h| - RING..]
  }

  lemma PushTail(h: seq<int>, ts: int)
    ensures Push(Tail(h), ts) == Tail(h + [ts])
  {
  }

  /** A wallet is known exactly when it has a history; its ring is the tail of that and its count the length. */
  ghost predicate Ringed(wallets: map<string, Metrics>, w: string, h: seq<int>) {
    if w in wallets then h != [] && wallets[w].recent == Tail(h) && wallets[w].tradeCount == |h| else h == []
  }

  /** A trade of the wallet itself is pushed, and one of another wallet leaves it alone. */
  lemma RingPut(wallets: map<string, Metrics>, w: string, h: seq<int>, t: Trade, m: Metrics)
    requires Ringed(wallets, w, h)
    requires t.wallet == w ==> m.recent == Push(Tail(h), t.ts) && m.tradeCount == |h| + 1
    ensures Ringed(wallets[t.wallet := m], w, h + if t.wallet == w then [t.ts] else [])
  {
    if t.wallet == w { PushTail(h, t.ts); } else { assert h + [] == h; }
  }

  lemma RingStep(cfg: Config, st: State, t: Trade, w: string, h: seq<int>)
    requires w != "" && Ringed(st.wallets, w, h)
    ensures Ringed(Ingest(cfg, st, t).wallets, w, h + if t.wallet == w then [t.ts] else [])
  {
    if t.wallet == "" {
      assert h + [] == h;
    } else {
      RingPut(st.wallets, w, h, t, MarkBot(cfg, MarkWhale(cfg, Counted(Before(st, t), t), t), t));
    }
  }

  lemma {:induction false} RingIsTail(cfg: Config, trades: seq<Trade>, w: string)
    requires w != ""
    ensures Ringed(Run(cfg, trades).wallets, w, History(trades, w))
  {
    if trades != [] {
      var init, t := trades[..|trades| - 1], trades[|trades| - 1];
      RingIsTail(cfg, init, w);
      RingStep(cfg, Run(cfg, init), t, w, History(init, w));
    }
  }

  ghost predicate Ascending(h: seq<int>) {
    forall i, j :: 0 <= i < j < |h| ==> h[i] <= h[j]
  }

  lemma {:induction false} CountSplit(h: seq<int>, k: nat, cutoff: int)
    requires k <= |h|
    ensures CountSince(h, cutoff) == CountSince(h[..k], cutoff) + CountSince(h[k..], cutoff)
  {
    if k == |h| {
      assert h[..k] == h;
    } else {
      var init := h[..|h| - 1];
      CountSplit(init, k, cutoff);
      assert init[..k] == h[..k] && h[k..][..|h| - 1 - k] == init[k..];
    }
  }

  lemma {:induction false} CountBounds(h: seq<int>, cutoff: int)
    ensures CountSince(h, cutoff) <= |h|
    ensures (forall i :: 0 <= i < |h| ==> h[i] >= cutoff) ==> CountSince(h, cutoff) == |h|
    ensures (forall i :: 0 <= i < |h| ==> h[i] < cutoff) ==> CountSince(h, cutoff) == 0
  {
    if h != [] {
      var init := h[..|h| - 1];
      CountBounds(init, cutoff);
    }
  }

  /** If the oldest ringed trade is inside the window, so is the whole ring; if not, nothing older is. */
  lemma TailWindow(h: seq<int>, k: nat, cutoff: int)
    requires Ascending(h) && k < |h|
    ensures h[k] >= cutoff ==> CountSince(h[k..], cutoff) == |h| - k
    ensures h[k] < cutoff ==> CountSince(h[..k], cutoff) == 0
  {
    CountBounds(h[..k], cutoff);
    CountBounds(h[k..], cutoff);
    if h[k] >= cutoff {
      assert forall i :: 0 <= i < |h| - k ==> h[k..][i] >= cutoff;
    } else {
      assert forall i :: 0 <= i < k ==> h[..k][i] < cutoff;
    }
  }

  /** The newest times from position k on count all since a cutoff, or the cutoff lies among them. */
  lemma NewestCount(h: seq<int>, k: nat, cutoff: int)
    requires Ascending(h) && k < |h|
    ensures var n := CountSince(h, cutoff);
            CountSince(h[k..], cutoff) == if n <= |h| - k then n else |h| - k
  {
    CountSplit(h, k, cutoff);
    CountBounds(h[k..], cutoff);
    TailWindow(h, k, cutoff);
  }

  /** On times that do not fall, the ring counts the trades since a cutoff exactly, up to its size. */
  lemma RingCounts(h: seq<int>, cutoff: int)
    requires Ascending(h)
    ensures CountSince(Tail(h), cutoff) == if CountSince(h, cutoff) <= RING then CountSince(h, cutoff) else RING
  {
    if |h| > RING { NewestCount(h, |h| - RING, cutoff); } else { CountBounds(h, cutoff); }
  }

  /** The wallet's ring once the next trade is in it. */
  function RingAfter(cfg: Config, trades: seq<Trade>, t: Trade): seq<int> {
    Counted(Before(Run(cfg, trades), t), t).recent
  }

  lemma HistoryAppend(trades: seq<Trade>, t: Trade)
    ensures History(trades + [t], t.wallet) == History(trades, t.wallet) + [t.ts]
  {
    assert (trades + [t])[..|trades|] == trades;
  }

  lemma RingNow(cfg: Config, trades: seq<Trade>, t: Trade)
    requires t.wallet != ""
    ensures RingAfter(cfg, trades, t) == Tail(History(trades + [t], t.wallet))
  {
    RingIsTail(cfg, trades, t.wallet);
    PushTail(History(trades, t.wallet), t.ts);
    HistoryAppend(trades, t);
  }

  /** The bot test, apart from the minimum spacing, on a list of trade times. */
  predicate Cadence(cfg: Config, times: seq<int>, t: Trade) {
    CountSince(times, Cutoff(cfg, t.ts)) >= cfg.minTrades
  }

  /**
   The count test on the ring after the next trade holds exactly when the threshold is at most 200 and
   it holds on the wallet's whole history; with the spacing this is the test the scanner makes.
   */
  lemma RingDecidesCadence(cfg: Config, trades: seq<Trade>, t: Trade)
    requires t.wallet != "" && Ascending(History(trades + [t], t.wallet))
    ensures Cadence(cfg, RingAfter(cfg, trades, t), t)
       <==> cfg.minTrades <= RING && Cadence(cfg, History(trades + [t], t.wallet), t)
    ensures var m := Counted(Before(Run(cfg, trades), t), t);
            IsBot(cfg, m, t)
            <==> && cfg.minTrades <= RING && Cadence(cfg, History(trades + [t], t.wallet), t)
                 && Exceeds(t.ts - m.lastFlaggedBotMs, cfg.dedupMs)
  {
    RingNow(cfg, trades, t);
    RingCounts(History(trades + [t], t.wallet), Cutoff(cfg, t.ts));
  }

  /** Out of order the ring can miss a trade inside the window: 200 late ones push out one that counts. */
  lemma LateTradesHide(early: int, cutoff: int)
    requires early < cutoff
    ensures var h := [cutoff] + seq(RING, _ => early);
            CountSince(h, cutoff) == 1 && CountSince(Tail(h), cutoff) == 0
  {
    var late := seq(RING, _ => early);
    var h := [cutoff] + late;
    CountSplit(h, 1, cutoff);
    assert h[..1] == [cutoff] && h[1..] == late && Tail(h) == late;
    assert [cutoff][..0] == [];
    CountBounds(late, cutoff);
  }

  // ---------------------------------------------------------------- flags

  /** When a wallet was flagged, in order. */
  function FlagTimes(flags: seq<Flag>, kind: Kind, w: string): seq<int> {
    if flags == [] then []
    else
      var f := flags[|flags| - 1];
      FlagTimes(flags[..|flags| - 1], kind, w) + if f.kind == kind && f.wallet == w then [f.ts] else []
  }

  ghost predicate Apart(times: seq<int>, dedupMs: JsNum) {
    forall i :: 0 < i < |times| ==> Exceeds(times[i] - times[i - 1], dedupMs)
  }

  function LastFlagged(m: Metrics, kind: Kind): int {
    if kind == Whale then m.lastFlaggedWhaleMs else m.lastFlaggedBotMs
  }

  lemma FlagAppend(flags: seq<Flag>, f: Flag, kind: Kind, w: string)
    ensures FlagTimes(flags + [f], kind, w)
         == if f.kind == kind && f.wallet == w then FlagTimes(flags, kind, w) + [f.ts] else FlagTimes(flags, kind, w)
  {
    assert (flags + [f])[..|flags|] == flags;
  }

  /** The trade raises a flag of this kind on this wallet. */
  predicate Raises(cfg: Config, m: Metrics, t: Trade, kind: Kind, w: string) {
    t.wallet == w && if kind == Whale then IsWhale(cfg, m, t) else IsBot(cfg, m, t)
  }

  lemma RaisedFlags(cfg: Config, flags: seq<Flag>, m: Metrics, t: Trade, kind: Kind, w: string)
    ensures FlagTimes(RaiseWhale(cfg, flags, m, t), kind, w)
         == if kind == Whale && Raises(cfg, m, t, Whale, w) then FlagTimes(flags, kind, w) + [t.ts]
            else FlagTimes(flags, kind, w)
    ensures FlagTimes(RaiseBot(cfg, flags, m, t), kind, w)
         == if kind == Bot && Raises(cfg, m, t, Bot, w) then FlagTimes(flags, kind, w) + [t.ts]
            else FlagTimes(flags, kind, w)
  {
    FlagAppend(flags, Flag(Whale, t.wallet, t.ts, 0), kind, w);
    FlagAppend(flags, Flag(Bot, t.wallet, t.ts, CountSince(m.recent, Cutoff(cfg, t.ts))), kind, w);
  }

  /** What one trade adds to a wallet's flags of one kind. */
  lemma IngestFlags(cfg: Config, st: State, t: Trade, kind: Kind, w: string)
    requires w != ""
    ensures FlagTimes(Ingest(cfg, st, t).flags, kind, w)
         == if Raises(cfg, Counted(Before(st, t), t), t, kind, w) then FlagTimes(st.flags, kind, w) + [t.ts]
            else FlagTimes(st.flags, kind, w)
  {
    if t.wallet != "" {
      var m := Counted(Before(st, t), t);
      RaisedFlags(cfg, st.flags, m, t, kind, w);
      RaisedFlags(cfg, RaiseWhale(cfg, st.flags, m, t), MarkWhale(cfg, m, t), t, kind, w);
    }
  }

  /** A raised flag is more than the dedup interval after the last one, and its time is kept as the last one. */
  lemma MarkedTimes(cfg: Config, m: Metrics, t: Trade, kind: Kind)
    ensures var on, last := Raises(cfg, m, t, kind, t.wallet), LastFlagged(m, kind);
            && (on ==> Exceeds(t.ts - last, cfg.dedupMs))
            && LastFlagged(MarkBot(cfg, MarkWhale(cfg, m, t), t), kind) == if on then t.ts else last
  {
  }

  /** The last of some flag times, 0 before the first one. */
  function LastTime(times: seq<int>): int {
    if times == [] then 0 else times[|times| - 1]
  }

  /** The flag times are apart, and the wallet's metrics hold the last one. */
  ghost predicate Kept(dedupMs: JsNum, wallets: map<string, Metrics>, kind: Kind, w: string, times: seq<int>) {
    Apart(times, dedupMs) && if w in wallets then LastFlagged(wallets[w], kind) == LastTime(times) else times == []
  }

  ghost predicate Flagged(cfg: Config, st: State, kind: Kind, w: string) {
    Kept(cfg.dedupMs, st.wallets, kind, w, FlagTimes(st.flags, kind, w))
  }

  lemma ApartAppend(times: seq<int>, ts: int, dedupMs: JsNum)
    requires Apart(times, dedupMs) && (times != [] ==> Exceeds(ts - times[|times| - 1], dedupMs))
    ensures Apart(times + [ts], dedupMs)
  {
  }

  /** Another flag time, far enough from the last one, goes with the metrics that hold it. */
  lemma KeptRaised(dedupMs: JsNum, wallets: map<string, Metrics>, kind: Kind, w: string, times: seq<int>,
                   ts: int, m: Metrics)
    requires Kept(dedupMs, wallets, kind, w, times) && LastFlagged(m, kind) == ts
    requires Exceeds(ts - LastTime(times), dedupMs)
    ensures Kept(dedupMs, wallets[w := m], kind, w, times + [ts])
  {
    ApartAppend(times, ts, dedupMs);
  }

  /** Metrics of another wallet, or with the same last flag time, change nothing. */
  lemma KeptPut(dedupMs: JsNum, wallets: map<string, Metrics>, kind: Kind, w: string, times: seq<int>,
                v: string, m: Metrics)
    requires Kept(dedupMs, wallets, kind, w, times)
    requires v == w ==> LastFlagged(m, kind) == LastTime(times)
    ensures Kept(dedupMs, wallets[v := m], kind, w, times)
  {
  }

  /** The metrics a trade starts from hold the wallet's last flag time. */
  lemma KeptBefore(cfg: Config, st: State, t: Trade, kind: Kind)
    requires Flagged(cfg, st, kind, t.wallet)
    ensures LastFlagged(Counted(Before(st, t), t), kind) == LastTime(FlagTimes(st.flags, kind, t.wallet))
  {
  }

  lemma FlaggedStep(cfg: Config, st: State, t: Trade, kind: Kind, w: string)
    requires w != "" && Flagged(cfg, st, kind, w)
    ensures Flagged(cfg, Ingest(cfg, st, t), kind, w)
  {
    if t.wallet != "" {
      var m, times := Counted(Before(st, t), t), FlagTimes(st.flags, kind, w);
      var after := MarkBot(cfg, MarkWhale(cfg, m, t), t);
      IngestFlags(cfg, st, t, kind, w);
      MarkedTimes(cfg, m, t, kind);
      if t.wallet == w { KeptBefore(cfg, st, t, kind); }
      if Raises(cfg, m, t, kind, w) {
        KeptRaised(cfg.dedupMs, st.wallets, kind, w, times, t.ts, after);
      } else {
        KeptPut(cfg.dedupMs, st.wallets, kind, w, times, t.wallet, after);
      }
    }
  }

  /** Flags of one kind on one wallet are more than the dedup interval apart. */
  lemma {:induction false} FlagsApart(cfg: Config, trades: seq<Trade>, kind: Kind, w: string)
    requires w != ""
    ensures Flagged(cfg, Run(cfg, trades), kind, w)
  {
    if trades != [] {
      FlagsApart(cfg, trades[..|trades| - 1], kind, w);
      FlaggedStep(cfg, Run(cfg, trades[..|trades| - 1]), trades[|trades| - 1], kind, w);
    }
  }

  /** The default interval is not a number, and then no flag is ever raised. */
  lemma DefaultIsNaN()
    ensures DEFAULT_DEDUP == "5 * 60 * 1000" && Number(DEFAULT_DEDUP) == NaN
  {
    var s := DEFAULT_DEDUP;
    assert s[0] == '5' && s[|s| - 1] == '0';
    TrimPlain(s);
    assert s[2] == '*';
  }

  lemma {:induction false} NaNNeverFlags(cfg: Config, trades: seq<Trade>)
    requires cfg.dedupMs == NaN
    ensures var st := Run(cfg, trades); st.flags == [] && st.whaleFlagsTotal == 0 && st.botFlagsTotal == 0
  {
    if trades != [] { NaNNeverFlags(cfg, trades[..|trades| - 1]); }
  }

  /** A first trade large and late enough for the threshold and the interval. */
  function FirstWhale(cfg: Config): Trade
    requires cfg.dedupMs.Num?
  {
    var ts := if cfg.dedupMs.value >= 0 then cfg.dedupMs.value + 1 else 1;
    Trade("w", if cfg.whaleUsd >= 0.0 then cfg.whaleUsd else 0.0, ts, false)
  }

  lemma FirstWhaleFlags(cfg: Config)
    requires cfg.dedupMs.Num?
    ensures Run(cfg, [FirstWhale(cfg)]).flags != []
  {
    var t := FirstWhale(cfg);
    assert [t][..0] == [];
    assert IsWhale(cfg, Counted(Before(INIT, t), t), t);
  }

  /** The scanner never flags anything, whatever is traded, exactly when the interval is not a number. */
  lemma SilentExactly(cfg: Config)
    ensures (forall trades :: Run(cfg, trades).flags == []) <==> cfg.dedupMs.NaN?
  {
    if cfg.dedupMs.NaN? {
      forall trades
        ensures Run(cfg, trades).flags == []
      {
        NaNNeverFlags(cfg, trades);
      }
    } else {
      FirstWhaleFlags(cfg);
    }
  }

  // ---------------------------------------------------------------- counters

  function Blank(trades: seq<Trade>): nat {
    if trades == [] then 0
    else Blank(trades[..|trades| - 1]) + if trades[|trades| - 1].wallet == "" then 1 else 0
  }

  function SumCounts(wallets: map<string, Metrics>, order: seq<string>): nat
    requires forall w :: w in order ==> w in wallets
  {
    if order == [] then 0
    else SumCounts(wallets, order[..|order| - 1]) + wallets[order[|order| - 1]].tradeCount
  }

  ghost predicate Lists(order: seq<string>, wallets: map<string, Metrics>) {
    && (forall w :: w in order <==> w in wallets)
    && (forall i, j :: 0 <= i < j < |order| ==> order[i] != order[j])
  }

  /** Setting one wallet's metrics changes the sum by the change of its count. */
  lemma {:induction false} SumUpdate(wallets: map<string, Metrics>, order: seq<string>, w: string, m: Metrics)
    requires forall x :: x in order ==> x in wallets
    requires forall i, j :: 0 <= i < j < |order| ==> order[i] != order[j]
    ensures SumCounts(wallets[w := m], order)
         == SumCounts(wallets, order) + if w in order then m.tradeCount - wallets[w].tradeCount else 0
  {
    if order != [] {
      var init, last := order[..|order| - 1], order[|order| - 1];
      assert order == init + [last];
      SumUpdate(wallets, init, w, m);
    }
  }

  /** One more trade of a wallet, known or new. */
  lemma PutStep(wallets: map<string, Metrics>, order: seq<string>, w: string, m: Metrics)
    requires Lists(order, wallets)
    requires m.tradeCount == if w in wallets then wallets[w].tradeCount + 1 else 1
    ensures var longer := if w in wallets then order else order + [w];
            Lists(longer, wallets[w := m]) && SumCounts(wallets[w := m], longer) == SumCounts(wallets, order) + 1
  {
    SumUpdate(wallets, order, w, m);
    if w !in wallets { PutNew(wallets, order, w, m); }
  }

  lemma PutNew(wallets: map<string, Metrics>, order: seq<string>, w: string, m: Metrics)
    requires Lists(order, wallets) && w !in wallets
    ensures Lists(order + [w], wallets[w := m])
    ensures SumCounts(wallets[w := m], order + [w]) == SumCounts(wallets[w := m], order) + m.tradeCount
  {
    assert (order + [w])[..|order|] == order;
  }

  lemma CountStep(cfg: Config, st: State, t: Trade)
    requires Lists(st.order, st.wallets)
    ensures var after := Ingest(cfg, st, t);
            && Lists(after.order, after.wallets) && after.activityTotal == st.activityTotal + 1
            && SumCounts(after.wallets, after.order)
               == SumCounts(st.wallets, st.order) + if t.wallet == "" then 0 else 1
  {
    if t.wallet != "" {
      PutStep(st.wallets, st.order, t.wallet, MarkBot(cfg, MarkWhale(cfg, Counted(Before(st, t), t), t), t));
    }
  }

  /** The per-wallet trade counts add up to the activity that named a wallet. */
  lemma {:induction false} CountsAddUp(cfg: Config, trades: seq<Trade>)
    ensures var st := Run(cfg, trades);
            && Lists(st.order, st.wallets) && st.activityTotal == |trades|
            && SumCounts(st.wallets, st.order) + Blank(trades) == st.activityTotal
  {
    if trades != [] {
      CountsAddUp(cfg, trades[..|trades| - 1]);
      CountStep(cfg, Run(cfg, trades[..|trades| - 1]), trades[|trades| - 1]);
    }
  }
}

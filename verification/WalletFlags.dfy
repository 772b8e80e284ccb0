/**
 When the wallet scanner raises a flag, told from the trades alone, and what its metrics and counters add up to.
 */
module WalletFlags {

  import opened EnvText
  import opened WalletRing
  import opened WalletStream

  // ---------------------------------------------------------------- flags

  /** When the wallet was last flagged in this way, 0 if never. */
  function LastFlag(flags: seq<Flag>, kind: Kind, w: string): int {
    if flags == [] then 0
    else
      var f := flags[|flags| - 1];
      if f.kind == kind && f.wallet == w then f.ts else LastFlag(flags[..|flags| - 1], kind, w)
  }

  lemma {:induction false} LastFlagIs(flags: seq<Flag>, kind: Kind, w: string)
    ensures LastFlag(flags, kind, w) == LastTime(FlagTimes(flags, kind, w))
  {
    if flags != [] {
      LastFlagIs(flags[..|flags| - 1], kind, w);
    }
  }

  /** More than the interval has passed, which is never so for an interval that is not a number. */
  predicate Over(cfg: Config, since: int, ts: int) {
    cfg.dedupMs.Num? && ts - since > cfg.dedupMs.value
  }

  /** How many of the wallet's trades lie in the window that ends at ts. */
  function InWindow(cfg: Config, trades: seq<Trade>, w: string, ts: int): nat {
    if trades == [] then 0
    else
      var t := trades[|trades| - 1];
      InWindow(cfg, trades[..|trades| - 1], w, ts)
      + if t.wallet == w && t.ts >= ts - cfg.windowSec * 1000 then 1 else 0
  }

  lemma {:induction false} WindowCount(cfg: Config, trades: seq<Trade>, w: string, ts: int)
    ensures InWindow(cfg, trades, w, ts) == CountSince(History(trades, w), ts - cfg.windowSec * 1000)
  {
    if trades != [] {
      var init, t := trades[..|trades| - 1], trades[|trades| - 1];
      var h := History(init, w);
      WindowCount(cfg, init, w, ts);
      assert (h + [t.ts])[..|h|] == h && h + [] == h;
    }
  }

  /** A trade of the threshold's size, more than the interval after the wallet's last whale flag. */
  ghost predicate WhaleDue(cfg: Config, flags: seq<Flag>, t: Trade) {
    t.usd >= cfg.whaleUsd && Over(cfg, LastFlag(flags, Whale, t.wallet), t.ts)
  }

  /**
   Enough of the wallet's trades, this one included, lie in the window that it ends, the threshold is one the ring can
   reach, and more than the interval has passed since the wallet's last bot flag.
   */
  ghost predicate BotDue(cfg: Config, trades: seq<Trade>, flags: seq<Flag>, t: Trade) {
    && cfg.minTrades <= 200 && InWindow(cfg, trades + [t], t.wallet, t.ts) >= cfg.minTrades
    && Over(cfg, LastFlag(flags, Bot, t.wallet), t.ts)
  }

  lemma WhaleTest(cfg: Config, trades: seq<Trade>, t: Trade)
    requires t.wallet != ""
    ensures var st := Run(cfg, trades);
            IsWhale(cfg, Counted(Before(st, t), t), t) <==> WhaleDue(cfg, st.flags, t)
  {
    var st := Run(cfg, trades);
    FlagsApart(cfg, trades, Whale, t.wallet);
    KeptBefore(cfg, st, t, Whale);
    LastFlagIs(st.flags, Whale, t.wallet);
  }

  lemma TailCount(cfg: Config, trades: seq<Trade>, w: string, ts: int)
    requires Ascending(History(trades, w))
    ensures var n := InWindow(cfg, trades, w, ts);
            CountSince(Tail(History(trades, w)), Cutoff(cfg, ts)) == if n <= 200 then n else 200
  {
    RingCounts(History(trades, w), Cutoff(cfg, ts));
    WindowCount(cfg, trades, w, ts);
  }

  /** What the scanner counts in its ring is the number of trades in the window, up to 200. */
  lemma RingWindow(cfg: Config, trades: seq<Trade>, t: Trade)
    requires t.wallet != "" && Ascending(History(trades + [t], t.wallet))
    ensures var n := InWindow(cfg, trades + [t], t.wallet, t.ts);
            CountSince(Counted(Before(Run(cfg, trades), t), t).recent, Cutoff(cfg, t.ts)) == if n <= 200 then n else 200
  {
    RingNow(cfg, trades, t);
    TailCount(cfg, trades + [t], t.wallet, t.ts);
  }

  lemma BotTest(cfg: Config, trades: seq<Trade>, t: Trade)
    requires t.wallet != "" && Ascending(History(trades + [t], t.wallet))
    ensures var st := Run(cfg, trades);
            IsBot(cfg, Counted(Before(st, t), t), t) <==> BotDue(cfg, trades, st.flags, t)
  {
    var st := Run(cfg, trades);
    FlagsApart(cfg, trades, Bot, t.wallet);
    KeptBefore(cfg, st, t, Bot);
    LastFlagIs(st.flags, Bot, t.wallet);
    RingWindow(cfg, trades, t);
  }

  /** A whale mark does not touch what the bot test looks at. */
  lemma MarkApart(cfg: Config, m: Metrics, t: Trade)
    ensures IsBot(cfg, MarkWhale(cfg, m, t), t) <==> IsBot(cfg, m, t)
    ensures MarkWhale(cfg, m, t).recent == m.recent
  {
  }

  /**
   One more trade, on times of its wallet that do not fall: the flags it adds, in order, are a whale flag exactly
   when one is due and a bot flag exactly when one is, with the number of trades in the window, up to 200.
   */
  lemma FlagsExactly(cfg: Config, trades: seq<Trade>, t: Trade)
    requires t.wallet != "" ==> Ascending(History(trades + [t], t.wallet))
    ensures var flags := Run(cfg, trades).flags;
            var n := InWindow(cfg, trades + [t], t.wallet, t.ts);
            Run(cfg, trades + [t]).flags
            == flags + (if t.wallet != "" && WhaleDue(cfg, flags, t) then [Flag(Whale, t.wallet, t.ts, 0)] else [])
                     + (if t.wallet != "" && BotDue(cfg, trades, flags, t)
                        then [Flag(Bot, t.wallet, t.ts, if n <= 200 then n else 200)] else [])
  {
    var st := Run(cfg, trades);
    assert (trades + [t])[..|trades|] == trades;
    assert st.flags + [] == st.flags;
    if t.wallet != "" {
      var m := Counted(Before(st, t), t);
      WhaleTest(cfg, trades, t);
      BotTest(cfg, trades, t);
      MarkApart(cfg, m, t);
      RingWindow(cfg, trades, t);
      assert RaiseWhale(cfg, st.flags, m, t) + [] == RaiseWhale(cfg, st.flags, m, t);
    }
  }

  // ---------------------------------------------------------------- the interval

  /** A number in decimal. */
  function Printed(n: nat): (s: string)
    ensures s != ""
  {
    if n < 10 then [Digit(n)] else Printed(n / 10) + [Digit(n % 10)]
  }

  lemma {:induction false} PrintedDecimal(n: nat)
    ensures (forall i :: 0 <= i < |Printed(n)| ==> IsDigit(Printed(n)[i])) && Decimal(Printed(n)) == n
  {
    var s := Printed(n);
    if n < 10 {
      assert s[..0] == "" && Decimal("") == 0;
    } else {
      PrintedDecimal(n / 10);
      assert s[..|s| - 1] == Printed(n / 10);
    }
  }

  /** Every whole number is read back from its decimal text. */
  lemma NumberPrinted(n: nat)
    ensures Number(Printed(n)) == Num(n)
  {
    var s := Printed(n);
    PrintedDecimal(n);
    assert IsDigit(s[0]) && IsDigit(s[|s| - 1]);
    TrimPlain(s);
  }

  // ---------------------------------------------------------------- metrics and counters

  /** What one wallet's trades come to: the first and last time, their USD, and how many look like crypto. */
  datatype Sums = Sums(first: int, last: int, usd: real, crypto: nat)

  function SumsOf(trades: seq<Trade>, w: string): Sums {
    if trades == [] then Sums(0, 0, 0.0, 0)
    else
      var t, before := trades[|trades| - 1], SumsOf(trades[..|trades| - 1], w);
      if t.wallet != w then before
      else
        Sums(if History(trades[..|trades| - 1], w) == [] then t.ts else before.first, t.ts, before.usd + t.usd,
             before.crypto + if t.crypto then 1 else 0)
  }

  lemma IngestSums(cfg: Config, st: State, t: Trade, w: string)
    requires w != ""
    ensures var after := Ingest(cfg, st, t);
            if t.wallet != w then
              (w in after.wallets <==> w in st.wallets) && (w in st.wallets ==> after.wallets[w] == st.wallets[w])
            else
              && w in after.wallets
              && var m, before := after.wallets[w], Before(st, t);
                 && m.firstSeenMs == before.firstSeenMs && m.lastTradeMs == t.ts
                 && m.totalUsd == before.totalUsd + t.usd
                 && m.cryptoCount == before.cryptoCount + if t.crypto then 1 else 0
  {
  }

  /** A known wallet's metrics are the sums over its trades. */
  lemma {:induction false} MetricsAddUp(cfg: Config, trades: seq<Trade>, w: string)
    requires w != ""
    ensures var st, sums := Run(cfg, trades), SumsOf(trades, w);
            w in st.wallets ==>
              && st.wallets[w].firstSeenMs == sums.first && st.wallets[w].lastTradeMs == sums.last
              && st.wallets[w].totalUsd == sums.usd && st.wallets[w].cryptoCount == sums.crypto
    ensures w !in Run(cfg, trades).wallets ==> SumsOf(trades, w) == Sums(0, 0, 0.0, 0)
  {
    if trades != [] {
      var init, t := trades[..|trades| - 1], trades[|trades| - 1];
      MetricsAddUp(cfg, init, w);
      RingIsTail(cfg, init, w);
      IngestSums(cfg, Run(cfg, init), t, w);
    }
  }

  function CountKind(flags: seq<Flag>, kind: Kind): nat {
    if flags == [] then 0
    else CountKind(flags[..|flags| - 1], kind) + if flags[|flags| - 1].kind == kind then 1 else 0
  }

  lemma KindAppend(flags: seq<Flag>, f: Flag, kind: Kind)
    ensures CountKind(flags + [f], kind) == CountKind(flags, kind) + if f.kind == kind then 1 else 0
  {
    assert (flags + [f])[..|flags|] == flags;
  }

  /** The two totals count the flags raised. */
  lemma {:induction false} TotalsAddUp(cfg: Config, trades: seq<Trade>)
    ensures var st := Run(cfg, trades);
            st.whaleFlagsTotal == CountKind(st.flags, Whale) && st.botFlagsTotal == CountKind(st.flags, Bot)
  {
    if trades != [] {
      var init, t := trades[..|trades| - 1], trades[|trades| - 1];
      var st := Run(cfg, init);
      TotalsAddUp(cfg, init);
      if t.wallet != "" { TotalsStep(cfg, st, t); }
    }
  }

  lemma TotalsStep(cfg: Config, st: State, t: Trade)
    requires t.wallet != ""
    ensures var after := Ingest(cfg, st, t);
            && after.whaleFlagsTotal - st.whaleFlagsTotal == CountKind(after.flags, Whale) - CountKind(st.flags, Whale)
            && after.botFlagsTotal - st.botFlagsTotal == CountKind(after.flags, Bot) - CountKind(st.flags, Bot)
  {
    var m := Counted(Before(st, t), t);
    var m2, flags := MarkWhale(cfg, m, t), RaiseWhale(cfg, st.flags, m, t);
    var whale := Flag(Whale, t.wallet, t.ts, 0);
    var bot := Flag(Bot, t.wallet, t.ts, CountSince(m2.recent, Cutoff(cfg, t.ts)));
    KindAppend(st.flags, whale, Whale);
    KindAppend(st.flags, whale, Bot);
    KindAppend(flags, bot, Whale);
    KindAppend(flags, bot, Bot);
  }

  /** Wallets are listed in the order of their first trades. */
  lemma {:induction false} ListedByFirstTrade(cfg: Config, trades: seq<Trade>)
    ensures Run(cfg, trades).order == Firsts(trades)
  {
    if trades != [] {
      var init, t := trades[..|trades| - 1], trades[|trades| - 1];
      ListedByFirstTrade(cfg, init);
      if t.wallet != "" { RingIsTail(cfg, init, t.wallet); }
    }
  }

  /** The wallets that trade, each where it trades first. */
  function Firsts(trades: seq<Trade>): seq<string> {
    if trades == [] then []
    else
      var init, t := trades[..|trades| - 1], trades[|trades| - 1];
      Firsts(init) + if t.wallet == "" || History(init, t.wallet) != [] then [] else [t.wallet]
  }
}

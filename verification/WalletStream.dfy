/**
 The wallet scanner: metrics per wallet, a ring of its last 200 trade times, and the whale
 and bot flags with their minimum spacing. Amounts are exact.
 */
module WalletStream {

  import opened EnvText

  const RING := 200

  /** A JavaScript number as far as it matters here. */
  datatype JsNum = NaN | Num(value: int)

  /** a > b, which is false when b is NaN. */
  predicate Exceeds(a: int, b: JsNum) {
    b.Num? && a > b.value
  }

  /** Decimal value of a string of digits. */
  function Decimal(s: string): nat
    requires forall i :: 0 <= i < |s| ==> IsDigit(s[i])
  {
    if s == [] then 0 else Decimal(s[..|s| - 1]) * 10 + Val(s[|s| - 1])
  }

  /** Number(s) for decimal integers; anything else is NaN here. */
  function Number(s: string): JsNum {
    var t := Trim(s);
    if forall i :: 0 <= i < |t| ==> IsDigit(t[i]) then Num(Decimal(t)) else NaN
  }

  const DEFAULT_DEDUP := "5 * 60 * 1000"

  datatype Config = Config(whaleUsd: real, windowSec: int, minTrades: int, dedupMs: JsNum)

  /** `wallet` is in lower case, "" when the payload has none; `ts` is in ms. */
  datatype Trade = Trade(wallet: string, usd: real, ts: int, crypto: bool)

  datatype Metrics = Metrics(firstSeenMs: int, lastTradeMs: int, tradeCount: nat, totalUsd: real, cryptoCount: nat,
                             recent: seq<int>, lastFlaggedWhaleMs: int, lastFlaggedBotMs: int)

  datatype Kind = Whale | Bot

  datatype Flag = Flag(kind: Kind, wallet: string, ts: int, inWindow: nat)

  /** `order` lists the wallets in the order they were first seen, as the map iterates them. */
  datatype State = State(wallets: map<string, Metrics>, order: seq<string>, activityTotal: nat, whaleFlagsTotal: nat,
                         botFlagsTotal: nat, flags: seq<Flag>)

  const INIT := State(map[], [], 0, 0, 0, [])

  function Fresh(ts: int): Metrics {
    Metrics(ts, ts, 0, 0.0, 0, [], 0, 0)
  }

  /** Push, and shift when the ring is longer than 200. */
  function Push(ring: seq<int>, ts: int): seq<int> {
    var longer := ring + [ts];
    if |longer| > RING then longer[1..] else longer
  }

  function CountSince(times: seq<int>, cutoff: int): nat {
    if times == [] then 0
    else CountSince(times[..|times| - 1], cutoff) + if times[|times| - 1] >= cutoff then 1 else 0
  }

  function Cutoff(cfg: Config, ts: int): int {
    ts - cfg.windowSec * 1000
  }

  /** The metrics of a wallet before the trade, and with it counted in but no flag raised yet. */
  function Before(st: State, t: Trade): Metrics {
    if t.wallet in st.wallets then st.wallets[t.wallet] else Fresh(t.ts)
  }

  function Counted(m: Metrics, t: Trade): Metrics {
    m.(lastTradeMs := t.ts, tradeCount := m.tradeCount + 1, totalUsd := m.totalUsd + t.usd,
       cryptoCount := m.cryptoCount + (if t.crypto then 1 else 0), recent := Push(m.recent, t.ts))
  }

  predicate IsWhale(cfg: Config, m: Metrics, t: Trade) {
    t.usd >= cfg.whaleUsd && Exceeds(t.ts - m.lastFlaggedWhaleMs, cfg.dedupMs)
  }

  predicate IsBot(cfg: Config, m: Metrics, t: Trade) {
    CountSince(m.recent, Cutoff(cfg, t.ts)) >= cfg.minTrades && Exceeds(t.ts - m.lastFlaggedBotMs, cfg.dedupMs)
  }

  function MarkWhale(cfg: Config, m: Metrics, t: Trade): Metrics {
    if IsWhale(cfg, m, t) then m.(lastFlaggedWhaleMs := t.ts) else m
  }

  function MarkBot(cfg: Config, m: Metrics, t: Trade): Metrics {
    if IsBot(cfg, m, t) then m.(lastFlaggedBotMs := t.ts) else m
  }

  function RaiseWhale(cfg: Config, flags: seq<Flag>, m: Metrics, t: Trade): seq<Flag> {
    if IsWhale(cfg, m, t) then flags + [Flag(Whale, t.wallet, t.ts, 0)] else flags
  }

  function RaiseBot(cfg: Config, flags: seq<Flag>, m: Metrics, t: Trade): seq<Flag> {
    if IsBot(cfg, m, t) then flags + [Flag(Bot, t.wallet, t.ts, CountSince(m.recent, Cutoff(cfg, t.ts)))] else flags
  }

  function Ingest(cfg: Config, st: State, t: Trade): State {
    if t.wallet == "" then st.(activityTotal := st.activityTotal + 1)
    else
      var m := Counted(Before(st, t), t);
      var m2 := MarkWhale(cfg, m, t);
      State(st.wallets[t.wallet := MarkBot(cfg, m2, t)],
            if t.wallet in st.wallets then st.order else st.order + [t.wallet],
            st.activityTotal + 1,
            st.whaleFlagsTotal + (if IsWhale(cfg, m, t) then 1 else 0),
            st.botFlagsTotal + (if IsBot(cfg, m2, t) then 1 else 0),
            RaiseBot(cfg, RaiseWhale(cfg, st.flags, m, t), m2, t))
  }

  function Run(cfg: Config, trades: seq<Trade>): State {
    if trades == [] then INIT else Ingest(cfg, Run(cfg, trades[..|trades| - 1]), trades[|trades| - 1])
  }

  class Scanner {
    const cfg: Config
    var wallets: map<string, Metrics>
    var order: seq<string>
    var activityTotal: nat
    var whaleFlagsTotal: nat
    var botFlagsTotal: nat
    var flags: seq<Flag>

    function Snapshot(): State
      reads this
    {
      State(wallets, order, activityTotal, whaleFlagsTotal, botFlagsTotal, flags)
    }

    constructor (cfg: Config)
      ensures Snapshot() == INIT && this.cfg == cfg
    {
      this.cfg := cfg;
      wallets, order, flags := map[], [], [];
      activityTotal, whaleFlagsTotal, botFlagsTotal := 0, 0, 0;
    }

    /** The filter over the ring. */
    static method CountRecent(ring: seq<int>, cutoff: int) returns (n: nat)
      ensures n == CountSince(ring, cutoff)
    {
      n := 0;
      for i := 0 to |ring|
        invariant n == CountSince(ring[..i], cutoff)
      {
        assert ring[..i + 1][..i] == ring[..i];
        if ring[i] >= cutoff { n := n + 1; }
      }
      assert ring[..|ring|] == ring;
    }

    method IngestTrade(t: Trade)
      modifies this
      ensures Snapshot() == Ingest(cfg, old(Snapshot()), t)
    {
      activityTotal := activityTotal + 1;
      if t.wallet == "" { return; }
      var m: Metrics;
      if t.wallet in wallets {
        m := wallets[t.wallet];
      } else {
        m := Fresh(t.ts);
        order := order + [t.wallet];
      }
      m := CountTrade(m, t);
      m := FlagWhale(m, t);
      m := FlagBot(m, t);
      wallets := wallets[t.wallet := m];
    }

    /** Counters and the ring. */
    static method CountTrade(before: Metrics, t: Trade) returns (m: Metrics)
      ensures m == Counted(before, t)
    {
      m := before.(lastTradeMs := t.ts, tradeCount := before.tradeCount + 1, totalUsd := before.totalUsd + t.usd);
      if t.crypto { m := m.(cryptoCount := m.cryptoCount + 1); }
      m := m.(recent := m.recent + [t.ts]);
      if |m.recent| > RING { m := m.(recent := m.recent[1..]); }
    }

    /** The whale flag. */
    method FlagWhale(before: Metrics, t: Trade) returns (m: Metrics)
      modifies this`whaleFlagsTotal, this`flags
      ensures m == MarkWhale(cfg, before, t) && flags == RaiseWhale(cfg, old(flags), before, t)
      ensures whaleFlagsTotal == old(whaleFlagsTotal) + if IsWhale(cfg, before, t) then 1 else 0
    {
      m := before;
      if t.usd >= cfg.whaleUsd && Exceeds(t.ts - m.lastFlaggedWhaleMs, cfg.dedupMs) {
        m := m.(lastFlaggedWhaleMs := t.ts);
        whaleFlagsTotal := whaleFlagsTotal + 1;
        flags := flags + [Flag(Whale, t.wallet, t.ts, 0)];
      }
    }

    /** The bot cadence flag. */
    method FlagBot(before: Metrics, t: Trade) returns (m: Metrics)
      modifies this`botFlagsTotal, this`flags
      ensures m == MarkBot(cfg, before, t) && flags == RaiseBot(cfg, old(flags), before, t)
      ensures botFlagsTotal == old(botFlagsTotal) + if IsBot(cfg, before, t) then 1 else 0
    {
      m := before;
      var recent := CountRecent(m.recent, t.ts - cfg.windowSec * 1000);
      if recent >= cfg.minTrades && Exceeds(t.ts - m.lastFlaggedBotMs, cfg.dedupMs) {
        m := m.(lastFlaggedBotMs := t.ts);
        botFlagsTotal := botFlagsTotal + 1;
        flags := flags + [Flag(Bot, t.wallet, t.ts, recent)];
      }
    }
  }
}

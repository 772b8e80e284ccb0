/** What one poll of the wallet observer logs, marks as seen and leaves for later, trade by trade. */
module ObservePolls {

  import opened ObserveWallet

  /** Trade j has an id, is not in the seen-set and is not listed earlier in the same poll. */
  predicate IsNew(seen: set<Key>, wallet: string, txs: seq<string>, j: nat)
    requires j < |txs|
  {
    txs[j] != "" && (wallet, txs[j]) !in seen && txs[j] !in txs[..j]
  }

  /** The entries of the new ones among the first n trades. */
  function Entries(seen: set<Key>, wallet: string, txs: seq<string>, n: nat, now: nat): seq<Entry>
    requires n <= |txs|
  {
    if n == 0 then []
    else
      Entries(seen, wallet, txs, n - 1, now)
      + if IsNew(seen, wallet, txs, n - 1) then [Entry((wallet, txs[n - 1]), now)] else []
  }

  /** Keys of the first n trades that have an id. */
  ghost function Listed(wallet: string, txs: seq<string>, n: nat): set<Key>
    requires n <= |txs|
  {
    set j: nat | j < n && txs[j] != "" :: (wallet, txs[j])
  }

  /** The state after n trades none of which threw. */
  ghost function After(st: State, wallet: string, txs: seq<string>, n: nat, now: nat): State
    requires n <= |txs|
  {
    State(st.log + Entries(st.seen, wallet, txs, n, now), st.seen + Listed(wallet, txs, n), st.dropped)
  }

  lemma ListedMore(wallet: string, txs: seq<string>, n: nat)
    requires n < |txs|
    ensures Listed(wallet, txs, n + 1) == Listed(wallet, txs, n) + if txs[n] == "" then {} else {(wallet, txs[n])}
    ensures txs[n] != "" ==> ((wallet, txs[n]) in Listed(wallet, txs, n) <==> txs[n] in txs[..n])
  {
    if txs[n] in txs[..n] {
      var j :| 0 <= j < n && txs[..n][j] == txs[n];
      assert txs[j] == txs[n];
    }
  }

  lemma StepAfter(st: State, wallet: string, txs: seq<string>, n: nat, now: nat, ok: bool)
    requires n < |txs|
    ensures var s := After(st, wallet, txs, n, now);
            && (Throws(s, wallet, txs[n], ok) <==> !ok && IsNew(st.seen, wallet, txs, n))
            && (ok || !IsNew(st.seen, wallet, txs, n) ==>
                 Handle(s, wallet, txs[n], now, ok) == After(st, wallet, txs, n + 1, now))
            && (!ok && IsNew(st.seen, wallet, txs, n) ==>
                 var seen, dropped := st.seen + Listed(wallet, txs, n + 1), st.dropped + {(wallet, txs[n])};
                 Handle(s, wallet, txs[n], now, ok) == s.(seen := seen, dropped := dropped))
  {
    ListedMore(wallet, txs, n);
    LogMore(st, wallet, txs, n, now);
  }

  lemma LogMore(st: State, wallet: string, txs: seq<string>, n: nat, now: nat)
    requires n < |txs|
    ensures After(st, wallet, txs, n + 1, now).log
         == After(st, wallet, txs, n, now).log
            + if IsNew(st.seen, wallet, txs, n) then [Entry((wallet, txs[n]), now)] else []
  {
  }

  /** The poll ends with the first new trade whose classification throws, if there is one. */
  ghost predicate EndsAt(st: State, wallet: string, txs: seq<string>, fails: set<nat>, from: nat, k: nat) {
    && from <= k <= |txs|
    && (forall j :: from <= j < k && IsNew(st.seen, wallet, txs, j) ==> j !in fails)
    && (k < |txs| ==> IsNew(st.seen, wallet, txs, k) && k in fails)
  }

  /** The state a poll leaves that ends with trade k. */
  ghost function Left(st: State, wallet: string, txs: seq<string>, k: nat, now: nat): State
    requires k <= |txs|
  {
    if k == |txs| then After(st, wallet, txs, k, now)
    else
      State(st.log + Entries(st.seen, wallet, txs, k, now), st.seen + Listed(wallet, txs, k + 1),
            st.dropped + {(wallet, txs[k])})
  }

  lemma {:induction false} PollFromExactly(st: State, wallet: string, txs: seq<string>, i: nat, now: nat,
                                           fails: set<nat>)
    returns (k: nat)
    requires i <= |txs|
    ensures EndsAt(st, wallet, txs, fails, i, k)
    ensures PollFrom(After(st, wallet, txs, i, now), wallet, txs, i, now, fails) == Left(st, wallet, txs, k, now)
    ensures Aborts(After(st, wallet, txs, i, now), wallet, txs, i, now, fails) <==> k < |txs|
    decreases |txs| - i
  {
    k := i;
    if i < |txs| {
      StepAfter(st, wallet, txs, i, now, i !in fails);
      if !(i in fails && IsNew(st.seen, wallet, txs, i)) {
        k := PollFromExactly(st, wallet, txs, i + 1, now, fails);
      }
    }
  }

  /**
   A poll goes through the trades up to the first new one that cannot be classified. It logs the new ones
   before it, marks everything it went through as seen, and drops the one it could not classify.
   */
  lemma PollExactly(st: State, wallet: string, txs: seq<string>, now: nat, fails: set<nat>) returns (k: nat)
    ensures EndsAt(st, wallet, txs, fails, 0, k)
    ensures PollFrom(st, wallet, txs, 0, now, fails) == Left(st, wallet, txs, k, now)
    ensures Aborts(st, wallet, txs, 0, now, fails) <==> k < |txs|
  {
    assert After(st, wallet, txs, 0, now) == st;
    k := PollFromExactly(st, wallet, txs, 0, now, fails);
  }
}

/** What the request windows of the historical candle backfill cover, second by second and candle by candle. */
module CandleTiling {

  import opened CandleTable
  import opened CandleWindows

  /** Where window k ends: at `earliest`, or one second before the start of the window before it. */
  function End(since: int, g: nat, earliest: int, k: nat): int {
    if k == 0 then earliest else WindowAt(since, g, End(since, g, earliest, k - 1)).start - 1
  }

  /** The windows follow each other one second apart, down from `earliest`, and none is begun at or below `since`. */
  ghost predicate Tiles(windows: seq<Window>, since: int, g: nat, earliest: int) {
    forall k :: 0 <= k < |windows| ==>
      windows[k] == WindowAt(since, g, End(since, g, earliest, k)) && End(since, g, earliest, k) > since
  }

  lemma TilesExtend(windows: seq<Window>, since: int, g: nat, earliest: int)
    requires Tiles(windows, since, g, earliest) && End(since, g, earliest, |windows|) > since
    ensures Tiles(windows + [WindowAt(since, g, End(since, g, earliest, |windows|))], since, g, earliest)
  {
  }

  /** Every walk fetches a tiling; one that reaches `since` has gone past it and one cut off has not. */
  lemma {:induction false} WalkTiles(since: int, g: nat, end: int, replies: seq<Reply>, empties: nat,
                                     windows: seq<Window>, stored: set<int>, earliest: int)
    requires Tiles(windows, since, g, earliest) && end == End(since, g, earliest, |windows|)
    ensures var w := Walk(since, g, end, replies, empties, windows, stored);
            && Tiles(w.windows, since, g, earliest)
            && (w.stop == ReachedSince ==> End(since, g, earliest, |w.windows|) <= since)
            && (w.stop == Killed ==> End(since, g, earliest, |w.windows|) > since)
    decreases |replies|
  {
    if end > since && replies != [] {
      var w := WindowAt(since, g, end);
      match replies[0] {
        case Fails => WalkTiles(since, g, end, replies[1..], empties, windows, stored, earliest);
        case Page(rows) =>
          TilesExtend(windows, since, g, earliest);
          var n := if |rows| > 0 then 0 else empties + 1;
          var after := if |rows| > 0 then stored + Rows(rows) else stored;
          if n < 3 { WalkTiles(since, g, w.start - 1, replies[1..], n, windows + [w], after, earliest); }
      }
    }
  }

  // ---------------------------------------------------------------- seconds

  lemma {:induction false} EndsDescend(since: int, g: nat, earliest: int, j: nat, k: nat)
    requires j < k && End(since, g, earliest, j) > since
    ensures End(since, g, earliest, k) < WindowAt(since, g, End(since, g, earliest, j)).start
    decreases k
  {
    if j < k - 1 {
      EndsDescend(since, g, earliest, j, k - 1);
    }
  }

  /** Later windows lie wholly before earlier ones, so no second is asked for twice. */
  lemma Disjoint(windows: seq<Window>, since: int, g: nat, earliest: int, j: nat, k: nat)
    requires Tiles(windows, since, g, earliest) && j < k < |windows|
    ensures windows[k].end < windows[j].start
  {
    EndsDescend(since, g, earliest, j, k);
  }

  /** When the walk has reached `since`, every second after it and up to `earliest` was asked for. */
  lemma {:induction false} Covered(windows: seq<Window>, since: int, g: nat, earliest: int, t: int, n: nat)
    requires Tiles(windows, since, g, earliest) && n <= |windows|
    requires End(since, g, earliest, n) < t <= earliest && since < t
    ensures exists k :: 0 <= k < n && windows[k].Holds(t)
  {
    if End(since, g, earliest, n - 1) >= t {
      assert windows[n - 1].Holds(t);
    } else {
      Covered(windows, since, g, earliest, t, n - 1);
    }
  }

  /** While it stays above `since`, window k ends k spans and k seconds below `earliest`. */
  lemma {:induction false} EndIs(since: int, g: nat, earliest: int, k: nat)
    requires k > 0 ==> End(since, g, earliest, k - 1) - Span(g) >= since
    ensures End(since, g, earliest, k) == earliest - Times(k, Span(g) + 1)
  {
    if k > 1 {
      assert End(since, g, earliest, k - 1) >= since;
      EndIs(since, g, earliest, k - 1);
    }
  }

  /** k * n by addition. */
  function Times(k: nat, n: int): int {
    if k == 0 then 0 else Times(k - 1, n) + n
  }

  lemma {:induction false} TimesIs(k: nat, n: int)
    ensures Times(k, n) == k * n
  {
    if k > 0 { TimesIs(k - 1, n); }
  }

  lemma ModTimes(k: nat, n: nat, r: nat)
    requires r < n
    ensures (k * n + r) % n == r
  {
    DivModUnique(k * n + r, k, r, n);
  }

  lemma AtLeast(d: int, n: nat)
    requires d >= 1
    ensures d * n >= n
  {
  }

  lemma SmallMultiple(d: int, n: nat, e: int)
    requires e == d * n && e < n && -e < n
    ensures d == 0
  {
    if d >= 1 {
      AtLeast(d, n);
    } else if d <= -1 {
      AtLeast(-d, n);
    }
  }

  lemma DivModUnique(x: int, q: int, r: nat, n: nat)
    requires r < n && x == q * n + r
    ensures x / n == q && x % n == r
  {
    var q', r' := x / n, x % n;
    assert (q - q') * n == q * n - q' * n == r' - r;
    SmallMultiple(q - q', n, r' - r);
  }

  lemma SinceMod(since: int, g: nat, earliest: int, last: nat)
    requires End(since, g, earliest, last) > since >= End(since, g, earliest, last + 1)
    ensures WindowAt(since, g, End(since, g, earliest, last)).start == since
       <==> (earliest - since) % (Span(g) + 1) != 0
  {
    var end, n := End(since, g, earliest, last), Span(g) + 1;
    EndIs(since, g, earliest, last);
    TimesIs(last, n);
    if end - Span(g) <= since {
      ModTimes(last, n, end - since);
    } else {
      EndIs(since, g, earliest, last + 1);
      TimesIs(last + 1, n);
      ModTimes(last + 1, n, 0);
    }
  }

  /** `since` itself is asked for, except when a window starts right after it. */
  lemma SinceMissed(windows: seq<Window>, since: int, g: nat, earliest: int)
    requires Tiles(windows, since, g, earliest) && End(since, g, earliest, |windows|) <= since < earliest
    ensures (exists k :: 0 <= k < |windows| && windows[k].Holds(since)) <==> (earliest - since) % (Span(g) + 1) != 0
  {
    var last := |windows| - 1;
    SinceMod(since, g, earliest, last);
    forall k | 0 <= k < last ensures windows[k].start > since {
      Disjoint(windows, since, g, earliest, k, last);
    }
    assert windows[last].start == since ==> windows[last].Holds(since);
  }

  // ---------------------------------------------------------------- candles

  /** Candle starts (multiples of g) among the seconds lo up to hi. */
  function Starts(g: nat, lo: int, hi: int): nat
    requires g > 0
    decreases hi - lo + 1
  {
    if hi < lo then 0 else Starts(g, lo, hi - 1) + if hi % g == 0 then 1 else 0
  }

  lemma DivPrevious(x: int, g: nat)
    requires g > 0
    ensures x / g - (x - 1) / g == if x % g == 0 then 1 else 0
  {
    var q, r := x / g, x % g;
    assert x == q * g + r;
    if r == 0 {
      assert x - 1 == (q - 1) * g + (g - 1);
      DivModUnique(x - 1, q - 1, g - 1, g);
    } else {
      DivModUnique(x - 1, q, r - 1, g);
    }
  }

  lemma {:induction false} StartsCount(g: nat, lo: int, hi: int)
    requires g > 0 && lo <= hi + 1
    ensures Starts(g, lo, hi) == hi / g - (lo - 1) / g
    decreases hi - lo + 1
  {
    if lo <= hi {
      StartsCount(g, lo, hi - 1);
      DivPrevious(hi, g);
    }
  }

  lemma DivShift(x: int, g: nat, n: nat)
    requires g > 0
    ensures (x - n * g) / g == x / g - n
  {
    assert x - n * g == (x / g - n) * g + x % g;
    DivModUnique(x - n * g, x / g - n, x % g, g);
  }

  /** An unclamped window holds 350 candle starts, and one more exactly when it ends on one. */
  lemma FullWindowStarts(g: nat, end: int)
    requires g > 0
    ensures Starts(g, end - Span(g), end) == MAX_CANDLES + if end % g == 0 then 1 else 0
  {
    StartsCount(g, end - Span(g), end);
    DivShift(end - 1, g, MAX_CANDLES);
    DivPrevious(end, g);
  }
}

/**
 Which windows a run of the historical backfill asks for, when it stops and what it leaves behind, told
 by the answers alone: failed requests do not matter.
 */
module CandleStops {

  import opened CandleTable
  import opened CandleTiling
  import opened CandleWindows

  /** The pages among the replies, in order. */
  function Answers(replies: seq<Reply>): (a: seq<seq<int>>)
    ensures |a| <= |replies|
    decreases |replies|
  {
    if replies == [] then []
    else (if replies[0].Page? then [replies[0].rows] else []) + Answers(replies[1..])
  }

  /** The j-th answer and the two before it are empty. */
  ghost predicate Thrice(a: seq<seq<int>>, j: nat) {
    3 <= j <= |a| && a[j - 1] == [] && a[j - 2] == [] && a[j - 3] == []
  }

  ghost predicate NeverThrice(a: seq<seq<int>>, n: nat) {
    forall j: nat :: j <= n ==> !Thrice(a, j)
  }

  /** After c answers the walk stops: at the third empty one in a row, or with no three before it. */
  ghost predicate Halts(a: seq<seq<int>>, c: nat, stop: Stop) {
    match stop
    case ThreeEmpty => c > 0 && Thrice(a, c) && NeverThrice(a, c - 1)
    case Killed => c == |a| && NeverThrice(a, c)
    case ReachedSince => c <= |a| && NeverThrice(a, c)
  }

  /** The last `empties` answers are empty and the one before them is not. */
  ghost predicate Trails(a: seq<seq<int>>, empties: nat) {
    && empties <= 2 && empties <= |a|
    && (forall j :: |a| - empties <= j < |a| ==> a[j] == [])
    && (empties < |a| ==> a[|a| - empties - 1] != [])
  }

  /** The answers so far have not stopped the walk. */
  ghost predicate GoingOn(a: seq<seq<int>>, empties: nat) {
    Trails(a, empties) && NeverThrice(a, |a|)
  }

  lemma TrailsMore(a: seq<seq<int>>, empties: nat, rows: seq<int>)
    requires GoingOn(a, empties)
    ensures rows != [] ==> GoingOn(a + [rows], 0)
    ensures rows == [] && empties < 2 ==> GoingOn(a + [rows], empties + 1)
    ensures rows == [] && empties == 2 ==> Thrice(a + [rows], |a| + 1) && NeverThrice(a + [rows], |a|)
  {
    forall j: nat | j <= |a| ensures Thrice(a + [rows], j) == Thrice(a, j) {
    }
  }

  lemma HaltsFront(a: seq<seq<int>>, b: seq<seq<int>>, n: nat)
    requires n <= |a| && NeverThrice(a, n)
    ensures NeverThrice(a + b, n)
  {
    forall j: nat | j <= n ensures Thrice(a + b, j) == Thrice(a, j) {
    }
  }

  lemma AnswersNext(seen: seq<seq<int>>, replies: seq<Reply>)
    requires replies != []
    ensures replies[0].Fails? ==> Answers(replies) == Answers(replies[1..])
    ensures replies[0].Page? ==> seen + Answers(replies) == (seen + [replies[0].rows]) + Answers(replies[1..])
  {
  }

  /** Every walk stops by its answers. */
  lemma {:induction false} WalkHalts(since: int, g: nat, end: int, replies: seq<Reply>, empties: nat,
                                     windows: seq<Window>, stored: set<int>, seen: seq<seq<int>>)
    requires |seen| == |windows| && GoingOn(seen, empties)
    ensures var w := Walk(since, g, end, replies, empties, windows, stored);
            Halts(seen + Answers(replies), |w.windows|, w.stop)
    decreases |replies|
  {
    if end <= since || replies == [] {
      HaltsFront(seen, Answers(replies), |seen|);
    } else {
      AnswersNext(seen, replies);
      match replies[0] {
        case Fails => WalkHalts(since, g, end, replies[1..], empties, windows, stored, seen);
        case Page(rows) =>
          var w := WindowAt(since, g, end);
          var more := seen + [rows];
          TrailsMore(seen, empties, rows);
          if |rows| > 0 {
            WalkHalts(since, g, w.start - 1, replies[1..], 0, windows + [w], stored + Rows(rows), more);
          } else if empties < 2 {
            WalkHalts(since, g, w.start - 1, replies[1..], empties + 1, windows + [w], stored, more);
          } else {
            ThriceFront(more, Answers(replies[1..]));
          }
      }
    }
  }

  lemma ThriceFront(a: seq<seq<int>>, b: seq<seq<int>>)
    requires Thrice(a, |a|) && NeverThrice(a, |a| - 1)
    ensures Halts(a + b, |a|, ThreeEmpty)
  {
    HaltsFront(a, b, |a| - 1);
  }

  // ---------------------------------------------------------------- rows

  /** One of the first c answers holds a row at t. */
  ghost predicate Delivered(a: seq<seq<int>>, c: nat, t: int) {
    exists j: nat :: j < c && j < |a| && t in a[j]
  }

  lemma DeliveredMore(a: seq<seq<int>>, c: nat, t: int)
    requires c < |a|
    ensures Delivered(a, c + 1, t) <==> Delivered(a, c, t) || t in a[c]
  {
  }

  /** A walk stores the rows of the answers to its windows and nothing else. */
  lemma {:induction false} WalkStores(since: int, g: nat, end: int, replies: seq<Reply>, empties: nat,
                                      windows: seq<Window>, stored: set<int>, seen: seq<seq<int>>, t: int)
    requires |seen| == |windows|
    ensures var w, a := Walk(since, g, end, replies, empties, windows, stored), seen + Answers(replies);
            && |seen| <= |w.windows| <= |a|
            && (Delivered(a, |w.windows|, t) || t in stored <==> t in w.stored || Delivered(a, |seen|, t))
            && (t in stored ==> t in w.stored)
    decreases |replies|
  {
    var a := seen + Answers(replies);
    if end > since && replies != [] {
      AnswersNext(seen, replies);
      match replies[0] {
        case Fails => WalkStores(since, g, end, replies[1..], empties, windows, stored, seen, t);
        case Page(rows) =>
          var w := WindowAt(since, g, end);
          var more := seen + [rows];
          RowsIn(rows, t);
          assert a[|seen|] == rows;
          DeliveredMore(a, |seen|, t);
          if |rows| > 0 {
            WalkStores(since, g, w.start - 1, replies[1..], 0, windows + [w], stored + Rows(rows), more, t);
          } else if empties < 2 {
            WalkStores(since, g, w.start - 1, replies[1..], empties + 1, windows + [w], stored, more, t);
          }
      }
    }
  }

  // ---------------------------------------------------------------- a run

  /** Where request k of a run that starts at `earliest` ends. */
  function AskEnd(since: int, g: nat, earliest: int, k: nat): int
    decreases k, 0
  {
    if k == 0 then earliest else AskStart(since, g, earliest, k - 1) - 1
  }

  /** Where it starts: 350 granularities earlier, but not before `since`. */
  function AskStart(since: int, g: nat, earliest: int, k: nat): int
    decreases k, 1
  {
    var start := AskEnd(since, g, earliest, k) - 350 * g;
    if start < since then since else start
  }

  lemma {:induction false} AskIsEnd(since: int, g: nat, earliest: int, k: nat)
    ensures End(since, g, earliest, k) == AskEnd(since, g, earliest, k)
    ensures WindowAt(since, g, End(since, g, earliest, k)).start == AskStart(since, g, earliest, k)
  {
    if k > 0 { AskIsEnd(since, g, earliest, k - 1); }
  }

  /** The windows are the requests of the run, and each is made with the walk still above `since`. */
  lemma WindowsExactly(since: int, g: nat, earliest: int, replies: seq<Reply>, stored: set<int>, k: nat)
    ensures var w := Walk(since, g, earliest, replies, 0, [], stored);
            && (k < |w.windows| ==> AskEnd(since, g, earliest, k) > since)
            && (k < |w.windows| ==>
                 w.windows[k] == Window(AskStart(since, g, earliest, k), AskEnd(since, g, earliest, k)))
            && (w.stop == ReachedSince ==> AskEnd(since, g, earliest, |w.windows|) <= since)
            && (w.stop == Killed ==> AskEnd(since, g, earliest, |w.windows|) > since)
  {
    var w := Walk(since, g, earliest, replies, 0, [], stored);
    WalkTiles(since, g, earliest, replies, 0, [], stored, earliest);
    AskIsEnd(since, g, earliest, k);
    AskIsEnd(since, g, earliest, |w.windows|);
  }

  /**
   A run makes c answered requests: until three answers in a row are empty, the walk has passed `since`
   or the replies are over. It adds the rows of these answers, and only a run that is not cut off moves
   the meta row: to the oldest row then stored.
   */
  lemma RunExactly(db: Db, now: int, since: int, g: nat, replies: seq<Reply>, t: int) returns (c: nat, stop: Stop)
    ensures var a, earliest := Answers(replies), if db.meta.Some? then db.meta.value else now;
            && Halts(a, c, stop)
            && (forall k: nat :: k < c ==> AskEnd(since, g, earliest, k) > since)
            && (stop == ReachedSince ==> AskEnd(since, g, earliest, c) <= since)
            && (stop == Killed ==> AskEnd(since, g, earliest, c) > since)
    ensures var after := AfterRun(db, now, since, g, replies);
            && (t in after.stored <==> t in db.stored || Delivered(Answers(replies), c, t))
            && (stop == Killed ==> after.meta == db.meta)
            && (stop != Killed ==> IsOldest(after.stored, after.meta))
  {
    var earliest := db.Earliest(now);
    var w := Walk(since, g, earliest, replies, 0, [], db.stored);
    c, stop := |w.windows|, w.stop;
    assert [] + Answers(replies) == Answers(replies);
    WalkHalts(since, g, earliest, replies, 0, [], db.stored, []);
    WalkStores(since, g, earliest, replies, 0, [], db.stored, [], t);
    WindowsExactly(since, g, earliest, replies, db.stored, c);
    forall k: nat | k < c ensures AskEnd(since, g, earliest, k) > since {
      WindowsExactly(since, g, earliest, replies, db.stored, k);
    }
  }
}

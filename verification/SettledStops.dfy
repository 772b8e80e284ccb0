/**
 What a run of the settled-market backfill asks for and when it stops, in the server's own numbers, and
 the count it reports.
 */
module SettledStops {

  import opened SettledPaging

  /** An event is on the page exactly when it ends at or before the cursor and the hundredth before it does not. */
  lemma PageExactly(ends: seq<int>, cursor: int, e: nat)
    requires Latest(ends) && e < |ends|
    ensures PageOf(ends, cursor).Has(e) <==> ends[e] <= cursor && (e >= 100 ==> ends[e - 100] > cursor)
  {
    FromSound(ends, cursor, e);
    if e >= 100 { FromSound(ends, cursor, e - 100); }
  }

  /** How many of the first n requests are answered. */
  function Answered(n: nat, fails: set<nat>): nat {
    if n == 0 then 0 else Answered(n - 1, fails) + if n - 1 in fails then 0 else 1
  }

  ghost predicate Within(ends: seq<int>, pages: seq<Range>) {
    forall k :: 0 <= k < |pages| ==> pages[k].lo < pages[k].hi <= |ends|
  }

  /** Where the next page starts: at the first cursor, or 1000 ms below the oldest end of the last page. */
  function NextAt(ends: seq<int>, cursor0: int, pages: seq<Range>): int
    requires Within(ends, pages)
  {
    if pages == [] then cursor0 else ends[pages[|pages| - 1].hi - 1] - 1000
  }

  /** The first n pages end above the cutoff. */
  ghost predicate Above(ends: seq<int>, sinceMs: int, pages: seq<Range>, n: nat)
    requires Within(ends, pages)
  {
    forall k :: 0 <= k < |pages| && k < n ==> ends[pages[k].hi - 1] > sinceMs
  }

  /** Nothing ends at or before the cursor. */
  ghost predicate NothingLeft(ends: seq<int>, cursor: int) {
    forall i :: 0 <= i < |ends| ==> ends[i] > cursor
  }

  lemma EmptyPage(ends: seq<int>, cursor: int)
    requires Latest(ends) && PageOf(ends, cursor).lo == PageOf(ends, cursor).hi
    ensures NothingLeft(ends, cursor)
  {
    forall i | 0 <= i < |ends| ensures ends[i] > cursor { FromSound(ends, cursor, i); }
  }

  /** The answered pages are those of the run, and the run has gone on after each of them. */
  ghost predicate OnWay(ends: seq<int>, cursor0: int, sinceMs: int, pages: seq<Range>, cursor: int) {
    && Within(ends, pages) && Above(ends, sinceMs, pages, |pages|) && cursor == NextAt(ends, cursor0, pages)
  }

  lemma OnWayMore(ends: seq<int>, cursor0: int, sinceMs: int, pages: seq<Range>, cursor: int)
    requires OnWay(ends, cursor0, sinceMs, pages, cursor)
    requires PageOf(ends, cursor).lo < PageOf(ends, cursor).hi
    ensures Within(ends, pages + [PageOf(ends, cursor)])
    ensures Above(ends, sinceMs, pages + [PageOf(ends, cursor)], |pages|)
    ensures GoesOn(ends, cursor, sinceMs) ==>
              OnWay(ends, cursor0, sinceMs, pages + [PageOf(ends, cursor)], NextCursor(ends, cursor))
  {
  }

  /** The oldest end of the last page is at or below the cutoff, that of every earlier page above it. */
  ghost predicate AtCutoff(ends: seq<int>, sinceMs: int, pages: seq<Range>)
    requires Within(ends, pages)
  {
    pages != [] && Above(ends, sinceMs, pages, |pages| - 1) && ends[pages[|pages| - 1].hi - 1] <= sinceMs
  }

  /**
   Why a run has stopped after n requests, `empties` of them answered without events: an answered page
   reached down to the cutoff, three answers were empty, or maxPages requests were made.
   */
  ghost predicate Stopped(ends: seq<int>, cursor0: int, sinceMs: int, maxPages: nat, fails: set<nat>, scan: Scan,
                          n: nat, empties: nat) {
    && n <= maxPages && Answered(n, fails) == |scan.pages| + empties && Within(ends, scan.pages)
    && (empties > 0 ==> NothingLeft(ends, NextAt(ends, cursor0, scan.pages)))
    && (scan.stop == Cutoff <==> AtCutoff(ends, sinceMs, scan.pages))
    && (scan.stop == ThreeEmpty <==> empties == 3)
    && match scan.stop
       case Cutoff => empties == 0 && n > 0 && n - 1 !in fails
       case ThreeEmpty => n > 0 && n - 1 !in fails && Above(ends, sinceMs, scan.pages, |scan.pages|)
       case PageLimit => empties <= 2 && n == maxPages && Above(ends, sinceMs, scan.pages, |scan.pages|)
  }

  lemma ReachesCutoff(ends: seq<int>, sinceMs: int, pages: seq<Range>, answer: Range)
    requires Within(ends, pages) && Above(ends, sinceMs, pages, |pages|)
    requires answer.lo < answer.hi <= |ends| && ends[answer.hi - 1] <= sinceMs
    ensures Within(ends, pages + [answer]) && AtCutoff(ends, sinceMs, pages + [answer])
  {
  }

  lemma AnsweredNext(n: nat, fails: set<nat>)
    ensures Answered(n + 1, fails) == Answered(n, fails) + if n in fails then 0 else 1
  {
  }

  /** Every run counts its requests and stops for one of the three reasons. */
  lemma {:induction false} WalkStops(ends: seq<int>, sinceMs: int, cursor0: int, cursor: int, page: nat, maxPages: nat,
                                     fails: set<nat>, empties: nat, pages: seq<Range>)
    returns (n: nat, e: nat)
    requires Latest(ends) && OnWay(ends, cursor0, sinceMs, pages, cursor)
    requires page <= maxPages && empties <= 2 && Answered(page, fails) == |pages| + empties
    requires empties > 0 ==> PageOf(ends, cursor).lo == PageOf(ends, cursor).hi
    ensures var scan := Walk(ends, sinceMs, cursor, page, maxPages, fails, empties, pages);
            Stopped(ends, cursor0, sinceMs, maxPages, fails, scan, n, e)
    decreases maxPages - page
  {
    n, e := page, empties;
    var answer := PageOf(ends, cursor);
    if answer.lo == answer.hi { EmptyPage(ends, cursor); }
    AnsweredNext(page, fails);
    if page >= maxPages {
    } else if page in fails {
      n, e := WalkStops(ends, sinceMs, cursor0, cursor, page + 1, maxPages, fails, empties, pages);
    } else if answer.lo == answer.hi {
      n, e := page + 1, empties + 1;
      if empties < 2 {
        n, e := WalkStops(ends, sinceMs, cursor0, cursor, page + 1, maxPages, fails, empties + 1, pages);
      }
    } else if GoesOn(ends, cursor, sinceMs) {
      OnWayMore(ends, cursor0, sinceMs, pages, cursor);
      n, e := WalkStops(ends, sinceMs, cursor0, NextCursor(ends, cursor), page + 1, maxPages, fails, 0,
                        pages + [answer]);
    } else {
      ReachesCutoff(ends, sinceMs, pages, answer);
      n := page + 1;
    }
  }

  /** The events of page k: those the server holds at or below the cursor the pages before it lead to. */
  lemma RunPages(ends: seq<int>, sinceMs: int, cursor0: int, pages: seq<Range>, k: nat, e: nat)
    requires Latest(ends) && Paged(ends, cursor0, sinceMs, pages) && k < |pages| && e < |ends|
    ensures Within(ends, pages[..k])
    ensures var cursor := NextAt(ends, cursor0, pages[..k]);
            pages[k].Has(e) <==> ends[e] <= cursor && (e >= 100 ==> ends[e - 100] > cursor)
  {
    PageExactly(ends, CursorAt(ends, cursor0, k), e);
    forall j | 0 <= j < k ensures pages[j].lo < pages[j].hi <= |ends| {
      assert pages[j] == PageAt(ends, cursor0, j);
    }
    if k > 0 { assert pages[k - 1].lo < pages[k - 1].hi; }
  }

  /** What a run asks for and why it stops. */
  lemma RunExactly(ends: seq<int>, sinceMs: int, cursor0: int, maxPages: nat, fails: set<nat>)
    returns (n: nat, empties: nat)
    requires Latest(ends)
    ensures var scan := Walk(ends, sinceMs, cursor0, 0, maxPages, fails, 0, []);
            && Stopped(ends, cursor0, sinceMs, maxPages, fails, scan, n, empties)
            && Paged(ends, cursor0, sinceMs, scan.pages)
  {
    n, empties := WalkStops(ends, sinceMs, cursor0, cursor0, 0, maxPages, fails, 0, []);
    WalkPages(ends, sinceMs, cursor0, cursor0, 0, maxPages, fails, 0, []);
  }

  // ---------------------------------------------------------------- the count

  ghost function EventsOf(ends: seq<int>, pages: seq<Range>): set<nat> {
    set e: nat | e < |ends| && Scanned(pages, e)
  }

  ghost function OnPage(ends: seq<int>, page: Range): set<nat> {
    set e: nat | e < |ends| && page.Has(e)
  }

  lemma {:induction false} PageSize(ends: seq<int>, lo: nat, hi: nat)
    requires lo <= hi <= |ends|
    ensures |OnPage(ends, Range(lo, hi))| == hi - lo
    decreases hi - lo
  {
    if lo < hi {
      PageSize(ends, lo, hi - 1);
      assert OnPage(ends, Range(lo, hi)) == OnPage(ends, Range(lo, hi - 1)) + {hi - 1};
    } else {
      assert OnPage(ends, Range(lo, hi)) == {};
    }
  }

  lemma ScannedSplit(ends: seq<int>, cursor0: int, sinceMs: int, init: seq<Range>, last: Range, e: nat)
    requires Latest(ends) && Paged(ends, cursor0, sinceMs, init + [last])
    ensures Scanned(init + [last], e) <==> Scanned(init, e) || last.Has(e)
    ensures !(Scanned(init, e) && last.Has(e))
  {
    var pages, n := init + [last], |init|;
    if Scanned(init, e) {
      var j :| 0 <= j < n && init[j].Has(e);
      assert pages[j].Has(e);
      ScannedOnce(ends, cursor0, sinceMs, pages, j, n, e);
    }
    if last.Has(e) { assert pages[n].Has(e); }
    if Scanned(pages, e) {
      var j :| 0 <= j < |pages| && pages[j].Has(e);
      if j < n { assert init[j].Has(e); }
    }
  }

  lemma EventsSplit(ends: seq<int>, cursor0: int, sinceMs: int, init: seq<Range>, last: Range)
    requires Latest(ends) && Paged(ends, cursor0, sinceMs, init + [last])
    ensures EventsOf(ends, init + [last]) == EventsOf(ends, init) + OnPage(ends, last)
    ensures EventsOf(ends, init) !! OnPage(ends, last)
  {
    forall e: nat
      ensures Scanned(init + [last], e) <==> Scanned(init, e) || last.Has(e)
      ensures !(Scanned(init, e) && last.Has(e))
    {
      ScannedSplit(ends, cursor0, sinceMs, init, last, e);
    }
  }

  lemma CountMore(init: seq<Range>, last: Range)
    ensures Count(init + [last]) == Count(init) + (last.hi - last.lo)
  {
    assert (init + [last])[..|init|] == init;
  }

  lemma PagedInit(ends: seq<int>, cursor0: int, sinceMs: int, init: seq<Range>, last: Range)
    requires Paged(ends, cursor0, sinceMs, init + [last])
    ensures Paged(ends, cursor0, sinceMs, init) && last.lo < last.hi <= |ends|
  {
    var pages := init + [last];
    forall k | 0 <= k < |init| ensures init[k] == PageAt(ends, cursor0, k) && init[k].lo < init[k].hi {
      assert pages[k] == init[k];
    }
    assert pages[|init|] == last == PageAt(ends, cursor0, |init|);
  }

  /** The number of events reported is the number of different events on the pages. */
  lemma {:induction false} CountExactly(ends: seq<int>, cursor0: int, sinceMs: int, pages: seq<Range>)
    requires Latest(ends) && Paged(ends, cursor0, sinceMs, pages)
    ensures Count(pages) == |EventsOf(ends, pages)|
  {
    if pages == [] {
      assert EventsOf(ends, pages) == {};
    } else {
      var init, last := pages[..|pages| - 1], pages[|pages| - 1];
      assert pages == init + [last];
      PagedInit(ends, cursor0, sinceMs, init, last);
      CountExactly(ends, cursor0, sinceMs, init);
      EventsSplit(ends, cursor0, sinceMs, init, last);
      CountMore(init, last);
      PageSize(ends, last.lo, last.hi);
    }
  }
}

/**
 The settled-market backfill: events are asked for in pages of 100, latest end first, and the
 next page starts one second below the oldest end of the last one. Events are named by their
 position in the server's order.
 */
module SettledPaging {

  const PAGE_SIZE := 100
  const STEP_MS := 1000

  /** End times in ms, latest first. */
  ghost predicate Latest(ends: seq<int>) {
    forall i, j :: 0 <= i < j < |ends| ==> ends[i] >= ends[j]
  }

  /** How many events end after the cursor: where a page for that cursor begins. */
  function From(ends: seq<int>, cursor: int): (n: nat)
    ensures n <= |ends|
  {
    if ends == [] then 0 else if ends[|ends| - 1] > cursor then |ends| else From(ends[..|ends| - 1], cursor)
  }

  lemma {:induction false} FromSound(ends: seq<int>, cursor: int, i: nat)
    requires Latest(ends) && i < |ends|
    ensures i < From(ends, cursor) <==> ends[i] > cursor
  {
    if ends[|ends| - 1] <= cursor && i < |ends| - 1 {
      FromSound(ends[..|ends| - 1], cursor, i);
    }
  }

  /** Events lo up to hi. */
  datatype Range = Range(lo: nat, hi: nat) {
    predicate Has(i: nat) {
      lo <= i < hi
    }
  }

  /** The answer for a cursor: the first 100 events that end at or before it. */
  function PageOf(ends: seq<int>, cursor: int): (page: Range)
    ensures page.lo <= page.hi <= |ends|
    ensures page.lo < |ends| ==> page.lo < page.hi
  {
    var i := From(ends, cursor);
    Range(i, if |ends| - i <= PAGE_SIZE then |ends| else i + PAGE_SIZE)
  }

  /** The page holds events, all of them ending after sinceMs: the walk goes on below it. */
  predicate GoesOn(ends: seq<int>, cursor: int, sinceMs: int) {
    var page := PageOf(ends, cursor);
    page.lo < page.hi && ends[page.hi - 1] > sinceMs
  }

  /** One second below the oldest end of the page. */
  function NextCursor(ends: seq<int>, cursor: int): int
    requires PageOf(ends, cursor).lo < PageOf(ends, cursor).hi
  {
    ends[PageOf(ends, cursor).hi - 1] - STEP_MS
  }

  datatype Stop = Cutoff | ThreeEmpty | PageLimit

  datatype Scan = Scan(pages: seq<Range>, stop: Stop)

  /** The loop: `page` requests made, those numbered in `fails` end in an error. */
  function Walk(ends: seq<int>, sinceMs: int, cursor: int, page: nat, maxPages: nat, fails: set<nat>, empties: nat,
                pages: seq<Range>): Scan
    decreases maxPages - page
  {
    if page >= maxPages then Scan(pages, PageLimit)
    else if page in fails then Walk(ends, sinceMs, cursor, page + 1, maxPages, fails, empties, pages)
    else
      var answer := PageOf(ends, cursor);
      if answer.lo == answer.hi then
        if empties >= 2 then Scan(pages, ThreeEmpty)
        else Walk(ends, sinceMs, cursor, page + 1, maxPages, fails, empties + 1, pages)
      else if !GoesOn(ends, cursor, sinceMs) then Scan(pages + [answer], Cutoff)
      else Walk(ends, sinceMs, NextCursor(ends, cursor), page + 1, maxPages, fails, 0, pages + [answer])
  }

  method Backfill(ends: seq<int>, cursor0: int, sinceMs: int, maxPages: nat, fails: set<nat>)
    returns (pages: seq<Range>, eventsScanned: nat, stop: Stop)
    requires Latest(ends)
    ensures Scan(pages, stop) == Walk(ends, sinceMs, cursor0, 0, maxPages, fails, 0, [])
    ensures eventsScanned == Count(pages)
  {
    var cursor, page, empties := cursor0, 0, 0;
    pages, eventsScanned := [], 0;
    while page < maxPages
      invariant Walk(ends, sinceMs, cursor, page, maxPages, fails, empties, pages)
             == Walk(ends, sinceMs, cursor0, 0, maxPages, fails, 0, [])
      invariant eventsScanned == Count(pages)
    {
      page := page + 1;
      if page - 1 in fails { continue; }
      var answer := PageOf(ends, cursor);
      if answer.lo == answer.hi {
        empties := empties + 1;
        if empties >= 3 { return pages, eventsScanned, ThreeEmpty; }
        continue;
      }
      empties := 0;
      var oldest := OldestEnd(ends, answer);
      eventsScanned := eventsScanned + (answer.hi - answer.lo);
      assert (pages + [answer])[..|pages|] == pages;
      pages := pages + [answer];
      if oldest <= sinceMs { return pages, eventsScanned, Cutoff; }
      cursor := oldest - STEP_MS;
    }
    stop := PageLimit;
  }

  /** The loop over one page that finds its oldest end. */
  method OldestEnd(ends: seq<int>, page: Range) returns (oldest: int)
    requires Latest(ends) && page.lo < page.hi <= |ends|
    ensures oldest == ends[page.hi - 1]
  {
    oldest := ends[page.lo];
    for k := page.lo + 1 to page.hi
      invariant oldest == ends[k - 1]
    {
      if ends[k] < oldest { oldest := ends[k]; }
    }
  }

  function Count(pages: seq<Range>): int {
    if pages == [] then 0
    else
      var last := pages[|pages| - 1];
      Count(pages[..|pages| - 1]) + (last.hi - last.lo)
  }

  // ---------------------------------------------------------------- the pages of a run

  /** The cursor after k answered pages. */
  function CursorAt(ends: seq<int>, cursor0: int, k: nat): int {
    if k == 0 then cursor0
    else
      var before := CursorAt(ends, cursor0, k - 1);
      if PageOf(ends, before).lo < PageOf(ends, before).hi then NextCursor(ends, before) else before
  }

  function PageAt(ends: seq<int>, cursor0: int, k: nat): (page: Range)
    ensures page.lo <= page.hi <= |ends|
  {
    PageOf(ends, CursorAt(ends, cursor0, k))
  }

  /** The pages of the sequence so far, all of them non-empty, and the walk goes on after all but the last. */
  ghost predicate Paged(ends: seq<int>, cursor0: int, sinceMs: int, pages: seq<Range>) {
    && (forall k :: 0 <= k < |pages| ==> pages[k] == PageAt(ends, cursor0, k) && pages[k].lo < pages[k].hi)
    && (forall k :: 0 <= k < |pages| - 1 ==> GoesOn(ends, CursorAt(ends, cursor0, k), sinceMs))
  }

  /** Ready for the next request: the walk goes on after the last page too. */
  ghost predicate Ready(ends: seq<int>, cursor0: int, sinceMs: int, pages: seq<Range>) {
    && Paged(ends, cursor0, sinceMs, pages)
    && (pages != [] ==> GoesOn(ends, CursorAt(ends, cursor0, |pages| - 1), sinceMs))
  }

  ghost predicate Ended(ends: seq<int>, cursor0: int, sinceMs: int, scan: Scan) {
    && Paged(ends, cursor0, sinceMs, scan.pages)
    && (scan.stop == Cutoff ==>
          scan.pages != [] && ends[PageAt(ends, cursor0, |scan.pages| - 1).hi - 1] <= sinceMs)
  }

  lemma PagedExtend(ends: seq<int>, cursor0: int, sinceMs: int, pages: seq<Range>, cursor: int)
    requires Ready(ends, cursor0, sinceMs, pages) && cursor == CursorAt(ends, cursor0, |pages|)
    requires PageOf(ends, cursor).lo < PageOf(ends, cursor).hi
    ensures Paged(ends, cursor0, sinceMs, pages + [PageOf(ends, cursor)])
    ensures CursorAt(ends, cursor0, |pages| + 1) == NextCursor(ends, cursor)
    ensures GoesOn(ends, cursor, sinceMs) ==> Ready(ends, cursor0, sinceMs, pages + [PageOf(ends, cursor)])
    ensures !GoesOn(ends, cursor, sinceMs) ==>
              Ended(ends, cursor0, sinceMs, Scan(pages + [PageOf(ends, cursor)], Cutoff))
  {
  }

  /** Every run scans the first pages of the sequence, and stops at the cutoff only after passing it. */
  lemma {:induction false} WalkPages(ends: seq<int>, sinceMs: int, cursor0: int, cursor: int, page: nat, maxPages: nat,
                                     fails: set<nat>, empties: nat, pages: seq<Range>)
    requires Ready(ends, cursor0, sinceMs, pages) && cursor == CursorAt(ends, cursor0, |pages|)
    ensures Ended(ends, cursor0, sinceMs, Walk(ends, sinceMs, cursor, page, maxPages, fails, empties, pages))
    decreases maxPages - page
  {
    if page >= maxPages {
    } else if page in fails {
      WalkPages(ends, sinceMs, cursor0, cursor, page + 1, maxPages, fails, empties, pages);
    } else if PageOf(ends, cursor).lo == PageOf(ends, cursor).hi {
      if empties < 2 { WalkPages(ends, sinceMs, cursor0, cursor, page + 1, maxPages, fails, empties + 1, pages); }
    } else {
      PagedExtend(ends, cursor0, sinceMs, pages, cursor);
      if GoesOn(ends, cursor, sinceMs) {
        WalkPages(ends, sinceMs, cursor0, NextCursor(ends, cursor), page + 1, maxPages, fails, 0,
                  pages + [PageOf(ends, cursor)]);
      }
    }
  }

  // ---------------------------------------------------------------- what a run scans

  lemma {:induction false} PagesAdvance(ends: seq<int>, cursor0: int, j: nat, k: nat)
    requires Latest(ends) && j < k
    requires forall m :: j <= m < k ==> PageAt(ends, cursor0, m).lo < PageAt(ends, cursor0, m).hi
    ensures PageAt(ends, cursor0, j).hi <= PageAt(ends, cursor0, k).lo
    decreases k
  {
    var last := PageAt(ends, cursor0, k - 1);
    FromSound(ends, CursorAt(ends, cursor0, k), last.hi - 1);
    if j < k - 1 { PagesAdvance(ends, cursor0, j, k - 1); }
  }

  lemma PagesInOrder(ends: seq<int>, cursor0: int, sinceMs: int, pages: seq<Range>, j: nat, k: nat)
    requires Latest(ends) && Paged(ends, cursor0, sinceMs, pages) && j < k < |pages|
    ensures pages[j].hi <= pages[k].lo
  {
    forall m | j <= m < k ensures PageAt(ends, cursor0, m).lo < PageAt(ends, cursor0, m).hi {
      assert pages[m].lo < pages[m].hi;
    }
    PagesAdvance(ends, cursor0, j, k);
  }

  /** No event is scanned twice. */
  lemma ScannedOnce(ends: seq<int>, cursor0: int, sinceMs: int, pages: seq<Range>, j: nat, k: nat, e: nat)
    requires Latest(ends) && Paged(ends, cursor0, sinceMs, pages) && j < k < |pages|
    ensures !(pages[j].Has(e) && pages[k].Has(e))
  {
    PagesInOrder(ends, cursor0, sinceMs, pages, j, k);
  }

  ghost predicate Scanned(pages: seq<Range>, e: nat) {
    exists k :: 0 <= k < |pages| && pages[k].Has(e)
  }

  /** The event that follows a page ends a full second below the page's oldest, or below the cutoff. */
  predicate CleanBreak(ends: seq<int>, sinceMs: int, hi: nat)
    requires 0 < hi <= |ends|
  {
    hi == |ends| || ends[hi] <= ends[hi - 1] - STEP_MS || ends[hi] <= sinceMs
  }

  /** The event after an unclean break is skipped by every page of the run. */
  lemma BreakSkips(ends: seq<int>, cursor0: int, sinceMs: int, pages: seq<Range>, k: nat)
    requires Latest(ends) && Paged(ends, cursor0, sinceMs, pages) && k < |pages| - 1
    requires pages[k].hi < |ends| && ends[pages[k].hi] > ends[pages[k].hi - 1] - STEP_MS
    ensures !Scanned(pages, pages[k].hi)
  {
    var e := pages[k].hi;
    FromSound(ends, CursorAt(ends, cursor0, k + 1), e);
    forall m | 0 <= m < |pages| ensures !pages[m].Has(e) {
      if m < k {
        PagesInOrder(ends, cursor0, sinceMs, pages, m, k);
      } else if m > k + 1 {
        PagesInOrder(ends, cursor0, sinceMs, pages, k + 1, m);
      }
    }
  }

  /** After clean breaks, everything down to the end of page k that ends after the cutoff is scanned. */
  lemma {:induction false} CleanPrefix(ends: seq<int>, cursor0: int, sinceMs: int, pages: seq<Range>, k: nat, e: nat)
    requires Latest(ends) && Paged(ends, cursor0, sinceMs, pages) && k < |pages|
    requires forall m :: 0 <= m < k ==> CleanBreak(ends, sinceMs, pages[m].hi)
    requires From(ends, cursor0) <= e < pages[k].hi && ends[e] > sinceMs
    ensures Scanned(pages, e)
  {
    if pages[k].lo <= e {
      assert pages[k].Has(e);
    } else if k > 0 {
      if e < pages[k - 1].hi {
        CleanPrefix(ends, cursor0, sinceMs, pages, k - 1, e);
      } else {
        FromSound(ends, CursorAt(ends, cursor0, k), e);
      }
    }
  }

  /** Every event between the cutoff and the starting cursor is scanned. */
  ghost predicate Complete(ends: seq<int>, cursor0: int, sinceMs: int, pages: seq<Range>) {
    forall e: nat :: e < |ends| && sinceMs < ends[e] <= cursor0 ==> Scanned(pages, e)
  }

  lemma BreakIsLoss(ends: seq<int>, cursor0: int, sinceMs: int, pages: seq<Range>, k: nat)
    requires Latest(ends) && Paged(ends, cursor0, sinceMs, pages) && k < |pages| - 1
    requires !CleanBreak(ends, sinceMs, pages[k].hi)
    ensures !Complete(ends, cursor0, sinceMs, pages)
  {
    var e := pages[k].hi;
    BreakSkips(ends, cursor0, sinceMs, pages, k);
    FromSound(ends, cursor0, pages[0].lo);
    if k > 0 { PagesInOrder(ends, cursor0, sinceMs, pages, 0, k); }
    assert ends[e] <= ends[pages[0].lo] <= cursor0;
  }

  /** A run that stops at the cutoff is complete exactly when every page but the last ends in a clean break. */
  lemma CompleteByPages(ends: seq<int>, cursor0: int, sinceMs: int, scan: Scan)
    requires Latest(ends) && Ended(ends, cursor0, sinceMs, scan) && scan.stop == Cutoff
    ensures Complete(ends, cursor0, sinceMs, scan.pages)
       <==> forall k :: 0 <= k < |scan.pages| - 1 ==> CleanBreak(ends, sinceMs, scan.pages[k].hi)
  {
    var pages := scan.pages;
    var last := |pages| - 1;
    if forall k :: 0 <= k < last ==> CleanBreak(ends, sinceMs, pages[k].hi) {
      forall e: nat | e < |ends| && sinceMs < ends[e] <= cursor0 ensures Scanned(pages, e) {
        FromSound(ends, cursor0, e);
        CleanPrefix(ends, cursor0, sinceMs, pages, last, e);
      }
    } else {
      var k :| 0 <= k < last && !CleanBreak(ends, sinceMs, pages[k].hi);
      BreakIsLoss(ends, cursor0, sinceMs, pages, k);
    }
  }

  /** The walk goes on after the first k + 1 pages of the cursor sequence. */
  ghost predicate GoesPast(ends: seq<int>, cursor0: int, sinceMs: int, k: nat) {
    forall j: nat :: j <= k ==> GoesOn(ends, CursorAt(ends, cursor0, j), sinceMs)
  }

  /** Every page of the cursor sequence that the walk goes on after ends in a clean break. */
  ghost predicate CleanSequence(ends: seq<int>, cursor0: int, sinceMs: int) {
    forall k: nat :: GoesPast(ends, cursor0, sinceMs, k) ==>
      CleanBreak(ends, sinceMs, PageAt(ends, cursor0, k).hi)
  }

  /** The pages a cutoff run goes on after are exactly the first ones of the sequence that the walk goes on after. */
  lemma GoesOnExactly(ends: seq<int>, cursor0: int, sinceMs: int, scan: Scan, k: nat)
    requires Ended(ends, cursor0, sinceMs, scan) && scan.stop == Cutoff
    ensures GoesPast(ends, cursor0, sinceMs, k) <==> k < |scan.pages| - 1
  {
    var last := |scan.pages| - 1;
    assert !GoesOn(ends, CursorAt(ends, cursor0, last), sinceMs);
  }

  /**
   Whether a run that stops at the cutoff has scanned every event above it depends on the list and the first
   cursor alone: it has exactly when every page of the sequence it goes on after ends in a clean break.
   */
  lemma CompleteExactly(ends: seq<int>, cursor0: int, sinceMs: int, scan: Scan)
    requires Latest(ends) && Ended(ends, cursor0, sinceMs, scan) && scan.stop == Cutoff
    ensures Complete(ends, cursor0, sinceMs, scan.pages) <==> CleanSequence(ends, cursor0, sinceMs)
  {
    CompleteByPages(ends, cursor0, sinceMs, scan);
    forall k: nat
      ensures GoesPast(ends, cursor0, sinceMs, k) <==> k < |scan.pages| - 1
    {
      GoesOnExactly(ends, cursor0, sinceMs, scan, k);
    }
    forall k: nat | k < |scan.pages|
      ensures scan.pages[k].hi == PageAt(ends, cursor0, k).hi
    {
    }
  }

  /** Ends a second or more apart: every run that stops at the cutoff has scanned everything above it once. */
  lemma SpacedIsComplete(ends: seq<int>, cursor0: int, sinceMs: int, maxPages: nat, fails: set<nat>)
    requires Latest(ends)
    requires forall i :: 0 < i < |ends| ==> ends[i] <= ends[i - 1] - STEP_MS
    ensures var scan := Walk(ends, sinceMs, cursor0, 0, maxPages, fails, 0, []);
            scan.stop == Cutoff ==> Complete(ends, cursor0, sinceMs, scan.pages)
  {
    WalkPages(ends, sinceMs, cursor0, cursor0, 0, maxPages, fails, 0, []);
    var scan := Walk(ends, sinceMs, cursor0, 0, maxPages, fails, 0, []);
    if scan.stop == Cutoff {
      CompleteByPages(ends, cursor0, sinceMs, scan);
    }
  }

  /** 101 events that end together: the last one is never scanned, however often the run asks. */
  lemma TiesAreSkipped(maxPages: nat)
    requires maxPages > 0
    ensures var ends := seq(101, _ => 5000);
            && Latest(ends)
            && Walk(ends, 0, 5000, 0, maxPages, {}, 0, []).pages == [Range(0, 100)]
  {
    var ends := seq(101, _ => 5000);
    var first := Range(0, 100);
    FromSound(ends, 5000, 0);
    FromSound(ends, 4000, 100);
    assert PageOf(ends, 5000) == first && PageOf(ends, 4000).lo == 101;
    OnlyEmpty(ends, 4000, 1, maxPages, 0, [first]);
    assert [] + [first] == [first];
  }

  lemma {:induction false} OnlyEmpty(ends: seq<int>, cursor: int, page: nat, maxPages: nat, empties: nat,
                                     pages: seq<Range>)
    requires PageOf(ends, cursor).lo == PageOf(ends, cursor).hi
    ensures Walk(ends, 0, cursor, page, maxPages, {}, empties, pages).pages == pages
    decreases maxPages - page
  {
    if page < maxPages && empties < 2 {
      OnlyEmpty(ends, cursor, page + 1, maxPages, empties + 1, pages);
    }
  }
}

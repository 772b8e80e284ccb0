/**
 The resume of the settled-market backfill: a run after an interrupted one starts at the
 earliest expiry stored, which the table keeps in whole seconds.
 */
module SettledResume {

  import opened SettledPaging
  import opened Wrappers

  /** Where a run starts: the earliest stored expiry in seconds if it lies above the cutoff, else the clock. */
  function StartCursor(nowMs: int, earliest: Option<int>, sinceMs: int): int {
    if earliest.Some? && earliest.value != 0 && earliest.value * 1000 > sinceMs then earliest.value * 1000 else nowMs
  }

  /** The expiry of an event's row, in seconds. */
  function Expiry(endMs: int): int {
    endMs / 1000
  }

  lemma ExpiryBelow(endMs: int)
    ensures Expiry(endMs) * 1000 <= endMs < Expiry(endMs) * 1000 + 1000
    ensures endMs % 1000 == 0 ==> Expiry(endMs) * 1000 == endMs
  {
  }

  /** A resume starts at the whole second of the earliest event stored if that is above the cutoff, else now. */
  lemma ResumeExactly(nowMs: int, sinceMs: int, endMs: int)
    ensures StartCursor(nowMs, None, sinceMs) == nowMs
    ensures var second := endMs - endMs % 1000;
            StartCursor(nowMs, Some(Expiry(endMs)), sinceMs) ==
              if second > sinceMs && second != 0 then second else nowMs
  {
    ExpiryBelow(endMs);
  }

  /** The interrupted run and the resumed one together scan every event between the cutoff and the first cursor. */
  ghost predicate BothComplete(ends: seq<int>, cursor0: int, sinceMs: int, first: seq<Range>, second: seq<Range>) {
    forall e: nat :: e < |ends| && sinceMs < ends[e] <= cursor0 ==> Scanned(first, e) || Scanned(second, e)
  }

  /** An interrupted run: some pages of the sequence, every break before the last page clean. */
  ghost predicate Interrupted(ends: seq<int>, cursor0: int, sinceMs: int, first: seq<Range>) {
    && Paged(ends, cursor0, sinceMs, first) && first != []
    && forall k :: 0 <= k < |first| - 1 ==> CleanBreak(ends, sinceMs, first[k].hi)
  }

  lemma NotInFirst(ends: seq<int>, cursor0: int, sinceMs: int, first: seq<Range>, e: nat)
    requires Latest(ends) && Paged(ends, cursor0, sinceMs, first) && first != [] && e >= first[|first| - 1].hi
    ensures !Scanned(first, e)
  {
    forall k | 0 <= k < |first|
      ensures !first[k].Has(e)
    {
      if k < |first| - 1 { PagesInOrder(ends, cursor0, sinceMs, first, k, |first| - 1); }
    }
  }

  /** A run scans nothing that ends after its first cursor. */
  lemma NotAboveCursor(ends: seq<int>, cursor: int, sinceMs: int, pages: seq<Range>, e: nat)
    requires Latest(ends) && Paged(ends, cursor, sinceMs, pages) && e < |ends| && ends[e] > cursor
    ensures !Scanned(pages, e)
  {
    forall k | 0 <= k < |pages|
      ensures !pages[k].Has(e)
    {
      FromSound(ends, cursor, e);
      if k > 0 { PagesInOrder(ends, cursor, sinceMs, pages, 0, k); }
    }
  }

  /** The event after the last page the interrupted run scanned is asked for again, or lies below the cutoff. */
  predicate Rejoins(ends: seq<int>, sinceMs: int, cursor: int, hi: nat) {
    hi >= |ends| || ends[hi] <= cursor || ends[hi] <= sinceMs
  }

  lemma RejoinsCovers(ends: seq<int>, cursor0: int, sinceMs: int, first: seq<Range>, cursor: int, second: seq<Range>,
                      e: nat)
    requires Latest(ends) && Interrupted(ends, cursor0, sinceMs, first) && Complete(ends, cursor, sinceMs, second)
    requires Rejoins(ends, sinceMs, cursor, first[|first| - 1].hi)
    requires e < |ends| && sinceMs < ends[e] <= cursor0
    ensures Scanned(first, e) || Scanned(second, e)
  {
    var last := |first| - 1;
    if e < first[last].hi {
      FromSound(ends, cursor0, e);
      CleanPrefix(ends, cursor0, sinceMs, first, last, e);
    } else {
      assert ends[e] <= ends[first[last].hi];
    }
  }

  lemma FirstEndsBelow(ends: seq<int>, cursor0: int, sinceMs: int, first: seq<Range>)
    requires Latest(ends) && Paged(ends, cursor0, sinceMs, first) && first != []
    ensures var hi := first[|first| - 1].hi; 0 < hi <= |ends| && ends[hi - 1] <= cursor0
  {
    var last := |first| - 1;
    FromSound(ends, cursor0, first[0].lo);
    if last > 0 { PagesInOrder(ends, cursor0, sinceMs, first, 0, last); }
    assert ends[first[last].hi - 1] <= ends[first[0].lo];
  }

  /**
   An interrupted run and a resumed one that is complete from its own cursor together leave nothing out
   exactly when the event after the interrupted run's last page does not end above that cursor: in the same
   second as the earliest stored event, the fraction of which the table does not keep.
   */
  lemma ResumeCoversExactly(ends: seq<int>, cursor0: int, sinceMs: int, first: seq<Range>, cursor: int,
                            second: seq<Range>)
    requires Latest(ends) && Interrupted(ends, cursor0, sinceMs, first)
    requires Paged(ends, cursor, sinceMs, second) && Complete(ends, cursor, sinceMs, second)
    ensures BothComplete(ends, cursor0, sinceMs, first, second)
       <==> Rejoins(ends, sinceMs, cursor, first[|first| - 1].hi)
  {
    var hi := first[|first| - 1].hi;
    if Rejoins(ends, sinceMs, cursor, hi) {
      forall e: nat | e < |ends| && sinceMs < ends[e] <= cursor0
        ensures Scanned(first, e) || Scanned(second, e)
      {
        RejoinsCovers(ends, cursor0, sinceMs, first, cursor, second, e);
      }
    } else {
      FirstEndsBelow(ends, cursor0, sinceMs, first);
      assert ends[hi] <= ends[hi - 1];
      NotInFirst(ends, cursor0, sinceMs, first, hi);
      NotAboveCursor(ends, cursor, sinceMs, second, hi);
    }
  }

  /** Resuming at the earliest stored event m, the two runs leave nothing out if events end on whole seconds. */
  lemma WholeSecondsResume(ends: seq<int>, cursor0: int, sinceMs: int, nowMs: int, first: seq<Range>, m: nat,
                           second: seq<Range>)
    requires Latest(ends) && Interrupted(ends, cursor0, sinceMs, first)
    requires m < first[|first| - 1].hi && ends[m] % 1000 == 0 && sinceMs >= 0
    requires var cursor := StartCursor(nowMs, Some(Expiry(ends[m])), sinceMs);
             Paged(ends, cursor, sinceMs, second) && Complete(ends, cursor, sinceMs, second)
    requires ends[m] > sinceMs
    ensures BothComplete(ends, cursor0, sinceMs, first, second)
  {
    var hi := first[|first| - 1].hi;
    ExpiryBelow(ends[m]);
    FirstEndsBelow(ends, cursor0, sinceMs, first);
    var cursor := StartCursor(nowMs, Some(Expiry(ends[m])), sinceMs);
    assert cursor == ends[m];
    assert hi < |ends| ==> ends[hi] <= ends[m];
    ResumeCoversExactly(ends, cursor0, sinceMs, first, cursor, second);
  }

  /** With milliseconds a resume can lose an event: 101 that end together, the hundred scanned ones stored. */
  lemma FractionIsLost(maxPages: nat)
    requires maxPages > 0
    ensures var ends := seq(101, _ => 5400);
            var cursor := StartCursor(9000, Some(Expiry(5400)), 0);
            && Interrupted(ends, 5400, 0, [Range(0, 100)])
            && !Scanned(Walk(ends, 0, cursor, 0, maxPages, {}, 0, []).pages, 100)
  {
    var ends := seq(101, _ => 5400);
    FromSound(ends, 5400, 0);
    FromSound(ends, 5000, 100);
    assert PageAt(ends, 5400, 0) == Range(0, 100);
    assert PageOf(ends, 5000).lo == 101;
    OnlyEmpty(ends, 5000, 0, maxPages, 0, []);
  }

  // ---------------------------------------------------------------- chains of resumes

  /** One run of a chain: where it started and the pages it scanned before it was interrupted or ended. */
  datatype Leg = Leg(cursor: int, pages: seq<Range>)

  /** How far down the runs have scanned. */
  function Reach(legs: seq<Leg>): nat
    requires forall i :: 0 <= i < |legs| ==> legs[i].pages != []
  {
    if legs == [] then 0
    else
      var before, last := Reach(legs[..|legs| - 1]), legs[|legs| - 1].pages;
      if last[|last| - 1].hi > before then last[|last| - 1].hi else before
  }

  /** Each run has clean breaks before its last page and starts where the earliest row stored so far ends. */
  ghost predicate Chain(ends: seq<int>, sinceMs: int, legs: seq<Leg>) {
    && (forall i :: 0 <= i < |legs| ==> Interrupted(ends, legs[i].cursor, sinceMs, legs[i].pages))
    && (forall i, j :: 0 <= i < j < |legs| ==> legs[j].cursor <= legs[i].cursor)
  }

  ghost predicate ScannedBy(legs: seq<Leg>, e: nat) {
    exists i :: 0 <= i < |legs| && Scanned(legs[i].pages, e)
  }

  /** Every run after the first rejoins what the runs before it have scanned. */
  ghost predicate Joined(ends: seq<int>, sinceMs: int, legs: seq<Leg>)
    requires forall i :: 0 <= i < |legs| ==> legs[i].pages != []
  {
    forall i :: 0 < i < |legs| ==> Rejoins(ends, sinceMs, legs[i].cursor, Reach(legs[..i]))
  }

  lemma {:induction false} ReachOfEach(legs: seq<Leg>, i: nat)
    requires (forall k :: 0 <= k < |legs| ==> legs[k].pages != []) && i < |legs|
    ensures legs[i].pages[|legs[i].pages| - 1].hi <= Reach(legs)
  {
    if i < |legs| - 1 { ReachOfEach(legs[..|legs| - 1], i); }
  }

  /** A run that rejoins scans everything from the join down to its own last page. */
  lemma {:induction false} LegCovers(ends: seq<int>, sinceMs: int, leg: Leg, reach: nat, e: nat)
    requires Latest(ends) && Interrupted(ends, leg.cursor, sinceMs, leg.pages)
    requires Rejoins(ends, sinceMs, leg.cursor, reach) && e < |ends| && ends[e] > sinceMs
    requires reach <= e < leg.pages[|leg.pages| - 1].hi
    ensures Scanned(leg.pages, e)
  {
    FromSound(ends, leg.cursor, e);
    CleanPrefix(ends, leg.cursor, sinceMs, leg.pages, |leg.pages| - 1, e);
  }

  lemma {:induction false} ChainInit(ends: seq<int>, sinceMs: int, legs: seq<Leg>)
    requires Chain(ends, sinceMs, legs) && |legs| > 1
    ensures Chain(ends, sinceMs, legs[..|legs| - 1])
  {
  }

  lemma {:induction false} JoinedInit(ends: seq<int>, sinceMs: int, legs: seq<Leg>)
    requires |legs| > 1 && (forall i :: 0 <= i < |legs| ==> legs[i].pages != []) && Joined(ends, sinceMs, legs)
    ensures Joined(ends, sinceMs, legs[..|legs| - 1])
  {
    var init := legs[..|legs| - 1];
    forall i | 0 < i < |init|
      ensures Rejoins(ends, sinceMs, init[i].cursor, Reach(init[..i]))
    {
      assert init[..i] == legs[..i];
    }
  }

  lemma {:induction false} MoreLegs(legs: seq<Leg>, e: nat)
    requires legs != [] && ScannedBy(legs[..|legs| - 1], e)
    ensures ScannedBy(legs, e)
  {
    var i :| 0 <= i < |legs| - 1 && Scanned(legs[..|legs| - 1][i].pages, e);
    assert Scanned(legs[i].pages, e);
  }

  /** Joined runs leave nothing out down to where they reach. */
  lemma {:induction false} JoinedCovers(ends: seq<int>, sinceMs: int, legs: seq<Leg>, e: nat)
    requires Latest(ends) && Chain(ends, sinceMs, legs) && legs != [] && Joined(ends, sinceMs, legs)
    requires e < Reach(legs) && e < |ends| && sinceMs < ends[e] <= legs[0].cursor
    ensures ScannedBy(legs, e)
  {
    var n := |legs| - 1;
    if n == 0 {
      FirstCovers(ends, sinceMs, legs[0], e);
    } else if e < Reach(legs[..n]) {
      ChainInit(ends, sinceMs, legs);
      JoinedInit(ends, sinceMs, legs);
      JoinedCovers(ends, sinceMs, legs[..n], e);
      MoreLegs(legs, e);
    } else {
      LegCovers(ends, sinceMs, legs[n], Reach(legs[..n]), e);
    }
  }

  lemma {:induction false} FirstCovers(ends: seq<int>, sinceMs: int, leg: Leg, e: nat)
    requires Latest(ends) && Interrupted(ends, leg.cursor, sinceMs, leg.pages)
    requires e < |ends| && sinceMs < ends[e] <= leg.cursor && e < leg.pages[|leg.pages| - 1].hi
    ensures Scanned(leg.pages, e)
  {
    FromSound(ends, leg.cursor, e);
    CleanPrefix(ends, leg.cursor, sinceMs, leg.pages, |leg.pages| - 1, e);
  }

  lemma {:induction false} ScannedAbove(ends: seq<int>, sinceMs: int, leg: Leg, e: nat)
    requires Latest(ends) && Interrupted(ends, leg.cursor, sinceMs, leg.pages) && Scanned(leg.pages, e)
    ensures e < leg.pages[|leg.pages| - 1].hi
  {
    var last := |leg.pages| - 1;
    var k :| 0 <= k < |leg.pages| && leg.pages[k].Has(e);
    if k < last { PagesInOrder(ends, leg.cursor, sinceMs, leg.pages, k, last); }
  }

  /** A run that is complete from its own cursor reaches below every event that ends at or before it. */
  lemma LastReaches(ends: seq<int>, sinceMs: int, leg: Leg, e: nat)
    requires Latest(ends) && Interrupted(ends, leg.cursor, sinceMs, leg.pages)
    requires Complete(ends, leg.cursor, sinceMs, leg.pages) && e < |ends| && sinceMs < ends[e] <= leg.cursor
    ensures e < leg.pages[|leg.pages| - 1].hi
  {
    ScannedAbove(ends, sinceMs, leg, e);
  }

  lemma BelowJoin(ends: seq<int>, sinceMs: int, cursor: int, reach: nat, e: nat)
    requires Latest(ends) && Rejoins(ends, sinceMs, cursor, reach) && reach <= e < |ends| && sinceMs < ends[e]
    ensures ends[e] <= cursor
  {
  }

  /** Joined runs of which the last is complete reach below every event above the cutoff. */
  lemma {:induction false} AllReached(ends: seq<int>, sinceMs: int, legs: seq<Leg>, e: nat)
    requires Latest(ends) && Chain(ends, sinceMs, legs) && legs != [] && Joined(ends, sinceMs, legs)
    requires Complete(ends, legs[|legs| - 1].cursor, sinceMs, legs[|legs| - 1].pages)
    requires e < |ends| && sinceMs < ends[e] <= legs[0].cursor
    ensures e < Reach(legs)
  {
    var n := |legs| - 1;
    var last, before := legs[n], Reach(legs[..n]);
    if n == 0 {
      LastReaches(ends, sinceMs, last, e);
    } else if before <= e {
      BelowJoin(ends, sinceMs, last.cursor, before, e);
      LastReaches(ends, sinceMs, last, e);
    }
  }

  /** The event at a join that fails is scanned by none of the runs. */
  lemma {:induction false} BrokenJoin(ends: seq<int>, sinceMs: int, legs: seq<Leg>, i: nat)
    requires Latest(ends) && Chain(ends, sinceMs, legs) && 0 < i < |legs|
    requires !Rejoins(ends, sinceMs, legs[i].cursor, Reach(legs[..i]))
    ensures var e := Reach(legs[..i]); e < |ends| && sinceMs < ends[e] <= legs[0].cursor && !ScannedBy(legs, e)
  {
    var before := legs[..i];
    var e := Reach(before);
    ReachOfEach(before, 0);
    FirstEndsBelow(ends, legs[0].cursor, sinceMs, legs[0].pages);
    forall k | 0 <= k < |legs|
      ensures !Scanned(legs[k].pages, e)
    {
      if k < i {
        ReachOfEach(before, k);
        NotInFirst(ends, legs[k].cursor, sinceMs, legs[k].pages, e);
      } else {
        NotAboveCursor(ends, legs[k].cursor, sinceMs, legs[k].pages, e);
      }
    }
  }

  /**
   Any number of interrupted runs and a last one that is complete from its own cursor together leave out no
   event between the cutoff and the first cursor if and only if every run rejoins what was scanned before it.
   */
  lemma {:induction false} ChainCoversExactly(ends: seq<int>, sinceMs: int, legs: seq<Leg>)
    requires Latest(ends) && Chain(ends, sinceMs, legs) && legs != []
    requires Complete(ends, legs[|legs| - 1].cursor, sinceMs, legs[|legs| - 1].pages)
    ensures (forall e: nat :: e < |ends| && sinceMs < ends[e] <= legs[0].cursor ==> ScannedBy(legs, e))
       <==> Joined(ends, sinceMs, legs)
  {
    if Joined(ends, sinceMs, legs) {
      forall e: nat | e < |ends| && sinceMs < ends[e] <= legs[0].cursor
        ensures ScannedBy(legs, e)
      {
        AllReached(ends, sinceMs, legs, e);
        JoinedCovers(ends, sinceMs, legs, e);
      }
    } else {
      var i :| 0 < i < |legs| && !Rejoins(ends, sinceMs, legs[i].cursor, Reach(legs[..i]));
      BrokenJoin(ends, sinceMs, legs, i);
    }
  }
}

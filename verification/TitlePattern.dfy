/**
 The time-range pattern as a regular expression describes it: two times with a dash between them, white
 space around the dash, anywhere in the title, the leftmost one first.
 */
module TitlePattern {

  import opened EnvText
  import opened TitleRange
  import opened Wrappers

  /** Only white space from a up to b. */
  predicate Blank(s: string, a: nat, b: nat) {
    a <= b <= |s| && forall k :: a <= k < b ==> IsWs(s[k])
  }

  /** Two times match at i, with a dash at d and blanks before and after it. */
  predicate RangeAs(s: string, i: nat, t1: Time, t2: Time, d: nat, j: nat) {
    && Matches(s, i, t1) && Blank(s, t1.next, d)
    && d < |s| && s[d] == '-' && Blank(s, d + 1, j) && Matches(s, j, t2)
  }

  lemma {:induction false} SkipsBlank(s: string, i: nat)
    requires i <= |s|
    ensures SkipWs(s, i) <= |s| && Blank(s, i, SkipWs(s, i))
    ensures SkipWs(s, i) < |s| ==> !IsWs(s[SkipWs(s, i)])
    decreases |s| - i
  {
    if i < |s| && IsWs(s[i]) { SkipsBlank(s, i + 1); }
  }

  /** White space ends where something else stands. */
  lemma BlankIsSkip(s: string, i: nat, j: nat)
    requires Blank(s, i, j) && j < |s| && !IsWs(s[j])
    ensures SkipWs(s, i) == j
  {
    SkipsBlank(s, i);
  }

  lemma RangeParts(s: string, i: nat, t1: Time, t2: Time, d: nat, j: nat)
    requires TimeAt(s, i) == Some(t1) && d == SkipWs(s, t1.next) && d < |s| && s[d] == '-'
    requires j == SkipWs(s, d + 1) && TimeAt(s, j) == Some(t2)
    ensures RangeAt(s, i) == Some((t1, t2))
  {
  }

  lemma MatchStarts(s: string, i: nat, t: Time)
    requires Matches(s, i, t)
    ensures i < |s| && IsDigit(s[i]) && !IsWs(s[i]) && t.next <= |s|
  {
  }

  lemma RangeFound(s: string, i: nat, t1: Time, t2: Time, d: nat, j: nat)
    requires RangeAs(s, i, t1, t2, d, j)
    ensures RangeAt(s, i) == Some((t1, t2))
  {
    GreedyIsExact(s, i, t1);
    GreedyIsExact(s, j, t2);
    MatchStarts(s, j, t2);
    BlankIsSkip(s, t1.next, d);
    BlankIsSkip(s, d + 1, j);
    RangeParts(s, i, t1, t2, d, j);
  }

  lemma RangeIsAs(s: string, i: nat, t1: Time, t2: Time) returns (d: nat, j: nat)
    requires RangeAt(s, i) == Some((t1, t2))
    ensures RangeAs(s, i, t1, t2, d, j)
  {
    GreedyIsExact(s, i, t1);
    MatchStarts(s, i, t1);
    d := SkipWs(s, t1.next);
    SkipsBlank(s, t1.next);
    SkipsBlank(s, d + 1);
    j := SkipWs(s, d + 1);
    GreedyIsExact(s, j, t2);
  }

  /** The parser finds a range at a position exactly when the pattern matches there. */
  lemma RangeExactly(s: string, i: nat, t1: Time, t2: Time)
    ensures RangeAt(s, i) == Some((t1, t2)) <==> exists d: nat, j: nat :: RangeAs(s, i, t1, t2, d, j)
  {
    if RangeAt(s, i) == Some((t1, t2)) {
      var d, j := RangeIsAs(s, i, t1, t2);
      assert RangeAs(s, i, t1, t2, d, j);
    }
    if d: nat, j: nat :| RangeAs(s, i, t1, t2, d, j) {
      RangeFound(s, i, t1, t2, d, j);
    }
  }

  ghost predicate MatchesRange(s: string, i: nat, r: (Time, Time)) {
    exists d: nat, j: nat :: RangeAs(s, i, r.0, r.1, d, j)
  }

  ghost predicate Nowhere(s: string, from: nat, to: nat) {
    forall i: nat, r :: from <= i < to ==> !MatchesRange(s, i, r)
  }

  lemma FoundHere(s: string, i: nat)
    ensures RangeAt(s, i).Some? ==> MatchesRange(s, i, RangeAt(s, i).value)
    ensures RangeAt(s, i) == None ==> Nowhere(s, i, i + 1)
  {
    forall r: (Time, Time) ensures RangeAt(s, i) == Some(r) <==> MatchesRange(s, i, r) {
      RangeExactly(s, i, r.0, r.1);
    }
  }

  lemma NowhereMore(s: string, i: nat, k: nat)
    requires Nowhere(s, i, i + 1) && Nowhere(s, i + 1, k)
    ensures Nowhere(s, i, k)
  {
  }

  /** Where the search finds its range: at the first position that has one. */
  lemma {:induction false} SearchExactly(s: string, i: nat) returns (k: nat)
    requires i <= |s|
    ensures i <= k <= |s| && Nowhere(s, i, k)
    ensures match Search(s, i)
            case None => k == |s|
            case Some(r) => MatchesRange(s, k, r)
    decreases |s| - i
  {
    k := i;
    if i < |s| {
      FoundHere(s, i);
      if RangeAt(s, i) == None {
        k := SearchExactly(s, i + 1);
        NowhereMore(s, i, k);
      }
    }
  }

  /** Minutes from the first time to the second, a day more if that is not positive. */
  function Minutes(r: (Time, Time)): int {
    var a := r.0.h % 12 * 60 + r.0.m + if r.0.pm then 720 else 0;
    var b := r.1.h % 12 * 60 + r.1.m + if r.1.pm then 720 else 0;
    if b > a then b - a else b - a + 1440
  }

  /** The duration of a title: that of the leftmost range in it, none without a range. */
  lemma DurationExactly(title: string) returns (k: nat, r: (Time, Time))
    ensures k <= |title| && Nowhere(title, 0, k)
    ensures match ParseTitleDurationMinutes(title)
            case None => k == |title| && ClassOf(title) == D1
            case Some(span) => MatchesRange(title, k, r) && span == Minutes(r) && ClassOf(title) == Classify(span)
  {
    k := SearchExactly(title, 0);
    r := match Search(title, 0) case None => (Time(0, 0, false, 0), Time(0, 0, false, 0)) case Some(found) => found;
  }

  /** The classes by their bounds in minutes. */
  lemma ClassBounds(span: int)
    ensures Classify(span) == M5 <==> span <= 5
    ensures Classify(span) == M15 <==> 5 < span <= 15
    ensures Classify(span) == H1 <==> 15 < span <= 60
    ensures Classify(span) == H6 <==> 60 < span <= 360
    ensures Classify(span) == D1 <==> 360 < span <= 1440
    ensures Classify(span) == Long <==> 1440 < span
  {
  }
}

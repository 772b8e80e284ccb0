/**
 Durations read out of event titles: the time-range pattern with optional minutes, the
 12-hour clock, and the duration classes.
 */
module TitleRange {

  import opened EnvText
  import opened Wrappers

  const DAY := 1440

  /** A matched time of day and the position after it. */
  datatype Time = Time(h: nat, m: nat, pm: bool, next: nat)

  /** AM or PM at position i, in either case. */
  function HalfAt(s: string, i: nat): Option<bool> {
    if i + 1 < |s| && (s[i + 1] == 'M' || s[i + 1] == 'm') then
      if s[i] == 'A' || s[i] == 'a' then Some(false) else if s[i] == 'P' || s[i] == 'p' then Some(true) else None
    else None
  }

  function HoursAt(s: string, i: nat): Option<(nat, nat)> {
    if i >= |s| || !IsDigit(s[i]) then None
    else if i + 1 < |s| && IsDigit(s[i + 1]) then Some((10 * Val(s[i]) + Val(s[i + 1]), i + 2))
    else Some((Val(s[i]), i + 1))
  }

  /** The optional `:dd`. */
  function MinutesAt(s: string, i: nat): (nat, nat) {
    if i + 2 < |s| && s[i] == ':' && IsDigit(s[i + 1]) && IsDigit(s[i + 2])
    then (10 * Val(s[i + 1]) + Val(s[i + 2]), i + 3) else (0, i)
  }

  function TimeAt(s: string, i: nat): Option<Time> {
    match HoursAt(s, i)
    case None => None
    case Some((h, j)) =>
      var (m, k) := MinutesAt(s, j);
      match HalfAt(s, k)
      case None => None
      case Some(pm) => Some(Time(h, m, pm, k + 2))
  }

  function SkipWs(s: string, i: nat): (j: nat)
    ensures i <= j
    decreases |s| - i
  {
    if i < |s| && IsWs(s[i]) then SkipWs(s, i + 1) else i
  }

  /** The whole pattern at position i. */
  function RangeAt(s: string, i: nat): Option<(Time, Time)> {
    match TimeAt(s, i)
    case None => None
    case Some(t1) =>
      var j := SkipWs(s, t1.next);
      if j >= |s| || s[j] != '-' then None
      else
        match TimeAt(s, SkipWs(s, j + 1))
        case None => None
        case Some(t2) => Some((t1, t2))
  }

  /** The leftmost match at or after position i. */
  function Search(s: string, i: nat): Option<(Time, Time)>
    decreases |s| - i
  {
    if i >= |s| then None
    else if RangeAt(s, i).Some? then RangeAt(s, i)
    else Search(s, i + 1)
  }

  function ToMinutes(h: nat, m: nat, pm: bool): nat {
    (h % 12 + if pm then 12 else 0) * 60 + m
  }

  function Span(t1: Time, t2: Time): int {
    var span := ToMinutes(t2.h, t2.m, t2.pm) - ToMinutes(t1.h, t1.m, t1.pm);
    if span <= 0 then span + DAY else span
  }

  function ParseTitleDurationMinutes(title: string): Option<int> {
    match Search(title, 0)
    case None => None
    case Some((t1, t2)) => Some(Span(t1, t2))
  }

  // ---------------------------------------------------------------- the pattern's language

  /** What (\d{1,2})(?::(\d{2}))?(AM|PM) may match at i: one or two digits, minutes or none. */
  predicate Matches(s: string, i: nat, t: Time) {
    exists two: bool, mins: bool :: MatchesAs(s, i, t, two, mins)
  }

  predicate MatchesAs(s: string, i: nat, t: Time, two: bool, mins: bool) {
    var j := i + if two then 2 else 1;
    var k := j + if mins then 3 else 0;
    && k + 1 < |s| && t.next == k + 2 && s[k + 1] in "Mm" && s[k] in (if t.pm then "Pp" else "Aa")
    && IsDigit(s[i]) && (two ==> IsDigit(s[i + 1]))
    && t.h == (if two then 10 * Val(s[i]) + Val(s[i + 1]) else Val(s[i]))
    && (mins ==> s[j] == ':' && IsDigit(s[j + 1]) && IsDigit(s[j + 2]))
    && t.m == (if mins then 10 * Val(s[j + 1]) + Val(s[j + 2]) else 0)
  }

  /** Taking digits and minutes greedily finds the only way to match, so there is nothing to backtrack to. */
  lemma GreedyIsExact(s: string, i: nat, t: Time)
    ensures TimeAt(s, i) == Some(t) <==> Matches(s, i, t)
  {
    if TimeAt(s, i) == Some(t) {
      var two := i + 1 < |s| && IsDigit(s[i + 1]);
      var j := i + if two then 2 else 1;
      var mins := j + 2 < |s| && s[j] == ':' && IsDigit(s[j + 1]) && IsDigit(s[j + 2]);
      assert MatchesAs(s, i, t, two, mins);
    }
  }

  // ---------------------------------------------------------------- the clock

  /** A 12-hour clock time. */
  datatype Clock = Clock(h: nat, m: nat, pm: bool) {
    predicate Valid() {
      1 <= h <= 12 && m < 60
    }

    function Minutes(): nat {
      ToMinutes(h, m, pm)
    }
  }

  function FromMinutes(n: nat): Clock
    requires n < DAY
  {
    var h := n / 60 % 12;
    Clock(if h == 0 then 12 else h, n % 60, n >= 720)
  }

  /** toMinutes is a bijection from clock times onto the minutes of the day. */
  lemma MinutesBijection(c: Clock, n: nat)
    ensures c.Valid() ==> c.Minutes() < DAY && FromMinutes(c.Minutes()) == c
    ensures n < DAY ==> FromMinutes(n).Valid() && FromMinutes(n).Minutes() == n
  {
  }

  // ---------------------------------------------------------------- duration classes

  datatype Class = M5 | M15 | H1 | H6 | D1 | Long

  function Classify(span: int): Class {
    if span <= 5 then M5
    else if span <= 15 then M15
    else if span <= 60 then H1
    else if span <= 360 then H6
    else if span <= DAY then D1
    else Long
  }

  /** Longest duration of a class, if it has one. */
  function Limit(c: Class): Option<int> {
    match c
    case M5 => Some(5)
    case M15 => Some(15)
    case H1 => Some(60)
    case H6 => Some(360)
    case D1 => Some(DAY)
    case Long => None
  }

  /** A title without a time range counts as daily. */
  function ClassOf(title: string): Class {
    match ParseTitleDurationMinutes(title)
    case None => D1
    case Some(span) => Classify(span)
  }

  /** The span lies within its class's limit and beyond that of every class with a smaller one. */
  lemma ClassIsTightest(span: int, c: Class)
    ensures Limit(Classify(span)).Some? ==> span <= Limit(Classify(span)).value
    ensures Limit(c).Some? && span <= Limit(c).value ==>
              Limit(Classify(span)).Some? && Limit(Classify(span)).value <= Limit(c).value
  {
  }

  /** Longer spans never get a class with a smaller limit. */
  lemma ClassMonotone(a: int, b: int)
    requires a <= b && Limit(Classify(b)).Some?
    ensures Limit(Classify(a)).Some? && Limit(Classify(a)).value <= Limit(Classify(b)).value
  {
    ClassIsTightest(b, Classify(b));
    ClassIsTightest(a, Classify(b));
  }

  // ---------------------------------------------------------------- printing and parsing back

  /** "h:mmAM" or "h:mmPM", the hour without a leading zero. */
  function PrintClock(c: Clock): (s: string)
    requires c.Valid()
  {
    (if c.h < 10 then [Digit(c.h)] else ['1', Digit(c.h - 10)])
    + [':', Digit(c.m / 10), Digit(c.m % 10), if c.pm then 'P' else 'A', 'M']
  }

  function PrintRange(a: Clock, b: Clock): string
    requires a.Valid() && b.Valid()
  {
    PrintClock(a) + "-" + PrintClock(b)
  }

  /** The text of q stands in s from position i on. */
  ghost predicate StandsAt(s: string, i: nat, q: string) {
    i + |q| <= |s| && forall k :: 0 <= k < |q| ==> s[i + k] == q[k]
  }

  lemma PrintedMatches(s: string, i: nat, c: Clock)
    requires c.Valid() && StandsAt(s, i, PrintClock(c))
    ensures TimeAt(s, i) == Some(Time(c.h, c.m, c.pm, i + |PrintClock(c)|))
  {
    var q := PrintClock(c);
    var d := if c.h < 10 then 1 else 2;
    assert q[0] == s[i] && q[d - 1] == s[i + d - 1];
    assert q[d] == s[i + d] && q[d + 1] == s[i + d + 1] && q[d + 2] == s[i + d + 2];
    assert q[d + 3] == s[i + d + 3] && q[d + 4] == s[i + d + 4];
    assert HoursAt(s, i) == Some((c.h, i + d));
    assert MinutesAt(s, i + d) == (c.m, i + d + 3);
  }

  /**
   Nothing in the prefix can be the start of a time: it does not end in a digit or colon, and no
   digit touches an A or P.
   */
  predicate Quiet(p: string) {
    && (p != [] ==> !IsDigit(p[|p| - 1]) && p[|p| - 1] != ':')
    && forall k :: 0 < k < |p| && IsDigit(p[k - 1]) ==> p[k] !in "AaPp"
  }

  lemma TimeShape(s: string, i: nat)
    requires TimeAt(s, i).Some?
    ensures var k := TimeAt(s, i).value.next - 2;
            && i < k < |s| && s[k] in "AaPp" && IsDigit(s[k - 1])
            && forall x :: i <= x < k ==> IsDigit(s[x]) || s[x] == ':'
  {
  }

  lemma QuietPrefix(s: string, p: string, i: nat)
    requires Quiet(p) && StandsAt(s, 0, p) && i < |p|
    ensures TimeAt(s, i) == None
  {
    assert forall x :: 0 <= x < |p| ==> s[0 + x] == s[x] == p[x];
    if TimeAt(s, i).Some? {
      TimeShape(s, i);
    }
  }

  lemma {:induction false} SearchSkips(s: string, p: string, i: nat)
    requires Quiet(p) && StandsAt(s, 0, p) && i <= |p| < |s| && RangeAt(s, |p|).Some?
    ensures Search(s, i) == RangeAt(s, |p|)
    decreases |p| - i
  {
    if i < |p| {
      QuietPrefix(s, p, i);
      SearchSkips(s, p, i + 1);
    }
  }

  lemma StandsApart(s: string, i: nat, x: string, y: string)
    requires StandsAt(s, i, x + y)
    ensures StandsAt(s, i, x) && StandsAt(s, i + |x|, y)
  {
    forall k | 0 <= k < |x| ensures s[i + k] == x[k] { assert (x + y)[k] == x[k]; }
    forall k | 0 <= k < |y| ensures s[i + |x| + k] == y[k] {
      assert (x + y)[|x| + k] == y[k] && s[i + (|x| + k)] == y[k];
    }
  }

  lemma ClockStart(s: string, i: nat, c: Clock)
    requires c.Valid() && StandsAt(s, i, PrintClock(c))
    ensures i < |s| && IsDigit(s[i])
  {
    assert s[i + 0] == PrintClock(c)[0];
  }

  lemma DashStands(s: string, i: nat)
    requires StandsAt(s, i, "-")
    ensures i < |s| && s[i] == '-'
  {
    assert s[i + 0] == "-"[0];
  }

  lemma DashAlone(s: string, i: nat)
    requires i + 1 < |s| && s[i] == '-' && IsDigit(s[i + 1])
    ensures SkipWs(s, i) == i && SkipWs(s, i + 1) == i + 1
  {
  }

  lemma RangeRead(s: string, n: nat, t1: Time, t2: Time)
    requires TimeAt(s, n) == Some(t1) && TimeAt(s, t1.next + 1) == Some(t2)
    requires t1.next + 1 < |s| && s[t1.next] == '-' && IsDigit(s[t1.next + 1])
    ensures RangeAt(s, n) == Some((t1, t2))
  {
    DashAlone(s, t1.next);
  }

  /** Two printed clock times with a dash between them are read as a range of just these times. */
  lemma RangePrinted(s: string, n: nat, a: Clock, b: Clock) returns (t1: Time, t2: Time)
    requires a.Valid() && b.Valid() && StandsAt(s, n, PrintRange(a, b))
    ensures RangeAt(s, n) == Some((t1, t2))
    ensures (t1.h, t1.m, t1.pm) == (a.h, a.m, a.pm) && (t2.h, t2.m, t2.pm) == (b.h, b.m, b.pm)
  {
    var i := n + |PrintClock(a)|;
    StandsApart(s, n, PrintClock(a) + "-", PrintClock(b));
    StandsApart(s, n, PrintClock(a), "-");
    t1, t2 := Time(a.h, a.m, a.pm, i), Time(b.h, b.m, b.pm, i + 1 + |PrintClock(b)|);
    DashStands(s, i);
    ClockStart(s, i + 1, b);
    PrintedMatches(s, n, a);
    PrintedMatches(s, i + 1, b);
    RangeRead(s, n, t1, t2);
  }

  lemma Placed(prefix: string, q: string, suffix: string)
    ensures StandsAt(prefix + q + suffix, 0, prefix) && StandsAt(prefix + q + suffix, |prefix|, q)
  {
  }

  lemma SpanLeads(t1: Time, t2: Time)
    requires t1.m < 60 && t2.m < 60
    ensures 1 <= Span(t1, t2) <= DAY
    ensures (ToMinutes(t1.h, t1.m, t1.pm) + Span(t1, t2)) % DAY == ToMinutes(t2.h, t2.m, t2.pm)
  {
  }

  /** From 1 to 1440 minutes, leading from the first clock time to the second. */
  predicate LeadsTo(span: Option<int>, a: Clock, b: Clock) {
    span.Some? && 1 <= span.value <= DAY && (a.Minutes() + span.value) % DAY == b.Minutes()
  }

  lemma ParsedRange(s: string, prefix: string, a: Clock, b: Clock)
    requires Quiet(prefix) && a.Valid() && b.Valid()
    requires StandsAt(s, 0, prefix) && StandsAt(s, |prefix|, PrintRange(a, b))
    ensures LeadsTo(ParseTitleDurationMinutes(s), a, b)
  {
    var t1, t2 := RangePrinted(s, |prefix|, a, b);
    SearchSkips(s, prefix, 0);
    SpanLeads(t1, t2);
  }

  /**
   Printing two clock times as a range anywhere after a quiet prefix and parsing the title gives
   the one span from 1 to 1440 minutes that leads from the first to the second.
   */
  lemma RangeRoundTrip(prefix: string, a: Clock, b: Clock, suffix: string)
    requires Quiet(prefix) && a.Valid() && b.Valid()
    ensures LeadsTo(ParseTitleDurationMinutes(prefix + PrintRange(a, b) + suffix), a, b)
  {
    Placed(prefix, PrintRange(a, b), suffix);
    ParsedRange(prefix + PrintRange(a, b) + suffix, prefix, a, b);
  }

  lemma SpanUnique(start: nat, end: nat, x: int, y: int)
    requires start < DAY && end < DAY && 1 <= x <= DAY && 1 <= y <= DAY
    requires (start + x) % DAY == end && (start + y) % DAY == end
    ensures x == y
  {
  }

  /** The second clock time less the first, in minutes. */
  function Difference(t1: Time, t2: Time): int {
    ToMinutes(t2.h, t2.m, t2.pm) - ToMinutes(t1.h, t1.m, t1.pm)
  }

  /**
   A span lies between one minute and a day exactly when the two times differ by at most a day, it is
   classed LONG exactly when the second is more than a day after the first, and not positive exactly when
   it is a day or more before.
   */
  lemma SpanExactly(t1: Time, t2: Time)
    ensures 1 <= Span(t1, t2) <= DAY <==> -DAY < Difference(t1, t2) <= DAY
    ensures Classify(Span(t1, t2)) == Long <==> Difference(t1, t2) > DAY
    ensures Span(t1, t2) <= 0 <==> Difference(t1, t2) <= -DAY
  {
  }

  /** Minutes below 60 keep every span in range, whatever the hours. */
  lemma WellFormedSpan(t1: Time, t2: Time)
    requires t1.m < 60 && t2.m < 60
    ensures 1 <= Span(t1, t2) <= DAY && Classify(Span(t1, t2)) != Long
  {
    SpanExactly(t1, t2);
  }

  /** Minutes beyond 59 are accepted: they give a LONG span of one range and a negative one of another. */
  lemma MalformedMinutes()
    ensures ParseTitleDurationMinutes("12:00AM-11:99PM") == Some(1479) && ClassOf("12:00AM-11:99PM") == Long
    ensures ParseTitleDurationMinutes("11:99PM-12:00AM") == Some(-39) && ClassOf("11:99PM-12:00AM") == M5
  {
    MalformedEnd("12:00AM-11:99PM");
    MalformedStart("11:99PM-12:00AM");
  }

  lemma MalformedEnd(s: string)
    requires s == "12:00AM-11:99PM"
    ensures ParseTitleDurationMinutes(s) == Some(1479)
  {
    assert TimeAt(s, 0) == Some(Time(12, 0, false, 7)) && SkipWs(s, 7) == 7 && SkipWs(s, 8) == 8;
    assert TimeAt(s, 8) == Some(Time(11, 99, true, 15));
  }

  lemma MalformedStart(s: string)
    requires s == "11:99PM-12:00AM"
    ensures ParseTitleDurationMinutes(s) == Some(-39)
  {
    assert TimeAt(s, 0) == Some(Time(11, 99, true, 7)) && SkipWs(s, 7) == 7 && SkipWs(s, 8) == 8;
    assert TimeAt(s, 8) == Some(Time(12, 0, false, 15));
  }
}

/**
 Where the writer's expression matches in a text made of whole lines around one
 assignment, and what rewriting that line does to the matches of other keys.
 */
module EnvMatch {
  import opened EnvText
  import opened EnvFile

  predicate OneLine(x: string) {
    forall i :: 0 <= i < |x| ==> !IsTerm(x[i])
  }

  lemma FirstMatchIs(s: string, key: string, p: nat)
    requires MatchAt(s, key, p) && forall q: nat :: q < p ==> !MatchAt(s, key, q)
    ensures Replaces(s, key) && FirstMatch(s, key, 0) == p
  {
    var m := FirstMatch(s, key, 0);
    assert m <= p;
  }

  lemma NeverMatches(s: string, key: string)
    requires forall q: nat :: q < |s| ==> !MatchAt(s, key, q)
    ensures !Replaces(s, key)
  {
  }

  lemma LineEndIs(s: string, p: nat, e: nat)
    requires p <= e <= |s| && OneLine(s[p..e]) && (e < |s| ==> IsTerm(s[e]))
    ensures LineEnd(s, p) == e
  {
    assert forall i :: p <= i < e ==> s[i] == s[p..e][i - p];
  }

  /** A line end carried over to another text, which may end the line earlier. */
  lemma LineEndCopy(s: string, p: nat, t: string, q: nat, n: nat)
    requires p <= |s| && p + n <= LineEnd(s, p) && q + n <= |t| && s[p..p + n] == t[q..q + n]
    requires q + n < |t| ==> IsTerm(t[q + n])
    ensures LineEnd(t, q) == q + n
  {
    var x := s[p..p + n];
    forall i | 0 <= i < n
      ensures !IsTerm(x[i])
    {
      assert x[i] == s[p + i];
    }
    LineEndIs(t, q, q + n);
  }

  lemma MatchHead(s: string, key: string, p: nat)
    requires key != "" && MatchAt(s, key, p)
    ensures s[p] == key[0]
  {
    assert s[p..p + |key|][0] == s[p];
  }

  lemma MatchChar(s: string, key: string, p: nat, i: nat)
    requires PlainKey(key) && MatchAt(s, key, p) && i < |key|
    ensures s[p + i] == key[i] && key[i] != '=' && !IsTerm(key[i])
  {
    PlainKeyChars(key);
    assert s[p..p + |key|][i] == s[p + i];
  }

  lemma MatchNoTerm(s: string, key: string, p: nat, j: nat)
    requires PlainKey(key) && p <= j <= p + |key| && j < |s|
    ensures MatchAt(s, key, p) ==> !IsTerm(s[j])
  {
    if MatchAt(s, key, p) && j < p + |key| { MatchChar(s, key, p, j - p); }
  }

  lemma NotLonger(s: string, p: nat, key: string, other: string)
    requires PlainKey(other) && MatchAt(s, key, p) && MatchAt(s, other, p)
    ensures |other| <= |key|
  {
    if |key| < |other| { MatchChar(s, other, p, |key|); }
  }

  lemma OneKey(s: string, p: nat, key: string, other: string)
    requires PlainKey(key) && PlainKey(other) && MatchAt(s, key, p) && MatchAt(s, other, p)
    ensures other == key
  {
    NotLonger(s, p, key, other);
    NotLonger(s, p, other, key);
  }

  /** A match in the lines before does not see what follows them. */
  lemma HeadMatch(a: string, rest: string, key: string, q: nat)
    requires PlainKey(key) && LineStart(a) && q < |a|
    ensures MatchAt(a + rest, key, q) <==> MatchAt(a, key, q)
  {
    PlainKeyChars(key);
    var s, n := a + rest, |key|;
    if q + n < |a| {
      assert s[q..q + n] == a[q..q + n];
    } else {
      assert s[|a| - 1] == '\n';
      MatchNoTerm(s, key, q, |a| - 1);
    }
  }

  /** A match behind the first character of the rest does not see what precedes it. */
  lemma TailMatch(h: string, c: string, key: string, r: nat)
    requires 0 < r
    ensures MatchAt(h + c, key, |h| + r) <==> MatchAt(c, key, r)
  {
    if r + |key| < |c| {
      assert (h + c)[|h| + r..|h| + r + |key|] == c[r..r + |key|];
    }
  }

  lemma NoMatchInside(s: string, key: string, q: nat)
    requires 0 < q <= |s| && !IsTerm(s[q - 1])
    ensures !MatchAt(s, key, q)
  {
  }

  lemma OwnStarts(a: string, key: string, val: string, c: string)
    requires a == "" || IsTerm(a[|a| - 1])
    ensures MatchAt(a + Assignment(key, val) + c, key, |a|)
  {
    var s, x := a + Assignment(key, val) + c, Assignment(key, val);
    assert s[|a|..|a| + |key|] == x[..|key|] == key;
  }

  /** At the head of an assignment exactly its own key matches. */
  lemma OwnMatch(a: string, key: string, val: string, c: string, other: string)
    requires PlainKey(key) && PlainKey(other) && LineStart(a)
    ensures MatchAt(a + Assignment(key, val) + c, other, |a|) <==> other == key
  {
    var s := a + Assignment(key, val) + c;
    OwnStarts(a, key, val, c);
    if MatchAt(s, other, |a|) { OneKey(s, |a|, key, other); }
  }

  /** The first match of the key itself, when the lines before have none. */
  lemma OwnFirst(a: string, key: string, val: string, c: string)
    requires PlainKey(key) && OneLine(Assignment(key, val)) && LineStart(a) && !Replaces(a, key)
    requires c == "" || IsTerm(c[0])
    ensures var s := a + Assignment(key, val) + c;
            && Replaces(s, key) && FirstMatch(s, key, 0) == |a|
            && LineEnd(s, |a| + |key| + 1) == |a| + |Assignment(key, val)|
  {
    var x := Assignment(key, val);
    var s := a + x + c;
    OwnStarts(a, key, val, c);
    forall q: nat | q < |a|
      ensures !MatchAt(s, key, q)
    {
      Assoc(a, x, c);
      HeadMatch(a, x + c, key, q);
    }
    FirstMatchIs(s, key, |a|);
    OwnLineEnd(a, key, val, c);
  }

  lemma OwnLineEnd(a: string, key: string, val: string, c: string)
    requires OneLine(Assignment(key, val)) && (c == "" || IsTerm(c[0]))
    ensures LineEnd(a + Assignment(key, val) + c, |a| + |key| + 1) == |a| + |Assignment(key, val)|
  {
    var x, n := Assignment(key, val), |key| + 1;
    var s, p := a + x + c, |a| + n;
    SuffixOneLine(x, n);
    SliceOfMiddle(a, x, c, n);
    if c != "" {
      assert s[|a| + |x|] == c[0];
    }
    LineEndIs(s, p, |a| + |x|);
  }

  lemma SuffixOneLine(x: string, n: nat)
    requires n <= |x| && OneLine(x)
    ensures OneLine(x[n..])
  {
  }

  lemma SliceOfMiddle(a: string, x: string, c: string, n: nat)
    requires n <= |x|
    ensures (a + x + c)[|a| + n..|a| + |x|] == x[n..]
  {
  }

  /** A write leaves the key's own line a line to the loader. */
  lemma OwnAligned(a: string, key: string, val: string, c: string)
    requires PlainKey(key) && OneLine(Assignment(key, val)) && LineStart(a) && AfterLine(c) && !Replaces(a, key)
    ensures Aligned(a + Assignment(key, val) + c, key)
  {
    var s := a + Assignment(key, val) + c;
    OwnFirst(a, key, val, c);
    assert s[..|a|] == a && s[|a| + |Assignment(key, val)|..] == c;
  }

  // ---------------------------------------------------------------- other keys

  /** Where another key can match: in the lines before or behind the end of the line. */
  lemma MatchesAround(a: string, key: string, val: string, c: string, other: string, q: nat)
    requires PlainKey(key) && PlainKey(other) && other != key
    requires OneLine(Assignment(key, val)) && LineStart(a) && AfterLine(c)
    ensures var n := |a| + |Assignment(key, val)|;
            MatchAt(a + Assignment(key, val) + c, other, q)
            <==> (q < |a| && MatchAt(a, other, q)) || (q > n && MatchAt(c, other, q - n))
  {
    var x := Assignment(key, val);
    var s, n := a + x + c, |a| + |x|;
    if q < |a| {
      Assoc(a, x, c);
      HeadMatch(a, x + c, other, q);
    } else if q == |a| {
      OwnMatch(a, key, val, c, other);
    } else if q <= n {
      assert s[q - 1] == x[q - 1 - |a|];
      NoMatchInside(s, other, q);
    } else {
      TailMatch(a + x, c, other, q - n);
    }
  }

  lemma NotAtStart(c: string, key: string)
    requires PlainKey(key) && AfterLine(c)
    ensures !MatchAt(c, key, 0)
  {
    PlainKeyChars(key);
    if MatchAt(c, key, 0) { MatchHead(c, key, 0); }
  }

  /** The lines before and after decide whether another key is found, and where. */
  lemma OtherFirst(a: string, key: string, val: string, c: string, other: string)
    requires PlainKey(key) && PlainKey(other) && other != key
    requires OneLine(Assignment(key, val)) && LineStart(a) && AfterLine(c)
    ensures var s := a + Assignment(key, val) + c;
            && (Replaces(s, other) <==> (Replaces(a, other) || Replaces(c, other)))
            && (Replaces(a, other) ==> FirstMatch(s, other, 0) == FirstMatch(a, other, 0))
            && (!Replaces(a, other) && Replaces(c, other) ==>
                  FirstMatch(s, other, 0) == |a| + |Assignment(key, val)| + FirstMatch(c, other, 0))
  {
    NotAtStart(c, other);
    if Replaces(a, other) {
      OtherFound(a, key, val, c, other, FirstMatch(a, other, 0));
    } else if Replaces(c, other) {
      OtherFound(a, key, val, c, other, |a| + |Assignment(key, val)| + FirstMatch(c, other, 0));
    } else {
      OtherMissing(a, key, val, c, other);
    }
  }

  lemma OtherFound(a: string, key: string, val: string, c: string, other: string, p: nat)
    requires PlainKey(key) && PlainKey(other) && other != key
    requires OneLine(Assignment(key, val)) && LineStart(a) && AfterLine(c)
    requires var n := |a| + |Assignment(key, val)|;
             if Replaces(a, other) then p == FirstMatch(a, other, 0)
             else Replaces(c, other) && p == n + FirstMatch(c, other, 0) && p > n
    ensures var s := a + Assignment(key, val) + c;
            Replaces(s, other) && FirstMatch(s, other, 0) == p
  {
    var s := a + Assignment(key, val) + c;
    forall q: nat | q < p
      ensures !MatchAt(s, other, q)
    {
      MatchesAround(a, key, val, c, other, q);
    }
    MatchesAround(a, key, val, c, other, p);
    FirstMatchIs(s, other, p);
  }

  lemma OtherMissing(a: string, key: string, val: string, c: string, other: string)
    requires PlainKey(key) && PlainKey(other) && other != key
    requires OneLine(Assignment(key, val)) && LineStart(a) && AfterLine(c)
    requires !Replaces(a, other) && !Replaces(c, other)
    ensures !Replaces(a + Assignment(key, val) + c, other)
  {
    var s := a + Assignment(key, val) + c;
    forall q: nat | q < |s|
      ensures !MatchAt(s, other, q)
    {
      MatchesAround(a, key, val, c, other, q);
    }
  }

  lemma LineEndInHead(a: string, rest: string, p: nat)
    requires LineStart(a) && p < |a|
    ensures LineEnd(a, p) < |a| && LineEnd(a + rest, p) == LineEnd(a, p)
    ensures AfterLine((a + rest)[LineEnd(a, p)..]) <==> AfterLine(a[LineEnd(a, p)..])
  {
    var e := LineEnd(a, p);
    assert e < |a|;
    var s := a + rest;
    assert a[p..e] == s[p..e];
    LineEndCopy(a, p, s, p, e - p);
    assert s[e..][0] == a[e..][0] == a[e];
    if a[e] == '\r' {
      assert s[e..][1] == a[e..][1];
    }
  }

  lemma LineEndInTail(h: string, c: string, p: nat)
    requires p <= |c|
    ensures LineEnd(h + c, |h| + p) == |h| + LineEnd(c, p)
    ensures (h + c)[|h| + LineEnd(c, p)..] == c[LineEnd(c, p)..]
  {
    var e, s := LineEnd(c, p), h + c;
    assert c[p..e] == s[|h| + p..|h| + e];
    LineEndCopy(c, p, s, |h| + p, e - p);
  }

  lemma AlignedInHead(a: string, rest: string, key: string, p: nat)
    requires LineStart(a) && p + |key| < |a| && a[p + |key|] == '='
    ensures AlignedAt(a + rest, key, p) <==> AlignedAt(a, key, p)
  {
    assert a[|a| - 1] == '\n';
    LineEndInHead(a, rest, p + |key| + 1);
    assert (a + rest)[..p] == a[..p];
  }

  lemma AlignedInTail(h: string, c: string, key: string, p: nat)
    requires 0 < p && p + |key| < |c|
    ensures AlignedAt(h + c, key, |h| + p) <==> AlignedAt(c, key, p)
  {
    var m, s := p + |key| + 1, h + c;
    LineEndInTail(h, c, m);
    assert |h| + p + |key| + 1 == |h| + m;
    assert s[..|h| + p][|h| + p - 1] == c[..p][p - 1];
  }

  lemma SameAligned(s: string, p: nat, t: string, q: nat, key: string)
    requires Replaces(s, key) && FirstMatch(s, key, 0) == p && Replaces(t, key) && FirstMatch(t, key, 0) == q
    requires AlignedAt(s, key, p) <==> AlignedAt(t, key, q)
    ensures Aligned(s, key) <==> Aligned(t, key)
  {
  }

  /** Whatever the line says, another key is found at the same place and ends the same way. */
  lemma OtherAligned(a: string, key: string, val: string, c: string, other: string)
    requires PlainKey(key) && PlainKey(other) && other != key
    requires OneLine(Assignment(key, val)) && LineStart(a) && AfterLine(c)
    ensures Aligned(a + Assignment(key, val) + c, other)
       <==> if Replaces(a, other) then Aligned(a, other) else Aligned(c, other)
  {
    var x := Assignment(key, val);
    OtherFirst(a, key, val, c, other);
    if Replaces(a, other) {
      Assoc(a, x, c);
      var p := FirstMatch(a, other, 0);
      AlignedInHead(a, x + c, other, p);
      SameAligned(a, p, a + (x + c), p, other);
    } else if Replaces(c, other) {
      var p := FirstMatch(c, other, 0);
      NotAtStart(c, other);
      AlignedInTail(a + x, c, other, p);
      SameAligned(c, p, a + x + c, |a + x| + p, other);
    }
  }

  // ---------------------------------------------------------------- trimming the end

  lemma {:induction false} TrimEndPrefix(s: string)
    ensures var t := TrimEnd(s);
            && |t| <= |s| && t == s[..|t|] && (t != "" ==> !IsWs(t[|t| - 1]))
            && forall i :: |t| <= i < |s| ==> IsWs(s[i])
    decreases |s|
  {
    if s != [] && IsWs(s[|s| - 1]) {
      TrimEndPrefix(s[..|s| - 1]);
    }
  }

  lemma SliceOfPrefix(s: string, n: nat, p: nat, q: nat)
    requires p <= q <= n <= |s|
    ensures s[..n][p..q] == s[p..q]
  {
  }

  /** A match ends in '=', so it lies before the trailing blanks. */
  lemma TrimmedMatch(s: string, key: string, q: nat)
    ensures MatchAt(s, key, q) <==> MatchAt(TrimEnd(s), key, q)
  {
    var t := TrimEnd(s);
    TrimEndPrefix(s);
    if q + |key| < |t| {
      SliceOfPrefix(s, |t|, q, q + |key|);
    }
  }

  lemma TrimmedFirst(s: string, key: string)
    ensures Replaces(TrimEnd(s), key) <==> Replaces(s, key)
    ensures Replaces(s, key) ==> FirstMatch(TrimEnd(s), key, 0) == FirstMatch(s, key, 0)
  {
    forall q: nat
      ensures MatchAt(s, key, q) <==> MatchAt(TrimEnd(s), key, q)
    {
      TrimmedMatch(s, key, q);
    }
    TrimEndPrefix(s);
    if Replaces(s, key) {
      FirstMatchIs(TrimEnd(s), key, FirstMatch(s, key, 0));
    } else {
      NeverMatches(TrimEnd(s), key);
    }
  }

  /** The text an assignment is appended to: trimmed, with one line feed. */
  function Base(s: string): string {
    TrimEnd(s) + ['\n']
  }

  lemma BaseMatch(s: string, key: string, q: nat)
    requires PlainKey(key)
    ensures MatchAt(Base(s), key, q) <==> MatchAt(s, key, q)
  {
    var t := TrimEnd(s);
    TrimmedMatch(s, key, q);
    PlainKeyChars(key);
    if q + |key| < |t| {
      assert Base(s)[q..q + |key|] == t[q..q + |key|];
    }
  }

  lemma BaseFirst(s: string, key: string)
    requires PlainKey(key)
    ensures Replaces(Base(s), key) <==> Replaces(s, key)
    ensures Replaces(s, key) ==> FirstMatch(Base(s), key, 0) == FirstMatch(s, key, 0)
  {
    forall q: nat
      ensures MatchAt(Base(s), key, q) <==> MatchAt(s, key, q)
    {
      BaseMatch(s, key, q);
    }
    TrimEndPrefix(s);
    if Replaces(s, key) {
      FirstMatchIs(Base(s), key, FirstMatch(s, key, 0));
    } else {
      NeverMatches(Base(s), key);
    }
  }

  /** A line end inside the trimmed text stays one. */
  lemma BaseLineInside(s: string, p: nat)
    requires p <= |s| && LineEnd(s, p) < |TrimEnd(s)| && AfterLine(s[LineEnd(s, p)..])
    ensures AfterLine(Base(s)[LineEnd(Base(s), p)..])
  {
    TrimEndPrefix(s);
    var n, b, e := |TrimEnd(s)|, Base(s), LineEnd(s, p);
    assert s[p..e] == b[p..e];
    LineEndCopy(s, p, b, p, e - p);
    assert s[e..][0] == s[e] && b[e..][0] == b[e] == s[e];
    if s[e] == '\r' {
      assert e + 1 < n && s[e..][1] == s[e + 1] && b[e..][1] == b[e + 1];
    }
  }

  /** The last line ends in the added line feed. */
  lemma BaseLineLast(s: string, p: nat)
    requires p <= |TrimEnd(s)| && p <= |s| && LineEnd(s, p) >= |TrimEnd(s)|
    ensures AfterLine(Base(s)[LineEnd(Base(s), p)..])
  {
    TrimEndPrefix(s);
    var n, b := |TrimEnd(s)|, Base(s);
    assert s[p..n] == b[p..n];
    LineEndCopy(s, p, b, p, n - p);
    assert b[n..][0] == '\n';
  }

  lemma BaseLineEnd(s: string, p: nat)
    requires p <= |TrimEnd(s)| && p <= |s| && AfterLine(s[LineEnd(s, p)..])
    ensures p < |Base(s)| && AfterLine(Base(s)[LineEnd(Base(s), p)..])
  {
    if LineEnd(s, p) < |TrimEnd(s)| { BaseLineInside(s, p); } else { BaseLineLast(s, p); }
  }

  lemma BaseAlignedAt(s: string, key: string, p: nat)
    requires PlainKey(key) && MatchAt(s, key, p) && AlignedAt(s, key, p)
    ensures p + |key| < |Base(s)| && AlignedAt(Base(s), key, p)
  {
    TrimmedMatch(s, key, p);
    TrimEndPrefix(s);
    BaseLineEnd(s, p + |key| + 1);
    assert Base(s)[..p] == s[..p];
  }

  lemma BaseAligned(s: string, key: string)
    requires PlainKey(key) && Aligned(s, key)
    ensures Aligned(Base(s), key)
  {
    BaseFirst(s, key);
    if Replaces(s, key) {
      BaseAlignedAt(s, key, FirstMatch(s, key, 0));
    }
  }
}

/**
 Files whose lines end in LF or CRLF: every line the writer finds is then a line to
 the loader, and a write leaves the file so.
 */
module EnvClean {
  import opened EnvText
  import opened EnvFile
  import opened EnvMatch
  import opened EnvReplace
  import opened EnvRoundTrip

  /** No line terminator other than LF or CRLF at position i. */
  predicate CleanAt(body: string, i: nat)
    requires i < |body|
  {
    && body[i] != '\U{2028}' && body[i] != '\U{2029}'
    && (body[i] == '\r' ==> i + 1 < |body| && body[i + 1] == '\n')
  }

  /** Lines end in LF or CRLF; no other line terminator occurs. */
  predicate CleanEnds(body: string) {
    forall i: nat :: i < |body| ==> CleanAt(body, i)
  }

  /** In such a file the guard of the round trip holds for every key. */
  lemma CleanAligned(body: string, key: string)
    requires PlainKey(key) && CleanEnds(body)
    ensures Aligned(body, key)
  {
    if Replaces(body, key) {
      var p := FirstMatch(body, key, 0);
      CleanBefore(body, p, key);
      CleanAfter(body, LineEnd(body, p + |key| + 1));
    }
  }

  lemma CleanBefore(body: string, p: nat, key: string)
    requires PlainKey(key) && CleanEnds(body) && MatchAt(body, key, p)
    ensures LineStart(body[..p])
  {
    PlainKeyChars(key);
    MatchHead(body, key, p);
    if p > 0 {
      assert CleanAt(body, p - 1);
      assert body[..p][p - 1] == body[p - 1];
    }
  }

  lemma CleanAfter(body: string, e: nat)
    requires CleanEnds(body) && e <= |body| && (e < |body| ==> IsTerm(body[e]))
    ensures AfterLine(body[e..])
  {
    if e < |body| {
      assert CleanAt(body, e);
    }
  }

  lemma TrimEndClean(s: string)
    requires CleanEnds(s)
    ensures CleanEnds(TrimEnd(s))
  {
    TrimEndPrefix(s);
    var t := TrimEnd(s);
    CleanSlice(s, |t|);
  }

  /** Clean pieces join to a clean text. */
  lemma CleanJoin(a: string, b: string)
    requires CleanEnds(a) && CleanEnds(b)
    ensures CleanEnds(a + b)
  {
    var s := a + b;
    forall i: nat | i < |s|
      ensures CleanAt(s, i)
    {
      if i < |a| {
        assert CleanAt(a, i);
      } else {
        assert CleanAt(b, i - |a|);
      }
    }
  }

  lemma CleanSlice(s: string, p: nat)
    requires CleanEnds(s) && p <= |s| && (p == 0 || s[p - 1] != '\r')
    ensures CleanEnds(s[..p]) && CleanEnds(s[p..])
  {
    forall i: nat | i < p
      ensures CleanAt(s[..p], i)
    {
      assert CleanAt(s, i);
    }
    forall i: nat | i < |s| - p
      ensures CleanAt(s[p..], i)
    {
      assert CleanAt(s, p + i);
    }
  }

  lemma CleanText(x: string)
    requires OneLine(x)
    ensures CleanEnds(x)
  {
    forall i: nat | i < |x|
      ensures CleanAt(x, i)
    {
      assert !IsTerm(x[i]);
    }
  }

  lemma WriteKeepsClean(body: string, key: string, val: string)
    requires PlainKey(key) && PlainValue(val) && CleanEnds(body)
    requires Replaces(body, key) ==> FileFree(val)
    ensures CleanEnds(SetOrAppend(body, key, val))
  {
    CleanAligned(body, key);
    if Replaces(body, key) {
      ReplaceKeepsClean(body, key, val);
    } else {
      PlainTexts(key, val);
      TrimEndClean(body);
      CleanText(Assignment(key, val));
      CleanJoin(TrimEnd(body), ['\n']);
      CleanJoin(Base(body), Assignment(key, val));
      CleanJoin(Base(body) + Assignment(key, val), ['\n']);
    }
  }

  lemma ReplaceKeepsClean(body: string, key: string, val: string)
    requires PlainKey(key) && PlainValue(val) && CleanEnds(body)
    requires Replaces(body, key) && Aligned(body, key) && FileFree(val)
    ensures CleanEnds(SetOrAppend(body, key, val))
  {
    var a, rest, c := Parts(body, key);
    ReplacedText(body, key, val);
    HalvedPlain(val);
    PlainTexts(key, Halved(val));
    CleanPieces(a, Assignment(key, rest), c);
    CleanText(Assignment(key, Halved(val)));
    CleanJoin(a, Assignment(key, Halved(val)));
    CleanJoin(a + Assignment(key, Halved(val)), c);
  }

  lemma CleanPieces(a: string, x: string, c: string)
    requires CleanEnds(a + x + c) && LineStart(a) && OneLine(x) && x != ""
    ensures CleanEnds(a) && CleanEnds(c)
  {
    var s, e := a + x + c, |a| + |x|;
    assert s[e - 1] == x[|x| - 1];
    if a != "" {
      assert s[|a| - 1] == a[|a| - 1];
    }
    CleanSlice(s, |a|);
    CleanSlice(s, e);
    assert s[..|a|] == a && s[e..] == c;
  }
}

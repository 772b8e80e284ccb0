/**
 Files and values for which the loader does not read what the writer wrote: an earlier
 line the writer does not recognise, and lines that only the writer sees as lines.
 */
module EnvFailures {
  import opened EnvText
  import opened EnvFile
  import opened EnvMatch
  import opened EnvReplace
  import opened EnvRoundTrip

  // ---------------------------------------------------------------- an indented first line

  /** A blank in front of a line does not change what the loader makes of it. */
  lemma ParseIndented(line: string)
    requires line != "" && !IsWs(line[0]) && !IsWs(line[|line| - 1])
    ensures Parse([' '] + line) == Parse(line)
  {
    var l := [' '] + line;
    TrimPlain(line);
    assert l[|l| - 1] == line[|line| - 1] && l[1..] == line;
    assert TrimEnd(l) == l && TrimStart(l) == TrimStart(line);
  }

  function Indented(key: string, prior: string): string {
    [' '] + Assignment(key, prior)
  }

  lemma IndentedParses(key: string, prior: string)
    requires PlainKey(key) && PlainValue(prior)
    ensures Parse(Indented(key, prior)) == Pair(key, prior)
  {
    PlainKeyChars(key);
    var line := Assignment(key, prior);
    assert prior[|prior| - 1] in prior && line[|line| - 1] == prior[|prior| - 1] && line[0] == key[0];
    ParseIndented(line);
    ParseWritten(key, prior, "");
    assert line + "" == line;
  }

  lemma IndentedText(key: string, prior: string)
    requires PlainKey(key) && PlainValue(prior)
    ensures '\n' !in Indented(key, prior)
    ensures !Starts(Indented(key, prior), key)
  {
    PlainTexts(key, prior);
    PlainKeyChars(key);
    if Starts(Indented(key, prior), key) { StartsFirst(Indented(key, prior), key); }
  }

  lemma StartsFirst(line: string, key: string)
    requires key != "" && Starts(line, key)
    ensures line[0] == key[0]
  {
    assert line[..|key|][0] == key[0];
  }

  /**
   When the first line is an indented assignment of the key, the writer replaces
   or appends another line and the loader keeps reading the old value.
   */
  lemma IndentedLineWins(key: string, prior: string, tail: string, val: string)
    requires PlainKey(key) && PlainValue(prior) && PlainValue(val)
    requires Fits(Indented(key, prior) + ['\n'] + tail, key, val)
    ensures Read(SetOrAppend(Indented(key, prior) + ['\n'] + tail, key, val), key) == prior
  {
    var first := Indented(key, prior);
    var body := first + ['\n'] + tail;
    IndentedParses(key, prior);
    IndentedText(key, prior);
    SplitConcat(first, tail);
    SplitOne(first);
    assert SplitNl(body)[0] == first;
    assert ShadowOf(body, key) == prior;
    ReadWritten(body, key, val);
  }

  // ---------------------------------------------------------------- a line start only the writer sees

  predicate AllBlank(s: string) {
    forall i :: 0 <= i < |s| ==> IsWs(s[i])
  }

  lemma {:induction false} TrimStartJoin(u: string, z: string)
    ensures TrimStart(u + z) == if AllBlank(u) then TrimStart(z) else TrimStart(u) + z
    ensures !AllBlank(u) ==> TrimStart(u) != "" && !IsWs(TrimStart(u)[0])
    ensures forall c :: c in TrimStart(u) ==> c in u
  {
    if u == "" {
      assert u + z == z;
    } else {
      assert (u + z)[1..] == u[1..] + z;
      assert u[0] in u && forall c :: c in u[1..] ==> c in u;
      TrimStartJoin(u[1..], z);
      if IsWs(u[0]) {
        BlankCons(u);
      }
    }
  }

  lemma BlankCons(u: string)
    requires u != "" && IsWs(u[0])
    ensures AllBlank(u) <==> AllBlank(u[1..])
  {
    if AllBlank(u[1..]) {
      forall i | 0 <= i < |u|
        ensures IsWs(u[i])
      {
        if i > 0 {
          assert IsWs(u[1..][i - 1]);
        }
      }
    }
  }

  /** What the loader makes of an assignment with a text in front of it. */
  lemma ParseBehind(u: string, key: string, val: string, cr: string)
    requires PlainKey(key) && PlainValue(val) && (cr == "" || cr == "\r") && '=' !in u
    ensures var e := Parse(u + Assignment(key, val) + cr);
            if AllBlank(u) then e == Pair(key, val) else e.Pair? ==> e.key != key
  {
    var x := Assignment(key, val);
    assert val[|val| - 1] in val && x[|x| - 1] == val[|val| - 1];
    TrimEndKeeps(u + x, cr);
    assert TrimEnd(cr) == "";
    assert u + x + cr == u + x + cr && u + x + "" == u + x;
    assert TrimEnd(u + x + cr) == u + x;
    TrimStartJoin(u, x);
    if AllBlank(u) {
      PlainKeyChars(key);
      assert x[0] == key[0];
      ParseWritten(key, val, "");
      assert x + "" == x;
      TrimPlain(x);
    } else {
      KeyBehind(TrimStart(u), key, val);
    }
  }

  lemma KeyBehind(t: string, key: string, val: string)
    requires PlainKey(key) && t != "" && !IsWs(t[0]) && '=' !in t
    ensures var e := ParseTrimmed(t + Assignment(key, val)); e.Pair? ==> e.key != key
  {
    PlainKeyChars(key);
    var line, name := t + Assignment(key, val), t + key;
    assert line == name + ['='] + val;
    forall k | 0 <= k < |name|
      ensures line[k] != '='
    {
      if k < |t| {
        assert line[k] == t[k] && t[k] in t;
      } else {
        assert line[k] == key[k - |t|];
      }
    }
    IndexOfIs(line, '=', |name|);
    assert line[..|name|] == name;
    TrimPlain(name);
    assert |name| > |key|;
  }

  /** Where the writer finds the key behind a line terminator the loader does not split at. */
  lemma HiddenFirst(a: string, u: string, key: string, was: string, c: string)
    requires PlainKey(key) && OneLine(Assignment(key, was)) && LineStart(a) && AfterLine(c) && !Replaces(a, key)
    requires u != "" && IsTerm(u[|u| - 1]) && '=' !in u
    ensures var s := a + u + Assignment(key, was) + c;
            && Replaces(s, key) && FirstMatch(s, key, 0) == |a + u|
            && LineEnd(s, |a + u| + |key| + 1) == |a + u| + |Assignment(key, was)|
  {
    var h, x := a + u, Assignment(key, was);
    var s := h + x + c;
    assert h[|h| - 1] == u[|u| - 1];
    OwnStarts(h, key, was, c);
    Assoc(h, x, c);
    forall q: nat | q < |h|
      ensures !MatchAt(s, key, q)
    {
      NotInHidden(a, u, x + c, key, q);
    }
    FirstMatchIs(s, key, |h|);
    OwnLineEnd(h, key, was, c);
  }

  lemma NotInHidden(a: string, u: string, rest: string, key: string, q: nat)
    requires PlainKey(key) && LineStart(a) && !Replaces(a, key) && q < |a + u|
    requires u != "" && IsTerm(u[|u| - 1]) && '=' !in u
    ensures !MatchAt(a + u + rest, key, q)
  {
    var s, n := a + u + rest, |a + u|;
    if q < |a| {
      Assoc(a, u, rest);
      HeadMatch(a, u + rest, key, q);
    } else if q + |key| < n {
      assert s[q + |key|] == u[q + |key| - |a|] && u[q + |key| - |a|] in u;
    } else {
      assert s[n - 1] == u[|u| - 1];
      MatchNoTerm(s, key, q, n - 1);
    }
  }

  /**
   The line the writer replaces begins inside a line of the loader. What is read afterwards:
   an earlier value if there is one, else the written value exactly when only blanks precede
   it on the loader's line, else whatever the lines after it say.
   */
  lemma HiddenStart(a: string, u: string, key: string, was: string, c: string, val: string)
    requires PlainKey(key) && PlainValue(val) && FileFree(val)
    requires OneLine(Assignment(key, was)) && LineStart(a) && AfterLine(c) && !Replaces(a, key)
    requires u != "" && IsTerm(u[|u| - 1]) && '=' !in u && '\n' !in u
    ensures Read(SetOrAppend(a + u + Assignment(key, was) + c, key, val), key)
         == if First(Before(a), key) != "" then First(Before(a), key)
            else if AllBlank(u) then Halved(val) else First(Tail(c), key)
  {
    HiddenText(a, u, key, was, c, val);
    HalvedPlain(val);
    PlainTexts(key, Halved(val));
    var line := u + Assignment(key, Halved(val));
    SplitAround(a, line, c);
    ReadIgnoresCr(a + line + c, key);
    FirstOfThree(Before(a), line + Cr(c), Tail(c), key);
    ParseBehind(u, key, Halved(val), Cr(c));
  }

  lemma HiddenText(a: string, u: string, key: string, was: string, c: string, val: string)
    requires PlainKey(key) && FileFree(val)
    requires OneLine(Assignment(key, was)) && LineStart(a) && AfterLine(c) && !Replaces(a, key)
    requires u != "" && IsTerm(u[|u| - 1]) && '=' !in u
    ensures SetOrAppend(a + u + Assignment(key, was) + c, key, val) == a + (u + Assignment(key, Halved(val))) + c
  {
    var h, x := a + u, Assignment(key, was);
    HiddenFirst(a, u, key, was, c);
    CutAround(h, x, c);
    ReplacedAt(h + x + c, key, val, h, c);
    Assoc(a, u, Assignment(key, Halved(val)));
  }

  lemma CutAround(h: string, x: string, c: string)
    ensures (h + x + c)[..|h|] == h && (h + x + c)[|h| + |x|..] == c
  {
  }

  lemma FirstOfThree(a: seq<string>, line: string, b: seq<string>, key: string)
    ensures var e := Parse(line);
            First(a + [line] + b, key)
            == if First(a, key) != "" then First(a, key)
               else if e.Pair? && e.key == key && e.value != "" then e.value else First(b, key)
  {
    Assoc(a, [line], b);
    FirstConcat(a, [line] + b, key);
    FirstCons(line, b, key);
  }

  // ---------------------------------------------------------------- a line end only the writer sees

  lemma {:induction false} BlanksThenHashIs(t: string)
    requires t != "" && IsWs(t[0])
    ensures BlanksThenHash(t) <==> TrimStart(t) != "" && TrimStart(t)[0] == '#'
  {
    if |t| > 1 && IsWs(t[1]) {
      BlanksThenHashIs(t[1..]);
    }
  }

  /** No comment starts at or before the first non-blank character, unless it is a '#'. */
  lemma {:induction false} CommentBehind(t: string)
    requires TrimStart(t) != "" && TrimStart(t)[0] != '#'
    ensures CommentStart(t) > |t| - |TrimStart(t)|
  {
    if IsWs(t[0]) {
      BlanksThenHashIs(t);
      CommentBehind(t[1..]);
    }
  }

  lemma {:induction false} CommentSkips(val: string, t: string)
    requires forall c :: c in val ==> !IsWs(c)
    ensures CommentStart(val + t) == |val| + CommentStart(t)
  {
    if val == "" {
      assert val + t == t;
    } else {
      assert val[0] in val && forall c :: c in val[1..] ==> c in val;
      assert (val + t)[1..] == val[1..] + t;
      CommentSkips(val[1..], t);
    }
  }

  /** A comment that takes off the rest of the line, in a text that is not taken as quoted. */
  predicate Commented(val: string, t: string) {
    && TrimStart(t) != "" && TrimStart(t)[0] == '#'
    && !Quoted(val + t, '"') && !Quoted(val + t, '\'')
  }

  /** A plain value with more text behind a blank is read as the value when the rest is blank or a comment. */
  lemma StripBehind(val: string, t: string)
    requires PlainValue(val) && t != "" && IsWs(t[0]) && !IsWs(t[|t| - 1])
    ensures var v := Trim(StripInlineComment(val + t));
            v != "" && (v == val <==> Commented(val, t))
  {
    if Quoted(val + t, '"') || Quoted(val + t, '\'') {
      assert (val + t)[0] == val[0] && (val + t)[|val + t| - 1] == t[|t| - 1];
      QuotedBehind(val, t);
    } else {
      UnquotedBehind(val, t);
    }
  }

  lemma UnquotedBehind(val: string, t: string)
    requires PlainValue(val) && t != "" && IsWs(t[0]) && !IsWs(t[|t| - 1])
    ensures var v := Trim((val + t)[..CommentStart(val + t)]);
            v != "" && (v == val <==> TrimStart(t) != "" && TrimStart(t)[0] == '#')
  {
    assert val[0] in val && val[|val| - 1] in val;
    CommentSkips(val, t);
    BlanksThenHashIs(t);
    if BlanksThenHash(t) {
      assert (val + t)[..|val|] == val;
      TrimPlain(val);
    } else {
      UncommentedBehind(val, t);
    }
  }

  lemma NonBlankLeft(t: string)
    requires t != "" && !IsWs(t[|t| - 1])
    ensures TrimStart(t) != "" && !IsWs(TrimStart(t)[0]) && |TrimStart(t)| <= |t|
    ensures TrimStart(t) == t[|t| - |TrimStart(t)|..]
  {
    if IsWs(t[0]) {
      NonBlankLeft(t[1..]);
    }
  }

  lemma UncommentedBehind(val: string, t: string)
    requires PlainValue(val) && t != "" && IsWs(t[0]) && !IsWs(t[|t| - 1]) && !BlanksThenHash(t)
    ensures |Trim((val + t)[..|val| + CommentStart(t)])| > |val|
  {
    NonBlankLeft(t);
    BlanksThenHashIs(t);
    CommentBehind(t);
    var n, i := |val| + CommentStart(t), |val| + |t| - |TrimStart(t)|;
    var s := (val + t)[..n];
    assert s[i] == t[i - |val|] == TrimStart(t)[0];
    TrimEndPrefix(s);
    assert val[0] in val && TrimEnd(s)[0] == s[0] == val[0];
  }

  /** Quotes around the whole are taken off, the blank inside stays. */
  lemma QuotedBehind(val: string, t: string)
    requires PlainValue(val) && t != "" && IsWs(t[0]) && !IsWs(t[|t| - 1])
    requires val[0] == t[|t| - 1] && (val[0] == '"' || val[0] == '\'')
    ensures |val| >= 2 && Trim((val + t)[1..|val + t| - 1]) != "" && Trim((val + t)[1..|val + t| - 1]) != val
  {
    var n := |val|;
    assert !Quoted(val, val[0]);
    assert |t| >= 2 && val[1] in val && val[n - 1] in val;
    var y, tail := t[..|t| - 1], val[1..];
    assert (val + t)[1..|val + t| - 1] == tail + y;
    assert tail[|tail| - 1] == val[n - 1];
    TrimEndKeeps(tail, y);
    TrimEndPrefix(y);
    var z := TrimEnd(y);
    assert (tail + z)[0] == val[1];
    if z != "" {
      assert (tail + z)[n - 1] == z[0] == t[0];
    }
  }

  /** The text behind the replaced line, from the terminator the loader does not split at. */
  predicate BehindLine(w: string) {
    w != "" && IsTerm(w[0]) && '\n' !in w
  }

  /** What the loader makes of an assignment with a text behind it. */
  lemma ParseBefore(key: string, val: string, w: string)
    requires PlainKey(key) && PlainValue(val) && w != "" && IsWs(w[0])
    ensures var e := Parse(Assignment(key, val) + w);
            && e.Pair? && e.key == key && e.value != ""
            && (e.value == val <==> TrimEnd(w) == "" || Commented(val, TrimEnd(w)))
  {
    var t := TrimEnd(w);
    assert val[0] in val && val[|val| - 1] in val;
    Assoc(key + ['='], val, w);
    ParseAssignment(key, val + w);
    TrimEndKeeps(val, w);
    TrimEndPrefix(w);
    TrimPlain(val + t);
    if t == "" {
      assert val + t == val;
      NoComment(val);
      TrimPlain(val);
    } else {
      assert t[0] == w[0];
      StripBehind(val, t);
    }
  }

  /**
   The line the writer replaces ends inside a line of the loader. Without an earlier value the
   written one is read exactly when the rest of the loader's line is blank or a comment.
   */
  lemma HiddenEnd(a: string, key: string, was: string, w: string, c: string, val: string)
    requires PlainKey(key) && PlainValue(val) && FileFree(val)
    requires OneLine(Assignment(key, was)) && LineStart(a) && AfterLine(c) && !Replaces(a, key)
    requires BehindLine(w) && First(Before(a), key) == ""
    ensures var rest := TrimEnd(w + Cr(c));
            Read(SetOrAppend(a + Assignment(key, was) + (w + c), key, val), key) == Halved(val)
            <==> rest == "" || Commented(Halved(val), rest)
  {
    HiddenEndText(a, key, was, w, c, val);
    HalvedPlain(val);
    PlainTexts(key, Halved(val));
    var now := Assignment(key, Halved(val));
    SplitAround(a, now + w, c);
    ReadIgnoresCr(a + (now + w) + c, key);
    FirstOfThree(Before(a), now + w + Cr(c), Tail(c), key);
    Assoc(now, w, Cr(c));
    ParseBefore(key, Halved(val), w + Cr(c));
  }

  lemma HiddenEndText(a: string, key: string, was: string, w: string, c: string, val: string)
    requires PlainKey(key) && FileFree(val)
    requires OneLine(Assignment(key, was)) && LineStart(a) && !Replaces(a, key) && BehindLine(w)
    ensures SetOrAppend(a + Assignment(key, was) + (w + c), key, val)
         == a + (Assignment(key, Halved(val)) + w) + c
  {
    var x, rest, now := Assignment(key, was), w + c, Assignment(key, Halved(val));
    OwnFirst(a, key, was, rest);
    CutAround(a, x, rest);
    ReplacedAt(a + x + rest, key, val, a, rest);
    Assoc(a + now, w, c);
    Assoc(a, now, w);
  }

  lemma ReplacedAt(body: string, key: string, val: string, a: string, c: string)
    requires PlainKey(key) && Replaces(body, key) && FileFree(val)
    requires var p := FirstMatch(body, key, 0); a == body[..p] && c == body[LineEnd(body, p + |key| + 1)..]
    ensures SetOrAppend(body, key, val) == a + Assignment(key, Halved(val)) + c
  {
    ReplacedText(body, key, val);
  }
}

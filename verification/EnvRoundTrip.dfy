/**
 Writing a credential and loading the file again: the loader reads back the
 written value exactly when no earlier line shadows it and no pair of dollars is
 rewritten, and every other key reads as before.
 */
module EnvRoundTrip {
  import opened EnvText
  import opened EnvFile
  import opened EnvMatch
  import opened EnvReplace

  /** A line the writer recognises as the key's: it literally starts with KEY=. */
  predicate Starts(line: string, key: string) {
    |key| < |line| && line[..|key|] == key && line[|key|] == '='
  }

  predicate NoneStarts(lines: seq<string>, key: string) {
    forall l :: l in lines ==> !Starts(l, key)
  }

  /** The value of the key on the lines before the first one the writer recognises. */
  function Shadow(lines: seq<string>, key: string): string {
    if lines == [] || Starts(lines[0], key) then ""
    else
      var e := Parse(lines[0]);
      if e.Pair? && e.key == key && e.value != "" then e.value else Shadow(lines[1..], key)
  }

  /** Non-empty only when such an earlier line exists: indented, or with a blank before its '='. */
  function ShadowOf(body: string, key: string): string {
    Shadow(SplitNl(body), key)
  }

  // ---------------------------------------------------------------- lists of lines

  /** A line that says nothing about the key, to loader and writer alike. */
  predicate Neutral(line: string, key: string) {
    && !Starts(line, key)
    && !(Parse(line).Pair? && Parse(line).key == key && Parse(line).value != "")
  }

  lemma {:induction false} InsertNeutral(a: seq<string>, line: string, b: seq<string>, key: string)
    requires Neutral(line, key)
    ensures First(a + [line] + b, key) == First(a + b, key)
    ensures Shadow(a + [line] + b, key) == Shadow(a + b, key)
  {
    if a == [] {
      assert (a + [line] + b)[1..] == b && a + b == b;
    } else {
      assert (a + [line] + b)[1..] == a[1..] + [line] + b && (a + b)[1..] == a[1..] + b;
      InsertNeutral(a[1..], line, b, key);
    }
  }

  lemma {:induction false} SwapNeutral(a: seq<string>, x: string, y: string, b: seq<string>, key: string)
    requires Neutral(x, key) && Neutral(y, key)
    ensures First(a + [x] + b, key) == First(a + [y] + b, key)
    ensures Shadow(a + [x] + b, key) == Shadow(a + [y] + b, key)
  {
    InsertNeutral(a, x, b, key);
    InsertNeutral(a, y, b, key);
  }

  lemma {:induction false} ShadowIsFirst(a: seq<string>, b: seq<string>, key: string)
    requires NoneStarts(a, key) && (b == [] || Starts(b[0], key))
    ensures Shadow(a + b, key) == First(a, key)
  {
    if a == [] {
      assert a + b == b;
    } else {
      assert (a + b)[1..] == a[1..] + b;
      assert a[0] in a && forall l :: l in a[1..] ==> l in a;
      ShadowIsFirst(a[1..], b, key);
    }
  }

  /** A line of one key is neutral for another. */
  lemma OtherKeyNeutral(key: string, rest: string, other: string)
    requires PlainKey(key) && PlainKey(other) && key != other
    ensures Neutral(Assignment(key, rest), other)
  {
    var line := Assignment(key, rest);
    ParseAssignment(key, rest);
    if Starts(line, other) { StartsOwn(key, rest, other); }
  }

  /** The only plain key a line KEY=rest starts with is KEY. */
  lemma StartsOwn(key: string, rest: string, other: string)
    requires PlainKey(key) && PlainKey(other) && Starts(Assignment(key, rest), other)
    ensures other == key
  {
    var line := Assignment(key, rest);
    PlainKeyChars(key);
    PlainKeyChars(other);
    assert line[|key|] == '=' && line[..|key|] == key;
    assert forall i :: 0 <= i < |key| ==> line[i] == key[i] && key[i] in key;
    assert forall i :: 0 <= i < |other| ==> line[i] == other[i] && other[i] in other;
    assert |key| == |other|;
    assert key == line[..|key|] == other;
  }

  // ---------------------------------------------------------------- trailing blanks

  lemma {:induction false} SplitExtend(s: string, c: char)
    requires c != '\n'
    ensures var lines := SplitNl(s);
            SplitNl(s + [c]) == lines[..|lines| - 1] + [lines[|lines| - 1] + [c]]
    decreases |s|
  {
    var i := IndexOf(s, '\n');
    if i == |s| {
      SplitOne(s + [c]);
      SplitOne(s);
    } else {
      var head, rest := s[..i], s[i + 1..];
      assert s == head + ['\n'] + rest;
      Assoc(head + ['\n'], rest, [c]);
      SplitOne(head);
      SplitConcat(head, rest);
      SplitConcat(head, rest + [c]);
      SplitExtend(rest, c);
      LastOfCons(head, SplitNl(rest), c);
    }
  }

  lemma LastOfCons(head: string, lines: seq<string>, c: char)
    requires lines != []
    ensures var all := [head] + lines;
            all[..|all| - 1] + [all[|all| - 1] + [c]] == [head] + (lines[..|lines| - 1] + [lines[|lines| - 1] + [c]])
  {
  }

  lemma BlankNeutral(key: string)
    ensures Neutral("", key)
  {
  }

  lemma ParseBlankEnd(line: string, c: char, key: string)
    requires IsWs(c)
    ensures Parse(line + [c]) == Parse(line)
    ensures Starts(line + [c], key) == Starts(line, key)
  {
    TrimEndAppend(line, c);
    if Starts(line + [c], key) {
      assert |key| < |line|;
      assert (line + [c])[..|key|] == line[..|key|];
    }
  }

  lemma {:induction false} LastLineSame(a: seq<string>, x: string, y: string, key: string)
    requires Parse(x) == Parse(y) && Starts(x, key) == Starts(y, key)
    ensures First(a + [x], key) == First(a + [y], key)
    ensures Shadow(a + [x], key) == Shadow(a + [y], key)
  {
    if a != [] {
      assert (a + [x])[1..] == a[1..] + [x] && (a + [y])[1..] == a[1..] + [y];
      LastLineSame(a[1..], x, y, key);
    } else {
      assert (a + [x])[1..] == [] && (a + [y])[1..] == [];
      assert (a + [x])[0] == x && (a + [y])[0] == y;
    }
  }

  lemma LastLf(s: string, key: string)
    ensures First(SplitNl(s + ['\n']), key) == First(SplitNl(s), key)
    ensures Shadow(SplitNl(s + ['\n']), key) == Shadow(SplitNl(s), key)
  {
    var lines := SplitNl(s);
    SplitConcat(s, "");
    assert s + ['\n'] + "" == s + ['\n'];
    SplitOne("");
    BlankNeutral(key);
    InsertNeutral(lines, "", [], key);
    assert lines + [""] + [] == lines + [""] && lines + [] == lines;
  }

  lemma BlankLast(lines: seq<string>, c: char, key: string)
    requires IsWs(c) && lines != []
    ensures var longer := lines[..|lines| - 1] + [lines[|lines| - 1] + [c]];
            First(longer, key) == First(lines, key) && Shadow(longer, key) == Shadow(lines, key)
  {
    var init, last := lines[..|lines| - 1], lines[|lines| - 1];
    ParseBlankEnd(last, c, key);
    LastLineSame(init, last + [c], last, key);
    assert lines == init + [last];
  }

  lemma LastBlank(s: string, c: char, key: string)
    requires IsWs(c)
    ensures First(SplitNl(s + [c]), key) == First(SplitNl(s), key)
    ensures Shadow(SplitNl(s + [c]), key) == Shadow(SplitNl(s), key)
  {
    if c == '\n' {
      LastLf(s, key);
    } else {
      SplitExtend(s, c);
      BlankLast(SplitNl(s), c, key);
    }
  }

  lemma {:induction false} TrimEndSame(s: string, key: string)
    ensures First(SplitNl(TrimEnd(s)), key) == First(SplitNl(s), key)
    ensures Shadow(SplitNl(TrimEnd(s)), key) == Shadow(SplitNl(s), key)
    decreases |s|
  {
    if s != [] && IsWs(s[|s| - 1]) {
      var init := s[..|s| - 1];
      assert s == init + [s[|s| - 1]];
      LastBlank(init, s[|s| - 1], key);
      TrimEndSame(init, key);
    }
  }

  // ---------------------------------------------------------------- matches and lines

  lemma StartMatches(s: string, i: nat, key: string)
    requires i <= |s| && Starts(s[..i], key)
    ensures MatchAt(s, key, 0)
  {
    assert s[0..0 + |key|] == s[..i][..|key|];
  }

  /** A match in the lines from position i on, or in a prefix, is a match in the whole text. */
  lemma SuffixMatch(s: string, i: nat, key: string, q: nat)
    requires 0 < i <= |s| && s[i - 1] == '\n'
    ensures MatchAt(s[i..], key, q) ==> MatchAt(s, key, i + q)
  {
    if MatchAt(s[i..], key, q) {
      assert s[i + q..i + q + |key|] == s[i..][q..q + |key|];
    }
  }

  lemma PrefixMatch(s: string, n: nat, key: string, q: nat)
    requires n <= |s|
    ensures MatchAt(s[..n], key, q) ==> MatchAt(s, key, q)
  {
    if MatchAt(s[..n], key, q) {
      assert s[q..q + |key|] == s[..n][q..q + |key|];
    }
  }

  lemma {:induction false} NoMatchNoStart(s: string, key: string)
    requires '\n' !in key
    requires forall q: nat :: q <= |s| ==> !MatchAt(s, key, q)
    ensures NoneStarts(SplitNl(s), key)
    decreases |s|
  {
    var i := IndexOf(s, '\n');
    assert !MatchAt(s, key, 0) && s[0..] == s;
    if i < |s| {
      var rest := s[i + 1..];
      if Starts(s[..i], key) { StartMatches(s, i, key); }
      forall q: nat | q <= |rest|
        ensures !MatchAt(rest, key, q)
      {
        assert !MatchAt(s, key, i + 1 + q);
        SuffixMatch(s, i + 1, key, q);
      }
      NoMatchNoStart(rest, key);
    }
  }

  /** The lines that end before position |a|, where a is empty or ends in a line feed. */
  function Before(a: string): seq<string> {
    if a == "" then [] else SplitNl(a[..|a| - 1])
  }

  lemma SplitAfter(a: string, x: string)
    requires LineStart(a)
    ensures SplitNl(a + x) == Before(a) + SplitNl(x)
  {
    if a == "" {
      assert a + x == x;
    } else {
      assert a + x == a[..|a| - 1] + ['\n'] + x;
      SplitConcat(a[..|a| - 1], x);
    }
  }

  function Cr(c: string): string
    requires AfterLine(c)
  {
    if c != "" && c[0] == '\r' then "\r" else ""
  }

  function Tail(c: string): seq<string>
    requires AfterLine(c)
  {
    if c == "" then [] else if c[0] == '\n' then SplitNl(c[1..]) else SplitNl(c[2..])
  }

  lemma SplitLine(line: string, c: string)
    requires '\n' !in line && AfterLine(c)
    ensures SplitNl(line + c) == [line + Cr(c)] + Tail(c)
  {
    if c == "" {
      assert line + c == line && line + Cr(c) == line;
      SplitOne(line);
    } else if c[0] == '\n' {
      assert line + c == line + ['\n'] + c[1..] && line + Cr(c) == line;
      SplitConcat(line, c[1..]);
      SplitOne(line);
    } else {
      assert line + c == (line + "\r") + ['\n'] + c[2..];
      SplitConcat(line + "\r", c[2..]);
      SplitOne(line + "\r");
    }
  }

  /** No line of a text without a match starts with KEY=. */
  lemma NothingBefore(a: string, key: string)
    requires PlainKey(key) && LineStart(a) && !Replaces(a, key)
    ensures NoneStarts(Before(a), key)
  {
    PlainKeyChars(key);
    if a != "" {
      var init := a[..|a| - 1];
      forall q: nat | q <= |init|
        ensures !MatchAt(init, key, q)
      {
        assert !MatchAt(a, key, q);
        PrefixMatch(a, |init|, key, q);
      }
      NoMatchNoStart(init, key);
    }
  }

  /** The body as lines around the matched one. */
  lemma SplitAround(a: string, line: string, c: string)
    requires LineStart(a)
    requires '\n' !in line && AfterLine(c)
    ensures SplitNl(a + line + c) == Before(a) + [line + Cr(c)] + Tail(c)
  {
    Assoc(a, line, c);
    SplitAfter(a, line + c);
    SplitLine(line, c);
    Assoc(Before(a), [line + Cr(c)], Tail(c));
  }

  // ---------------------------------------------------------------- one write

  /** When the writer replaces a line, the line is a whole one and the value names no part of the file. */
  predicate Fits(body: string, key: string, val: string) {
    Aligned(body, key) && (Replaces(body, key) ==> FileFree(val))
  }

  /** What the written line says: appended values stay as they are, replaced ones lose doubled dollars. */
  function Stored(body: string, key: string, val: string): string {
    if Replaces(body, key) then Halved(val) else val
  }

  lemma PlainTexts(key: string, val: string)
    requires PlainKey(key) && PlainValue(val)
    ensures '\n' !in Assignment(key, val) && OneLine(Assignment(key, val))
  {
    PlainKeyChars(key);
    var text := Assignment(key, val);
    forall i | 0 <= i < |text|
      ensures !IsTerm(text[i])
    {
      if i > |key| {
        assert text[i] == val[i - |key| - 1] && text[i] in val;
      }
    }
  }

  lemma SetIsReplace(body: string, key: string, val: string)
    requires Replaces(body, key)
    ensures SetOrAppend(body, key, val) == Replaced(body, key, Assignment(key, val))
  {
  }

  lemma ReplacedText(body: string, key: string, val: string)
    requires PlainKey(key) && Replaces(body, key) && FileFree(val)
    ensures var p := FirstMatch(body, key, 0);
            SetOrAppend(body, key, val)
            == body[..p] + Assignment(key, Halved(val)) + body[LineEnd(body, p + |key| + 1)..]
  {
    var p := FirstMatch(body, key, 0);
    SetIsReplace(body, key, val);
    HalvedAt(body, p, LineEnd(body, p + |key| + 1), key, val);
  }

  lemma HalvedAt(body: string, p: nat, e: nat, key: string, val: string)
    requires PlainKey(key) && FileFree(val) && p <= e <= |body|
    ensures ReplaceAt(body, p, e, Assignment(key, val)) == body[..p] + Assignment(key, Halved(val)) + body[e..]
  {
    ExpandAssignment(key, val, body[p..e], body[..p], body[e..]);
    FileFreeExpand(val, body[p..e], body[..p], body[e..]);
  }

  lemma StoredPlain(body: string, key: string, val: string)
    requires PlainValue(val) && Fits(body, key, val)
    ensures PlainValue(Stored(body, key, val))
  {
    if Replaces(body, key) { HalvedPlain(val); }
  }

  lemma StartSplit(line: string, key: string) returns (rest: string)
    requires Starts(line, key)
    ensures line == Assignment(key, rest)
  {
    rest := line[|key| + 1..];
  }

  lemma StartsLonger(line: string, cr: string, key: string)
    requires Starts(line, key)
    ensures Starts(line + cr, key)
  {
    assert (line + cr)[..|key|] == line[..|key|];
  }

  lemma CutAt(body: string, p: nat, e: nat)
    requires p <= e <= |body|
    ensures body == body[..p] + body[p..e] + body[e..]
  {
  }

  lemma MatchedOneLine(body: string, key: string, p: nat)
    requires PlainKey(key) && MatchAt(body, key, p)
    ensures OneLine(body[p..LineEnd(body, p + |key| + 1)])
  {
    var e := LineEnd(body, p + |key| + 1);
    var x := body[p..e];
    forall i | 0 <= i < |x|
      ensures !IsTerm(x[i])
    {
      if i < |key| { MatchChar(body, key, p, i); }
    }
  }

  lemma MatchedText(body: string, key: string, p: nat) returns (rest: string)
    requires PlainKey(key) && MatchAt(body, key, p)
    ensures body[p..LineEnd(body, p + |key| + 1)] == Assignment(key, rest) && OneLine(Assignment(key, rest))
  {
    var e := LineEnd(body, p + |key| + 1);
    rest := body[p + |key| + 1..e];
    MatchedOneLine(body, key, p);
    assert body[p..e] == body[p..p + |key|] + ['='] + rest;
  }

  /** The body as the lines before, the matched line and the rest. */
  lemma Parts(body: string, key: string) returns (a: string, rest: string, c: string)
    requires PlainKey(key) && Replaces(body, key) && Aligned(body, key)
    ensures body == a + Assignment(key, rest) + c && OneLine(Assignment(key, rest))
    ensures LineStart(a) && AfterLine(c) && !Replaces(a, key)
    ensures a == body[..FirstMatch(body, key, 0)]
    ensures c == body[LineEnd(body, FirstMatch(body, key, 0) + |key| + 1)..]
  {
    var p := FirstMatch(body, key, 0);
    var e := LineEnd(body, p + |key| + 1);
    rest := MatchedText(body, key, p);
    a, c := body[..p], body[e..];
    CutAt(body, p, e);
    NotBefore(body, key);
  }

  lemma NotBefore(body: string, key: string)
    requires PlainKey(key) && Replaces(body, key)
    ensures !Replaces(body[..FirstMatch(body, key, 0)], key)
  {
    var p := FirstMatch(body, key, 0);
    var a := body[..p];
    if Replaces(a, key) {
      PrefixMatch(body, p, key, FirstMatch(a, key, 0));
    }
  }

  /** Old and new lines when the key's line is replaced in place. */
  lemma ReplaceLines(body: string, key: string, val: string)
    returns (a: seq<string>, old': string, cr: string, b: seq<string>)
    requires PlainKey(key) && PlainValue(val) && Fits(body, key, val) && Replaces(body, key)
    ensures SplitNl(body) == a + [old'] + b && Starts(old', key)
    ensures SplitNl(SetOrAppend(body, key, val)) == a + [Assignment(key, Halved(val)) + cr] + b
    ensures NoneStarts(a, key) && (cr == "" || cr == "\r")
  {
    var before, rest, c := Parts(body, key);
    var was, now := Assignment(key, rest), Assignment(key, Halved(val));
    NothingBefore(before, key);
    HalvedPlain(val);
    PlainTexts(key, Halved(val));
    ReplacedText(body, key, val);
    SplitAround(before, was, c);
    SplitAround(before, now, c);
    a, cr, b := Before(before), Cr(c), Tail(c);
    old' := was + cr;
    AssignmentStarts(key, rest);
    StartsLonger(was, cr, key);
  }

  lemma AssignmentStarts(key: string, rest: string)
    ensures Starts(Assignment(key, rest), key)
  {
    assert Assignment(key, rest)[..|key|] == key;
  }

  lemma NoMatchAtAll(body: string, key: string)
    requires PlainKey(key) && !Replaces(body, key)
    ensures NoneStarts(SplitNl(body), key)
  {
    PlainKeyChars(key);
    forall q: nat | q <= |body|
      ensures !MatchAt(body, key, q)
    {
    }
    NoMatchNoStart(body, key);
  }

  lemma SplitAppended(t: string, line: string)
    requires '\n' !in line
    ensures SplitNl(t + ['\n'] + line + ['\n']) == SplitNl(t) + ([line] + [""])
  {
    Assoc(t + ['\n'], line, ['\n']);
    SplitConcat(t, line + ['\n']);
    SplitLine(line, "\n");
    SplitOne("");
    assert line + Cr("\n") == line && "\n"[1..] == "";
  }

  lemma AppendLines(body: string, key: string, val: string)
    requires PlainKey(key) && PlainValue(val) && !Replaces(body, key)
    ensures SplitNl(SetOrAppend(body, key, val)) == SplitNl(TrimEnd(body)) + ([Assignment(key, val)] + [""])
    ensures NoneStarts(SplitNl(body), key)
  {
    PlainTexts(key, val);
    SplitAppended(TrimEnd(body), Assignment(key, val));
    NoMatchAtAll(body, key);
  }

  /** The written line decides unless a line before it does. */
  lemma WrittenAfter(a: seq<string>, key: string, val: string, cr: string, b: seq<string>)
    requires PlainKey(key) && PlainValue(val) && (cr == "" || cr == "\r")
    ensures First(a + ([Assignment(key, val) + cr] + b), key) == if First(a, key) == "" then val else First(a, key)
  {
    ParseWritten(key, val, cr);
    FirstConcat(a, [Assignment(key, val) + cr] + b, key);
    assert ([Assignment(key, val) + cr] + b)[0] == Assignment(key, val) + cr;
  }

  /** The value the loader ends up with. */
  function Loaded(body: string, key: string, val: string): string {
    if ShadowOf(body, key) == "" then Stored(body, key, val) else ShadowOf(body, key)
  }

  /** What the loader reads for the written key. */
  lemma ReadWritten(body: string, key: string, val: string)
    requires PlainKey(key) && PlainValue(val) && Fits(body, key, val)
    ensures Read(SetOrAppend(body, key, val), key) == Loaded(body, key, val)
  {
    ReadIgnoresCr(SetOrAppend(body, key, val), key);
    StoredPlain(body, key, val);
    if Replaces(body, key) {
      var a, old', cr, b := ReplaceLines(body, key, val);
      ShadowIsFirst(a, [old'] + b, key);
      Assoc(a, [old'], b);
      WrittenAfter(a, key, Halved(val), cr, b);
      Assoc(a, [Assignment(key, Halved(val)) + cr], b);
    } else {
      AppendLines(body, key, val);
      TrimEndSame(body, key);
      ShadowIsFirst(SplitNl(body), [], key);
      assert SplitNl(body) + [] == SplitNl(body);
      WrittenAfter(SplitNl(TrimEnd(body)), key, val, "", [""]);
      assert Assignment(key, val) + "" == Assignment(key, val);
    }
  }

  /** Other keys, plain ones, read and are shadowed as before. */
  lemma OthersKept(body: string, key: string, val: string, other: string)
    requires PlainKey(key) && PlainValue(val) && Fits(body, key, val)
    requires PlainKey(other) && other != key
    ensures Read(SetOrAppend(body, key, val), other) == Read(body, other)
    ensures ShadowOf(SetOrAppend(body, key, val), other) == ShadowOf(body, other)
  {
    ReadIgnoresCr(SetOrAppend(body, key, val), other);
    ReadIgnoresCr(body, other);
    if Replaces(body, key) {
      var a, old', cr, b := ReplaceLines(body, key, val);
      var new' := Halved(val);
      var rest := StartSplit(old', key);
      OtherKeyNeutral(key, rest, other);
      OtherKeyNeutral(key, new' + cr, other);
      Assoc(key + ['='], new', cr);
      SwapNeutral(a, old', Assignment(key, new') + cr, b, other);
    } else {
      AppendLines(body, key, val);
      TrimEndSame(body, other);
      AppendedNeutral(SplitNl(TrimEnd(body)), key, val, other);
    }
  }

  lemma AppendedNeutral(t: seq<string>, key: string, val: string, other: string)
    requires PlainKey(key) && PlainKey(other) && other != key
    ensures First(t + ([Assignment(key, val)] + [""]), other) == First(t, other)
    ensures Shadow(t + ([Assignment(key, val)] + [""]), other) == Shadow(t, other)
  {
    OtherKeyNeutral(key, val, other);
    BlankNeutral(other);
    InsertNeutral(t, Assignment(key, val), [""], other);
    Assoc(t, [Assignment(key, val)], [""]);
    InsertNeutral(t, "", [], other);
    assert t + [""] + [] == t + [""] && t + [] == t;
  }

  // ---------------------------------------------------------------- what a write leaves of the guards

  lemma NoneInLf(key: string)
    requires key != ""
    ensures !Replaces("\n", key)
  {
    NeverMatches("\n", key);
  }

  /** Other keys are found, and are whole lines, as before. */
  lemma GuardsKept(body: string, key: string, val: string, other: string)
    requires PlainKey(key) && PlainValue(val) && Fits(body, key, val)
    requires PlainKey(other) && other != key
    ensures Replaces(SetOrAppend(body, key, val), other) <==> Replaces(body, other)
    ensures Aligned(body, other) ==> Aligned(SetOrAppend(body, key, val), other)
  {
    if Replaces(body, key) {
      var a, rest, c := Parts(body, key);
      ReplacedText(body, key, val);
      HalvedPlain(val);
      PlainTexts(key, Halved(val));
      OtherFirst(a, key, rest, c, other);
      OtherAligned(a, key, rest, c, other);
      OtherFirst(a, key, Halved(val), c, other);
      OtherAligned(a, key, Halved(val), c, other);
    } else {
      PlainTexts(key, val);
      BaseFirst(body, other);
      NoneInLf(other);
      OtherFirst(Base(body), key, val, "\n", other);
      OtherAligned(Base(body), key, val, "\n", other);
      if Aligned(body, other) { BaseAligned(body, other); }
    }
  }

  /** After a write the key has a line of its own. */
  lemma OwnGuard(body: string, key: string, val: string)
    requires PlainKey(key) && PlainValue(val) && Fits(body, key, val)
    ensures Replaces(SetOrAppend(body, key, val), key) && Aligned(SetOrAppend(body, key, val), key)
  {
    if Replaces(body, key) {
      var a, rest, c := Parts(body, key);
      ReplacedText(body, key, val);
      HalvedPlain(val);
      PlainTexts(key, Halved(val));
      OwnFirst(a, key, Halved(val), c);
      OwnAligned(a, key, Halved(val), c);
    } else {
      PlainTexts(key, val);
      BaseFirst(body, key);
      OwnFirst(Base(body), key, val, "\n");
      OwnAligned(Base(body), key, val, "\n");
    }
  }

  // ---------------------------------------------------------------- theorems

  /** No earlier line decides otherwise, and no pair of dollars is rewritten. */
  predicate ReadsBack(body: string, key: string, val: string) {
    if ShadowOf(body, key) == "" then Replaces(body, key) ==> Verbatim(val) else ShadowOf(body, key) == val
  }

  /**
   Round trip of one write: the loader reads back the written value if and only
   if no earlier line of the file gives the key another non-empty value and no
   `$$` of the value replaces a line.
   */
  lemma RoundTrip(body: string, key: string, val: string)
    requires PlainKey(key) && PlainValue(val) && Fits(body, key, val)
    ensures Read(SetOrAppend(body, key, val), key) == val <==> ReadsBack(body, key, val)
  {
    ReadWritten(body, key, val);
    if Replaces(body, key) { HalvedExactly(val); }
  }

  /** The file with a text in place of the line the writer finds. */
  function WithText(body: string, key: string, text: string): string
    requires Replaces(body, key)
  {
    var p := FirstMatch(body, key, 0);
    body[..p] + text + body[LineEnd(body, p + |key| + 1)..]
  }

  /** The file gets the very line KEY=value exactly when the value has no special pair, whatever that pair is. */
  lemma LineWrittenExactly(body: string, key: string, val: string)
    requires PlainKey(key) && PlainValue(val) && Replaces(body, key) && Aligned(body, key)
    ensures SetOrAppend(body, key, val) == WithText(body, key, Assignment(key, val)) <==> Verbatim(val)
  {
    SetIsReplace(body, key, val);
    PlainTexts(key, val);
    VerbatimAssignment(key, val);
    KeyHead(body, key, FirstMatch(body, key, 0));
    LineReplacedExactly(body, key, Assignment(key, val));
  }

  lemma LineReplacedExactly(body: string, key: string, text: string)
    requires Replaces(body, key) && Aligned(body, key) && '\n' !in text
    requires var p := FirstMatch(body, key, 0); body[p] != '$' && body[p] != '`' && body[p] != '\''
    ensures Replaced(body, key, text) == WithText(body, key, text) <==> Verbatim(text)
  {
    var p := FirstMatch(body, key, 0);
    ReplacedExactly(body, p, LineEnd(body, p + |key| + 1), text);
  }

  lemma KeyHead(body: string, key: string, p: nat)
    requires PlainKey(key) && MatchAt(body, key, p)
    ensures body[p] != '$' && body[p] != '`' && body[p] != '\''
  {
    PlainKeyChars(key);
    MatchHead(body, key, p);
    assert key[0] in key;
  }

  lemma ReplacedExactly(body: string, p: nat, e: nat, text: string)
    requires p < e <= |body| && body[p] != '$' && body[p] != '`' && body[p] != '\''
    requires LineStart(body[..p]) && AfterLine(body[e..]) && '\n' !in text
    ensures ReplaceAt(body, p, e, text) == body[..p] + text + body[e..] <==> Verbatim(text)
  {
    var a, m, c := body[..p], body[p..e], body[e..];
    assert m[0] == body[p];
    CopiedExactly(text, m, a, c);
    SameMiddle(a, Expand(text, m, a, c), text, c);
  }

  lemma VerbatimAssignment(key: string, val: string)
    requires PlainKey(key)
    ensures Verbatim(Assignment(key, val)) <==> Verbatim(val)
  {
    var text, n := Assignment(key, val), |key| + 1;
    PlainKeyChars(key);
    forall i | 0 <= i < n
      ensures text[i] != '$'
    {
      if i < |key| {
        assert text[i] == key[i] && key[i] in key;
      }
    }
    if Verbatim(val) {
      forall i | 0 < i < |text|
        ensures !Pattern(text[i - 1], text[i])
      {
        if i > n {
          assert !Pattern(val[i - n - 1], val[i - n]);
        }
      }
    }
    if Verbatim(text) {
      forall i | 0 < i < |val|
        ensures !Pattern(val[i - 1], val[i])
      {
        assert !Pattern(text[n + i - 1], text[n + i]);
      }
    }
  }

  lemma SameMiddle(a: string, x: string, y: string, c: string)
    ensures a + x + c == a + y + c <==> x == y
  {
    if a + x + c == a + y + c {
      assert |x| == |y|;
      assert x == (a + x + c)[|a|..|a| + |x|];
      assert y == (a + y + c)[|a|..|a| + |y|];
    }
  }

  /** Writing a key does not create a shadow for it, so a later write of the same key wins. */
  lemma OwnShadowKept(body: string, key: string, val: string)
    requires PlainKey(key) && PlainValue(val) && Fits(body, key, val)
    ensures ShadowOf(SetOrAppend(body, key, val), key) == ShadowOf(body, key)
  {
    var line := Assignment(key, Stored(body, key, val));
    assert line[..|key|] == key;
    if Replaces(body, key) {
      var a, old', cr, b := ReplaceLines(body, key, val);
      ShadowIsFirst(a, [old'] + b, key);
      Assoc(a, [old'], b);
      StartsLonger(line, cr, key);
      ShadowIsFirst(a, [line + cr] + b, key);
      Assoc(a, [line + cr], b);
    } else {
      AppendLines(body, key, val);
      TrimEndSame(body, key);
      ShadowIsFirst(SplitNl(body), [], key);
      assert SplitNl(body) + [] == SplitNl(body);
      TrimmedFirst(body, key);
      NoMatchAtAll(TrimEnd(body), key);
      ShadowIsFirst(SplitNl(TrimEnd(body)), [line] + [""], key);
    }
  }

  /**
   Of two writes the second decides: it reads as if it were the only one, except
   that the line the first one appended makes the second one rewrite `$$`.
   */
  lemma LastWriteWins(body: string, key: string, val: string, again: string)
    requires PlainKey(key) && PlainValue(val) && PlainValue(again)
    requires Fits(body, key, val) && FileFree(again)
    ensures Read(SetOrAppend(SetOrAppend(body, key, val), key, again), key)
         == Read(SetOrAppend(body, key, again), key)
       <==> Replaces(body, key) || Verbatim(again) || ShadowOf(body, key) != ""
  {
    OwnShadowKept(body, key, val);
    OwnGuard(body, key, val);
    ReadWritten(SetOrAppend(body, key, val), key, again);
    ReadWritten(body, key, again);
    HalvedExactly(again);
  }
}

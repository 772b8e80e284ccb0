/**
 What single lines of the env file read as: quoted values, comments, and lines that assign nothing.
 */
module EnvLines {
  import opened EnvFailures
  import opened EnvFile
  import opened EnvMatch
  import opened EnvText

  /** White space and line terminators by their code points, as ECMAScript lists them. */
  lemma BlankCodes(c: char)
    ensures IsTerm(c) <==> c as int in [10, 13, 0x2028, 0x2029]
    ensures IsWs(c) <==>
              || 9 <= c as int <= 13 || 0x2000 <= c as int <= 0x200A
              || c as int in [0x20, 0xA0, 0x1680, 0x2028, 0x2029, 0x202F, 0x205F, 0x3000, 0xFEFF]
  {
  }

  /** A line says nothing if and only if it is blank, begins with '#' after any blanks, or holds no '='. */
  lemma BlankExactly(line: string)
    ensures Parse(line) == Blank
       <==> (forall c :: c in line ==> IsWs(c)) || (Trim(line) != "" && Trim(line)[0] == '#') || '=' !in line
  {
    TrimmedChars(line);
    var t := Trim(line);
    if t != "" {
      if '=' in line { HasIndex(t, '='); }
    }
  }

  lemma HasIndex(s: string, c: char)
    requires c in s
    ensures IndexOf(s, c) < |s|
  {
    var i :| 0 <= i < |s| && s[i] == c;
    assert IndexOf(s, c) <= i;
  }

  /** Trimming takes off blanks only. */
  lemma TrimmedChars(s: string)
    ensures Trim(s) == "" <==> forall c :: c in s ==> IsWs(c)
    ensures forall c :: !IsWs(c) ==> (c in Trim(s) <==> c in s)
  {
    TrimEndChars(s);
    TrimStartChars(TrimEnd(s));
  }

  lemma {:induction false} TrimEndChars(s: string)
    ensures forall c :: !IsWs(c) ==> (c in TrimEnd(s) <==> c in s)
    ensures TrimEnd(s) == "" <==> forall c :: c in s ==> IsWs(c)
  {
    if s != "" {
      var init, last := s[..|s| - 1], s[|s| - 1];
      assert s == init + [last];
      if IsWs(last) { TrimEndChars(init); } else { assert last in s; }
    }
  }

  lemma {:induction false} TrimStartChars(s: string)
    ensures forall c :: !IsWs(c) ==> (c in TrimStart(s) <==> c in s)
    ensures TrimStart(s) == "" <==> forall c :: c in s ==> IsWs(c)
  {
    if s != "" {
      assert s == [s[0]] + s[1..];
      if IsWs(s[0]) { TrimStartChars(s[1..]); } else { assert s[0] in s; }
    }
  }

  // ---------------------------------------------------------------- values

  /** A line KEY=rest without blanks around the rest. */
  lemma ReadsTight(key: string, rest: string)
    requires PlainKey(key) && rest != "" && !IsWs(rest[0]) && !IsWs(rest[|rest| - 1])
    ensures Parse(Assignment(key, rest)) == Pair(key, Trim(StripInlineComment(rest)))
  {
    ParseAssignment(key, rest);
    TrimPlain(rest);
  }

  /** A value in quotes of one kind reads as what is between them, apart from blanks, whatever that is. */
  lemma QuotedReads(key: string, q: char, x: string)
    requires PlainKey(key) && (q == '"' || q == '\'')
    ensures Parse(Assignment(key, [q] + x + [q])) == Pair(key, Trim(x))
  {
    var rest := [q] + x + [q];
    ReadsTight(key, rest);
    assert rest[1..|rest| - 1] == x;
  }

  /** A lone quote reads as nothing. */
  lemma LoneQuoteReads(key: string, q: char)
    requires PlainKey(key) && (q == '"' || q == '\'')
    ensures Parse(Assignment(key, [q])) == Pair(key, "")
  {
    ReadsTight(key, [q]);
    assert Trim("") == "";
  }

  /** Blanks and then a comment. */
  predicate CommentTail(t: string) {
    t != "" && IsWs(t[0]) && !IsWs(t[|t| - 1]) && TrimStart(t) != "" && TrimStart(t)[0] == '#'
  }

  /** A comment behind blanks is cut off, unless the whole value counts as quoted. */
  lemma CommentCut(key: string, val: string, t: string)
    requires PlainKey(key) && val != "" && (forall c :: c in val ==> !IsWs(c)) && CommentTail(t)
    requires !Quoted(val + t, '"') && !Quoted(val + t, '\'')
    ensures Parse(Assignment(key, val + t)) == Pair(key, val)
  {
    assert val[0] in val && val[|val| - 1] in val;
    CommentSkips(val, t);
    BlanksThenHashIs(t);
    ReadsTight(key, val + t);
    assert (val + t)[..|val|] == val;
    TrimPlain(val);
  }

  /** So a quoted value with a comment behind it keeps its quotes, unless the comment ends in one as well. */
  lemma QuotesKept(key: string, q: char, x: string, t: string)
    requires PlainKey(key) && (q == '"' || q == '\'') && (forall c :: c in x ==> !IsWs(c)) && CommentTail(t)
    requires t[|t| - 1] != q
    ensures Parse(Assignment(key, [q] + x + [q] + t)) == Pair(key, [q] + x + [q])
  {
    var val := [q] + x + [q];
    assert (val + t)[0] == q && (val + t)[|val + t| - 1] == t[|t| - 1];
    CommentCut(key, val, t);
  }

  /** A '#' with no blank before it belongs to the value. */
  lemma HashInside(key: string, val: string)
    requires PlainKey(key) && PlainValue(val)
    ensures Parse(Assignment(key, val)) == Pair(key, val)
  {
    assert val[0] in val && val[|val| - 1] in val;
    ReadsTight(key, val);
    NoComment(val);
    assert val[..|val|] == val;
    TrimPlain(val);
  }

  /** Blanks around the key and the value do not count. */
  lemma BlanksIgnored(line: string)
    ensures Parse(Trim(line)) == Parse(line)
  {
    TrimTwice(line);
  }

  lemma TrimTwice(s: string)
    ensures Trim(Trim(s)) == Trim(s)
  {
    var t := TrimEnd(s);
    TrimEndPrefix(s);
    TrimStartSuffix(t);
    var u := TrimStart(t);
    if u != "" { TrimPlain(u); }
  }

  lemma {:induction false} TrimStartSuffix(s: string)
    ensures var u := TrimStart(s);
            |u| <= |s| && u == s[|s| - |u|..] && (u != "" ==> !IsWs(u[0]))
  {
    if s != "" && IsWs(s[0]) { TrimStartSuffix(s[1..]); }
  }
}

/**
 The string operations the env loader and writer rely on: white space as
 JavaScript defines it, trimming, searching and line splitting.
 */
module EnvText {

  /** Line terminators of a JavaScript regular expression. */
  predicate IsTerm(c: char) {
    c == '\n' || c == '\r' || c == '\U{2028}' || c == '\U{2029}'
  }

  predicate IsWs(c: char) {
    || IsTerm(c) || c == ' ' || c == '\t' || c == '\U{000B}' || c == '\U{000C}'
    || c == '\U{00A0}' || c == '\U{FEFF}' || c == '\U{1680}' || '\U{2000}' <= c <= '\U{200A}'
    || c == '\U{202F}' || c == '\U{205F}' || c == '\U{3000}'
  }

  predicate IsDigit(c: char) {
    '0' <= c <= '9'
  }

  function Val(c: char): nat
    requires IsDigit(c)
  {
    c as int - '0' as int
  }

  /** The decimal digit of n. */
  function Digit(n: nat): (c: char)
    requires n < 10
    ensures IsDigit(c) && Val(c) == n
  {
    '0' + n as char
  }

  function TrimStart(s: string): string {
    if s != [] && IsWs(s[0]) then TrimStart(s[1..]) else s
  }

  function TrimEnd(s: string): string {
    if s != [] && IsWs(s[|s| - 1]) then TrimEnd(s[..|s| - 1]) else s
  }

  function Trim(s: string): string {
    TrimStart(TrimEnd(s))
  }

  /** Position of the first c, or |s|. */
  function IndexOf(s: string, c: char): (i: nat)
    ensures i <= |s|
    ensures i < |s| ==> s[i] == c
    ensures forall k :: 0 <= k < i ==> s[k] != c
  {
    if s == [] || s[0] == c then 0 else 1 + IndexOf(s[1..], c)
  }

  lemma IndexOfIs(s: string, c: char, i: nat)
    requires i < |s| && s[i] == c && forall k :: 0 <= k < i ==> s[k] != c
    ensures IndexOf(s, c) == i
  {
    var j := IndexOf(s, c);
    assert j <= i;
  }

  /** Splitting on line feeds alone. */
  function SplitNl(s: string): (lines: seq<string>)
    ensures |lines| > 0
    decreases |s|
  {
    var i := IndexOf(s, '\n');
    if i == |s| then [s] else [s[..i]] + SplitNl(s[i + 1..])
  }

  function DropCr(line: string): string {
    if line != [] && line[|line| - 1] == '\r' then line[..|line| - 1] else line
  }

  /** body.split(/\r?\n/): a carriage return goes away when a line feed follows it. */
  function SplitLines(s: string): (lines: seq<string>)
    ensures |lines| > 0
    decreases |s|
  {
    var i := IndexOf(s, '\n');
    if i == |s| then [s] else [DropCr(s[..i])] + SplitLines(s[i + 1..])
  }

  lemma SplitCons(s: string, i: nat)
    requires i < |s| && s[i] == '\n' && forall k :: 0 <= k < i ==> s[k] != '\n'
    ensures SplitNl(s) == [s[..i]] + SplitNl(s[i + 1..])
  {
    IndexOfIs(s, '\n', i);
  }

  lemma Assoc<T>(a: seq<T>, b: seq<T>, c: seq<T>)
    ensures a + b + c == a + (b + c)
  {
  }

  /** A line feed always separates. */
  lemma {:induction false} SplitConcat(a: string, b: string)
    ensures SplitNl(a + ['\n'] + b) == SplitNl(a) + SplitNl(b)
    decreases |a|
  {
    var s := a + ['\n'] + b;
    var i := IndexOf(a, '\n');
    SplitCons(s, i);
    assert s[..i] == a[..i];
    if i == |a| {
      assert s[i + 1..] == b && a[..i] == a;
    } else {
      var rest := a[i + 1..];
      assert s[i + 1..] == rest + ['\n'] + b;
      SplitConcat(rest, b);
      SplitCons(a, i);
      Assoc([a[..i]], SplitNl(rest), SplitNl(b));
    }
  }

  lemma SplitOne(s: string)
    requires '\n' !in s
    ensures SplitNl(s) == [s]
  {
  }

  lemma {:induction false} TrimEndAppend(s: string, c: char)
    requires IsWs(c)
    ensures TrimEnd(s + [c]) == TrimEnd(s)
  {
    assert (s + [c])[..|s|] == s;
  }

  lemma TrimDropCr(line: string)
    ensures Trim(DropCr(line)) == Trim(line)
  {
    if line != [] && line[|line| - 1] == '\r' {
      assert line == DropCr(line) + ['\r'];
      TrimEndAppend(DropCr(line), '\r');
    }
  }

  /** Nothing before a non-blank character is trimmed from the end. */
  lemma {:induction false} TrimEndKeeps(a: string, b: string)
    requires a != [] && !IsWs(a[|a| - 1])
    ensures TrimEnd(a + b) == a + TrimEnd(b)
    decreases |b|
  {
    if b == [] {
      assert a + b == a;
    } else if IsWs(b[|b| - 1]) {
      assert (a + b)[..|a + b| - 1] == a + b[..|b| - 1];
      TrimEndKeeps(a, b[..|b| - 1]);
    }
  }

  lemma TrimPlain(s: string)
    requires s != [] ==> !IsWs(s[0]) && !IsWs(s[|s| - 1])
    ensures TrimEnd(s) == s && Trim(s) == s
  {
  }
}

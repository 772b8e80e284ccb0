/**
 The `.env.local` file: the loader of scripts/_env.ts and the writer of
 scripts/derive-clob-creds.ts, and when a value written by one is the value
 read by the other.
 */
module EnvFile {
  import opened EnvText

  // ---------------------------------------------------------------- loader

  predicate Quoted(s: string, q: char) {
    s != [] && s[0] == q && s[|s| - 1] == q
  }

  /** At least one blank and then a '#'. */
  predicate BlanksThenHash(s: string) {
    |s| > 1 && IsWs(s[0]) && (s[1] == '#' || BlanksThenHash(s[1..]))
  }

  /** Position of the first inline comment, or |s|. */
  function CommentStart(s: string): (i: nat)
    ensures i <= |s|
  {
    if s == [] || BlanksThenHash(s) then 0 else 1 + CommentStart(s[1..])
  }

  function StripInlineComment(raw: string): string {
    if Quoted(raw, '"') || Quoted(raw, '\'') then
      if |raw| < 2 then "" else raw[1..|raw| - 1]
    else raw[..CommentStart(raw)]
  }

  datatype Entry = Blank | Pair(key: string, value: string)

  function Parse(line: string): Entry {
    ParseTrimmed(Trim(line))
  }

  function ParseTrimmed(t: string): Entry {
    if t == "" || t[0] == '#' then Blank
    else
      var eq := IndexOf(t, '=');
      if eq == |t| then Blank
      else Pair(Trim(t[..eq]), Trim(StripInlineComment(Trim(t[eq + 1..]))))
  }

  type Env = map<string, string>

  /** process.env[key], with an absent variable as falsy as an empty one. */
  function Get(env: Env, key: string): string {
    if key in env then env[key] else ""
  }

  /** The value lines give a key: the first non-empty one. */
  function First(lines: seq<string>, key: string): string {
    if lines == [] then ""
    else
      var e := Parse(lines[0]);
      if e.Pair? && e.key == key && e.value != "" then e.value else First(lines[1..], key)
  }

  /** What the loader makes of a file body for one key. */
  function Read(body: string, key: string): string {
    First(SplitLines(body), key)
  }

  /** The environment after some lines: variables already set win, then the first non-empty line. */
  ghost predicate Merged(env: Env, lines: seq<string>, result: Env) {
    && (forall key :: key in env ==> key in result)
    && forall key :: Get(result, key) == if Get(env, key) != "" then Get(env, key) else First(lines, key)
  }

  /** What one more line does to the environment. */
  function Assign(env: Env, entry: Entry): Env {
    if entry.Pair? && Get(env, entry.key) == "" then env[entry.key := entry.value] else env
  }

  lemma MergedStep(env: Env, lines: seq<string>, i: nat, before: Env)
    requires i < |lines| && Merged(env, lines[..i], before)
    ensures Merged(env, lines[..i + 1], Assign(before, Parse(lines[i])))
  {
    var after := Assign(before, Parse(lines[i]));
    forall key
      ensures Get(after, key) == if Get(env, key) != "" then Get(env, key) else First(lines[..i + 1], key)
    {
      FirstStep(lines, i, key);
      assert Get(before, key) == if Get(env, key) != "" then Get(env, key) else First(lines[..i], key);
    }
  }

  /** The load loop. */
  method Load(body: string, env: Env) returns (result: Env)
    ensures forall key :: Get(result, key) == if Get(env, key) != "" then Get(env, key) else Read(body, key)
    ensures forall key :: key in env ==> key in result
  {
    result := env;
    var lines := SplitLines(body);
    for i := 0 to |lines|
      invariant Merged(env, lines[..i], result)
    {
      MergedStep(env, lines, i, result);
      var entry := ParseLine(lines[i]);
      if entry.Pair? && Get(result, entry.key) == "" {
        result := result[entry.key := entry.value];
      }
    }
    assert lines[..|lines|] == lines;
  }

  /** One line of the loop: nothing for a blank line, a comment or a line without '='. */
  method ParseLine(line: string) returns (entry: Entry)
    ensures entry == Parse(line)
  {
    var trimmed := Trim(line);
    if trimmed == "" || trimmed[0] == '#' {
      return Blank;
    }
    var eq := IndexOf(trimmed, '=');
    if eq == |trimmed| {
      return Blank;
    }
    entry := Pair(Trim(trimmed[..eq]), Trim(StripInlineComment(Trim(trimmed[eq + 1..]))));
  }

  lemma FirstStep(lines: seq<string>, i: nat, key: string)
    requires i < |lines|
    ensures var e := Parse(lines[i]);
            First(lines[..i + 1], key)
            == if First(lines[..i], key) != "" then First(lines[..i], key)
               else if e.Pair? && e.key == key then e.value else ""
  {
    assert lines[..i + 1] == lines[..i] + [lines[i]];
    FirstConcat(lines[..i], [lines[i]], key);
    FirstOne(lines[i], key);
  }

  lemma {:induction false} FirstConcat(a: seq<string>, b: seq<string>, key: string)
    ensures First(a + b, key) == if First(a, key) != "" then First(a, key) else First(b, key)
  {
    if a == [] {
      assert a + b == b;
    } else {
      assert (a + b)[1..] == a[1..] + b;
      FirstConcat(a[1..], b, key);
    }
  }

  lemma FirstOne(line: string, key: string)
    ensures var e := Parse(line); First([line], key) == if e.Pair? && e.key == key then e.value else ""
  {
    assert First([line][1..], key) == "";
  }

  lemma FirstCons(line: string, rest: seq<string>, key: string)
    ensures var e := Parse(line);
            First([line] + rest, key) == if e.Pair? && e.key == key && e.value != "" then e.value else First(rest, key)
  {
    assert ([line] + rest)[1..] == rest;
  }

  lemma ParseDropCr(line: string)
    ensures Parse(DropCr(line)) == Parse(line)
  {
    TrimDropCr(line);
  }

  lemma {:induction false} ReadIgnoresCr(body: string, key: string)
    ensures First(SplitLines(body), key) == First(SplitNl(body), key)
    decreases |body|
  {
    var i := IndexOf(body, '\n');
    if i < |body| {
      var line, rest := body[..i], body[i + 1..];
      ReadIgnoresCr(rest, key);
      ParseDropCr(line);
      FirstCons(line, SplitNl(rest), key);
      FirstCons(DropCr(line), SplitLines(rest), key);
    }
  }

  // ---------------------------------------------------------------- writer

  /** `^KEY=` in multi-line mode at position p. */
  predicate MatchAt(body: string, key: string, p: nat) {
    && p + |key| < |body| && (p == 0 || IsTerm(body[p - 1]))
    && body[p..p + |key|] == key && body[p + |key|] == '='
  }

  /** First match at or after p, or |body|. */
  function FirstMatch(body: string, key: string, p: nat): (m: nat)
    requires p <= |body|
    ensures p <= m <= |body|
    ensures m < |body| ==> MatchAt(body, key, m)
    ensures forall q :: p <= q < m ==> !MatchAt(body, key, q)
    decreases |body| - p
  {
    if p == |body| || MatchAt(body, key, p) then p else FirstMatch(body, key, p + 1)
  }

  /** Where `.*$` ends: the first line terminator at or after p, or |body|. */
  function LineEnd(body: string, p: nat): (e: nat)
    requires p <= |body|
    ensures p <= e <= |body|
    ensures e < |body| ==> IsTerm(body[e])
    ensures forall q :: p <= q < e ==> !IsTerm(body[q])
    decreases |body| - p
  {
    if p == |body| || IsTerm(body[p]) then p else LineEnd(body, p + 1)
  }

  /** Replacement text of String.replace: $$, $&, $` and $' are special. */
  function Expand(text: string, matched: string, before: string, after: string): string {
    if |text| < 2 then text
    else if text[0] == '$' && text[1] == '$' then ['$'] + Expand(text[2..], matched, before, after)
    else if text[0] == '$' && text[1] == '&' then matched + Expand(text[2..], matched, before, after)
    else if text[0] == '$' && text[1] == '`' then before + Expand(text[2..], matched, before, after)
    else if text[0] == '$' && text[1] == '\'' then after + Expand(text[2..], matched, before, after)
    else [text[0]] + Expand(text[1..], matched, before, after)
  }

  /** The text of one assignment line. */
  function Assignment(key: string, val: string): string {
    key + ['='] + val
  }

  /** String.replace of body[p..e] by a replacement text. */
  function ReplaceAt(body: string, p: nat, e: nat, text: string): string
    requires p <= e <= |body|
  {
    body[..p] + Expand(text, body[p..e], body[..p], body[e..]) + body[e..]
  }

  /** The file holds a line that the writer's expression finds. */
  predicate Replaces(body: string, key: string) {
    FirstMatch(body, key, 0) < |body|
  }

  /** The body with the first such line replaced. */
  function Replaced(body: string, key: string, text: string): string
    requires Replaces(body, key)
  {
    var p := FirstMatch(body, key, 0);
    ReplaceAt(body, p, LineEnd(body, p + |key| + 1), text)
  }

  function SetOrAppend(body: string, key: string, val: string): string {
    if Replaces(body, key) then Replaced(body, key, Assignment(key, val))
    else TrimEnd(body) + ['\n'] + Assignment(key, val) + ['\n']
  }

  // ---------------------------------------------------------------- what is plain

  /** Upper-case letters, digits and underscores. */
  predicate PlainKey(key: string) {
    key != "" && forall c :: c in key ==> 'A' <= c <= 'Z' || '0' <= c <= '9' || c == '_'
  }

  /** A credential: not empty, no blanks, not wrapped in quotes. */
  predicate PlainValue(val: string) {
    && val != ""
    && (forall c :: c in val ==> !IsWs(c))
    && !Quoted(val, '"') && !Quoted(val, '\'')
  }

  /** Empty, or the end of a line that ends in LF or CRLF. */
  predicate LineStart(a: string) {
    a == "" || a[|a| - 1] == '\n'
  }

  /** What may follow a line: nothing, LF, or CRLF. */
  predicate AfterLine(c: string) {
    c == "" || c[0] == '\n' || (|c| >= 2 && c[0] == '\r' && c[1] == '\n')
  }

  /** The assignment at position p is a whole line to the loader as well. */
  predicate AlignedAt(body: string, key: string, p: nat)
    requires p + |key| < |body|
  {
    LineStart(body[..p]) && AfterLine(body[LineEnd(body, p + |key| + 1)..])
  }

  /** The line the writer would replace, if there is one, is a line to the loader as well. */
  predicate Aligned(body: string, key: string) {
    Replaces(body, key) ==> AlignedAt(body, key, FirstMatch(body, key, 0))
  }

  lemma {:induction false} NoComment(s: string)
    requires forall c :: c in s ==> !IsWs(c)
    ensures CommentStart(s) == |s|
  {
    if s != [] {
      assert s[0] in s && forall c :: c in s[1..] ==> c in s;
      NoComment(s[1..]);
    }
  }

  lemma PlainKeyChars(key: string)
    requires PlainKey(key)
    ensures key[0] in key && key[|key| - 1] in key
    ensures '=' !in key && '$' !in key && '\n' !in key && key[0] != '#'
    ensures forall i :: 0 <= i < |key| ==> !IsTerm(key[i]) && key[i] != '='
    ensures !IsWs(key[0]) && !IsWs(key[|key| - 1])
    ensures Trim(key) == key
  {
    assert key[0] in key && key[|key| - 1] in key;
    assert forall i :: 0 <= i < |key| ==> key[i] in key;
    TrimPlain(key);
  }

  /** Nothing before the value is trimmed. */
  lemma TrimAssignment(key: string, rest: string)
    requires PlainKey(key)
    ensures Trim(Assignment(key, rest)) == Assignment(key, TrimEnd(rest))
  {
    PlainKeyChars(key);
    TrimEndKeeps(key + ['='], rest);
    assert Assignment(key, TrimEnd(rest))[0] == key[0];
  }

  lemma CutAssignment(key: string, rest: string)
    requires PlainKey(key)
    ensures var t := Assignment(key, rest);
            IndexOf(t, '=') == |key| && t[..|key|] == key && t[|key| + 1..] == rest && t[0] != '#'
  {
    PlainKeyChars(key);
    var t := Assignment(key, rest);
    assert forall i :: 0 <= i < |key| ==> t[i] == key[i];
    IndexOfIs(t, '=', |key|);
  }

  /** A line that literally starts with KEY= always parses to that key. */
  lemma ParseAssignment(key: string, rest: string)
    requires PlainKey(key)
    ensures Parse(Assignment(key, rest))
         == Pair(key, Trim(StripInlineComment(Trim(TrimEnd(rest)))))
  {
    TrimAssignment(key, rest);
    CutAssignment(key, TrimEnd(rest));
    PlainKeyChars(key);
  }

  /** A written line reads back, also with a trailing carriage return. */
  lemma ParseWritten(key: string, val: string, cr: string)
    requires PlainKey(key) && PlainValue(val) && (cr == "" || cr == "\r")
    ensures Parse(Assignment(key, val) + cr) == Pair(key, val)
  {
    assert val[0] in val && val[|val| - 1] in val;
    TrimPlain(val);
    if cr == "\r" {
      assert val + cr == val + ['\r'];
      TrimEndAppend(val, '\r');
    } else {
      assert val + cr == val;
    }
    assert Assignment(key, val) + cr == Assignment(key, val + cr);
    ParseAssignment(key, val + cr);
    NoComment(val);
    assert StripInlineComment(val) == val;
  }
}

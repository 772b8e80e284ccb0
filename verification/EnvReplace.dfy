/**
 Replacement texts of String.replace: `$$`, `$&`, `` $` `` and `$'` stand for other texts,
 every other '$' for itself. A text is copied as it is exactly when it has no such pair.
 */
module EnvReplace {
  import opened EnvText
  import opened EnvFile

  /** A pair of characters that does not stand for itself. */
  predicate Pattern(c: char, d: char) {
    c == '$' && (d == '$' || d == '&' || d == '`' || d == '\'')
  }

  predicate Verbatim(text: string) {
    forall i :: 0 < i < |text| ==> !Pattern(text[i - 1], text[i])
  }

  /** Read from left to right, the only pairs that do not stand for themselves are `$$`. */
  predicate FileFree(text: string)
    decreases |text|
  {
    || |text| < 2
    || if text[0] == '$' && text[1] == '$' then FileFree(text[2..])
       else !Pattern(text[0], text[1]) && FileFree(text[1..])
  }

  /** The text with one dollar for each pair of dollars. */
  function Halved(text: string): string {
    Expand(text, "", "", "")
  }

  lemma VerbatimTail(text: string)
    requires Verbatim(text) && text != ""
    ensures Verbatim(text[1..])
  {
    forall i | 0 < i < |text| - 1
      ensures !Pattern(text[1..][i - 1], text[1..][i])
    {
      assert !Pattern(text[i], text[i + 1]);
    }
  }

  lemma VerbatimCons(text: string)
    requires |text| >= 2 && !Pattern(text[0], text[1]) && Verbatim(text[1..])
    ensures Verbatim(text)
  {
    forall i | 0 < i < |text|
      ensures !Pattern(text[i - 1], text[i])
    {
      if i > 1 {
        assert !Pattern(text[1..][i - 2], text[1..][i - 1]);
      }
    }
  }

  lemma {:induction false} ExpandVerbatim(text: string, matched: string, before: string, after: string)
    requires Verbatim(text)
    ensures Expand(text, matched, before, after) == text && FileFree(text)
  {
    if |text| >= 2 {
      assert !Pattern(text[0], text[1]);
      VerbatimTail(text);
      ExpandVerbatim(text[1..], matched, before, after);
    }
  }

  // ---------------------------------------------------------------- what the patterns stand for

  lemma PairExpands(d: char, rest: string, matched: string, before: string, after: string)
    requires Pattern('$', d)
    ensures Expand(['$', d] + rest, matched, before, after)
         == (if d == '$' then "$" else if d == '&' then matched else if d == '`' then before else after)
            + Expand(rest, matched, before, after)
  {
    assert (['$', d] + rest)[2..] == rest;
  }

  /** A dollar before any other character, or at the end, stands for itself. */
  lemma DollarStays(rest: string, matched: string, before: string, after: string)
    requires rest == "" || !Pattern('$', rest[0])
    ensures Expand("$" + rest, matched, before, after) == "$" + Expand(rest, matched, before, after)
  {
    assert ("$" + rest)[1..] == rest;
  }

  lemma CharCopied(c: char, rest: string, matched: string, before: string, after: string)
    requires c != '$'
    ensures Expand([c] + rest, matched, before, after) == [c] + Expand(rest, matched, before, after)
  {
    assert ([c] + rest)[1..] == rest;
    if rest == "" { assert [c] + rest == [c]; }
  }

  /** Text without a dollar is copied. */
  lemma {:induction false} TextCopied(x: string, rest: string, matched: string, before: string, after: string)
    requires '$' !in x
    ensures Expand(x + rest, matched, before, after) == x + Expand(rest, matched, before, after)
    decreases |x|
  {
    if x == "" {
      assert x + rest == rest && "" + Expand(rest, matched, before, after) == Expand(rest, matched, before, after);
    } else {
      var c, tail := x[0], x[1..];
      assert c in x && x == [c] + tail;
      TextCopied(tail, rest, matched, before, after);
      Assoc([c], tail, rest);
      CharCopied(c, tail + rest, matched, before, after);
      Assoc([c], tail, Expand(rest, matched, before, after));
    }
  }

  // ---------------------------------------------------------------- the exact condition

  /** The texts around a whole line: nothing, or something with a line feed in it. */
  predicate Around(s: string) {
    s == "" || '\n' in s
  }

  /** A matched line begins with a letter, digit or underscore of its key. */
  predicate Matched(m: string) {
    m != "" && m[0] != '$' && m[0] != '`' && m[0] != '\''
  }

  /** What a recursive step compares: the same text with a shifted remainder. */
  lemma ShiftedStep(c: char, rest: string, q: string, s: string, q': string, s': string)
    requires q != "" && q + s == [q[0]] + (q' + s') && rest != q' + s'
    ensures [c] + rest != q + s
  {
    assert ([c] + rest)[1..] == rest;
    assert ([q[0]] + (q' + s'))[1..] == q' + s';
  }

  lemma ContextStep(s: string, q: string, context: string, rest: string)
    requires Around(context) && '\n' !in q && '\n' !in s
    requires context == "" ==> rest != q + s
    ensures context + rest != q + s
  {
    if context == "" {
      assert context + rest == rest;
    } else {
      assert '\n' in context + rest;
      assert forall c :: c in q + s ==> c in q || c in s;
    }
  }

  lemma SubsetOf(s: string, n: nat)
    requires n <= |s| && '\n' !in s
    ensures '\n' !in s[n..]
  {
  }

  /** No expansion of a text is that text behind something else. */
  lemma {:induction false} NeverShifted(q: string, s: string, matched: string, before: string, after: string)
    requires Matched(matched) && Around(before) && Around(after)
    requires q != "" && matched[0] !in q && '\n' !in q && '\n' !in s
    ensures Expand(s, matched, before, after) != q + s
    decreases |s|
  {
    if |s| >= 2 {
      var c, d := s[0], s[1];
      assert s == [c] + s[1..] && s == [c, d] + s[2..];
      if c == '$' && d == '$' {
        NeverShiftedDouble(q, s, matched, before, after);
      } else if c == '$' && d == '&' {
        assert Expand(s, matched, before, after)[0] == matched[0];
        assert (q + s)[0] == q[0] && q[0] in q;
      } else if c == '$' && (d == '`' || d == '\'') {
        NeverShiftedContext(q, s, matched, before, after);
      } else if c == q[0] {
        var q' := q[1..] + [c];
        assert q + s == [q[0]] + (q' + s[1..]);
        NeverShifted(q', s[1..], matched, before, after);
        ShiftedStep(c, Expand(s[1..], matched, before, after), q, s, q', s[1..]);
      } else {
        assert Expand(s, matched, before, after)[0] == c && (q + s)[0] == q[0];
      }
    }
  }

  lemma {:induction false} NeverShiftedDouble(q: string, s: string, matched: string, before: string, after: string)
    requires Matched(matched) && Around(before) && Around(after)
    requires q != "" && matched[0] !in q && '\n' !in q && '\n' !in s
    requires |s| >= 2 && s[0] == '$' && s[1] == '$'
    ensures Expand(s, matched, before, after) != q + s
    decreases |s|, 0
  {
    var q' := q[1..] + "$$";
    assert s == "$$" + s[2..];
    assert q + s == [q[0]] + (q' + s[2..]);
    assert forall c :: c in q' ==> c in q || c == '$';
    SubsetOf(s, 2);
    NeverShifted(q', s[2..], matched, before, after);
    ShiftedStep('$', Expand(s[2..], matched, before, after), q, s, q', s[2..]);
  }

  lemma {:induction false} NeverShiftedContext(q: string, s: string, matched: string, before: string, after: string)
    requires Matched(matched) && Around(before) && Around(after)
    requires q != "" && matched[0] !in q && '\n' !in q && '\n' !in s
    requires |s| >= 2 && s[0] == '$' && (s[1] == '`' || s[1] == '\'')
    ensures Expand(s, matched, before, after) != q + s
    decreases |s|, 0
  {
    var context := if s[1] == '`' then before else after;
    var q' := q + ['$', s[1]];
    assert s == ['$', s[1]] + s[2..];
    assert q + s == q' + s[2..];
    assert forall c :: c in q' ==> c in q || c == '$' || c == s[1];
    SubsetOf(s, 2);
    NeverShifted(q', s[2..], matched, before, after);
    ContextStep(s, q, context, Expand(s[2..], matched, before, after));
  }

  lemma {:induction false} PatternChanges(s: string, matched: string, before: string, after: string)
    requires Matched(matched) && Around(before) && Around(after) && '\n' !in s
    requires !Verbatim(s)
    ensures Expand(s, matched, before, after) != s
  {
    assert |s| >= 2;
    var c, d := s[0], s[1];
    if !Pattern(c, d) {
      if Verbatim(s[1..]) { VerbatimCons(s); }
      SubsetOf(s, 1);
      PatternChanges(s[1..], matched, before, after);
      assert Expand(s, matched, before, after)[1..] == Expand(s[1..], matched, before, after);
    } else {
      FirstPatternChanges(s, matched, before, after);
    }
  }

  lemma FirstPatternChanges(s: string, matched: string, before: string, after: string)
    requires Matched(matched) && Around(before) && Around(after) && '\n' !in s
    requires |s| >= 2 && Pattern(s[0], s[1])
    ensures Expand(s, matched, before, after) != s
  {
    var d, rest := s[1], Expand(s[2..], matched, before, after);
    SubsetOf(s, 2);
    assert s == ['$'] + (['$'] + s[2..]) || d != '$';
    if d == '$' {
      NeverShifted("$", s[2..], matched, before, after);
      assert (['$'] + rest)[1..] == rest;
      assert s[1..] == "$" + s[2..];
    } else if d == '&' {
      assert (matched + rest)[0] == matched[0];
    } else {
      NeverShifted(['$', d], s[2..], matched, before, after);
      assert s == ['$', d] + s[2..];
      ContextStep(s[2..], ['$', d], if d == '`' then before else after, rest);
    }
  }

  /** A text is copied as it is exactly when it has no pair that stands for something else. */
  lemma CopiedExactly(s: string, matched: string, before: string, after: string)
    requires Matched(matched) && Around(before) && Around(after) && '\n' !in s
    ensures Expand(s, matched, before, after) == s <==> Verbatim(s)
  {
    if Verbatim(s) {
      ExpandVerbatim(s, matched, before, after);
    } else {
      PatternChanges(s, matched, before, after);
    }
  }

  // ---------------------------------------------------------------- assignments

  lemma ExpandCons(c: char, s: string, matched: string, before: string, after: string)
    requires c != '$'
    ensures Expand([c] + s, matched, before, after) == [c] + Expand(s, matched, before, after)
  {
    assert ([c] + s)[1..] == s;
  }

  lemma {:induction false} ExpandPrefix(pre: string, s: string, matched: string, before: string, after: string)
    requires '$' !in pre
    ensures Expand(pre + s, matched, before, after) == pre + Expand(s, matched, before, after)
  {
    if pre == "" {
      assert pre + s == s;
    } else {
      var rest := pre[1..];
      assert pre[0] in pre && forall c :: c in rest ==> c in pre;
      ExpandPrefix(rest, s, matched, before, after);
      ExpandCons(pre[0], rest + s, matched, before, after);
      assert pre == [pre[0]] + rest;
      Assoc([pre[0]], rest, s);
      Assoc([pre[0]], rest, Expand(s, matched, before, after));
    }
  }

  lemma ExpandAssignment(key: string, val: string, matched: string, before: string, after: string)
    requires PlainKey(key)
    ensures Expand(Assignment(key, val), matched, before, after)
         == Assignment(key, Expand(val, matched, before, after))
  {
    PlainKeyChars(key);
    assert forall c :: c in key + ['='] ==> c in key || c == '=';
    ExpandPrefix(key + ['='], val, matched, before, after);
  }

  // ---------------------------------------------------------------- pairs of dollars

  lemma {:induction false} FileFreeExpand(s: string, matched: string, before: string, after: string)
    requires FileFree(s)
    ensures Expand(s, matched, before, after) == Halved(s)
    decreases |s|
  {
    if |s| >= 2 {
      if s[0] == '$' && s[1] == '$' {
        FileFreeExpand(s[2..], matched, before, after);
      } else {
        FileFreeExpand(s[1..], matched, before, after);
      }
    }
  }

  /** Same ends, same characters, and shorter exactly when a pair of dollars occurs. */
  lemma {:induction false} HalvedShape(s: string)
    requires FileFree(s)
    ensures |Halved(s)| <= |s| && (s != "" ==> Halved(s) != "")
    ensures s != "" ==> Halved(s)[0] == s[0] && Halved(s)[|Halved(s)| - 1] == s[|s| - 1]
    ensures forall c :: c in Halved(s) ==> c in s
    decreases |s|
  {
    if |s| >= 2 {
      var n := if s[0] == '$' && s[1] == '$' then 2 else 1;
      HalvedShape(s[n..]);
      var h := Halved(s[n..]);
      assert Halved(s) == [s[0]] + h;
      assert s == s[..n] + s[n..];
      if h == "" {
        assert s[n..] == "";
      }
      assert s[0] in s && forall c :: c in s[n..] ==> c in s;
    }
  }

  lemma {:induction false} HalvedExactly(s: string)
    requires FileFree(s)
    ensures |Halved(s)| < |s| <==> !Verbatim(s)
    ensures Halved(s) == s <==> Verbatim(s)
    decreases |s|
  {
    HalvedShape(s);
    if Verbatim(s) {
      ExpandVerbatim(s, "", "", "");
    } else {
      assert |s| >= 2;
      if s[0] == '$' && s[1] == '$' {
        HalvedShape(s[2..]);
      } else {
        if Verbatim(s[1..]) { VerbatimCons(s); }
        HalvedExactly(s[1..]);
      }
    }
  }

  /** A plain value stays plain. */
  lemma HalvedPlain(val: string)
    requires PlainValue(val) && FileFree(val)
    ensures PlainValue(Halved(val))
  {
    HalvedShape(val);
  }
}

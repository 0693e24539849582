/**
 * The text operations of Rust's `str` that the request handler relies on:
 * `contains`, the line-feed search of `lines()`, `split_whitespace`, and `len` (the UTF-8 byte length).
 * Prefix tests (`starts_with`) are Dafny's sequence prefix `<=`.
 */
module Strings {
  import opened Wrappers

  /** A common front part does not change whether one text is a prefix of another. */
  lemma PrefixAfter(a: string, b: string, u: string)
    ensures a + b <= a + u <==> b <= u
  {
    if b <= u {
      assert (a + u)[..|a + b|] == a + u[..|b|];
    }
    if a + b <= a + u {
      assert u[..|b|] == (a + u)[..|a + b|][|a|..];
    }
  }

  /** `pat` occurs in `s` starting at index `i`. */
  predicate OccursAt(s: string, pat: string, i: nat) {
    i + |pat| <= |s| && s[i..i + |pat|] == pat
  }

  /** One mismatching character rules out an occurrence. */
  lemma MismatchAt(s: string, pat: string, j: nat, d: nat)
    requires d < |pat| && j + d < |s| && s[j + d] != pat[d]
    ensures !OccursAt(s, pat, j)
  {
    if j + |pat| <= |s| {
      assert s[j..j + |pat|][d] == s[j + d];
    }
  }

  /** An occurrence in `s[1..]` is an occurrence in `s` one place further on. */
  lemma OccursShift(s: string, pat: string)
    requires |s| > 0
    ensures forall j: nat :: OccursAt(s[1..], pat, j) <==> OccursAt(s, pat, j + 1)
    ensures forall j: nat :: 1 <= j ==> (OccursAt(s, pat, j) <==> OccursAt(s[1..], pat, j - 1))
  {
    forall j: nat
      ensures OccursAt(s[1..], pat, j) <==> OccursAt(s, pat, j + 1)
    {
      if j + 1 + |pat| <= |s| {
        assert s[1..][j..j + |pat|] == s[j + 1..j + 1 + |pat|];
      }
    }
  }

  /**
   * The index, in characters, of the first occurrence of `pat` in `s`, or `None`
   * when there is none. It is the search beneath `Contains` and `FirstLine`.
   */
  function Find(s: string, pat: string): (r: Option<nat>)
    ensures r.Some? ==> OccursAt(s, pat, r.value)
    ensures r.Some? ==> forall j :: 0 <= j < r.value ==> !OccursAt(s, pat, j)
    ensures r.None? ==> forall j: nat :: !OccursAt(s, pat, j)
    decreases |s|
  {
    if |s| < |pat| then None
    else if pat <= s then
      assert s[0..|pat|] == pat;
      Some(0)
    else
      assert !OccursAt(s, pat, 0);
      OccursShift(s, pat);
      match Find(s[1..], pat)
      case None => None
      case Some(k) => Some(k + 1)
  }

  /** The first occurrence is determined by where `pat` occurs: an occurrence with none before it is the one found. */
  lemma FindFirst(s: string, pat: string, k: nat)
    requires OccursAt(s, pat, k)
    requires forall j :: 0 <= j < k ==> !OccursAt(s, pat, j)
    ensures Find(s, pat) == Some(k)
  {
  }

  /** A text that starts with `pat` has its first occurrence at 0. */
  lemma FindAtStart(pat: string, rest: string)
    ensures Find(pat + rest, pat) == Some(0)
  {
    assert (pat + rest)[0..|pat|] == pat;
    FindFirst(pat + rest, pat, 0);
  }

  /** Occurrences in `t` are occurrences in `a + t`, shifted by the length of `a`. */
  lemma OccursAfter(a: string, t: string, pat: string, i: nat)
    ensures OccursAt(a + t, pat, |a| + i) <==> OccursAt(t, pat, i)
  {
    if |a| + i + |pat| <= |a + t| {
      assert (a + t)[|a| + i..|a| + i + |pat|] == t[i..i + |pat|];
    }
  }

  /** Text in front that holds no occurrence shifts the first occurrence by its own length. */
  lemma FindSkip(a: string, t: string, pat: string, k: nat)
    requires forall j :: 0 <= j < |a| ==> !OccursAt(a + t, pat, j)
    requires Find(t, pat) == Some(k)
    ensures Find(a + t, pat) == Some(|a| + k)
  {
    forall j | |a| <= j < |a| + k
      ensures !OccursAt(a + t, pat, j)
    {
      OccursAfter(a, t, pat, j - |a|);
    }
    OccursAfter(a, t, pat, k);
    FindFirst(a + t, pat, |a| + k);
  }

  /** Text that cannot start `pat` anywhere shifts the first occurrence by its own length. */
  lemma FindAfter(a: string, t: string, pat: string, k: nat)
    requires |pat| > 0 && pat[0] !in a
    requires Find(t, pat) == Some(k)
    ensures Find(a + t, pat) == Some(|a| + k)
  {
    forall j: nat | j < |a|
      ensures !OccursAt(a + t, pat, j)
    {
      assert (a + t)[j] == a[j];
      MismatchAt(a + t, pat, j, 0);
    }
    FindSkip(a, t, pat, k);
  }

  /** Searching for one character finds its first position, and finds nothing exactly when it is absent. */
  lemma FindChar(s: string, c: char)
    ensures Find(s, [c]).None? <==> c !in s
    ensures Find(s, [c]).Some? ==> var k := Find(s, [c]).value; k < |s| && s[k] == c && c !in s[..k]
  {
    forall j: nat | j < |s|
      ensures OccursAt(s, [c], j) <==> s[j] == c
    {
      assert s[j..j + 1] == [s[j]];
    }
    if c in s {
      var j :| 0 <= j < |s| && s[j] == c;
      assert OccursAt(s, [c], j);
    }
  }

  /** `str::contains`: `pat` occurs somewhere in `s`. */
  function Contains(s: string, pat: string): (b: bool)
    ensures b <==> exists i: nat :: OccursAt(s, pat, i)
  {
    Find(s, pat).Some?
  }

  /** Whatever surrounds an occurrence of `pat`, the text contains it. */
  lemma ContainsInfix(a: string, pat: string, b: string)
    ensures Contains(a + pat + b, pat)
  {
    assert (a + pat + b)[|a|..|a| + |pat|] == pat;
    assert OccursAt(a + pat + b, pat, |a|);
  }

  /**
   * Rust's `char::is_whitespace`: the 25 characters of the Unicode White_Space
   * property. Among ASCII they are the space and U+0009 to U+000D; none lies
   * above U+3000.
   */
  predicate IsWhitespace(c: char): (b: bool)
    ensures c as int < 0x80 ==> (b <==> c == ' ' || '\t' <= c <= '\r')
    ensures b ==> c as int <= 0x3000
  {
    c == ' ' || '\t' <= c <= '\r' || c == '\U{85}' || c == '\U{A0}' || c == '\U{1680}'
    || '\U{2000}' <= c <= '\U{200A}' || c == '\U{2028}' || c == '\U{2029}'
    || c == '\U{202F}' || c == '\U{205F}' || c == '\U{3000}'
  }

  predicate AllWhitespace(s: string) {
    forall i :: 0 <= i < |s| ==> IsWhitespace(s[i])
  }

  /** A token of `split_whitespace`: non-empty and free of whitespace. */
  predicate IsWord(w: string) {
    |w| > 0 && forall i :: 0 <= i < |w| ==> !IsWhitespace(w[i])
  }

  /** Length of the whitespace run at the front of `s`. */
  function WhitespaceRun(s: string): (n: nat)
    ensures n <= |s| && AllWhitespace(s[..n])
    ensures n < |s| ==> !IsWhitespace(s[n])
    decreases |s|
  {
    if |s| > 0 && IsWhitespace(s[0]) then
      var n := 1 + WhitespaceRun(s[1..]);
      assert s[..n] == [s[0]] + s[1..][..n - 1];
      n
    else 0
  }

  /** Length of the non-whitespace run at the front of `s`. */
  function WordRun(s: string): (n: nat)
    ensures n <= |s| && forall i :: 0 <= i < n ==> !IsWhitespace(s[i])
    ensures n < |s| ==> IsWhitespace(s[n])
    decreases |s|
  {
    if |s| > 0 && !IsWhitespace(s[0]) then 1 + WordRun(s[1..]) else 0
  }

  /** `s.split_whitespace()`: the maximal runs of non-whitespace characters of `s`, in order. */
  function Tokens(s: string): (ts: seq<string>)
    ensures forall k :: 0 <= k < |ts| ==> IsWord(ts[k])
    decreases |s|
  {
    var t := s[WhitespaceRun(s)..];
    if t == [] then []
    else
      var n := WordRun(t);
      [t[..n]] + Tokens(t[n..])
  }

  /** Text made only of whitespace has no tokens. */
  lemma WhitespaceHasNoTokens(s: string)
    requires AllWhitespace(s)
    ensures Tokens(s) == []
  {
  }

  /** Leading whitespace ending at a non-whitespace character is the whole whitespace run. */
  lemma WhitespaceRunOf(pre: string, t: string)
    requires AllWhitespace(pre)
    requires |t| > 0 && !IsWhitespace(t[0])
    ensures WhitespaceRun(pre + t) == |pre|
  {
    var s := pre + t;
    assert s[|pre|] == t[0];
    assert forall i :: 0 <= i < |pre| ==> s[i] == pre[i];
  }

  /** A word ending at whitespace or at the end is the whole non-whitespace run. */
  lemma WordRunOf(w: string, rest: string)
    requires IsWord(w)
    requires rest == [] || IsWhitespace(rest[0])
    ensures WordRun(w + rest) == |w|
  {
    var s := w + rest;
    assert forall i :: 0 <= i < |w| ==> s[i] == w[i];
    assert rest != [] ==> s[|w|] == rest[0];
  }

  /**
   * The tokens are determined by the text: leading whitespace, then a word that
   * ends at whitespace or at the end, gives that word followed by the tokens of the rest.
   */
  lemma TokensCons(pre: string, w: string, rest: string)
    requires AllWhitespace(pre) && IsWord(w)
    requires rest == [] || IsWhitespace(rest[0])
    ensures Tokens(pre + w + rest) == [w] + Tokens(rest)
  {
    var s := pre + w + rest;
    assert s == pre + (w + rest);
    WhitespaceRunOf(pre, w + rest);
    var t := s[|pre|..];
    assert t == w + rest;
    WordRunOf(w, rest);
    assert t[..|w|] == w && t[|w|..] == rest;
  }

  /** Number of bytes of the UTF-8 encoding of `c`. */
  function Utf8Width(c: char): (n: nat)
    ensures 1 <= n <= 4
    ensures n == 1 <==> c as int < 0x80
  {
    if c as int < 0x80 then 1
    else if c as int < 0x800 then 2
    else if c as int < 0x1_0000 then 3
    else 4
  }

  /** `String::len`: the number of bytes of the UTF-8 encoding of `s`. */
  function Utf8Length(s: string): (n: nat)
    ensures |s| <= n <= 4 * |s|
    ensures n == |s| <==> forall i :: 0 <= i < |s| ==> s[i] as int < 0x80
    decreases |s|
  {
    if s == [] then 0
    else
      var n := Utf8Width(s[0]) + Utf8Length(s[1..]);
      assert forall i :: 1 <= i < |s| ==> s[i] == s[1..][i - 1];
      n
  }
}

/** The string operations the routes and pages use: `trim`, `toLowerCase` and `includes`. */
module Text {

  /** The characters `String.prototype.trim` removes: ECMAScript's WhiteSpace and
      LineTerminator code points. */
  const WhitespaceChars: seq<char> := [
    '\t', '\n', '\U{000B}', '\U{000C}', '\r', ' ', '\U{00A0}', '\U{1680}',
    '\U{2000}', '\U{2001}', '\U{2002}', '\U{2003}', '\U{2004}', '\U{2005}',
    '\U{2006}', '\U{2007}', '\U{2008}', '\U{2009}', '\U{200A}',
    '\U{2028}', '\U{2029}', '\U{202F}', '\U{205F}', '\U{3000}', '\U{FEFF}'
  ]

  /** `c` is one of `cs`; recursive, so a proof looks into the table only as far as it needs. */
  predicate OneOf(c: char, cs: seq<char>) {
    cs != [] && (c == cs[0] || OneOf(c, cs[1..]))
  }

  predicate IsWhitespace(c: char) {
    OneOf(c, WhitespaceChars)
  }

  /** Every character of `s` is in the class `p` (the empty string included). */
  predicate All(s: string, p: char -> bool) {
    forall i :: 0 <= i < |s| ==> p(s[i])
  }

  /** Every character of `s` is white space. */
  predicate IsBlank(s: string) {
    All(s, IsWhitespace)
  }

  /** Drops the leading characters of class `p`: the result is a suffix of `s`. */
  function DropWhile(s: string, p: char -> bool): (r: string)
    ensures |r| <= |s| && r == s[|s| - |r|..]
  {
    if s != [] && p(s[0]) then DropWhile(s[1..], p) else s
  }

  /** `DropWhile` drops only characters of class `p`, and all the leading ones. */
  lemma {:induction false} DropWhileDropsAll(s: string, p: char -> bool)
    ensures All(s[..|s| - |DropWhile(s, p)|], p)
    ensures DropWhile(s, p) == [] || !p(DropWhile(s, p)[0])
  {
    if s != [] && p(s[0]) {
      var t := s[1..];
      DropWhileDropsAll(t, p);
      var n := |t| - |DropWhile(t, p)|;
      assert |s| - |DropWhile(s, p)| == n + 1;
      var dropped, rest := s[..n + 1], t[..n];
      forall i | 0 <= i < |dropped| ensures p(dropped[i]) {
        if i > 0 {
          assert dropped[i] == rest[i - 1];
        }
      }
    }
  }

  /** Drops the trailing characters of class `p`: the result is a prefix of `s`. */
  function DropWhileEnd(s: string, p: char -> bool): (r: string)
    ensures |r| <= |s| && r == s[..|r|]
  {
    if s != [] && p(s[|s| - 1]) then DropWhileEnd(s[..|s| - 1], p) else s
  }

  /** `DropWhileEnd` drops only characters of class `p`, and all the trailing ones. */
  lemma {:induction false} DropWhileEndDropsAll(s: string, p: char -> bool)
    ensures All(s[|DropWhileEnd(s, p)|..], p)
    ensures DropWhileEnd(s, p) == [] || !p(DropWhileEnd(s, p)[|DropWhileEnd(s, p)| - 1])
  {
    if s != [] && p(s[|s| - 1]) {
      var t := s[..|s| - 1];
      DropWhileEndDropsAll(t, p);
      var n := |DropWhileEnd(t, p)|;
      var dropped, rest := s[n..], t[n..];
      forall i | 0 <= i < |dropped| ensures p(dropped[i]) {
        if i < |rest| {
          assert dropped[i] == rest[i];
        }
      }
    }
  }

  /** `r` occurs in `s` starting at index `i`. */
  predicate OccursAt(s: string, r: string, i: int) {
    0 <= i <= |s| - |r| && s[i..i + |r|] == r
  }

  /** Drops the characters of class `p` at both ends. */
  function Strip(s: string, p: char -> bool): string {
    DropWhileEnd(DropWhile(s, p), p)
  }

  /** `Strip` leaves a contiguous piece of `s`: what `DropWhileEnd` keeps of what `DropWhile` kept. */
  lemma StripOccurs(s: string, p: char -> bool)
    ensures OccursAt(s, Strip(s, p), |s| - |DropWhile(s, p)|)
  {
    var a := DropWhile(s, p);
    SliceOfSuffix(s, a, DropWhileEnd(a, p));
  }

  /** What `Strip` leaves neither starts nor ends with a character of class `p`. */
  lemma StripEnds(s: string, p: char -> bool)
    ensures Strip(s, p) == [] || (!p(Strip(s, p)[0]) && !p(Strip(s, p)[|Strip(s, p)| - 1]))
  {
    var a := DropWhile(s, p);
    var r := DropWhileEnd(a, p);
    DropWhileDropsAll(s, p);
    DropWhileEndDropsAll(a, p);
    if r != [] {
      assert r[0] == a[0];
    }
  }

  /** `Strip` leaves nothing exactly when every character of `s` is of class `p`. */
  lemma StripEmptyIffAll(s: string, p: char -> bool)
    ensures Strip(s, p) == [] <==> All(s, p)
  {
    var a := DropWhile(s, p);
    var k := |s| - |a|;
    DropWhileDropsAll(s, p);
    if a != [] {
      DropWhileEndDropsAll(a, p);
      // a starts with a character of s that is not of class p
      assert a[0] == s[k] && !p(s[k]);
    } else {
      assert s[..k] == s;
    }
  }

  /** `Strip` drops only characters of class `p`: everything before and after the piece
      it leaves is of class `p`. */
  lemma StripDropsOnly(s: string, p: char -> bool)
    ensures All(s[..|s| - |DropWhile(s, p)|], p)
    ensures All(s[|s| - |DropWhile(s, p)| + |Strip(s, p)|..], p)
  {
    var a := DropWhile(s, p);
    var k, r := |s| - |a|, Strip(s, p);
    DropWhileDropsAll(s, p);
    DropWhileEndDropsAll(a, p);
    var after := s[k + |r|..];
    forall i | 0 <= i < |after| ensures p(after[i]) {
      assert after[i] == a[|r|..][i];
    }
  }

  /** A prefix `r` of a suffix `a` of `s` occurs in `s` where `a` starts. */
  lemma SliceOfSuffix(s: string, a: string, r: string)
    requires |a| <= |s| && a == s[|s| - |a|..]
    requires |r| <= |a| && r == a[..|r|]
    ensures OccursAt(s, r, |s| - |a|)
  {
    var k := |s| - |a|;
    forall i | 0 <= i < |r| ensures s[k..k + |r|][i] == r[i] {
      assert r[i] == a[i] == s[k + i];
    }
  }

  /** `s.trim()`: a contiguous piece of `s` that neither starts nor ends with white space,
      with only white space before and after it; empty exactly when `s` is blank. */
  function Trim(s: string): (r: string)
    ensures OccursAt(s, r, |s| - |DropWhile(s, IsWhitespace)|)
    ensures r == [] || (!IsWhitespace(r[0]) && !IsWhitespace(r[|r| - 1]))
    ensures r == [] <==> IsBlank(s)
    ensures All(s[..|s| - |DropWhile(s, IsWhitespace)|], IsWhitespace)
    ensures All(s[|s| - |DropWhile(s, IsWhitespace)| + |r|..], IsWhitespace)
  {
    StripOccurs(s, IsWhitespace);
    StripDropsOnly(s, IsWhitespace);
    StripEnds(s, IsWhitespace);
    StripEmptyIffAll(s, IsWhitespace);
    Strip(s, IsWhitespace)
  }

  /** ASCII `toLowerCase` of one character. */
  function LowerChar(c: char): char {
    if 'A' <= c <= 'Z' then (c as int + 32) as char else c
  }

  /** `s.toLowerCase()`, restricted to the ASCII letters. */
  function ToLower(s: string): (r: string)
    ensures |r| == |s|
    ensures forall i :: 0 <= i < |s| ==> r[i] == LowerChar(s[i])
  {
    seq(|s|, i requires 0 <= i < |s| => LowerChar(s[i]))
  }

  /** Lower-casing twice is lower-casing once. */
  lemma ToLowerIdempotent(s: string)
    ensures ToLower(ToLower(s)) == ToLower(s)
  {
    assert forall i :: 0 <= i < |s| ==> LowerChar(LowerChar(s[i])) == LowerChar(s[i]);
  }

  /** `hay.includes(needle)`: `needle` occurs in `hay` at some position. Every string
      includes itself, and none includes a longer one. */
  function Contains(hay: string, needle: string): (r: bool)
    ensures needle == hay ==> r
    ensures |needle| > |hay| ==> !r
  {
    assert needle == hay ==> OccursAt(hay, needle, 0);
    exists k | 0 <= k <= |hay| :: OccursAt(hay, needle, k)
  }

  /** Every string includes the empty string. */
  lemma ContainsEmpty(hay: string)
    ensures Contains(hay, "")
  {
    assert OccursAt(hay, "", 0);
  }
}

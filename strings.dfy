/**
 * The two Python string methods the caption generator relies on:
 * `str.strip()` (no argument) for cue text and `str.lower()` for the
 * case-insensitive match of file extensions.
 */
module Strings {

  /** Python's `str.isspace` for one code point: the 29 white-space characters of Unicode
      that CPython strips when `strip` is called without an argument. */
  predicate IsSpace(c: char) {
    || ('\t' <= c <= '\r')             // U+0009 .. U+000D
    || ('\U{1C}' <= c <= '\U{1F}')     // file, group, record and unit separators
    || c == ' '
    || c == '\U{85}' || c == '\U{A0}' || c == '\U{1680}'
    || ('\U{2000}' <= c <= '\U{200A}')
    || c == '\U{2028}' || c == '\U{2029}' || c == '\U{202F}' || c == '\U{205F}' || c == '\U{3000}'
  }

  predicate AllSpace(s: string) {
    forall k :: 0 <= k < |s| ==> IsSpace(s[k])
  }

  /** The number of white-space characters at the start of `s`. */
  function LeadingSpaces(s: string): (n: nat)
    ensures n <= |s|
    ensures forall k :: 0 <= k < n ==> IsSpace(s[k])
    ensures n < |s| ==> !IsSpace(s[n])
  {
    if s != [] && IsSpace(s[0]) then 1 + LeadingSpaces(s[1..]) else 0
  }

  /** The number of white-space characters at the end of `s`. */
  function TrailingSpaces(s: string): (n: nat)
    ensures n <= |s|
    ensures forall k :: |s| - n <= k < |s| ==> IsSpace(s[k])
    ensures n < |s| ==> !IsSpace(s[|s| - n - 1])
  {
    if s != [] && IsSpace(s[|s| - 1]) then 1 + TrailingSpaces(s[..|s| - 1]) else 0
  }

  /** Python's `s.strip()`: `s` without its leading and trailing white space. */
  function Strip(s: string): string {
    var t := s[LeadingSpaces(s)..];
    t[..|t| - TrailingSpaces(t)]
  }

  /** `Strip(s)` sits in `s` right after the leading white space. */
  lemma StripWithin(s: string)
    ensures LeadingSpaces(s) + |Strip(s)| <= |s|
    ensures Strip(s) == s[LeadingSpaces(s)..LeadingSpaces(s) + |Strip(s)|]
  {
    var n := LeadingSpaces(s);
    var t := s[n..];
    var j := |t| - TrailingSpaces(t);
    assert Strip(s) == t[..j];
    SliceOfDrop(s, n, j);
  }

  lemma SliceOfDrop(s: string, n: nat, j: nat)
    requires n + j <= |s|
    ensures s[n..][..j] == s[n..n + j]
  {
  }

  /** What follows `Strip(s)` in `s` is white space. */
  lemma StripTrailing(s: string)
    ensures LeadingSpaces(s) + |Strip(s)| <= |s|
    ensures AllSpace(s[LeadingSpaces(s) + |Strip(s)|..])
  {
    var n := LeadingSpaces(s);
    var t := s[n..];
    var m := TrailingSpaces(t);
    var post := s[n + |t| - m..];
    assert post == t[|t| - m..];
    forall j | 0 <= j < |post|
      ensures IsSpace(post[j])
    {
      assert post[j] == t[|t| - m + j];
    }
  }

  /** `Strip(s)` neither starts nor ends with white space. */
  lemma StripEnds(s: string)
    ensures Strip(s) != [] ==> !IsSpace(Strip(s)[0]) && !IsSpace(Strip(s)[|Strip(s)| - 1])
  {
    var n := LeadingSpaces(s);
    var t := s[n..];
    var m := TrailingSpaces(t);
    var r := t[..|t| - m];
    if r != [] {
      assert r[0] == s[n];
      assert r[|r| - 1] == t[|t| - m - 1];
    }
  }

  /** What `Strip` leaves: the part of `s` between a white-space prefix and a white-space
      suffix, neither starting nor ending with white space, and empty exactly when `s` is all
      white space. StripUnique shows that these facts pin the result down. */
  lemma StripSpec(s: string)
    ensures LeadingSpaces(s) + |Strip(s)| <= |s|
    ensures Strip(s) == s[LeadingSpaces(s)..LeadingSpaces(s) + |Strip(s)|]
    ensures AllSpace(s[..LeadingSpaces(s)]) && AllSpace(s[LeadingSpaces(s) + |Strip(s)|..])
    ensures Strip(s) != [] ==> !IsSpace(Strip(s)[0]) && !IsSpace(Strip(s)[|Strip(s)| - 1])
    ensures Strip(s) == [] <==> AllSpace(s)
  {
    StripWithin(s);
    StripTrailing(s);
    StripEnds(s);
    var n := LeadingSpaces(s);
    if AllSpace(s) {
      assert n == |s|;
    }
    if Strip(s) == [] {
      assert n == |s|;
    }
  }

  /** Any way of writing `s` as white space, a core that neither starts nor ends with
      white space, and white space again, has `Strip(s)` as its core. */
  lemma StripUnique(s: string, pre: string, core: string, post: string)
    requires s == pre + core + post
    requires AllSpace(pre) && AllSpace(post)
    requires core != [] ==> !IsSpace(core[0]) && !IsSpace(core[|core| - 1])
    ensures Strip(s) == core
  {
    StripSpec(s);
    var j := |pre| + |core|;
    assert forall k :: 0 <= k < |pre| ==> s[k] == pre[k];
    assert forall k :: j <= k < |s| ==> s[k] == post[k - j];
    assert forall k :: |pre| <= k < j ==> s[k] == core[k - |pre|];
    assert s[|pre|..j] == core;
  }

  /** Stripping twice is stripping once. */
  lemma StripIdempotent(s: string)
    ensures Strip(Strip(s)) == Strip(s)
  {
    var r := Strip(s);
    StripSpec(s);
    assert r == [] + r + [];
    StripUnique(r, [], r, []);
  }

  /** Python's `str.lower()` on one code point, for the code points whose lower-case form is a
      single ASCII letter: `A`..`Z`, and the KELVIN SIGN U+212A, which lowers to `k`. Every
      other code point is left as it is; see `Lower`. */
  function LowerChar(c: char): (l: char)
    ensures 'A' <= c <= 'Z' ==> l as int == c as int + 32
    ensures !('A' <= l <= 'Z') && l != '\U{212A}'
    ensures l as int < 128 ==> c == l || ('A' <= c <= 'Z' && l as int == c as int + 32) || (c == '\U{212A}' && l == 'k')
  {
    if 'A' <= c <= 'Z' then (c as int + 32) as char
    else if c == '\U{212A}' then 'k'
    else c
  }

  /** `s.lower()` as far as comparing the result with an ASCII lower-case string goes. */
  function Lower(s: string): (r: string)
    ensures |r| == |s|
    ensures forall k :: 0 <= k < |s| ==> r[k] == LowerChar(s[k])
  {
    if s == [] then [] else [LowerChar(s[0])] + Lower(s[1..])
  }

  /** Lowering what is already lowered changes nothing. */
  lemma LowerIdempotent(s: string)
    ensures Lower(Lower(s)) == Lower(s)
  {
  }
}

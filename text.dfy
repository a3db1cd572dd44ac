/** The two Python string methods the index relies on: `str.lower()` (modelled on
    ASCII letters only, so that it keeps every offset in place) and `str.strip()`. */
module Text {

  /** A letter or digit that the tokenizer keeps: the character class `[a-z0-9]`. */
  predicate IsWordChar(c: char) {
    'a' <= c <= 'z' || '0' <= c <= '9'
  }

  predicate IsUpper(c: char) {
    'A' <= c <= 'Z'
  }

  /** Lower-cases an ASCII capital and leaves every other character alone. */
  function ToLower(c: char): (d: char)
    ensures IsUpper(c) ==> 'a' <= d <= 'z' && d as int - c as int == 32
    ensures !IsUpper(c) ==> d == c
  {
    if IsUpper(c) then (c as int + 32) as char else c
  }

  /** `text.lower()`, one character for one character. */
  function Lower(s: string): (r: string)
    ensures |r| == |s|
    ensures forall i :: 0 <= i < |s| ==> r[i] == ToLower(s[i])
  {
    seq(|s|, i requires 0 <= i < |s| => ToLower(s[i]))
  }

  lemma LowerIdempotent(s: string)
    ensures Lower(Lower(s)) == Lower(s)
  {
    assert forall i :: 0 <= i < |s| ==> ToLower(ToLower(s[i])) == ToLower(s[i]);
  }

  /** The characters `str.strip()` removes: those for which Python's `str.isspace()`
      holds (tab through carriage return, the four information separators, space,
      NEL, no-break space and the Unicode space separators and line/paragraph
      separators). */
  predicate IsSpace(c: char) {
    '\t' <= c <= '\r' || '\U{1C}' <= c <= ' ' || c == '\U{85}' || c == '\U{A0}'
    || c == '\U{1680}' || '\U{2000}' <= c <= '\U{200A}' || c == '\U{2028}'
    || c == '\U{2029}' || c == '\U{202F}' || c == '\U{205F}' || c == '\U{3000}'
  }

  /** The first position from `lo` on that is not whitespace, or `|s|`. */
  function LeadingSpace(s: string, lo: nat): (n: nat)
    requires lo <= |s|
    ensures lo <= n <= |s|
    ensures forall k :: lo <= k < n ==> IsSpace(s[k])
    ensures n < |s| ==> !IsSpace(s[n])
    decreases |s| - lo
  {
    if lo == |s| || !IsSpace(s[lo]) then lo else LeadingSpace(s, lo + 1)
  }

  /** The end of `s[lo..hi]` once its closing whitespace is dropped. */
  function TrailingStart(s: string, lo: nat, hi: nat): (n: nat)
    requires lo <= hi <= |s|
    ensures lo <= n <= hi
    ensures forall k :: n <= k < hi ==> IsSpace(s[k])
    ensures n > lo ==> !IsSpace(s[n - 1])
    decreases hi
  {
    if hi == lo || !IsSpace(s[hi - 1]) then hi else TrailingStart(s, lo, hi - 1)
  }

  /** The half-open range `[lo, hi)` of `s` that `s.strip()` keeps: everything
      outside it is whitespace, its end characters are not, and a string of
      whitespace only keeps nothing. */
  function StripRange(s: string): (b: (nat, nat))
    ensures b.0 <= b.1 <= |s|
    ensures forall k :: 0 <= k < b.0 ==> IsSpace(s[k])
    ensures forall k :: b.1 <= k < |s| ==> IsSpace(s[k])
    ensures b.0 < b.1 ==> !IsSpace(s[b.0]) && !IsSpace(s[b.1 - 1])
    ensures b.0 == b.1 ==> b.0 == |s|
  {
    var lo := LeadingSpace(s, 0);
    (lo, TrailingStart(s, lo, |s|))
  }

  /** `s.strip()`. */
  function Strip(s: string): (r: string)
    ensures |r| <= |s|
    ensures r != [] ==> !IsSpace(r[0]) && !IsSpace(r[|r| - 1])
  {
    s[StripRange(s).0..StripRange(s).1]
  }

  /** Stripping gives the empty string exactly when `s` is all whitespace. */
  lemma StripEmptyIff(s: string)
    ensures Strip(s) == [] <==> forall k :: 0 <= k < |s| ==> IsSpace(s[k])
  {
    var b := StripRange(s);
    if Strip(s) != [] {
      assert !IsSpace(s[b.0]);
    }
  }

  /** A piece of a piece of `s` is a piece of `s`. */
  lemma SliceOfSlice(s: string, start: nat, end: nat, i: nat, j: nat)
    requires start <= end <= |s| && i <= j <= end - start
    ensures s[start..end][i..j] == s[start + i..start + j]
  {
    var inner, outer := s[start..end][i..j], s[start + i..start + j];
    forall k | 0 <= k < j - i ensures inner[k] == outer[k] {
      assert inner[k] == s[start..end][i + k];
    }
  }

  /** Stripping a piece `s[start..end]` keeps a piece `s[lo..hi]` inside it,
      and what it drops is whitespace. */
  lemma StripOfSlice(s: string, start: nat, end: nat) returns (lo: nat, hi: nat)
    requires start <= end <= |s|
    ensures start <= lo <= hi <= end
    ensures Strip(s[start..end]) == s[lo..hi]
    ensures forall k :: start <= k < lo ==> IsSpace(s[k])
    ensures forall k :: hi <= k < end ==> IsSpace(s[k])
    ensures lo < hi ==> !IsSpace(s[lo]) && !IsSpace(s[hi - 1])
  {
    var cut := s[start..end];
    var b := StripRange(cut);
    lo, hi := start + b.0, start + b.1;
    assert Strip(cut) == cut[b.0..b.1];
    SliceOfSlice(s, start, end, b.0, b.1);
    forall k | start <= k < lo ensures IsSpace(s[k]) {
      assert IsSpace(cut[k - start]);
    }
    forall k | hi <= k < end ensures IsSpace(s[k]) {
      assert IsSpace(cut[k - start]);
    }
    if lo < hi {
      assert cut[b.0] == s[lo];
      assert cut[b.1 - 1] == s[hi - 1];
    }
  }
}

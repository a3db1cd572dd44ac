/** `make_snippet` (bm25_index.py): a short excerpt of a document's text around
    the earliest place any query term occurs in it, or its opening when none does. */
module Snippets {
  import opened Options
  import opened Text
  import opened PySeq
  import opened Tokenizer

  /** The marker added where the excerpt cuts text off: U+2026, HORIZONTAL ELLIPSIS. */
  const Ellipsis: char := '\U{2026}'

  /** The default `window` of `make_snippet`. */
  const DefaultWindow: int := 240

  /** `needle` occurs in `hay` starting at offset `p`. */
  predicate OccursAt(hay: string, needle: string, p: int) {
    0 <= p && p + |needle| <= |hay| && hay[p..p + |needle|] == needle
  }

  /** `hay.find(needle, i)` restricted to `i >= 0`: the least offset from `i` on
      where `needle` occurs, or -1. */
  function FindFrom(hay: string, needle: string, i: nat): (r: int)
    ensures r == -1 <==> forall p :: i <= p ==> !OccursAt(hay, needle, p)
    ensures r != -1 ==> i <= r && OccursAt(hay, needle, r)
    ensures r != -1 ==> forall p :: i <= p < r ==> !OccursAt(hay, needle, p)
    decreases |hay| - i
  {
    if i + |needle| > |hay| then -1
    else if hay[i..i + |needle|] == needle then assert OccursAt(hay, needle, i); i
    else FindFrom(hay, needle, i + 1)
  }

  /** `hay.find(needle)`: the least offset where `needle` occurs, or -1 when it
      occurs nowhere (the empty needle occurs at 0). */
  function Find(hay: string, needle: string): (r: int)
    ensures r == -1 <==> forall p :: 0 <= p ==> !OccursAt(hay, needle, p)
    ensures r != -1 ==> OccursAt(hay, needle, r)
    ensures r != -1 ==> forall p :: 0 <= p < r ==> !OccursAt(hay, needle, p)
  {
    FindFrom(hay, needle, 0)
  }

  /** One step of the search loop: keep `best`, unless `pos` is a match that
      comes strictly earlier. */
  function Earlier(best: Option<nat>, pos: int): Option<nat>
    requires pos >= -1
  {
    if pos != -1 && (best.None? || pos < best.value) then Some(pos) else best
  }

  /** `best_pos` after the loop over `toks`: the last token is looked up last.
      A result is always the offset `find` gives for one of the tokens, and so
      lies within `hay`. */
  function EarliestMatch(hay: string, toks: seq<string>): (r: Option<nat>)
    ensures r.Some? ==> exists i :: 0 <= i < |toks| && Find(hay, toks[i]) == r.value
    ensures r.Some? ==> r.value <= |hay|
    decreases |toks|
  {
    if toks == [] then None
    else
      var init := toks[..|toks| - 1];
      assert forall i :: 0 <= i < |init| ==> init[i] == toks[i];
      Earlier(EarliestMatch(hay, init), Find(hay, toks[|toks| - 1]))
  }

  /** The loop finds nothing exactly when no token occurs anywhere in `hay`. */
  lemma {:induction false} EarliestMatchNone(hay: string, toks: seq<string>)
    ensures EarliestMatch(hay, toks).None? <==>
      forall i, p :: 0 <= i < |toks| && 0 <= p ==> !OccursAt(hay, toks[i], p)
    decreases |toks|
  {
    if toks != [] {
      var init, last := toks[..|toks| - 1], toks[|toks| - 1];
      EarliestMatchNone(hay, init);
      assert forall i :: 0 <= i < |init| ==> toks[i] == init[i];
      assert EarliestMatch(hay, toks) == Earlier(EarliestMatch(hay, init), Find(hay, last));
    }
  }

  /** No token occurs before the offset the loop finds. */
  lemma {:induction false} EarliestMatchLeast(hay: string, toks: seq<string>)
    ensures EarliestMatch(hay, toks).Some? ==>
      forall i, p :: 0 <= i < |toks| && OccursAt(hay, toks[i], p) ==>
        EarliestMatch(hay, toks).value <= p
    decreases |toks|
  {
    if toks != [] {
      var init, last := toks[..|toks| - 1], toks[|toks| - 1];
      EarliestMatchLeast(hay, init);
      EarliestMatchNone(hay, init);
      var prev, pos := EarliestMatch(hay, init), Find(hay, last);
      var r := EarliestMatch(hay, toks);
      assert r == Earlier(prev, pos);
      if r.Some? {
        forall i, p | 0 <= i < |toks| && OccursAt(hay, toks[i], p)
          ensures r.value <= p
        {
          if i < |init| {
            assert toks[i] == init[i];
            assert prev.Some? && prev.value <= p;
          } else {
            assert pos != -1 && pos <= p;
          }
        }
      }
    }
  }

  /** The loop finds the earliest match: None exactly when no token occurs in
      `hay`, and otherwise an offset where some token occurs and before which no
      token occurs. */
  lemma EarliestMatchIsEarliest(hay: string, toks: seq<string>)
    ensures EarliestMatch(hay, toks).None? <==>
      forall i, p :: 0 <= i < |toks| && 0 <= p ==> !OccursAt(hay, toks[i], p)
    ensures EarliestMatch(hay, toks).Some? ==>
      exists i :: 0 <= i < |toks| && OccursAt(hay, toks[i], EarliestMatch(hay, toks).value)
    ensures EarliestMatch(hay, toks).Some? ==>
      forall i, p :: 0 <= i < |toks| && OccursAt(hay, toks[i], p) ==>
        EarliestMatch(hay, toks).value <= p
  {
    EarliestMatchNone(hay, toks);
    EarliestMatchLeast(hay, toks);
  }

  function Max(a: int, b: int): int { if a < b then b else a }
  function Min(a: int, b: int): int { if a < b then a else b }

  /** The start of the cut around a match at `pos`. */
  function CutStart(pos: nat, window: int): int {
    Max(0, pos - window / 2)
  }

  /** The end of the cut around a match at `pos`, in a text of length `n`. */
  function CutEnd(n: nat, pos: nat, window: int): int {
    Min(n, pos + window / 2)
  }

  /** An ellipsis where text was cut off, nothing otherwise. */
  function Mark(cut: bool): string {
    if cut then [Ellipsis] else []
  }

  /** The cut around a match inside the text keeps at most `window` characters. */
  lemma CutLength(text: string, pos: nat, window: int)
    requires pos <= |text|
    ensures window >= 0 ==>
      |Strip(Slice(text, CutStart(pos, window), CutEnd(|text|, pos, window)))| <= window
  {
    var start, end := CutStart(pos, window), CutEnd(|text|, pos, window);
    if window >= 0 {
      assert Slice(text, start, end) == text[start..end];
    }
  }

  /** `make_snippet(text, toks, window)`.  Python's `//` by 2 is Dafny's `/` by 2,
      both rounding down. */
  function Snippet(text: string, toks: seq<string>, window: int): (r: string)
    ensures |r| <= |text| + 2
    ensures window >= 0 ==> |r| <= window + 2
  {
    match EarliestMatch(Lower(text), toks)
    case None =>
      if |text| > window then Take(text, window) + [Ellipsis] else text
    case Some(pos) =>
      var start, end := CutStart(pos, window), CutEnd(|text|, pos, window);
      CutLength(text, pos, window);
      Mark(start > 0) + Strip(Slice(text, start, end)) + Mark(end < |text|)
  }

  /** The loop of `make_snippet` over the query tokens: each is looked up in
      turn and an earlier match replaces the best so far. */
  method FirstMatch(lower: string, toks: seq<string>) returns (best: Option<nat>)
    ensures best == EarliestMatch(lower, toks)
  {
    best := None;
    for i := 0 to |toks|
      invariant best == EarliestMatch(lower, toks[..i])
    {
      var pos := Find(lower, toks[i]);
      assert toks[..i + 1][..i] == toks[..i];
      best := Earlier(best, pos);
    }
    assert toks[..|toks|] == toks;
  }

  /** `make_snippet(text, toks, window)`: the search loop, followed by the cut. */
  method MakeSnippet(text: string, toks: seq<string>, window: int) returns (snippet: string)
    ensures snippet == Snippet(text, toks, window)
  {
    var best := FirstMatch(Lower(text), toks);
    match best
    case None =>
      snippet := if |text| > window then Take(text, window) + [Ellipsis] else text;
    case Some(pos) =>
      var start := CutStart(pos, window);
      var end := CutEnd(|text|, pos, window);
      var body := Strip(Slice(text, start, end));
      snippet := body;
      if start > 0 {
        snippet := [Ellipsis] + snippet;
      }
      if end < |text| {
        snippet := snippet + [Ellipsis];
      }
      assert snippet == Mark(start > 0) + body + Mark(end < |text|);
  }

  /** When no query term occurs (there may be none at all), the excerpt is the
      text itself if it fits the window, else its first `window` characters and
      an ellipsis. */
  lemma SnippetNoMatch(text: string, toks: seq<string>, window: int)
    requires window >= 0
    requires forall i, p :: 0 <= i < |toks| && 0 <= p ==> !OccursAt(Lower(text), toks[i], p)
    ensures |text| <= window ==> Snippet(text, toks, window) == text
    ensures |text| > window ==> Snippet(text, toks, window) == text[..window] + [Ellipsis]
  {
    EarliestMatchIsEarliest(Lower(text), toks);
  }

  /** An empty list of query terms gives the opening of the text. */
  lemma SnippetNoTerms(text: string, window: int)
    requires window >= 0
    ensures |text| <= window ==> Snippet(text, [], window) == text
    ensures |text| > window ==> Snippet(text, [], window) == text[..window] + [Ellipsis]
  {
    SnippetNoMatch(text, [], window);
  }

  /** The shape of the excerpt around the earliest match at `pos`: the cut
      `[start, end)` lies inside the text and holds `pos`; the body is the
      contiguous piece `text[lo..hi]` of the cut with the cut's surrounding
      whitespace removed, at most `2 * (window / 2)` long; an ellipsis opens the
      excerpt exactly when `start > 0` and closes it exactly when
      `end < |text|`. */
  lemma SnippetAroundMatch(text: string, toks: seq<string>, window: int, pos: nat)
    returns (start: nat, end: nat, lo: nat, hi: nat)
    requires window >= 0
    requires EarliestMatch(Lower(text), toks) == Some(pos)
    ensures start == CutStart(pos, window) && end == CutEnd(|text|, pos, window)
    ensures start <= pos <= end <= |text|
    ensures start <= lo <= hi <= end
    ensures hi - lo <= 2 * (window / 2)
    ensures Snippet(text, toks, window) == Mark(start > 0) + text[lo..hi] + Mark(end < |text|)
    ensures forall k :: start <= k < lo ==> IsSpace(text[k])
    ensures forall k :: hi <= k < end ==> IsSpace(text[k])
    ensures lo < hi ==> !IsSpace(text[lo]) && !IsSpace(text[hi - 1])
  {
    start, end := CutStart(pos, window), CutEnd(|text|, pos, window);
    assert Slice(text, start, end) == text[start..end];
    lo, hi := StripOfSlice(text, start, end);
  }

  /** Where a token occurs in the lower-cased text, the original text holds no
      whitespace. */
  lemma MatchedTextNotSpace(text: string, t: string, pos: nat)
    requires IsToken(t) && OccursAt(Lower(text), t, pos)
    ensures forall k :: pos <= k < pos + |t| ==> !IsSpace(text[k])
  {
    var lower := Lower(text);
    forall k | pos <= k < pos + |t|
      ensures !IsSpace(text[k])
    {
      assert lower[pos..pos + |t|][k - pos] == t[k - pos];
      assert IsWordChar(ToLower(text[k]));
    }
  }

  /** When the query terms are real tokens (non-empty letters and digits), the
      excerpt keeps the whole matched term wherever the window reaches past its
      end, and always keeps its first character once the window is at least 2. */
  lemma SnippetKeepsMatch(text: string, toks: seq<string>, window: int, pos: nat, i: nat)
    returns (lo: nat, hi: nat)
    requires window >= 0
    requires EarliestMatch(Lower(text), toks) == Some(pos)
    requires i < |toks| && OccursAt(Lower(text), toks[i], pos)
    requires forall j :: 0 <= j < |toks| ==> IsToken(toks[j])
    ensures lo <= hi <= |text|
    ensures Snippet(text, toks, window) ==
      Mark(CutStart(pos, window) > 0) + text[lo..hi] + Mark(CutEnd(|text|, pos, window) < |text|)
    ensures window >= 2 ==> lo <= pos < hi
    ensures pos + |toks[i]| <= CutEnd(|text|, pos, window) ==> lo <= pos && pos + |toks[i]| <= hi
  {
    var start, end;
    start, end, lo, hi := SnippetAroundMatch(text, toks, window, pos);
    var t := toks[i];
    assert IsToken(t);
    MatchedTextNotSpace(text, t, pos);
    assert pos < pos + |t| <= |text|;
    assert !IsSpace(text[pos]);
    if pos + |t| <= end {
      assert !IsSpace(text[pos + |t| - 1]);
    }
  }
}

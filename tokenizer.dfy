/** `tokenize` (bm25_index.py): lower-case the text, then return every maximal run
    of `[a-z0-9]` in order, which is what `re.findall` does with that pattern. */
module Tokenizer {
  import opened Text

  /** A term as the tokenizer produces it: non-empty, letters `a-z` and digits only. */
  predicate IsToken(t: string) {
    |t| > 0 && forall k :: 0 <= k < |t| ==> IsWordChar(t[k])
  }

  /** The length of the run of word characters that opens `s`. */
  function RunLength(s: string): (n: nat)
    ensures n <= |s|
    ensures forall k :: 0 <= k < n ==> IsWordChar(s[k])
    ensures n < |s| ==> !IsWordChar(s[n])
  {
    if s == [] || !IsWordChar(s[0]) then 0 else 1 + RunLength(s[1..])
  }

  /** The maximal runs of word characters of `s`, left to right. */
  function Runs(s: string): (ts: seq<string>)
    ensures forall i :: 0 <= i < |ts| ==> IsToken(ts[i])
    decreases |s|
  {
    if s == [] then []
    else if !IsWordChar(s[0]) then Runs(s[1..])
    else
      var n := RunLength(s);
      [s[..n]] + Runs(s[n..])
  }

  /** `tokenize(text)`. */
  function Tokenize(text: string): (ts: seq<string>)
    ensures forall i :: 0 <= i < |ts| ==> IsToken(ts[i])
  {
    Runs(Lower(text))
  }

  /** `" ".join(ts)`. */
  function Join(ts: seq<string>): string {
    if ts == [] then []
    else if |ts| == 1 then ts[0]
    else ts[0] + " " + Join(ts[1..])
  }

  /** The concatenation of all the strings of `ts`. */
  function Concat(ts: seq<string>): string {
    if ts == [] then [] else ts[0] + Concat(ts[1..])
  }

  /** The word characters of `s`, in order. */
  function WordChars(s: string): string {
    if s == [] then []
    else (if IsWordChar(s[0]) then [s[0]] else []) + WordChars(s[1..])
  }

  /** A reference tokenizer: one left-to-right pass that extends the current run
      `cur` on a word character and closes it on any other character. */
  function Scan(s: string, cur: string, acc: seq<string>): seq<string>
    decreases |s|
  {
    if s == [] then (if cur == [] then acc else acc + [cur])
    else if IsWordChar(s[0]) then Scan(s[1..], cur + [s[0]], acc)
    else Scan(s[1..], [], if cur == [] then acc else acc + [cur])
  }

  lemma TokenizeEmpty()
    ensures Tokenize("") == []
  {
  }

  /** A run that a non-word character closes is exactly that run. */
  lemma RunLengthClosed(t: string, rest: string)
    requires forall k :: 0 <= k < |t| ==> IsWordChar(t[k])
    requires rest != [] ==> !IsWordChar(rest[0])
    ensures RunLength(t + rest) == |t|
  {
    assert forall k :: 0 <= k < |t| ==> (t + rest)[k] == t[k];
    assert rest != [] ==> (t + rest)[|t|] == rest[0];
  }

  /** A leading run of word characters is peeled off as one token. */
  lemma {:induction false} RunsOpenRun(t: string, rest: string)
    requires |t| > 0 && forall k :: 0 <= k < |t| ==> IsWordChar(t[k])
    requires rest != [] ==> !IsWordChar(rest[0])
    ensures Runs(t + rest) == [t] + Runs(rest)
  {
    RunLengthClosed(t, rest);
    var s := t + rest;
    assert s[0] == t[0];
    assert s[..|t|] == t;
    assert s[|t|..] == rest;
    if rest != [] {
      assert Runs(rest) == Runs(rest[1..]);
    }
  }

  /** The pass `Scan` computes the same tokens as `Runs`: with `cur` the run read so
      far, it yields `acc` followed by the runs of `cur + s`. */
  lemma {:induction false} ScanRuns(s: string, cur: string, acc: seq<string>)
    requires forall k :: 0 <= k < |cur| ==> IsWordChar(cur[k])
    ensures Scan(s, cur, acc) == acc + Runs(cur + s)
    decreases |s|
  {
    if s == [] {
      assert cur + s == cur;
      if cur != [] {
        RunsOpenRun(cur, []);
        assert cur + [] == cur;
      }
    } else if IsWordChar(s[0]) {
      ScanRuns(s[1..], cur + [s[0]], acc);
      assert (cur + [s[0]]) + s[1..] == cur + s;
    } else {
      if cur == [] {
        ScanRuns(s[1..], [], acc);
        assert [] + s[1..] == s[1..];
        assert cur + s == s;
      } else {
        ScanRuns(s[1..], [], acc + [cur]);
        assert [] + s[1..] == s[1..];
        RunsOpenRun(cur, s);
      }
    }
  }

  /** Tokenizing agrees with the one-pass reference scanner. */
  lemma TokenizeIsScan(text: string)
    ensures Tokenize(text) == Scan(Lower(text), [], [])
  {
    ScanRuns(Lower(text), [], []);
    assert [] + Lower(text) == Lower(text);
  }

  /** Nothing but the separators is dropped: the tokens, glued together, are the
      word characters of the lower-cased text in their original order. */
  lemma {:induction false} RunsCoverWordChars(s: string)
    ensures Concat(Runs(s)) == WordChars(s)
    decreases |s|
  {
    if s == [] {
    } else if !IsWordChar(s[0]) {
      RunsCoverWordChars(s[1..]);
    } else {
      var n := RunLength(s);
      RunsCoverWordChars(s[n..]);
      WordCharsOfRun(s, n);
      assert [s[..n]] + Runs(s[n..]) == Runs(s);
      assert ([s[..n]] + Runs(s[n..]))[1..] == Runs(s[n..]);
    }
  }

  /** Splitting off a prefix of word characters keeps all of it. */
  lemma {:induction false} WordCharsOfRun(s: string, n: nat)
    requires n <= |s|
    requires forall k :: 0 <= k < n ==> IsWordChar(s[k])
    ensures WordChars(s) == s[..n] + WordChars(s[n..])
    decreases n
  {
    if n > 0 {
      WordCharsOfRun(s[1..], n - 1);
      assert s[1..][n - 1..] == s[n..];
      assert s[..n] == [s[0]] + s[1..][..n - 1];
    }
  }

  lemma TokensCoverWordChars(text: string)
    ensures Concat(Tokenize(text)) == WordChars(Lower(text))
  {
    RunsCoverWordChars(Lower(text));
  }

  /** Tokenization ignores case. */
  lemma TokenizeIgnoresCase(text: string)
    ensures Tokenize(Lower(text)) == Tokenize(text)
  {
    LowerIdempotent(text);
  }

  /** Every character of a space-joined list of tokens is a word character or a space. */
  lemma {:induction false} JoinChars(ts: seq<string>)
    requires forall i :: 0 <= i < |ts| ==> IsToken(ts[i])
    ensures forall k :: 0 <= k < |Join(ts)| ==> IsWordChar(Join(ts)[k]) || Join(ts)[k] == ' '
  {
    if |ts| > 1 {
      JoinChars(ts[1..]);
      var t, rest := ts[0], Join(ts[1..]);
      assert Join(ts) == t + (" " + rest);
      forall k | 0 <= k < |Join(ts)|
        ensures IsWordChar(Join(ts)[k]) || Join(ts)[k] == ' '
      {
        if k < |t| {
          assert Join(ts)[k] == t[k];
        } else if k > |t| {
          assert Join(ts)[k] == rest[k - |t| - 1];
        }
      }
    } else if |ts| == 1 {
      assert IsToken(ts[0]);
    }
  }

  /** Splitting a space-joined list of tokens gives the list back. */
  lemma {:induction false} RunsOfJoin(ts: seq<string>)
    requires forall i :: 0 <= i < |ts| ==> IsToken(ts[i])
    ensures Runs(Join(ts)) == ts
  {
    if |ts| == 1 {
      assert IsToken(ts[0]);
      RunsOpenRun(ts[0], []);
      assert ts[0] + [] == ts[0];
    } else if |ts| > 1 {
      var rest := Join(ts[1..]);
      assert IsToken(ts[0]);
      RunsOpenRun(ts[0], " " + rest);
      assert Join(ts) == ts[0] + (" " + rest);
      assert (" " + rest)[1..] == rest;
      RunsOfJoin(ts[1..]);
    }
  }

  /** Joining the tokens with spaces and tokenizing again gives the same tokens. */
  lemma TokenizeJoinRoundTrip(text: string)
    ensures Tokenize(Join(Tokenize(text))) == Tokenize(text)
  {
    var ts := Tokenize(text);
    var j := Join(ts);
    JoinChars(ts);
    assert Lower(j) == j by {
      forall k | 0 <= k < |j| ensures Lower(j)[k] == j[k] {
        assert IsWordChar(j[k]) || j[k] == ' ';
      }
    }
    RunsOfJoin(ts);
  }
}

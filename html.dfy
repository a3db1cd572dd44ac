/** `escapeHtml` (static/app.js): five `replaceAll` calls that turn `&`, `<`,
    `>`, `"` and `'` into HTML character references, `&` first. */
module Html {

  /** `s.replaceAll(c, rep)` for a one-character pattern: every occurrence of `c`,
      left to right, becomes `rep`. */
  function ReplaceAll(s: string, c: char, rep: string): (r: string)
    ensures c !in rep ==> c !in r
  {
    if s == [] then [] else (if s[0] == c then rep else [s[0]]) + ReplaceAll(s[1..], c, rep)
  }

  /** `escapeHtml(s)`, applied to a string. */
  function EscapeHtml(s: string): string {
    var amp := ReplaceAll(s, '&', "&amp;");
    var lt := ReplaceAll(amp, '<', "&lt;");
    var gt := ReplaceAll(lt, '>', "&gt;");
    var quot := ReplaceAll(gt, '"', "&quot;");
    ReplaceAll(quot, '\'', "&#039;")
  }

  /** One of the five characters `escapeHtml` rewrites. */
  predicate IsSpecial(c: char) {
    c == '&' || c == '<' || c == '>' || c == '"' || c == '\''
  }

  /** The reference for one character: its character reference, or itself. */
  function EscapeChar(c: char): string {
    if c == '&' then "&amp;"
    else if c == '<' then "&lt;"
    else if c == '>' then "&gt;"
    else if c == '"' then "&quot;"
    else if c == '\'' then "&#039;"
    else [c]
  }

  /** The reference escaper: every character mapped on its own, in order. */
  function EscapeEach(s: string): string {
    if s == [] then [] else EscapeChar(s[0]) + EscapeEach(s[1..])
  }

  /** The decoding of the five character references that `escapeHtml` emits. */
  function Unescape(s: string): string
    decreases |s|
  {
    if s == [] then []
    else if |s| >= 5 && s[..5] == "&amp;" then "&" + Unescape(s[5..])
    else if |s| >= 4 && s[..4] == "&lt;" then "<" + Unescape(s[4..])
    else if |s| >= 4 && s[..4] == "&gt;" then ">" + Unescape(s[4..])
    else if |s| >= 6 && s[..6] == "&quot;" then "\"" + Unescape(s[6..])
    else if |s| >= 6 && s[..6] == "&#039;" then "'" + Unescape(s[6..])
    else [s[0]] + Unescape(s[1..])
  }

  lemma {:induction false} ReplaceAllConcat(a: string, b: string, c: char, rep: string)
    ensures ReplaceAll(a + b, c, rep) == ReplaceAll(a, c, rep) + ReplaceAll(b, c, rep)
    decreases |a|
  {
    if a != [] {
      assert (a + b)[0] == a[0];
      assert (a + b)[1..] == a[1..] + b;
      ReplaceAllConcat(a[1..], b, c, rep);
    } else {
      assert a + b == b;
    }
  }

  lemma {:induction false} ReplaceAllAbsent(s: string, c: char, rep: string)
    requires forall k :: 0 <= k < |s| ==> s[k] != c
    ensures ReplaceAll(s, c, rep) == s
    decreases |s|
  {
    if s != [] {
      ReplaceAllAbsent(s[1..], c, rep);
    }
  }

  lemma EscapeHtmlConcat(a: string, b: string)
    ensures EscapeHtml(a + b) == EscapeHtml(a) + EscapeHtml(b)
  {
    var a1, b1 := ReplaceAll(a, '&', "&amp;"), ReplaceAll(b, '&', "&amp;");
    ReplaceAllConcat(a, b, '&', "&amp;");
    var a2, b2 := ReplaceAll(a1, '<', "&lt;"), ReplaceAll(b1, '<', "&lt;");
    ReplaceAllConcat(a1, b1, '<', "&lt;");
    var a3, b3 := ReplaceAll(a2, '>', "&gt;"), ReplaceAll(b2, '>', "&gt;");
    ReplaceAllConcat(a2, b2, '>', "&gt;");
    var a4, b4 := ReplaceAll(a3, '"', "&quot;"), ReplaceAll(b3, '"', "&quot;");
    ReplaceAllConcat(a3, b3, '"', "&quot;");
    ReplaceAllConcat(a4, b4, '\'', "&#039;");
  }

  /** No character of `s` is in `cs`. */
  predicate Avoids(s: string, cs: set<char>) {
    forall k :: 0 <= k < |s| ==> s[k] !in cs
  }

  /** The four passes after the `&` pass leave alone a string that has none of
      the characters they replace. */
  lemma ReplacementsSkip(s: string)
    requires Avoids(s, {'<', '>', '"', '\''})
    ensures ReplaceAll(ReplaceAll(ReplaceAll(ReplaceAll(s, '<', "&lt;"), '>', "&gt;"),
      '"', "&quot;"), '\'', "&#039;") == s
  {
    ReplaceAllAbsent(s, '<', "&lt;");
    ReplaceAllAbsent(s, '>', "&gt;");
    ReplaceAllAbsent(s, '"', "&quot;");
    ReplaceAllAbsent(s, '\'', "&#039;");
  }

  /** The `>`, `"` and `'` passes leave alone a string that has none of those
      characters. */
  lemma LastPassesSkip(s: string)
    requires Avoids(s, {'>', '"', '\''})
    ensures ReplaceAll(ReplaceAll(ReplaceAll(s, '>', "&gt;"), '"', "&quot;"), '\'', "&#039;") == s
  {
    ReplaceAllAbsent(s, '>', "&gt;");
    ReplaceAllAbsent(s, '"', "&quot;");
    ReplaceAllAbsent(s, '\'', "&#039;");
  }

  /** The two quote passes leave alone a string that has no quote. */
  lemma QuotePassesSkip(s: string)
    requires Avoids(s, {'"', '\''})
    ensures ReplaceAll(ReplaceAll(s, '"', "&quot;"), '\'', "&#039;") == s
  {
    ReplaceAllAbsent(s, '"', "&quot;");
    ReplaceAllAbsent(s, '\'', "&#039;");
  }

  lemma ReplaceAllSingle(c: char, d: char, rep: string)
    ensures ReplaceAll([c], d, rep) == if c == d then rep else [c]
  {
    assert [c][1..] == [];
  }

  /** `&` becomes `&amp;`, which none of the later passes touches. */
  lemma EscapeAmp()
    ensures EscapeHtml("&") == "&amp;"
  {
    var amp := ReplaceAll("&", '&', "&amp;");
    ReplaceAllSingle('&', '&', "&amp;");
    assert amp == "&amp;";
    ReplacementsSkip(amp);
  }

  lemma EscapeLt()
    ensures EscapeHtml("<") == "&lt;"
  {
    var amp := ReplaceAll("<", '&', "&amp;");
    ReplaceAllSingle('<', '&', "&amp;");
    assert amp == "<";
    var lt := ReplaceAll(amp, '<', "&lt;");
    ReplaceAllSingle('<', '<', "&lt;");
    assert lt == "&lt;";
    LastPassesSkip(lt);
  }

  lemma EscapeGt()
    ensures EscapeHtml(">") == "&gt;"
  {
    var amp := ReplaceAll(">", '&', "&amp;");
    ReplaceAllSingle('>', '&', "&amp;");
    var lt := ReplaceAll(amp, '<', "&lt;");
    ReplaceAllSingle('>', '<', "&lt;");
    var gt := ReplaceAll(lt, '>', "&gt;");
    ReplaceAllSingle('>', '>', "&gt;");
    assert gt == "&gt;";
    QuotePassesSkip(gt);
  }

  lemma EscapeQuot()
    ensures EscapeHtml("\"") == "&quot;"
  {
    var amp := ReplaceAll("\"", '&', "&amp;");
    ReplaceAllSingle('"', '&', "&amp;");
    var lt := ReplaceAll(amp, '<', "&lt;");
    ReplaceAllSingle('"', '<', "&lt;");
    var gt := ReplaceAll(lt, '>', "&gt;");
    ReplaceAllSingle('"', '>', "&gt;");
    var quot := ReplaceAll(gt, '"', "&quot;");
    ReplaceAllSingle('"', '"', "&quot;");
    assert quot == "&quot;";
    ReplaceAllAbsent(quot, '\'', "&#039;");
  }

  lemma EscapeApos()
    ensures EscapeHtml("'") == "&#039;"
  {
    var amp := ReplaceAll("'", '&', "&amp;");
    ReplaceAllSingle('\'', '&', "&amp;");
    var lt := ReplaceAll(amp, '<', "&lt;");
    ReplaceAllSingle('\'', '<', "&lt;");
    var gt := ReplaceAll(lt, '>', "&gt;");
    ReplaceAllSingle('\'', '>', "&gt;");
    var quot := ReplaceAll(gt, '"', "&quot;");
    ReplaceAllSingle('\'', '"', "&quot;");
    ReplaceAllSingle('\'', '\'', "&#039;");
  }

  /** On one character the chain of replacements gives that character's
      reference: each reference is written after the `&` pass and contains none
      of the characters the later passes look for. */
  lemma EscapeHtmlChar(c: char)
    ensures EscapeHtml([c]) == EscapeChar(c)
  {
    if c == '&' {
      EscapeAmp();
    } else if c == '<' {
      EscapeLt();
    } else if c == '>' {
      EscapeGt();
    } else if c == '"' {
      EscapeQuot();
    } else if c == '\'' {
      EscapeApos();
    } else {
      ReplaceAllSingle(c, '&', "&amp;");
      ReplaceAllSingle(c, '<', "&lt;");
      ReplaceAllSingle(c, '>', "&gt;");
      ReplaceAllSingle(c, '"', "&quot;");
      ReplaceAllSingle(c, '\'', "&#039;");
    }
  }

  /** Replacing `&` first means no reference is escaped again: the chain equals
      the per-character mapping. */
  lemma {:induction false} EscapeHtmlIsPerChar(s: string)
    ensures EscapeHtml(s) == EscapeEach(s)
    decreases |s|
  {
    if s == [] {
    } else {
      assert s == [s[0]] + s[1..];
      EscapeHtmlConcat([s[0]], s[1..]);
      EscapeHtmlChar(s[0]);
      EscapeHtmlIsPerChar(s[1..]);
    }
  }

  /** The escaped text holds no `<`, `>`, `"` or `'`, so it can sit inside an
      element or a quoted attribute. */
  lemma {:induction false} EscapeEachHasNoMarkup(s: string)
    ensures forall k :: 0 <= k < |EscapeEach(s)| ==> EscapeEach(s)[k] !in {'<', '>', '"', '\''}
    decreases |s|
  {
    if s != [] {
      EscapeEachHasNoMarkup(s[1..]);
      var head, tail := EscapeChar(s[0]), EscapeEach(s[1..]);
      assert forall k :: 0 <= k < |head| ==> head[k] !in {'<', '>', '"', '\''};
      forall k | 0 <= k < |head + tail|
        ensures (head + tail)[k] !in {'<', '>', '"', '\''}
      {
        if k >= |head| {
          assert (head + tail)[k] == tail[k - |head|];
        }
      }
    }
  }

  lemma EscapeHtmlHasNoMarkup(s: string)
    ensures forall k :: 0 <= k < |EscapeHtml(s)| ==> EscapeHtml(s)[k] !in {'<', '>', '"', '\''}
  {
    EscapeHtmlIsPerChar(s);
    EscapeEachHasNoMarkup(s);
  }

  /** How many characters escaping `c` adds. */
  function Growth(c: char): nat {
    if c == '&' then 4 else if c == '<' || c == '>' then 3 else if c == '"' || c == '\'' then 5 else 0
  }

  /** How often `x` occurs in `[c] + rest`. */
  lemma CountCons(c: char, rest: string, x: char)
    ensures multiset([c] + rest)[x] == multiset(rest)[x] + (if c == x then 1 else 0)
  {
    assert multiset([c] + rest) == multiset{c} + multiset(rest);
  }

  /** Each `&` adds 4 characters, each `<` or `>` adds 3 and each quote adds 5. */
  lemma {:induction false} EscapeEachLength(s: string)
    ensures |EscapeEach(s)| == |s| + 4 * multiset(s)['&'] + 3 * multiset(s)['<']
      + 3 * multiset(s)['>'] + 5 * multiset(s)['"'] + 5 * multiset(s)['\'']
    decreases |s|
  {
    if s != [] {
      var c, rest := s[0], s[1..];
      assert s == [c] + rest;
      EscapeEachLength(rest);
      CountCons(c, rest, '&');
      CountCons(c, rest, '<');
      CountCons(c, rest, '>');
      CountCons(c, rest, '"');
      CountCons(c, rest, '\'');
      assert |EscapeChar(c)| == 1 + Growth(c);
    }
  }

  lemma EscapeHtmlLength(s: string)
    ensures |EscapeHtml(s)| == |s| + 4 * multiset(s)['&'] + 3 * multiset(s)['<']
      + 3 * multiset(s)['>'] + 5 * multiset(s)['"'] + 5 * multiset(s)['\'']
  {
    EscapeHtmlIsPerChar(s);
    EscapeEachLength(s);
  }

  /** A string with none of the five characters comes back unchanged; in
      particular the empty string does. */
  lemma {:induction false} EscapeHtmlPlain(s: string)
    requires forall k :: 0 <= k < |s| ==> !IsSpecial(s[k])
    ensures EscapeHtml(s) == s
  {
    EscapeHtmlIsPerChar(s);
    EscapeEachPlain(s);
  }

  lemma {:induction false} EscapeEachPlain(s: string)
    requires forall k :: 0 <= k < |s| ==> !IsSpecial(s[k])
    ensures EscapeEach(s) == s
    decreases |s|
  {
    if s != [] {
      EscapeEachPlain(s[1..]);
      assert s == [s[0]] + s[1..];
    }
  }

  /** Escaping loses nothing: decoding the five references gives the input back. */
  lemma {:induction false} UnescapeEscapeHtml(s: string)
    ensures Unescape(EscapeHtml(s)) == s
  {
    EscapeHtmlIsPerChar(s);
    UnescapeEscapeEach(s);
  }

  /** Decoding reads back the first escaped character and goes on after it. */
  lemma UnescapeStep(c: char, rest: string)
    ensures Unescape(EscapeChar(c) + rest) == [c] + Unescape(rest)
  {
    var e := EscapeChar(c);
    var t := e + rest;
    assert t[..|e|] == e && t[|e|..] == rest;
    if !IsSpecial(c) {
      UnescapeOther(c, rest);
    } else if c == '<' || c == '>' {
      assert |t| >= 5 ==> t[..5][1] != 'a';
    } else if c == '"' {
      assert t[..5][1] != 'a';
      assert t[..4][1] != 'l' && t[..4][1] != 'g';
    } else if c == '\'' {
      UnescapeApos(rest);
    }
  }

  lemma UnescapeOther(c: char, rest: string)
    requires c != '&'
    ensures Unescape([c] + rest) == [c] + Unescape(rest)
  {
    var t := [c] + rest;
    assert t[0] == c && t[1..] == rest;
    assert |t| >= 4 ==> t[..4][0] == c;
    assert |t| >= 5 ==> t[..5][0] == c;
    assert |t| >= 6 ==> t[..6][0] == c;
  }

  lemma UnescapeApos(rest: string)
    ensures Unescape("&#039;" + rest) == "'" + Unescape(rest)
  {
    var t := "&#039;" + rest;
    assert t[..6] == "&#039;" && t[6..] == rest;
    assert t[..5][1] == '#' && t[..4][1] == '#';
  }

  lemma {:induction false} UnescapeEscapeEach(s: string)
    ensures Unescape(EscapeEach(s)) == s
    decreases |s|
  {
    if s != [] {
      UnescapeEscapeEach(s[1..]);
      UnescapeStep(s[0], EscapeEach(s[1..]));
      assert s == [s[0]] + s[1..];
    }
  }
}

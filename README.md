# BM25 document search: tokenizer, snippets, index state and ranking

This project models the search core of a small document search demo and proves properties of it. Documents (text pulled out of PDFs) are added to an in-memory `BM25Index`. A query is tokenized, every document gets a BM25 score, the best ones are picked by stable descending sort, and each result carries an excerpt around the first match. The browser escapes what it shows with `escapeHtml`.

Modules, one per part of the source:

- `PySeq` (pyseq.dfy): Python slicing `s[lo:hi]` and `s[:hi]`. Negative bounds count from the end, and every bound is clamped.
- `Text` (text.dfy): `str.lower()` and `str.strip()` as the core uses them.
  - Lower-casing is ASCII-only and keeps every character in place.
  - Whitespace is the full set of characters for which Python's `str.isspace()` holds.
- `Tokenizer` (tokenizer.dfy): `tokenize`, the maximal runs of `[a-z0-9]` in the lower-cased text. It is proved equal to a one-pass reference scanner.
- `Snippets` (snippet.dfy): `make_snippet`.
  - `str.find` is modelled with its exact contract.
  - `FirstMatch` is the imperative loop that finds the earliest match, and `MakeSnippet` runs it and then cuts the excerpt; both are proved against functions (`EarliestMatch`, `Snippet`).
  - Lemmas give its shape.
- `Ranking` (ranking.dfy): `sorted(enumerate(scores), key=score, reverse=True)[:best_amount]`. It is an insertion sort proved to be the stable descending sort, followed by the top-k cut.
- `Bm25Index` (bm25_index.dfy): `Doc` and the class `BM25Index`.
  - Its fields are `docs`, an append-only `seq<Doc>`, and `index`, an `Option<Ranker>`.
  - `Valid()` says that every document's tokens are `Tokenize(text)`.
  - It also says that a present index was built from the token lists of exactly the current documents, of which there is at least one. This holds because `add_doc` always drops the index.
  - The BM25 scores are abstract. `Search` receives a `Scorer`: any function that gives each document of a corpus one `real` score, aligned by position. It applies the scorer to the corpus the index holds and to the query's tokens.
- `Html` (html.dfy): `escapeHtml`, the chain of five `replaceAll` calls.
  - It is proved equal to the per-character mapping, which holds because `&` is replaced first.
  - Its output has no `<`, `>`, `"` or `'`, and its length is given exactly.
  - A decoder of the five references gets the input back.

In these places the model follows the code as written, which may differ from what one would expect:

- The blank check is `query.strip()`, not "the query has no tokens". So a punctuation-only query such as `"!!!"` still rebuilds a missing index and ranks every document with an empty token list. Its snippets are the documents' openings (`PunctuationQueryRanks`).
- `add_doc` accepts duplicate ids (`DuplicateIdsAreKept`).
- `BM25Index` has no reset or clear operation, so the model has none.
- The snippet window is `window // 2` characters on each side of the match, so an odd `window` loses one character.

## Model

| member | source | states |
|---|---|---|
| `PySeq.Slice` | bm25_index.py:40 | `s[lo:hi]` is the plain slice `s[lo..hi]` when `0 <= lo <= hi <= len(s)`, and never longer than `s` |
| `PySeq.Take` | bm25_index.py:96-98 | `s[:hi]` keeps `min(hi, len(s))` elements for `hi >= 0`, and drops `-hi` from the end for `hi < 0` |
| `Text.Lower` | bm25_index.py:14 | `text.lower()` (also bm25_index.py:20) keeps the length and maps each character on its own: ASCII capitals to their small letters, everything else unchanged |
| `Text.LowerIdempotent` | bm25_index.py:14 | lower-casing twice is lower-casing once |
| `Text.StripRange` | bm25_index.py:40 | the range `strip()` keeps: everything outside it is whitespace, its first and last characters are not, and an all-whitespace string keeps nothing |
| `Text.Strip` | bm25_index.py:40 | `s.strip()` is never longer than `s`, and a non-empty result neither starts nor ends with whitespace; `StripRange` and `StripOfSlice` say which part of `s` it is |
| `Text.StripEmptyIff` | bm25_index.py:78 | `s.strip()` is empty exactly when every character of `s` is whitespace |
| `Text.StripOfSlice` | bm25_index.py:40 | stripping `text[start:end]` gives a piece `text[lo:hi]` with `start <= lo <= hi <= end`; everything dropped is whitespace and the kept piece's end characters are not |
| `Tokenizer.Runs` | bm25_index.py:9 | every run found is a token: non-empty, letters `a-z` and digits only |
| `Tokenizer.Tokenize` | bm25_index.py:13-14 | every token of `tokenize(text)` is non-empty and uses only `a-z` and `0-9` |
| `Tokenizer.TokenizeEmpty` | bm25_index.py:13-14 | the empty text has no tokens |
| `Tokenizer.ScanRuns` | bm25_index.py:9 | a one-pass scanner, which closes the current run at every non-word character, yields exactly the runs `Runs` finds |
| `Tokenizer.TokenizeIsScan` | bm25_index.py:9-14 | `tokenize(text)` equals the one-pass reference scanner run over the lower-cased text |
| `Tokenizer.RunsCoverWordChars` | bm25_index.py:9 | glued together, the runs are exactly the word characters of the input, in order |
| `Tokenizer.TokensCoverWordChars` | bm25_index.py:13-14 | glued together, the tokens are exactly the letters and digits of the lower-cased text, in order: only separators are dropped |
| `Tokenizer.TokenizeIgnoresCase` | bm25_index.py:14 | `tokenize(text.lower()) == tokenize(text)` |
| `Tokenizer.RunsOfJoin` | bm25_index.py:9 | splitting a space-joined list of tokens into runs gives the list back |
| `Tokenizer.TokenizeJoinRoundTrip` | bm25_index.py:9-14 | `tokenize(" ".join(tokenize(text))) == tokenize(text)` |
| `Snippets.FindFrom` | bm25_index.py:27 | the scan behind `find`: the least occurrence at or after `i`, or -1 exactly when there is none |
| `Snippets.Find` | bm25_index.py:27 | `lower.find(tok)` is -1 exactly when `tok` occurs nowhere; otherwise `tok` occurs there and at no earlier offset |
| `Snippets.EarliestMatch` | bm25_index.py:22-29 | the value of `best_pos` after the loop, defined as a fold over the tokens in order; a result is the `find` offset of one of the tokens and lies within the text. `EarliestMatchIsEarliest` states that it is the least match |
| `Snippets.EarliestMatchNone` | bm25_index.py:26-29 | `best_pos` stays None exactly when no token occurs anywhere in the lower-cased text |
| `Snippets.EarliestMatchLeast` | bm25_index.py:26-29 | no token occurs before `best_pos` |
| `Snippets.EarliestMatchIsEarliest` | bm25_index.py:22-29 | after the loop, `best_pos` is None exactly when no query token occurs; otherwise some token occurs at `best_pos` and no token occurs earlier |
| `Snippets.Snippet` | bm25_index.py:19-48 | `make_snippet`, defined by its two branches; the excerpt is at most two characters longer than the text, and at most `window + 2` long for `window >= 0`. `SnippetNoMatch`, `SnippetAroundMatch` and `SnippetKeepsMatch` give its shape |
| `Snippets.FirstMatch` | bm25_index.py:22-29 | the loop over the query tokens leaves `best_pos` equal to the fold `EarliestMatch(lower, toks)`, whose meaning `EarliestMatchIsEarliest` states |
| `Snippets.MakeSnippet` | bm25_index.py:19-48 | the loop over the query tokens followed by the cut computes `Snippet(text, toks, window)` |
| `Snippets.SnippetNoMatch` | bm25_index.py:31-33 | with no matching token: the text when `len(text) <= window`, else `text[:window] + "…"` |
| `Snippets.SnippetNoTerms` | bm25_index.py:26-33 | with no query tokens at all, the same leading-text excerpt |
| `Snippets.SnippetAroundMatch` | bm25_index.py:35-48 | with a match at `best_pos`: `0 <= start <= best_pos <= end <= len(text)`; the body is a contiguous `text[lo:hi]` inside the cut, at most `2*(window//2)` long, with only whitespace trimmed from the cut; a leading `…` exactly when `start > 0`, a trailing `…` exactly when `end < len(text)` |
| `Snippets.MatchedTextNotSpace` | bm25_index.py:20-27 | where a token occurs in the lower-cased text, the original text has no whitespace |
| `Snippets.SnippetKeepsMatch` | bm25_index.py:35-40 | for real tokens, the body keeps the matched term's first character when `window >= 2`, and the whole term when the cut reaches its end |
| `Ranking.Insert` | bm25_index.py:96 | inserting a position gives one element more, with exactly the old members and the new one |
| `Ranking.InsertOrdered` | bm25_index.py:96 | inserting a new position into a ranked list keeps it ranked |
| `Ranking.SortPrefix` | bm25_index.py:96 | sorting the first `n` positions gives each of them once, ranked by descending score and, at equal score, by position |
| `Ranking.Rank` | bm25_index.py:96 | `sorted(enumerate(scores), key=score, reverse=True)` as positions: each position of `scores` exactly once, ranked by descending score and, at equal score, by position |
| `Ranking.RankIsStableSort` | bm25_index.py:96 | `sorted(..., reverse=True)` holds every position exactly once; scores never increase along it; equal scores keep insertion order |
| `Ranking.TopRanked` | bm25_index.py:96-98 | `[:best_amount]` keeps `KeptCount(n, best_amount)` positions, and they are the first ones of the ranking |
| `Ranking.TopRankedIsBest` | bm25_index.py:96-98 | the cut keeps `min(best_amount, n)` positions (Python's count for negative amounts), distinct and ranked, and every dropped document ranks behind every kept one |
| `Bm25Index.IsBlank` | bm25_index.py:78 | `not query.strip()` holds exactly when every character of the query is whitespace |
| `Bm25Index.Results` | bm25_index.py:96-111 | the list `search` builds from the scores, one result per kept document: `KeptCount(len(docs), best_amount)` of them. `ResultsAreRanked` states their order and contents |
| `Bm25Index.ResultsAreRanked` | bm25_index.py:96-111 | results number `min(best_amount, len(docs))`; each document appears at most once; each result has `docs[idx]`'s id, filename, score and `make_snippet(docs[idx].text, tokenize(query))`; scores never increase along the list; ties keep insertion order; no omitted document scores above a kept one |
| `Bm25Index.CollectResults` | bm25_index.py:96-112 | the result-building loop of `search` produces exactly `Results(docs, scores, q, best_amount)` |
| `Bm25Index.BM25Index.Valid` | bm25_index.py:59-74 | the class invariant, a predicate with no contract of its own: every document's tokens are `tokenize(text)`, and a present index was built from the token lists of exactly the current documents, of which there is at least one. The constructor establishes it, and `AddDoc`, `Reindex` and `Search` keep it |
| `Bm25Index.BM25Index.constructor` | bm25_index.py:60-62 | a new index has no documents and no built index |
| `Bm25Index.BM25Index.AddDoc` | bm25_index.py:64-70 | appends one `Doc` at the end with `tokens == tokenize(text)`, with no duplicate-id check; earlier docs are unchanged; the index becomes absent (stale) |
| `Bm25Index.BM25Index.Reindex` | bm25_index.py:72-74 | docs unchanged; the index is present exactly when there are documents, and then built from all their token lists |
| `Bm25Index.BM25Index.Search` | bm25_index.py:76-112 | a blank query returns `[]` and changes nothing; otherwise the index is afterwards present exactly when there are documents, and the results are the ranked, cut and rendered `Results` for the scores of the current documents; an empty collection returns `[]` and leaves the index absent; `bestAmount` defaults to 10, as `best_amount` does |
| `Bm25Index.BM25Index.GetStats` | bm25_index.py:114-119 | `num_docs == len(docs)`, and `indexed` holds exactly when an index is present, that is, in the built state |
| `Bm25Index.DuplicateIdsAreKept` | bm25_index.py:64-66 | adding two documents with the same id keeps both, and the collection is then not indexed |
| `Bm25Index.PunctuationQueryRanks` | bm25_index.py:78-93 | the query `"!!!"` is not blank: on one document it returns that document with the opening of its text as snippet, and leaves the index built |
| `Html.ReplaceAll` | static/app.js:43 | `s.replaceAll(c, rep)` for a one-character pattern; when `rep` does not contain `c`, no `c` is left in the result |
| `Html.EscapeHtml` | static/app.js:41-48 | `escapeHtml`, defined as the five `replaceAll` passes in the code's order, with no contract of its own. `EscapeHtmlIsPerChar`, `EscapeHtmlHasNoMarkup`, `EscapeHtmlLength` and `UnescapeEscapeHtml` state its properties |
| `Html.ReplaceAllConcat` | static/app.js:43 | `replaceAll` of a one-character pattern distributes over concatenation |
| `Html.ReplaceAllAbsent` | static/app.js:43 | `replaceAll` leaves a string without the pattern unchanged |
| `Html.EscapeHtmlConcat` | static/app.js:42-47 | escaping distributes over concatenation |
| `Html.EscapeHtmlChar` | static/app.js:43-47 | on one character, the chain of replacements gives `&amp;`, `&lt;`, `&gt;`, `&quot;`, `&#039;` or the character itself |
| `Html.EscapeHtmlIsPerChar` | static/app.js:41-48 | with `&` replaced first, the result is the per-character mapping, concatenated: no entity is escaped twice |
| `Html.EscapeHtmlHasNoMarkup` | static/app.js:44-47 | the output contains no `<`, `>`, `"` or `'` |
| `Html.EscapeHtmlLength` | static/app.js:42-47 | output length is input length + 4·#`&` + 3·#`<` + 3·#`>` + 5·#`"` + 5·#`'` |
| `Html.EscapeHtmlPlain` | static/app.js:42-47 | a string with none of the five characters, the empty string included, is returned unchanged |
| `Html.UnescapeEscapeHtml` | static/app.js:41-48 | decoding the five references recovers the input: escaping loses nothing and copies every other character unchanged and in order |

## Left out

- BM25 numerics. The `BM25Okapi` construction and `get_scores` (bm25_index.py:7, 74, 93) belong to the `rank_bm25` library and are not part of this model.
  - The built index is modelled as the corpus it was built from.
  - Scores are the output of an arbitrary position-aligned `Scorer`, taken as a parameter of `Search`.
  - Scores are `real`, and `float(score)` is not modelled.
  - The library's behaviour on a corpus without any token is not modelled (it may raise). The model's `Reindex` always succeeds.
- Unicode case mapping. `str.lower()` is modelled on ASCII letters only.
  - Python also maps a few non-ASCII characters into `a-z` (KELVIN SIGN to `k`, for one), which would then be part of a token.
  - Python also lengthens some strings (`İ` becomes two characters). That shifts `best_pos` away from the same offset in `text`, and this misalignment is not modelled.
- Snippets.SnippetNoMatch: stated for `window >= 0`. For a negative `window` the model follows the code's Python slicing (`Snippet`, `MakeSnippet`), but no lemma describes that case.
- Snippets.SnippetAroundMatch: stated for `window >= 0`, for the same reason.
- `escapeHtml` receives only strings here. The `String(s)` conversion of other JavaScript values is not modelled. JavaScript strings are UTF-16 code units and the model's are Unicode scalar values; the five patterns are single BMP characters, so the replacements act the same.
- pdf_extract.py is not part of this model: it is PDF file I/O with a page cap and a whitespace collapse.
- app.py is not part of this model: it is HTTP routing around one module-level index.
- The rest of static/app.js is not part of this model: `fetch` wrappers, DOM updates and event handlers.
- The truthiness test `not self._bm25` (bm25_index.py:86) is modelled as "no index". A `BM25Okapi` object is always true.
- There is no concurrency in the code, and none in the model.

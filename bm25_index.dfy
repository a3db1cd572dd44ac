/** `Doc` and `BM25Index` (bm25_index.py): an append-only list of documents, an
    index built from a snapshot of their token lists and dropped whenever a
    document is added, and a search that rebuilds it on demand, ranks every
    document and renders the best ones with a snippet. */
module Bm25Index {
  import opened Options
  import opened Text
  import opened Tokenizer
  import opened Snippets
  import opened Ranking

  /** A stored document; `tokens` is `tokenize(text)` from the moment it is added. */
  datatype Doc = Doc(docId: string, filename: string, text: string, tokens: seq<string>)

  /** One search result, the dictionary with keys `doc_id`, `filename`, `score`
      and `snippet`. */
  datatype Hit = Hit(docId: string, filename: string, score: real, snippet: string)

  /** The reply of `stats`: `num_docs` and `indexed`. */
  datatype Stats = Stats(numDocs: nat, indexed: bool)

  /** The token lists of a collection, one per document, in order. */
  type Corpus = seq<seq<string>>

  /** A built `BM25Okapi` index. The model keeps only the corpus it was built
      from: the scores it gives a query are a function of that corpus. */
  datatype Ranker = Ranker(corpus: Corpus)

  /** `BM25Okapi(corpus).get_scores(query)`, left abstract: any function that
      gives each document of the corpus one score, aligned by position. */
  type Scorer = f: (Corpus, seq<string>) -> seq<real> | forall c, q :: |f(c, q)| == |c|
    witness (c: Corpus, q: seq<string>) => seq(|c|, _ => 0.0)

  /** `[d.tokens for d in docs]`. */
  function Tokens(docs: seq<Doc>): (c: Corpus)
    ensures |c| == |docs|
    ensures forall i :: 0 <= i < |docs| ==> c[i] == docs[i].tokens
  {
    seq(|docs|, i requires 0 <= i < |docs| => docs[i].tokens)
  }

  /** A query that `query.strip()` leaves empty: one made of whitespace only. */
  predicate IsBlank(query: string): (b: bool)
    ensures b <==> forall k :: 0 <= k < |query| ==> IsSpace(query[k])
  {
    StripEmptyIff(query);
    Strip(query) == []
  }

  /** The result built for document `d` with score `score`. */
  function HitFor(d: Doc, score: real, q: seq<string>): Hit {
    Hit(d.docId, d.filename, score, Snippet(d.text, q, DefaultWindow))
  }

  /** The results of a search over `docs` with query tokens `q` whose documents
      scored `scores`: one per kept document, in ranked order. */
  function Results(docs: seq<Doc>, scores: seq<real>, q: seq<string>, bestAmount: int): (r: seq<Hit>)
    requires |scores| == |docs|
    ensures |r| == KeptCount(|docs|, bestAmount)
  {
    var order := TopRanked(scores, bestAmount);
    TopRankedIsBest(scores, bestAmount);
    seq(|order|, k requires 0 <= k < |order| => HitFor(docs[order[k]], scores[order[k]], q))
  }

  /** What a search returns: `min(best_amount, |docs|)` results (Python's count
      for a negative amount); each names a different document and carries that
      document's id, file name, score and snippet; scores never increase along
      the list; equal scores keep the documents' insertion order; and no
      document left out scores above one that was kept. */
  lemma ResultsAreRanked(docs: seq<Doc>, scores: seq<real>, q: seq<string>, bestAmount: int)
    returns (order: seq<nat>)
    requires |scores| == |docs|
    ensures |order| == |Results(docs, scores, q, bestAmount)| == KeptCount(|docs|, bestAmount)
    ensures forall k :: 0 <= k < |order| ==> order[k] < |docs|
    ensures forall a, b :: 0 <= a < b < |order| ==> order[a] != order[b]
    ensures forall k :: 0 <= k < |order| ==>
      Results(docs, scores, q, bestAmount)[k] == Hit(docs[order[k]].docId, docs[order[k]].filename,
        scores[order[k]], Snippet(docs[order[k]].text, q, DefaultWindow))
    ensures forall a, b :: 0 <= a < b < |order| ==>
      Results(docs, scores, q, bestAmount)[a].score >= Results(docs, scores, q, bestAmount)[b].score
    ensures forall a, b :: 0 <= a < b < |order| && scores[order[a]] == scores[order[b]] ==>
      order[a] < order[b]
    ensures forall k, j :: 0 <= k < |order| && 0 <= j < |docs| && j !in order ==>
      scores[j] <= scores[order[k]]
  {
    order := TopRanked(scores, bestAmount);
    TopRankedIsBest(scores, bestAmount);
    var rs := Results(docs, scores, q, bestAmount);
    forall a, b | 0 <= a < b < |order| ensures rs[a].score >= rs[b].score {
      assert RanksBefore(scores, order[a], order[b]);
    }
    forall k, j | 0 <= k < |order| && 0 <= j < |docs| && j !in order
      ensures scores[j] <= scores[order[k]]
    {
      assert order[k] in order;
      assert RanksBefore(scores, order[k], j);
    }
  }

  /** The loop at the end of `search`: rank, cut to `best_amount`, and append
      one result per kept document, its snippet made on the spot. */
  method CollectResults(docs: seq<Doc>, scores: seq<real>, q: seq<string>, bestAmount: int)
    returns (results: seq<Hit>)
    requires |scores| == |docs|
    ensures results == Results(docs, scores, q, bestAmount)
  {
    var ranked := TopRanked(scores, bestAmount);
    TopRankedIsBest(scores, bestAmount);
    results := [];
    for i := 0 to |ranked|
      invariant |results| == i
      invariant forall k :: 0 <= k < i ==>
        results[k] == HitFor(docs[ranked[k]], scores[ranked[k]], q)
    {
      var idx := ranked[i];
      var d := docs[idx];
      var snippet := MakeSnippet(d.text, q, DefaultWindow);
      results := results + [Hit(d.docId, d.filename, scores[idx], snippet)];
    }
  }

  /** The three states of the index: no documents; documents but no index;
      documents and an index over all of them. */
  datatype Phase = Empty | Stale | Built

  class BM25Index {
    var docs: seq<Doc>
    var index: Option<Ranker>

    /** Every document's tokens are its text's, and a present index was built
        from the token lists of exactly the documents there are now, of which
        there is at least one. */
    ghost predicate Valid()
      reads this
    {
      (forall i :: 0 <= i < |docs| ==> docs[i].tokens == Tokenize(docs[i].text)) &&
      (index.Some? ==> docs != [] && index.value.corpus == Tokens(docs))
    }

    ghost function State(): Phase
      reads this
    {
      if docs == [] then Empty else if index.None? then Stale else Built
    }

    /** `BM25Index()`: no documents, no index. */
    constructor ()
      ensures Valid()
      ensures docs == [] && index == None && State() == Empty
    {
      docs := [];
      index := None;
    }

    /** `add_doc`: appends the document with its tokens, whatever its id (ids
        are not checked for duplicates), and drops the index. */
    method AddDoc(docId: string, filename: string, text: string)
      requires Valid()
      modifies this
      ensures Valid()
      ensures docs == old(docs) + [Doc(docId, filename, text, Tokenize(text))]
      ensures index == None && State() == Stale
    {
      var toks := Tokenize(text);
      docs := docs + [Doc(docId, filename, text, toks)];
      index := None;
    }

    /** `reindex`: builds the index from a snapshot of all token lists, or
        leaves none when there are no documents. */
    method Reindex()
      requires Valid()
      modifies this
      ensures Valid()
      ensures docs == old(docs)
      ensures index == if docs == [] then None else Some(Ranker(Tokens(docs)))
      ensures index.Some? <==> docs != []
      ensures State() == if docs == [] then Empty else Built
    {
      var corpus := Tokens(docs);
      index := if corpus != [] then Some(Ranker(corpus)) else None;
    }

    /** `search`: a blank query returns nothing and touches nothing; any other
        query rebuilds a missing index, scores every document with `score`
        and returns the `best_amount` best as results. */
    method Search(query: string, score: Scorer, bestAmount: int := 10) returns (results: seq<Hit>)
      requires Valid()
      modifies this
      ensures Valid()
      ensures docs == old(docs)
      ensures IsBlank(query) ==> results == [] && index == old(index)
      ensures !IsBlank(query) ==> index == if docs == [] then None else Some(Ranker(Tokens(docs)))
      ensures !IsBlank(query) ==> State() == if docs == [] then Empty else Built
      ensures !IsBlank(query) ==>
        results == Results(docs, score(Tokens(docs), Tokenize(query)), Tokenize(query), bestAmount)
      ensures docs == [] ==> results == [] && index == None
    {
      if Strip(query) == [] {
        return [];
      }
      if index.None? {
        Reindex();
      }
      if index.None? || docs == [] {
        return [];
      }
      var qTokens := Tokenize(query);
      var scores := score(index.value.corpus, qTokens);
      results := CollectResults(docs, scores, qTokens, bestAmount);
    }

    /** `stats`: the number of documents and whether an index is present. */
    method GetStats() returns (s: Stats)
      ensures s.numDocs == |docs|
      ensures s.indexed <==> index.Some?
      ensures Valid() ==> (s.indexed <==> State() == Built)
    {
      s := Stats(|docs|, index.Some?);
    }
  }

  /** Two documents with the same id are both kept. */
  method DuplicateIdsAreKept(docId: string, a: string, b: string) returns (s: Stats, ids: seq<string>)
    ensures s == Stats(2, false)
    ensures ids == [docId, docId]
  {
    var idx := new BM25Index();
    idx.AddDoc(docId, "a.pdf", a);
    idx.AddDoc(docId, "b.pdf", b);
    s := idx.GetStats();
    ids := [idx.docs[0].docId, idx.docs[1].docId];
  }

  /** A query of punctuation only is not blank, so it still ranks the
      collection, with no tokens: the one document comes back with the opening
      of its text as its snippet, and the index is then built. */
  method PunctuationQueryRanks(text: string, score: Scorer) returns (results: seq<Hit>, s: Stats)
    ensures |results| == 1
    ensures |text| <= DefaultWindow ==> results[0].snippet == text
    ensures |text| > DefaultWindow ==>
      results[0].snippet == text[..DefaultWindow] + [Ellipsis]
    ensures s == Stats(1, true)
  {
    var idx := new BM25Index();
    idx.AddDoc("d1", "d1.pdf", text);
    assert Tokenize("!!!") == [];
    assert !IsBlank("!!!") by {
      assert !IsSpace("!!!"[0]);
      StripEmptyIff("!!!");
    }
    results := idx.Search("!!!", score);
    ghost var order := ResultsAreRanked(idx.docs, score(Tokens(idx.docs), []), [], 10);
    SnippetNoTerms(text, DefaultWindow);
    s := idx.GetStats();
  }
}

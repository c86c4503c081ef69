/**
  The hybrid retriever of the verification bot (`HybridRetriever` in
  step3_rag.py).

  Construction loads the persisted document list and tokenizes every
  document for BM25. A query is answered by merging the top-K hits of the
  dense vector index with the top-K BM25 hits: vector hits first, then the
  keyword hits not already present, numbered 1..n. The vector index, the
  sentence embedder and the BM25 scorer are foreign numerics; they enter as
  the values they return.
*/
module Retrieval {
  import opened Wrappers
  import opened Text
  import opened PyValue

  /** RETRIEVAL_TOP_K: how many hits each index contributes at most. */
  const TopK: nat := 10

  /** META_FILE, the pickled document list. */
  const MetaFile: string := "my_knowledge_base/health.pkl"

  // ---------------------------------------------------------------------------
  // Tokenization
  // ---------------------------------------------------------------------------

  /** `_tokenize`: `text.lower().split()`, the one rule for documents and queries. */
  function Tokenize(text: string): (tokens: seq<string>)
    ensures forall i :: 0 <= i < |tokens| ==> IsWord(tokens[i]) && NoUpper(tokens[i])
  {
    LowerHasNoUpper(text);
    Split(Lower(text))
  }

  /** Tokenizing text rebuilt from tokens gives the same tokens: tokenization
      is a normal form. */
  lemma TokenizeIdempotent(text: string)
    ensures Tokenize(Join(Tokenize(text), " ")) == Tokenize(text)
  {
    var tokens := Tokenize(text);
    NoUpperJoinWords(tokens);
    LowerNoUpper(Join(tokens, " "));
    SplitJoin(tokens);
  }

  /** Tokens of `a + " " + b` are the tokens of `a` followed by those of `b`:
      a document's tokens are its title's tokens, then its abstract's. */
  lemma TokenizeConcat(a: string, b: string)
    ensures Tokenize(a + " " + b) == Tokenize(a) + Tokenize(b)
  {
    LowerAppend(a, " " + b);
    LowerAppend(" ", b);
    assert Lower(" ") == [' '];
    assert a + " " + b == a + (" " + b);
    assert Lower(a + " " + b) == Lower(a) + [' '] + Lower(b);
    SplitAppend(Lower(a), ' ', Lower(b));
  }

  // ---------------------------------------------------------------------------
  // Construction
  // ---------------------------------------------------------------------------

  /** `doc.get(key, '')` where the retriever concatenates it with a string:
      the string, `""` when absent, and the TypeError of `+` for any other value. */
  function TextField(doc: Entries, key: string): (r: Result<string, Exception>)
    ensures Lookup(doc, key).None? ==> r == Ok("")
    ensures r.Ok? && Lookup(doc, key).Some? ==> Lookup(doc, key).value == Str(r.value)
    ensures r.Err? <==> Lookup(doc, key).Some? && !Lookup(doc, key).value.Str?
  {
    match Lookup(doc, key)
    case None => Ok("")
    case Some(Str(s)) => Ok(s)
    case Some(_) => Err(TypeError)
  }

  /** `doc.get('title', '') + " " + doc.get('abstract', '')`. */
  function CorpusText(doc: Entries): (r: Result<string, Exception>)
    ensures r.Ok? <==> TextField(doc, "title").Ok? && TextField(doc, "abstract").Ok?
    ensures r.Ok? ==> r.value == TextField(doc, "title").value + " " + TextField(doc, "abstract").value
  {
    match TextField(doc, "title")
    case Err(e) => Err(e)
    case Ok(title) =>
      match TextField(doc, "abstract")
      case Err(e) => Err(e)
      case Ok(abstractText) => Ok(title + " " + abstractText)
  }

  /** Every document's title and abstract can be concatenated. */
  predicate TextsOk(docs: seq<Entries>) {
    forall i :: 0 <= i < |docs| ==> CorpusText(docs[i]).Ok?
  }

  /** `tokens` holds, document by document, the tokens of its title and abstract. */
  predicate TokenizedAs(docs: seq<Entries>, tokens: seq<seq<string>>)
    requires TextsOk(docs)
  {
    |tokens| == |docs| && forall i :: 0 <= i < |docs| ==> tokens[i] == Tokenize(CorpusText(docs[i]).value)
  }

  /** `corpus_tokens`: one token list per document, in document order; the
      first document that cannot be concatenated raises. */
  function CorpusTokens(docs: seq<Entries>): (r: Result<seq<seq<string>>, Exception>)
    ensures r.Ok? <==> TextsOk(docs)
    ensures r.Ok? ==> TokenizedAs(docs, r.value)
  {
    if docs == [] then Ok([])
    else
      match CorpusText(docs[0])
      case Err(e) => Err(e)
      case Ok(text) =>
        TextsCons(docs);
        match CorpusTokens(docs[1..])
        case Err(e) => Err(e)
        case Ok(rest) =>
          TokensCons(docs, rest);
          Ok([Tokenize(text)] + rest)
  }

  lemma TextsCons(docs: seq<Entries>)
    requires docs != []
    ensures TextsOk(docs) <==> CorpusText(docs[0]).Ok? && TextsOk(docs[1..])
  {
    if CorpusText(docs[0]).Ok? && TextsOk(docs[1..]) {
      forall i | 0 <= i < |docs| ensures CorpusText(docs[i]).Ok? {
        if i > 0 {
          assert docs[i] == docs[1..][i - 1];
        }
      }
    }
    if TextsOk(docs) {
      forall i | 0 <= i < |docs[1..]| ensures CorpusText(docs[1..][i]).Ok? {
        assert docs[1..][i] == docs[i + 1];
      }
    }
  }

  lemma TokensCons(docs: seq<Entries>, rest: seq<seq<string>>)
    requires docs != [] && CorpusText(docs[0]).Ok? && TextsOk(docs[1..]) && TokenizedAs(docs[1..], rest)
    ensures TextsOk(docs) && TokenizedAs(docs, [Tokenize(CorpusText(docs[0]).value)] + rest)
  {
    TextsCons(docs);
    var r := [Tokenize(CorpusText(docs[0]).value)] + rest;
    forall i | 0 <= i < |docs| ensures r[i] == Tokenize(CorpusText(docs[i]).value) {
      if i > 0 {
        assert docs[i] == docs[1..][i - 1] && r[i] == rest[i - 1];
      }
    }
  }

  /** A constructed `HybridRetriever`: the document list and the BM25 corpus
      built from it. */
  datatype Retriever = Retriever(documents: seq<Entries>, corpusTokens: seq<seq<string>>)

  /** Every document has a string (or absent) title and abstract, and the BM25
      corpus is the tokenization of each document's title and abstract. */
  predicate Valid(r: Retriever) {
    TextsOk(r.documents) && TokenizedAs(r.documents, r.corpusTokens)
  }

  /** Some document has a corpus text with at least one token. */
  predicate SomeToken(docs: seq<Entries>) {
    exists i :: 0 <= i < |docs| && CorpusText(docs[i]).Ok? && Tokenize(CorpusText(docs[i]).value) != []
  }

  /** What `BM25Okapi(corpus_tokens)` makes of the corpus: it divides by the
      number of documents (the average document length) and by the number of
      distinct tokens (the average idf), so a corpus with no token at all
      raises ZeroDivisionError. */
  function Bm25Init(tokens: seq<seq<string>>): (r: Result<(), Exception>)
    ensures r.Ok? <==> exists i :: 0 <= i < |tokens| && tokens[i] != []
  {
    if |tokens| == 0 then Err(ZeroDivisionError)
    else if forall i :: 0 <= i < |tokens| ==> tokens[i] == [] then Err(ZeroDivisionError)
    else Ok(())
  }

  /** `HybridRetriever.__init__`. `indexExists` is whether INDEX_FILE exists;
      `stored` is the unpickled META_FILE, `None` when it cannot be opened. */
  function Load(indexExists: bool, stored: Option<seq<Entries>>): (r: Result<Retriever, Exception>)
    ensures !indexExists ==> r == Err(FileNotFoundError("Knowledge base files not found"))
    ensures indexExists && stored.None? ==> r == Err(FileNotFoundError(MetaFile))
    ensures r.Ok? ==> Valid(r.value) && stored == Some(r.value.documents)
    ensures indexExists && stored.Some? ==>
              (r.Ok? <==> TextsOk(stored.value) && SomeToken(stored.value))
    ensures indexExists && stored.Some? && TextsOk(stored.value) && !SomeToken(stored.value) ==>
              r == Err(ZeroDivisionError)
  {
    if !indexExists then Err(FileNotFoundError("Knowledge base files not found"))
    else if stored.None? then Err(FileNotFoundError(MetaFile))
    else
      match CorpusTokens(stored.value)
      case Err(e) => Err(e)
      case Ok(tokens) =>
        TokensSomeToken(stored.value, tokens);
        match Bm25Init(tokens)
        case Err(e) => Err(e)
        case Ok(_) => Ok(Retriever(stored.value, tokens))
  }

  /** The corpus has a token exactly when some document's text has one. */
  lemma TokensSomeToken(docs: seq<Entries>, tokens: seq<seq<string>>)
    requires TextsOk(docs) && TokenizedAs(docs, tokens)
    ensures (exists i :: 0 <= i < |tokens| && tokens[i] != []) <==> SomeToken(docs)
  {
    if exists i :: 0 <= i < |tokens| && tokens[i] != [] {
      var i :| 0 <= i < |tokens| && tokens[i] != [];
      assert CorpusText(docs[i]).Ok? && Tokenize(CorpusText(docs[i]).value) != [];
    }
    if SomeToken(docs) {
      var i :| 0 <= i < |docs| && CorpusText(docs[i]).Ok? && Tokenize(CorpusText(docs[i]).value) != [];
      assert tokens[i] != [];
    }
  }

  /** An empty knowledge base cannot be loaded: BM25 divides by its size. */
  lemma LoadEmpty()
    ensures Load(true, Some([])) == Err(ZeroDivisionError)
  {
  }

  // ---------------------------------------------------------------------------
  // Search: the specification
  // ---------------------------------------------------------------------------

  datatype Source = Vector | Keyword

  /** A collected hit: where it came from and the document position. */
  datatype Hit = Hit(source: Source, id: int)

  /** An entry of the list `search` returns: `title` and `abstractText` are
      whatever `.get(key, '')` returns from the document. */
  datatype Evidence = Evidence(source: Source, id: int, title: Value, abstractText: Value, rank: nat)

  predicate InRange(ids: seq<int>, n: nat) {
    forall i :: 0 <= i < |ids| ==> 0 <= ids[i] < n
  }

  predicate Distinct(s: seq<int>) {
    forall i, j :: 0 <= i < j < |s| ==> s[i] != s[j]
  }

  function Elems(s: seq<int>): set<int> {
    set x | x in s
  }

  /** The ids a loop collects when it walks `ids`, skipping every id listed in
      `prior` and every id it has already collected. */
  function Admit(prior: seq<int>, ids: seq<int>): seq<int> {
    if ids == [] then []
    else
      var p := Admit(prior, ids[..|ids| - 1]);
      var x := ids[|ids| - 1];
      if x in prior || x in p then p else p + [x]
  }

  /** The ids the vector phase collects from the Faiss row: `-1` is padding
      and is skipped like an id already seen. */
  function VectorIds(vectorHits: seq<int>): seq<int> {
    Admit([-1], vectorHits)
  }

  /** The ids the keyword phase adds: BM25 hits the vector phase did not collect. */
  function KeywordIds(vectorHits: seq<int>, keywordHits: seq<int>): seq<int> {
    Admit(VectorIds(vectorHits), keywordHits)
  }

  /** `self.documents[id]`. Search raises before an id outside the list is
      looked up, so the empty record for such an id is never observed. */
  function DocAt(docs: seq<Entries>, id: int): Entries {
    if 0 <= id < |docs| then docs[id] else []
  }

  /** One hit per id, in order. */
  function Hits(source: Source, ids: seq<int>): seq<Hit> {
    if ids == [] then []
    else Hits(source, ids[..|ids| - 1]) + [Hit(source, ids[|ids| - 1])]
  }

  /** The result dictionary of a hit. The source reads the title and abstract
      when it appends the hit; the documents do not change during a search,
      so reading them when the entry is numbered gives the same values. */
  function Entry(docs: seq<Entries>, h: Hit, rank: nat): Evidence {
    Evidence(h.source, h.id, Get(DocAt(docs, h.id), "title", Str("")), Get(DocAt(docs, h.id), "abstract", Str("")), rank)
  }

  /** The final numbering: `res['rank'] = i + 1`. */
  function Ranked(docs: seq<Entries>, hits: seq<Hit>): seq<Evidence> {
    seq(|hits|, i requires 0 <= i < |hits| => Entry(docs, hits[i], i + 1))
  }

  /** Faiss answers `-1` for padding and otherwise a non-negative id. */
  predicate FaissRow(vectorHits: seq<int>) {
    forall h :: h in vectorHits ==> h >= -1
  }

  /** `search` on the raw answers of the two indexes: `vectorHits` is the Faiss
      row for the query, `keywordHits` the top-K BM25 positions. A vector id
      past the end of the document list raises IndexError. */
  function SearchSpec(docs: seq<Entries>, vectorHits: seq<int>, keywordHits: seq<int>): Result<seq<Evidence>, Exception>
    requires FaissRow(vectorHits) && InRange(keywordHits, |docs|)
  {
    if exists h :: h in vectorHits && h >= |docs| then Err(IndexError)
    else Ok(Ranked(docs, Hits(Vector, VectorIds(vectorHits)) + Hits(Keyword, KeywordIds(vectorHits, keywordHits))))
  }

  /** `np.argsort(scores)[::-1]`: every position once, by non-increasing score;
      the order among equal scores is left open. */
  predicate IsDescendingArgsort(order: seq<int>, scores: seq<real>) {
    && |order| == |scores|
    && InRange(order, |scores|)
    && Distinct(order)
    && forall i, j :: 0 <= i < j < |order| ==> scores[order[i]] >= scores[order[j]]
  }

  // ---------------------------------------------------------------------------
  // Search: the method
  // ---------------------------------------------------------------------------

  lemma AdmitSnoc(prior: seq<int>, ids: seq<int>, x: int)
    ensures Admit(prior, ids + [x]) ==
              if x in prior || x in Admit(prior, ids) then Admit(prior, ids) else Admit(prior, ids) + [x]
  {
    assert (ids + [x])[..|ids|] == ids;
  }

  /** One more position of the walk. */
  lemma AdmitPrefixSnoc(prior: seq<int>, ids: seq<int>, j: nat)
    requires j < |ids|
    ensures Admit(prior, ids[..j + 1]) ==
              if ids[j] in prior || ids[j] in Admit(prior, ids[..j]) then Admit(prior, ids[..j])
              else Admit(prior, ids[..j]) + [ids[j]]
  {
    assert ids[..j + 1] == ids[..j] + [ids[j]];
    AdmitSnoc(prior, ids[..j], ids[j]);
  }

  lemma HitsSnoc(source: Source, ids: seq<int>, x: int)
    ensures Hits(source, ids + [x]) == Hits(source, ids) + [Hit(source, x)]
  {
    assert (ids + [x])[..|ids|] == ids;
  }

  /** The vector phase of `search`: walks the Faiss row, skipping padding and
      ids already seen; `ok` is false when it meets an id past the end of the
      document list, where `self.documents[doc_id]` raises IndexError. */
  method CollectVector(docs: seq<Entries>, vectorHits: seq<int>)
    returns (ok: bool, results: seq<Hit>, seen: set<int>)
    ensures ok <==> forall h :: h in vectorHits ==> h < |docs|
    ensures ok ==> results == Hits(Vector, VectorIds(vectorHits))
    ensures ok ==> forall x :: x in seen <==> x in VectorIds(vectorHits)
  {
    results, seen := [], {};
    ghost var ids: seq<int> := [];
    var i := 0;
    while i < |vectorHits|
      invariant 0 <= i <= |vectorHits|
      invariant forall k :: 0 <= k < i ==> vectorHits[k] < |docs|
      invariant ids == Admit([-1], vectorHits[..i])
      invariant results == Hits(Vector, ids)
      invariant forall x :: x in seen <==> x in ids
      invariant forall x :: x in seen ==> x < |docs|
    {
      var id := vectorHits[i];
      AdmitPrefixSnoc([-1], vectorHits, i);
      if id != -1 && id !in seen {
        if id >= |docs| {
          assert id in vectorHits;
          return false, results, seen;
        }
        HitsSnoc(Vector, ids, id);
        seen := seen + {id};
        ids := ids + [id];
        results := results + [Hit(Vector, id)];
      }
      assert vectorHits[i] < |docs|;
      i := i + 1;
    }
    assert vectorHits[..i] == vectorHits;
    ok := true;
  }

  /** The keyword phase of `search`: appends the keyword hits not in `seen`. */
  method CollectKeyword(v: seq<int>, keywordHits: seq<int>, results0: seq<Hit>, seen0: set<int>)
    returns (results: seq<Hit>)
    requires forall x :: x in seen0 <==> x in v
    ensures results == results0 + Hits(Keyword, Admit(v, keywordHits))
  {
    results := results0;
    var seen := seen0;
    ghost var ids: seq<int> := [];
    var j := 0;
    while j < |keywordHits|
      invariant 0 <= j <= |keywordHits|
      invariant ids == Admit(v, keywordHits[..j])
      invariant results == results0 + Hits(Keyword, ids)
      invariant forall x :: x in seen <==> x in v || x in ids
    {
      var id := keywordHits[j];
      AdmitPrefixSnoc(v, keywordHits, j);
      if id !in seen {
        HitsSnoc(Keyword, ids, id);
        assert results0 + Hits(Keyword, ids) + [Hit(Keyword, id)] == results0 + (Hits(Keyword, ids) + [Hit(Keyword, id)]);
        seen := seen + {id};
        ids := ids + [id];
        results := results + [Hit(Keyword, id)];
      }
      j := j + 1;
    }
    assert keywordHits[..j] == keywordHits;
  }

  /** The final loop of `search`: numbers the entries from 1. */
  method Number(docs: seq<Entries>, results: seq<Hit>) returns (ranked: seq<Evidence>)
    ensures ranked == Ranked(docs, results)
  {
    ranked := [];
    var k := 0;
    while k < |results|
      invariant 0 <= k <= |results|
      invariant ranked == Ranked(docs, results[..k])
    {
      ranked := ranked + [Entry(docs, results[k], k + 1)];
      k := k + 1;
    }
    assert results[..k] == results;
  }

  /** The top-K slice of a descending argsort holds valid, distinct positions
      in non-increasing score order. */
  lemma TopSlice(order: seq<int>, scores: seq<real>)
    requires IsDescendingArgsort(order, scores)
    ensures var top := order[..Min(TopK, |order|)];
            && InRange(top, |scores|) && Distinct(top)
            && forall i, j :: 0 <= i < j < |top| ==> scores[top[i]] >= scores[top[j]]
  {
  }

  /** `HybridRetriever.search`. `vectorHits` is what `index.search` returns for
      the embedded query; `bm25` is the scorer built over the corpus tokens;
      `order` is `np.argsort` of its scores, reversed. */
  method Search(r: Retriever, query: string, vectorHits: seq<int>,
                bm25: (seq<seq<string>>, seq<string>) -> seq<real>, order: seq<int>)
    returns (result: Result<seq<Evidence>, Exception>)
    requires Valid(r)
    requires |vectorHits| == TopK && FaissRow(vectorHits)
    requires |order| == |r.documents|
    requires IsDescendingArgsort(order, bm25(r.corpusTokens, Tokenize(query)))
    ensures InRange(order[..Min(TopK, |order|)], |r.documents|)
    ensures result == SearchSpec(r.documents, vectorHits, order[..Min(TopK, |order|)])
    ensures result.Err? <==> exists h :: h in vectorHits && h >= |r.documents|
  {
    TopSlice(order, bm25(r.corpusTokens, Tokenize(query)));
    var ok, results, seen := CollectVector(r.documents, vectorHits);
    if !ok {
      return Err(IndexError);
    }
    var keywordHits := order[..Min(TopK, |order|)];
    results := CollectKeyword(VectorIds(vectorHits), keywordHits, results, seen);
    var ranked := Number(r.documents, results);
    result := Ok(ranked);
  }

  // ---------------------------------------------------------------------------
  // Search: what it promises
  // ---------------------------------------------------------------------------

  /** The collected ids are exactly the ids of `ids` outside `prior`, each
      once, and there are no more of them than `ids` has entries. */
  lemma {:induction false} AdmitMembers(prior: seq<int>, ids: seq<int>)
    ensures forall x :: x in Admit(prior, ids) <==> x in ids && x !in prior
    ensures Distinct(Admit(prior, ids))
    ensures |Admit(prior, ids)| <= |ids|
  {
    if ids != [] {
      var init := ids[..|ids| - 1];
      AdmitMembers(prior, init);
      AdmitSnoc(prior, init, ids[|ids| - 1]);
      assert ids == init + [ids[|ids| - 1]];
    }
  }

  lemma {:induction false} HitsAt(source: Source, ids: seq<int>)
    ensures |Hits(source, ids)| == |ids|
    ensures forall i :: 0 <= i < |ids| ==> Hits(source, ids)[i] == Hit(source, ids[i])
  {
    if ids != [] {
      HitsAt(source, ids[..|ids| - 1]);
    }
  }

  /** The position of the first occurrence of `x` in `s`. */
  function FirstIndex(s: seq<int>, x: int): (k: nat)
    requires x in s
    ensures k < |s| && s[k] == x && x !in s[..k]
  {
    if s[0] == x then 0
    else
      var k := FirstIndex(s[1..], x) + 1;
      assert s[..k] == [s[0]] + s[1..][..k - 1];
      k
  }

  lemma FirstIndexSnoc(s: seq<int>, y: int, x: int)
    requires x in s
    ensures FirstIndex(s + [y], x) == FirstIndex(s, x)
  {
    if s[0] != x {
      assert (s + [y])[1..] == s[1..] + [y];
      FirstIndexSnoc(s[1..], y, x);
    }
  }

  /** Collecting keeps the order of `ids`: when `ids` is sorted by
      non-increasing score, so are the collected ids. */
  lemma {:induction false} AdmitSorted(prior: seq<int>, ids: seq<int>, scores: seq<real>)
    requires InRange(ids, |scores|)
    requires forall i, j :: 0 <= i < j < |ids| ==> scores[ids[i]] >= scores[ids[j]]
    ensures InRange(Admit(prior, ids), |scores|)
    ensures forall i, j :: 0 <= i < j < |Admit(prior, ids)| ==>
              scores[Admit(prior, ids)[i]] >= scores[Admit(prior, ids)[j]]
  {
    if ids != [] {
      var init := ids[..|ids| - 1];
      var x := ids[|ids| - 1];
      assert ids == init + [x];
      AdmitSorted(prior, init, scores);
      AdmitSnoc(prior, init, x);
      AdmitMembers(prior, init);
      var p := Admit(prior, init);
      forall i | 0 <= i < |p| ensures scores[p[i]] >= scores[x] {
        assert p[i] in p;
        var k := FirstIndex(init, p[i]);
        assert ids[k] == p[i];
      }
    }
  }

  /** Collecting keeps the order of first appearance in `ids`. */
  lemma {:induction false} AdmitFirstAppearance(prior: seq<int>, ids: seq<int>)
    ensures forall x :: x in Admit(prior, ids) ==> x in ids
    ensures forall i, j :: 0 <= i < j < |Admit(prior, ids)| ==>
              FirstIndex(ids, Admit(prior, ids)[i]) < FirstIndex(ids, Admit(prior, ids)[j])
  {
    AdmitMembers(prior, ids);
    if ids != [] {
      var init := ids[..|ids| - 1];
      var x := ids[|ids| - 1];
      assert ids == init + [x];
      AdmitFirstAppearance(prior, init);
      AdmitSnoc(prior, init, x);
      var p := Admit(prior, init);
      forall y | y in p ensures FirstIndex(ids, y) == FirstIndex(init, y) {
        FirstIndexSnoc(init, x, y);
      }
      if !(x in prior || x in p) {
        AdmitMembers(prior, init);
        assert x !in init;
        assert FirstIndex(ids, x) == |init| by {
          assert ids[..|init|] == init;
        }
      }
    }
  }

  lemma DistinctCard(s: seq<int>)
    requires Distinct(s)
    ensures |Elems(s)| == |s|
  {
    if s != [] {
      var init := s[..|s| - 1];
      assert s == init + [s[|s| - 1]];
      DistinctCard(init);
      assert Elems(s) == Elems(init) + {s[|s| - 1]};
    }
  }

  lemma SubsetCard(a: set<int>, b: set<int>)
    requires a <= b
    ensures |a| <= |b|
  {
    assert b == a + (b - a);
    assert a * (b - a) == {};
  }

  lemma DistinctConcat(a: seq<int>, b: seq<int>)
    requires Distinct(a) && Distinct(b)
    requires forall x :: x in b ==> x !in a
    ensures Distinct(a + b)
  {
    forall i, j | 0 <= i < j < |a + b| ensures (a + b)[i] != (a + b)[j] {
      if i < |a| && j >= |a| {
        assert (a + b)[j] == b[j - |a|] && b[j - |a|] in b;
      }
    }
  }

  /** The ids of the entries of a result list, in order. */
  function EntryIds(ev: seq<Evidence>): seq<int> {
    seq(|ev|, i requires 0 <= i < |ev| => ev[i].id)
  }

  /** Each entry of a successful search is the hit at its position in
      "vector ids, then keyword ids", numbered from 1. */
  lemma SearchEntries(docs: seq<Entries>, vectorHits: seq<int>, keywordHits: seq<int>)
    requires FaissRow(vectorHits) && InRange(keywordHits, |docs|)
    ensures var res := SearchSpec(docs, vectorHits, keywordHits);
            var v := VectorIds(vectorHits);
            var ids := v + KeywordIds(vectorHits, keywordHits);
            res.Ok? ==>
              && |res.value| == |ids|
              && EntryIds(res.value) == ids
              && forall i :: 0 <= i < |ids| ==>
                   res.value[i] == Entry(docs, Hit(if i < |v| then Vector else Keyword, ids[i]), i + 1)
  {
    var v := VectorIds(vectorHits);
    var k := KeywordIds(vectorHits, keywordHits);
    HitsAt(Vector, v);
    HitsAt(Keyword, k);
  }

  /** The merge: entries are numbered 1..n, no id occurs twice, and every
      Vector entry comes before every Keyword entry. */
  lemma SearchShape(docs: seq<Entries>, vectorHits: seq<int>, keywordHits: seq<int>)
    requires FaissRow(vectorHits) && InRange(keywordHits, |docs|)
    ensures var res := SearchSpec(docs, vectorHits, keywordHits);
            res.Ok? ==>
              && (forall i :: 0 <= i < |res.value| ==> res.value[i].rank == i + 1)
              && Distinct(EntryIds(res.value))
              && (forall i, j :: 0 <= i < j < |res.value| && res.value[i].source == Keyword ==>
                    res.value[j].source == Keyword)
  {
    var res := SearchSpec(docs, vectorHits, keywordHits);
    if res.Ok? {
      SearchEntries(docs, vectorHits, keywordHits);
      var v := VectorIds(vectorHits);
      AdmitMembers([-1], vectorHits);
      AdmitMembers(v, keywordHits);
      DistinctConcat(v, KeywordIds(vectorHits, keywordHits));
    }
  }

  /** Two lists of ids within range stay within range when concatenated. */
  lemma ConcatInRange(a: seq<int>, b: seq<int>, n: nat)
    requires forall x :: x in a ==> 0 <= x < n
    requires forall x :: x in b ==> 0 <= x < n
    ensures InRange(a + b, n)
  {
    forall i | 0 <= i < |a + b| ensures 0 <= (a + b)[i] < n {
      if i < |a| {
        assert (a + b)[i] == a[i] && a[i] in a;
      } else {
        assert (a + b)[i] == b[i - |a|] && b[i - |a|] in b;
      }
    }
  }

  /** Each entry names a position of the document list. */
  lemma SearchIdsInRange(docs: seq<Entries>, vectorHits: seq<int>, keywordHits: seq<int>)
    requires FaissRow(vectorHits) && InRange(keywordHits, |docs|)
    ensures var res := SearchSpec(docs, vectorHits, keywordHits);
            res.Ok? ==> InRange(EntryIds(res.value), |docs|)
  {
    var res := SearchSpec(docs, vectorHits, keywordHits);
    if res.Ok? {
      SearchEntries(docs, vectorHits, keywordHits);
      var v := VectorIds(vectorHits);
      var k := KeywordIds(vectorHits, keywordHits);
      AdmitMembers([-1], vectorHits);
      AdmitMembers(v, keywordHits);
      forall x | x in v ensures 0 <= x < |docs| {
        assert x in vectorHits && x != -1;
      }
      forall x | x in k ensures 0 <= x < |docs| {
        assert x in keywordHits;
        var i :| 0 <= i < |keywordHits| && keywordHits[i] == x;
      }
      ConcatInRange(v, k, |docs|);
    }
  }

  /** Each entry carries the title and abstract its document holds, as
      `.get(key, '')` reads them. */
  lemma SearchTexts(docs: seq<Entries>, vectorHits: seq<int>, keywordHits: seq<int>)
    requires FaissRow(vectorHits) && InRange(keywordHits, |docs|)
    ensures var res := SearchSpec(docs, vectorHits, keywordHits);
            res.Ok? ==>
              forall i :: 0 <= i < |res.value| ==>
                && 0 <= res.value[i].id < |docs|
                && res.value[i].title == Get(docs[res.value[i].id], "title", Str(""))
                && res.value[i].abstractText == Get(docs[res.value[i].id], "abstract", Str(""))
  {
    var res := SearchSpec(docs, vectorHits, keywordHits);
    if res.Ok? {
      SearchEntries(docs, vectorHits, keywordHits);
      SearchIdsInRange(docs, vectorHits, keywordHits);
      forall i | 0 <= i < |res.value| ensures 0 <= res.value[i].id < |docs| {
        assert EntryIds(res.value)[i] == res.value[i].id;
      }
    }
  }

  /** Where the entries come from, and that nothing is lost: a Vector entry is
      a vector hit, a Keyword entry is a keyword hit absent from the vector
      answer, and every non-padding vector hit and every keyword hit is listed. */
  lemma SearchProvenance(docs: seq<Entries>, vectorHits: seq<int>, keywordHits: seq<int>)
    requires FaissRow(vectorHits) && InRange(keywordHits, |docs|)
    ensures var res := SearchSpec(docs, vectorHits, keywordHits);
            res.Ok? ==>
              && (forall i :: 0 <= i < |res.value| && res.value[i].source == Vector ==>
                    res.value[i].id in vectorHits)
              && (forall i :: 0 <= i < |res.value| && res.value[i].source == Keyword ==>
                    res.value[i].id in keywordHits && res.value[i].id !in vectorHits)
              && (forall h :: h in vectorHits && h != -1 ==> h in EntryIds(res.value))
              && (forall h :: h in keywordHits ==> h in EntryIds(res.value))
  {
    var res := SearchSpec(docs, vectorHits, keywordHits);
    if res.Ok? {
      SearchEntries(docs, vectorHits, keywordHits);
      var v := VectorIds(vectorHits);
      var k := KeywordIds(vectorHits, keywordHits);
      AdmitMembers([-1], vectorHits);
      AdmitMembers(v, keywordHits);
      forall i | 0 <= i < |res.value| && res.value[i].source == Vector
        ensures res.value[i].id in vectorHits
      {
        assert v[i] in v;
      }
      forall i | 0 <= i < |res.value| && res.value[i].source == Keyword
        ensures res.value[i].id in keywordHits && res.value[i].id !in vectorHits
      {
        assert k[i - |v|] in k;
      }
    }
  }

  /** Size: at most one entry per raw hit, and at least one per keyword hit. */
  lemma SearchSize(docs: seq<Entries>, vectorHits: seq<int>, keywordHits: seq<int>)
    requires FaissRow(vectorHits) && InRange(keywordHits, |docs|) && Distinct(keywordHits)
    ensures var res := SearchSpec(docs, vectorHits, keywordHits);
            res.Ok? ==> |keywordHits| <= |res.value| <= |vectorHits| + |keywordHits|
  {
    var res := SearchSpec(docs, vectorHits, keywordHits);
    if res.Ok? {
      SearchEntries(docs, vectorHits, keywordHits);
      SearchShape(docs, vectorHits, keywordHits);
      SearchProvenance(docs, vectorHits, keywordHits);
      AdmitMembers([-1], vectorHits);
      AdmitMembers(VectorIds(vectorHits), keywordHits);
      var ids := EntryIds(res.value);
      DistinctCard(ids);
      DistinctCard(keywordHits);
      SubsetCard(Elems(keywordHits), Elems(ids));
    }
  }

  /** Keyword entries follow the BM25 ranking: scores never increase along them. */
  lemma SearchKeywordOrder(docs: seq<Entries>, vectorHits: seq<int>, keywordHits: seq<int>, scores: seq<real>)
    requires FaissRow(vectorHits) && InRange(keywordHits, |docs|) && |scores| == |docs|
    requires forall i, j :: 0 <= i < j < |keywordHits| ==> scores[keywordHits[i]] >= scores[keywordHits[j]]
    ensures var res := SearchSpec(docs, vectorHits, keywordHits);
            res.Ok? ==>
              forall i, j :: 0 <= i < j < |res.value| && res.value[i].source == Keyword ==>
                0 <= res.value[i].id < |scores| && 0 <= res.value[j].id < |scores| &&
                scores[res.value[i].id] >= scores[res.value[j].id]
  {
    var res := SearchSpec(docs, vectorHits, keywordHits);
    if res.Ok? {
      SearchEntries(docs, vectorHits, keywordHits);
      var v := VectorIds(vectorHits);
      var k := KeywordIds(vectorHits, keywordHits);
      AdmitSorted(v, keywordHits, scores);
      var ids := EntryIds(res.value);
      forall i, j | 0 <= i < j < |res.value| && res.value[i].source == Keyword
        ensures 0 <= ids[i] < |scores| && 0 <= ids[j] < |scores| && scores[ids[i]] >= scores[ids[j]]
      {
        assert ids[i] == k[i - |v|] && ids[j] == k[j - |v|];
      }
    }
  }

  /** Vector entries keep the order in which their ids first appear in the Faiss row. */
  lemma SearchVectorOrder(docs: seq<Entries>, vectorHits: seq<int>, keywordHits: seq<int>)
    requires FaissRow(vectorHits) && InRange(keywordHits, |docs|)
    ensures var res := SearchSpec(docs, vectorHits, keywordHits);
            res.Ok? ==>
              forall i, j :: 0 <= i < j < |res.value| && res.value[j].source == Vector ==>
                res.value[i].id in vectorHits && res.value[j].id in vectorHits &&
                FirstIndex(vectorHits, res.value[i].id) < FirstIndex(vectorHits, res.value[j].id)
  {
    var res := SearchSpec(docs, vectorHits, keywordHits);
    if res.Ok? {
      SearchEntries(docs, vectorHits, keywordHits);
      var v := VectorIds(vectorHits);
      AdmitFirstAppearance([-1], vectorHits);
      var ids := EntryIds(res.value);
      forall i, j | 0 <= i < j < |res.value| && res.value[j].source == Vector
        ensures ids[i] in vectorHits && ids[j] in vectorHits
        ensures FirstIndex(vectorHits, ids[i]) < FirstIndex(vectorHits, ids[j])
      {
        assert ids[i] == v[i] && ids[j] == v[j];
        assert v[i] in v && v[j] in v;
      }
    }
  }

  /** The guarantee of `search` with K = 10 hits per index over N documents:
      between min(K, N) and 2K entries. */
  lemma SearchBounds(docs: seq<Entries>, vectorHits: seq<int>, order: seq<int>, scores: seq<real>)
    requires |vectorHits| == TopK && FaissRow(vectorHits)
    requires |order| == |docs| && IsDescendingArgsort(order, scores)
    ensures InRange(order[..Min(TopK, |order|)], |docs|)
    ensures var res := SearchSpec(docs, vectorHits, order[..Min(TopK, |order|)]);
            res.Ok? ==> Min(TopK, |docs|) <= |res.value| <= 2 * TopK
  {
    TopSlice(order, scores);
    SearchSize(docs, vectorHits, order[..Min(TopK, |order|)]);
  }

  /** Nothing is collected when every id was seen beforehand. */
  lemma {:induction false} AdmitNone(prior: seq<int>, ids: seq<int>)
    requires forall x :: x in ids ==> x in prior
    ensures Admit(prior, ids) == []
  {
    if ids != [] {
      assert ids[|ids| - 1] in ids;
      AdmitNone(prior, ids[..|ids| - 1]);
    }
  }

  /** `search` over an empty document list (whose BM25 ranking is empty) with
      a vector row of padding only yields no evidence. A loaded retriever
      never has an empty document list (`LoadEmpty`), so this is an edge case
      of `search` alone. */
  lemma SearchEmptyCorpus(vectorHits: seq<int>)
    requires forall h :: h in vectorHits ==> h == -1
    ensures FaissRow(vectorHits) && InRange([], 0)
    ensures SearchSpec([], vectorHits, []) == Ok([])
  {
    AdmitNone([-1], vectorHits);
    assert VectorIds(vectorHits) == [];
    assert KeywordIds(vectorHits, []) == [];
    assert !exists h :: h in vectorHits && h >= 0;
    assert Hits(Vector, []) + Hits(Keyword, []) == [];
    assert Ranked([], []) == [];
  }
}

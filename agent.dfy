/**
  The evidence-collecting agent (agent_flow_extra_keyword_and_search.py):
  the language model's reply is searched for its JSON object of keywords,
  each keyword becomes a PubMed query restricted to randomized controlled
  trials and meta-analyses, every article that has an abstract becomes a
  record, and the records are saved with their count. The model's reply,
  the JSON parser and PubMed are parameters.
*/
module Agent {
  import opened Wrappers
  import opened Text
  import opened PyValue

  // ---------------------------------------------------------------------------
  // Step 1: the keywords
  // ---------------------------------------------------------------------------

  /** `response_text[start_idx:end_idx]`, from the first `{` through the last
      `}`; `None` where the function raises because one of them is missing.
      A last `}` before the first `{` gives Python's empty slice. */
  function KeywordSpan(response: string): Option<string> {
    var start := IndexOf(response, '{');
    var end := LastIndexOf(response, '}') + 1;
    if start == -1 || end == 0 then None
    else if start <= end then Some(response[start..end])
    else Some("")
  }

  /** `step1_extract_keywords` after the model call: the value of the
      `keywords` key of the decoded span, `[]` when there is none and `[]`
      whenever the span is missing, does not decode, or is not a dictionary
      (`.get` of a list raises, and every exception gives `[]`). */
  function ExtractKeywords(response: string, jsonLoads: string -> Option<Value>): Value {
    match KeywordSpan(response)
    case None => List([])
    case Some(span) =>
      match jsonLoads(span)
      case Some(Dict(e)) => Get(e, "keywords", List([]))
      case _ => List([])
  }

  // ---------------------------------------------------------------------------
  // Step 2: the search
  // ---------------------------------------------------------------------------

  /** The most articles one query asks PubMed for. */
  const MaxResultsPerTerm: nat := 100

  /** What pymed reports of one article. `title` is whatever pymed holds: a
      string, or `None`. */
  datatype Article = Article(pubmedId: Option<string>, title: Value, abstractText: Option<string>, publicationDate: string)

  /** The query for one keyword. */
  function FinalQuery(term: string): string {
    "(" + term + ") AND (Randomized Controlled Trial[pt] OR Meta-Analysis[pt])"
  }

  /** `s.split('\n')[0]`. */
  function FirstLine(s: string): string {
    SplitOn(s, "\n")[0]
  }

  /** The id recorded for an article: the first line of its PubMed id, or
      "N/A" when it has none. */
  function ArticleId(a: Article): string {
    if a.pubmedId.Some? && a.pubmedId.value != "" then FirstLine(a.pubmedId.value) else "N/A"
  }

  function Url(id: string): string {
    "https://pubmed.ncbi.nlm.nih.gov/" + id + "/"
  }

  /** `abstract_text`: the article's abstract, `""` when it has none. */
  function AbstractOf(a: Article): string {
    if a.abstractText.Some? then a.abstractText.value else ""
  }

  /** Whether the loop keeps an article: it has a non-empty abstract. */
  predicate HasAbstract(a: Article) {
    AbstractOf(a) != ""
  }

  /** `article_data` for an article found by `term`. */
  function RecordOf(a: Article, term: Value): Value {
    var id := ArticleId(a);
    Dict([("id", Str(id)), ("title", a.title), ("abstract", Str(AbstractOf(a))),
          ("pub_date", Str(a.publicationDate)), ("search_term", term), ("url", Str(Url(id)))])
  }

  /** The records the inner loop appends for the articles of one query. */
  function Records(articles: seq<Article>, term: Value): seq<Value> {
    if articles == [] then []
    else
      var prior := Records(articles[..|articles| - 1], term);
      var a := articles[|articles| - 1];
      if HasAbstract(a) then prior + [RecordOf(a, term)] else prior
  }

  /** `all_articles` after the outer loop has visited `terms`. `query` gives,
      for a query, the articles pymed yields before its iteration ends or
      raises; an exception ends that keyword only, and the records already
      appended for it stay. */
  function Collected(terms: seq<Value>, query: string -> seq<Article>): seq<Value> {
    if terms == [] then []
    else
      var term := terms[|terms| - 1];
      Collected(terms[..|terms| - 1], query) + Records(query(FinalQuery(ToStr(term))), term)
  }

  /** The queries the outer loop sends for `terms`, in order. */
  function Queries(terms: seq<Value>): seq<string> {
    if terms == [] then [] else Queries(terms[..|terms| - 1]) + [FinalQuery(ToStr(terms[|terms| - 1]))]
  }

  /** What `step2_search_pubmed` returns for `keywords`: nothing and no query
      for a false value; the `TypeError` of iterating a true value that is
      not iterable; otherwise the records of all keywords in order. */
  function SearchResult(keywords: Value, query: string -> seq<Article>): Result<seq<Value>, Exception> {
    if !Truthy(keywords) then Ok([])
    else
      match Iterate(keywords)
      case Err(e) => Err(e)
      case Ok(terms) => Ok(Collected(terms, query))
  }

  /** The inner loop of `step2_search_pubmed`: the records of one query's
      articles appended to `allArticles`, and `count` of them. */
  method AppendRecords(allArticles0: seq<Value>, results: seq<Article>, queryStr: Value)
    returns (allArticles: seq<Value>, count: nat)
    ensures allArticles == allArticles0 + Records(results, queryStr)
    ensures count == |Records(results, queryStr)|
  {
    allArticles := allArticles0;
    count := 0;
    var j := 0;
    while j < |results|
      invariant 0 <= j <= |results|
      invariant allArticles == allArticles0 + Records(results[..j], queryStr)
      invariant count == |Records(results[..j], queryStr)|
    {
      var article := results[j];
      assert results[..j + 1][..j] == results[..j];
      var abstractText := AbstractOf(article);
      if abstractText != "" {
        allArticles := allArticles + [RecordOf(article, queryStr)];
        count := count + 1;
      }
      j := j + 1;
    }
    assert results[..j] == results;
  }

  /** The outer loop of `step2_search_pubmed`, over the keywords in order. */
  method SearchTerms(keywordList: seq<Value>, query: string -> seq<Article>)
    returns (allArticles: seq<Value>, issued: seq<string>)
    ensures allArticles == Collected(keywordList, query)
    ensures issued == Queries(keywordList)
  {
    allArticles := [];
    issued := [];
    var i := 0;
    while i < |keywordList|
      invariant 0 <= i <= |keywordList|
      invariant allArticles == Collected(keywordList[..i], query)
      invariant issued == Queries(keywordList[..i])
    {
      var queryStr := keywordList[i];
      var finalQuery := FinalQuery(ToStr(queryStr));
      var results := query(finalQuery);
      issued := issued + [finalQuery];
      var count;
      allArticles, count := AppendRecords(allArticles, results, queryStr);
      assert keywordList[..i + 1][..i] == keywordList[..i];
      i := i + 1;
    }
    assert keywordList[..i] == keywordList;
  }

  /** `step2_search_pubmed`. `issued` is the queries sent to PubMed. */
  method SearchPubMed(keywords: Value, query: string -> seq<Article>)
    returns (allArticles: Result<seq<Value>, Exception>, issued: seq<string>)
    ensures allArticles == SearchResult(keywords, query)
    ensures issued == if Truthy(keywords) && Iterate(keywords).Ok? then Queries(Iterate(keywords).value) else []
  {
    if !Truthy(keywords) {
      return Ok([]), [];
    }
    var terms := Iterate(keywords);
    if terms.Err? {
      return Err(terms.error), [];
    }
    var found;
    found, issued := SearchTerms(terms.value, query);
    allArticles := Ok(found);
  }

  // ---------------------------------------------------------------------------
  // Step 3: the saved report
  // ---------------------------------------------------------------------------

  /** `output_data`: the advertisement, the number of records and the records. */
  function SavedReport(adText: string, articles: seq<Value>): Value {
    Dict([("original_ad", Str(adText)), ("evidence_count", Int(|articles|)), ("evidence_list", List(articles))])
  }

  /** `run`: the keywords of the model's reply, their search, and the report
      written to the dataset file; the `TypeError` of an uniterable keyword
      value propagates before anything is written. */
  method Run(adText: string, response: string, jsonLoads: string -> Option<Value>, query: string -> seq<Article>)
    returns (saved: Result<Value, Exception>)
    ensures var found := SearchResult(ExtractKeywords(response, jsonLoads), query);
            saved == if found.Err? then Err(found.error) else Ok(SavedReport(adText, found.value))
  {
    var keywords := ExtractKeywords(response, jsonLoads);
    var articles, _ := SearchPubMed(keywords, query);
    if articles.Err? {
      return Err(articles.error);
    }
    saved := Ok(SavedReport(adText, articles.value));
  }

  // ---------------------------------------------------------------------------
  // Properties
  // ---------------------------------------------------------------------------

  /** The span is missing exactly when the reply lacks a `{` or a `}`. */
  lemma SpanMissing(response: string)
    ensures KeywordSpan(response).None? <==> '{' !in response || '}' !in response
  {
  }

  /** A non-empty span runs from the reply's first `{` through its last `}`:
      nothing before it is a `{` and nothing after it is a `}`. */
  lemma SpanOutermost(response: string)
    requires KeywordSpan(response).Some? && KeywordSpan(response).value != ""
    ensures var span := KeywordSpan(response).value;
            && span[0] == '{' && span[|span| - 1] == '}'
            && exists pre, post :: response == pre + span + post && '{' !in pre && '}' !in post
  {
    SpanBounds(response);
    BetweenBraces(response, IndexOf(response, '{'), LastIndexOf(response, '}') + 1);
  }

  lemma SpanBounds(response: string)
    requires KeywordSpan(response).Some? && KeywordSpan(response).value != ""
    ensures 0 <= IndexOf(response, '{') < LastIndexOf(response, '}') + 1 <= |response|
    ensures KeywordSpan(response) == Some(response[IndexOf(response, '{')..LastIndexOf(response, '}') + 1])
  {
  }

  lemma BetweenBraces(s: string, start: int, end: int)
    requires 0 <= start < end <= |s|
    requires s[start] == '{' && '{' !in s[..start]
    requires s[end - 1] == '}' && '}' !in s[end..]
    ensures var span := s[start..end];
            && span[0] == '{' && span[|span| - 1] == '}'
            && exists pre, post :: s == pre + span + post && '{' !in pre && '}' !in post
  {
    assert s == s[..start] + s[start..end] + s[end..];
  }

  /** When the last `}` comes before the first `{`, the slice is empty. */
  lemma SpanReversed(response: string)
    requires '{' in response && '}' in response
    requires LastIndexOf(response, '}') < IndexOf(response, '{')
    ensures KeywordSpan(response) == Some("")
  {
    var start := IndexOf(response, '{');
    var end := LastIndexOf(response, '}') + 1;
    assert start != -1 && end != 0 && end <= start;
    if start <= end {
      assert response[start..end] == [];
    }
  }

  /** Keywords other than `[]` come from the `keywords` entry of a decoded
      dictionary; a reply without a span, a span that does not decode, a
      decoded value that is not a dictionary, or a dictionary without the key
      all give `[]`. */
  lemma KeywordsOrigin(response: string, jsonLoads: string -> Option<Value>)
    ensures ExtractKeywords(response, jsonLoads) != List([]) ==>
              && KeywordSpan(response).Some?
              && jsonLoads(KeywordSpan(response).value).Some?
              && jsonLoads(KeywordSpan(response).value).value.Dict?
              && Lookup(jsonLoads(KeywordSpan(response).value).value.entries, "keywords") == Some(ExtractKeywords(response, jsonLoads))
    ensures KeywordSpan(response).Some? && jsonLoads(KeywordSpan(response).value).Some?
            && jsonLoads(KeywordSpan(response).value).value.Dict?
            && Lookup(jsonLoads(KeywordSpan(response).value).value.entries, "keywords").Some? ==>
              ExtractKeywords(response, jsonLoads) == Lookup(jsonLoads(KeywordSpan(response).value).value.entries, "keywords").value
  {
    match KeywordSpan(response)
    case None =>
    case Some(span) =>
      match jsonLoads(span)
      case Some(Dict(e)) => GetLookup(e, "keywords", List([]));
      case _ =>
  }

  /** No keywords, no queries: a false keyword value is returned as `[]`
      before PubMed is contacted. */
  lemma NoKeywordsNoSearch(keywords: Value, query: string -> seq<Article>)
    requires !Truthy(keywords)
    ensures SearchResult(keywords, query) == Ok([])
  {
  }

  /** `FirstLine` is the text before the first line break. */
  lemma FirstLineShape(s: string)
    ensures '\n' !in FirstLine(s)
    ensures FirstLine(s) == s || (|FirstLine(s)| < |s| && s[..|FirstLine(s)| + 1] == FirstLine(s) + "\n")
  {
    SplitOnPieces(s, "\n");
    var parts := SplitOn(s, "\n");
    assert !Contains(parts[0], "\n");
    if '\n' in FirstLine(s) {
      var k :| 0 <= k < |FirstLine(s)| && FirstLine(s)[k] == '\n';
      assert FirstLine(s)[k..k + 1] == "\n";
      ContainsAt(FirstLine(s), "\n", k);
    }
    if Contains(s, "\n") {
      var i := Find(s, "\n").value;
      SplitOnAt(s, "\n", i);
      assert FirstLine(s) == s[..i];
      assert s[..i + 1] == s[..i] + "\n";
    } else {
      SplitOnCount(s, "\n");
      JoinSplitOn(s, "\n");
      assert parts == [parts[0]];
    }
  }

  /** A lookup passes over a first entry with another key. */
  lemma LookupPast(e: Entries, k: string)
    requires e != [] && e[0].0 != k
    ensures Lookup(e, k) == Lookup(e[1..], k)
  {
  }

  /** The fields of an `article_data` dictionary. */
  lemma RecordEntries(id: string, title: Value, abstractText: string, pubDate: string, term: Value)
    ensures var e := [("id", Str(id)), ("title", title), ("abstract", Str(abstractText)),
                      ("pub_date", Str(pubDate)), ("search_term", term), ("url", Str(Url(id)))];
            && Lookup(e, "id") == Some(Str(id))
            && Lookup(e, "title") == Some(title)
            && Lookup(e, "abstract") == Some(Str(abstractText))
            && Lookup(e, "search_term") == Some(term)
            && Lookup(e, "url") == Some(Str(Url(id)))
  {
    var e := [("id", Str(id)), ("title", title), ("abstract", Str(abstractText)),
              ("pub_date", Str(pubDate)), ("search_term", term), ("url", Str(Url(id)))];
    var e1 := e[1..];
    assert e1 == [("title", title), ("abstract", Str(abstractText)), ("pub_date", Str(pubDate)), ("search_term", term), ("url", Str(Url(id)))];
    var e2 := e1[1..];
    assert e2 == [("abstract", Str(abstractText)), ("pub_date", Str(pubDate)), ("search_term", term), ("url", Str(Url(id)))];
    var e3 := e2[1..];
    assert e3 == [("pub_date", Str(pubDate)), ("search_term", term), ("url", Str(Url(id)))];
    var e4 := e3[1..];
    assert e4 == [("search_term", term), ("url", Str(Url(id)))];
    var e5 := e4[1..];
    assert e5 == [("url", Str(Url(id)))];
    LookupPast(e4, "url");
    LookupPast(e3, "url");
    LookupPast(e3, "search_term");
    LookupPast(e2, "url");
    LookupPast(e2, "search_term");
    LookupPast(e1, "url");
    LookupPast(e1, "search_term");
    LookupPast(e1, "abstract");
    LookupPast(e, "url");
    LookupPast(e, "search_term");
    LookupPast(e, "abstract");
    LookupPast(e, "title");
  }

  /** Each record's id, url, abstract and search term: the url is the
      article's PubMed page, the abstract is never empty. */
  lemma RecordFields(a: Article, term: Value)
    requires HasAbstract(a)
    ensures var e := RecordOf(a, term).entries;
            && Lookup(e, "id") == Some(Str(ArticleId(a)))
            && Lookup(e, "url") == Some(Str("https://pubmed.ncbi.nlm.nih.gov/" + ArticleId(a) + "/"))
            && Lookup(e, "abstract") == Some(Str(AbstractOf(a))) && AbstractOf(a) != ""
            && Lookup(e, "search_term") == Some(term)
            && Lookup(e, "title") == Some(a.title)
  {
    RecordEntries(ArticleId(a), a.title, AbstractOf(a), a.publicationDate, term);
  }

  /** The records of a concatenation are the records of the parts, in order. */
  lemma {:induction false} RecordsAppend(a: seq<Article>, b: seq<Article>, term: Value)
    ensures Records(a + b, term) == Records(a, term) + Records(b, term)
    decreases |b|
  {
    if b == [] {
      assert a + b == a;
    } else {
      var init := b[..|b| - 1];
      assert (a + b)[..|a + b| - 1] == a + init;
      assert (a + b)[|a + b| - 1] == b[|b| - 1];
      RecordsAppend(a, init, term);
    }
  }

  /** A record is kept for exactly the articles with an abstract. */
  lemma {:induction false} RecordsMembers(articles: seq<Article>, term: Value)
    ensures forall r :: r in Records(articles, term) <==> exists a :: a in articles && HasAbstract(a) && r == RecordOf(a, term)
  {
    if articles != [] {
      var init := articles[..|articles| - 1];
      var last := articles[|articles| - 1];
      RecordsMembers(init, term);
      assert articles == init + [last];
      forall r | r in Records(articles, term) ensures exists a :: a in articles && HasAbstract(a) && r == RecordOf(a, term) {
        if r in Records(init, term) {
          var a :| a in init && HasAbstract(a) && r == RecordOf(a, term);
          assert a in articles;
        } else {
          assert r == RecordOf(last, term);
        }
      }
      forall a | a in articles && HasAbstract(a) ensures RecordOf(a, term) in Records(articles, term) {
        if a in init {
          assert RecordOf(a, term) in Records(init, term);
        }
      }
    }
  }

  /** Records are at most one per article. */
  lemma {:induction false} RecordsBound(articles: seq<Article>, term: Value)
    ensures |Records(articles, term)| <= |articles|
  {
    if articles != [] {
      RecordsBound(articles[..|articles| - 1], term);
    }
  }

  /** Keywords are searched in order: the records of a concatenation of
      keyword lists are the records of the first, then of the second. */
  lemma {:induction false} CollectedAppend(a: seq<Value>, b: seq<Value>, query: string -> seq<Article>)
    ensures Collected(a + b, query) == Collected(a, query) + Collected(b, query)
    decreases |b|
  {
    if b == [] {
      assert a + b == a;
    } else {
      var init := b[..|b| - 1];
      var last := b[|b| - 1];
      assert b == init + [last];
      assert a + b == (a + init) + [last];
      CollectedAppend(a, init, query);
      CollectedSnoc(a + init, last, query);
      CollectedSnoc(init, last, query);
      AppendAssoc(Collected(a, query), Collected(init, query), Records(query(FinalQuery(ToStr(last))), last));
    }
  }

  /** One more keyword appends its records. */
  lemma CollectedSnoc(terms: seq<Value>, term: Value, query: string -> seq<Article>)
    ensures Collected(terms + [term], query) == Collected(terms, query) + Records(query(FinalQuery(ToStr(term))), term)
  {
    assert (terms + [term])[..|terms|] == terms;
  }

  /** When PubMed honours `max_results`, a search returns at most
      MaxResultsPerTerm records per keyword. */
  lemma {:induction false} CollectedBound(terms: seq<Value>, query: string -> seq<Article>)
    requires forall i :: 0 <= i < |terms| ==> |query(FinalQuery(ToStr(terms[i])))| <= MaxResultsPerTerm
    ensures |Collected(terms, query)| <= MaxResultsPerTerm * |terms|
  {
    if terms != [] {
      var init := terms[..|terms| - 1];
      var term := terms[|terms| - 1];
      CollectedBound(init, query);
      RecordsBound(query(FinalQuery(ToStr(term))), term);
    }
  }

  /** The saved count is the number of saved records, and the report is read
      back as its evidence list. */
  lemma ReportCount(adText: string, articles: seq<Value>)
    ensures var e := SavedReport(adText, articles).entries;
            && Lookup(e, "evidence_count") == Some(Int(|articles|))
            && Lookup(e, "evidence_list") == Some(List(articles))
            && Lookup(e, "original_ad") == Some(Str(adText))
  {
  }
}

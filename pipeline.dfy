/**
  How the stages meet: the dataset the agent saves is the input of the
  knowledge-base build (step2_build.py), and the documents the build pickles
  are what the retriever loads (step3_rag.py). The JSON file and the pickle
  between them are taken to hand back the values written.
*/
module Pipeline {
  import opened Wrappers
  import opened PyValue
  import opened Build
  import opened Retrieval
  import opened Agent

  /** What every saved record has: a title entry, and a non-empty string abstract. */
  predicate RecordShaped(v: Value) {
    && v.Dict?
    && Lookup(v.entries, "title").Some?
    && Lookup(v.entries, "abstract").Some? && Lookup(v.entries, "abstract").value.Str?
    && Lookup(v.entries, "abstract").value.s != ""
  }

  /** The abstract of a saved record. */
  function RecordAbstract(v: Value): string
    requires RecordShaped(v)
  {
    Lookup(v.entries, "abstract").value.s
  }

  /** The record of an article with an abstract has that shape. */
  lemma RecordOfShaped(a: Article, term: Value)
    requires HasAbstract(a)
    ensures RecordShaped(RecordOf(a, term)) && RecordAbstract(RecordOf(a, term)) == AbstractOf(a)
    ensures Lookup(RecordOf(a, term).entries, "title") == Some(a.title)
  {
    RecordFields(a, term);
  }

  /** Shaped records stay shaped when lists of them are concatenated. */
  lemma ShapedAppend(p: seq<Value>, q: seq<Value>)
    requires forall i :: 0 <= i < |p| ==> RecordShaped(p[i])
    requires forall i :: 0 <= i < |q| ==> RecordShaped(q[i])
    ensures forall i :: 0 <= i < |p + q| ==> RecordShaped((p + q)[i])
  {
    forall i | 0 <= i < |p + q| ensures RecordShaped((p + q)[i]) {
      if i < |p| {
        assert (p + q)[i] == p[i];
      } else {
        assert (p + q)[i] == q[i - |p|];
      }
    }
  }

  /** Every record the search collects has that shape. */
  lemma RecordsShaped(articles: seq<Article>, term: Value)
    ensures forall i :: 0 <= i < |Records(articles, term)| ==> RecordShaped(Records(articles, term)[i])
  {
    RecordsMembers(articles, term);
    forall i | 0 <= i < |Records(articles, term)| ensures RecordShaped(Records(articles, term)[i]) {
      var r := Records(articles, term)[i];
      assert r in Records(articles, term);
      var a :| a in articles && HasAbstract(a) && r == RecordOf(a, term);
      RecordOfShaped(a, term);
    }
  }

  lemma {:induction false} CollectedShaped(terms: seq<Value>, query: string -> seq<Article>)
    ensures forall i :: 0 <= i < |Collected(terms, query)| ==> RecordShaped(Collected(terms, query)[i])
  {
    if terms != [] {
      var init := terms[..|terms| - 1];
      var term := terms[|terms| - 1];
      CollectedShaped(init, query);
      RecordsShaped(query(FinalQuery(ToStr(term))), term);
      ShapedAppend(Collected(init, query), Records(query(FinalQuery(ToStr(term))), term));
    }
  }

  /** A saved record passes the build's filter exactly when its abstract is
      longer than five characters, and never makes the filter raise. */
  lemma RecordQualifies(v: Value)
    requires RecordShaped(v)
    ensures !Unsized(v)
    ensures Qualifies(v.entries) <==> |RecordAbstract(v)| > 5
  {
    GetLookup(v.entries, "abstract", Str(""));
  }

  /** The build's filter over saved records never raises, and keeps
      exactly the records whose abstract is longer than five characters. */
  lemma FilterRecords(records: seq<Value>)
    requires forall i :: 0 <= i < |records| ==> RecordShaped(records[i])
    ensures Filter(records).Ok?
    ensures forall d :: d in Filter(records).value <==> Dict(d) in records && |RecordAbstract(Dict(d))| > 5
  {
    forall i | 0 <= i < |records| ensures !Unsized(records[i]) {
      RecordQualifies(records[i]);
    }
    FilterRaises(records);
    FilterMembers(records);
    forall d | Dict(d) in records ensures Qualifies(d) <==> |RecordAbstract(Dict(d))| > 5 {
      RecordQualifies(Dict(d));
    }
  }

  /** Building from the agent's dataset: no records stop the build before
      any embedding; otherwise it never raises and keeps exactly the records
      whose abstract is longer than five characters. */
  lemma AgentDatasetBuild(adText: string, records: seq<Value>)
    requires forall i :: 0 <= i < |records| ==> RecordShaped(records[i])
    ensures records == [] ==> BuildSpec(true, SavedReport(adText, records)) == EmptyData
    ensures records != [] ==> BuildSpec(true, SavedReport(adText, records)).Built? ||
                              BuildSpec(true, SavedReport(adText, records)) == NoValidAbstract
    ensures var out := BuildSpec(true, SavedReport(adText, records));
            out.Built? ==> forall d :: d in out.documents <==> Dict(d) in records && |RecordAbstract(Dict(d))| > 5
    ensures BuildSpec(true, SavedReport(adText, records)) == NoValidAbstract ==>
              forall i :: 0 <= i < |records| ==> |RecordAbstract(records[i])| <= 5
  {
    SavedArticles(adText, records);
    FilterRecords(records);
    forall i | 0 <= i < |records| && Filter(records).value == [] ensures |RecordAbstract(records[i])| <= 5 {
      assert records[i] == Dict(records[i].entries);
    }
  }

  /** The built documents load into a retriever exactly when every title is
      a string and some document has a token: the build writes `str()` of
      any title, but the retriever's corpus concatenates the title itself,
      and BM25 divides by the corpus size and vocabulary size. */
  lemma BuiltDocumentsLoad(docs: seq<Entries>)
    requires forall i :: 0 <= i < |docs| ==> RecordShaped(Dict(docs[i]))
    ensures Load(true, Some(docs)).Ok? <==>
              (forall i :: 0 <= i < |docs| ==> Lookup(docs[i], "title").Some? && Lookup(docs[i], "title").value.Str?)
              && SomeToken(docs)
  {
  }

  /** The build reads the saved report's evidence list. */
  lemma SavedArticles(adText: string, records: seq<Value>)
    ensures Articles(SavedReport(adText, records)) == Some(List(records))
  {
    ReportCount(adText, records);
  }

  /** A filter over one kept dictionary keeps it. */
  lemma FilterSingle(r: Value)
    requires r.Dict? && Keep(r) == Ok(true)
    ensures Filter([r]) == Ok([r.entries])
  {
    var items := [r];
    assert items[..|items| - 1] == [] && items[|items| - 1] == r;
    assert Filter(items[..|items| - 1]) == Ok([]);
    assert [] + [r.entries] == [r.entries];
  }

  /** One saved record with an abstract longer than five characters builds
      a knowledge base of that record alone. */
  lemma SingleRecordBuild(adText: string, r: Value)
    requires RecordShaped(r) && |RecordAbstract(r)| > 5
    ensures BuildSpec(true, SavedReport(adText, [r])) == Built(EmbeddingTexts([r.entries]), [r.entries])
  {
    SavedArticles(adText, [r]);
    GetLookup(r.entries, "abstract", Str(""));
    FilterSingle(r);
    assert Iterate(List([r])) == Ok([r]);
  }

  /** An article PubMed reports without a title, whose abstract is longer
      than five characters, is built into the knowledge base, and the
      retriever then cannot load it. */
  lemma NullTitleFailsLoad(adText: string, a: Article, term: Value)
    requires a.title == Null && |AbstractOf(a)| > 5
    ensures var out := BuildSpec(true, SavedReport(adText, [RecordOf(a, term)]));
            && out.Built? && out.documents == [RecordOf(a, term).entries]
            && Load(true, Some(out.documents)).Err?
  {
    RecordOfShaped(a, term);
    NullTitleRecordFailsLoad(adText, RecordOf(a, term));
  }

  lemma NullTitleRecordFailsLoad(adText: string, r: Value)
    requires RecordShaped(r) && Lookup(r.entries, "title") == Some(Null) && |RecordAbstract(r)| > 5
    ensures var out := BuildSpec(true, SavedReport(adText, [r]));
            out.Built? && out.documents == [r.entries] && Load(true, Some(out.documents)).Err?
  {
    SingleRecordBuild(adText, r);
    BuiltDocumentsLoad([r.entries]);
    assert [r.entries][0] == r.entries;
  }
}

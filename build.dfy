/**
  Building the knowledge base (`build_knowledge_base` in step2_build.py).

  The decoded dataset is reduced to a list of articles by its shape, every
  dictionary article with an abstract longer than five characters is kept,
  and one embedding text is made per kept article. The texts are embedded
  and indexed, and the kept articles are pickled beside the index; the
  embedder, the index and the files are not part of this model, but the
  index holds one vector per text, so the texts stand for it.
*/
module Build {
  import opened Wrappers
  import opened Text
  import opened PyValue

  /** How a run ends: one of the early returns, an exception escaping the
      filter loop, or the artifacts written. `texts` are the embedded texts,
      one index vector each; `documents` is the pickled article list. */
  datatype Outcome =
    | InputMissing
    | UnrecognizedFormat
    | EmptyData
    | NoValidAbstract
    | Raised(error: Exception)
    | Built(texts: seq<string>, documents: seq<Entries>)

  /** The article list the dataset's shape gives: the `evidence_list` entry
      of a wrapper dictionary, a list itself, any other dictionary as a
      one-article list; `None` for any other value. */
  function Articles(raw: Value): Option<Value> {
    if raw.Dict? && Lookup(raw.entries, "evidence_list").Some? then Some(Lookup(raw.entries, "evidence_list").value)
    else if raw.List? then Some(raw)
    else if raw.Dict? then Some(List([raw]))
    else None
  }

  /** Whether the filter keeps an item: it must be a dictionary whose
      abstract (default `''`) is true and longer than five. `len` of a true
      value with no length (a number, `True`) raises. */
  function Keep(doc: Value): Result<bool, Exception> {
    if !doc.Dict? then Ok(false)
    else
      var abstractText := Get(doc.entries, "abstract", Str(""));
      if !Truthy(abstractText) then Ok(false)
      else
        match Len(abstractText)
        case Err(e) => Err(e)
        case Ok(n) => Ok(n > 5)
  }

  /** The kept articles, in input order; the first item `Keep` raises on
      stops the loop. */
  function Filter(items: seq<Value>): Result<seq<Entries>, Exception> {
    if items == [] then Ok([])
    else
      match Filter(items[..|items| - 1])
      case Err(e) => Err(e)
      case Ok(kept) =>
        var doc := items[|items| - 1];
        match Keep(doc)
        case Err(e) => Err(e)
        case Ok(b) => Ok(if b then kept + [doc.entries] else kept)
  }

  /** `f"Title: {title}\nAbstract: {abstract}"` with the title defaulting to
      'No Title' and the abstract to ''. */
  function EmbeddingText(doc: Entries): string {
    "Title: " + ToStr(Get(doc, "title", Str("No Title"))) + "\nAbstract: " + ToStr(Get(doc, "abstract", Str("")))
  }

  function EmbeddingTexts(docs: seq<Entries>): (texts: seq<string>)
    ensures |texts| == |docs|
    ensures forall i :: 0 <= i < |docs| ==> texts[i] == EmbeddingText(docs[i])
  {
    seq(|docs|, i requires 0 <= i < |docs| => EmbeddingText(docs[i]))
  }

  /** What a run of `build_knowledge_base` ends with, for a dataset file that
      exists or not and decodes to `raw`. */
  function BuildSpec(inputExists: bool, raw: Value): Outcome {
    if !inputExists then InputMissing
    else
      match Articles(raw)
      case None => UnrecognizedFormat
      case Some(articles) =>
        if !Truthy(articles) then EmptyData
        else
          match Iterate(articles)
          case Err(e) => Raised(e)
          case Ok(items) =>
            match Filter(items)
            case Err(e) => Raised(e)
            case Ok(kept) =>
              if kept == [] then NoValidAbstract else Built(EmbeddingTexts(kept), kept)
  }

  // ---------------------------------------------------------------------------
  // The build: the method
  // ---------------------------------------------------------------------------

  /** The filter loop: `texts` and `valid_articles` grow together, one entry
      per kept article. */
  method CollectTexts(items: seq<Value>) returns (result: Result<(seq<string>, seq<Entries>), Exception>)
    ensures Filter(items).Err? ==> result == Err(Filter(items).error)
    ensures Filter(items).Ok? ==> result == Ok((EmbeddingTexts(Filter(items).value), Filter(items).value))
  {
    var texts: seq<string> := [];
    var validArticles: seq<Entries> := [];
    var i := 0;
    while i < |items|
      invariant 0 <= i <= |items|
      invariant Filter(items[..i]) == Ok(validArticles)
      invariant texts == EmbeddingTexts(validArticles)
    {
      var doc := items[i];
      assert items[..i + 1][..i] == items[..i];
      if doc.Dict? {
        var abstractText := Get(doc.entries, "abstract", Str(""));
        if Truthy(abstractText) {
          var n := Len(abstractText);
          if n.Err? {
            assert items[..i + 1] == items[..i] + [doc];
            FilterPrefixError(items, i + 1);
            return Err(n.error);
          }
          if n.value > 5 {
            texts := texts + [EmbeddingText(doc.entries)];
            validArticles := validArticles + [doc.entries];
          }
        }
      }
      i := i + 1;
    }
    assert items[..i] == items;
    result := Ok((texts, validArticles));
  }

  /** Once a prefix raises, the whole list raises with the same exception. */
  lemma {:induction false} FilterPrefixError(items: seq<Value>, k: nat)
    requires k <= |items| && Filter(items[..k]).Err?
    ensures Filter(items) == Filter(items[..k])
    decreases |items| - k
  {
    if k < |items| {
      assert items[..k + 1][..k] == items[..k];
      FilterPrefixError(items, k + 1);
    } else {
      assert items[..k] == items;
    }
  }

  /** `build_knowledge_base`: the early returns in source order, then the
      filter, then the artifacts. */
  method BuildKnowledgeBase(inputExists: bool, raw: Value) returns (outcome: Outcome)
    ensures outcome == BuildSpec(inputExists, raw)
  {
    if !inputExists {
      return InputMissing;
    }
    var articles: Value;
    if raw.Dict? && Lookup(raw.entries, "evidence_list").Some? {
      articles := Lookup(raw.entries, "evidence_list").value;
    } else if raw.List? {
      articles := raw;
    } else if raw.Dict? {
      articles := List([raw]);
    } else {
      return UnrecognizedFormat;
    }
    if !Truthy(articles) {
      return EmptyData;
    }
    var items := Iterate(articles);
    if items.Err? {
      return Raised(items.error);
    }
    var collected := CollectTexts(items.value);
    if collected.Err? {
      return Raised(collected.error);
    }
    var (texts, validArticles) := collected.value;
    if texts == [] {
      return NoValidAbstract;
    }
    outcome := Built(texts, validArticles);
  }

  // ---------------------------------------------------------------------------
  // Properties
  // ---------------------------------------------------------------------------

  /** The kept articles: dictionaries whose abstract is true and longer than five. */
  predicate Qualifies(doc: Entries) {
    var abstractText := Get(doc, "abstract", Str(""));
    Truthy(abstractText) && Len(abstractText).Ok? && Len(abstractText).value > 5
  }

  /** An item that stops the filter: a dictionary whose abstract is true but
      has no length. */
  predicate Unsized(item: Value) {
    item.Dict? && Truthy(Get(item.entries, "abstract", Str(""))) && Len(Get(item.entries, "abstract", Str(""))).Err?
  }

  /** The filter of a concatenation is the concatenation of the filters:
      kept articles stay in input order. */
  lemma {:induction false} FilterAppend(a: seq<Value>, b: seq<Value>)
    ensures Filter(a).Err? ==> Filter(a + b) == Filter(a)
    ensures Filter(a).Ok? && Filter(b).Ok? ==> Filter(a + b) == Ok(Filter(a).value + Filter(b).value)
    ensures Filter(a).Ok? && Filter(b).Err? ==> Filter(a + b) == Filter(b)
    decreases |b|
  {
    if b == [] {
      assert a + b == a;
      assert Filter(a).Ok? ==> Filter(a).value + [] == Filter(a).value;
    } else {
      var init := b[..|b| - 1];
      var x := b[|b| - 1];
      assert a + b == (a + init) + [x];
      assert b == init + [x];
      FilterAppend(a, init);
      FilterSnoc(a + init, x);
      FilterSnoc(init, x);
      if Filter(a).Ok? && Filter(init).Ok? && Keep(x) == Ok(true) {
        var p, q := Filter(a).value, Filter(init).value;
        assert p + q + [x.entries] == p + (q + [x.entries]);
      }
    }
  }

  /** One more item: the filter of the longer list in terms of the shorter. */
  lemma FilterSnoc(items: seq<Value>, x: Value)
    ensures Filter(items + [x]) ==
              match Filter(items)
              case Err(e) => Err(e)
              case Ok(kept) =>
                match Keep(x)
                case Err(e) => Err(e)
                case Ok(b) => Ok(if b then kept + [x.entries] else kept)
  {
    assert (items + [x])[..|items + [x]| - 1] == items;
  }

  /** The filter raises exactly when some item is a dictionary with a true
      abstract that has no length; it then raises TypeError. */
  lemma {:induction false} FilterRaises(items: seq<Value>)
    ensures Filter(items).Err? <==> exists i :: 0 <= i < |items| && Unsized(items[i])
    ensures Filter(items).Err? ==> Filter(items).error == TypeError
  {
    if items != [] {
      var init := items[..|items| - 1];
      FilterRaises(init);
      if exists i :: 0 <= i < |init| && Unsized(init[i]) {
        var i :| 0 <= i < |init| && Unsized(init[i]);
        assert items[i] == init[i];
      }
      if exists i :: 0 <= i < |items| && Unsized(items[i]) {
        var i :| 0 <= i < |items| && Unsized(items[i]);
        if i < |init| {
          assert init[i] == items[i];
        }
      }
    }
  }

  /** A successful filter keeps exactly the qualifying dictionaries of the input. */
  lemma {:induction false} FilterMembers(items: seq<Value>)
    requires Filter(items).Ok?
    ensures forall d :: d in Filter(items).value <==> Dict(d) in items && Qualifies(d)
  {
    if items != [] {
      var init := items[..|items| - 1];
      var x := items[|items| - 1];
      FilterMembers(init);
      assert items == init + [x];
      forall d ensures d in Filter(items).value <==> Dict(d) in items && Qualifies(d) {
        if Dict(d) in items && Dict(d) != x {
          var i :| 0 <= i < |items| && items[i] == Dict(d);
          assert i < |init| && init[i] == Dict(d);
        }
      }
    }
  }

  /** The shape rules: a wrapper dictionary builds the same knowledge base
      as its `evidence_list` alone when that is a list, and a dictionary
      without one builds the same as the one-article list holding it. */
  lemma ShapeEquivalence(e: Entries)
    ensures Lookup(e, "evidence_list").Some? && Lookup(e, "evidence_list").value.List? ==>
              BuildSpec(true, Dict(e)) == BuildSpec(true, Lookup(e, "evidence_list").value)
    ensures Lookup(e, "evidence_list").None? ==> BuildSpec(true, Dict(e)) == BuildSpec(true, List([Dict(e)]))
  {
  }

  /** Only the dataset's shape decides whether it is recognised: any
      dictionary or list is, nothing else is. */
  lemma Recognised(raw: Value)
    ensures BuildSpec(true, raw) == UnrecognizedFormat <==> !raw.Dict? && !raw.List?
    ensures BuildSpec(false, raw) == InputMissing
  {
  }

  /** A build that writes has at least one text; the vector index and the
      pickled list have the same length and line up: text `i` is made from
      document `i`, and every document is a qualifying dictionary of the input. */
  lemma BuiltAligned(raw: Value)
    requires BuildSpec(true, raw).Built?
    ensures var out := BuildSpec(true, raw);
            && |out.texts| == |out.documents| > 0
            && (forall i :: 0 <= i < |out.texts| ==> out.texts[i] == EmbeddingText(out.documents[i]))
            && (forall d :: d in out.documents ==> Dict(d) in Iterate(Articles(raw).value).value && Qualifies(d))
  {
    FilterMembers(Iterate(Articles(raw).value).value);
  }

  /** A list of which nothing qualifies keeps nothing. */
  lemma {:induction false} FilterNone(items: seq<Value>)
    requires forall i :: 0 <= i < |items| ==> !(items[i].Dict? && Qualifies(items[i].entries))
    ensures Filter(items).Ok? ==> Filter(items).value == []
  {
    if items != [] {
      FilterNone(items[..|items| - 1]);
    }
  }

  /** An article list of which nothing qualifies writes nothing. */
  lemma NothingToEmbed(raw: Value)
    requires Articles(raw).Some? && Iterate(Articles(raw).value).Ok?
    requires var items := Iterate(Articles(raw).value).value;
             forall i :: 0 <= i < |items| ==> !(items[i].Dict? && Qualifies(items[i].entries))
    ensures !BuildSpec(true, raw).Built?
  {
    FilterNone(Iterate(Articles(raw).value).value);
  }

  /** The embedding text names the title, or 'No Title' when the article has
      none, and then the abstract, or nothing when it has none. */
  lemma EmbeddingTextFields(doc: Entries)
    ensures EmbeddingText(doc) ==
              "Title: " + (match Lookup(doc, "title") case Some(t) => ToStr(t) case None => "No Title")
              + "\nAbstract: " + (match Lookup(doc, "abstract") case Some(a) => ToStr(a) case None => "")
  {
    GetLookup(doc, "title", Str("No Title"));
    GetLookup(doc, "abstract", Str(""));
  }
}

/**
  `extract_all_json` (main.py): every `{...}` span of the model's output is
  decoded, and the dictionaries among them are merged into one, later spans
  overwriting the keys of earlier ones. The spans are those of the regular
  expression `(\{.*?\})` under DOTALL; `json.loads` and `ast.literal_eval`
  are parameters, each returning `None` where it would raise.
*/
module JsonMerge {
  import opened Wrappers
  import opened Text
  import opened PyValue

  /** The position of the first `}` at or after `i`, if any. */
  function CloseFrom(s: string, i: nat): (r: Option<nat>)
    requires i <= |s|
    ensures r.Some? ==> i <= r.value < |s| && s[r.value] == '}'
    ensures r.Some? ==> forall k :: i <= k < r.value ==> s[k] != '}'
    ensures r.None? ==> forall k :: i <= k < |s| ==> s[k] != '}'
    decreases |s| - i
  {
    if i == |s| then None
    else if s[i] == '}' then Some(i)
    else CloseFrom(s, i + 1)
  }

  /** The spans `re.finditer(r'(\{.*?\})', text, re.DOTALL)` yields from
      position `i` on: a match starts at a `{` and ends at the first `}` after
      it, and the scan resumes after that `}`; a `{` with no `}` after it
      starts no match. */
  function FragmentsFrom(s: string, i: nat): seq<string>
    requires i <= |s|
    decreases |s| - i
  {
    if i == |s| then []
    else if s[i] != '{' then FragmentsFrom(s, i + 1)
    else
      match CloseFrom(s, i + 1)
      case None => FragmentsFrom(s, i + 1)
      case Some(e) => [s[i..e + 1]] + FragmentsFrom(s, e + 1)
  }

  function Fragments(s: string): seq<string> {
    FragmentsFrom(s, 0)
  }

  /** `json.loads`, and `ast.literal_eval` when that fails. */
  function Decode(jsonLoads: string -> Option<Value>, literalEval: string -> Option<Value>, text: string): Option<Value> {
    if jsonLoads(text).Some? then jsonLoads(text) else literalEval(text)
  }

  /** A span as it is handed to the parsers: newlines become spaces. */
  function Flatten(fragment: string): string {
    ReplaceChar(fragment, '\n', ' ')
  }

  /** The dictionary the spans merge into, folding `update` over them in order. */
  function Merged(fragments: seq<string>, jsonLoads: string -> Option<Value>, literalEval: string -> Option<Value>): Entries {
    if fragments == [] then []
    else
      var prior := Merged(fragments[..|fragments| - 1], jsonLoads, literalEval);
      match Decode(jsonLoads, literalEval, Flatten(fragments[|fragments| - 1]))
      case Some(Dict(e)) => Update(prior, e)
      case _ => prior
  }

  /** `extract_all_json`. */
  method ExtractAllJson(text: string, jsonLoads: string -> Option<Value>, literalEval: string -> Option<Value>)
    returns (mergedData: Entries)
    ensures mergedData == Merged(Fragments(text), jsonLoads, literalEval)
  {
    var matches := Fragments(text);
    mergedData := [];
    var i := 0;
    while i < |matches|
      invariant 0 <= i <= |matches|
      invariant mergedData == Merged(matches[..i], jsonLoads, literalEval)
    {
      assert matches[..i + 1][..i] == matches[..i];
      var jsonStr := Flatten(matches[i]);
      var data := jsonLoads(jsonStr);
      if data.None? {
        data := literalEval(jsonStr);
      }
      if data.Some? && data.value.Dict? {
        mergedData := Update(mergedData, data.value.entries);
      }
      i := i + 1;
    }
    assert matches[..i] == matches;
  }

  // ---------------------------------------------------------------------------
  // Properties
  // ---------------------------------------------------------------------------

  /** What a span looks like: a `{`, no `}`, then a `}`. */
  predicate Span(f: string) {
    |f| >= 2 && f[0] == '{' && f[|f| - 1] == '}' && forall k :: 1 <= k < |f| - 1 ==> f[k] != '}'
  }

  /** Each span opens with `{`, closes with the first `}` after it, and holds
      no `}` in between. */
  lemma {:induction false} FragmentsShape(s: string, i: nat)
    requires i <= |s|
    ensures forall k :: 0 <= k < |FragmentsFrom(s, i)| ==> Span(FragmentsFrom(s, i)[k])
    decreases |s| - i
  {
    if i < |s| {
      if s[i] != '{' || CloseFrom(s, i + 1).None? {
        FragmentsShape(s, i + 1);
      } else {
        var e := CloseFrom(s, i + 1).value;
        var f := s[i..e + 1];
        FragmentsShape(s, e + 1);
        assert Span(f) by {
          forall k | 1 <= k < |f| - 1 ensures f[k] != '}' {
            assert f[k] == s[i + k];
          }
        }
        var rest := FragmentsFrom(s, e + 1);
        assert FragmentsFrom(s, i) == [f] + rest;
        forall k | 1 <= k < |FragmentsFrom(s, i)| ensures FragmentsFrom(s, i)[k] == rest[k - 1] {
        }
      }
    }
  }

  /** There is a span exactly when some `{` has a `}` after it. */
  lemma {:induction false} FragmentsExist(s: string, i: nat)
    requires i <= |s|
    ensures FragmentsFrom(s, i) != [] <==> exists a, b :: i <= a < b < |s| && s[a] == '{' && s[b] == '}'
    decreases |s| - i
  {
    if i < |s| {
      FragmentsExist(s, i + 1);
      if s[i] == '{' && CloseFrom(s, i + 1).Some? {
        var e := CloseFrom(s, i + 1).value;
        assert s[i] == '{' && s[e] == '}';
      } else if exists a, b :: i <= a < b < |s| && s[a] == '{' && s[b] == '}' {
        var a, b :| i <= a < b < |s| && s[a] == '{' && s[b] == '}';
        if a == i {
          assert s[b] == '}';
        }
        assert i + 1 <= a;
      }
    }
  }

  /** Reference definition of the merged dictionary's entry for `k`: the
      value in the last dictionary span that has `k`. */
  function Latest(fragments: seq<string>, jsonLoads: string -> Option<Value>, literalEval: string -> Option<Value>, k: string): Option<Value> {
    if fragments == [] then None
    else
      match Latest(fragments[1..], jsonLoads, literalEval, k)
      case Some(v) => Some(v)
      case None =>
        match Decode(jsonLoads, literalEval, Flatten(fragments[0]))
        case Some(Dict(e)) => Lookup(e, k)
        case _ => None
  }

  /** What the parsers promise of a dictionary: no key twice. */
  ghost predicate DictsHaveUniqueKeys(parse: string -> Option<Value>) {
    forall t :: parse(t).Some? && parse(t).value.Dict? ==> UniqueKeys(parse(t).value.entries)
  }

  /** The last span decides when it is a dictionary holding `k`. */
  lemma {:induction false} LatestSnoc(fragments: seq<string>, f: string,
                                      jsonLoads: string -> Option<Value>, literalEval: string -> Option<Value>, k: string)
    ensures Latest(fragments + [f], jsonLoads, literalEval, k) ==
              match Decode(jsonLoads, literalEval, Flatten(f))
              case Some(Dict(e)) => (if Lookup(e, k).Some? then Lookup(e, k) else Latest(fragments, jsonLoads, literalEval, k))
              case _ => Latest(fragments, jsonLoads, literalEval, k)
  {
    if fragments == [] {
      assert ([] + [f])[1..] == [];
    } else {
      assert (fragments + [f])[1..] == fragments[1..] + [f];
      assert (fragments + [f])[0] == fragments[0];
      LatestSnoc(fragments[1..], f, jsonLoads, literalEval, k);
    }
  }

  /** Later spans overwrite earlier ones: a key of the merged dictionary
      holds its value in the last dictionary span that has it, and a key no
      dictionary span has is absent. */
  lemma {:induction false} MergedLookup(fragments: seq<string>, jsonLoads: string -> Option<Value>,
                                        literalEval: string -> Option<Value>, k: string)
    requires DictsHaveUniqueKeys(jsonLoads) && DictsHaveUniqueKeys(literalEval)
    ensures Lookup(Merged(fragments, jsonLoads, literalEval), k) == Latest(fragments, jsonLoads, literalEval, k)
  {
    if fragments != [] {
      var init := fragments[..|fragments| - 1];
      var f := fragments[|fragments| - 1];
      MergedLookup(init, jsonLoads, literalEval, k);
      LatestSnoc(init, f, jsonLoads, literalEval, k);
      assert init + [f] == fragments;
      match Decode(jsonLoads, literalEval, Flatten(f))
      case Some(Dict(e)) =>
        UpdateLookup(Merged(init, jsonLoads, literalEval), e, k);
      case _ =>
    }
  }

  /** The merged dictionary never holds a key twice. */
  lemma {:induction false} MergedUnique(fragments: seq<string>, jsonLoads: string -> Option<Value>, literalEval: string -> Option<Value>)
    ensures UniqueKeys(Merged(fragments, jsonLoads, literalEval))
  {
    if fragments != [] {
      var init := fragments[..|fragments| - 1];
      MergedUnique(init, jsonLoads, literalEval);
      match Decode(jsonLoads, literalEval, Flatten(fragments[|fragments| - 1]))
      case Some(Dict(e)) =>
        UpdateUnique(Merged(init, jsonLoads, literalEval), e);
      case _ =>
    }
  }

  /** Merging more spans never drops or reorders the keys already merged:
      the keys of the first spans stay first. */
  lemma {:induction false} MergedKeysGrow(a: seq<string>, b: seq<string>, jsonLoads: string -> Option<Value>, literalEval: string -> Option<Value>)
    ensures Keys(Merged(a, jsonLoads, literalEval)) <= Keys(Merged(a + b, jsonLoads, literalEval))
    decreases |b|
  {
    if b != [] {
      var init := b[..|b| - 1];
      assert (a + b)[..|a + b| - 1] == a + init;
      assert (a + b)[|a + b| - 1] == b[|b| - 1];
      MergedKeysGrow(a, init, jsonLoads, literalEval);
      match Decode(jsonLoads, literalEval, Flatten(b[|b| - 1]))
      case Some(Dict(e)) =>
        UpdateKeysPrefix(Merged(a + init, jsonLoads, literalEval), e);
      case _ =>
    } else {
      assert a + b == a;
    }
  }
}

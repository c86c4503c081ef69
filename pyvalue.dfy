/**
  Python values as `json.load`, `json.loads` and `ast.literal_eval` produce
  them, with the built-in operations the pipeline applies to them: dictionary
  lookup, `d.get`, `d.update`, truth testing, `len`, iteration and `str()`.
*/
module PyValue {
  import opened Wrappers
  import opened Text

  /** A decoded value. A dictionary keeps its entries in insertion order, as
      Python's `dict` does. */
  datatype Value =
    | Null
    | Bool(b: bool)
    | Int(i: int)
    | Str(s: string)
    | List(items: seq<Value>)
    | Dict(entries: seq<(string, Value)>)

  type Entries = seq<(string, Value)>

  /** The exceptions the modelled code can raise. */
  datatype Exception =
    | TypeError
    | IndexError
    | ZeroDivisionError
    | FileNotFoundError(message: string)

  // ---------------------------------------------------------------------------
  // Dictionaries
  // ---------------------------------------------------------------------------

  function Keys(e: Entries): seq<string> {
    if e == [] then [] else [e[0].0] + Keys(e[1..])
  }

  lemma {:induction false} KeysAt(e: Entries)
    ensures |Keys(e)| == |e|
    ensures forall i :: 0 <= i < |e| ==> Keys(e)[i] == e[i].0
  {
    if e != [] {
      KeysAt(e[1..]);
    }
  }

  /** What every Python `dict` satisfies: no key twice. */
  predicate UniqueKeys(e: Entries) {
    forall i, j :: 0 <= i < j < |e| ==> e[i].0 != e[j].0
  }

  /** `d[k]` when `k in d`, `None` otherwise. */
  function Lookup(e: Entries, k: string): (r: Option<Value>)
    ensures r.None? <==> k !in Keys(e)
    ensures r.Some? ==> (k, r.value) in e
  {
    if e == [] then None
    else if e[0].0 == k then Some(e[0].1)
    else Lookup(e[1..], k)
  }

  /** `d.get(k, default)`. */
  function Get(e: Entries, k: string, default: Value): Value {
    if e == [] then default
    else if e[0].0 == k then e[0].1
    else Get(e[1..], k, default)
  }

  /** `d.get(k, default)` is `d[k]` for a present key and `default` otherwise. */
  lemma {:induction false} GetLookup(e: Entries, k: string, default: Value)
    ensures Get(e, k, default) == match Lookup(e, k) case Some(v) => v case None => default
  {
    if e != [] && e[0].0 != k {
      GetLookup(e[1..], k, default);
    }
  }

  /** `d[k] = v`: an existing key keeps its place, a new key goes last. */
  function Put(e: Entries, k: string, v: Value): (r: Entries)
    ensures Lookup(r, k) == Some(v)
    ensures forall k' :: k' != k ==> Lookup(r, k') == Lookup(e, k')
  {
    if e == [] then [(k, v)]
    else if e[0].0 == k then [(k, v)] + e[1..]
    else [e[0]] + Put(e[1..], k, v)
  }

  /** Storing under a present key keeps the key order; a new key is appended. */
  lemma {:induction false} PutKeys(e: Entries, k: string, v: Value)
    ensures Keys(Put(e, k, v)) == if k in Keys(e) then Keys(e) else Keys(e) + [k]
  {
    if e != [] && e[0].0 != k {
      PutKeys(e[1..], k, v);
      assert Put(e, k, v)[1..] == Put(e[1..], k, v);
    } else if e != [] {
      assert Put(e, k, v)[1..] == e[1..];
    }
  }

  lemma PutUnique(e: Entries, k: string, v: Value)
    requires UniqueKeys(e)
    ensures UniqueKeys(Put(e, k, v))
  {
    var r := Put(e, k, v);
    PutKeys(e, k, v);
    KeysAt(e);
    KeysAt(r);
    KeysDistinct(e);
    if k !in Keys(e) {
      DistinctSnoc(Keys(e), k);
    }
    KeysDistinct(r);
  }

  predicate DistinctStrings(s: seq<string>) {
    forall i, j :: 0 <= i < j < |s| ==> s[i] != s[j]
  }

  /** No key twice is no repeat in the key list. */
  lemma KeysDistinct(e: Entries)
    ensures UniqueKeys(e) <==> DistinctStrings(Keys(e))
  {
    KeysAt(e);
  }

  lemma DistinctSnoc(s: seq<string>, x: string)
    requires DistinctStrings(s) && x !in s
    ensures DistinctStrings(s + [x])
  {
    forall i, j | 0 <= i < j < |s + [x]| ensures (s + [x])[i] != (s + [x])[j] {
      assert (s + [x])[i] == s[i];
      if j == |s| {
        assert s[i] in s;
      } else {
        assert (s + [x])[j] == s[j];
      }
    }
  }

  /** `d.update(f)`: the entries of `f` are stored one after the other. */
  function Update(e: Entries, f: Entries): Entries
    decreases |f|
  {
    if f == [] then e else Update(Put(e, f[0].0, f[0].1), f[1..])
  }

  /** After `d.update(f)`, a key of `f` maps to its value in `f`; every other
      key keeps its value in `d`. */
  lemma {:induction false} UpdateLookup(e: Entries, f: Entries, k: string)
    requires UniqueKeys(f)
    ensures Lookup(Update(e, f), k) == if k in Keys(f) then Lookup(f, k) else Lookup(e, k)
    decreases |f|
  {
    if f != [] {
      var e' := Put(e, f[0].0, f[0].1);
      assert UniqueKeys(f[1..]) by {
        forall i, j | 0 <= i < j < |f[1..]| ensures f[1..][i].0 != f[1..][j].0 {
          assert f[1..][i] == f[i + 1] && f[1..][j] == f[j + 1];
        }
      }
      UpdateLookup(e', f[1..], k);
      KeysAt(f[1..]);
      if k == f[0].0 {
        assert k !in Keys(f[1..]) by {
          forall i | 0 <= i < |f[1..]| ensures Keys(f[1..])[i] != k {
            assert f[1..][i] == f[i + 1];
          }
        }
      }
    }
  }

  /** `d.update(f)` keeps a dictionary free of repeated keys. */
  lemma {:induction false} UpdateUnique(e: Entries, f: Entries)
    requires UniqueKeys(e)
    ensures UniqueKeys(Update(e, f))
    decreases |f|
  {
    if f != [] {
      PutUnique(e, f[0].0, f[0].1);
      UpdateUnique(Put(e, f[0].0, f[0].1), f[1..]);
    }
  }

  /** `d.update(f)` never moves or drops a key of `d`: its keys stay first, in order. */
  lemma {:induction false} UpdateKeysPrefix(e: Entries, f: Entries)
    ensures Keys(e) <= Keys(Update(e, f))
    decreases |f|
  {
    if f != [] {
      var e' := Put(e, f[0].0, f[0].1);
      PutKeys(e, f[0].0, f[0].1);
      UpdateKeysPrefix(e', f[1..]);
    }
  }

  // ---------------------------------------------------------------------------
  // Truth, length, iteration
  // ---------------------------------------------------------------------------

  /** `bool(v)`. */
  predicate Truthy(v: Value) {
    match v
    case Null => false
    case Bool(b) => b
    case Int(i) => i != 0
    case Str(s) => s != []
    case List(xs) => xs != []
    case Dict(e) => e != []
  }

  /** `len(v)`: defined for strings, lists and dictionaries only. */
  function Len(v: Value): Result<nat, Exception> {
    match v
    case Str(s) => Ok(|s|)
    case List(xs) => Ok(|xs|)
    case Dict(e) => Ok(|e|)
    case _ => Err(TypeError)
  }

  /** What `for x in v` visits: the items of a list, the one-character strings
      of a string, the keys of a dictionary. */
  function Iterate(v: Value): (r: Result<seq<Value>, Exception>)
    ensures r.Ok? <==> Len(v).Ok?
    ensures r.Ok? ==> |r.value| == Len(v).value
  {
    match v
    case List(xs) => Ok(xs)
    case Str(s) => Ok(seq(|s|, i requires 0 <= i < |s| => Str([s[i]])))
    case Dict(e) => Ok(seq(|e|, i requires 0 <= i < |e| => Str(e[i].0)))
    case _ => Err(TypeError)
  }

  /** A sized value is true exactly when it is non-empty. */
  lemma TruthyLen(v: Value)
    requires Len(v).Ok?
    ensures Truthy(v) <==> Len(v).value > 0
  {
  }

  // ---------------------------------------------------------------------------
  // str() and repr()
  // ---------------------------------------------------------------------------

  /** The quote `repr` puts around a string: double quotes only when the text
      holds a single quote and no double quote. */
  function QuoteChar(s: string): char {
    if '\'' in s && '"' !in s then '"' else '\''
  }

  function EscapeChar(c: char, q: char): string {
    if c == '\\' then "\\\\"
    else if c == '\n' then "\\n"
    else if c == '\r' then "\\r"
    else if c == '\t' then "\\t"
    else if c == q then ['\\', q]
    else [c]
  }

  function Escape(s: string, q: char): string {
    if s == [] then "" else EscapeChar(s[0], q) + Escape(s[1..], q)
  }

  /** `repr(s)` for a string. */
  function QuoteString(s: string): (r: string)
    ensures |r| >= 2 && r[0] == QuoteChar(s) && r[|r| - 1] == QuoteChar(s)
  {
    var q := QuoteChar(s);
    [q] + Escape(s, q) + [q]
  }

  /** `repr(v)`. */
  function Repr(v: Value): string
    decreases v
  {
    match v
    case Null => "None"
    case Bool(b) => if b then "True" else "False"
    case Int(i) => IntToString(i)
    case Str(s) => QuoteString(s)
    case List(xs) =>
      "[" + Join(seq(|xs|, i requires 0 <= i < |xs| => Repr(xs[i])), ", ") + "]"
    case Dict(e) =>
      "{" + Join(seq(|e|, i requires 0 <= i < |e| => QuoteString(e[i].0) + ": " + Repr(e[i].1)), ", ") + "}"
  }

  /** `str(v)`, which is also what an f-string inserts for `{v}`. */
  function ToStr(v: Value): string {
    if v.Str? then v.s else Repr(v)
  }
}

/**
  The Python string operations the pipeline relies on: `str.lower()`,
  `str.split()` and `str.strip()` without arguments, `str.find`/`str.rfind`
  for one character, `in` on strings, `str.split(sep)`, `sep.join(parts)`,
  `str.replace` and `re.split` over a character class.
*/
module Text {
  import opened Wrappers

  // ---------------------------------------------------------------------------
  // Characters
  // ---------------------------------------------------------------------------

  /** The characters for which `c.isspace()` holds: the separators of
      `str.split()` and `str.strip()` called without arguments. */
  const Whitespace: set<char> := {
    '\t', '\n', '\U{0B}', '\U{0C}', '\r', '\U{1C}', '\U{1D}', '\U{1E}', '\U{1F}', ' ',
    '\U{85}', '\U{A0}', '\U{1680}',
    '\U{2000}', '\U{2001}', '\U{2002}', '\U{2003}', '\U{2004}', '\U{2005}',
    '\U{2006}', '\U{2007}', '\U{2008}', '\U{2009}', '\U{200A}',
    '\U{2028}', '\U{2029}', '\U{202F}', '\U{205F}', '\U{3000}'
  }

  predicate IsSpace(c: char) {
    c in Whitespace
  }

  predicate IsUpper(c: char) {
    'A' <= c <= 'Z'
  }

  function LowerChar(c: char): (d: char)
    ensures !IsUpper(d)
    ensures IsSpace(d) <==> IsSpace(c)
  {
    if IsUpper(c) then (c as int + 32) as char else c
  }

  /** `s.lower()` on the ASCII letters. */
  function Lower(s: string): (r: string)
    ensures |r| == |s|
    ensures forall i :: 0 <= i < |s| ==> r[i] == LowerChar(s[i])
  {
    seq(|s|, i requires 0 <= i < |s| => LowerChar(s[i]))
  }

  predicate NoUpper(s: string) {
    forall c :: c in s ==> !IsUpper(c)
  }

  lemma LowerAppend(a: string, b: string)
    ensures Lower(a + b) == Lower(a) + Lower(b)
  {
    assert forall i :: 0 <= i < |a + b| ==> Lower(a + b)[i] == (Lower(a) + Lower(b))[i];
  }

  lemma LowerNoUpper(s: string)
    requires NoUpper(s)
    ensures Lower(s) == s
  {
    assert forall i :: 0 <= i < |s| ==> s[i] in s && Lower(s)[i] == s[i];
  }

  lemma LowerHasNoUpper(s: string)
    ensures NoUpper(Lower(s))
  {
    forall c | c in Lower(s) ensures !IsUpper(c) {
      var i :| 0 <= i < |Lower(s)| && Lower(s)[i] == c;
    }
  }

  // ---------------------------------------------------------------------------
  // Splitting on a character class
  // ---------------------------------------------------------------------------

  /** `re.split('[...]', s)` for a class of single characters: the text between
      consecutive delimiters, empty pieces included. */
  function SplitAny(s: string, delims: set<char>): (pieces: seq<string>)
    ensures |pieces| >= 1
  {
    if s == [] then [""]
    else
      var rest := SplitAny(s[1..], delims);
      if s[0] in delims then [""] + rest else [[s[0]] + rest[0]] + rest[1..]
  }

  /** A string without delimiters is a single piece. */
  lemma {:induction false} SplitAnyNone(s: string, delims: set<char>)
    requires forall c :: c in s ==> c !in delims
    ensures SplitAny(s, delims) == [s]
  {
    if s != [] {
      assert forall c :: c in s[1..] ==> c in s;
      SplitAnyNone(s[1..], delims);
      assert [s[0]] + s[1..] == s;
    }
  }

  /** One step of the split: a delimiter starts a new piece, any other
      character joins the first piece of the rest. */
  lemma SplitAnyCons(c: char, t: string, delims: set<char>)
    ensures SplitAny([c] + t, delims) ==
              if c in delims then [""] + SplitAny(t, delims)
              else [[c] + SplitAny(t, delims)[0]] + SplitAny(t, delims)[1..]
  {
    assert ([c] + t)[0] == c;
    assert ([c] + t)[1..] == t;
  }

  /** Each delimiter cuts: the two sides are split independently. */
  lemma {:induction false} SplitAnyAt(a: string, d: char, b: string, delims: set<char>)
    requires d in delims
    ensures SplitAny(a + [d] + b, delims) == SplitAny(a, delims) + SplitAny(b, delims)
  {
    if a == [] {
      assert a + [d] + b == [d] + b;
      SplitAnyCons(d, b, delims);
    } else {
      var c := a[0];
      var t := a[1..];
      assert a == [c] + t;
      assert a + [d] + b == [c] + (t + [d] + b);
      SplitAnyAt(t, d, b, delims);
      SplitAnyCons(c, t + [d] + b, delims);
      SplitAnyCons(c, t, delims);
      PiecesJoin([c], SplitAny(t, delims), SplitAny(b, delims));
    }
  }

  /** Adding a prefix to the first piece, or a new empty first piece,
      commutes with appending more pieces. */
  lemma PiecesJoin(x: string, pa: seq<string>, pb: seq<string>)
    requires |pa| >= 1
    ensures [x + (pa + pb)[0]] + (pa + pb)[1..] == ([x + pa[0]] + pa[1..]) + pb
    ensures [""] + (pa + pb) == ([""] + pa) + pb
  {
    assert (pa + pb)[0] == pa[0];
    assert (pa + pb)[1..] == pa[1..] + pb;
  }

  /** No piece contains a delimiter, and every character of a piece comes from `s`. */
  lemma {:induction false} SplitAnyPieces(s: string, delims: set<char>)
    ensures forall k :: 0 <= k < |SplitAny(s, delims)| ==>
              forall c :: c in SplitAny(s, delims)[k] ==> c !in delims && c in s
  {
    if s != [] {
      SplitAnyPieces(s[1..], delims);
      var rest := SplitAny(s[1..], delims);
      assert forall c :: c in s[1..] ==> c in s;
      if s[0] !in delims {
        assert forall c :: c in [s[0]] + rest[0] ==> c == s[0] || c in rest[0];
      }
    }
  }

  // ---------------------------------------------------------------------------
  // Whitespace split and strip
  // ---------------------------------------------------------------------------

  /** A piece that `str.split()` can return: non-empty and free of whitespace. */
  predicate IsWord(w: string) {
    |w| > 0 && forall c :: c in w ==> !IsSpace(c)
  }

  /** The pieces that are not empty, in order. */
  function NonEmpty(pieces: seq<string>): (r: seq<string>)
    ensures forall w :: w in r ==> w != [] && w in pieces
  {
    if pieces == [] then []
    else if pieces[0] == [] then NonEmpty(pieces[1..])
    else [pieces[0]] + NonEmpty(pieces[1..])
  }

  lemma {:induction false} NonEmptyAppend(a: seq<string>, b: seq<string>)
    ensures NonEmpty(a + b) == NonEmpty(a) + NonEmpty(b)
  {
    if a == [] {
      assert a + b == b;
    } else {
      var ab := a + b;
      assert ab[0] == a[0] && ab[1..] == a[1..] + b;
      NonEmptyAppend(a[1..], b);
      if a[0] == [] {
        assert NonEmpty(ab) == NonEmpty(ab[1..]);
      } else {
        assert NonEmpty(ab) == [a[0]] + NonEmpty(ab[1..]);
        AppendAssoc([a[0]], NonEmpty(a[1..]), NonEmpty(b));
      }
    }
  }

  /** `s.split()`: the maximal runs of non-whitespace characters, in order,
      i.e. the non-empty pieces between whitespace characters. */
  function Split(s: string): (words: seq<string>)
    ensures forall i :: 0 <= i < |words| ==> IsWord(words[i])
    ensures forall i :: 0 <= i < |words| ==> forall c :: c in words[i] ==> c in s
  {
    SplitAnyPieces(s, Whitespace);
    var words := NonEmpty(SplitAny(s, Whitespace));
    assert forall i :: 0 <= i < |words| ==> words[i] in words;
    words
  }

  /** Splitting at a whitespace character splits the two sides independently. */
  lemma SplitAppend(a: string, c: char, b: string)
    requires IsSpace(c)
    ensures Split(a + [c] + b) == Split(a) + Split(b)
  {
    SplitAnyAt(a, c, b, Whitespace);
    NonEmptyAppend(SplitAny(a, Whitespace), SplitAny(b, Whitespace));
  }

  lemma SplitWord(w: string)
    requires IsWord(w)
    ensures Split(w) == [w]
  {
    SplitAnyNone(w, Whitespace);
    assert NonEmpty([w]) == [w] + NonEmpty([]);
  }

  /** `str.split()` inverts joining words with single spaces. */
  lemma {:induction false} SplitJoin(words: seq<string>)
    requires forall i :: 0 <= i < |words| ==> IsWord(words[i])
    ensures Split(Join(words, " ")) == words
  {
    if |words| == 0 {
      assert SplitAny("", Whitespace) == [""];
      assert NonEmpty([""]) == NonEmpty([]);
    } else if |words| == 1 {
      SplitWord(words[0]);
    } else {
      SplitJoin(words[1..]);
      SplitWord(words[0]);
      JoinCons(words[0], words[1..], " ");
      assert words[0] + " " + Join(words[1..], " ") == words[0] + [' '] + Join(words[1..], " ");
      SplitAppend(words[0], ' ', Join(words[1..], " "));
      assert words == [words[0]] + words[1..];
    }
  }

  /** `s` without its leading whitespace. */
  function DropSpace(s: string): (r: string)
    ensures |r| <= |s|
  {
    if s == [] || !IsSpace(s[0]) then s else DropSpace(s[1..])
  }

  /** What `DropSpace` removes is whitespace, and it stops at the first other character. */
  lemma {:induction false} DropSpaceShape(s: string)
    ensures DropSpace(s) == s[|s| - |DropSpace(s)|..]
    ensures DropSpace(s) == [] || !IsSpace(DropSpace(s)[0])
    ensures forall i :: 0 <= i < |s| - |DropSpace(s)| ==> IsSpace(s[i])
  {
    if s != [] && IsSpace(s[0]) {
      DropSpaceShape(s[1..]);
    }
  }

  /** `s` without its trailing whitespace. */
  function DropSpaceEnd(s: string): (r: string)
    ensures |r| <= |s|
  {
    if s == [] || !IsSpace(s[|s| - 1]) then s else DropSpaceEnd(s[..|s| - 1])
  }

  /** What `DropSpaceEnd` removes is whitespace, and it stops at the last other character. */
  lemma {:induction false} DropSpaceEndShape(s: string)
    ensures DropSpaceEnd(s) == s[..|DropSpaceEnd(s)|]
    ensures DropSpaceEnd(s) == [] || !IsSpace(DropSpaceEnd(s)[|DropSpaceEnd(s)| - 1])
    ensures forall i :: |DropSpaceEnd(s)| <= i < |s| ==> IsSpace(s[i])
  {
    if s != [] && IsSpace(s[|s| - 1]) {
      DropSpaceEndShape(s[..|s| - 1]);
    }
  }

  /** Where `s.strip()` starts within `s`. */
  function StripOffset(s: string): nat {
    |s| - |DropSpace(s)|
  }

  /** `s.strip()`: `s` without leading and trailing whitespace. */
  function Strip(s: string): string {
    DropSpaceEnd(DropSpace(s))
  }

  /** `s.strip()` is the slice of `s` between its leading and its trailing
      whitespace, and neither end of it is whitespace. */
  lemma StripShape(s: string)
    ensures var r := Strip(s);
            && (r == [] || (!IsSpace(r[0]) && !IsSpace(r[|r| - 1])))
            && StripOffset(s) + |r| <= |s| && r == s[StripOffset(s)..StripOffset(s) + |r|]
            && (forall i :: 0 <= i < StripOffset(s) ==> IsSpace(s[i]))
            && (forall i :: StripOffset(s) + |r| <= i < |s| ==> IsSpace(s[i]))
  {
    var t := DropSpace(s);
    var r := DropSpaceEnd(t);
    DropSpaceShape(s);
    DropSpaceEndShape(t);
    assert forall i :: StripOffset(s) + |r| <= i < |s| ==> s[i] == t[i - StripOffset(s)];
  }

  /** A stripped string is empty exactly when the original is all whitespace. */
  lemma StripBlank(s: string)
    ensures Strip(s) == [] <==> forall i :: 0 <= i < |s| ==> IsSpace(s[i])
  {
    var r := Strip(s);
    StripShape(s);
    if r != [] {
      assert s[StripOffset(s)] == r[0];
    }
  }

  // ---------------------------------------------------------------------------
  // Joining
  // ---------------------------------------------------------------------------

  /** Concatenation regroups freely. */
  lemma AppendAssoc<T>(x: seq<T>, y: seq<T>, z: seq<T>)
    ensures (x + y) + z == x + (y + z)
  {
  }

  /** `sep.join(parts)`. */
  function Join(parts: seq<string>, sep: string): string {
    if |parts| == 0 then ""
    else if |parts| == 1 then parts[0]
    else parts[0] + sep + Join(parts[1..], sep)
  }

  lemma JoinCons(x: string, rest: seq<string>, sep: string)
    requires |rest| >= 1
    ensures Join([x] + rest, sep) == x + sep + Join(rest, sep)
  {
    assert ([x] + rest)[1..] == rest;
  }

  lemma {:induction false} NoUpperJoinWords(words: seq<string>)
    requires forall i :: 0 <= i < |words| ==> NoUpper(words[i])
    ensures NoUpper(Join(words, " "))
  {
    if |words| > 1 {
      NoUpperJoinWords(words[1..]);
      assert Join(words, " ") == words[0] + " " + Join(words[1..], " ");
    }
  }

  // ---------------------------------------------------------------------------
  // Substrings
  // ---------------------------------------------------------------------------

  predicate OccursAt(s: string, t: string, i: int) {
    0 <= i && i + |t| <= |s| && s[i..i + |t|] == t
  }

  /** The first position at or after `i` where `t` occurs in `s`. */
  function FindFrom(s: string, t: string, i: nat): (r: Option<nat>)
    requires i <= |s|
    ensures r.Some? ==> i <= r.value && OccursAt(s, t, r.value)
    ensures r.Some? ==> forall j :: i <= j < r.value ==> !OccursAt(s, t, j)
    ensures r.None? ==> forall j :: i <= j ==> !OccursAt(s, t, j)
    decreases |s| - i
  {
    if OccursAt(s, t, i) then Some(i)
    else if i == |s| then None
    else FindFrom(s, t, i + 1)
  }

  /** `s.find(t)`, with `None` for Python's -1. */
  function Find(s: string, t: string): Option<nat> {
    FindFrom(s, t, 0)
  }

  /** `t in s`. */
  predicate Contains(s: string, t: string) {
    Find(s, t).Some?
  }

  lemma ContainsAt(s: string, t: string, i: int)
    requires OccursAt(s, t, i)
    ensures Contains(s, t)
  {
  }

  /** A substring of either side is a substring of the concatenation. */
  lemma ContainsAppend(s: string, u: string, t: string)
    requires Contains(s, t) || Contains(u, t)
    ensures Contains(s + u, t)
  {
    if Contains(s, t) {
      var i := Find(s, t).value;
      assert (s + u)[i..i + |t|] == s[i..i + |t|];
      ContainsAt(s + u, t, i);
    } else {
      var i := Find(u, t).value;
      assert (s + u)[|s| + i..|s| + i + |t|] == u[i..i + |t|];
      ContainsAt(s + u, t, |s| + i);
    }
  }

  /** The first position at or after `i` holding `c`, -1 when there is none. */
  function IndexFrom(s: string, c: char, i: nat): (r: int)
    requires i <= |s|
    ensures -1 <= r < |s|
    ensures r == -1 ==> forall k :: i <= k < |s| ==> s[k] != c
    ensures r >= 0 ==> i <= r && s[r] == c && forall k :: i <= k < r ==> s[k] != c
    decreases |s| - i
  {
    if i == |s| then -1
    else if s[i] == c then i
    else IndexFrom(s, c, i + 1)
  }

  /** `s.find(c)` for one character, -1 when absent. */
  function IndexOf(s: string, c: char): (r: int)
    ensures -1 <= r < |s|
    ensures r == -1 <==> c !in s
    ensures r >= 0 ==> s[r] == c && c !in s[..r]
  {
    var r := IndexFrom(s, c, 0);
    assert r >= 0 ==> c !in s[..r];
    r
  }

  /** The last position before `j` holding `c`, -1 when there is none. */
  function LastIndexBefore(s: string, c: char, j: nat): (r: int)
    requires j <= |s|
    ensures -1 <= r < j
    ensures r == -1 ==> forall k :: 0 <= k < j ==> s[k] != c
    ensures r >= 0 ==> s[r] == c && forall k :: r < k < j ==> s[k] != c
  {
    if j == 0 then -1
    else if s[j - 1] == c then j - 1
    else LastIndexBefore(s, c, j - 1)
  }

  /** `s.rfind(c)` for one character, -1 when absent. */
  function LastIndexOf(s: string, c: char): (r: int)
    ensures -1 <= r < |s|
    ensures r == -1 <==> c !in s
    ensures r >= 0 ==> s[r] == c && c !in s[r + 1..]
  {
    var r := LastIndexBefore(s, c, |s|);
    assert r >= 0 ==> c !in s[r + 1..];
    r
  }

  // ---------------------------------------------------------------------------
  // Splitting on a separator string
  // ---------------------------------------------------------------------------

  /** `s.split(sep)` for a non-empty separator: cut at each occurrence, left to right. */
  function SplitOn(s: string, sep: string): (parts: seq<string>)
    requires |sep| > 0
    ensures |parts| >= 1
    decreases |s|
  {
    match Find(s, sep)
    case None => [s]
    case Some(i) => [s[..i]] + SplitOn(s[i + |sep|..], sep)
  }

  /** Joining the pieces with the separator gives back the string. */
  lemma SplitOnAt(s: string, sep: string, i: nat)
    requires |sep| > 0 && Find(s, sep) == Some(i)
    ensures SplitOn(s, sep) == [s[..i]] + SplitOn(s[i + |sep|..], sep)
    ensures s == s[..i] + sep + s[i + |sep|..]
  {
    assert OccursAt(s, sep, i);
    assert s == s[..i] + s[i..i + |sep|] + s[i + |sep|..];
  }

  lemma {:induction false} JoinSplitOn(s: string, sep: string)
    requires |sep| > 0
    ensures Join(SplitOn(s, sep), sep) == s
    decreases |s|
  {
    var f := Find(s, sep);
    if f.Some? {
      var i := f.value;
      var rest := s[i + |sep|..];
      SplitOnAt(s, sep, i);
      JoinSplitOn(rest, sep);
      JoinCons(s[..i], SplitOn(rest, sep), sep);
    }
  }

  /** No piece holds the separator. */
  lemma {:induction false} SplitOnPieces(s: string, sep: string)
    requires |sep| > 0
    ensures forall k :: 0 <= k < |SplitOn(s, sep)| ==> !Contains(SplitOn(s, sep)[k], sep)
    decreases |s|
  {
    match Find(s, sep)
    case None =>
    case Some(i) =>
      var rest := s[i + |sep|..];
      SplitOnPieces(rest, sep);
      BeforeFirst(s, sep, i);
      assert SplitOn(s, sep) == [s[..i]] + SplitOn(rest, sep);
  }

  /** The text before the first occurrence does not contain it. */
  lemma BeforeFirst(s: string, sep: string, i: nat)
    requires |sep| > 0 && Find(s, sep) == Some(i)
    ensures !Contains(s[..i], sep)
  {
    forall j | 0 <= j ensures !OccursAt(s[..i], sep, j) {
      if j + |sep| <= i {
        assert !OccursAt(s, sep, j);
        assert s[..i][j..j + |sep|] == s[j..j + |sep|];
      }
    }
  }

  /** There are at least two pieces exactly when the separator occurs. */
  lemma SplitOnCount(s: string, sep: string)
    requires |sep| > 0
    ensures |SplitOn(s, sep)| >= 2 <==> Contains(s, sep)
  {
    match Find(s, sep)
    case None =>
    case Some(i) =>
      assert SplitOn(s, sep) == [s[..i]] + SplitOn(s[i + |sep|..], sep);
  }

  // ---------------------------------------------------------------------------
  // Replacing characters
  // ---------------------------------------------------------------------------

  /** `s.replace(c, "")` applied for every `c` in `chars`. */
  function RemoveChars(s: string, chars: set<char>): (r: string)
    ensures forall i :: 0 <= i < |r| ==> r[i] !in chars
    ensures forall i :: 0 <= i < |r| ==> r[i] in s
  {
    if s == [] then []
    else if s[0] in chars then RemoveChars(s[1..], chars)
    else [s[0]] + RemoveChars(s[1..], chars)
  }

  /** `s.replace(a, b)` for single characters. */
  function ReplaceChar(s: string, a: char, b: char): (r: string)
    ensures |r| == |s|
    ensures forall i :: 0 <= i < |s| ==> r[i] == if s[i] == a then b else s[i]
    ensures a != b ==> a !in r
    ensures forall c :: c in r ==> c == b || c in s
  {
    seq(|s|, i requires 0 <= i < |s| => if s[i] == a then b else s[i])
  }

  // ---------------------------------------------------------------------------
  // Numbers
  // ---------------------------------------------------------------------------

  predicate IsDigit(c: char) {
    '0' <= c <= '9'
  }

  function DigitChar(d: nat): (c: char)
    requires d < 10
    ensures IsDigit(c) && c as int - '0' as int == d
  {
    (d + '0' as int) as char
  }

  /** `str(n)` for a natural number. */
  function NatToString(n: nat): (r: string)
    ensures |r| >= 1
    ensures forall i :: 0 <= i < |r| ==> IsDigit(r[i])
    ensures r[0] == '0' ==> n == 0
    decreases n
  {
    if n < 10 then [DigitChar(n)] else NatToString(n / 10) + [DigitChar(n % 10)]
  }

  /** The value of a string of decimal digits. */
  function DigitsValue(s: string): nat
    requires forall i :: 0 <= i < |s| ==> IsDigit(s[i])
  {
    if s == [] then 0
    else
      assert IsDigit(s[|s| - 1]);
      DigitsValue(s[..|s| - 1]) * 10 + (s[|s| - 1] as int - '0' as int)
  }

  /** Reading the decimal string back yields the number. */
  lemma {:induction false} NatToStringRoundTrip(n: nat)
    ensures DigitsValue(NatToString(n)) == n
    decreases n
  {
    var r := NatToString(n);
    if n < 10 {
      assert r[..0] == [];
    } else {
      NatToStringRoundTrip(n / 10);
      assert r[..|r| - 1] == NatToString(n / 10);
    }
  }

  /** `str(i)` for any integer. */
  function IntToString(i: int): string {
    if i < 0 then "-" + NatToString(-i) else NatToString(i)
  }
}

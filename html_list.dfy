/**
  `format_content_as_list` (main.py): a report field, as decoded from the
  model's JSON, rendered as an HTML bullet list. A list gives one bullet per
  item; a string is cleaned of JSON punctuation and cut at ASCII and
  full-width commas and semicolons; blank bullets are dropped.
*/
module HtmlList {
  import opened Wrappers
  import opened Text
  import opened PyValue

  /** What a false field renders as ("no detailed content"). */
  const EmptyNotice: string := "暂无详细内容"

  /** `<ul class="custom-list">`, spelled out so that proofs can read it. */
  const ListOpen: string :=
    ['<', 'u', 'l', ' ', 'c', 'l', 'a', 's', 's', '=', '"', 'c', 'u', 's', 't', 'o', 'm', '-', 'l', 'i', 's', 't', '"', '>']

  /** `</ul>`. */
  const ListClose: string := ['<', '/', 'u', 'l', '>']

  /** The JSON punctuation removed from a string field. */
  const JsonMarks: set<char> := {'[', ']', '"', '\''}

  /** The class `[;；,，]` a string field is cut at. */
  const ItemDelims: set<char> := {';', '；', ',', '，'}

  /** One bullet. */
  function Li(item: string): string {
    "<li>" + item + "</li>"
  }

  /** The bullets of `items`, in order. */
  function LiAll(items: seq<string>): string {
    if items == [] then "" else LiAll(items[..|items| - 1]) + Li(items[|items| - 1])
  }

  /** The stripped pieces that are not blank, in order. */
  function Stripped(pieces: seq<string>): seq<string> {
    if pieces == [] then []
    else
      var item := Strip(pieces[|pieces| - 1]);
      if item == [] then Stripped(pieces[..|pieces| - 1]) else Stripped(pieces[..|pieces| - 1]) + [item]
  }

  /** `str(item).replace('"', '')` for each item of a list field. */
  function Unquoted(xs: seq<Value>): (r: seq<string>)
    ensures |r| == |xs|
    ensures forall i :: 0 <= i < |xs| ==> r[i] == RemoveChars(ToStr(xs[i]), {'"'})
    ensures forall i, j :: 0 <= i < |r| && 0 <= j < |r[i]| ==> r[i][j] != '"' && r[i][j] in ToStr(xs[i])
  {
    seq(|xs|, i requires 0 <= i < |xs| => RemoveChars(ToStr(xs[i]), {'"'}))
  }

  /** The pieces of a string field: JSON punctuation removed, then cut. */
  function Pieces(s: string): seq<string> {
    SplitAny(RemoveChars(s, JsonMarks), ItemDelims)
  }

  /** The bullet texts of a field; a true field that is neither a list nor a
      string has none. */
  function Items(content: Value): seq<string> {
    match content
    case List(xs) => Stripped(Unquoted(xs))
    case Str(s) => Stripped(Pieces(s))
    case _ => []
  }

  /** What `format_content_as_list` returns. */
  function Formatted(content: Value): string {
    if !Truthy(content) then EmptyNotice else ListOpen + LiAll(Items(content)) + ListClose
  }

  /** The bullet loop of `format_content_as_list`: `html` grows by one
      bullet per non-blank piece. */
  method AppendBullets(html0: string, pieces: seq<string>) returns (html: string)
    ensures html == html0 + LiAll(Stripped(pieces))
  {
    html := html0;
    var i := 0;
    while i < |pieces|
      invariant 0 <= i <= |pieces|
      invariant html == html0 + LiAll(Stripped(pieces[..i]))
    {
      assert pieces[..i + 1][..i] == pieces[..i];
      var item := Strip(pieces[i]);
      if item != [] {
        AppendAssoc(html0, LiAll(Stripped(pieces[..i])), Li(item));
        html := html + Li(item);
      }
      i := i + 1;
    }
    assert pieces[..i] == pieces;
  }

  /** `format_content_as_list`. */
  method FormatContentAsList(content: Value) returns (html: string)
    ensures html == Formatted(content)
  {
    if !Truthy(content) {
      return EmptyNotice;
    }
    html := ListOpen;
    if content.List? {
      html := AppendBullets(html, Unquoted(content.items));
    } else if content.Str? {
      var cleanStr := RemoveChars(content.s, JsonMarks);
      html := AppendBullets(html, SplitAny(cleanStr, ItemDelims));
    }
    html := html + ListClose;
  }

  // ---------------------------------------------------------------------------
  // Properties
  // ---------------------------------------------------------------------------

  /** A false field gives the notice; any other field gives one `<ul>` element. */
  lemma FormattedShape(content: Value)
    ensures !Truthy(content) ==> Formatted(content) == EmptyNotice
    ensures Truthy(content) ==>
              && |Formatted(content)| >= |ListOpen| + |ListClose|
              && Formatted(content)[..|ListOpen|] == "<ul class=\"custom-list\">"
              && Formatted(content)[|Formatted(content)| - |ListClose|..] == "</ul>"
  {
  }

  /** The bullets of a concatenation are the concatenated bullets. */
  lemma {:induction false} LiAllAppend(a: seq<string>, b: seq<string>)
    ensures LiAll(a + b) == LiAll(a) + LiAll(b)
    decreases |b|
  {
    if b == [] {
      assert a + b == a;
    } else {
      var init := b[..|b| - 1];
      assert (a + b)[..|a + b| - 1] == a + init;
      assert (a + b)[|a + b| - 1] == b[|b| - 1];
      LiAllAppend(a, init);
      AppendAssoc(LiAll(a), LiAll(init), Li(b[|b| - 1]));
    }
  }

  /** A text in which no `<` is followed by `l` holds no `<li>`. */
  lemma NoLiTag(s: string)
    requires forall i :: 0 <= i < |s| - 1 ==> !(s[i] == '<' && s[i + 1] == 'l')
    ensures !Contains(s, "<li>")
  {
    forall i | 0 <= i ensures !OccursAt(s, "<li>", i) {
      if i + 4 <= |s| {
        assert s[i..i + 4][0] == s[i] && s[i..i + 4][1] == s[i + 1];
      }
    }
  }

  /** The caller's test `"<li>" in content_list` holds exactly when the field
      has a bullet. */
  lemma HasBullet(content: Value)
    requires Truthy(content)
    ensures Contains(Formatted(content), "<li>") <==> Items(content) != []
  {
    var items := Items(content);
    if items == [] {
      var s := ListOpen + ListClose;
      assert ListOpen + LiAll(items) + ListClose == s;
      forall i | 0 <= i < |s| - 1 ensures !(s[i] == '<' && s[i + 1] == 'l') {
      }
      NoLiTag(s);
    } else {
      var b := Li(items[|items| - 1]);
      assert b[0..|"<li>"|] == "<li>";
      ContainsAt(b, "<li>", 0);
      ContainsAppend(LiAll(items[..|items| - 1]), b, "<li>");
      ContainsAppend(ListOpen, LiAll(items), "<li>");
      ContainsAppend(ListOpen + LiAll(items), ListClose, "<li>");
    }
  }

  /** Stripping keeps order: the bullets of concatenated pieces are the
      concatenated bullets. */
  lemma {:induction false} StrippedAppend(a: seq<string>, b: seq<string>)
    ensures Stripped(a + b) == Stripped(a) + Stripped(b)
    decreases |b|
  {
    if b == [] {
      assert a + b == a;
    } else {
      var init := b[..|b| - 1];
      assert (a + b)[..|a + b| - 1] == a + init;
      assert (a + b)[|a + b| - 1] == b[|b| - 1];
      StrippedAppend(a, init);
    }
  }

  /** The bullets are exactly the non-blank stripped pieces, and each is
      free of surrounding whitespace. */
  lemma {:induction false} StrippedMembers(pieces: seq<string>)
    ensures forall s :: s in Stripped(pieces) <==> s != [] && exists q :: q in pieces && Strip(q) == s
    ensures forall k :: 0 <= k < |Stripped(pieces)| ==>
              Stripped(pieces)[k] != [] && Strip(Stripped(pieces)[k]) == Stripped(pieces)[k]
  {
    if pieces != [] {
      var init := pieces[..|pieces| - 1];
      var last := pieces[|pieces| - 1];
      StrippedMembers(init);
      assert pieces == init + [last];
      StripIdempotent(last);
    }
  }

  /** Stripping a stripped text changes nothing. */
  lemma StripIdempotent(s: string)
    ensures Strip(Strip(s)) == Strip(s)
  {
    var r := Strip(s);
    StripShape(s);
    if r != [] {
      StripTrimmed(r);
    }
  }

  /** The characters of a stripped text come from the text. */
  lemma StripChars(s: string)
    ensures forall c :: c in Strip(s) ==> c in s
  {
    var r := Strip(s);
    var o := StripOffset(s);
    StripShape(s);
    forall c | c in r ensures c in s {
      var k :| 0 <= k < |r| && r[k] == c;
      assert s[o + k] == c;
    }
  }

  /** Every character of a bullet comes from one of the pieces. */
  lemma {:induction false} StrippedChars(pieces: seq<string>)
    ensures forall k, c :: 0 <= k < |Stripped(pieces)| && c in Stripped(pieces)[k] ==>
              exists j :: 0 <= j < |pieces| && c in pieces[j]
  {
    if pieces != [] {
      var init := pieces[..|pieces| - 1];
      var last := pieces[|pieces| - 1];
      StrippedChars(init);
      StripChars(last);
      forall k, c | 0 <= k < |Stripped(pieces)| && c in Stripped(pieces)[k]
        ensures exists j :: 0 <= j < |pieces| && c in pieces[j]
      {
        if k < |Stripped(init)| {
          assert Stripped(pieces)[k] == Stripped(init)[k];
          var j :| 0 <= j < |init| && c in init[j];
          assert pieces[j] == init[j];
        } else {
          assert c in pieces[|pieces| - 1];
        }
      }
    }
  }

  /** No piece of a string field holds JSON punctuation or a delimiter. */
  lemma PiecesClean(s: string)
    ensures forall j, c :: 0 <= j < |Pieces(s)| && c in Pieces(s)[j] ==> c !in JsonMarks && c !in ItemDelims
  {
    var clean := RemoveChars(s, JsonMarks);
    SplitAnyPieces(clean, ItemDelims);
    forall j, c | 0 <= j < |Pieces(s)| && c in Pieces(s)[j] ensures c !in JsonMarks {
      var m :| 0 <= m < |clean| && clean[m] == c;
    }
  }

  /** A bullet of a string field holds no JSON punctuation and no delimiter. */
  lemma ItemsCleanString(s: string)
    ensures forall k, c :: 0 <= k < |Items(Str(s))| && c in Items(Str(s))[k] ==> c !in JsonMarks && c !in ItemDelims
  {
    StrippedChars(Pieces(s));
    PiecesClean(s);
  }

  /** A bullet of a list field holds no double quote. */
  lemma ItemsCleanList(xs: seq<Value>)
    ensures forall k :: 0 <= k < |Items(List(xs))| ==> '"' !in Items(List(xs))[k]
  {
    var pieces := Unquoted(xs);
    StrippedChars(pieces);
    forall k | 0 <= k < |Items(List(xs))| ensures '"' !in Items(List(xs))[k] {
      forall c | c in Items(List(xs))[k] ensures c != '"' {
        var j :| 0 <= j < |pieces| && c in pieces[j];
        var m :| 0 <= m < |pieces[j]| && pieces[j][m] == c;
      }
    }
  }

  /** Removing characters that do not occur changes nothing. */
  lemma {:induction false} RemoveAbsent(s: string, chars: set<char>)
    requires forall i :: 0 <= i < |s| ==> s[i] !in chars
    ensures RemoveChars(s, chars) == s
  {
    if s != [] {
      RemoveAbsent(s[1..], chars);
      assert [s[0]] + s[1..] == s;
    }
  }

  /** A clean bullet text: non-blank, stripped, without JSON punctuation or
      delimiters. */
  predicate CleanItem(w: string) {
    && w != [] && !IsSpace(w[0]) && !IsSpace(w[|w| - 1])
    && forall i :: 0 <= i < |w| ==> w[i] !in JsonMarks && w[i] !in ItemDelims
  }

  /** A text with no whitespace at either end is its own strip. */
  lemma StripTrimmed(w: string)
    requires w != [] && !IsSpace(w[0]) && !IsSpace(w[|w| - 1])
    ensures Strip(w) == w
  {
    assert DropSpace(w) == w;
    assert DropSpaceEnd(w) == w;
  }

  /** Cutting a comma-joined list of clean texts gives the texts back. */
  lemma {:induction false} SplitJoined(ws: seq<string>)
    requires forall k :: 0 <= k < |ws| ==> CleanItem(ws[k])
    requires ws != []
    ensures SplitAny(Join(ws, ","), ItemDelims) == ws
  {
    SplitAnyNone(ws[0], ItemDelims);
    if |ws| > 1 {
      var rest := ws[1..];
      SplitJoined(rest);
      JoinCons(ws[0], rest, ",");
      assert [ws[0]] + rest == ws;
      assert ws[0] + "," + Join(rest, ",") == ws[0] + [','] + Join(rest, ",");
      SplitAnyAt(ws[0], ',', Join(rest, ","), ItemDelims);
    }
  }

  /** Clean texts strip to themselves and are all kept. */
  lemma {:induction false} StrippedClean(ws: seq<string>)
    requires forall k :: 0 <= k < |ws| ==> CleanItem(ws[k])
    ensures Stripped(ws) == ws
  {
    if ws != [] {
      var init := ws[..|ws| - 1];
      StrippedClean(init);
      StripTrimmed(ws[|ws| - 1]);
      assert ws == init + [ws[|ws| - 1]];
    }
  }

  /** The characters of a joined list come from its parts and separator. */
  lemma {:induction false} JoinChars(ws: seq<string>, sep: string, c: char)
    requires c in Join(ws, sep)
    ensures c in sep || exists k :: 0 <= k < |ws| && c in ws[k]
  {
    if |ws| > 1 {
      assert Join(ws, sep) == ws[0] + sep + Join(ws[1..], sep);
      if c !in ws[0] && c !in sep {
        JoinChars(ws[1..], sep, c);
        var k :| 0 <= k < |ws[1..]| && c in ws[1..][k];
        assert ws[k + 1] == ws[1..][k];
      }
    }
  }

  lemma JoinedChar(ws: seq<string>, c: char)
    requires forall k :: 0 <= k < |ws| ==> CleanItem(ws[k])
    requires c in Join(ws, ",")
    ensures c !in JsonMarks
  {
    JoinChars(ws, ",", c);
    if c != ',' {
      var k :| 0 <= k < |ws| && c in ws[k];
      var m :| 0 <= m < |ws[k]| && ws[k][m] == c;
      assert CleanItem(ws[k]);
    }
  }

  lemma JoinedClean(ws: seq<string>)
    requires forall k :: 0 <= k < |ws| ==> CleanItem(ws[k])
    ensures forall i :: 0 <= i < |Join(ws, ",")| ==> Join(ws, ",")[i] !in JsonMarks
  {
    var s := Join(ws, ",");
    forall i | 0 <= i < |s| ensures s[i] !in JsonMarks {
      JoinedChar(ws, s[i]);
    }
  }

  /** The pieces of a comma-joined list of clean texts are the texts. */
  lemma JoinedPieces(ws: seq<string>)
    requires forall k :: 0 <= k < |ws| ==> CleanItem(ws[k])
    requires ws != []
    ensures Pieces(Join(ws, ",")) == ws
  {
    var s := Join(ws, ",");
    JoinedClean(ws);
    RemoveAbsent(s, JsonMarks);
    SplitJoined(ws);
  }

  lemma ItemsOfString(s: string)
    ensures Items(Str(s)) == Stripped(Pieces(s))
  {
  }

  /** Round trip: a field written as the comma-joined bullet texts renders
      those texts as its bullets. */
  lemma ItemsOfJoined(ws: seq<string>)
    requires forall k :: 0 <= k < |ws| ==> CleanItem(ws[k])
    requires ws != []
    ensures Items(Str(Join(ws, ","))) == ws
  {
    StrippedClean(ws);
    JoinedPieces(ws);
    ItemsOfString(Join(ws, ","));
  }
}

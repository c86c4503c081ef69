/**
  The report screen of the web app (`display_polished_report` and the
  report slicing in `main`, main.py). The generated text is cut out of the
  captured log, its JSON spans are merged, and the verdict, the literature
  sections and the final recommendation are chosen from the merged keys;
  the verdict banner's colour is chosen by keywords. Streamlit's rendering
  is not part of this model: the report is the value it would render.
*/
module Report {
  import opened Wrappers
  import opened Text
  import opened PyValue
  import opened HtmlList
  import opened JsonMerge

  // ---------------------------------------------------------------------------
  // Choosing a key
  // ---------------------------------------------------------------------------

  /** Whether the loop stops at `k`: the key is present and, where the loop
      asks for it, its value is true. */
  predicate Chosen(data: Entries, k: string, requireTrue: bool) {
    Lookup(data, k).Some? && (requireTrue ==> Truthy(Lookup(data, k).value))
  }

  /** The first key of `keys` the loop stops at. */
  function FirstKey(data: Entries, keys: seq<string>, requireTrue: bool): (r: Option<string>)
    ensures r.Some? ==> r.value in keys && Chosen(data, r.value, requireTrue)
  {
    if keys == [] then None
    else if Chosen(data, keys[0], requireTrue) then Some(keys[0])
    else FirstKey(data, keys[1..], requireTrue)
  }

  /** `FirstKey` is the first chosen key: every key before it is passed
      over, and it is `None` exactly when no key is chosen. */
  lemma {:induction false} FirstKeyFirst(data: Entries, keys: seq<string>, requireTrue: bool)
    ensures FirstKey(data, keys, requireTrue).Some? ==>
              exists i :: 0 <= i < |keys| && keys[i] == FirstKey(data, keys, requireTrue).value && Chosen(data, keys[i], requireTrue)
                          && forall j :: 0 <= j < i ==> !Chosen(data, keys[j], requireTrue)
    ensures FirstKey(data, keys, requireTrue).None? <==> forall j :: 0 <= j < |keys| ==> !Chosen(data, keys[j], requireTrue)
  {
    if keys != [] && !Chosen(data, keys[0], requireTrue) {
      var rest := keys[1..];
      FirstKeyFirst(data, rest, requireTrue);
      assert forall j :: 1 <= j < |keys| ==> keys[j] == rest[j - 1];
      if FirstKey(data, rest, requireTrue).Some? {
        var i :| 0 <= i < |rest| && rest[i] == FirstKey(data, rest, requireTrue).value && Chosen(data, rest[i], requireTrue)
                 && forall j :: 0 <= j < i ==> !Chosen(data, rest[j], requireTrue);
        forall j | 0 <= j < i + 1 ensures !Chosen(data, keys[j], requireTrue) {
          if j > 0 {
            assert keys[j] == rest[j - 1];
          }
        }
        assert keys[i + 1] == rest[i];
      }
    }
  }

  // ---------------------------------------------------------------------------
  // The verdict
  // ---------------------------------------------------------------------------

  /** The keys a verdict is read from, in order of preference. */
  const VerdictKeys: seq<string> := ["verdict", "conclusion", "核心结论", "最终结论"]

  const DefaultVerdict: string := "Analysis completed"

  /** The quotes removed from a verdict. */
  const Quotes: set<char> := {'"', '\''}

  /** The verdict: the first present verdict key's value as text without
      quotes; else the line the emoji pattern finds in the raw text
      (`emojiLine`, the regular expression being outside this model); else
      the default. */
  function Verdict(data: Entries, emojiLine: Option<string>): string {
    match FirstKey(data, VerdictKeys, false)
    case Some(k) => RemoveChars(ToStr(Lookup(data, k).value), Quotes)
    case None => if emojiLine.Some? then emojiLine.value else DefaultVerdict
  }

  /** Where the loop over `keys` stands after `i` keys without a stop. */
  lemma FirstKeyStep(data: Entries, keys: seq<string>, requireTrue: bool, i: nat)
    requires i < |keys|
    ensures FirstKey(data, keys[i..], requireTrue) ==
              if Chosen(data, keys[i], requireTrue) then Some(keys[i]) else FirstKey(data, keys[i + 1..], requireTrue)
  {
    assert keys[i..][0] == keys[i];
    assert keys[i..][1..] == keys[i + 1..];
  }

  /** The verdict loop: the first present key wins and stops the loop. */
  method SelectVerdict(data: Entries, emojiLine: Option<string>) returns (verdict: string)
    ensures verdict == Verdict(data, emojiLine)
  {
    verdict := DefaultVerdict;
    var foundVerdict := false;
    var i := 0;
    while i < |VerdictKeys|
      invariant 0 <= i <= |VerdictKeys|
      invariant !foundVerdict && verdict == DefaultVerdict
      invariant FirstKey(data, VerdictKeys, false) == FirstKey(data, VerdictKeys[i..], false)
    {
      var k := VerdictKeys[i];
      FirstKeyStep(data, VerdictKeys, false, i);
      if Lookup(data, k).Some? {
        verdict := RemoveChars(ToStr(Lookup(data, k).value), Quotes);
        foundVerdict := true;
        break;
      }
      i := i + 1;
    }
    if !foundVerdict {
      assert VerdictKeys[i..] == [];
      if emojiLine.Some? {
        verdict := emojiLine.value;
      }
    }
  }

  // ---------------------------------------------------------------------------
  // The literature sections
  // ---------------------------------------------------------------------------

  /** `field_map`: the report keys shown as literature sections, with their
      headings, in display order. */
  const FieldMap: seq<(string, string)> := [
    ("claims", "🗣 Claims & Ingredients"),
    ("pros", "✅ Product Pros / Supporting Evidence"),
    ("evidence", "📚 Scientific Evidence / Literature Conclusions"),
    ("contradictions", "⚠️ Contradictions / Risk Notes"),
    ("studies", "📖 Related Studies"),
    ("ingredients", "🧪 Key Ingredients")
  ]

  function Section(title: string, contentList: string): string {
    "<div><strong>" + title + "</strong></div>" + contentList
  }

  /** The section one field contributes, as the loop decides it: the key is
      present and true and its bullet list holds a `<li>`. */
  function SectionOf(data: Entries, field: (string, string)): Option<string> {
    match Lookup(data, field.0)
    case Some(v) =>
      if Truthy(v) && Contains(Formatted(v), "<li>") then Some(Section(field.1, Formatted(v))) else None
    case None => None
  }

  /** `lit_sections` after the loop over `fields`. */
  function Sections(data: Entries, fields: seq<(string, string)>): seq<string> {
    if fields == [] then []
    else
      var prior := Sections(data, fields[..|fields| - 1]);
      match SectionOf(data, fields[|fields| - 1])
      case Some(s) => prior + [s]
      case None => prior
  }

  /** One more field extends the sections by what that field contributes. */
  lemma SectionsStep(data: Entries, fields: seq<(string, string)>, i: nat)
    requires i < |fields|
    ensures Sections(data, fields[..i + 1]) ==
              match SectionOf(data, fields[i])
              case Some(s) => Sections(data, fields[..i]) + [s]
              case None => Sections(data, fields[..i])
  {
    assert fields[..i + 1][..i] == fields[..i];
  }

  /** The literature loop. */
  method CollectSections(data: Entries) returns (litSections: seq<string>)
    ensures litSections == Sections(data, FieldMap)
  {
    litSections := [];
    var i := 0;
    while i < |FieldMap|
      invariant 0 <= i <= |FieldMap|
      invariant litSections == Sections(data, FieldMap[..i])
    {
      SectionsStep(data, FieldMap, i);
      var (key, title) := FieldMap[i];
      var value := Lookup(data, key);
      if value.Some? && Truthy(value.value) {
        var contentList := FormatContentAsList(value.value);
        if Contains(contentList, "<li>") {
          litSections := litSections + [Section(title, contentList)];
        }
      }
      i := i + 1;
    }
    assert FieldMap[..i] == FieldMap;
  }

  /** The characters removed from the raw text when no section is shown. */
  const Braces: set<char> := {'{', '}', '"'}

  /** `literature_html`: the sections joined by `<br>`, or the raw text as
      one paragraph when there is none. */
  function LiteratureHtml(sections: seq<string>, rawText: string): string {
    if sections != [] then Join(sections, "<br>") else "<p>" + RemoveChars(rawText, Braces) + "</p>"
  }

  // ---------------------------------------------------------------------------
  // The final recommendation
  // ---------------------------------------------------------------------------

  /** The keys a recommendation is read from, in order of preference. */
  const ConclusionKeys: seq<string> := ["recommendation", "advice", "suggestion", "expert_advice", "最终结论", "final_conclusion"]

  const DefaultConclusion: string := "Please refer to the detailed analysis above."

  /** A recommendation value as text: a list's items joined by `；`, any
      other value's `str()`. */
  function ConclusionText(v: Value): string {
    if v.List? then Join(seq(|v.items|, i requires 0 <= i < |v.items| => ToStr(v.items[i])), "；") else ToStr(v)
  }

  function Conclusion(data: Entries): string {
    match FirstKey(data, ConclusionKeys, true)
    case Some(k) => ConclusionText(Lookup(data, k).value)
    case None => DefaultConclusion
  }

  /** The recommendation loop: the first present and true key wins. */
  method SelectConclusion(data: Entries) returns (finalConclusion: string)
    ensures finalConclusion == Conclusion(data)
  {
    finalConclusion := DefaultConclusion;
    var i := 0;
    while i < |ConclusionKeys|
      invariant 0 <= i <= |ConclusionKeys|
      invariant finalConclusion == DefaultConclusion
      invariant FirstKey(data, ConclusionKeys, true) == FirstKey(data, ConclusionKeys[i..], true)
    {
      var k := ConclusionKeys[i];
      FirstKeyStep(data, ConclusionKeys, true, i);
      var value := Lookup(data, k);
      if value.Some? && Truthy(value.value) {
        finalConclusion := ToStr(value.value);
        if value.value.List? {
          var xs := value.value.items;
          finalConclusion := Join(seq(|xs|, j requires 0 <= j < |xs| => ToStr(xs[j])), "；");
        }
        return;
      }
      i := i + 1;
    }
    assert ConclusionKeys[i..] == [];
  }

  // ---------------------------------------------------------------------------
  // The verdict banner
  // ---------------------------------------------------------------------------

  /** The banner colours, most severe first. */
  datatype Level = Red | Yellow | Green | Info

  function Severity(level: Level): nat {
    match level
    case Red => 3
    case Yellow => 2
    case Green => 1
    case Info => 0
  }

  const RedWords: seq<string> := ["虚假", "假", "Fake", "False", "🔴"]
  const YellowWords: seq<string> := ["夸大", "不实", "🟡", "Exaggerated", "Unsubstantiated"]
  const GreenWords: seq<string> := ["有效", "真实", "🟢", "Valid", "True"]

  /** `any(x in check_str for x in words)`. */
  predicate Mentions(check: string, words: seq<string>) {
    exists i :: 0 <= i < |words| && Contains(check, words[i])
  }

  /** The banner colour for `check_str`: red words first, then yellow, then green. */
  function Classify(check: string): Level {
    if Mentions(check, RedWords) then Red
    else if Mentions(check, YellowWords) then Yellow
    else if Mentions(check, GreenWords) then Green
    else Info
  }

  /** The banner text: the colour's own emoji is removed from the verdict. */
  function Banner(level: Level, verdict: string): string {
    match level
    case Red => "🔴 Core Verdict: " + RemoveChars(verdict, {'🔴'})
    case Yellow => "🟡 Core Verdict: " + RemoveChars(verdict, {'🟡'})
    case Green => "🟢 Core Verdict: " + RemoveChars(verdict, {'🟢'})
    case Info => "🔵 Core Verdict: " + verdict
  }

  // ---------------------------------------------------------------------------
  // The report
  // ---------------------------------------------------------------------------

  /** What the report screen shows: the banner's colour and text, the
      literature block and whether it is shown, and the recommendation. */
  datatype Rendered = Rendered(level: Level, banner: string, literature: string, showLiterature: bool, conclusion: string)

  function RenderedFrom(data: Entries, rawText: string, emojiLine: Option<string>): Rendered {
    var verdict := Verdict(data, emojiLine);
    var sections := Sections(data, FieldMap);
    var literature := LiteratureHtml(sections, rawText);
    var level := Classify(verdict + rawText);
    Rendered(level, Banner(level, verdict), literature, Contains(literature, "<li>") || |sections| > 0, Conclusion(data))
  }

  /** `display_polished_report`. `emojiLine` is what the emoji pattern finds
      in `rawText`. */
  method DisplayPolishedReport(rawText: string, jsonLoads: string -> Option<Value>, literalEval: string -> Option<Value>,
                               emojiLine: Option<string>)
    returns (screen: Rendered)
    ensures screen == RenderedFrom(Merged(Fragments(rawText), jsonLoads, literalEval), rawText, emojiLine)
  {
    var data := ExtractAllJson(rawText, jsonLoads, literalEval);
    var verdict := SelectVerdict(data, emojiLine);
    var litSections := CollectSections(data);
    var literatureHtml := "";
    if litSections != [] {
      literatureHtml := Join(litSections, "<br>");
    } else {
      var cleanRaw := RemoveChars(rawText, Braces);
      literatureHtml := "<p>" + cleanRaw + "</p>";
    }
    var finalConclusion := SelectConclusion(data);
    var checkStr := verdict + rawText;
    var level := Classify(checkStr);
    screen := Rendered(level, Banner(level, verdict), literatureHtml,
                       Contains(literatureHtml, "<li>") || |litSections| > 0, finalConclusion);
  }

  // ---------------------------------------------------------------------------
  // Cutting the report out of the log
  // ---------------------------------------------------------------------------

  /** `"-" * 60`, the rule printed around the generated report. */
  const Separator: string := "------------------------------------------------------------"

  /** How many characters at the end of the log stand in for the report
      when it holds no rule. */
  const TailLength: nat := 4000

  /** `raw_report`: the last two rule-delimited parts of the log joined,
      or the log's last 4000 characters when it holds no rule. */
  function SliceReport(log: string): string {
    var tail := if |log| > TailLength then log[|log| - TailLength..] else log;
    if Contains(log, Separator) then
      var parts := SplitOn(log, Separator);
      if |parts| >= 2 then parts[|parts| - 2] + parts[|parts| - 1] else tail
    else tail
  }

  // ---------------------------------------------------------------------------
  // Properties
  // ---------------------------------------------------------------------------

  /** The verdict comes from the most preferred present key, whatever the
      later keys hold; with none of them present it is the emoji line or the default. */
  lemma VerdictPreference(data: Entries, emojiLine: Option<string>)
    ensures Lookup(data, "verdict").Some? ==> Verdict(data, emojiLine) == RemoveChars(ToStr(Lookup(data, "verdict").value), Quotes)
    ensures (forall j :: 0 <= j < |VerdictKeys| ==> Lookup(data, VerdictKeys[j]).None?) ==>
              Verdict(data, emojiLine) == (if emojiLine.Some? then emojiLine.value else DefaultVerdict)
    ensures FirstKey(data, VerdictKeys, false).Some? ==> forall i :: 0 <= i < |Verdict(data, emojiLine)| ==> Verdict(data, emojiLine)[i] !in Quotes
  {
    assert VerdictKeys[0] == "verdict";
  }

  /** The reference rule for sections: a field is shown when it is present
      and true and has a bullet. */
  function SectionsByItems(data: Entries, fields: seq<(string, string)>): seq<string> {
    if fields == [] then []
    else
      var prior := SectionsByItems(data, fields[..|fields| - 1]);
      var field := fields[|fields| - 1];
      match Lookup(data, field.0)
      case Some(v) => if Truthy(v) && Items(v) != [] then prior + [Section(field.1, Formatted(v))] else prior
      case None => prior
  }

  /** The loop's string test `"<li>" in content_list` is the same as asking
      whether the field has a bullet. */
  lemma {:induction false} SectionsHaveBullets(data: Entries, fields: seq<(string, string)>)
    ensures Sections(data, fields) == SectionsByItems(data, fields)
  {
    if fields != [] {
      SectionsHaveBullets(data, fields[..|fields| - 1]);
      var field := fields[|fields| - 1];
      match Lookup(data, field.0)
      case Some(v) =>
        if Truthy(v) {
          HasBullet(v);
        }
      case None =>
    }
  }

  /** Each field adds at most one section, so there are at most six. */
  lemma {:induction false} SectionsBound(data: Entries, fields: seq<(string, string)>)
    ensures |Sections(data, fields)| <= |fields|
  {
    if fields != [] {
      SectionsBound(data, fields[..|fields| - 1]);
    }
  }

  /** Any section shows the literature block. */
  lemma LiteratureShown(data: Entries, rawText: string, emojiLine: Option<string>)
    ensures Sections(data, FieldMap) != [] ==> RenderedFrom(data, rawText, emojiLine).showLiterature
    ensures Sections(data, FieldMap) == [] ==>
              RenderedFrom(data, rawText, emojiLine).literature == "<p>" + RemoveChars(rawText, Braces) + "</p>"
  {
  }

  /** The recommendation comes from the first present and true key; a
      false value is passed over. */
  lemma ConclusionPreference(data: Entries)
    ensures Lookup(data, "recommendation").Some? && Truthy(Lookup(data, "recommendation").value) ==>
              Conclusion(data) == ConclusionText(Lookup(data, "recommendation").value)
    ensures (forall j :: 0 <= j < |ConclusionKeys| ==> !Chosen(data, ConclusionKeys[j], true)) ==>
              Conclusion(data) == DefaultConclusion
  {
    assert ConclusionKeys[0] == "recommendation";
  }

  /** A word found in a text is found in any text that contains it. */
  lemma MentionsAppend(s: string, t: string, words: seq<string>)
    requires Mentions(s, words)
    ensures Mentions(s + t, words) && Mentions(t + s, words)
  {
    var i :| 0 <= i < |words| && Contains(s, words[i]);
    ContainsAppend(s, t, words[i]);
    ContainsAppend(t, s, words[i]);
  }

  /** More text never makes the banner less severe. */
  lemma ClassifyMonotone(s: string, t: string)
    ensures Severity(Classify(s)) <= Severity(Classify(s + t))
    ensures Severity(Classify(s)) <= Severity(Classify(t + s))
  {
    if Mentions(s, RedWords) {
      MentionsAppend(s, t, RedWords);
    } else if Mentions(s, YellowWords) {
      MentionsAppend(s, t, YellowWords);
    } else if Mentions(s, GreenWords) {
      MentionsAppend(s, t, GreenWords);
    }
  }

  /** The banner is at least as severe as the raw text alone and as the
      verdict alone call for: a red word anywhere in the output makes it red. */
  lemma BannerSeverity(data: Entries, rawText: string, emojiLine: Option<string>)
    ensures Severity(Classify(rawText)) <= Severity(RenderedFrom(data, rawText, emojiLine).level)
    ensures Severity(Classify(Verdict(data, emojiLine))) <= Severity(RenderedFrom(data, rawText, emojiLine).level)
    ensures Mentions(rawText, RedWords) ==> RenderedFrom(data, rawText, emojiLine).level == Red
  {
    ClassifyMonotone(rawText, Verdict(data, emojiLine));
    ClassifyMonotone(Verdict(data, emojiLine), rawText);
  }

  /** `sep.join` with one more part. */
  lemma {:induction false} JoinSnoc(parts: seq<string>, x: string, sep: string)
    requires parts != []
    ensures Join(parts + [x], sep) == Join(parts, sep) + sep + x
  {
    if |parts| == 1 {
      assert (parts + [x])[1..] == [x];
    } else {
      assert (parts + [x])[1..] == parts[1..] + [x];
      JoinSnoc(parts[1..], x, sep);
      assert Join(parts + [x], sep) == parts[0] + sep + Join(parts[1..] + [x], sep);
    }
  }

  /** Joined parts end with the last two parts around a separator, after
      either nothing or a text ending with the separator. */
  lemma JoinLastTwo(parts: seq<string>, sep: string)
    requires |parts| >= 2
    ensures exists pre :: Join(parts, sep) == pre + parts[|parts| - 2] + sep + parts[|parts| - 1]
                         && (pre == [] || (|pre| >= |sep| && pre[|pre| - |sep|..] == sep))
  {
    var n := |parts|;
    var a := parts[n - 2];
    var b := parts[n - 1];
    var front := parts[..n - 2];
    assert parts == front + [a] + [b];
    JoinSnoc(front + [a], b, sep);
    if n == 2 {
      assert front + [a] == [a];
      assert Join(parts, sep) == [] + a + sep + b;
    } else {
      JoinSnoc(front, a, sep);
      var pre := Join(front, sep) + sep;
      assert Join(parts, sep) == pre + a + sep + b;
      assert pre[|pre| - |sep|..] == sep;
    }
  }

  /** A text holding `sep` is its last two `sep`-free parts around a `sep`,
      after either nothing or a text ending with `sep`. */
  lemma LastTwoParts(log: string, sep: string)
    requires |sep| > 0 && Contains(log, sep)
    ensures |SplitOn(log, sep)| >= 2
    ensures var parts := SplitOn(log, sep);
            var a, b := parts[|parts| - 2], parts[|parts| - 1];
            && !Contains(a, sep) && !Contains(b, sep)
            && exists pre :: log == pre + a + sep + b && (pre == [] || (|pre| >= |sep| && pre[|pre| - |sep|..] == sep))
  {
    var parts := SplitOn(log, sep);
    SplitOnCount(log, sep);
    JoinSplitOn(log, sep);
    JoinLastTwo(parts, sep);
    SplitOnPieces(log, sep);
  }

  /** With a rule in the log, the report is the text between the second-to-last
      rule (or the log's start) and the last rule, followed by the text after
      the last rule; neither piece holds a rule. */
  lemma SliceWithRule(log: string)
    requires Contains(log, Separator)
    ensures exists pre, a, b ::
              && log == pre + a + Separator + b
              && SliceReport(log) == a + b
              && !Contains(a, Separator) && !Contains(b, Separator)
              && (pre == [] || (|pre| >= |Separator| && pre[|pre| - |Separator|..] == Separator))
  {
    LastTwoParts(log, Separator);
    var parts := SplitOn(log, Separator);
    var a, b := parts[|parts| - 2], parts[|parts| - 1];
    assert SliceReport(log) == a + b;
  }

  /** Without a rule, the report is the log's last 4000 characters, or the
      whole log when it is shorter. */
  lemma SliceWithoutRule(log: string)
    requires !Contains(log, Separator)
    ensures |SliceReport(log)| == if |log| > TailLength then TailLength else |log|
    ensures log == log[..|log| - |SliceReport(log)|] + SliceReport(log)
  {
  }

  /** Whenever the log holds a rule it splits into at least two parts, so
      the length test in `main` never fails. */
  lemma SliceGuardHolds(log: string)
    requires Contains(log, Separator)
    ensures |SplitOn(log, Separator)| >= 2
  {
    SplitOnCount(log, Separator);
  }
}

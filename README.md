# Evidence-based health-claim checker: a Dafny model of its retrieval and report core

The system checks the claims of a health-product advertisement against
medical literature. It runs three stages, and a Streamlit page ties them
together:

1. The agent (`agent_flow_extra_keyword_and_search.py`) works in three steps:
   - it asks a language model for search keywords and cuts the `{…}` span out of the reply;
   - it queries PubMed for each keyword, restricted to randomized controlled trials and meta-analyses;
   - it saves every article that has an abstract into a JSON dataset.
2. The build (`step2_build.py`) reads that dataset and works out its shape: a wrapper dictionary, a list, or a single article. It keeps the dictionaries whose abstract is longer than five characters and embeds `Title: …\nAbstract: …` for each. It then pickles the kept documents beside a Faiss index.
3. The retriever (`step3_rag.py`) loads the documents and tokenizes each one's title and abstract for BM25. For a claim it works in three steps:
   - it merges the Faiss top 10 (skipping `-1` padding and repeats) with the BM25 top 10 not already found;
   - it numbers the merged list from 1;
   - it builds the grounding context and the prompt for the model.

The page (`main.py`) cuts the generated report out of the captured log, between the 60-dash rules. It then turns the report into a screen:
- the JSON fragments of the report are merged, later ones winning;
- the verdict is picked by key preference, with an emoji line as fallback;
- each literature field is formatted as an HTML bullet list;
- the banner colour is chosen by red, then yellow, then green keywords;
- the recommendation is picked by key preference.

The model follows the source's own form:
- Loops become methods proved against specification functions: the two collection loops of `search` and its numbering loop; the context loop; the build's filter loop; the bullet-list loops; the JSON merge loop; the verdict, section and conclusion loops; the nested PubMed loops.
- Pure parts stay functions, and the properties are lemmas about those functions.

Python values (`None`, booleans, integers, strings, lists, insertion-ordered dictionaries) are a datatype. `str`, `repr`, `len`, truthiness, `dict.get`, `dict.update` and the string methods the code calls are modelled on that datatype.

Beyond each stage, `Pipeline` proves how the stages meet:
- Every record the agent saves has a title entry and a non-empty string abstract. The build's filter over such records never raises, and it keeps exactly the records whose abstract is longer than five characters.
- The built documents load into the retriever exactly when every title is a string and some document has a token. PubMed reports a missing title as `None`. The agent saves that `None` as is, and the build keeps the record. The retriever's `doc.get('title', '') + " " + …` then raises TypeError (`Pipeline.NullTitleFailsLoad`).

Where the design description of the system and the code differ, the model follows the code:
- Ties in the BM25 ranking: the description says they are broken by ascending position. `np.argsort` is not stable by default, so the model leaves the order of equal scores open (`Retrieval.IsDescendingArgsort`).
- Result size: the description promises `K <= |result| <= 2K`. The code gives `min(K, N) <= |result| <= 2K` for N documents (`Retrieval.SearchBounds`).
- Count mismatch: the description calls a mismatch between vector count and document count a fatal error at load. The code does not check it. A vector id past the document list raises IndexError inside `search` (`Retrieval.SearchSpec`).
- Missing fields: the description says a missing title or abstract is tolerated as empty. That is true only of an absent key. A title or abstract that is not a string makes construction raise TypeError (`Retrieval.TextField`).
- The construction check: the code checks only that the index file exists. A missing pickle then fails when it is opened (`Retrieval.Load`).
- An empty knowledge base: the description says retrieval over an empty corpus yields an empty list. In the code, construction already fails: `BM25Okapi` divides by the number of documents and by the number of distinct tokens, so a corpus with no token raises ZeroDivisionError (`Retrieval.LoadEmpty`). `search` itself does yield an empty list for an empty document list (`Retrieval.SearchEmptyCorpus`).

## Model

| member | source | states |
|---|---|---|
| Text.Lower | step3_rag.py:45 | `lower()` keeps the length and maps each character by itself; the result has no upper-case letter (`Text.LowerHasNoUpper`) and spaces stay spaces |
| Text.LowerAppend | step3_rag.py:45 | lower-casing distributes over concatenation |
| Text.LowerNoUpper | step3_rag.py:45 | lower-casing text without upper-case letters changes nothing |
| Text.LowerHasNoUpper | step3_rag.py:45 | the result of lower-casing has no upper-case letter |
| Text.Split | step3_rag.py:45 | every piece of `split()` is a non-empty word without whitespace, made of characters of the input |
| Text.SplitAppend | step3_rag.py:41 | a whitespace character separates tokens: `split()` of `a + " " + b` is the pieces of `a` then those of `b` |
| Text.SplitWord | step3_rag.py:45 | a single word splits to itself |
| Text.SplitJoin | step3_rag.py:45 | words joined by single spaces split back into the same words |
| Text.NonEmptyAppend | step3_rag.py:45 | dropping empty pieces distributes over concatenation |
| Text.SplitAny | main.py:133 | `re.split` on a character class yields at least one piece |
| Text.SplitAnyNone | main.py:133 | text without a delimiter is one piece |
| Text.SplitAnyAt | main.py:133 | a delimiter splits the text into the pieces before it and the pieces after it |
| Text.SplitAnyPieces | main.py:133 | no piece holds a delimiter, and every character of a piece comes from the input |
| Text.DropSpaceShape | main.py:124 | `lstrip` removes exactly the leading whitespace: the rest is a suffix that starts with a non-space |
| Text.DropSpaceEndShape | main.py:124 | `rstrip` removes exactly the trailing whitespace: the rest is a prefix that ends with a non-space |
| Text.StripShape | main.py:124 | `strip()` is the slice between the leading and trailing whitespace, and starts and ends with a non-space |
| Text.StripBlank | main.py:135 | `strip()` is empty exactly when every character is whitespace |
| Text.NoUpperJoinWords | step3_rag.py:45 | joining lower-case words keeps the text lower-case |
| Text.FindFrom | main.py:201 | the search for a substring returns its first occurrence from a position, and `None` only when there is none |
| Text.ContainsAt | main.py:201 | a substring occurring at some position makes `in` true |
| Text.ContainsAppend | main.py:223 | a substring of either part is a substring of the concatenation |
| Text.IndexOf | agent_flow_extra_keyword_and_search.py:65 | `find(c)` is the first position of `c`, and -1 exactly when `c` is absent |
| Text.LastIndexOf | agent_flow_extra_keyword_and_search.py:66 | `rfind(c)` is the last position of `c`, and -1 exactly when `c` is absent |
| Text.SplitOn | main.py:306 | `str.split(sep)` yields at least one part |
| Text.JoinSplitOn | main.py:306 | joining the parts of `split(sep)` with `sep` gives back the text |
| Text.SplitOnPieces | main.py:306 | no part of `split(sep)` contains the separator |
| Text.SplitOnCount | main.py:305-307 | `split(sep)` has two parts or more exactly when the separator occurs |
| Text.RemoveChars | main.py:131 | after the `replace(c, "")` chain none of the removed characters remains, and every remaining character comes from the input |
| Text.ReplaceChar | main.py:152 | `replace("\n", " ")` keeps the length and every other character in place, and no newline is left in the result |
| Text.NatToString | step3_rag.py:117 | the decimal form of a rank is digits without a leading zero |
| Text.NatToStringRoundTrip | step3_rag.py:117 | reading back the decimal form of a number gives the number |
| PyValue.KeysAt | main.py:163 | the key list has one key per entry, in entry order |
| PyValue.Lookup | main.py:179 | `k in data` fails exactly when `k` is not a key, and `data[k]` is the value stored under `k` |
| PyValue.GetLookup | step2_build.py:64-65 | `d.get(k, default)` is `d[k]` for a present key and `default` otherwise |
| PyValue.Put | main.py:163 | after `d[k] = v`, `d[k]` is `v` and every other key keeps its value |
| PyValue.PutKeys | main.py:163 | storing under an existing key keeps the key order; a new key goes last |
| PyValue.PutUnique | main.py:163 | storing keeps the keys unique |
| PyValue.UpdateLookup | main.py:163 | after `d.update(f)`, a key of `f` maps to its value in `f`, and every other key keeps its value in `d` |
| PyValue.UpdateUnique | main.py:163 | `d.update(f)` keeps the keys unique |
| PyValue.UpdateKeysPrefix | main.py:163 | `d.update(f)` keeps the keys of `d` first and in order |
| PyValue.Iterate | step2_build.py:62 | iterating yields `len(v)` items, and raises exactly for a value without a length |
| PyValue.TruthyLen | main.py:116 | a value with a length is true exactly when that length is positive |
| PyValue.QuoteString | main.py:124 | `repr` of a string is enclosed in its quote character |
| Retrieval.Tokenize | step3_rag.py:44-45 | every token is a non-empty lower-case word without whitespace |
| Retrieval.TokenizeIdempotent | step3_rag.py:44-45 | tokenizing the space-joined tokens gives the same tokens, so the corpus and the query share one rule |
| Retrieval.TokenizeConcat | step3_rag.py:41 | the tokens of `title + " " + abstract` are the title's tokens followed by the abstract's |
| Retrieval.TextField | step3_rag.py:41 | `doc.get(key, '')` is `''` for an absent key and the string for a string; any other value makes the concatenation raise |
| Retrieval.CorpusText | step3_rag.py:41 | the corpus text is the title, a space and the abstract, and it fails exactly when either field fails |
| Retrieval.CorpusTokens | step3_rag.py:41 | the corpus is built exactly when every document's text can be built, and then it holds one token list per document, in order |
| Retrieval.Load | step3_rag.py:25-42 | raises FileNotFoundError without the index file or the pickle; otherwise it succeeds exactly when every document's text can be built and some document has a token (else BM25 raises ZeroDivisionError), and it then holds the stored documents and their tokens |
| Retrieval.Bm25Init | step3_rag.py:42 | `BM25Okapi` construction succeeds exactly when some token list is non-empty; an empty corpus or one with no token raises ZeroDivisionError |
| Retrieval.LoadEmpty | step3_rag.py:39-42 | an empty knowledge base does not load: BM25 raises ZeroDivisionError |
| Retrieval.CollectVector | step3_rag.py:61-70 | the vector loop fails exactly on an id past the document list; otherwise it collects the non-padding ids once each, in row order, and `seen_ids` holds exactly those ids |
| Retrieval.CollectKeyword | step3_rag.py:78-86 | the keyword loop appends, in order, the BM25 ids not already seen, each once |
| Retrieval.Number | step3_rag.py:92-93 | the numbering loop gives each result its position plus one as `rank` |
| Retrieval.TopSlice | step3_rag.py:75 | the reversed-argsort top 10 are distinct document positions in non-increasing score order |
| Retrieval.Search | step3_rag.py:47-95 | `search` is the merge specification applied to the Faiss row and the BM25 top 10, and it raises exactly when the Faiss row names an id past the document list |
| Retrieval.AdmitMembers | step3_rag.py:61-64 | the collected ids are exactly the ids walked that are not excluded, with no id twice and no more ids than walked |
| Retrieval.HitsAt | step3_rag.py:65-67 | one hit per collected id, in order, tagged with its source |
| Retrieval.FirstIndex | step3_rag.py:61 | the first position of an id in a row |
| Retrieval.AdmitSorted | step3_rag.py:78-80 | skipping seen ids keeps the keyword hits in non-increasing score order |
| Retrieval.AdmitFirstAppearance | step3_rag.py:61-64 | collected ids keep the order of their first appearance in the row |
| Retrieval.SearchEntries | step3_rag.py:61-93 | entry `i` of the result is the hit at position `i` of "vector ids, then new keyword ids", numbered `i + 1` |
| Retrieval.SearchShape | step3_rag.py:52-93 | ranks are exactly 1..n, no id occurs twice, and every Vector entry precedes every Keyword entry |
| Retrieval.SearchIdsInRange | step3_rag.py:67-68 | every entry names a position of the document list |
| Retrieval.SearchTexts | step3_rag.py:68-69 | each entry carries `documents[id].get('title', '')` and `documents[id].get('abstract', '')` |
| Retrieval.SearchProvenance | step3_rag.py:61-86 | a Vector entry comes from the Faiss row; a Keyword entry comes from the BM25 top 10 and is absent from the Faiss row; every non-padding vector hit and every keyword hit is listed |
| Retrieval.SearchSize | step3_rag.py:88-89 | the result has at least as many entries as the keyword hits and at most as many as both lists together |
| Retrieval.SearchKeywordOrder | step3_rag.py:75-86 | Keyword entries are in non-increasing BM25 score order |
| Retrieval.SearchVectorOrder | step3_rag.py:61-70 | Vector entries keep the order of their first appearance in the Faiss row |
| Retrieval.SearchBounds | step3_rag.py:75-89 | for N documents the result has between min(10, N) and 20 entries |
| Retrieval.AdmitNone | step3_rag.py:61-64 | walking only excluded ids collects nothing |
| Retrieval.SearchEmptyCorpus | step3_rag.py:57-95 | `search` over an empty document list, with a Faiss row of padding only, yields an empty evidence list rather than an error; a loaded retriever never has an empty document list |
| Grounding.BuildContext | step3_rag.py:112-117 | the context loop builds the grounding context of the evidence |
| Grounding.VerifyPrompt | step3_rag.py:103-129 | `verify` up to the model call: the prompt over the context of the search result, or the search's IndexError |
| Grounding.BlocksAppend | step3_rag.py:116-117 | the blocks of two evidence lists are the blocks of the first, then those of the second |
| Grounding.BlockPosition | step3_rag.py:116-117 | the block of item `i` sits between the blocks of the items before it and those after it |
| Grounding.BlockStart | step3_rag.py:117 | every block is non-empty and starts with a dash |
| Grounding.ContextNotice | step3_rag.py:112-117 | the context is the "no relevant literature" notice exactly when there is no evidence |
| Grounding.ContextBlocks | step3_rag.py:116-117 | the context contains the `--- Evidence [rank] ---` block of every item |
| Grounding.PromptGrounded | step3_rag.py:120-129 | the prompt contains the claim and every evidence block, or the notice when there is no evidence |
| Build.EmbeddingTextFields | step2_build.py:64-67 | the embedding text is `Title: ` with the title or `No Title`, then `\nAbstract: ` with the abstract or nothing |
| Build.CollectTexts | step2_build.py:59-69 | the filter loop raises when the filter raises; otherwise `texts` and `valid_articles` are the embedding texts of the kept documents and those documents |
| Build.FilterPrefixError | step2_build.py:62-66 | an error in the first items stops the whole loop with that error |
| Build.BuildKnowledgeBase | step2_build.py:14-96 | the build ends as its specification says: a missing input file, an unrecognised shape, no articles, an exception, no valid abstract, or the aligned texts and documents |
| Build.FilterAppend | step2_build.py:62-69 | filtering a concatenation is filtering each part, the first error winning |
| Build.FilterRaises | step2_build.py:66 | the filter raises TypeError exactly when some dictionary's abstract is true but has no length |
| Build.FilterMembers | step2_build.py:62-69 | the kept documents are exactly the dictionaries whose abstract is true and longer than five characters |
| Build.ShapeEquivalence | step2_build.py:29-42 | a wrapper dictionary builds like its `evidence_list`, and any other dictionary builds like a one-article list |
| Build.Recognised | step2_build.py:18-46 | only a dictionary or a list is recognised, and a missing input file stops the build |
| Build.BuiltAligned | step2_build.py:67-96 | a built knowledge base has as many texts as documents, at least one, each text embedding its document, and every document is a qualifying input article |
| Build.FilterNone | step2_build.py:62-69 | with no qualifying item the filter keeps nothing |
| Build.NothingToEmbed | step2_build.py:71-73 | with no qualifying article nothing is built |
| HtmlList.Unquoted | main.py:124 | one item per list element, in order; no item holds a double quote, and every character of an item comes from that element's `str()` |
| HtmlList.AppendBullets | main.py:134-136 | the bullet loop appends one `<li>` per non-blank piece, stripped |
| HtmlList.FormatContentAsList | main.py:112-139 | the method computes the specified bullet list of the content |
| HtmlList.FormattedShape | main.py:116-138 | false content gives the "no details" notice; otherwise the output opens with `<ul class="custom-list">` and closes with `</ul>` |
| HtmlList.HasBullet | main.py:122-136 | true content has a `<li>` exactly when it has an item |
| HtmlList.LiAllAppend | main.py:126 | the bullets of two item lists are the bullets of the first, then those of the second |
| HtmlList.StrippedAppend | main.py:134-136 | stripping and dropping blank pieces distributes over concatenation |
| HtmlList.StrippedMembers | main.py:134-136 | the items are exactly the non-empty stripped pieces, and each is already stripped |
| HtmlList.StripIdempotent | main.py:135-136 | stripping twice is stripping once |
| HtmlList.StripChars | main.py:135-136 | stripping adds no character |
| HtmlList.StrippedChars | main.py:134-136 | every character of an item comes from some piece |
| HtmlList.PiecesClean | main.py:131-133 | no piece holds a JSON mark or a delimiter |
| HtmlList.ItemsCleanString | main.py:129-136 | the items of a string hold no bracket, quote or delimiter |
| HtmlList.ItemsCleanList | main.py:122-126 | the items of a list hold no double quote |
| HtmlList.RemoveAbsent | main.py:131 | removing characters that do not occur changes nothing |
| HtmlList.StripTrimmed | main.py:135 | text that starts and ends with a non-space strips to itself |
| HtmlList.SplitJoined | main.py:133 | clean items joined by commas split back into the same items |
| HtmlList.StrippedClean | main.py:134-136 | clean items survive stripping and the blank filter unchanged |
| HtmlList.JoinedClean | main.py:131 | clean items joined by commas hold no JSON mark |
| HtmlList.JoinedPieces | main.py:131-133 | cleaning and splitting clean items joined by commas gives back the items |
| HtmlList.ItemsOfJoined | main.py:129-136 | a string of clean items joined by commas formats to exactly those items |
| JsonMerge.CloseFrom | main.py:149 | the first `}` at or after a position, and `None` only when there is none |
| JsonMerge.ExtractAllJson | main.py:141-165 | the merge loop computes the fold of `update` over the dictionary spans |
| JsonMerge.FragmentsShape | main.py:149 | each span opens with `{`, closes with the first `}` after it, and holds no `}` in between |
| JsonMerge.FragmentsExist | main.py:149 | there is a span exactly when some `{` has a `}` after it |
| JsonMerge.LatestSnoc | main.py:151-163 | a last span that is a dictionary holding the key decides it; otherwise the earlier spans do |
| JsonMerge.MergedLookup | main.py:151-163 | a key of the merged dictionary holds its value in the last dictionary span that has it, and a key no span has is absent |
| JsonMerge.MergedUnique | main.py:163 | the merged dictionary never holds a key twice |
| JsonMerge.MergedKeysGrow | main.py:163 | merging more spans never drops or reorders the keys already merged |
| Report.FirstKey | main.py:178-182 | the key chosen is one of the candidates and is present (and true when required) |
| Report.FirstKeyFirst | main.py:178-182 | the key chosen is the first candidate that qualifies, and none is chosen exactly when no candidate qualifies |
| Report.SelectVerdict | main.py:177-186 | the verdict loop with its flag and `break` computes the specified verdict |
| Report.VerdictPreference | main.py:177-186 | a `verdict` key wins, with its quotes removed; with no candidate key the emoji line or the default is used; a verdict read from a key holds no quote |
| Report.CollectSections | main.py:197-203 | the section loop computes the specified sections |
| Report.SectionsHaveBullets | main.py:198-203 | a field gives a section exactly when it is present, true and has an item |
| Report.SectionsBound | main.py:198-203 | there are no more sections than fields |
| Report.LiteratureShown | main.py:204-208 | with sections the literature block is shown; without them it is the raw text in a paragraph, without braces or double quotes |
| Report.SelectConclusion | main.py:211-216 | the conclusion loop with `break` computes the specified recommendation |
| Report.ConclusionPreference | main.py:211-216 | a true `recommendation` wins, a list is joined by `；`, and the default is used when no key is present and true |
| Report.DisplayPolishedReport | main.py:167-240 | the screen is the specified rendering of the merged JSON of the raw text |
| Report.MentionsAppend | main.py:222-223 | a keyword of the text is still found when text is added on either side |
| Report.ClassifyMonotone | main.py:222-230 | adding text never lowers the colour's severity (red over yellow over green over info) |
| Report.BannerSeverity | main.py:222-230 | the banner is at least as severe as the raw text and as the verdict alone, and a red keyword in the raw text makes it red |
| Report.JoinSnoc | main.py:308 | joining one more part adds the separator and that part |
| Report.JoinLastTwo | main.py:308 | a join of two parts or more ends with the last two parts around a separator |
| Report.LastTwoParts | main.py:305-308 | when the rule occurs, the log is some prefix, the second-to-last part, the rule, and the last part |
| Report.SliceWithRule | main.py:303-308 | with the rule in the log, the report is the text around its last occurrence with the rule removed, and neither half contains the rule |
| Report.SliceWithoutRule | main.py:303-304 | without the rule, the report is the last 4000 characters of the log |
| Report.SliceGuardHolds | main.py:305-307 | when the rule occurs, `len(parts) >= 2` always holds |
| Agent.AppendRecords | agent_flow_extra_keyword_and_search.py:103-120 | the inner loop appends the records of the articles with an abstract, and `count` is their number |
| Agent.SearchTerms | agent_flow_extra_keyword_and_search.py:94-126 | the outer loop collects the records of every term in term order and issues one query per term |
| Agent.SearchPubMed | agent_flow_extra_keyword_and_search.py:82-128 | `step2_search_pubmed` returns the specified records, and issues queries only for true, iterable keywords |
| Agent.Run | agent_flow_extra_keyword_and_search.py:148-154 | `run` saves the report of the search over the extracted keywords, or propagates its TypeError |
| Agent.SpanMissing | agent_flow_extra_keyword_and_search.py:65-68 | no span is cut exactly when the reply lacks `{` or `}` |
| Agent.SpanOutermost | agent_flow_extra_keyword_and_search.py:65-70 | a non-empty span runs from the first `{` to the last `}` of the reply |
| Agent.SpanBounds | agent_flow_extra_keyword_and_search.py:65-70 | a non-empty span is the slice between `find('{')` and `rfind('}') + 1` |
| Agent.SpanReversed | agent_flow_extra_keyword_and_search.py:65-70 | a last `}` before the first `{` gives the empty span |
| Agent.KeywordsOrigin | agent_flow_extra_keyword_and_search.py:64-80 | keywords other than `[]` come from the `keywords` entry of the parsed span, and a span that parses to a dictionary with a `keywords` entry gives that entry |
| Agent.NoKeywordsNoSearch | agent_flow_extra_keyword_and_search.py:86-88 | no keywords give no articles |
| Agent.FirstLineShape | agent_flow_extra_keyword_and_search.py:105 | the id is the text before the first newline |
| Agent.RecordEntries | agent_flow_extra_keyword_and_search.py:110-117 | each key of `article_data` holds its value |
| Agent.RecordFields | agent_flow_extra_keyword_and_search.py:105-117 | a record holds the id, the PubMed url of that id, the non-empty abstract, the search term and the title |
| Agent.RecordsAppend | agent_flow_extra_keyword_and_search.py:104-119 | the records of two article lists are the records of the first, then those of the second |
| Agent.RecordsMembers | agent_flow_extra_keyword_and_search.py:104-119 | the records are exactly the records of the articles with an abstract |
| Agent.RecordsBound | agent_flow_extra_keyword_and_search.py:104-119 | there are no more records than articles |
| Agent.CollectedAppend | agent_flow_extra_keyword_and_search.py:94-126 | the records of two term lists are those of the first, then those of the second |
| Agent.CollectedBound | agent_flow_extra_keyword_and_search.py:101 | at most 100 records per term |
| Agent.ReportCount | agent_flow_extra_keyword_and_search.py:136-140 | `evidence_count` is the length of `evidence_list`, which holds the records, beside the advertisement |
| Pipeline.RecordOfShaped | agent_flow_extra_keyword_and_search.py:110-117 | a saved record has a title entry and a non-empty string abstract |
| Pipeline.RecordsShaped | agent_flow_extra_keyword_and_search.py:104-119 | every record of an article list has that shape |
| Pipeline.CollectedShaped | agent_flow_extra_keyword_and_search.py:94-128 | every record the search collects has that shape |
| Pipeline.RecordQualifies | step2_build.py:65-66 | a saved record never makes the filter raise, and it passes exactly when its abstract is longer than five characters |
| Pipeline.FilterRecords | step2_build.py:62-69 | the filter over saved records never raises and keeps exactly those with an abstract longer than five characters |
| Pipeline.AgentDatasetBuild | step2_build.py:29-73 | the agent's dataset builds: no records stop the build before any embedding; otherwise it builds the long-abstract records, or stops when every abstract has five characters or fewer |
| Pipeline.BuiltDocumentsLoad | step3_rag.py:39-42 | built documents load exactly when every title is a string and some document has a token |
| Pipeline.SavedArticles | step2_build.py:30-32 | the build reads the saved report's evidence list |
| Pipeline.SingleRecordBuild | step2_build.py:62-69 | one record with a long abstract builds a knowledge base of that record alone |
| Pipeline.NullTitleFailsLoad | step3_rag.py:41 | an article without a title but with a long abstract is built into the knowledge base, and the retriever then cannot load it |

## Left out

- The language model: loading, the chat template and generation. The model's reply is a parameter. The agent's keyword-extraction prompt is not modelled; the prompt of `verify` is reproduced word for word (`Grounding.VerifyPrompt`).
- Retrieval.Bm25Init: of `BM25Okapi` only the two divisions that can fail are modelled (by the number of documents and by the number of distinct tokens); the scores themselves are not.
- Embeddings, Faiss, and the BM25 scoring itself. These are floating-point computations inside libraries.
  - The Faiss answer is an input row of ids with `-1` padding.
  - The BM25 scores are the output of a scorer parameter.
  - The argsort is any order that lists every position once by non-increasing score, so the order of equal scores is not fixed.
- `json.loads`, `ast.literal_eval` and `re.search` for the emoji line are parameters. The `{.*?}` scan of `re.finditer` is modelled exactly.
- Files and persistence. The existence of the dataset, the index and the pickle are boolean parameters. The JSON dump and load, and the pickle dump and load, are taken to return the values written. Neither the Faiss index file nor the vector count is modelled.
- Streamlit rendering, CSS, memory clearing, stdout capture, the network, and `time.sleep`.
- PubMed: each query is a function from the query string to the articles it yields. A query that raises partway is modelled as the articles it yielded before raising. The `except` then skips the rest of that term.
- The `HealthAgent` constructor and the `LightRAGBot` constructor only load models. `get_pubmed_Dataset.py` and `step1_craw1.py` are crawler scripts that are not part of this model.
- Floats inside JSON values, and the `pub_date` of an article beyond its string form.
- Text.Lower: only ASCII letters are lower-cased, because Unicode case tables are not modelled.
- PyValue.QuoteString: `repr` escapes only backslash, the quote, `\n`, `\r` and `\t`. Other control characters and non-printable characters keep their raw form.
- Text.RemoveChars: the contract states what the result holds, not that it keeps the other characters in order. The definition does keep them in order.
- Agent.AppendRecords: `count` is computed and stated but only ever printed.

/**
  The grounding step of `LightRAGBot.verify` (step3_rag.py): the retrieved
  evidence is rendered as numbered text blocks, or a notice when nothing was
  retrieved, and placed with the user's claim into the instruction prompt.
  The language model that answers the prompt is not part of this model.
*/
module Grounding {
  import opened Wrappers
  import opened Text
  import opened PyValue
  import opened Retrieval

  /** The context when nothing was retrieved. It is written with its opening
      bracket apart so that proofs can read its first character. */
  const NoEvidenceNotice: string := ['【'] + "System Notice】: No relevant literature in the database."

  /** The prompt text before the claim. */
  const PromptHead: string :=
    "\n## Strict Instructions\nDo not output JSON, dictionaries, or Python lists. Write in clear, natural English as a professional clinician.\n\n## Task\nUsing the following Evidence, verify the truthfulness of the User Claim.\n\nUser Claim: "

  /** The prompt text between the claim and the evidence. */
  const PromptMiddle: string := "\nEvidence:\n"

  /** The prompt text after the evidence: the required answer layout. */
  const PromptTail: string :=
    "\n\n## Output format (Markdown)\n\n### 1. Core Verdict\n*(Write only one sentence, starting with 🔴Do not buy / 🟡Consider with caution / 🟢Reasonable to buy)*\n\n### 2. Detailed Analysis\n*(Use unordered list `*`. No quotes, no brackets.)*\n* About the claim: [content]\n* Scientific evidence: [content]\n* Contradictions: [content]\n\n### 3. Final Recommendation\n*(Write a short paragraph. No JSON.)*\n"

  /** The block one evidence entry contributes; the f-string inserts `str()`
      of the title and abstract values. */
  function Block(e: Evidence): string {
    "--- Evidence [" + NatToString(e.rank) + "] ---\nTitle: " + ToStr(e.title) + "\nAbstract: " + ToStr(e.abstractText) + "\n\n"
  }

  /** The blocks of all entries, in list order. */
  function Blocks(ev: seq<Evidence>): string {
    if ev == [] then "" else Blocks(ev[..|ev| - 1]) + Block(ev[|ev| - 1])
  }

  /** `context_str` for a search result. */
  function GroundingContext(ev: seq<Evidence>): string {
    if ev == [] then NoEvidenceNotice else Blocks(ev)
  }

  /** The f-string prompt of `verify`. */
  function Prompt(query: string, context: string): string {
    PromptHead + query + PromptMiddle + context + PromptTail
  }

  /** `context_str` as `verify` accumulates it. */
  method BuildContext(evidence: seq<Evidence>) returns (context: string)
    ensures context == GroundingContext(evidence)
  {
    context := "";
    if evidence == [] {
      context := NoEvidenceNotice;
    } else {
      var i := 0;
      while i < |evidence|
        invariant 0 <= i <= |evidence|
        invariant context == Blocks(evidence[..i])
      {
        assert evidence[..i + 1][..i] == evidence[..i];
        context := context + Block(evidence[i]);
        i := i + 1;
      }
      assert evidence[..i] == evidence;
    }
  }

  /** `verify` up to the model call: search, then the context, then the
      prompt; an IndexError of the search propagates. */
  method VerifyPrompt(r: Retriever, query: string, vectorHits: seq<int>,
                      bm25: (seq<seq<string>>, seq<string>) -> seq<real>, order: seq<int>)
    returns (prompt: Result<string, Exception>)
    requires Valid(r)
    requires |vectorHits| == TopK && FaissRow(vectorHits)
    requires |order| == |r.documents|
    requires IsDescendingArgsort(order, bm25(r.corpusTokens, Tokenize(query)))
    ensures InRange(order[..Min(TopK, |order|)], |r.documents|)
    ensures var res := SearchSpec(r.documents, vectorHits, order[..Min(TopK, |order|)]);
            prompt == if res.Err? then Err(res.error) else Ok(Prompt(query, GroundingContext(res.value)))
  {
    var evidence := Search(r, query, vectorHits, bm25, order);
    if evidence.Err? {
      return Err(evidence.error);
    }
    var context := BuildContext(evidence.value);
    prompt := Ok(Prompt(query, context));
  }

  // ---------------------------------------------------------------------------
  // Properties
  // ---------------------------------------------------------------------------

  /** The blocks of a concatenation are the concatenated blocks. */
  lemma {:induction false} BlocksAppend(a: seq<Evidence>, b: seq<Evidence>)
    ensures Blocks(a + b) == Blocks(a) + Blocks(b)
    decreases |b|
  {
    if b == [] {
      assert a + b == a;
    } else {
      var init := b[..|b| - 1];
      var x := b[|b| - 1];
      assert (a + b)[..|a + b| - 1] == a + init;
      assert (a + b)[|a + b| - 1] == x;
      BlocksAppend(a, init);
      AppendAssoc(Blocks(a), Blocks(init), Block(x));
    }
  }

  /** Entry `i` appears as its own block, right after the blocks of the
      entries before it and before the blocks of the entries after it. */
  lemma BlockPosition(ev: seq<Evidence>, i: nat)
    requires i < |ev|
    ensures Blocks(ev) == Blocks(ev[..i]) + Block(ev[i]) + Blocks(ev[i + 1..])
  {
    var front := ev[..i + 1];
    assert ev == front + ev[i + 1..];
    assert front[..|front| - 1] == ev[..i] && front[|front| - 1] == ev[i];
    assert Blocks(front) == Blocks(ev[..i]) + Block(ev[i]);
    BlocksAppend(front, ev[i + 1..]);
  }

  /** Every block opens with its "--- Evidence [" header. */
  lemma BlockStart(e: Evidence)
    ensures |Block(e)| > 0 && Block(e)[0] == '-'
  {
  }

  /** The context is the notice exactly when there is no evidence: a
      non-empty context opens with a block header, which the notice does not. */
  lemma ContextNotice(ev: seq<Evidence>)
    ensures GroundingContext(ev) == NoEvidenceNotice <==> ev == []
  {
    if ev != [] {
      BlockPosition(ev, 0);
      BlockStart(ev[0]);
      assert ev[..0] == [];
      assert Blocks(ev)[0] == '-';
      assert NoEvidenceNotice[0] == '【';
    }
  }

  lemma ContainsSelf(s: string)
    ensures Contains(s, s)
  {
    assert s[0..|s|] == s;
    ContainsAt(s, s, 0);
  }

  /** A text assembled as `h + q + m + c + t` contains `q` and everything `c` contains. */
  lemma Sandwich(h: string, q: string, m: string, c: string, t: string)
    ensures Contains(h + q + m + c + t, q)
    ensures forall u :: Contains(c, u) ==> Contains(h + q + m + c + t, u)
  {
    assert h + q + m + c + t == (h + q) + (m + (c + t));
    ContainsSelf(q);
    ContainsAppend(h, q, q);
    ContainsAppend(h + q, m + (c + t), q);
    forall u | Contains(c, u) ensures Contains(h + q + m + c + t, u) {
      ContainsAppend(c, t, u);
      ContainsAppend(m, c + t, u);
      ContainsAppend(h + q, m + (c + t), u);
    }
  }

  /** Each block of the evidence list is a piece of the context. */
  lemma ContextBlocks(ev: seq<Evidence>)
    ensures forall i :: 0 <= i < |ev| ==> Contains(GroundingContext(ev), Block(ev[i]))
  {
    forall i | 0 <= i < |ev| ensures Contains(Blocks(ev), Block(ev[i])) {
      BlockPosition(ev, i);
      var b := Block(ev[i]);
      ContainsSelf(b);
      ContainsAppend(Blocks(ev[..i]), b, b);
      ContainsAppend(Blocks(ev[..i]) + b, Blocks(ev[i + 1..]), b);
    }
  }

  /** The prompt carries the claim and every retrieved block; with no
      evidence it carries the notice instead. */
  lemma PromptGrounded(query: string, ev: seq<Evidence>)
    ensures Contains(Prompt(query, GroundingContext(ev)), query)
    ensures forall i :: 0 <= i < |ev| ==> Contains(Prompt(query, GroundingContext(ev)), Block(ev[i]))
    ensures ev == [] ==> Contains(Prompt(query, GroundingContext(ev)), NoEvidenceNotice)
  {
    var ctx := GroundingContext(ev);
    Sandwich(PromptHead, query, PromptMiddle, ctx, PromptTail);
    ContextBlocks(ev);
    ContainsSelf(ctx);
  }
}

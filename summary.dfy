/**
 * `generate_summary`: the summary of a transcript, either in one LLM call
 * (the direct strategy) or block by block followed by a synthesis call (the
 * chunked strategy).
 *
 * The LLM is a parameter, `llm(prompt)`, standing for `chat_or_complete` with
 * the server, model, system prompt, temperature, token budget and API mode of
 * the call fixed: it gives a text or the error that call raises. `prompts`
 * lists the prompts sent, in order, so that the number, the order and the
 * contents of the calls can be stated. A raised error ends the summary at
 * once, as the exception does in the source.
 */
module Summary {
  import opened Text
  import opened Chunker
  import opened Routing

  /** The two values `generate_summary` returns, or the error it raises. */
  datatype SummaryResult = Done(summary: string, partials: seq<string>) | Failed(err: CallError)

  /** The summary mode whose label selects the direct strategy. */
  const DirectModeLabel := "R\U{00E9}sum\U{00E9} direct"

  /** The direct strategy is taken when the mode asks for it or when the
      whole text fits in one block. */
  predicate UsesDirect<T>(tok: Tokenizer<T>, text: string, chunkSize: nat, modeResume: string)
  {
    DirectModeLabel <= modeResume || CountTokens(tok, text) <= chunkSize
  }

  // ---------------------------------------------------------------------------
  // Prompts
  // ---------------------------------------------------------------------------

  const DirectHeader := "\n\nTexte \U{00E0} r\U{00E9}sumer:\n```text\n"

  function DirectPrompt(userPrompt: string, text: string): string
  {
    userPrompt + DirectHeader + text + "\n```"
  }

  const BlockIntro := "\n\nTu r\U{00E9}sumes le **"

  /** The "bloc i/N" label of a block prompt. */
  function BlockLabel(i: nat, n: nat): string
  {
    "bloc " + NatToString(i) + "/" + NatToString(n)
  }

  const BlockOutro := "** ci-dessous.\n```text\n"

  /** The prompt for block `i` of `n` (numbered from 1). */
  function BlockPrompt(userPrompt: string, i: nat, n: nat, chunk: string): string
  {
    userPrompt + BlockIntro + BlockLabel(i, n) + BlockOutro + chunk + "\n```"
  }

  /** The partial summary recorded for block `i`. */
  function PartialSummary(i: nat, output: string): string
  {
    "### Bloc " + NatToString(i) + "\n" + output
  }

  const SynthesisHeader := "\n\nVoici les r\U{00E9}sum\U{00E9}s des blocs :\n"

  const SynthesisTrailer :=
    "\n\nProduis **un seul r\U{00E9}sum\U{00E9} final** structur\U{00E9}. Ne r\U{00E9}p\U{00E8}te pas bloc par bloc."

  /** The final prompt: every partial summary, separated by a blank line. */
  function SynthesisPrompt(userPrompt: string, partials: seq<string>): string
  {
    userPrompt + SynthesisHeader + Join("\n\n", partials) + SynthesisTrailer
  }

  // ---------------------------------------------------------------------------
  // generate_summary
  // ---------------------------------------------------------------------------

  /** `generate_summary`. */
  method GenerateSummary<T>(tok: Tokenizer<T>, text: string, userPrompt: string, chunkSize: nat,
                            overlap: nat, modeResume: string, llm: string -> Reply)
    returns (result: SummaryResult, prompts: seq<string>)
    requires chunkSize > 0
    // Direct strategy: one call, whose prompt holds the whole text, and no
    // partial summaries.
    ensures UsesDirect(tok, text, chunkSize, modeResume) ==>
      && prompts == [DirectPrompt(userPrompt, text)]
      && (llm(prompts[0]).Answer? ==> result == Done(llm(prompts[0]).text, []))
      && (llm(prompts[0]).Error? ==> result == Failed(llm(prompts[0]).err))
    // Chunked strategy: the blocks of the token windows, summarised in order.
    ensures !UsesDirect(tok, text, chunkSize, modeResume) ==>
      BlockByBlock(userPrompt, ChunkText(tok, text, chunkSize, overlap), llm, result, prompts)
  {
    var total := CountTokens(tok, text);
    if DirectModeLabel <= modeResume || total <= chunkSize {
      var prompt := DirectPrompt(userPrompt, text);
      prompts := [prompt];
      var r := llm(prompt);
      if r.Error? {
        return Failed(r.err), prompts;
      }
      return Done(r.text, []), prompts;
    }
    var chunks := ChunkTextByTokens(tok, text, chunkSize, overlap);
    result, prompts := SummariseBlocks(userPrompt, chunks, llm);
  }

  /** `prompts` are the prompts of the first `|prompts|` blocks, in block
      order. */
  ghost predicate BlockPromptsInOrder(userPrompt: string, chunks: seq<string>, prompts: seq<string>)
  {
    && |prompts| <= |chunks|
    && forall j :: 0 <= j < |prompts| ==> prompts[j] == BlockPrompt(userPrompt, j + 1, |chunks|, chunks[j])
  }

  /** Every one of `prompts` was answered. */
  ghost predicate AllAnswered(llm: string -> Reply, prompts: seq<string>)
  {
    forall j :: 0 <= j < |prompts| ==> llm(prompts[j]).Answer?
  }

  /** The partial summaries recorded for answered block prompts: answer `j`
      under block number `j + 1`. */
  function PartialsOf(llm: string -> Reply, prompts: seq<string>): (partials: seq<string>)
    requires AllAnswered(llm, prompts)
    ensures |partials| == |prompts|
    ensures forall j :: 0 <= j < |prompts| ==> partials[j] == PartialSummary(j + 1, llm(prompts[j]).text)
  {
    if prompts == [] then []
    else
      PartialsOf(llm, prompts[..|prompts| - 1])
        + [PartialSummary(|prompts|, llm(prompts[|prompts| - 1]).text)]
  }

  /** What the chunked strategy does with blocks `chunks`: one call per
      block, in block order, then the synthesis of the partial summaries; the
      first error stops it, and nothing is called after it. */
  ghost predicate BlockByBlock(userPrompt: string, chunks: seq<string>, llm: string -> Reply,
                               result: SummaryResult, prompts: seq<string>)
  {
    var n := |chunks|;
    match result
    case Failed(err) =>
      && 1 <= |prompts| <= n + 1
      && llm(prompts[|prompts| - 1]) == Error(err)
      && AllAnswered(llm, prompts[..|prompts| - 1])
      && BlockPromptsInOrder(userPrompt, chunks, prompts[..Min(|prompts|, n)])
      && (|prompts| == n + 1 ==> prompts[n] == SynthesisPrompt(userPrompt, PartialsOf(llm, prompts[..n])))
    case Done(summary, partials) =>
      && |prompts| == n + 1
      && BlockPromptsInOrder(userPrompt, chunks, prompts[..n])
      && AllAnswered(llm, prompts[..n])
      && partials == PartialsOf(llm, prompts[..n])
      && prompts[n] == SynthesisPrompt(userPrompt, partials)
      && llm(prompts[n]) == Answer(summary)
  }

  /** The chunked branch of `generate_summary`: the block loop, then the
      synthesis call over the partial summaries. */
  method SummariseBlocks(userPrompt: string, chunks: seq<string>, llm: string -> Reply)
    returns (result: SummaryResult, prompts: seq<string>)
    ensures BlockByBlock(userPrompt, chunks, llm, result, prompts)
  {
    var partials, failure;
    partials, prompts, failure := SummariseEachBlock(userPrompt, chunks, llm);
    if failure.Some? {
      return Failed(failure.value), prompts;
    }
    var sent := prompts;
    var synth := SynthesisPrompt(userPrompt, partials);
    prompts := prompts + [synth];
    assert prompts[..|chunks|] == sent;
    var r := llm(synth);
    if r.Error? {
      return Failed(r.err), prompts;
    }
    return Done(r.text, partials), prompts;
  }

  /** The `for i, ch in enumerate(chunks, 1)` loop: block `i`'s prompt is sent,
      and its answer recorded as partial summary `i`, until a call fails. */
  method SummariseEachBlock(userPrompt: string, chunks: seq<string>, llm: string -> Reply)
    returns (partials: seq<string>, prompts: seq<string>, failure: Option<CallError>)
    ensures BlockPromptsInOrder(userPrompt, chunks, prompts)
    ensures failure.None? ==>
      |prompts| == |chunks| && AllAnswered(llm, prompts) && partials == PartialsOf(llm, prompts)
    ensures failure.Some? ==>
      && 1 <= |prompts|
      && llm(prompts[|prompts| - 1]) == Error(failure.value)
      && AllAnswered(llm, prompts[..|prompts| - 1])
  {
    var n := |chunks|;
    partials := [];
    prompts := [];
    for i := 0 to n
      invariant |prompts| == i
      invariant BlockPromptsInOrder(userPrompt, chunks, prompts)
      invariant AllAnswered(llm, prompts) && partials == PartialsOf(llm, prompts)
    {
      var p := BlockPrompt(userPrompt, i + 1, n, chunks[i]);
      PromptsInOrderAppend(userPrompt, chunks, prompts);
      var r := llm(p);
      if r.Error? {
        assert (prompts + [p])[..i] == prompts;
        return partials, prompts + [p], Some(r.err);
      }
      AnsweredAppend(llm, prompts, p);
      partials := partials + [PartialSummary(i + 1, r.text)];
      prompts := prompts + [p];
    }
    failure := None;
  }

  /** Sending the next block's prompt keeps the prompts in block order. */
  lemma PromptsInOrderAppend(userPrompt: string, chunks: seq<string>, prompts: seq<string>)
    requires BlockPromptsInOrder(userPrompt, chunks, prompts) && |prompts| < |chunks|
    ensures var i := |prompts|;
      BlockPromptsInOrder(userPrompt, chunks, prompts + [BlockPrompt(userPrompt, i + 1, |chunks|, chunks[i])])
  {
  }

  /** Recording one more answer extends the partial summaries by one. */
  lemma AnsweredAppend(llm: string -> Reply, prompts: seq<string>, p: string)
    requires AllAnswered(llm, prompts) && llm(p).Answer?
    ensures AllAnswered(llm, prompts + [p])
    ensures PartialsOf(llm, prompts + [p]) == PartialsOf(llm, prompts) + [PartialSummary(|prompts| + 1, llm(p).text)]
  {
    var ps := prompts + [p];
    assert AllAnswered(llm, ps) by {
      forall j | 0 <= j < |ps|
        ensures llm(ps[j]).Answer?
      {
        if j < |prompts| {
          assert ps[j] == prompts[j];
        }
      }
    }
    assert ps[..|ps| - 1] == prompts && ps[|ps| - 1] == p;
  }

  // ---------------------------------------------------------------------------
  // Properties of the strategies and the prompts
  // ---------------------------------------------------------------------------

  /** The chunked strategy is only taken for a text longer than one block,
      so it cuts at least two blocks and makes at least three calls when
      nothing fails. */
  lemma ChunkedHasSeveralBlocks<T>(tok: Tokenizer<T>, text: string, chunkSize: nat, overlap: nat, modeResume: string)
    requires chunkSize > 0 && !UsesDirect(tok, text, chunkSize, modeResume)
    ensures |ChunkText(tok, text, chunkSize, overlap)| >= 2
  {
    var n := CountTokens(tok, text);
    ChunkTextCount(tok, text, chunkSize, overlap);
    ChunkWindowsTiling(n, chunkSize, overlap);
    var ws := ChunkWindows(n, chunkSize, overlap);
    assert ws[0].end == chunkSize < n;
    assert ws[|ws| - 1].end == n;
  }

  /** The direct prompt holds the whole text, after the user's prompt and the
      header. */
  lemma DirectPromptHoldsText(userPrompt: string, text: string)
    ensures OccursAt(DirectPrompt(userPrompt, text), text, |userPrompt| + |DirectHeader|)
  {
    var p := DirectPrompt(userPrompt, text);
    var k := |userPrompt| + |DirectHeader|;
    assert p == (userPrompt + DirectHeader) + text + "\n```";
    assert p[k..k + |text|] == text;
  }

  /** Block prompt `i` names "bloc i/N" and holds the block's text. */
  lemma BlockPromptNamesBlock(userPrompt: string, i: nat, n: nat, chunk: string)
    ensures var k := |userPrompt| + |BlockIntro|;
      OccursAt(BlockPrompt(userPrompt, i, n, chunk), BlockLabel(i, n), k)
      && OccursAt(BlockPrompt(userPrompt, i, n, chunk), chunk, k + |BlockLabel(i, n)| + |BlockOutro|)
  {
    var p := BlockPrompt(userPrompt, i, n, chunk);
    var tag := BlockLabel(i, n);
    var k := |userPrompt| + |BlockIntro|;
    var m := k + |tag| + |BlockOutro|;
    assert p == (userPrompt + BlockIntro) + tag + (BlockOutro + chunk + "\n```");
    assert p[k..k + |tag|] == tag;
    assert p == (userPrompt + BlockIntro + tag + BlockOutro) + chunk + "\n```";
    assert p[m..m + |chunk|] == chunk;
  }

  /** The synthesis prompt holds every partial summary, each at the offset
      it has in the blank-line-separated list, so in block order. */
  lemma {:induction false} SynthesisPromptHoldsPartials(userPrompt: string, partials: seq<string>, j: nat)
    requires j < |partials|
    ensures OccursAt(SynthesisPrompt(userPrompt, partials), partials[j],
                     |userPrompt| + |SynthesisHeader| + JoinOffset("\n\n", partials, j))
  {
    var joined := Join("\n\n", partials);
    var pre := userPrompt + SynthesisHeader;
    var p := SynthesisPrompt(userPrompt, partials);
    assert p == pre + joined + SynthesisTrailer;
    JoinHoldsParts("\n\n", partials, j);
    var k := JoinOffset("\n\n", partials, j);
    assert p[|pre| + k..|pre| + k + |partials[j]|] == joined[k..k + |partials[j]|];
  }

  /** A partial summary starts with its block number, which can be read back. */
  lemma PartialSummaryNamesBlock(i: nat, output: string)
    ensures var s := PartialSummary(i, output);
      var digits := s[|"### Bloc "|..|"### Bloc "| + |NatToString(i)|];
      ParseNat(digits) == Some(i)
  {
    var s := PartialSummary(i, output);
    var d := NatToString(i);
    assert s == "### Bloc " + d + ("\n" + output);
    assert s[|"### Bloc "|..|"### Bloc "| + |d|] == d;
    NatToStringRoundTrip(i);
  }
}

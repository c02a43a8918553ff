/**
 * The two pipelines, `_summarize_text` and `_answer_question`: chunk the
 * document, summarise every chunk when there is more than one, and make the
 * final call over the single chunk or over the joined partial summaries.
 *
 * Each pipeline is given twice: as a function of the model, returning the
 * result and every call in order, and as a method on the engine whose result
 * and log are proved to be that run.
 */
module Pipeline {
  import opened Strings
  import opened Splitter
  import opened Sanitizer
  import opened Segmenter
  import opened Prompts
  import opened Gateway
  import opened QualityGate

  /** `max_tokens` of the summary call over one chunk or the joined partials. */
  const SummaryTokens: int := 400

  /** `max_tokens` of each partial summary in `_summarize_text`. */
  const PartialSummaryTokens: int := 250

  /** `max_tokens` of each partial summary in `_answer_question`. */
  const PartialContextTokens: int := 200

  /** `max_tokens` of the answer. */
  const AnswerTokens: int := 300

  /** The calls of a partial-summary loop: one summary call per chunk, in
      order. */
  function PartialCalls(model: (string, Params) -> string, chunks: seq<string>, maxTokens: int): seq<Call> {
    seq(|chunks|, k requires 0 <= k < |chunks| => Respond(model, SummaryPrompt(chunks[k]), WithTokens(maxTokens)))
  }

  /** The partial summaries a loop keeps: the non-empty replies, in order. */
  function Kept(calls: seq<Call>): seq<string> {
    if calls == [] then []
    else
      var p := Reply(calls[|calls| - 1]);
      Kept(calls[..|calls| - 1]) + (if p == [] then [] else [p])
  }

  /** Every reply of a run, in order. */
  function Replies(calls: seq<Call>): seq<string> {
    if calls == [] then []
    else Replies(calls[..|calls| - 1]) + [Reply(calls[|calls| - 1])]
  }

  /** `"\n".join(partial_summaries)`. */
  function Combined(calls: seq<Call>): string {
    JoinWith("\n", Kept(calls))
  }

  /** `_summarize_text(llm, text)`: its result and every call it makes. */
  function Summarize(model: (string, Params) -> string, text: string): Outcome {
    var chunks := Chunks(text, DefaultMaxChars);
    if |chunks| == 1 then
      var c := Respond(model, SummaryPrompt(chunks[0]), WithTokens(SummaryTokens));
      var g := Gate(model, chunks[0], Reply(c));
      Outcome(g.result, [c] + g.calls)
    else
      var ps := PartialCalls(model, chunks, PartialSummaryTokens);
      var c := Respond(model, SummaryPrompt(Combined(ps)), WithTokens(SummaryTokens));
      var g := Gate(model, Combined(ps), Reply(c));
      Outcome(g.result, ps + [c] + g.calls)
  }

  /** `_answer_question(llm, text, question)`: its result and every call it
      makes. */
  function Answer(model: (string, Params) -> string, text: string, question: string): Outcome {
    var chunks := Chunks(text, DefaultMaxChars);
    if |chunks| > 1 then
      var ps := PartialCalls(model, chunks, PartialContextTokens);
      var c := Respond(model, QaPrompt(Combined(ps), question), WithTokens(AnswerTokens));
      Outcome(Reply(c), ps + [c])
    else
      var c := Respond(model, QaPrompt(chunks[0], question), WithTokens(AnswerTokens));
      Outcome(Reply(c), [c])
  }

  /** One more step of the loop appends one call. */
  lemma PartialCallsSnoc(model: (string, Params) -> string, chunks: seq<string>, maxTokens: int, i: nat)
    requires i < |chunks|
    ensures PartialCalls(model, chunks[..i + 1], maxTokens)
      == PartialCalls(model, chunks[..i], maxTokens) + [Respond(model, SummaryPrompt(chunks[i]), WithTokens(maxTokens))]
  {
    var a := PartialCalls(model, chunks[..i + 1], maxTokens);
    var b := PartialCalls(model, chunks[..i], maxTokens) + [Respond(model, SummaryPrompt(chunks[i]), WithTokens(maxTokens))];
    assert |a| == |b|;
    forall k | 0 <= k < |a| ensures a[k] == b[k] {
      if k < i {
        assert chunks[..i + 1][k] == chunks[..i][k];
      }
    }
  }

  /** One more call keeps its reply when it is not empty. */
  lemma KeptSnoc(calls: seq<Call>, c: Call)
    ensures Kept(calls + [c]) == Kept(calls) + (if Reply(c) == [] then [] else [Reply(c)])
  {
    assert (calls + [c])[..|calls|] == calls;
  }

  /** Each kept partial summary is a non-empty, stripped reply, and no more
      are kept than there were calls. */
  lemma {:induction false} KeptShape(calls: seq<Call>)
    ensures |Kept(calls)| <= |calls|
    ensures forall k :: 0 <= k < |Kept(calls)| ==> Kept(calls)[k] != [] && IsStripped(Kept(calls)[k])
  {
    if calls != [] {
      var init := calls[..|calls| - 1];
      KeptShape(init);
      KeptLast(calls);
      KeptGrows(Kept(init), Reply(calls[|calls| - 1]));
    }
  }

  /** Appending a stripped reply, when it is not empty, keeps every kept
      summary non-empty and stripped. */
  lemma KeptGrows(prev: seq<string>, p: string)
    requires forall k :: 0 <= k < |prev| ==> prev[k] != [] && IsStripped(prev[k])
    requires IsStripped(p)
    ensures var next := prev + (if p == [] then [] else [p]);
      && |next| <= |prev| + 1
      && forall k :: 0 <= k < |next| ==> next[k] != [] && IsStripped(next[k])
  {
  }

  /** The last call of a non-empty run, kept or dropped. */
  lemma KeptLast(calls: seq<Call>)
    requires calls != []
    ensures Kept(calls) == Kept(calls[..|calls| - 1])
      + (if Reply(calls[|calls| - 1]) == [] then [] else [Reply(calls[|calls| - 1])])
  {
  }

  /** When no reply is empty, every reply is kept, in order. */
  lemma {:induction false} KeptAll(calls: seq<Call>)
    requires forall k :: 0 <= k < |calls| ==> Reply(calls[k]) != []
    ensures Kept(calls) == Replies(calls)
  {
    if calls != [] {
      var init := calls[..|calls| - 1];
      assert forall k :: 0 <= k < |init| ==> init[k] == calls[k];
      KeptAll(init);
      KeptLast(calls);
    }
  }

  /** The kept partial summaries are exactly the non-empty replies, in
      order. */
  lemma {:induction false} KeptFilter(calls: seq<Call>)
    ensures Kept(calls) == NonEmpty(Replies(calls))
  {
    if calls != [] {
      var init := calls[..|calls| - 1];
      var p := Reply(calls[|calls| - 1]);
      KeptFilter(init);
      NonEmptyAppend(Replies(init), [p]);
      NonEmptyOne(p);
    }
  }

  /** When every reply is empty, nothing is kept and the joined text is
      empty. */
  lemma {:induction false} KeptNone(calls: seq<Call>)
    requires forall k :: 0 <= k < |calls| ==> Reply(calls[k]) == []
    ensures Kept(calls) == [] && Combined(calls) == []
  {
    if calls != [] {
      var init := calls[..|calls| - 1];
      assert forall k :: 0 <= k < |init| ==> init[k] == calls[k];
      KeptNone(init);
    }
  }

  /** When the partial summaries are single lines, the joined text splits
      back into them, line by line. */
  lemma CombinedLines(calls: seq<Call>)
    requires Kept(calls) != []
    requires forall k :: 0 <= k < |Kept(calls)| ==> NoLineBreak(Kept(calls)[k])
    ensures Lines(Combined(calls)) == Kept(calls)
  {
    LinesOfJoin(Kept(calls));
  }

  /** The partial-summary loop of either pipeline. */
  method SummarizeChunks(engine: Engine, chunks: seq<string>, maxTokens: int) returns (partials: seq<string>)
    modifies engine
    ensures engine.log == old(engine.log) + PartialCalls(engine.model, chunks, maxTokens)
    ensures partials == Kept(PartialCalls(engine.model, chunks, maxTokens))
  {
    ghost var log0 := engine.log;
    partials := [];
    for i := 0 to |chunks|
      invariant engine.log == log0 + PartialCalls(engine.model, chunks[..i], maxTokens)
      invariant partials == Kept(PartialCalls(engine.model, chunks[..i], maxTokens))
    {
      ghost var before := PartialCalls(engine.model, chunks[..i], maxTokens);
      ghost var c := Respond(engine.model, SummaryPrompt(chunks[i]), WithTokens(maxTokens));
      PartialCallsSnoc(engine.model, chunks, maxTokens, i);
      KeptSnoc(before, c);
      AppendAssoc(log0, before, [c]);
      var partial := engine.Generate(SummaryPrompt(chunks[i]), WithTokens(maxTokens));
      if partial != [] {
        partials := partials + [partial];
      }
    }
    assert chunks[..|chunks|] == chunks;
  }

  /** `_summarize_text(llm, text)`. */
  method SummarizeText(engine: Engine, text: string) returns (r: string)
    modifies engine
    ensures r == Summarize(engine.model, text).result
    ensures engine.log == old(engine.log) + Summarize(engine.model, text).calls
  {
    ghost var log0 := engine.log;
    ghost var o := Summarize(engine.model, text);
    var chunks := ChunkText(text, DefaultMaxChars);
    if |chunks| == 1 {
      var raw := engine.Generate(SummaryPrompt(chunks[0]), WithTokens(SummaryTokens));
      ghost var log1 := engine.log;
      r := EnsureSummaryQuality(engine, chunks[0], raw);
      AppendAssoc(log0, [Respond(engine.model, SummaryPrompt(chunks[0]), WithTokens(SummaryTokens))], Gate(engine.model, chunks[0], raw).calls);
      return;
    }
    var partials := SummarizeChunks(engine, chunks, PartialSummaryTokens);
    ghost var ps := PartialCalls(engine.model, chunks, PartialSummaryTokens);
    var combined := JoinWith("\n", partials);
    var raw := engine.Generate(SummaryPrompt(combined), WithTokens(SummaryTokens));
    r := EnsureSummaryQuality(engine, combined, raw);
    ghost var c := Respond(engine.model, SummaryPrompt(combined), WithTokens(SummaryTokens));
    ghost var g := Gate(engine.model, combined, raw);
    AppendAssoc(log0 + ps, [c], g.calls);
    AppendAssoc(log0, ps, [c]);
    AppendAssoc(log0, ps + [c], g.calls);
  }

  /** `_answer_question(llm, text, question)`. */
  method AnswerQuestion(engine: Engine, text: string, question: string) returns (r: string)
    modifies engine
    ensures r == Answer(engine.model, text, question).result
    ensures engine.log == old(engine.log) + Answer(engine.model, text, question).calls
  {
    ghost var log0 := engine.log;
    var chunks := ChunkText(text, DefaultMaxChars);
    var context;
    if |chunks| > 1 {
      var partials := SummarizeChunks(engine, chunks, PartialContextTokens);
      context := JoinWith("\n", partials);
      ghost var ps := PartialCalls(engine.model, chunks, PartialContextTokens);
      AppendAssoc(log0, ps, [Respond(engine.model, QaPrompt(context, question), WithTokens(AnswerTokens))]);
    } else {
      context := chunks[0];
    }
    r := engine.Generate(QaPrompt(context, question), WithTokens(AnswerTokens));
  }

  /** The three parts of a run: the partial calls, the main call, the rest. */
  lemma RunParts<T>(ps: seq<T>, c: T, rest: seq<T>)
    ensures |ps + [c] + rest| == |ps| + 1 + |rest|
    ensures (ps + [c] + rest)[..|ps|] == ps
    ensures (ps + [c] + rest)[|ps|] == c
    ensures (ps + [c] + rest)[|ps| + 1..] == rest
  {
  }

  /** The two parts of a run: the partial calls and the last call. */
  lemma LastPart<T>(ps: seq<T>, c: T)
    ensures |ps + [c]| == |ps| + 1
    ensures (ps + [c])[..|ps|] == ps
    ensures (ps + [c])[|ps|] == c
  {
  }

  /** The number of chunks of the default size. */
  lemma ChunkCount(text: string)
    ensures |text| <= DefaultMaxChars ==> Chunks(text, DefaultMaxChars) == [text]
    ensures |text| > DefaultMaxChars ==>
      |Chunks(text, DefaultMaxChars)| == (|text| + DefaultMaxChars - 1) / DefaultMaxChars >= 2
  {
    ChunksShape(text, DefaultMaxChars);
    ChunksCount(text, DefaultMaxChars);
  }

  /** A text within the bound is summarised by one call over the whole text
      with 400 tokens, followed by the gate over the same text. */
  lemma SummarizeSingle(model: (string, Params) -> string, text: string)
    requires |text| <= DefaultMaxChars
    ensures var o := Summarize(model, text);
      var first := Respond(model, SummaryPrompt(text), WithTokens(SummaryTokens));
      && o.calls == [first] + Gate(model, text, Reply(first)).calls
      && o.result == Gate(model, text, Reply(first)).result
      && 1 <= |o.calls| <= 2
  {
    ChunkCount(text);
    GateBound(model, text, Reply(Respond(model, SummaryPrompt(text), WithTokens(SummaryTokens))));
  }

  /** The calls of a longer summary, in their three parts. */
  lemma SummarizeMultiRun(model: (string, Params) -> string, text: string)
    requires |text| > DefaultMaxChars
    ensures var ps := PartialCalls(model, Chunks(text, DefaultMaxChars), PartialSummaryTokens);
      var c := Respond(model, SummaryPrompt(Combined(ps)), WithTokens(SummaryTokens));
      Summarize(model, text) == Outcome(Gate(model, Combined(ps), Reply(c)).result, ps + [c] + Gate(model, Combined(ps), Reply(c)).calls)
  {
    ChunkCount(text);
  }

  /** A longer text is summarised chunk by chunk with 250 tokens, then once
      more over the joined partial summaries with 400 tokens: one call per
      chunk, one more, and at most one retry. */
  lemma SummarizeMulti(model: (string, Params) -> string, text: string)
    requires |text| > DefaultMaxChars
    ensures var o := Summarize(model, text);
      var chunks := Chunks(text, DefaultMaxChars);
      var m := |chunks|;
      var ps := PartialCalls(model, chunks, PartialSummaryTokens);
      && m == (|text| + DefaultMaxChars - 1) / DefaultMaxChars
      && m + 1 <= |o.calls| <= m + 2
      && o.calls[..m] == ps
      && o.calls[m] == Respond(model, SummaryPrompt(Combined(ps)), WithTokens(SummaryTokens))
  {
    ChunkCount(text);
    SummarizeMultiRun(model, text);
    var chunks := Chunks(text, DefaultMaxChars);
    var ps := PartialCalls(model, chunks, PartialSummaryTokens);
    var c := Respond(model, SummaryPrompt(Combined(ps)), WithTokens(SummaryTokens));
    GateBound(model, Combined(ps), Reply(c));
    assert |ps| == |chunks|;
    RunParts(ps, c, Gate(model, Combined(ps), Reply(c)).calls);
  }

  /** The last step of a longer summary is the gate over the joined partial
      summaries, not over the text: its result is the summary, and it adds
      the retry call exactly when it rejects the combined summary. */
  lemma SummarizeMultiGate(model: (string, Params) -> string, text: string)
    requires |text| > DefaultMaxChars
    ensures var o := Summarize(model, text);
      var chunks := Chunks(text, DefaultMaxChars);
      var combined := Combined(PartialCalls(model, chunks, PartialSummaryTokens));
      var c := Respond(model, SummaryPrompt(combined), WithTokens(SummaryTokens));
      && o.result == Gate(model, combined, Reply(c)).result
      && |o.calls| == |chunks| + 1 + |Gate(model, combined, Reply(c)).calls|
      && (|o.calls| == |chunks| + 2 <==> !Accepts(Sanitized(Reply(c))))
  {
    ChunkCount(text);
    SummarizeMultiRun(model, text);
    var chunks := Chunks(text, DefaultMaxChars);
    var ps := PartialCalls(model, chunks, PartialSummaryTokens);
    var c := Respond(model, SummaryPrompt(Combined(ps)), WithTokens(SummaryTokens));
    assert |ps| == |chunks|;
    GateCount(model, Combined(ps), Reply(c));
  }

  /** Whatever the text and the model, the summary has at most ten sentences
      and no surrounding whitespace. */
  lemma SummarizeBound(model: (string, Params) -> string, text: string)
    ensures |Sentences(Summarize(model, text).result)| <= MaxSentences
    ensures IsStripped(Summarize(model, text).result)
  {
    var chunks := Chunks(text, DefaultMaxChars);
    if |chunks| == 1 {
      GateBound(model, chunks[0], Reply(Respond(model, SummaryPrompt(chunks[0]), WithTokens(SummaryTokens))));
    } else {
      var ps := PartialCalls(model, chunks, PartialSummaryTokens);
      GateBound(model, Combined(ps), Reply(Respond(model, SummaryPrompt(Combined(ps)), WithTokens(SummaryTokens))));
    }
  }

  /** A text of 16001 to 24000 characters is cut into three chunks, so the
      summary takes four calls, or five with the retry. */
  lemma SummarizeThreeChunks(model: (string, Params) -> string, text: string)
    requires 2 * DefaultMaxChars < |text| <= 3 * DefaultMaxChars
    ensures |Chunks(text, DefaultMaxChars)| == 3
    ensures 4 <= |Summarize(model, text).calls| <= 5
  {
    SummarizeMulti(model, text);
    var m := (|text| + DefaultMaxChars - 1) / DefaultMaxChars;
    DivUnique(|text| + DefaultMaxChars - 1, DefaultMaxChars, 3, |text| + DefaultMaxChars - 1 - 3 * DefaultMaxChars);
  }

  /** A question about a text within the bound takes exactly one call: the
      question prompt over the whole text, with 300 tokens. */
  lemma AnswerSingle(model: (string, Params) -> string, text: string, question: string)
    requires |text| <= DefaultMaxChars
    ensures Answer(model, text, question).calls == [Respond(model, QaPrompt(text, question), WithTokens(AnswerTokens))]
  {
    ChunkCount(text);
  }

  /** The calls of a question about a longer text, in their two parts. */
  lemma AnswerMultiRun(model: (string, Params) -> string, text: string, question: string)
    requires |text| > DefaultMaxChars
    ensures var ps := PartialCalls(model, Chunks(text, DefaultMaxChars), PartialContextTokens);
      Answer(model, text, question).calls == ps + [Respond(model, QaPrompt(Combined(ps), question), WithTokens(AnswerTokens))]
  {
    ChunkCount(text);
  }

  /** A question about a longer text takes one call per chunk with 200
      tokens, then one question call over the joined partial summaries with
      300 tokens. */
  lemma AnswerMulti(model: (string, Params) -> string, text: string, question: string)
    requires |text| > DefaultMaxChars
    ensures var o := Answer(model, text, question);
      var chunks := Chunks(text, DefaultMaxChars);
      var m := |chunks|;
      && m == (|text| + DefaultMaxChars - 1) / DefaultMaxChars
      && |o.calls| == m + 1
      && o.calls[..m] == PartialCalls(model, chunks, PartialContextTokens)
      && o.calls[m] == Respond(model, QaPrompt(Combined(PartialCalls(model, chunks, PartialContextTokens)), question), WithTokens(AnswerTokens))
  {
    ChunkCount(text);
    AnswerMultiRun(model, text, question);
    var chunks := Chunks(text, DefaultMaxChars);
    var ps := PartialCalls(model, chunks, PartialContextTokens);
    var c := Respond(model, QaPrompt(Combined(ps), question), WithTokens(AnswerTokens));
    assert |ps| == |chunks|;
    LastPart(ps, c);
  }

  /** The answer is the reply to the last call, unchecked: no gate follows
      the question. */
  lemma AnswerIsLastReply(model: (string, Params) -> string, text: string, question: string)
    ensures var o := Answer(model, text, question);
      && |o.calls| >= 1
      && o.calls[|o.calls| - 1].params == WithTokens(AnswerTokens)
      && o.result == Reply(o.calls[|o.calls| - 1])
      && IsStripped(o.result)
  {
    ChunksCount(text, DefaultMaxChars);
  }
}

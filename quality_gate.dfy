/**
 * The quality gate `_ensure_summary_quality`: accept a sanitized summary of
 * five to ten sentences that is not repetitive; otherwise ask the model once
 * more with a stricter prompt built from the source text, and cut that
 * answer down to ten sentences.
 */
module QualityGate {
  import opened Strings
  import opened Splitter
  import opened Sanitizer
  import opened Repetition
  import opened Prompts
  import opened Gateway

  const MinSentences: int := 5
  const MaxSentences: int := 10

  /** The parameters of the retry: 420 tokens, penalties 1.35 and 0.2. */
  function RetryParams(): Params {
    Params(420, 135, 20)
  }

  /** The result of a step and the calls it made, in order. */
  datatype Outcome = Outcome(result: string, calls: seq<Call>)

  /** The acceptance test on a sanitized summary. */
  predicate Accepts(cleaned: string) {
    MinSentences <= |Sentences(cleaned)| <= MaxSentences && !Repetitive(cleaned, DefaultThreshold)
  }

  /** What the retry path returns for the retry's reply: the sanitized reply,
      or its first ten sentences joined with spaces when it has more. */
  function Resolve(retry: string): string {
    var cleaned := Sanitized(retry);
    var ss := Sentences(cleaned);
    if |ss| > MaxSentences then Strip(JoinWith(" ", ss[..MaxSentences]))
    else cleaned
  }

  /** The whole gate: its result and the calls it makes. */
  function Gate(model: (string, Params) -> string, text: string, summary: string): Outcome {
    var cleaned := Sanitized(summary);
    if Accepts(cleaned) then Outcome(cleaned, [])
    else
      var c := Respond(model, RetryPrompt(text), RetryParams());
      Outcome(Resolve(Reply(c)), [c])
  }

  /** The acceptance path: the sanitized summary comes back as it is and the
      model is not called. */
  lemma GateAccepts(model: (string, Params) -> string, text: string, summary: string)
    requires Accepts(Sanitized(summary))
    ensures Gate(model, text, summary).result == Sanitized(summary)
    ensures Gate(model, text, summary).calls == []
  {
  }

  /** The retry path: exactly one call, with the retry prompt over the source
      text and the retry parameters; the result is resolved from its reply. */
  lemma GateRetries(model: (string, Params) -> string, text: string, summary: string)
    requires !Accepts(Sanitized(summary))
    ensures var o := Gate(model, text, summary);
      && |o.calls| == 1
      && o.calls[0].prompt == RetryPrompt(text)
      && o.calls[0].params == RetryParams()
      && o.calls[0].output == model(RetryPrompt(text), RetryParams())
      && o.result == Resolve(Reply(o.calls[0]))
  {
  }

  /** A rejected summary plays no further part: any two rejected summaries
      lead to a retry with the same prompt and parameters, and so, the model
      being a function, to the same calls and the same result. */
  lemma GateForgetsRejected(model: (string, Params) -> string, text: string, s1: string, s2: string)
    requires !Accepts(Sanitized(s1)) && !Accepts(Sanitized(s2))
    ensures |Gate(model, text, s1).calls| == 1 && |Gate(model, text, s2).calls| == 1
    ensures Gate(model, text, s1).calls[0].prompt == Gate(model, text, s2).calls[0].prompt
    ensures Gate(model, text, s1).calls[0].params == Gate(model, text, s2).calls[0].params
    ensures Gate(model, text, s1) == Gate(model, text, s2)
  {
  }

  /** The parts of a split that has more than ten parts: the first ten are
      whole sentences. */
  lemma FirstTenAreSentences(cleaned: string)
    requires |Sentences(cleaned)| > MaxSentences
    ensures forall k :: 0 <= k < MaxSentences ==> IsSentence(Sentences(cleaned)[..MaxSentences][k])
  {
    SentencesShape(cleaned);
    var ss := Sentences(cleaned);
    forall k | 0 <= k < MaxSentences
      ensures IsSentence(ss[..MaxSentences][k])
    {
      assert ss[..MaxSentences][k] == ss[k];
      assert k < |ss| - 1;
    }
  }

  /** The two ways the retry path resolves its reply. */
  lemma ResolveCases(retry: string)
    ensures |Sentences(Sanitized(retry))| > MaxSentences ==>
      Resolve(retry) == Strip(JoinWith(" ", Sentences(Sanitized(retry))[..MaxSentences]))
    ensures |Sentences(Sanitized(retry))| <= MaxSentences ==> Resolve(retry) == Sanitized(retry)
  {
  }

  lemma SentencesStripped(first: seq<string>)
    requires forall k :: 0 <= k < |first| ==> IsSentence(first[k])
    ensures forall k :: 0 <= k < |first| ==> first[k] != [] && IsStripped(first[k])
  {
    forall k | 0 <= k < |first| ensures first[k] != [] && IsStripped(first[k]) {}
  }

  lemma StripJoined(first: seq<string>)
    requires forall k :: 0 <= k < |first| ==> IsSentence(first[k])
    ensures Strip(JoinWith(" ", first)) == JoinWith(" ", first)
  {
    SentencesStripped(first);
    JoinStripped(first);
    StripOfStripped(JoinWith(" ", first));
  }

  lemma SplitJoined(first: seq<string>)
    requires forall k :: 0 <= k < |first| ==> IsSentence(first[k])
    ensures Sentences(JoinWith(" ", first)) == first
  {
    SentencesOfJoin(first);
  }

  /** Whole sentences joined with spaces split back into themselves. */
  lemma JoinedSentences(first: seq<string>)
    requires forall k :: 0 <= k < |first| ==> IsSentence(first[k])
    ensures Sentences(Strip(JoinWith(" ", first))) == first
  {
    StripJoined(first);
    SplitJoined(first);
  }

  /** The first ten parts of a longer split, joined with spaces, split back
      into themselves. */
  lemma TruncateSplit(c: string)
    requires |Sentences(c)| > MaxSentences
    ensures Sentences(Strip(JoinWith(" ", Sentences(c)[..MaxSentences]))) == Sentences(c)[..MaxSentences]
  {
    FirstTenAreSentences(c);
    JoinedSentences(Sentences(c)[..MaxSentences]);
  }

  /** Truncation keeps exactly the first ten sentences: the joined text splits
      back into them. */
  lemma ResolveTruncates(retry: string)
    requires |Sentences(Sanitized(retry))| > MaxSentences
    ensures Sentences(Resolve(retry)) == Sentences(Sanitized(retry))[..MaxSentences]
    ensures |Sentences(Resolve(retry))| == MaxSentences
  {
    ResolveCases(retry);
    TruncateSplit(Sanitized(retry));
  }

  /** The retry path never yields more than ten sentences, and otherwise
      returns the sanitized reply unchanged. */
  lemma ResolveBound(retry: string)
    ensures |Sentences(Resolve(retry))| <= MaxSentences
    ensures |Sentences(Sanitized(retry))| <= MaxSentences ==> Resolve(retry) == Sanitized(retry)
  {
    ResolveCases(retry);
    if |Sentences(Sanitized(retry))| > MaxSentences {
      ResolveTruncates(retry);
    }
  }

  /** On both paths the gate's result has at most ten sentences, and no
      surrounding whitespace. */
  lemma GateBound(model: (string, Params) -> string, text: string, summary: string)
    ensures |Sentences(Gate(model, text, summary).result)| <= MaxSentences
    ensures IsStripped(Gate(model, text, summary).result)
    ensures |Gate(model, text, summary).calls| <= 1
  {
    SanitizedShape(summary);
    if !Accepts(Sanitized(summary)) {
      var c := Respond(model, RetryPrompt(text), RetryParams());
      ResolveBound(Reply(c));
      SanitizedShape(Reply(c));
    }
  }

  /** The gate calls the model once when it rejects the summary, and not at
      all when it accepts it. */
  lemma GateCount(model: (string, Params) -> string, text: string, summary: string)
    ensures |Gate(model, text, summary).calls| == 1 <==> !Accepts(Sanitized(summary))
    ensures |Gate(model, text, summary).calls| == 0 <==> Accepts(Sanitized(summary))
  {
  }

  /** `_ensure_summary_quality(llm, text, summary)`. */
  method EnsureSummaryQuality(engine: Engine, text: string, summary: string) returns (r: string)
    modifies engine
    ensures r == Gate(engine.model, text, summary).result
    ensures engine.log == old(engine.log) + Gate(engine.model, text, summary).calls
  {
    ghost var g := Gate(engine.model, text, summary);
    ghost var c := Respond(engine.model, RetryPrompt(text), RetryParams());
    var cleaned := Sanitize(summary);
    var sentences := SplitSentences(cleaned);
    var repetitive := IsRepetitive(cleaned, DefaultThreshold);
    if MinSentences <= |sentences| <= MaxSentences && !repetitive {
      assert Accepts(cleaned);
      assert g == Outcome(cleaned, []);
      return cleaned;
    }
    assert !Accepts(cleaned);
    assert g == Outcome(Resolve(Reply(c)), [c]);
    var retry := engine.Generate(RetryPrompt(text), RetryParams());
    assert retry == Reply(c);
    var cleanedRetry := Sanitize(retry);
    sentences := SplitSentences(cleanedRetry);
    ResolveCases(retry);
    if |sentences| > MaxSentences {
      return Strip(JoinWith(" ", sentences[..MaxSentences]));
    }
    if |sentences| < MinSentences {
      return cleanedRetry;
    }
    return cleanedRetry;
  }
}

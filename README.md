# Report summarizer core, in Dafny

The modelled program is a small web service. It takes a PDF report, extracts its text and
asks a local language model for a short summary of the report, or for an answer
to a question about it. This project models the text-processing and
model-calling core of `app/main.py`:

- **Segmenter** (`_chunk_text`): the text is cut into consecutive chunks of at
  most 8000 characters. A text that fits is one chunk.
- **Gateway** (`_generate`): one call of the language model, with a token limit
  and two penalties. It returns the completion stripped of surrounding
  whitespace. The loaded model is an `Engine` object, and every call it
  serves is appended to a ghost log.
- **Prompts** (`_build_summary_prompt`, `_build_qa_prompt`, and the retry
  prompt written inline in `_ensure_summary_quality`): fixed text framing the
  report and the question.
- **Splitter** (`_split_sentences`): the text is cut after every `.`, `!` or
  `?`. Each piece is stripped and the blank pieces are dropped.
- **Sanitizer** (`_sanitize_summary`): every line is left-stripped and loses
  a leading two-digit numbering such as `12.`. The non-empty lines are joined
  with spaces.
- **Repetition** (`_is_repetitive`): a text of at least 20 words is repetitive
  when some three-word window occurs `threshold` times (6 by default).
- **QualityGate** (`_ensure_summary_quality`):
  - A sanitized summary of 5 to 10 sentences that is not repetitive is
    accepted as it is.
  - Otherwise the model is asked once more with a stricter prompt over the
    gate's text. That text is the document for a single chunk, and the joined
    partial summaries for a longer document. That answer is cut to its first ten sentences when it has
    more than ten, and otherwise comes back sanitized, whatever its length.
- **Pipeline** (`_summarize_text`, `_answer_question`):
  - A short text gets one direct call.
  - A longer text is first summarised chunk by chunk. The non-empty partial
    summaries are joined with line breaks, and the final call is made over
    them.
  - A summary then passes the quality gate; an answer does not.

### The model of the language model

The language model is a parameter: `model(prompt, params)` is the completion
text it produces. Under this model a run is a function of the model and the
inputs:

- `Gate`, `Summarize` and `Answer` return an `Outcome`: the result together
  with every `Call` made, in order.
- Each method that takes the `Engine` is proved to return that function's
  result and to append exactly its calls to the engine's log.

The properties of the pipeline are then proved as lemmas about those
functions. They cover:

- how many calls are made, with which prompts and with which token limits;
- that a summary never has more than ten sentences;
- that the retry keeps exactly the first ten sentences;
- that an answer is the last reply, unchecked.

### Where the code and its comment disagree

The comment in `_sanitize_summary` says it removes numbering "like 1. or 8.".
The code does not do that:

- The first test asks for `stripped[:2].isdigit()` and `stripped[1:2] == "."`
  together. Character 1 would have to be both a digit and a dot, so the test
  can never hold (`Sanitizer.FirstGuardDead`).
- Only the second test removes anything, and it only removes a two-digit
  prefix followed by a dot.

The model follows the code. A one-digit `1.` is kept (`Sanitizer.CleanSingleDigit`)
and a two-digit `12.` is removed (`Sanitizer.CleanNumbered`). A further
consequence is that sanitizing is not idempotent (`Sanitizer.SanitizedTwice`).

## Model

| member | source | states |
|---|---|---|
| Strings.Strip | app/main.py:141 | definition of `str.strip()`. Its own contract says the result has no surrounding whitespace and is empty exactly for blank input; StripSlice says what is removed |
| Strings.IsSpace | app/main.py:184 | definition of the whitespace class of `isspace()`, `lstrip()`, `strip()` and `split()`, restricted to ASCII (see "## Left out") |
| Strings.IsLineBreak | app/main.py:183 | definition of the characters at which `splitlines()` breaks, restricted to ASCII |
| Strings.IsDigits | app/main.py:185-187 | definition of `str.isdigit()`: non-empty, and every character an ASCII digit |
| Strings.Slice | app/main.py:185-188 | definition of Python's slice `s[i:j]` for non-negative bounds: the bounds are clamped to the length, and within bounds it is `s[i..j]` |
| Strings.JoinWith | app/main.py:190 | definition of `sep.join(parts)`, as used at app/main.py:190, 199, 228, 245 and 258 |
| Strings.NonEmpty | app/main.py:190 | definition of the `if l` filter at app/main.py:190, and of the `if partial:` tests at app/main.py:243 and 256: the non-empty elements, in order |
| Strings.StripSlice | app/main.py:141 | the result of `strip()` is a slice `s[i..j]` of the input with a blank `s[..i]` before it and a blank `s[j..]` after it. Being stripped itself, it is the input minus all of its surrounding whitespace |
| Strings.RStrip | app/main.py:141 | `rstrip()`, the second half of `strip()`: the result is a prefix of the input, everything dropped is whitespace, and the result does not end with whitespace |
| Strings.LStrip | app/main.py:184 | `lstrip()`: the result is a suffix of the input, everything dropped is whitespace, and the result does not start with whitespace |
| Strings.Words | app/main.py:194 | definition of `split()`. Its own contract says every word is non-empty and holds no whitespace; the three lemmas below pin down which words |
| Strings.WordsOfBlank | app/main.py:194 | a blank text has no words |
| Strings.WordsBlankPrefix | app/main.py:194 | leading whitespace does not change the words |
| Strings.WordsOfWord | app/main.py:194 | a maximal run of non-space characters at the start of the text is its first word, and the words of the rest follow |
| Strings.WordsOfJoin | app/main.py:194 | splitting words joined by single spaces gives back those words when none is empty or holds a space |
| Strings.Lines | app/main.py:183 | definition of `splitlines()` (see "## Left out" for where it differs): there is always at least one piece |
| Strings.Lower | app/main.py:194 | definition of `lower()`, character by character with `ToLower`: the result has the input's length |
| Strings.LinesNoLineBreak | app/main.py:183 | no line produced by `splitlines()` contains a line break |
| Strings.LinesOfJoin | app/main.py:183 | splitting a non-empty list of lines joined with `"\n"` gives back those lines when none contains a line break |
| Segmenter.Chunks | app/main.py:113-122 | definition of `_chunk_text`'s result; its properties are ChunksShape and ChunksCount |
| Segmenter.ChunkText | app/main.py:113-122 | the loop returns `Chunks`. A text that fits is the single chunk `[text]`. Otherwise the chunks concatenate back to the text, there are `ceil(len/max)` of them, each has 1 to `max` characters, and every chunk but the last has exactly `max` |
| Segmenter.ChunksShape | app/main.py:113-122 | the same concatenation, count and size properties for the chunk function |
| Segmenter.ChunksCount | app/main.py:113-122 | there is at least one chunk, and exactly one if and only if the text fits in `max` characters |
| Gateway.Engine.Generate | app/main.py:125-141 | exactly one call, with this prompt and these parameters, is appended to the log. The result is the model's completion stripped, so it has no surrounding whitespace |
| Gateway.WithTokens | app/main.py:125-131 | definition of a call's parameters with the default penalties of `_generate`: repeat penalty 1.2 and frequency penalty 0.0 |
| Gateway.Respond | app/main.py:132-140 | definition of one call of the model: the prompt and parameters sent and the completion the model gives for them |
| Gateway.Reply | app/main.py:141 | definition of what `_generate` returns for a call: the completion, stripped |
| Prompts.SummaryPrompt | app/main.py:144-151 | definition of `_build_summary_prompt`: fixed head, the text, fixed foot |
| Prompts.SummaryPromptInjective | app/main.py:144-151 | different texts give different summary prompts |
| Prompts.QaPrompt | app/main.py:154-160 | definition of `_build_qa_prompt`: fixed head, the text, the question marker, the question, fixed foot |
| Prompts.QaPromptInjective | app/main.py:154-160 | for the same text, different questions give different prompts |
| Prompts.QaPromptTextInjective | app/main.py:154-160 | for the same question, different texts give different prompts |
| Prompts.QaPromptShift | app/main.py:154-160 | text and question together are not determined by the prompt: moving the question marker and what follows it from the end of the text to the start of the question builds the same prompt |
| Prompts.RetryPrompt | app/main.py:211-217 | definition of the inline retry prompt: fixed head, the text, fixed foot |
| Prompts.RetryPromptInjective | app/main.py:211-217 | different texts give different retry prompts |
| Splitter.Pieces | app/main.py:166-172 | definition of the buffer pieces: the text cut after every terminator, the last piece being the tail. Its properties are PiecesShape |
| Splitter.Sentences | app/main.py:163-177 | definition of `_split_sentences`: the pieces stripped, blank ones dropped. Its properties are SentencesShape and SentencesOfJoin |
| Splitter.SplitSentences | app/main.py:163-177 | the character loop with its buffer returns exactly `Sentences(text)` |
| Splitter.PiecesShape | app/main.py:166-172 | the buffer pieces concatenate back to the text. There is one piece per terminator plus the tail. Every piece but the tail holds exactly one terminator, at its end, and the tail holds none |
| Splitter.SentencesShape | app/main.py:163-177 | the number of sentences is the number of terminators, plus one when the tail after the last terminator is not blank. Every sentence is non-empty, stripped and has a terminator only at its end. Every sentence but the last ends with one. An extra last sentence is the stripped tail, without a terminator |
| Splitter.SentencesCount | app/main.py:163-177 | the number of sentences, as in SentencesShape |
| Splitter.SentencesParts | app/main.py:163-177 | each sentence is non-empty, stripped and terminated as in SentencesShape |
| Splitter.SentencesLast | app/main.py:173-176 | a sentence beyond the terminator count is the stripped tail, and it holds no terminator |
| Splitter.SentencesOfOpen | app/main.py:163-177 | a text without terminators is no sentence when blank, and otherwise the single sentence `strip(text)` |
| Splitter.SentencesOfJoin | app/main.py:163-177 | whole sentences joined by spaces split back into exactly those sentences |
| Sanitizer.CleanLine | app/main.py:184-189 | definition of one pass of the loop body: left-strip, then the two numbering tests. Its properties are the Clean lemmas below |
| Sanitizer.FirstGuard | app/main.py:185 | definition of the first numbering test: the first two characters are digits and the second is a dot |
| Sanitizer.SecondGuard | app/main.py:187 | definition of the second numbering test: at least three characters, two digits, then a dot |
| Sanitizer.Unnumber | app/main.py:185-188 | definition of the two numbering tests and the cut each makes, applied to a left-stripped line |
| Sanitizer.CleanLines | app/main.py:183-190 | definition of the loop over the lines: `CleanLine` applied to each line, in order. Its properties are SanitizedOfLines, CleanNumbered and CleanSingleDigit |
| Sanitizer.Sanitized | app/main.py:180-190 | definition of `_sanitize_summary`: clean every line, join the non-empty ones with spaces, strip |
| Sanitizer.Sanitize | app/main.py:180-190 | the line loop returns exactly `Sanitized(text)` |
| Sanitizer.SanitizedShape | app/main.py:180-190 | the result is a single line (no line break) with no surrounding whitespace |
| Sanitizer.CleanLineShape | app/main.py:184-189 | a cleaned line is a suffix of the line, and it is empty or starts with a non-space |
| Sanitizer.FirstGuardDead | app/main.py:185-186 | the one-digit numbering test never holds |
| Sanitizer.CleanNumbered | app/main.py:187-188 | a line of blanks, two digits, a dot and a rest is cleaned to the rest, left-stripped |
| Sanitizer.CleanSingleDigit | app/main.py:184-189 | a line of blanks, one digit, a dot and a rest keeps its digit and dot |
| Sanitizer.CleanUnnumbered | app/main.py:184-189 | a line whose left-stripped form fails the two-digit test is only left-stripped |
| Sanitizer.CleanBlank | app/main.py:184-190 | a blank line cleans to the empty line, which the join drops |
| Sanitizer.SanitizedOfLines | app/main.py:183-190 | lines given with `"\n"` separators are cleaned one by one, and the non-empty ones are joined by spaces and stripped |
| Sanitizer.SanitizedSingle | app/main.py:180-190 | a text with one line sanitizes to that line cleaned and stripped |
| Sanitizer.SanitizedPlain | app/main.py:180-190 | a stripped single line without two-digit numbering comes back unchanged |
| Sanitizer.SanitizedNumbered | app/main.py:180-190 | a single line `dd.` plus a rest, where the rest has no line break and no trailing whitespace, sanitizes to the rest, left-stripped |
| Sanitizer.SanitizedBlankLine | app/main.py:182-190 | inserting a blank line between two lines does not change the result |
| Sanitizer.SanitizedTwice | app/main.py:180-190 | sanitizing is not idempotent: `"12. 34. x"` gives `"34. x"` and then `"x"` |
| Repetition.Windows | app/main.py:197-198 | definition of the three-word windows the loop visits: for each start position, that word and the next two joined by a space. Its properties are IsRepetitive, RepeatedPhrase and LowThreshold |
| Repetition.Repetitive | app/main.py:193-203 | definition of `_is_repetitive` as a property of all windows at once, independent of the loop |
| Repetition.IsRepetitive | app/main.py:193-203 | the counting loop with early return says exactly whether the text has at least 20 words and some three-word window occurs at least `threshold` times among all windows |
| Repetition.ShortNotRepetitive | app/main.py:195-196 | a text of fewer than 20 words is never repetitive |
| Repetition.ThresholdMonotone | app/main.py:193-203 | a text repetitive for some threshold is repetitive for every lower one |
| Repetition.LowThreshold | app/main.py:193-203 | with a threshold of at most 1, every text of at least 20 words is repetitive |
| Repetition.RepeatedPhrase | app/main.py:197-202 | a three-word phrase repeated `n` times, with `3n >= 20`, gives a token sequence that is repetitive for every threshold up to `n`. PhraseText carries this to the text: the words of the joined cycle are that token sequence |
| Repetition.PhraseText | app/main.py:194 | the words of a phrase cycle joined by spaces are the cycle itself, when its words are lower-case and hold no spaces |
| Repetition.TheCatSat | app/main.py:193-203 | "the cat sat" seven times is repetitive at the default threshold 6, and six times it is not |
| QualityGate.Resolve | app/main.py:225-231 | definition of the retry path's result; its properties are ResolveTruncates and ResolveBound |
| QualityGate.RetryParams | app/main.py:219-224 | definition of the retry's parameters: 420 tokens, repeat penalty 1.35 and frequency penalty 0.2 (in hundredths) |
| QualityGate.Accepts | app/main.py:209 | definition of the acceptance test: 5 to 10 sentences and not repetitive at the default threshold |
| QualityGate.Gate | app/main.py:206-231 | definition of `_ensure_summary_quality`'s result and calls; its properties are the Gate lemmas below |
| QualityGate.EnsureSummaryQuality | app/main.py:206-231 | the method returns the gate's result and appends exactly the gate's calls to the log |
| QualityGate.GateAccepts | app/main.py:207-210 | an accepted summary comes back sanitized and the model is not called |
| QualityGate.GateRetries | app/main.py:211-224 | a rejected summary leads to exactly one call, with the retry prompt over the source text and the parameters 420, 1.35 and 0.2. The result is resolved from that reply |
| QualityGate.GateForgetsRejected | app/main.py:211-231 | any two rejected summaries lead to a single retry with the same prompt and parameters. With the model a fixed function, they also give the same calls and the same result |
| QualityGate.GateCount | app/main.py:206-224 | the gate makes one call if and only if it rejects the summary, and none if and only if it accepts it |
| QualityGate.FirstTenAreSentences | app/main.py:226-228 | of a split into more than ten parts, the first ten are whole terminated sentences |
| QualityGate.JoinedSentences | app/main.py:228 | whole sentences joined by spaces and stripped split back into those sentences |
| QualityGate.ResolveTruncates | app/main.py:227-228 | the cut reply splits into exactly the first ten sentences of the sanitized reply |
| QualityGate.ResolveBound | app/main.py:225-231 | the retry path never yields more than ten sentences |
| QualityGate.GateBound | app/main.py:206-231 | on both paths the result has at most ten sentences and no surrounding whitespace, and at most one call is made |
| Pipeline.PartialCalls | app/main.py:241-242 | definition of the calls of a chunk loop: one summary call per chunk, in chunk order |
| Pipeline.Kept | app/main.py:243-244 | definition of the kept partial summaries; KeptFilter says what they are |
| Pipeline.Combined | app/main.py:245 | definition of `"\n".join(partial_summaries)` |
| Pipeline.Summarize | app/main.py:234-247 | definition of `_summarize_text`'s result and calls; its properties are the Summarize lemmas below |
| Pipeline.Answer | app/main.py:250-261 | definition of `_answer_question`'s result and calls; its properties are the Answer lemmas below |
| Pipeline.SummarizeChunks | app/main.py:240-244 | the chunk loop appends one summary call per chunk, in order, to the log, and keeps exactly the non-empty replies in order |
| Pipeline.KeptShape | app/main.py:243-244 | there are no more kept partial summaries than calls, and each is non-empty and stripped |
| Pipeline.KeptFilter | app/main.py:243-244 | the kept partial summaries are exactly the non-empty replies, in order |
| Pipeline.KeptAll | app/main.py:243-244 | when no reply is empty, every reply is kept, in order |
| Pipeline.KeptNone | app/main.py:243-245 | when every reply is empty, nothing is kept and the joined context is empty |
| Pipeline.CombinedLines | app/main.py:245 | when some summary is kept and none of them holds a line break, the joined partial summaries split back into exactly those summaries at their line breaks |
| Pipeline.SummarizeText | app/main.py:234-247 | the method returns `Summarize`'s result and appends exactly its calls to the log |
| Pipeline.SummarizeSingle | app/main.py:235-238 | a text that fits is summarised by one 400-token call over the whole text, followed by the gate over the same text. That is one or two calls |
| Pipeline.SummarizeMulti | app/main.py:240-246 | a longer text makes `ceil(len/8000)` partial calls of 250 tokens, in chunk order. One 400-token call follows over the joined partial summaries, and at most one retry after it |
| Pipeline.SummarizeMultiGate | app/main.py:245-247 | a longer text's result is the gate over the joined partial summaries, not over the text. The retry call happens if and only if the gate rejects the reply |
| Pipeline.SummarizeBound | app/main.py:234-247 | whatever the text and the model, the summary has at most ten sentences and no surrounding whitespace |
| Pipeline.SummarizeThreeChunks | app/main.py:234-247 | a text of 16001 to 24000 characters is three chunks, so four or five calls |
| Pipeline.AnswerQuestion | app/main.py:250-261 | the method returns `Answer`'s result and appends exactly its calls to the log |
| Pipeline.AnswerSingle | app/main.py:259-261 | a question about a text that fits takes exactly one 300-token call, with the question prompt over the whole text |
| Pipeline.AnswerMulti | app/main.py:251-261 | a longer text makes `ceil(len/8000)` partial calls of 200 tokens. One 300-token question call follows over the joined partial summaries: `m + 1` calls in all |
| Pipeline.AnswerIsLastReply | app/main.py:261 | there is at least one call, the last one uses 300 tokens, and the answer is its reply, unchecked and stripped |

## Left out

- Model loading and download (`_load_llm`, `_download_model`, app/main.py:43-100) are out: they are file and network I/O. The engine's constructor stands for an already loaded model.
- PDF text extraction (`_extract_text_from_pdf`, app/main.py:103-110) is out: it calls into the PDF library. The pipelines take the extracted text as their input.
- The HTTP endpoints, the HTML page, the streaming variants and `_json_escape` (app/main.py:264-532) are out: they are web framing around the two pipelines.
- Gateway.Engine.Generate: sampling is not modelled. The model is a fixed function of the prompt and the parameters, so two identical calls give the same completion, although the sampled model need not.
- The default `max_tokens=512` of `_generate` is not modelled: every call in the core passes its own limit.
- The constant sampling settings (temperature 0.2, `top_p` 0.95, the stop strings) are not part of `Params`, because every call uses the same ones. The penalties are integers in hundredths, with no floating point.
- A missing completion text (`None`) is folded into the model, which returns `""` for it.
- Character classes are ASCII: whitespace, digits and line breaks beyond ASCII (for example U+00A0 or U+2028) are not recognised. `lower()` folds only the ASCII capitals and the Cyrillic capitals U+0400 to U+042F.
- Strings.Lines yields an empty piece where `splitlines()` yields none: for the empty text (`[""]` where Python gives `[]`), after a final line break, and inside `"\r\n"`. Its only caller drops empty lines, so sanitized results agree.
- Segmenter.ChunkText requires a positive `max_chars` whenever the text is longer than it. It excludes two cases:
  - a non-empty text with `max_chars <= 0`, for which the source loop never ends;
  - the empty text with a negative `max_chars`, for which the source returns `[]` at once without entering the loop.
  Every call in the source uses 8000, so neither case arises.
- Sanitizer: the comment's promise to remove one-digit numbering such as "1." is not modelled, because the code never removes it (see above).
- The length-only `if len(sentences) < 5` branch in the retry path (app/main.py:229-231) returns the same value as the fall-through, so it is one case in the model.

/**
 * The prompt builders `_build_summary_prompt` and `_build_qa_prompt`, and
 * the stricter prompt that `_ensure_summary_quality` builds inline for its
 * one retry.  Each is fixed text around the report (and the question).
 */
module Prompts {

  /** The opening shared by the summary and question prompts. */
  const Persona: string := "You are an analyst assistant. Write in English. "

  const ReportLabel: string := "REPORT:\n"

  const SummaryRules: string :=
    "Produce EXACTLY 5–10 sentences. "
    + "No meta commentary (e.g., 'the report says...'). "
    + "No lists or numbering, only coherent prose. "
    + "Use only facts from the report, no speculation. Do not repeat yourself.\n\n"

  /** Everything before the text of a summary prompt. */
  const SummaryHead: string := Persona + SummaryRules + ReportLabel

  const SummaryFoot: string := "\n\nSUMMARY (5–10 sentences):\n"

  const QaRules: string :=
    "Answer only using the report content. "
    + "No meta commentary or speculation. Do not repeat yourself. "
    + "If the answer is not in the text, say: \"The report does not specify this.\".\n\n"

  /** Everything before the text of a question prompt. */
  const QaHead: string := Persona + QaRules + ReportLabel

  const QaMiddle: string := "\n\nQUESTION: "

  const QaFoot: string := "\nANSWER:\n"

  /** The retry instructions, in Russian. */
  const RetryRules: string :=
    "Перепиши саммари СТРОГО в 5–10 предложениях, "
    + "без нумерации, без списков, без мета-ответов. "
    + "Пиши по-русски. Только факты из отчета. Не повторяйся.\n\n"

  /** Everything before the text of the retry prompt. */
  const RetryHead: string := RetryRules + "ОТЧЕТ:\n"

  const RetryFoot: string := "\n\nСАММАРИ:\n"

  /** `_build_summary_prompt(text)`. */
  function SummaryPrompt(text: string): string {
    SummaryHead + text + SummaryFoot
  }

  /** `_build_qa_prompt(text, question)`. */
  function QaPrompt(text: string, question: string): string {
    QaHead + text + QaMiddle + question + QaFoot
  }

  /** The retry prompt of `_ensure_summary_quality`, built from the text
      alone. */
  function RetryPrompt(text: string): string {
    RetryHead + text + RetryFoot
  }

  /** Text framed by a fixed head and foot can be read back. */
  lemma FramedInjective(h: string, f: string, a: string, b: string)
    requires h + a + f == h + b + f
    ensures a == b
  {
    var x, y := h + a + f, h + b + f;
    assert |a| == |b|;
    assert a == x[|h|..|h| + |a|];
    assert b == y[|h|..|h| + |b|];
  }

  /** Different texts give different summary prompts. */
  lemma SummaryPromptInjective(a: string, b: string)
    requires SummaryPrompt(a) == SummaryPrompt(b)
    ensures a == b
  {
    FramedInjective(SummaryHead, SummaryFoot, a, b);
  }

  /** Different texts give different retry prompts. */
  lemma RetryPromptInjective(a: string, b: string)
    requires RetryPrompt(a) == RetryPrompt(b)
    ensures a == b
  {
    FramedInjective(RetryHead, RetryFoot, a, b);
  }

  /** For one report, different questions give different prompts. */
  lemma QaPromptInjective(text: string, q1: string, q2: string)
    requires QaPrompt(text, q1) == QaPrompt(text, q2)
    ensures q1 == q2
  {
    var h := QaHead + text + QaMiddle;
    assert QaPrompt(text, q1) == h + q1 + QaFoot;
    assert QaPrompt(text, q2) == h + q2 + QaFoot;
    FramedInjective(h, QaFoot, q1, q2);
  }

  /** For one question, different reports give different prompts. */
  lemma QaPromptTextInjective(a: string, b: string, question: string)
    requires QaPrompt(a, question) == QaPrompt(b, question)
    ensures a == b
  {
    var f := QaMiddle + question + QaFoot;
    assert QaPrompt(a, question) == QaHead + a + f;
    assert QaPrompt(b, question) == QaHead + b + f;
    FramedInjective(QaHead, f, a, b);
  }

  /** The report and the question together cannot be read back from a
      question prompt: moving the question marker and what follows it from
      the end of the report to the start of the question builds the same
      prompt. */
  lemma QaPromptShift(text: string, moved: string, question: string)
    ensures QaPrompt(text + QaMiddle + moved, question) == QaPrompt(text, moved + QaMiddle + question)
  {
    Regroup(QaHead, text, QaMiddle, moved, question, QaFoot);
  }

  lemma Regroup<T>(h: seq<T>, t: seq<T>, m: seq<T>, x: seq<T>, q: seq<T>, f: seq<T>)
    ensures h + (t + m + x) + m + q + f == h + t + m + (x + m + q) + f
  {
    assert h + (t + m + x) + m + q + f == h + t + m + x + m + q + f;
    assert h + t + m + (x + m + q) + f == h + t + m + x + m + q + f;
  }
}

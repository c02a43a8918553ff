/**
 * The model call `_generate`: send a prompt with sampling parameters to the
 * language model and return its completion text, stripped.
 *
 * The model itself is a parameter: `model(prompt, params)` is the completion
 * text it produces (an absent text already read as ""), so a run is fixed
 * by the model alone.
 */
module Gateway {
  import opened Strings

  /** The parameters that vary between calls: `max_tokens`, and the repeat
      and frequency penalties in hundredths (1.35 is 135).  Temperature,
      `top_p` and the stop strings are the same for every call. */
  datatype Params = Params(maxTokens: int, repeatPenalty: int, frequencyPenalty: int)

  /** A call with the default penalties of `_generate` (1.2 and 0.0). */
  function WithTokens(maxTokens: int): Params
  {
    Params(maxTokens, 120, 0)
  }

  /** One call as the log records it: what was sent and the completion text
      that came back. */
  datatype Call = Call(prompt: string, params: Params, output: string)

  /** What `_generate` returns for a call: the completion, stripped. */
  function Reply(c: Call): string {
    Strip(c.output)
  }

  /** A call of the model. */
  function Respond(model: (string, Params) -> string, prompt: string, params: Params): Call {
    Call(prompt, params, model(prompt, params))
  }

  /** The loaded model, with the calls made to it so far. */
  class Engine {
    const model: (string, Params) -> string
    ghost var log: seq<Call>

    constructor (model: (string, Params) -> string)
      ensures this.model == model && log == []
    {
      this.model := model;
      log := [];
    }

    /** `_generate(llm, prompt, ...)`: one model call, logged. */
    method Generate(prompt: string, params: Params) returns (text: string)
      modifies this
      ensures log == old(log) + [Respond(model, prompt, params)]
      ensures text == Reply(Respond(model, prompt, params))
      ensures IsStripped(text)
    {
      var raw := model(prompt, params);
      text := Strip(raw);
      log := log + [Call(prompt, params, raw)];
    }
  }
}

/** The text model: the lazily loaded model/tokenizer pair held in two module globals, and
    the service object that fills the prompt template, extracts the reply and releases both. */
module LlamaInference {
  import opened Wrappers
  import opened Errors
  import opened Text

  /** Opaque handles for loaded weights and tokenizer; `load` tells one load from another. */
  datatype ModelHandle = ModelHandle(load: nat)
  datatype TokenizerHandle = TokenizerHandle(load: nat)

  const DefaultModelDir := "New-Llama-3.2-3B-trained/checkpoint-100"

  // ---------------------------------------------------------------------------
  // Prompt template and reply extraction

  /** The template text before and after its single `{msg}` field. */
  const TemplateHead :=
    "<|im_start|>system\n"
    + "Eres un asistente **experto exclusivamente** en smartphones y celulares. "
    + "Responde únicamente preguntas sobre marcas, modelos, especificaciones técnicas, precios y comparativas.\n"
    + "Si la pregunta NO trata de smartphones, debes responder EXACTAMENTE:\n"
    + "\"Lo siento, solo puedo responder preguntas sobre smartphones y celulares.\"\n"
    + "No añadas nada más.\n\n"
    + "### Ejemplos de comportamiento:\n"
    + "User: ¿Qué versión de Bluetooth tiene el Samsung M3310?\n"
    + "Assistant: Bluetooth 2.1.\n\n"
    + "User: ¿Cómo se calcula el interés compuesto?\n"
    + "Assistant: Lo siento, solo puedo responder preguntas sobre smartphones y celulares.\n"
    + "<|im_end|>\n"
    + "<|im_start|>user\n"
  const TemplateTail := "\n<|im_end|>\n<|im_start|>assistant\n"

  const Marker := "<|im_start|>assistant"
  const Refusal := "Lo siento, solo puedo responder preguntas sobre smartphones y celulares."

  /** `template.format(msg=question)`: the question is inserted verbatim, braces included. */
  function Prompt(question: string): string {
    TemplateHead + question + TemplateTail
  }

  /** The prompt holds the question, unchanged, right after the fixed head. */
  lemma PromptEmbedsQuestion(question: string)
    ensures |Prompt(question)| == |TemplateHead| + |question| + |TemplateTail|
    ensures Prompt(question)[|TemplateHead|..|TemplateHead| + |question|] == question
  {
    var p := Prompt(question);
    forall k | 0 <= k < |question|
      ensures p[|TemplateHead| + k] == question[k]
    {
      assert p == (TemplateHead + question) + TemplateTail;
    }
  }

  /** Different questions give different prompts: the template hides nothing of the question. */
  lemma PromptDeterminesQuestion(q1: string, q2: string)
    requires Prompt(q1) == Prompt(q2)
    ensures q1 == q2
  {
    PromptEmbedsQuestion(q1);
    PromptEmbedsQuestion(q2);
  }

  /** The decoded output turned into the reply: the stripped text after the last assistant
      marker (all of it when there is none), with an empty text or the refusal itself both
      becoming the refusal. */
  function Reply(raw: string): (r: string)
    ensures r != ""
  {
    var resp := PyStrip(AfterLast(raw, Marker));
    if resp == Refusal || resp == "" then Refusal else resp
  }

  /** Replacing the exact refusal by the refusal changes nothing: only emptiness matters. */
  function NonEmptyOrRefusal(resp: string): string {
    if resp == "" then Refusal else resp
  }

  /** With a marker present, the reply comes from the text after an occurrence of the marker
      that no later marker follows. */
  lemma ReplyAfterLastMarker(raw: string)
    requires Contains(raw, Marker)
    ensures exists prefix, tail ::
      && raw == prefix + Marker + tail
      && !Contains(tail, Marker)
      && Reply(raw) == NonEmptyOrRefusal(PyStrip(tail))
  {
    AfterLastSpec(raw, Marker);
    var tail := AfterLast(raw, Marker);
    var prefix :| raw == prefix + Marker + tail;
    assert Reply(raw) == NonEmptyOrRefusal(PyStrip(tail));
  }

  /** Without a marker, the reply is the whole decoded text, stripped. */
  lemma ReplyWithoutMarker(raw: string)
    requires !Contains(raw, Marker)
    ensures Reply(raw) == NonEmptyOrRefusal(PyStrip(raw))
  {
    AfterLastSpec(raw, Marker);
  }

  /** Apart from the refusal, a reply never holds the assistant marker. */
  lemma ReplyHoldsNoMarker(raw: string)
    ensures Reply(raw) == Refusal || !Contains(Reply(raw), Marker)
  {
    var tail := AfterLast(raw, Marker);
    AfterLastSpec(raw, Marker);
    StripKeepsAbsence(tail, Marker);
  }

  /** Stripping cannot create an occurrence of a pattern. */
  lemma StripKeepsAbsence(s: string, pat: string)
    ensures Contains(PyStrip(s), pat) ==> Contains(s, pat)
  {
    TrimIsInfix(s, PyWhitespace);
    var i, j :| 0 <= i <= j <= |s| && PyStrip(s) == s[i..j];
    if Contains(s[i..j], pat) {
      var k :| OccursAt(s[i..j], pat, k);
      assert k + |pat| <= j - i;
      forall m | 0 <= m < |pat| ensures s[i + k + m] == pat[m] {
        assert s[i..j][k..k + |pat|][m] == pat[m];
      }
      assert s[i + k..i + k + |pat|] == pat;
      assert OccursAt(s, pat, i + k);
    }
  }

  // ---------------------------------------------------------------------------
  // Module globals and the service object

  /** The module globals `_LLAMA_INSTANCE` and `_TOKENIZER_INSTANCE`; `loads` lists the
      directories `from_pretrained` was asked to load, in order. */
  class LlamaRuntime {
    var model: Option<ModelHandle>
    var tokenizer: Option<TokenizerHandle>
    var loads: seq<string>

    constructor ()
      ensures model == None && tokenizer == None && loads == []
    {
      model := None;
      tokenizer := None;
      loads := [];
    }
  }

  /** The inner `LlamaService` class. A field that is None is an attribute `release` deleted. */
  class LlamaService {
    const runtime: LlamaRuntime
    var model: Option<ModelHandle>
    var tokenizer: Option<TokenizerHandle>
    /** The prompts handed to the tokenizer, in order. */
    var prompts: seq<string>

    constructor (runtime: LlamaRuntime, model: ModelHandle, tokenizer: TokenizerHandle)
      ensures this.runtime == runtime && this.model == Some(model) && this.tokenizer == Some(tokenizer)
      ensures prompts == []
    {
      this.runtime := runtime;
      this.model := Some(model);
      this.tokenizer := Some(tokenizer);
      prompts := [];
    }

    /** `release`: delete `model` then `tokenizer` and clear both globals. Only NameError is
        caught, so a missing attribute raises AttributeError before the globals are cleared. */
    method Release() returns (r: Result<(), Exc>)
      modifies this, runtime
      ensures prompts == old(prompts)
      ensures runtime.loads == old(runtime.loads)
      ensures old(model).None? ==>
        r == Err(AttributeError("model")) && tokenizer == old(tokenizer) && model == None
        && runtime.model == old(runtime.model) && runtime.tokenizer == old(runtime.tokenizer)
      ensures old(model).Some? && old(tokenizer).None? ==>
        r == Err(AttributeError("tokenizer")) && model == None && tokenizer == None
        && runtime.model == old(runtime.model) && runtime.tokenizer == old(runtime.tokenizer)
      ensures old(model).Some? && old(tokenizer).Some? ==>
        r == Ok(()) && model == None && tokenizer == None
        && runtime.model == None && runtime.tokenizer == None
    {
      if model.None? {
        return Err(AttributeError("model"));
      }
      model := None;
      if tokenizer.None? {
        return Err(AttributeError("tokenizer"));
      }
      tokenizer := None;
      runtime.model := None;
      runtime.tokenizer := None;
      r := Ok(());
    }

    /** `chat`: tokenize the filled template (outside the `try`), then generate and decode,
        `decoded` being what the model produced or the error it raised, and release in the
        `finally`. */
    method Chat(question: string, decoded: Result<string, Exc>) returns (r: Result<string, Exc>)
      modifies this, runtime
      ensures runtime.loads == old(runtime.loads)
      ensures old(tokenizer).None? ==>
        r == Err(AttributeError("tokenizer")) && unchanged(this) && unchanged(runtime)
      ensures old(tokenizer).Some? ==> prompts == old(prompts) + [Prompt(question)]
      ensures old(tokenizer).Some? && old(model).None? ==>
        r == Err(AttributeError("model")) && model == old(model) && tokenizer == old(tokenizer)
        && unchanged(runtime)
      ensures old(tokenizer).Some? && old(model).Some? ==>
        && model == None && tokenizer == None
        && runtime.model == None && runtime.tokenizer == None
        && r == match decoded { case Ok(raw) => Ok(Reply(raw)) case Err(e) => Err(e) }
    {
      if tokenizer.None? {
        return Err(AttributeError("tokenizer"));
      }
      prompts := prompts + [Prompt(question)];
      if model.None? {
        return Err(AttributeError("model"));
      }
      var released := Release();
      match decoded
      case Ok(raw) => r := Ok(Reply(raw));
      case Err(e) => r := Err(e);
    }
  }

  /** `get_llama_instance`: load only when a global is None (`load` is what `from_pretrained`
      returns or raises), then wrap the globals in a new service. */
  method GetLlamaInstance(runtime: LlamaRuntime, modelDir: string, load: Result<(ModelHandle, TokenizerHandle), Exc>)
    returns (r: Result<LlamaService, Exc>)
    modifies runtime
    ensures r.Ok? ==> fresh(r.value) && r.value.runtime == runtime && r.value.prompts == []
    ensures r.Ok? ==> r.value.model == runtime.model && r.value.tokenizer == runtime.tokenizer
    ensures r.Ok? ==> runtime.model.Some? && runtime.tokenizer.Some?
    ensures old(runtime.model).Some? && old(runtime.tokenizer).Some? ==> r.Ok? && unchanged(runtime)
    ensures old(runtime.model).None? || old(runtime.tokenizer).None? ==>
      match load
      case Err(e) => r == Err(e) && unchanged(runtime)
      case Ok(pair) =>
        && r.Ok?
        && runtime.model == Some(pair.0) && runtime.tokenizer == Some(pair.1)
        && runtime.loads == old(runtime.loads) + [modelDir]
  {
    if runtime.model.None? || runtime.tokenizer.None? {
      match load
      case Err(e) =>
        return Err(e);
      case Ok(pair) =>
        runtime.model := Some(pair.0);
        runtime.tokenizer := Some(pair.1);
        runtime.loads := runtime.loads + [modelDir];
    }
    var service := new LlamaService(runtime, runtime.model.value, runtime.tokenizer.value);
    r := Ok(service);
  }

  /** After a successful `chat` the service is spent: a second `chat` fails on its deleted
      tokenizer, and a second `release` raises. */
  method SecondChatFails(runtime: LlamaRuntime, load: Result<(ModelHandle, TokenizerHandle), Exc>,
                         first: string, second: string, decoded: Result<string, Exc>)
    returns (again: Result<string, Exc>, releasedAgain: Result<(), Exc>)
    modifies runtime
    ensures load.Ok? || (old(runtime.model).Some? && old(runtime.tokenizer).Some?) ==>
      again == Err(AttributeError("tokenizer")) && releasedAgain == Err(AttributeError("model"))
  {
    var instance := GetLlamaInstance(runtime, DefaultModelDir, load);
    if instance.Err? {
      again, releasedAgain := Err(instance.error), Err(instance.error);
      return;
    }
    var service := instance.value;
    var reply := service.Chat(first, decoded);
    again := service.Chat(second, decoded);
    releasedAgain := service.Release();
  }
}

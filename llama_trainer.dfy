/** The fine-tuning service for the text model (`LlamaTrainerService`): the chat template, the
    formatting of the training records, the checkpoint it resumes from and the result it
    reports. The model loading, the LoRA adapters and the trainer itself are library calls; their
    failures are parameters. */
module LlamaTrainer {
  import opened Wrappers
  import opened Errors
  import Text
  import Files

  const DefaultSrcModel := "unsloth/Llama-3.2-3B-Instruct"
  const DefaultNewModelDir := "New-Llama-3.2-3B-trained"
  const DefaultMaxSeqLen := 2048
  const ResumeCheckpoint := "checkpoint-100"
  const Completed := "completed"

  const ChatSystem := "<|im_start|>system\nYou are a helpful assistant.<|im_end|>\n"
  const TrainSystem := "<|im_start|>system\nEres un asistente útil experto en smartphones.<|im_end|>\n"
  const UserOpen := "<|im_start|>user\n"
  const TurnEnd := "<|im_end|>"
  const AssistantOpen := "<|im_start|>assistant\n"

  /** The text around the message in `_chat_template`. */
  const ChatHead := ChatSystem + UserOpen
  const ChatTail := TurnEnd + "\n" + AssistantOpen

  /** `_chat_template(message)`: the system block, the user turn holding the message and an open
      assistant turn. */
  function ChatTemplate(message: string): string {
    ChatHead + message + ChatTail
  }

  /** The message sits verbatim between the fixed head and tail. */
  lemma ChatTemplateEmbeds(message: string)
    ensures |ChatTemplate(message)| == |ChatHead| + |message| + |ChatTail|
    ensures ChatTemplate(message)[..|ChatHead|] == ChatHead
    ensures ChatTemplate(message)[|ChatHead|..|ChatHead| + |message|] == message
    ensures ChatTemplate(message)[|ChatHead| + |message|..] == ChatTail
  {
    var t := ChatTemplate(message);
    assert t == ChatHead + message + ChatTail;
    assert t[..|ChatHead|] == ChatHead;
    assert t[|ChatHead|..|ChatHead| + |message|] == message;
    assert t[|ChatHead| + |message|..] == ChatTail;
  }

  /** Different messages give different templates. */
  lemma ChatTemplateInjective(m1: string, m2: string)
    requires ChatTemplate(m1) == ChatTemplate(m2)
    ensures m1 == m2
  {
    ChatTemplateEmbeds(m1);
    ChatTemplateEmbeds(m2);
  }

  /** The text of one training example: the system block, the user turn with the prompt and the
      closed assistant turn with the completion. */
  function TrainingText(prompt: string, completion: string): string {
    TrainSystem + UserOpen + prompt + TurnEnd + "\n" + AssistantOpen + completion + TurnEnd
  }

  /** Offset of the completion in a training text. */
  function CompletionStart(prompt: string): nat {
    |TrainSystem| + |UserOpen| + |prompt| + |TurnEnd| + 1 + |AssistantOpen|
  }

  /** The blocks come in the order system, user, assistant; the prompt and the completion
      appear verbatim; the text ends with the end-of-turn marker. */
  lemma TrainingTextLayout(prompt: string, completion: string)
    ensures |TrainingText(prompt, completion)| == CompletionStart(prompt) + |completion| + |TurnEnd|
    ensures Text.StartsWith(TrainingText(prompt, completion), TrainSystem + UserOpen)
    ensures TrainingText(prompt, completion)[|TrainSystem| + |UserOpen|..|TrainSystem| + |UserOpen| + |prompt|]
              == prompt
    ensures TrainingText(prompt, completion)[CompletionStart(prompt)..CompletionStart(prompt) + |completion|]
              == completion
    ensures TrainingText(prompt, completion)[CompletionStart(prompt) + |completion|..] == TurnEnd
  {
    var head := TrainSystem + UserOpen;
    var middle := TurnEnd + "\n" + AssistantOpen;
    var t := TrainingText(prompt, completion);
    assert t == head + prompt + middle + completion + TurnEnd;
    assert |head + prompt + middle| == CompletionStart(prompt);
    assert t[..|head|] == head;
    assert t[|head|..|head| + |prompt|] == prompt;
    assert t[CompletionStart(prompt)..CompletionStart(prompt) + |completion|] == completion;
    assert t[CompletionStart(prompt) + |completion|..] == TurnEnd;
  }

  /** A line of the JSONL file: its string fields. */
  type Record = map<string, string>

  /** A row of the loaded dataset: a value for every column of the file, None where the line
      lacks that field. */
  type Row = map<string, Option<string>>

  /** The dataset's columns: every field that some line of the file has. */
  function Columns(records: seq<Record>): (cols: set<string>)
    ensures forall k :: k in cols <==> exists i :: 0 <= i < |records| && k in records[i]
  {
    if records == [] then {}
    else
      var rest := Columns(records[1..]);
      assert forall i :: 1 <= i < |records| ==> records[i] == records[1..][i - 1];
      assert forall k :: k in rest ==> exists i :: 0 <= i < |records| && k in records[i] by {
        forall k | k in rest ensures exists i :: 0 <= i < |records| && k in records[i] {
          var j :| 0 <= j < |records| - 1 && k in records[1..][j];
          assert k in records[j + 1];
        }
      }
      records[0].Keys + rest
  }

  /** `load_dataset("json", ...)`: one row per line over the union of the lines' fields, the
      fields a line lacks filled with None. */
  function LoadRows(records: seq<Record>): (rows: seq<Row>)
    ensures |rows| == |records|
    ensures forall i :: 0 <= i < |records| ==> rows[i].Keys == Columns(records)
    ensures forall i, k :: 0 <= i < |records| && k in records[i] ==> k in rows[i] && rows[i][k] == Some(records[i][k])
    ensures forall i, k :: 0 <= i < |records| && k in Columns(records) && k !in records[i] ==> rows[i][k] == None
  {
    var cols := Columns(records);
    seq(|records|, i requires 0 <= i < |records| =>
      map k | k in cols :: if k in records[i] then Some(records[i][k]) else None)
  }

  /** A field as the f-string renders it: the text itself, or "None". */
  function FieldText(v: Option<string>): string {
    if v.Some? then v.value else "None"
  }

  /** `_format`: reads "prompt" then "completion" (a column the dataset does not have raises
      `KeyError`) and returns a record whose only field is "text". */
  function Format(ex: Row): (r: Result<Record, Exc>)
    ensures "prompt" !in ex ==> r == Err(KeyError("prompt"))
    ensures "prompt" in ex && "completion" !in ex ==> r == Err(KeyError("completion"))
    ensures "prompt" in ex && "completion" in ex ==>
              r.Ok? && r.value.Keys == {"text"}
              && r.value["text"] == TrainingText(FieldText(ex["prompt"]), FieldText(ex["completion"]))
  {
    if "prompt" !in ex then Err(KeyError("prompt"))
    else if "completion" !in ex then Err(KeyError("completion"))
    else Ok(map["text" := TrainingText(FieldText(ex["prompt"]), FieldText(ex["completion"]))])
  }

  /** Both fields are columns of the dataset: some line has "prompt" and some line has
      "completion". */
  predicate Formattable(records: seq<Record>) {
    "prompt" in Columns(records) && "completion" in Columns(records)
  }

  /** The text a line's field is trained on: its value, or "None" when the line lacks it. */
  function FieldOf(r: Record, k: string): string {
    if k in r then r[k] else "None"
  }

  /** `f` applied to every element in order, stopping at the first error as a `map` over a
      dataset does. */
  function MapAll<A, B(==), E(==)>(xs: seq<A>, f: A -> Result<B, E>): (r: Result<seq<B>, E>)
    ensures r.Ok? <==> forall i :: 0 <= i < |xs| ==> f(xs[i]).Ok?
    ensures r.Ok? ==> |r.value| == |xs| && forall i :: 0 <= i < |xs| ==> f(xs[i]) == Ok(r.value[i])
    ensures r.Err? ==> exists i :: 0 <= i < |xs| && f(xs[i]) == Err(r.error)
                                  && forall j :: 0 <= j < i ==> f(xs[j]).Ok?
  {
    if xs == [] then Ok([])
    else match f(xs[0])
      case Err(e) => Err(e)
      case Ok(first) =>
        var rest := MapAll(xs[1..], f);
        assert forall i :: 1 <= i < |xs| ==> xs[i] == xs[1..][i - 1];
        if rest.Err? then
          var k :| 0 <= k < |xs| - 1 && f(xs[1..][k]) == Err(rest.error)
                   && forall j :: 0 <= j < k ==> f(xs[1..][j]).Ok?;
          assert f(xs[k + 1]) == Err(rest.error);
          Err(rest.error)
        else Ok([first] + rest.value)
  }

  /** `ds.map(_format, remove_columns=...)` over the loaded rows. */
  function PrepareDataset(records: seq<Record>): Result<seq<Record>, Exc> {
    MapAll(LoadRows(records), Format)
  }

  /** The dataset is prepared iff it is empty or both fields are columns; then it holds one
      record per line, in order, each with the single field "text" holding that line's
      training text, a missing field read as "None". Otherwise the error is the `KeyError`
      of the first absent column. */
  lemma PreparedRecords(records: seq<Record>)
    ensures PrepareDataset(records).Ok? <==> records == [] || Formattable(records)
    ensures PrepareDataset(records).Ok? ==>
              var out := PrepareDataset(records).value;
              |out| == |records|
              && forall i :: 0 <= i < |records| ==>
                   out[i].Keys == {"text"}
                   && out[i]["text"] == TrainingText(FieldOf(records[i], "prompt"), FieldOf(records[i], "completion"))
    ensures PrepareDataset(records).Err? ==>
              PrepareDataset(records).error
              == KeyError(if "prompt" in Columns(records) then "completion" else "prompt")
  {
    var rows := LoadRows(records);
    if records != [] && !Formattable(records) {
      assert Format(rows[0]).Err?;
    } else {
      PreparedOk(records);
    }
  }

  /** The loaded row of a line formats into that line's training text. */
  lemma FormatLoaded(records: seq<Record>, i: int)
    requires 0 <= i < |records| && Formattable(records)
    ensures Format(LoadRows(records)[i])
            == Ok(map["text" := TrainingText(FieldOf(records[i], "prompt"), FieldOf(records[i], "completion"))])
  {
    var row := LoadRows(records)[i];
    assert row.Keys == Columns(records);
    FieldLoaded(records, i, "prompt");
    FieldLoaded(records, i, "completion");
  }

  /** A column's loaded value renders as the line's field, or "None". */
  lemma FieldLoaded(records: seq<Record>, i: int, k: string)
    requires 0 <= i < |records| && k in Columns(records)
    ensures k in LoadRows(records)[i] && FieldText(LoadRows(records)[i][k]) == FieldOf(records[i], k)
  {
    var rows := LoadRows(records);
    if k in records[i] {
      assert rows[i][k] == Some(records[i][k]);
    } else {
      assert rows[i][k] == None;
    }
  }

  lemma PreparedOk(records: seq<Record>)
    requires records == [] || Formattable(records)
    ensures PrepareDataset(records).Ok?
    ensures var out := PrepareDataset(records).value;
            |out| == |records|
            && forall i :: 0 <= i < |records| ==>
                 out[i].Keys == {"text"}
                 && out[i]["text"] == TrainingText(FieldOf(records[i], "prompt"), FieldOf(records[i], "completion"))
  {
    var rows := LoadRows(records);
    assert PrepareDataset(records).Ok? by {
      forall i | 0 <= i < |rows| ensures Format(rows[i]).Ok? {
        FormatLoaded(records, i);
      }
    }
    var out := PrepareDataset(records).value;
    forall i | 0 <= i < |records|
      ensures out[i].Keys == {"text"}
      ensures out[i]["text"] == TrainingText(FieldOf(records[i], "prompt"), FieldOf(records[i], "completion"))
    {
      assert Format(rows[i]) == Ok(out[i]);
      FormatLoaded(records, i);
    }
  }

  /** A line lacking "completion" next to one that has it is not an error: it is trained on
      the text "None". */
  lemma MissingFieldReadsAsNone(complete: Record, partial: Record)
    requires "prompt" in complete && "completion" in complete
    requires "prompt" in partial && "completion" !in partial
    ensures var r := PrepareDataset([complete, partial]);
            r.Ok? && r.value[1]["text"] == TrainingText(partial["prompt"], "None")
  {
    var records := [complete, partial];
    assert Formattable(records) by {
      assert "prompt" in records[0] && "completion" in records[0];
    }
    PreparedOk(records);
    assert FieldOf(records[1], "prompt") == partial["prompt"];
    assert FieldOf(records[1], "completion") == "None";
  }

  /** The checkpoint `train` resumes from: `new_model_dir/checkpoint-100` whenever a resume is
      requested (any non-empty value), nothing otherwise. */
  function ResumeFrom(newModelDir: string, resume: Option<string>): (r: Option<string>)
    ensures r.Some? <==> resume.Some? && resume.value != ""
  {
    if resume.Some? && resume.value != "" then Some(Files.PathJoin(newModelDir, ResumeCheckpoint))
    else None
  }

  /** The value passed as `resume_from_checkpoint` does not matter, only whether it is set. */
  lemma ResumeIgnoresValue(newModelDir: string, a: string, b: string)
    requires a != "" && b != ""
    ensures ResumeFrom(newModelDir, Some(a)) == ResumeFrom(newModelDir, Some(b))
    ensures ResumeFrom(newModelDir, Some(a)).value[..|newModelDir|] == newModelDir
    ensures Text.AfterLast(ResumeFrom(newModelDir, Some(a)).value, "/") == ResumeCheckpoint
  {
    var p := ResumeFrom(newModelDir, Some(a)).value;
    assert p == newModelDir + ['/'] + ResumeCheckpoint;
    assert '/' !in ResumeCheckpoint;
    Text.AfterLastChar(newModelDir, '/', ResumeCheckpoint);
  }

  /** The dictionary `train` returns. */
  function TrainResult(localPath: string, pushToHub: Option<string>): (r: map<string, string>)
    ensures r.Keys == {"status", "local_path", "hf_repo"}
    ensures r["status"] == Completed && r["local_path"] == localPath
    ensures r["hf_repo"] == pushToHub.GetOr("")
  {
    map["status" := Completed, "local_path" := localPath, "hf_repo" := pushToHub.GetOr("")]
  }

  /** What a successful `train` did: the dataset it trained on, the checkpoint it resumed from
      and the result it returned. */
  datatype TrainRun = TrainRun(dataset: seq<Record>, resumedFrom: Option<string>,
                               result: map<string, string>)

  /** `train`. `loadFailure` is an exception raised while loading the base model or adding the
      adapters, `trainFailure` one raised by the trainer; `localPath` is the resolved output
      directory. */
  function Train(newModelDir: string, records: seq<Record>, resume: Option<string>,
                 pushToHub: Option<string>, localPath: string,
                 loadFailure: Option<Exc>, trainFailure: Option<Exc>): (r: Result<TrainRun, Exc>)
    ensures loadFailure.Some? ==> r == Err(loadFailure.value)
    ensures loadFailure.None? && PrepareDataset(records).Err? ==> r == Err(PrepareDataset(records).error)
    ensures r.Ok? ==> loadFailure.None? && trainFailure.None?
    ensures r.Ok? ==> r.value.dataset == PrepareDataset(records).value
                      && r.value.resumedFrom == ResumeFrom(newModelDir, resume)
                      && r.value.result == TrainResult(localPath, pushToHub)
  {
    if loadFailure.Some? then Err(loadFailure.value)
    else match PrepareDataset(records)
      case Err(e) => Err(e)
      case Ok(dataset) =>
        if trainFailure.Some? then Err(trainFailure.value)
        else Ok(TrainRun(dataset, ResumeFrom(newModelDir, resume), TrainResult(localPath, pushToHub)))
  }

  const MissingFields := "El JSONL debe contener claves 'prompt' y 'completion'"
  const TrainingFailed := "Ocurrió un error durante el entrenamiento"

  /** How the training endpoint reports an exception from `train`: a `KeyError` is the client's
      fault (400), anything else a server error (500). */
  function TrainHttpError(e: Exc): (r: Exc)
    ensures r.HttpException? && r.headers == []
    ensures e.KeyError? <==> r.status == 400
    ensures !e.KeyError? <==> r.status == InternalServerError
  {
    if e.KeyError? then Http(400, MissingFields) else Http(InternalServerError, TrainingFailed)
  }

  /** The endpoint passes the model directory itself as `resume_from_checkpoint`, so every run
      it starts resumes from `checkpoint-100`; a non-empty dataset in which no line has
      "prompt", or none has "completion", is answered with 400. */
  lemma EndpointRun(newModelDir: string, records: seq<Record>, pushToHub: Option<string>,
                    localPath: string, trainFailure: Option<Exc>)
    requires newModelDir != ""
    ensures var r := Train(newModelDir, records, Some(newModelDir), pushToHub, localPath, None, trainFailure);
            r.Ok? ==> r.value.resumedFrom == Some(Files.PathJoin(newModelDir, ResumeCheckpoint))
    ensures records != [] && !Formattable(records) ==>
              var r := Train(newModelDir, records, Some(newModelDir), pushToHub, localPath, None, trainFailure);
              r.Err? && TrainHttpError(r.error).status == 400
  {
    PreparedRecords(records);
  }
}

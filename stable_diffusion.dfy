/** The image service: text-to-image generation into a file named after the prompt, and the
    preparation and launch of a LoRA fine-tuning run over an unpacked dataset. */
module StableDiffusion {
  import opened Wrappers
  import opened Errors
  import opened Text
  import opened Files
  import opened Ordering
  import Json

  const DefaultModelId := "runwayml/stable-diffusion-v1-5"
  const DefaultOutputDir := "generated_images"
  const ImageExtensions: set<string> := {".jpg", ".jpeg", ".png", ".webp"}
  const ScriptPath := "diffusers/examples/text_to_image/train_text_to_image_lora.py"

  /** A loaded diffusion pipeline, left opaque. */
  datatype Pipeline = Pipeline(modelId: string)

  /** The arguments one call of the pipeline received; `generator` is the manual seed. */
  datatype PipelineCall = PipelineCall(
    prompt: string, negativePrompt: Option<string>, guidanceScale: real, steps: int,
    height: int, width: int, generator: Option<int>)

  // ---------------------------------------------------------------------------
  // Output file name

  /** `prompt[:50]`. */
  function Opening(prompt: string): (o: string)
    ensures |o| <= 50
  {
    if |prompt| <= 50 then prompt else prompt[..50]
  }

  /** The opening stripped, lower-cased, with blanks, slashes and backslashes turned into
      underscores. */
  function Sanitized(opening: string): (name: string)
    ensures |name| <= |opening|
    ensures ' ' !in name && '/' !in name && '\\' !in name
    ensures forall k :: 0 <= k < |name| ==> !('A' <= name[k] <= 'Z')
  {
    var lowered := Lower(PyStrip(opening));
    ReplaceChar(ReplaceChar(ReplaceChar(lowered, ' ', '_'), '/', '_'), '\\', '_')
  }

  /** The safe file name of a prompt: at most 50 characters, no blank, no path separator,
      no upper-case ASCII letter. */
  function SafeName(prompt: string): (name: string)
    ensures |name| <= 50
    ensures ' ' !in name && '/' !in name && '\\' !in name
    ensures forall k :: 0 <= k < |name| ==> !('A' <= name[k] <= 'Z')
  {
    Sanitized(Opening(prompt))
  }

  /** `output_dir / f"{safe_name}.png"`. */
  function OutputPath(outputDir: string, prompt: string): string {
    PathJoin(outputDir, SafeName(prompt) + ".png")
  }

  /** The image always lands directly inside the output directory, as a ".png" file. */
  lemma OutputStaysInDir(outputDir: string, prompt: string)
    ensures exists name ::
      && OutputPath(outputDir, prompt) == outputDir + "/" + name + ".png"
      && '/' !in name && |name| <= 50
  {
    var name := SafeName(prompt);
    assert OutputPath(outputDir, prompt) == outputDir + "/" + name + ".png";
  }

  lemma FileNamesInjective(dir: string, n1: string, n2: string, ext: string)
    requires PathJoin(dir, n1 + ext) == PathJoin(dir, n2 + ext)
    ensures n1 == n2
  {
    var p1, p2 := PathJoin(dir, n1 + ext), PathJoin(dir, n2 + ext);
    assert |n1| == |n2|;
    assert n1 == p1[|dir| + 1..|dir| + 1 + |n1|];
    assert n2 == p2[|dir| + 1..|dir| + 1 + |n2|];
  }

  /** Two prompts share an output file exactly when their safe names agree. */
  lemma SamePathIffSameName(outputDir: string, p1: string, p2: string)
    ensures OutputPath(outputDir, p1) == OutputPath(outputDir, p2) <==> SafeName(p1) == SafeName(p2)
  {
    if OutputPath(outputDir, p1) == OutputPath(outputDir, p2) {
      FileNamesInjective(outputDir, SafeName(p1), SafeName(p2), ".png");
    }
  }

  /** Prompts that agree on their first 50 characters write the same file, so a repeat
      overwrites the earlier image. */
  lemma SameOpeningSamePath(outputDir: string, p1: string, p2: string)
    requires |p1| >= 50 && |p2| >= 50 && p1[..50] == p2[..50]
    ensures OutputPath(outputDir, p1) == OutputPath(outputDir, p2)
  {
    assert Opening(p1) == p1[..50] && Opening(p2) == p2[..50];
  }

  /** `os.path.splitext(path)[1]`, by which PIL picks the format to save in: from the last
      dot of the last path component on, unless nothing but dots precedes that dot in the
      component. */
  function SplitExt(path: string): (ext: string)
    ensures ext != "" ==> ext[0] == '.' && '/' !in ext && '.' !in ext[1..]
  {
    match LastIndex(path, '.')
    case None => ""
    case Some(i) =>
      var start := match LastIndex(path, '/') case Some(j) => j + 1 case None => 0;
      if start <= i && exists k :: start <= k < i && path[k] != '.' then path[i..] else ""
  }

  /** Extensions PIL's registry maps to a save format (those that can arise here). */
  const SaveExtensions: set<string> := {".bmp", ".gif", ".jpeg", ".jpg", ".png", ".tif", ".tiff", ".webp"}

  /** `Image.save` finds a format for the path; otherwise it raises ValueError before it
      opens the file. */
  predicate SaveFormatKnown(path: string) {
    Lower(SplitExt(path)) in SaveExtensions
  }

  /** Every character is a dot (true of the empty name). */
  predicate AllDots(name: string) {
    forall k :: 0 <= k < |name| ==> name[k] == '.'
  }

  /** The last `c` is the one after which no `c` follows. */
  lemma {:induction false} LastIndexAt(s: string, c: char, i: nat)
    requires i < |s| && s[i] == c
    requires forall k :: i < k < |s| ==> s[k] != c
    ensures LastIndex(s, c) == Some(i)
  {
    if i < |s| - 1 {
      LastIndexAt(s[..|s| - 1], c, i);
    }
  }

  lemma SplitExtOfPng(dir: string, name: string)
    requires '/' !in name
    ensures SplitExt(dir + "/" + name + ".png") == if AllDots(name) then "" else ".png"
  {
    var path := dir + "/" + name + ".png";
    var i := |dir| + 1 + |name|;
    assert path[i..] == ".png";
    LastIndexAt(path, '.', i);
    assert forall k :: |dir| < k < |path| ==> path[k] != '/';
    LastIndexAt(path, '/', |dir|);
    assert forall k :: 0 <= k < |name| ==> path[|dir| + 1 + k] == name[k];
    if !AllDots(name) {
      var k :| 0 <= k < |name| && name[k] != '.';
      assert path[|dir| + 1 + k] != '.';
    }
  }

  lemma SaveFormatOfPng(dir: string, name: string)
    requires '/' !in name
    ensures SaveFormatKnown(dir + "/" + name + ".png") <==> !AllDots(name)
  {
    SplitExtOfPng(dir, name);
    if !AllDots(name) {
      LowerPng();
    }
  }

  /** The image of a prompt can be saved exactly when its safe name holds a character other
      than a dot: an empty or all-dots name leaves ".png" without an extension. */
  lemma SaveFormatKnownIff(outputDir: string, prompt: string)
    ensures SaveFormatKnown(OutputPath(outputDir, prompt)) <==> !AllDots(SafeName(prompt))
  {
    var name := SafeName(prompt);
    assert OutputPath(outputDir, prompt) == outputDir + "/" + name + ".png";
    SaveFormatOfPng(outputDir, name);
  }

  lemma LowerPng()
    ensures Lower(".png") == ".png"
  {
    var png := Lower(".png");
    assert png[0] == '.' && png[1] == 'p' && png[2] == 'n' && png[3] == 'g';
  }

  /** A blank prompt has an empty safe name, so its image cannot be saved. */
  lemma BlankPromptNotSaved(outputDir: string, prompt: string)
    requires forall k :: 0 <= k < |prompt| ==> prompt[k] in PyWhitespace
    ensures !SaveFormatKnown(OutputPath(outputDir, prompt))
  {
    var o := Opening(prompt);
    assert forall k :: 0 <= k < |o| ==> o[k] == prompt[k];
    TrimEmptyIff(o, PyWhitespace);
    assert SafeName(prompt) == "";
    SaveFormatKnownIff(outputDir, prompt);
  }

  /** So does a prompt made of dots, whose safe name is dots too. */
  lemma DotsPromptNotSaved(outputDir: string, prompt: string)
    requires AllDots(prompt)
    ensures !SaveFormatKnown(OutputPath(outputDir, prompt))
  {
    var o := Opening(prompt);
    assert forall k :: 0 <= k < |o| ==> o[k] == prompt[k];
    var stripped := PyStrip(o);
    assert forall k :: 0 <= k < |stripped| ==> stripped[k] in o;
    var lowered := Lower(stripped);
    assert AllDots(lowered);
    assert AllDots(SafeName(prompt));
    SaveFormatKnownIff(outputDir, prompt);
  }

  // ---------------------------------------------------------------------------
  // Dataset scan

  /** Position of the last `c` in `s` (`str.rfind`, with None for -1). */
  function LastIndex(s: string, c: char): (r: Option<nat>)
    ensures r.Some? ==> r.value < |s| && s[r.value] == c
    ensures r.Some? ==> forall k :: r.value < k < |s| ==> s[k] != c
    ensures r.None? ==> c !in s
  {
    if s == [] then None
    else if s[|s| - 1] == c then Some(|s| - 1)
    else LastIndex(s[..|s| - 1], c)
  }

  /** `Path(name).suffix`: from the last dot on, unless that dot starts or ends the name. */
  function Suffix(name: string): (s: string)
    ensures s != "" ==> s[0] == '.' && '.' !in s[1..] && |s| >= 2 && |s| < |name|
  {
    match LastIndex(name, '.')
    case Some(i) => if 0 < i < |name| - 1 then name[i..] else ""
    case None => ""
  }

  predicate IsImageName(name: string) {
    Lower(Suffix(name)) in ImageExtensions
  }

  /** A hidden file such as ".png" has no suffix, so it is never taken as an image. */
  lemma HiddenNameIsNoImage(rest: string)
    requires '.' !in rest
    ensures !IsImageName("." + rest)
  {
    var name := "." + rest;
    assert forall k :: 1 <= k < |name| ==> name[k] == rest[k - 1];
    assert LastIndex(name, '.') == Some(0);
  }

  /** `img_path.with_suffix(".txt").name`: the suffix replaced, or ".txt" appended. */
  function TextName(name: string): (t: string)
    ensures |t| >= 4 && t[|t| - 1] == 't'
  {
    var stem := if Suffix(name) == "" then name else name[..LastIndex(name, '.').value];
    stem + ".txt"
  }

  /** The caption file of an image, read and stripped; a missing one raises. */
  function Caption(trainDir: string, name: string, files: map<string, FileContent>): Result<string, Exc> {
    var textPath := PathJoin(trainDir, TextName(name));
    if textPath !in files then Err(FileNotFoundError("Falta .txt para " + name))
    else match TextOf(files[textPath])
      case Ok(t) => Ok(PyStrip(t))
      case Err(e) => Err(e)
  }

  /** The caption of every image, in order. */
  function Captions(trainDir: string, images: seq<string>, files: map<string, FileContent>): (rs: seq<Result<string, Exc>>)
    ensures |rs| == |images|
  {
    if images == [] then [] else [Caption(trainDir, images[0], files)] + Captions(trainDir, images[1..], files)
  }

  lemma {:induction false} CaptionsAt(trainDir: string, images: seq<string>, files: map<string, FileContent>, k: nat)
    requires k < |images|
    ensures Captions(trainDir, images, files)[k] == Caption(trainDir, images[k], files)
    decreases k
  {
    if k > 0 {
      CaptionsAt(trainDir, images[1..], files, k - 1);
    }
  }

  function MetadataPath(trainDir: string): string {
    PathJoin(trainDir, "metadata.jsonl")
  }

  /** The loop body's read: `text_path.exists()`, then `read_text().strip()`. */
  method ReadCaption(fs: FileSystem, trainDir: string, name: string) returns (caption: Result<string, Exc>)
    ensures caption == Caption(trainDir, name, fs.files)
  {
    var textPath := PathJoin(trainDir, TextName(name));
    var present := fs.Exists(textPath);
    if !present {
      return Err(FileNotFoundError("Falta .txt para " + name));
    }
    var text := fs.ReadText(textPath);
    if text.Err? {
      return Err(text.error);
    }
    caption := Ok(PyStrip(text.value));
  }

  /** A caption file is never the metadata file, so writing the latter cannot change a caption. */
  lemma CaptionIgnoresMetadata(trainDir: string, name: string, files: map<string, FileContent>, content: FileContent)
    ensures Caption(trainDir, name, files[MetadataPath(trainDir) := content]) == Caption(trainDir, name, files)
  {
    var textPath := PathJoin(trainDir, TextName(name));
    var m := MetadataPath(trainDir);
    assert textPath[|textPath| - 1] == 't';
    assert m[|m| - 1] == 'l';
  }

  /** The `k`-th read, made while metadata.jsonl is open, yields the `k`-th caption. */
  lemma CaptionBeside(trainDir: string, images: seq<string>, files: map<string, FileContent>,
                      content: FileContent, k: nat)
    requires k < |images|
    ensures Caption(trainDir, images[k], files[MetadataPath(trainDir) := content])
            == Captions(trainDir, images, files)[k]
  {
    CaptionIgnoresMetadata(trainDir, images[k], files, content);
    CaptionsAt(trainDir, images, files, k);
  }

  /** One record of metadata.jsonl: `json.dumps({"file_name": name, "text": caption})`,
      each string written as its JSON literal. */
  function MetadataRecord(name: string, caption: string): string {
    "{\"file_name\": \"" + Json.Escape(name) + "\", \"text\": \"" + Json.Escape(caption) + "\"}"
  }

  /** The record and the line break written after it. */
  function MetadataLine(name: string, caption: string): string {
    MetadataRecord(name, caption) + "\n"
  }

  /** A record holds no line break, so each record is exactly one line of the file. */
  lemma RecordIsOneLine(name: string, caption: string)
    ensures '\n' !in MetadataRecord(name, caption)
  {
    var a, b := Json.Escape(name), Json.Escape(caption);
    assert '\n' !in a;
    assert '\n' !in b;
  }

  /** The two fields of a record read back as the image's name and its caption. */
  lemma MetadataLineFields(name: string, caption: string)
    ensures exists e1, e2 ::
      && MetadataLine(name, caption) == "{\"file_name\": \"" + e1 + "\", \"text\": \"" + e2 + "\"}\n"
      && Json.Unescape(e1) == Some(name) && Json.Unescape(e2) == Some(caption)
  {
    Json.UnescapeEscape(name);
    Json.UnescapeEscape(caption);
  }

  /** The first `n` reads all succeeded. */
  ghost predicate OkBefore<T>(rs: seq<Result<T, Exc>>, n: nat)
    requires n <= |rs|
  {
    forall j :: 0 <= j < n ==> rs[j].Ok?
  }

  /** The contents of metadata.jsonl after the first `n` images: one record each, in order. */
  function Metadata(images: seq<string>, captions: seq<Result<string, Exc>>, n: nat): string
    requires n <= |images| == |captions| && OkBefore(captions, n)
  {
    if n == 0 then ""
    else Metadata(images, captions, n - 1) + MetadataLine(images[n - 1], captions[n - 1].value)
  }

  /** One more successful read appends that image's record. */
  lemma MetadataStep(images: seq<string>, captions: seq<Result<string, Exc>>, n: nat)
    requires n < |images| == |captions| && OkBefore(captions, n) && captions[n].Ok?
    ensures OkBefore(captions, n + 1)
    ensures Metadata(images, captions, n + 1)
            == Metadata(images, captions, n) + MetadataLine(images[n], captions[n].value)
  {
  }

  /** Writing a file twice leaves only the second write. */
  lemma Overwrite<K, V>(m: map<K, V>, key: K, a: V, b: V)
    ensures m[key := a][key := b] == m[key := b]
  {
  }

  /** The first failed read at or after position `i`. */
  function FirstErrFrom<T>(rs: seq<Result<T, Exc>>, i: nat): (r: Option<nat>)
    requires i <= |rs|
    ensures r.Some? ==> i <= r.value < |rs| && rs[r.value].Err?
    ensures r.Some? ==> forall j :: i <= j < r.value ==> rs[j].Ok?
    ensures r.None? ==> forall j :: i <= j < |rs| ==> rs[j].Ok?
    decreases |rs| - i
  {
    if i == |rs| then None
    else if rs[i].Err? then Some(i)
    else FirstErrFrom(rs, i + 1)
  }

  /** The first failed read. */
  function FirstErr<T>(rs: seq<Result<T, Exc>>): (r: Option<nat>)
    ensures r.Some? ==> r.value < |rs| && rs[r.value].Err? && OkBefore(rs, r.value)
    ensures r.None? ==> OkBefore(rs, |rs|)
  {
    FirstErrFrom(rs, 0)
  }

  /** A scan that reads every caption before `k` and fails at `k` stops at the first failure. */
  lemma {:induction false} FirstErrFromAt<T>(rs: seq<Result<T, Exc>>, i: nat, k: nat)
    requires i <= k < |rs| && rs[k].Err?
    requires forall j :: i <= j < k ==> rs[j].Ok?
    ensures FirstErrFrom(rs, i) == Some(k)
    decreases k - i
  {
    if i < k {
      FirstErrFromAt(rs, i + 1, k);
    }
  }

  /** The file holds one line per image: its lines are the records, in order. */
  lemma {:induction false} MetadataLines(images: seq<string>, captions: seq<Result<string, Exc>>, n: nat)
    requires n <= |images| == |captions| && OkBefore(captions, n)
    ensures |Split(Metadata(images, captions, n), "\n")| == n + 1
    ensures Last(Split(Metadata(images, captions, n), "\n")) == ""
    decreases n
  {
    if n == 0 {
      assert Metadata(images, captions, 0) == "";
      assert Split("", "\n") == [""];
    } else {
      MetadataLines(images, captions, n - 1);
      AppendRecordLine(Metadata(images, captions, n - 1), images[n - 1], captions[n - 1].value);
    }
  }

  /** Appending one record line to text whose last piece is empty adds one piece. */
  lemma AppendRecordLine(prev: string, name: string, caption: string)
    requires Last(Split(prev, "\n")) == ""
    ensures |Split(prev + MetadataLine(name, caption), "\n")| == |Split(prev, "\n")| + 1
    ensures Last(Split(prev + MetadataLine(name, caption), "\n")) == ""
  {
    var body := MetadataRecord(name, caption);
    assert prev + MetadataLine(name, caption) == prev + body + "\n";
    RecordIsOneLine(name, caption);
    SplitAppendLine(prev, body);
  }

  /** Appending a line to text that ends with a line break (or is empty) adds one piece. */
  lemma {:induction false} SplitAppendLine(before: string, body: string)
    requires '\n' !in body
    requires Last(Split(before, "\n")) == ""
    ensures |Split(before + body + "\n", "\n")| == |Split(before, "\n")| + 1
    ensures Last(Split(before + body + "\n", "\n")) == ""
    decreases |before|
  {
    var s := before + body + "\n";
    if |before| == 0 {
      assert s == body + "\n";
      SplitLine(body);
    } else if before[..1] == "\n" {
      assert s[..1] == "\n";
      assert s[1..] == before[1..] + body + "\n";
      assert Split(before, "\n") == [""] + Split(before[1..], "\n");
      SplitAppendLine(before[1..], body);
    } else {
      assert s[..1] != "\n" by { assert s[0] == before[0]; }
      assert s[1..] == before[1..] + body + "\n";
      var rest := Split(before[1..], "\n");
      assert Split(before, "\n") == [[before[0]] + rest[0]] + rest[1..];
      SplitAppendLine(before[1..], body);
    }
  }

  /** A single line and its break split into the line and an empty piece. */
  lemma {:induction false} SplitLine(body: string)
    requires '\n' !in body
    ensures Split(body + "\n", "\n") == [body, ""]
    decreases |body|
  {
    var s := body + "\n";
    if body == [] {
      assert s[..1] == "\n";
      assert s[1..] == "";
    } else {
      assert s[..1] != "\n" by { assert s[0] == body[0]; }
      assert s[1..] == body[1..] + "\n";
      SplitLine(body[1..]);
      assert [body[0]] + body[1..] == body;
    }
  }

  // ---------------------------------------------------------------------------
  // Training command

  /** The keyword arguments of `train_lora`; `learningRate` is the float's `str`. */
  datatype LoraSettings = LoraSettings(
    outputDir: string, resolution: int, learningRate: string, rank: int, batchSize: int,
    epochs: int, gradAccum: int, saveSteps: int, repoId: Option<string>)

  const DefaultLoraSettings := LoraSettings("sd_lora_trained", 64, "0.0001", 2, 1, 1, 1, 100, None)

  /** What the training subprocess did: its exit code and captured output. */
  datatype Completed = Completed(returncode: int, stdout: string, stderr: string)

  /** The dictionary `train_lora` returns. */
  datatype TrainResult = TrainResult(status: string, loraPath: string, hfRepo: string)

  /** `if repo_id:` — None and "" are both false. */
  predicate Truthy(repoId: Option<string>) {
    repoId.Some? && repoId.value != ""
  }

  function BaseCommand(modelId: string, trainDir: string, s: LoraSettings): seq<string> {
    [ "accelerate", "launch", ScriptPath,
      "--pretrained_model_name_or_path", modelId,
      "--train_data_dir", trainDir,
      "--image_column", "image",
      "--caption_column", "text",
      "--output_dir", s.outputDir,
      "--resolution", IntToString(s.resolution),
      "--learning_rate", s.learningRate,
      "--rank", IntToString(s.rank),
      "--train_batch_size", IntToString(s.batchSize),
      "--gradient_accumulation_steps", IntToString(s.gradAccum),
      "--num_train_epochs", IntToString(s.epochs),
      "--mixed_precision", "fp16",
      "--gradient_checkpointing",
      "--checkpointing_steps", IntToString(s.saveSteps),
      "--use_8bit_adam" ]
  }

  const PushFlags := ["--push_to_hub", "--hub_model_id"]

  /** The command that was launched: the base arguments, then the hub flags with the
      repository id exactly when a non-empty id was given. */
  ghost predicate LaunchedCommand(cmd: seq<string>, modelId: string, trainDir: string, s: LoraSettings) {
    var base := BaseCommand(modelId, trainDir, s);
    if Truthy(s.repoId) then cmd == base + PushFlags + [s.repoId.value] else cmd == base
  }

  /** The first argument after the fixed base is "--push_to_hub" exactly when the run pushes. */
  lemma PushIffRepo(cmd: seq<string>, modelId: string, trainDir: string, s: LoraSettings)
    requires LaunchedCommand(cmd, modelId, trainDir, s)
    ensures |cmd| > 31 <==> Truthy(s.repoId)
    ensures Truthy(s.repoId) ==> cmd[31] == "--push_to_hub" && cmd[|cmd| - 1] == s.repoId.value
    ensures cmd[..31] == BaseCommand(modelId, trainDir, s)
  {
  }

  function Vacio(out: string): string {
    if out == "" then "(vacío)" else out
  }

  /** The RuntimeError raised for a failed run; it carries the return code. */
  function LoraFailure(c: Completed): (e: Exc)
    ensures e.RuntimeError?
  {
    RuntimeError("LoRA falló con código " + IntToString(c.returncode) + ".\n"
                 + "=== STDOUT ===\n" + Vacio(c.stdout) + "\n\n"
                 + "=== STDERR ===\n" + Vacio(c.stderr))
  }

  const NoTrainDir := "El ZIP debe incluir la carpeta train/"
  const NoImages := "No se encontraron imágenes dentro de train/"
  const NoScript := "Falta el script train_text_to_image_lora.py en la raíz"

  // ---------------------------------------------------------------------------
  // The service object

  class StableDiffusionService {
    const modelId: string
    const outputDir: string
    const fs: FileSystem
    /** The pipeline attribute; None once `train_lora` has deleted it. */
    var pipe: Option<Pipeline>
    /** The calls made to the pipeline, in order. */
    var calls: seq<PipelineCall>
    /** The subprocess command lines launched, in order. */
    var commands: seq<seq<string>>

    constructor (modelId: string, outputDir: string, fs: FileSystem, pipe: Pipeline)
      ensures this.modelId == modelId && this.outputDir == outputDir && this.fs == fs
      ensures this.pipe == Some(pipe) && calls == [] && commands == []
    {
      this.modelId := modelId;
      this.outputDir := outputDir;
      this.fs := fs;
      this.pipe := Some(pipe);
      calls := [];
      commands := [];
    }

    /** `generate`: call the pipeline (seeding it only when a seed is given) and save the
        image under the prompt's safe name. `produced` is the pipeline's image or its error;
        a path PIL finds no format for is refused before the file is opened. */
    method Generate(prompt: string, negativePrompt: Option<string>, steps: int, guidanceScale: real,
                    height: int, width: int, seed: Option<int>, produced: Result<Image, Exc>)
      returns (r: Result<string, Exc>)
      modifies this, fs
      ensures pipe == old(pipe) && commands == old(commands) && fs.dirs == old(fs.dirs)
      ensures old(pipe).None? ==>
        r == Err(AttributeError("pipe")) && calls == old(calls) && fs.files == old(fs.files)
      ensures old(pipe).Some? ==>
        calls == old(calls) + [PipelineCall(prompt, negativePrompt, guidanceScale, steps, height, width, seed)]
      ensures old(pipe).Some? ==>
        var path := OutputPath(outputDir, prompt);
        match produced
        case Err(e) => r == Err(e) && fs.files == old(fs.files)
        case Ok(image) =>
          if SaveFormatKnown(path) then
            r == Ok(path) && fs.files == old(fs.files)[path := ImageFile(image)]
          else
            r == Err(ValueError("unknown file extension: " + Lower(SplitExt(path))))
            && fs.files == old(fs.files)
    {
      if pipe.None? {
        return Err(AttributeError("pipe"));
      }
      calls := calls + [PipelineCall(prompt, negativePrompt, guidanceScale, steps, height, width, seed)];
      match produced
      case Err(e) =>
        r := Err(e);
      case Ok(image) =>
        var path := OutputPath(outputDir, prompt);
        var ext := Lower(SplitExt(path));
        if ext !in SaveExtensions {
          return Err(ValueError("unknown file extension: " + ext));
        }
        fs.Write(path, ImageFile(image));
        r := Ok(path);
    }

    /** The `with` block of `train_lora`: open metadata.jsonl for writing and add one record
        per image, stopping at the first image whose caption cannot be read (its index is
        returned; the records before it stay written). */
    method WriteMetadata(trainDir: string, images: seq<string>) returns (failure: Option<nat>)
      modifies fs
      ensures fs.dirs == old(fs.dirs)
      ensures var rs := Captions(trainDir, images, old(fs.files));
        && failure == FirstErr(rs)
        && fs.files == old(fs.files)[MetadataPath(trainDir) :=
             TextFile(Metadata(images, rs, if failure.Some? then failure.value else |images|))]
    {
      ghost var files0 := fs.files;
      ghost var rs := Captions(trainDir, images, files0);
      var jsonlPath := MetadataPath(trainDir);
      var written := "";
      fs.Write(jsonlPath, TextFile(written));
      var k := 0;
      while k < |images|
        invariant 0 <= k <= |images|
        invariant OkBefore(rs, k)
        invariant written == Metadata(images, rs, k)
        invariant fs.files == files0[jsonlPath := TextFile(written)] && fs.dirs == old(fs.dirs)
        modifies fs
      {
        var caption := ReadCaption(fs, trainDir, images[k]);
        CaptionBeside(trainDir, images, files0, TextFile(written), k);
        if caption.Err? {
          FirstErrFromAt(rs, 0, k);
          return Some(k);
        }
        MetadataStep(images, rs, k);
        written := written + MetadataLine(images[k], caption.value);
        ghost var before := fs.files;
        fs.Write(jsonlPath, TextFile(written));
        Overwrite(files0, jsonlPath, before[jsonlPath], TextFile(written));
        k := k + 1;
      }
      failure := None;
    }

    /** The end of `train_lora`: check the script, delete the pipeline, build the command and
        run it. */
    method Launch(trainDir: string, s: LoraSettings, scriptExists: bool, run: Completed, resolvedOutput: string)
      returns (r: Result<TrainResult, Exc>)
      modifies this
      ensures calls == old(calls)
      ensures !scriptExists ==> r == Err(FileNotFoundError(NoScript)) && unchanged(this)
      ensures scriptExists && old(pipe).None? ==> r == Err(AttributeError("pipe")) && unchanged(this)
      ensures scriptExists && old(pipe).Some? ==>
        && pipe == None
        && |commands| == |old(commands)| + 1
        && commands[..|old(commands)|] == old(commands)
        && LaunchedCommand(commands[|old(commands)|], modelId, trainDir, s)
        && r == if run.returncode != 0 then Err(LoraFailure(run))
                else Ok(TrainResult("completed", resolvedOutput, s.repoId.GetOr("")))
    {
      if !scriptExists {
        return Err(FileNotFoundError(NoScript));
      }
      if pipe.None? {
        return Err(AttributeError("pipe"));
      }
      pipe := None;
      var cmd := BaseCommand(modelId, trainDir, s);
      if s.repoId.Some? && s.repoId.value != "" {
        cmd := cmd + PushFlags + [s.repoId.value];
      }
      commands := commands + [cmd];
      if run.returncode != 0 {
        return Err(LoraFailure(run));
      }
      r := Ok(TrainResult("completed", resolvedOutput, s.repoId.GetOr("")));
    }

    /** `train_lora`: check train/, select the images (`listing` is the directory's entries in
        iteration order), write metadata.jsonl, then launch the run (`run` is what the
        subprocess did). */
    method TrainLora(datasetRoot: string, listing: seq<string>, s: LoraSettings, scriptExists: bool,
                     run: Completed, resolvedOutput: string)
      returns (r: Result<TrainResult, Exc>)
      modifies this, fs
      ensures fs.dirs == old(fs.dirs) && calls == old(calls)
      ensures PathJoin(datasetRoot, "train") !in old(fs.dirs) ==>
        r == Err(FileNotFoundError(NoTrainDir)) && unchanged(this) && fs.files == old(fs.files)
      ensures PathJoin(datasetRoot, "train") in old(fs.dirs) && Filter(listing, IsImageName) == [] ==>
        r == Err(FileNotFoundError(NoImages)) && unchanged(this) && fs.files == old(fs.files)
      ensures var trainDir := PathJoin(datasetRoot, "train");
              var images := Filter(listing, IsImageName);
              var rs := Captions(trainDir, images, old(fs.files));
        trainDir in old(fs.dirs) && images != [] && FirstErr(rs).Some? ==>
          var k := FirstErr(rs).value;
          && r == Err(rs[k].error) && unchanged(this)
          && fs.files == old(fs.files)[MetadataPath(trainDir) := TextFile(Metadata(images, rs, k))]
      ensures var trainDir := PathJoin(datasetRoot, "train");
              var images := Filter(listing, IsImageName);
              var rs := Captions(trainDir, images, old(fs.files));
        trainDir in old(fs.dirs) && images != [] && FirstErr(rs).None? ==>
          && fs.files == old(fs.files)[MetadataPath(trainDir) := TextFile(Metadata(images, rs, |images|))]
          && (!scriptExists ==> r == Err(FileNotFoundError(NoScript)) && unchanged(this))
          && (scriptExists && old(pipe).None? ==> r == Err(AttributeError("pipe")) && unchanged(this))
          && (scriptExists && old(pipe).Some? ==>
                && pipe == None
                && |commands| == |old(commands)| + 1
                && commands[..|old(commands)|] == old(commands)
                && LaunchedCommand(commands[|old(commands)|], modelId, trainDir, s)
                && r == if run.returncode != 0 then Err(LoraFailure(run))
                        else Ok(TrainResult("completed", resolvedOutput, s.repoId.GetOr(""))))
    {
      var trainDir := PathJoin(datasetRoot, "train");
      if trainDir !in fs.dirs {
        return Err(FileNotFoundError(NoTrainDir));
      }
      var images := Filter(listing, IsImageName);
      if images == [] {
        return Err(FileNotFoundError(NoImages));
      }
      var files0 := fs.files;
      var failure := WriteMetadata(trainDir, images);
      if failure.Some? {
        CaptionsAt(trainDir, images, files0, failure.value);
        return Err(Caption(trainDir, images[failure.value], files0).error);
      }
      r := Launch(trainDir, s, scriptExists, run, resolvedOutput);
    }
  }

  /** `StableDiffusionService(...)`: create the output directory, then load the pipeline
      (`load` is what `from_pretrained` returned or raised). */
  method NewService(modelId: string, outputDir: string, fs: FileSystem, load: Result<Pipeline, Exc>)
    returns (r: Result<StableDiffusionService, Exc>)
    modifies fs
    ensures fs.dirs == old(fs.dirs) + {outputDir} && fs.files == old(fs.files)
    ensures load.Err? ==> r == Err(load.error)
    ensures load.Ok? ==>
      && r.Ok? && fresh(r.value)
      && r.value.modelId == modelId && r.value.outputDir == outputDir && r.value.fs == fs
      && r.value.pipe == Some(load.value) && r.value.calls == [] && r.value.commands == []
  {
    fs.MakeDirs(outputDir);
    match load
    case Err(e) =>
      r := Err(e);
    case Ok(p) =>
      var service := new StableDiffusionService(modelId, outputDir, fs, p);
      r := Ok(service);
  }
}

/** `CreateMessageCommandHandler`: store the client's message, answer it with the image
    service or the text model, and store the answer. The two backend handles are fields
    of the handler, created lazily and dropped when the other path is taken. */
module MessageHandler {
  import opened Wrappers
  import opened Errors
  import opened Entities
  import opened Files
  import BaseRepo
  import Repositories
  import Handlers
  import Uuids
  import LlamaInference
  import StableDiffusion

  const MessagesCreated := "Messages created successfully."
  const GenerationFailed := "Error al generar la imagen"
  const UploadFailed := "Error al subir la imagen a Cloudinary"
  const LlamaFailed := "Error al contactar con LLaMA"
  const ImageFolder := "chat_images"
  /** `random.randint(0, 2**32 - 1)` draws from [0, SeedBound). */
  const SeedBound := 0x1_0000_0000

  /** The request body: the chat's UUID as an integer, the text, and the image flag. */
  datatype CreateMessageModel = CreateMessageModel(chatId: nat, content: string, image: bool)

  datatype CreateMessageResponse = CreateMessageResponse(
    clientMessage: Message, systemMessage: Message, message: string)

  /** The keyword arguments of one `upload_image` call. */
  datatype UploadRequest = UploadRequest(
    path: string, folder: string, publicId: Option<string>, overwrite: bool, resourceType: string)

  /** What the outside world does during one request: the pipeline load, the generated image,
      the upload's secure URL, the text model load and the decoded generation — each a value
      or the exception the library raised. */
  datatype Backends = Backends(
    sdLoad: Result<StableDiffusion.Pipeline, Exc>,
    produced: Result<Image, Exc>,
    uploaded: Result<string, Exc>,
    llamaLoad: Result<(LlamaInference.ModelHandle, LlamaInference.TokenizerHandle), Exc>,
    decoded: Result<string, Exc>)

  /** The CLIENT message of a request; the database assigns `message_id` (`id`). */
  function ClientMessage(request: CreateMessageModel, id: nat, now: int): (m: Message)
    requires request.chatId < Uuids.Uuid128 && id < Uuids.Uuid128
    ensures m.kind == Client && m.chatId == Uuids.Canonical(request.chatId)
    ensures m.content == request.content && m.image == request.image && m.createdAt == now
  {
    Message(Uuids.Canonical(id), Uuids.Canonical(request.chatId), request.content, request.image, now, Client)
  }

  /** The SYSTEM message answering a request: the upload URL or the model's reply. */
  function SystemMessage(request: CreateMessageModel, id: nat, now: int, answer: string): (m: Message)
    requires request.chatId < Uuids.Uuid128 && id < Uuids.Uuid128
    ensures m.kind == System && m.chatId == Uuids.Canonical(request.chatId)
    ensures m.content == answer && m.image == request.image && m.createdAt == now
  {
    Message(Uuids.Canonical(id), Uuids.Canonical(request.chatId), answer, request.image, now, System)
  }

  /** The pipeline call the image path makes: fixed steps, guidance and size, no negative
      prompt, and a seed drawn from [0, 2^32). */
  predicate ChatImageCall(call: StableDiffusion.PipelineCall, prompt: string) {
    && call.prompt == prompt && call.negativePrompt == None
    && call.steps == 30 && call.guidanceScale == 8.0 && call.height == 512 && call.width == 512
    && call.generator.Some? && 0 <= call.generator.value < SeedBound
  }

  /** Two messages of one exchange: CLIENT then SYSTEM, same chat, same instant, the answer
      carrying the question's image flag. */
  predicate IsExchange(client: Message, system: Message) {
    && client.kind == Client && system.kind == System
    && client.chatId == system.chatId
    && client.createdAt == system.createdAt
    && client.image == system.image
  }

  /** `CloudinaryService`: every upload is recorded; `outcome` is the SDK's `secure_url` or
      the exception it raised. */
  class CloudinaryService {
    var uploads: seq<UploadRequest>

    constructor ()
      ensures uploads == []
    {
      uploads := [];
    }

    method UploadImage(path: string, folder: string, publicId: Option<string>, overwrite: bool,
                       resourceType: string, outcome: Result<string, Exc>)
      returns (r: Result<string, Exc>)
      modifies this
      ensures uploads == old(uploads) + [UploadRequest(path, folder, publicId, overwrite, resourceType)]
      ensures r == outcome
    {
      uploads := uploads + [UploadRequest(path, folder, publicId, overwrite, resourceType)];
      r := outcome;
    }
  }

  /** `release` on this handle would succeed: no handle, or one with both attributes. */
  ghost predicate Releasable(llama: LlamaInference.LlamaService?)
    reads llama
  {
    llama == null || (llama.model.Some? && llama.tokenizer.Some?)
  }

  class CreateMessageCommandHandler {
    const repo: BaseRepo.BaseRepository<Message>
    /** `self.llama`; null is None. */
    var llama: LlamaInference.LlamaService?
    /** `self.sd_service`; null is None. */
    var sdService: StableDiffusion.StableDiffusionService?
    const cloudinary: CloudinaryService
    /** The text model's module globals. */
    const runtime: LlamaInference.LlamaRuntime
    /** The disk the image service writes to. */
    const fs: FileSystem

    ghost predicate Valid()
      reads this, repo
    {
      && Handlers.IsMessageRepository(repo)
      && (llama != null ==> llama.runtime == runtime)
      && (sdService != null ==> sdService.fs == fs && sdService.outputDir == StableDiffusion.DefaultOutputDir)
    }

    /** `__init__`: the repository singleton, no backend yet, a Cloudinary client. */
    constructor (repo: BaseRepo.BaseRepository<Message>, runtime: LlamaInference.LlamaRuntime, fs: FileSystem)
      requires Handlers.IsMessageRepository(repo)
      ensures Valid() && fresh(cloudinary) && cloudinary.uploads == []
      ensures this.repo == repo && this.runtime == runtime && this.fs == fs
      ensures llama == null && sdService == null
    {
      this.repo := repo;
      this.runtime := runtime;
      this.fs := fs;
      llama := null;
      sdService := null;
      cloudinary := new CloudinaryService();
    }

    /** `_ask_llama`: load the text model only when there is no handle, then chat. A failed
        load leaves the handle unset. */
    method AskLlama(prompt: string, load: Result<(LlamaInference.ModelHandle, LlamaInference.TokenizerHandle), Exc>,
                    decoded: Result<string, Exc>)
      returns (r: Result<string, Exc>)
      requires Valid()
      modifies this, llama, runtime
      ensures Valid() && sdService == old(sdService)
      ensures old(llama) != null ==> llama == old(llama)
      ensures old(llama) == null && (old(runtime.model).None? || old(runtime.tokenizer).None?) && load.Err? ==>
        r == Err(load.error) && llama == null
      ensures old(llama) == null && llama != null ==> fresh(llama)
      ensures old(llama) != null && old(llama.tokenizer).None? ==> r == Err(AttributeError("tokenizer"))
      ensures r.Ok? ==>
        && decoded.Ok? && r.value == LlamaInference.Reply(decoded.value)
        && llama != null && llama.model.None? && llama.tokenizer.None?
        && runtime.model.None? && runtime.tokenizer.None?
    {
      if llama == null {
        var instance := LlamaInference.GetLlamaInstance(runtime, LlamaInference.DefaultModelDir, load);
        if instance.Err? {
          return Err(instance.error);
        }
        llama := instance.value;
      }
      r := llama.Chat(prompt, decoded);
    }

    /** The text path: drop the image service (its offload errors are swallowed), ask the
        text model, and turn any failure into HTTP 500. */
    method TextAnswer(prompt: string, world: Backends) returns (r: Result<string, Exc>)
      requires Valid()
      modifies this, llama, runtime
      ensures Valid() && sdService == null
      ensures old(llama) != null ==> llama == old(llama)
      ensures old(llama) == null && llama != null ==> fresh(llama)
      ensures r.Err? ==> r.error == Http(InternalServerError, LlamaFailed)
      ensures old(llama) != null && old(llama.tokenizer).None? ==> r.Err?
      ensures r.Ok? ==>
        && world.decoded.Ok? && r.value == LlamaInference.Reply(world.decoded.value)
        && llama != null && llama.model.None? && llama.tokenizer.None?
        && runtime.model.None? && runtime.tokenizer.None?
    {
      sdService := null;
      var answer := AskLlama(prompt, world.llamaLoad, world.decoded);
      if answer.Err? {
        return Err(Http(InternalServerError, LlamaFailed));
      }
      r := Ok(answer.value);
    }

    /** The image path's first step: release the text model if there is one. `release` is
        called on the handle as it is, so a spent handle raises and stays set. */
    method DropLlama() returns (r: Result<(), Exc>)
      requires Valid()
      modifies this, llama, runtime
      ensures Valid() && sdService == old(sdService)
      ensures r.Ok? <==> old(Releasable(llama))
      ensures r.Ok? ==> llama == null
      ensures r.Err? ==> llama == old(llama)
      ensures old(llama) != null && old(llama.model).None? ==> r == Err(AttributeError("model"))
      ensures r.Err? ==> r.error.AttributeError?
      ensures old(llama) != null && r.Ok? ==> runtime.model.None? && runtime.tokenizer.None?
    {
      if llama != null {
        var released := llama.Release();
        if released.Err? {
          return Err(released.error);
        }
        llama := null;
      }
      r := Ok(());
    }

    /** Create the image service only when there is none; a failed construction (after its
        output directory was made) raises and leaves the handle unset. */
    method EnsureImageService(load: Result<StableDiffusion.Pipeline, Exc>) returns (r: Result<(), Exc>)
      requires Valid()
      modifies this, fs
      ensures Valid() && llama == old(llama)
      ensures old(sdService) != null ==> r.Ok? && sdService == old(sdService) && unchanged(fs)
      ensures old(sdService) == null && load.Err? ==> r == Err(load.error) && sdService == null
      ensures old(sdService) == null && load.Ok? ==>
        && r.Ok? && sdService != null && fresh(sdService)
        && sdService.pipe == Some(load.value) && sdService.calls == []
      ensures r.Ok? ==> sdService != null
      ensures fs.files == old(fs.files)
    {
      if sdService == null {
        var made := StableDiffusion.NewService(StableDiffusion.DefaultModelId, StableDiffusion.DefaultOutputDir, fs, load);
        if made.Err? {
          return Err(made.error);
        }
        sdService := made.value;
      }
      r := Ok(());
    }

    /** Generate with a fresh seed, upload the file, and remove it (a failed removal is
        ignored). The generation and upload failures become HTTP 500 with their own detail;
        a prompt whose safe name is empty or all dots fails at the save, as a generation. */
    method GenerateAndUpload(prompt: string, world: Backends) returns (r: Result<string, Exc>)
      requires Valid() && sdService != null
      modifies sdService, fs, cloudinary
      ensures Valid()
      ensures var path := StableDiffusion.OutputPath(StableDiffusion.DefaultOutputDir, prompt);
        sdService.pipe.None? || world.produced.Err? || !StableDiffusion.SaveFormatKnown(path) ==>
        && r == Err(Http(InternalServerError, GenerationFailed))
        && cloudinary.uploads == old(cloudinary.uploads) && fs.files == old(fs.files)
      ensures sdService.pipe.Some? ==>
        && |sdService.calls| == |old(sdService.calls)| + 1
        && sdService.calls[..|old(sdService.calls)|] == old(sdService.calls)
        && ChatImageCall(sdService.calls[|old(sdService.calls)|], prompt)
      ensures var path := StableDiffusion.OutputPath(StableDiffusion.DefaultOutputDir, prompt);
        sdService.pipe.Some? && world.produced.Ok? && StableDiffusion.SaveFormatKnown(path) ==>
          && cloudinary.uploads == old(cloudinary.uploads) + [UploadRequest(path, ImageFolder, None, false, "image")]
          && (world.uploaded.Err? ==>
                r == Err(Http(InternalServerError, UploadFailed))
                && fs.files == old(fs.files)[path := ImageFile(world.produced.value)])
          && (world.uploaded.Ok? ==> r == Ok(world.uploaded.value) && fs.files == old(fs.files) - {path})
    {
      var seed :| 0 <= seed < SeedBound;
      var generated := sdService.Generate(prompt, None, 30, 8.0, 512, 512, Some(seed), world.produced);
      if generated.Err? {
        return Err(Http(InternalServerError, GenerationFailed));
      }
      var url := cloudinary.UploadImage(generated.value, ImageFolder, None, false, "image", world.uploaded);
      if url.Err? {
        return Err(Http(InternalServerError, UploadFailed));
      }
      ghost var written := fs.files;
      var removed := fs.Remove(generated.value);
      WrittenThenRemoved(old(fs.files), generated.value, ImageFile(world.produced.value));
      r := Ok(url.value);
    }

    /** The image path: release the text model, make sure there is an image service, then
        generate and upload. */
    method ImageAnswer(prompt: string, world: Backends) returns (r: Result<string, Exc>)
      requires Valid()
      modifies this, llama, runtime, sdService, fs, cloudinary
      ensures Valid()
      ensures old(llama) != null && old(llama.model).None? ==> r == Err(AttributeError("model")) && llama == old(llama)
      ensures llama == old(llama) || llama == null
      ensures sdService != old(sdService) ==> sdService != null && fresh(sdService)
      ensures old(sdService) != null && sdService != null ==> sdService == old(sdService)
      ensures r.Ok? ==> llama == null && sdService != null && world.uploaded.Ok? && r.value == world.uploaded.value
      ensures r.Err? ==>
        || r.error == Http(InternalServerError, GenerationFailed)
        || r.error == Http(InternalServerError, UploadFailed)
        || r.error.AttributeError?
        || (old(sdService) == null && world.sdLoad == Err(r.error))
    {
      var dropped := DropLlama();
      if dropped.Err? {
        return Err(dropped.error);
      }
      var ready := EnsureImageService(world.sdLoad);
      if ready.Err? {
        return Err(ready.error);
      }
      r := GenerateAndUpload(prompt, world);
    }

    /** Everything `handle` does once the CLIENT message is stored: answer on the requested
        path, then store the SYSTEM message carrying the answer. */
    method Answer(request: CreateMessageModel, systemId: nat, now: int, world: Backends)
      returns (r: Result<Message, Exc>)
      requires Valid()
      requires request.chatId < Uuids.Uuid128 && systemId < Uuids.Uuid128
      modifies this, repo, llama, sdService, runtime, fs, cloudinary
      ensures Valid()
      ensures r.Err? ==> repo.rows == old(repo.rows)
      ensures r.Ok? ==> repo.rows == old(repo.rows) + [r.value]
      ensures r.Ok? && request.image ==>
        && llama == null && sdService != null && world.uploaded.Ok?
        && r.value == SystemMessage(request, systemId, now, world.uploaded.value)
      ensures r.Ok? && !request.image ==>
        && sdService == null && llama != null && llama.model.None? && llama.tokenizer.None?
        && world.decoded.Ok?
        && r.value == SystemMessage(request, systemId, now, LlamaInference.Reply(world.decoded.value))
      ensures request.image && old(llama) != null && old(llama.model).None? ==>
        r == Err(AttributeError("model")) && llama == old(llama)
      ensures !request.image && old(llama) != null && old(llama.tokenizer).None? ==>
        r == Err(Http(InternalServerError, LlamaFailed))
      ensures llama != old(llama) ==> llama == null || fresh(llama)
      ensures sdService != old(sdService) ==> sdService == null || fresh(sdService)
      ensures request.image && old(sdService) != null && sdService != null ==> sdService == old(sdService)
      ensures !request.image && old(llama) != null ==> llama == old(llama)
    {
      var answer: Result<string, Exc>;
      if request.image {
        answer := ImageAnswer(request.content, world);
      } else {
        answer := TextAnswer(request.content, world);
      }
      if answer.Err? {
        return Err(answer.error);
      }
      var system := SystemMessage(request, systemId, now, answer.value);
      var stored := repo.Create(system);
      if stored.Err? {
        return Err(stored.error);
      }
      r := Ok(system);
    }

    /** `handle`: store the CLIENT message, take the image or the text path, store the SYSTEM
        message. `clientId` and `systemId` are the ids the database assigns, `now` the
        request's instant. */
    method Handle(request: CreateMessageModel, clientId: nat, systemId: nat, now: int, world: Backends)
      returns (r: Result<CreateMessageResponse, Exc>)
      requires Valid()
      requires request.chatId < Uuids.Uuid128 && clientId < Uuids.Uuid128 && systemId < Uuids.Uuid128
      modifies this, repo, llama, sdService, runtime, fs, cloudinary
      ensures Valid()
      ensures var client := ClientMessage(request, clientId, now);
        old(Repositories.MessageVerdict(repo.rows, client)).Some? ==>
          && r == Err(ValueError(BaseRepo.ParseIntegrityError(old(Repositories.MessageVerdict(repo.rows, client)).value)))
          && repo.rows == old(repo.rows) && llama == old(llama) && sdService == old(sdService)
      ensures var client := ClientMessage(request, clientId, now);
        old(Repositories.MessageVerdict(repo.rows, client)).None? ==>
          |repo.rows| >= |old(repo.rows)| + 1 && repo.rows[..|old(repo.rows)| + 1] == old(repo.rows) + [client]
      ensures var client := ClientMessage(request, clientId, now);
        r.Err? ==> repo.rows == old(repo.rows) || repo.rows == old(repo.rows) + [client]
      ensures r.Ok? ==>
        && repo.rows == old(repo.rows) + [r.value.clientMessage, r.value.systemMessage]
        && r.value.clientMessage == ClientMessage(request, clientId, now)
        && IsExchange(r.value.clientMessage, r.value.systemMessage)
        && r.value.message == MessagesCreated
      ensures r.Ok? && request.image ==>
        llama == null && sdService != null && world.uploaded.Ok?
        && r.value.systemMessage.content == world.uploaded.value
      ensures r.Ok? && !request.image ==>
        && sdService == null && llama != null && llama.model.None? && llama.tokenizer.None?
        && world.decoded.Ok? && r.value.systemMessage.content == LlamaInference.Reply(world.decoded.value)
      ensures var client := ClientMessage(request, clientId, now);
        old(Repositories.MessageVerdict(repo.rows, client)).None? && request.image
        && old(llama) != null && old(llama.model).None? ==>
          r == Err(AttributeError("model")) && repo.rows == old(repo.rows) + [client] && llama == old(llama)
      ensures var client := ClientMessage(request, clientId, now);
        old(Repositories.MessageVerdict(repo.rows, client)).None? && !request.image
        && old(llama) != null && old(llama.tokenizer).None? ==>
          r == Err(Http(InternalServerError, LlamaFailed)) && repo.rows == old(repo.rows) + [client]
      ensures llama != old(llama) ==> llama == null || fresh(llama)
      ensures sdService != old(sdService) ==> sdService == null || fresh(sdService)
      ensures request.image && old(sdService) != null && sdService != null ==> sdService == old(sdService)
      ensures !request.image && old(llama) != null ==> llama == old(llama)
    {
      var client := ClientMessage(request, clientId, now);
      var storedClient := repo.Create(client);
      if storedClient.Err? {
        return Err(storedClient.error);
      }
      var system := Answer(request, systemId, now, world);
      if system.Err? {
        return Err(system.error);
      }
      r := Ok(CreateMessageResponse(client, system.value, MessagesCreated));
    }
  }

  /** A handler object used for a second request after a text request holds a spent text
      model: a second text request fails with HTTP 500, and an image request raises from
      `release`, in both cases after the CLIENT message was stored. */
  method ReusedAfterText(h: CreateMessageCommandHandler, first: CreateMessageModel, second: CreateMessageModel,
                         ids: seq<nat>, now: int, world: Backends)
    returns (r1: Result<CreateMessageResponse, Exc>, r2: Result<CreateMessageResponse, Exc>)
    requires h.Valid() && !first.image
    requires first.chatId < Uuids.Uuid128 && second.chatId < Uuids.Uuid128
    requires |ids| == 3 && ids[0] < Uuids.Uuid128 && ids[1] < Uuids.Uuid128 && ids[2] < Uuids.Uuid128
    modifies h, h.repo, h.llama, h.sdService, h.runtime, h.fs, h.cloudinary
    ensures r1.Ok? && Repositories.MessageVerdict(old(h.repo.rows) + [r1.value.clientMessage, r1.value.systemMessage],
                                                  ClientMessage(second, ids[2], now)).None? ==>
      && r2 == (if second.image then Err(AttributeError("model")) else Err(Http(InternalServerError, LlamaFailed)))
      && h.repo.rows == old(h.repo.rows) + [r1.value.clientMessage, r1.value.systemMessage, ClientMessage(second, ids[2], now)]
  {
    r1 := h.Handle(first, ids[0], ids[1], now, world);
    r2 := h.Handle(second, ids[2], ids[1], now, world);
  }

  /** Writing a file and then removing it leaves the other files as they were. */
  lemma WrittenThenRemoved(files: map<string, FileContent>, path: string, content: FileContent)
    ensures files[path := content] - {path} == files - {path}
  {
  }
}

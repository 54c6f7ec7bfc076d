# Chat backend and front-end core, modelled in Dafny

This project models the core of a smartphone-assistant chat application:

- The FastAPI back end:
  - the generic repository and the message, chat and user repositories;
  - the chat and user command handlers;
  - the message handler, which answers a client message with a text model or an image model;
  - the text-model inference service with its lazily loaded module globals;
  - the Stable Diffusion service, including LoRA training;
  - the text-model fine-tuning service;
  - the authentication service and the `get_current_user` guard chain;
  - the response-envelope middleware.
- The React front ends:
  - the session-cookie reader (`auth.ts`);
  - the message composer (`MessageInput`);
  - the chat sidebar dialogs (`ChatSidebar`);
  - the header's language and theme switches (`Header`).

Code that changes state step by step is modelled as classes with `modifies` frames:

- repositories, handlers and services;
- the Starlette header list;
- the React component state, which is a set of cells changed by handlers.

Code that only computes values is modelled as functions, with lemmas beside them:

- prompt templates;
- reply extraction;
- safe file names;
- the metadata lines;
- cookie parsing;
- the language normalisation.

The libraries the code calls are modelled only as far as it relies on them:

- bcrypt is a salt plus the first 72 bytes of the password's UTF-8 encoding; the digest is
  abstract.
- jose JWTs are signed claims; decoding runs the codec's claim checks in its order, with
  Python's `int()` applied to the time claims.
- `uuid.UUID` and `str(uuid)` are modelled for ASCII hex digits, including `int(x, 16)`.
- `json.dumps` and `json.loads` cover string literals.
- The file system is a map from paths to contents plus a set of directories.
- Starlette's `MutableHeaders` is a list of pairs.

Everything the outside world decides is a parameter of the operation:

- a model load, a generation, an upload, a subprocess exit code;
- the clock, a random seed, a database-assigned id.

The fact that `get_current_user` can never return "User not found" is stated by
`Dependencies.MissingUserIsValueError`. `UserRepository.get` raises `ValueError` first, so the
401 branch is dead code. A token for a deleted user therefore surfaces as that `ValueError`.

Handler reuse is stated by `MessageHandler.ReusedAfterText`. A handler object that served a
text request holds a spent text-model service, whose attributes `release` deleted. A second
request through the same object fails in either case:

- a text request gives HTTP 500;
- an image request raises `AttributeError` from `release`.

In both cases the CLIENT message has already been stored.

The middleware copies headers with `response.headers[k] = v`, which replaces any earlier entry
of the same name. `ResponseWrapper.DuplicateHeaderCollapses` states the effect: of two
`Set-Cookie` headers only the second reaches the client. `ResponseWrapper.Appended` is the
copy done with `headers.append`, which keeps both. `Dispatch` follows the code as written.

Modules, one per file:

- Support:
  - `Wrappers` (Option, Result), `Errors` (the exceptions);
  - `Text` (Python and JavaScript string operations), `Ordering` (ORDER BY, WHERE, OFFSET/LIMIT);
  - `Entities`, `Uuids`, `Json`, `Files`.
- Back end:
  - `BaseRepo`, `Repositories`, `Handlers`, `Auth`, `Dependencies`;
  - `LlamaInference`, `StableDiffusion`, `MessageHandler`, `LlamaTrainer`, `ResponseWrapper`.
- Front end:
  - `CookieAuth`, `MessageInput`, `ChatSidebar`, `Header`.

## Model

| member | source | states |
|---|---|---|
| BaseRepo.IndexOfKey | api_capstone/app/infrastructure/repositories/BaseRepository.py:19 | the position found holds a row with that key; None only when no row has it |
| BaseRepo.Without | api_capstone/app/infrastructure/repositories/BaseRepository.py:62 | exactly the rows whose key differs from the deleted one remain |
| BaseRepo.Lookup | api_capstone/app/infrastructure/repositories/BaseRepository.py:18-22 | Ok iff some row has the key, and then a stored row with that key; otherwise ValueError "<Model> with id <id> not found." |
| BaseRepo.Merged | api_capstone/app/infrastructure/repositories/BaseRepository.py:52 | `merge` keeps keys unique and stores the object; a row with its key is replaced in place (same length), otherwise the object is appended; every row of another key is kept |
| BaseRepo.ReplaceAtKey | api_capstone/app/infrastructure/repositories/BaseRepository.py:52 | the row at the key's only position becomes the object; the length and every row of another key are kept |
| BaseRepo.ParseQualifiedColumn | api_capstone/app/infrastructure/repositories/BaseRepository.py:69-75 | a driver message ending ": table.column" gives "Duplicate entry for column in table. Choose another value." |
| BaseRepo.ParseWithoutDot | api_capstone/app/infrastructure/repositories/BaseRepository.py:72-76 | a message without '.' gives the generic integrity message |
| BaseRepo.ParseWithoutColon | api_capstone/app/infrastructure/repositories/BaseRepository.py:71-75 | a message without ':' and with one '.' is split at that '.' |
| BaseRepo.BaseRepository.constructor | api_capstone/app/infrastructure/repositories/BaseRepository.py:14-16 | a repository over an empty table, with its model name, key and constraint check |
| BaseRepo.BaseRepository.Get | api_capstone/app/infrastructure/repositories/BaseRepository.py:18-22 | returns `Lookup` of the stored rows, changing nothing |
| BaseRepo.BaseRepository.GetAll | api_capstone/app/infrastructure/repositories/BaseRepository.py:24-25 | returns every stored row, [] for an empty table |
| BaseRepo.BaseRepository.Create | api_capstone/app/infrastructure/repositories/BaseRepository.py:27-36 | accepted: the row is appended and returned; refused: rows unchanged, session renewed, ValueError with the parsed message |
| BaseRepo.BaseRepository.CreateMany | api_capstone/app/infrastructure/repositories/BaseRepository.py:38-48 | all rows appended together, or at the first violation none, with the parsed ValueError |
| BaseRepo.BaseRepository.Update | api_capstone/app/infrastructure/repositories/BaseRepository.py:50-58 | accepted: the row replaces its key's row (or is appended); refused: rows unchanged and ValueError |
| BaseRepo.BaseRepository.Delete | api_capstone/app/infrastructure/repositories/BaseRepository.py:60-63 | an absent key raises `get`'s ValueError and removes nothing; otherwise exactly that row is removed |
| BaseRepo.BaseRepository.AppendKeepsKeysUnique | api_capstone/app/infrastructure/repositories/BaseRepository.py:29-30 | an insert the database accepts keeps primary keys unique |
| BaseRepo.WithoutKeepsKeysUnique | api_capstone/app/infrastructure/repositories/BaseRepository.py:62-63 | a delete keeps primary keys unique |
| Repositories.VerdictsCheckKeys | api_capstone/app/infrastructure/repositories/MessageRepository.py:12-16 | each table's constraint check refuses a duplicate primary key |
| Repositories.UserVerdictKeepsUsernamesUnique | api_capstone/app/infrastructure/repositories/UserRepository.py:9-13 | an insert `users` accepts keeps usernames unique |
| Repositories.InstanceSlot.constructor | api_capstone/app/infrastructure/repositories/ChatRepository.py:10 | `_instance` starts as None |
| Repositories.InstanceSlot.Instance | api_capstone/app/infrastructure/repositories/ChatRepository.py:15-19 | the first call creates the repository and later calls return that same object |
| Repositories.MessageOrderIsTotalPreorder | api_capstone/app/infrastructure/repositories/MessageRepository.py:34-36 | ORDER BY created_at (ASC or DESC), then message_id, is a total preorder |
| Repositories.ChatMessagesOrderedSpec | api_capstone/app/infrastructure/repositories/MessageRepository.py:41-44 | the ordered list is sorted and holds exactly the chat's stored messages, each as often as stored |
| Repositories.MessagesPageSpec | api_capstone/app/infrastructure/repositories/MessageRepository.py:41-48 | a page is the slice [offset, offset+limit) of the ordered list: at most `limit` messages, all of that chat, sorted |
| Repositories.ConsecutivePages | api_capstone/app/infrastructure/repositories/MessageRepository.py:45-46 | two consecutive pages read the same messages as one page of both sizes |
| Repositories.ConsecutivePagesDisjoint | api_capstone/app/infrastructure/repositories/MessageRepository.py:44-46 | with message_id unique, consecutive pages share no message |
| Repositories.ChatMessagesOrderIndependent | api_capstone/app/infrastructure/repositories/MessageRepository.py:44 | the result does not depend on storage order, since the order ties no two messages |
| Repositories.ChatById | api_capstone/app/infrastructure/repositories/ChatRepository.py:21-22 | a stored chat with that id, or None exactly when there is none; never an error |
| Repositories.ChatsByUserSpec | api_capstone/app/infrastructure/repositories/ChatRepository.py:24-30 | all and only the user's chats, each as often as stored, created_at non-increasing |
| Repositories.UserByUsername | api_capstone/app/infrastructure/repositories/UserRepository.py:21-22 | a stored user with that username, or None exactly when there is none |
| Repositories.UserByUsernameUnique | api_capstone/app/infrastructure/repositories/UserRepository.py:21-22 | with unique usernames the user found is the only one with that name |
| Handlers.CreateChatCommandHandler.constructor | api_capstone/app/application/commands/chat/create/CreateChatCommandHandler.py:15-16 | the handler holds the chat repository |
| Handlers.CreateChatCommandHandler.Handle | api_capstone/app/application/commands/chat/create/CreateChatCommandHandler.py:18-31 | accepted: exactly one chat with the title and stringified user id is appended, and returned with "Chat created successfully."; refused: nothing stored, ValueError |
| Handlers.CreateChatSucceedsOnFreshId | api_capstone/app/application/commands/chat/create/CreateChatCommandHandler.py:26 | the insert is accepted iff no stored chat has the new id |
| Handlers.UpdateChatTitleCommandHandler.constructor | api_capstone/app/application/commands/chat/update/UpdateChatCommandHandler.py:18-19 | the handler holds the chat repository |
| Handlers.UpdateChatTitleCommandHandler.Handle | api_capstone/app/application/commands/chat/update/UpdateChatCommandHandler.py:21-34 | unknown id: `get`'s ValueError, nothing changes; otherwise only that chat's title changes (None included) and "Chat title updated." |
| Handlers.RetitledRows | api_capstone/app/application/commands/chat/update/UpdateChatCommandHandler.py:27-29 | merging the retitled chat replaces that one row in place and keeps every other row |
| Handlers.DeleteChatCommandHandler.constructor | api_capstone/app/application/commands/chat/delete/DeleteChatCommandHandler.py:14-15 | the handler holds the chat repository and the message table the cascade reaches |
| Handlers.DeleteChatCommandHandler.Handle | api_capstone/app/application/commands/chat/delete/DeleteChatCommandHandler.py:17-22 | absent chat: ValueError, nothing removed; otherwise the chat and all its messages are removed, "Chat deleted successfully." |
| Handlers.FilterKeepsKeysUnique | api_capstone/app/application/commands/chat/delete/DeleteChatCommandHandler.py:20 | the cascade's removal of messages keeps message ids unique |
| Handlers.DeletedChatIsGone | api_capstone/app/application/commands/chat/delete/DeleteChatCommandHandler.py:20 | after the delete, `get` of the chat raises and no message of it remains |
| Handlers.CreateUserCommandHandler.constructor | api_capstone/app/application/commands/user/create/CreateUserCommandHandler.py:16-17 | the handler holds the user repository |
| Handlers.CreateUserCommandHandler.Handle | api_capstone/app/application/commands/user/create/CreateUserCommandHandler.py:19-37 | accepted: one user with the name, email and hashed password, response without the password; refused: nothing stored, ValueError "Error creating user: <msg>" |
| Handlers.StoredPasswordVerifies | api_capstone/app/application/commands/user/create/CreateUserCommandHandler.py:25 | the stored hash verifies the sign-up password, and another one exactly when both reach 72 UTF-8 bytes and agree on them |
| Handlers.TakenUsernameRefused | api_capstone/app/application/commands/user/create/CreateUserCommandHandler.py:29 | a second sign-up with a taken username is refused |
| Auth.HashPassword | api_capstone/app/application/services/AuthService.py:66-68 | a hash verifies its own password |
| Auth.BcryptKey | api_capstone/app/application/services/AuthService.py:66-68 | the key is a prefix of the UTF-8 encoding of at most 72 bytes, the whole encoding when shorter |
| Auth.HashVerifiesOnlyItsPassword | api_capstone/app/application/services/AuthService.py:63-68 | a hash verifies a password iff it is the hashed one or both reach 72 UTF-8 bytes and agree on them, whatever the salt |
| Auth.ShortPasswordVerifiesOnlyItself | api_capstone/app/application/services/AuthService.py:63-68 | a password under 72 bytes is the only one its hash verifies |
| Auth.LongPasswordSharesHash | api_capstone/app/application/services/AuthService.py:63-68 | anything appended to a password of 72 bytes or more verifies against its hash |
| Text.Utf8CharDecodes | api_capstone/app/application/services/AuthService.py:63-68 | a character's UTF-8 bytes decode back to it |
| Text.Utf8Injective | api_capstone/app/application/services/AuthService.py:63-68 | different strings have different UTF-8 encodings |
| Auth.Lifetime | api_capstone/app/application/services/AuthService.py:36 | `expires_delta or 24h`: a missing or zero delta gives the default, any other is kept |
| Auth.CreateAccessToken | api_capstone/app/application/services/AuthService.py:32-44 | signed with the settings' key and algorithm; claims are the input plus `exp` |
| Auth.Truncate | api_capstone/app/application/services/AuthService.py:49-51 | `int()` of a float is the integer part, toward zero |
| Auth.PyInt | api_capstone/app/application/services/AuthService.py:49-51 | `int()` of a claim: an int is itself, a string converts iff it is a decimal numeral; ValueError exactly for NaN and non-numerals, TypeError exactly for null, list and dict |
| Text.ParseIntOfString | api_capstone/app/application/services/AuthService.py:49-51 | `int(str(n))` is `n` for every integer |
| Auth.TimeClaim | api_capstone/app/application/services/AuthService.py:49-51 | a time claim is absent (None) or converts; a ValueError becomes "Invalid token", TypeError and OverflowError escape |
| Auth.CheckClaims | api_capstone/app/application/services/AuthService.py:49-61 | no error iff the claims are accepted; the errors are "Invalid token", "Token has expired" (only for an integer `exp` before now), TypeError or OverflowError |
| Auth.CheckOthers | api_capstone/app/application/services/AuthService.py:49-61 | after the time claims, no error iff there is no `aud` or `at_hash` and `sub` and `jti` are strings when present; any failure is "Invalid token" |
| Auth.DecodeToken | api_capstone/app/application/services/AuthService.py:46-61 | Ok iff the token is signed with the settings and its claims pass every check, giving those claims; otherwise "Invalid token", "Token has expired" (only for a signed token), or an escaping TypeError or OverflowError |
| Auth.TokenRoundTrip | api_capstone/app/application/services/AuthService.py:32-51 | a created token whose other claims pass decodes to the input claims plus `exp` until its expiry second, and is expired after |
| Auth.TokenAcceptedIff | api_capstone/app/application/services/AuthService.py:32-51 | a created token decodes iff its other claims pass and its expiry second has not gone by |
| Auth.TokenExpires | api_capstone/app/application/services/AuthService.py:52-56 | once `iat` and `nbf` pass, a token past its expiry second gives 401 "Token has expired" |
| Auth.DefaultExpiry | api_capstone/app/application/services/AuthService.py:36-37 | without a delta, `exp` is 86400 seconds after the creation second |
| Auth.ForeignTokenInvalid | api_capstone/app/application/services/AuthService.py:57-61 | a token signed under another key or algorithm is "Invalid token" at any time |
| Auth.CoercedExpiry | api_capstone/app/application/services/AuthService.py:49-61 | `exp` given as a numeral string gives the same verdict as the integer |
| Auth.BoolExpiry | api_capstone/app/application/services/AuthService.py:49-61 | `exp: true` gives the same verdict as `exp: 1` |
| Auth.ExpiryReadAsInt | api_capstone/app/application/services/AuthService.py:49-61 | two `exp` values `int()` maps to the same result give the same check outcome |
| Auth.NullExpiryEscapes | api_capstone/app/application/services/AuthService.py:49-61 | a null `exp` escapes as TypeError instead of a 401 |
| Auth.IatCheckedFirst | api_capstone/app/application/services/AuthService.py:49-61 | a non-numeral `iat` is "Invalid token" whatever the expiry |
| Auth.Response.constructor | api_capstone/app/application/services/AuthService.py:74 | a response starts without cookie headers |
| Auth.WholeSeconds | api_capstone/app/application/services/AuthService.py:94 | `int(total_seconds())` truncates toward zero |
| Auth.PresentToken | api_capstone/app/application/services/AuthService.py:109-110 | a token only when the cookie is present and non-empty, and then that cookie |
| Auth.VerifyTokenCookie | api_capstone/app/application/services/AuthService.py:106-115 | missing or empty cookie: 401 "Token not found in cookies"; otherwise the decode result |
| Auth.Authenticated | api_capstone/app/application/services/AuthService.py:23-28 | a returned user is stored, has that username and verifies the password |
| Auth.AuthenticatedIff | api_capstone/app/application/services/AuthService.py:23-28 | with unique usernames: None iff no user has the name or the password does not verify |
| Auth.AuthService.constructor | api_capstone/app/application/services/AuthService.py:19-21 | a service over the users table with no session closed yet |
| Auth.AuthService.AuthenticateUser | api_capstone/app/application/services/AuthService.py:23-30 | returns `Authenticated` and closes the session once, on every path |
| Auth.AuthService.LoginAndSetCookie | api_capstone/app/application/services/AuthService.py:70-99 | bad credentials: 401 "Invalid username or password" with WWW-Authenticate: Bearer and no cookie; otherwise one httponly, secure cookie with the token for sub = user id and max_age the whole seconds of the delta |
| Auth.AuthService.LogoutAndClearCookie | api_capstone/app/application/services/AuthService.py:101-104 | exactly one delete-cookie header for the token name is added |
| Auth.LoginTokenNamesUser | api_capstone/app/application/services/AuthService.py:87-98 | the login token decodes to sub = user id until it expires; the default cookie lasts 86400 seconds |
| Dependencies.CurrentUser | api_capstone/app/infrastructure/dependencies/Dependencies.py:17-54 | no cookie: 401 "Not authenticated" with no session; a session is opened and closed exactly when the lookup runs; success returns a stored user; "User not found" never occurs |
| Dependencies.GuardOrder | api_capstone/app/infrastructure/dependencies/Dependencies.py:18-46 | the first failing check (cookie, decode, truthy sub, UUID) decides the error, and no session is opened before the lookup |
| Dependencies.MissingUserIsValueError | api_capstone/app/infrastructure/dependencies/Dependencies.py:44-51 | a valid UUID subject naming no user surfaces as `get`'s ValueError, not 401 |
| Dependencies.LoginCookieAuthenticates | api_capstone/app/infrastructure/dependencies/Dependencies.py:17-52 | the cookie set at login lets its stored user through until the token expires |
| Uuids.ParseUuid | api_capstone/app/infrastructure/dependencies/Dependencies.py:37 | a parsed UUID is below 2^128 |
| Uuids.Canonical | api_capstone/app/infrastructure/dependencies/Dependencies.py:46 | `str(uuid)` has 36 characters |
| Uuids.ShortTextIsNoUuid | api_capstone/app/infrastructure/dependencies/Dependencies.py:36-42 | text shorter than 32 characters is never a UUID |
| Uuids.UngroupedByHyphenRemoval | api_capstone/app/infrastructure/dependencies/Dependencies.py:37 | removing the hyphens of the 8-4-4-4-12 grouping gives the digits back |
| Uuids.CanonicalRoundTrip | api_capstone/app/infrastructure/dependencies/Dependencies.py:37-46 | `UUID(str(u))` is `u`, so a canonical sub is looked up under its own text |
| Json.Escape | api_capstone/app/application/services/StableDiffusionGeneratorService.py:121-124 | the literal body has no raw control character |
| Json.UnescapeEscape | api_capstone/app/application/services/StableDiffusionGeneratorService.py:121-124 | reading the literal back gives the original string |
| Json.QuotedInjective | api_capstone/app/application/services/StableDiffusionGeneratorService.py:121-124 | different strings have different literals |
| Files.FileSystem.MakeDirs | api_capstone/app/application/services/StableDiffusionGeneratorService.py:34 | the directory is added, files unchanged |
| Files.FileSystem.Write | api_capstone/app/application/services/StableDiffusionGeneratorService.py:86 | only that path's content changes |
| Files.FileSystem.Exists | api_capstone/app/application/services/StableDiffusionGeneratorService.py:117 | true iff the path holds a file |
| Files.FileSystem.ReadText | api_capstone/app/application/services/StableDiffusionGeneratorService.py:119 | the file's text, or the decoding error |
| Files.FileSystem.Remove | api_capstone/app/application/commands/message/create/CreateMessageCommandHandler.py:104 | a present file is removed and nothing else; a missing one raises FileNotFoundError and nothing changes |
| LlamaInference.PromptEmbedsQuestion | api_capstone/app/application/services/LlamaInferenceService.py:33-56 | the prompt is the fixed head, the question verbatim, and the fixed tail |
| LlamaInference.PromptDeterminesQuestion | api_capstone/app/application/services/LlamaInferenceService.py:56 | different questions give different prompts |
| LlamaInference.Reply | api_capstone/app/application/services/LlamaInferenceService.py:64-69 | the reply is never empty |
| LlamaInference.ReplyAfterLastMarker | api_capstone/app/application/services/LlamaInferenceService.py:65-69 | with a marker present, the reply is the stripped text after the last marker, or the refusal when that is empty |
| LlamaInference.ReplyWithoutMarker | api_capstone/app/application/services/LlamaInferenceService.py:65-69 | without a marker, the reply is the whole decode stripped, or the refusal when empty |
| LlamaInference.ReplyHoldsNoMarker | api_capstone/app/application/services/LlamaInferenceService.py:65 | apart from the refusal, a reply never contains the assistant marker |
| LlamaInference.LlamaRuntime.constructor | api_capstone/app/application/services/LlamaInferenceService.py:9-10 | both module globals start as None |
| LlamaInference.LlamaService.constructor | api_capstone/app/application/services/LlamaInferenceService.py:30-32 | the service holds the model and tokenizer it was given |
| LlamaInference.LlamaService.Release | api_capstone/app/application/services/LlamaInferenceService.py:73-80 | both attributes present: both deleted and both globals None; a missing attribute raises AttributeError (only NameError is caught) |
| LlamaInference.LlamaService.Chat | api_capstone/app/application/services/LlamaInferenceService.py:55-71 | tokenizes the filled template; on a decode the result is `Reply`; `release` runs after generation whatever its outcome |
| LlamaInference.GetLlamaInstance | api_capstone/app/application/services/LlamaInferenceService.py:13-27 | loads only when a global is None; otherwise wraps the existing pair without loading |
| LlamaInference.SecondChatFails | api_capstone/app/application/services/LlamaInferenceService.py:70-80 | after one successful `chat` the service is spent: a second `chat` fails |
| StableDiffusion.Opening | api_capstone/app/application/services/StableDiffusionGeneratorService.py:78 | `prompt[:50]` has at most 50 characters |
| StableDiffusion.Sanitized | api_capstone/app/application/services/StableDiffusionGeneratorService.py:79-84 | no blank, '/', '\\' or upper-case ASCII letter remains, and the text does not grow |
| StableDiffusion.SafeName | api_capstone/app/application/services/StableDiffusionGeneratorService.py:77-84 | at most 50 characters, no blank, no path separator, no upper-case ASCII letter |
| StableDiffusion.OutputStaysInDir | api_capstone/app/application/services/StableDiffusionGeneratorService.py:85 | the output is `<output_dir>/<name>.png` with a separator-free name |
| StableDiffusion.SamePathIffSameName | api_capstone/app/application/services/StableDiffusionGeneratorService.py:77-85 | two prompts share an output file iff their safe names agree |
| StableDiffusion.SameOpeningSamePath | api_capstone/app/application/services/StableDiffusionGeneratorService.py:77-87 | prompts agreeing on their first 50 characters write the same file, so a repeat overwrites |
| StableDiffusion.SplitExt | api_capstone/app/application/services/StableDiffusionGeneratorService.py:86 | the extension PIL reads is empty or starts with '.' and holds no separator |
| StableDiffusion.SplitExtOfPng | api_capstone/app/application/services/StableDiffusionGeneratorService.py:85-86 | the extension of `<dir>/<name>.png` is ".png", or empty when the name is only dots |
| StableDiffusion.SaveFormatOfPng | api_capstone/app/application/services/StableDiffusionGeneratorService.py:85-86 | the output path's format is known iff the name is not only dots |
| StableDiffusion.SaveFormatKnownIff | api_capstone/app/application/services/StableDiffusionGeneratorService.py:77-86 | `image.save` accepts the output path iff the safe name is not empty or only dots |
| StableDiffusion.BlankPromptNotSaved | api_capstone/app/application/services/StableDiffusionGeneratorService.py:77-86 | a blank prompt's output path has no known format, so saving fails |
| StableDiffusion.DotsPromptNotSaved | api_capstone/app/application/services/StableDiffusionGeneratorService.py:77-86 | a prompt of dots only gives an output path with no known format |
| StableDiffusion.LastIndex | api_capstone/app/application/services/StableDiffusionGeneratorService.py:108 | the position of the last occurrence of the character, or None when there is none |
| StableDiffusion.Suffix | api_capstone/app/application/services/StableDiffusionGeneratorService.py:108 | a non-empty suffix starts with its only '.', has a character after it, and is shorter than the name |
| StableDiffusion.HiddenNameIsNoImage | api_capstone/app/application/services/StableDiffusionGeneratorService.py:108 | a name such as ".png" has no suffix and is never selected |
| StableDiffusion.TextName | api_capstone/app/application/services/StableDiffusionGeneratorService.py:116 | `with_suffix(".txt")` always ends in ".txt" |
| StableDiffusion.Captions | api_capstone/app/application/services/StableDiffusionGeneratorService.py:115-119 | one caption outcome per selected image |
| StableDiffusion.ReadCaption | api_capstone/app/application/services/StableDiffusionGeneratorService.py:116-119 | the caption file read and stripped, or FileNotFoundError when it is missing |
| StableDiffusion.CaptionIgnoresMetadata | api_capstone/app/application/services/StableDiffusionGeneratorService.py:113-119 | writing metadata.jsonl cannot change a caption |
| StableDiffusion.RecordIsOneLine | api_capstone/app/application/services/StableDiffusionGeneratorService.py:120-126 | a record holds no line break |
| StableDiffusion.MetadataLineFields | api_capstone/app/application/services/StableDiffusionGeneratorService.py:121-124 | the record's two fields read back as the image's name and its caption |
| StableDiffusion.MetadataStep | api_capstone/app/application/services/StableDiffusionGeneratorService.py:115-126 | one more successful read appends exactly that image's line |
| StableDiffusion.FirstErr | api_capstone/app/application/services/StableDiffusionGeneratorService.py:115-118 | the first failed caption read, with every earlier read successful |
| StableDiffusion.MetadataLines | api_capstone/app/application/services/StableDiffusionGeneratorService.py:114-126 | the file holds one line per image, in order, and ends with a line break |
| StableDiffusion.PushIffRepo | api_capstone/app/application/services/StableDiffusionGeneratorService.py:139-173 | the command is the fixed base, plus "--push_to_hub --hub_model_id <repo_id>" exactly when repo_id is truthy |
| StableDiffusion.LoraFailure | api_capstone/app/application/services/StableDiffusionGeneratorService.py:179-184 | a failed run becomes a RuntimeError |
| StableDiffusion.StableDiffusionService.constructor | api_capstone/app/application/services/StableDiffusionGeneratorService.py:32-48 | the service holds the model id, output directory and pipeline, with no calls yet |
| StableDiffusion.StableDiffusionService.Generate | api_capstone/app/application/services/StableDiffusionGeneratorService.py:54-87 | one pipeline call with the given arguments (seeded only when a seed is given); the image is saved at `OutputPath` and only that file changes; a path without a known format: ValueError and no file; no pipeline: AttributeError |
| StableDiffusion.StableDiffusionService.WriteMetadata | api_capstone/app/application/services/StableDiffusionGeneratorService.py:113-126 | metadata.jsonl holds the records of the images before the first missing caption, which is reported |
| StableDiffusion.StableDiffusionService.Launch | api_capstone/app/application/services/StableDiffusionGeneratorService.py:128-190 | no script: FileNotFoundError, nothing changes; otherwise the pipeline is deleted and one command is launched; a non-zero exit is a RuntimeError; success returns status, lora_path and hf_repo = repo_id or "" |
| StableDiffusion.StableDiffusionService.TrainLora | api_capstone/app/application/services/StableDiffusionGeneratorService.py:89-190 | missing train/ or no image: FileNotFoundError with its message; otherwise the metadata of exactly the images with an accepted suffix, then the launch |
| StableDiffusion.NewService | api_capstone/app/application/services/StableDiffusionGeneratorService.py:23-48 | the output directory is created before the load; a failed load raises it |
| MessageHandler.ClientMessage | api_capstone/app/application/commands/message/create/CreateMessageCommandHandler.py:46-52 | a CLIENT message with the request's chat, content and image flag at `now` |
| MessageHandler.SystemMessage | api_capstone/app/application/commands/message/create/CreateMessageCommandHandler.py:120-150 | a SYSTEM message with the request's chat and image flag, the answer as content, at `now` |
| MessageHandler.CloudinaryService.constructor | api_capstone/app/application/commands/message/create/CreateMessageCommandHandler.py:33 | no uploads yet |
| MessageHandler.CloudinaryService.UploadImage | api_capstone/app/application/commands/message/create/CreateMessageCommandHandler.py:88-95 | the upload is recorded with its arguments and the SDK's outcome returned |
| MessageHandler.CreateMessageCommandHandler.constructor | api_capstone/app/application/commands/message/create/CreateMessageCommandHandler.py:29-33 | the repository singleton, no backend handle, a fresh Cloudinary client |
| MessageHandler.CreateMessageCommandHandler.AskLlama | api_capstone/app/application/commands/message/create/CreateMessageCommandHandler.py:35-39 | loads the text model only when there is no handle; a spent handle fails with AttributeError; success is `Reply` of the decode |
| MessageHandler.CreateMessageCommandHandler.TextAnswer | api_capstone/app/application/commands/message/create/CreateMessageCommandHandler.py:127-142 | the image service is dropped; any failure is HTTP 500 "Error al contactar con LLaMA" |
| MessageHandler.CreateMessageCommandHandler.DropLlama | api_capstone/app/application/commands/message/create/CreateMessageCommandHandler.py:56-67 | succeeds iff the handle can be released, and then clears it; a spent handle raises AttributeError |
| MessageHandler.CreateMessageCommandHandler.EnsureImageService | api_capstone/app/application/commands/message/create/CreateMessageCommandHandler.py:69-70 | creates the image service only when there is none |
| MessageHandler.CreateMessageCommandHandler.GenerateAndUpload | api_capstone/app/application/commands/message/create/CreateMessageCommandHandler.py:72-118 | 30 steps, guidance 8.0, no negative prompt, seed below 2^32; upload to "chat_images", public_id None, no overwrite; the file is removed only after a successful upload; each stage's failure, including a prompt whose file name cannot be saved, is its own HTTP 500 |
| MessageHandler.CreateMessageCommandHandler.ImageAnswer | api_capstone/app/application/commands/message/create/CreateMessageCommandHandler.py:55-118 | success leaves no text model and an image service, and answers with the upload URL |
| MessageHandler.CreateMessageCommandHandler.Answer | api_capstone/app/application/commands/message/create/CreateMessageCommandHandler.py:55-152 | a failure stores nothing more; success stores exactly the SYSTEM message |
| MessageHandler.CreateMessageCommandHandler.Handle | api_capstone/app/application/commands/message/create/CreateMessageCommandHandler.py:41-161 | CLIENT stored first and kept on any later failure; success stores exactly CLIENT then SYSTEM (same chat and instant, image flag as requested, URL or reply as content), and never ends with both handles set |
| MessageHandler.ReusedAfterText | api_capstone/app/application/commands/message/create/CreateMessageCommandHandler.py:36-142 | after a text request the same handler fails the next request (HTTP 500 for text, AttributeError for an image), with its CLIENT message stored |
| MessageHandler.WrittenThenRemoved | api_capstone/app/application/commands/message/create/CreateMessageCommandHandler.py:103-104 | generating then removing the image leaves the other files as they were |
| LlamaTrainer.ChatTemplateEmbeds | api_capstone/app/application/services/LlamaTrainerService.py:24-30 | the message sits verbatim between the fixed system/user head and the open assistant turn |
| LlamaTrainer.ChatTemplateInjective | api_capstone/app/application/services/LlamaTrainerService.py:25-30 | different messages give different templates |
| LlamaTrainer.TrainingTextLayout | api_capstone/app/application/services/LlamaTrainerService.py:41-45 | system, user and assistant blocks in that order, holding the prompt and the completion verbatim |
| LlamaTrainer.Format | api_capstone/app/application/services/LlamaTrainerService.py:38-46 | KeyError("prompt") when that column is missing, else KeyError("completion") when that is missing; otherwise a record with the single key "text" holding the training text, a null field rendered "None" |
| LlamaTrainer.MapAll | api_capstone/app/application/services/LlamaTrainerService.py:48 | Ok iff every element maps, and then the results in order; otherwise the first element's error |
| LlamaTrainer.Columns | api_capstone/app/application/services/LlamaTrainerService.py:36 | the dataset's columns are exactly the fields some line has |
| LlamaTrainer.LoadRows | api_capstone/app/application/services/LlamaTrainerService.py:36 | one row per line over all the columns, holding the line's value or None where it lacks the field |
| LlamaTrainer.MissingFieldReadsAsNone | api_capstone/app/application/services/LlamaTrainerService.py:36-48 | a line lacking "completion" beside one that has it trains on the text "None" |
| LlamaTrainer.PreparedRecords | api_capstone/app/application/services/LlamaTrainerService.py:36-48 | prepared iff the file is empty or some line has "prompt" and some line has "completion"; then one "text" record per line, in order, a missing field read as "None"; otherwise the KeyError of the first absent column |
| LlamaTrainer.ResumeFrom | api_capstone/app/application/services/LlamaTrainerService.py:129-134 | a checkpoint exactly when a non-empty resume value is given |
| LlamaTrainer.ResumeIgnoresValue | api_capstone/app/application/services/LlamaTrainerService.py:129-132 | every truthy value resumes from the same `<new_model_dir>/checkpoint-100` |
| LlamaTrainer.TrainResult | api_capstone/app/application/services/LlamaTrainerService.py:143-147 | keys status, local_path and hf_repo; hf_repo is push_to_hub or "" |
| LlamaTrainer.Train | api_capstone/app/application/services/LlamaTrainerService.py:50-147 | a load failure comes first, then a dataset KeyError, then a training failure; success records the dataset, the resume checkpoint and the result |
| LlamaTrainer.TrainHttpError | api_capstone/app/infrastructure/controllers/LlamaTrainerController.py:85-96 | a KeyError is 400 with the missing-fields detail; anything else is 500 |
| LlamaTrainer.EndpointRun | api_capstone/app/infrastructure/controllers/LlamaTrainerController.py:76-96 | the endpoint always resumes from `<dir>/checkpoint-100`; a non-empty file where no line has "prompt", or none has "completion", gives 400 |
| ResponseWrapper.Values | api_capstone/app/infrastructure/middlewares/ResponseWrapperMiddleware.py:47 | never more values than entries |
| ResponseWrapper.Get | api_capstone/app/infrastructure/middlewares/ResponseWrapperMiddleware.py:24 | the first value under the lower-cased name, or the default |
| ResponseWrapper.SetHeaderValues | api_capstone/app/infrastructure/middlewares/ResponseWrapperMiddleware.py:49 | after `headers[n] = v`, `n` has exactly the one value v, other names are unchanged |
| ResponseWrapper.SetHeaderOthers | api_capstone/app/infrastructure/middlewares/ResponseWrapperMiddleware.py:49 | setting `n` leaves every entry of other names in place |
| ResponseWrapper.MutableHeaders.constructor | api_capstone/app/infrastructure/middlewares/ResponseWrapperMiddleware.py:45 | the header list starts as given |
| ResponseWrapper.MutableHeaders.Set | api_capstone/app/infrastructure/middlewares/ResponseWrapperMiddleware.py:49 | `__setitem__` with the lower-cased name |
| ResponseWrapper.MutableHeaders.Append | api_capstone/app/infrastructure/middlewares/ResponseWrapperMiddleware.py:49 | one further entry with the lower-cased name |
| ResponseWrapper.Lowered | api_capstone/app/infrastructure/middlewares/ResponseWrapperMiddleware.py:47-48 | every name lower-cased, values and order kept |
| ResponseWrapper.CopyHeaders | api_capstone/app/infrastructure/middlewares/ResponseWrapperMiddleware.py:47-49 | the new headers are `Copied` of the original list |
| ResponseWrapper.CopiedValues | api_capstone/app/infrastructure/middlewares/ResponseWrapperMiddleware.py:47-49 | content-type and content-length, and absent names, keep the new response's values; any other name keeps only its last original value |
| ResponseWrapper.AppendedValues | api_capstone/app/infrastructure/middlewares/ResponseWrapperMiddleware.py:47-49 | appending keeps every value of every copied name, in order, after the new response's own |
| ResponseWrapper.DuplicateHeaderCollapses | api_capstone/app/infrastructure/middlewares/ResponseWrapperMiddleware.py:47-49 | two entries of one name: the loop as written keeps only the second; appending keeps both |
| ResponseWrapper.Payload | api_capstone/app/infrastructure/middlewares/ResponseWrapperMiddleware.py:35-38 | the parsed JSON when `json.loads` succeeds, the body's text otherwise |
| ResponseWrapper.EnvelopeFields | api_capstone/app/infrastructure/middlewares/ResponseWrapperMiddleware.py:40-43 | exactly the fields error and data; error is true iff the status is 400 or more |
| ResponseWrapper.Dispatch | api_capstone/app/infrastructure/middlewares/ResponseWrapperMiddleware.py:18-51 | documentation routes and non-JSON responses pass through unchanged; otherwise the same status, the envelope, and the copied headers |
| ResponseWrapper.WrappedRenderedHeaders | api_capstone/app/infrastructure/middlewares/ResponseWrapperMiddleware.py:45-49 | a wrapped response has exactly one content-type, "application/json", and its own content-length (none for 1xx, 204 and 304) |
| CookieAuth.FirstMatch | frontend_capstone/src/lib/auth.ts:14 | the leftmost position at or after `from` where the expression matches |
| CookieAuth.ValueFrom | frontend_capstone/src/lib/auth.ts:14 | the group: the characters up to the next ';' or the end |
| CookieAuth.TokenOf | frontend_capstone/src/lib/auth.ts:14-15 | None iff nothing matches; a token is non-empty and holds no ';' |
| CookieAuth.GetUserFromCookie | frontend_capstone/src/lib/auth.ts:10-26 | no match gives null; a URI error escapes; a decode failure gives null; otherwise user_id = sub and username = username ?? sub |
| CookieAuth.TokenOfFirstMatch | frontend_capstone/src/lib/auth.ts:14 | the token is the group of the first match |
| CookieAuth.TokenAtStart | frontend_capstone/src/lib/auth.ts:14 | a cookie string starting with the key and a non-empty value yields that value |
| CookieAuth.TokenAfterSeparator | frontend_capstone/src/lib/auth.ts:14 | after "; " the key and value are found when the text before holds no match |
| CookieAuth.KeyInsideWordRejected | frontend_capstone/src/lib/auth.ts:14 | a key preceded by another character, as in "xaccess_token=v", does not match |
| CookieAuth.EmptyValueRejected | frontend_capstone/src/lib/auth.ts:14 | "access_token=;" gives no token |
| CookieAuth.ClearedCookieHasNoUser | frontend_capstone/src/lib/auth.ts:14-31 | the string `clearAuthCookie` writes, read back, gives no user |
| MessageInput.Truthy | capstone_frontend/chatApp/src/components/MessageInput.tsx:47 | `!!checked` is false only for `false` |
| MessageInput.SendEnabledIff | capstone_frontend/chatApp/src/components/MessageInput.tsx:61 | sending is enabled iff not disabled and the text holds a non-white-space character |
| MessageInput.Composer.constructor | capstone_frontend/chatApp/src/components/MessageInput.tsx:14-15 | empty text, checkbox off, nothing sent |
| MessageInput.Composer.Type | capstone_frontend/chatApp/src/components/MessageInput.tsx:34 | the text cell takes the input, nothing else changes |
| MessageInput.Composer.Check | capstone_frontend/chatApp/src/components/MessageInput.tsx:47 | the checkbox cell takes `!!checked`, nothing else changes |
| MessageInput.Composer.HandleSubmit | capstone_frontend/chatApp/src/components/MessageInput.tsx:17-24 | blank text changes nothing; otherwise one `onSend` with the trimmed text and the flag, and both cells reset |
| MessageInput.TypeTickSubmit | capstone_frontend/chatApp/src/components/MessageInput.tsx:17-61 | non-blank text goes out trimmed with the box's state, and the composer ends empty with sending disabled; blank text sends nothing and stays |
| ChatSidebar.Dialog | capstone_frontend/chatApp/src/components/ChatSidebar.tsx:119-136 | edit texts iff a chat is selected, create texts otherwise; save enabled iff the trimmed title is non-empty |
| ChatSidebar.Render | capstone_frontend/chatApp/src/components/ChatSidebar.tsx:44-45 | nothing is rendered iff logged out |
| ChatSidebar.SaveEnabledIffSubmitSends | capstone_frontend/chatApp/src/components/ChatSidebar.tsx:136 | save is enabled iff the title holds a non-white-space character |
| ChatSidebar.Sidebar.constructor | capstone_frontend/chatApp/src/components/ChatSidebar.tsx:38-43 | both dialogs closed, nothing selected, empty title, no request |
| ChatSidebar.Sidebar.OpenCreateDialog | capstone_frontend/chatApp/src/components/ChatSidebar.tsx:47-51 | clears the selection and the title and opens the dialog |
| ChatSidebar.Sidebar.OpenEditDialog | capstone_frontend/chatApp/src/components/ChatSidebar.tsx:53-57 | selects the chat, preloads its title and opens the dialog |
| ChatSidebar.Sidebar.SetTitle | capstone_frontend/chatApp/src/components/ChatSidebar.tsx:124 | only the title changes |
| ChatSidebar.Sidebar.SetDialogOpen | capstone_frontend/chatApp/src/components/ChatSidebar.tsx:102-131 | only the open flag changes; the selection is kept |
| ChatSidebar.Sidebar.HandleDialogSubmit | capstone_frontend/chatApp/src/components/ChatSidebar.tsx:59-68 | blank title: nothing sent, dialog stays open; otherwise exactly one request with the trimmed title (editChat of the selected chat, createChat otherwise) and the dialog closes |
| ChatSidebar.Sidebar.OpenDeleteDialog | capstone_frontend/chatApp/src/components/ChatSidebar.tsx:70-73 | selects the chat for deletion and opens the delete dialog |
| ChatSidebar.Sidebar.SetDeleteDialogOpen | capstone_frontend/chatApp/src/components/ChatSidebar.tsx:177-197 | only the delete dialog's flag changes |
| ChatSidebar.Sidebar.HandleDeleteConfirm | capstone_frontend/chatApp/src/components/ChatSidebar.tsx:75-80 | deleteChat only when a chat is selected; the delete dialog closes either way |
| ChatSidebar.RenameFlow | capstone_frontend/chatApp/src/components/ChatSidebar.tsx:53-68 | edit, type, save: one rename of that chat with the trimmed title and the dialog closed, or nothing for a blank title |
| ChatSidebar.CreateAfterCancelledEdit | capstone_frontend/chatApp/src/components/ChatSidebar.tsx:47-131 | after a cancelled edit, a new chat is a creation, not a rename |
| Header.RawLanguage | frontend_capstone/src/components/Header.tsx:24 | an undefined or empty language counts as "en"; any other is kept |
| Header.CurrentLang | frontend_capstone/src/components/Header.tsx:24-26 | always "en" or "es" |
| Header.CurrentLangCharacterized | frontend_capstone/src/components/Header.tsx:24-26 | the text before the first '-' (or the whole text) when that is "en" or "es", and "en" otherwise, empty language included |
| Header.UndefinedLanguageIsEnglish | frontend_capstone/src/components/Header.tsx:24-26 | no language shows English |
| Header.CurrentLangIdempotent | frontend_capstone/src/components/Header.tsx:24-26 | normalising a normalised language changes nothing |
| Header.ToggleLang | frontend_capstone/src/components/Header.tsx:28-31 | always a supported language, and the other one than shown |
| Header.ToggleTheme | frontend_capstone/src/components/Header.tsx:33-35 | "dark" iff the theme is "light", "light" otherwise |
| Header.Render | frontend_capstone/src/components/Header.tsx:52-88 | US flag iff English; label is the language upper-cased; theme button iff mounted; logout iff logged in, login and signup otherwise |
| Header.LabelMatchesFlag | frontend_capstone/src/components/Header.tsx:52-63 | the label is "EN" with the US flag and "ES" otherwise |
| Header.ThemeButtonNamesTarget | frontend_capstone/src/components/Header.tsx:66-72 | the theme button's label names the theme a click switches to, with the moon exactly when that is dark |

## Left out

- Database sessions, SQL text, transactions beyond all-or-nothing, and the ORM's identity map are not modelled. A table is a sequence of rows with a constraint check given as a function.
- The foreign key from messages to chats is not checked on insert. The delete cascade is modelled.
- FastAPI's routing, request parsing, and its mapping of uncaught exceptions to HTTP 500 are not modelled. An uncaught exception is the `Err` result.
- bcrypt's digest and the JWT signature algorithms are abstract. A hash is its salt and the 72-byte key it was computed from. A token verifies exactly under its own key and algorithm.
- Auth.HashVerifiesOnlyItsPassword: no longer promises that a hash verifies no other password; bcrypt reads only the first 72 UTF-8 bytes, so longer passwords that agree on them verify each other.
- Handlers.StoredPasswordVerifies: the same 72-byte caveat applies to the stored sign-up hash.
- Auth.HashPassword: passlib's refusal of a password holding NUL or longer than 4096 bytes is not modelled; such a password is hashed like any other.
- Auth.PyInt: only ASCII decimal digits are read (with the sign, surrounding whitespace and single underscores `int()` allows); Python also accepts the other Unicode decimal digits, and refuses numerals over 4300 digits; neither is modelled. A float claim is an exact real.
- Uuids.ParseUuid: `int(x, 16)` reads ASCII hex digits only; the other Unicode decimal digits Python also accepts are not modelled, so such a subject is refused here where the source would accept it.
- Auth.TokenRoundTrip: requires the other claims of the input to pass the checks; `Auth.TokenAcceptedIff` states what happens otherwise.
- Auth.TokenExpires: requires `iat` and `nbf` to pass, since the codec checks them before the expiry.
- Auth.DecodeToken: signature checking, base64 and JSON decoding of the token text are not modelled; a token is either signed claims or garbled text. The `iss` check is absent because no issuer is expected.
- Repositories.UserVerdict: usernames and e-mails are compared exactly. MySQL's default collation compares them case- and accent-insensitively, so the database refuses more duplicates than the model does.
- Repositories.UserByUsername: the lookup compares exactly, where MySQL's collation would also find a name that differs in case.
- Repositories.ChatVerdict: the column widths (User.py:20-21 username String(50) and email String(100), Chat.py:21 title String(100)) are not enforced. MySQL refuses an over-long value with a DataError that the code does not catch; the model stores it.
- BaseRepo.BaseRepository.Create: the same column widths are not checked on insert.
- BaseRepo.BaseRepository.Update: the same column widths are not checked on update.
- Repositories.MessageOrder: `created_at` is a DateTime column (Message.py:25), which MySQL stores to the whole second; messages within one second tie there and fall back to `message_id`, while the model orders by the full timestamp it is given.
- `datetime.now`, `uuid4`, `random.randint` and the database-assigned ids and timestamps are parameters.
- torch, CUDA, `gc.collect`, CPU offloading and `empty_cache` are not modelled. They have no effect on the results, and their errors are swallowed in the source.
- The diffusion pipeline, the text model's `generate`, the tokenizer and `decode` are outcome parameters. So are the Cloudinary SDK, `subprocess.run`, `FastLanguageModel.from_pretrained` and the SFT trainer.
- The executor thread that runs `chat` and any concurrency between requests are not modelled.
- `Path.resolve()`, `str(lr)` (float formatting) and the order of `iterdir()` are parameters. Path normalisation is not modelled: `Path(dir) / name` is `dir + "/" + name`.
- A caption path that is a directory, and the other OS errors of `read_text`, are not modelled.
- `json.dumps` is modelled for string literals only. Surrogate pairs and non-BMP characters are not handled separately.
- Lower-casing covers ASCII and Latin-1. Python's full Unicode case mapping is not modelled.
- LlamaTrainer.Train: every field of a JSONL line is a string; other JSON types and Arrow's type unification across lines are not modelled. Reading the file, the LoRA adapter injection and saving the artifacts are outcome parameters.
- LlamaTrainer: the tokenizer's chat template (`_chat_template`) and the Spanish system block of `_format` differ in the source. Both are modelled as written.
- ResponseWrapper.Dispatch: the body bytes are decoded by the caller, `json.loads` is a parameter, and so is the length of the rendered envelope. JSON rendering of the envelope is not modelled.
- ResponseWrapper: Starlette's `MutableHeaders.__setitem__` is assumed to replace the first entry of a name and drop the others. `JSONResponse.init_headers` is assumed to add content-length, except for 1xx, 204 and 304, followed by content-type.
- CookieAuth.GetUserFromCookie: `decodeURIComponent` and `jwt_decode` are parameters. The regular expression is modelled by the key position of its leftmost match.
- CookieAuth.ClearedCookieHasNoUser: the browser's cookie jar is not modelled. The lemma reads back the assigned string itself, not what `document.cookie` returns after expiry.
- React rendering, i18n lookups, styling, the login and signup modals, and the chat-list queries are not modelled. Mutation requests are recorded in a log; their results are not awaited.
- Header: `i18n.changeLanguage` and `setTheme` are modelled by the value they receive.


/** The chat and user command handlers: each performs one store operation through the
    repository its constructor takes from the class-level singleton. */
module Handlers {
  import opened Wrappers
  import opened Errors
  import opened Entities
  import opened Ordering
  import BaseRepo
  import Repositories
  import Uuids
  import Auth

  datatype CreateChatResponse = CreateChatResponse(chat: Chat, message: string)
  datatype UpdateChatTitleResponse = UpdateChatTitleResponse(chat: Chat, message: string)
  datatype DeleteChatResponse = DeleteChatResponse(message: string)
  /** The `User` response model: the password field is excluded from its output. */
  datatype UserView = UserView(userId: string, username: string, email: string)
  datatype CreateUserResponse = CreateUserResponse(user: UserView, message: string)

  const ChatCreated := "Chat created successfully."
  const ChatTitleUpdated := "Chat title updated."
  const ChatDeleted := "Chat deleted successfully."
  const UserCreated := "User created successfully."

  /** A chat repository as `ChatRepository.instance()` builds it. */
  ghost predicate IsChatRepository(repo: BaseRepo.BaseRepository<Chat>)
    reads repo
  {
    repo.Valid() && repo.keyOf == ChatKey && repo.verdict == Repositories.ChatVerdict
    && repo.modelName == "ChatEntity"
  }

  ghost predicate IsMessageRepository(repo: BaseRepo.BaseRepository<Message>)
    reads repo
  {
    repo.Valid() && repo.keyOf == MessageKey && repo.verdict == Repositories.MessageVerdict
    && repo.modelName == "MessageEntity"
  }

  ghost predicate IsUserRepository(repo: BaseRepo.BaseRepository<User>)
    reads repo
  {
    repo.Valid() && repo.keyOf == UserKey && repo.verdict == Repositories.UserVerdict
    && repo.modelName == "UserEntity"
  }

  // ---------------------------------------------------------------------------
  // CreateChatCommandHandler

  class CreateChatCommandHandler {
    const chatRepo: BaseRepo.BaseRepository<Chat>

    constructor (chatRepo: BaseRepo.BaseRepository<Chat>)
      ensures this.chatRepo == chatRepo
    {
      this.chatRepo := chatRepo;
    }

    /** `handle`: insert a chat with the request's title and the stringified user id; the
        database assigns `chat_id` (`freshId`) and `created_at` (`now`). A repository error
        propagates and nothing is stored. */
    method Handle(title: Option<string>, userId: nat, freshId: nat, now: int) returns (r: Result<CreateChatResponse, Exc>)
      requires IsChatRepository(chatRepo)
      requires userId < Uuids.Uuid128 && freshId < Uuids.Uuid128
      modifies chatRepo
      ensures IsChatRepository(chatRepo)
      ensures var entity := Chat(Uuids.Canonical(freshId), title, Uuids.Canonical(userId), now);
        match old(Repositories.ChatVerdict(chatRepo.rows, entity))
        case None =>
          && chatRepo.rows == old(chatRepo.rows) + [entity]
          && r == Ok(CreateChatResponse(entity, ChatCreated))
        case Some(orig) =>
          && chatRepo.rows == old(chatRepo.rows)
          && r == Err(ValueError(BaseRepo.ParseIntegrityError(orig)))
    {
      var entity := Chat(Uuids.Canonical(freshId), title, Uuids.Canonical(userId), now);
      var created := chatRepo.Create(entity);
      match created
      case Err(e) => r := Err(e);
      case Ok(_) => r := Ok(CreateChatResponse(entity, ChatCreated));
    }
  }

  /** A new chat id is fresh exactly when no stored chat has it; then the insert succeeds. */
  lemma CreateChatSucceedsOnFreshId(rows: seq<Chat>, entity: Chat)
    ensures Repositories.ChatVerdict(rows, entity).None? <==> forall c :: c in rows ==> c.chatId != entity.chatId
  {
    if Repositories.ChatVerdict(rows, entity).Some? {
      var i := BaseRepo.IndexOfKey(rows, ChatKey, entity.chatId).value;
      assert rows[i] in rows;
    }
  }

  // ---------------------------------------------------------------------------
  // UpdateChatTitleCommandHandler

  class UpdateChatTitleCommandHandler {
    const chatRepo: BaseRepo.BaseRepository<Chat>

    constructor (chatRepo: BaseRepo.BaseRepository<Chat>)
      ensures this.chatRepo == chatRepo
    {
      this.chatRepo := chatRepo;
    }

    /** `handle`: fetch the chat by `str(chat_id)`, set its title (None included) and merge it
        back. An unknown id raises `get`'s ValueError and changes nothing; otherwise only that
        chat's title changes. */
    method Handle(chatId: nat, title: Option<string>) returns (r: Result<UpdateChatTitleResponse, Exc>)
      requires IsChatRepository(chatRepo)
      requires chatId < Uuids.Uuid128
      modifies chatRepo
      ensures IsChatRepository(chatRepo)
      ensures chatRepo.sessionRenewals == old(chatRepo.sessionRenewals)
      ensures var key := Uuids.Canonical(chatId);
        match old(BaseRepo.Lookup(chatRepo.rows, ChatKey, "ChatEntity", key))
        case Err(e) => r == Err(e) && chatRepo.rows == old(chatRepo.rows)
        case Ok(c) =>
          && r == Ok(UpdateChatTitleResponse(c.(title := title), ChatTitleUpdated))
          && chatRepo.rows == Retitled(old(chatRepo.rows), key, c.(title := title))
    {
      var key := Uuids.Canonical(chatId);
      var found := chatRepo.Get(key);
      match found
      case Err(e) =>
        r := Err(e);
      case Ok(c) =>
        var entity := c.(title := title);
        ghost var before := chatRepo.rows;
        assert Repositories.ChatVerdict(BaseRepo.Without(before, ChatKey, key), entity).None?;
        var updated := chatRepo.Update(entity);
        assert chatRepo.rows == BaseRepo.Merged(before, ChatKey, entity);
        RetitledRows(before, key, entity);
        r := Ok(UpdateChatTitleResponse(entity, ChatTitleUpdated));
    }
  }

  /** The rows with every chat keyed `key` replaced by `entity`, all others in place. */
  function Retitled(rows: seq<Chat>, key: string, entity: Chat): (r: seq<Chat>)
    ensures |r| == |rows|
    ensures forall k :: 0 <= k < |r| ==> r[k] == if rows[k].chatId == key then entity else rows[k]
  {
    seq(|rows|, k requires 0 <= k < |rows| => if rows[k].chatId == key then entity else rows[k])
  }

  /** Merging a retitled chat replaces that one row and keeps every other row in place. */
  lemma RetitledRows(rows: seq<Chat>, key: string, entity: Chat)
    requires BaseRepo.KeysUnique(rows, ChatKey)
    requires entity.chatId == key && BaseRepo.IndexOfKey(rows, ChatKey, key).Some?
    ensures BaseRepo.Merged(rows, ChatKey, entity) == Retitled(rows, key, entity)
  {
    var i := BaseRepo.IndexOfKey(rows, ChatKey, key).value;
    forall k | 0 <= k < |rows| && k != i ensures rows[k].chatId != key {
      if k < i {
        assert ChatKey(rows[k]) != ChatKey(rows[i]);
      } else {
        assert ChatKey(rows[i]) != ChatKey(rows[k]);
      }
    }
  }

  // ---------------------------------------------------------------------------
  // DeleteChatCommandHandler

  predicate OutsideChat(chatId: string, m: Message) { m.chatId != chatId }

  class DeleteChatCommandHandler {
    const chatRepo: BaseRepo.BaseRepository<Chat>
    /** The `messages` table, which the ORM's delete-orphan cascade reaches. */
    const messageRepo: BaseRepo.BaseRepository<Message>

    constructor (chatRepo: BaseRepo.BaseRepository<Chat>, messageRepo: BaseRepo.BaseRepository<Message>)
      ensures this.chatRepo == chatRepo && this.messageRepo == messageRepo
    {
      this.chatRepo := chatRepo;
      this.messageRepo := messageRepo;
    }

    /** `handle`: delete the chat (after `get`), and with it, by the cascade, its messages.
        An absent chat raises ValueError and nothing is removed. */
    method Handle(chatId: nat) returns (r: Result<DeleteChatResponse, Exc>)
      requires IsChatRepository(chatRepo) && IsMessageRepository(messageRepo)
      requires chatId < Uuids.Uuid128
      modifies chatRepo, messageRepo
      ensures IsChatRepository(chatRepo) && IsMessageRepository(messageRepo)
      ensures var key := Uuids.Canonical(chatId);
        match old(BaseRepo.Lookup(chatRepo.rows, ChatKey, "ChatEntity", key))
        case Err(e) =>
          r == Err(e) && chatRepo.rows == old(chatRepo.rows) && messageRepo.rows == old(messageRepo.rows)
        case Ok(_) =>
          && r == Ok(DeleteChatResponse(ChatDeleted))
          && chatRepo.rows == old(BaseRepo.Without(chatRepo.rows, ChatKey, key))
          && messageRepo.rows == old(Filter(messageRepo.rows, (m: Message) => OutsideChat(key, m)))
    {
      var key := Uuids.Canonical(chatId);
      var deleted := chatRepo.Delete(key);
      match deleted
      case Err(e) =>
        r := Err(e);
      case Ok(_) =>
        FilterKeepsKeysUnique(messageRepo.rows, MessageKey, (m: Message) => OutsideChat(key, m));
        messageRepo.rows := Filter(messageRepo.rows, (m: Message) => OutsideChat(key, m));
        r := Ok(DeleteChatResponse(ChatDeleted));
    }
  }

  lemma {:induction false} FilterKeepsKeysUnique<E(!new)>(rows: seq<E>, keyOf: E -> string, p: E -> bool)
    requires BaseRepo.KeysUnique(rows, keyOf)
    ensures BaseRepo.KeysUnique(Filter(rows, p), keyOf)
    decreases |rows|
  {
    if rows != [] {
      TailKeysUnique(rows, keyOf);
      FilterKeepsKeysUnique(rows[1..], keyOf, p);
      var tail := Filter(rows[1..], p);
      if p(rows[0]) {
        forall x | x in tail ensures keyOf(x) != keyOf(rows[0]) {
          HeadKeyFresh(rows, keyOf, x);
        }
        ConsKeysUnique(rows[0], tail, keyOf);
      }
    }
  }

  lemma TailKeysUnique<E>(rows: seq<E>, keyOf: E -> string)
    requires rows != [] && BaseRepo.KeysUnique(rows, keyOf)
    ensures BaseRepo.KeysUnique(rows[1..], keyOf)
  {
    forall i, j | 0 <= i < j < |rows[1..]| ensures keyOf(rows[1..][i]) != keyOf(rows[1..][j]) {
      assert keyOf(rows[i + 1]) != keyOf(rows[j + 1]);
    }
  }

  lemma HeadKeyFresh<E>(rows: seq<E>, keyOf: E -> string, x: E)
    requires rows != [] && BaseRepo.KeysUnique(rows, keyOf) && x in rows[1..]
    ensures keyOf(x) != keyOf(rows[0])
  {
    var k :| 0 <= k < |rows[1..]| && rows[1..][k] == x;
    assert keyOf(rows[0]) != keyOf(rows[k + 1]);
  }

  lemma ConsKeysUnique<E>(h: E, t: seq<E>, keyOf: E -> string)
    requires BaseRepo.KeysUnique(t, keyOf)
    requires forall x :: x in t ==> keyOf(x) != keyOf(h)
    ensures BaseRepo.KeysUnique([h] + t, keyOf)
  {
    var r := [h] + t;
    forall i, j | 0 <= i < j < |r| ensures keyOf(r[i]) != keyOf(r[j]) {
      if i == 0 {
        assert r[j] == t[j - 1] && t[j - 1] in t;
      } else {
        assert r[i] == t[i - 1] && r[j] == t[j - 1];
      }
    }
  }

  /** After a successful delete the chat is gone: `get` raises and no message of it remains. */
  lemma DeletedChatIsGone(chats: seq<Chat>, messages: seq<Message>, key: string)
    ensures BaseRepo.Lookup(BaseRepo.Without(chats, ChatKey, key), ChatKey, "ChatEntity", key).Err?
    ensures forall m :: m in Filter(messages, (m: Message) => OutsideChat(key, m)) ==> m.chatId != key
  {
  }

  // ---------------------------------------------------------------------------
  // CreateCommandHandler (users)

  function UserViewOf(u: User): UserView {
    UserView(u.userId, u.username, u.email)
  }

  class CreateUserCommandHandler {
    const userRepo: BaseRepo.BaseRepository<User>

    constructor (userRepo: BaseRepo.BaseRepository<User>)
      ensures this.userRepo == userRepo
    {
      this.userRepo := userRepo;
    }

    /** `handle`: store a user whose password column is `hash_password(plain)` (under the
        library's fresh `salt`); a repository ValueError is re-raised as
        "Error creating user: <message>" and nothing is stored. */
    method Handle(username: string, email: string, password: string, salt: string, freshId: nat)
      returns (r: Result<CreateUserResponse, Exc>)
      requires IsUserRepository(userRepo)
      requires freshId < Uuids.Uuid128
      modifies userRepo
      ensures IsUserRepository(userRepo)
      ensures var entity := User(Uuids.Canonical(freshId), username, email, Auth.HashPassword(password, salt));
        match old(Repositories.UserVerdict(userRepo.rows, entity))
        case None =>
          && userRepo.rows == old(userRepo.rows) + [entity]
          && r == Ok(CreateUserResponse(UserViewOf(entity), UserCreated))
        case Some(orig) =>
          && userRepo.rows == old(userRepo.rows)
          && r == Err(ValueError("Error creating user: " + BaseRepo.ParseIntegrityError(orig)))
    {
      var entity := User(Uuids.Canonical(freshId), username, email, Auth.HashPassword(password, salt));
      var created := userRepo.Create(entity);
      match created
      case Ok(_) =>
        r := Ok(CreateUserResponse(UserViewOf(entity), UserCreated));
      case Err(e) =>
        if e.ValueError? {
          r := Err(ValueError("Error creating user: " + e.msg));
        } else {
          r := Err(e);
        }
    }
  }

  /** The stored password verifies the plain password given at sign-up, and another one
      only when both reach bcrypt's 72-byte limit and agree up to it. */
  lemma StoredPasswordVerifies(username: string, email: string, password: string, other: string, salt: string, id: string)
    ensures var entity := User(id, username, email, Auth.HashPassword(password, salt));
            Auth.VerifyPassword(other, entity.password) <==> other == password || Auth.AgreeToLimit(password, other)
  {
    Auth.HashVerifiesOnlyItsPassword(password, other, salt);
  }

  /** A second sign-up with a taken username is refused by the `users` table. */
  lemma TakenUsernameRefused(rows: seq<User>, entity: User)
    requires exists u :: u in rows && u.username == entity.username
    ensures Repositories.UserVerdict(rows, entity).Some?
  {
  }
}

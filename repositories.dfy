/** The message, chat and user repositories: each table's constraint check, the shared
    singleton accessor, and the queries each repository adds to the generic one. */
module Repositories {
  import opened Wrappers
  import opened Entities
  import opened Ordering
  import BaseRepo

  // ---------------------------------------------------------------------------
  // Constraint checks of the three tables

  /** The text MySQL reports for a duplicate value of a unique key. */
  function DuplicateEntry(value: string, table: string, key: string): string {
    "Duplicate entry '" + value + "' for key '" + table + "." + key + "'"
  }

  function MessageVerdict(rows: seq<Message>, m: Message): Option<string> {
    if BaseRepo.IndexOfKey(rows, MessageKey, m.messageId).Some? then
      Some(DuplicateEntry(m.messageId, "messages", "PRIMARY"))
    else None
  }

  function ChatVerdict(rows: seq<Chat>, c: Chat): Option<string> {
    if BaseRepo.IndexOfKey(rows, ChatKey, c.chatId).Some? then
      Some(DuplicateEntry(c.chatId, "chats", "PRIMARY"))
    else None
  }

  /** `users` has three unique columns: the key, `username` and `email`. */
  function UserVerdict(rows: seq<User>, u: User): Option<string> {
    if BaseRepo.IndexOfKey(rows, UserKey, u.userId).Some? then
      Some(DuplicateEntry(u.userId, "users", "PRIMARY"))
    else if FirstWhere(rows, (x: User) => x.username == u.username).Some? then
      Some(DuplicateEntry(u.username, "users", "username"))
    else if FirstWhere(rows, (x: User) => x.email == u.email).Some? then
      Some(DuplicateEntry(u.email, "users", "email"))
    else None
  }

  lemma VerdictsCheckKeys()
    ensures BaseRepo.ChecksKeys(MessageVerdict, MessageKey)
    ensures BaseRepo.ChecksKeys(ChatVerdict, ChatKey)
    ensures BaseRepo.ChecksKeys(UserVerdict, UserKey)
  {
  }

  ghost predicate UsernamesUnique(rows: seq<User>) {
    forall i, j :: 0 <= i < j < |rows| ==> rows[i].username != rows[j].username
  }

  /** An insert the `users` table accepts keeps usernames unique. */
  lemma UserVerdictKeepsUsernamesUnique(rows: seq<User>, u: User)
    requires UsernamesUnique(rows)
    requires UserVerdict(rows, u).None?
    ensures UsernamesUnique(rows + [u])
  {
    assert forall x :: x in rows ==> x.username != u.username;
    var r := rows + [u];
    forall i, j | 0 <= i < j < |r| ensures r[i].username != r[j].username {
      if j == |rows| {
        assert r[i] in rows;
      }
    }
  }

  // ---------------------------------------------------------------------------
  // The class-level singleton

  /** A repository class's `_instance` slot and its `instance()` accessor: the first call
      opens a session over the table as it then is, every later call returns that object. */
  class InstanceSlot<E(==,!new)> {
    const modelName: string
    const keyOf: E -> string
    const verdict: (seq<E>, E) -> Option<string>
    var instance: BaseRepo.BaseRepository?<E>

    constructor (modelName: string, keyOf: E -> string, verdict: (seq<E>, E) -> Option<string>)
      ensures this.modelName == modelName && this.keyOf == keyOf && this.verdict == verdict
      ensures instance == null
    {
      this.modelName := modelName;
      this.keyOf := keyOf;
      this.verdict := verdict;
      instance := null;
    }

    method Instance(table: seq<E>) returns (r: BaseRepo.BaseRepository<E>)
      requires BaseRepo.ChecksKeys(verdict, keyOf) && BaseRepo.KeysUnique(table, keyOf)
      modifies this
      ensures instance == r
      ensures old(instance) != null ==> r == old(instance)
      ensures old(instance) == null ==>
        fresh(r) && r.Valid() && r.rows == table
        && r.modelName == modelName && r.keyOf == keyOf && r.verdict == verdict
    {
      if instance == null {
        r := new BaseRepo.BaseRepository(modelName, keyOf, verdict);
        r.rows := table;
        instance := r;
      } else {
        r := instance;
      }
    }
  }

  // ---------------------------------------------------------------------------
  // MessageRepository.get_messages_by_chat_paged

  /** ORDER BY created_at ASC or DESC, then message_id ASC. */
  function MessageOrder(ascending: bool): (Message, Message) -> bool {
    (a: Message, b: Message) =>
      if a.createdAt != b.createdAt then
        (if ascending then a.createdAt < b.createdAt else a.createdAt > b.createdAt)
      else StrLe(a.messageId, b.messageId)
  }

  lemma MessageOrderIsTotalPreorder(ascending: bool)
    ensures TotalPreorder(MessageOrder(ascending))
  {
    var le := MessageOrder(ascending);
    forall a: Message, b: Message ensures le(a, b) || le(b, a) {
      StrLeTotal(a.messageId, b.messageId);
    }
    forall a: Message, b: Message, c: Message | le(a, b) && le(b, c) ensures le(a, c) {
      if a.createdAt == b.createdAt == c.createdAt {
        StrLeTransitive(a.messageId, b.messageId, c.messageId);
      }
    }
  }

  predicate InChat(chatId: string, m: Message) { m.chatId == chatId }

  /** The chat's messages in the query's order, before OFFSET and LIMIT. */
  function ChatMessagesOrdered(rows: seq<Message>, chatId: string, ascending: bool): seq<Message> {
    SortBy(Filter(rows, (m: Message) => InChat(chatId, m)), MessageOrder(ascending))
  }

  /** The chat's ordered messages are exactly its stored messages, sorted. */
  lemma ChatMessagesOrderedSpec(rows: seq<Message>, chatId: string, ascending: bool)
    ensures SortedBy(ChatMessagesOrdered(rows, chatId, ascending), MessageOrder(ascending))
    ensures multiset(ChatMessagesOrdered(rows, chatId, ascending))
         == multiset(Filter(rows, (m: Message) => InChat(chatId, m)))
    ensures forall m :: m in ChatMessagesOrdered(rows, chatId, ascending) <==> m in rows && m.chatId == chatId
  {
    var filtered := Filter(rows, (m: Message) => InChat(chatId, m));
    MessageOrderIsTotalPreorder(ascending);
    SortBySpec(filtered, MessageOrder(ascending));
    var r := ChatMessagesOrdered(rows, chatId, ascending);
    forall m ensures m in r <==> m in filtered {
      assert m in r <==> m in multiset(r);
    }
  }

  /** `get_messages_by_chat_paged`: `.offset(offset).limit(limit)` on the ordered list. */
  function MessagesPage(rows: seq<Message>, chatId: string, limit: nat, offset: nat, ascending: bool)
    : seq<Message>
  {
    Page(ChatMessagesOrdered(rows, chatId, ascending), limit, offset)
  }

  /** A page holds at most `limit` messages, all stored and all of the chat, in the
      requested order, and it is the slice of the ordered list starting at `offset`. */
  lemma MessagesPageSpec(rows: seq<Message>, chatId: string, limit: nat, offset: nat, ascending: bool)
    ensures var all := ChatMessagesOrdered(rows, chatId, ascending);
            var page := MessagesPage(rows, chatId, limit, offset, ascending);
            && |page| <= limit
            && (forall m :: m in page ==> m in rows && m.chatId == chatId)
            && (forall k :: 0 <= k < |page| ==> page[k] == all[offset + k])
            && SortedBy(page, MessageOrder(ascending))
  {
    var all := ChatMessagesOrdered(rows, chatId, ascending);
    ChatMessagesOrderedSpec(rows, chatId, ascending);
    PageSorted(all, limit, offset, MessageOrder(ascending));
    var page := MessagesPage(rows, chatId, limit, offset, ascending);
    forall m | m in page ensures m in all {
      var k :| 0 <= k < |page| && page[k] == m;
      assert all[offset + k] == m;
    }
  }

  /** Reading two consecutive pages gives the same messages as one page of both sizes. */
  lemma ConsecutivePages(rows: seq<Message>, chatId: string, offset: nat, l1: nat, l2: nat, ascending: bool)
    ensures MessagesPage(rows, chatId, l1, offset, ascending) + MessagesPage(rows, chatId, l2, offset + l1, ascending)
         == MessagesPage(rows, chatId, l1 + l2, offset, ascending)
  {
    ConsecutivePagesConcat(ChatMessagesOrdered(rows, chatId, ascending), offset, l1, l2);
  }

  /** With message_id the primary key, consecutive pages never share a message. */
  lemma ConsecutivePagesDisjoint(rows: seq<Message>, chatId: string, offset: nat, l1: nat, l2: nat, ascending: bool)
    requires BaseRepo.KeysUnique(rows, MessageKey)
    ensures forall m :: m in MessagesPage(rows, chatId, l1, offset, ascending)
                    ==> m !in MessagesPage(rows, chatId, l2, offset + l1, ascending)
  {
    var all := ChatMessagesOrdered(rows, chatId, ascending);
    ChatMessagesOrderedSpec(rows, chatId, ascending);
    assert NoDuplicates(rows) by {
      forall i, j | 0 <= i < j < |rows| ensures rows[i] != rows[j] {
        assert MessageKey(rows[i]) != MessageKey(rows[j]);
      }
    }
    DistinctSub(rows, all);
    ConsecutivePagesApart(all, offset, l1, l2);
  }

  /** The ordering ties no two distinct stored messages, so the result does not depend on
      the order in which the table happens to hold its rows. */
  lemma ChatMessagesOrderIndependent(rows: seq<Message>, other: seq<Message>, chatId: string, ascending: bool)
    requires BaseRepo.KeysUnique(rows, MessageKey)
    requires multiset(rows) == multiset(other)
    ensures ChatMessagesOrdered(rows, chatId, ascending) == ChatMessagesOrdered(other, chatId, ascending)
  {
    var p := (m: Message) => InChat(chatId, m);
    var s := ChatMessagesOrdered(rows, chatId, ascending);
    var t := ChatMessagesOrdered(other, chatId, ascending);
    ChatMessagesOrderedSpec(rows, chatId, ascending);
    ChatMessagesOrderedSpec(other, chatId, ascending);
    FilterMultiset(rows, other, p);
    var le := MessageOrder(ascending);
    forall a, b | a in s && b in s && le(a, b) && le(b, a) ensures a == b {
      StrLeAntisymmetric(a.messageId, b.messageId);
      var i :| 0 <= i < |rows| && rows[i] == a;
      var j :| 0 <= j < |rows| && rows[j] == b;
      assert MessageKey(rows[i]) == MessageKey(rows[j]);
    }
    SortedUnique(s, t, le);
  }

  // ---------------------------------------------------------------------------
  // ChatRepository

  /** `get_by_chat_id`: the chat with that id, or None; unlike `get` it never raises. */
  function ChatById(rows: seq<Chat>, chatId: string): (r: Option<Chat>)
    ensures r.Some? ==> r.value in rows && r.value.chatId == chatId
    ensures r.None? <==> forall c :: c in rows ==> c.chatId != chatId
  {
    FirstWhere(rows, (c: Chat) => c.chatId == chatId)
  }

  /** ORDER BY created_at DESC. */
  function ChatNewerOrSame(a: Chat, b: Chat): bool { a.createdAt >= b.createdAt }

  predicate OwnedBy(userId: string, c: Chat) { c.userId == userId }

  /** `get_chats_by_user`, with ties kept in storage order (the database leaves them free). */
  function ChatsByUser(rows: seq<Chat>, userId: string): seq<Chat> {
    SortBy(Filter(rows, (c: Chat) => OwnedBy(userId, c)), ChatNewerOrSame)
  }

  /** The listing holds all and only the user's chats, each as often as stored, newest first. */
  lemma ChatsByUserSpec(rows: seq<Chat>, userId: string)
    ensures var r := ChatsByUser(rows, userId);
            && multiset(r) == multiset(Filter(rows, (c: Chat) => OwnedBy(userId, c)))
            && (forall c :: c in r <==> c in rows && c.userId == userId)
            && (forall i, j :: 0 <= i < j < |r| ==> r[i].createdAt >= r[j].createdAt)
  {
    var filtered := Filter(rows, (c: Chat) => OwnedBy(userId, c));
    assert TotalPreorder(ChatNewerOrSame);
    SortBySpec(filtered, ChatNewerOrSame);
    var r := ChatsByUser(rows, userId);
    forall c ensures c in r <==> c in filtered {
      assert c in r <==> c in multiset(r);
    }
  }

  // ---------------------------------------------------------------------------
  // UserRepository

  /** `get_by_username`: the user with that name, or None. */
  function UserByUsername(rows: seq<User>, username: string): (r: Option<User>)
    ensures r.Some? ==> r.value in rows && r.value.username == username
    ensures r.None? <==> forall u :: u in rows ==> u.username != username
  {
    FirstWhere(rows, (u: User) => u.username == username)
  }

  /** With unique usernames the user found is the only one with that name. */
  lemma UserByUsernameUnique(rows: seq<User>, username: string)
    requires UsernamesUnique(rows)
    ensures UserByUsername(rows, username).Some? ==>
      forall u :: u in rows && u.username == username ==> u == UserByUsername(rows, username).value
  {
    var r := UserByUsername(rows, username);
    if r.Some? {
      forall u | u in rows && u.username == username ensures u == r.value {
        var i :| 0 <= i < |rows| && rows[i] == u;
        var j :| 0 <= j < |rows| && rows[j] == r.value;
        assert i == j;
      }
    }
  }
}

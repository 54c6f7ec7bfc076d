/** The persisted rows: users, chats and messages (the ORM entities' columns). */
module Entities {
  import opened Wrappers
  import Text

  /** A bcrypt hash as stored in the `password` column. bcrypt's digest is not modelled:
      the value records the salt and the key it was computed from (the bytes of the password
      that bcrypt reads), so that verification can be stated; nothing in the model reads
      `key` except `VerifyPassword`. */
  datatype PasswordHash = BcryptHash(salt: string, key: seq<Text.Byte>)

  datatype MessageType = Client | System

  /** A row of `messages`; `createdAt` is a UTC instant in microseconds. */
  datatype Message = Message(
    messageId: string,
    chatId: string,
    content: string,
    image: bool,
    createdAt: int,
    kind: MessageType)

  /** A row of `chats`; the title column is nullable. */
  datatype Chat = Chat(chatId: string, title: Option<string>, userId: string, createdAt: int)

  /** A row of `users`; username and email are unique columns. */
  datatype User = User(userId: string, username: string, email: string, password: PasswordHash)

  function MessageKey(m: Message): string { m.messageId }
  function ChatKey(c: Chat): string { c.chatId }
  function UserKey(u: User): string { u.userId }
}

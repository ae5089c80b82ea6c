/** The records of the chat schema: users, chats, chat memberships and
    messages. Timestamps (ISO strings in the source) are integers here, and
    optional fields (`field?: T`) are `Option`s. */
module ChatTypes {
  import opened Wrappers

  datatype Presence = Online | Offline

  datatype User = User(
    id: string,
    email: string,
    displayName: string,
    avatarUrl: Option<string>,
    phoneNumber: Option<string>,
    createdAt: int,
    lastSeen: Option<int>,
    status: Option<Presence>)

  /** The three kinds of attachment a message row can carry. */
  datatype AttachmentKind = Image | Video | Document

  datatype Message = Message(
    id: string,
    chatId: string,
    senderId: string,
    content: string,
    createdAt: int,
    readAt: Option<int>,
    attachmentUrl: Option<string>,
    attachmentType: Option<AttachmentKind>)

  /** The `type` tag a chat may carry ('demo', 'internal', 'signup', 'content'). */
  datatype ChatTag = Demo | Internal | Signup | ContentTag

  /** A chat; `lastMessage` and `unreadCount` are derived on the client, not stored. */
  datatype Chat = Chat(
    id: string,
    name: Option<string>,
    createdAt: int,
    updatedAt: int,
    isGroup: bool,
    lastMessage: Option<Message>,
    unreadCount: Option<int>,
    tag: Option<ChatTag>,
    labels: Option<seq<string>>)

  datatype MemberRole = Admin | Member

  datatype ChatMember = ChatMember(
    chatId: string,
    userId: string,
    joinedAt: int,
    role: Option<MemberRole>)

  /** The recency key of a chat. */
  function UpdatedAt(c: Chat): int { c.updatedAt }

  /** The creation time of a message, negated: sorting by it largest-first
      orders messages oldest-first. */
  function NegCreatedAt(m: Message): int { -m.createdAt }
}

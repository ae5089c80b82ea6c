/** The derivations of `src/components/chat/ChatsSidebar.tsx`: the avatar
    fallbacks, the one-line preview of a chat's last message, the tag badge
    and which row is highlighted. Time formatting is locale-dependent and is
    not modelled. */
module ChatsSidebar {
  import opened Wrappers
  import opened Text
  import opened ChatTypes
  import opened ChatUtils
  import opened ChatsStore

  /** The sidebar cuts previews at a fixed 30 characters. */
  const SidebarPreviewLength := 30

  /** `getMessagePreview`: more than 30 characters become the first 30 plus
      "...", anything shorter is shown whole. */
  function SidebarPreview(content: string): (r: string)
    ensures |content| <= SidebarPreviewLength ==> r == content
    ensures |content| > SidebarPreviewLength ==>
      |r| == SidebarPreviewLength + 3 && r[..SidebarPreviewLength] == content[..SidebarPreviewLength]
      && r[SidebarPreviewLength..] == "..."
  {
    if |content| > SidebarPreviewLength then content[..SidebarPreviewLength] + "..." else content
  }

  /** The sidebar's own preview agrees with the shared `getMessagePreview` at its default length. */
  lemma SidebarPreviewAgrees(content: string)
    ensures SidebarPreview(content) == MessagePreview(content, DefaultPreviewLength)
  {
    if |content| > SidebarPreviewLength {
      assert MessagePreview(content, DefaultPreviewLength)[..SidebarPreviewLength] == content[..SidebarPreviewLength];
    }
  }

  /** The signed-in user's avatar fallback: the initials of the part of the
      email before the first '@', or "U" when there is no user or no email. */
  function OwnAvatarFallback(user: Option<User>): (r: string)
    ensures user.None? || user.value.email == [] ==> r == "U"
    ensures |r| <= 2
  {
    if user.Some? && user.value.email != [] then UserInitials(Split(user.value.email, '@')[0])
    else "U"
  }

  /** For an address `local@domain`, the fallback is the initials of `local`. */
  lemma OwnAvatarFromLocalPart(user: User, local: string, domain: string)
    requires '@' !in local
    requires user.email == local + "@" + domain
    ensures OwnAvatarFallback(Some(user)) == UserInitials(local)
  {
    SplitAround(local, domain, '@');
    SplitWithoutSeparator(local, '@');
  }

  /** For an address without '@', the fallback is the initials of the whole address. */
  lemma OwnAvatarWithoutAt(user: User)
    requires user.email != [] && '@' !in user.email
    ensures OwnAvatarFallback(Some(user)) == UserInitials(user.email)
  {
    SplitWithoutSeparator(user.email, '@');
  }

  /** A chat's avatar fallback: the initials of its name, or "CH" when it has
      no name or an empty one. */
  function ChatAvatarFallback(name: Option<string>): (r: string)
    ensures name.None? || name.value == [] ==> r == "CH"
    ensures name.Some? && name.value != [] ==> r == UserInitials(name.value)
    ensures name.Some? && name.value != [] ==> |r| <= 2 && forall k :: 0 <= k < |r| ==> r[k] != ' '
  {
    if name.Some? && name.value != [] then
      InitialsOfWords(name.value);
      UserInitials(name.value)
    else "CH"
  }

  /** The colour of a tag badge. */
  datatype Tone = Orange | Green | Blue | Purple

  /** A badge: the tag's text and its colour. */
  datatype Badge = Badge(tag: ChatTag, tone: Tone)

  /** Only a tagged chat gets a badge: demo is orange, internal green,
      signup blue, anything else purple. */
  function BadgeFor(tag: Option<ChatTag>): (b: Option<Badge>)
    ensures b.None? <==> tag.None?
    ensures b.Some? ==> b.value.tag == tag.value
    ensures b.Some? ==> (b.value.tone == Orange <==> tag.value == Demo)
    ensures b.Some? ==> (b.value.tone == Green <==> tag.value == Internal)
    ensures b.Some? ==> (b.value.tone == Blue <==> tag.value == Signup)
    ensures b.Some? ==> (b.value.tone == Purple <==> tag.value == ContentTag)
  {
    match tag
    case None => None
    case Some(t) =>
      Some(Badge(t, match t
                    case Demo => Orange
                    case Internal => Green
                    case Signup => Blue
                    case ContentTag => Purple))
  }

  /** The second line of a row. */
  datatype PreviewLine = Preview(text: string) | NoMessagesYet

  /** One sidebar row. */
  datatype SidebarRow = SidebarRow(
    chatId: string,
    active: bool,
    fallback: string,
    preview: PreviewLine,
    badge: Option<Badge>)

  /** The row of one chat: highlighted when it is the current chat (compared by
      id), the last message's preview or "No messages yet". */
  function RowOf(chat: Chat, currentChat: Option<Chat>): (row: SidebarRow)
    ensures row.chatId == chat.id
    ensures row.active <==> currentChat.Some? && currentChat.value.id == chat.id
    ensures row.preview.NoMessagesYet? <==> chat.lastMessage.None?
    ensures row.preview.Preview? ==> row.preview.text == MessagePreview(chat.lastMessage.value.content, DefaultPreviewLength)
    ensures row.fallback == ChatAvatarFallback(chat.name) && row.badge == BadgeFor(chat.tag)
  {
    var preview :=
      if chat.lastMessage.Some? then
        SidebarPreviewAgrees(chat.lastMessage.value.content);
        Preview(SidebarPreview(chat.lastMessage.value.content))
      else NoMessagesYet;
    SidebarRow(chat.id, currentChat.Some? && currentChat.value.id == chat.id,
               ChatAvatarFallback(chat.name), preview, BadgeFor(chat.tag))
  }

  /** The rows, one per filtered chat, in the order of `filteredChats`. */
  function Rows(filteredChats: seq<Chat>, currentChat: Option<Chat>): (rows: seq<SidebarRow>)
    ensures |rows| == |filteredChats|
    ensures forall i :: 0 <= i < |rows| ==> rows[i] == RowOf(filteredChats[i], currentChat)
  {
    if filteredChats == [] then []
    else [RowOf(filteredChats[0], currentChat)] + Rows(filteredChats[1..], currentChat)
  }

  /** Chat ids are pairwise distinct. */
  ghost predicate DistinctIds(chats: seq<Chat>) {
    forall i, j :: 0 <= i < j < |chats| ==> chats[i].id != chats[j].id
  }

  /** With distinct ids at most one row is highlighted, and none when the current
      chat's id is not among the rows. */
  lemma AtMostOneActive(filteredChats: seq<Chat>, currentChat: Option<Chat>)
    requires DistinctIds(filteredChats)
    ensures forall i, j ::
      (0 <= i < |filteredChats| && 0 <= j < |filteredChats| &&
       Rows(filteredChats, currentChat)[i].active && Rows(filteredChats, currentChat)[j].active) ==> i == j
    ensures (forall i :: 0 <= i < |filteredChats| ==> currentChat.None? || filteredChats[i].id != currentChat.value.id) ==>
      forall i :: 0 <= i < |filteredChats| ==> !Rows(filteredChats, currentChat)[i].active
  {
  }

  /** A chat that arrives through a change notification (pushed without a last
      message) is listed with "No messages yet" once it passes the filter. */
  lemma PushedChatShowsNoMessagesYet(chats: seq<Chat>, row: Chat, query: string, currentChat: Option<Chat>)
    requires row.lastMessage.None?
    requires IsBlank(query) || NameMatches(query)(row)
    ensures exists i ::
      && 0 <= i < |FilterResult(Upsert(chats, row), query)|
      && Rows(FilterResult(Upsert(chats, row), query), currentChat)[i] == RowOf(row, currentChat)
      && Rows(FilterResult(Upsert(chats, row), query), currentChat)[i].preview == NoMessagesYet
  {
    UpsertIds(chats, row);
    var listed := FilterResult(Upsert(chats, row), query);
    assert row in listed;
    var i :| 0 <= i < |listed| && listed[i] == row;
    assert Rows(listed, currentChat)[i] == RowOf(row, currentChat);
  }
}

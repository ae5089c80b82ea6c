/** The service layer of `src/context/chats/chatsService.ts`. The backend SDK is
    replaced by a value: `Remote` holds the tables the client can read and says
    which queries answer with an error; the methods return the queries and
    writes they issue, in order, so that what is NOT issued can be stated. */
module ChatsService {
  import opened Wrappers
  import opened Seqs
  import opened Text
  import opened Sorting
  import opened ChatTypes

  /** The remote tables and the queries that fail. `lastMessageFails` holds the
      chat ids whose newest-message lookup answers with an error. */
  datatype Remote = Remote(
    users: seq<User>,
    members: seq<ChatMember>,
    chats: seq<Chat>,
    messages: seq<Message>,
    usersFail: bool,
    membersFail: bool,
    chatsFail: bool,
    messagesFail: bool,
    lastMessageFails: set<string>)

  /** A read issued to the backend. */
  datatype Query =
    | SelectMemberships(userId: string)
    | SelectChats(ids: seq<string>)
    | SelectLastMessage(chatId: string)

  // ---------------------------------------------------------------- reads

  /** `fetchUsers`: all users, or [] without a client or on any error. */
  function FetchUsers(client: bool, remote: Remote): (r: seq<User>)
    ensures !client || remote.usersFail ==> r == []
    ensures client && !remote.usersFail ==> r == remote.users
  {
    if !client || remote.usersFail then [] else remote.users
  }

  function InChat(chatId: string): Message -> bool {
    (m: Message) => m.chatId == chatId
  }

  /** `fetchChatMessages`: the messages of one chat, oldest first (messages with
      the same `createdAt` in table order), or [] without a client or on error. */
  function FetchChatMessages(client: bool, remote: Remote, chatId: string): (r: seq<Message>)
    ensures !client || remote.messagesFail ==> r == []
    ensures client && !remote.messagesFail ==>
      && multiset(r) == multiset(Filter(remote.messages, InChat(chatId)))
      && (forall i :: 0 <= i < |r| ==> r[i].chatId == chatId)
      && (forall i, j :: 0 <= i < j < |r| ==> r[i].createdAt <= r[j].createdAt)
  {
    if !client || remote.messagesFail then []
    else
      var mine := Filter(remote.messages, InChat(chatId));
      var r := StableSortDesc(mine, NegCreatedAt);
      PermutationKeeps(r, mine, InChat(chatId));
      assert forall i :: 0 <= i < |r| ==> InChat(chatId)(r[i]);
      assert forall i, j :: 0 <= i < j < |r| ==> r[i].createdAt <= r[j].createdAt by {
        forall i, j | 0 <= i < j < |r| ensures r[i].createdAt <= r[j].createdAt {
          assert NegCreatedAt(r[i]) >= NegCreatedAt(r[j]);
        }
      }
      r
  }

  /** The newest message of a chat: one with the greatest `createdAt`, or none
      if the chat has none. */
  function NewestMessage(messages: seq<Message>, chatId: string): (r: Option<Message>)
    ensures r.None? <==> forall i :: 0 <= i < |messages| ==> messages[i].chatId != chatId
    ensures r.Some? ==> r.value in messages && r.value.chatId == chatId
    ensures r.Some? ==> forall i :: 0 <= i < |messages| && messages[i].chatId == chatId ==>
      messages[i].createdAt <= r.value.createdAt
  {
    if messages == [] then None
    else
      var rest := NewestMessage(messages[1..], chatId);
      assert forall i :: 1 <= i < |messages| ==> messages[i] == messages[1..][i - 1];
      if messages[0].chatId != chatId then rest
      else if rest.Some? && rest.value.createdAt > messages[0].createdAt then rest
      else Some(messages[0])
  }

  /** Some membership row joins `userId` to `chatId`. */
  predicate MemberOf(members: seq<ChatMember>, userId: string, chatId: string) {
    exists j :: 0 <= j < |members| && members[j].userId == userId && members[j].chatId == chatId
  }

  /** The chat ids of the membership rows of `userId`, in table order. */
  function MemberChatIds(members: seq<ChatMember>, userId: string): (ids: seq<string>)
    ensures forall id :: id in ids <==> MemberOf(members, userId, id)
  {
    if members == [] then []
    else
      (if members[0].userId == userId then [members[0].chatId] else [])
      + MemberChatIds(members[1..], userId)
  }

  function IdAmong(ids: seq<string>): Chat -> bool {
    (c: Chat) => c.id in ids
  }

  /** The chats query: rows whose id is among `ids`, most recently updated first. */
  function ChatsAmong(chats: seq<Chat>, ids: seq<string>): (r: seq<Chat>)
    ensures multiset(r) == multiset(Filter(chats, IdAmong(ids)))
    ensures forall i :: 0 <= i < |r| ==> r[i] in chats && r[i].id in ids
    ensures NonIncreasing(r, UpdatedAt)
  {
    var picked := Filter(chats, IdAmong(ids));
    var r := StableSortDesc(picked, UpdatedAt);
    assert forall i :: 0 <= i < |r| ==> r[i] in chats && r[i].id in ids by {
      forall i | 0 <= i < |r| ensures r[i] in chats && r[i].id in ids {
        assert r[i] in multiset(picked);
        var k :| 0 <= k < |picked| && picked[k] == r[i];
        assert IdAmong(ids)(picked[k]);
      }
    }
    r
  }

  /** Every chat row whose id is among `ids` is returned by the chats query. */
  lemma ChatsAmongComplete(chats: seq<Chat>, ids: seq<string>)
    ensures forall i :: 0 <= i < |chats| && chats[i].id in ids ==> chats[i] in ChatsAmong(chats, ids)
  {
    var picked := Filter(chats, IdAmong(ids));
    forall i | 0 <= i < |chats| && chats[i].id in ids ensures chats[i] in ChatsAmong(chats, ids) {
      assert IdAmong(ids)(chats[i]);
      assert chats[i] in multiset(picked);
    }
  }

  /** The `last_message` a chat receives: the newest message of the chat, or
      none when the chat has none or its lookup answered with an error. */
  function LastMessageOf(remote: Remote, chatId: string): Option<Message> {
    if chatId in remote.lastMessageFails then None else NewestMessage(remote.messages, chatId)
  }

  /** Every chat, with its `lastMessage` filled in; the order, and so the
      recency order, is kept. */
  function Enrich(chats: seq<Chat>, remote: Remote): (r: seq<Chat>)
    ensures |r| == |chats|
    ensures forall i :: 0 <= i < |r| ==>
      r[i] == chats[i].(lastMessage := LastMessageOf(remote, chats[i].id))
    ensures NonIncreasing(chats, UpdatedAt) ==> NonIncreasing(r, UpdatedAt)
  {
    if chats == [] then []
    else
      var r := [chats[0].(lastMessage := LastMessageOf(remote, chats[0].id))] + Enrich(chats[1..], remote);
      assert forall i :: 0 <= i < |r| ==> UpdatedAt(r[i]) == UpdatedAt(chats[i]);
      r
  }

  function LastMessageQueries(chats: seq<Chat>): (qs: seq<Query>)
    ensures |qs| == |chats|
    ensures forall i :: 0 <= i < |qs| ==> qs[i] == SelectLastMessage(chats[i].id)
  {
    if chats == [] then [] else [SelectLastMessage(chats[0].id)] + LastMessageQueries(chats[1..])
  }

  /** What a successful `fetchUserChats` returns: the chats query over the
      user's membership ids, enriched. Every chat is one of the user's, carries
      its newest message, and the list is most recently updated first. */
  function UserChats(remote: Remote, userId: string): (chats: seq<Chat>)
    ensures forall i :: 0 <= i < |chats| ==> MemberOf(remote.members, userId, chats[i].id)
    ensures forall i :: 0 <= i < |chats| ==> chats[i].lastMessage == LastMessageOf(remote, chats[i].id)
    ensures NonIncreasing(chats, UpdatedAt)
  {
    var ids := MemberChatIds(remote.members, userId);
    var chats := Enrich(ChatsAmong(remote.chats, ids), remote);
    assert forall i :: 0 <= i < |chats| ==> chats[i].id in ids;
    chats
  }

  /** Every chat row the user is a member of is listed, with its newest message. */
  lemma UserChatsComplete(remote: Remote, userId: string, c: Chat)
    requires c in remote.chats && MemberOf(remote.members, userId, c.id)
    ensures c.(lastMessage := LastMessageOf(remote, c.id)) in UserChats(remote, userId)
  {
    var ids := MemberChatIds(remote.members, userId);
    var rows := ChatsAmong(remote.chats, ids);
    ChatsAmongComplete(remote.chats, ids);
    var i :| 0 <= i < |remote.chats| && remote.chats[i] == c;
    assert c in rows;
    var k :| 0 <= k < |rows| && rows[k] == c;
    assert Enrich(rows, remote)[k] == c.(lastMessage := LastMessageOf(remote, c.id));
  }

  /** `fetchUserChats`: the user's chats, most recently updated first, each with
      its newest message. Without a client, on any error, or when the user
      belongs to no chat, the result is []; no chats query is issued for an
      empty membership list. */
  method FetchUserChats(client: bool, remote: Remote, userId: string)
    returns (chats: seq<Chat>, queries: seq<Query>)
    ensures !client ==> chats == [] && queries == []
    ensures client && (remote.membersFail || MemberChatIds(remote.members, userId) == []) ==>
      chats == [] && queries == [SelectMemberships(userId)]
    ensures client && !remote.membersFail && MemberChatIds(remote.members, userId) != [] ==>
      |queries| >= 2 && queries[..2] == [SelectMemberships(userId), SelectChats(MemberChatIds(remote.members, userId))]
    ensures client && !remote.membersFail && MemberChatIds(remote.members, userId) != [] && remote.chatsFail ==>
      chats == [] && |queries| == 2
    ensures client && !remote.membersFail && MemberChatIds(remote.members, userId) != [] && !remote.chatsFail ==>
      queries[2..] == LastMessageQueries(ChatsAmong(remote.chats, MemberChatIds(remote.members, userId)))
    ensures forall i :: 0 <= i < |chats| ==> MemberOf(remote.members, userId, chats[i].id)
    ensures forall i :: 0 <= i < |chats| ==> chats[i].lastMessage == LastMessageOf(remote, chats[i].id)
    ensures NonIncreasing(chats, UpdatedAt)
    ensures client && !remote.membersFail && !remote.chatsFail ==> chats == UserChats(remote, userId)
  {
    if !client {
      return [], [];
    }
    if remote.membersFail {
      return [], [SelectMemberships(userId)];
    }
    var chatIds := MemberChatIds(remote.members, userId);
    if chatIds == [] {
      return [], [SelectMemberships(userId)];
    }
    queries := [SelectMemberships(userId), SelectChats(chatIds)];
    if remote.chatsFail {
      return [], queries;
    }
    var rows := ChatsAmong(remote.chats, chatIds);
    chats := Enrich(rows, remote);
    assert chats == UserChats(remote, userId);
    queries := queries + LastMessageQueries(rows);
    assert queries[2..] == LastMessageQueries(rows);
  }

  // ---------------------------------------------------------------- attachments

  /** `name.split('.').pop()`: the text after the last '.', or the whole name. */
  function FileExtension(name: string): (ext: string)
    ensures '.' !in ext
    ensures '.' !in name ==> ext == name
    ensures '.' in name ==>
      |ext| < |name| && name[|name| - |ext| - 1] == '.' && name[|name| - |ext|..] == ext
  {
    var parts := Split(name, '.');
    JoinSplit(name, '.');
    if |parts| == 1 then parts[0]
    else
      JoinLast(parts, '.');
      parts[|parts| - 1]
  }

  /** A join of two or more pieces ends with the separator and the last piece. */
  lemma {:induction false} JoinLast(parts: seq<string>, sep: char)
    requires |parts| >= 2
    ensures Join(parts, sep) == Join(parts[..|parts| - 1], sep) + [sep] + parts[|parts| - 1]
  {
    if |parts| > 2 {
      JoinLast(parts[1..], sep);
      assert parts[1..][..|parts| - 2] == parts[..|parts| - 1][1..];
    }
  }

  /** The storage key `${userId}/${Date.now()}.${ext}`. */
  function StoragePath(userId: string, now: nat, ext: string): string {
    userId + "/" + Decimal(now) + "." + ext
  }

  /** The key an attachment is uploaded under. */
  function AttachmentPath(userId: string, now: nat, file: FileInfo): string {
    StoragePath(userId, now, FileExtension(file.name))
  }

  /** The storage key keeps the file's extension: reading the extension back
      from the key gives the extension of the original name. */
  lemma PathKeepsExtension(userId: string, now: nat, name: string)
    ensures FileExtension(StoragePath(userId, now, FileExtension(name))) == FileExtension(name)
  {
    var ext := FileExtension(name);
    var head := userId + "/" + Decimal(now);
    assert StoragePath(userId, now, ext) == head + ['.'] + ext;
    SplitAround(head, ext, '.');
    SplitWithoutSeparator(ext, '.');
  }

  /** The storage key lives under the sender's folder: its first '/'-separated
      segment is the user id, provided the id holds no '/'. */
  lemma PathUnderUserFolder(userId: string, now: nat, ext: string)
    requires '/' !in userId
    ensures Split(StoragePath(userId, now, ext), '/')[0] == userId
  {
    var tail := Decimal(now) + "." + ext;
    assert StoragePath(userId, now, ext) == userId + ['/'] + tail;
    SplitAround(userId, tail, '/');
    SplitWithoutSeparator(userId, '/');
  }

  /** The attachment kind from the MIME type: "image" anywhere in it wins, then
      "video", and everything else is a document. */
  function ClassifyMime(mime: string): (k: AttachmentKind)
    ensures k == Image <==> Contains(mime, "image")
    ensures k == Video <==> !Contains(mime, "image") && Contains(mime, "video")
    ensures k == Document <==> !Contains(mime, "image") && !Contains(mime, "video")
  {
    if Contains(mime, "image") then Image
    else if Contains(mime, "video") then Video
    else Document
  }

  /** A string cannot contain a word with a letter the string lacks. */
  lemma MissingLetterNotContained(s: string, sub: string, c: char)
    requires c in sub && c !in s
    ensures !Contains(s, sub)
  {
  }

  /** Example: a PNG image classifies as an image. */
  lemma PngIsImage()
    ensures ClassifyMime("image/png") == Image
  {
    PrefixContained("image/png", "image");
  }

  /** Example: an MP4 video classifies as a video. */
  lemma Mp4IsVideo()
    ensures ClassifyMime("video/mp4") == Video
  {
    MissingLetterNotContained("video/mp4", "image", 'g');
    PrefixContained("video/mp4", "video");
  }

  /** Example: a PDF classifies as a document. */
  lemma PdfIsDocument()
    ensures ClassifyMime("application/pdf") == Document
  {
    MissingLetterNotContained("application/pdf", "image", 'm');
    MissingLetterNotContained("application/pdf", "video", 'v');
  }

  /** Example: the test is a substring test, not a prefix test, so a type
      whose top level is not `video/` but that mentions "video" is a video. */
  lemma SubstringNotPrefix()
    ensures ClassifyMime("application/x-video") == Video
  {
    MissingLetterNotContained("application/x-video", "image", 'm');
    assert OccursAt("application/x-video", "video", 14);
  }

  /** A file picked in the composer: its name, MIME type and size in bytes. */
  datatype FileInfo = FileInfo(name: string, mimeType: string, size: int)

  /** The message row the service inserts. */
  datatype MessageRow = MessageRow(
    chatId: string,
    senderId: string,
    content: string,
    attachmentUrl: Option<string>,
    attachmentType: Option<AttachmentKind>,
    createdAt: int)

  /** A write issued to the backend. */
  datatype Write =
    | Upload(path: string)
    | InsertMessage(row: MessageRow)
    | TouchChat(chatId: string, updatedAt: int)

  datatype SendError = NotInitialized | UploadFailed | InsertFailed

  /** What the backend does during one send: whether the upload and the insert
      fail, the public URL it gives a storage key, the id it gives the new row,
      and the three clock readings the send takes (for the key, the row and the
      chat's new `updatedAt`). The chat update's own outcome is never read. */
  datatype SendEnv = SendEnv(
    uploadFails: bool,
    publicUrl: string -> string,
    insertFails: bool,
    insertedId: string,
    pathClock: nat,
    insertClock: int,
    updateClock: int)

  /** The uploads a send issues: one, under the sender's folder, when there is
      an attachment. */
  function UploadWrites(userId: string, attachment: Option<FileInfo>, env: SendEnv): seq<Write> {
    if attachment.Some? then [Upload(AttachmentPath(userId, env.pathClock, attachment.value))] else []
  }

  /** The message row a send inserts: the attachment's public URL and MIME
      class when there is one, and the insert time. */
  function SentRow(chatId: string, userId: string, content: string, attachment: Option<FileInfo>,
                   env: SendEnv): MessageRow {
    MessageRow(chatId, userId, content,
      if attachment.Some? then Some(env.publicUrl(AttachmentPath(userId, env.pathClock, attachment.value))) else None,
      if attachment.Some? then Some(ClassifyMime(attachment.value.mimeType)) else None,
      env.insertClock)
  }

  /** `sendChatMessage`: upload the attachment if there is one, insert the
      message, then move the chat's `updatedAt`. An upload error stops before
      the insert, an insert error stops before the chat update. */
  method SendChatMessage(client: bool, chatId: string, userId: string, content: string,
                         attachment: Option<FileInfo>, env: SendEnv)
    returns (result: Result<Message, SendError>, writes: seq<Write>)
    ensures !client ==> result == Failure(NotInitialized) && writes == []
    ensures client && attachment.Some? && env.uploadFails ==>
      result == Failure(UploadFailed) && writes == [Upload(AttachmentPath(userId, env.pathClock, attachment.value))]
    ensures client && !(attachment.Some? && env.uploadFails) && env.insertFails ==>
      result == Failure(InsertFailed) && writes != [] && writes[|writes| - 1].InsertMessage?
    ensures result.Success? <==> client && !(attachment.Some? && env.uploadFails) && !env.insertFails
    ensures client && attachment.Some? ==>
      writes != [] && writes[0] == Upload(AttachmentPath(userId, env.pathClock, attachment.value))
    ensures client && attachment.None? ==> writes != [] && writes[0].InsertMessage?
    ensures forall k :: 0 <= k < |writes| && writes[k].InsertMessage? ==> !(attachment.Some? && env.uploadFails)
    ensures forall k :: 0 <= k < |writes| && writes[k].TouchChat? ==> result.Success?
    ensures result.Success? ==>
      && writes != [] && writes[|writes| - 1] == TouchChat(chatId, env.updateClock)
      && result.value.id == env.insertedId
      && result.value.chatId == chatId && result.value.senderId == userId
      && result.value.content == content && result.value.createdAt == env.insertClock
      && (result.value.attachmentUrl.None? <==> attachment.None?)
      && (result.value.attachmentType.None? <==> attachment.None?)
    ensures result.Success? && attachment.Some? ==>
      && result.value.attachmentUrl == Some(env.publicUrl(AttachmentPath(userId, env.pathClock, attachment.value)))
      && result.value.attachmentType == Some(ClassifyMime(attachment.value.mimeType))
    ensures client && !(attachment.Some? && env.uploadFails) ==>
      writes == UploadWrites(userId, attachment, env)
        + [InsertMessage(SentRow(chatId, userId, content, attachment, env))]
        + (if env.insertFails then [] else [TouchChat(chatId, env.updateClock)])
  {
    if !client {
      return Failure(NotInitialized), [];
    }
    var uploads: seq<Write> := [];
    var attachmentUrl: Option<string> := None;
    var attachmentType: Option<AttachmentKind> := None;
    if attachment.Some? {
      var file := attachment.value;
      var path := AttachmentPath(userId, env.pathClock, file);
      uploads := [Upload(path)];
      if env.uploadFails {
        return Failure(UploadFailed), uploads;
      }
      attachmentUrl := Some(env.publicUrl(path));
      attachmentType := Some(ClassifyMime(file.mimeType));
    }
    var row := MessageRow(chatId, userId, content, attachmentUrl, attachmentType, env.insertClock);
    if env.insertFails {
      return Failure(InsertFailed), uploads + [InsertMessage(row)];
    }
    var inserted := Message(env.insertedId, chatId, userId, content, env.insertClock, None,
                            attachmentUrl, attachmentType);
    writes := uploads + [InsertMessage(row), TouchChat(chatId, env.updateClock)];
    result := Success(inserted);
  }
}

/** The chat state store of `src/context/chats/ChatsProvider.tsx`: the state the
    provider keeps (`chats`, `filteredChats`, `currentChat`, `messages`,
    `users`, `loading`), the pure updaters its setters apply, and the effects
    and handlers that run them, one method per transition. */
module ChatsStore {
  import opened Wrappers
  import opened Seqs
  import opened Text
  import opened Sorting
  import opened ChatTypes
  import opened ChatsService

  // ---------------------------------------------------------------- updaters

  /** `prev.some(chat => chat.id === id)`. */
  predicate HasChatId(list: seq<Chat>, id: string) {
    exists i | 0 <= i < |list| :: list[i].id == id
  }

  /** `prev.map(chat => chat.id === row.id ? row : chat)`. */
  function ReplaceById(list: seq<Chat>, row: Chat): (r: seq<Chat>)
    ensures |r| == |list|
    ensures forall i :: 0 <= i < |r| ==> r[i] == if list[i].id == row.id then row else list[i]
  {
    if list == [] then []
    else [if list[0].id == row.id then row else list[0]] + ReplaceById(list[1..], row)
  }

  /** The upsert both list setters apply to a pushed chat row: replace every
      entry with its id in place, or append it when there is none. */
  function Upsert(list: seq<Chat>, row: Chat): (r: seq<Chat>)
    ensures HasChatId(list, row.id) ==> |r| == |list|
    ensures HasChatId(list, row.id) ==> forall i :: 0 <= i < |list| ==>
      (list[i].id == row.id ==> r[i] == row) && (list[i].id != row.id ==> r[i] == list[i])
    ensures !HasChatId(list, row.id) ==> |r| == |list| + 1 && r[..|list|] == list && r[|list|] == row
  {
    if HasChatId(list, row.id) then ReplaceById(list, row) else list + [row]
  }

  /** After an upsert the row is present, and the ids present are the old ones
      plus the row's. */
  lemma UpsertIds(list: seq<Chat>, row: Chat)
    ensures row in Upsert(list, row)
    ensures forall id :: HasChatId(Upsert(list, row), id) <==> HasChatId(list, id) || id == row.id
  {
    var r := Upsert(list, row);
    if HasChatId(list, row.id) {
      var i :| 0 <= i < |list| && list[i].id == row.id;
      assert r[i] == row;
      forall id ensures HasChatId(r, id) <==> HasChatId(list, id) || id == row.id {
        if HasChatId(list, id) {
          var j :| 0 <= j < |list| && list[j].id == id;
          assert r[j].id == id;
        }
        if HasChatId(r, id) {
          var j :| 0 <= j < |r| && r[j].id == id;
          assert list[j].id == id || id == row.id;
        }
      }
    } else {
      assert r[|list|] == row;
      forall id ensures HasChatId(r, id) <==> HasChatId(list, id) || id == row.id {
        if HasChatId(list, id) {
          var j :| 0 <= j < |list| && list[j].id == id;
          assert r[j] == list[j];
        }
        if HasChatId(r, id) && id != row.id {
          var j :| 0 <= j < |r| && r[j].id == id;
          assert j < |list| && r[j] == list[j];
        }
      }
    }
  }

  /** Pushing the same row twice leaves the list as pushing it once. */
  lemma UpsertIdempotent(list: seq<Chat>, row: Chat)
    ensures Upsert(Upsert(list, row), row) == Upsert(list, row)
  {
    var once := Upsert(list, row);
    UpsertIds(list, row);
    assert HasChatId(once, row.id);
    var twice := Upsert(once, row);
    if HasChatId(list, row.id) {
      assert forall i :: 0 <= i < |once| ==> twice[i] == once[i];
    } else {
      assert forall i :: 0 <= i < |once| ==> twice[i] == once[i];
    }
  }

  /** The name test of `filterChats`: the chat has a name whose lower-cased form
      contains the lower-cased, untrimmed query. */
  function NameMatches(query: string): Chat -> bool {
    (c: Chat) => c.name.Some? && Contains(Lower(c.name.value), Lower(query))
  }

  /** What `filterChats(query)` sets `filteredChats` to. */
  function FilterResult(chats: seq<Chat>, query: string): (r: seq<Chat>)
    ensures IsBlank(query) ==> r == chats
    ensures !IsBlank(query) ==> IsSubsequence(r, chats)
    ensures !IsBlank(query) ==> forall i :: 0 <= i < |r| ==>
      r[i] in chats && r[i].name.Some? && Contains(Lower(r[i].name.value), Lower(query))
    ensures !IsBlank(query) ==> forall i :: 0 <= i < |chats| ==>
      (chats[i].name.Some? && Contains(Lower(chats[i].name.value), Lower(query))) ==> chats[i] in r
    ensures !IsBlank(query) && (forall i :: 0 <= i < |chats| ==> !NameMatches(query)(chats[i])) ==> r == []
    ensures multiset(r) <= multiset(chats)
    ensures forall i :: 0 <= i < |chats| ==>
      multiset(r)[chats[i]] == if chats[i] in r then multiset(chats)[chats[i]] else 0
  {
    if IsBlank(query) then chats
    else
      FilterIsSubsequence(chats, NameMatches(query));
      FilterEmptyIff(chats, NameMatches(query));
      FilterCounts(chats, NameMatches(query));
      Filter(chats, NameMatches(query))
  }

  lemma LowerOfUpperChar(c: char)
    ensures LowerChar(UpperChar(c)) == LowerChar(c)
    ensures IsWhitespace(UpperChar(c)) <==> IsWhitespace(c)
  {
  }

  /** The filter ignores the case of the query: an upper-cased query selects
      the same chats. */
  lemma FilterIgnoresQueryCase(chats: seq<Chat>, query: string)
    ensures FilterResult(chats, Upper(query)) == FilterResult(chats, query)
  {
    var up := Upper(query);
    forall i | 0 <= i < |query| ensures Lower(up)[i] == Lower(query)[i] {
      LowerOfUpperChar(query[i]);
    }
    assert Lower(up) == Lower(query);
    BlankIffAllWhitespace(query);
    BlankIffAllWhitespace(up);
    forall i | 0 <= i < |query| ensures IsWhitespace(up[i]) <==> IsWhitespace(query[i]) {
      LowerOfUpperChar(query[i]);
    }
    assert NameMatches(up) == NameMatches(query);
  }

  // ---------------------------------------------------------------- the store

  /** What `sendMessage` did: refused by its guard, or handed to the service. */
  datatype SendReport =
    | Refused
    | Attempted(result: Result<Message, SendError>, writes: seq<Write>)

  /** The number of membership rows joining `userId` to `chatId`. */
  function MembershipCount(members: seq<ChatMember>, chatId: string, userId: string): nat {
    |Filter(members, (m: ChatMember) => m.chatId == chatId && m.userId == userId)|
  }

  function IdIs(id: string): Chat -> bool {
    (c: Chat) => c.id == id
  }

  /** `.single()` on the chats table by id: a row exactly when one row alone
      has the id, and then that row. */
  function SingleChat(chats: seq<Chat>, id: string): (r: Option<Chat>)
    ensures r.Some? <==> exists i :: 0 <= i < |chats| && OnlyMatch(chats, IdIs(id), i)
    ensures r.Some? ==> r.value in chats && r.value.id == id
  {
    var rows := Filter(chats, IdIs(id));
    FilterSingleton(chats, IdIs(id));
    if |rows| == 1 then Some(rows[0]) else None
  }

  class Store {
    /** The signed-in user, from the session; `None` when signed out. */
    var user: Option<User>
    /** Whether the backend client exists (`!!supabase`). */
    var initialized: bool
    var chats: seq<Chat>
    var filteredChats: seq<Chat>
    var currentChat: Option<Chat>
    var messages: seq<Message>
    var users: seq<User>
    var loading: bool

    /** The provider's first render and its mount effect, which clears
        `loading` when there is no client. */
    constructor (clientPresent: bool, user: Option<User>)
      ensures this.user == user && initialized == clientPresent
      ensures chats == [] && filteredChats == [] && currentChat.None?
      ensures messages == [] && users == []
      ensures loading == clientPresent
    {
      this.user := user;
      initialized := clientPresent;
      chats, filteredChats, currentChat := [], [], None;
      messages, users := [], [];
      loading := clientPresent;
    }

    /** The users effect: without a user or a client nothing happens; otherwise
        `users` becomes what `fetchUsers` returns ([] on error). */
    method LoadUsers(remote: Remote)
      modifies this`users
      ensures user.None? || !initialized ==> users == old(users)
      ensures user.Some? && initialized ==> users == FetchUsers(initialized, remote)
    {
      if user.None? || !initialized {
        return;
      }
      users := FetchUsers(initialized, remote);
    }

    /** The chats effect: without a user or a client nothing happens; otherwise
        both lists become what `fetchUserChats` returns and `loading` ends.
        Because the fetch turns every error into [], a failed load empties
        `chats` instead of keeping the previous list. */
    method LoadChats(remote: Remote)
      modifies this`chats, this`filteredChats, this`loading
      ensures user.None? || !initialized ==>
        chats == old(chats) && filteredChats == old(filteredChats) && loading == old(loading)
      ensures user.Some? && initialized ==> !loading && filteredChats == chats
      ensures user.Some? && initialized && (remote.membersFail || remote.chatsFail) ==> chats == []
      ensures user.Some? && initialized ==> forall i :: 0 <= i < |chats| ==>
        && MemberOf(remote.members, user.value.id, chats[i].id)
        && chats[i].lastMessage == LastMessageOf(remote, chats[i].id)
      ensures user.Some? && initialized ==> NonIncreasing(chats, UpdatedAt)
      ensures user.Some? && initialized && !remote.membersFail && !remote.chatsFail ==>
        chats == UserChats(remote, user.value.id)
    {
      if user.None? || !initialized {
        return;
      }
      loading := true;
      var fetched, _ := FetchUserChats(initialized, remote, user.value.id);
      chats := fetched;
      filteredChats := fetched;
      loading := false;
    }

    /** The session changes: record the user and rerun both load effects. */
    method SessionChanged(u: Option<User>, remote: Remote)
      modifies this
      ensures user == u && initialized == old(initialized)
      ensures currentChat == old(currentChat) && messages == old(messages)
      ensures u.None? || !initialized ==>
        && users == old(users) && chats == old(chats) && filteredChats == old(filteredChats)
        && loading == old(loading)
      ensures u.Some? && initialized ==>
        && users == FetchUsers(initialized, remote) && filteredChats == chats && !loading
      ensures u.Some? && initialized && (remote.membersFail || remote.chatsFail) ==> chats == []
      ensures u.Some? && initialized && !remote.membersFail && !remote.chatsFail ==>
        chats == UserChats(remote, u.value.id)
    {
      user := u;
      LoadUsers(remote);
      LoadChats(remote);
    }

    /** The two list setters run on a pushed chat row: the same upsert on
        `chats` and on `filteredChats`, so a new row shows in the filtered list
        whatever the current search query is. */
    method PushChat(row: Chat)
      modifies this`chats, this`filteredChats
      ensures chats == Upsert(old(chats), row)
      ensures filteredChats == Upsert(old(filteredChats), row)
      ensures row in chats && row in filteredChats
    {
      chats := Upsert(chats, row);
      filteredChats := Upsert(filteredChats, row);
      UpsertIds(old(chats), row);
      UpsertIds(old(filteredChats), row);
    }

    /** The chat-change callback: a payload with an id is pushed only when the
        user has exactly one membership row for that chat and the chat row
        itself is found exactly once; a failed lookup pushes nothing. */
    method OnChatChanged(payloadId: Option<string>, remote: Remote)
      requires user.Some? && initialized
      modifies this`chats, this`filteredChats
      ensures var pushed := if payloadId.None? || remote.membersFail || remote.chatsFail
                               || MembershipCount(remote.members, payloadId.value, user.value.id) != 1
                            then None else SingleChat(remote.chats, payloadId.value);
        && (pushed.None? ==> chats == old(chats) && filteredChats == old(filteredChats))
        && (pushed.Some? ==>
              chats == Upsert(old(chats), pushed.value) && filteredChats == Upsert(old(filteredChats), pushed.value))
    {
      if payloadId.None? || remote.membersFail
         || MembershipCount(remote.members, payloadId.value, user.value.id) != 1 {
        return;
      }
      if remote.chatsFail {
        return;
      }
      var updated := SingleChat(remote.chats, payloadId.value);
      if updated.Some? {
        PushChat(updated.value);
      }
    }

    /** `setCurrentChat` and the messages effect: selecting the chat that is
        already current changes nothing, since the setter then leaves the state
        as it is and the effect does not rerun; otherwise the new chat's history
        is loaded ([] on error). Selecting no chat, or having no client, leaves
        `messages` as it was. */
    method SelectChat(chat: Option<Chat>, remote: Remote)
      modifies this`currentChat, this`messages
      ensures currentChat == chat
      ensures chat == old(currentChat) ==> messages == old(messages)
      ensures chat.None? || !initialized ==> messages == old(messages)
      ensures chat != old(currentChat) && chat.Some? && initialized ==>
        messages == FetchChatMessages(initialized, remote, chat.value.id)
    {
      if chat == currentChat {
        return;
      }
      currentChat := chat;
      if chat.None? || !initialized {
        return;
      }
      messages := FetchChatMessages(initialized, remote, chat.value.id);
    }

    /** An inserted message pushed on the current chat's channel: appended at
        the end, with no sorting and no de-duplication. */
    method ReceiveMessage(m: Message)
      modifies this`messages
      ensures messages == old(messages) + [m]
    {
      messages := messages + [m];
    }

    /** `sendMessage`: without a current chat, a user or a client it refuses
        and calls nothing; otherwise it hands the message to the service. It
        never changes the store: the sent message arrives through
        `ReceiveMessage` like any other. */
    method SendMessage(content: string, attachment: Option<FileInfo>, env: SendEnv)
      returns (report: SendReport)
      ensures report.Refused? <==> currentChat.None? || user.None? || !initialized
      ensures report.Attempted? ==> report.writes != []
      ensures report.Attempted? && report.result.Success? ==>
        && report.result.value.chatId == currentChat.value.id
        && report.result.value.senderId == user.value.id
        && report.result.value.content == content
      ensures report.Attempted? && attachment.None? ==> report.writes[0].InsertMessage?
      ensures report.Attempted? && attachment.Some? ==>
        report.writes[0] == Upload(AttachmentPath(user.value.id, env.pathClock, attachment.value))
      ensures report.Attempted? && report.result.Success? && attachment.Some? ==>
        report.result.value.attachmentType == Some(ClassifyMime(attachment.value.mimeType))
      ensures report.Attempted? ==>
        (report.result.Success? <==> !(attachment.Some? && env.uploadFails) && !env.insertFails)
      ensures report.Attempted? && attachment.Some? && env.uploadFails ==>
        report.writes == [Upload(AttachmentPath(user.value.id, env.pathClock, attachment.value))]
      ensures report.Attempted? && !(attachment.Some? && env.uploadFails) ==>
        report.writes == UploadWrites(user.value.id, attachment, env)
          + [InsertMessage(SentRow(currentChat.value.id, user.value.id, content, attachment, env))]
          + (if env.insertFails then [] else [TouchChat(currentChat.value.id, env.updateClock)])
    {
      if currentChat.None? || user.None? || !initialized {
        return Refused;
      }
      var result, writes := SendChatMessage(initialized, currentChat.value.id, user.value.id,
                                            content, attachment, env);
      report := Attempted(result, writes);
    }

    /** `filterChats`: a blank query shows every chat, any other query the chats
        whose name contains it, ignoring case. */
    method FilterChats(query: string)
      modifies this`filteredChats
      ensures filteredChats == FilterResult(chats, query)
    {
      if IsBlank(query) {
        filteredChats := chats;
        return;
      }
      filteredChats := Filter(chats, NameMatches(query));
    }
  }
}

/** The pure helpers of `src/lib/chat-utils.ts`: avatar initials, message
    previews, recency sort, unread counting and participant lookup. */
module ChatUtils {
  import opened Wrappers
  import opened Seqs
  import opened Text
  import opened Sorting
  import opened ChatTypes

  /** Default preview length of `getMessagePreview`. */
  const DefaultPreviewLength: int := 30

  /** `part[0]` of every part, joined: an empty part gives `undefined`, which
      `join('')` renders as nothing. */
  function FirstLetters(parts: seq<string>): string {
    if parts == [] then []
    else (if parts[0] == [] then [] else [parts[0][0]]) + FirstLetters(parts[1..])
  }

  predicate NonEmpty(s: string) { s != [] }

  /** The space-separated words of a name, empty pieces dropped. */
  function Words(name: string): seq<string> {
    Filter(Split(name, ' '), NonEmpty)
  }

  /** `getUserInitials`: split on ' ', first character of each part, joined,
      upper-cased, first two characters. */
  function UserInitials(name: string): (r: string)
    ensures |r| <= 2
  {
    Prefix(Upper(FirstLetters(Split(name, ' '))), 2)
  }

  /** The first letters are exactly the first characters of the non-empty parts. */
  lemma {:induction false} FirstLettersOfWords(parts: seq<string>)
    ensures |FirstLetters(parts)| == |Filter(parts, NonEmpty)|
    ensures forall k :: 0 <= k < |FirstLetters(parts)| ==>
      Filter(parts, NonEmpty)[k] != [] && FirstLetters(parts)[k] == Filter(parts, NonEmpty)[k][0]
  {
    if parts != [] {
      FirstLettersOfWords(parts[1..]);
    }
  }

  /** Initials are the upper-cased first characters of the first (at most two)
      words of the name, in order; they never hold a space or a lower-case letter. */
  lemma InitialsOfWords(name: string)
    ensures var w := Words(name);
      && |UserInitials(name)| == (if |w| < 2 then |w| else 2)
      && forall k :: 0 <= k < |UserInitials(name)| ==>
           w[k] != [] && UserInitials(name)[k] == UpperChar(w[k][0])
    ensures forall k :: 0 <= k < |UserInitials(name)| ==>
      UserInitials(name)[k] != ' ' && !IsAsciiLower(UserInitials(name)[k])
  {
    var parts := Split(name, ' ');
    FirstLettersOfWords(parts);
    var w := Words(name);
    forall k | 0 <= k < |UserInitials(name)|
      ensures w[k] != [] && UserInitials(name)[k] == UpperChar(w[k][0])
      ensures UserInitials(name)[k] != ' '
    {
      assert w[k] in parts;
    }
  }

  /** `getMessagePreview`: empty content gives "", content longer than
      `maxLength` is cut to its first `maxLength` characters followed by "...",
      anything else is returned as it is. A negative `maxLength` cuts everything,
      since `substring` clamps it to 0. */
  function MessagePreview(content: string, maxLength: int): (r: string)
    ensures content == [] ==> r == []
    ensures |content| <= maxLength ==> r == content
    ensures content != [] && |content| > maxLength ==>
      var kept := if maxLength < 0 then 0 else maxLength;
      |r| == kept + 3 && r[..kept] == content[..kept] && r[kept..] == "..."
    ensures maxLength >= 0 ==> |r| <= maxLength + 3
  {
    if content == [] then []
    else if |content| > maxLength then Prefix(content, maxLength) + "..."
    else content
  }

  /** `sortChatsByRecent`: a new sequence holding the same chats, most recently
      updated first, chats with equal `updatedAt` in their input order. The
      argument, a value, is untouched. */
  function SortChatsByRecent(chats: seq<Chat>): (r: seq<Chat>)
    ensures multiset(r) == multiset(chats)
    ensures NonIncreasing(r, UpdatedAt)
    ensures forall t :: KeyClass(r, UpdatedAt, t) == KeyClass(chats, UpdatedAt, t)
  {
    SortKeepsEveryClass(chats, UpdatedAt);
    StableSortDesc(chats, UpdatedAt)
  }

  /** The test `countUnreadMessages` applies to one message. */
  function UnreadBy(userId: string, lastRead: int): Message -> bool {
    (m: Message) => m.senderId != userId && m.createdAt > lastRead
  }

  /** `countUnreadMessages`: no last-read time counts nothing; otherwise the
      messages from someone else created strictly after it. */
  function CountUnreadMessages(messages: seq<Message>, userId: string, lastReadTime: Option<int>): (n: nat)
    ensures n <= |messages|
    ensures lastReadTime.None? ==> n == 0
    ensures lastReadTime.Some? ==>
      (n == 0 <==> forall i :: 0 <= i < |messages| ==>
        messages[i].senderId == userId || messages[i].createdAt <= lastReadTime.value)
    ensures lastReadTime.Some? ==>
      (n == |messages| <==> forall i :: 0 <= i < |messages| ==>
        messages[i].senderId != userId && messages[i].createdAt > lastReadTime.value)
  {
    match lastReadTime
    case None => 0
    case Some(t) =>
      FilterEmptyIff(messages, UnreadBy(userId, t));
      FilterKeepsAllIff(messages, UnreadBy(userId, t));
      |Filter(messages, UnreadBy(userId, t))|
  }

  /** Counting unread messages is additive over concatenated histories. */
  lemma CountUnreadSplits(a: seq<Message>, b: seq<Message>, userId: string, lastReadTime: Option<int>)
    ensures CountUnreadMessages(a + b, userId, lastReadTime)
         == CountUnreadMessages(a, userId, lastReadTime) + CountUnreadMessages(b, userId, lastReadTime)
  {
    if lastReadTime.Some? {
      FilterConcat(a, b, UnreadBy(userId, lastReadTime.value));
    }
  }

  /** `participantIds`: the user ids of the members other than the current user. */
  function ParticipantIds(members: seq<ChatMember>, currentUserId: string): (ids: seq<string>)
    ensures forall id :: id in ids <==>
      id != currentUserId && exists j :: 0 <= j < |members| && members[j].userId == id
  {
    if members == [] then []
    else
      (if members[0].userId != currentUserId then [members[0].userId] else [])
      + ParticipantIds(members[1..], currentUserId)
  }

  /** `participantIds.includes(user.id)`. */
  function IdIn(ids: seq<string>): User -> bool {
    (u: User) => u.id in ids
  }

  /** `getChatParticipants`: the users, in their own order, whose id is the id of
      a member other than the current user. */
  function ChatParticipants(users: seq<User>, members: seq<ChatMember>, currentUserId: string): (r: seq<User>)
    ensures forall i :: 0 <= i < |r| ==> r[i] in users && r[i].id != currentUserId
    ensures forall i :: 0 <= i < |r| ==> exists j :: 0 <= j < |members| && members[j].userId == r[i].id
    ensures forall i :: 0 <= i < |users| ==>
      (users[i].id != currentUserId && exists j :: 0 <= j < |members| && members[j].userId == users[i].id)
      ==> users[i] in r
    ensures IsSubsequence(r, users)
    ensures multiset(r) <= multiset(users)
    ensures forall i :: 0 <= i < |users| ==>
      multiset(r)[users[i]] == if users[i] in r then multiset(users)[users[i]] else 0
  {
    var ids := ParticipantIds(members, currentUserId);
    FilterIsSubsequence(users, IdIn(ids));
    FilterCounts(users, IdIn(ids));
    Filter(users, IdIn(ids))
  }
}

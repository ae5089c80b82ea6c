/** The derivations of `src/components/chat/MessagesList.tsx`: which attachment
    element a message gets, which side and sender label its bubble has, where
    the date dividers go, and which empty state shows. The day label of a
    timestamp ("Today", "Yesterday" or a locale date) depends on the clock and
    the locale, so it is a parameter `dayOf`. */
module MessagesList {
  import opened Wrappers
  import opened ChatTypes

  /** What `renderAttachment` renders. */
  datatype AttachmentView =
    | NoAttachment
    | InlineImage(url: string)
    | InlinePlayer(url: string)
    | DownloadLink(url: string)

  /** `renderAttachment`: nothing without a (non-empty) URL; an image for
      'image', a video player for 'video', a download link for anything else,
      a missing type included. */
  function RenderAttachment(m: Message): (v: AttachmentView)
    ensures v.NoAttachment? <==> m.attachmentUrl.None? || m.attachmentUrl.value == []
    ensures !v.NoAttachment? ==> v.url == m.attachmentUrl.value
    ensures v.InlineImage? <==> !v.NoAttachment? && m.attachmentType == Some(Image)
    ensures v.InlinePlayer? <==> !v.NoAttachment? && m.attachmentType == Some(Video)
    ensures v.DownloadLink? <==>
      !v.NoAttachment? && m.attachmentType != Some(Image) && m.attachmentType != Some(Video)
  {
    match m.attachmentUrl
    case None => NoAttachment
    case Some(url) =>
      if url == [] then NoAttachment
      else match m.attachmentType
        case Some(Image) => InlineImage(url)
        case Some(Video) => InlinePlayer(url)
        case _ => DownloadLink(url)
  }

  /** User `i` is the first with the id. */
  predicate FirstWithId(users: seq<User>, id: string, i: int)
    requires 0 <= i < |users|
  {
    users[i].id == id && forall j :: 0 <= j < i ==> users[j].id != id
  }

  /** `users.find(u => u.id === id)`: the first user with that id. */
  function FindUser(users: seq<User>, id: string): (r: Option<User>)
    ensures r.None? <==> forall i :: 0 <= i < |users| ==> users[i].id != id
    ensures r.Some? ==> exists i :: 0 <= i < |users| && FirstWithId(users, id, i) && users[i] == r.value
  {
    if users == [] then None
    else if users[0].id == id then Some(users[0])
    else
      var rest := FindUser(users[1..], id);
      assert forall i :: 1 <= i < |users| ==> users[i] == users[1..][i - 1];
      assert rest.Some? ==> exists i :: 0 <= i < |users| && FirstWithId(users, id, i) && users[i] == rest.value
      by {
        if rest.Some? {
          var k :| 0 <= k < |users[1..]| && FirstWithId(users[1..], id, k) && users[1..][k] == rest.value;
          assert FirstWithId(users, id, k + 1);
        }
      }
      rest
  }

  /** A bubble is the viewer's own exactly when its sender is the signed-in user;
      with no one signed in, no bubble is. */
  predicate IsOwn(m: Message, viewer: Option<string>) {
    viewer == Some(m.senderId)
  }

  /** The sender line: shown only in group chats and only on other people's
      messages; the sender's display name, or 'Unknown User' when no user has
      the sender's id or the name is empty. */
  function SenderLabel(m: Message, viewer: Option<string>, users: seq<User>, isGroup: bool): (r: Option<string>)
    ensures r.Some? <==> isGroup && !IsOwn(m, viewer)
    ensures r.Some? && (FindUser(users, m.senderId).None? || FindUser(users, m.senderId).value.displayName == []) ==>
      r.value == "Unknown User"
    ensures r.Some? && FindUser(users, m.senderId).Some? && FindUser(users, m.senderId).value.displayName != [] ==>
      r.value == FindUser(users, m.senderId).value.displayName
    ensures r.Some? && r.value != "Unknown User" ==>
      exists i :: 0 <= i < |users| && users[i].id == m.senderId && users[i].displayName == r.value
  {
    if isGroup && !IsOwn(m, viewer) then
      var sender := FindUser(users, m.senderId);
      Some(if sender.Some? && sender.value.displayName != [] then sender.value.displayName else "Unknown User")
    else None
  }

  /** One rendered message: an optional date divider above it, the side of its
      bubble, the sender line, the text (only when non-empty) and the attachment. */
  datatype Row = Row(
    divider: Option<string>,
    own: bool,
    senderLabel: Option<string>,
    text: Option<string>,
    attachment: AttachmentView)

  function RowFor(m: Message, viewer: Option<string>, users: seq<User>, isGroup: bool,
                  divider: Option<string>): Row {
    Row(divider, IsOwn(m, viewer), SenderLabel(m, viewer, users, isGroup),
        if m.content == [] then None else Some(m.content), RenderAttachment(m))
  }

  /** The day label of every message, in order. */
  function Labels(messages: seq<Message>, dayOf: int -> string): (labels: seq<string>)
    ensures |labels| == |messages|
    ensures forall i :: 0 <= i < |messages| ==> labels[i] == dayOf(messages[i].createdAt)
  {
    if messages == [] then [] else [dayOf(messages[0].createdAt)] + Labels(messages[1..], dayOf)
  }

  /** Message `i` opens a new day: it is the first, or its label differs from
      the previous message's. */
  predicate OpensDay(labels: seq<string>, i: int)
    requires 0 <= i < |labels|
  {
    i == 0 || labels[i] != labels[i - 1]
  }

  /** A maximal stretch of consecutive equal labels. */
  datatype Run = Run(day: string, count: nat)

  /** The run-length encoding of the labels. */
  function Runs(labels: seq<string>): (r: seq<Run>)
    ensures |r| <= |labels|
    ensures r == [] <==> labels == []
    ensures r != [] ==> r[0].day == labels[0]
  {
    if labels == [] then []
    else
      var rest := Runs(labels[1..]);
      if rest != [] && rest[0].day == labels[0] then
        [Run(labels[0], rest[0].count + 1)] + rest[1..]
      else [Run(labels[0], 1)] + rest
  }

  /** Every run is non-empty and no two neighbouring runs share a day. */
  ghost predicate Maximal(runs: seq<Run>) {
    && (forall i :: 0 <= i < |runs| ==> runs[i].count >= 1)
    && (forall i :: 0 < i < |runs| ==> runs[i].day != runs[i - 1].day)
  }

  /** `n` copies of `day`. */
  function Repeat(day: string, n: nat): seq<string> {
    if n == 0 then [] else [day] + Repeat(day, n - 1)
  }

  /** The labels a run-length encoding stands for. */
  function Expand(runs: seq<Run>): seq<string> {
    if runs == [] then []
    else Repeat(runs[0].day, runs[0].count) + Expand(runs[1..])
  }

  /** The encoding is maximal: no empty run, no two neighbours with the same day. */
  lemma {:induction false} RunsAreMaximal(labels: seq<string>)
    ensures Maximal(Runs(labels))
  {
    if labels != [] {
      RunsAreMaximal(labels[1..]);
      var rest := Runs(labels[1..]);
      var r := Runs(labels);
      if rest != [] && rest[0].day == labels[0] {
        assert forall i :: 1 <= i < |r| ==> r[i] == rest[i];
      } else {
        assert forall i :: 1 <= i < |r| ==> r[i] == rest[i - 1];
      }
    }
  }

  /** The encoding expands back to the labels it was built from. */
  lemma {:induction false} RunsRoundTrip(labels: seq<string>)
    ensures Expand(Runs(labels)) == labels
  {
    if labels != [] {
      var x := labels[0];
      RunsRoundTrip(labels[1..]);
      var rest := Runs(labels[1..]);
      var r := Runs(labels);
      if rest != [] && rest[0].day == x {
        assert r[1..] == rest[1..];
        calc {
          Expand(r);
          Repeat(x, rest[0].count + 1) + Expand(rest[1..]);
          [x] + Repeat(x, rest[0].count) + Expand(rest[1..]);
          [x] + Expand(rest);
        }
      } else {
        assert r[1..] == rest;
        assert Repeat(x, 1) == [x];
      }
      assert labels == [x] + labels[1..];
    }
  }

  /** The number of rows that carry a divider. */
  function DividerCount(rows: seq<Row>): nat {
    if rows == [] then 0
    else (if rows[0].divider.Some? then 1 else 0) + DividerCount(rows[1..])
  }

  /** After the first row, a row carries a divider exactly where the day label changes. */
  ghost predicate DividersAtChanges(rows: seq<Row>, labels: seq<string>) {
    && |rows| == |labels|
    && forall i :: 0 < i < |rows| ==> (rows[i].divider.Some? <==> labels[i] != labels[i - 1])
  }

  /** Dividers at the changes of day give one divider per run of equal
      labels, the first run counting only if the first row has one. */
  lemma {:induction false} DividersCountRuns(rows: seq<Row>, labels: seq<string>)
    requires rows != []
    requires DividersAtChanges(rows, labels)
    ensures DividerCount(rows) == |Runs(labels)| - 1 + (if rows[0].divider.Some? then 1 else 0)
  {
    if |rows| > 1 {
      assert forall i :: 0 < i < |rows| - 1 ==> rows[1..][i] == rows[i + 1] && labels[1..][i] == labels[i + 1];
      DividersCountRuns(rows[1..], labels[1..]);
    }
  }

  /** The divider above message `k`: its day label when it opens a day. */
  function DividerAt(labels: seq<string>, k: int): (d: Option<string>)
    requires 0 <= k < |labels|
    ensures d.Some? <==> OpensDay(labels, k)
    ensures d.Some? ==> d.value == labels[k]
  {
    if OpensDay(labels, k) then Some(labels[k]) else None
  }

  /** Rows whose dividers sit where days open carry one divider per run of
      equal labels, the first row's included. */
  lemma DividersFromLabels(rows: seq<Row>, labels: seq<string>)
    requires |rows| == |labels|
    requires forall k :: 0 <= k < |rows| ==> rows[k].divider == DividerAt(labels, k)
    ensures rows != [] ==> rows[0].divider == Some(labels[0])
    ensures DividerCount(rows) == |Runs(labels)|
  {
    if rows != [] {
      assert DividersAtChanges(rows, labels);
      DividersCountRuns(rows, labels);
    }
  }

  /** Comparing a message's label with the previous one's gives its divider. */
  lemma NextDivider(labels: seq<string>, i: int, lastDate: Option<string>)
    requires 0 <= i < |labels|
    requires lastDate == if i == 0 then None else Some(labels[i - 1])
    ensures (if lastDate != Some(labels[i]) then Some(labels[i]) else None) == DividerAt(labels, i)
  {
  }

  /** The rows of the first `n` messages. */
  ghost function RowsUpTo(messages: seq<Message>, viewer: Option<string>, users: seq<User>,
                          isGroup: bool, labels: seq<string>, n: nat): seq<Row>
    requires n <= |messages| && |labels| == |messages|
  {
    if n == 0 then []
    else
      var last := RowFor(messages[n - 1], viewer, users, isGroup, DividerAt(labels, n - 1));
      RowsUpTo(messages, viewer, users, isGroup, labels, n - 1) + [last]
  }

  /** Row `k` of the first `n` is the row of message `k`, divider included. */
  lemma {:induction false} RowsUpToAt(messages: seq<Message>, viewer: Option<string>, users: seq<User>,
                                      isGroup: bool, labels: seq<string>, n: nat)
    requires n <= |messages| && |labels| == |messages|
    ensures |RowsUpTo(messages, viewer, users, isGroup, labels, n)| == n
    ensures forall k :: 0 <= k < n ==>
      RowsUpTo(messages, viewer, users, isGroup, labels, n)[k]
        == RowFor(messages[k], viewer, users, isGroup, DividerAt(labels, k))
    ensures forall k :: 0 <= k < n ==>
      RowsUpTo(messages, viewer, users, isGroup, labels, n)[k].divider == DividerAt(labels, k)
  {
    if n > 0 {
      RowsUpToAt(messages, viewer, users, isGroup, labels, n - 1);
    }
  }

  /** `renderMessages`: walks the messages keeping the previous day label
      (none before the first message) and puts a divider above every message
      whose label differs from it. */
  method RenderMessages(messages: seq<Message>, viewer: Option<string>, users: seq<User>,
                        isGroup: bool, dayOf: int -> string)
    returns (rows: seq<Row>)
    ensures |rows| == |messages|
    ensures forall i :: 0 <= i < |rows| ==>
      rows[i] == RowFor(messages[i], viewer, users, isGroup, DividerAt(Labels(messages, dayOf), i))
    ensures rows != [] ==> rows[0].divider == Some(dayOf(messages[0].createdAt))
    ensures DividerCount(rows) == |Runs(Labels(messages, dayOf))|
  {
    var labels := Labels(messages, dayOf);
    var lastDate: Option<string> := None;
    rows := [];
    for i := 0 to |messages|
      invariant lastDate == if i == 0 then None else Some(labels[i - 1])
      invariant rows == RowsUpTo(messages, viewer, users, isGroup, labels, i)
    {
      var current := dayOf(messages[i].createdAt);
      var divider := if lastDate != Some(current) then Some(current) else None;
      NextDivider(labels, i, lastDate);
      lastDate := Some(current);
      rows := rows + [RowFor(messages[i], viewer, users, isGroup, divider)];
    }
    RowsUpToAt(messages, viewer, users, isGroup, labels, |messages|);
    DividersFromLabels(rows, labels);
  }

  /** What the message pane shows. */
  datatype Pane = Welcome | NoMessagesYet | Messages(rows: seq<Row>)

  /** The pane: the welcome screen without a current chat (whatever `messages`
      still holds), "No messages yet" for an empty history, the rows otherwise. */
  method RenderPane(currentChat: Option<Chat>, messages: seq<Message>, viewer: Option<string>,
                    users: seq<User>, dayOf: int -> string)
    returns (pane: Pane)
    ensures pane.Welcome? <==> currentChat.None?
    ensures pane.NoMessagesYet? <==> currentChat.Some? && messages == []
    ensures pane.Messages? ==> |pane.rows| == |messages| && pane.rows[0].divider.Some?
    ensures pane.Messages? ==> forall i :: 0 <= i < |messages| ==>
      (pane.rows[i].senderLabel.Some? <==> currentChat.value.isGroup && !IsOwn(messages[i], viewer))
    ensures pane.Messages? ==> forall i :: 0 <= i < |messages| ==>
      pane.rows[i] == RowFor(messages[i], viewer, users, currentChat.value.isGroup, DividerAt(Labels(messages, dayOf), i))
    ensures pane.Messages? ==> DividerCount(pane.rows) == |Runs(Labels(messages, dayOf))|
  {
    if currentChat.None? {
      return Welcome;
    }
    if messages == [] {
      return NoMessagesYet;
    }
    var rows := RenderMessages(messages, viewer, users, currentChat.value.isGroup, dayOf);
    pane := Messages(rows);
  }
}

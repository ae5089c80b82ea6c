# Chat client core, modelled in Dafny

This project models the sequential logic of a WhatsApp-style chat client written in TypeScript and React over a hosted
Postgres/storage backend. It covers:

- the chat records (users, chats, memberships, messages);
- the chat state store: the provider's fields, the updaters its setters apply, and its load, push, select, append, send
  and filter transitions;
- the pure chat utilities: message preview, initials, recency sort, unread count and participants;
- the service layer that reads chats and messages and sends a message with an optional attachment;
- the view-level derivations of the message list, the sidebar and the composer.

The backend SDK is not modelled. In its place:

- `ChatsService.Remote` is a value: the tables the client can read, plus which queries answer with an error.
- `ChatsService.SendEnv` says how a send goes: whether the upload and the insert fail, the public URL of a storage key,
  the new row's id, and the clock readings.
- The service methods return the queries and writes they issue, in order, so that contracts can say what is not issued.

Other modelling choices:

- Timestamps, which are ISO strings in the source, are integers.
- A date divider's day label is an uninterpreted function `dayOf` of the timestamp.
- Case mapping is ASCII.
- `trim` uses ECMAScript's full whitespace and line-terminator set.

Files, one module each:

- `wrappers.dfy` (`Option`, `Result`)
- `seqs.dfy`: an order-preserving `Filter` and its subsequence lemmas.
- `text.dfy`: case mapping, `trim`, `split`/`join`, `includes`, clamped `substring`, decimal rendering.
- `sorting.dfy`: a stable sort, descending by an integer key. It is proved sorted, a permutation and stable, and unique
  with those properties.
- `chat_types.dfy`: the records of `src/types/chat.ts`.
- `chat_utils.dfy`: `src/lib/chat-utils.ts`.
- `chats_service.dfy`: `src/context/chats/chatsService.ts`.
- `chats_store.dfy`: the `Store` class for `src/context/chats/ChatsProvider.tsx`.
- `messages_list.dfy`: `src/components/chat/MessagesList.tsx`.
- `chats_sidebar.dfy`: `src/components/chat/ChatsSidebar.tsx`.
- `message_input.dfy`: the `Composer` class for `src/components/chat/MessageInput.tsx`.

Behaviour the model takes from the code as written:

- **The sidebar does not sort.**
  - It lists `filteredChats` in the order it holds them.
  - `sortChatsByRecent` is not called by any file in this model.
- **MIME classification is a substring test** (`includes`), not a prefix test. `ChatsService.SubstringNotPrefix` shows
  that "application/x-video" is classified as a video.
- **The fetch helpers turn every error into `[]`.** So a failed chat load replaces `chats` with `[]` instead of keeping
  the previous list.
- **`sendMessage` in the provider catches every error.**
  - The composer's file handler therefore never reaches its own error branch.
  - The file handler always ends with the upload flag lowered and the file input cleared.
- **A chat pushed by a change notification is the bare chat row.** It has no `lastMessage`, so the sidebar shows
  "No messages yet" for it (`ChatsSidebar.PushedChatShowsNoMessagesYet`).
- **A pushed chat is upserted into `filteredChats` too**, whatever the current search query is.
- **`filterChats` trims the query only to test it for blankness.** The substring test uses the untrimmed query.

## Model

| member | source | states |
|---|---|---|
| ChatUtils.UserInitials | src/lib/chat-utils.ts:31-38 | initials have at most two characters |
| ChatUtils.InitialsOfWords | src/lib/chat-utils.ts:31-38 | initials are the upper-cased first characters of the first min(2, #words) non-empty space-separated words, in order; empty parts contribute nothing; no space and no lower-case letter appears |
| ChatUtils.FirstLettersOfWords | src/lib/chat-utils.ts:32-35 | taking `part[0]` of each split part and joining yields exactly the first characters of the non-empty parts |
| ChatUtils.MessagePreview | src/lib/chat-utils.ts:41-46 | empty content gives ""; content no longer than `maxLength` is unchanged; longer content is its first `maxLength` characters (0 for a negative length, as `substring` clamps) followed by "...", so `maxLength + 3` long |
| ChatUtils.SortChatsByRecent | src/lib/chat-utils.ts:49-53 | the result is a permutation of the input, `updatedAt` is non-increasing, and each class of equal `updatedAt` keeps its input order (stability) |
| Sorting.StableSortIsUnique | src/lib/chat-utils.ts:49-53 | any sequence sorted by the key whose equal-key classes are those of the input, in order, is the sort's result: the stable sort is fully determined |
| Sorting.SortIsStable | src/lib/chat-utils.ts:50-52 | sorting keeps every class of equal keys in its input order |
| ChatUtils.CountUnreadMessages | src/lib/chat-utils.ts:56-64 | no last-read time gives 0; otherwise the count is at most the number of messages, is 0 exactly when every message is the user's own or not later than the last read, and is all of them exactly when every message is someone else's and strictly later |
| ChatUtils.CountUnreadSplits | src/lib/chat-utils.ts:60-63 | the count over a concatenation is the sum of the counts |
| ChatUtils.ParticipantIds | src/lib/chat-utils.ts:68-70 | an id is listed exactly when some member has it and it is not the current user's |
| ChatUtils.ChatParticipants | src/lib/chat-utils.ts:67-73 | the result is a subsequence of `users` (their order); every user in it is a member other than the current user, every such user is in it, and each user kept appears as many times as in `users` |
| ChatsService.FetchUsers | src/context/chats/chatsService.ts:19-29 | without a client or on an error the result is []; otherwise all users |
| ChatsService.FetchChatMessages | src/context/chats/chatsService.ts:79-94 | without a client or on an error the result is []; otherwise a permutation of the chat's messages, all of that chat, with `createdAt` ascending |
| ChatsService.NewestMessage | src/context/chats/chatsService.ts:56-62 | none exactly when the chat has no message; otherwise a message of the chat whose `createdAt` is not below any other message of the chat |
| ChatsService.MemberChatIds | src/context/chats/chatsService.ts:36-43 | an id is listed exactly when the user has a membership row for it |
| ChatsService.ChatsAmong | src/context/chats/chatsService.ts:46-50 | the chats query returns exactly the chat rows whose id is among the membership ids (as a multiset), most recently updated first |
| ChatsService.ChatsAmongComplete | src/context/chats/chatsService.ts:46-50 | every chat row whose id is among the membership ids is returned |
| ChatsService.Enrich | src/context/chats/chatsService.ts:54-69 | every chat is kept, in order, with `lastMessage` set to its newest message (none if absent or its lookup fails) |
| ChatsService.LastMessageQueries | src/context/chats/chatsService.ts:55-62 | one newest-message lookup is issued per returned chat, in order |
| ChatsService.FetchUserChats | src/context/chats/chatsService.ts:32-76 | no client: [] and no query; membership error or no membership: [] and only the membership query (no chats query is made for an empty list); chats error: []; every result is a chat of the user, carries its newest message, and the list is most recent first; on success it is exactly the enriched chats query |
| ChatsService.UserChats | src/context/chats/chatsService.ts:36-71 | the chats a successful load returns: each has a membership row of the user, carries its newest message, and the list is most recently updated first |
| ChatsService.UserChatsComplete | src/context/chats/chatsService.ts:36-71 | every chat row the user has a membership row for is in the successful load, with its newest message |
| ChatsService.FileExtension | src/context/chats/chatsService.ts:112 | the extension holds no '.', is the whole name when the name has no '.', and otherwise is exactly the text after the last '.' |
| ChatsService.PathKeepsExtension | src/context/chats/chatsService.ts:112-113 | the extension read back from the storage key `userId/now.ext` is the file's extension |
| ChatsService.PathUnderUserFolder | src/context/chats/chatsService.ts:113 | the storage key's first '/'-segment is the user id (for an id without '/') |
| ChatsService.ClassifyMime | src/context/chats/chatsService.ts:127-133 | image exactly when the type contains "image"; video exactly when it does not but contains "video"; document exactly when it contains neither |
| ChatsService.PngIsImage | src/context/chats/chatsService.ts:127-128 | "image/png" is an image |
| ChatsService.Mp4IsVideo | src/context/chats/chatsService.ts:129-130 | "video/mp4" is a video |
| ChatsService.PdfIsDocument | src/context/chats/chatsService.ts:131-132 | "application/pdf" is a document |
| ChatsService.SubstringNotPrefix | src/context/chats/chatsService.ts:129-130 | "application/x-video" is a video: the test is `includes`, not a prefix test |
| ChatsService.SendChatMessage | src/context/chats/chatsService.ts:97-160 | no client: NotInitialized and no write; upload error: only the upload is written (no insert); otherwise the writes are exactly the upload (with an attachment), one insert of the row with the chat, sender, content, public URL and MIME class of the key `userId/now.ext` and the insert time, and the chat update unless the insert fails; success exactly when neither fails, returning the inserted message with the given id |
| ChatsStore.Upsert | src/context/chats/ChatsProvider.tsx:105-114 | an existing id: same length, every entry with that id replaced by the row, every other entry unchanged in place; a new id: the row appended after the unchanged list |
| ChatsStore.ReplaceById | src/context/chats/ChatsProvider.tsx:108-110 | the map replaces exactly the entries whose id is the row's, position by position |
| ChatsStore.UpsertIds | src/context/chats/ChatsProvider.tsx:105-114 | after an upsert the row is present and the ids present are the old ids plus the row's |
| ChatsStore.UpsertIdempotent | src/context/chats/ChatsProvider.tsx:105-125 | upserting the same row twice equals upserting it once |
| ChatsStore.FilterResult | src/context/chats/ChatsProvider.tsx:198-209 | a blank query gives `chats` itself; any other query gives the order-preserving subsequence of the chats that have a name whose lower-cased form contains the lower-cased untrimmed query (nameless chats excluded), all of them with every duplicate kept, and [] when none matches |
| ChatsStore.FilterIgnoresQueryCase | src/context/chats/ChatsProvider.tsx:204-206 | an upper-cased query selects the same chats as the query |
| ChatsStore.SingleChat | src/context/chats/ChatsProvider.tsx:98-102 | a row is returned exactly when one chat row alone has the requested id, and it is that row |
| Text.BlankIffAllWhitespace | src/context/chats/ChatsProvider.tsx:199 | a string is blank after `trim` exactly when every character is whitespace |
| ChatsStore.Store.constructor | src/context/chats/ChatsProvider.tsx:19-37 | empty lists, no current chat, the given user, and `loading` cleared at mount exactly when there is no client |
| ChatsStore.Store.LoadUsers | src/context/chats/ChatsProvider.tsx:40-53 | without user or client nothing changes; otherwise `users` is the fetch result |
| ChatsStore.Store.LoadChats | src/context/chats/ChatsProvider.tsx:56-74 | without user or client nothing changes; otherwise `loading` ends false, `filteredChats == chats`, a failed load leaves [], a successful one the user's enriched chats (`UserChats`), which are the user's, carry their newest message and are most recent first |
| ChatsStore.Store.SessionChanged | src/context/chats/ChatsProvider.tsx:40-74 | a new session records the user and reruns both loads: with a user and a client, `users` is fetched and `chats` and `filteredChats` are the user's chats ([] on failure), `loading` false; with no user or no client the lists and `loading` are unchanged; the current chat and its messages are left alone |
| ChatsStore.Store.PushChat | src/context/chats/ChatsProvider.tsx:104-126 | both lists receive the same upsert, so the row is in `filteredChats` whatever the query |
| ChatsStore.Store.OnChatChanged | src/context/chats/ChatsProvider.tsx:86-128 | a payload is pushed only when it has an id, the user has exactly one membership row for it and the chat row is found exactly once; otherwise both lists are unchanged |
| ChatsStore.Store.SelectChat | src/context/chats/ChatsProvider.tsx:140-153 | the current chat is set; re-selecting the current chat leaves `messages` as it was; selecting a different chat loads its messages ([] on error); no chat or no client leaves `messages` as it was |
| ChatsStore.Store.ReceiveMessage | src/context/chats/ChatsProvider.tsx:169-171 | an inbound message is appended at the end; earlier messages are unchanged, no sort, no de-duplication |
| ChatsStore.Store.SendMessage | src/context/chats/ChatsProvider.tsx:184-196 | refused (no service call, no state change) exactly when there is no current chat, no user or no client; otherwise the service is called with the current chat, the user and the given content and attachment: success exactly when neither upload nor insert fails, and the writes are exactly the upload alone on an upload error, else the upload (with an attachment), the insert of that row and the chat update unless the insert fails; the store is not changed |
| ChatsStore.Store.FilterChats | src/context/chats/ChatsProvider.tsx:198-209 | `filteredChats` becomes the filter result and nothing else changes |
| MessagesList.RenderAttachment | src/components/chat/MessagesList.tsx:42-81 | nothing without a non-empty URL; an image exactly for type image, a video exactly for type video, a download link for any other type including none; always pointing at the message's URL |
| MessagesList.FindUser | src/components/chat/MessagesList.tsx:88 | none exactly when no user has the id; otherwise the first user with that id |
| MessagesList.SenderLabel | src/components/chat/MessagesList.tsx:87-88 | a sender line exactly in group chats on messages that are not the viewer's own; it is the display name of the first user with the sender's id when that name is non-empty, and 'Unknown User' when no user has the id or that name is empty; any other label is the name of a user with that id |
| MessagesList.Labels | src/components/chat/MessagesList.tsx:91 | one day label per message, in order |
| MessagesList.DividerAt | src/components/chat/MessagesList.tsx:91-92 | a divider exactly where a message opens a day (first, or a label different from the previous one), showing that day |
| MessagesList.Runs | src/components/chat/MessagesList.tsx:84-93 | the run-length encoding of the day labels: empty exactly for no labels, no longer than them, first run on the first label |
| MessagesList.RunsAreMaximal | src/components/chat/MessagesList.tsx:84-93 | every run is non-empty and neighbouring runs differ |
| MessagesList.RunsRoundTrip | src/components/chat/MessagesList.tsx:84-93 | expanding the runs gives back the labels |
| MessagesList.DividersCountRuns | src/components/chat/MessagesList.tsx:84-93 | with dividers exactly at changes of day, their number is the number of runs (the first run counted when the first row has one) |
| MessagesList.RenderMessages | src/components/chat/MessagesList.tsx:83-127 | one row per message in order, own exactly for the viewer's messages, the sender line by the group rule, text only when non-empty, the attachment view; the first row always has a divider, message i > 0 has one exactly when its day differs from message i-1's, and there are exactly as many dividers as maximal runs of equal day labels |
| MessagesList.RenderPane | src/components/chat/MessagesList.tsx:129-147 | the welcome screen exactly when there is no current chat, "No messages yet" exactly for an open chat with no messages, otherwise the rows of `renderMessages`, row by row (divider, side, sender line, text, attachment), with one divider per run of equal day labels |
| ChatsSidebar.SidebarPreview | src/components/chat/ChatsSidebar.tsx:45-47 | content of at most 30 characters is unchanged; longer content is its first 30 characters and "..." |
| ChatsSidebar.SidebarPreviewAgrees | src/components/chat/ChatsSidebar.tsx:45-47 | the sidebar's preview equals the shared `getMessagePreview` at its default length 30 |
| ChatsSidebar.OwnAvatarFallback | src/components/chat/ChatsSidebar.tsx:55 | "U" without a user or with an empty email; at most two characters |
| ChatsSidebar.OwnAvatarFromLocalPart | src/components/chat/ChatsSidebar.tsx:55 | for an email `local@domain` the fallback is the initials of `local` |
| ChatsSidebar.OwnAvatarWithoutAt | src/components/chat/ChatsSidebar.tsx:55 | for a non-empty email without '@' the fallback is the initials of the whole email |
| ChatsSidebar.ChatAvatarFallback | src/components/chat/ChatsSidebar.tsx:113 | "CH" when the name is absent or empty; otherwise `getUserInitials` of the name, so at most two characters and no space |
| ChatsSidebar.BadgeFor | src/components/chat/ChatsSidebar.tsx:133-147 | a badge exactly for a tagged chat, showing the tag; orange exactly for demo, green exactly for internal, blue exactly for signup, purple exactly for any other tag |
| ChatsSidebar.RowOf | src/components/chat/ChatsSidebar.tsx:101-129 | a row is active exactly when its id is the current chat's; "No messages yet" exactly when there is no last message, otherwise the 30-character preview of its content; the avatar fallback of its name and the badge of its tag |
| ChatsSidebar.Rows | src/components/chat/ChatsSidebar.tsx:100 | one row per filtered chat, in `filteredChats` order, no sorting |
| ChatsSidebar.AtMostOneActive | src/components/chat/ChatsSidebar.tsx:101 | with distinct ids at most one row is active, and none when the current chat is not listed |
| ChatsSidebar.PushedChatShowsNoMessagesYet | src/context/chats/ChatsProvider.tsx:98-125 | a pushed row without a last message that passes the filter is listed with "No messages yet" |
| MessageInput.FileMessageText | src/components/chat/MessageInput.tsx:34 | the generated text ends with the file name |
| MessageInput.FileTextMatchesKind | src/components/chat/MessageInput.tsx:34 | the text is exactly "Sent an image: " followed by the file name when the stored attachment is classified an image, and "Sent a file: " followed by the name otherwise |
| MessageInput.Composer.constructor | src/components/chat/MessageInput.tsx:10-11 | an empty message, not uploading, an empty file input |
| MessageInput.Composer.Edit | src/components/chat/MessageInput.tsx:69 | typing replaces the message |
| MessageInput.Composer.SendDisabled | src/components/chat/MessageInput.tsx:97 | the send button is disabled exactly while uploading or while the message is all whitespace |
| MessageInput.Composer.Visible | src/components/chat/MessageInput.tsx:49-51 | the composer shows exactly when a chat is open |
| MessageInput.Composer.HandleSubmit | src/components/chat/MessageInput.tsx:15-21 | a blank message sends nothing and keeps the text; otherwise the untrimmed text is sent to the current chat as the user, without attachment: the writes are exactly its insert and, unless the insert fails, the chat update; the field is cleared whatever the outcome |
| MessageInput.Composer.HandleFileSelect | src/components/chat/MessageInput.tsx:23-43 | no file: nothing changes; a file over 10 MiB sends nothing, exactly 10 MiB is sent; a sent file is uploaded first under the user's folder; after a successful upload the writes are exactly the upload, the insert of the row with the generated text, the public URL and its MIME class, and the chat update unless the insert fails; on every path with a file the upload flag ends false and the input is cleared |

## Left out

- Realtime channels, effect scheduling and subscription clean-up (`src/context/chats/ChatsProvider.tsx`, lines 77-137 and
  140-182) are concurrency concerns. The model keeps only the transitions they trigger: `PushChat`/`OnChatChanged`,
  `SelectChat` and `ReceiveMessage`. A stale message channel left over from an earlier chat is not modelled.
- ChatsStore.Store.FilterChats: the sidebar effect that reruns `filterChats` whenever `chats` changes (the callback
  depends on `chats`) is not chained after the other transitions. `FilterChats` is a separate transition the caller
  applies.
- The backend SDK (queries, ordering, inserts, updates, storage, public URLs) is replaced by the `Remote` and `SendEnv`
  values.
- ChatsService.ChatsAmong: the backend orders chats by `updated_at` but leaves the order of equal timestamps open. The
  model keeps table order for ties.
- ChatsService.FetchChatMessages: ties in `created_at` are likewise kept in table order.
- ChatsStore.Store.SelectChat: React compares the selected chat with the current one by object identity, while the
  model compares values. Two distinct chat objects with equal fields, such as a row replaced by a pushed change that
  altered nothing, reload the messages in the source but count as a re-selection in the model.
- ChatsService.NewestMessage, ChatsService.LastMessageOf: among messages with the same greatest `created_at` the
  backend's pick is open; the contract admits any of them, and the definition takes the first in table order.
- `Date.now()` and `new Date()` are the parameters `pathClock`, `insertClock` and `updateClock`.
- Locale and wall-clock formatting are not modelled, and neither is ISO date parsing:
  - `formatTime`, `formatDate`, `formatMessageTime` and `formatRelativeDate`;
  - the "Today"/"Yesterday" labels.

  Day labels enter as the function `dayOf`.
- Text.Upper, Text.Lower: case mapping is ASCII only. JavaScript's Unicode case mapping is not modelled, and strings are
  sequences of characters rather than UTF-16 code units.
- ChatUtils.CountUnreadMessages: the last-read time is an optional integer. A present but empty string, which `!lastReadTime`
  also treats as absent, is not represented.
- Toasts, console logging, scrolling, icons and markup are not modelled:
  - the success toast after an upload;
  - the size-limit and failure toasts.
- The file-handler catch branch is not modelled because it is unreachable: the provider's `sendMessage` catches every
  error itself.
- `src/context/AuthContext.tsx` (sign-in and session handling) is not part of this model; the signed-in user enters as
  `Store.user`.
- `src/components/chat/ChatHeader.tsx` repeats `getUserInitials` verbatim, which `ChatUtils.UserInitials` covers.
  `src/components/chat/ChatView.tsx` is markup.
- The sidebar's own `getInitials` (`src/components/chat/ChatsSidebar.tsx`, lines 21-28) is the same expression as
  `getUserInitials` and is modelled by `ChatUtils.UserInitials`.
- `src/context/chats/useChats.ts` and `src/context/chats/types.ts` are context plumbing and interface declarations.
- A chat row pushed by a change notification is taken as stored. The model does not require a stored row to lack
  `lastMessage`; `ChatsSidebar.PushedChatShowsNoMessagesYet` states the consequence for a row that lacks it.

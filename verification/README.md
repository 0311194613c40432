# Chattr core in Dafny

Chattr is a multi-channel chat service. This project models its core as pure functions over immutable data. There are four parts:

- **Presence registry** of the socket server (`SessionRegistry`, over `ObjectMap`). Two tables record which socket belongs to which user. The connection and disconnect handlers update both tables and broadcast the online list.
- **Message handlers** (`MessageController`, over `MessageModel`):
  - paged history, filtered to one channel, without soft-deleted messages, newest first;
  - sending a message: store it, then broadcast it to the channel's room.
- **Channel handlers** (`ChannelController`, over `ChannelModel`): create, list, join, leave and info. Each answers with an HTTP status over the channel collection.
- **Client chat store and chat panel** (`ChatStore`, `ChatView`), and the two driven together against the server (`History`).
  - The store tracks the selected channel, the loaded messages, the next page, whether more history is expected, and the in-flight flag.
  - The panel is a pure function of that state.

Shared helpers:

- `Text`: JavaScript truthiness and `String.prototype.trim` with the WhiteSpace and LineTerminator set of ECMA-262.
- `Seqs`: `filter`-style removal and duplicate-freedom.
- `Sorting`: a stable insertion sort by an integer key.
- `ObjectMap`: a JavaScript object as an insertion-ordered list of key/value pairs, so that `Object.values` has its real order.
- `Wrappers`: `Option`.

Effects are inputs, not actions:

- database ids, clock readings, upload results and whether the database calls succeed;
- whether a client socket exists.

Timestamps are integers. Object ids are strings.

Three facts about the code shape what is proved:

- **No de-duplication.** The client never de-duplicates messages by id, so a message can be loaded twice (`History.LiveThenOlderDuplicates`).
- **Reused socket ids.** A reused socket id overwrites `onlineUsers[sid]` and is pushed onto the user's list again. Consistency of the two tables is therefore proved only for runs in which every connection brings a fresh socket id.
- **Store order.** The client store keeps each fetched page newest first and puts older pages in front, so its array is in neither order. Only the panel sorts (`History.NotChronological`).

## Model

| member | source | states |
|---|---|---|
| Text.Trim | backend/src/models/message.model.js:18-22 | the stored text is the input minus whitespace-only ends; it starts and ends with a non-whitespace character |
| Text.TrimIdempotent | backend/src/models/channel.model.js:6-11 | trimming an already trimmed name or text changes nothing, so a stored value is a fixed point of the setter |
| Text.TrimEmptyIffAllSpace | backend/src/models/channel.model.js:6-9 | a name trims to the empty string, which `required` refuses, exactly when it is all whitespace |
| Seqs.RemoveAll | backend/src/controllers/channel.controller.js:92-94 | `filter(m => m !== u)` removes every occurrence of `u`, keeps every other element, and keeps each one's count |
| Seqs.RemoveAllConcat | backend/src/controllers/channel.controller.js:92-94 | filtering distributes over concatenation, so the remaining members keep their relative order |
| Seqs.RemoveAllAbsent | backend/src/controllers/channel.controller.js:92-94 | filtering out a user who is not a member leaves the member list unchanged |
| Seqs.RemoveAllOnce | backend/src/lib/socket.js:67 | removing a present socket from a duplicate-free list shortens it by exactly one |
| Seqs.RemoveAllNoDup | backend/src/controllers/channel.controller.js:92-94 | filtering keeps a duplicate-free member list duplicate-free |
| Seqs.AppendNoDup | backend/src/controllers/channel.controller.js:63-67 | pushing a user who is not yet a member keeps the member list duplicate-free |
| Sorting.SortBy | backend/src/controllers/message.controller.js:21 | the sort yields an ordered permutation of its input |
| Sorting.SortByAppendSmallest | backend/src/controllers/channel.controller.js:40 | an element with a key smaller than all others is placed first, in front of the sorted rest |
| Sorting.SortBySorted | frontend/src/components/ChatContainer.jsx:119 | sorting an already ordered list returns it unchanged |
| ObjectMap.Get | backend/src/lib/socket.js:63 | `o[k]` is undefined exactly when `k` is not a key, and otherwise names one of the entries |
| ObjectMap.GetIffEntry | backend/src/lib/socket.js:11 | with unique keys, `o[k] === v` exactly when `(k, v)` is an entry |
| ObjectMap.Values | backend/src/lib/socket.js:37 | `Object.values(o)` has one value per property, the i-th property's value at position i |
| ObjectMap.Set | backend/src/lib/socket.js:28 | after `o[k] = v`, `(k, v)` is a property; the object gains a property exactly when `k` was not a key |
| ObjectMap.Delete | backend/src/lib/socket.js:64 | after `delete o[k]`, `k` is no longer a key and the object has not gained a property |
| ObjectMap.SetGet | backend/src/lib/socket.js:28 | after `o[k] = v`, `o[k]` reads `v` and every other key reads as before |
| ObjectMap.SetFresh | backend/src/lib/socket.js:28 | assigning a new key appends it at the end of the insertion order |
| ObjectMap.SetUnique | backend/src/lib/socket.js:28 | assignment never creates a second property with the same key |
| ObjectMap.DeleteGet | backend/src/lib/socket.js:64 | after `delete o[k]`, `o[k]` is undefined and every other key reads as before |
| ObjectMap.DeleteEntries | backend/src/lib/socket.js:64 | the entries left after deleting are exactly the old entries with another key |
| ObjectMap.DeleteAt | backend/src/lib/socket.js:64 | with unique keys, `delete o[k]` removes the one property with key `k` and keeps the others in their order, which is the order the next broadcast lists them in |
| ObjectMap.DeleteAbsent | backend/src/lib/socket.js:63-64 | deleting an absent key changes nothing |
| ObjectMap.DeleteUnique | backend/src/lib/socket.js:64 | deletion keeps keys unique |
| ObjectMap.DeleteValues | backend/src/lib/socket.js:63-74 | deleting socket `k` removes exactly one occurrence of its user from `Object.values` |
| SessionRegistry.Connect | backend/src/lib/socket.js:25-38 | with a truthy user id, `onlineUsers[sid] = uid` and `sid` is appended to the user's list, created if absent, other entries unchanged, the online list broadcast; without one, nothing changes and nothing is emitted |
| SessionRegistry.Disconnect | backend/src/lib/socket.js:59-75 | the socket always leaves `onlineUsers`; it leaves its user's list and nothing else changes; an unknown socket leaves `userSockets` unchanged; no list becomes empty; the list is always broadcast, except when the handler would throw because the user has no list |
| SessionRegistry.ConsistentIff | backend/src/lib/socket.js:11-12 | in consistent tables, `onlineUsers[s] === u` exactly when `s` is in `userSockets[u]` |
| SessionRegistry.PresenceIffSockets | backend/src/lib/socket.js:37 | a user is in the online list exactly when they have a socket, and appears once per socket |
| SessionRegistry.ConnectKeepsConsistent | backend/src/lib/socket.js:27-34 | connecting a socket id not yet registered keeps the two tables consistent |
| SessionRegistry.RemovedSockets | backend/src/lib/socket.js:66-71 | the removal takes `sid` out of its user's list, deletes a list that becomes empty, and changes no other list |
| SessionRegistry.RemovedCounted | backend/src/lib/socket.js:63-71 | after the removal every user still appears in the online list once per remaining socket |
| SessionRegistry.DisconnectKeepsConsistent | backend/src/lib/socket.js:63-72 | disconnecting any socket, known or not, keeps the tables consistent |
| SessionRegistry.HandleKeepsConsistent | backend/src/lib/socket.js:21-75 | one connection or disconnection event keeps consistent tables consistent |
| SessionRegistry.ReplayConsistent | backend/src/lib/socket.js:21-75 | any run of events with fresh socket ids keeps the tables consistent |
| SessionRegistry.Handle | backend/src/lib/socket.js:21-75 | a connection without a truthy user id changes nothing and emits nothing; one with a user id maps the socket to it; a disconnect always unmaps the socket; whatever is broadcast is the online list after the event |
| SessionRegistry.EmptyConsistent | backend/src/lib/socket.js:11-12 | the two empty tables the server starts with are consistent |
| SessionRegistry.ReplayFromStart | backend/src/lib/socket.js:11-75 | from server start, any run of events with fresh socket ids leaves the tables consistent |
| SessionRegistry.BroadcastReflectsSockets | backend/src/lib/socket.js:37-74 | every broadcast names each user once per open socket and exactly the users with a socket; disconnect always broadcasts |
| MessageModel.Create | backend/src/models/message.model.js:4-36 | a message without a sender or channel is refused; otherwise text and image default to empty, text is trimmed, the message is not deleted, and both timestamps are the creation time |
| MessageModel.CreateTextStable | backend/src/models/message.model.js:18-22 | creating a message again from the stored fields, with the same id and time, gives back the same message: the stored text is already trimmed |
| ChannelModel.Insert | backend/src/models/channel.model.js:4-29 | a name that trims to empty, or a missing creator, fails validation; a taken trimmed name is a duplicate key; otherwise the trimmed channel is appended |
| ChannelModel.InsertKeepsValid | backend/src/models/channel.model.js:6-11 | an accepted insert with a fresh id keeps ids and names unique, names non-empty and trimmed, and member lists duplicate-free |
| MessageController.Visible | backend/src/controllers/message.controller.js:17-20 | the filter yields only messages of the channel that are not deleted |
| MessageController.VisibleCount | backend/src/controllers/message.controller.js:17-20 | the filter keeps each matching document as often as it is stored, and nothing else |
| MessageController.Timeline | backend/src/controllers/message.controller.js:17-21 | the channel's visible messages, as a permutation ordered newest first |
| MessageController.SkipIsProduct | backend/src/controllers/message.controller.js:15 | the offset of page `p` is `(p - 1) * limit`, so page 1 starts at 0 |
| MessageController.SkipMonotone | backend/src/controllers/message.controller.js:15 | a later page starts at least one page further on |
| MessageController.GetMessages | backend/src/controllers/message.controller.js:12-23 | with page and limit defaulting to 1 and 50: at most `limit` stored, matching messages, newest first, exactly the timeline slice at the offset, empty past the end |
| MessageController.Skip | backend/src/controllers/message.controller.js:15 | the offset of a page of at least 1 is never negative (`SkipIsProduct` gives its value) |
| MessageController.PageOf | backend/src/controllers/message.controller.js:22-23 | `.skip(o).limit(l)` returns at most `l` entries, and none exactly when the offset reaches the end of the result |
| MessageController.PageIsSlice | backend/src/controllers/message.controller.js:22-23 | `.skip().limit()` is the slice at the offset, empty past the end, never longer than the limit |
| MessageController.PageInStore | backend/src/controllers/message.controller.js:17-23 | every message on a page is stored in the collection, of the channel, and not deleted |
| MessageController.PageOrdered | backend/src/controllers/message.controller.js:21-23 | a page of a newest-first list is newest first |
| MessageController.InTimeline | backend/src/controllers/message.controller.js:17-20 | everything on the timeline is a stored message of the channel that is not deleted |
| MessageController.PagesArePrefix | backend/src/controllers/message.controller.js:15-23 | pages 1..k together are exactly the newest `k * limit` entries of the timeline |
| MessageController.PagesAdjacent | backend/src/controllers/message.controller.js:15-23 | page `p + 1` starts exactly where page `p` ends |
| MessageController.PagesDisjoint | backend/src/controllers/message.controller.js:15-23 | in a collection without repeated documents, no message is on two different pages |
| MessageController.TimelineNoDup | backend/src/controllers/message.controller.js:17-21 | a collection without repeats gives a timeline without repeats |
| MessageController.VisibleAppend | backend/src/controllers/message.controller.js:51-56 | a newly stored message joins the end of the filtered list exactly when it matches |
| MessageController.SendMessage | backend/src/controllers/message.controller.js:38-70 | text defaults to empty; image is the upload URL or empty; `newMessage` goes to the channel's room only after create and populate succeed, with 201; any failure gives 500 and no emit; a failure after create leaves the message stored |
| MessageController.SentIsVisible | backend/src/controllers/message.controller.js:51-56 | a stored message is on its channel's timeline, because `isDeleted` starts out false |
| MessageController.SentIsNewest | backend/src/controllers/message.controller.js:51-56 | a message stored later than all others heads its channel's timeline, and the rest is unchanged |
| ChannelController.FindIndex | backend/src/controllers/channel.controller.js:57 | `findById` finds the first channel with the id, and fails exactly when there is none |
| ChannelController.CreateChannel | backend/src/controllers/channel.controller.js:10-32 | 400 with nothing changed exactly when the trimmed name is taken; 500 when it trims to empty; otherwise 201, appending a channel created by the requester whose only member is the requester |
| ChannelController.GetChannels | backend/src/controllers/channel.controller.js:38-46 | all channels, as a permutation ordered newest first |
| ChannelController.JoinChannel | backend/src/controllers/channel.controller.js:52-75 | 404 for an unknown channel and 400 for a member, with nothing changed; otherwise 200 with the user appended to that channel's members and every other channel unchanged |
| ChannelController.LeaveChannel | backend/src/controllers/channel.controller.js:81-103 | 404 for an unknown channel; otherwise 200 with that channel's members filtered and every other channel unchanged |
| ChannelController.GetChannelInfo | backend/src/controllers/channel.controller.js:109-125 | 200 with the stored channel of that id, or 404 exactly when there is none |
| ChannelController.CreateKeepsValid | backend/src/controllers/channel.controller.js:21-25 | a create keeps the collection valid, given a fresh id |
| ChannelController.CreateTwiceRefused | backend/src/controllers/channel.controller.js:16-19 | after a create, a second create with a name that trims the same is refused with 400 |
| ChannelController.CreatedListedFirst | backend/src/controllers/channel.controller.js:40 | a channel created after all others heads the listing, in front of the unchanged listing of the rest |
| ChannelController.JoinKeepsValid | backend/src/controllers/channel.controller.js:63-68 | joining keeps member lists duplicate-free, so a joined user occurs exactly once |
| ChannelController.LeaveKeepsValid | backend/src/controllers/channel.controller.js:92-96 | leaving keeps the collection valid |
| ChannelController.JoinTwiceRefused | backend/src/controllers/channel.controller.js:63-65 | a second join by the same user is refused with 400 and changes nothing |
| ChannelController.JoinThenLeaveRestores | backend/src/controllers/channel.controller.js:63-96 | a successful join followed by a leave restores the collection |
| ChannelController.JoinedInfo | backend/src/controllers/channel.controller.js:67-70 | after a successful join, reading the channel gives the same document the join answered with, now listing the user |
| ChannelController.LeaveAsNonMember | backend/src/controllers/channel.controller.js:86-98 | leaving a channel one is not a member of answers 200 and changes nothing |
| ChannelController.LeaveRemovesMembership | backend/src/controllers/channel.controller.js:86-98 | after leaving, the user is no member of the channel and every other member remains |
| ChatStore.Select | frontend/src/store/useChatStore.js:21-40 | selects the channel and resets messages, page and `hasMore`; leaves the loading flag alone; emits a leave for the previous id before a join for the new one, each only with an id and a socket |
| ChatStore.BeginFetch | frontend/src/store/useChatStore.js:65-75 | refused exactly while a load is in flight or when a later page is asked for after history ended; otherwise sets the loading flag and requests that page |
| ChatStore.CompleteFetch | frontend/src/store/useChatStore.js:77-89 | page 1 replaces the messages and a later page goes in front; the next page is `page + 1`; `hasMore` is exactly "a full page of 50 came back"; loading is cleared |
| ChatStore.FailFetch | frontend/src/store/useChatStore.js:91-94 | a failed request only clears the loading flag |
| ChatStore.LoadOlder | frontend/src/store/useChatStore.js:116-121 | requests page `messagesPage` of the selected channel, and does nothing without a selected id |
| ChatStore.LiveMessage | frontend/src/store/useChatStore.js:169-178 | a live message is appended at the end exactly when it belongs to the selected channel; otherwise the state is unchanged |
| ChatStore.SelectIdempotent | frontend/src/store/useChatStore.js:30-35 | selecting the same channel again yields the same state |
| ChatStore.AtMostOneInFlight | frontend/src/store/useChatStore.js:69-72 | while a request is in flight every further request is refused |
| History.Open | frontend/src/store/useChatStore.js:21-95 | selecting a channel leaves it selected with a page of at least 1 and, if no load was in flight before, none after; when the id did not change (`ChatView.ChannelEffect` fires nothing) the state is only the selection. Switching channels while a load is in flight fetches nothing (`ChatView.SelectThenFetch`) |
| History.Older | frontend/src/store/useChatStore.js:116-121 | loading older history keeps the selected channel and, if no load was in flight before, leaves none after; when `getMessages` refuses, nothing changes |
| ChatView.SentinelFires | frontend/src/components/ChatContainer.jsx:62-79 | older history is requested exactly when a member views a channel that has more history, the sentinel is in view and no load is in flight |
| ChatView.InitialShowsPlaceholder | frontend/src/components/ChatContainer.jsx:85-91 | the store as created has no channel selected, so the panel shows the placeholder |
| ChatStore.BeginThenFailRestores | frontend/src/store/useChatStore.js:72-93 | a request that starts and then fails leaves the store as it found it |
| ChatStore.EndOfHistoryIsFinal | frontend/src/store/useChatStore.js:69-87 | after a short page, every request for a later page is refused |
| ChatStore.LiveMessageIgnoresOthers | frontend/src/store/useChatStore.js:173 | a live message leaves the state unchanged exactly when it is not for the selected channel |
| ChatView.Chronological | frontend/src/components/ChatContainer.jsx:119 | the panel's copy is a permutation of the messages, oldest first |
| ChatView.Bubbles | frontend/src/components/ChatContainer.jsx:138-140 | a message is "mine" exactly when its sender is the viewer, and "online" exactly when its sender is in the online list |
| ChatView.Render | frontend/src/components/ChatContainer.jsx:85-136 | placeholder exactly without a channel; join prompt exactly for a non-member; skeleton exactly while loading with no messages; otherwise the sentinel exactly while `hasMore`, the loading banner while loading with `hasMore`, the end banner exactly when history ended and messages exist, and the messages oldest first |
| ChatView.ShownIsPermutation | frontend/src/components/ChatContainer.jsx:119 | a member's conversation shows every loaded message exactly as often as it is loaded |
| ChatView.ShownOnlyToMembers | frontend/src/components/ChatContainer.jsx:85-105 | with no channel selected, or for a non-member, no messages are shown |
| ChatView.SentinelLoadsNextPage | frontend/src/components/ChatContainer.jsx:62-79 | an older load is triggered only while `hasMore` and nothing is loading, and then it requests the next page of the selected channel |
| ChatView.ChannelEffect | frontend/src/components/ChatContainer.jsx:31-34 | a change to a truthy channel id requests page 1 of that channel, and nothing else does |
| ChatView.SelectThenFetch | frontend/src/components/ChatContainer.jsx:31-34 | selecting another channel requests its first page, which starts unless an earlier request is still in flight |
| History.Serve | backend/src/controllers/message.controller.js:12-23 | the server answers a client request with that page of the channel's timeline |
| History.OpenLoadsFirstPage | frontend/src/store/useChatStore.js:21-89 | opening a channel with nothing in flight loads its first page |
| History.OlderAdvances | frontend/src/store/useChatStore.js:116-121 | an older load adds the next page while more is expected, and otherwise changes nothing |
| History.LoadsReach | frontend/src/store/useChatStore.js:116-121 | after `k` older loads, pages 1..p are loaded, and fewer than `k + 1` only when history ran out |
| History.LoadedIsNewest | frontend/src/store/useChatStore.js:85 | the pages loaded so far hold, as a multiset, the newest entries of the timeline |
| History.HistoryIsNewest | frontend/src/store/useChatStore.js:65-121 | over an unchanging collection, opening a channel and loading older history `k` times loads exactly the newest `(k + 1) * 50` visible messages; `hasMore` holds exactly when the channel has at least that many |
| History.QueryOrderDetermined | backend/src/controllers/message.controller.js:17-21 | when no two visible messages of the channel share a creation time, every newest-first arrangement of them is the model's timeline, so the paging results hold whatever order the query returns |
| History.NotChronological | frontend/src/store/useChatStore.js:85 | after two pages of distinct times, the store's array is neither oldest-first nor newest-first |
| History.LiveThenOlderDuplicates | frontend/src/store/useChatStore.js:176 | a live message followed by an older load makes the oldest message of page 1 (the 50th of the timeline) appear twice: it heads the store and is still second to last, since offsets shift and nothing de-duplicates by id |
| History.ShiftedPageRepeats | frontend/src/store/useChatStore.js:85 | prepending page 2 of a list that gained one newer entry puts the last message of page 1 at the front while it is still in place near the end |

## Left out

- socket.io itself:
  - `socket.join` and `socket.leave` room bookkeeping and delivery to a room's sockets (backend/src/lib/socket.js:43-54) are library behaviour;
  - a broadcast is recorded as an emitted value, not delivered.
- The database and Cloudinary: the model has no queries, `populate`, `save` or uploads.
  - Their results are inputs: the assigned id, the time, upload success, and create and populate success.
  - A failed `save` or `find` (500 in `getMessages`, `getChannels`, `joinChannel`, `leaveChannel` and `getChannelInfo`) is not modelled. Those handlers are modelled on their success path.
- Populated references are not modelled. `populate` replaces `senderId` and `members` by user documents. The model compares plain ids, which is what the client's `senderId?._id` and `members.includes` amount to.
- Ties in MongoDB's sort order are not modelled. MongoDB leaves the order of equal `createdAt` values unspecified; the model uses a stable sort, so ties keep collection order. `History.QueryOrderDetermined` shows that this choice is harmless when creation times are distinct.
- MessageController.PagesDisjoint, MessageController.PagesArePrefix, History.LoadedIsNewest, History.LoadedIsPages, History.LoadedUpTo, History.HistoryIsNewest and History.LiveThenOlderDuplicates: these take every page from one fixed timeline order. MongoDB promises no single order for equal `createdAt` values across separate queries, so with ties two pages may overlap or skip a message. They hold for real queries when creation times are distinct.
- `updatedAt` changes on `save` are not modelled; only creation sets it.
- MessageController.GetMessages: `page` and `limit` arrive as query strings. The model takes them as integers of at least 1. It does not model:
  - a non-numeric value;
  - page 0 or below, where the negative skip makes the query fail;
  - limit 0, which MongoDB reads as no limit.
- ChannelController.CreateChannel: the `name` field is a string. A missing or non-string `name` is not modelled. Failures of its own `findOne` and `create` (500, backend/src/controllers/channel.controller.js:16-30) are not modelled either.
- ChannelController.JoinChannel, ChannelController.LeaveChannel, ChannelController.GetChannelInfo and MessageController.GetMessages: ids are taken to be well-formed ObjectId hex strings. A malformed id makes Mongoose throw a CastError, and the handler answers 500. The model answers that case as an unknown id: 404, or an empty page.
- MessageController.SendMessage: `text` and `image` are taken to be strings or absent. A non-string JSON value, such as `text: 5`, is cast by the schema and stored as `"5"`; this is not modelled.
- SessionRegistry.Connect: user ids that name a property every object inherits (`constructor`, `toString`, `__proto__`, …) are not modelled. For them `userSockets[userId]` is already truthy, so `.push` throws after `onlineUsers[sid]` was set; nothing is broadcast and no disconnect handler is registered. The same exclusion applies to SessionRegistry.ConnectKeepsConsistent, SessionRegistry.Handle and SessionRegistry.ReplayConsistent.
- Concurrency is not modelled; every handler and store action is one atomic step. This leaves out:
  - check-then-act races between `findOne` and `create`, and between `findById` and `save`;
  - a response to an old request landing after the user switched channel.
  `History.LiveThenOlderDuplicates` states the one interleaving the offset paging gets wrong.
- SessionRegistry.ReplayConsistent: consistency is proved only when each connection brings a socket id not already registered, as socket.io guarantees. A reused id would push it twice.
- The client actions `getChannels`, `joinChannel`, `leaveChannel` and `sendMessage` in the store are not modelled; their server side is modelled. `joinChannel` and `leaveChannel` re-select (the joined channel, or none) and reload the channel list; `getChannels` is that reload; `sendMessage` only posts, and its message reaches the store through the `newMessage` listener (`ChatStore.LiveMessage`).
- `subscribeToMessages` and `unsubscribeFromMessages` are not modelled beyond the `newMessage` listener (`ChatStore.LiveMessage`).
- Parts of ChatContainer's rendering are not modelled:
  - the second effect's extra `joinChannel` and `leaveChannel` emits;
  - scrolling;
  - `IntersectionObserver`, which is an input saying whether the sentinel is in view;
  - time formatting.
- The channel collection is a sequence in insertion order rather than a map by id, so that the listing's sort has an order to start from. Ids are unique in every valid collection.

# Random-chat matchmaking, modelled in Dafny

This project models the random-chat core of portugalchat/ricricky. It covers three parts:

- **Storage layer.** The queries and updates over the users, random-chat, skip and friendship tables (`server/storage.ts`).
- **Server.** The HTTP handlers that pair, skip and end chats, together with the WebSocket server that binds users to connections and relays messages and typing indicators (`server/routes.ts`).
- **Browser chat provider.** It reacts to the server's frames and offers the chat actions to the page (`client/src/contexts/chat-context.tsx`).

Modules:

- `Wrappers`, `Schema`: `Option` and the table rows (`User`, `RandomChat`, `SkipRecord`, `Friendship`).
- `Protocol`: a WebSocket connection (`Socket`, an object whose identity is the connection's) and the JSON frames in both directions as closed variants.
- `OrderedMap`: a JavaScript `Map` as an association list in insertion order. `set` keeps an existing key's position, and `delete` removes the key's entry. Insertion order matters because the `close` handler scans the entries in order.
- `Storage`: each table is a sequence of rows in insertion order. Queries are pure functions of the tables. A query that keeps the first row (`const [row] = ...`) takes the first match, and every stated property holds whichever row comes first. The class `DatabaseStorage` owns the tables, and its methods are the inserts and updates.
- `Routes`: the class `ChatServer` holds the storage, the `userSockets` map, and `sent`, the frames handed to `socket.send`, in order. Each handler is a method. Its contract states the response and the new state, and it preserves the server invariant. The invariant has four parts:
  - no user is in two active chats;
  - no chat pairs a user with themselves;
  - no two friendship rows link the same two users;
  - `userSockets` has unique keys.
- `ChatContext`: the class `ChatSession` holds the provider's React state. The socket's `onmessage` handler is proved against the pure function `Receive` on the shown state (`ChatView`). Frames written to the socket go to `wsSent` and HTTP requests issued go to `requests`.

`Math.random()` is a parameter `random` with `0 <= random < 1`. The result of a `fetch` is a parameter `outcome`: a status, or a network failure.

## Model

| member | source | states |
|---|---|---|
| OrderedMap.Get | server/routes.ts:16 | `Map.get`: absent exactly when no entry has the key, and otherwise the value stored under it |
| OrderedMap.Set | server/routes.ts:539 | `Map.set`: the keys afterwards are the old keys plus the new one |
| OrderedMap.Delete | server/routes.ts:123 | `Map.delete`: removes one entry when the key is present, none otherwise |
| OrderedMap.GetAfterSet | server/routes.ts:539 | after `set(k, v)`, `get(k)` is `v` and every other key reads as before |
| OrderedMap.SetKeepsKeysUnique | server/routes.ts:539 | `set` never creates a second entry for a key |
| OrderedMap.SetAppendsNewKey | server/routes.ts:539 | `set` of a new key appends its entry after all existing entries: insertion order |
| OrderedMap.SetReplacesInPlace | server/routes.ts:539 | `set` of a present key replaces its value where it stands, so entry order is unchanged |
| OrderedMap.DeleteAt | server/routes.ts:593 | deleting a present key removes exactly its entry and keeps the order of the rest |
| OrderedMap.GetAfterDelete | server/routes.ts:123 | after `delete(k)`, `get(k)` is absent and every other key reads as before |
| OrderedMap.DeleteKeepsKeysUnique | server/routes.ts:123 | `delete` keeps keys unique |
| OrderedMap.DeleteAbsent | server/routes.ts:123 | deleting an absent key changes nothing |
| Storage.GetUser | server/storage.ts:50-53 | the row with the id when one exists; absent exactly when no row has it |
| Storage.OnlineStatusUpdate | server/storage.ts:73-81 | the online update changes only the online flag, and only of the rows with that id |
| Storage.GetUserActiveChat | server/storage.ts:245-259 | an active chat the user belongs to; absent exactly when the user is in no active chat |
| Storage.ActiveChatIsUnique | server/storage.ts:245-259 | while no user is in two active chats, the query returns the user's one active chat, whichever row the database returns first |
| Storage.EndChatDeactivatesOnlyThatChat | server/storage.ts:235-243 | ending a chat deactivates the rows with that id and changes nothing else |
| Storage.EndChatIdempotent | server/storage.ts:235-243 | ending a chat twice is the same as ending it once |
| Storage.EndChatKeepsInvariants | server/storage.ts:235-243 | ending a chat keeps one active chat per user, no self-chats and the serial ids |
| Storage.EndingChatFreesItsMembers | server/storage.ts:235-259 | ending a user's active chat leaves both of its members in no active chat |
| Storage.NewChatKeepsOneActiveChatPerUser | server/storage.ts:223-233 | inserting an active chat between two users who are in no active chat keeps every user in at most one active chat |
| Storage.GetSkippedUsers | server/storage.ts:270-277 | `s` is listed exactly when a skip row `(userId, s)` exists |
| Storage.SkipIsDirectional | server/storage.ts:261-277 | a skip recorded by `u` changes no other user's skip list |
| Storage.ActiveChatUserIds | server/storage.ts:199-205 | an id is listed exactly when that user is in an active chat |
| Storage.FilterCandidates | server/storage.ts:207-218 | a user is kept exactly when online, not the requester, not skipped, not busy, and of the preferred gender unless it is "both" |
| Storage.AvailableUsers | server/storage.ts:195-218 | the candidates are exactly the users eligible for the requester |
| Storage.RandomIndexInRange | server/storage.ts:220 | `Math.floor(Math.random() * n)` is a valid index whenever n > 0 |
| Storage.RandomElement | server/storage.ts:220 | the random pick is an element of the list, and nothing only when the list is empty |
| Storage.RandomForIndex | server/storage.ts:220 | for each index there is a value of `Math.random()` that selects it |
| Storage.RandomElementCanBeAny | server/storage.ts:220 | every element of the list can be the random pick |
| Storage.RandomElementOfSingleton | server/storage.ts:220 | a one-element list is picked whatever `Math.random()` returns |
| Storage.FindAvailableUser | server/storage.ts:195-221 | the match found is an eligible user; no match exactly when nobody is eligible |
| Storage.AnyEligibleUserCanBeChosen | server/storage.ts:195-221 | every eligible user is the match for some value of `Math.random()` |
| Storage.SingleCandidateIsChosen | server/storage.ts:195-221 | with one eligible user, that user is the match whatever `Math.random()` returns |
| Storage.FilterDependsOnMembership | server/storage.ts:212-218 | the filter depends only on which ids are skipped, not on their order or repetition |
| Storage.DuplicateSkipChangesNoCandidates | server/storage.ts:261-268 | recording a skip that already exists changes nobody's candidates |
| Storage.GetFriendship | server/storage.ts:98-109 | a friendship linking the two users in either direction; absent exactly when none does |
| Storage.GetFriendshipSymmetric | server/storage.ts:98-109 | the lookup gives the same answer with the two users swapped |
| Storage.StatusUpdateKeepsOneFriendshipPerPair | server/storage.ts:111-116 | a status update keeps at most one friendship per pair of users and the serial ids |
| Storage.NewFriendshipKeepsOneFriendshipPerPair | server/storage.ts:90-96 | inserting a friendship for a pair the lookup finds unlinked keeps at most one friendship per pair |
| Storage.FriendIds | server/storage.ts:118-134 | every listed id is the other end of an accepted friendship of the user, and every such other end is listed |
| Storage.UsersWithIds | server/storage.ts:138-141 | a user row is kept exactly when its id is in the list |
| Storage.GetUserFriends | server/storage.ts:118-142 | the friends are exactly the users at the other end of the user's accepted friendships |
| Storage.DatabaseStorage.constructor | server/storage.ts:280 | the storage over a users table, with every other table empty |
| Storage.DatabaseStorage.UpdateUserOnlineStatus | server/storage.ts:73-81 | sets the online flag of the user rows with that id; other tables unchanged |
| Storage.DatabaseStorage.CreateRandomChat | server/storage.ts:223-233 | appends an active chat with the next serial id and returns it |
| Storage.DatabaseStorage.EndRandomChat | server/storage.ts:235-243 | deactivates the chat with that id |
| Storage.DatabaseStorage.AddSkippedUser | server/storage.ts:261-268 | appends the skip row, after which the skipped user is in the user's skip list |
| Storage.DatabaseStorage.CreateFriendRequest | server/storage.ts:90-96 | appends a pending friendship with the next serial id and returns it |
| Storage.DatabaseStorage.UpdateFriendshipStatus | server/storage.ts:111-116 | sets the status of the friendship with that id |
| Routes.PartnerOf | server/routes.ts:321 | the member of the chat to notify is in the chat, and is the other member for a member of a chat between two users |
| Routes.Notify | server/routes.ts:298-303 | one frame to the user's registered socket, or nothing when the user has none |
| Routes.FirstEntryOf | server/routes.ts:590-597 | the position of the first entry bound to the socket, with no earlier one bound to it; none when no entry is |
| Routes.CloseRemovesOnlyThatSocket | server/routes.ts:587-598 | `close` deletes at most one entry, one bound to the closing socket, keeping the others in order and the keys unique |
| Routes.StaleCloseKeepsNewerBinding | server/routes.ts:587-598 | closing an old socket does not unbind a user who re-authenticated on another one |
| Routes.TwoOnlineUsersArePaired | server/routes.ts:241-257 | for two online users with no history, the first one's find-match picks the other whatever `Math.random()` returns |
| Routes.PairThenRepeat | server/routes.ts:241-283 | on a fresh server holding two online users, the first find-match pairs them in chat 1 (200), and the second user's find-match then answers 400 |
| Routes.SkipExcludesOnlyForTheSkipper | server/routes.ts:285-290 | after A skipped B, A is never offered B, while B can still be offered A |
| Routes.ChatServer.constructor | server/routes.ts:16 | a server with empty tables except users, no sockets and nothing sent |
| Routes.ChatServer.FindMatch | server/routes.ts:241-283 | 400 exactly when the requester is in an active chat, 404 exactly when no one is eligible (nothing changes on either); otherwise one new active chat joins the requester and an eligible user, both then have it as their active chat, and each registered socket gets `match_found` naming the other |
| Routes.ChatServer.Skip | server/routes.ts:285-310 | the skip is always recorded; an active chat is ended, leaving both members free, and `partner_skipped` goes to the given partner's socket |
| Routes.ChatServer.End | server/routes.ts:312-334 | an active chat is ended, leaving both members free, and `chat_ended` goes to the other member's socket; no skip is recorded |
| Routes.ChatServer.Logout | server/routes.ts:118-129 | a non-zero user is marked offline and unbound from every socket; chats are untouched |
| Routes.ChatServer.FriendRequest | server/routes.ts:149-167 | 400 exactly when a friendship exists in either direction; otherwise a pending one is stored |
| Routes.ChatServer.OnMessage | server/routes.ts:533-581 | `authenticate` binds the user to this socket, marks them online and acknowledges; a message or typing frame reaches the sender's chat partner only through an open registered socket; other frames change nothing |
| Routes.ChatServer.OnClose | server/routes.ts:587-598 | the closing socket is no longer open, so no later relay reaches it; the first entry bound to it is deleted and that user marked offline; nothing else changes |
| ChatContext.MessageTypeOf | client/src/contexts/chat-context.tsx:72 | a received message's type is never empty, and is "text" exactly when the frame gave none, an empty one or "text" |
| ChatContext.MessageOf | client/src/contexts/chat-context.tsx:67-74 | the stored message keeps the content, sender and image of the frame |
| ChatContext.Cleared | client/src/contexts/chat-context.tsx:84-90 | no chat, no partner, no history, no typing indicator; searching untouched |
| ChatContext.Receive | client/src/contexts/chat-context.tsx:58-91 | only a relayed message extends the history (by one, keeping the rest); other frames keep it or empty it; no frame shows a partner without a chat |
| ChatContext.RelayedMessages | client/src/contexts/chat-context.tsx:66-75 | no more messages than frames; as many exactly when every frame is a relayed message, and none exactly when no frame is (which message each frame contributes: `RelayedMessagesOne`, `RelayedMessagesAppend`) |
| ChatContext.RelayedMessagesOne | client/src/contexts/chat-context.tsx:66-75 | a single frame contributes its `Contribution`: the message built from its payload and sender when it is a relayed message, nothing otherwise |
| ChatContext.RelayedMessagesAppend | client/src/contexts/chat-context.tsx:66-75 | the messages of two runs of frames, one after the other, are the first run's messages followed by the second's, so the list holds one message per relayed frame, in frame order |
| ChatContext.MatchFoundStartsFreshChat | client/src/contexts/chat-context.tsx:59-64 | `match_found` shows the new chat and partner, stops searching and empties the history |
| ChatContext.TypingFrameSetsOnlyTheIndicator | client/src/contexts/chat-context.tsx:77-82 | `typing` sets the partner-typing flag to the frame's value and changes nothing else |
| ChatContext.AuthenticatedChangesNothing | client/src/contexts/chat-context.tsx:58-91 | the `authenticated` acknowledgement, which has no case in the switch, leaves the page unchanged |
| ChatContext.SkipAndEndLookAlike | client/src/contexts/chat-context.tsx:84-90 | `partner_skipped` and `chat_ended` leave the page in the same cleared state |
| ChatContext.DuplicateFrameIsHarmless | client/src/contexts/chat-context.tsx:58-91 | every frame but a relayed message is idempotent |
| ChatContext.RelayedMessagesAccumulate | client/src/contexts/chat-context.tsx:66-75 | a run of relayed messages appends exactly their messages, in order, and changes nothing else |
| ChatContext.HistoryAccumulates | client/src/contexts/chat-context.tsx:58-91 | a run of in-chat frames (relayed messages, typing indicators, `authenticated`) appends exactly the messages relayed, in order, and keeps the chat, partner and search flag |
| ChatContext.NewChatHistoryIsWhatWasRelayed | client/src/contexts/chat-context.tsx:58-91 | after `match_found`, followed by messages, typing indicators and acknowledgements in any mix, the history is exactly the messages relayed since and the page shows the new chat and partner |
| ChatContext.LocalEchoMatchesRelayedCopy | client/src/contexts/chat-context.tsx:170-189 | the sender's local copy of a message equals the copy the partner stores from the relayed frame |
| ChatContext.ChatSession.constructor | client/src/contexts/chat-context.tsx:33-45 | empty chat state, and a socket exactly when a user is logged in |
| ChatContext.ChatSession.OnOpen | client/src/contexts/chat-context.tsx:47-53 | the open socket sends `authenticate` with the user's id |
| ChatContext.ChatSession.OnMessage | client/src/contexts/chat-context.tsx:55-92 | on the socket a logged-in user's provider opened, the shown state becomes `Receive` of the old state and the frame |
| ChatContext.ChatSession.TypingTimerFired | client/src/contexts/chat-context.tsx:80 | the typing indicator goes off; nothing else changes |
| ChatContext.ChatSession.StartSearch | client/src/contexts/chat-context.tsx:102-122 | with a user, posts find-match and shows searching unless the request failed to reach the server; without one, nothing |
| ChatContext.ChatSession.StopSearch | client/src/contexts/chat-context.tsx:124-130 | searching stops; nothing else changes |
| ChatContext.ChatSession.SkipPartner | client/src/contexts/chat-context.tsx:132-149 | with a user, partner and chat, posts a skip of that partner and clears the chat once the server answered |
| ChatContext.ChatSession.EndChat | client/src/contexts/chat-context.tsx:151-168 | with a user and chat, posts end and clears the chat once the server answered |
| ChatContext.ChatSession.SendMessage | client/src/contexts/chat-context.tsx:170-189 | with a user, socket and chat, appends the message (type "text" by default) to the history and sends it as `random_message` |
| ChatContext.ChatSession.SetTyping | client/src/contexts/chat-context.tsx:191-199 | with a user, socket and chat, sends `typing`; the shown state is unchanged |
| ChatContext.ChatSession.SendFriendRequest | client/src/contexts/chat-context.tsx:201-218 | with a user and partner, posts a friend request to the partner; the shown state is unchanged |

The code does not do the following, which a reader might expect, and the model follows the code:

- The find-match handler does not validate the gender preference. Any string other than "both" filters by equality.
- Pairing is not an atomic check-and-insert: the handler reads, then inserts.
- `random_message` and `typing` trust the `senderId` and `userId` in the frame, whoever sent it.
- The skip handler notifies the `partnerId` from the request body, not the chat's actual other member. It can notify a user who is not in the ended chat. `Routes.ChatServer.Skip` states exactly this.
- Two routes are registered for `POST /api/friends/request`: server/routes.ts:149-167 and 388-407. The first registration answers, so only that one is modelled.

## Left out

- Timestamps are not modelled: `lastSeen`, `endedAt`, message timestamps and the client's `Date.now()` message ids.
- Schema.User keeps only the id, gender and online flag; the other user columns are omitted, as are the other chat and friendship columns (creation times, `endedAt`). Note that the find-match handler passes on whole user rows:
  - the requester's `match_found` frame and the HTTP response carry the matched user's full row (server/routes.ts:263-267, 279);
  - the partner's frame carries the requester's full `getUser` row (server/routes.ts:271-276).

  Those rows include the `password` column, which login compares in plain text (server/routes.ts:102). Registration and login strip it before answering (server/routes.ts:86, 107), but find-match does not. The requester always receives the partner's password in the HTTP response. The partner receives the requester's password only when the partner has a registered socket (server/routes.ts:269-276). The model's `MatchFound` frame carries only the three modelled columns and does not capture this disclosure.
- The HTTP framework is not modelled: JSON parsing, Zod validation and the 500 answers to exceptions. Handlers are modelled on well-formed input, and the responses of skip, end and logout (`{ success: true }`) are implicit.
- Concurrency is not modelled. Each handler runs to completion before the next begins. The `await`s that let two find-match requests interleave, or let a socket frame arrive while the client awaits a `fetch`, are outside the model.
- Socket.IO with its Redis adapter, the `activeConnections` map, the ping interval and the `error` handler are not part of this model. Neither are the routes for registration, login, profiles, profile pictures, image upload, private messages, friend responses and pending requests (`getPendingFriendRequests`).
- `Protocol.Socket`: readyState is reduced to open or closed. Sending on a socket that is still connecting is not modelled.
- Routes.ChatServer.Logout: `if (userId)` is modelled as a non-zero id. Other falsy bodies (a missing id) are outside the integer model.
- ChatContext.ChatSession: the provider is modelled for one fixed user per mount. Re-running the effect on a user change and the cleanup's `ws.close()` are not modelled.
- ChatContext.ChatSession.StopSearch: the `searchTimeout` field is not modelled. It is never assigned a timer, so its `clearTimeout` branch cannot run.
- ChatContext.ChatSession.TypingTimerFired: the three-second delay itself is not modelled. The timer's effect is a method the environment may call at any time.
- Storage.DatabaseStorage.CreateRandomChat, Storage.DatabaseStorage.CreateFriendRequest: serial ids are modelled as dense, so the n-th row inserted has id n. A database serial column can skip values after failed inserts. The invariants proved rely only on ids being distinct, which a serial column also guarantees.
- Storage: the database returns matching rows in no stated order. The model uses insertion order and states each query's properties so that they do not depend on which matching row comes first.

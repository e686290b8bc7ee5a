# Keyword directory and call switchboard of a WebRTC signalling server

This project models the socket.io connection handlers of a small video-call
server (`server.js`). The server keeps one shared object, `userKeywords`,
mapping socket ids to a self-declared keyword, and one ad-hoc field,
`chatRoom`, on each socket. Each handler is a short, atomic step:

- `setKeyword` writes the socket's keyword. The last write wins.
- `searchUsers` answers with every other socket whose keyword is strictly
  equal.
- `startVideoCall` picks the first such socket. It tells the caller about
  that socket and sends the pick an incoming-call notice.
- `acceptVideoCall` sets the accepting socket's room to `"<self>-<caller>"`
  and tells the caller. It does no validation.
- `offer`, `answer` and `candidate` forward a payload to its `to` field,
  tagged with the sender.
- `chatMessage` forwards a message to the sender's room, if it has one.
- `disconnect` deletes the socket's keyword.

The model has three modules:

- `Directory` (directory.dfy) is the table, defined as pure functions. A
  JavaScript object enumerates string keys that are not array indices in
  creation order (section 10.1.11.1 of ECMA-262). The table is therefore a
  sequence of `(id, keyword)` entries with distinct ids.
  - Overwriting a key keeps its position.
  - Deleting a key and adding it again moves it to the end.
  - `Put` models the assignment `userKeywords[socket.id] = keyword`
    (server.js:22). `Remove` models `delete userKeywords[socket.id]`
    (server.js:81). `Lookup` models the reads `userKeywords[userId]`
    (server.js:30, 62).
  - The `filter` of `searchUsers` and the `find` of `startVideoCall` are the
    functions `Search` and `FindFirst`. They share the predicate `Matches`.
- `Events` (events.dfy) defines the emitted messages and where they are
  addressed. `socket.emit` goes to the socket itself; `io.to(x).emit` goes to
  room `x`. It also defines the room key built by `acceptVideoCall`.
- `Switchboard` (switchboard.dfy) defines the class `Server`. Its fields are
  the table, the `chatRoom` field of each socket (a map from socket id to
  room), and an outbox of every emission in order. Each handler is one
  method. Each method's postcondition gives the new table, rooms and outbox
  in terms of the `Directory` and `Events` functions. Each method's
  `modifies` clause names the only fields it may change. A few methods run whole
  conversations, some on a fresh server and some on any valid server.

JavaScript truthiness checks are modelled as written:

- `if (matchingUsers)` in `startVideoCall` fails on an empty-string id.
- `if (socket.chatRoom)` in `chatMessage` fails on an empty room.
  `Server.Valid()` records that a room, once set, is never empty.

What the handlers do not do:

- `acceptVideoCall` (server.js:73-76) does not check for an earlier call
  from `callerId`. It sets the room anyway (`StrayAccept`).
- `startVideoCall` (server.js:60-70) keeps no record of the call it
  announces. A second call from the same socket cancels nothing.
- `acceptVideoCall` (server.js:74) sets a room only on the accepting socket.
  No handler sets one on the caller, so a caller with no earlier room has its
  chat messages dropped (`CallerChatDropped`).
- `disconnect` (server.js:79-82) deletes the keyword only. It clears no
  room and notifies no other socket.
- `offer`, `answer` and `candidate` (server.js:35-50) check no room. They
  forward to whatever `to` names.
- `chatMessage` (server.js:53-57) forwards the message as it came, with no
  sender tag.

## Model

| member | source | states |
|---|---|---|
| Directory.Search | server.js:29-30 | the search result never contains the searcher, and lists ids in table key order (a subsequence of the keys) |
| Directory.SearchMembers | server.js:27-31 | an id is in the search result exactly when its stored keyword is strictly equal to the searched one and it is not the searcher |
| Directory.SearchUnique | server.js:29-30 | any key-ordered subsequence of the keys holding exactly the matching ids is the search result, so the result is fully determined, order included |
| Directory.FindFirst | server.js:61-62 | `find` yields nothing exactly when no entry matches; what it yields is a stored id with that keyword, other than the caller |
| Directory.FindFirstIsHeadOfSearch | server.js:61-62 | the id `startVideoCall` picks is the head of the list `searchUsers` would return the searcher, and there is a pick exactly when that list is non-empty |
| Directory.PutExisting | server.js:21-24 | writing the keyword of a present id replaces that entry where it stands; every other entry stays as it was |
| Directory.PutNew | server.js:21-24 | writing the keyword of an absent id appends one entry at the end |
| Directory.PutIds | server.js:21-24 | after a write the key order is unchanged if the id was present, and the id is appended if it was not |
| Directory.PutLookup | server.js:21-24 | after a write the id reads the new keyword, and every other id reads as before |
| Directory.PutUnique | server.js:21-24 | a write keeps each key in the table once |
| Directory.PutTwice | server.js:21-24 | two writes to one id equal the second write alone (last write wins) |
| Directory.RemoveExisting | server.js:79-82 | deleting a present id removes exactly its entry and closes the gap; the other entries keep their order |
| Directory.RemoveAbsent | server.js:79-82 | deleting an absent id changes nothing |
| Directory.RemoveIds | server.js:79-82 | after deletion the id is not a key, and the remaining keys are the old keys in their old order |
| Directory.RemoveLookup | server.js:79-82 | after deletion the id reads undefined, and every other id reads as before |
| Directory.RemoveUnique | server.js:79-82 | deletion keeps each key in the table once |
| Directory.RemoveIdempotent | server.js:79-82 | repeating the deletion is a no-op |
| Directory.RemoveThenPut | server.js:21-22 | a key deleted and written again is appended at the end of the key order |
| Directory.RemovedNeverFound | server.js:79-82 | after a socket's entry is deleted, no search result contains it and no call request picks it |
| Directory.PutThenSearch | server.js:21-31 | after `x` sets keyword `k`, any other socket's search for `k` contains `x` |
| Events.RoomKey | server.js:74 | the room key always contains the separator, so it is never the empty (falsy) string |
| Events.RoomKeyInjective | server.js:74 | for ids without a dash, equal room keys come from equal (accepting, calling) pairs |
| Events.RoomKeyOrdered | server.js:74 | for distinct ids without a dash, the key is ordered: swapping the two ids gives a different room |
| Events.RoomKeyCollision | server.js:74 | ids that contain a dash can make two different pairs share one room key |
| Switchboard.Server.constructor | server.js:15 | the server starts with an empty table, no rooms and nothing emitted |
| Switchboard.Server.SetKeyword | server.js:21-24 | the table becomes the old table with the write applied; the socket then reads the keyword; key order is unchanged or the socket is appended; rooms and outbox are untouched |
| Switchboard.Server.SearchUsers | server.js:27-32 | exactly one `searchResult` carrying the search result is sent to the searcher; table and rooms are untouched |
| Switchboard.Server.Relay | server.js:35-50 | an offer, answer or candidate emits exactly one message, to the payload's `to`, carrying the payload tagged with the sender; no state other than the outbox changes |
| Switchboard.Server.ChatMessage | server.js:53-57 | with no room set nothing is emitted; otherwise exactly the unchanged message is emitted to exactly the sender's room |
| Switchboard.Server.StartVideoCall | server.js:60-70 | with a (non-empty) head of the search result, the caller gets `searchResult [head]` and the head gets an incoming call from the caller; otherwise the caller alone gets `searchResult []`; the table is untouched |
| Switchboard.Server.AcceptVideoCall | server.js:73-76 | unconditionally, the accepting socket's room becomes `"<self>-<caller>"` and `callAccepted(self)` is emitted to the caller; the table is untouched |
| Switchboard.Server.Disconnect | server.js:79-82 | the table becomes the old table without the socket's entry, the socket reads undefined, and the other keys keep their order; rooms and outbox are untouched |
| Switchboard.SearchFindsPeer | server.js:21-32 | round trip on a fresh server where `x` and `y` are the only sockets: when both declare the same keyword, a search by `y` returns `x` alone |
| Switchboard.CallAcceptChat | server.js:53-76 | on a fresh server where `x` is the only socket with the keyword: call by keyword, accept, then chat gives these exact emissions in order; the accepting socket's room is `"<callee>-<caller>"` and its chat goes there |
| Switchboard.CallerChatDropped | server.js:53-76 | on any server, accepting a call from `y` gives `y` no room: if `y` had none, it still has none, so its chat message is dropped and only `callAccepted` is emitted |
| Switchboard.StrayAccept | server.js:73-76 | on a fresh server, accepting a call nobody made still sets the room `"<self>-<caller>"` and notifies the named caller |
| Switchboard.DisconnectedPeerNotCalled | server.js:60-82 | on any server, after `x` disconnects, a call request by any socket for any keyword sends a reply, sends nothing to `x`'s room and never reports `searchResult [x]`; the table is the old one without `x` |

## Left out

- Express static file serving and `server.listen` (server.js:2-12, 85-87) are process bootstrapping and I/O.
- The `connection` event itself only logs. All `console.log` calls are left out.
- What socket.io delivers is left out: who is in a room, and whether a target is connected. The outbox records the intended emission only. No server handler joins a room, and the client's `joinRoom` has no handler, so `io.to(chatRoom)` may reach no one.
- Concurrency is left out: Node runs one handler at a time, and each handler is one atomic method.
- Session descriptions, ICE candidates and chat messages are opaque values and are never inspected.
- public/main.js (the browser client) is not part of this model.
- Ids and keywords are strings, and strict equality is string equality. A `setKeyword`, `searchUsers` or `startVideoCall` keyword that is not a string is not modelled, and neither is an `acceptVideoCall` `callerId` that is not a string.
- Signal payloads are modelled as objects with a `to` field and a payload field. A null or undefined payload, which throws at `const { to } = ...` (server.js:36, 42, 48), is not modelled. Neither is a payload without `to` or without the named field. That is the only shape the repository's own browser client sends (public/main.js:53, 67, 121).
- Which sockets are connected is not tracked. In the model, `chatRoom[x]` survives `Disconnect(x)` and handlers can still run for `x` afterwards. In the program the socket object is discarded with its `chatRoom` field, and no events follow `disconnect`.
- The table's key order is creation order. This holds only for keys that are not array indices: ECMA-262 enumerates integer-like keys first, in numeric order. The special `__proto__` key of a plain object is also not modelled. Socket.io ids are never such keys.

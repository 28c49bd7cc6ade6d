# MediaSync signaling server, modelled in Dafny

The server relays WebRTC signaling between browsers over socket.io. It keeps
two registries: `userMap` maps a socket id to the username the client set, and
`rooms` maps a call id to that call's participants, an insertion-ordered map
from socket id to username. Its socket event handlers update these registries.
They also decide who each outbound event reaches: the other members of a room
(`socket.to`), every member of a room (`io.to`) or the sender alone
(`socket.emit`).

The model has five modules:

- `Basics` (basics.dfy): the id types and `Option`.
- `OrderedMaps` (ordered_maps.dfy): a JavaScript `Map` as a sequence of
  entries with unique keys. `set` on a present key overwrites the entry in
  place; `set` on a new key appends it; `delete` keeps the order of the rest.
- `Transport` (transport.dfy): socket.io's room membership, kept abstract as
  `map<RoomId, set<SocketId>>`, plus the recipient rule of each kind of emit.
- `Registry` (registry.dfy): the two registries as values. It states what
  `join-call` and `disconnect` do to them: the stored name, the
  first-match scan, and deleting a call once it is empty.
- `Signaling` (server.dfy): the class `Server`. Its fields are `userMap`,
  `rooms`, the transport membership `transport` and `outbox`, the list of
  emissions so far. Each emission is an event plus the set of sockets it
  reaches, taken at the moment of the emit. Each handler is a method with
  `modifies this`. Its `ensures` gives the whole new state in terms of the
  old. `Valid()` says every stored call is non-empty and lists each
  participant once. Every handler keeps `Valid()`.

`Scenarios` (scenarios.dfy) is client code. Its methods call the handlers in
a few short sequences, and Dafny proves what the handlers' contracts imply for
them. Examples:
an offer between two call members, a disconnect seen by the other member, two
viewers of one stream, and a personal message.

Transport assumptions, stated rather than modelled. On connect, the transport
puts each socket into a room named by its own id (`Server.Connect`). That is
why a socket id works as the `to` of a relay or a personal chat:
`Transport.Addressable` says the room holds that socket alone. Before the
`disconnect` handler runs, the transport takes the closing socket out of every
room (`Transport.LeaveAll`). So `participant-left` reaches only the remaining
members.

Event names are spelled the way server.js spells them: `new-socket`,
`participants`, `recive-offer`, `recive-answer`, `recive-icecandidate`,
`start-screen-share`, `stop-screen-share`, `viewers-count`,
`brodcast-message`, `receive-personal-message`, `participant-left`
(`Signaling.EventName`).

Behaviour of server.js worth knowing, kept as written:

- `personal-chat` sends `userMap.get(socket.id)` as it is. For a socket that
  never set a username this is `undefined` (`None` here), not the
  `Participant xxxx` placeholder.
- The model takes the viewer count to be the size of the stream's transport
  room right after the sender has joined, read in the same step as the join.
  server.js reads the room only after an `await`; see the `join-stream` line
  under "Left out".
- A relay addressed to the sender's own id reaches nobody.
  `socket.to` leaves the sender out.
- Disconnect cleans up only the first call, in iteration order, that lists
  the socket. A socket that joined two calls stays listed in the later one.
  `Signaling.DisconnectLeavesLaterCall` shows that this breaks
  `Signaling.InSync` (every listed participant is in its call's transport
  room). `Signaling.DisconnectKeepsInSync` proves `InSync` is kept for a
  socket listed in one call at most. The behaviour itself is kept as written.

## Model

| member | source | states |
|---|---|---|
| `OrderedMaps.HasKey` | server.js:33 | `rooms.has(call_id)` (and `participants.has(socket.id)` at server.js:99): some entry carries the key; `IndexOf` and `Get` find the key exactly when it holds |
| `OrderedMaps.IndexOf` | server.js:39 | the position at which `Map.get`, `set` and `delete` find a key: the first entry with it, found exactly when some entry has it |
| `OrderedMaps.Get` | server.js:45 | a lookup hits exactly when the key is present, and the value it returns is stored under that key |
| `OrderedMaps.Put` | server.js:39 | after `set` the key maps to the new value and every other key keeps its value; a present key keeps its position and the size, a new key is appended; unique keys are kept |
| `OrderedMaps.Remove` | server.js:100 | `delete` of an absent key changes nothing; otherwise exactly the entry with that key is dropped, the rest keep their order and values, and the key is gone |
| `OrderedMaps.PutTwice` | server.js:33-39 | setting a key twice leaves the map the second set alone would leave |
| `OrderedMaps.RemoveAfterPut` | server.js:100-103 | shrinking a call in place and then deleting it is the same as deleting it |
| `Transport.Members` | server.js:79-80 | the definition of the `io.to(r)` recipient set (also at server.js:85, 91 and 101): the sockets the transport holds in room `r`. What it is after a join is stated by `Join` and `JoinSize`, after a leave by `LeaveAll`, and for `participant-left` by `ParticipantLeftRecipients` |
| `Transport.ToOthers` | server.js:42 | `socket.to(r)` (also at server.js:50, 54, 58, 63, 67 and 77) reaches only members of `r` and never the sender; it reaches every member when the sender is not one, and one socket fewer than `io.to(r)` when it is |
| `Transport.Join` | server.js:30 | `socket.join(r)` adds the socket to room r and changes no other room |
| `Transport.LeaveAll` | server.js:95 | when a socket closes, the transport takes it out of every room and changes nothing else |
| `Transport.ToOthersOfAddressable` | server.js:49-59 | a relay addressed by a connected socket's id reaches that socket alone, or nobody if it is the sender's own id |
| `Transport.JoinThenToOthers` | server.js:42 | after the joiner has joined, `socket.to(call_id)` reaches exactly the members that were there before, minus the joiner |
| `Transport.JoinSize` | server.js:76-80 | after `join-stream` the room holds the joiner, and its size grows by one unless the joiner was already in it |
| `Registry.Placeholder` | server.js:38 | the placeholder is `Participant ` followed by the first four characters of the socket id, or all of it when it is shorter |
| `Registry.RoomOf` | server.js:39-45 | `rooms.get(call_id)`: the participants stored for the call, and none for a call that is not stored |
| `Registry.DisplayName` | server.js:38 | the stored name is never empty: it is the username when one is set and not empty, and `Participant ` plus the first four characters of the socket id otherwise |
| `Registry.JoinCallRooms` | server.js:33-39 | after `join-call` the call exists and maps the joiner to its name; every other call is unchanged; every call stays non-empty with unique participants; every existing call keeps its position |
| `Registry.JoinNewCall` | server.js:33-39 | joining a call that does not exist yet appends it, holding the joiner alone, after every existing call |
| `Registry.CreateThenJoin` | server.js:33-39 | for a new call, creating it with no participants and then adding the joiner gives exactly `JoinCallRooms` |
| `Registry.JoinSnapshot` | server.js:39-46 | the joiner's snapshot lists the joiner; a first join appends it, a repeat join overwrites the name without adding an entry or moving any; other participants keep their names |
| `Registry.FirstRoomWith` | server.js:98-99 | the scan finds the first call, in iteration order, that lists the socket, and finds none exactly when no call lists it |
| `Registry.DisconnectRooms` | server.js:98-105 | disconnect leaves `rooms` unchanged when no call lists the socket, never adds a call and never grows `rooms`; what it does to each call is stated by `DisconnectTouchesFirstOnly`, `DisconnectKeepsOrder`, `DisconnectDeletesWhenEmptied` and `DisconnectPreservesValid` |
| `Registry.DisconnectUnknown` | server.js:96-107 | disconnecting a socket that no call lists leaves `rooms` unchanged |
| `Registry.DisconnectTouchesFirstOnly` | server.js:98-105 | disconnect removes the socket from the first call that lists it, and deletes that call when it becomes empty; every other call, including later calls that list the socket, is unchanged |
| `Registry.DisconnectKeepsOrder` | server.js:98-105 | the calls that remain keep their order: an emptied call is cut out of the sequence, a shrunk call keeps its position and every other call keeps its own |
| `Registry.DisconnectDeletesWhenEmptied` | server.js:102-104 | a call disappears on disconnect exactly when it was the first to list the socket and removing the socket empties it |
| `Registry.DisconnectPreservesValid` | server.js:98-107 | disconnect keeps every stored call non-empty, with each call and each participant listed once |
| `Signaling.EventName` | server.js:42-101 | every event goes out under a non-empty name spelled as server.js spells it; `EventNamesDistinct` states that no two kinds share a name |
| `Signaling.EventNamesDistinct` | server.js:42-101 | two events go out under the same name exactly when they are the same kind of event |
| `Signaling.DisconnectEmissions` | server.js:98-107 | disconnect emits at most one event, always `participant-left` for the leaver, and none exactly when no call lists the socket |
| `Signaling.ParticipantLeftRecipients` | server.js:101 | `participant-left` goes to the transport members of the call the scan found, the first that lists the socket, without the leaver |
| `Signaling.JoinCallKeepsInSync` | server.js:29-39 | after `join-call` every participant listed in a call is still a member of that call's transport room |
| `Signaling.DisconnectEntries` | server.js:98-105 | for a socket listed in one call at most, each call left after disconnect is the shrunk first call or an untouched call that does not list the socket |
| `Signaling.DisconnectKeepsInSync` | server.js:95-107 | for a socket listed in one call at most, disconnect keeps every listed participant in its call's transport room |
| `Signaling.DisconnectLeavesLaterCall` | server.js:98-105 | a socket listed in two calls is still listed in the second call after disconnect, although it is in no transport room |
| `Signaling.Server.constructor` | server.js:20-21 | the server starts with no usernames, no calls, no rooms and no emissions |
| `Signaling.Server.Connect` | server.js:23 | a new connection joins the transport room named by its own id, and nothing else changes |
| `Signaling.Server.SetUsername` | server.js:24-27 | `set-username` stores the username under the sender (last write wins) and changes nothing else |
| `Signaling.Server.JoinCall` | server.js:29-47 | `join-call`: the sender joins the call's room; `rooms` becomes `JoinCallRooms` with the sender's stored name; `new-socket(sid, name)` goes to the other room members, then `participants` with the call's entries after the insertion goes to the sender alone |
| `Signaling.Server.Offer` | server.js:49-51 | `offer` emits one `recive-offer` from the sender with the payload unchanged, addressed through `socket.to(data.to)`, and changes no registry |
| `Signaling.Server.Answer` | server.js:53-55 | `answer` emits one `recive-answer` from the sender with the payload unchanged, addressed through `socket.to(data.to)`, and changes no registry |
| `Signaling.Server.IceCandidate` | server.js:57-59 | `icecandidate` emits one `recive-icecandidate` from the sender with the payload unchanged, addressed through `socket.to(data.to)`, and changes no registry |
| `Signaling.Server.StartScreenShare` | server.js:62-64 | `start-screen-share` tells the other members of the call who is sharing, and stores nothing |
| `Signaling.Server.StopScreenShare` | server.js:66-68 | `stop-screen-share` tells the other members of the call who stopped, and stores nothing |
| `Signaling.Server.CreateStream` | server.js:71-73 | `create-stream` adds the sender to the stream's room and emits nothing |
| `Signaling.Server.JoinStream` | server.js:75-81 | `join-stream`: the sender joins the room; `new-socket(sid)` goes to the other members; then `viewers-count` with the room's size goes to every member, the sender included |
| `Signaling.Server.ChatMessage` | server.js:84-86 | `chat-message` emits `brodcast-message` with the sender to every member of `data.to`, the sender included if it is a member |
| `Signaling.Server.PersonalChat` | server.js:89-92 | `personal-chat` emits `receive-personal-message` to every member of `data.to`, with the sender and its username as stored, absent when none is set |
| `Signaling.Server.Disconnect` | server.js:95-108 | `disconnect`: the transport drops the socket from every room; its username is deleted; `rooms` becomes `DisconnectRooms`; the emissions are `DisconnectEmissions` taken after the transport dropped the socket |

## Left out

- The Express app, its routes and their templates (server.js:7-10, 112-136): HTTP surface, not the registry.
- Call and stream id generation with `uuid4` (server.js:117, 128): ids are opaque inputs.
- Building the socket.io server, its CORS settings and `server.listen` (server.js:12-17, 138): I/O plumbing.
- `console.log` in `set-username` (server.js:25): output only.
- socket.io delivery: an emission records the sockets it reaches. Sending, framing and the order in which different sockets receive events are not modelled.
- The `await` in `join-stream` (server.js:79): `join-stream` is treated as one atomic step. Other handlers that could interleave at the suspension are not modelled, and neither is any other concurrency.
- Payload contents (offers, answers, candidates, chat messages): opaque strings, forwarded unchanged.
- `Registry.DisplayName`: clients can send any JSON value as a username. The model takes a string, so `||` falls back to the placeholder only for an absent or empty username. Other falsy values (`null`, `0`, `false`) are not modelled.
- Aliasing of the per-call `Map`: `rooms.get(call_id)` returns the object that is updated in place. The model uses values. No aliasing is observable, because the snapshot is copied with `Array.from` before it is sent.
- Dispatch by event-name strings (`socket.on`): each handler is a method of its own.
- Malformed inbound data, such as a missing `data` or a missing `data.to`: every input is taken as well formed.

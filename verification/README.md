# Meet signaling server and SDP rewrite, in Dafny

This project models two parts of the *meet* video-call application.

**The signaling server (`server/index.ts`).** Each connected client is a
socket.io connection. The server keeps one shared key/value cache,
`roomsCache`:

- under a connection id it holds that connection's session (`{sessionId}`);
- under a room id it holds the room a client created.

Connection ids and room ids share this one namespace.

Each connection also belongs to a set of socket.io rooms, `socket.rooms`,
called *groups* here to keep them apart from the rooms users create.

The event handlers `register`, `create_room`, `join_room`, `leave_room`,
`person_left`, `message` and `disconnecting` change the cache and the
memberships, and emit events to groups. `getRoomFromLink` resolves a pasted
room link, or a bare room id, to a cache entry.

**`transformSdp` (`src/utils/helpers.ts`).** It rewrites the bandwidth lines
of a session description (RFC 4566). It removes the first `b=TIAS:` line,
the transport independent application specific maximum of section 6.2 of
RFC 3890. It then inserts `b=TIAS:<bandwidth*1000>` after every `m=video`
line.

## Layout

| file | module | contents |
|---|---|---|
| `wrappers.dfy` | `Wrappers` | `Option` |
| `rooms.dfy` | `Rooms` | the cache values: rooms, person entries, `SessionOf` |
| `links.dfy` | `Links` | `PATH_REGEX`, `ID_REGEX` and `getRoomFromLink` |
| `signaling.dfy` | `Signaling` | the `Server` class and the handlers' specifications |
| `sdp.dfy` | `Sdp` | `transformSdp` and its regular expressions |

### The server

`Signaling.Server` has three fields:

- `cache`: the map behind `roomsCache`;
- `groups`: for each open connection, its `socket.rooms` as a duplicate-free
  sequence, so the iteration order of `forEach` is kept;
- `log`: every emitted event, in order. `io.to(g)` is recorded with no
  excluded sender; `socket.to(g)` excludes the calling connection.

A few definitions carry no claim of their own:

- `Rooms.SessionOf` is `(roomsCache.get(id) || {}).sessionId`: the session
  stored under a connection id, or `None` when the key is missing or holds a
  room;
- `Links.MatchId` is `ID_REGEX`: the whole input, when it is a non-empty
  string of `[A-Za-z0-9_-]`;
- `Signaling.EntryGroup` is the `room.id` that `join_room` joins, which is
  `undefined` for a person entry;
- `Signaling.EntryLimit` is the parsed `room.opts?.maxPeople`, which a person
  entry does not have.

`Valid()` holds two invariants, and every handler preserves it:

- each connection is in the group of its own id, with no duplicate groups;
- every room is stored under its own id.

The handlers are methods with `modifies` clauses. Each loop over
`socket.rooms` is a `while` loop, proved against a specification function:

- `leave_room`: the loop follows `LeaveAfter`, one `LeaveVisit` per group.
  `LeaveTrace` proves that this step-by-step state equals the closed form
  `LeaveClosed`; `LeaveAll` is the closed form after every group.
- `person_left`: `Broadcast` over the `Vacated` groups.
- `disconnecting`: `DisconnectNotices`.

### Interpretation choices

- **The `undefined` group.** A link can name a connection id. It then
  resolves to that connection's person entry, which has no `id`, so the
  caller joins and counts the socket.io room `undefined` (`Group.Undefined`).
  `roomsCache.del(undefined)` throws, so that group's key is never deleted.
  `OwnIdJoinsUndefined` shows that a client can reach this by passing its own
  connection id as the link.
- **Group counts.** `allSockets()` is counted when it is called, and
  `leave_room`'s deferred `del` is applied in the same step. With
  socket.io's in-memory adapter the count is taken synchronously.
- **The `disconnecting` guard.** The code tests
  `room !== socket.id || room !== sessionId` (server/index.ts:157). That is
  true unless the session id equals the connection id, and the model keeps
  it as written. `GuardedEveryGroup` proves that every group, the caller's
  own id and session groups included, is then told of the disconnect.
  Unlike the parallel test in `leave_room` (server/index.ts:104), this guard
  does not skip the connection's own id and session groups.
- **Disconnects do not delete rooms.** `disconnecting` deletes only the
  connection's own cache key. Only `leave_room` deletes room entries. A room
  whose last member disconnects stays until it expires.
- **`message` payloads.** The payload is `{from: sessionId, ...msg}`, so a
  `from` field sent by the client overrides the session id (`Relayed`).

## Model

| member | source | states |
|---|---|---|
| Rooms.SessionFrame | server/index.ts:102-117 | writing or deleting keys other than the connection id leaves its session id as it was, so re-reading it on every `forEach` round sees the first value |
| Links.MatchPath | server/index.ts:167 | `PATH_REGEX` matches exactly the paths `/room/<id>` with a well-formed id, and yields that id |
| Links.ResolveId | server/index.ts:168-177 | the id looked up comes from the URL path when `new URL` accepts the link, and is the whole link exactly when that link is a well-formed id otherwise; it is always a well-formed id |
| Links.GetRoomFromLink | server/index.ts:170-180 | an entry is returned exactly when the resolved id is a cache key, and it is the entry under that key |
| Links.FoundOnlyUnderRoomId | server/index.ts:167-180 | a found entry sits under a well-formed id: an absolute URL's path is exactly `/room/<id>`, and otherwise the whole link is the id |
| Links.EmptyLinkNotFound | server/index.ts:170-180 | the empty string finds nothing |
| Links.MissingIdNotFound | server/index.ts:170-180 | a well-formed id that is not a key gives the same `undefined` as bad syntax, as a bare id and inside a link |
| Links.LinkAndIdAgree | server/index.ts:167-179 | a `/room/<id>` link and the bare id find the same entry |
| Links.PathMustBeExact | server/index.ts:167 | `/room/`, `/room/a/b` and `/rooms/ab` find nothing |
| Signaling.Join | server/index.ts:39 | `socket.join` adds the group at the end when it is missing, keeps the list otherwise, and keeps it duplicate-free |
| Signaling.Without | server/index.ts:106 | `socket.leave` removes the group, and changes nothing when it is absent |
| Signaling.WithoutAppend | server/index.ts:106 | leaving a group from two joined lists leaves it from each |
| Signaling.WithoutMiddle | server/index.ts:106 | leaving a group that occurs once removes just that occurrence |
| Signaling.KeptMembers | server/index.ts:101-106 | `leave_room` keeps exactly the caller's groups that are its own id or its session id |
| Signaling.VacatedMembers | server/index.ts:101-106 | `leave_room` and `person_left` visit exactly the other groups |
| Signaling.KeptIdempotent | server/index.ts:99-124 | keeping twice is keeping once, and afterwards nothing is left to leave |
| Signaling.GuardedEveryGroup | server/index.ts:156-157 | unless the session id equals the connection id, the guard lets every group through |
| Signaling.GuardedMembers | server/index.ts:156-157 | `disconnecting` notifies exactly the groups its guard accepts |
| Signaling.BroadcastEmits | server/index.ts:129-137 | the `k`th notice goes to the `k`th group, with the same event and exclusion |
| Signaling.EmptiedMembers | server/index.ts:113-119 | the keys `leave_room` deletes are exactly the names of the left groups with no other member |
| Signaling.LeaveKeepsOwnKeys | server/index.ts:102-117 | `leave_room` never deletes the caller's own key or its session's key |
| Signaling.Relayed | server/index.ts:144-150 | the relayed payload has the message's fields, plus `from`; a client `from` wins, and otherwise `from` is the session id |
| Signaling.Members | server/index.ts:113-114 | `io.in(g).allSockets()`, here and at server/index.ts:75, counts only open connections |
| Signaling.JoinCheck | server/index.ts:65-83 | not-found exactly when the link resolves to nothing; limit-reached exactly when the count is at or over a set limit; admission carries the found entry, a count below the limit and a non-empty session id; every other failure is the generic error |
| Signaling.JoinWithinCapacity | server/index.ts:74-85 | after an admitted join the caller is a member, and a limited group holds at most its limit |
| Signaling.OwnIdJoinsUndefined | server/index.ts:67-75 | passing one's own well-formed connection id as the link finds one's person entry and is admitted to the group `undefined` |
| Signaling.MembersAfterLeave | server/index.ts:113-116 | after the caller leaves a group, its members are the old ones minus the caller; it is empty exactly when nobody else was in it |
| Signaling.Server.constructor | server/index.ts:16-18 | the server starts with an empty cache, no connections and no events |
| Signaling.Server.Connect | server/index.ts:33 | a new connection starts in the group of its own id |
| Signaling.Server.Register | server/index.ts:36-47 | stores the session under the connection id and joins the session group; with a truthy `roomId` it also joins that group and emits `person_reconnected` to it, sender included; nothing else changes |
| Signaling.Server.CreateRoom | server/index.ts:49-63 | stores the room under the fresh id with `id` set to it, joins that group, sends `joined_room` to the caller and acks no error; a payload that is not an object changes nothing and acks an error |
| Signaling.Server.JoinRoom | server/index.ts:65-97 | all or nothing: on each `JoinCheck` failure nothing changes and the ack carries that error; on admission the caller joins the group, the other members get `person_joined`, the caller gets `joined_room` and the ack has no error |
| Signaling.Server.Enter | server/index.ts:85-92 | the effects of an admitted join, and no others |
| Signaling.Server.LeaveRoom | server/index.ts:99-124 | the new state is `LeaveAll` of the old one, and `Valid()` is kept |
| Signaling.Server.LeaveEach | server/index.ts:101-120 | the loop leaves the state `LeaveAfter` reaches over all the caller's groups |
| Signaling.Server.LeaveGroup | server/index.ts:101-120 | one `forEach` round is `LeaveVisit`: skip own groups; otherwise leave, notify with a known session, and delete the key once the group is empty |
| Signaling.LeaveTrace | server/index.ts:101-120 | visiting the groups one at a time reaches the closed form `LeaveClosed` |
| Signaling.LeaveRound | server/index.ts:101-120 | one visit takes the closed form after `i` groups to the one after `i + 1` |
| Signaling.LeaveAll | server/index.ts:99-124 | through `LeaveAllEffect`, `LeaveDone`, `LeaveDeletesEmpty` and `LeaveTwice`: the closed form of `leave_room` |
| Signaling.LeaveAllEffect | server/index.ts:99-124 | only the caller's groups change, and they shrink to its own id and session groups; keys are only deleted, never the caller's own or its session's; the log grows by one notice per left group when the session is known |
| Signaling.LeaveEmptiesUndefined | server/index.ts:113-117 | a caller with a session that is the last member of `undefined` leaves it empty, the branch that calls `roomsCache.del(undefined)` |
| Signaling.LeaveDone | server/index.ts:99-124 | after every group the closed form is `LeaveAll`, and it keeps both invariants |
| Signaling.LeaveDeletesEmpty | server/index.ts:113-119 | after `leave_room`, a left room's key is gone exactly when the room has no members |
| Signaling.LeaveTwice | server/index.ts:99-124 | leaving a second time changes nothing and emits nothing |
| Signaling.LeaveNotices | server/index.ts:108-112 | one `person_left` per left group when the session is known, none otherwise |
| Signaling.LeaveNoticesEmits | server/index.ts:108-112 | with a known session, the `k`th notice is `person_left` with that session, to the `k`th left group, caller excluded |
| Signaling.Server.PersonLeftHandler | server/index.ts:126-141 | tells group `sessionId` to leave, then sends `person_left` to every other group of the caller in order; the cache and memberships are unchanged |
| Signaling.Server.ForwardLeft | server/index.ts:129-137 | the loop emits the `Broadcast` over the `Vacated` groups |
| Signaling.Server.MessageHandler | server/index.ts:143-151 | without a session nothing happens; otherwise exactly one message goes to `to`, sender excluded, with the relayed payload |
| Signaling.Server.Disconnecting | server/index.ts:153-165 | deletes only the connection's key, emits `DisconnectNotices` for its groups, then drops the connection; room entries stay |
| Signaling.Server.NotifyDisconnected | server/index.ts:156-164 | the loop emits `DisconnectNotices` for the groups it walks |
| Signaling.DisconnectNotices | server/index.ts:156-164 | at most one notice per group, none without a session |
| Signaling.DisconnectReachesEveryGroup | server/index.ts:154-164 | with a known session id that is not the connection id, `person_disconnected` goes to every group of the connection, its own id and session groups included, in order |
| Sdp.LineEnd | src/utils/helpers.ts:40 | the end found closes a run of non-terminators with CR LF |
| Sdp.LineEndComplete | src/utils/helpers.ts:40 | whenever such a line end exists, it is found |
| Sdp.MatchAt | src/utils/helpers.ts:40-41 | a reported match is a match of `p.*\r\n` |
| Sdp.MatchAtComplete | src/utils/helpers.ts:40-41 | every match is reported |
| Sdp.FirstMatchFrom | src/utils/helpers.ts:40-41 | the position found holds a match |
| Sdp.FirstMatchLeftmost | src/utils/helpers.ts:40-41 | no match lies before the one found |
| Sdp.RemoveFirst | src/utils/helpers.ts:40 | the non-global replace changes nothing exactly when there is no match; otherwise it splices out exactly the leftmost match, and later matches survive |
| Sdp.ReplaceFromLength | src/utils/helpers.ts:41 | the global replace adds one insertion per match and keeps every other character; there are no insertions exactly when there is no match |
| Sdp.StripReplaceRoundTrip | src/utils/helpers.ts:41 | dropping the inserted text after each match gives back the input, character for character |
| Sdp.InsertAfterEach | src/utils/helpers.ts:41 | the global replace is undone by dropping the inserted text after each match; the length grows by one insertion per match; with a non-empty insertion the string is unchanged exactly when nothing matches |
| Sdp.Trunc | src/utils/helpers.ts:38 | the conversion to an integer rounds toward zero |
| Sdp.ToUint32 | src/utils/helpers.ts:38 | `>>> 0` lands in `[0, 2^32)`, is congruent to the truncated input, and is the floor on `[0, 2^32)` |
| Sdp.TiasValue | src/utils/helpers.ts:38 | the value written is a multiple of 1000 below `1000 * 2^32`; for a bandwidth in `[0, 2^32)` it is `1000` times its integer part |
| Sdp.FractionDropped | src/utils/helpers.ts:38 | a fractional bandwidth loses its fraction before the multiplication, and a negative one wraps around |
| Sdp.Decimal | src/utils/helpers.ts:41 | the number is written as its shortest decimal form |
| Sdp.TransformSdp | src/utils/helpers.ts:36-44 | removing the inserted lines gives back the input minus its first TIAS line; the length grows by one line per video match in it |
| Sdp.TiasLineValue | src/utils/helpers.ts:38-41 | for a bandwidth in `[0, 2^32)` the inserted line is `b=TIAS:`, the decimal digits of `1000` times its integer part, and CR LF |
| Sdp.TransformSdpIdentity | src/utils/helpers.ts:40-41 | an input with no TIAS line and no video line comes back unchanged |

## Left out

- NodeCache's 12-hour expiry (`stdTTL`, server/index.ts:16-18) is not modelled. It depends on time; the cache changes only through `set` and `del`.
- `nanoid()` is a parameter, `freshId`. `CreateRoom` requires that it is not already a key.
- `new URL(link)` is a library parser and is a parameter. `pathname` is `Some(url.pathname)` when the link parses as an absolute URL, and `None` when the constructor throws.
- `parseInt` is a parameter: `Room.maxPeople` holds its result, and `None` stands for `NaN`.
- Malformed payloads are not modelled beyond two cases. In `create_room`, a payload that is not an object is `room == None`. In `join_room`, `link == None` stands for missing options, and for a link that is not a string and whose string form `new URL` rejects; both end in the generic error, the latter when `link.match` throws. A non-string link whose string form is an absolute URL, such as `["https://h/room/x"]`, behaves as that string and is not separately modelled. Other malformed values, and a `sessionId` that is not a string, are left out.
- Concurrency is left out: the `await` in `join_room` and the deferred `.then` in `leave_room` run as one atomic step, so interleavings with other connections' events are not modelled.
- Signaling.Server.LeaveGroup: `roomsCache.del(undefined)` throws inside the `.then` at server/index.ts:115-117, which has no `.catch`. The result is an unhandled promise rejection, and Node 15 and later end the process on one by default. The model keeps the key and does not model the process ending. Any registered client can cause it: it joins with its own connection id as the link (`OwnIdJoinsUndefined`) and then leaves as the last member of `undefined` (`LeaveEmptiesUndefined`).
- The HTTP server, socket.io transport settings, CORS, the port and `console` logging are left out; the transport appears only as `Connect` and as the membership removal after `disconnecting`.
- Sdp.TiasValue: `NaN` and infinite bandwidths are not modelled; the bandwidth is a finite real, and `>>> 0` is its truncation toward zero modulo 2^32.
- `getVideoBoxSize`, `blankVideo` and `silence` in src/utils/helpers.ts are not part of this model: they are floating-point layout code and browser media APIs.
- src/app/connections/peer.tsx is not part of this model: it drives WebRTC peers and browser state.
- Strings are sequences of Unicode scalar values, while JavaScript strings are sequences of UTF-16 code units. Session descriptions are ASCII, so the regular expressions in `transformSdp` see the same characters either way.

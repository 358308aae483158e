/**
 * The signaling server of server/index.ts: the socket event handlers over the
 * shared `roomsCache` and each connection's socket.io rooms ("groups" here,
 * to keep them apart from the rooms users create).
 *
 * `socket.rooms` is an insertion-ordered set; it is a sequence without
 * duplicates, so that the order of `forEach` and of the emitted events is
 * kept.  Every emit is appended to `log`.  `allSockets()` is counted at the
 * moment it is called, as socket.io's in-memory adapter does, and the cache
 * deletion that waits on it is applied in the same step.
 */
module Signaling {
  import opened Wrappers
  import opened Rooms
  import opened Links

  type ConnId = string

  /**
   * A socket.io room name.  `Undefined` is the room `undefined`, reached when
   * a link resolves to a person entry, whose `id` is undefined, or when a
   * message has no `to`.
   */
  datatype Group = Named(name: string) | Undefined

  /** A JSON value relayed without interpretation. */
  datatype Json = JString(s: string) | JOther(text: string)

  /** The events the server emits, with their payloads. */
  datatype Event =
    | PersonReconnected(sessionId: string)
    | JoinedRoom(entry: Entry)
    | PersonJoined(name: Option<Json>, sessionId: string)
    | PersonLeft(sessionId: string)
    | LeaveRoomEvent
    | Message(payload: map<string, Json>)
    | PersonDisconnected(sessionId: string)

  /**
   * One emit: `io.to(to)` when `except` is `None`, and `socket.to(to)` from
   * the connection `except.value`, which does not receive it, otherwise.
   */
  datatype Emission = Emission(to: Group, except: Option<ConnId>, event: Event)

  const NotFound: string := "Room not found or invalid input!"
  const LimitReached: string := "Specified room participants limit reached, make a new one!"
  const TryAgain: string := "Something went wrong, try again later."

  /** An optional name as a group: `undefined` is a group of its own. */
  function GroupOf(name: Option<string>): (g: Group)
    ensures name.Some? <==> g.Named?
    ensures name.Some? ==> g.name == name.value
  {
    if name.Some? then Named(name.value) else Undefined
  }

  /** No group occurs twice; stated from the back, as the lists grow there. */
  predicate NoDup(gs: seq<Group>) {
    gs == [] || (gs[|gs| - 1] !in gs[..|gs| - 1] && NoDup(gs[..|gs| - 1]))
  }

  /** `socket.join(g)`: a set insertion, kept in insertion order. */
  function Join(gs: seq<Group>, g: Group): (r: seq<Group>)
    ensures g in r && (r == gs || r == gs + [g])
    ensures NoDup(gs) ==> NoDup(r)
  {
    if g in gs then gs else
      assert (gs + [g])[..|gs|] == gs;
      gs + [g]
  }

  /** `socket.leave(g)`: a set deletion. */
  function Without(gs: seq<Group>, g: Group): (r: seq<Group>)
    ensures g !in r && |r| <= |gs|
    ensures g !in gs ==> r == gs
  {
    if gs == [] then []
    else if gs[0] == g then Without(gs[1..], g)
    else [gs[0]] + Without(gs[1..], g)
  }

  /** Leaving a group from a concatenation leaves it from both parts. */
  lemma {:induction false} WithoutAppend(x: seq<Group>, y: seq<Group>, g: Group)
    ensures Without(x + y, g) == Without(x, g) + Without(y, g)
  {
    if x == [] {
      assert x + y == y;
    } else {
      assert (x + y)[0] == x[0] && (x + y)[1..] == x[1..] + y;
      WithoutAppend(x[1..], y, g);
    }
  }

  /** Leaving a group that occurs once, between two stretches without it. */
  lemma WithoutMiddle(a: seq<Group>, g: Group, b: seq<Group>)
    requires g !in a && g !in b
    ensures Without(a + [g] + b, g) == a + b
  {
    assert Without([g], g) == [] by { assert [g][1..] == []; }
    WithoutAppend(a, [g], g);
    assert Without(a + [g], g) == a by { assert a + [] == a; }
    WithoutAppend(a + [g], b, g);
  }

  /**
   * Each connection belongs to the group of its own id (socket.io joins it on
   * connection and only the transport removes it), and its groups form a set.
   */
  predicate Memberships(groups: map<ConnId, seq<Group>>) {
    forall c :: c in groups ==> Named(c) in groups[c] && NoDup(groups[c])
  }

  /** Replacing one connection's groups by a set holding its own id keeps `Memberships`. */
  lemma UpdateMemberships(groups: map<ConnId, seq<Group>>, c: ConnId, gs: seq<Group>)
    requires Memberships(groups) && Named(c) in gs && NoDup(gs)
    ensures Memberships(groups[c := gs])
  {
  }

  /** The connections whose groups contain `g`: `io.in(g).allSockets()`. */
  function Members(groups: map<ConnId, seq<Group>>, g: Group): (r: set<ConnId>)
    ensures r <= groups.Keys
  {
    set d | d in groups && g in groups[d]
  }

  /**
   * The groups `leave_room` and `person_left` skip: the connection's own id
   * and its session id (`undefined` when it has none).
   */
  predicate Own(g: Group, c: ConnId, sid: Option<string>) {
    g == Named(c) || g == GroupOf(sid)
  }

  /** The groups of `gs` that `leave_room` keeps, in order. */
  function Kept(gs: seq<Group>, c: ConnId, sid: Option<string>): (r: seq<Group>)
    ensures |r| <= |gs|
  {
    if gs == [] then []
    else
      var g := gs[|gs| - 1];
      Kept(gs[..|gs| - 1], c, sid) + (if Own(g, c, sid) then [g] else [])
  }

  /** The groups of `gs` that `leave_room` leaves, in order. */
  function Vacated(gs: seq<Group>, c: ConnId, sid: Option<string>): (r: seq<Group>)
  {
    if gs == [] then []
    else
      var g := gs[|gs| - 1];
      Vacated(gs[..|gs| - 1], c, sid) + (if Own(g, c, sid) then [] else [g])
  }

  /** `leave_room` keeps exactly the caller's own id and session groups. */
  lemma {:induction false} KeptMembers(gs: seq<Group>, c: ConnId, sid: Option<string>)
    ensures forall h :: h in Kept(gs, c, sid) <==> h in gs && Own(h, c, sid)
  {
    if gs != [] {
      KeptMembers(gs[..|gs| - 1], c, sid);
      assert gs == gs[..|gs| - 1] + [gs[|gs| - 1]];
    }
  }

  /** `leave_room` and `person_left` visit exactly the other groups. */
  lemma {:induction false} VacatedMembers(gs: seq<Group>, c: ConnId, sid: Option<string>)
    ensures forall h :: h in Vacated(gs, c, sid) <==> h in gs && !Own(h, c, sid)
  {
    if gs != [] {
      VacatedMembers(gs[..|gs| - 1], c, sid);
      assert gs == gs[..|gs| - 1] + [gs[|gs| - 1]];
    }
  }

  /** Keeping is idempotent, and after it nothing is left to vacate. */
  lemma {:induction false} KeptIdempotent(gs: seq<Group>, c: ConnId, sid: Option<string>)
    ensures Kept(Kept(gs, c, sid), c, sid) == Kept(gs, c, sid)
    ensures Vacated(Kept(gs, c, sid), c, sid) == []
  {
    if gs != [] {
      var front := gs[..|gs| - 1];
      var g := gs[|gs| - 1];
      KeptIdempotent(front, c, sid);
      var k := Kept(front, c, sid);
      if Own(g, c, sid) {
        assert Kept(gs, c, sid) == k + [g];
        assert (k + [g])[..|k + [g]| - 1] == k;
      } else {
        assert Kept(gs, c, sid) == k;
      }
    }
  }

  /** The groups `disconnecting` notifies: the guard at line 157 lets them through. */
  function Guarded(gs: seq<Group>, c: ConnId, sid: Option<string>): (r: seq<Group>)
    ensures |r| <= |gs|
  {
    if gs == [] then []
    else
      var g := gs[|gs| - 1];
      Guarded(gs[..|gs| - 1], c, sid) + (if g != Named(c) || g != GroupOf(sid) then [g] else [])
  }

  /**
   * The guard `room !== socket.id || room !== sessionId` only fails when the
   * session id equals the connection id: otherwise every group, the
   * connection's own id and session groups included, is notified.
   */
  lemma {:induction false} GuardedEveryGroup(gs: seq<Group>, c: ConnId, sid: Option<string>)
    requires sid != Some(c)
    ensures Guarded(gs, c, sid) == gs
  {
    if gs != [] {
      GuardedEveryGroup(gs[..|gs| - 1], c, sid);
      assert gs[..|gs| - 1] + [gs[|gs| - 1]] == gs;
    }
  }

  /** `disconnecting` notifies exactly the groups its guard lets through. */
  lemma {:induction false} GuardedMembers(gs: seq<Group>, c: ConnId, sid: Option<string>)
    ensures forall h :: h in Guarded(gs, c, sid) <==> h in gs && (h != Named(c) || h != GroupOf(sid))
  {
    if gs != [] {
      GuardedMembers(gs[..|gs| - 1], c, sid);
      assert gs == gs[..|gs| - 1] + [gs[|gs| - 1]];
    }
  }

  /** One emit of `ev` to each group of `gs`, in order. */
  function Broadcast(gs: seq<Group>, except: Option<ConnId>, ev: Event): (r: seq<Emission>)
    ensures |r| == |gs|
  {
    if gs == [] then [] else Broadcast(gs[..|gs| - 1], except, ev) + [Emission(gs[|gs| - 1], except, ev)]
  }

  /** The `k`th emit goes to the `k`th group, with the same exclusion and event. */
  lemma {:induction false} BroadcastEmits(gs: seq<Group>, except: Option<ConnId>, ev: Event)
    ensures forall k :: 0 <= k < |gs| ==> Broadcast(gs, except, ev)[k] == Emission(gs[k], except, ev)
  {
    if gs != [] {
      BroadcastEmits(gs[..|gs| - 1], except, ev);
    }
  }

  /**
   * The cache keys `leave_room` deletes: each vacated named group that no
   * other connection belongs to.  `roomsCache.del(undefined)` throws, so the
   * `undefined` group is never deleted.
   */
  function Emptied(groups: map<ConnId, seq<Group>>, c: ConnId, vacated: seq<Group>): (r: set<string>)
  {
    if vacated == [] then {}
    else
      var g := vacated[|vacated| - 1];
      Emptied(groups, c, vacated[..|vacated| - 1])
        + (if g.Named? && Members(groups, g) <= {c} then {g.name} else {})
  }

  /** The keys deleted are the names of the vacated groups nobody else belongs to. */
  lemma {:induction false} EmptiedMembers(groups: map<ConnId, seq<Group>>, c: ConnId, vacated: seq<Group>)
    ensures forall n :: n in Emptied(groups, c, vacated) <==> Named(n) in vacated && Members(groups, Named(n)) <= {c}
  {
    if vacated != [] {
      EmptiedMembers(groups, c, vacated[..|vacated| - 1]);
      assert vacated == vacated[..|vacated| - 1] + [vacated[|vacated| - 1]];
    }
  }

  /** `leave_room` never deletes the caller's own entry or its session's key. */
  lemma LeaveKeepsOwnKeys(groups: map<ConnId, seq<Group>>, c: ConnId, sid: Option<string>, gs: seq<Group>)
    ensures c !in Emptied(groups, c, Vacated(gs, c, sid))
    ensures sid.Some? ==> sid.value !in Emptied(groups, c, Vacated(gs, c, sid))
  {
    VacatedMembers(gs, c, sid);
    EmptiedMembers(groups, c, Vacated(gs, c, sid));
  }

  /**
   * `{ from: sessionId, ...msg }`: the spread comes last, so a `from` field in
   * the message overrides the session id.
   */
  function Relayed(sid: string, msg: map<string, Json>): (r: map<string, Json>)
    ensures forall k :: k in r <==> k == "from" || k in msg
    ensures forall k :: k in msg ==> r[k] == msg[k]
    ensures "from" !in msg ==> r["from"] == JString(sid)
  {
    map["from" := JString(sid)] + msg
  }

  /** The result of the checks `join_room` makes before it changes anything. */
  datatype JoinOutcome =
    | Rejected(error: string)
    | Admitted(group: Group, entry: Entry, sessionId: string)

  /** The group a found entry is joined under: a person entry has no `id`. */
  function EntryGroup(e: Entry): (g: Group)
    ensures e.RoomEntry? <==> g.Named?
    ensures e.RoomEntry? ==> g == Named(e.room.id)
  {
    match e
    case RoomEntry(room) => Named(room.id)
    case Person(_) => Undefined
  }

  /** The parsed `opts.maxPeople`; a person entry has no `opts`. */
  function EntryLimit(e: Entry): (m: Option<int>)
    ensures e.Person? ==> m.None?
    ensures e.RoomEntry? ==> m == e.room.maxPeople
  {
    match e
    case RoomEntry(room) => room.maxPeople
    case Person(_) => None
  }

  /**
   * `join_room` up to its first effect (server/index.ts:65-83).  `link` is
   * `None` when the options or the link are not a string, which makes
   * destructuring or `link.match` throw into the generic error.
   */
  function JoinCheck(cache: Cache, groups: map<ConnId, seq<Group>>, c: ConnId,
                     link: Option<string>, pathname: Option<string>): (r: JoinOutcome)
    ensures r == Rejected(NotFound) <==> link.Some? && GetRoomFromLink(cache, link.value, pathname).None?
    ensures r == Rejected(LimitReached) <==>
      && link.Some? && GetRoomFromLink(cache, link.value, pathname).Some?
      && var e := GetRoomFromLink(cache, link.value, pathname).value;
         EntryLimit(e).Some? && |Members(groups, EntryGroup(e))| >= EntryLimit(e).value
    ensures r.Rejected? ==> r.error in {NotFound, LimitReached, TryAgain}
    ensures r.Admitted? ==>
      && link.Some? && GetRoomFromLink(cache, link.value, pathname) == Some(r.entry)
      && r.group == EntryGroup(r.entry)
      && (EntryLimit(r.entry).Some? ==> |Members(groups, r.group)| < EntryLimit(r.entry).value)
      && SessionOf(cache, c) == Some(r.sessionId) && r.sessionId != ""
    ensures (Truthy(SessionOf(cache, c)) && link.Some? && GetRoomFromLink(cache, link.value, pathname).Some?
             && r != Rejected(LimitReached)) ==> r.Admitted?
  {
    if link.None? then Rejected(TryAgain)
    else
      var found := GetRoomFromLink(cache, link.value, pathname);
      if found.None? then Rejected(NotFound)
      else
        var e := found.value;
        var limit := EntryLimit(e);
        var count := |Members(groups, EntryGroup(e))|;
        if limit.Some? && count >= limit.value then Rejected(LimitReached)
        else
          var sid := SessionOf(cache, c);
          if !Truthy(sid) then Rejected(TryAgain)
          else Admitted(EntryGroup(e), e, sid.value)
  }

  /**
   * A successful join never takes a limited room past its limit: the count
   * made before joining is below the limit and joining adds at most the caller.
   */
  lemma JoinWithinCapacity(cache: Cache, groups: map<ConnId, seq<Group>>, c: ConnId,
                           link: Option<string>, pathname: Option<string>)
    requires c in groups
    requires JoinCheck(cache, groups, c, link, pathname).Admitted?
    ensures var outcome := JoinCheck(cache, groups, c, link, pathname);
      var after := groups[c := Join(groups[c], outcome.group)];
      && c in Members(after, outcome.group)
      && (EntryLimit(outcome.entry).Some? ==> |Members(after, outcome.group)| <= EntryLimit(outcome.entry).value)
  {
    var outcome := JoinCheck(cache, groups, c, link, pathname);
    var g := outcome.group;
    var after := groups[c := Join(groups[c], g)];
    assert Members(after, g) <= Members(groups, g) + {c};
    SubsetCard(Members(after, g), Members(groups, g) + {c});
  }

  /**
   * A client whose connection id is a well-formed id can pass that id as the
   * link: it finds its own person entry, which has no `id`, and is admitted to
   * the group `undefined`.
   */
  lemma OwnIdJoinsUndefined(cache: Cache, groups: map<ConnId, seq<Group>>, c: ConnId, sid: string)
    requires IsRoomId(c) && c in cache && cache[c] == Person(sid) && sid != ""
    ensures JoinCheck(cache, groups, c, Some(c), None) == Admitted(Undefined, Person(sid), sid)
  {
    assert ResolveId(c, None) == Some(c);
  }

  lemma SubsetCard<T>(a: set<T>, b: set<T>)
    requires a <= b
    ensures |a| <= |b|
  {
    assert b == a + (b - a);
  }

  class Server {
    /** `roomsCache`. */
    var cache: Cache
    /** `socket.rooms` of every open connection. */
    var groups: map<ConnId, seq<Group>>
    /** Every event emitted so far, in order. */
    var log: seq<Emission>

    /** Every connection's groups are well formed and every room sits under its own id. */
    predicate Valid()
      reads this`groups, this`cache
    {
      && Memberships(groups)
      && RoomsUnderOwnId(cache)
    }

    constructor ()
      ensures Valid()
      ensures cache == map[] && groups == map[] && log == []
    {
      cache := map[];
      groups := map[];
      log := [];
    }

    /** `io.on('connection')`: the new socket is in the group of its own id. */
    method Connect(c: ConnId)
      requires Valid() && c !in groups
      modifies this
      ensures Valid()
      ensures groups == old(groups)[c := [Named(c)]]
      ensures cache == old(cache) && log == old(log)
    {
      groups := groups[c := [Named(c)]];
    }

    /** `register` (server/index.ts:36-47). */
    method Register(c: ConnId, sessionId: string, roomId: Option<string>)
      requires Valid() && c in groups
      modifies this
      ensures Valid()
      ensures cache == old(cache)[c := Person(sessionId)]
      ensures Truthy(roomId) ==>
        && groups == old(groups)[c := Join(Join(old(groups)[c], Named(sessionId)), Named(roomId.value))]
        && log == old(log) + [Emission(Named(roomId.value), None, PersonReconnected(sessionId))]
      ensures !Truthy(roomId) ==>
        groups == old(groups)[c := Join(old(groups)[c], Named(sessionId))] && log == old(log)
    {
      cache := cache[c := Person(sessionId)];
      var joined := Join(groups[c], Named(sessionId));
      if Truthy(roomId) {
        joined := Join(joined, Named(roomId.value));
        log := log + [Emission(Named(roomId.value), None, PersonReconnected(sessionId))];
      }
      UpdateMemberships(groups, c, joined);
      groups := groups[c := joined];
    }

    /**
     * `create_room` (server/index.ts:49-63).  `room` is `None` when the
     * payload is not an object, so that `room.id = roomId` throws; `freshId`
     * is the id `nanoid()` draws.  Returns the ack's `isError`.
     */
    method CreateRoom(c: ConnId, room: Option<Room>, freshId: string) returns (isError: bool)
      requires Valid() && c in groups && freshId !in cache
      modifies this
      ensures Valid()
      ensures isError <==> room.None?
      ensures isError ==> cache == old(cache) && groups == old(groups) && log == old(log)
      ensures !isError ==>
        var stored := room.value.(id := freshId);
        && cache == old(cache)[freshId := RoomEntry(stored)]
        && groups == old(groups)[c := Join(old(groups)[c], Named(freshId))]
        && log == old(log) + [Emission(Named(c), None, JoinedRoom(RoomEntry(stored)))]
    {
      if room.None? {
        return true;
      }
      var stored := room.value.(id := freshId);
      UpdateMemberships(groups, c, Join(groups[c], Named(freshId)));
      groups := groups[c := Join(groups[c], Named(freshId))];
      cache := cache[freshId := RoomEntry(stored)];
      log := log + [Emission(Named(c), None, JoinedRoom(RoomEntry(stored)))];
      isError := false;
    }

    /**
     * `join_room` (server/index.ts:65-97).  `pathname` stands for
     * `new URL(link).pathname` as in `GetRoomFromLink`.  Returns the ack's
     * `error`; on any error nothing changes.
     */
    method JoinRoom(c: ConnId, name: Option<Json>, link: Option<string>, pathname: Option<string>)
      returns (error: Option<string>)
      requires Valid() && c in groups
      modifies this
      ensures Valid()
      ensures var outcome := JoinCheck(old(cache), old(groups), c, link, pathname);
        && (outcome.Rejected? ==>
             error == Some(outcome.error) && cache == old(cache) && groups == old(groups) && log == old(log))
        && (outcome.Admitted? ==>
             && error.None?
             && cache == old(cache)
             && groups == old(groups)[c := Join(old(groups)[c], outcome.group)]
             && log == old(log) + [Emission(outcome.group, Some(c), PersonJoined(name, outcome.sessionId)),
                                   Emission(Named(c), None, JoinedRoom(outcome.entry))])
    {
      if link.None? {
        assert JoinCheck(cache, groups, c, link, pathname) == Rejected(TryAgain);
        return Some(TryAgain);
      }
      var found := GetRoomFromLink(cache, link.value, pathname);
      if found.None? {
        assert JoinCheck(cache, groups, c, link, pathname) == Rejected(NotFound);
        return Some(NotFound);
      }
      var e := found.value;
      var maxPeople := EntryLimit(e);
      var peopleCount := |Members(groups, EntryGroup(e))|;
      if maxPeople.Some? && peopleCount >= maxPeople.value {
        assert JoinCheck(cache, groups, c, link, pathname) == Rejected(LimitReached);
        return Some(LimitReached);
      }
      var sid := SessionOf(cache, c);
      if !Truthy(sid) {
        assert JoinCheck(cache, groups, c, link, pathname) == Rejected(TryAgain);
        return Some(TryAgain);
      }
      assert JoinCheck(cache, groups, c, link, pathname) == Admitted(EntryGroup(e), e, sid.value);
      Enter(c, e, name, sid.value);
      error := None;
    }

    /**
     * The effects of an admitted `join_room` (server/index.ts:84-93): the
     * caller joins the entry's group, whose other members are told, and the
     * caller gets the entry.
     */
    method Enter(c: ConnId, e: Entry, name: Option<Json>, sessionId: string)
      requires Valid() && c in groups
      modifies this`groups, this`log
      ensures Valid()
      ensures groups == old(groups)[c := Join(old(groups)[c], EntryGroup(e))]
      ensures log == old(log) + [Emission(EntryGroup(e), Some(c), PersonJoined(name, sessionId)),
                                 Emission(Named(c), None, JoinedRoom(e))]
    {
      UpdateMemberships(groups, c, Join(groups[c], EntryGroup(e)));
      groups := groups[c := Join(groups[c], EntryGroup(e))];
      log := log + [Emission(EntryGroup(e), Some(c), PersonJoined(name, sessionId))];
      log := log + [Emission(Named(c), None, JoinedRoom(e))];
    }

    /**
     * `leave_room` (server/index.ts:99-124): leaves every group but the
     * connection's own id and session groups, tells the remaining members of
     * each, and deletes the cache key of every group left empty.
     */
    method LeaveRoom(c: ConnId)
      requires Valid() && c in groups
      modifies this
      ensures Valid()
      ensures Snapshot(groups, cache, log) == LeaveAll(Snapshot(old(groups), old(cache), old(log)), c)
    {
      ghost var start := Snapshot(groups, cache, log);
      LeaveEach(c, start);
      LeaveTrace(start, c, |start.groups[c]|);
      LeaveDone(start, c);
    }

    /** The `forEach` of `leave_room` over the groups the caller started with. */
    method LeaveEach(c: ConnId, ghost start: Snapshot)
      requires c in start.groups
      requires Snapshot(groups, cache, log) == start
      modifies this
      ensures Snapshot(groups, cache, log) == LeaveAfter(start, c, |start.groups[c]|)
    {
      var rooms := groups[c];
      var i := 0;
      while i < |rooms|
        invariant 0 <= i <= |rooms|
        invariant Snapshot(groups, cache, log) == LeaveAfter(start, c, i)
      {
        LeaveGroup(c, rooms[i]);
        i := i + 1;
      }
    }

    /**
     * The body of `leave_room`'s `forEach` (server/index.ts:101-120) for one
     * group `room`: skipped when it is the connection's own id or session
     * group; otherwise left, announced and, once nobody is left in it,
     * deleted from the cache.
     */
    method LeaveGroup(c: ConnId, room: Group)
      requires c in groups
      modifies this
      ensures Snapshot(groups, cache, log) == LeaveVisit(Snapshot(old(groups), old(cache), old(log)), c, room)
    {
      var sessionId := SessionOf(cache, c);
      if Own(room, c, sessionId) {
        return;
      }
      groups := groups[c := Without(groups[c], room)];
      if Truthy(sessionId) {
        log := log + [Emission(room, Some(c), PersonLeft(sessionId.value))];
      }
      if room.Named? && |Members(groups, room)| == 0 {
        cache := cache - {room.name};
      }
    }

    /**
     * `person_left` (server/index.ts:126-141): tells the group of the departed
     * session to leave, then forwards the departure to every group of the
     * caller but its own id and session groups.  Nothing but the log changes.
     */
    method PersonLeftHandler(c: ConnId, sessionId: string)
      requires Valid() && c in groups
      modifies this`log
      ensures Valid()
      ensures cache == old(cache) && groups == old(groups)
      ensures log == old(log) + [Emission(Named(sessionId), None, LeaveRoomEvent)]
                              + Broadcast(Vacated(groups[c], c, SessionOf(cache, c)), None, PersonLeft(sessionId))
    {
      log := log + [Emission(Named(sessionId), None, LeaveRoomEvent)];
      ForwardLeft(c, groups[c], sessionId);
    }

    /**
     * The `forEach` of `person_left` (server/index.ts:129-137): every group in
     * `rooms` but the caller's own id and session group is told that
     * `sessionId` left.
     */
    method ForwardLeft(c: ConnId, rooms: seq<Group>, sessionId: string)
      modifies this`log
      ensures log == old(log) + Broadcast(Vacated(rooms, c, SessionOf(cache, c)), None, PersonLeft(sessionId))
    {
      ghost var log0 := log;
      var i := 0;
      assert rooms[..0] == [];
      while i < |rooms|
        invariant 0 <= i <= |rooms|
        invariant log == log0 + Broadcast(Vacated(rooms[..i], c, SessionOf(cache, c)), None, PersonLeft(sessionId))
      {
        var room := rooms[i];
        ForwardStep(rooms, i, c, SessionOf(cache, c), PersonLeft(sessionId));
        ghost var sent := Broadcast(Vacated(rooms[..i], c, SessionOf(cache, c)), None, PersonLeft(sessionId));
        if room != Named(c) {
          var mySessionId := SessionOf(cache, c);
          if room != GroupOf(mySessionId) {
            log := log + [Emission(room, None, PersonLeft(sessionId))];
            AppendAssoc(log0, sent, [Emission(room, None, PersonLeft(sessionId))]);
          }
        }
        i := i + 1;
      }
      assert rooms[..i] == rooms;
    }

    /**
     * `message` (server/index.ts:143-151): relays the message, without its
     * `to` field, to the group `to` (`undefined` when absent), sender
     * excluded, once the caller has a session.
     */
    method MessageHandler(c: ConnId, to: Option<string>, msg: map<string, Json>)
      requires Valid() && c in groups && "to" !in msg
      modifies this
      ensures Valid()
      ensures cache == old(cache) && groups == old(groups)
      ensures var sid := SessionOf(old(cache), c);
        && (Truthy(sid) ==> log == old(log) + [Emission(GroupOf(to), Some(c), Message(Relayed(sid.value, msg)))])
        && (!Truthy(sid) ==> log == old(log))
    {
      var sessionId := SessionOf(cache, c);
      if !Truthy(sessionId) {
        return;
      }
      log := log + [Emission(GroupOf(to), Some(c), Message(Relayed(sessionId.value, msg)))];
    }

    /**
     * `disconnecting` (server/index.ts:153-165), followed by the transport
     * taking the connection out of all its groups.  Room entries stay in the
     * cache.
     */
    method Disconnecting(c: ConnId)
      requires Valid() && c in groups
      modifies this
      ensures Valid()
      ensures cache == old(cache) - {c}
      ensures groups == old(groups) - {c}
      ensures log == old(log) + DisconnectNotices(old(groups)[c], c, SessionOf(old(cache), c))
    {
      var sessionId := SessionOf(cache, c);
      cache := cache - {c};
      NotifyDisconnected(c, groups[c], sessionId);
      groups := groups - {c};
    }

    /**
     * The `forEach` of `disconnecting` (server/index.ts:156-163): each group
     * in `rooms` the guard lets through is told that `sessionId` left, when
     * it is set.
     */
    method NotifyDisconnected(c: ConnId, rooms: seq<Group>, sessionId: Option<string>)
      modifies this`log
      ensures log == old(log) + DisconnectNotices(rooms, c, sessionId)
    {
      ghost var log0 := log;
      var i := 0;
      assert rooms[..0] == [];
      while i < |rooms|
        invariant 0 <= i <= |rooms|
        invariant log == log0 + DisconnectNotices(rooms[..i], c, sessionId)
      {
        var room := rooms[i];
        DisconnectStep(rooms, i, c, sessionId);
        ghost var sent := DisconnectNotices(rooms[..i], c, sessionId);
        if room != Named(c) || room != GroupOf(sessionId) {
          if Truthy(sessionId) {
            log := log + [Emission(room, None, PersonDisconnected(sessionId.value))];
            AppendAssoc(log0, sent, [Emission(room, None, PersonDisconnected(sessionId.value))]);
          }
        }
        i := i + 1;
      }
      assert rooms[..i] == rooms;
    }
  }

  /** The events `disconnecting` emits for the groups `gs`: none without a session. */
  function DisconnectNotices(gs: seq<Group>, c: ConnId, sid: Option<string>): (r: seq<Emission>)
    ensures |r| <= |gs|
    ensures !Truthy(sid) ==> r == []
  {
    if Truthy(sid) then Broadcast(Guarded(gs, c, sid), None, PersonDisconnected(sid.value)) else []
  }

  /**
   * With a session id that is not the connection id, `disconnecting` tells
   * every group the connection is in, its own id and session groups
   * included, in order.
   */
  lemma DisconnectReachesEveryGroup(gs: seq<Group>, c: ConnId, sid: Option<string>)
    requires Truthy(sid) && sid != Some(c)
    ensures var r := DisconnectNotices(gs, c, sid);
      && |r| == |gs|
      && forall k :: 0 <= k < |gs| ==> r[k] == Emission(gs[k], None, PersonDisconnected(sid.value))
  {
    GuardedEveryGroup(gs, c, sid);
    BroadcastEmits(gs, None, PersonDisconnected(sid.value));
  }

  /** One more group visited by `disconnecting`, on the specification side. */
  lemma DisconnectStep(rooms: seq<Group>, i: nat, c: ConnId, sid: Option<string>)
    requires i < |rooms|
    ensures DisconnectNotices(rooms[..i + 1], c, sid) ==
      DisconnectNotices(rooms[..i], c, sid)
      + (if (rooms[i] != Named(c) || rooms[i] != GroupOf(sid)) && Truthy(sid)
         then [Emission(rooms[i], None, PersonDisconnected(sid.value))] else [])
  {
    GuardedStep(c, sid, rooms, i);
    var g := Guarded(rooms[..i], c, sid);
    if rooms[i] != Named(c) || rooms[i] != GroupOf(sid) {
      if Truthy(sid) {
        BroadcastStep(g, rooms[i], None, PersonDisconnected(sid.value));
      }
    } else {
      assert Guarded(rooms[..i + 1], c, sid) == g + [] == g;
    }
  }

  /** The events `leave_room` emits for the groups `vacated`: none without a session. */
  function LeaveNotices(vacated: seq<Group>, c: ConnId, sid: Option<string>): (r: seq<Emission>)
    ensures |r| == if Truthy(sid) then |vacated| else 0
  {
    if Truthy(sid) then Broadcast(vacated, Some(c), PersonLeft(sid.value)) else []
  }

  /**
   * With a session, `leave_room` tells each vacated group, in order, that the
   * session left, and the caller itself does not hear it.
   */
  lemma LeaveNoticesEmits(vacated: seq<Group>, c: ConnId, sid: Option<string>)
    requires Truthy(sid)
    ensures var r := LeaveNotices(vacated, c, sid);
      forall k :: 0 <= k < |vacated| ==> r[k] == Emission(vacated[k], Some(c), PersonLeft(sid.value))
  {
    BroadcastEmits(vacated, Some(c), PersonLeft(sid.value));
  }

  /** What the handlers act on: every connection's groups, the cache and the emits. */
  datatype Snapshot = Snapshot(groups: map<ConnId, seq<Group>>, cache: Cache, log: seq<Emission>)

  /**
   * The state of `leave_room` once it has visited the first `i` groups of
   * the caller, one visit after the other.
   */
  ghost function LeaveAfter(start: Snapshot, c: ConnId, i: nat): (s: Snapshot)
    requires c in start.groups && i <= |start.groups[c]|
    ensures c in s.groups
  {
    if i == 0 then start
    else LeaveVisit(LeaveAfter(start, c, i - 1), c, start.groups[c][i - 1])
  }

  /** Visiting the groups one after the other reaches the closed form. */
  lemma {:induction false} LeaveTrace(start: Snapshot, c: ConnId, i: nat)
    requires c in start.groups && i <= |start.groups[c]|
    requires NoDup(start.groups[c])
    ensures LeaveAfter(start, c, i) == LeaveClosed(start, c, i)
  {
    if i == 0 {
      LeaveStart(start, c);
    } else {
      LeaveTrace(start, c, i - 1);
      LeaveRound(start, c, i - 1, LeaveAfter(start, c, i - 1));
    }
  }

  /**
   * The state after `i` groups in closed form: the groups among the first
   * `i` that the caller leaves are gone, their notices are sent and the keys
   * of those left empty are deleted.
   */
  ghost function LeaveClosed(start: Snapshot, c: ConnId, i: nat): Snapshot
    requires c in start.groups && i <= |start.groups[c]|
  {
    var rooms := start.groups[c];
    var sid := SessionOf(start.cache, c);
    var vacated := Vacated(rooms[..i], c, sid);
    Snapshot(start.groups[c := Kept(rooms[..i], c, sid) + rooms[i..]],
             start.cache - Emptied(start.groups, c, vacated),
             start.log + LeaveNotices(vacated, c, sid))
  }

  lemma LeaveStart(start: Snapshot, c: ConnId)
    requires c in start.groups
    ensures LeaveClosed(start, c, 0) == start
  {
    var rooms := start.groups[c];
    var sid := SessionOf(start.cache, c);
    assert rooms[..0] == [] && rooms[0..] == rooms;
    assert Kept([], c, sid) + rooms == rooms;
    assert start.groups[c := rooms] == start.groups;
    assert Emptied(start.groups, c, Vacated([], c, sid)) == {};
    assert start.cache - {} == start.cache;
    assert LeaveNotices(Vacated([], c, sid), c, sid) == [];
    assert start.log + [] == start.log;
  }

  /** The session `leave_room` reads stays the one it started with. */
  lemma LeaveKeepsSession(start: Snapshot, c: ConnId, i: nat)
    requires c in start.groups && i <= |start.groups[c]|
    ensures var s := LeaveClosed(start, c, i);
      && SessionOf(s.cache, c) == SessionOf(start.cache, c)
      && c in s.groups
  {
    LeaveKeepsOwnKeys(start.groups, c, SessionOf(start.cache, c), start.groups[c][..i]);
  }

  /**
   * One round of `leave_room`'s loop over the caller's groups, on a state:
   * the group is skipped when it is the caller's own id or session group;
   * otherwise the caller leaves it, its members are told when the caller has
   * a session, and its cache key is deleted once nobody is in it.
   */
  ghost function LeaveVisit(s: Snapshot, c: ConnId, room: Group): Snapshot
    requires c in s.groups
  {
    var sid := SessionOf(s.cache, c);
    if Own(room, c, sid) then s
    else
      var groups := s.groups[c := Without(s.groups[c], room)];
      Snapshot(groups,
               if room.Named? && |Members(groups, room)| == 0 then s.cache - {room.name} else s.cache,
               if Truthy(sid) then s.log + [Emission(room, Some(c), PersonLeft(sid.value))] else s.log)
  }

  /** Visiting the `i`th group leads from the state after `i` groups to the state after `i + 1`. */
  lemma LeaveRound(start: Snapshot, c: ConnId, i: nat, s: Snapshot)
    requires c in start.groups && i < |start.groups[c]|
    requires NoDup(start.groups[c])
    requires s == LeaveClosed(start, c, i)
    ensures c in s.groups
    ensures LeaveVisit(s, c, start.groups[c][i]) == LeaveClosed(start, c, i + 1)
  {
    LeaveKeepsSession(start, c, i);
    if Own(start.groups[c][i], c, SessionOf(start.cache, c)) {
      LeaveRoundKeeps(start, c, i);
    } else {
      LeaveRoundGroups(start, c, i);
      LeaveRoundCache(start, c, i);
      LeaveRoundLog(start, c, i);
    }
  }

  /** A group `leave_room` skips changes nothing. */
  lemma LeaveRoundKeeps(start: Snapshot, c: ConnId, i: nat)
    requires c in start.groups && i < |start.groups[c]|
    requires Own(start.groups[c][i], c, SessionOf(start.cache, c))
    ensures LeaveClosed(start, c, i + 1) == LeaveClosed(start, c, i)
  {
    var rooms := start.groups[c];
    var sid := SessionOf(start.cache, c);
    var kept := Kept(rooms[..i], c, sid);
    KeptStep(c, sid, rooms, i);
    VacatedStep(c, sid, rooms, i);
    assert rooms[i..] == [rooms[i]] + rooms[i + 1..];
    assert Kept(rooms[..i + 1], c, sid) + rooms[i + 1..] == kept + rooms[i..];
    assert Vacated(rooms[..i + 1], c, sid) == Vacated(rooms[..i], c, sid);
  }

  /** A group `leave_room` leaves is taken out of the caller's groups. */
  lemma LeaveRoundGroups(start: Snapshot, c: ConnId, i: nat)
    requires c in start.groups && i < |start.groups[c]|
    requires NoDup(start.groups[c])
    requires !Own(start.groups[c][i], c, SessionOf(start.cache, c))
    ensures var s := LeaveClosed(start, c, i);
      LeaveClosed(start, c, i + 1).groups == s.groups[c := Without(s.groups[c], start.groups[c][i])]
    ensures LeaveClosed(start, c, i + 1).groups == start.groups[c := Kept(start.groups[c][..i], c, SessionOf(start.cache, c)) + start.groups[c][i + 1..]]
    ensures start.groups[c][i] !in LeaveClosed(start, c, i + 1).groups[c]
  {
    var rooms := start.groups[c];
    var sid := SessionOf(start.cache, c);
    KeptLeave(rooms, c, sid, i);
    var before := Kept(rooms[..i], c, sid) + rooms[i..];
    var after := Kept(rooms[..i + 1], c, sid) + rooms[i + 1..];
    UpdateTwice(start.groups, c, before, after);
  }

  lemma UpdateTwice(m: map<ConnId, seq<Group>>, k: ConnId, v: seq<Group>, w: seq<Group>)
    ensures m[k := v][k := w] == m[k := w]
  {
  }

  /** Leaving the `i`th group takes it, and only it, out of the caller's list. */
  lemma KeptLeave(rooms: seq<Group>, c: ConnId, sid: Option<string>, i: nat)
    requires NoDup(rooms) && i < |rooms| && !Own(rooms[i], c, sid)
    ensures var after := Kept(rooms[..i + 1], c, sid) + rooms[i + 1..];
      && Without(Kept(rooms[..i], c, sid) + rooms[i..], rooms[i]) == after
      && after == Kept(rooms[..i], c, sid) + rooms[i + 1..]
      && rooms[i] !in after
  {
    var room := rooms[i];
    var kept := Kept(rooms[..i], c, sid);
    var rest := rooms[i + 1..];
    KeptStep(c, sid, rooms, i);
    assert Kept(rooms[..i + 1], c, sid) == kept + [] == kept;
    LeftOnce(rooms, c, sid, i);
    LeaveMiddle(kept, rooms, i);
  }

  /** Leaving the `i`th group, which occurs nowhere else, from `kept + rooms[i..]`. */
  lemma LeaveMiddle(kept: seq<Group>, rooms: seq<Group>, i: nat)
    requires i < |rooms| && rooms[i] !in kept && rooms[i] !in rooms[i + 1..]
    ensures Without(kept + rooms[i..], rooms[i]) == kept + rooms[i + 1..]
  {
    var room, rest := rooms[i], rooms[i + 1..];
    calc {
      Without(kept + rooms[i..], room);
      { assert rooms[i..] == [room] + rest; assert kept + rooms[i..] == kept + [room] + rest; }
      Without(kept + [room] + rest, room);
      { WithoutMiddle(kept, room, rest); }
      kept + rest;
    }
  }

  /** A group being left is neither among the groups kept so far nor later on. */
  lemma LeftOnce(rooms: seq<Group>, c: ConnId, sid: Option<string>, i: nat)
    requires NoDup(rooms) && i < |rooms|
    ensures rooms[i] !in Kept(rooms[..i], c, sid) && rooms[i] !in rooms[i + 1..]
  {
    NoDupSplit(rooms, i);
    KeptMembers(rooms[..i], c, sid);
  }

  /** The key of a left group is deleted exactly when nobody else is in it. */
  lemma LeaveRoundCache(start: Snapshot, c: ConnId, i: nat)
    requires c in start.groups && i < |start.groups[c]|
    requires NoDup(start.groups[c])
    requires !Own(start.groups[c][i], c, SessionOf(start.cache, c))
    ensures var s := LeaveClosed(start, c, i);
      var t := LeaveClosed(start, c, i + 1);
      var room := start.groups[c][i];
      t.cache == if room.Named? && |Members(t.groups, room)| == 0 then s.cache - {room.name} else s.cache
  {
    var rooms := start.groups[c];
    var sid := SessionOf(start.cache, c);
    var room := rooms[i];
    LeaveRoundEmptied(start, c, i);
    MapMinusStep(start.cache, Emptied(start.groups, c, Vacated(rooms[..i], c, sid)), room);
  }

  /** The keys `leave_room` has deleted grow by the left group's name when nobody else is in it. */
  lemma LeaveRoundEmptied(start: Snapshot, c: ConnId, i: nat)
    requires c in start.groups && i < |start.groups[c]|
    requires NoDup(start.groups[c])
    requires !Own(start.groups[c][i], c, SessionOf(start.cache, c))
    ensures var rooms := start.groups[c];
      var sid := SessionOf(start.cache, c);
      var room := rooms[i];
      Emptied(start.groups, c, Vacated(rooms[..i + 1], c, sid)) ==
        Emptied(start.groups, c, Vacated(rooms[..i], c, sid))
        + (if room.Named? && |Members(LeaveClosed(start, c, i + 1).groups, room)| == 0 then {room.name} else {})
  {
    var rooms := start.groups[c];
    var sid := SessionOf(start.cache, c);
    var room := rooms[i];
    LeaveRoundGroups(start, c, i);
    MembersAfterLeave(start.groups, c, room, Kept(rooms[..i], c, sid) + rooms[i + 1..]);
    VacatedStep(c, sid, rooms, i);
    EmptiedStep(start.groups, c, Vacated(rooms[..i], c, sid), room);
  }

  lemma MapMinusStep(m: Cache, e: set<string>, g: Group)
    ensures g.Named? ==> m - (e + {g.name}) == (m - e) - {g.name}
    ensures m - (e + {}) == m - e
  {
  }

  /** A group `leave_room` leaves is told, once the caller has a session. */
  lemma LeaveRoundLog(start: Snapshot, c: ConnId, i: nat)
    requires c in start.groups && i < |start.groups[c]|
    requires !Own(start.groups[c][i], c, SessionOf(start.cache, c))
    ensures var s := LeaveClosed(start, c, i);
      var sid := SessionOf(start.cache, c);
      LeaveClosed(start, c, i + 1).log ==
        if Truthy(sid) then s.log + [Emission(start.groups[c][i], Some(c), PersonLeft(sid.value))] else s.log
  {
    var rooms := start.groups[c];
    var sid := SessionOf(start.cache, c);
    VacatedStep(c, sid, rooms, i);
    if Truthy(sid) {
      BroadcastStep(Vacated(rooms[..i], c, sid), rooms[i], Some(c), PersonLeft(sid.value));
    }
  }

  /**
   * What `leave_room` does as a whole: the caller keeps only its own id and
   * session groups, every other group it was in is told it left (when it has
   * a session), and the key of every such group nobody else is in is
   * deleted.
   */
  ghost function LeaveAll(start: Snapshot, c: ConnId): Snapshot
    requires c in start.groups
  {
    var rooms := start.groups[c];
    var sid := SessionOf(start.cache, c);
    var vacated := Vacated(rooms, c, sid);
    Snapshot(start.groups[c := Kept(rooms, c, sid)],
             start.cache - Emptied(start.groups, c, vacated),
             start.log + LeaveNotices(vacated, c, sid))
  }

  /** Once every group is visited, the state is the one `LeaveAll` describes, and it is valid. */
  lemma LeaveDone(start: Snapshot, c: ConnId)
    requires c in start.groups && Memberships(start.groups) && RoomsUnderOwnId(start.cache)
    ensures LeaveClosed(start, c, |start.groups[c]|) == LeaveAll(start, c)
    ensures Memberships(LeaveAll(start, c).groups) && RoomsUnderOwnId(LeaveAll(start, c).cache)
  {
    var rooms := start.groups[c];
    var sid := SessionOf(start.cache, c);
    assert rooms[..|rooms|] == rooms;
    assert Kept(rooms, c, sid) + rooms[|rooms|..] == Kept(rooms, c, sid);
    KeptValid(rooms, c, sid);
    UpdateMemberships(start.groups, c, Kept(rooms, c, sid));
  }

  /**
   * What `leave_room` changes and what it leaves alone: only the caller's
   * groups change, and they shrink to its own id and session groups; cache
   * keys are only deleted, never the caller's own entry or its session's key;
   * the emits are appended to the log, one per vacated group when the caller
   * has a session.
   */
  lemma LeaveAllEffect(start: Snapshot, c: ConnId)
    requires c in start.groups
    ensures var after := LeaveAll(start, c);
      var sid := SessionOf(start.cache, c);
      && c in after.groups && after.groups.Keys == start.groups.Keys
      && (forall d :: d in start.groups && d != c ==> after.groups[d] == start.groups[d])
      && (forall h :: h in after.groups[c] <==> h in start.groups[c] && Own(h, c, sid))
      && after.cache.Keys <= start.cache.Keys
      && (c in start.cache ==> c in after.cache && after.cache[c] == start.cache[c])
      && (Truthy(sid) ==> sid.value in start.cache ==> sid.value in after.cache)
      && start.log <= after.log
      && |after.log| == |start.log| + if Truthy(sid) then |Vacated(start.groups[c], c, sid)| else 0
  {
    var rooms := start.groups[c];
    var sid := SessionOf(start.cache, c);
    KeptMembers(rooms, c, sid);
    LeaveKeepsOwnKeys(start.groups, c, sid, rooms);
  }

  /**
   * A caller with a session that is the last member of the group `undefined`
   * leaves it, and the group is then empty: the branch where `leave_room`
   * calls `roomsCache.del(undefined)`, which throws.
   */
  lemma LeaveEmptiesUndefined(start: Snapshot, c: ConnId)
    requires c in start.groups && Undefined in start.groups[c]
    requires SessionOf(start.cache, c).Some? && Members(start.groups, Undefined) == {c}
    ensures Undefined in Vacated(start.groups[c], c, SessionOf(start.cache, c))
    ensures Members(LeaveAll(start, c).groups, Undefined) == {}
  {
    var rooms := start.groups[c];
    var sid := SessionOf(start.cache, c);
    VacatedMembers(rooms, c, sid);
    KeptMembers(rooms, c, sid);
    MembersAfterLeave(start.groups, c, Undefined, Kept(rooms, c, sid));
  }

  /**
   * After `leave_room`, the key of a group the caller left is gone from the
   * cache exactly when nobody is left in that group.
   */
  lemma LeaveDeletesEmpty(start: Snapshot, c: ConnId, g: Group)
    requires c in start.groups && g.Named? && g.name in start.cache
    requires g in start.groups[c] && !Own(g, c, SessionOf(start.cache, c))
    ensures var after := LeaveAll(start, c);
      g.name !in after.cache <==> Members(after.groups, g) == {}
  {
    var rooms := start.groups[c];
    var sid := SessionOf(start.cache, c);
    KeptMembers(rooms, c, sid);
    VacatedMembers(rooms, c, sid);
    EmptiedMembers(start.groups, c, Vacated(rooms, c, sid));
    MembersAfterLeave(start.groups, c, g, Kept(rooms, c, sid));
  }

  /** Leaving a second time changes nothing and emits nothing. */
  lemma LeaveTwice(start: Snapshot, c: ConnId)
    requires c in start.groups
    ensures c in LeaveAll(start, c).groups
    ensures LeaveAll(LeaveAll(start, c), c) == LeaveAll(start, c)
  {
    var rooms := start.groups[c];
    var sid := SessionOf(start.cache, c);
    var once := LeaveAll(start, c);
    var kept := Kept(rooms, c, sid);
    assert once.groups == start.groups[c := kept];
    LeaveKeepsOwnKeys(start.groups, c, sid, rooms);
    assert SessionOf(once.cache, c) == sid;
    KeptIdempotent(rooms, c, sid);
    assert Kept(kept, c, sid) == kept && Vacated(kept, c, sid) == [];
    UpdateTwice(start.groups, c, kept, kept);
    assert Emptied(once.groups, c, []) == {};
    assert once.cache - {} == once.cache;
    assert once.log + [] == once.log;
  }

  /** One more group kept, on the specification side. */
  lemma KeptStep(c: ConnId, sid: Option<string>, rooms: seq<Group>, i: nat)
    requires i < |rooms|
    ensures Kept(rooms[..i + 1], c, sid) == Kept(rooms[..i], c, sid) + (if Own(rooms[i], c, sid) then [rooms[i]] else [])
  {
    var pre := rooms[..i + 1];
    assert pre[..|pre| - 1] == rooms[..i];
  }

  /** One more group vacated, on the specification side. */
  lemma VacatedStep(c: ConnId, sid: Option<string>, rooms: seq<Group>, i: nat)
    requires i < |rooms|
    ensures Vacated(rooms[..i + 1], c, sid) == Vacated(rooms[..i], c, sid) + (if Own(rooms[i], c, sid) then [] else [rooms[i]])
  {
    var pre := rooms[..i + 1];
    assert pre[..|pre| - 1] == rooms[..i];
  }

  /** One more group guarded, on the specification side. */
  lemma GuardedStep(c: ConnId, sid: Option<string>, rooms: seq<Group>, i: nat)
    requires i < |rooms|
    ensures Guarded(rooms[..i + 1], c, sid) ==
      Guarded(rooms[..i], c, sid) + (if rooms[i] != Named(c) || rooms[i] != GroupOf(sid) then [rooms[i]] else [])
  {
    var pre := rooms[..i + 1];
    assert pre[..|pre| - 1] == rooms[..i];
  }

  /** One more group visited by `person_left`, on the specification side. */
  lemma ForwardStep(rooms: seq<Group>, i: nat, c: ConnId, sid: Option<string>, ev: Event)
    requires i < |rooms|
    ensures Broadcast(Vacated(rooms[..i + 1], c, sid), None, ev) ==
      Broadcast(Vacated(rooms[..i], c, sid), None, ev)
      + (if Own(rooms[i], c, sid) then [] else [Emission(rooms[i], None, ev)])
  {
    var v := Vacated(rooms[..i], c, sid);
    VacatedStep(c, sid, rooms, i);
    if Own(rooms[i], c, sid) {
      assert Vacated(rooms[..i + 1], c, sid) == v;
    } else {
      BroadcastStep(v, rooms[i], None, ev);
    }
  }

  lemma AppendAssoc(a: seq<Emission>, b: seq<Emission>, e: seq<Emission>)
    ensures a + b + e == a + (b + e)
  {
  }

  /** One more emit, on the specification side. */
  lemma BroadcastStep(gs: seq<Group>, g: Group, except: Option<ConnId>, ev: Event)
    ensures Broadcast(gs + [g], except, ev) == Broadcast(gs, except, ev) + [Emission(g, except, ev)]
  {
    assert (gs + [g])[..|gs|] == gs;
  }

  /** In a list without duplicates, the `i`th element occurs neither before nor after `i`. */
  lemma {:induction false} NoDupSplit(gs: seq<Group>, i: nat)
    requires NoDup(gs) && i < |gs|
    ensures gs[i] !in gs[..i] && gs[i] !in gs[i + 1..]
  {
    var front := gs[..|gs| - 1];
    if i < |front| {
      NoDupSplit(front, i);
      assert front[..i] == gs[..i];
      assert gs[i + 1..] == front[i + 1..] + [gs[|gs| - 1]];
      assert gs[i] in front;
    }
  }

  /** One more group possibly emptied, on the specification side. */
  lemma EmptiedStep(groups0: map<ConnId, seq<Group>>, c: ConnId, vs: seq<Group>, g: Group)
    ensures Emptied(groups0, c, vs + [g]) ==
      Emptied(groups0, c, vs) + (if g.Named? && Members(groups0, g) <= {c} then {g.name} else {})
  {
    assert (vs + [g])[..|vs|] == vs;
  }

  /** Leaving `g` takes `c`, and only `c`, out of `g`'s members. */
  lemma MembersAfterLeave(groups: map<ConnId, seq<Group>>, c: ConnId, g: Group, gs: seq<Group>)
    requires c in groups && g !in gs
    ensures Members(groups[c := gs], g) == Members(groups, g) - {c}
    ensures |Members(groups[c := gs], g)| == 0 <==> Members(groups, g) <= {c}
  {
  }

  /** What `leave_room` keeps of a valid group list is still valid. */
  lemma KeptValid(rooms: seq<Group>, c: ConnId, sid: Option<string>)
    requires Named(c) in rooms && NoDup(rooms)
    ensures Named(c) in Kept(rooms, c, sid) && NoDup(Kept(rooms, c, sid))
  {
    KeptMembers(rooms, c, sid);
    KeptNoDup(rooms, c, sid);
  }

  lemma {:induction false} KeptNoDup(rooms: seq<Group>, c: ConnId, sid: Option<string>)
    requires NoDup(rooms)
    ensures NoDup(Kept(rooms, c, sid))
  {
    if rooms != [] {
      var front := rooms[..|rooms| - 1];
      var g := rooms[|rooms| - 1];
      assert NoDup(front);
      KeptNoDup(front, c, sid);
      KeptMembers(front, c, sid);
      var k := Kept(front, c, sid);
      assert g !in front;
      if Own(g, c, sid) {
        assert Kept(rooms, c, sid) == k + [g];
        assert (k + [g])[..|k|] == k;
        assert g !in k;
      } else {
        assert Kept(rooms, c, sid) == k;
      }
    }
  }
}

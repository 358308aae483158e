/**
 * The values kept in `roomsCache` (server/index.ts:16-31).  Connection ids and
 * room ids share the one cache: `register` stores a person under the
 * connection id, `create_room` stores a room under its fresh id.
 */
module Rooms {
  import opened Wrappers

  /**
   * A room as a client describes it.  `maxPeople` stands for
   * `parseInt(room.opts?.maxPeople || '')`: `None` when the option is missing
   * or does not parse (NaN).
   */
  datatype Room = Room(id: string, createdBy: Option<string>, name: Option<string>, maxPeople: Option<int>)

  /** A cache value: a connection's session, or a room. */
  datatype Entry = Person(sessionId: string) | RoomEntry(room: Room)

  type Cache = map<string, Entry>

  /**
   * `(roomsCache.get(id) || {}).sessionId`: the session id stored under a
   * connection id, `None` (undefined) when the key is missing or holds a room.
   */
  function SessionOf(cache: Cache, id: string): (sid: Option<string>)
    ensures sid.Some? <==> id in cache && cache[id].Person?
    ensures sid.Some? ==> cache[id] == Person(sid.value)
  {
    if id in cache && cache[id].Person? then Some(cache[id].sessionId) else None
  }

  /**
   * Writing or deleting other keys leaves a connection's session id as it
   * was, so a handler that re-reads it after such a change sees the same value.
   */
  lemma SessionFrame(cache: Cache, c: string, k: string, v: Entry, keys: set<string>)
    ensures k != c ==> SessionOf(cache[k := v], c) == SessionOf(cache, c)
    ensures c !in keys ==> SessionOf(cache - keys, c) == SessionOf(cache, c)
  {
  }

  /** JavaScript truthiness of an optional string: present and not empty. */
  predicate Truthy(s: Option<string>) {
    s.Some? && s.value != ""
  }

  /** Every room is stored under its own id (server/index.ts:52, 55). */
  predicate RoomsUnderOwnId(cache: Cache) {
    forall k :: k in cache && cache[k].RoomEntry? ==> cache[k].room.id == k
  }
}

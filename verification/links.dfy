/**
 * `getRoomFromLink` with `PATH_REGEX` and `ID_REGEX` (server/index.ts:167-180):
 * turns a pasted room link, or a bare room id, into a cache entry.
 *
 * `new URL(link)` is a library parser; it is taken as a parameter `pathname`
 * that is `Some(url.pathname)` when the constructor accepts `link` as an
 * absolute URL and `None` when it throws.
 */
module Links {
  import opened Wrappers
  import opened Rooms

  const RoomPrefix: string := "/room/"

  /** `[A-Za-z0-9_-]`. */
  predicate IdChar(ch: char) {
    ('A' <= ch <= 'Z') || ('a' <= ch <= 'z') || ('0' <= ch <= '9') || ch == '_' || ch == '-'
  }

  /** `[A-Za-z0-9_-]+` matching a whole string. */
  predicate IsRoomId(s: string) {
    |s| > 0 && forall i :: 0 <= i < |s| ==> IdChar(s[i])
  }

  /**
   * `s.match(ID_REGEX)?.groups?.id` with `ID_REGEX = /^(?<id>[A-Za-z0-9_-]+$)/`:
   * without the `m` flag `^` and `$` anchor at the ends of the whole input, so
   * the id group is all of `s`.
   */
  function MatchId(s: string): (id: Option<string>)
    ensures id.Some? <==> IsRoomId(s)
    ensures id.Some? ==> id.value == s
  {
    if IsRoomId(s) then Some(s) else None
  }

  /**
   * `pathname.match(PATH_REGEX)?.groups?.id` with
   * `PATH_REGEX = /^\/room\/(?<id>[A-Za-z0-9_-]+$)/`.
   */
  function MatchPath(pathname: string): (id: Option<string>)
    ensures id.Some? <==> exists x :: pathname == RoomPrefix + x && IsRoomId(x)
    ensures id.Some? ==> pathname == RoomPrefix + id.value && IsRoomId(id.value)
  {
    if |RoomPrefix| <= |pathname| && pathname[..|RoomPrefix|] == RoomPrefix
       && IsRoomId(pathname[|RoomPrefix|..])
    then
      assert pathname == RoomPrefix + pathname[|RoomPrefix|..];
      Some(pathname[|RoomPrefix|..])
    else
      assert forall x :: pathname == RoomPrefix + x ==> x == pathname[|RoomPrefix|..];
      None
  }

  /** The id `getRoomFromLink` looks up: from the URL path, or the whole input. */
  function ResolveId(link: string, pathname: Option<string>): (id: Option<string>)
    ensures id.Some? ==> IsRoomId(id.value)
    ensures pathname.Some? ==> id == MatchPath(pathname.value)
    ensures pathname.None? ==> (id.Some? <==> IsRoomId(link)) && (id.Some? ==> id.value == link)
  {
    match pathname
    case Some(path) => MatchPath(path)
    case None => MatchId(link)
  }

  /**
   * `getRoomFromLink(link)`: the cache entry under the resolved id.  Any
   * entry is returned, so an id that names a connection gives that
   * connection's person entry.
   */
  function GetRoomFromLink(cache: Cache, link: string, pathname: Option<string>): (r: Option<Entry>)
    ensures r.Some? <==> ResolveId(link, pathname).Some? && ResolveId(link, pathname).value in cache
    ensures r.Some? ==> r.value == cache[ResolveId(link, pathname).value]
  {
    var id := ResolveId(link, pathname);
    if id.Some? && id.value in cache then Some(cache[id.value]) else None
  }

  /** An entry is found only under a non-empty id made of `[A-Za-z0-9_-]`. */
  lemma FoundOnlyUnderRoomId(cache: Cache, link: string, pathname: Option<string>)
    requires GetRoomFromLink(cache, link, pathname).Some?
    ensures exists id :: IsRoomId(id) && id in cache && GetRoomFromLink(cache, link, pathname) == Some(cache[id])
    ensures pathname.Some? ==> exists id :: pathname.value == RoomPrefix + id && IsRoomId(id)
    ensures pathname.None? ==> IsRoomId(link) && link in cache
  {
    var id := ResolveId(link, pathname).value;
    assert IsRoomId(id) && id in cache;
  }

  /** The empty string is not a URL and not an id: nothing is found. */
  lemma EmptyLinkNotFound(cache: Cache)
    ensures GetRoomFromLink(cache, "", None) == None
  {
    assert !IsRoomId("");
  }

  /**
   * A well-formed id missing from the cache gives the same `None` as a link
   * that does not match at all.
   */
  lemma MissingIdNotFound(cache: Cache, id: string)
    requires IsRoomId(id) && id !in cache
    ensures GetRoomFromLink(cache, id, None) == None
    ensures GetRoomFromLink(cache, "https://host" + RoomPrefix + id, Some(RoomPrefix + id)) == None
  {
    assert MatchPath(RoomPrefix + id) == Some(id) by {
      assert (RoomPrefix + id)[..|RoomPrefix|] == RoomPrefix;
      assert (RoomPrefix + id)[|RoomPrefix|..] == id;
    }
  }

  /** A room link and the bare id find the same entry. */
  lemma LinkAndIdAgree(cache: Cache, id: string, url: string)
    requires IsRoomId(id)
    ensures GetRoomFromLink(cache, url, Some(RoomPrefix + id)) == GetRoomFromLink(cache, id, None)
  {
    assert (RoomPrefix + id)[..|RoomPrefix|] == RoomPrefix;
    assert (RoomPrefix + id)[|RoomPrefix|..] == id;
  }

  /** Paths other than exactly `/room/<id>` are refused. */
  lemma PathMustBeExact(cache: Cache, url: string)
    ensures GetRoomFromLink(cache, url, Some("/room/")) == None
    ensures GetRoomFromLink(cache, url, Some("/room/a/b")) == None
    ensures GetRoomFromLink(cache, url, Some("/rooms/ab")) == None
  {
    assert !IsRoomId("a/b") by { assert !IdChar("a/b"[1]); }
    assert "/rooms/ab"[..6] != RoomPrefix by { assert "/rooms/ab"[5] != RoomPrefix[5]; }
  }
}

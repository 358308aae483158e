/**
 * `transformSdp` of src/utils/helpers.ts: rewrites the bandwidth lines of a
 * session description (RFC 4566).  The `b=TIAS:` line is the transport
 * independent application specific maximum of section 6.2 of RFC 3890.
 *
 * The two `String.replace` calls are modelled with the regular expression
 * semantics written out: `MatchAt(s, p, i)` is the end of the match of
 * `p.*\r\n` that starts at `i`, `FirstMatchFrom` finds the leftmost match
 * from a position on, a non-global replace splices out the first match, and a
 * global one restarts the search at the end of each match.
 */
module Sdp {
  import opened Wrappers

  const Tias: string := "b=TIAS:"
  const VideoLine: string := "m=video"
  const Uint32Range: nat := 0x1_0000_0000

  /** JavaScript's `.`: every character except the four line terminators. */
  predicate LineChar(ch: char) {
    ch != '\n' && ch != '\r' && ch != '\U{2028}' && ch != '\U{2029}'
  }

  /**
   * `s[i..e]` is a match of `p.*\r\n`: the pattern text, then characters
   * other than line terminators, then one CR LF.
   */
  predicate IsMatchAt(s: string, p: string, i: nat, e: nat) {
    && i + |p| + 2 <= e <= |s|
    && s[i..i + |p|] == p
    && s[e - 2] == '\r' && s[e - 1] == '\n'
    && forall k :: i + |p| <= k < e - 2 ==> LineChar(s[k])
  }

  /** The end of the `.*\r\n` that starts at `q` in `s`, if any. */
  function LineEnd(s: string, q: nat): (r: Option<nat>)
    ensures r.Some? ==> var e := r.value;
      && q + 2 <= e <= |s| && s[e - 2] == '\r' && s[e - 1] == '\n'
      && forall k :: q <= k < e - 2 ==> LineChar(s[k])
    decreases |s| - q
  {
    if |s| <= q then None
    else if s[q] == '\r' then
      (if q + 1 < |s| && s[q + 1] == '\n' then Some(q + 2) else None)
    else if !LineChar(s[q]) then None
    else LineEnd(s, q + 1)
  }

  /** `LineEnd` finds the line end whenever there is one. */
  lemma {:induction false} LineEndComplete(s: string, q: nat, e: nat)
    requires q + 2 <= e <= |s| && s[e - 2] == '\r' && s[e - 1] == '\n'
    requires forall k :: q <= k < e - 2 ==> LineChar(s[k])
    ensures LineEnd(s, q) == Some(e)
    decreases |s| - q
  {
    if q < e - 2 {
      assert LineChar(s[q]);
      LineEndComplete(s, q + 1, e);
    }
  }

  /** The end of the match of `p.*\r\n` that starts at `i` in `s`, if any. */
  function MatchAt(s: string, p: string, i: nat): (r: Option<nat>)
    ensures r.Some? ==> IsMatchAt(s, p, i, r.value)
  {
    if i + |p| <= |s| && s[i..i + |p|] == p then LineEnd(s, i + |p|) else None
  }

  /** `MatchAt` finds the match whenever there is one. */
  lemma MatchAtComplete(s: string, p: string, i: nat, e: nat)
    requires IsMatchAt(s, p, i, e)
    ensures MatchAt(s, p, i) == Some(e)
  {
    LineEndComplete(s, i + |p|, e);
  }

  /** `t` holds a copy of `s[lo..hi]` shifted by `d` positions. */
  predicate Agree(s: string, t: string, lo: nat, hi: nat, d: int) {
    hi <= |s| && 0 <= lo + d && hi + d <= |t| &&
    forall k {:trigger Shifted(t, k, d)} :: lo <= k < hi ==> Shifted(t, k, d) == s[k]
  }

  /** The character `d` positions after `k` in `t`. */
  function Shifted(t: string, k: int, d: int): (c: char)
    requires 0 <= k + d < |t|
    ensures c == t[k + d]
  {
    t[k + d]
  }

  /** A match depends only on the characters it covers, wherever they stand. */
  lemma MatchTransfer(s: string, t: string, p: string, i: nat, e: nat, d: int)
    requires IsMatchAt(s, p, i, e) && Agree(s, t, i, e, d)
    ensures MatchAt(t, p, i + d) == Some(e + d)
  {
    var j: nat := i + d;
    var a, b := t[j..j + |p|], s[i..i + |p|];
    forall k | 0 <= k < |p| ensures a[k] == b[k] {
      assert Shifted(t, i + k, d) == s[i + k];
    }
    assert a == b;
    forall k | j + |p| <= k < e + d - 2 ensures LineChar(t[k]) {
      assert Shifted(t, k - d, d) == s[k - d];
    }
    assert Shifted(t, e - 2, d) == s[e - 2] && Shifted(t, e - 1, d) == s[e - 1];
    MatchAtComplete(t, p, j, e + d);
  }

  /** `MatchTransfer` read from the copy back to the original. */
  lemma MatchTransferBack(s: string, t: string, p: string, j: nat, m: nat, d: int)
    requires IsMatchAt(t, p, j, m) && 0 <= j - d && Agree(s, t, j - d, m - d, d)
    ensures MatchAt(s, p, j - d) == Some(m - d)
  {
    var i: nat := j - d;
    var a, b := s[i..i + |p|], t[j..j + |p|];
    forall k | 0 <= k < |p| ensures a[k] == b[k] {
      assert Shifted(t, i + k, d) == s[i + k];
    }
    assert a == b;
    forall k | i + |p| <= k < m - d - 2 ensures LineChar(s[k]) {
      assert Shifted(t, k, d) == s[k];
    }
    assert Shifted(t, m - d - 2, d) == s[m - d - 2] && Shifted(t, m - d - 1, d) == s[m - d - 1];
    MatchAtComplete(s, p, i, m - d);
  }

  /** The leftmost match of `p.*\r\n` in `s` at or after `from`. */
  function FirstMatchFrom(s: string, p: string, from: nat): (r: Option<nat>)
    ensures r.Some? ==> from <= r.value < |s| && MatchAt(s, p, r.value).Some?
    decreases |s| - from
  {
    if |s| <= from then None
    else if MatchAt(s, p, from).Some? then Some(from)
    else FirstMatchFrom(s, p, from + 1)
  }

  /** No match starts between `from` and the one `FirstMatchFrom` finds. */
  lemma {:induction false} FirstMatchLeftmost(s: string, p: string, from: nat, k: nat)
    requires from <= k < |s| && MatchAt(s, p, k).Some?
    ensures FirstMatchFrom(s, p, from).Some? && FirstMatchFrom(s, p, from).value <= k
    decreases k - from
  {
    if from < k && MatchAt(s, p, from).None? {
      FirstMatchLeftmost(s, p, from + 1, k);
    }
  }

  /** `p.*\r\n` matches at no position in `[lo, hi)` of `s`. */
  predicate NoMatchIn(s: string, p: string, lo: nat, hi: nat) {
    forall k :: lo <= k < hi ==> MatchAt(s, p, k).None?
  }

  lemma NoMatchBeforeFirst(s: string, p: string, from: nat)
    ensures FirstMatchFrom(s, p, from).None? ==> NoMatchIn(s, p, from, |s|)
    ensures FirstMatchFrom(s, p, from).Some? ==>
      NoMatchIn(s, p, from, FirstMatchFrom(s, p, from).value)
  {
    forall k | from <= k < |s| && MatchAt(s, p, k).Some?
      ensures FirstMatchFrom(s, p, from).Some? && FirstMatchFrom(s, p, from).value <= k
    {
      FirstMatchLeftmost(s, p, from, k);
    }
  }

  /** `s.replace(/p.*\r\n/, '')`: only the leftmost match is removed. */
  function RemoveFirst(s: string, p: string): (r: string)
    ensures r == s <==> NoMatchIn(s, p, 0, |s|)
    ensures FirstMatchFrom(s, p, 0).Some? ==>
      var i := FirstMatchFrom(s, p, 0).value;
      && NoMatchIn(s, p, 0, i)
      && exists e: nat :: IsMatchAt(s, p, i, e) && r == s[..i] + s[e..]
  {
    NoMatchBeforeFirst(s, p, 0);
    if FirstMatchFrom(s, p, 0).None? then s
    else
      var i := FirstMatchFrom(s, p, 0).value;
      var e := MatchAt(s, p, i).value;
      assert |s[..i] + s[e..]| < |s|;
      s[..i] + s[e..]
  }

  /** The end of the match found at `i`. */
  function MatchEnd(s: string, p: string, i: nat): (e: nat)
    requires MatchAt(s, p, i).Some?
    ensures i + |p| + 2 <= e <= |s| && IsMatchAt(s, p, i, e)
  {
    MatchAt(s, p, i).value
  }

  /**
   * `s.replace(/(p.*\r\n)/g, '$1' + ins)` carried on from `lastIndex` =
   * `from`: the part of the result that replaces `s[from..]`.
   */
  function ReplaceFrom(s: string, p: string, ins: string, from: nat): string
    requires from <= |s|
    decreases |s| - from
  {
    if FirstMatchFrom(s, p, from).None? then s[from..]
    else
      var e := MatchEnd(s, p, FirstMatchFrom(s, p, from).value);
      s[from..e] + ins + ReplaceFrom(s, p, ins, e)
  }

  /** The number of matches the global replace rewrites in `s[from..]`. */
  function MatchCountFrom(s: string, p: string, from: nat): nat
    requires from <= |s|
    decreases |s| - from
  {
    if FirstMatchFrom(s, p, from).None? then 0
    else 1 + MatchCountFrom(s, p, MatchEnd(s, p, FirstMatchFrom(s, p, from).value))
  }

  /**
   * `s.replace(/(p.*\r\n)/g, '$1' + ins)`: dropping `ins` after each match
   * gives back `s`, and one copy of `ins` is added per match.
   */
  function InsertAfterEach(s: string, p: string, ins: string): (r: string)
    ensures StripAfterEach(r, p, ins) == s
    ensures |r| == |s| + MatchCountFrom(s, p, 0) * |ins|
    ensures ins != [] ==> (r == s <==> NoMatchIn(s, p, 0, |s|))
  {
    StripReplaceWhole(s, p, ins);
    ReplaceFromLength(s, p, ins, 0);
    if ins != [] then
      ReplaceFromUnchanged(s, p, ins);
      ReplaceFrom(s, p, ins, 0)
    else
      ReplaceFrom(s, p, ins, 0)
  }

  /** The round trip over a whole string. */
  lemma StripReplaceWhole(s: string, p: string, ins: string)
    ensures StripAfterEach(ReplaceFrom(s, p, ins, 0), p, ins) == s
  {
    var t := ReplaceFrom(s, p, ins, 0);
    forall k | 0 <= k < |t| ensures Shifted(t, k, 0) == t[k] {
    }
    StripReplaceRoundTrip(s, p, ins, 0, t, 0);
  }

  /** The global replace changes nothing exactly when there is no match to insert after. */
  lemma ReplaceFromUnchanged(s: string, p: string, ins: string)
    requires ins != []
    ensures ReplaceFrom(s, p, ins, 0) == s <==> NoMatchIn(s, p, 0, |s|)
  {
    ReplaceFromLength(s, p, ins, 0);
    var n := MatchCountFrom(s, p, 0);
    if NoMatchIn(s, p, 0, |s|) {
      NoFirstMatch(s, p, 0);
      assert ReplaceFrom(s, p, ins, 0) == s[0..] == s;
    } else {
      assert n >= 1;
      MulMono(n, |ins|);
      assert |ReplaceFrom(s, p, ins, 0)| > |s|;
    }
  }

  lemma MulMono(n: nat, m: nat)
    requires n >= 1
    ensures n * m >= m
  {
  }

  lemma MulSucc(n: nat, m: nat)
    ensures (n + 1) * m == n * m + m
  {
  }

  /** One copy of `ins` per match, and nothing else added or dropped. */
  lemma {:induction false} ReplaceFromLength(s: string, p: string, ins: string, from: nat)
    requires from <= |s|
    ensures |ReplaceFrom(s, p, ins, from)| == |s| - from + MatchCountFrom(s, p, from) * |ins|
    ensures MatchCountFrom(s, p, from) == 0 <==> NoMatchIn(s, p, from, |s|)
    decreases |s| - from
  {
    NoMatchBeforeFirst(s, p, from);
    if FirstMatchFrom(s, p, from).Some? {
      var e := MatchEnd(s, p, FirstMatchFrom(s, p, from).value);
      var n := MatchCountFrom(s, p, e);
      var c := MatchCountFrom(s, p, from);
      var r := ReplaceFrom(s, p, ins, e);
      ReplaceFromLength(s, p, ins, e);
      assert |r| == |s| - e + n * |ins|;
      assert ReplaceFrom(s, p, ins, from) == s[from..e] + ins + r;
      assert c == n + 1;
      MulSucc(n, |ins|);
      assert c * |ins| == n * |ins| + |ins|;
    }
  }

  /** The inverse of the global replace: drops `ins` wherever it follows a match. */
  function StripFrom(t: string, p: string, ins: string, from: nat): string
    requires from <= |t|
    decreases |t| - from
  {
    if FirstMatchFrom(t, p, from).None? then t[from..]
    else
      var e := MatchEnd(t, p, FirstMatchFrom(t, p, from).value);
      var next := if e + |ins| <= |t| && t[e..e + |ins|] == ins then e + |ins| else e;
      t[from..e] + StripFrom(t, p, ins, next)
  }

  /** A match line ends at the first CR after the pattern. */
  lemma MatchStopsAtCr(t: string, p: string, k: nat, m: nat, q: nat)
    requires IsMatchAt(t, p, k, m) && k + |p| <= q < |t| && t[q] == '\r'
    ensures m <= q + 2
  {
  }

  /**
   * In a copy of `s[from..]` that keeps `s[from..e]` (where `s[i..e]` is the
   * first match from `from`) and continues with anything, the first match is
   * still the copy of `s[i..e]`: an earlier match that stays inside the copy
   * would be one of `s`, and none can run past the copied CR at `e - 2`.
   */
  lemma FirstMatchOfCopy(s: string, t: string, p: string, from: nat, o: nat, i: nat, e: nat)
    requires from <= |s| && FirstMatchFrom(s, p, from) == Some(i) && e == MatchEnd(s, p, i)
    requires Agree(s, t, from, e, o - from)
    ensures FirstMatchFrom(t, p, o) == Some(i + o - from) && MatchEnd(t, p, i + o - from) == e + o - from
  {
    NoMatchBeforeFirst(s, p, from);
    CopyKeepsMatch(s, t, p, from, o, i, e);
  }

  /** The copy of the first match is the first match of the copy. */
  lemma CopyKeepsMatch(s: string, t: string, p: string, from: nat, o: nat, i: nat, e: nat)
    requires from <= i && IsMatchAt(s, p, i, e) && NoMatchIn(s, p, from, i)
    requires Agree(s, t, from, e, o - from)
    ensures FirstMatchFrom(t, p, o) == Some(i + o - from)
    ensures MatchEnd(t, p, i + o - from) == e + o - from
  {
    MatchTransfer(s, t, p, i, e, o - from);
    forall j | o <= j < i + o - from ensures MatchAt(t, p, j).None? {
      NoMatchInCopyBefore(s, t, p, from, o, i, e, j);
    }
    FirstMatchIs(t, p, o, i + o - from);
  }

  /** A match with none before it is the first one. */
  lemma {:induction false} FirstMatchIs(s: string, p: string, from: nat, i: nat)
    requires from <= i && MatchAt(s, p, i).Some? && NoMatchIn(s, p, from, i)
    ensures FirstMatchFrom(s, p, from) == Some(i)
    decreases i - from
  {
    assert i < |s|;
    if from < i {
      assert MatchAt(s, p, from).None?;
      FirstMatchIs(s, p, from + 1, i);
    }
  }

  /** Without a match there is no first match. */
  lemma NoFirstMatch(s: string, p: string, from: nat)
    requires NoMatchIn(s, p, from, |s|)
    ensures FirstMatchFrom(s, p, from).None?
  {
  }

  /** No match starts in the copy before the copy of the first match. */
  lemma NoMatchInCopyBefore(s: string, t: string, p: string, from: nat, o: nat, i: nat, e: nat, j: nat)
    requires from <= i && IsMatchAt(s, p, i, e) && NoMatchIn(s, p, from, i)
    requires Agree(s, t, from, e, o - from)
    requires o <= j < i + o - from
    ensures MatchAt(t, p, j).None?
  {
    if MatchAt(t, p, j).Some? {
      var d := o - from;
      var m := MatchEnd(t, p, j);
      assert Shifted(t, e - 2, d) == s[e - 2];
      MatchStopsAtCr(t, p, j, m, e - 2 + d);
      MatchTransferBack(s, t, p, j, m, d);
    }
  }

  /** No match in a copy of a stretch of `s` that has none. */
  lemma NoMatchInCopy(s: string, t: string, p: string, from: nat, o: nat)
    requires from <= |s| && NoMatchIn(s, p, from, |s|)
    requires |t| - o == |s| - from && Agree(s, t, from, |s|, o - from)
    ensures NoMatchIn(t, p, o, |t|)
  {
    forall j | o <= j < |t| ensures MatchAt(t, p, j).None? {
      NoMatchAtCopy(s, t, p, from, o, j);
    }
  }

  lemma NoMatchAtCopy(s: string, t: string, p: string, from: nat, o: nat, j: nat)
    requires from <= |s| && NoMatchIn(s, p, from, |s|)
    requires |t| - o == |s| - from && Agree(s, t, from, |s|, o - from)
    requires o <= j < |t|
    ensures MatchAt(t, p, j).None?
  {
    if MatchAt(t, p, j).Some? {
      var m := MatchEnd(t, p, j);
      MatchTransferBack(s, t, p, j, m, o - from);
    }
  }

  /** One step of `StripFrom` over a match followed by `ins`. */
  lemma StripStep(t: string, p: string, ins: string, o: nat, e: nat)
    requires o <= |t| && FirstMatchFrom(t, p, o).Some?
    requires e == MatchEnd(t, p, FirstMatchFrom(t, p, o).value)
    requires e + |ins| <= |t| && t[e..e + |ins|] == ins
    ensures StripFrom(t, p, ins, o) == t[o..e] + StripFrom(t, p, ins, e + |ins|)
  {
  }

  /** Gluing `s[from..e]` and `s[e..]` back together. */
  lemma Glue(s: string, from: nat, e: nat, x: string, a: string, y: string)
    requires from <= e <= |s| && x == a + y && a == s[from..e] && y == s[e..]
    ensures x == s[from..]
  {
    assert s[from..e] + s[e..] == s[from..];
  }

  /** `t` holds a copy of `r` from position `o` on. */
  predicate CopyAt(t: string, o: nat, r: string) {
    o + |r| <= |t| && forall k {:trigger Shifted(t, k, o)} :: 0 <= k < |r| ==> Shifted(t, k, o) == r[k]
  }

  /** Where the three parts of a copy of `a + b + c` stand. */
  lemma CopyParts(t: string, o: nat, a: string, b: string, c: string)
    requires CopyAt(t, o, a + b + c)
    ensures t[o..o + |a|] == a && t[o + |a|..o + |a| + |b|] == b && CopyAt(t, o + |a| + |b|, c)
  {
    var r := a + b + c;
    forall k | 0 <= k < |a| ensures t[o..o + |a|][k] == a[k] {
      assert Shifted(t, k, o) == r[k];
    }
    forall k | 0 <= k < |b| ensures t[o + |a|..o + |a| + |b|][k] == b[k] {
      assert Shifted(t, |a| + k, o) == r[|a| + k];
    }
    forall k | 0 <= k < |c| ensures Shifted(t, k, o + |a| + |b|) == c[k] {
      assert Shifted(t, |a| + |b| + k, o) == r[|a| + |b| + k];
    }
  }

  /** `CopyParts` with the end of the first part given as `m`. */
  lemma CopyPartsAt(t: string, o: nat, a: string, b: string, c: string, m: nat)
    requires CopyAt(t, o, a + b + c) && m == o + |a|
    ensures m + |b| <= |t| && t[o..m] == a && t[m..m + |b|] == b && CopyAt(t, m + |b|, c)
  {
    CopyParts(t, o, a, b, c);
  }

  /** A copy of `s[lo..hi]` is a copy of those characters of `s`. */
  lemma CopyAgrees(s: string, t: string, lo: nat, hi: nat, o: nat)
    requires lo <= hi <= |s| && o + (hi - lo) <= |t| && t[o..o + (hi - lo)] == s[lo..hi]
    ensures Agree(s, t, lo, hi, o - lo)
  {
    forall k | lo <= k < hi ensures Shifted(t, k, o - lo) == s[k] {
      assert t[o..o + (hi - lo)][k - lo] == s[lo..hi][k - lo];
    }
  }

  /**
   * A copy of `ReplaceFrom(s, p, ins, from)` at `o` opens with the copy of
   * `s[from..e]`, whose first match ends at `e'`, then `ins`, then a copy of
   * the rest of the replacement.
   */
  lemma ReplaceFromPieces(s: string, p: string, ins: string, from: nat, t: string, o: nat, e: nat, e': nat)
    requires from <= |s| && CopyAt(t, o, ReplaceFrom(s, p, ins, from))
    requires FirstMatchFrom(s, p, from).Some?
    requires e == MatchEnd(s, p, FirstMatchFrom(s, p, from).value) && e' == e + o - from
    ensures FirstMatchFrom(t, p, o).Some? && e' == MatchEnd(t, p, FirstMatchFrom(t, p, o).value)
    ensures e' + |ins| <= |t| && t[e'..e' + |ins|] == ins
    ensures CopyAt(t, e' + |ins|, ReplaceFrom(s, p, ins, e))
    ensures t[o..e'] == s[from..e]
  {
    FirstMatchOfPrefixCopy(s, p, ins, from, t, o, FirstMatchFrom(s, p, from).value, e);
    PiecesAfterMatch(s, p, ins, from, t, o, e, e');
  }

  /** Where the copied match, the inserted text and the rest stand in a copy of a replacement. */
  lemma PiecesAfterMatch(s: string, p: string, ins: string, from: nat, t: string, o: nat, e: nat, e': nat)
    requires from <= |s| && CopyAt(t, o, ReplaceFrom(s, p, ins, from))
    requires FirstMatchFrom(s, p, from).Some?
    requires e == MatchEnd(s, p, FirstMatchFrom(s, p, from).value) && e' == e + o - from
    ensures e' + |ins| <= |t| && t[e'..e' + |ins|] == ins
    ensures CopyAt(t, e' + |ins|, ReplaceFrom(s, p, ins, e))
    ensures t[o..e'] == s[from..e]
  {
    ReplaceFromUnfold(s, p, ins, from, e);
    CopyPartsAt(t, o, s[from..e], ins, ReplaceFrom(s, p, ins, e), e');
  }

  /** The copy of a replacement starts with a copy of the first match. */
  lemma FirstMatchOfPrefixCopy(s: string, p: string, ins: string, from: nat, t: string, o: nat, i: nat, e: nat)
    requires from <= |s| && CopyAt(t, o, ReplaceFrom(s, p, ins, from))
    requires FirstMatchFrom(s, p, from) == Some(i) && e == MatchEnd(s, p, i)
    ensures FirstMatchFrom(t, p, o) == Some(i + o - from) && MatchEnd(t, p, i + o - from) == e + o - from
  {
    ReplaceFromUnfold(s, p, ins, from, e);
    CopyParts(t, o, s[from..e], ins, ReplaceFrom(s, p, ins, e));
    CopyAgrees(s, t, from, e, o);
    FirstMatchOfCopy(s, t, p, from, o, i, e);
  }

  /** The global replace past a match: the text up to its end, `ins`, then the rest. */
  lemma ReplaceFromUnfold(s: string, p: string, ins: string, from: nat, e: nat)
    requires from <= |s| && FirstMatchFrom(s, p, from).Some?
    requires e == MatchEnd(s, p, FirstMatchFrom(s, p, from).value)
    ensures from <= e <= |s| && ReplaceFrom(s, p, ins, from) == s[from..e] + ins + ReplaceFrom(s, p, ins, e)
  {
  }

  /** A copy of `ReplaceFrom(s, p, ins, from)` when nothing is left to replace. */
  lemma StripNoMatch(s: string, p: string, ins: string, from: nat, t: string, o: nat)
    requires from <= |s| && CopyAt(t, o, ReplaceFrom(s, p, ins, from)) && |t| == o + |s| - from
    requires FirstMatchFrom(s, p, from).None?
    ensures StripFrom(t, p, ins, o) == s[from..]
  {
    CopyParts(t, o, s[from..], [], []);
    assert t[o..o + (|s| - from)] == t[o..];
    CopyAgrees(s, t, from, |s|, o);
    NoMatchBeforeFirst(s, p, from);
    NoMatchInCopy(s, t, p, from, o);
    NoFirstMatch(t, p, o);
  }

  /**
   * One round of the round trip: past the first match of `s` and the `ins`
   * after its copy, what is left of `t` is again a copy of a replacement, and
   * stripping it gives `s[e..]` only if stripping all of `t[o..]` gives `s[from..]`.
   */
  lemma RoundTripStep(s: string, p: string, ins: string, from: nat, t: string, o: nat, e: nat, e': nat)
    requires from <= |s| && CopyAt(t, o, ReplaceFrom(s, p, ins, from))
    requires FirstMatchFrom(s, p, from).Some?
    requires e == MatchEnd(s, p, FirstMatchFrom(s, p, from).value) && e' == e + o - from
    ensures from < e <= |s| && CopyAt(t, e' + |ins|, ReplaceFrom(s, p, ins, e))
    ensures StripFrom(t, p, ins, e' + |ins|) == s[e..] ==> StripFrom(t, p, ins, o) == s[from..]
  {
    ReplaceFromPieces(s, p, ins, from, t, o, e, e');
    StripStep(t, p, ins, o, e');
    if StripFrom(t, p, ins, e' + |ins|) == s[e..] {
      Glue(s, from, e, StripFrom(t, p, ins, o), t[o..e'], StripFrom(t, p, ins, e' + |ins|));
    }
  }

  /** `ReplaceFrom` adds `|ins|` per match and keeps the rest. */
  lemma ReplaceFromSize(s: string, p: string, ins: string, from: nat)
    requires from <= |s| && FirstMatchFrom(s, p, from).Some?
    ensures var e := MatchEnd(s, p, FirstMatchFrom(s, p, from).value);
      |ReplaceFrom(s, p, ins, from)| == e - from + |ins| + |ReplaceFrom(s, p, ins, e)|
  {
  }

  /** Stripping the inserted text gives back the input, character for character. */
  lemma {:induction false} StripReplaceRoundTrip(s: string, p: string, ins: string, from: nat, t: string, o: nat)
    requires from <= |s| && CopyAt(t, o, ReplaceFrom(s, p, ins, from))
    requires |t| == o + |ReplaceFrom(s, p, ins, from)|
    ensures StripFrom(t, p, ins, o) == s[from..]
    decreases |s| - from
  {
    if FirstMatchFrom(s, p, from).None? {
      StripNoMatch(s, p, ins, from, t, o);
    } else {
      var e := MatchEnd(s, p, FirstMatchFrom(s, p, from).value);
      var e': nat := e + o - from;
      RoundTripStep(s, p, ins, from, t, o, e, e');
      ReplaceFromSize(s, p, ins, from);
      StripReplaceRoundTrip(s, p, ins, e, t, e' + |ins|);
    }
  }

  /** The inverse of `InsertAfterEach`. */
  function StripAfterEach(t: string, p: string, ins: string): string {
    StripFrom(t, p, ins, 0)
  }

  /** A finite Number rounded toward zero, as ToUint32 does before it wraps. */
  function Trunc(x: real): (n: int)
    ensures 0.0 <= x ==> n == x.Floor
    ensures x < 0.0 ==> n == -((-x).Floor)
  {
    if 0.0 <= x then x.Floor else -((-x).Floor)
  }

  /** `bandwidth >>> 0`: ToUint32 of a finite Number. */
  function ToUint32(x: real): (r: nat)
    ensures r < Uint32Range
    ensures 0.0 <= x < Uint32Range as real ==> r == x.Floor
    ensures (r - Trunc(x)) % Uint32Range == 0
  {
    Trunc(x) % Uint32Range
  }

  /** The bandwidth written into the TIAS lines, in bits per second. */
  function TiasValue(bandwidth: real): (v: nat)
    ensures 0.0 <= bandwidth < Uint32Range as real ==> v == 1000 * bandwidth.Floor
    ensures v % 1000 == 0 && v < 1000 * Uint32Range
  {
    ToUint32(bandwidth) * 1000
  }

  /**
   * A fractional bandwidth loses its fraction: 2500 / 1.7320508 is about
   * 1443.38, and 1443000 is written.
   */
  lemma FractionDropped()
    ensures TiasValue(2500.0 / 1.7320508) == 1443000
    ensures TiasValue(-1.5) == 1000 * (Uint32Range - 1)
  {
    var x := 2500.0 / 1.7320508;
    assert 1443.0 <= x < 1444.0;
    assert x.Floor == 1443;
    assert (-(-1.5)).Floor == 1;
  }

  function DigitChar(d: nat): (ch: char)
    requires d < 10
    ensures '0' <= ch <= '9' && ch as int - '0' as int == d
  {
    ('0' as int + d) as char
  }

  predicate AllDigits(s: string) {
    forall i :: 0 <= i < |s| ==> '0' <= s[i] <= '9'
  }

  /** The number a string of decimal digits denotes. */
  function DecimalValue(s: string): nat
    requires AllDigits(s)
  {
    if s == [] then 0
    else DecimalValue(s[..|s| - 1]) * 10 + (s[|s| - 1] as int - '0' as int)
  }

  /**
   * `${n}` for a Number holding the integer `n`: its shortest decimal form.
   * Every TIAS value is below 2^53, so the Number holds it exactly, and below
   * 10^21, so JavaScript writes it without an exponent.
   */
  function Decimal(n: nat): (r: string)
    ensures 1 <= |r| && AllDigits(r)
    ensures 1 < |r| ==> r[0] != '0'
    ensures DecimalValue(r) == n
  {
    if n < 10 then [DigitChar(n)]
    else
      var front := Decimal(n / 10);
      var r := front + [DigitChar(n % 10)];
      assert r[..|r| - 1] == front;
      r
  }

  /** The line inserted after every video media line. */
  function TiasLine(bandwidth: real): string {
    Tias + Decimal(TiasValue(bandwidth)) + "\r\n"
  }

  /**
   * `transformSdp(sdp, bandwidth)`: the output is the input without its first
   * TIAS line, plus one inserted TIAS line per video media line; dropping the
   * inserted lines gives back the input without its first TIAS line, with no
   * other character changed.
   */
  function TransformSdp(sdp: string, bandwidth: real): (r: string)
    ensures var kept := RemoveFirst(sdp, Tias);
      && StripAfterEach(r, VideoLine, TiasLine(bandwidth)) == kept
      && |r| == |kept| + MatchCountFrom(kept, VideoLine, 0) * |TiasLine(bandwidth)|
  {
    InsertAfterEach(RemoveFirst(sdp, Tias), VideoLine, TiasLine(bandwidth))
  }

  /** The inserted line carries the bandwidth, times 1000, in decimal. */
  lemma TiasLineValue(bandwidth: real)
    requires 0.0 <= bandwidth < Uint32Range as real
    ensures var line := TiasLine(bandwidth);
      var digits := line[|Tias|..|line| - 2];
      && line[..|Tias|] == Tias && line[|line| - 2..] == "\r\n"
      && AllDigits(digits) && DecimalValue(digits) == 1000 * bandwidth.Floor
  {
    var d := Decimal(TiasValue(bandwidth));
    assert TiasLine(bandwidth)[|Tias|..|TiasLine(bandwidth)| - 2] == d;
  }

  /** A description with no TIAS line and no video media line is unchanged. */
  lemma TransformSdpIdentity(sdp: string, bandwidth: real)
    requires NoMatchIn(sdp, Tias, 0, |sdp|) && NoMatchIn(sdp, VideoLine, 0, |sdp|)
    ensures TransformSdp(sdp, bandwidth) == sdp
  {
    assert TiasLine(bandwidth)[..|Tias|] == Tias;
  }
}

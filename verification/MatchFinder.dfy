/**
 * The tables of the match finder of EMdF/lzma_emdros.cpp. Three hash tables hold
 * the latest position with a given hash of two, three and four bytes; `son` is a
 * circular array that links a position to older ones with the same four-byte
 * hash, as a chain or as a tree. Positions are numbers that are rebased from time
 * to time; `base` (ghost) says which byte of the stream a position stands for.
 * The stream is `data`, and the buffer pointer an index into it.
 */
module MatchFinder {
  import opened Hashes
  import opened MatchTree

  const MAX_POS := 0xFFFF_FFFF
  const NORMALIZE_STEP := 0x400

  /* ---------- what is found ---------- */

  datatype Match = Match(len: nat, dist: nat)

  /** len bytes at a repeat those dist + 1 bytes earlier. */
  ghost predicate Genuine(data: seq<bv8>, a: nat, len: nat, dist: nat) {
    dist + 1 <= a && a + len <= |data| && forall i :: a <= i < a + len ==> data[i - dist - 1] == data[i]
  }

  ghost predicate MatchesOk(data: seq<bv8>, a: nat, window: nat, limit: nat, ms: seq<Match>) {
    (forall i :: 0 <= i < |ms| ==> 2 <= ms[i].len <= limit && ms[i].dist + 1 < window && Genuine(data, a, ms[i].len, ms[i].dist)) &&
    (forall i, j :: 0 <= i < j < |ms| ==> ms[i].len < ms[j].len)
  }

  /** The length of the last pair, which is the greatest. */
  function Longest(ms: seq<Match>): nat { if ms == [] then 0 else ms[|ms| - 1].len }

  /** What is reported is at least as long as the repetition of z, when that is longer than three bytes. */
  ghost predicate Covered(data: seq<bv8>, at: nat, limit: nat, z: int, ms: seq<Match>) {
    0 <= z < at && at + limit <= |data| && (Common(data, z, at, limit) <= Longest(ms) || Common(data, z, at, limit) <= 3)
  }

  lemma MatchesSnoc(data: seq<bv8>, a: nat, window: nat, limit: nat, ms: seq<Match>, m: Match)
    requires MatchesOk(data, a, window, limit, ms)
    requires 2 <= m.len <= limit && m.dist + 1 < window && Genuine(data, a, m.len, m.dist)
    requires ms != [] ==> ms[|ms| - 1].len < m.len
    ensures MatchesOk(data, a, window, limit, ms + [m])
  {
    hide Genuine;
  }

  /** How far the bytes at a repeat those delta earlier, from `from` on. */
  method Extend(data: seq<bv8>, a: nat, delta: nat, from: nat, limit: nat) returns (len: nat)
    requires 1 <= delta <= a && from <= limit && a + limit <= |data|
    requires Genuine(data, a, from, delta - 1)
    ensures from <= len <= limit && Genuine(data, a, len, delta - 1)
    ensures len == limit || data[a - delta + len] != data[a + len]
  {
    len := from;
    while len != limit
      invariant from <= len <= limit && Genuine(data, a, len, delta - 1)
    {
      if data[a - delta + len] != data[a + len] { break; }
      len := len + 1;
    }
  }

  /* ---------- the tables ---------- */

  /** A stored position: none, or one that was inserted before `pos`. */
  ghost predicate RefOk(v: nat, pos: nat, base: int, inserted: set<int>) {
    v == 0 || (v < pos && v + base in inserted)
  }

  /** Inserted positions are earlier bytes of the stream with four bytes from them on. */
  ghost predicate InsertedOk(inserted: set<int>, a: nat, size: nat) {
    forall x :: x in inserted ==> 0 <= x < a && x + 4 <= size
  }

  ghost predicate EntryOk(crc: Crc, data: seq<bv8>, i: nat, v: nat, base: int) {
    v != 0 && i < FIX4 ==>
      0 <= v + base && v + base + 4 <= |data| &&
      (if i < HASH2_SIZE then Index2(crc, data, v + base) == i else Index3(crc, data, v + base) == i)
  }

  ghost predicate HashOk(crc: Crc, data: seq<bv8>, hash: seq<nat>, pos: nat, base: int, inserted: set<int>) {
    forall i :: 0 <= i < |hash| ==> RefOk(hash[i], pos, base, inserted) && EntryOk(crc, data, i, hash[i], base)
  }

  /** The place in the circular array of the position delta before the current one. */
  function Slot(cyclicPos: nat, size: nat, delta: nat): int {
    cyclicPos - delta + if delta > cyclicPos then size else 0
  }

  /** The link of position q leads to an earlier one. */
  ghost predicate LinkOk(son: seq<nat>, cyclicPos: nat, pos: nat, base: int, inserted: set<int>, q: nat)
    requires q <= pos
  {
    q + base in inserted && pos - q < |son| && q < pos ==>
      var s := Slot(cyclicPos, |son|, pos - q);
      0 <= s < |son| && RefOk(son[s], q, base, inserted)
  }

  ghost predicate SonOk(son: seq<nat>, cyclicPos: nat, pos: nat, base: int, inserted: set<int>) {
    forall q :: 0 <= q < pos ==> LinkOk(son, cyclicPos, pos, base, inserted, q)
  }

  /* ---------- inserting and moving ---------- */

  lemma SlotMoves(cyclicPos: nat, size: nat, delta: nat)
    requires cyclicPos < size && 1 <= delta < size - 1
    ensures Slot(cyclicPos + 1, size, delta + 1) == Slot(cyclicPos, size, delta)
    ensures Slot(cyclicPos, size, delta) != cyclicPos && 0 <= Slot(cyclicPos, size, delta) < size
  {
  }

  /** Writing the current position into the tables and stepping over it. */
  lemma SonInserted(son: seq<nat>, son': seq<nat>, cyclicPos: nat, pos: nat, base: int, inserted: set<int>, link: nat)
    requires SonOk(son, cyclicPos, pos, base, inserted) && RefOk(link, pos, base, inserted)
    requires cyclicPos < |son| && son' == son[cyclicPos := link]
    ensures SonOk(son', cyclicPos + 1, pos + 1, base, inserted + {pos + base})
  {
    var now, c1, p1 := inserted + {pos + base}, cyclicPos + 1, pos + 1;
    forall q | 0 <= q < p1 ensures LinkOk(son', c1, p1, base, now, q) {
      if q < pos && q + base in inserted && pos + 1 - q < |son| {
        assert LinkOk(son, cyclicPos, pos, base, inserted, q);
        SlotMoves(cyclicPos, |son|, pos - q);
      }
    }
  }

  /** The link just written is nobody's in the window yet. */
  lemma SonPending(son: seq<nat>, son': seq<nat>, cyclicPos: nat, pos: nat, base: int, inserted: set<int>, link: nat)
    requires SonOk(son, cyclicPos, pos, base, inserted)
    requires cyclicPos < |son| && son' == son[cyclicPos := link]
    ensures SonOk(son', cyclicPos, pos, base, inserted)
  {
    forall q | 0 <= q < pos ensures LinkOk(son', cyclicPos, pos, base, inserted, q) {
      assert LinkOk(son, cyclicPos, pos, base, inserted, q);
      assert pos - q < |son| ==> Slot(cyclicPos, |son|, pos - q) != cyclicPos;
    }
  }

  lemma SonSkipped(son: seq<nat>, cyclicPos: nat, pos: nat, base: int, inserted: set<int>)
    requires SonOk(son, cyclicPos, pos, base, inserted) && cyclicPos < |son| && pos + base !in inserted
    ensures SonOk(son, cyclicPos + 1, pos + 1, base, inserted)
  {
    var c1, p1 := cyclicPos + 1, pos + 1;
    forall q | 0 <= q < p1 ensures LinkOk(son, c1, p1, base, inserted, q) {
      if q < pos && q + base in inserted && pos + 1 - q < |son| {
        assert LinkOk(son, cyclicPos, pos, base, inserted, q);
        SlotMoves(cyclicPos, |son|, pos - q);
      }
    }
  }

  /** Starting the circular array over. */
  lemma SonWraps(son: seq<nat>, pos: nat, base: int, inserted: set<int>)
    requires SonOk(son, |son|, pos, base, inserted)
    ensures SonOk(son, 0, pos, base, inserted)
  {
    forall q | 0 <= q < pos ensures LinkOk(son, 0, pos, base, inserted, q) {
      assert LinkOk(son, |son|, pos, base, inserted, q);
      assert pos - q < |son| ==> Slot(0, |son|, pos - q) == Slot(|son|, |son|, pos - q);
    }
  }

  lemma HashStays(crc: Crc, data: seq<bv8>, hash: seq<nat>, pos: nat, base: int, inserted: set<int>, x: int)
    requires HashOk(crc, data, hash, pos, base, inserted)
    ensures HashOk(crc, data, hash, pos + 1, base, inserted)
    ensures HashOk(crc, data, hash, pos + 1, base, inserted + {x})
  {
    hide EntryOk;
    forall i | 0 <= i < |hash| ensures RefOk(hash[i], pos + 1, base, inserted + {x}) { }
  }

  lemma HashInserted(crc: Crc, data: seq<bv8>, hash: seq<nat>, i: nat, pos: nat, base: int, inserted: set<int>)
    requires i < |hash| && pos + base in inserted && HashOk(crc, data, hash, pos + 1, base, inserted)
    requires EntryOk(crc, data, i, pos, base)
    ensures HashOk(crc, data, hash[i := pos], pos + 1, base, inserted)
  {
    hide EntryOk;
  }

  /* ---------- rebasing ---------- */

  /** Mf_Normalize3 on one item. */
  function Rebased(v: nat, sub: nat): nat { if v <= sub then 0 else v - sub }

  /**
   * Rebasing keeps every distance inside the window, and an entry that was
   * outside the window, or empty, stays outside.
   */
  lemma RebasedDistances(v: nat, pos: nat, window: nat, sub: nat)
    requires v < pos && sub + window <= pos
    ensures pos - v < window ==> (pos - sub) - Rebased(v, sub) == pos - v && Rebased(v, sub) > 0
    ensures pos - v >= window ==> (pos - sub) - Rebased(v, sub) >= window
  {
  }

  /** Two tables that agree on every distance inside the window and on what lies outside it. */
  ghost predicate SameDistances(items: seq<nat>, items': seq<nat>, pos: nat, pos': nat, window: nat) {
    |items'| == |items| &&
    forall i :: 0 <= i < |items| && items[i] < pos ==>
      if pos - items[i] < window then pos' - items'[i] == pos - items[i] && items'[i] > 0 else pos' - items'[i] >= window
  }

  lemma ItemsRebased(items: seq<nat>, items': seq<nat>, pos: nat, window: nat, sub: nat)
    requires sub + window <= pos && |items'| == |items| && forall i :: 0 <= i < |items| ==> items'[i] == Rebased(items[i], sub)
    ensures SameDistances(items, items', pos, pos - sub, window)
  {
    forall i | 0 <= i < |items| && items[i] < pos
      ensures if pos - items[i] < window then (pos - sub) - items'[i] == pos - items[i] && items'[i] > 0
              else (pos - sub) - items'[i] >= window
    {
      RebasedDistances(items[i], pos, window, sub);
    }
  }

  lemma RefRebased(v: nat, pos: nat, base: int, inserted: set<int>, sub: nat)
    requires RefOk(v, pos, base, inserted) && sub < pos
    ensures RefOk(Rebased(v, sub), pos - sub, base + sub, inserted)
  {
  }

  lemma HashRebased(crc: Crc, data: seq<bv8>, hash: seq<nat>, hash': seq<nat>, pos: nat, base: int,
                    inserted: set<int>, sub: nat)
    requires HashOk(crc, data, hash, pos, base, inserted) && sub < pos
    requires |hash'| == |hash| && forall i :: 0 <= i < |hash| ==> hash'[i] == Rebased(hash[i], sub)
    ensures HashOk(crc, data, hash', pos - sub, base + sub, inserted)
  {
    forall i | 0 <= i < |hash'|
      ensures RefOk(hash'[i], pos - sub, base + sub, inserted) && EntryOk(crc, data, i, hash'[i], base + sub)
    {
      RefRebased(hash[i], pos, base, inserted, sub);
      if hash[i] > sub { assert hash'[i] + (base + sub) == hash[i] + base; }
    }
  }

  lemma SonRebased(son: seq<nat>, son': seq<nat>, cyclicPos: nat, pos: nat, base: int, inserted: set<int>, sub: nat)
    requires SonOk(son, cyclicPos, pos, base, inserted) && sub + |son| <= pos && sub < pos
    requires |son'| == |son| && forall i :: 0 <= i < |son| ==> son'[i] == Rebased(son[i], sub)
    ensures SonOk(son', cyclicPos, pos - sub, base + sub, inserted)
  {
    var p1, b1 := pos - sub, base + sub;
    forall q | 0 <= q < p1 ensures LinkOk(son', cyclicPos, p1, b1, inserted, q) {
      assert LinkOk(son, cyclicPos, pos, base, inserted, q + sub);
      if q + (base + sub) in inserted && pos - sub - q < |son| {
        assert pos - sub - q == pos - (q + sub);
        var s := Slot(cyclicPos, |son|, pos - sub - q);
        RefRebased(son[s], q + sub, base, inserted, sub);
      }
    }
  }

  method NormalizeItems(sub: nat, items: array<nat>)
    modifies items
    ensures forall i :: 0 <= i < items.Length ==> items[i] == Rebased(old(items[i]), sub)
  {
    var i := 0;
    while i < items.Length
      invariant 0 <= i <= items.Length
      invariant forall k :: 0 <= k < i ==> items[k] == Rebased(old(items[k]), sub)
      invariant forall k :: i <= k < items.Length ==> items[k] == old(items[k])
    {
      var value := items[i];
      if value <= sub { value := 0; } else { value := value - sub; }
      items[i] := value;
      i := i + 1;
    }
  }

  /* ---------- the short candidates ---------- */

  /** A two- or three-byte candidate whose first byte agrees repeats all its bytes: the hash vouches for the rest. */
  lemma ShortGenuine(crc: Crc, data: seq<bv8>, a: nat, pos: nat, base: int, v: nat, delta: nat)
    requires a == pos + base && a + 4 <= |data| && v < pos && v != 0 && delta == pos - v && 0 <= v + base
    requires data[a - delta] == data[a]
    ensures EntryOk(crc, data, Index2(crc, data, a), v, base) ==> Genuine(data, a, 2, delta - 1)
    ensures EntryOk(crc, data, Index3(crc, data, a), v, base) ==> Genuine(data, a, 3, delta - 1)
  {
    hide Index2, Index3;
    var b := v + base;
    assert b == a - delta;
    if EntryOk(crc, data, Index2(crc, data, a), v, base) {
      Index2Tells(crc, data, a, b);
      Repeats(data, a, delta, 2);
    }
    if EntryOk(crc, data, Index3(crc, data, a), v, base) {
      Index3Tells(crc, data, a, b);
      Repeats(data, a, delta, 3);
    }
  }

  lemma Repeats(data: seq<bv8>, a: nat, delta: nat, len: nat)
    requires 1 <= delta <= a && a + 4 <= |data| && len <= 3
    requires data[a - delta] == data[a] && data[a - delta + 1] == data[a + 1]
    requires len == 3 ==> data[a - delta + 2] == data[a + 2]
    ensures Genuine(data, a, len, delta - 1)
  {
    forall i | a <= i < a + len ensures data[i - (delta - 1) - 1] == data[i] {
      assert i == a || i == a + 1 || i == a + 2;
    }
  }

  lemma GenuineInside(data: seq<bv8>, a: nat, len: nat, dist: nat)
    requires Genuine(data, a, len, dist)
    ensures dist + 1 <= a && a + len <= |data|
  {
  }

  /** What Extend finds is all that is common. */
  lemma ExtendIs(data: seq<bv8>, a: nat, delta: nat, limit: nat, len: nat)
    requires 1 <= delta <= a && a + limit <= |data| && len <= limit && Genuine(data, a, len, delta - 1)
    requires len == limit || data[a - delta + len] != data[a + len]
    ensures Common(data, a - delta, a, limit) == len
  {
    hide Genuine, Same;
    SameIsGenuine(data, a - delta, a, len);
    CommonIs(data, a - delta, a, limit, len);
  }

  lemma NoneInCommon(data: seq<bv8>, x: nat, a: nat, limit: nat)
    requires x + limit <= |data| && a + limit <= |data| && limit > 0 && data[x] != data[a]
    ensures Common(data, x, a, limit) == 0
  {
  }

  /** The first part of Hc4_MatchFinder_GetMatches: at most two pairs, the last one extended. */
  method ShortMatches(data: seq<bv8>, a: nat, window: nat, limit: nat, delta2: nat, delta3: nat)
    returns (ms: seq<Match>, maxLen: nat)
    requires 4 <= limit && a + limit <= |data| && delta2 >= 1 && delta3 >= 1
    requires delta2 < window ==> delta2 <= a && (data[a - delta2] == data[a] ==> Genuine(data, a, 2, delta2 - 1))
    requires delta3 < window ==> delta3 <= a && (data[a - delta3] == data[a] ==> Genuine(data, a, 3, delta3 - 1))
    ensures MatchesOk(data, a, window, limit, ms) && 1 <= maxLen <= limit
    ensures ms != [] ==> ms[|ms| - 1].len == maxLen
    ensures ms == [] ==> maxLen == 1
    ensures delta3 < window ==> Common(data, a - delta3, a, limit) <= Longest(ms)
    ensures delta2 < window && Common(data, a - delta2, a, limit) > Longest(ms) ==>
              delta3 < window && data[a - delta3] == data[a] && delta3 != delta2 && Longest(ms) >= 3
  {
    hide Genuine, Common;
    ms, maxLen := [], 1;
    if delta2 < window && data[a - delta2] != data[a] { NoneInCommon(data, a - delta2, a, limit); }
    if delta3 < window && data[a - delta3] != data[a] { NoneInCommon(data, a - delta3, a, limit); }
    var delta := delta2;
    ghost var before: seq<Match> := [];
    if delta2 < window && data[a - delta2] == data[a] {
      maxLen := 2;
      ms := [Match(2, delta2 - 1)];
    }
    if delta2 != delta3 && delta3 < window && data[a - delta3] == data[a] {
      maxLen := 3;
      before := ms;
      ms := ms + [Match(0, delta3 - 1)];
      delta := delta3;
    }
    if ms != [] {
      maxLen := Extend(data, a, delta, maxLen, limit);
      ExtendIs(data, a, delta, limit, maxLen);
      ms := ms[|ms| - 1 := Match(maxLen, delta - 1)];
      assert ms == before + [Match(maxLen, delta - 1)];
      MatchesSnoc(data, a, window, limit, before, Match(maxLen, delta - 1));
    }
  }

  /* ---------- the tree search ---------- */

  /** The byte of the stream that a stored position stands for: -1 for none, -2 for one before the stream. */
  function IndexOf(v: nat, base: int): int { if v == 0 then -1 else if v + base < 0 then -2 else v + base }

  function Kids(son: seq<nat>, base: int): seq<int> {
    seq(|son|, i requires 0 <= i < |son| => IndexOf(son[i], base))
  }

  lemma KidsUpdate(son: seq<nat>, i: nat, v: nat, base: int)
    requires i < |son|
    ensures Kids(son[i := v], base) == Kids(son, base)[i := IndexOf(v, base)]
  {
  }

  /** The place that the source computes from a distance is the position's place in the circular array. */
  lemma PlaceOf(at: nat, cyclicPos: nat, size: nat, delta: nat)
    requires size > 0 && cyclicPos == at % size && 0 < delta < size && delta <= at
    ensures Slot(cyclicPos, size, delta) == (at - delta) % size
  {
    var q, c := at / size, at % size;
    assert at == size * q + c;
    if delta <= c {
      ModIs(at - delta, size, q, c - delta);
    } else {
      Distribute(size, q, 1);
      ModIs(at - delta, size, q - 1, c - delta + size);
    }
  }

  lemma ModIs(x: nat, size: nat, q: int, c: nat)
    requires size > 0 && c < size && x == size * q + c
    ensures x % size == c
  {
    var d, m := x / size, x % size;
    assert x == size * d + m;
    Distribute(size, d, q);
    if d - q >= 1 { MulAtLeast(size, d - q); }
    if d - q <= -1 { Distribute(size, q, d); MulAtLeast(size, q - d); }
  }

  lemma SameIsGenuine(data: seq<bv8>, x: nat, at: nat, n: nat)
    requires x < at && at + n <= |data|
    ensures Same(data, x, at, n) <==> Genuine(data, at, n, at - x - 1)
  {
    if Same(data, x, at, n) {
      forall i | at <= i < at + n ensures data[i - (at - x - 1) - 1] == data[i] {
        assert data[x..x + n][i - at] == data[at..at + n][i - at];
      }
    }
    if Genuine(data, at, n, at - x - 1) {
      var s, t := data[x..x + n], data[at..at + n];
      forall i | 0 <= i < n ensures s[i] == t[i] { assert data[(at + i) - (at - x - 1) - 1] == data[at + i]; }
    }
  }

  /** Comparing from a known common prefix on finds the whole common prefix. */
  method Compare(data: seq<bv8>, at: nat, delta: nat, known: nat, limit: nat) returns (len: nat)
    requires 1 <= delta <= at && known < limit && at + limit <= |data| && Same(data, at - delta, at, known)
    ensures len == Common(data, at - delta, at, limit) && known <= len && Genuine(data, at, len, delta - 1)
  {
    var x := at - delta;
    SameIsGenuine(data, x, at, known);
    len := known;
    if data[x + len] == data[at + len] {
      assert Genuine(data, at, known + 1, delta - 1);
      len := Extend(data, at, delta, known + 1, limit);
    }
    SameIsGenuine(data, x, at, len);
    CommonIs(data, x, at, limit, len);
  }

  /** A position of the window whose place, bytes and known prefix the search is about to use. */
  lemma Reached(data: seq<bv8>, k: nat, size: nat, at: nat, f: Frame, pos: nat, base: int, cyclicPos: nat, cur: nat)
    requires size > 0 && size <= pos && at == pos + base && cyclicPos == at % size && pos - cur < size
    requires FrameReady(data, k, size, at - size, at, f) && f.x == IndexOf(cur, base)
    ensures 0 < pos - cur <= at && f.x == at - (pos - cur) && Live(at - size, f.x)
    ensures Slot(cyclicPos, size, pos - cur) == f.x % size
    ensures at + k <= |data|
    ensures var m := if f.len0 < f.len1 then f.len0 else f.len1; m <= k && Same(data, f.x, at, m)
  {
    hide Ready, Same, Common;
    UnfoldReady(data, k, size, at - size, at, f);
    PlaceOf(at, cyclicPos, size, pos - cur);
    StartAgrees(data, k, size, at - size, at, f);
  }

  /** The comparison with the position reached, and the match it may give. */
  method Visit(data: seq<bv8>, size: nat, at: nat, delta: nat, known: nat, limit: nat, maxLen0: nat, found: seq<Match>)
    returns (len: nat, maxLen: nat, ms: seq<Match>)
    requires 1 <= delta <= at && delta < size && known < limit && at + limit <= |data| && Same(data, at - delta, at, known)
    requires 1 <= maxLen0 < limit && MatchesOk(data, at, size, limit, found)
    requires found != [] ==> found[|found| - 1].len <= maxLen0
    ensures len == Common(data, at - delta, at, limit)
    ensures MatchesOk(data, at, size, limit, ms) && found <= ms && maxLen0 <= maxLen <= limit
    ensures ms != [] ==> ms[|ms| - 1].len <= maxLen
    ensures maxLen == limit <==> len == limit
    ensures len <= maxLen && Longest(found) <= Longest(ms)
    ensures maxLen0 <= 3 || maxLen0 == Longest(found) ==> maxLen <= 3 || maxLen == Longest(ms)
  {
    hide Common, Same, Genuine;
    len := Compare(data, at, delta, known, limit);
    maxLen, ms := maxLen0, found;
    if maxLen < len {
      MatchesSnoc(data, at, size, limit, ms, Match(len, delta - 1));
      ms := ms + [Match(len, delta - 1)];
      maxLen := len;
    }
  }

  /** Attaching the position reached to its part and going on in one of its children. */
  method Attach(data: seq<bv8>, son: array<nat>, size: nat, ghost base: int, at: nat, limit: nat, ghost f: Frame,
                cur: nat, delta: nat, pair: nat, len: nat, ptr0: nat, ptr1: nat, len0: nat, len1: nat)
    returns (next: nat, p0: nat, p1: nat, l0: nat, l1: nat, ghost g: Frame)
    requires son.Length == 2 * size && size > 0 && f == Frame(Kids(son[..], base), IndexOf(cur, base), ptr0, ptr1, len0, len1)
    requires FrameReady(data, limit, size, at - size, at, f) && Live(at - size, f.x) && 1 <= delta <= at && f.x == at - delta
    requires pair == 2 * (f.x % size) && at + limit <= |data| && len == Common(data, f.x, at, limit) < limit
    requires len0 < limit && len1 < limit
    modifies son
    ensures g == Frame(Kids(son[..], base), IndexOf(next, base), p0, p1, l0, l1) && Follows(data, limit, size, at - size, at, f, g)
    ensures l0 < limit && l1 < limit
  {
    hide Ready, LE, Common, Kids, Follows;
    CommonDecides(data, at - delta, at, limit);
    p0, p1, l0, l1 := ptr0, ptr1, len0, len1;
    if data[at - delta + len] < data[at + len] {
      g := Descends(data, limit, size, at - size, at, f, son[..], base, cur, pair, true);
      son[p1] := cur;
      p1 := pair + 1;
      next := son[p1];
      l1 := len;
    } else {
      g := Descends(data, limit, size, at - size, at, f, son[..], base, cur, pair, false);
      son[p0] := cur;
      p0 := pair;
      next := son[p0];
      l0 := len;
    }
  }

  /** What a search with `path` compared says of the positions of its tree. */
  ghost predicate SearchOk(data: seq<bv8>, at: nat, limit: nat, cutValue: nat, all: set<int>, path: set<int>, ms: seq<Match>) {
    path <= all && |path| <= cutValue &&
    (forall y :: y in path ==> Covered(data, at, limit, y, ms)) &&
    (|all| <= cutValue ==> forall y :: y in all ==> Covered(data, at, limit, y, ms))
  }

  /**
   * GetMatchesSpec1: the matches along the way down, and the tree taken apart around the current position.
   * `path` are the positions compared. A tree of at most cutValue positions is searched and kept as a whole.
   */
  method SearchTree(data: seq<bv8>, son: array<nat>, size: nat, pos: nat, ghost base: int, at: nat, cyclicPos: nat, limit: nat,
                    cutValue: nat, start: nat, shortest: nat, found: seq<Match>) returns (ms: seq<Match>, ghost path: set<int>)
    requires size > 0 && son.Length == 2 * size && size <= pos && at == pos + base && cyclicPos == at % size
    requires Ready(data, limit, Kids(son[..], base), size, at - size, at, IndexOf(start, base), 2 * cyclicPos + 1, 2 * cyclicPos, 0, 0)
    requires 1 <= shortest < limit && at + limit <= |data| && MatchesOk(data, at, size, limit, found)
    requires found != [] ==> found[|found| - 1].len <= shortest
    requires shortest <= 3 || shortest == Longest(found)
    modifies son
    ensures Apart(data, limit, old(Kids(son[..], base)), Kids(son[..], base), size, at - size, at, IndexOf(start, base),
                  2 * cyclicPos + 1, 2 * cyclicPos)
    ensures MatchesOk(data, at, size, limit, ms) && found <= ms && Longest(found) <= Longest(ms)
    ensures var all := Elems(old(Kids(son[..], base)), size, at - size, IndexOf(start, base));
            && SearchOk(data, at, limit, cutValue, all, path, ms)
            && (cutValue > 0 && Live(at - size, IndexOf(start, base)) ==> IndexOf(start, base) in path)
            && (|all| <= cutValue ==>
                  Complete(data, limit, old(Kids(son[..], base)), Kids(son[..], base), size, at - size, at, IndexOf(start, base),
                           2 * cyclicPos + 1, 2 * cyclicPos))
  {
    hide Ready, Apart, LE, Common, MatchesOk, Kids, Same, Follows, IndexOf, Trail, Complete, Searched, Elems, Live, SearchOk;
    ghost var lo := at - size;
    ms, path := found, {};
    var cur: nat, cut, maxLen := start, cutValue, shortest;
    var ptr0: nat, ptr1: nat, len0: nat, len1: nat := 2 * cyclicPos + 1, 2 * cyclicPos, 0, 0;
    ghost var f := Frame(Kids(son[..], base), IndexOf(cur, base), ptr0, ptr1, len0, len1);
    ghost var trail := [f];
    TrailOne(data, limit, size, lo, at, f);
    UnfoldReady(data, limit, size, lo, at, f);
    ghost var all := Elems(f.kids, size, lo, f.x);
    SearchedFirst(data, limit, size, lo, at, f, maxLen);
    while true
      invariant f == Frame(Kids(son[..], base), IndexOf(cur, base), ptr0, ptr1, len0, len1) && FrameReady(data, limit, size, lo, at, f)
      invariant trail != [] && trail[|trail| - 1] == f && Trail(data, limit, size, lo, at, trail)
      invariant trail[0] == Frame(old(Kids(son[..], base)), IndexOf(start, base), 2 * cyclicPos + 1, 2 * cyclicPos, 0, 0)
      invariant 1 <= maxLen < limit && len0 < limit && len1 < limit && found <= ms
      invariant MatchesOk(data, at, size, limit, ms) && (ms != [] ==> ms[|ms| - 1].len <= maxLen)
      invariant Searched(data, limit, size, lo, at, all, path, f, maxLen) && |path| == cutValue - cut && 0 <= cut <= cutValue
      invariant (maxLen <= 3 || maxLen == Longest(ms)) && Longest(found) <= Longest(ms)
      invariant forall y :: y in all ==> 0 <= y < at
      invariant IndexOf(start, base) in path || (cut == cutValue && f.x == IndexOf(start, base))
      decreases cut
    {
      var delta := pos - cur;
      if cut == 0 || delta >= size {
        if delta >= size { Gone(cur, pos, base, size, at); }
        Emptied(data, limit, size, lo, at, f, son[..], base);
        son[ptr0] := 0;
        son[ptr1] := 0;
        Unwind(data, limit, size, lo, at, trail, Kids(son[..], base));
        SearchEnds(data, limit, size, lo, at, cutValue, all, path, f, maxLen, ms);
        return;
      }
      cut := cut - 1;
      Reached(data, limit, size, at, f, pos, base, cyclicPos, cur);
      var pair := 2 * (cyclicPos - delta + if delta > cyclicPos then size else 0);
      var len;
      ghost var maxLen0 := maxLen;
      len, maxLen, ms := Visit(data, size, at, delta, if len0 < len1 then len0 else len1, limit, maxLen, ms);
      if maxLen == limit {
        TakenOver(data, limit, size, lo, at, f, son[..], base, pair);
        son[ptr1] := son[pair];
        son[ptr0] := son[pair + 1];
        Unwind(data, limit, size, lo, at, trail, Kids(son[..], base));
        LimitCovers(data, limit, size, lo, at, cutValue, all, path, f, maxLen0, ms);
        path := path + {f.x};
        return;
      }
      ghost var g;
      cur, ptr0, ptr1, len0, len1, g := Attach(data, son, size, base, at, limit, f, cur, delta, pair, len, ptr0, ptr1, len0, len1);
      NextReady(data, limit, size, lo, at, f, g);
      TrailGrows(data, limit, size, lo, at, trail, g);
      SearchedNext(data, limit, size, lo, at, all, path, f, g, maxLen0, maxLen);
      path := path + {f.x};
      f := g;
      trail := trail + [f];
    }
  }

  lemma SearchedFirst(data: seq<bv8>, k: nat, size: nat, lo: int, at: nat, f: Frame, maxLen: nat)
    requires FrameReady(data, k, size, lo, at, f)
    ensures size > 0 && |f.kids| == 2 * size && Searched(data, k, size, lo, at, Elems(f.kids, size, lo, f.x), {}, f, maxLen)
    ensures forall y :: y in Elems(f.kids, size, lo, f.x) ==> 0 <= y < at
  {
    hide Common, LE, Clear;
    forall y | y in Elems(f.kids, size, lo, f.x) ensures 0 <= y < at { assert Agrees(data, k, at, y, f.len0, f.len1); }
  }

  /** A reference as far back as the window is long, or none, is outside the window. */
  lemma Gone(cur: nat, pos: nat, base: int, size: nat, at: nat)
    requires pos - cur >= size && at == pos + base
    ensures !Live(at - size, IndexOf(cur, base))
  {
  }

  /** At the end of the way down, or where the search is cut. */
  lemma SearchEnds(data: seq<bv8>, k: nat, size: nat, lo: int, at: nat, cutValue: nat, all: set<int>, path: set<int>, f: Frame,
                   maxLen: nat, ms: seq<Match>)
    requires Searched(data, k, size, lo, at, all, path, f, maxLen) && (maxLen <= 3 || maxLen == Longest(ms))
    requires |path| <= cutValue && (Live(lo, f.x) ==> |path| == cutValue)
    ensures SearchOk(data, at, k, cutValue, all, path, ms)
    ensures |all| <= cutValue ==> !Live(lo, f.x)
  {
    hide Common, Elems;
    if Live(lo, f.x) {
      SearchedMore(data, k, size, lo, at, all, path, f, maxLen);
    } else {
      SearchedAll(data, k, size, lo, at, all, path, f, maxLen);
    }
  }

  /** Nothing agrees in more bytes than are compared. */
  lemma LimitCovers(data: seq<bv8>, k: nat, size: nat, lo: int, at: nat, cutValue: nat, all: set<int>, path: set<int>, f: Frame,
                    maxLen: nat, ms: seq<Match>)
    requires Searched(data, k, size, lo, at, all, path, f, maxLen) && Live(lo, f.x) && |path| < cutValue
    requires (forall y :: y in all ==> 0 <= y < at) && (k <= 3 || k == Longest(ms))
    ensures SearchOk(data, at, k, cutValue, all, path + {f.x}, ms)
  {
    assert f.x in Elems(f.kids, size, lo, f.x);
  }

  lemma TrailOne(data: seq<bv8>, k: nat, size: nat, lo: int, at: nat, f: Frame)
    ensures Trail(data, k, size, lo, at, [f])
  {
  }

  lemma TrailGrows(data: seq<bv8>, k: nat, size: nat, lo: int, at: nat, trail: seq<Frame>, g: Frame)
    requires trail != [] && Trail(data, k, size, lo, at, trail) && Follows(data, k, size, lo, at, trail[|trail| - 1], g)
    ensures Trail(data, k, size, lo, at, trail + [g])
  {
    hide Follows;
  }

  /** Both pointers cleared: what is below is dropped. */
  lemma Emptied(data: seq<bv8>, k: nat, size: nat, lo: int, at: nat, f: Frame, son: seq<nat>, base: int)
    requires FrameReady(data, k, size, lo, at, f) && f.kids == Kids(son, base) && |son| == 2 * size
    ensures f.ptr0 < |son| && f.ptr1 < |son|
    ensures FrameApart(data, k, size, lo, at, f, Kids(son[f.ptr0 := 0][f.ptr1 := 0], base))
    ensures !Live(lo, f.x) ==> FrameComplete(data, k, size, lo, at, f, Kids(son[f.ptr0 := 0][f.ptr1 := 0], base))
  {
    hide Ready, Apart, Kids, Complete;
    UnfoldReady(data, k, size, lo, at, f);
    var son1: seq<nat> := son[f.ptr0 := 0];
    KidsUpdate(son, f.ptr0, 0, base);
    KidsUpdate(son1, f.ptr1, 0, base);
    CutOff(data, k, f.kids, Kids(son1[f.ptr1 := 0], base), size, lo, at, f.x, f.ptr0, f.ptr1, f.len0, f.len1);
  }

  /** The pair of the position reached is not where the parts are attached. */
  lemma PairIsElsewhere(data: seq<bv8>, k: nat, size: nat, lo: int, at: nat, f: Frame)
    requires FrameReady(data, k, size, lo, at, f) && Live(lo, f.x)
    ensures size > 0
    ensures var p := 2 * (f.x % size); f.ptr0 != p && f.ptr0 != p + 1 && f.ptr1 != p && f.ptr1 != p + 1 && p + 1 < 2 * size
  {
    hide Ordered;
    var xs := Elems(f.kids, size, lo, f.x);
    assert f.x in xs;
    NotInPair(xs, size, f.x, f.ptr0);
    NotInPair(xs, size, f.x, f.ptr1);
  }

  /** A position that agrees in every byte compared hands its children over. */
  lemma TakenOver(data: seq<bv8>, k: nat, size: nat, lo: int, at: nat, f: Frame, son: seq<nat>, base: int, pair: nat)
    requires FrameReady(data, k, size, lo, at, f) && f.kids == Kids(son, base) && |son| == 2 * size
    requires Live(lo, f.x) && size > 0 && pair == 2 * (f.x % size) && f.x < at && at + k <= |data| && Common(data, f.x, at, k) == k
    ensures f.ptr0 < |son| && f.ptr1 < |son| && pair + 1 < |son| && f.ptr1 != pair + 1
    ensures FrameApart(data, k, size, lo, at, f, Kids(son[f.ptr1 := son[pair]][f.ptr0 := son[pair + 1]], base))
    ensures FrameComplete(data, k, size, lo, at, f, Kids(son[f.ptr1 := son[pair]][f.ptr0 := son[pair + 1]], base))
  {
    hide Ready, Apart, Kids, Common, Complete;
    UnfoldReady(data, k, size, lo, at, f);
    PairIsElsewhere(data, k, size, lo, at, f);
    KidsLength(son, base);
    var son1: seq<nat> := son[f.ptr1 := son[pair]];
    KidsUpdate(son, f.ptr1, son[pair], base);
    KidsUpdate(son1, f.ptr0, son[pair + 1], base);
    Replaced(data, k, f.kids, Kids(son1[f.ptr0 := son[pair + 1]], base), size, lo, at, f.x, f.ptr0, f.ptr1, f.len0, f.len1);
  }

  /** One step down, right or left, with the position reached attached to its part. */
  lemma Descends(data: seq<bv8>, k: nat, size: nat, lo: int, at: nat, f: Frame, son: seq<nat>, base: int, cur: nat, pair: nat, right: bool)
    returns (g: Frame)
    requires FrameReady(data, k, size, lo, at, f) && f.kids == Kids(son, base) && |son| == 2 * size
    requires Live(lo, f.x) && size > 0 && pair == 2 * (f.x % size) && f.x == IndexOf(cur, base) && f.x < at && at + k <= |data|
    requires if right then LE(data, f.x, at, k) else LE(data, at, f.x, k)
    ensures f.ptr0 < |son| && f.ptr1 < |son| && pair + 1 < |son| && f.ptr1 != pair + 1 && f.ptr0 != pair
    ensures Follows(data, k, size, lo, at, f, g)
    ensures var n := Common(data, f.x, at, k);
            g == if right then Frame(Kids(son[f.ptr1 := cur], base), IndexOf(son[pair + 1], base), f.ptr0, pair + 1, f.len0, n)
                 else Frame(Kids(son[f.ptr0 := cur], base), IndexOf(son[pair], base), pair, f.ptr1, n, f.len1)
  {
    hide Ready, Kids, Common, LE;
    UnfoldReady(data, k, size, lo, at, f);
    PairIsElsewhere(data, k, size, lo, at, f);
    KidsLength(son, base);
    var n := Common(data, f.x, at, k);
    if right {
      KidsUpdate(son, f.ptr1, cur, base);
      g := Frame(f.kids[f.ptr1 := f.x], Right(f.kids, size, f.x), f.ptr0, pair + 1, f.len0, n);
    } else {
      KidsUpdate(son, f.ptr0, cur, base);
      g := Frame(f.kids[f.ptr0 := f.x], Left(f.kids, size, f.x), pair, f.ptr1, n, f.len1);
    }
  }

  lemma KidsLength(son: seq<nat>, base: int)
    ensures |Kids(son, base)| == |son|
    ensures forall i :: 0 <= i < |son| ==> Kids(son, base)[i] == IndexOf(son[i], base)
  {
  }
}

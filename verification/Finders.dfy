/**
 * CMatchFinder of EMdF/lzma_emdros.cpp in both its modes: `son` holds hash chains
 * (Hc4) or, in btMode, search trees (Bt4). Positions, limits, rebasing and the
 * hash tables are common to both.
 */
module Finders {
  import opened Hashes
  import opened MatchTree
  import opened MatchForest
  import opened MatchFinder
  import opened Latest

  /** The roots of all trees, from the part of the hash table for four bytes. */
  ghost function Roots(hash: seq<nat>, base: int): seq<int>
    requires |hash| >= FIX4
  {
    Kids(hash[FIX4..], base)
  }

  /** The circular position is that of the byte at hand; it may be one round behind at the very end of the array. */
  predicate Placed(cyclicPos: nat, size: nat, at: nat)
    requires size > 0
  {
    at % size == if cyclicPos == size then 0 else cyclicPos
  }

  /** What `son` holds in either mode. */
  ghost predicate LinksOk(bt: bool, crc: Crc, data: seq<bv8>, order: nat, hash: seq<nat>, son: seq<nat>, size: nat, cyclicPos: nat,
                          pos: nat, base: int, at: nat, hashMask: nat, inserted: set<int>)
  {
    size > 0 && |hash| == FIX4 + hashMask + 1 &&
    if bt then
      |son| == 2 * size && Placed(cyclicPos, size, at) &&
      ForestOk(crc, data, order, Kids(son, base), size, at, hashMask, Roots(hash, base))
    else
      |son| == size && SonOk(son, cyclicPos, pos, base, inserted)
  }

  lemma ModNext(at: nat, size: nat)
    requires size > 0
    ensures (at + 1) % size == if at % size + 1 == size then 0 else at % size + 1
  {
    var q, c := at / size, at % size;
    assert at == size * q + c;
    if c + 1 == size {
      Distribute(size, q, -1);
      ModIs(at + 1, size, q + 1, 0);
    } else {
      ModIs(at + 1, size, q, c + 1);
    }
  }

  /** Moving over a position that is not inserted. */
  lemma LinksSkipped(bt: bool, crc: Crc, data: seq<bv8>, order: nat, hash: seq<nat>, son: seq<nat>, size: nat, cyclicPos: nat,
                     pos: nat, base: int, at: nat, hashMask: nat, inserted: set<int>)
    requires LinksOk(bt, crc, data, order, hash, son, size, cyclicPos, pos, base, at, hashMask, inserted)
    requires at == pos + base && at !in inserted && cyclicPos < size
    ensures LinksOk(bt, crc, data, order, hash, son, size, cyclicPos + 1, pos + 1, base, at + 1, hashMask, inserted)
  {
    hide ForestOk, SonOk;
    if bt {
      ModNext(at, size);
      ForestWeaker(crc, data, order, order, Kids(son, base), size, at, at + 1, hashMask, Roots(hash, base));
    } else {
      SonSkipped(son, cyclicPos, pos, base, inserted);
    }
  }

  lemma LinksWrap(bt: bool, crc: Crc, data: seq<bv8>, order: nat, hash: seq<nat>, son: seq<nat>, size: nat,
                  pos: nat, base: int, at: nat, hashMask: nat, inserted: set<int>)
    requires LinksOk(bt, crc, data, order, hash, son, size, size, pos, base, at, hashMask, inserted)
    ensures LinksOk(bt, crc, data, order, hash, son, size, 0, pos, base, at, hashMask, inserted)
  {
    hide ForestOk, SonOk;
    if !bt { SonWraps(son, pos, base, inserted); }
  }

  /** A rebased entry stands for the same byte, or for none where it had left the window. */
  lemma KidsRebased(items: seq<nat>, items': seq<nat>, base: int, sub: nat, lo: int)
    requires |items'| == |items| && forall i :: 0 <= i < |items| ==> items'[i] == Rebased(items[i], sub)
    requires sub + base <= lo
    ensures Forgets(Kids(items, base), Kids(items', base + sub), lo)
  {
    forall i | 0 <= i < |items|
      ensures Kids(items', base + sub)[i] == Kids(items, base)[i]
              || (Kids(items', base + sub)[i] == -1 && (Kids(items, base)[i] <= lo || Kids(items, base)[i] < 0))
    {
      assert Kids(items', base + sub)[i] == IndexOf(items'[i], base + sub) && Kids(items, base)[i] == IndexOf(items[i], base);
    }
  }

  lemma LinksRebased(bt: bool, crc: Crc, data: seq<bv8>, order: nat, hash: seq<nat>, hash': seq<nat>, son: seq<nat>, son': seq<nat>,
                     size: nat, cyclicPos: nat, pos: nat, base: int, at: nat, hashMask: nat, inserted: set<int>, sub: nat)
    requires LinksOk(bt, crc, data, order, hash, son, size, cyclicPos, pos, base, at, hashMask, inserted)
    requires at == pos + base && sub + size <= pos && sub < pos && order <= |data|
    requires |hash'| == |hash| && forall i :: 0 <= i < |hash| ==> hash'[i] == Rebased(hash[i], sub)
    requires |son'| == |son| && forall i :: 0 <= i < |son| ==> son'[i] == Rebased(son[i], sub)
    ensures LinksOk(bt, crc, data, order, hash', son', size, cyclicPos, pos - sub, base + sub, at, hashMask, inserted)
  {
    hide ForestOk, SonOk;
    if bt {
      KidsRebased(son, son', base, sub, at - size);
      KidsRebased(hash[FIX4..], hash'[FIX4..], base, sub, at - size);
      ForestForgets(crc, data, order, Kids(son, base), Kids(son', base + sub), size, at, hashMask, Roots(hash, base), Roots(hash', base + sub));
    } else {
      SonRebased(son, son', cyclicPos, pos, base, inserted, sub);
    }
  }

  lemma LinksEmpty(bt: bool, crc: Crc, data: seq<bv8>, order: nat, hash: seq<nat>, son: seq<nat>, size: nat, base: int, hashMask: nat)
    requires size > 0 && |hash| == FIX4 + hashMask + 1 && (forall i :: 0 <= i < |hash| ==> hash[i] == 0)
    requires |son| == (if bt then 2 * size else size) && order <= |data| && base + size == 0
    ensures LinksOk(bt, crc, data, order, hash, son, size, 0, size, base, 0, hashMask, {})
  {
    if bt {
      var roots := Roots(hash, base);
      forall i | 0 <= i < |roots| ensures roots[i] == -1 { assert hash[FIX4..][i] == 0; }
      EmptyForest(crc, data, order, Kids(son, base), size, 0, hashMask, roots);
    }
  }

  /** The tree of the current position's hash, taken apart around it, with the new head written. */
  lemma TreeInserted(crc: Crc, data: seq<bv8>, order: nat, hash: seq<nat>, hash': seq<nat>, son: seq<nat>, son': seq<nat>, size: nat,
                     cyclicPos: nat, pos: nat, base: int, at: nat, hashMask: nat, inserted: set<int>, now: set<int>)
    requires LinksOk(true, crc, data, order, hash, son, size, cyclicPos, pos, base, at, hashMask, inserted)
    requires at == pos + base && cyclicPos < size && pos > 0 && at + order <= |data| && at + 4 <= |data| && |son'| == |son|
    requires var i4 := Index4(crc, data, at, hashMask);
             |hash'| == |hash| && hash'[i4] == pos && (forall i :: FIX4 <= i < |hash| && i != i4 ==> hash'[i] == hash[i])
             && Apart(data, order, Kids(son, base), Kids(son', base), size, at - size, at, IndexOf(hash[i4], base), 2 * cyclicPos + 1, 2 * cyclicPos)
    ensures LinksOk(true, crc, data, order, hash', son', size, cyclicPos + 1, pos + 1, base, at + 1, hashMask, now)
  {
    hide ForestOk, Apart, Index4;
    var i := Index4(crc, data, at, hashMask) - FIX4;
    var roots, roots' := Roots(hash, base), Roots(hash', base);
    KidsLength(hash[FIX4..], base);
    KidsLength(hash'[FIX4..], base);
    assert roots' == roots[i := at];
    ModNext(at, size);
    ForestInserted(crc, data, order, Kids(son, base), Kids(son', base), size, at, hashMask, roots, i);
  }

  /** The search of the tree at the current position's hash can begin. */
  lemma TreeReady(crc: Crc, data: seq<bv8>, order: nat, hash: seq<nat>, son: seq<nat>, size: nat, cyclicPos: nat,
                  pos: nat, base: int, at: nat, hashMask: nat, inserted: set<int>)
    requires LinksOk(true, crc, data, order, hash, son, size, cyclicPos, pos, base, at, hashMask, inserted)
    requires cyclicPos < size && at + order <= |data| && at + 4 <= |data|
    ensures Ready(data, order, Kids(son, base), size, at - size, at, IndexOf(hash[Index4(crc, data, at, hashMask)], base),
                  2 * cyclicPos + 1, 2 * cyclicPos, 0, 0)
  {
    hide RootOk, Ready, Index4;
    var i := Index4(crc, data, at, hashMask) - FIX4;
    KidsLength(hash[FIX4..], base);
    assert Roots(hash, base)[i] == IndexOf(hash[FIX4 + i], base);
    RootReady(crc, data, order, Kids(son, base), size, at, hashMask, Roots(hash, base)[i], FIX4 + i);
  }

  lemma ChainInserted(crc: Crc, data: seq<bv8>, order: nat, hash: seq<nat>, hash': seq<nat>, son: seq<nat>, son': seq<nat>, size: nat,
                      cyclicPos: nat, pos: nat, base: int, at: nat, hashMask: nat, inserted: set<int>, link: nat)
    requires LinksOk(false, crc, data, order, hash, son, size, cyclicPos, pos, base, at, hashMask, inserted)
    requires at == pos + base && cyclicPos < size && RefOk(link, pos, base, inserted) && |hash'| == |hash| && son' == son[cyclicPos := link]
    ensures LinksOk(false, crc, data, order, hash', son', size, cyclicPos + 1, pos + 1, base, at + 1, hashMask, inserted + {at})
    ensures SonOk(son', cyclicPos, pos, base, inserted)
  {
    hide SonOk;
    SonInserted(son, son', cyclicPos, pos, base, inserted, link);
    SonPending(son, son', cyclicPos, pos, base, inserted, link);
  }

  lemma LinksShorter(bt: bool, crc: Crc, data: seq<bv8>, order: nat, order': nat, hash: seq<nat>, son: seq<nat>, size: nat, cyclicPos: nat,
                     pos: nat, base: int, at: nat, hashMask: nat, inserted: set<int>)
    requires LinksOk(bt, crc, data, order, hash, son, size, cyclicPos, pos, base, at, hashMask, inserted) && order' <= order
    ensures LinksOk(bt, crc, data, order', hash, son, size, cyclicPos, pos, base, at, hashMask, inserted)
  {
    hide ForestOk, SonOk;
    if bt { ForestWeaker(crc, data, order, order', Kids(son, base), size, at, at, hashMask, Roots(hash, base)); }
  }

  /* ---------- nothing is lost ---------- */

  /** Every position with four bytes behind it has been inserted. */
  ghost predicate AllInserted(data: seq<bv8>, at: nat, matchMaxLen: nat, inserted: set<int>) {
    matchMaxLen >= 4 ==> forall x :: 0 <= x < at && x + 4 <= |data| ==> x in inserted
  }

  /** The tables lead to every inserted position of the window, in a tree unless searches were cut. */
  ghost predicate FullOk(bt: bool, crc: Crc, data: seq<bv8>, order: nat, hash: seq<nat>, son: seq<nat>, size: nat, cyclicPos: nat,
                         base: int, at: nat, hashMask: nat, cutValue: nat, inserted: set<int>)
  {
    size > 0 && |hash| == FIX4 + hashMask + 1 && HeadsFull(crc, data, hashMask, hash, base, at, size, inserted) &&
    if bt then
      |son| == 2 * size && ForestFull(crc, data, order, Kids(son, base), size, at, hashMask, cutValue, inserted, Roots(hash, base))
    else
      |son| == size && ChainFull(crc, data, hashMask, son, cyclicPos, base, at, inserted)
  }

  lemma FullSkipped(bt: bool, crc: Crc, data: seq<bv8>, order: nat, hash: seq<nat>, son: seq<nat>, size: nat, cyclicPos: nat,
                    pos: nat, base: int, at: nat, hashMask: nat, cutValue: nat, inserted: set<int>)
    requires LinksOk(bt, crc, data, order, hash, son, size, cyclicPos, pos, base, at, hashMask, inserted)
    requires FullOk(bt, crc, data, order, hash, son, size, cyclicPos, base, at, hashMask, cutValue, inserted)
    requires InsertedOk(inserted, at, |data|) && cyclicPos < size
    ensures FullOk(bt, crc, data, order, hash, son, size, cyclicPos + 1, base, at + 1, hashMask, cutValue, inserted)
  {
    hide ForestOk, ForestFull, SonOk, HeadsFull, ChainFull;
    HeadsSkipped(crc, data, hashMask, hash, base, at, size, inserted);
    if bt {
      ForestFullWeaker(crc, data, order, order, Kids(son, base), size, at, at + 1, hashMask, cutValue, inserted, Roots(hash, base));
    } else {
      ChainSkipped(crc, data, hashMask, son, cyclicPos, base, at, inserted);
    }
  }

  lemma FullWraps(bt: bool, crc: Crc, data: seq<bv8>, order: nat, hash: seq<nat>, son: seq<nat>, size: nat,
                  base: int, at: nat, hashMask: nat, cutValue: nat, inserted: set<int>)
    requires FullOk(bt, crc, data, order, hash, son, size, size, base, at, hashMask, cutValue, inserted)
    ensures FullOk(bt, crc, data, order, hash, son, size, 0, base, at, hashMask, cutValue, inserted)
  {
    hide ForestFull, HeadsFull, ChainFull;
    if !bt { ChainWraps(crc, data, hashMask, son, base, at, inserted); }
  }

  lemma FullRebased(bt: bool, crc: Crc, data: seq<bv8>, order: nat, hash: seq<nat>, hash': seq<nat>, son: seq<nat>, son': seq<nat>,
                    size: nat, cyclicPos: nat, pos: nat, base: int, at: nat, hashMask: nat, cutValue: nat, inserted: set<int>, sub: nat)
    requires LinksOk(bt, crc, data, order, hash, son, size, cyclicPos, pos, base, at, hashMask, inserted)
    requires FullOk(bt, crc, data, order, hash, son, size, cyclicPos, base, at, hashMask, cutValue, inserted)
    requires at == pos + base && sub + size <= pos && order <= |data|
    requires |hash'| == |hash| && forall i :: 0 <= i < |hash| ==> hash'[i] == Rebased(hash[i], sub)
    requires |son'| == |son| && forall i :: 0 <= i < |son| ==> son'[i] == Rebased(son[i], sub)
    ensures FullOk(bt, crc, data, order, hash', son', size, cyclicPos, base + sub, at, hashMask, cutValue, inserted)
  {
    hide ForestOk, ForestFull, SonOk, HeadsFull, ChainFull;
    HeadsRebased(crc, data, hashMask, hash, hash', base, at, size, inserted, sub);
    if bt {
      KidsRebased(son, son', base, sub, at - size);
      KidsRebased(hash[FIX4..], hash'[FIX4..], base, sub, at - size);
      ForestFullForgets(crc, data, order, Kids(son, base), Kids(son', base + sub), size, at, hashMask, cutValue, inserted,
                        Roots(hash, base), Roots(hash', base + sub));
    } else {
      ChainRebased(crc, data, hashMask, son, son', cyclicPos, base, at, inserted, sub);
    }
  }

  lemma FullEmpty(bt: bool, crc: Crc, data: seq<bv8>, order: nat, hash: seq<nat>, son: seq<nat>, size: nat, base: int, hashMask: nat,
                  cutValue: nat)
    requires size > 0 && |hash| == FIX4 + hashMask + 1 && (forall i :: 0 <= i < |hash| ==> hash[i] == 0)
    requires |son| == if bt then 2 * size else size
    ensures FullOk(bt, crc, data, order, hash, son, size, 0, base, 0, hashMask, cutValue, {})
  {
    if bt { EmptyFull(crc, data, order, Kids(son, base), size, 0, hashMask, cutValue, Roots(hash, base)); }
  }

  lemma FullShorter(bt: bool, crc: Crc, data: seq<bv8>, order: nat, order': nat, hash: seq<nat>, son: seq<nat>, size: nat, cyclicPos: nat,
                    pos: nat, base: int, at: nat, hashMask: nat, cutValue: nat, inserted: set<int>)
    requires LinksOk(bt, crc, data, order, hash, son, size, cyclicPos, pos, base, at, hashMask, inserted) && order' <= order
    requires FullOk(bt, crc, data, order, hash, son, size, cyclicPos, base, at, hashMask, cutValue, inserted)
    requires InsertedOk(inserted, at, |data|)
    ensures FullOk(bt, crc, data, order', hash, son, size, cyclicPos, base, at, hashMask, cutValue, inserted)
  {
    hide ForestOk, ForestFull, SonOk, HeadsFull, ChainFull;
    if bt { ForestFullWeaker(crc, data, order, order', Kids(son, base), size, at, at, hashMask, cutValue, inserted, Roots(hash, base)); }
  }

  lemma TreeFullInserted(crc: Crc, data: seq<bv8>, order: nat, hash: seq<nat>, hash': seq<nat>, son: seq<nat>, son': seq<nat>, size: nat,
                         cyclicPos: nat, pos: nat, base: int, at: nat, hashMask: nat, cutValue: nat, inserted: set<int>)
    requires LinksOk(true, crc, data, order, hash, son, size, cyclicPos, pos, base, at, hashMask, inserted)
    requires FullOk(true, crc, data, order, hash, son, size, cyclicPos, base, at, hashMask, cutValue, inserted)
    requires at == pos + base && cyclicPos < size && pos > 0 && at + order <= |data| && at + 4 <= |data| && |son'| == |son|
    requires InsertedOk(inserted, at, |data|) && HeadsFull(crc, data, hashMask, hash', base, at + 1, size, inserted + {at})
    requires var i4 := Index4(crc, data, at, hashMask);
             |hash'| == |hash| && hash'[i4] == pos && (forall i :: FIX4 <= i < |hash| && i != i4 ==> hash'[i] == hash[i])
             && Apart(data, order, Kids(son, base), Kids(son', base), size, at - size, at, IndexOf(hash[i4], base), 2 * cyclicPos + 1, 2 * cyclicPos)
             && (|Elems(Kids(son, base), size, at - size, IndexOf(hash[i4], base))| <= cutValue ==>
                   Complete(data, order, Kids(son, base), Kids(son', base), size, at - size, at, IndexOf(hash[i4], base), 2 * cyclicPos + 1, 2 * cyclicPos))
    ensures FullOk(true, crc, data, order, hash', son', size, cyclicPos + 1, base, at + 1, hashMask, cutValue, inserted + {at})
  {
    hide ForestOk, ForestFull, HeadsFull, Apart, Complete, Index4;
    var i := Index4(crc, data, at, hashMask) - FIX4;
    var roots, roots' := Roots(hash, base), Roots(hash', base);
    KidsLength(hash[FIX4..], base);
    KidsLength(hash'[FIX4..], base);
    assert roots' == roots[i := at];
    ForestFullInserted(crc, data, order, Kids(son, base), Kids(son', base), size, at, hashMask, cutValue, inserted, roots, i);
  }

  lemma ChainFullInserted(crc: Crc, data: seq<bv8>, order: nat, hash: seq<nat>, hash': seq<nat>, son: seq<nat>, son': seq<nat>, size: nat,
                          cyclicPos: nat, base: int, at: nat, hashMask: nat, cutValue: nat, inserted: set<int>, link: nat)
    requires FullOk(false, crc, data, order, hash, son, size, cyclicPos, base, at, hashMask, cutValue, inserted)
    requires cyclicPos < size && at + 4 <= |data| && |hash'| == |hash| && son' == son[cyclicPos := link]
    requires InsertedOk(inserted, at, |data|) && HeadsFull(crc, data, hashMask, hash', base, at + 1, size, inserted + {at})
    requires Leads(crc, data, hashMask, link, Index4(crc, data, at, hashMask), base, at, size, inserted, at)
    ensures FullOk(false, crc, data, order, hash', son', size, cyclicPos + 1, base, at + 1, hashMask, cutValue, inserted + {at})
    ensures ChainFull(crc, data, hashMask, son', cyclicPos, base, at, inserted)
  {
    hide HeadsFull, ChainFull, Leads, Index4;
    ChainGrows(crc, data, hashMask, son, son', cyclicPos, base, at, inserted, link);
  }

  /* ---------- what is found ---------- */

  /** In the window, and the latest position with the two-byte hash or with the three-byte hash. */
  ghost predicate IsShortCandidate(crc: Crc, data: seq<bv8>, hashMask: nat, at: nat, size: nat, z: nat) {
    at + 4 <= |data| && z < at && at - z < size &&
    (IsLatest(crc, data, hashMask, at, Index2(crc, data, at), z) || IsLatest(crc, data, hashMask, at, Index3(crc, data, at), z))
  }

  /** The latest position with the two-byte hash, or with the three-byte hash: what is reported is at least as long as its repetition. */
  ghost predicate ShortFound(crc: Crc, data: seq<bv8>, hashMask: nat, at: nat, size: nat, limit: nat, ms: seq<Match>) {
    at + 4 <= |data| && at + limit <= |data| &&
    forall z: nat :: IsShortCandidate(crc, data, hashMask, at, size, z) ==> Common(data, z, at, limit) <= Longest(ms)
  }

  /** The chain: likewise for the cutValue latest positions of the window with the four-byte hash. */
  ghost predicate ChainFound(crc: Crc, data: seq<bv8>, hashMask: nat, at: nat, size: nat, cutValue: nat, limit: nat, ms: seq<Match>) {
    at + 4 <= |data| &&
    var h := Index4(crc, data, at, hashMask);
    forall z: nat :: z < at && at - z < size && Member(crc, data, hashMask, z, h) ==>
      |Positions(crc, data, hashMask, h, z, at)| <= cutValue ==> Covered(data, at, limit, z, ms)
  }

  /**
   * The tree: likewise for the latest position with the four-byte hash, and for every one in the window
   * as long as no window has held more than cutValue of them.
   */
  ghost predicate TreeFound(crc: Crc, data: seq<bv8>, hashMask: nat, at: nat, size: nat, cutValue: nat, limit: nat, ms: seq<Match>) {
    at + 4 <= |data| &&
    var h := Index4(crc, data, at, hashMask);
    forall z: nat :: z < at && at - z < size && Member(crc, data, hashMask, z, h) ==>
      (cutValue > 0 && IsLatest(crc, data, hashMask, at, h, z)) || Uncrowded(crc, data, hashMask, size, cutValue, h, at + 1) ==>
        Covered(data, at, limit, z, ms)
  }

  /** The latest inserted position is the latest position. */
  lemma LatestIs(crc: Crc, data: seq<bv8>, hashMask: nat, v: nat, i: nat, pos: nat, base: int, at: nat, size: nat, matchMaxLen: nat,
                 inserted: set<int>, z: nat)
    requires at == pos + base && Leads(crc, data, hashMask, v, i, base, at, size, inserted, at) && matchMaxLen >= 4
    requires AllInserted(data, at, matchMaxLen, inserted) && at - z < size && IsLatest(crc, data, hashMask, at, i, z)
    ensures v != 0 && v + base == z && pos - v == at - z
  {
    assert z in inserted;
  }

  /** Three bytes in common: the same two- and three-byte hash. */
  lemma SameIndices(crc: Crc, data: seq<bv8>, hashMask: nat, a: nat, b: nat)
    requires a + 4 <= |data| && b + 4 <= |data| && data[a] == data[b] && data[a + 1] == data[b + 1]
    ensures HasIndex(crc, data, hashMask, a, Index2(crc, data, b))
    ensures data[a + 2] == data[b + 2] ==> HasIndex(crc, data, hashMask, a, Index3(crc, data, b))
  {
  }

  lemma FirstThree(data: seq<bv8>, a: nat, b: nat, k: nat)
    requires a + k <= |data| && b + k <= |data| && Common(data, a, b, k) >= 3
    ensures data[a] == data[b] && data[a + 1] == data[b + 1] && data[a + 2] == data[b + 2]
  {
    assert Common(data, a + 1, b + 1, k - 1) >= 2;
    assert Common(data, a + 2, b + 2, k - 2) >= 1;
  }

  /** A later two-byte candidate than the three-byte one has only two bytes in common. */
  lemma TwoIsShorter(crc: Crc, data: seq<bv8>, hashMask: nat, v2: nat, v3: nat, pos: nat, base: int, at: nat, size: nat, matchMaxLen: nat,
                     inserted: set<int>, limit: nat)
    requires at == pos + base && at + 4 <= |data| && at + limit <= |data| && matchMaxLen >= 4 && AllInserted(data, at, matchMaxLen, inserted)
    requires Leads(crc, data, hashMask, v2, Index2(crc, data, at), base, at, size, inserted, at) && v2 != 0 && pos - v2 < size
    requires Leads(crc, data, hashMask, v3, Index3(crc, data, at), base, at, size, inserted, at) && v3 != 0 && pos - v3 < size
    requires v2 != v3 && data[v3 + base] == data[at]
    ensures Common(data, v2 + base, at, limit) < 3
  {
    hide Index2, Index3;
    var z2, z3 := v2 + base, v3 + base;
    Index3Tells(crc, data, at, z3);
    SameIndices(crc, data, hashMask, z3, at);
    if Common(data, z2, at, limit) >= 3 {
      FirstThree(data, z2, at, limit);
      SameIndices(crc, data, hashMask, z2, at);
    }
  }

  lemma ShortIsFound(crc: Crc, data: seq<bv8>, hashMask: nat, v2: nat, v3: nat, pos: nat, base: int, at: nat, size: nat, matchMaxLen: nat,
                     inserted: set<int>, limit: nat, ms: seq<Match>)
    requires at == pos + base && size <= pos && at + 4 <= |data| && at + limit <= |data| && matchMaxLen >= 4 && v2 < pos && v3 < pos
    requires AllInserted(data, at, matchMaxLen, inserted)
    requires Leads(crc, data, hashMask, v2, Index2(crc, data, at), base, at, size, inserted, at)
    requires Leads(crc, data, hashMask, v3, Index3(crc, data, at), base, at, size, inserted, at)
    requires pos - v3 < size ==> pos - v3 <= at && Common(data, at - (pos - v3), at, limit) <= Longest(ms)
    requires pos - v2 < size ==> pos - v2 <= at
    requires pos - v2 < size && Common(data, at - (pos - v2), at, limit) > Longest(ms) ==>
               pos - v3 < size && data[at - (pos - v3)] == data[at] && v3 != v2 && Longest(ms) >= 3
    ensures ShortFound(crc, data, hashMask, at, size, limit, ms)
  {
    hide Leads, IsLatest, Index2, Index3, Common, AllInserted;
    forall z: nat | IsShortCandidate(crc, data, hashMask, at, size, z)
      ensures Common(data, z, at, limit) <= Longest(ms)
    {
      if IsLatest(crc, data, hashMask, at, Index3(crc, data, at), z) {
        LatestIs(crc, data, hashMask, v3, Index3(crc, data, at), pos, base, at, size, matchMaxLen, inserted, z);
      } else {
        LatestIs(crc, data, hashMask, v2, Index2(crc, data, at), pos, base, at, size, matchMaxLen, inserted, z);
        if Common(data, z, at, limit) > Longest(ms) {
          TwoIsShorter(crc, data, hashMask, v2, v3, pos, base, at, size, matchMaxLen, inserted, limit);
        }
      }
    }
  }

  lemma ShortStays(crc: Crc, data: seq<bv8>, hashMask: nat, at: nat, size: nat, limit: nat, ms: seq<Match>, ms': seq<Match>)
    requires ShortFound(crc, data, hashMask, at, size, limit, ms) && Longest(ms) <= Longest(ms')
    ensures ShortFound(crc, data, hashMask, at, size, limit, ms')
  {
    hide IsShortCandidate, Common;
  }

  /* ---------- following a chain ---------- */

  /** `seen` are the inserted positions of hash h from `below` on; none agrees in more than maxLen bytes. */
  ghost predicate Seen(crc: Crc, data: seq<bv8>, hashMask: nat, h: nat, at: nat, size: nat, limit: nat, inserted: set<int>,
                       seen: set<int>, below: int, maxLen: nat)
  {
    at + limit <= |data| && below <= at && at - below < size &&
    (forall z :: z in seen ==> below <= z < at && 0 <= z && Member(crc, data, hashMask, z, h) && Common(data, z, at, limit) <= maxLen) &&
    forall z :: z in inserted && below <= z < at && Member(crc, data, hashMask, z, h) ==> z in seen
  }

  ghost predicate ChainCovers(crc: Crc, data: seq<bv8>, hashMask: nat, at: nat, size: nat, cutValue: nat, limit: nat, inserted: set<int>,
                              ms: seq<Match>)
  {
    at + 4 <= |data| &&
    var h := Index4(crc, data, at, hashMask);
    forall z: nat :: z in inserted && z < at && at - z < size && Member(crc, data, hashMask, z, h) ==>
      |Positions(crc, data, hashMask, h, z, at)| <= cutValue ==> Covered(data, at, limit, z, ms)
  }

  /** A position of the chain that is inside the window, and its link. */
  lemma Linked(son: seq<nat>, cyclicPos: nat, pos: nat, base: int, at: nat, size: nat, end: nat, inserted: set<int>, cur: nat)
    requires SonOk(son, cyclicPos, pos, base, inserted) && RefOk(cur, pos, base, inserted) && InsertedOk(inserted, at, end)
    requires at == pos + base && size == |son| <= pos && pos - cur < size
    ensures cur != 0 && cur + base in inserted && 0 < pos - cur <= at
    ensures var s := Slot(cyclicPos, size, pos - cur); 0 <= s < size && RefOk(son[s], pos, base, inserted)
  {
    assert LinkOk(son, cyclicPos, pos, base, inserted, cur);
  }

  lemma SeenNone(crc: Crc, data: seq<bv8>, hashMask: nat, h: nat, at: nat, size: nat, limit: nat, inserted: set<int>, maxLen: nat)
    requires at + limit <= |data| && size > 0
    ensures Seen(crc, data, hashMask, h, at, size, limit, inserted, {}, at, maxLen)
  {
  }

  /** One position down the chain. */
  lemma SeenNext(crc: Crc, data: seq<bv8>, hashMask: nat, h: nat, at: nat, size: nat, limit: nat, inserted: set<int>, seen: set<int>,
                 below: int, maxLen: nat, maxLen': nat, cur: nat, pos: nat, base: int)
    requires Seen(crc, data, hashMask, h, at, size, limit, inserted, seen, below, maxLen) && maxLen <= maxLen' && at == pos + base
    requires Leads(crc, data, hashMask, cur, h, base, at, size, inserted, below) && cur != 0 && pos - cur < size && h >= FIX4
    requires 0 <= cur + base < at && Common(data, cur + base, at, limit) <= maxLen'
    ensures Seen(crc, data, hashMask, h, at, size, limit, inserted, seen + {cur + base}, cur + base, maxLen') && cur + base !in seen
  {
    hide Common, Index2, Index3, Index4;
  }

  /** The next link of the chain. */
  lemma NextLeads(crc: Crc, data: seq<bv8>, hashMask: nat, son: seq<nat>, cyclicPos: nat, base: int, at: nat, inserted: set<int>, h: nat,
                  cur: nat, pos: nat, below: int)
    requires ChainFull(crc, data, hashMask, son, cyclicPos, base, at, inserted) && at == pos + base && h >= FIX4
    requires Leads(crc, data, hashMask, cur, h, base, at, |son|, inserted, below) && cur != 0 && 0 < pos - cur < |son|
    ensures 0 <= Slot(cyclicPos, |son|, pos - cur) < |son|
    ensures Leads(crc, data, hashMask, son[Slot(cyclicPos, |son|, pos - cur)], h, base, at, |son|, inserted, cur + base)
  {
    hide Index2, Index3, Index4;
    assert LinkFull(crc, data, hashMask, son, cyclicPos, base, at, inserted, cur + base);
  }

  /** A position with the hash that has not been seen is older than all those seen. */
  lemma SeenEnough(crc: Crc, data: seq<bv8>, hashMask: nat, h: nat, at: nat, size: nat, cutValue: nat, limit: nat, inserted: set<int>,
                   seen: set<int>, below: int, maxLen: nat, ms: seq<Match>)
    requires Seen(crc, data, hashMask, h, at, size, limit, inserted, seen, below, maxLen) && |seen| == cutValue && at + 4 <= |data|
    requires h == Index4(crc, data, at, hashMask) && (maxLen == 3 || maxLen == Longest(ms))
    ensures ChainCovers(crc, data, hashMask, at, size, cutValue, limit, inserted, ms)
  {
    hide Common, Index4;
    forall z: nat | z in inserted && z < at && at - z < size && Member(crc, data, hashMask, z, h)
      ensures |Positions(crc, data, hashMask, h, z, at)| <= cutValue ==> Covered(data, at, limit, z, ms)
    {
      if z < below { MoreThanSeen(crc, data, hashMask, h, at, size, limit, inserted, seen, below, maxLen, z); }
    }
  }

  lemma MoreThanSeen(crc: Crc, data: seq<bv8>, hashMask: nat, h: nat, at: nat, size: nat, limit: nat, inserted: set<int>,
                     seen: set<int>, below: int, maxLen: nat, z: nat)
    requires Seen(crc, data, hashMask, h, at, size, limit, inserted, seen, below, maxLen)
    requires z < below && Member(crc, data, hashMask, z, h)
    ensures |Positions(crc, data, hashMask, h, z, at)| > |seen|
  {
    hide Common, Member;
    var ps := Positions(crc, data, hashMask, h, z, at);
    assert ps == (seen + {z as int}) + (ps - seen - {z as int});
  }

  /** Where the chain ends, everything of the window has been seen. */
  lemma SeenAll(crc: Crc, data: seq<bv8>, hashMask: nat, h: nat, at: nat, size: nat, cutValue: nat, limit: nat, inserted: set<int>,
                seen: set<int>, below: int, maxLen: nat, cur: nat, pos: nat, base: int, ms: seq<Match>)
    requires Seen(crc, data, hashMask, h, at, size, limit, inserted, seen, below, maxLen) && at + 4 <= |data| && at == pos + base
    requires Leads(crc, data, hashMask, cur, h, base, at, size, inserted, below) && pos - cur >= size && h >= FIX4
    requires h == Index4(crc, data, at, hashMask) && (maxLen == 3 || maxLen == Longest(ms))
    ensures ChainCovers(crc, data, hashMask, at, size, cutValue, limit, inserted, ms)
  {
    hide Common, Index2, Index3, Index4, Positions;
    forall z: nat | z in inserted && z < at && at - z < size && Member(crc, data, hashMask, z, h)
        && |Positions(crc, data, hashMask, h, z, at)| <= cutValue
      ensures Covered(data, at, limit, z, ms)
    {
      NoneOlder(crc, data, hashMask, h, at, size, inserted, below, cur, pos, base, z);
    }
  }

  lemma NoneOlder(crc: Crc, data: seq<bv8>, hashMask: nat, h: nat, at: nat, size: nat, inserted: set<int>, below: int, cur: nat, pos: nat,
                  base: int, z: nat)
    requires Leads(crc, data, hashMask, cur, h, base, at, size, inserted, below) && pos - cur >= size && at == pos + base && h >= FIX4
    requires z in inserted && at - z < size && Member(crc, data, hashMask, z, h)
    ensures z >= below
  {
    hide Index2, Index3, Index4;
  }

  /** The longest possible answer is long enough for all. */
  lemma LimitReached(crc: Crc, data: seq<bv8>, hashMask: nat, at: nat, size: nat, cutValue: nat, limit: nat, inserted: set<int>, ms: seq<Match>)
    requires at + 4 <= |data| && at + limit <= |data| && Longest(ms) == limit
    ensures ChainCovers(crc, data, hashMask, at, size, cutValue, limit, inserted, ms)
  {
    hide Positions, Member;
  }

  lemma ChainIsFound(crc: Crc, data: seq<bv8>, hashMask: nat, at: nat, size: nat, cutValue: nat, limit: nat, matchMaxLen: nat,
                     inserted: set<int>, ms: seq<Match>)
    requires ChainCovers(crc, data, hashMask, at, size, cutValue, limit, inserted, ms)
    requires matchMaxLen >= 4 && AllInserted(data, at, matchMaxLen, inserted)
    ensures ChainFound(crc, data, hashMask, at, size, cutValue, limit, ms)
  {
    hide Positions, Covered;
  }

  lemma ByteDiffers(data: seq<bv8>, x: nat, at: nat, limit: nat, n: nat)
    requires x + limit <= |data| && at + limit <= |data| && n < limit && (data[x + n] != data[at + n] || data[x] != data[at])
    ensures Common(data, x, at, limit) <= n
  {
    hide Common;
    if data[x] != data[at] {
      NoneInCommon(data, x, at, limit);
    } else if Common(data, x, at, limit) > n {
      CommonAt(data, x, at, limit, n);
    }
  }

  lemma {:induction false} CommonAt(data: seq<bv8>, a: nat, b: nat, k: nat, n: nat)
    requires a + k <= |data| && b + k <= |data| && n < Common(data, a, b, k)
    ensures data[a + n] == data[b + n]
    decreases k
  {
    if n > 0 { CommonAt(data, a + 1, b + 1, k - 1, n - 1); }
  }

  /** One turn of the chain: what is longer than all before is added. */
  method ChainVisit(data: seq<bv8>, size: nat, at: nat, delta: nat, limit: nat, maxLen0: nat, found: seq<Match>)
    returns (maxLen: nat, ms: seq<Match>)
    requires 1 <= delta <= at && delta < size && at + limit <= |data| && 3 <= maxLen0 < limit
    requires MatchesOk(data, at, size, limit, found) && (found != [] ==> found[|found| - 1].len <= maxLen0)
    ensures MatchesOk(data, at, size, limit, ms) && found <= ms && (ms != [] ==> ms[|ms| - 1].len <= maxLen)
    ensures maxLen0 <= maxLen <= limit && Common(data, at - delta, at, limit) <= maxLen && Longest(found) <= Longest(ms)
    ensures if maxLen == maxLen0 then ms == found else maxLen == Longest(ms)
  {
    hide Common, Genuine;
    maxLen, ms := maxLen0, found;
    if data[at - delta + maxLen] == data[at + maxLen] && data[at - delta] == data[at] {
      var len := ExtendFirst(data, at, delta, limit);
      if maxLen < len {
        MatchesSnoc(data, at, size, limit, ms, Match(len, delta - 1));
        ms := ms + [Match(len, delta - 1)];
        maxLen := len;
      }
    } else {
      ByteDiffers(data, at - delta, at, limit, maxLen);
    }
  }

  method ExtendFirst(data: seq<bv8>, at: nat, delta: nat, limit: nat) returns (len: nat)
    requires 1 <= delta <= at && 1 <= limit && at + limit <= |data| && data[at - delta] == data[at]
    ensures 1 <= len <= limit && Genuine(data, at, len, delta - 1) && len == Common(data, at - delta, at, limit)
  {
    len := Extend(data, at, delta, 1, limit);
    ExtendIs(data, at, delta, limit, len);
  }

  /* ---------- searching a tree ---------- */

  lemma TreeLimit(crc: Crc, data: seq<bv8>, hashMask: nat, at: nat, size: nat, cutValue: nat, limit: nat, ms: seq<Match>)
    requires at + 4 <= |data| && at + limit <= |data| && Longest(ms) == limit
    ensures TreeFound(crc, data, hashMask, at, size, cutValue, limit, ms)
  {
    hide Uncrowded, IsLatest, Member;
  }

  lemma TreeIsFound(crc: Crc, data: seq<bv8>, order: nat, hash: seq<nat>, son: seq<nat>, size: nat, cyclicPos: nat, pos: nat, base: int, at: nat,
                    hashMask: nat, cutValue: nat, matchMaxLen: nat, inserted: set<int>, v4: nat, path: set<int>, ms: seq<Match>)
    requires LinksOk(true, crc, data, order, hash, son, size, cyclicPos, pos, base, at, hashMask, inserted)
    requires FullOk(true, crc, data, order, hash, son, size, cyclicPos, base, at, hashMask, cutValue, inserted)
    requires at == pos + base && size <= pos && at + order <= |data| && at + 4 <= |data| && matchMaxLen >= 4
    requires AllInserted(data, at, matchMaxLen, inserted) && v4 == hash[Index4(crc, data, at, hashMask)]
    requires var all := Elems(Kids(son, base), size, at - size, IndexOf(v4, base));
             SearchOk(data, at, order, cutValue, all, path, ms)
             && (cutValue > 0 && Live(at - size, IndexOf(v4, base)) ==> IndexOf(v4, base) in path)
    ensures TreeFound(crc, data, hashMask, at, size, cutValue, order, ms)
  {
    hide Index4, Elems, Common, Uncrowded, IsLatest, Represented, HeadsFull, ForestOk, ForestFull, AllInserted, SearchOk, Member;
    var h := Index4(crc, data, at, hashMask);
    forall z: nat | z < at && at - z < size && Member(crc, data, hashMask, z, h)
      ensures cutValue > 0 && IsLatest(crc, data, hashMask, at, h, z) ==> Covered(data, at, order, z, ms)
      ensures Uncrowded(crc, data, hashMask, size, cutValue, h, at + 1) ==> Covered(data, at, order, z, ms)
    {
      if cutValue > 0 && IsLatest(crc, data, hashMask, at, h, z) {
        LatestCovered(crc, data, order, hash, son, size, pos, base, at, hashMask, cutValue, matchMaxLen, inserted, v4, path, ms, z);
      }
      if Uncrowded(crc, data, hashMask, size, cutValue, h, at + 1) {
        WindowCovered(crc, data, order, hash, son, size, cyclicPos, pos, base, at, hashMask, cutValue, matchMaxLen, inserted, path, ms, z);
      }
    }
  }

  /** The root is the latest position of its hash. */
  lemma LatestCovered(crc: Crc, data: seq<bv8>, order: nat, hash: seq<nat>, son: seq<nat>, size: nat, pos: nat, base: int, at: nat,
                      hashMask: nat, cutValue: nat, matchMaxLen: nat, inserted: set<int>, v4: nat, path: set<int>, ms: seq<Match>, z: nat)
    requires |hash| == FIX4 + hashMask + 1 && HeadsFull(crc, data, hashMask, hash, base, at, size, inserted)
    requires size > 0 && |son| == 2 * size && at == pos + base && size <= pos && at + 4 <= |data| && matchMaxLen >= 4 && cutValue > 0
    requires AllInserted(data, at, matchMaxLen, inserted) && v4 == hash[Index4(crc, data, at, hashMask)]
    requires var all := Elems(Kids(son, base), size, at - size, IndexOf(v4, base));
             SearchOk(data, at, order, cutValue, all, path, ms)
             && (Live(at - size, IndexOf(v4, base)) ==> IndexOf(v4, base) in path)
    requires z < at && at - z < size && IsLatest(crc, data, hashMask, at, Index4(crc, data, at, hashMask), z)
    ensures Covered(data, at, order, z, ms)
  {
    hide Index4, Elems, Common, IsLatest, Leads, AllInserted, Covered;
    var h := Index4(crc, data, at, hashMask);
    assert Leads(crc, data, hashMask, hash[h], h, base, at, size, inserted, at);
    LatestIs(crc, data, hashMask, v4, h, pos, base, at, size, matchMaxLen, inserted, z);
  }

  /** Every position of the window, when the search has seen the whole tree and the tree is whole. */
  lemma WindowCovered(crc: Crc, data: seq<bv8>, order: nat, hash: seq<nat>, son: seq<nat>, size: nat, cyclicPos: nat, pos: nat, base: int, at: nat,
                      hashMask: nat, cutValue: nat, matchMaxLen: nat, inserted: set<int>, path: set<int>, ms: seq<Match>, z: nat)
    requires LinksOk(true, crc, data, order, hash, son, size, cyclicPos, pos, base, at, hashMask, inserted)
    requires FullOk(true, crc, data, order, hash, son, size, cyclicPos, base, at, hashMask, cutValue, inserted)
    requires at + order <= |data| && at + 4 <= |data| && matchMaxLen >= 4 && AllInserted(data, at, matchMaxLen, inserted)
    requires SearchOk(data, at, order, cutValue,
                      Elems(Kids(son, base), size, at - size, IndexOf(hash[Index4(crc, data, at, hashMask)], base)), path, ms)
    requires z < at && at - z < size && Member(crc, data, hashMask, z, Index4(crc, data, at, hashMask))
    requires Uncrowded(crc, data, hashMask, size, cutValue, Index4(crc, data, at, hashMask), at + 1)
    ensures Covered(data, at, order, z, ms)
  {
    hide Index4, Elems, Common, Represented, HeadsFull, Ordered, Positions;
    var h := Index4(crc, data, at, hashMask);
    var i := h - FIX4;
    var roots := Roots(hash, base);
    KidsLength(hash[FIX4..], base);
    assert roots[i] == IndexOf(hash[h], base);
    assert RootOk(crc, data, order, Kids(son, base), size, at, hashMask, roots[i], FIX4 + i);
    assert RootFull(crc, data, order, Kids(son, base), size, at, hashMask, cutValue, inserted, roots[i], FIX4 + i);
    var all := Elems(Kids(son, base), size, at - size, roots[i]);
    FewElems(crc, data, order, Kids(son, base), size, at, hashMask, cutValue, roots[i], h);
    assert z in inserted && Represented(data, order, all, z);
    AllCovered(data, order, all, at, z, ms);
  }

  lemma AllCovered(data: seq<bv8>, k: nat, es: set<int>, at: nat, z: nat, ms: seq<Match>)
    requires at + k <= |data| && z < at && Represented(data, k, es, z) && forall y :: y in es ==> Covered(data, at, k, y, ms)
    ensures Covered(data, at, k, z, ms)
  {
    hide Common;
    RepresentedCovered(data, k, es, at, z, if Longest(ms) > 3 then Longest(ms) else 3);
  }

  /* ---------- the greatest length ---------- */

  /** The last length reported is the greatest any position of the window has in common, when that is more than three bytes. */
  ghost predicate Greatest(data: seq<bv8>, at: nat, size: nat, limit: nat, ms: seq<Match>) {
    at + limit <= |data| &&
    (forall z: nat :: z < at && at - z < size ==> Covered(data, at, limit, z, ms)) &&
    (ms != [] ==> exists z: nat :: z < at && at - z < size && Common(data, z, at, limit) >= Longest(ms))
  }

  /** Four bytes in common: the same four-byte hash. */
  lemma SameHash(crc: Crc, data: seq<bv8>, hashMask: nat, z: nat, at: nat, limit: nat)
    requires z < at && at + 4 <= |data| && at + limit <= |data| && Common(data, z, at, limit) > 3
    ensures Member(crc, data, hashMask, z, Index4(crc, data, at, hashMask))
  {
    FirstThree(data, z, at, limit);
    CommonAt(data, z, at, limit, 3);
  }

  /** A reported length is that of a true repetition. */
  lemma LastIsReached(data: seq<bv8>, at: nat, size: nat, limit: nat, ms: seq<Match>)
    requires MatchesOk(data, at, size, limit, ms) && ms != [] && at + limit <= |data|
    ensures exists z: nat :: z < at && at - z < size && Common(data, z, at, limit) >= Longest(ms)
  {
    hide Genuine, Common, Same;
    var m := ms[|ms| - 1];
    GenuineInside(data, at, m.len, m.dist);
    var z: nat := at - m.dist - 1;
    SameIsGenuine(data, z, at, m.len);
    SameIsCommon(data, z, at, m.len, limit);
  }

  /** The chain finds the greatest length when the window holds no more than cutValue positions of the hash ... */
  lemma ChainIsGreatest(crc: Crc, data: seq<bv8>, hashMask: nat, at: nat, size: nat, cutValue: nat, limit: nat, ms: seq<Match>)
    requires MatchesOk(data, at, size, limit, ms) && at + limit <= |data|
    requires ChainFound(crc, data, hashMask, at, size, cutValue, limit, ms)
    requires |Positions(crc, data, hashMask, Index4(crc, data, at, hashMask), at - size + 1, at)| <= cutValue
    ensures Greatest(data, at, size, limit, ms)
  {
    hide Common, Index4, MatchesOk, Member;
    var h := Index4(crc, data, at, hashMask);
    forall z: nat | z < at && at - z < size ensures Covered(data, at, limit, z, ms) {
      if Common(data, z, at, limit) > 3 {
        SameHash(crc, data, hashMask, z, at, limit);
        var ps, all := Positions(crc, data, hashMask, h, z, at), Positions(crc, data, hashMask, h, at - size + 1, at);
        assert all == ps + (all - ps);
      }
    }
    if ms != [] { LastIsReached(data, at, size, limit, ms); }
  }

  /** ... and the tree when no window before has either. */
  lemma TreeIsGreatest(crc: Crc, data: seq<bv8>, hashMask: nat, at: nat, size: nat, cutValue: nat, limit: nat, ms: seq<Match>)
    requires MatchesOk(data, at, size, limit, ms) && at + limit <= |data|
    requires TreeFound(crc, data, hashMask, at, size, cutValue, limit, ms)
    requires Uncrowded(crc, data, hashMask, size, cutValue, Index4(crc, data, at, hashMask), at + 1)
    ensures Greatest(data, at, size, limit, ms)
  {
    hide Common, Index4, MatchesOk, Member, Uncrowded, IsLatest;
    forall z: nat | z < at && at - z < size ensures Covered(data, at, limit, z, ms) {
      if Common(data, z, at, limit) > 3 { SameHash(crc, data, hashMask, z, at, limit); }
    }
    if ms != [] { LastIsReached(data, at, size, limit, ms); }
  }

  class Finder {
    const bt: bool
    const crc: Crc
    const data: seq<bv8>
    const hash: array<nat>
    const son: array<nat>
    const size: nat          // cyclicBufferSize
    const hashMask: nat
    const matchMaxLen: nat
    const keepSizeAfter: nat
    const cutValue: nat
    var pos: nat
    var posLimit: nat
    var cyclicPos: nat
    var lenLimit: nat
    var at: nat              // p->buffer, as an index into the stream
    var avail: nat           // streamPos - pos
    var streamEnd: bool
    ghost var base: int
    ghost var inserted: set<int>
    ghost var order: nat     // how many bytes the trees are ordered by

    /** Sizes, and where the buffer pointer is. */
    ghost predicate Shape()
      reads this
    {
      hash != son && hash.Length == FIX4 + hashMask + 1 && son.Length == (if bt then 2 * size else size) &&
      2 <= size <= MAX_POS - NORMALIZE_STEP && matchMaxLen <= keepSizeAfter && size <= pos <= MAX_POS && cyclicPos <= size &&
      at == pos + base && at + avail <= |data| && order <= |data|
    }

    ghost predicate Links()
      reads this, hash, son
    {
      LinksOk(bt, crc, data, order, hash[..], son[..], size, cyclicPos, pos, base, at, hashMask, inserted)
    }

    /** Nothing of the window is lost. */
    ghost predicate Full()
      reads this, hash, son
    {
      FullOk(bt, crc, data, order, hash[..], son[..], size, cyclicPos, base, at, hashMask, cutValue, inserted)
    }

    ghost predicate Sound()
      reads this, hash, son
    {
      Shape() && InsertedOk(inserted, at, |data|) && HashOk(crc, data, hash[..], pos, base, inserted) && Links()
      && Full() && AllInserted(data, at, matchMaxLen, inserted)
    }

    /** No comparison will ever need more bytes than the trees are ordered by. */
    ghost predicate Capped()
      reads this
    {
      avail <= order || matchMaxLen <= order
    }

    /** Up to posLimit no limit is met: of 32-bit positions, of the circular array, of the bytes read. */
    ghost predicate Limits()
      reads this
    {
      cyclicPos < size && lenLimit == (if avail > matchMaxLen then matchMaxLen else avail) && Capped() &&
      (avail > 0 ==> pos < posLimit <= MAX_POS && posLimit - pos <= size - cyclicPos
                     && lenLimit + (posLimit - pos - 1) <= avail
                     && (!streamEnd ==> keepSizeAfter + (posLimit - pos) <= avail))
    }

    ghost predicate Valid()
      reads this, hash, son
    {
      Sound() && Limits() && Fed()
    }

    /** Mf_Init; the part of the array behind the hash tables is not initialised. */
    constructor (bt: bool, crc: Crc, data: seq<bv8>, historySize: nat, hashMask: nat, matchMaxLen: nat, keepAddAfter: nat,
                 cutValue: nat, read: nat -> nat)
      requires 1 <= historySize < MAX_POS - NORMALIZE_STEP
      ensures Valid() && at == 0 && fresh(hash) && fresh(son)
      ensures this.bt == bt && this.data == data && size == historySize + 1 && this.matchMaxLen == matchMaxLen
      ensures this.crc == crc && this.hashMask == hashMask && this.cutValue == cutValue
      ensures keepSizeAfter == matchMaxLen + keepAddAfter
    {
      this.bt, this.crc, this.data, this.hashMask, this.matchMaxLen := bt, crc, data, hashMask, matchMaxLen;
      this.keepSizeAfter, this.cutValue, size := matchMaxLen + keepAddAfter, cutValue, historySize + 1;
      hash := new nat[FIX4 + hashMask + 1](_ => 0);
      son := new nat[if bt then 2 * (historySize + 1) else historySize + 1];
      cyclicPos, pos, at := 0, historySize + 1, 0;
      avail, streamEnd := 0, false;
      base, inserted, order := -(historySize + 1), {}, 0;
      new;
      ReadBlock(read);
      order := avail;
      LinksEmpty(bt, crc, data, order, hash[..], son[..], size, base, hashMask);
      FullEmpty(bt, crc, data, order, hash[..], son[..], size, base, hashMask, cutValue);
      SetLimits();
    }

    /** Whatever sizes the reads have, more than keepSizeAfter bytes are ahead, or all there are. */
    ghost predicate Fed()
      reads this
    {
      if streamEnd then at + avail == |data| else avail > keepSizeAfter
    }

    /** Mf_ReadBlock: read(n) + 1 bytes, or what is left, come when n are there; the end is noticed by a read that brings nothing. */
    method ReadBlock(read: nat -> nat)
      requires at + avail <= |data| && (streamEnd ==> Fed())
      modifies this`avail, this`streamEnd
      ensures at + avail <= |data| && avail >= old(avail) && Fed()
    {
      if streamEnd { return; }
      while true
        invariant at + avail <= |data| && avail >= old(avail) && !streamEnd
        decreases |data| - avail
      {
        var left := |data| - at - avail;
        var n := if read(at + avail) < left then read(at + avail) + 1 else left;
        if n == 0 {
          streamEnd := true;
          return;
        }
        avail := avail + n;
        if avail > keepSizeAfter { return; }
      }
    }

    /** How far matches go does not depend on how the input was read. */
    lemma LenLimitIs()
      requires Valid()
      ensures lenLimit == if |data| - at < matchMaxLen then |data| - at else matchMaxLen
      ensures avail == 0 <==> at == |data|
    {
    }

    /** Mf_SetLimits. */
    method SetLimits()
      requires Sound() && Capped() && Fed() && pos < MAX_POS && cyclicPos < size
      modifies this`posLimit, this`lenLimit
      ensures Valid()
    {
      hide HashOk, LinksOk, FullOk, AllInserted;
      var limit := MAX_POS - pos;
      var limit2 := size - cyclicPos;
      if limit2 < limit { limit := limit2; }
      limit2 := avail;
      if limit2 <= keepSizeAfter {
        if limit2 > 0 { limit2 := 1; }
      } else {
        limit2 := limit2 - keepSizeAfter;
      }
      if limit2 < limit { limit := limit2; }
      lenLimit := if avail > matchMaxLen then matchMaxLen else avail;
      posLimit := pos + limit;
    }

    /** Mf_Normalize: rebase everything by a multiple of 1024 that leaves the window intact. */
    method Normalize()
      requires Sound() && pos == posLimit == MAX_POS
      modifies this`pos, this`posLimit, this`base, hash, son
      ensures Sound() && pos < MAX_POS && at == old(at) && old(pos) - pos == base - old(base) >= NORMALIZE_STEP
      ensures SameDistances(old(hash[..]), hash[..], old(pos), pos, size)
      ensures SameDistances(old(son[..]), son[..], old(pos), pos, size)
    {
      hide HashOk, LinksOk, SameDistances, FullOk, AllInserted;
      var x := pos - (size - 1) - 1;
      var sub := x - x % NORMALIZE_STEP;
      NormalizeItems(sub, hash);
      NormalizeItems(sub, son);
      ItemsRebased(old(hash[..]), hash[..], pos, size, sub);
      ItemsRebased(old(son[..]), son[..], pos, size, sub);
      HashRebased(crc, data, old(hash[..]), hash[..], pos, base, inserted, sub);
      LinksRebased(bt, crc, data, order, old(hash[..]), hash[..], old(son[..]), son[..], size, cyclicPos, pos, base, at, hashMask, inserted, sub);
      FullRebased(bt, crc, data, order, old(hash[..]), hash[..], old(son[..]), son[..], size, cyclicPos, pos, base, at, hashMask, cutValue,
                  inserted, sub);
      posLimit := posLimit - sub;
      pos := pos - sub;
      base := base + sub;
    }

    /** Mf_CheckLimits. */
    method CheckLimits(read: nat -> nat)
      requires Sound() && Capped() && pos == posLimit && (if streamEnd then Fed() else keepSizeAfter <= avail)
      modifies this`pos, this`posLimit, this`base, this`cyclicPos, this`lenLimit, this`avail, this`streamEnd, hash, son
      ensures Valid() && at == old(at) && avail >= old(avail)
    {
      hide HashOk, LinksOk, FullOk, AllInserted;
      if pos == MAX_POS { Normalize(); }
      if !streamEnd && keepSizeAfter == avail {
        ReadBlock(read);
      }
      if cyclicPos == size {
        LinksWrap(bt, crc, data, order, hash[..], son[..], size, pos, base, at, hashMask, inserted);
        FullWraps(bt, crc, data, order, hash[..], son[..], size, base, at, hashMask, cutValue, inserted);
        cyclicPos := 0;
      }
      SetLimits();
    }

    /** MOVE_POS, after the tables have been brought up to the next position. */
    method MovePos(read: nat -> nat, ghost now: set<int>)
      requires Shape() && Limits() && Fed() && avail > 0
      requires InsertedOk(now, at + 1, |data|)
      requires HashOk(crc, data, hash[..], pos + 1, base, now)
      requires LinksOk(bt, crc, data, order, hash[..], son[..], size, cyclicPos + 1, pos + 1, base, at + 1, hashMask, now)
      requires FullOk(bt, crc, data, order, hash[..], son[..], size, cyclicPos + 1, base, at + 1, hashMask, cutValue, now)
      requires AllInserted(data, at + 1, matchMaxLen, now)
      modifies this, hash, son
      ensures Valid() && at == old(at) + 1 && avail >= old(avail) - 1
    {
      hide HashOk, LinksOk, FullOk, AllInserted;
      inserted := now;
      cyclicPos := cyclicPos + 1;
      at := at + 1;
      avail := avail - 1;
      pos := pos + 1;
      if pos == posLimit { CheckLimits(read); }
    }

    /** Too few bytes for a hash: the position is passed without being inserted. */
    method PassOver(read: nat -> nat)
      requires Valid() && avail > 0 && lenLimit < 4
      modifies this, hash, son
      ensures Valid() && at == old(at) + 1 && avail >= old(avail) - 1
    {
      hide HashOk, LinksOk, FullOk;
      LenLimitIs();
      HashStays(crc, data, hash[..], pos, base, inserted, at);
      FullSkipped(bt, crc, data, order, hash[..], son[..], size, cyclicPos, pos, base, at, hashMask, cutValue, inserted);
      LinksSkipped(bt, crc, data, order, hash[..], son[..], size, cyclicPos, pos, base, at, hashMask, inserted);
      MovePos(read, inserted);
    }

    /** The hash tables' part of a position: read the old heads, write the new ones. */
    method InsertHeads() returns (v2: nat, v3: nat, v4: nat, ghost now: set<int>)
      requires Valid() && lenLimit >= 4 && avail > 0
      modifies hash
      ensures RefOk(v2, pos, base, inserted) && RefOk(v3, pos, base, inserted) && RefOk(v4, pos, base, inserted)
      ensures at + 4 <= |data| && EntryOk(crc, data, Index2(crc, data, at), v2, base)
      ensures at + 4 <= |data| && EntryOk(crc, data, Index3(crc, data, at), v3, base)
      ensures now == inserted + {at} && InsertedOk(now, at + 1, |data|)
      ensures HashOk(crc, data, hash[..], pos + 1, base, now)
      ensures var i4 := Index4(crc, data, at, hashMask);
              i4 < hash.Length && v4 == old(hash[i4]) && hash[i4] == pos
              && forall i :: FIX4 <= i < hash.Length && i != i4 ==> hash[i] == old(hash[i])
      ensures Leads(crc, data, hashMask, v2, Index2(crc, data, at), base, at, size, inserted, at)
      ensures Leads(crc, data, hashMask, v3, Index3(crc, data, at), base, at, size, inserted, at)
      ensures Leads(crc, data, hashMask, v4, Index4(crc, data, at, hashMask), base, at, size, inserted, at)
      ensures HeadsFull(crc, data, hashMask, hash[..], base, at + 1, size, now)
    {
      hide LinksOk, Index2, Index3, Index4, AllInserted, Leads, ForestFull, ChainFull;
      var i2, i3, i4 := Index2(crc, data, at), Index3(crc, data, at), Index4(crc, data, at, hashMask);
      v2, v3, v4 := hash[i2], hash[i3], hash[i4];
      now := inserted + {at};
      ghost var h: seq<nat> := hash[..];
      HashStays(crc, data, h, pos, base, inserted, at);
      HashInserted(crc, data, h, i2, pos, base, now);
      ghost var h2: seq<nat> := h[i2 := pos];
      HashInserted(crc, data, h2, i3, pos, base, now);
      ghost var h3: seq<nat> := h2[i3 := pos];
      HashInserted(crc, data, h3, i4, pos, base, now);
      hash[i2] := pos;
      hash[i3] := pos;
      hash[i4] := pos;
      assert hash[..] == h3[i4 := pos];
      HeadsInserted(crc, data, hashMask, h, hash[..], base, pos, at, size, inserted);
    }

    /**
     * Hc_GetMatchesSpec: follow the chain, keep what is longer than all before. The positions compared are the
     * cutValue latest of the window with the four-byte hash.
     */
    method FollowChain(limit: nat, start: nat, shortest: nat, found: seq<Match>) returns (ms: seq<Match>)
      requires at == pos + base && size == son.Length <= pos && cyclicPos < size && InsertedOk(inserted, at, |data|)
      requires SonOk(son[..], cyclicPos, pos, base, inserted) && RefOk(start, pos, base, inserted)
      requires 3 <= shortest < limit && at + limit <= |data| && at + 4 <= |data|
      requires MatchesOk(data, at, size, limit, found)
      requires found != [] ==> found[|found| - 1].len <= shortest
      requires shortest == 3 || shortest == Longest(found)
      requires ChainFull(crc, data, hashMask, son[..], cyclicPos, base, at, inserted)
      requires Leads(crc, data, hashMask, start, Index4(crc, data, at, hashMask), base, at, size, inserted, at)
      ensures MatchesOk(data, at, size, limit, ms) && found <= ms && Longest(found) <= Longest(ms)
      ensures ChainCovers(crc, data, hashMask, at, size, cutValue, limit, inserted, ms)
    {
      hide Index4, ChainFull, MatchesOk, Genuine, Seen, Leads, Common, ChainCovers, SonOk, InsertedOk;
      ms := found;
      var cur: nat, cut, maxLen := start, cutValue, shortest;
      ghost var h, seen, below: int := Index4(crc, data, at, hashMask), {}, at;
      SeenNone(crc, data, hashMask, h, at, size, limit, inserted, maxLen);
      while true
        invariant RefOk(cur, pos, base, inserted) && 3 <= maxLen < limit && found <= ms
        invariant MatchesOk(data, at, size, limit, ms) && (ms != [] ==> ms[|ms| - 1].len <= maxLen)
        invariant Leads(crc, data, hashMask, cur, h, base, at, size, inserted, below) && 0 <= cut <= cutValue && |seen| == cutValue - cut
        invariant Seen(crc, data, hashMask, h, at, size, limit, inserted, seen, below, maxLen)
        invariant (maxLen == 3 || maxLen == Longest(ms)) && Longest(found) <= Longest(ms)
        decreases cut
      {
        var delta := pos - cur;
        if cut == 0 || delta >= size {
          if cut == 0 {
            SeenEnough(crc, data, hashMask, h, at, size, cutValue, limit, inserted, seen, below, maxLen, ms);
          } else {
            SeenAll(crc, data, hashMask, h, at, size, cutValue, limit, inserted, seen, below, maxLen, cur, pos, base, ms);
          }
          return;
        }
        cut := cut - 1;
        Linked(son[..], cyclicPos, pos, base, at, size, |data|, inserted, cur);
        var next := son[cyclicPos - delta + if delta > cyclicPos then size else 0];
        NextLeads(crc, data, hashMask, son[..], cyclicPos, base, at, inserted, h, cur, pos, below);
        ghost var maxLen0 := maxLen;
        maxLen, ms := ChainVisit(data, size, at, delta, limit, maxLen, ms);
        if maxLen == limit {
          LimitReached(crc, data, hashMask, at, size, cutValue, limit, inserted, ms);
          return;
        }
        SeenNext(crc, data, hashMask, h, at, size, limit, inserted, seen, below, maxLen0, maxLen, cur, pos, base);
        seen, below := seen + {cur + base}, cur + base;
        cur := next;
      }
    }

    /** What both GetMatches have in common: the heads, and the two- and three-byte candidates. */
    method Heads() returns (v4: nat, ms: seq<Match>, maxLen: nat, ghost now: set<int>)
      requires Valid() && lenLimit >= 4 && avail > 0
      modifies hash
      ensures RefOk(v4, pos, base, inserted) && at + 4 <= |data|
      ensures now == inserted + {at} && InsertedOk(now, at + 1, |data|)
      ensures HashOk(crc, data, hash[..], pos + 1, base, now)
      ensures var i4 := Index4(crc, data, at, hashMask);
              i4 < hash.Length && v4 == old(hash[i4]) && hash[i4] == pos
              && forall i :: FIX4 <= i < hash.Length && i != i4 ==> hash[i] == old(hash[i])
      ensures MatchesOk(data, at, size, lenLimit, ms) && 1 <= maxLen <= lenLimit
      ensures ms != [] ==> ms[|ms| - 1].len == maxLen
      ensures ms == [] ==> maxLen == 1
      ensures Leads(crc, data, hashMask, v4, Index4(crc, data, at, hashMask), base, at, size, inserted, at)
      ensures HeadsFull(crc, data, hashMask, hash[..], base, at + 1, size, now) && AllInserted(data, at + 1, matchMaxLen, now)
      ensures ShortFound(crc, data, hashMask, at, size, lenLimit, ms)
    {
      hide HashOk, LinksOk, Genuine, MatchesOk, Index2, Index3, Index4, EntryOk, FullOk, Leads, HeadsFull, Common, ShortFound;
      var v2, v3;
      v2, v3, v4, now := InsertHeads();
      ShortRef(crc, data, at, pos, base, size, inserted, v2);
      ShortRef(crc, data, at, pos, base, size, inserted, v3);
      ms, maxLen := ShortMatches(data, at, size, lenLimit, pos - v2, pos - v3);
      ShortIsFound(crc, data, hashMask, v2, v3, pos, base, at, size, matchMaxLen, inserted, lenLimit, ms);
    }

    /** Hc4_MatchFinder_GetMatches: every pair is a true repetition inside the window, the lengths ascend. */
    method HcGetMatches(read: nat -> nat) returns (ms: seq<Match>)
      requires Valid() && avail > 0 && !bt
      modifies this, hash, son
      ensures Valid() && at == old(at) + 1 && avail >= old(avail) - 1
      ensures MatchesOk(data, old(at), size, old(lenLimit), ms)
      // what must be found
      ensures old(lenLimit) >= 4 ==> ShortFound(crc, data, hashMask, old(at), size, old(lenLimit), ms)
      ensures old(lenLimit) >= 4 ==> ChainFound(crc, data, hashMask, old(at), size, cutValue, old(lenLimit), ms)
    {
      hide HashOk, SonOk, MatchesOk, Genuine, Index4, Leads, ChainFull, HeadsFull, AllInserted, ShortFound, ChainFound, ChainCovers;
      ms := [];
      if lenLimit < 4 {
        NoMatches(data, at, size, lenLimit);
        PassOver(read);
        return;
      }
      ghost var h, s := hash[..], son[..];
      ghost var now;
      var v4, maxLen;
      v4, ms, maxLen, now := Heads();
      son[cyclicPos] := v4;
      ChainInserted(crc, data, order, h, hash[..], s, son[..], size, cyclicPos, pos, base, at, hashMask, inserted, v4);
      ChainFullInserted(crc, data, order, h, hash[..], s, son[..], size, cyclicPos, base, at, hashMask, cutValue, inserted, v4);
      ghost var short := ms;
      if ms == [] || maxLen != lenLimit {
        if maxLen < 3 { maxLen := 3; }
        ms := FollowChain(lenLimit, v4, maxLen, ms);
      } else {
        LimitReached(crc, data, hashMask, at, size, cutValue, lenLimit, inserted, ms);
      }
      ShortStays(crc, data, hashMask, at, size, lenLimit, short, ms);
      ChainIsFound(crc, data, hashMask, at, size, cutValue, lenLimit, matchMaxLen, inserted, ms);
      MovePos(read, now);
    }

    /** The trees from now on only need to be ordered by what can still be compared. */
    method Shorten()
      requires Valid() && lenLimit >= 1
      modifies this`order
      ensures Valid() && order == lenLimit
    {
      hide HashOk, LinksOk, FullOk, AllInserted;
      FullShorter(bt, crc, data, order, lenLimit, hash[..], son[..], size, cyclicPos, pos, base, at, hashMask, cutValue, inserted);
      LinksShorter(bt, crc, data, order, lenLimit, hash[..], son[..], size, cyclicPos, pos, base, at, hashMask, inserted);
      order := lenLimit;
    }

    /** Bt4_MatchFinder_GetMatches: the same, through the search trees. */
    method BtGetMatches(read: nat -> nat) returns (ms: seq<Match>)
      requires Valid() && avail > 0 && bt
      modifies this, hash, son
      ensures Valid() && at == old(at) + 1 && avail >= old(avail) - 1
      ensures MatchesOk(data, old(at), size, old(lenLimit), ms)
      // what must be found
      ensures old(lenLimit) >= 4 ==> ShortFound(crc, data, hashMask, old(at), size, old(lenLimit), ms)
      ensures old(lenLimit) >= 4 ==> TreeFound(crc, data, hashMask, old(at), size, cutValue, old(lenLimit), ms)
    {
      hide HashOk, LinksOk, MatchesOk, Ready, Apart, Index4, Kids, IndexOf, FullOk, Leads, HeadsFull, AllInserted, ShortFound, TreeFound,
        Complete, Elems, SearchOk, Live;
      ms := [];
      if lenLimit < 4 {
        NoMatches(data, at, size, lenLimit);
        PassOver(read);
        return;
      }
      Shorten();
      ghost var h, s := hash[..], son[..];
      TreeReady(crc, data, order, h, s, size, cyclicPos, pos, base, at, hashMask, inserted);
      ghost var now, path;
      var v4, maxLen;
      v4, ms, maxLen, now := Heads();
      ghost var short := ms;
      PlacedNow(cyclicPos, size, at, bt, crc, data, order, h, s, pos, base, hashMask, inserted);
      if ms != [] && maxLen == lenLimit {
        NoMatches(data, at, size, lenLimit);
        var skipped;
        skipped, path := SearchTree(data, son, size, pos, base, at, cyclicPos, lenLimit, cutValue, v4, 1, []);
        TreeLimit(crc, data, hashMask, at, size, cutValue, lenLimit, ms);
      } else {
        if maxLen < 3 { maxLen := 3; }
        ms, path := SearchTree(data, son, size, pos, base, at, cyclicPos, lenLimit, cutValue, v4, maxLen, ms);
        TreeIsFound(crc, data, order, h, s, size, cyclicPos, pos, base, at, hashMask, cutValue, matchMaxLen, inserted, v4, path, ms);
      }
      ShortStays(crc, data, hashMask, at, size, lenLimit, short, ms);
      TreeFullInserted(crc, data, order, h, hash[..], s, son[..], size, cyclicPos, pos, base, at, hashMask, cutValue, inserted);
      TreeInserted(crc, data, order, h, hash[..], s, son[..], size, cyclicPos, pos, base, at, hashMask, inserted, now);
      MovePos(read, now);
    }

    /** Hc4_MatchFinder_Skip and Bt4_MatchFinder_Skip: the same insertions, whatever they find. */
    method Skip(num: nat, read: nat -> nat)
      requires Valid() && 1 <= num <= avail
      modifies this, hash, son
      ensures Valid() && at == old(at) + num && avail >= old(avail) - num
    {
      hide HashOk, LinksOk, MatchesOk, FullOk, AllInserted, ShortFound, ChainFound, TreeFound;
      var left := num;
      while left != 0
        invariant Valid() && left <= num && at == old(at) + (num - left) && avail >= old(avail) - (num - left)
      {
        var found;
        if bt { found := BtGetMatches(read); } else { found := HcGetMatches(read); }
        left := left - 1;
      }
    }
  }

  lemma NoMatches(data: seq<bv8>, a: nat, window: nat, limit: nat)
    ensures MatchesOk(data, a, window, limit, [])
  {
  }

  lemma PlacedNow(cyclicPos: nat, size: nat, at: nat, bt: bool, crc: Crc, data: seq<bv8>, order: nat, hash: seq<nat>, son: seq<nat>,
                  pos: nat, base: int, hashMask: nat, inserted: set<int>)
    requires LinksOk(bt, crc, data, order, hash, son, size, cyclicPos, pos, base, at, hashMask, inserted) && bt && cyclicPos < size
    ensures cyclicPos == at % size
  {
  }

  /** What the short candidates may rely on. */
  lemma ShortRef(crc: Crc, data: seq<bv8>, at: nat, pos: nat, base: int, size: nat, inserted: set<int>, v: nat)
    requires at == pos + base && at + 4 <= |data| && size <= pos && pos > 0
    requires InsertedOk(inserted, at, |data|) && RefOk(v, pos, base, inserted)
    ensures v < pos && (pos - v < size ==> v != 0 && pos - v <= at)
    ensures pos - v < size && data[at - (pos - v)] == data[at] ==>
              (EntryOk(crc, data, Index2(crc, data, at), v, base) ==> Genuine(data, at, 2, pos - v - 1))
              && (EntryOk(crc, data, Index3(crc, data, at), v, base) ==> Genuine(data, at, 3, pos - v - 1))
  {
    hide EntryOk, Genuine, Index2, Index3;
    if pos - v < size && data[at - (pos - v)] == data[at] {
      ShortGenuine(crc, data, at, pos, base, v, pos - v);
    }
  }
}

/**
 * That the tables of the match finder lose nothing: every entry of the hash tables is the latest
 * inserted position with its hash, and every link of a chain the latest before its owner, as far
 * as the window goes.
 */
module Latest {
  import opened Hashes
  import opened MatchFinder

  /** v is the latest inserted position before `below` with entry i, or none of the window is. */
  ghost predicate Leads(crc: Crc, data: seq<bv8>, hashMask: nat, v: nat, i: nat, base: int, at: nat, size: nat, inserted: set<int>, below: int) {
    (v != 0 ==> HasIndex(crc, data, hashMask, v + base, i) && v + base < below && v + base in inserted) &&
    forall z :: z in inserted && z < below && at - z < size && HasIndex(crc, data, hashMask, z, i) ==> v != 0 && z <= v + base
  }

  ghost predicate HeadsFull(crc: Crc, data: seq<bv8>, hashMask: nat, hash: seq<nat>, base: int, at: nat, size: nat, inserted: set<int>) {
    forall i :: 0 <= i < |hash| ==> Leads(crc, data, hashMask, hash[i], i, base, at, size, inserted, at)
  }

  /** The link of position q. */
  ghost predicate LinkFull(crc: Crc, data: seq<bv8>, hashMask: nat, son: seq<nat>, cyclicPos: nat, base: int, at: nat,
                           inserted: set<int>, q: int)
    requires q < at
  {
    at - q < |son| && 0 <= q && q + 4 <= |data| ==>
      var s := Slot(cyclicPos, |son|, at - q);
      0 <= s < |son| && Leads(crc, data, hashMask, son[s], Index4(crc, data, q, hashMask), base, at, |son|, inserted, q)
  }

  ghost predicate ChainFull(crc: Crc, data: seq<bv8>, hashMask: nat, son: seq<nat>, cyclicPos: nat, base: int, at: nat, inserted: set<int>) {
    forall q :: q in inserted && q < at ==> LinkFull(crc, data, hashMask, son, cyclicPos, base, at, inserted, q)
  }

  /* ---------- the next position ---------- */

  /** Moving on without a new position of this entry below. */
  lemma LeadsStays(crc: Crc, data: seq<bv8>, hashMask: nat, v: nat, i: nat, base: int, at: nat, size: nat, inserted: set<int>, now: set<int>,
                   below: int, below': int)
    requires Leads(crc, data, hashMask, v, i, base, at, size, inserted, below) && inserted <= now && below <= below'
    requires forall z :: z in now && z < below' && HasIndex(crc, data, hashMask, z, i) ==> z in inserted && z < below
    ensures Leads(crc, data, hashMask, v, i, base, at + 1, size, now, below')
  {
    hide HasIndex;
  }

  /** The entries of a position not inserted stay. */
  lemma HeadsSkipped(crc: Crc, data: seq<bv8>, hashMask: nat, hash: seq<nat>, base: int, at: nat, size: nat, inserted: set<int>)
    requires HeadsFull(crc, data, hashMask, hash, base, at, size, inserted) && InsertedOk(inserted, at, |data|)
    ensures HeadsFull(crc, data, hashMask, hash, base, at + 1, size, inserted)
  {
    hide HasIndex, Leads;
    forall i | 0 <= i < |hash| ensures Leads(crc, data, hashMask, hash[i], i, base, at + 1, size, inserted, at + 1) {
      LeadsStays(crc, data, hashMask, hash[i], i, base, at, size, inserted, inserted, at, at + 1);
    }
  }

  /** Three entries lead to the new position, and the others stay. */
  lemma HeadsInserted(crc: Crc, data: seq<bv8>, hashMask: nat, hash: seq<nat>, hash': seq<nat>, base: int, pos: nat, at: nat, size: nat,
                      inserted: set<int>)
    requires HeadsFull(crc, data, hashMask, hash, base, at, size, inserted) && InsertedOk(inserted, at, |data|)
    requires pos != 0 && at == pos + base && |hash'| == |hash| && at + 4 <= |data|
    requires forall i :: 0 <= i < |hash| ==>
               hash'[i] == if i == Index2(crc, data, at) || i == Index3(crc, data, at) || i == Index4(crc, data, at, hashMask) then pos else hash[i]
    ensures HeadsFull(crc, data, hashMask, hash', base, at + 1, size, inserted + {at})
  {
    hide Leads, Index2, Index3, Index4;
    var now := inserted + {at as int};
    forall i | 0 <= i < |hash'| ensures Leads(crc, data, hashMask, hash'[i], i, base, at + 1, size, now, at + 1) {
      if HasIndex(crc, data, hashMask, at, i) {
        NewLeads(crc, data, hashMask, pos, i, base, at, size, inserted);
      } else {
        LeadsStays(crc, data, hashMask, hash[i], i, base, at, size, inserted, now, at, at + 1);
      }
    }
  }

  lemma NewLeads(crc: Crc, data: seq<bv8>, hashMask: nat, pos: nat, i: nat, base: int, at: nat, size: nat, inserted: set<int>)
    requires pos != 0 && at == pos + base && HasIndex(crc, data, hashMask, at, i)
    ensures Leads(crc, data, hashMask, pos, i, base, at + 1, size, inserted + {at}, at + 1)
  {
    hide HasIndex;
  }

  lemma LinkStays(crc: Crc, data: seq<bv8>, hashMask: nat, son: seq<nat>, son': seq<nat>, cyclicPos: nat, base: int, at: nat,
                  inserted: set<int>, now: set<int>, q: int)
    requires q < at && LinkFull(crc, data, hashMask, son, cyclicPos, base, at, inserted, q) && cyclicPos < |son|
    requires inserted <= now <= inserted + {at} && |son'| == |son| && forall i :: 0 <= i < |son| && i != cyclicPos ==> son'[i] == son[i]
    ensures LinkFull(crc, data, hashMask, son', cyclicPos + 1, base, at + 1, now, q)
    ensures LinkFull(crc, data, hashMask, son', cyclicPos, base, at, inserted, q)
  {
    hide Leads, Index4;
    if at - q < |son| && 0 <= q && q + 4 <= |data| {
      var s := Slot(cyclicPos, |son|, at - q);
      if at + 1 - q < |son| { SlotMoves(cyclicPos, |son|, at - q); }
      LeadsStays(crc, data, hashMask, son[s], Index4(crc, data, q, hashMask), base, at, |son|, inserted, now, q, q);
    }
  }

  lemma ChainSkipped(crc: Crc, data: seq<bv8>, hashMask: nat, son: seq<nat>, cyclicPos: nat, base: int, at: nat, inserted: set<int>)
    requires ChainFull(crc, data, hashMask, son, cyclicPos, base, at, inserted) && InsertedOk(inserted, at, |data|) && cyclicPos < |son|
    ensures ChainFull(crc, data, hashMask, son, cyclicPos + 1, base, at + 1, inserted)
  {
    hide LinkFull;
    forall q | q in inserted && q < at + 1 ensures LinkFull(crc, data, hashMask, son, cyclicPos + 1, base, at + 1, inserted, q) {
      LinkStays(crc, data, hashMask, son, son, cyclicPos, base, at, inserted, inserted, q);
    }
  }

  /** The link of the new position, before and after it is counted among the inserted. */
  lemma ChainGrows(crc: Crc, data: seq<bv8>, hashMask: nat, son: seq<nat>, son': seq<nat>, cyclicPos: nat, base: int, at: nat,
                   inserted: set<int>, link: nat)
    requires ChainFull(crc, data, hashMask, son, cyclicPos, base, at, inserted) && InsertedOk(inserted, at, |data|)
    requires cyclicPos < |son| && son' == son[cyclicPos := link] && at + 4 <= |data|
    requires Leads(crc, data, hashMask, link, Index4(crc, data, at, hashMask), base, at, |son|, inserted, at)
    ensures ChainFull(crc, data, hashMask, son', cyclicPos + 1, base, at + 1, inserted + {at})
    ensures ChainFull(crc, data, hashMask, son', cyclicPos, base, at, inserted)
  {
    hide LinkFull, Index4;
    var now := inserted + {at as int};
    forall q | q in now && q < at + 1 ensures LinkFull(crc, data, hashMask, son', cyclicPos + 1, base, at + 1, now, q) {
      if q == at {
        NewLink(crc, data, hashMask, son', cyclicPos, base, at, inserted);
      } else {
        LinkStays(crc, data, hashMask, son, son', cyclicPos, base, at, inserted, now, q);
      }
    }
    forall q | q in inserted && q < at ensures LinkFull(crc, data, hashMask, son', cyclicPos, base, at, inserted, q) {
      LinkStays(crc, data, hashMask, son, son', cyclicPos, base, at, inserted, now, q);
    }
  }

  lemma NewLink(crc: Crc, data: seq<bv8>, hashMask: nat, son: seq<nat>, cyclicPos: nat, base: int, at: nat, inserted: set<int>)
    requires cyclicPos < |son| && at + 4 <= |data|
    requires Leads(crc, data, hashMask, son[cyclicPos], Index4(crc, data, at, hashMask), base, at, |son|, inserted, at)
    ensures LinkFull(crc, data, hashMask, son, cyclicPos + 1, base, at + 1, inserted + {at}, at)
  {
    hide Leads, Index4;
    LeadsStays(crc, data, hashMask, son[cyclicPos], Index4(crc, data, at, hashMask), base, at, |son|, inserted, inserted + {at}, at, at);
  }

  lemma ChainWraps(crc: Crc, data: seq<bv8>, hashMask: nat, son: seq<nat>, base: int, at: nat, inserted: set<int>)
    requires ChainFull(crc, data, hashMask, son, |son|, base, at, inserted)
    ensures ChainFull(crc, data, hashMask, son, 0, base, at, inserted)
  {
    hide Leads, Index4;
    forall q | q in inserted && q < at ensures LinkFull(crc, data, hashMask, son, 0, base, at, inserted, q) {
      assert LinkFull(crc, data, hashMask, son, |son|, base, at, inserted, q);
      assert at - q < |son| ==> Slot(0, |son|, at - q) == Slot(|son|, |son|, at - q);
    }
  }

  /* ---------- rebasing ---------- */

  /** A rebased entry leads as before, or was outside the window. */
  lemma LeadsRebased(crc: Crc, data: seq<bv8>, hashMask: nat, v: nat, i: nat, base: int, at: nat, size: nat, inserted: set<int>, below: int, sub: nat)
    requires Leads(crc, data, hashMask, v, i, base, at, size, inserted, below) && sub + base + size <= at
    ensures Leads(crc, data, hashMask, Rebased(v, sub), i, base + sub, at, size, inserted, below)
  {
    hide HasIndex;
    if v > sub { assert Rebased(v, sub) + (base + sub) == v + base; }
  }

  lemma HeadsRebased(crc: Crc, data: seq<bv8>, hashMask: nat, hash: seq<nat>, hash': seq<nat>, base: int, at: nat, size: nat,
                     inserted: set<int>, sub: nat)
    requires HeadsFull(crc, data, hashMask, hash, base, at, size, inserted) && sub + base + size <= at
    requires |hash'| == |hash| && forall i :: 0 <= i < |hash| ==> hash'[i] == Rebased(hash[i], sub)
    ensures HeadsFull(crc, data, hashMask, hash', base + sub, at, size, inserted)
  {
    hide Leads;
    forall i | 0 <= i < |hash'| ensures Leads(crc, data, hashMask, hash'[i], i, base + sub, at, size, inserted, at) {
      LeadsRebased(crc, data, hashMask, hash[i], i, base, at, size, inserted, at, sub);
    }
  }

  lemma ChainRebased(crc: Crc, data: seq<bv8>, hashMask: nat, son: seq<nat>, son': seq<nat>, cyclicPos: nat, base: int, at: nat,
                     inserted: set<int>, sub: nat)
    requires ChainFull(crc, data, hashMask, son, cyclicPos, base, at, inserted) && sub + base + |son| <= at
    requires |son'| == |son| && forall i :: 0 <= i < |son| ==> son'[i] == Rebased(son[i], sub)
    ensures ChainFull(crc, data, hashMask, son', cyclicPos, base + sub, at, inserted)
  {
    hide Leads, Index4;
    forall q | q in inserted && q < at ensures LinkFull(crc, data, hashMask, son', cyclicPos, base + sub, at, inserted, q) {
      assert LinkFull(crc, data, hashMask, son, cyclicPos, base, at, inserted, q);
      if at - q < |son| && 0 <= q && q + 4 <= |data| {
        LeadsRebased(crc, data, hashMask, son[Slot(cyclicPos, |son|, at - q)], Index4(crc, data, q, hashMask), base, at, |son|, inserted, q, sub);
      }
    }
  }
}

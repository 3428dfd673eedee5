/**
 * All search trees of the binary-tree match finder together: one root per
 * four-byte hash, sharing the array of children. A position is in the tree of its
 * own hash only, so that taking one tree apart leaves the others alone.
 */
module MatchForest {
  import opened Hashes
  import opened MatchTree

  /** The tree at x is ordered in its first k bytes and holds positions of hash h only. */
  ghost predicate RootOk(crc: Crc, data: seq<bv8>, k: nat, kids: seq<int>, size: nat, at: nat, hashMask: nat, x: int, h: nat) {
    size > 0 && |kids| == 2 * size && -1 <= x < at && x + k <= |data| &&
    Ordered(data, k, kids, size, at - size, x) &&
    forall y :: y in Elems(kids, size, at - size, x) ==> Member(crc, data, hashMask, y, h)
  }

  ghost predicate ForestOk(crc: Crc, data: seq<bv8>, k: nat, kids: seq<int>, size: nat, at: nat, hashMask: nat, roots: seq<int>) {
    |roots| == hashMask + 1 &&
    forall i :: 0 <= i < |roots| ==> RootOk(crc, data, k, kids, size, at, hashMask, roots[i], FIX4 + i)
  }

  lemma EmptyForest(crc: Crc, data: seq<bv8>, k: nat, kids: seq<int>, size: nat, at: nat, hashMask: nat, roots: seq<int>)
    requires size > 0 && |kids| == 2 * size && |roots| == hashMask + 1 && k <= |data| + 1
    requires forall i :: 0 <= i < |roots| ==> roots[i] == -1
    ensures ForestOk(crc, data, k, kids, size, at, hashMask, roots)
  {
  }

  /** Looking at fewer bytes, and moving the window on. */
  lemma RootWeaker(crc: Crc, data: seq<bv8>, k: nat, j: nat, kids: seq<int>, size: nat, at: nat, at': nat, hashMask: nat, x: int, h: nat)
    requires RootOk(crc, data, k, kids, size, at, hashMask, x, h) && j <= k && at <= at'
    ensures RootOk(crc, data, j, kids, size, at', hashMask, x, h)
  {
    hide Member, Ordered;
    OrderedWeaker(data, k, j, kids, size, at - size, at' - size, x);
  }

  lemma ForestWeaker(crc: Crc, data: seq<bv8>, k: nat, j: nat, kids: seq<int>, size: nat, at: nat, at': nat, hashMask: nat, roots: seq<int>)
    requires ForestOk(crc, data, k, kids, size, at, hashMask, roots) && j <= k && at <= at'
    ensures ForestOk(crc, data, j, kids, size, at', hashMask, roots)
  {
    hide RootOk;
    forall i | 0 <= i < |roots| ensures RootOk(crc, data, j, kids, size, at', hashMask, roots[i], FIX4 + i) {
      RootWeaker(crc, data, k, j, kids, size, at, at', hashMask, roots[i], FIX4 + i);
    }
  }

  /* ---------- inserting the current position ---------- */

  /** The search of any tree for the current position can begin at the position's own pair. */
  lemma RootReady(crc: Crc, data: seq<bv8>, k: nat, kids: seq<int>, size: nat, at: nat, hashMask: nat, x: int, h: nat)
    requires RootOk(crc, data, k, kids, size, at, hashMask, x, h) && at + k <= |data|
    ensures Ready(data, k, kids, size, at - size, at, x, 2 * (at % size) + 1, 2 * (at % size), 0, 0)
  {
    hide Ordered, Member;
    ElemsBounds(kids, size, at - size, x);
    forall y | y in Elems(kids, size, at - size, x) ensures y % size != at % size {
      ModDistinct(at, y, size);
    }
    forall y | y in Elems(kids, size, at - size, x) ensures Agrees(data, k, at, y, 0, 0) { }
  }

  /** The position becomes the root of its tree, with the two parts as children. */
  lemma NewRoot(crc: Crc, data: seq<bv8>, k: nat, kids: seq<int>, kids': seq<int>, size: nat, at: nat, hashMask: nat, x: int, h: nat)
    requires RootOk(crc, data, k, kids, size, at, hashMask, x, h) && at + k <= |data| && Member(crc, data, hashMask, at, h)
    requires Apart(data, k, kids, kids', size, at - size, at, x, 2 * (at % size) + 1, 2 * (at % size))
    ensures RootOk(crc, data, k, kids', size, at + 1, hashMask, at, h)
  {
    hide Member;
    var lo, s, g := at - size, Left(kids', size, at), Right(kids', size, at);
    assert Live(lo, at);
    assert Ordered(data, k, kids', size, lo, at);
    assert Elems(kids', size, lo, at) == {at as int} + Elems(kids', size, lo, s) + Elems(kids', size, lo, g);
    OrderedWeaker(data, k, k, kids', size, lo, lo + 1, at);
  }

  /** A tree without a common position keeps its pairs. */
  lemma OutsideApart(data: seq<bv8>, k: nat, kids: seq<int>, kids': seq<int>, size: nat, at: nat, x: int, z: int)
    requires size > 0 && z < at && Apart(data, k, kids, kids', size, at - size, at, x, 2 * (at % size) + 1, 2 * (at % size))
    requires Elems(kids, size, at - size, x) !! Elems(kids, size, at - size, z)
    ensures SameAt(kids, kids', size, Elems(kids, size, at - size, z))
  {
    hide Ordered, LE, Clear;
    var lo := at - size;
    var xs, zs := Elems(kids, size, lo, x), Elems(kids, size, lo, z);
    ElemsBounds(kids, size, lo, x);
    ElemsBounds(kids, size, lo, z);
    forall y | y in zs && 0 <= y
      ensures Left(kids', size, y) == Left(kids, size, y) && Right(kids', size, y) == Right(kids, size, y)
    {
      var i := 2 * (y % size);
      ModDistinct(at, y, size);
      PairsClear(size, lo, zs, xs, y, i);
      PairsClear(size, lo, zs, xs, y, i + 1);
    }
  }

  /** The trees of other hashes keep their pairs. */
  lemma OtherRoot(crc: Crc, data: seq<bv8>, k: nat, kids: seq<int>, kids': seq<int>, size: nat, at: nat, hashMask: nat,
                  x: int, h: nat, z: int, h': nat)
    requires RootOk(crc, data, k, kids, size, at, hashMask, x, h) && RootOk(crc, data, k, kids, size, at, hashMask, z, h') && h != h'
    requires Apart(data, k, kids, kids', size, at - size, at, x, 2 * (at % size) + 1, 2 * (at % size))
    ensures RootOk(crc, data, k, kids', size, at + 1, hashMask, z, h')
  {
    hide Member, Ordered;
    var lo := at - size;
    var xs, zs := Elems(kids, size, lo, x), Elems(kids, size, lo, z);
    MembersApart(crc, data, hashMask, xs, h, zs, h');
    OutsideApart(data, k, kids, kids', size, at, x, z);
    OrderedFrame(data, k, kids, kids', size, lo, z);
    OrderedWeaker(data, k, k, kids', size, lo, lo + 1, z);
  }

  lemma MembersApart(crc: Crc, data: seq<bv8>, hashMask: nat, xs: set<int>, h: nat, ys: set<int>, h': nat)
    requires h != h' && (forall y :: y in xs ==> Member(crc, data, hashMask, y, h)) && forall y :: y in ys ==> Member(crc, data, hashMask, y, h')
    ensures xs !! ys
  {
    forall y | y in xs ensures y !in ys {
      assert Member(crc, data, hashMask, y, h);
      assert y in ys ==> Member(crc, data, hashMask, y, h');
    }
  }

  lemma ForestInserted(crc: Crc, data: seq<bv8>, k: nat, kids: seq<int>, kids': seq<int>, size: nat, at: nat, hashMask: nat, roots: seq<int>, i: nat)
    requires ForestOk(crc, data, k, kids, size, at, hashMask, roots) && at + k <= |data| && i < |roots|
    requires Member(crc, data, hashMask, at, FIX4 + i)
    requires Apart(data, k, kids, kids', size, at - size, at, roots[i], 2 * (at % size) + 1, 2 * (at % size))
    ensures ForestOk(crc, data, k, kids', size, at + 1, hashMask, roots[i := at])
  {
    hide RootOk, Member, Apart;
    NewRoot(crc, data, k, kids, kids', size, at, hashMask, roots[i], FIX4 + i);
    forall j | 0 <= j < |roots| && j != i ensures RootOk(crc, data, k, kids', size, at + 1, hashMask, roots[j], FIX4 + j) {
      OtherRoot(crc, data, k, kids, kids', size, at, hashMask, roots[i], FIX4 + i, roots[j], FIX4 + j);
    }
  }

  /* ---------- rebasing ---------- */

  /** Children that have left the window may be forgotten. */
  ghost predicate Forgets(kids: seq<int>, kids': seq<int>, lo: int) {
    |kids'| == |kids| && forall i :: 0 <= i < |kids| ==> kids'[i] == kids[i] || (kids'[i] == -1 && (kids[i] <= lo || kids[i] < 0))
  }

  lemma {:induction false} OrderedForgets(data: seq<bv8>, k: nat, kids: seq<int>, kids': seq<int>, size: nat, lo: int, x: int)
    requires size > 0 && |kids| == 2 * size && x + k <= |data| && Forgets(kids, kids', lo) && Ordered(data, k, kids, size, lo, x)
    ensures Ordered(data, k, kids', size, lo, x) && Elems(kids', size, lo, x) == Elems(kids, size, lo, x)
    decreases if x < 0 then 0 else x + 1
  {
    if Live(lo, x) {
      var l, r, l', r' := Left(kids, size, x), Right(kids, size, x), Left(kids', size, x), Right(kids', size, x);
      OrderedForgets(data, k, kids, kids', size, lo, l);
      OrderedForgets(data, k, kids, kids', size, lo, r);
      assert Elems(kids', size, lo, l') == Elems(kids, size, lo, l) && Ordered(data, k, kids', size, lo, l');
      assert Elems(kids', size, lo, r') == Elems(kids, size, lo, r) && Ordered(data, k, kids', size, lo, r');
    }
  }

  lemma RootForgets(crc: Crc, data: seq<bv8>, k: nat, kids: seq<int>, kids': seq<int>, size: nat, at: nat, hashMask: nat, x: int, x': int, h: nat)
    requires RootOk(crc, data, k, kids, size, at, hashMask, x, h) && Forgets(kids, kids', at - size) && k <= |data| + 1
    requires x' == x || (x' == -1 && (x <= at - size || x < 0))
    ensures RootOk(crc, data, k, kids', size, at, hashMask, x', h)
  {
    hide Member, LE;
    OrderedForgets(data, k, kids, kids', size, at - size, x);
  }

  lemma ForestForgets(crc: Crc, data: seq<bv8>, k: nat, kids: seq<int>, kids': seq<int>, size: nat, at: nat, hashMask: nat,
                      roots: seq<int>, roots': seq<int>)
    requires ForestOk(crc, data, k, kids, size, at, hashMask, roots) && k <= |data| + 1
    requires Forgets(kids, kids', at - size) && Forgets(roots, roots', at - size)
    ensures ForestOk(crc, data, k, kids', size, at, hashMask, roots')
  {
    hide RootOk;
    forall i | 0 <= i < |roots'| ensures RootOk(crc, data, k, kids', size, at, hashMask, roots'[i], FIX4 + i) {
      RootForgets(crc, data, k, kids, kids', size, at, hashMask, roots[i], roots'[i], FIX4 + i);
    }
  }

  /* ---------- nothing is lost ---------- */

  /** Up to `at` no window has held more than cutValue positions of hash h. */
  ghost predicate Uncrowded(crc: Crc, data: seq<bv8>, hashMask: nat, size: nat, cutValue: nat, h: nat, at: nat) {
    forall a: nat :: a < at && Member(crc, data, hashMask, a, h) ==> |Positions(crc, data, hashMask, h, a - size + 1, a)| <= cutValue
  }

  /** A position of the tree can stand for z. */
  ghost predicate Represented(data: seq<bv8>, k: nat, es: set<int>, z: int) {
    exists y :: y in es && Stands(data, k, y, z)
  }

  /** Unless searches were cut, every inserted position of the window is represented in the tree of its hash. */
  ghost predicate RootFull(crc: Crc, data: seq<bv8>, k: nat, kids: seq<int>, size: nat, at: nat, hashMask: nat, cutValue: nat,
                           inserted: set<int>, x: int, h: nat)
  {
    size > 0 && |kids| == 2 * size &&
    (Uncrowded(crc, data, hashMask, size, cutValue, h, at) ==>
      forall z :: z in inserted && at - size < z < at && Member(crc, data, hashMask, z, h) ==>
        Represented(data, k, Elems(kids, size, at - size, x), z))
  }

  ghost predicate ForestFull(crc: Crc, data: seq<bv8>, k: nat, kids: seq<int>, size: nat, at: nat, hashMask: nat, cutValue: nat,
                             inserted: set<int>, roots: seq<int>)
  {
    |roots| == hashMask + 1 &&
    forall i :: 0 <= i < |roots| ==> RootFull(crc, data, k, kids, size, at, hashMask, cutValue, inserted, roots[i], FIX4 + i)
  }

  lemma StandsShorter(data: seq<bv8>, k: nat, j: nat, y: int, z: int)
    requires Stands(data, k, y, z) && j <= k
    ensures Stands(data, j, y, z)
  {
    StandsIn(data, z, y, y, k, j);
    CommonSelf(data, y, j);
  }

  lemma StandsTrans(data: seq<bv8>, k: nat, x: int, y: int, z: int)
    requires Stands(data, k, x, y) && Stands(data, k, y, z)
    ensures Stands(data, k, x, z)
  {
    StandsIn(data, z, y, x, k, k);
  }

  /** The tree's positions may be fewer, as long as those in the window are still there, and compared in fewer bytes. */
  lemma StillRepresented(data: seq<bv8>, k: nat, j: nat, es: set<int>, es': set<int>, lo: int, z: int)
    requires Represented(data, k, es, z) && j <= k && lo < z && forall y :: y in es && y > lo ==> y in es'
    ensures Represented(data, j, es', z)
  {
    var y :| y in es && Stands(data, k, y, z);
    StandsShorter(data, k, j, y, z);
  }

  lemma RootFullWeaker(crc: Crc, data: seq<bv8>, k: nat, j: nat, kids: seq<int>, size: nat, at: nat, at': nat, hashMask: nat, cutValue: nat,
                       inserted: set<int>, now: set<int>, x: int, h: nat)
    requires RootFull(crc, data, k, kids, size, at, hashMask, cutValue, inserted, x, h)
    requires RootOk(crc, data, k, kids, size, at, hashMask, x, h) && j <= k && at <= at'
    requires forall z :: z in now && z < at' && Member(crc, data, hashMask, z, h) ==> z in inserted && z < at
    ensures RootFull(crc, data, j, kids, size, at', hashMask, cutValue, now, x, h)
  {
    hide Member, Ordered, Represented, Elems, Positions;
    var es, es' := Elems(kids, size, at - size, x), Elems(kids, size, at' - size, x);
    if Uncrowded(crc, data, hashMask, size, cutValue, h, at') {
      ElemsBounds(kids, size, at - size, x);
      forall y | y in es && y > at' - size ensures y in es' {
        ElemsShrink(data, k, kids, size, at - size, at' - size, x, y);
      }
      assert Uncrowded(crc, data, hashMask, size, cutValue, h, at);
      forall z | z in now && at' - size < z < at' && Member(crc, data, hashMask, z, h) ensures Represented(data, j, es', z) {
        StillRepresented(data, k, j, es, es', at' - size, z);
      }
    }
  }

  lemma ForestFullWeaker(crc: Crc, data: seq<bv8>, k: nat, j: nat, kids: seq<int>, size: nat, at: nat, at': nat, hashMask: nat, cutValue: nat,
                         inserted: set<int>, roots: seq<int>)
    requires ForestFull(crc, data, k, kids, size, at, hashMask, cutValue, inserted, roots)
    requires ForestOk(crc, data, k, kids, size, at, hashMask, roots) && j <= k && at <= at'
    requires forall z :: z in inserted ==> z < at
    ensures ForestFull(crc, data, j, kids, size, at', hashMask, cutValue, inserted, roots)
  {
    hide RootOk, RootFull;
    forall i | 0 <= i < |roots|
      ensures RootFull(crc, data, j, kids, size, at', hashMask, cutValue, inserted, roots[i], FIX4 + i)
    {
      RootFullWeaker(crc, data, k, j, kids, size, at, at', hashMask, cutValue, inserted, inserted, roots[i], FIX4 + i);
    }
  }

  lemma EmptyFull(crc: Crc, data: seq<bv8>, k: nat, kids: seq<int>, size: nat, at: nat, hashMask: nat, cutValue: nat, roots: seq<int>)
    requires size > 0 && |kids| == 2 * size && |roots| == hashMask + 1
    ensures ForestFull(crc, data, k, kids, size, at, hashMask, cutValue, {}, roots)
  {
  }

  /** The positions of a tree are positions of its hash in the window: at most cutValue of an uncrowded one. */
  lemma FewElems(crc: Crc, data: seq<bv8>, k: nat, kids: seq<int>, size: nat, at: nat, hashMask: nat, cutValue: nat, x: int, h: nat)
    requires RootOk(crc, data, k, kids, size, at, hashMask, x, h) && Member(crc, data, hashMask, at, h)
    requires Uncrowded(crc, data, hashMask, size, cutValue, h, at + 1)
    ensures |Elems(kids, size, at - size, x)| <= cutValue
  {
    hide Member, Ordered;
    var es, ps := Elems(kids, size, at - size, x), Positions(crc, data, hashMask, h, at - size + 1, at);
    ElemsBounds(kids, size, at - size, x);
    assert ps == es + (ps - es);
  }

  /** The new root's tree represents what the old one did, and the position itself. */
  lemma NewRootFull(crc: Crc, data: seq<bv8>, k: nat, kids: seq<int>, kids': seq<int>, size: nat, at: nat, hashMask: nat, cutValue: nat,
                    inserted: set<int>, x: int, h: nat)
    requires RootOk(crc, data, k, kids, size, at, hashMask, x, h) && at + k <= |data| && Member(crc, data, hashMask, at, h)
    requires RootFull(crc, data, k, kids, size, at, hashMask, cutValue, inserted, x, h) && forall z :: z in inserted ==> z < at
    requires Apart(data, k, kids, kids', size, at - size, at, x, 2 * (at % size) + 1, 2 * (at % size))
    requires |Elems(kids, size, at - size, x)| <= cutValue ==>
               Complete(data, k, kids, kids', size, at - size, at, x, 2 * (at % size) + 1, 2 * (at % size))
    ensures RootFull(crc, data, k, kids', size, at + 1, hashMask, cutValue, inserted + {at}, at, h)
  {
    hide Member, Ordered, Represented, RootOk, Stands, Part;
    var now := inserted + {at as int};
    var lo, es, es' := at - size, Elems(kids, size, at - size, x), Elems(kids', size, at + 1 - size, at);
    if Uncrowded(crc, data, hashMask, size, cutValue, h, at + 1) {
      FewElems(crc, data, k, kids, size, at, hashMask, cutValue, x, h);
      NewRoot(crc, data, k, kids, kids', size, at, hashMask, x, h);
      forall z | z in now && at + 1 - size < z < at + 1 && Member(crc, data, hashMask, z, h) ensures Represented(data, k, es', z) {
        NewTree(data, k, kids, kids', size, at, x);
        if z == at {
          StandsForItself(data, k, es', at);
        } else {
          Passed(data, k, es, es', at, lo + 1, z);
        }
      }
    }
  }

  lemma StandsForItself(data: seq<bv8>, k: nat, es: set<int>, at: nat)
    requires at in es && at + k <= |data|
    ensures Represented(data, k, es, at)
  {
    CommonSelf(data, at, k);
    assert Stands(data, k, at, at);
  }

  lemma Passed(data: seq<bv8>, k: nat, es: set<int>, es': set<int>, at: nat, lo: int, z: int)
    requires Represented(data, k, es, z) && z > lo && at in es'
    requires forall y :: y in es && y > lo ==> y in es' || Stands(data, k, at, y)
    ensures Represented(data, k, es', z)
  {
    var y :| y in es && Stands(data, k, y, z);
    if Stands(data, k, at, y) { StandsTrans(data, k, at, y, z); }
  }

  /** The positions of the new root's tree that are still in the window. */
  lemma NewTree(data: seq<bv8>, k: nat, kids: seq<int>, kids': seq<int>, size: nat, at: nat, x: int)
    requires size > 1 && Apart(data, k, kids, kids', size, at - size, at, x, 2 * (at % size) + 1, 2 * (at % size))
    requires Complete(data, k, kids, kids', size, at - size, at, x, 2 * (at % size) + 1, 2 * (at % size))
    ensures var es, es' := Elems(kids, size, at - size, x), Elems(kids', size, at + 1 - size, at);
            at in es' && forall y :: y in es && y > at + 1 - size ==> y in es' || Stands(data, k, at, y)
  {
    hide Stands, LE, Clear;
    var lo, s, g := at - size, Left(kids', size, at), Right(kids', size, at);
    var es, es' := Elems(kids, size, lo, x), Elems(kids', size, lo + 1, at);
    ElemsBounds(kids, size, lo, x);
    forall y | y in es && y > lo + 1 && !Stands(data, k, at, y) ensures y in es' {
      if y in Elems(kids', size, lo, s) {
        ElemsShrink(data, k, kids', size, lo, lo + 1, s, y);
      } else {
        ElemsShrink(data, k, kids', size, lo, lo + 1, g, y);
      }
    }
  }

  /** The trees of other hashes still represent what they did. */
  lemma OtherRootFull(crc: Crc, data: seq<bv8>, k: nat, kids: seq<int>, kids': seq<int>, size: nat, at: nat, hashMask: nat, cutValue: nat,
                      inserted: set<int>, x: int, h: nat, z: int, h': nat)
    requires RootOk(crc, data, k, kids, size, at, hashMask, x, h) && RootOk(crc, data, k, kids, size, at, hashMask, z, h') && h != h'
    requires Apart(data, k, kids, kids', size, at - size, at, x, 2 * (at % size) + 1, 2 * (at % size))
    requires RootFull(crc, data, k, kids, size, at, hashMask, cutValue, inserted, z, h') && Member(crc, data, hashMask, at, h)
    requires forall z :: z in inserted ==> z < at
    ensures RootFull(crc, data, k, kids', size, at + 1, hashMask, cutValue, inserted + {at}, z, h')
  {
    hide Ordered, Represented, LE, Uncrowded;
    var lo := at - size;
    var xs, zs := Elems(kids, size, lo, x), Elems(kids, size, lo, z);
    MembersApart(crc, data, hashMask, xs, h, zs, h');
    OutsideApart(data, k, kids, kids', size, at, x, z);
    OrderedFrame(data, k, kids, kids', size, lo, z);
    assert RootOk(crc, data, k, kids', size, at, hashMask, z, h');
    assert RootFull(crc, data, k, kids', size, at, hashMask, cutValue, inserted, z, h');
    RootFullWeaker(crc, data, k, k, kids', size, at, at + 1, hashMask, cutValue, inserted, inserted + {at}, z, h');
  }

  lemma ForestFullInserted(crc: Crc, data: seq<bv8>, k: nat, kids: seq<int>, kids': seq<int>, size: nat, at: nat, hashMask: nat, cutValue: nat,
                           inserted: set<int>, roots: seq<int>, i: nat)
    requires ForestOk(crc, data, k, kids, size, at, hashMask, roots) && at + k <= |data| && i < |roots|
    requires ForestFull(crc, data, k, kids, size, at, hashMask, cutValue, inserted, roots) && forall z :: z in inserted ==> z < at
    requires Member(crc, data, hashMask, at, FIX4 + i)
    requires Apart(data, k, kids, kids', size, at - size, at, roots[i], 2 * (at % size) + 1, 2 * (at % size))
    requires |Elems(kids, size, at - size, roots[i])| <= cutValue ==>
               Complete(data, k, kids, kids', size, at - size, at, roots[i], 2 * (at % size) + 1, 2 * (at % size))
    ensures ForestFull(crc, data, k, kids', size, at + 1, hashMask, cutValue, inserted + {at}, roots[i := at])
  {
    hide RootOk, Member, Apart, RootFull, Complete;
    NewRootFull(crc, data, k, kids, kids', size, at, hashMask, cutValue, inserted, roots[i], FIX4 + i);
    forall j | 0 <= j < |roots| && j != i
      ensures RootFull(crc, data, k, kids', size, at + 1, hashMask, cutValue, inserted + {at}, roots[j], FIX4 + j)
    {
      OtherRootFull(crc, data, k, kids, kids', size, at, hashMask, cutValue, inserted, roots[i], FIX4 + i, roots[j], FIX4 + j);
    }
  }

  /** Forgetting children outside the window forgets nothing of the trees. */
  lemma ForestFullForgets(crc: Crc, data: seq<bv8>, k: nat, kids: seq<int>, kids': seq<int>, size: nat, at: nat, hashMask: nat, cutValue: nat,
                          inserted: set<int>, roots: seq<int>, roots': seq<int>)
    requires ForestOk(crc, data, k, kids, size, at, hashMask, roots) && k <= |data| + 1
    requires ForestFull(crc, data, k, kids, size, at, hashMask, cutValue, inserted, roots)
    requires Forgets(kids, kids', at - size) && Forgets(roots, roots', at - size)
    ensures ForestFull(crc, data, k, kids', size, at, hashMask, cutValue, inserted, roots')
  {
    hide Member, Represented, Uncrowded;
    forall i | 0 <= i < |roots'| ensures RootFull(crc, data, k, kids', size, at, hashMask, cutValue, inserted, roots'[i], FIX4 + i) {
      assert RootOk(crc, data, k, kids, size, at, hashMask, roots[i], FIX4 + i);
      assert RootFull(crc, data, k, kids, size, at, hashMask, cutValue, inserted, roots[i], FIX4 + i);
      OrderedForgets(data, k, kids, kids', size, at - size, roots[i]);
      assert Elems(kids', size, at - size, roots'[i]) == Elems(kids, size, at - size, roots[i]);
    }
  }

  /** What a search that covers every position of an uncrowded tree says of every position of the window. */
  lemma RepresentedCovered(data: seq<bv8>, k: nat, es: set<int>, at: nat, z: int, n: nat)
    requires at + k <= |data| && 0 <= z && z + k <= |data| && Represented(data, k, es, z)
    requires forall y :: y in es ==> 0 <= y < at && Common(data, y, at, k) <= n
    ensures Common(data, z, at, k) <= n
  {
    var y :| y in es && Stands(data, k, y, z);
    StandsIn(data, z, y, at, k, k);
  }
}

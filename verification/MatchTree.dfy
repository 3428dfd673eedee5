/**
 * The binary-tree match search of EMdF/lzma_emdros.cpp. Positions with the same
 * four-byte hash form a search tree ordered by the bytes that follow them, newest
 * position at the root; `son` holds two children per position of the window. A
 * search for the current position takes the tree apart along its path into the
 * smaller and the greater positions, which become the children of the new root.
 * What it compares starts at the shorter of the two prefixes known to agree, so
 * that the matches found are true only because the tree is ordered.
 *
 * Here a child is the index of a byte of the stream, or -1 for none.
 */
module MatchTree {

  /* ---------- the order of positions ---------- */

  /** How many of the first k bytes at a and b agree, from the first on. */
  function Common(data: seq<bv8>, a: nat, b: nat, k: nat): (n: nat)
    requires a + k <= |data| && b + k <= |data|
    ensures n <= k
    decreases k
  {
    if k == 0 || data[a] != data[b] then 0 else 1 + Common(data, a + 1, b + 1, k - 1)
  }

  /** The first k bytes at a are lexicographically at most those at b. */
  predicate LE(data: seq<bv8>, a: nat, b: nat, k: nat)
    requires a + k <= |data| && b + k <= |data|
    decreases k
  {
    k == 0 || data[a] < data[b] || (data[a] == data[b] && LE(data, a + 1, b + 1, k - 1))
  }

  lemma {:induction false} LETotal(data: seq<bv8>, a: nat, b: nat, k: nat)
    requires a + k <= |data| && b + k <= |data|
    ensures LE(data, a, b, k) || LE(data, b, a, k)
    decreases k
  {
    if k > 0 { LETotal(data, a + 1, b + 1, k - 1); }
  }

  lemma {:induction false} LEShorter(data: seq<bv8>, a: nat, b: nat, k: nat, j: nat)
    requires a + k <= |data| && b + k <= |data| && j <= k && LE(data, a, b, k)
    ensures LE(data, a, b, j)
    decreases j
  {
    if j > 0 && data[a] == data[b] { LEShorter(data, a + 1, b + 1, k - 1, j - 1); }
  }

  /** Between p and c, or between c and p, at least as much agrees with c as at p. */
  lemma {:induction false} Between(data: seq<bv8>, p: nat, q: nat, c: nat, k: nat)
    requires p + k <= |data| && q + k <= |data| && c + k <= |data|
    requires (LE(data, p, q, k) && LE(data, q, c, k)) || (LE(data, c, q, k) && LE(data, q, p, k))
    ensures Common(data, q, c, k) >= Common(data, p, c, k)
    decreases k
  {
    if k > 0 && data[p] == data[c] {
      assert data[q] == data[c];
      Between(data, p + 1, q + 1, c + 1, k - 1);
    }
  }

  /** The first n bytes at a and at b are the same. */
  predicate Same(data: seq<bv8>, a: nat, b: nat, n: nat)
    requires a + n <= |data| && b + n <= |data|
  {
    data[a..a + n] == data[b..b + n]
  }

  lemma SameCons(data: seq<bv8>, a: nat, b: nat, n: nat)
    requires a + n <= |data| && b + n <= |data| && n > 0
    ensures Same(data, a, b, n) <==> data[a] == data[b] && Same(data, a + 1, b + 1, n - 1)
  {
    var s, t := data[a..a + n], data[b..b + n];
    assert s == [data[a]] + data[a + 1..a + n] && s[1..] == data[a + 1..a + n];
    assert t == [data[b]] + data[b + 1..b + n] && t[1..] == data[b + 1..b + n];
  }

  lemma {:induction false} CommonSame(data: seq<bv8>, a: nat, b: nat, k: nat)
    requires a + k <= |data| && b + k <= |data|
    ensures Same(data, a, b, Common(data, a, b, k))
    decreases k
  {
    if k > 0 && data[a] == data[b] {
      CommonSame(data, a + 1, b + 1, k - 1);
      SameCons(data, a, b, Common(data, a, b, k));
    }
  }

  /** The first disagreeing byte decides the order. */
  lemma {:induction false} CommonDecides(data: seq<bv8>, a: nat, b: nat, k: nat)
    requires a + k <= |data| && b + k <= |data|
    ensures var n := Common(data, a, b, k);
            if n == k then LE(data, a, b, k) && LE(data, b, a, k)
            else data[a + n] != data[b + n] && (if data[a + n] < data[b + n] then LE(data, a, b, k) else LE(data, b, a, k))
    decreases k
  {
    if k > 0 && data[a] == data[b] {
      CommonDecides(data, a + 1, b + 1, k - 1);
      var n := Common(data, a + 1, b + 1, k - 1);
      assert a + 1 + n == a + (n + 1) && b + 1 + n == b + (n + 1);
    }
  }

  lemma {:induction false} LETrans(data: seq<bv8>, a: nat, b: nat, c: nat, k: nat)
    requires a + k <= |data| && b + k <= |data| && c + k <= |data| && LE(data, a, b, k) && LE(data, b, c, k)
    ensures LE(data, a, c, k)
    decreases k
  {
    if k > 0 && data[a] == data[b] == data[c] { LETrans(data, a + 1, b + 1, c + 1, k - 1); }
  }

  /** A position that agrees in all k bytes can stand for the other. */
  lemma {:induction false} EqualStandsFor(data: seq<bv8>, q: nat, p: nat, c: nat, k: nat)
    requires p + k <= |data| && q + k <= |data| && c + k <= |data| && Common(data, p, c, k) == k
    ensures LE(data, q, p, k) == LE(data, q, c, k) && LE(data, p, q, k) == LE(data, c, q, k)
    decreases k
  {
    if k > 0 { EqualStandsFor(data, q + 1, p + 1, c + 1, k - 1); }
  }

  /** Agreement up to n and then a difference, or the end, is what Common computes. */
  lemma {:induction false} CommonIs(data: seq<bv8>, a: nat, b: nat, k: nat, n: nat)
    requires a + k <= |data| && b + k <= |data| && n <= k && Same(data, a, b, n)
    requires n < k ==> data[a + n] != data[b + n]
    ensures Common(data, a, b, k) == n
    decreases k
  {
    if n > 0 {
      SameCons(data, a, b, n);
      CommonIs(data, a + 1, b + 1, k - 1, n - 1);
    }
  }

  lemma {:induction false} SameIsCommon(data: seq<bv8>, a: nat, b: nat, n: nat, k: nat)
    requires a + k <= |data| && b + k <= |data| && n <= k && Same(data, a, b, n)
    ensures Common(data, a, b, k) >= n
    decreases n
  {
    if n > 0 {
      SameCons(data, a, b, n);
      SameIsCommon(data, a + 1, b + 1, n - 1, k - 1);
    }
  }

  /* ---------- the trees ---------- */

  /** The children of a position; its pair is the one of its place in the circular array. */
  function Left(kids: seq<int>, size: nat, x: nat): int
    requires size > 0 && |kids| == 2 * size
  {
    kids[2 * (x % size)]
  }

  function Right(kids: seq<int>, size: nat, x: nat): int
    requires size > 0 && |kids| == 2 * size
  {
    kids[2 * (x % size) + 1]
  }

  /** Positions up to lo have left the window. */
  predicate Live(lo: int, x: int) { x > lo && x >= 0 }

  /** The positions of a tree; a child that is not older than its parent does not count. */
  function Elems(kids: seq<int>, size: nat, lo: int, x: int): set<int>
    requires size > 0 && |kids| == 2 * size
    decreases if x < 0 then 0 else x + 1
  {
    if !Live(lo, x) then {}
    else
      var l, r := Left(kids, size, x), Right(kids, size, x);
      {x} + (if l < x then Elems(kids, size, lo, l) else {}) + (if r < x then Elems(kids, size, lo, r) else {})
  }

  /** A search tree: children are older, smaller positions left, greater ones right, nothing shared. */
  predicate Ordered(data: seq<bv8>, k: nat, kids: seq<int>, size: nat, lo: int, x: int)
    requires size > 0 && |kids| == 2 * size && x + k <= |data|
    decreases if x < 0 then 0 else x + 1
  {
    !Live(lo, x) ||
    var l, r := Left(kids, size, x), Right(kids, size, x);
    && -1 <= l < x && -1 <= r < x
    && Ordered(data, k, kids, size, lo, l) && Ordered(data, k, kids, size, lo, r)
    && Elems(kids, size, lo, l) !! Elems(kids, size, lo, r)
    && (forall y :: y in Elems(kids, size, lo, l) ==> 0 <= y < x && LE(data, y, x, k))
    && (forall y :: y in Elems(kids, size, lo, r) ==> 0 <= y < x && LE(data, x, y, k))
  }

  lemma {:induction false} ElemsBounds(kids: seq<int>, size: nat, lo: int, x: int)
    requires size > 0 && |kids| == 2 * size
    ensures forall y :: y in Elems(kids, size, lo, x) ==> Live(lo, y) && y <= x
    decreases if x < 0 then 0 else x + 1
  {
    if Live(lo, x) {
      var l, r := Left(kids, size, x), Right(kids, size, x);
      if l < x { ElemsBounds(kids, size, lo, l); }
      if r < x { ElemsBounds(kids, size, lo, r); }
    }
  }

  /** Two arrays that agree in the pairs of the given positions. */
  ghost predicate SameAt(kids: seq<int>, kids': seq<int>, size: nat, xs: set<int>)
    requires size > 0 && |kids| == |kids'| == 2 * size
  {
    forall x :: x in xs && 0 <= x ==> Left(kids', size, x) == Left(kids, size, x) && Right(kids', size, x) == Right(kids, size, x)
  }

  /** A tree is made of the pairs of its own positions. */
  lemma {:induction false} ElemsFrame(kids: seq<int>, kids': seq<int>, size: nat, lo: int, x: int)
    requires size > 0 && |kids| == |kids'| == 2 * size && SameAt(kids, kids', size, Elems(kids, size, lo, x))
    ensures Elems(kids', size, lo, x) == Elems(kids, size, lo, x)
    decreases if x < 0 then 0 else x + 1
  {
    if Live(lo, x) {
      var l, r := Left(kids, size, x), Right(kids, size, x);
      assert x in Elems(kids, size, lo, x);
      if l < x { ElemsFrame(kids, kids', size, lo, l); }
      if r < x { ElemsFrame(kids, kids', size, lo, r); }
    }
  }

  lemma {:induction false} OrderedFrame(data: seq<bv8>, k: nat, kids: seq<int>, kids': seq<int>, size: nat, lo: int, x: int)
    requires size > 0 && |kids| == |kids'| == 2 * size && x + k <= |data| && SameAt(kids, kids', size, Elems(kids, size, lo, x))
    requires Ordered(data, k, kids, size, lo, x)
    ensures Ordered(data, k, kids', size, lo, x) && Elems(kids', size, lo, x) == Elems(kids, size, lo, x)
    decreases if x < 0 then 0 else x + 1
  {
    ElemsFrame(kids, kids', size, lo, x);
    if Live(lo, x) {
      var l, r := Left(kids, size, x), Right(kids, size, x);
      assert x in Elems(kids, size, lo, x);
      OrderedFrame(data, k, kids, kids', size, lo, l);
      OrderedFrame(data, k, kids, kids', size, lo, r);
    }
  }

  /** Comparing fewer bytes, or losing old positions, keeps a tree ordered. */
  lemma {:induction false} OrderedWeaker(data: seq<bv8>, k: nat, j: nat, kids: seq<int>, size: nat, lo: int, lo': int, x: int)
    requires size > 0 && |kids| == 2 * size && x + k <= |data| && j <= k && lo <= lo' && Ordered(data, k, kids, size, lo, x)
    ensures Ordered(data, j, kids, size, lo', x) && Elems(kids, size, lo', x) <= Elems(kids, size, lo, x)
    decreases if x < 0 then 0 else x + 1
  {
    if Live(lo', x) {
      var l, r := Left(kids, size, x), Right(kids, size, x);
      OrderedWeaker(data, k, j, kids, size, lo, lo', l);
      OrderedWeaker(data, k, j, kids, size, lo, lo', r);
      forall y | y in Elems(kids, size, lo', l) ensures 0 <= y < x && LE(data, y, x, j) { LEShorter(data, y, x, k, j); }
      forall y | y in Elems(kids, size, lo', r) ensures 0 <= y < x && LE(data, x, y, j) { LEShorter(data, x, y, k, j); }
    }
  }

  /* ---------- taking a tree apart ---------- */

  /** i is in the pair of none of the positions. */
  predicate Clear(xs: set<int>, size: nat, i: nat)
    requires size > 0
  {
    forall x :: x in xs && 0 <= x ==> i / 2 != x % size
  }

  /** Different positions of the window have different places in the circular array. */
  lemma ModDistinct(x: nat, y: nat, size: nat)
    requires size > 0 && y < x < y + size
    ensures x % size != y % size
  {
    if x % size == y % size {
      var d := x / size - y / size;
      assert x - y == size * d by { ModDiff(x, y, size); }
      if d >= 1 { MulAtLeast(size, d); } else { MulAtMost(size, d); }
    }
  }

  lemma ModDiff(x: nat, y: nat, size: nat)
    requires size > 0 && x % size == y % size
    ensures x - y == size * (x / size - y / size)
  {
    assert x == size * (x / size) + x % size && y == size * (y / size) + y % size;
    Distribute(size, x / size, y / size);
  }

  lemma Distribute(s: int, a: int, b: int)
    ensures s * (a - b) == s * a - s * b
  {
  }

  lemma MulAtLeast(s: nat, d: int)
    requires d >= 1
    ensures s * d >= s
  {
  }

  lemma MulAtMost(s: nat, d: int)
    requires d <= 0
    ensures s * d <= 0
  {
  }

  /** What is known before a subtree at x is searched for the position `at`: where its two parts go, and how much agrees. */
  ghost predicate Ready(data: seq<bv8>, k: nat, kids: seq<int>, size: nat, lo: int, at: nat, x: int, ptr0: nat, ptr1: nat,
                        len0: nat, len1: nat)
  {
    size > 0 && |kids| == 2 * size && at + k <= |data| && -1 <= x < at && at <= lo + size && ptr0 < 2 * size && ptr1 < 2 * size && ptr0 != ptr1 &&
    Ordered(data, k, kids, size, lo, x) &&
    Clear(Elems(kids, size, lo, x), size, ptr0) && Clear(Elems(kids, size, lo, x), size, ptr1) &&
    forall y :: y in Elems(kids, size, lo, x) ==> Agrees(data, k, at, y, len0, len1)
  }

  /** A smaller position agrees in len1 bytes, a greater one in len0. */
  ghost predicate Agrees(data: seq<bv8>, k: nat, at: nat, y: int, len0: nat, len1: nat)
  {
    at + k <= |data| && 0 <= y < at &&
    (LE(data, y, at, k) ==> Common(data, y, at, k) >= len1) && (LE(data, at, y, k) ==> Common(data, y, at, k) >= len0)
  }

  /** The subtree at x has become two: the smaller positions at ptr1, the greater ones at ptr0. */
  ghost predicate Apart(data: seq<bv8>, k: nat, kids: seq<int>, kids': seq<int>, size: nat, lo: int, at: nat, x: int,
                        ptr0: nat, ptr1: nat)
  {
    size > 0 && |kids| == |kids'| == 2 * size && at + k <= |data| && ptr0 < 2 * size && ptr1 < 2 * size && x < at &&
    (forall i: nat :: i < 2 * size && i != ptr0 && i != ptr1 && Clear(Elems(kids, size, lo, x), size, i) ==> kids'[i] == kids[i]) &&
    Part(data, k, kids', size, lo, at, kids'[ptr1], x, Elems(kids, size, lo, x)) &&
    Part(data, k, kids', size, lo, at, kids'[ptr0], x, Elems(kids, size, lo, x)) &&
    Elems(kids', size, lo, kids'[ptr1]) !! Elems(kids', size, lo, kids'[ptr0]) &&
    (forall y :: y in Elems(kids', size, lo, kids'[ptr1]) ==> 0 <= y < at && LE(data, y, at, k)) &&
    (forall y :: y in Elems(kids', size, lo, kids'[ptr0]) ==> 0 <= y < at && LE(data, at, y, k))
  }

  /** The tree at s is ordered and holds only positions of xs. */
  ghost predicate Part(data: seq<bv8>, k: nat, kids: seq<int>, size: nat, lo: int, at: nat, s: int, x: int, xs: set<int>)
  {
    size > 0 && |kids| == 2 * size && at + k <= |data| && -1 <= s < at && (s <= x || s == -1) &&
    Ordered(data, k, kids, size, lo, s) && Elems(kids, size, lo, s) <= xs
  }

  /** The two parts have lost no position of the subtree but one that the current position can stand for. */
  ghost predicate Complete(data: seq<bv8>, k: nat, kids: seq<int>, kids': seq<int>, size: nat, lo: int, at: nat, x: int,
                           ptr0: nat, ptr1: nat)
  {
    size > 0 && |kids| == |kids'| == 2 * size && at + k <= |data| && ptr0 < 2 * size && ptr1 < 2 * size &&
    forall y :: y in Elems(kids, size, lo, x) ==>
      y in Elems(kids', size, lo, kids'[ptr1]) || y in Elems(kids', size, lo, kids'[ptr0]) || Stands(data, k, at, y)
  }

  /** y is an earlier position with the same first k bytes as `at`. */
  ghost predicate Stands(data: seq<bv8>, k: nat, at: int, y: int) {
    0 <= y <= at && at + k <= |data| && Common(data, y, at, k) == k
  }

  /** Nothing to take apart, or nothing more to be looked at: both parts are empty. */
  lemma CutOff(data: seq<bv8>, k: nat, kids: seq<int>, kids': seq<int>, size: nat, lo: int, at: nat, x: int, ptr0: nat, ptr1: nat,
               len0: nat, len1: nat)
    requires Ready(data, k, kids, size, lo, at, x, ptr0, ptr1, len0, len1)
    requires kids' == kids[ptr0 := -1][ptr1 := -1]
    ensures Apart(data, k, kids, kids', size, lo, at, x, ptr0, ptr1)
    ensures !Live(lo, x) ==> Complete(data, k, kids, kids', size, lo, at, x, ptr0, ptr1)
  {
  }

  /** The writes at ptr0 and ptr1 are outside the tree. */
  lemma WritesOutside(kids: seq<int>, kids': seq<int>, size: nat, xs: set<int>, ptr0: nat, ptr1: nat)
    requires size > 0 && |kids| == |kids'| == 2 * size && Clear(xs, size, ptr0) && Clear(xs, size, ptr1)
    requires forall i: nat :: i < 2 * size && i != ptr0 && i != ptr1 ==> kids'[i] == kids[i]
    ensures SameAt(kids, kids', size, xs)
  {
  }

  /** A position that agrees in all k bytes is replaced: its children are the two parts. */
  lemma Replaced(data: seq<bv8>, k: nat, kids: seq<int>, kids': seq<int>, size: nat, lo: int, at: nat, x: int, ptr0: nat, ptr1: nat,
                 len0: nat, len1: nat)
    requires Ready(data, k, kids, size, lo, at, x, ptr0, ptr1, len0, len1) && Live(lo, x)
    requires Common(data, x, at, k) == k
    requires kids' == kids[ptr1 := Left(kids, size, x)][ptr0 := Right(kids, size, x)]
    ensures Apart(data, k, kids, kids', size, lo, at, x, ptr0, ptr1)
    ensures Complete(data, k, kids, kids', size, lo, at, x, ptr0, ptr1)
  {
    var e, l, r := Elems(kids, size, lo, x), Left(kids, size, x), Right(kids, size, x);
    WritesOutside(kids, kids', size, e, ptr0, ptr1);
    OrderedFrame(data, k, kids, kids', size, lo, l);
    OrderedFrame(data, k, kids, kids', size, lo, r);
    forall y | y in Elems(kids, size, lo, l) ensures 0 <= y < at && LE(data, y, at, k) { EqualStandsFor(data, y, x, at, k); }
    forall y | y in Elems(kids, size, lo, r) ensures 0 <= y < at && LE(data, at, y, k) { EqualStandsFor(data, y, x, at, k); }
  }

  /** The pair of x is outside the trees of its children. */
  lemma PairClear(kids: seq<int>, size: nat, lo: int, x: int, c: int, i: nat)
    requires size > 0 && |kids| == 2 * size && Live(lo, x) && x < lo + size && c < x && i / 2 == x % size
    ensures Clear(Elems(kids, size, lo, c), size, i)
  {
    ElemsBounds(kids, size, lo, c);
    forall y | y in Elems(kids, size, lo, c) && 0 <= y ensures i / 2 != y % size { ModDistinct(x, y, size); }
  }

  /** Trees without a common position have no common pair. */
  lemma PairsClear(size: nat, lo: int, xs: set<int>, ys: set<int>, x: int, i: nat)
    requires size > 0 && x in xs && xs !! ys && Live(lo, x) && x < lo + size && i / 2 == x % size
    requires forall y :: y in ys ==> Live(lo, y) && y < lo + size
    ensures Clear(ys, size, i)
  {
    forall y | y in ys && 0 <= y ensures i / 2 != y % size {
      assert y != x && Live(lo, y) && y < lo + size;
      if y < x { ModDistinct(x, y, size); } else { ModDistinct(y, x, size); }
    }
  }

  lemma NotInPair(xs: set<int>, size: nat, x: int, i: nat)
    requires size > 0 && Clear(xs, size, i) && x in xs && 0 <= x
    ensures i != 2 * (x % size) && i != 2 * (x % size) + 1
  {
  }

  lemma ClearSubset(xs: set<int>, ys: set<int>, size: nat, i: nat)
    requires size > 0 && Clear(xs, size, i) && ys <= xs
    ensures Clear(ys, size, i)
  {
  }

  /** The search goes on in one child c of x; the other child's tree d is left alone. */
  lemma OtherChild(kids: seq<int>, kids1: seq<int>, kids2: seq<int>, size: nat, lo: int, x: int, c: int, d: int, p: nat, hole: nat, q: nat)
    requires size > 0 && |kids| == |kids1| == |kids2| == 2 * size && Live(lo, x) && x < lo + size && c < x && d < x
    requires Elems(kids, size, lo, c) !! Elems(kids, size, lo, d) && p < 2 * size && q < 2 * size && hole < 2 * size
    requires forall i: nat :: i < 2 * size && i != q ==> kids1[i] == kids[i]
    requires forall i: nat :: i < 2 * size && i != p && i != hole && Clear(Elems(kids, size, lo, c), size, i) ==> kids2[i] == kids1[i]
    requires Clear(Elems(kids, size, lo, d), size, p) && Clear(Elems(kids, size, lo, d), size, q) && hole / 2 == x % size
    ensures SameAt(kids, kids2, size, Elems(kids, size, lo, d))
  {
    var cs, ds := Elems(kids, size, lo, c), Elems(kids, size, lo, d);
    ElemsBounds(kids, size, lo, c);
    ElemsBounds(kids, size, lo, d);
    forall y | y in ds && 0 <= y
      ensures Left(kids2, size, y) == Left(kids, size, y) && Right(kids2, size, y) == Right(kids, size, y)
    {
      var i := 2 * (y % size);
      ModDistinct(x, y, size);
      PairsClear(size, lo, ds, cs, y, i);
      PairsClear(size, lo, ds, cs, y, i + 1);
    }
  }

  /** Going right at a smaller position x: how the search of its right child begins. */
  lemma GoRight(data: seq<bv8>, k: nat, kids: seq<int>, kids1: seq<int>, size: nat, lo: int, at: nat, x: int, ptr0: nat, ptr1: nat,
                len0: nat, len1: nat)
    requires Ready(data, k, kids, size, lo, at, x, ptr0, ptr1, len0, len1) && Live(lo, x)
    requires LE(data, x, at, k) && kids1 == kids[ptr1 := x]
    ensures Ready(data, k, kids1, size, lo, at, Right(kids, size, x), ptr0, 2 * (x % size) + 1, len0, Common(data, x, at, k))
    ensures Right(kids1, size, x) == Right(kids, size, x) && Elems(kids1, size, lo, Right(kids, size, x)) == Elems(kids, size, lo, Right(kids, size, x))
  {
    var r := Right(kids, size, x);
    var es, rs := Elems(kids, size, lo, x), Elems(kids, size, lo, r);
    assert x in es;
    WritesOutside(kids, kids1, size, es, ptr0, ptr1);
    OrderedFrame(data, k, kids, kids1, size, lo, r);
    PairClear(kids, size, lo, x, r, 2 * (x % size) + 1);
    ClearSubset(es, rs, size, ptr0);
    forall y | y in rs ensures Agrees(data, k, at, y, len0, Common(data, x, at, k)) {
      assert Agrees(data, k, at, y, len0, len1);
      if LE(data, y, at, k) { Between(data, x, y, at, k); }
    }
  }

  lemma GoLeft(data: seq<bv8>, k: nat, kids: seq<int>, kids1: seq<int>, size: nat, lo: int, at: nat, x: int, ptr0: nat, ptr1: nat,
               len0: nat, len1: nat)
    requires Ready(data, k, kids, size, lo, at, x, ptr0, ptr1, len0, len1) && Live(lo, x)
    requires LE(data, at, x, k) && kids1 == kids[ptr0 := x]
    ensures Ready(data, k, kids1, size, lo, at, Left(kids, size, x), 2 * (x % size), ptr1, Common(data, x, at, k), len1)
    ensures Left(kids1, size, x) == Left(kids, size, x) && Elems(kids1, size, lo, Left(kids, size, x)) == Elems(kids, size, lo, Left(kids, size, x))
  {
    var l := Left(kids, size, x);
    var es, ls := Elems(kids, size, lo, x), Elems(kids, size, lo, l);
    assert x in es;
    WritesOutside(kids, kids1, size, es, ptr0, ptr1);
    OrderedFrame(data, k, kids, kids1, size, lo, l);
    PairClear(kids, size, lo, x, l, 2 * (x % size));
    ClearSubset(es, ls, size, ptr1);
    forall y | y in ls ensures Agrees(data, k, at, y, Common(data, x, at, k), len1) {
      assert Agrees(data, k, at, y, len0, len1);
      if LE(data, at, y, k) { Between(data, x, y, at, k); }
    }
  }

  /** x with its tree rebuilt around the part s of one child: ordered, and inside the old tree. */
  lemma Rebuilt(data: seq<bv8>, k: nat, kids: seq<int>, kids2: seq<int>, size: nat, lo: int, at: nat, x: int, right: bool)
    requires size > 0 && |kids| == |kids2| == 2 * size && x < at && at + k <= |data| && Live(lo, x)
    requires Ordered(data, k, kids, size, lo, x)
    requires right ==> Left(kids2, size, x) == Left(kids, size, x)
    requires !right ==> Right(kids2, size, x) == Right(kids, size, x)
    requires SameAt(kids, kids2, size, Elems(kids, size, lo, if right then Left(kids, size, x) else Right(kids, size, x)))
    requires var c := if right then Right(kids, size, x) else Left(kids, size, x);
             var s := if right then Right(kids2, size, x) else Left(kids2, size, x);
             s < x && Part(data, k, kids2, size, lo, at, s, c, Elems(kids, size, lo, c))
    ensures Ordered(data, k, kids2, size, lo, x) && Elems(kids2, size, lo, x) <= Elems(kids, size, lo, x)
    ensures Elems(kids2, size, lo, x) ==
              {x} + Elems(kids, size, lo, if right then Left(kids, size, x) else Right(kids, size, x))
                  + Elems(kids2, size, lo, if right then Right(kids2, size, x) else Left(kids2, size, x))
  {
    var d := if right then Left(kids, size, x) else Right(kids, size, x);
    OrderedFrame(data, k, kids, kids2, size, lo, d);
  }

  /** What the search in one child c of x leaves of x's own pointers. */
  lemma KeepsParent(kids: seq<int>, kids1: seq<int>, kids2: seq<int>, size: nat, lo: int, x: int, c: int, p: nat, hole: nat, i: nat)
    requires size > 0 && |kids1| == |kids2| == |kids| == 2 * size && i < 2 * size && i != p && i != hole
    requires forall i: nat :: i < 2 * size && i != p && i != hole && Clear(Elems(kids, size, lo, c), size, i) ==> kids2[i] == kids1[i]
    requires Clear(Elems(kids, size, lo, c), size, i)
    ensures kids2[i] == kids1[i]
  {
  }

  /** Back from the right child of a smaller position. */
  lemma BackFromRight(data: seq<bv8>, k: nat, kids: seq<int>, kids1: seq<int>, kids2: seq<int>, size: nat, lo: int, at: nat, x: int,
                      ptr0: nat, ptr1: nat, len0: nat, len1: nat)
    requires Ready(data, k, kids, size, lo, at, x, ptr0, ptr1, len0, len1) && Live(lo, x)
    requires LE(data, x, at, k) && kids1 == kids[ptr1 := x]
    requires Apart(data, k, kids1, kids2, size, lo, at, Right(kids, size, x), ptr0, 2 * (x % size) + 1)
    requires Elems(kids1, size, lo, Right(kids, size, x)) == Elems(kids, size, lo, Right(kids, size, x))
    ensures Apart(data, k, kids, kids2, size, lo, at, x, ptr0, ptr1)
    ensures Complete(data, k, kids1, kids2, size, lo, at, Right(kids, size, x), ptr0, 2 * (x % size) + 1) ==>
              Complete(data, k, kids, kids2, size, lo, at, x, ptr0, ptr1)
  {
    hide Clear, LE;
    var l, r, hole := Left(kids, size, x), Right(kids, size, x), 2 * (x % size) + 1;
    var es, ls, rs := Elems(kids, size, lo, x), Elems(kids, size, lo, l), Elems(kids, size, lo, r);
    assert x in es;
    NotInPair(es, size, x, ptr0);
    NotInPair(es, size, x, ptr1);
    ClearSubset(es, rs, size, ptr1);
    ClearSubset(es, ls, size, ptr0);
    ClearSubset(es, ls, size, ptr1);
    PairClear(kids, size, lo, x, r, 2 * (x % size));
    KeepsParent(kids, kids1, kids2, size, lo, x, r, ptr0, hole, ptr1);
    KeepsParent(kids, kids1, kids2, size, lo, x, r, ptr0, hole, 2 * (x % size));
    OtherChild(kids, kids1, kids2, size, lo, x, r, l, ptr0, hole, ptr1);
    Rebuilt(data, k, kids, kids2, size, lo, at, x, true);
    ElemsBounds(kids, size, lo, r);
    forall y | y in ls ensures 0 <= y < at && LE(data, y, at, k) { LETrans(data, y, x, at, k); }
    forall i: nat | i < 2 * size && i != ptr0 && i != ptr1 && Clear(es, size, i) ensures kids2[i] == kids[i] {
      ClearSubset(es, rs, size, i);
      NotInPair(es, size, x, i);
    }
  }

  /** Back from the left child of a greater position. */
  lemma BackFromLeft(data: seq<bv8>, k: nat, kids: seq<int>, kids1: seq<int>, kids2: seq<int>, size: nat, lo: int, at: nat, x: int,
                     ptr0: nat, ptr1: nat, len0: nat, len1: nat)
    requires Ready(data, k, kids, size, lo, at, x, ptr0, ptr1, len0, len1) && Live(lo, x)
    requires LE(data, at, x, k) && kids1 == kids[ptr0 := x]
    requires Apart(data, k, kids1, kids2, size, lo, at, Left(kids, size, x), 2 * (x % size), ptr1)
    requires Elems(kids1, size, lo, Left(kids, size, x)) == Elems(kids, size, lo, Left(kids, size, x))
    ensures Apart(data, k, kids, kids2, size, lo, at, x, ptr0, ptr1)
    ensures Complete(data, k, kids1, kids2, size, lo, at, Left(kids, size, x), 2 * (x % size), ptr1) ==>
              Complete(data, k, kids, kids2, size, lo, at, x, ptr0, ptr1)
  {
    hide Clear, LE;
    var l, r, hole := Left(kids, size, x), Right(kids, size, x), 2 * (x % size);
    var es, ls, rs := Elems(kids, size, lo, x), Elems(kids, size, lo, l), Elems(kids, size, lo, r);
    assert x in es;
    NotInPair(es, size, x, ptr0);
    NotInPair(es, size, x, ptr1);
    ClearSubset(es, ls, size, ptr0);
    ClearSubset(es, rs, size, ptr0);
    ClearSubset(es, rs, size, ptr1);
    PairClear(kids, size, lo, x, l, 2 * (x % size) + 1);
    KeepsParent(kids, kids1, kids2, size, lo, x, l, ptr1, hole, ptr0);
    KeepsParent(kids, kids1, kids2, size, lo, x, l, ptr1, hole, 2 * (x % size) + 1);
    OtherChild(kids, kids1, kids2, size, lo, x, l, r, ptr1, hole, ptr0);
    Rebuilt(data, k, kids, kids2, size, lo, at, x, false);
    ElemsBounds(kids, size, lo, l);
    forall y | y in rs ensures 0 <= y < at && LE(data, at, y, k) { LETrans(data, at, x, y, k); }
    forall i: nat | i < 2 * size && i != ptr0 && i != ptr1 && Clear(es, size, i) ensures kids2[i] == kids[i] {
      ClearSubset(es, ls, size, i);
      NotInPair(es, size, x, i);
    }
  }

  /* ---------- the way down, and back up ---------- */

  /** One turn of the search: where it stands, and where the two parts will be attached. */
  datatype Frame = Frame(kids: seq<int>, x: int, ptr0: nat, ptr1: nat, len0: nat, len1: nat)

  ghost predicate FrameReady(data: seq<bv8>, k: nat, size: nat, lo: int, at: nat, f: Frame) {
    Ready(data, k, f.kids, size, lo, at, f.x, f.ptr0, f.ptr1, f.len0, f.len1)
  }

  ghost predicate FrameApart(data: seq<bv8>, k: nat, size: nat, lo: int, at: nat, f: Frame, kids: seq<int>) {
    Apart(data, k, f.kids, kids, size, lo, at, f.x, f.ptr0, f.ptr1)
  }

  ghost predicate FrameComplete(data: seq<bv8>, k: nat, size: nat, lo: int, at: nat, f: Frame, kids: seq<int>) {
    Complete(data, k, f.kids, kids, size, lo, at, f.x, f.ptr0, f.ptr1)
  }

  /** Two turns that follow each other: right from a smaller position, left from a greater one. */
  ghost predicate Follows(data: seq<bv8>, k: nat, size: nat, lo: int, at: nat, f: Frame, g: Frame) {
    FrameReady(data, k, size, lo, at, f) && Live(lo, f.x) &&
    var n := Common(data, f.x, at, k);
    (LE(data, f.x, at, k)
     && g == Frame(f.kids[f.ptr1 := f.x], Right(f.kids, size, f.x), f.ptr0, 2 * (f.x % size) + 1, f.len0, n))
    || (LE(data, at, f.x, k)
        && g == Frame(f.kids[f.ptr0 := f.x], Left(f.kids, size, f.x), 2 * (f.x % size), f.ptr1, n, f.len1))
  }

  lemma NextReady(data: seq<bv8>, k: nat, size: nat, lo: int, at: nat, f: Frame, g: Frame)
    requires Follows(data, k, size, lo, at, f, g)
    ensures FrameReady(data, k, size, lo, at, g)
  {
    hide Ready, LE;
    UnfoldReady(data, k, size, lo, at, f);
    if LE(data, f.x, at, k) && g.ptr0 == f.ptr0 && g.x == Right(f.kids, size, f.x) && g.kids == f.kids[f.ptr1 := f.x]
       && g.ptr1 == 2 * (f.x % size) + 1 && g.len0 == f.len0 && g.len1 == Common(data, f.x, at, k) {
      GoRight(data, k, f.kids, g.kids, size, lo, at, f.x, f.ptr0, f.ptr1, f.len0, f.len1);
    } else {
      GoLeft(data, k, f.kids, g.kids, size, lo, at, f.x, f.ptr0, f.ptr1, f.len0, f.len1);
    }
  }

  lemma UnfoldReady(data: seq<bv8>, k: nat, size: nat, lo: int, at: nat, f: Frame)
    requires FrameReady(data, k, size, lo, at, f)
    ensures size > 0 && |f.kids| == 2 * size && f.ptr0 < 2 * size && f.ptr1 < 2 * size && -1 <= f.x < at && at + k <= |data|
  {
  }

  lemma Back(data: seq<bv8>, k: nat, size: nat, lo: int, at: nat, f: Frame, g: Frame, kids: seq<int>)
    requires Follows(data, k, size, lo, at, f, g) && FrameApart(data, k, size, lo, at, g, kids)
    ensures FrameApart(data, k, size, lo, at, f, kids)
    ensures FrameComplete(data, k, size, lo, at, g, kids) ==> FrameComplete(data, k, size, lo, at, f, kids)
  {
    hide Ready, LE, Apart, Complete;
    UnfoldReady(data, k, size, lo, at, f);
    if LE(data, f.x, at, k) && g.ptr0 == f.ptr0 && g.x == Right(f.kids, size, f.x) && g.kids == f.kids[f.ptr1 := f.x]
       && g.ptr1 == 2 * (f.x % size) + 1 && g.len0 == f.len0 && g.len1 == Common(data, f.x, at, k) {
      GoRight(data, k, f.kids, g.kids, size, lo, at, f.x, f.ptr0, f.ptr1, f.len0, f.len1);
      BackFromRight(data, k, f.kids, g.kids, kids, size, lo, at, f.x, f.ptr0, f.ptr1, f.len0, f.len1);
    } else {
      GoLeft(data, k, f.kids, g.kids, size, lo, at, f.x, f.ptr0, f.ptr1, f.len0, f.len1);
      BackFromLeft(data, k, f.kids, g.kids, kids, size, lo, at, f.x, f.ptr0, f.ptr1, f.len0, f.len1);
    }
  }

  /** What a turn leaves behind agrees in no more bytes than the position it has compared. */
  lemma Narrowed(data: seq<bv8>, k: nat, size: nat, lo: int, at: nat, f: Frame, g: Frame)
    requires Follows(data, k, size, lo, at, f, g)
    ensures size > 0 && |f.kids| == |g.kids| == 2 * size && 0 <= f.x < at && at + k <= |data|
    ensures f.x in Elems(f.kids, size, lo, f.x) && f.x !in Elems(g.kids, size, lo, g.x)
    ensures Elems(g.kids, size, lo, g.x) <= Elems(f.kids, size, lo, f.x)
    ensures forall y :: y in Elems(f.kids, size, lo, f.x) && y !in Elems(g.kids, size, lo, g.x) ==>
              0 <= y < at && Common(data, y, at, k) <= Common(data, f.x, at, k)
  {
    hide LE;
    UnfoldReady(data, k, size, lo, at, f);
    var right := LE(data, f.x, at, k) && g.ptr0 == f.ptr0 && g.x == Right(f.kids, size, f.x) && g.kids == f.kids[f.ptr1 := f.x]
                 && g.ptr1 == 2 * (f.x % size) + 1 && g.len0 == f.len0 && g.len1 == Common(data, f.x, at, k);
    if right {
      GoRight(data, k, f.kids, g.kids, size, lo, at, f.x, f.ptr0, f.ptr1, f.len0, f.len1);
    } else {
      GoLeft(data, k, f.kids, g.kids, size, lo, at, f.x, f.ptr0, f.ptr1, f.len0, f.len1);
    }
    ElemsBounds(g.kids, size, lo, g.x);
    forall y | y in Elems(f.kids, size, lo, f.x) && y !in Elems(g.kids, size, lo, g.x)
      ensures 0 <= y < at && Common(data, y, at, k) <= Common(data, f.x, at, k)
    {
      if y != f.x { Between(data, y, f.x, at, k); }
    }
  }

  /** A window that moves on loses no position that is still inside. */
  lemma {:induction false} ElemsShrink(data: seq<bv8>, k: nat, kids: seq<int>, size: nat, lo: int, lo': int, x: int, y: int)
    requires size > 0 && |kids| == 2 * size && x + k <= |data| && lo <= lo' && Ordered(data, k, kids, size, lo, x)
    requires y in Elems(kids, size, lo, x) && Live(lo', y)
    ensures y in Elems(kids, size, lo', x)
    decreases if x < 0 then 0 else x + 1
  {
    ElemsBounds(kids, size, lo, x);
    if y != x {
      var l, r := Left(kids, size, x), Right(kids, size, x);
      if y in Elems(kids, size, lo, l) {
        ElemsShrink(data, k, kids, size, lo, lo', l, y);
      } else {
        ElemsShrink(data, k, kids, size, lo, lo', r, y);
      }
    }
  }

  /** A position with the same first k bytes agrees with any third as far, in its first j. */
  lemma {:induction false} StandsIn(data: seq<bv8>, y: nat, z: nat, c: nat, k: nat, j: nat)
    requires y + k <= |data| && z + k <= |data| && c + j <= |data| && j <= k && Common(data, y, z, k) == k
    ensures Common(data, y, c, j) == Common(data, z, c, j)
    decreases j
  {
    if j > 0 { StandsIn(data, y + 1, z + 1, c + 1, k - 1, j - 1); }
  }

  lemma {:induction false} CommonSelf(data: seq<bv8>, a: nat, k: nat)
    requires a + k <= |data|
    ensures Common(data, a, a, k) == k
    decreases k
  {
    if k > 0 { CommonSelf(data, a + 1, k - 1); }
  }

  lemma {:induction false} CommonFlip(data: seq<bv8>, a: nat, b: nat, k: nat)
    requires a + k <= |data| && b + k <= |data|
    ensures Common(data, a, b, k) == Common(data, b, a, k)
    decreases k
  {
    if k > 0 && data[a] == data[b] { CommonFlip(data, a + 1, b + 1, k - 1); }
  }

  ghost predicate Trail(data: seq<bv8>, k: nat, size: nat, lo: int, at: nat, trail: seq<Frame>) {
    forall i :: 0 <= i < |trail| - 1 ==> Follows(data, k, size, lo, at, trail[i], trail[i + 1])
  }

  /** What the last turn leaves is, seen from the first, the whole tree taken apart. */
  lemma {:induction false} Unwind(data: seq<bv8>, k: nat, size: nat, lo: int, at: nat, trail: seq<Frame>, kids: seq<int>)
    requires trail != [] && Trail(data, k, size, lo, at, trail)
    requires FrameApart(data, k, size, lo, at, trail[|trail| - 1], kids)
    ensures FrameApart(data, k, size, lo, at, trail[0], kids)
    ensures FrameComplete(data, k, size, lo, at, trail[|trail| - 1], kids) ==> FrameComplete(data, k, size, lo, at, trail[0], kids)
  {
    hide FrameApart, FrameComplete, Follows;
    if |trail| > 1 {
      var n := |trail| - 1;
      Back(data, k, size, lo, at, trail[n - 1], trail[n], kids);
      assert trail[..n][n - 1] == trail[n - 1];
      Unwind(data, k, size, lo, at, trail[..n], kids);
    }
  }

  lemma SameShorter(data: seq<bv8>, a: nat, b: nat, m: nat, n: nat)
    requires a + n <= |data| && b + n <= |data| && m <= n && Same(data, a, b, n)
    ensures Same(data, a, b, m)
  {
    assert data[a..a + m] == data[a..a + n][..m] && data[b..b + m] == data[b..b + n][..m];
  }

  /** At the position reached, the shorter of the two known prefixes agrees. */
  lemma StartAgrees(data: seq<bv8>, k: nat, size: nat, lo: int, at: nat, f: Frame)
    requires FrameReady(data, k, size, lo, at, f) && Live(lo, f.x)
    ensures f.x < at && at + k <= |data|
    ensures var m := if f.len0 < f.len1 then f.len0 else f.len1;
            m <= Common(data, f.x, at, k) && m <= k && Same(data, f.x, at, m)
  {
    hide Same, LE, Common, Clear;
    assert f.x in Elems(f.kids, size, lo, f.x);
    LETotal(data, f.x, at, k);
    CommonSame(data, f.x, at, k);
    assert Agrees(data, k, at, f.x, f.len0, f.len1);
    SameShorter(data, f.x, at, if f.len0 < f.len1 then f.len0 else f.len1, Common(data, f.x, at, k));
  }

  /* ---------- what the search has seen ---------- */

  /** `path` are the positions compared so far; every other one of the tree agrees in no more than maxLen bytes, or is below. */
  ghost predicate Searched(data: seq<bv8>, k: nat, size: nat, lo: int, at: nat, all: set<int>, path: set<int>, f: Frame, maxLen: nat) {
    size > 0 && |f.kids| == 2 * size && at + k <= |data| &&
    var es := Elems(f.kids, size, lo, f.x);
    path <= all && es <= all && path !! es && forall y :: y in all && y !in es ==> 0 <= y < at && Common(data, y, at, k) <= maxLen
  }

  lemma SearchedNext(data: seq<bv8>, k: nat, size: nat, lo: int, at: nat, all: set<int>, path: set<int>, f: Frame, g: Frame,
                     maxLen: nat, maxLen': nat)
    requires Searched(data, k, size, lo, at, all, path, f, maxLen) && Follows(data, k, size, lo, at, f, g) && maxLen <= maxLen'
    requires 0 <= f.x < at && Common(data, f.x, at, k) <= maxLen'
    ensures Searched(data, k, size, lo, at, all, path + {f.x}, g, maxLen') && f.x !in path
  {
    hide Follows, Elems, Common;
    Narrowed(data, k, size, lo, at, f, g);
  }

  /** Where nothing is below, everything has been compared or is known to agree in no more. */
  lemma SearchedAll(data: seq<bv8>, k: nat, size: nat, lo: int, at: nat, all: set<int>, path: set<int>, f: Frame, maxLen: nat)
    requires Searched(data, k, size, lo, at, all, path, f, maxLen) && !Live(lo, f.x)
    ensures forall y :: y in all ==> 0 <= y < at && Common(data, y, at, k) <= maxLen
  {
    hide Common;
  }

  /** Where something is below, the tree has more positions than have been compared. */
  lemma SearchedMore(data: seq<bv8>, k: nat, size: nat, lo: int, at: nat, all: set<int>, path: set<int>, f: Frame, maxLen: nat)
    requires Searched(data, k, size, lo, at, all, path, f, maxLen) && Live(lo, f.x)
    ensures |all| > |path|
  {
    hide Common;
    assert f.x in Elems(f.kids, size, lo, f.x);
    assert all == path + {f.x} + (all - path - {f.x});
  }
}

/** The skip list behind an Inst: linked nodes with several forward pointers each, kept equal to
    a sequence sorted by first monad and object id, whatever levels are drawn. */
module SkipList {

  /** An InstObject, as far as the list looks at it: first monad (the key), last monad, id. */
  datatype Obj = Obj(first: int, last: int, id: int)

  const MAX_LEVELS := 18
  const NIL_KEY := 0x7fff_ffff

  // ---------------------------------------------------------------- sorted sequences

  /** cmp_SkipListNode */
  predicate Before(a: Obj, b: Obj) { a.first < b.first || (a.first == b.first && a.id < b.id) }

  predicate Sorted(s: seq<Obj>) { forall i, j :: 0 <= i < j < |s| ==> !Before(s[j], s[i]) }

  /** Where an object goes: after everything before it. */
  function Place(s: seq<Obj>, x: Obj): (p: nat)
    ensures p <= |s|
  {
    if s == [] || !Before(s[0], x) then 0 else 1 + Place(s[1..], x)
  }

  function InsertInto(s: seq<Obj>, x: Obj): seq<Obj> { s[..Place(s, x)] + [x] + s[Place(s, x)..] }

  lemma {:induction false} PlaceSplits(s: seq<Obj>, x: Obj)
    requires Sorted(s)
    ensures forall i :: 0 <= i < |s| ==> (Before(s[i], x) <==> i < Place(s, x))
  {
    if s != [] && Before(s[0], x) {
      PlaceSplits(s[1..], x);
      forall i | 0 <= i < |s| ensures Before(s[i], x) <==> i < Place(s, x) {
        if i > 0 { assert s[i] == s[1..][i - 1]; }
      }
    }
  }

  lemma PlaceIs(s: seq<Obj>, x: Obj, p: nat)
    requires Sorted(s) && p <= |s|
    requires p > 0 ==> Before(s[p - 1], x)
    requires p < |s| ==> !Before(s[p], x)
    ensures Place(s, x) == p
  {
    PlaceSplits(s, x);
  }

  lemma InsertIntoAt(s: seq<Obj>, x: Obj, i: nat)
    requires i <= |s|
    ensures var p := Place(s, x);
            |InsertInto(s, x)| == |s| + 1 && InsertInto(s, x)[i] == if i < p then s[i] else if i == p then x else s[i - 1]
  {
    hide Place;
  }

  /** Insertion keeps the order and adds exactly the one object. */
  lemma InsertSorted(s: seq<Obj>, x: Obj)
    requires Sorted(s)
    ensures Sorted(InsertInto(s, x)) && multiset(InsertInto(s, x)) == multiset(s) + multiset{x}
  {
    hide Place, InsertInto;
    PlaceSplits(s, x);
    var r := InsertInto(s, x);
    InsertIntoAt(s, x, 0);
    forall i, j | 0 <= i < j < |r| ensures !Before(r[j], r[i]) {
      InsertIntoAt(s, x, i);
      InsertIntoAt(s, x, j);
    }
    InsertMultiset(s, x);
  }

  lemma InsertMultiset(s: seq<Obj>, x: Obj)
    ensures multiset(InsertInto(s, x)) == multiset(s) + multiset{x}
  {
    var p := Place(s, x);
    assert s == s[..p] + s[p..];
  }

  /** Objects in the order in which any sequence of insertions leaves them. */
  function InsertAll(s: seq<Obj>, xs: seq<Obj>): seq<Obj>
    decreases |xs|
  {
    if xs == [] then s else InsertAll(InsertInto(s, xs[0]), xs[1..])
  }

  /** Over every run of insertions: sorted, and exactly what was inserted. */
  lemma {:induction false} InsertAllSorted(s: seq<Obj>, xs: seq<Obj>)
    requires Sorted(s)
    ensures Sorted(InsertAll(s, xs)) && multiset(InsertAll(s, xs)) == multiset(s) + multiset(xs)
    decreases |xs|
  {
    if xs != [] {
      InsertSorted(s, xs[0]);
      InsertAllSorted(InsertInto(s, xs[0]), xs[1..]);
      assert xs == [xs[0]] + xs[1..];
    }
  }

  // ---------------------------------------------------------------- levels

  /** Heights in list order, from the head to the end node, which stands on every level. */
  predicate HeightsOk(h: seq<nat>) {
    |h| >= 2 && h[0] == MAX_LEVELS && h[|h| - 1] == MAX_LEVELS && forall i :: 0 <= i < |h| ==> 1 <= h[i] <= MAX_LEVELS
  }

  /** The next node on level k after node i. */
  function Next(h: seq<nat>, i: nat, k: nat): (j: nat)
    requires HeightsOk(h) && i < |h| - 1 && k < MAX_LEVELS
    ensures i < j < |h| && h[j] > k
    ensures forall t :: i < t < j ==> h[t] <= k
    decreases |h| - i
  {
    if h[i + 1] > k then i + 1 else Next(h, i + 1, k)
  }

  lemma NextIs(h: seq<nat>, i: nat, k: nat, j: nat)
    requires HeightsOk(h) && i < j < |h| && k < MAX_LEVELS
    requires h[j] > k && forall t :: i < t < j ==> h[t] <= k
    ensures Next(h, i, k) == j
  {
  }

  function InsertHeight(h: seq<nat>, p: nat, x: nat): (h': seq<nat>)
    requires p <= |h|
    ensures |h'| == |h| + 1
    ensures forall t :: 0 <= t < p ==> h'[t] == h[t]
    ensures h'[p] == x
    ensures forall t :: p < t < |h'| ==> h'[t] == h[t - 1]
  {
    h[..p] + [x] + h[p..]
  }

  lemma InsertHeightOk(h: seq<nat>, p: nat, x: nat)
    requires HeightsOk(h) && 1 <= p < |h| && 1 <= x <= MAX_LEVELS
    ensures HeightsOk(InsertHeight(h, p, x))
  {
  }

  // How the level links move when a node of height x is put at position p.

  lemma NextBefore(h: seq<nat>, p: nat, x: nat, i: nat, k: nat)
    requires HeightsOk(h) && i < p < |h| && k < MAX_LEVELS && HeightsOk(InsertHeight(h, p, x))
    ensures var h', j := InsertHeight(h, p, x), Next(h, i, k);
            Next(h', i, k) == if j < p then j else if k < x then p else j + 1
  {
    hide Next, HeightsOk, InsertHeight;
    var h', j := InsertHeight(h, p, x), Next(h, i, k);
    if j < p {
      NextIs(h', i, k, j);
    } else if k < x {
      NextIs(h', i, k, p);
    } else {
      NextIs(h', i, k, j + 1);
    }
  }

  lemma NextOfNew(h: seq<nat>, p: nat, x: nat, i: nat, k: nat)
    requires HeightsOk(h) && i < p < |h| && k < MAX_LEVELS && p <= Next(h, i, k) && HeightsOk(InsertHeight(h, p, x))
    ensures Next(InsertHeight(h, p, x), p, k) == Next(h, i, k) + 1
  {
    hide Next, HeightsOk, InsertHeight;
    NextIs(InsertHeight(h, p, x), p, k, Next(h, i, k) + 1);
  }

  lemma NextBeyond(h: seq<nat>, p: nat, x: nat, i: nat, k: nat)
    requires HeightsOk(h) && p <= i < |h| - 1 && k < MAX_LEVELS && HeightsOk(InsertHeight(h, p, x))
    ensures Next(InsertHeight(h, p, x), i + 1, k) == Next(h, i, k) + 1
  {
    hide Next, HeightsOk, InsertHeight;
    NextIs(InsertHeight(h, p, x), i + 1, k, Next(h, i, k) + 1);
  }

  class Node {
    const obj: Obj
    var forward: seq<Node?>

    constructor (obj: Obj, levels: nat)
      ensures this.obj == obj && forward == seq(levels, _ => null)
    {
      this.obj := obj;
      forward := seq(levels, _ => null);
    }
  }

  function ObjsOf(nodes: seq<Node>): (s: seq<Obj>)
    ensures |s| == |nodes| && forall i :: 0 <= i < |nodes| ==> s[i] == nodes[i].obj
  {
    seq(|nodes|, i requires 0 <= i < |nodes| => nodes[i].obj)
  }

  ghost predicate Distinct(order: seq<Node>) { forall i, j :: 0 <= i < j < |order| ==> order[i] != order[j] }

  /** Every forward pointer leads to the next node that has that level. */
  ghost predicate LinkedNodes(order: seq<Node>, h: seq<nat>)
    requires HeightsOk(h) && |order| == |h|
    reads order
  {
    forall i :: 0 <= i < |order| - 1 ==>
      && |order[i].forward| == h[i]
      && forall k :: 0 <= k < h[i] ==> order[i].forward[k] == order[Next(h, i, k)]
  }

  ghost predicate Bounded(us: seq<nat>, h: seq<nat>) {
    |us| <= MAX_LEVELS && forall k :: 0 <= k < |us| ==> us[k] < |h| - 1 && k < h[us[k]]
  }

  /** Node i's pointers when the levels from..top lead from us[t] to q. */
  ghost predicate LinksOf(order: seq<Node>, h: seq<nat>, i: nat, us: seq<nat>, q: Node, from: nat, top: nat)
    requires HeightsOk(h) && |order| == |h| && top < |us| && i < |order| - 1
    reads order
  {
    && |order[i].forward| == h[i]
    && forall t :: 0 <= t < h[i] ==>
         order[i].forward[t] == if from <= t <= top && i == us[t] then q else order[Next(h, i, t)]
  }

  /** What the splice leaves behind: on levels from..top, us[t] leads to q and q leads on. */
  ghost predicate Spliced(order: seq<Node>, h: seq<nat>, us: seq<nat>, q: Node, from: nat, top: nat)
    requires HeightsOk(h) && |order| == |h| && top < |us| && Bounded(us, h)
    reads order, q
  {
    && |q.forward| == top + 1 && q !in order
    && (forall t :: from <= t <= top ==> q.forward[t] == order[Next(h, us[t], t)])
    && forall i :: 0 <= i < |order| - 1 ==> LinksOf(order, h, i, us, q, from, top)
  }

  function InsertNode(order: seq<Node>, pos: nat, q: Node): (r: seq<Node>)
    requires pos <= |order|
    ensures |r| == |order| + 1 && r[pos] == q
    ensures forall j :: 0 <= j < |order| ==> r[Moved(j, pos)] == order[j]
  {
    order[..pos] + [q] + order[pos..]
  }

  lemma InsertNodeMembers(order: seq<Node>, pos: nat, q: Node)
    requires 1 <= pos < |order|
    ensures forall n :: n in InsertNode(order, pos, q) ==> n == q || n in order
    ensures var r := InsertNode(order, pos, q);
            forall i :: 0 < i < |r| - 1 ==> r[i] == q || r[i] in order[1..|order| - 1]
  {
  }

  lemma InsertNodeDistinct(order: seq<Node>, pos: nat, q: Node)
    requires pos <= |order| && Distinct(order) && q !in order
    ensures Distinct(InsertNode(order, pos, q))
  {
    var r := InsertNode(order, pos, q);
    assert forall j :: 0 <= j < |r| ==> r[j] == if j < pos then order[j] else if j == pos then q else order[j - 1];
  }

  /** The spliced pointers of node i are its links in the list with q at position pos. */
  lemma RelinkedNode(order: seq<Node>, h: seq<nat>, us: seq<nat>, q: Node, top: nat, pos: nat, i: nat)
    requires HeightsOk(h) && |order| == |h| && top < |us| && Bounded(us, h) && 1 <= pos < |order| && i < |order| - 1
    requires forall k :: 0 <= k <= top ==> us[k] < pos <= Next(h, us[k], k)
    requires LinksOf(order, h, i, us, q, 0, top) && HeightsOk(InsertHeight(h, pos, top + 1))
    ensures var order', h', i' := InsertNode(order, pos, q), InsertHeight(h, pos, top + 1), Moved(i, pos);
            && order'[i'] == order[i] && h'[i'] == h[i]
            && forall k :: 0 <= k < h[i] ==> order[i].forward[k] == order'[Next(h', i', k)]
  {
    hide Next, InsertHeight, InsertNode;
    var order', h', i' := InsertNode(order, pos, q), InsertHeight(h, pos, top + 1), Moved(i, pos);
    forall k | 0 <= k < h[i] ensures order[i].forward[k] == order'[Next(h', i', k)] {
      LinkIndex(h, us, top, pos, i, k);
    }
  }

  lemma RelinkedNew(order: seq<Node>, h: seq<nat>, us: seq<nat>, q: Node, top: nat, pos: nat)
    requires HeightsOk(h) && |order| == |h| && top < |us| && Bounded(us, h) && 1 <= pos < |order|
    requires forall k :: 0 <= k <= top ==> us[k] < pos <= Next(h, us[k], k)
    requires Spliced(order, h, us, q, 0, top) && HeightsOk(InsertHeight(h, pos, top + 1))
    ensures var order', h' := InsertNode(order, pos, q), InsertHeight(h, pos, top + 1);
            forall k :: 0 <= k <= top ==> q.forward[k] == order'[Next(h', pos, k)]
  {
    hide Next, InsertHeight, InsertNode;
    var order', h' := InsertNode(order, pos, q), InsertHeight(h, pos, top + 1);
    forall k | 0 <= k <= top ensures q.forward[k] == order'[Next(h', pos, k)] {
      LinkIndex(h, us, top, pos, us[k], k);
    }
  }

  lemma Relinked(order: seq<Node>, h: seq<nat>, us: seq<nat>, q: Node, top: nat, pos: nat)
    requires HeightsOk(h) && |order| == |h| && top < |us| && Bounded(us, h) && 1 <= pos < |order|
    requires forall k :: 0 <= k <= top ==> us[k] < pos <= Next(h, us[k], k)
    requires Spliced(order, h, us, q, 0, top)
    ensures HeightsOk(InsertHeight(h, pos, top + 1))
    ensures LinkedNodes(InsertNode(order, pos, q), InsertHeight(h, pos, top + 1))
  {
    hide Next, InsertNode;
    InsertHeightOk(h, pos, top + 1);
    var order', h' := InsertNode(order, pos, q), InsertHeight(h, pos, top + 1);
    RelinkedNew(order, h, us, q, top, pos);
    forall i | 0 <= i < |order'| - 1
      ensures |order'[i].forward| == h'[i]
      ensures forall k :: 0 <= k < h'[i] ==> order'[i].forward[k] == order'[Next(h', i, k)]
    {
      if i != pos {
        var i0 := if i < pos then i else i - 1;
        assert LinksOf(order, h, i0, us, q, 0, top) && Moved(i0, pos) == i;
        RelinkedNode(order, h, us, q, top, pos, i0);
      }
    }
  }

  class List {
    var level: nat
    const head: Node
    const nil: Node
    ghost var order: seq<Node>     // head, the objects' nodes, nil
    ghost var heights: seq<nat>

    ghost function Last(): int
      reads this
    {
      |order| - 1
    }

    ghost predicate Shape()
      reads this
    {
      && HeightsOk(heights) && |order| == |heights| && level < MAX_LEVELS
      && order[0] == head && order[|order| - 1] == nil && Distinct(order)
      && (forall i :: 0 < i < |order| - 1 ==> heights[i] <= level + 1)
    }

    ghost predicate Linked()
      requires Shape()
      reads this, order
    {
      LinkedNodes(order, heights)
    }

    /** The objects, in list order. */
    ghost function Contents(): (s: seq<Obj>)
      requires |order| >= 2
      reads this
    {
      ObjsOf(order)[1..|order| - 1]
    }

    ghost predicate Valid()
      reads this, order
    {
      && Shape() && Linked()
      && nil.obj.first == NIL_KEY && Sorted(Contents())
      && (forall i :: 0 < i < |order| - 1 ==> order[i].obj.first < NIL_KEY)
    }

    constructor ()
      ensures Valid() && Contents() == [] && fresh(head) && fresh(nil)
    {
      level := 0;
      var n := new Node(Obj(NIL_KEY, NIL_KEY, 0), 1);
      var h := new Node(Obj(0, 0, 0), 0);
      nil, head := n, h;
      order, heights := [h, n], [MAX_LEVELS, MAX_LEVELS];
      new;
      head.forward := seq(MAX_LEVELS, _ => nil);
    }

    /** SkipList::search: the first node whose key is not below the one sought. */
    method Search(key: int) returns (q: Node, ghost j: nat)
      requires Valid() && key <= NIL_KEY
      ensures 1 <= j < |order| && q == order[j]
      ensures forall i :: 0 < i < j ==> order[i].obj.first < key
      ensures forall i :: j <= i < |order| ==> order[i].obj.first >= key
    {
      hide Sorted, Next, ObjsOf;
      var p: Node, k := head, level as int;
      ghost var pi := 0;
      q := nil;
      j := 1;
      while true
        invariant 0 <= k <= level && 0 <= pi < |order| - 1 && p == order[pi] && k < heights[pi]
        invariant pi > 0 ==> order[pi].obj.first < key
        decreases k
      {
        q := p.forward[k];
        j := Next(heights, pi, k);
        while q.obj.first < key
          invariant 0 <= pi < j < |order| && p == order[pi] && k < heights[pi]
          invariant j == Next(heights, pi, k) && q == order[j]
          invariant pi > 0 ==> order[pi].obj.first < key
          decreases |order| - pi
        {
          p, pi := q, j;
          q := p.forward[k];
          j := Next(heights, pi, k);
        }
        k := k - 1;
        if k < 0 { break; }
      }
      KeysSorted();
    }

    lemma KeysSorted()
      requires Valid()
      ensures forall i, j :: 0 < i < j < |order| ==> order[i].obj.first <= order[j].obj.first
    {
      var c := Contents();
      forall i, j | 0 < i < j < |order|
        ensures order[i].obj.first <= order[j].obj.first
      {
        if j < |order| - 1 {
          assert c[i - 1] == order[i].obj && c[j - 1] == order[j].obj;
        }
      }
    }

    /** Node u is, on level k, the last one before x. */
    ghost predicate BracketAt(k: nat, u: nat, x: Obj)
      requires Shape()
      reads this
    {
      && k < MAX_LEVELS && u < |order| - 1 && k < heights[u]
      && (u > 0 ==> Before(order[u].obj, x))
      && !Before(order[Next(heights, u, k)].obj, x)
    }

    ghost predicate Brackets(us: seq<nat>, x: Obj)
      requires Shape()
      reads this
    {
      forall k :: 0 <= k < |us| ==> BracketAt(k, us[k], x)
    }

    /** The inner loop of SkipList::insert: along level k as long as nodes are before x. */
    method WalkLevel(x: Obj, k: nat, p0: Node, ghost i0: nat) returns (p: Node, ghost pi: nat)
      requires Valid() && x.first < NIL_KEY && k < MAX_LEVELS
      requires i0 < |order| - 1 && p0 == order[i0] && k < heights[i0] && (i0 > 0 ==> Before(order[i0].obj, x))
      ensures pi < |order| - 1 && p == order[pi] && k < heights[pi] && (pi > 0 ==> Before(order[pi].obj, x))
      ensures BracketAt(k, pi, x)
    {
      hide Sorted, Next, ObjsOf;
      p, pi := p0, i0;
      var q: Node := p.forward[k];
      ghost var j := Next(heights, pi, k);
      while Before(q.obj, x)
        invariant 0 <= pi < j < |order| && p == order[pi] && k < heights[pi]
        invariant j == Next(heights, pi, k) && q == order[j]
        invariant pi > 0 ==> Before(order[pi].obj, x)
        decreases |order| - pi
      {
        p, pi := q, j;
        q := p.forward[k];
        j := Next(heights, pi, k);
      }
    }

    /** The descent of SkipList::insert: fills update[level..0]. */
    method FindUpdate(x: Obj) returns (update: seq<Node?>, ghost us: seq<nat>)
      requires Valid() && x.first < NIL_KEY
      ensures |update| == MAX_LEVELS && |us| == level + 1 && Brackets(us, x)
      ensures forall k :: 0 <= k <= level ==> us[k] < |order| && update[k] == order[us[k]]
    {
      hide Sorted, ObjsOf, Linked, Before, BracketAt;
      var p: Node, k := head, level as int;
      ghost var pi := 0;
      update := seq(MAX_LEVELS, _ => null);
      us := seq(level + 1, _ => 0);
      while true
        invariant 0 <= k <= level && 0 <= pi < |order| - 1 && p == order[pi] && k < heights[pi]
        invariant pi > 0 ==> Before(order[pi].obj, x)
        invariant |us| == level + 1 && |update| == MAX_LEVELS
        invariant forall t :: k < t <= level ==> BracketAt(t, us[t], x) && us[t] < |order| && update[t] == order[us[t]]
        decreases k
      {
        p, pi := WalkLevel(x, k, p, pi);
        update := update[k := p];
        us := us[k := pi];
        k := k - 1;
        if k < 0 { break; }
      }
    }

    /** All levels agree on the place: x goes right after us[0]. */
    lemma SamePlace(us: seq<nat>, x: Obj)
      requires Valid() && x.first < NIL_KEY && |us| >= 1 && Brackets(us, x)
      ensures Place(Contents(), x) == us[0]
      ensures forall k :: 0 <= k < |us| ==> us[k] <= us[0] < Next(heights, us[k], k)
    {
      hide Linked;
      var c, n := Contents(), us[0];
      assert Next(heights, n, 0) == n + 1;
      assert forall i :: 0 < i < |order| - 1 ==> c[i - 1] == order[i].obj;
      PlaceIs(c, x, n);
      PlaceSplits(c, x);
      forall k | 0 <= k < |us| ensures us[k] <= n < Next(heights, us[k], k) {
        var j := Next(heights, us[k], k);
        if us[k] > 0 { assert Before(c[us[k] - 1], x); }
        if j < |order| - 1 { assert !Before(c[j - 1], x); }
      }
    }

    method SpliceLevel(p: Node, ghost us: seq<nat>, q: Node, k: nat, ghost top: nat)
      requires Shape() && k <= top < |us| && Bounded(us, heights) && p == order[us[k]]
      requires Spliced(order, heights, us, q, k + 1, top)
      modifies p, q
      ensures Spliced(order, heights, us, q, k, top)
    {
      hide Next, HeightsOk;
      assert LinksOf(order, heights, us[k], us, q, k + 1, top);
      q.forward := q.forward[k := p.forward[k]];
      p.forward := p.forward[k := q];
      forall i | 0 <= i < |order| - 1 ensures LinksOf(order, heights, i, us, q, k, top) {
        assert old(LinksOf(order, heights, i, us, q, k + 1, top));
        assert i != us[k] ==> order[i] != p && order[i].forward == old(order[i].forward);
      }
    }

    /** The second loop of SkipList::insert. */
    method Splice(update: seq<Node?>, ghost us: seq<nat>, q: Node, top: nat)
      requires Shape() && Linked() && top < |us| && Bounded(us, heights) && |update| == MAX_LEVELS
      requires forall k :: 0 <= k <= top ==> update[k] == order[us[k]]
      requires q !in order && |q.forward| == top + 1
      modifies order, q
      ensures Spliced(order, heights, us, q, 0, top)
    {
      hide Next;
      var k: int := top;
      while true
        invariant 0 <= k <= top && Spliced(order, heights, us, q, k + 1, top)
        decreases k
      {
        SpliceLevel(update[k], us, q, k, top);
        k := k - 1;
        if k < 0 { break; }
      }
    }

    /** A level not used before links the head to the end. */
    lemma FreshLevel(pos: nat)
      requires Shape() && level + 1 < MAX_LEVELS && 1 <= pos < |order|
      ensures pos <= Next(heights, 0, level + 1)
    {
    }

    /** us[0..k] bracket position pos and update holds their nodes. */
    ghost predicate Ready(update: seq<Node?>, us: seq<nat>, k: nat, pos: nat)
      requires Shape()
      reads this
    {
      && k < |us| && Bounded(us, heights) && |update| == MAX_LEVELS && 1 <= pos < |order|
      && forall t :: 0 <= t <= k ==> update[t] == order[us[t]] && us[t] < pos <= Next(heights, us[t], t)
    }

    /** The middle part of SkipList::insert: at most one new level is opened. */
    method DrawLevel(drawn: nat, update0: seq<Node?>, ghost us0: seq<nat>, ghost pos: nat)
      returns (k: nat, update: seq<Node?>, ghost us: seq<nat>)
      requires Shape() && drawn < MAX_LEVELS && |us0| == level + 1 && Ready(update0, us0, level, pos)
      modifies `level
      ensures Shape() && k <= level && Ready(update, us, k, pos)
    {
      hide Next;
      k, update, us := drawn, update0, us0;
      if k > level {
        FreshLevel(pos);
        level := level + 1;
        k := level;
        update := update[k := head];
        us := us + [0];
      }
    }

    /** The last part of SkipList::insert: the new node is made and linked in on its levels. */
    method LinkIn(x: Obj, k: nat, update: seq<Node?>, ghost us: seq<nat>, ghost pos: nat) returns (q: Node)
      requires Shape() && Linked() && k <= level && Ready(update, us, k, pos)
      modifies order, `order, `heights
      ensures Shape() && Linked() && pos <= |old(order)| && order == InsertNode(old(order), pos, q)
      ensures fresh(q) && q.obj == x
    {
      hide Next, LinkedNodes;
      q := new Node(x, k + 1);
      Splice(update, us, q, k);
      Relinked(order, heights, us, q, k, pos);
      InsertNodeDistinct(order, pos, q);
      order, heights := InsertNode(order, pos, q), InsertHeight(heights, pos, k + 1);
    }

    lemma BracketsReady(update: seq<Node?>, us: seq<nat>, x: Obj)
      requires Valid() && x.first < NIL_KEY && |us| == level + 1 && Brackets(us, x) && |update| == MAX_LEVELS
      requires forall k :: 0 <= k <= level ==> us[k] < |order| && update[k] == order[us[k]]
      ensures Ready(update, us, level, us[0] + 1) && Place(Contents(), x) == us[0]
    {
      hide Next, Sorted, LinkedNodes, Place, Before;
      SamePlace(us, x);
    }

    /** SkipList::insert, with the level that randomLevel() drew. */
    method Insert(x: Obj, drawn: nat)
      requires Valid() && x.first < NIL_KEY && drawn < MAX_LEVELS
      modifies this, order
      ensures Valid() && forall n :: n in order && n !in old(order) ==> fresh(n)
      ensures Contents() == InsertInto(old(Contents()), x)
    {
      hide Next, Sorted, Brackets, LinkedNodes, Place, ObjsOf, InsertInto, Ready, Distinct, InsertNode;
      var update, us := FindUpdate(x);
      BracketsReady(update, us, x);
      InsertSorted(Contents(), x);
      ghost var pos := us[0] + 1;
      var k;
      k, update, us := DrawLevel(drawn, update, us, pos);
      var q := LinkIn(x, k, update, us, pos);
      ContentsInserted(old(order), q, pos);
      InsertNodeMembers(old(order), pos, q);
    }

    // ------------------------------------------------------------ reading

    /** SkipList::equal_range: exactly the run of objects whose first monad is key. */
    method EqualRange(key: int) returns (found: bool, b: Node, e: Node, ghost bi: nat, ghost ei: nat)
      requires Valid() && key <= NIL_KEY
      ensures 1 <= bi <= ei < |order| && b == order[bi] && e == order[ei]
      ensures forall i :: 0 < i < |order| - 1 ==> (order[i].obj.first == key <==> bi <= i < ei)
      ensures found <==> bi < ei
    {
      hide Next, Sorted, LinkedNodes, ObjsOf;
      b, bi := Search(key);
      e, ei := b, bi;
      KeysSorted();
      if b == nil { return false, nil, nil, |order| - 1, |order| - 1; }
      if b.obj.first != key { return false, nil, nil, |order| - 1, |order| - 1; }
      while e != nil && e.obj.first == key
        invariant bi <= ei < |order| && e == order[ei]
        invariant forall i :: bi <= i < ei ==> order[i].obj.first == key
        decreases |order| - ei
      {
        NextOnLevelZero(ei);
        e, ei := e.forward[0], ei + 1;
      }
      found := true;
    }

    /** Level 0 visits every node. */
    lemma NextOnLevelZero(i: nat)
      requires Valid() && i < |order| - 1
      ensures |order[i].forward| >= 1 && order[i].forward[0] == order[i + 1]
    {
      hide Sorted;
      assert Next(heights, i, 0) == i + 1;
    }

    /** The loop of SkipList::hasObject. */
    method FindObject(key: int, id: int) returns (found: bool, ghost at: nat)
      requires Valid() && key <= NIL_KEY
      ensures found ==> 0 < at < |order| - 1 && order[at].obj.first == key && order[at].obj.id == id
      ensures !found ==> forall i :: 0 < i < |order| - 1 && order[i].obj.first == key ==> order[i].obj.id != id
    {
      hide Next, Sorted, LinkedNodes, ObjsOf;
      var q: Node, j := Search(key);
      ghost var j0 := j;
      at := 0;
      KeysSorted();
      if q == nil { return false, 0; }
      if q.obj.first != key { return false, 0; }
      while q != nil && q.obj.first == key
        invariant j0 <= j < |order| && q == order[j]
        invariant forall i :: j0 <= i < j ==> order[i].obj.id != id
        decreases |order| - j
      {
        NextOnLevelZero(j);
        var pValue := q.obj;
        q, j := q.forward[0], j + 1;
        if pValue.id == id { return true, j - 1; }
      }
      found := false;
    }

    /** SkipList::hasObject */
    method HasObject(key: int, id: int) returns (found: bool)
      requires Valid() && key <= NIL_KEY
      ensures found <==> exists x :: x in Contents() && x.first == key && x.id == id
    {
      hide Next, Sorted, LinkedNodes;
      ghost var at;
      found, at := FindObject(key, id);
      ghost var c := Contents();
      assert forall i :: 0 < i < |order| - 1 ==> c[i - 1] == order[i].obj;
      if found { assert c[at - 1] in c; }
    }

    /** SkipListConstIterator::advanceToNextKey, with 0 for the end. */
    method AdvanceToNextKey(it: Node, ghost i: nat) returns (first: int, q: Node, ghost j: nat)
      requires Valid() && 1 <= i < |order| - 1 && it == order[i]
      ensures i < j < |order| && q == order[j]
      ensures forall t :: i <= t < j ==> order[t].obj.first == it.obj.first
      ensures if q == nil then first == 0 else first == q.obj.first > it.obj.first
    {
      hide Next, Sorted, LinkedNodes, ObjsOf;
      var current := it.obj.first;
      q, j := it, i;
      KeysSorted();
      while true
        invariant i <= j < |order| - 1 && q == order[j]
        invariant forall t :: i <= t <= j ==> order[t].obj.first == current
        decreases |order| - j
      {
        NextOnLevelZero(j);
        q, j := q.forward[0], j + 1;
        if q != nil {
          first := q.obj.first;
          if first > current { return; }
        } else {
          return 0, q, j;
        }
      }
    }

    /** Inst::nextAtHigherKey: the next key inside the universe, or the end. */
    method NextAtHigherKey(it: Node, ghost i: nat, lastMonad: int) returns (q: Node)
      requires Valid() && 1 <= i < |order| && it == order[i] && 0 <= lastMonad < NIL_KEY
      ensures q == nil ==> forall t :: i <= t < |order| - 1 ==> order[t].obj.first <= it.obj.first || order[t].obj.first > lastMonad
      ensures q != nil ==> q in order && it.obj.first < q.obj.first <= lastMonad
      ensures q != nil ==> forall t :: 0 < t < |order| - 1 ==> order[t].obj.first <= it.obj.first || order[t].obj.first >= q.obj.first
    {
      hide Next, Sorted, LinkedNodes, ObjsOf;
      if it == nil { return nil; }
      var first, r, j := AdvanceToNextKey(it, i);
      KeysSorted();
      if first > lastMonad {
        q := nil;
      } else {
        q := r;
      }
    }

    /** InstContents::objectsAtSm: the first object starting at sm, or the end. */
    method ObjectsAt(sm: int) returns (q: Node)
      requires Valid() && sm < NIL_KEY
      ensures q == nil <==> forall x :: x in Contents() ==> x.first != sm
      ensures q != nil ==> q in order && q.obj.first == sm && q.obj in Contents()
    {
      hide Next, Sorted, LinkedNodes, ObjsOf;
      var r, j := Search(sm);
      ghost var c := Contents();
      assert forall i :: 0 < i < |order| - 1 ==> c[i - 1] == order[i].obj;
      KeysSorted();
      if r.obj.first != sm {
        q := nil;
      } else {
        q := r;
        assert c[j - 1] == q.obj;
      }
    }

    /** SkipList::purge */
    method Purge()
      requires Valid()
      modifies this, head
      ensures Valid() && Contents() == []
    {
      head.forward := seq(MAX_LEVELS, _ => nil);
      level := 0;
      order, heights := [head, nil], [MAX_LEVELS, MAX_LEVELS];
    }
  }

  // ---------------------------------------------------------------- levels are subsequences

  /** Following the level-k links from i leads to j. */
  predicate Reaches(h: seq<nat>, i: nat, k: nat, j: nat)
    requires HeightsOk(h) && i < |h| && k < MAX_LEVELS
    decreases |h| - i
  {
    i == j || (i < |h| - 1 && Reaches(h, Next(h, i, k), k, j))
  }

  /** Level k reaches every later node that has level k; in particular every link of a higher
      level is a chain of links of the level below. */
  lemma {:induction false} LevelReaches(h: seq<nat>, i: nat, k: nat, j: nat)
    requires HeightsOk(h) && i <= j < |h| && k < MAX_LEVELS && h[j] > k
    ensures Reaches(h, i, k, j)
    decreases |h| - i
  {
    if i < j { LevelReaches(h, Next(h, i, k), k, j); }
  }

  lemma HigherLevelSkips(h: seq<nat>, i: nat, k: nat)
    requires HeightsOk(h) && i < |h| - 1 && k + 1 < MAX_LEVELS
    ensures Reaches(h, i, k, Next(h, i, k + 1))
  {
    LevelReaches(h, i, k, Next(h, i, k + 1));
  }

  lemma ContentsInserted(order: seq<Node>, q: Node, pos: nat)
    requires 1 <= pos < |order| && Place(ObjsOf(order)[1..|order| - 1], q.obj) == pos - 1
    ensures ObjsOf(InsertNode(order, pos, q))[1..|order|] == InsertInto(ObjsOf(order)[1..|order| - 1], q.obj)
  {
    hide Place, InsertNode, InsertInto;
    var r, s := InsertNode(order, pos, q), ObjsOf(order)[1..|order| - 1];
    InsertIntoAt(s, q.obj, 0);
    forall i | 0 <= i < |order| - 1 ensures r[i + 1].obj == InsertInto(s, q.obj)[i] {
      InsertIntoAt(s, q.obj, i);
      if i + 1 < pos { assert Moved(i + 1, pos) == i + 1; } else if i + 1 > pos { assert Moved(i, pos) == i + 1; }
    }
  }

  /** Where node j of the old list is in the longer one. */
  function Moved(j: nat, pos: nat): nat { if j < pos then j else j + 1 }

  /** The links of the longer list, in terms of the shorter: us[k] leads to the new node, the new
      node leads where us[k] led, and nothing else changes. */
  lemma LinkIndex(h: seq<nat>, us: seq<nat>, top: nat, pos: nat, i: nat, k: nat)
    requires HeightsOk(h) && 1 <= pos < |h| && top < |us| <= MAX_LEVELS && i < |h| - 1 && k < h[i]
    requires forall k :: 0 <= k <= top ==> us[k] < |h| - 1 && us[k] < pos <= Next(h, us[k], k) && k < h[us[k]]
    ensures HeightsOk(InsertHeight(h, pos, top + 1))
    ensures Next(InsertHeight(h, pos, top + 1), Moved(i, pos), k)
            == if k <= top && i == us[k] then pos else Moved(Next(h, i, k), pos)
    ensures k <= top ==> Next(InsertHeight(h, pos, top + 1), pos, k) == Moved(Next(h, us[k], k), pos)
  {
    hide Next, InsertHeight, HeightsOk;
    InsertHeightOk(h, pos, top + 1);
    LinkIndexMoved(h, us, top, pos, i, k);
    if k <= top { NextOfNew(h, pos, top + 1, us[k], k); }
  }

  lemma LinkIndexMoved(h: seq<nat>, us: seq<nat>, top: nat, pos: nat, i: nat, k: nat)
    requires HeightsOk(h) && 1 <= pos < |h| && top < |us| <= MAX_LEVELS && i < |h| - 1 && k < h[i]
    requires k <= top ==> us[k] < |h| - 1 && us[k] < pos <= Next(h, us[k], k) && k < h[us[k]]
    requires HeightsOk(InsertHeight(h, pos, top + 1))
    ensures Next(InsertHeight(h, pos, top + 1), Moved(i, pos), k)
            == if k <= top && i == us[k] then pos else Moved(Next(h, i, k), pos)
  {
    hide Next, InsertHeight;
    if i < pos {
      NextBefore(h, pos, top + 1, i, k);
      if k <= top && i != us[k] { LastBeforePos(h, us[k], i, k, pos); }
    } else {
      NextBeyond(h, pos, top + 1, i, k);
    }
  }

  /** Only one node below pos on level k has its next node at or beyond pos. */
  lemma LastBeforePos(h: seq<nat>, u: nat, i: nat, k: nat, pos: nat)
    requires HeightsOk(h) && u < |h| - 1 && i < |h| - 1 && k < MAX_LEVELS && k < h[u] && k < h[i]
    requires u < pos <= Next(h, u, k) && i < pos && i != u
    ensures Next(h, i, k) < pos
  {
  }
}

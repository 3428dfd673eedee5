/**
 * Sets of monads (EMdF/monads.cpp): a set of integers kept as the ascending
 * sequence of its maximal ranges. `SetOfMonads` keeps the ranges in a linked
 * list and `FastSetOfMonads` in a map keyed by first monad; in both the order
 * is that of the sequence used here. Because the ranges are maximal, the
 * sequence is determined by the set (`Canonical`).
 */
module Monads {
  import opened Options

  const MAX_MONAD := 2100000000

  /** MonadSetElement: the monads first..last. */
  datatype Mse = Mse(first: int, last: int)

  type MonadSet = seq<Mse>

  predicate Overlaps(a: Mse, b: Mse) { a.last >= b.first && a.first <= b.last }

  predicate Adjacent(a: Mse, b: Mse) { a.last + 1 == b.first || b.last + 1 == a.first }

  predicate Past(a: Mse, b: Mse) { a.first > b.last + 1 }

  function Subsume(a: Mse, b: Mse): Mse {
    Mse(if a.first > b.first then b.first else a.first, if a.last < b.last then b.last else a.last)
  }

  predicate In(m: int, a: Mse) { a.first <= m <= a.last }

  /** The invariant the source states for its sets: ranges ascend and never touch. */
  ghost predicate Normal(s: MonadSet) {
    (forall i :: 0 <= i < |s| ==> s[i].first <= s[i].last) &&
    (forall i, j :: 0 <= i < j < |s| ==> s[i].last + 1 < s[j].first)
  }

  /** Membership in the set of integers that the ranges stand for. */
  ghost predicate Has(s: MonadSet, m: int) {
    exists i :: 0 <= i < |s| && In(m, s[i])
  }

  ghost predicate Share(a: MonadSet, b: MonadSet) {
    exists m :: Has(a, m) && Has(b, m)
  }

  ghost predicate Within(a: MonadSet, b: MonadSet) {
    forall m :: Has(a, m) ==> Has(b, m)
  }

  /** m_first and m_last; the empty set keeps the values they start with. */
  function First(s: MonadSet): int { if s == [] then MAX_MONAD else s[0].first }

  function Last(s: MonadSet): int { if s == [] then 0 else s[|s| - 1].last }

  lemma Extremes(s: MonadSet)
    requires Normal(s) && s != []
    ensures Has(s, First(s)) && Has(s, Last(s))
    ensures forall m :: Has(s, m) ==> First(s) <= m <= Last(s)
  {
    assert In(First(s), s[0]) && In(Last(s), s[|s| - 1]);
  }

  lemma HasAppend(s: MonadSet, t: MonadSet, m: int)
    ensures Has(s + t, m) <==> Has(s, m) || Has(t, m)
  {
    if Has(s, m) {
      var i :| 0 <= i < |s| && In(m, s[i]);
      assert (s + t)[i] == s[i];
    }
    if Has(t, m) {
      var i :| 0 <= i < |t| && In(m, t[i]);
      assert (s + t)[|s| + i] == t[i];
    }
  }

  lemma HasOne(a: Mse, m: int)
    ensures Has([a], m) <==> In(m, a)
  {
    if In(m, a) { assert In(m, [a][0]); }
  }

  lemma HasSnoc(s: MonadSet, a: Mse, m: int)
    ensures Has(s + [a], m) <==> Has(s, m) || In(m, a)
  {
    HasAppend(s, [a], m);
    HasOne(a, m);
  }

  lemma HasTake(s: MonadSet, i: nat, m: int)
    requires i < |s|
    ensures Has(s[..i + 1], m) <==> Has(s[..i], m) || In(m, s[i])
  {
    assert s[..i + 1] == s[..i] + [s[i]];
    HasSnoc(s[..i], s[i], m);
  }

  /** Where the first range of a set ends: the successor of its last monad is missing. */
  lemma HeadEnds(s: MonadSet)
    requires Normal(s) && s != []
    ensures !Has(s, s[0].last + 1)
    ensures forall m :: Has(s[1..], m) <==> Has(s, m) && m > s[0].last
  {
    forall m ensures Has(s[1..], m) <==> Has(s, m) && m > s[0].last {
      assert s == [s[0]] + s[1..];
      HasAppend([s[0]], s[1..], m);
      HasOne(s[0], m);
    }
  }

  /** If a's first range starts inside b's and a is included in b, it also ends there. */
  lemma HeadAgrees(a: MonadSet, b: MonadSet)
    requires Normal(a) && Normal(b) && a != [] && b != []
    requires Within(a, b)
    requires b[0].first <= a[0].first <= b[0].last
    ensures a[0].last <= b[0].last
  {
    HeadEnds(b);
    if a[0].last > b[0].last {
      assert In(b[0].last + 1, a[0]);
      assert false;
    }
  }

  lemma SameStart(a: MonadSet, b: MonadSet)
    requires Normal(a) && Normal(b) && a != []
    requires Within(a, b) && Within(b, a)
    ensures b != [] && a[0] == b[0]
  {
    Extremes(a);
    assert Has(b, First(a));
    Extremes(b);
    assert Has(a, First(b));
    HeadAgrees(a, b);
    HeadAgrees(b, a);
  }

  /** A set of monads has one representation only. */
  lemma {:induction false} Canonical(a: MonadSet, b: MonadSet)
    requires Normal(a) && Normal(b)
    requires Within(a, b) && Within(b, a)
    ensures a == b
  {
    if a != [] {
      SameStart(a, b);
      HeadEnds(a);
      HeadEnds(b);
      Canonical(a[1..], b[1..]);
      assert a == [a[0]] + a[1..] && b == [b[0]] + b[1..];
    } else if b != [] {
      SameStart(b, a);
    }
  }

  /** std::map::upper_bound: the first range whose first monad exceeds k. */
  method UpperBound(s: MonadSet, k: int) returns (i: nat)
    requires Normal(s)
    ensures i <= |s|
    ensures forall j :: 0 <= j < i ==> s[j].first <= k
    ensures forall j :: i <= j < |s| ==> s[j].first > k
  {
    i := 0;
    while i < |s| && s[i].first <= k
      invariant i <= |s|
      invariant forall j :: 0 <= j < i ==> s[j].first <= k
    {
      i := i + 1;
    }
  }

  lemma AbsorbedHas(s: MonadSet, lo: nat, hi: nat, c: Mse, r: MonadSet, m: int)
    requires lo <= hi <= |s|
    requires r == s[..lo] + [c] + s[hi..]
    requires forall j :: lo <= j < hi ==> c.first <= s[j].first && s[j].last <= c.last
    ensures Has(r, m) <==> Has(s, m) || In(m, c)
  {
    hide Has, In;
    HasAppend(s[..lo] + [c], s[hi..], m);
    HasSnoc(s[..lo], c, m);
    assert s == s[..lo] + s[lo..hi] + s[hi..];
    HasAppend(s[..lo] + s[lo..hi], s[hi..], m);
    HasAppend(s[..lo], s[lo..hi], m);
    Covered(s, lo, hi, c, m);
  }

  lemma Covered(s: MonadSet, lo: nat, hi: nat, c: Mse, m: int)
    requires lo <= hi <= |s|
    requires forall j :: lo <= j < hi ==> c.first <= s[j].first && s[j].last <= c.last
    ensures Has(s[lo..hi], m) ==> In(m, c)
  {
    if Has(s[lo..hi], m) {
      var k :| 0 <= k < hi - lo && In(m, s[lo..hi][k]);
      assert In(m, s[lo + k]);
    }
  }

  /**
   * Replacing the ranges lo..hi by one range that covers them and touches no
   * other keeps the set normal and adds just what the new range holds.
   */
  lemma Absorbed(s: MonadSet, lo: nat, hi: nat, c: Mse, r: MonadSet)
    requires Normal(s) && lo <= hi <= |s| && c.first <= c.last
    requires r == s[..lo] + [c] + s[hi..]
    requires forall j :: lo <= j < hi ==> c.first <= s[j].first && s[j].last <= c.last
    requires lo > 0 ==> s[lo - 1].last + 1 < c.first
    requires hi < |s| ==> c.last + 1 < s[hi].first
    ensures Normal(r)
    ensures forall m :: Has(r, m) <==> Has(s, m) || In(m, c)
  {
    forall m ensures Has(r, m) <==> Has(s, m) || In(m, c) {
      AbsorbedHas(s, lo, hi, c, r, m);
    }
    forall i, j | 0 <= i < j < |r| ensures r[i].last + 1 < r[j].first {
      assert r[i] == if i < lo then s[i] else if i == lo then c else s[i - lo - 1 + hi];
      assert r[j] == if j < lo then s[j] else if j == lo then c else s[j - lo - 1 + hi];
      assert i < lo - 1 ==> s[i].last + 1 < s[lo - 1].first;
      assert j > lo + 1 ==> s[hi].last + 1 < s[j - lo - 1 + hi].first;
    }
  }

  lemma Merged(a: Mse, b: Mse, m: int)
    requires a.first <= a.last && b.first <= b.last && (Overlaps(a, b) || Adjacent(a, b))
    ensures In(m, Subsume(a, b)) <==> In(m, a) || In(m, b)
  {
  }

  /** The list with ranges cur..k taken out, read back as parts of the whole list. */
  lemma Spliced(s: MonadSet, cur: nat, k: nat, r: MonadSet)
    requires cur <= k <= |s| && r == s[..cur] + s[k..]
    ensures r[..cur] == s[..cur] && r[cur..] == s[k..]
    ensures cur < |r| <==> k < |s|
    ensures k < |s| ==> r[cur] == s[k] && r[..cur] + r[cur + 1..] == s[..cur] + s[k + 1..]
    ensures k < |s| && cur == k ==> r == s[..cur + 1] + s[k + 1..]
  {
  }

  /** Ranges cur..k have been absorbed into current, those before cur end too early to touch it. */
  ghost predicate Absorbing(s: MonadSet, mse: Mse, cur: nat, k: nat, current: Mse) {
    cur <= k <= |s| &&
    current.first <= mse.first && mse.last <= current.last &&
    (forall j :: cur <= j < k ==> current.first <= s[j].first && s[j].last <= current.last) &&
    (forall m :: In(m, current) ==> In(m, mse) || Has(s, m)) &&
    (cur > 0 ==> s[cur - 1].last + 1 < current.first)
  }

  lemma AbsorbNext(s: MonadSet, mse: Mse, cur: nat, k: nat, current: Mse)
    requires Normal(s) && mse.first <= mse.last && Absorbing(s, mse, cur, k, current) && k < |s|
    ensures Overlaps(current, s[k]) || Adjacent(current, s[k]) ==>
              Absorbing(s, mse, cur, k + 1, Subsume(current, s[k]))
    ensures !Overlaps(current, s[k]) && !Adjacent(current, s[k]) && !Past(s[k], current) ==>
              cur == k && Absorbing(s, mse, cur + 1, k + 1, current)
  {
    assert k > 0 ==> s[k - 1].last + 1 < s[k].first;
    if Overlaps(current, s[k]) || Adjacent(current, s[k]) {
      assert cur > 0 ==> s[cur - 1].last + 1 < s[k].first;
      forall m | In(m, Subsume(current, s[k])) ensures In(m, mse) || Has(s, m) {
        Merged(current, s[k], m);
      }
    }
  }

  lemma AbsorbDone(s: MonadSet, mse: Mse, cur: nat, k: nat, current: Mse, r: MonadSet)
    requires Normal(s) && mse.first <= mse.last && Absorbing(s, mse, cur, k, current)
    requires k < |s| ==> Past(s[k], current)
    requires r == s[..cur] + [current] + s[k..]
    ensures Normal(r)
    ensures forall m :: Has(r, m) <==> Has(s, m) || In(m, mse)
  {
    Absorbed(s, cur, k, current, r);
  }

  /**
   * The careful branch of FastSetOfMonads::addMSE: start one range before the
   * first that begins at or after mse, absorb what overlaps or touches, stop at
   * the first range past it.
   */
  method InsertCarefully(s: MonadSet, mse: Mse) returns (r: MonadSet)
    requires Normal(s) && mse.first <= mse.last
    ensures Normal(r)
    ensures forall m :: Has(r, m) <==> Has(s, m) || In(m, mse)
  {
    var cur: nat := UpperBound(s, mse.first - 1);
    if cur != 0 { cur := cur - 1; }
    assert cur > 0 && cur < |s| ==> s[cur - 1].last + 1 < s[cur].first;
    assert Absorbing(s, mse, cur, cur, mse);
    r := AbsorbFrom(s, mse, cur);
  }

  method AbsorbFrom(s: MonadSet, mse: Mse, start: nat) returns (r: MonadSet)
    requires Normal(s) && mse.first <= mse.last && Absorbing(s, mse, start, start, mse)
    requires start <= |s|
    ensures Normal(r)
    ensures forall m :: Has(r, m) <==> Has(s, m) || In(m, mse)
  {
    hide Absorbing, Has, Normal;
    var cur: nat, current := start, mse;
    ghost var k: nat := start;
    r := s;
    while cur < |r|
      invariant cur <= k <= |s| && r == s[..cur] + s[k..]
      invariant Absorbing(s, mse, cur, k, current)
      decreases |s| - k
    {
      Spliced(s, cur, k, r);
      AbsorbNext(s, mse, cur, k, current);
      if Overlaps(current, r[cur]) || Adjacent(current, r[cur]) {
        current := Subsume(current, r[cur]);
        r := r[..cur] + r[cur + 1..];
      } else if Past(r[cur], current) {
        break;
      } else {
        cur := cur + 1;
      }
      k := k + 1;
    }
    Spliced(s, cur, k, r);
    r := r[..cur] + [current] + r[cur..];
    AbsorbDone(s, mse, cur, k, current, r);
  }

  /** FastSetOfMonads::addMSE. */
  method AddMse(s: MonadSet, mse: Mse) returns (r: MonadSet)
    requires Normal(s) && mse.first <= mse.last
    ensures Normal(r)
    ensures forall m :: Has(r, m) <==> Has(s, m) || In(m, mse)
  {
    var n := |s|;
    if n == 0 || mse.first > Last(s) + 1 {
      r := s + [mse];
      Absorbed(s, n, n, mse, r);
    } else if mse.first >= s[n - 1].first {
      r := s[..n - 1] + [Subsume(s[n - 1], mse)];
      Absorbed(s, n - 1, n, Subsume(s[n - 1], mse), r);
    } else if mse.last == First(s) - 1 {
      r := [Subsume(s[0], mse)] + s[1..];
      Absorbed(s, 0, 1, Subsume(s[0], mse), r);
    } else if mse.last < First(s) - 1 {
      r := [mse] + s;
      Absorbed(s, 0, 0, mse, r);
    } else {
      r := InsertCarefully(s, mse);
    }
  }

  /** Appending after the last range, or extending the last range, when that is all an insertion does. */
  lemma AddedAtEnd(s: MonadSet, mse: Mse, r: MonadSet)
    requires Normal(s) && Normal(r) && mse.first <= mse.last
    requires forall m :: Has(r, m) <==> Has(s, m) || In(m, mse)
    requires s != [] ==> mse.first >= s[|s| - 1].last && mse.first != s[|s| - 1].last + 1
    ensures s == [] || mse.first > Last(s) + 1 ==> r == s + [mse]
    ensures s != [] && mse.first == Last(s) ==> r == s[..|s| - 1] + [Mse(s[|s| - 1].first, mse.last)]
  {
    var n := |s|;
    if s == [] || mse.first > Last(s) + 1 {
      Absorbed(s, n, n, mse, s + [mse]);
      Canonical(r, s + [mse]);
    } else {
      var c := Mse(s[n - 1].first, mse.last);
      Absorbed(s, n - 1, n, c, s[..n - 1] + [c]);
      Canonical(r, s[..n - 1] + [c]);
    }
  }

  /** m lies in the gap before range i, and that gap is shorter than g. */
  ghost predicate InGap(s: MonadSet, i: nat, g: int, m: int)
    requires 0 < i < |s|
  {
    s[i - 1].last < m < s[i].first && s[i].first - s[i - 1].last - 1 < g
  }

  ghost predicate InSmallGap(s: MonadSet, g: int, m: int) {
    exists i :: 0 < i < |s| && InGap(s, i, g, m)
  }

  ghost predicate GapsAtLeast(s: MonadSet, g: int) {
    forall i :: 0 < i < |s| ==> s[i].first - s[i - 1].last - 1 >= g
  }

  lemma SmallGapSnoc(s: MonadSet, i: nat, g: int, m: int)
    requires 0 < i < |s|
    ensures InSmallGap(s[..i + 1], g, m) <==> InSmallGap(s[..i], g, m) || InGap(s, i, g, m)
  {
    var t, u := s[..i + 1], s[..i];
    assert forall k :: 0 < k < i ==> (InGap(t, k, g, m) <==> InGap(u, k, g, m));
    assert InGap(t, i, g, m) <==> InGap(s, i, g, m);
  }

  ghost predicate Fills(r: MonadSet, s: MonadSet, g: int) {
    forall m :: Has(r, m) <==> Has(s, m) || InSmallGap(s, g, m)
  }

  /** What the next range adds: itself, or itself and the gap before it. */
  function Filled(s: MonadSet, i: nat, g: int): Mse
    requires 0 < i < |s|
  {
    if s[i].first - s[i - 1].last - 1 >= g then s[i] else Mse(s[i - 1].last, s[i].last)
  }

  lemma FillNext(s: MonadSet, i: nat, g: int, was: MonadSet, r: MonadSet)
    requires Normal(s) && 0 < i < |s| && Fills(was, s[..i], g)
    requires forall m :: Has(r, m) <==> Has(was, m) || In(m, Filled(s, i, g))
    ensures Fills(r, s[..i + 1], g)
  {
    hide InSmallGap;
    forall m ensures Has(r, m) <==> Has(s[..i + 1], m) || InSmallGap(s[..i + 1], g, m) {
      HasTake(s, i, m);
      SmallGapSnoc(s, i, g, m);
      if m == s[i - 1].last { assert In(m, s[..i][i - 1]); }
    }
  }

  lemma FillFirst(s: MonadSet, g: int)
    ensures s != [] ==> Fills(s[..1], s[..1], g) && GapsAtLeast(s[..1], g)
    ensures s == [] ==> Fills([], s, g) && GapsAtLeast([], g)
  {
  }

  lemma GapStays(was: MonadSet, r: MonadSet, s: MonadSet, i: nat, g: int)
    requires Normal(s) && 0 < i < |s| && was != [] && Last(was) == s[i - 1].last && GapsAtLeast(was, g)
    requires if s[i].first - s[i - 1].last - 1 >= g && s[i].first > Last(was) + 1 then r == was + [s[i]]
             else r == was[..|was| - 1] + [Mse(was[|was| - 1].first, s[i].last)]
    ensures r != [] && Last(r) == s[i].last && GapsAtLeast(r, g)
  {
  }

  /** One turn of fillGaps: the range at i is added, with the gap before it if that is short. */
  method FillOne(s: MonadSet, i: nat, minGap: int, was: MonadSet) returns (r: MonadSet)
    requires Normal(s) && 0 < i < |s| && Normal(was) && was != [] && Last(was) == s[i - 1].last
    requires GapsAtLeast(was, minGap) && Fills(was, s[..i], minGap)
    ensures Normal(r) && r != [] && Last(r) == s[i].last && GapsAtLeast(r, minGap) && Fills(r, s[..i + 1], minGap)
  {
    hide Fills, InSmallGap, GapsAtLeast;
    r := AddMse(was, Filled(s, i, minGap));
    AddedAtEnd(was, Filled(s, i, minGap), r);
    FillNext(s, i, minGap, was, r);
    GapStays(was, r, s, i, minGap);
  }

  /**
   * FastSetOfMonads::fillGaps: the set together with exactly those of its gaps
   * that are shorter than minGap.
   */
  method FillGaps(s: MonadSet, minGap: int) returns (r: MonadSet)
    requires Normal(s)
    ensures Normal(r) && GapsAtLeast(r, minGap)
    ensures forall m :: Has(r, m) <==> Has(s, m) || InSmallGap(s, minGap, m)
    ensures r == [] <==> s == []
  {
    hide InSmallGap, GapsAtLeast;
    r := [];
    FillFirst(s, minGap);
    if s == [] { return; }
    r := AddMse(r, s[0]);
    AddedAtEnd([], s[0], r);
    assert s[..1] == r;
    var i := 1;
    while i < |s|
      invariant 1 <= i <= |s| && r != [] && Last(r) == s[i - 1].last
      invariant Normal(r) && GapsAtLeast(r, minGap) && Fills(r, s[..i], minGap)
    {
      r := FillOne(s, i, minGap, r);
      i := i + 1;
    }
    assert s[..i] == s;
  }

  /** FastSetOfMonads::isMemberOf. */
  method IsMemberFast(s: MonadSet, m: int) returns (b: bool)
    requires Normal(s)
    ensures b <==> Has(s, m)
  {
    if s == [] { return false; }
    var i := UpperBound(s, m - 1);
    if i == |s| {
      b := Overlaps(s[|s| - 1], Mse(m, m));
      assert b ==> In(m, s[|s| - 1]);
    } else if s[i].first > m {
      if i == 0 { return false; }
      b := s[i - 1].first <= m <= s[i - 1].last;
      assert b ==> In(m, s[i - 1]);
    } else {
      b := !(s[i].last < m);
      assert b ==> In(m, s[i]);
    }
  }

  lemma NothingBetween(s: MonadSet, at: nat, first: int, last: int)
    requires Normal(s) && at < |s| && s[at].last < first
    requires at + 1 < |s| ==> s[at + 1].first > last
    ensures forall m :: first <= m <= last ==> !Has(s, m)
  {
    assert forall k :: 0 <= k < at ==> s[k].last < s[at].first;
    assert forall k :: at + 1 < k < |s| ==> s[at + 1].last < s[k].first;
  }

  /** FastSetOfMonads::hasMonadsInRange. */
  method HasMonadsInRange(s: MonadSet, first: int, last: int) returns (b: bool)
    requires Normal(s) && first <= last
    ensures b <==> exists m :: first <= m <= last && Has(s, m)
  {
    if s == [] { return false; }
    Extremes(s);
    if First(s) > last || Last(s) < first { return false; }
    var i := UpperBound(s, first - 1);
    var other := Mse(first, last);
    var at := i;
    if i == |s| {
      at := |s| - 1;
      b := Overlaps(s[at], other);
    } else if s[i].first > last {
      at := i - 1;
      b := Overlaps(s[at], other);
    } else if s[i].first <= first {
      b := Overlaps(s[at], other);
    } else {
      b := true;
    }
    if b {
      var m := if s[at].first > first then s[at].first else first;
      assert In(m, s[at]) && first <= m <= last;
      assert Has(s, m);
    } else {
      NothingBetween(s, at, first, last);
    }
  }

  /** FastSetOfMonads::overlap. */
  method OverlapFast(a: MonadSet, b: MonadSet) returns (r: bool)
    requires Normal(a) && Normal(b)
    ensures r <==> Share(a, b)
  {
    r := false;
    if a == [] || b == [] { return; }
    var i := 0;
    while i < |a|
      invariant 0 <= i <= |a|
      invariant !r && forall m :: Has(a[..i], m) ==> !Has(b, m)
    {
      r := HasMonadsInRange(b, a[i].first, a[i].last);
      if r {
        ghost var m :| a[i].first <= m <= a[i].last && Has(b, m);
        assert In(m, a[i]);
        return;
      }
      forall m | Has(a[..i + 1], m) ensures !Has(b, m) { HasTake(a, i, m); }
      i := i + 1;
    }
    assert a[..i] == a;
  }

  /** SetOfMonads::isMemberOf: the scan of the list form. */
  method IsMember(s: MonadSet, m: int) returns (b: bool)
    requires Normal(s)
    ensures b <==> Has(s, m)
  {
    var i := 0;
    while i < |s|
      invariant 0 <= i <= |s|
      invariant forall j :: 0 <= j < i ==> s[j].last < m
    {
      if m >= s[i].first && m <= s[i].last { assert In(m, s[i]); return true; }
      if m < s[i].first { return false; }
      i := i + 1;
    }
    return false;
  }

  /** What has been intersected once i ranges of a and j ranges of b are behind. */
  ghost predicate Met(a: MonadSet, i: nat, b: MonadSet, j: nat, m: int)
    requires i <= |a| && j <= |b|
  {
    (Has(a[..i], m) && Has(b, m)) || (Has(a, m) && Has(b[..j], m))
  }

  lemma MetNextA(a: MonadSet, i: nat, b: MonadSet, j: nat, m: int)
    requires Normal(a) && Normal(b) && i < |a| && j < |b| && a[i].last <= b[j].last
    ensures Met(a, i + 1, b, j, m) <==> Met(a, i, b, j, m) || (In(m, a[i]) && In(m, b[j]))
  {
    HasTake(a, i, m);
    if In(m, a[i]) && Has(b, m) {
      var k :| 0 <= k < |b| && In(m, b[k]);
      if k < j { assert In(m, b[..j][k]); }
    }
    if In(m, a[i]) && In(m, b[j]) { assert Has(b, m); }
  }

  /** SetOfMonads::intersect: one pass over both lists, by the six relative positions of two ranges. */
  method Intersect(a: MonadSet, b: MonadSet) returns (r: MonadSet)
    requires Normal(a) && Normal(b)
    ensures Normal(r)
    ensures forall m :: Has(r, m) <==> Has(a, m) && Has(b, m)
  {
    r := [];
    if a == [] || b == [] { return; }
    var i, j := 0, 0;
    while i < |a| && j < |b|
      invariant 0 <= i <= |a| && 0 <= j <= |b| && Normal(r)
      invariant forall m :: Has(r, m) <==> Met(a, i, b, j, m)
      decreases |a| + |b| - i - j
    {
      var x, y := a[i], b[j];
      ghost var was := r;
      if x.last < y.first {
        i := i + 1;
      } else if x.first > y.last {
        j := j + 1;
      } else if x.first >= y.first && x.last <= y.last {
        r := AddMse(r, x);
        i := i + 1;
      } else if x.first < y.first && x.last > y.last {
        r := AddMse(r, y);
        j := j + 1;
      } else if x.first < y.first {
        r := AddMse(r, Mse(y.first, x.last));
        i := i + 1;
      } else {
        r := AddMse(r, Mse(x.first, y.last));
        j := j + 1;
      }
      MetStep(a, b, i, j, x, y, was, r);
    }
    forall m ensures Met(a, i, b, j, m) <==> Has(a, m) && Has(b, m) {
      if i == |a| { assert a[..i] == a; } else { assert b[..j] == b; }
      if Has(a[..i], m) { var k :| 0 <= k < i && In(m, a[..i][k]); assert In(m, a[k]); }
      if Has(b[..j], m) { var k :| 0 <= k < j && In(m, b[..j][k]); assert In(m, b[k]); }
    }
  }

  /** One turn of Intersect: i, j is the position after it, x and y the ranges compared. */
  lemma MetStep(a: MonadSet, b: MonadSet, i: nat, j: nat, x: Mse, y: Mse, was: MonadSet, r: MonadSet)
    requires Normal(a) && Normal(b) && i <= |a| && j <= |b|
    requires (i > 0 && j < |b| && x == a[i - 1] && y == b[j] && x.last <= y.last
              && forall m :: Has(was, m) <==> Met(a, i - 1, b, j, m))
          || (j > 0 && i < |a| && x == a[i] && y == b[j - 1] && y.last <= x.last
              && forall m :: Has(was, m) <==> Met(a, i, b, j - 1, m))
    requires forall m :: Has(r, m) <==> Has(was, m) || (In(m, x) && In(m, y))
    ensures forall m :: Has(r, m) <==> Met(a, i, b, j, m)
  {
    forall m ensures Has(r, m) <==> Met(a, i, b, j, m) {
      if i > 0 && j < |b| && x == a[i - 1] && y == b[j] && x.last <= y.last
         && (Has(was, m) <==> Met(a, i - 1, b, j, m)) {
        MetNextA(a, i - 1, b, j, m);
      } else {
        MetNextA(b, j - 1, a, i, m);
      }
    }
  }

  /**
   * SetOfMonads::part_of. An empty set is only decided by the tests made before
   * the lists are opened; behind them its first element is read, which is not
   * there (None).
   */
  method PartOf(a: MonadSet, b: MonadSet) returns (r: Option<bool>)
    requires Normal(a) && Normal(b)
    ensures a != [] ==> r == Some(Within(a, b))
    ensures a == [] && r.Some? ==> r.value == (First(b) <= MAX_MONAD && Last(b) >= 0)
    ensures r.None? <==> a == [] && First(b) <= MAX_MONAD && Last(b) >= 0 && |b| != 1
    ensures r == Some(Within(a, b)) <==> a != [] || (First(b) <= MAX_MONAD && Last(b) >= 0 && |b| == 1)
  {
    if First(a) >= First(b) && Last(a) <= Last(b) {
      if |b| == 1 {
        InsideOne(a, b);
        return Some(true);
      }
    } else {
      if a != [] { HullOutside(a, b); }
      return Some(false);
    }
    if a == [] { return None; }
    var inside := PartOfLists(a, b);
    r := Some(inside);
  }

  /** The empty set is part of every set, but for a set of two ranges the test does not get to say so. */
  method PartOfFails() returns (r: Option<bool>)
    ensures r == None && Within([], [Mse(1, 2), Mse(5, 6)])
  {
    r := PartOf([], [Mse(1, 2), Mse(5, 6)]);
  }

  lemma InsideOne(a: MonadSet, b: MonadSet)
    requires Normal(a) && |b| == 1 && First(a) >= First(b) && Last(a) <= Last(b)
    ensures Within(a, b)
  {
    if a != [] { Extremes(a); }
    assert forall m :: Has(a, m) ==> In(m, b[0]);
  }

  lemma HullOutside(a: MonadSet, b: MonadSet)
    requires Normal(a) && Normal(b) && a != [] && (First(a) < First(b) || Last(a) > Last(b))
    ensures !Within(a, b)
  {
    Extremes(a);
    if b != [] { Extremes(b); }
    assert !Has(b, First(a)) || !Has(b, Last(a));
  }

  /** The pass over both lists, by the six relative positions of two ranges. */
  method PartOfLists(a: MonadSet, b: MonadSet) returns (r: bool)
    requires Normal(a) && Normal(b) && a != [] && First(a) >= First(b) && Last(a) <= Last(b)
    ensures r <==> Within(a, b)
  {
    var i, j := 0, 0;
    while i < |a| && j < |b|
      invariant 0 <= i <= |a| && 0 <= j <= |b|
      invariant forall k :: 0 <= k < i ==> Within([a[k]], b)
      invariant i < |a| ==> forall k :: 0 <= k < j ==> b[k].last < a[i].first
      decreases |a| + |b| - i - j
    {
      var x, y := a[i], b[j];
      if x.last < y.first {
        Outside(a, i, b, x.first);
        return false;
      } else if x.first > y.last {
        j := j + 1;
      } else if x.first >= y.first && x.last <= y.last {
        RangeWithin(x, y, b, j);
        i := i + 1;
      } else if x.first < y.first {
        Outside(a, i, b, x.first);
        return false;
      } else {
        Outside(a, i, b, y.last + 1);
        return false;
      }
    }
    r := i == |a|;
    assert r;  // the bounds compared first keep b from running out before a
    AllWithin(a, b);
  }

  lemma RangeWithin(x: Mse, y: Mse, b: MonadSet, j: nat)
    requires j < |b| && y == b[j] && y.first <= x.first && x.last <= y.last
    ensures Within([x], b)
  {
    forall m | Has([x], m) ensures Has(b, m) { assert In(m, x); assert In(m, b[j]); }
  }

  lemma AllWithin(a: MonadSet, b: MonadSet)
    requires forall k :: 0 <= k < |a| ==> Within([a[k]], b)
    ensures Within(a, b)
  {
    forall m | Has(a, m) ensures Has(b, m) {
      var k :| 0 <= k < |a| && In(m, a[k]);
      HasOne(a[k], m);
    }
  }

  lemma Outside(a: MonadSet, i: nat, b: MonadSet, m: int)
    requires i < |a| && In(m, a[i]) && !Has(b, m)
    ensures !Within(a, b)
  {
    assert Has(a, m);
  }
}

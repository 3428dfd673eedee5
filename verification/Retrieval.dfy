/**
 * Windowed retrieval (getObjectsHavingMonadsIn of EMdF/emdfdb.cpp): objects that
 * have monads in a set, fetched through windows on the first monad. An SQL SELECT
 * is the rows of a table that satisfy its WHERE clause, in any order.
 */
module Retrieval {
  import opened Monads

  datatype RangeType = SingleMonad | SingleRange | MultipleRange

  /** A row of an OT_objects table: the object's id and the monads it consists of. */
  datatype Row = Row(id: int, monads: MonadSet)

  ghost predicate RowOk(rt: RangeType, r: Row) {
    Normal(r.monads) && r.monads != [] &&
    (rt != MultipleRange ==> |r.monads| == 1) &&
    (rt == SingleMonad ==> First(r.monads) == Last(r.monads))
  }

  /** The rows of one object type; object_id_d is the primary key. */
  ghost predicate TableOk(rt: RangeType, table: seq<Row>) {
    (forall i :: 0 <= i < |table| ==> RowOk(rt, table[i])) &&
    (forall i, j :: 0 <= i < j < |table| ==> table[i].id != table[j].id)
  }

  function Length(r: Row): int { Last(r.monads) - First(r.monads) + 1 }

  /** What the stored min_m and largest_object_length promise about a table. */
  ghost predicate Bounded(table: seq<Row>, minM: int, largest: int) {
    forall r :: r in table ==> First(r.monads) >= minM && Length(r) <= largest
  }

  /** The monad part of a WHERE clause: absent, or a range for first_monad. */
  datatype Window = Everything | FirstIn(lo: int, hi: int)

  predicate Selects(w: Window, r: Row) {
    w.Everything? || w.lo <= First(r.monads) <= w.hi
  }

  function WindowFor(mse: Mse, minM: int, maxM: int, largest: int): Window {
    if mse.first == minM && mse.last == maxM then Everything
    else
      var first := mse.first - largest + 1;
      FirstIn(if first < minM then minM else first, mse.last)
  }

  lemma HullOfOne(s: MonadSet, m: int)
    requires |s| == 1
    ensures Has(s, m) <==> First(s) <= m <= Last(s)
  {
    assert s == [s[0]];
    HasOne(s[0], m);
  }

  /** The test each row gets in getObjectsHavingMonadsInExec, by range type. */
  method Meets(rt: RangeType, r: Row, som: MonadSet) returns (b: bool)
    requires RowOk(rt, r) && Normal(som)
    ensures b <==> Share(r.monads, som)
  {
    match rt
    case MultipleRange =>
      b := OverlapFast(r.monads, som);
    case SingleMonad =>
      b := IsMemberFast(som, First(r.monads));
      forall m ensures Has(r.monads, m) <==> m == First(r.monads) { HullOfOne(r.monads, m); }
    case SingleRange =>
      b := HasMonadsInRange(som, First(r.monads), Last(r.monads));
      forall m ensures Has(r.monads, m) <==> First(r.monads) <= m <= Last(r.monads) {
        HullOfOne(r.monads, m);
      }
  }

  /** Inst::hasObject: an object is known by its first monad and its id. */
  predicate HasObject(inst: seq<Row>, first: int, id: int) {
    exists k :: 0 <= k < |inst| && First(inst[k].monads) == first && inst[k].id == id
  }

  ghost predicate Distinct(inst: seq<Row>) {
    forall i, j :: 0 <= i < j < |inst| ==> inst[i] != inst[j]
  }

  lemma SameRow(rt: RangeType, table: seq<Row>, a: Row, b: Row)
    requires TableOk(rt, table) && a in table && b in table && a.id == b.id
    ensures a == b
  {
  }

  /** Among rows of one table, hasObject finds exactly the row itself. */
  lemma HasObjectMeans(rt: RangeType, table: seq<Row>, inst: seq<Row>, r: Row)
    requires TableOk(rt, table) && r in table
    requires forall x :: x in inst ==> x in table
    ensures HasObject(inst, First(r.monads), r.id) <==> r in inst
  {
    if HasObject(inst, First(r.monads), r.id) {
      var k :| 0 <= k < |inst| && First(inst[k].monads) == First(r.monads) && inst[k].id == r.id;
      assert inst[k] in inst;
      SameRow(rt, table, inst[k], r);
    }
  }

  /** getObjectsHavingMonadsInExec: one window's query, each row tested and added unless present. */
  method ExecWindow(rt: RangeType, table: seq<Row>, pre: Row -> bool, w: Window, som: MonadSet, inst0: seq<Row>)
    returns (inst: seq<Row>)
    requires TableOk(rt, table) && Normal(som)
    requires Distinct(inst0) && forall x :: x in inst0 ==> x in table
    ensures Distinct(inst) && forall x :: x in inst ==> x in table
    ensures forall r :: r in inst <==>
              r in inst0 || (r in table && pre(r) && Selects(w, r) && Share(r.monads, som))
  {
    inst := inst0;
    var k := 0;
    while k < |table|
      invariant 0 <= k <= |table|
      invariant Distinct(inst) && forall x :: x in inst ==> x in table
      invariant forall r :: r in inst <==>
                  r in inst0 || (r in table[..k] && pre(r) && Selects(w, r) && Share(r.monads, som))
    {
      var row := table[k];
      assert table[..k + 1] == table[..k] + [row];
      if pre(row) && Selects(w, row) {
        var get := Meets(rt, row, som);
        HasObjectMeans(rt, table, inst, row);
        if get && !HasObject(inst, First(row.monads), row.id) {
          inst := inst + [row];
        }
      }
      k := k + 1;
    }
    assert table[..k] == table;
  }

  /** A row that shares a monad with a range is in that range's window. */
  lemma WindowCovers(mse: Mse, r: Row, m: int, minM: int, maxM: int, largest: int)
    requires Normal(r.monads) && r.monads != [] && Has(r.monads, m) && In(m, mse)
    requires First(r.monads) >= minM && Length(r) <= largest
    ensures Selects(WindowFor(mse, minM, maxM, largest), r)
  {
    Extremes(r.monads);
  }

  /**
   * When the gaps between ranges are at least the largest object length, no row
   * is in two windows: the reason the source gives for not needing hasObject.
   */
  lemma WindowsDisjoint(s: MonadSet, i: nat, j: nat, r: Row, minM: int, maxM: int, largest: int)
    requires Normal(s) && GapsAtLeast(s, largest) && i < j < |s|
    requires minM <= First(r.monads) && First(r.monads) <= maxM
    requires Selects(WindowFor(s[i], minM, maxM, largest), r)
    ensures !Selects(WindowFor(s[j], minM, maxM, largest), r)
  {
    assert s[j].first - s[j - 1].last - 1 >= largest;
    assert i < j - 1 ==> s[i].last + 1 < s[j - 1].first;
  }

  const MIN_GAP := 1600

  /** The general path of getObjectsHavingMonadsIn: fill small gaps, then one query per remaining range. */
  method GetThroughWindows(rt: RangeType, table: seq<Row>, pre: Row -> bool, som: MonadSet,
                           minM: int, maxM: int, largest: int)
    returns (inst: seq<Row>, ghost filled: MonadSet)
    requires TableOk(rt, table) && Normal(som)
    ensures Distinct(inst)
    ensures Normal(filled) && Within(som, filled) && GapsAtLeast(filled, largest)
    ensures forall m :: Has(filled, m) <==> Has(som, m) || InSmallGap(som, if largest > MIN_GAP then largest else MIN_GAP, m)
    ensures forall r :: r in inst <==>
              r in table && pre(r) && Share(r.monads, som) &&
              exists k :: 0 <= k < |filled| && Selects(WindowFor(filled[k], minM, maxM, largest), r)
  {
    var minGap := if largest > MIN_GAP then largest else MIN_GAP;
    var windows := FillGaps(som, minGap);
    filled := windows;
    inst := [];
    var k := 0;
    while k < |windows|
      invariant 0 <= k <= |windows|
      invariant Distinct(inst) && forall x :: x in inst ==> x in table
      invariant forall r :: r in inst <==>
                  r in table && pre(r) && Share(r.monads, som) &&
                  exists j :: 0 <= j < k && Selects(WindowFor(windows[j], minM, maxM, largest), r)
    {
      inst := ExecWindow(rt, table, pre, WindowFor(windows[k], minM, maxM, largest), som, inst);
      k := k + 1;
    }
  }

  /** The fast path for single-monad objects with unique first monads: no test, no hasObject. */
  method GetSingleUnique(table: seq<Row>, pre: Row -> bool, som: MonadSet) returns (inst: seq<Row>)
    requires TableOk(SingleMonad, table) && Normal(som)
    ensures Distinct(inst)
    ensures forall r :: r in inst <==> r in table && pre(r) && Share(r.monads, som)
  {
    inst := [];
    var k := 0;
    while k < |som|
      invariant 0 <= k <= |som|
      invariant Distinct(inst)
      invariant forall r :: r in inst <==> r in table && pre(r) && Has(som[..k], First(r.monads))
    {
      var w := FirstIn(som[k].first, som[k].last);
      var i := 0;
      ghost var before := inst;
      while i < |table|
        invariant 0 <= i <= |table|
        invariant Distinct(inst)
        invariant forall r :: r in inst <==>
                    r in before || (r in table[..i] && pre(r) && Selects(w, r))
      {
        assert table[..i + 1] == table[..i] + [table[i]];
        if pre(table[i]) && Selects(w, table[i]) {
          NotYet(table, som, k, i, before);
          inst := inst + [table[i]];
        }
        i := i + 1;
      }
      assert table[..i] == table;
      forall r: Row ensures Has(som[..k + 1], First(r.monads)) <==> Has(som[..k], First(r.monads)) || Selects(w, r) {
        HasTake(som, k, First(r.monads));
      }
      k := k + 1;
    }
    assert som[..k] == som;
    forall r | r in table ensures Share(r.monads, som) <==> Has(som, First(r.monads)) {
      SingleShares(r, som);
    }
  }

  lemma SingleShares(r: Row, som: MonadSet)
    requires RowOk(SingleMonad, r)
    ensures Share(r.monads, som) <==> Has(som, First(r.monads))
  {
    forall m ensures Has(r.monads, m) <==> m == First(r.monads) { HullOfOne(r.monads, m); }
  }

  /** A row selected by range k of a set was neither selected by an earlier range nor met earlier in the table. */
  lemma NotYet(table: seq<Row>, som: MonadSet, k: nat, i: nat, before: seq<Row>)
    requires TableOk(SingleMonad, table) && Normal(som) && k < |som| && i < |table|
    requires Selects(FirstIn(som[k].first, som[k].last), table[i])
    requires forall r :: r in before ==> Has(som[..k], First(r.monads))
    ensures table[i] !in before && table[i] !in table[..i]
  {
    assert forall j :: 0 <= j < k ==> som[..k][j].last + 1 < som[k].first;
  }

  /**
   * getObjectsHavingMonadsIn for the object's own monads: exactly the objects that
   * pass the pre-query and share a monad with the set, each once, on either path.
   */
  method GetObjectsHavingMonadsIn(rt: RangeType, unique: bool, table: seq<Row>, pre: Row -> bool, som: MonadSet,
                                  minM: int, maxM: int, largest: int)
    returns (inst: seq<Row>)
    requires TableOk(rt, table) && Normal(som) && Bounded(table, minM, largest)
    ensures Distinct(inst)
    ensures forall r :: r in inst <==> r in table && pre(r) && Share(r.monads, som)
  {
    if rt == SingleMonad && unique {
      inst := GetSingleUnique(table, pre, som);
    } else {
      ghost var filled;
      inst, filled := GetThroughWindows(rt, table, pre, som, minM, maxM, largest);
      forall r | r in table && Share(r.monads, som)
        ensures exists k :: 0 <= k < |filled| && Selects(WindowFor(filled[k], minM, maxM, largest), r)
      {
        assert RowOk(rt, r);
        SomeWindow(r, som, filled, minM, maxM, largest);
      }
    }
  }

  lemma SomeWindow(r: Row, som: MonadSet, filled: MonadSet, minM: int, maxM: int, largest: int)
    requires Normal(r.monads) && r.monads != [] && Share(r.monads, som) && Within(som, filled)
    requires First(r.monads) >= minM && Length(r) <= largest
    ensures exists k :: 0 <= k < |filled| && Selects(WindowFor(filled[k], minM, maxM, largest), r)
  {
    var m :| Has(r.monads, m) && Has(som, m);
    assert Has(filled, m);
    var k :| 0 <= k < |filled| && In(m, filled[k]);
    WindowCovers(filled[k], r, m, minM, maxM, largest);
  }

  /**
   * The two stored bounds are also needed: for a row that breaks one, the query
   * for a single monad of that row (its last, or its first) has a window without it.
   */
  lemma BoundsAreNeeded(r: Row, minM: int, maxM: int, largest: int)
    requires Normal(r.monads) && r.monads != [] && largest >= 1
    ensures (First(r.monads) >= minM && Length(r) <= largest) <==>
            forall m :: Has(r.monads, m) ==> Selects(WindowFor(Mse(m, m), minM, maxM, largest), r)
  {
    Extremes(r.monads);
    if First(r.monads) >= minM && Length(r) <= largest {
      forall m | Has(r.monads, m) ensures Selects(WindowFor(Mse(m, m), minM, maxM, largest), r) {
        WindowCovers(Mse(m, m), r, m, minM, maxM, largest);
      }
    }
  }
}

/**
 * doGetInst of EMdF/emdfdb.cpp answers "objects for the monads first..last" by
 * one of three plans. Its callers then keep what is part_of, or starts_in, the
 * substrate whose first and last monads these are.
 */
module Plans {
  import opened Monads
  import opened Retrieval

  datatype Operation = OpPartOf | OpStartsIn

  datatype Plan = Constrained | PostFiltered | WholeRange

  /** C++ integer division. */
  function Quotient(a: int, b: int): int
    requires b > 0
  {
    if a >= 0 then a / b else -((-a) / b)
  }

  /** Which plan doGetInst takes. */
  function PlanFor(first: int, last: int, minM: int, maxM: int): Plan {
    var fraction := Quotient(maxM - minM, 5);
    if first == minM && last == maxM then WholeRange
    else if first <= minM + fraction && last >= maxM - fraction then PostFiltered
    else Constrained
  }

  /** The monads asked for may fall short of min_m..max_m by a fifth of it, rounded down, on either side. */
  lemma PlanForMeans(first: int, last: int, minM: int, maxM: int)
    requires minM <= maxM
    ensures PlanFor(first, last, minM, maxM).WholeRange? <==> first == minM && last == maxM
    ensures PlanFor(first, last, minM, maxM).Constrained? <==>
              5 * (first - minM) > maxM - minM || 5 * (maxM - last) > maxM - minM
  {
  }

  /** The test the query's WHERE clause makes on a row's monads. */
  predicate MonadConstraint(p: Plan, first: int, last: int, r: Row) {
    p.Constrained? ==> first <= First(r.monads) <= last
  }

  /** The test made on each fetched row. */
  predicate DoAdd(p: Plan, op: Operation, first: int, last: int, r: Row) {
    !p.PostFiltered?
    || match op
       case OpPartOf => Last(r.monads) <= last && First(r.monads) >= first
       case OpStartsIn => First(r.monads) <= last && First(r.monads) >= first
  }

  /** The relation to the substrate that the query asks for. */
  ghost predicate Related(op: Operation, r: Row, su: MonadSet) {
    match op
    case OpPartOf => Within(r.monads, su)
    case OpStartsIn => Has(su, First(r.monads))
  }

  /** doGetInst with the plan as a parameter, as its row loop runs. */
  method Fetch(rt: RangeType, table: seq<Row>, pre: Row -> bool, op: Operation, p: Plan, first: int, last: int)
    returns (inst: seq<Row>)
    requires TableOk(rt, table)
    ensures Distinct(inst)
    ensures forall r :: r in inst <==>
              r in table && pre(r) && MonadConstraint(p, first, last, r) && DoAdd(p, op, first, last, r)
  {
    inst := [];
    var k := 0;
    while k < |table|
      invariant 0 <= k <= |table| && Distinct(inst)
      invariant forall r :: r in inst <==>
                  r in table[..k] && pre(r) && MonadConstraint(p, first, last, r) && DoAdd(p, op, first, last, r)
    {
      var row := table[k];
      assert table[..k + 1] == table[..k] + [row];
      if pre(row) && MonadConstraint(p, first, last, row) && DoAdd(p, op, first, last, row) {
        assert row !in table[..k];
        inst := inst + [row];
      }
      k := k + 1;
    }
    assert table[..k] == table;
  }

  /** A row related to the substrate passes every plan's tests. */
  lemma NoPlanLoses(r: Row, su: MonadSet, op: Operation, p: Plan)
    requires Normal(r.monads) && r.monads != [] && Normal(su)
    requires Related(op, r, su)
    ensures MonadConstraint(p, First(su), Last(su), r) && DoAdd(p, op, First(su), Last(su), r)
  {
    Extremes(r.monads);
    assert Has(su, First(r.monads));
    Extremes(su);
  }

  /** The caller's filter over what was fetched. */
  method KeepRelated(rt: RangeType, inst: seq<Row>, op: Operation, su: MonadSet) returns (kept: seq<Row>)
    requires Normal(su) && forall r :: r in inst ==> RowOk(rt, r)
    requires Distinct(inst)
    ensures Distinct(kept)
    ensures forall r :: r in kept <==> r in inst && Related(op, r, su)
  {
    kept := [];
    var k := 0;
    while k < |inst|
      invariant 0 <= k <= |inst| && Distinct(kept)
      invariant forall r :: r in kept <==> r in inst[..k] && Related(op, r, su)
    {
      assert inst[..k + 1] == inst[..k] + [inst[k]];
      assert inst[k] in inst;
      var keep: bool;
      if op == OpPartOf {
        var part := PartOf(inst[k].monads, su);
        keep := part.value;
      } else {
        keep := IsMember(su, First(inst[k].monads));
      }
      if keep {
        assert inst[k] !in inst[..k];
        kept := kept + [inst[k]];
      }
      k := k + 1;
    }
    assert inst[..k] == inst;
  }

  /**
   * Whatever plan the boundaries select, fetching and then keeping what is
   * related to the substrate gives exactly the related objects, each once.
   */
  method GetInst(rt: RangeType, table: seq<Row>, pre: Row -> bool, op: Operation, su: MonadSet, minM: int, maxM: int)
    returns (kept: seq<Row>)
    requires TableOk(rt, table) && Normal(su)
    ensures Distinct(kept)
    ensures forall r :: r in kept <==> r in table && pre(r) && Related(op, r, su)
  {
    var inst := Fetch(rt, table, pre, op, PlanFor(First(su), Last(su), minM, maxM), First(su), Last(su));
    kept := KeepRelated(rt, inst, op, su);
    forall r | r in table && Related(op, r, su)
      ensures MonadConstraint(PlanFor(First(su), Last(su), minM, maxM), First(su), Last(su), r)
      ensures DoAdd(PlanFor(First(su), Last(su), minM, maxM), op, First(su), Last(su), r)
    {
      assert RowOk(rt, r);
      NoPlanLoses(r, su, op, PlanFor(First(su), Last(su), minM, maxM));
    }
  }

  /**
   * Without the caller's filter: for a substrate of one range, the whole-range
   * and post-filtered plans already return exactly the related rows, for the
   * former because min_m and max_m bound the table.
   */
  lemma UnfilteredExact(r: Row, first: int, last: int, minM: int, maxM: int, op: Operation)
    requires Normal(r.monads) && r.monads != [] && first <= last
    requires First(r.monads) >= minM && Last(r.monads) <= maxM
    requires !PlanFor(first, last, minM, maxM).Constrained?
    ensures DoAdd(PlanFor(first, last, minM, maxM), op, first, last, r) <==> Related(op, r, [Mse(first, last)])
  {
    Extremes(r.monads);
    forall m ensures Has([Mse(first, last)], m) <==> first <= m <= last { HasOne(Mse(first, last), m); }
  }

  /** The constrained plan over-fetches exactly the rows that start inside and end outside. */
  lemma ConstrainedExcess(r: Row, first: int, last: int)
    requires Normal(r.monads) && r.monads != [] && first <= last
    ensures MonadConstraint(Constrained, first, last, r) <==> Related(OpStartsIn, r, [Mse(first, last)])
    ensures MonadConstraint(Constrained, first, last, r) && !Related(OpPartOf, r, [Mse(first, last)]) <==>
            first <= First(r.monads) <= last < Last(r.monads)
  {
    Extremes(r.monads);
    forall m ensures Has([Mse(first, last)], m) <==> first <= m <= last { HasOne(Mse(first, last), m); }
  }
}

/**
 * What EMdF/emdfdb.cpp stores about its objects: min_m and max_m for the whole
 * database, largest_object_length per object type in the object_types table,
 * and a cache of the latter. Each successful statement is a step of a state
 * machine; the statements' code is in DatabaseStatements.
 */
module Metadata {
  import opened Monads
  import opened Retrieval

  /** A row of object_types with the rows of its OT_objects table. */
  datatype ObjectType = ObjectType(range: RangeType, rows: seq<Row>, largest: int)

  type Types = map<string, ObjectType>

  datatype Db = Db(types: Types, cache: map<string, int>, minM: int, maxM: int)

  datatype Statement =
    | CreateType(name: string, range: RangeType)
    | DropType(name: string)
    | LookUp(name: string)
    | ClearCache
    | CreateObject(name: string, row: Row)
    | CreateObjects(name: string, rows: seq<Row>)
    | DropObject(name: string, id: int)
    | DropInMonads(name: string, som: MonadSet)

  function Min(a: int, b: int): int { if b < a then b else a }

  function Max(a: int, b: int): int { if b > a then b else a }

  /** The rows that p keeps, in order. */
  function Keep(rows: seq<Row>, p: Row -> bool): (kept: seq<Row>)
    ensures forall r :: r in kept <==> r in rows && p(r)
  {
    if rows == [] then []
    else (if p(rows[0]) then [rows[0]] else []) + Keep(rows[1..], p)
  }

  /** What DELETE leaves: the rows of other ids; the rows outside the set's ranges. */
  function WithoutId(rows: seq<Row>, id: int): seq<Row> { Keep(rows, (r: Row) => r.id != id) }

  function OutsideRanges(rows: seq<Row>, som: MonadSet): seq<Row> { Keep(rows, (r: Row) => !HullInOneRange(som, r)) }

  lemma {:induction false} KeepTableOk(rt: RangeType, rows: seq<Row>, p: Row -> bool)
    requires TableOk(rt, rows)
    ensures TableOk(rt, Keep(rows, p))
  {
    hide RowOk;
    if rows != [] {
      KeepTableOk(rt, rows[1..], p);
      var rest := Keep(rows[1..], p);
      assert forall r :: r in rows[1..] ==> r.id != rows[0].id;
      assert forall i :: 0 <= i < |rest| ==> rest[i] in rows[1..];
      if p(rows[0]) { ConsTableOk(rt, rows[0], rest); }
    }
  }

  lemma ConsTableOk(rt: RangeType, r: Row, rest: seq<Row>)
    requires TableOk(rt, rest) && RowOk(rt, r)
    requires forall i :: 0 <= i < |rest| ==> rest[i].id != r.id
    ensures TableOk(rt, [r] + rest)
  {
    hide RowOk;
  }

  /* ---------- the invariant ---------- */

  ghost predicate BelowAll(types: Types, m: int) {
    forall n, r :: n in types && r in types[n].rows ==> m <= First(r.monads)
  }

  ghost predicate AboveAll(types: Types, m: int) {
    forall n, r :: n in types && r in types[n].rows ==> m >= Last(r.monads)
  }

  /** m is the least first monad in the database, MAX_MONAD when there is none. */
  ghost predicate ExactMin(types: Types, m: int) {
    BelowAll(types, m) && m <= MAX_MONAD &&
    (m == MAX_MONAD || exists n, r :: n in types && r in types[n].rows && First(r.monads) == m)
  }

  /** m is the greatest last monad in the database, 0 when there is none. */
  ghost predicate ExactMax(types: Types, m: int) {
    AboveAll(types, m) && m >= 0 &&
    (m == 0 || exists n, r :: n in types && r in types[n].rows && Last(r.monads) == m)
  }

  ghost predicate TypeOk(t: ObjectType) {
    TableOk(t.range, t.rows) && t.largest >= 0 && forall r :: r in t.rows ==> Length(r) <= t.largest
  }

  ghost predicate TypesOk(types: Types) { forall n :: n in types ==> TypeOk(types[n]) }

  ghost predicate CacheOk(types: Types, cache: map<string, int>) {
    forall n :: n in cache ==> n in types && cache[n] == types[n].largest
  }

  ghost predicate Inv(d: Db) {
    TypesOk(d.types) && CacheOk(d.types, d.cache) && BelowAll(d.types, d.minM) && AboveAll(d.types, d.maxM) &&
    d.minM <= MAX_MONAD && d.maxM >= 0
  }

  ghost predicate Exact(d: Db) {
    ExactMin(d.types, d.minM) && ExactMax(d.types, d.maxM)
  }

  /* ---------- the statements ---------- */

  /** A type's largest_object_length as stored, and as cached when it is cached. */
  function SetLargest(d: Db, n: string, t: ObjectType, largest: int): Db {
    d.(types := d.types[n := t.(largest := largest)],
       cache := if n in d.cache then d.cache[n := largest] else d.cache)
  }

  function LeastFirst(rows: seq<Row>, m: int): int {
    if rows == [] then m else LeastFirst(rows[1..], Min(m, First(rows[0].monads)))
  }

  function GreatestLast(rows: seq<Row>, m: int): int {
    if rows == [] then m else GreatestLast(rows[1..], Max(m, Last(rows[0].monads)))
  }

  function GreatestLength(rows: seq<Row>, m: int): int {
    if rows == [] then m else GreatestLength(rows[1..], Max(m, Length(rows[0])))
  }

  /** The monads of an object; an id that is not there gives the empty set. */
  function MonadsOf(rows: seq<Row>, id: int): MonadSet {
    if rows == [] then [] else if rows[0].id == id then rows[0].monads else MonadsOf(rows[1..], id)
  }

  /** The WHERE clause of makeMonadConstraintsFromSOM. */
  predicate HullInOneRange(som: MonadSet, r: Row) {
    exists k :: 0 <= k < |som| && som[k].first <= First(r.monads) && Last(r.monads) <= som[k].last
  }

  /** largest_object_length recomputed from the OT_objects table. */
  function LargestFromRows(t: ObjectType): int {
    if t.rows == [] then 0 else if t.range == SingleMonad then 1 else GreatestLength(t.rows, Length(t.rows[0]))
  }

  ghost predicate CanCreate(t: ObjectType, rows: seq<Row>) {
    TableOk(t.range, t.rows + rows)
  }

  function AfterCreate(d: Db, n: string, rows: seq<Row>): Db
    requires n in d.types
  {
    var t := d.types[n];
    var d' := SetLargest(d, n, t.(rows := t.rows + rows), Max(t.largest, GreatestLength(rows, 0)));
    d'.(minM := LeastFirst(rows, d.minM), maxM := GreatestLast(rows, d.maxM))
  }

  /** The effect of a statement that succeeds. */
  ghost predicate Step(d: Db, s: Statement, d': Db) {
    match s
    case CreateType(n, range) =>
      n !in d.types && d' == d.(types := d.types[n := ObjectType(range, [], 0)], cache := d.cache[n := 0])
    case DropType(n) =>
      n in d.types && d' == d.(types := d.types - {n}, cache := d.cache - {n})
    case LookUp(n) =>
      n in d.types && d' == d.(cache := d.cache[n := d.types[n].largest])
    case ClearCache =>
      d' == d.(cache := map[])
    case CreateObject(n, row) =>
      n in d.types && CanCreate(d.types[n], [row]) && d' == AfterCreate(d, n, [row])
    case CreateObjects(n, rows) =>
      n in d.types && CanCreate(d.types[n], rows) && d' == AfterCreate(d, n, rows)
    case DropObject(n, id) =>
      n in d.types && Dropped(d, n, id, d')
    case DropInMonads(n, som) =>
      n in d.types && Normal(som) && DroppedInMonads(d, n, som, d')
  }

  ghost predicate Dropped(d: Db, n: string, id: int, d': Db)
    requires n in d.types
  {
    var t := d.types[n];
    var monads := MonadsOf(t.rows, id);
    var left := t.(rows := WithoutId(t.rows, id));
    var length := Last(monads) - First(monads) + 1;
    && d'.(minM := d.minM, maxM := d.maxM)
         == SetLargest(d, n, left, if length >= t.largest then length else t.largest)
    && (if d.minM == First(monads) || d.maxM == Last(monads) then Exact(d')
        else d'.minM == d.minM && d'.maxM == d.maxM)
  }

  ghost predicate DroppedInMonads(d: Db, n: string, som: MonadSet, d': Db)
    requires n in d.types
  {
    var t := d.types[n];
    var left := t.(rows := OutsideRanges(t.rows, som));
    if left.rows == t.rows then d' == d
    else d'.(minM := d.minM, maxM := d.maxM) == SetLargest(d, n, left, LargestFromRows(left)) && Exact(d')
  }

  /* ---------- aggregates ---------- */

  lemma {:induction false} LeastFirstMeans(rows: seq<Row>, m: int)
    ensures LeastFirst(rows, m) <= m && forall r :: r in rows ==> LeastFirst(rows, m) <= First(r.monads)
    ensures LeastFirst(rows, m) == m || exists r :: r in rows && First(r.monads) == LeastFirst(rows, m)
  {
    if rows != [] {
      LeastFirstMeans(rows[1..], Min(m, First(rows[0].monads)));
      assert rows == [rows[0]] + rows[1..];
      assert rows[0] in rows;
    }
  }

  lemma {:induction false} GreatestLastMeans(rows: seq<Row>, m: int)
    ensures GreatestLast(rows, m) >= m && forall r :: r in rows ==> GreatestLast(rows, m) >= Last(r.monads)
    ensures GreatestLast(rows, m) == m || exists r :: r in rows && Last(r.monads) == GreatestLast(rows, m)
  {
    if rows != [] {
      GreatestLastMeans(rows[1..], Max(m, Last(rows[0].monads)));
      assert rows == [rows[0]] + rows[1..];
      assert rows[0] in rows;
    }
  }

  lemma {:induction false} GreatestLengthMeans(rows: seq<Row>, m: int)
    ensures GreatestLength(rows, m) >= m && forall r :: r in rows ==> GreatestLength(rows, m) >= Length(r)
    ensures GreatestLength(rows, m) == m || exists r :: r in rows && Length(r) == GreatestLength(rows, m)
  {
    if rows != [] {
      GreatestLengthMeans(rows[1..], Max(m, Length(rows[0])));
      assert rows == [rows[0]] + rows[1..];
      assert rows[0] in rows;
    }
  }

  lemma {:induction false} MonadsOfMeans(rt: RangeType, rows: seq<Row>, r: Row)
    requires TableOk(rt, rows) && r in rows
    ensures MonadsOf(rows, r.id) == r.monads
  {
    assert rows == [rows[0]] + rows[1..];
    if rows[0].id != r.id { MonadsOfMeans(rt, rows[1..], r); }
  }

  /**
   * DROP OBJECTS IN MONADS removes the objects whose whole extent, gaps included,
   * lies in the set.
   */
  lemma HullMeans(som: MonadSet, r: Row)
    requires Normal(som) && Normal(r.monads) && r.monads != []
    ensures HullInOneRange(som, r) <==> forall m :: First(r.monads) <= m <= Last(r.monads) ==> Has(som, m)
  {
    var first, last := First(r.monads), Last(r.monads);
    Extremes(r.monads);
    if k :| 0 <= k < |som| && som[k].first <= first && last <= som[k].last {
      forall m | first <= m <= last ensures Has(som, m) { assert In(m, som[k]); }
    }
    if forall m :: first <= m <= last ==> Has(som, m) {
      assert Has(som, first);
      var k :| 0 <= k < |som| && In(first, som[k]);
      RangeEnds(som, k);
      assert som[k].last >= last;
    }
  }

  lemma RangeEnds(som: MonadSet, k: nat)
    requires Normal(som) && k < |som|
    ensures !Has(som, som[k].last + 1)
  {
    assert forall j :: 0 <= j < k ==> som[j].last < som[k].first;
  }

  /**
   * The documentation says the statement drops every object contained in the
   * set. It does so for a contained object exactly when the set also holds the
   * object's gaps.
   */
  lemma ContainedIsDroppedIff(som: MonadSet, r: Row)
    requires Normal(som) && Normal(r.monads) && r.monads != [] && Within(r.monads, som)
    ensures HullInOneRange(som, r) <==>
            forall m :: First(r.monads) < m < Last(r.monads) && !Has(r.monads, m) ==> Has(som, m)
  {
    HullMeans(som, r);
    Extremes(r.monads);
  }

  lemma ContainedNotDropped()
    ensures exists som, r :: Normal(som) && RowOk(MultipleRange, r) && Within(r.monads, som) && !HullInOneRange(som, r)
  {
    var som := [Mse(1, 1), Mse(5, 5)];
    var r := Row(7, som);
    assert Within(r.monads, som) && !HullInOneRange(som, r);
  }

  /* ---------- what each statement does to the rows ---------- */

  /** r is a row of the type named k. */
  ghost predicate Stands(d: Db, k: string, r: Row) { k in d.types && r in d.types[k].rows }

  /** No type comes or goes, no range type changes, and the other types stay as they are. */
  ghost predicate OnlyIn(d: Db, n: string, d': Db) {
    d'.types.Keys == d.types.Keys && n in d.types && d'.types[n].range == d.types[n].range &&
    forall k :: k in d.types && k != n ==> d'.types[k] == d.types[k]
  }

  /** CREATE OBJECT and CREATE OBJECTS add the rows given, monads included, and nothing else. */
  lemma CreateMeans(d: Db, n: string, rows: seq<Row>, d': Db)
    requires n in d.types && d' == AfterCreate(d, n, rows)
    ensures OnlyIn(d, n, d') && d'.cache.Keys == d.cache.Keys
    ensures forall k, r :: Stands(d', k, r) <==> Stands(d, k, r) || (k == n && r in rows)
    ensures |d'.types[n].rows| == |d.types[n].rows| + |rows|
    ensures d'.types[n].largest >= d.types[n].largest && (forall r :: r in rows ==> d'.types[n].largest >= Length(r))
    ensures d'.types[n].largest in {0, d.types[n].largest} || exists r :: r in rows && d'.types[n].largest == Length(r)
    ensures d'.minM <= d.minM && (forall r :: r in rows ==> d'.minM <= First(r.monads))
    ensures d'.minM == d.minM || exists r :: r in rows && First(r.monads) == d'.minM
    ensures d'.maxM >= d.maxM && (forall r :: r in rows ==> d'.maxM >= Last(r.monads))
    ensures d'.maxM == d.maxM || exists r :: r in rows && Last(r.monads) == d'.maxM
  {
    LeastFirstMeans(rows, d.minM);
    GreatestLastMeans(rows, d.maxM);
    GreatestLengthMeans(rows, 0);
  }

  /** DROP OBJECT removes the row of that id and no other, in that type and no other. */
  lemma DropMeans(d: Db, n: string, id: int, d': Db)
    requires Step(d, DropObject(n, id), d')
    ensures OnlyIn(d, n, d') && d'.cache.Keys == d.cache.Keys
    ensures forall k, r :: Stands(d', k, r) <==> Stands(d, k, r) && !(k == n && r.id == id)
    ensures Exact(d') || (d'.minM == d.minM && d'.maxM == d.maxM)
  {
    hide Exact;
  }

  /** The length stored is never lowered by DROP OBJECT. */
  lemma DropKeepsLargest(d: Db, n: string, id: int, d': Db)
    requires Inv(d) && Step(d, DropObject(n, id), d')
    ensures d'.types[n].largest == d.types[n].largest
  {
    hide Exact;
    var t := d.types[n];
    assert TypeOk(t);
    if r :| r in t.rows && r.id == id {
      MonadsOfMeans(t.range, t.rows, r);
    } else {
      NoMonadsOf(t.rows, id);
    }
  }

  lemma {:induction false} NoMonadsOf(rows: seq<Row>, id: int)
    requires forall r :: r in rows ==> r.id != id
    ensures MonadsOf(rows, id) == []
  {
    if rows != [] {
      assert rows[0] in rows && forall r :: r in rows[1..] ==> r in rows;
      NoMonadsOf(rows[1..], id);
    }
  }

  /** DROP OBJECTS IN MONADS leaves the rows whose extent lies in no range of the set, and all other types. */
  lemma DropInMonadsMeans(d: Db, n: string, som: MonadSet, d': Db)
    requires Step(d, DropInMonads(n, som), d')
    ensures OnlyIn(d, n, d') && d'.cache.Keys == d.cache.Keys
    ensures forall k, r :: Stands(d', k, r) <==>
              Stands(d, k, r) && !(k == n && exists i :: 0 <= i < |som| && som[i].first <= First(r.monads) && Last(r.monads) <= som[i].last)
    ensures d' == d || Exact(d')
  {
    hide Exact;
    var t := d.types[n];
    if OutsideRanges(t.rows, som) == t.rows {
      forall k, r | Stands(d, k, r) && k == n ensures !HullInOneRange(som, r) { assert r in OutsideRanges(t.rows, som); }
    }
  }

  /** ... and when it drops any, the length stored is that of the longest object left, 0 when none is. */
  lemma DropInMonadsLargest(d: Db, n: string, som: MonadSet, d': Db)
    requires Inv(d) && Step(d, DropInMonads(n, som), d') && d' != d
    ensures n in d'.types && d'.types[n].largest >= 0
    ensures forall r :: r in d'.types[n].rows ==> Length(r) <= d'.types[n].largest
    ensures if d'.types[n].rows == [] then d'.types[n].largest == 0
            else exists r :: r in d'.types[n].rows && Length(r) == d'.types[n].largest
  {
    hide Exact, BelowAll, AboveAll, CacheOk;
    var t := d.types[n];
    KeepTableOk(t.range, t.rows, (r: Row) => !HullInOneRange(som, r));
    LargestFromRowsOk(t.(rows := OutsideRanges(t.rows, som)));
  }

  /** The statements on types and on the cache touch no row of another type and none of the bounds. */
  lemma TypeStatementMeans(d: Db, s: Statement, d': Db)
    requires Step(d, s, d') && (s.CreateType? || s.DropType? || s.LookUp? || s.ClearCache?)
    ensures d'.minM == d.minM && d'.maxM == d.maxM
    ensures match s
            case CreateType(n, range) =>
              d'.types.Keys == d.types.Keys + {n} && n !in d.types && d'.types[n].range == range && d'.types[n].rows == []
              && d'.types[n].largest == 0 && d'.cache.Keys == d.cache.Keys + {n}
            case DropType(n) => d'.types.Keys == d.types.Keys - {n} && n in d.types && d'.cache.Keys == d.cache.Keys - {n}
            case LookUp(n) => d'.types == d.types && d'.cache.Keys == d.cache.Keys + {n}
            case _ => d'.types == d.types && d'.cache == map[]
    ensures forall k :: k in d.types && k in d'.types ==> d'.types[k] == d.types[k]
  {
  }

  /* ---------- every statement keeps the invariant ---------- */

  /** Replacing one type by one that is sound, and storing its new length everywhere it is stored. */
  lemma SetLargestOk(d: Db, n: string, t: ObjectType, largest: int)
    requires TypesOk(d.types) && CacheOk(d.types, d.cache) && n in d.types
    requires TypeOk(t.(largest := largest))
    ensures TypesOk(SetLargest(d, n, t, largest).types)
    ensures CacheOk(SetLargest(d, n, t, largest).types, SetLargest(d, n, t, largest).cache)
  {
    hide TypeOk;
  }

  lemma CreateOk(d: Db, n: string, rows: seq<Row>, d': Db)
    requires Inv(d) && n in d.types && CanCreate(d.types[n], rows) && d' == AfterCreate(d, n, rows)
    ensures Inv(d')
  {
    var t := d.types[n];
    var largest := Max(t.largest, GreatestLength(rows, 0));
    LeastFirstMeans(rows, d.minM);
    GreatestLastMeans(rows, d.maxM);
    GreatestLengthMeans(rows, 0);
    SetLargestOk(d, n, t.(rows := t.rows + rows), largest);
  }

  lemma CreateExact(d: Db, n: string, rows: seq<Row>, d': Db)
    requires Exact(d) && n in d.types && d' == AfterCreate(d, n, rows)
    ensures Exact(d')
  {
    CreateExactMin(d, n, rows, d');
    CreateExactMax(d, n, rows, d');
  }

  lemma CreateExactMin(d: Db, n: string, rows: seq<Row>, d': Db)
    requires ExactMin(d.types, d.minM) && n in d.types && d' == AfterCreate(d, n, rows)
    ensures ExactMin(d'.types, d'.minM)
  {
    LeastFirstMeans(rows, d.minM);
    if d'.minM != d.minM {
      var r :| r in rows && First(r.monads) == d'.minM;
      assert r in d'.types[n].rows;
    } else if d.minM != MAX_MONAD {
      var k, r :| k in d.types && r in d.types[k].rows && First(r.monads) == d.minM;
      assert k in d'.types && r in d'.types[k].rows;
    }
  }

  lemma CreateExactMax(d: Db, n: string, rows: seq<Row>, d': Db)
    requires ExactMax(d.types, d.maxM) && n in d.types && d' == AfterCreate(d, n, rows)
    ensures ExactMax(d'.types, d'.maxM)
  {
    GreatestLastMeans(rows, d.maxM);
    if d'.maxM != d.maxM {
      var r :| r in rows && Last(r.monads) == d'.maxM;
      assert r in d'.types[n].rows;
    } else if d.maxM != 0 {
      var k, r :| k in d.types && r in d.types[k].rows && Last(r.monads) == d.maxM;
      assert k in d'.types && r in d'.types[k].rows;
    }
  }

  lemma DropOk(d: Db, n: string, id: int, d': Db)
    requires Inv(d) && n in d.types && Dropped(d, n, id, d')
    ensures Inv(d')
  {
    var t := d.types[n];
    KeepTableOk(t.range, t.rows, (r: Row) => r.id != id);
    var monads := MonadsOf(t.rows, id);
    var length := Last(monads) - First(monads) + 1;
    SetLargestOk(d, n, t.(rows := WithoutId(t.rows, id)), if length >= t.largest then length else t.largest);
  }

  /** Dropping an object leaves every row of other monads where it was. */
  lemma RowStays(d: Db, n: string, id: int, d': Db, k: string, r: Row)
    requires TypesOk(d.types) && n in d.types && Dropped(d, n, id, d')
    requires k in d.types && r in d.types[k].rows && r.monads != MonadsOf(d.types[n].rows, id)
    ensures k in d'.types && r in d'.types[k].rows
  {
    hide Exact;
    var t := d.types[n];
    assert TypeOk(t);
    if k == n && r.id == id { MonadsOfMeans(t.range, t.rows, r); }
  }

  lemma FewerRows(d: Db, n: string, id: int, d': Db)
    requires n in d.types && Dropped(d, n, id, d')
    ensures BelowAll(d.types, d.minM) ==> BelowAll(d'.types, d.minM)
    ensures AboveAll(d.types, d.maxM) ==> AboveAll(d'.types, d.maxM)
  {
    hide Exact;
  }

  /** min_m need not be recomputed when the dropped object did not start there; likewise max_m. */
  lemma DropExact(d: Db, n: string, id: int, d': Db)
    requires TypesOk(d.types) && Exact(d) && n in d.types && Dropped(d, n, id, d')
    ensures Exact(d')
  {
    hide TypesOk, BelowAll, AboveAll;
    var monads := MonadsOf(d.types[n].rows, id);
    FewerRows(d, n, id, d');
    if d.minM != First(monads) && d.maxM != Last(monads) {
      if d.minM != MAX_MONAD {
        var k, r :| k in d.types && r in d.types[k].rows && First(r.monads) == d.minM;
        RowStays(d, n, id, d', k, r);
      }
      if d.maxM != 0 {
        var k, r :| k in d.types && r in d.types[k].rows && Last(r.monads) == d.maxM;
        RowStays(d, n, id, d', k, r);
      }
    }
  }

  lemma LargestFromRowsOk(t: ObjectType)
    requires TableOk(t.range, t.rows)
    ensures TypeOk(t.(largest := LargestFromRows(t)))
    ensures t.rows != [] ==> exists r :: r in t.rows && Length(r) == LargestFromRows(t)
  {
    if t.rows != [] {
      assert t.rows[0] in t.rows && RowOk(t.range, t.rows[0]);
      Extremes(t.rows[0].monads);
      GreatestLengthMeans(t.rows, Length(t.rows[0]));
    }
  }

  lemma DropInMonadsOk(d: Db, n: string, som: MonadSet, d': Db)
    requires Inv(d) && n in d.types && DroppedInMonads(d, n, som, d')
    ensures Inv(d')
    ensures Exact(d) ==> Exact(d')
  {
    var t := d.types[n];
    KeepTableOk(t.range, t.rows, (r: Row) => !HullInOneRange(som, r));
    var left := t.(rows := OutsideRanges(t.rows, som));
    LargestFromRowsOk(left);
    if left.rows != t.rows { SetLargestOk(d, n, left, LargestFromRows(left)); }
  }

  /** Every successful statement keeps the stored bounds valid and the cache equal to the table. */
  lemma StepKeeps(d: Db, s: Statement, d': Db)
    requires Inv(d) && Step(d, s, d')
    ensures Inv(d')
    ensures Exact(d) && !s.DropType? ==> Exact(d')
  {
    match s
    case CreateObject(n, row) => CreateOk(d, n, [row], d'); if Exact(d) { CreateExact(d, n, [row], d'); }
    case CreateObjects(n, rows) => CreateOk(d, n, rows, d'); if Exact(d) { CreateExact(d, n, rows, d'); }
    case DropObject(n, id) => DropOk(d, n, id, d'); if Exact(d) { DropExact(d, n, id, d'); }
    case DropInMonads(n, som) => DropInMonadsOk(d, n, som, d');
    case CreateType(n, range) => CreateTypeKeeps(d, n, range, d');
    case DropType(n) =>
    case LookUp(n) =>
    case ClearCache =>
  }

  lemma CreateTypeKeeps(d: Db, n: string, range: RangeType, d': Db)
    requires Inv(d) && Step(d, CreateType(n, range), d')
    ensures Inv(d')
    ensures Exact(d) ==> Exact(d')
  {
    hide RowOk;
    assert forall k :: k in d.types ==> k in d'.types && d'.types[k] == d.types[k];
    assert d'.types[n].rows == [];
    if Exact(d) { CreateTypeExact(d.types, d'.types, n, d.minM, d.maxM); }
  }

  lemma CreateTypeExact(types: Types, types': Types, n: string, minM: int, maxM: int)
    requires types'.Keys == types.Keys + {n} && n !in types && types'[n].rows == []
    requires forall k :: k in types ==> types'[k] == types[k]
    ensures ExactMin(types, minM) ==> ExactMin(types', minM)
    ensures ExactMax(types, maxM) ==> ExactMax(types', maxM)
  {
    if ExactMin(types, minM) && minM != MAX_MONAD {
      var k, r :| k in types && r in types[k].rows && First(r.monads) == minM;
      assert k in types' && r in types'[k].rows;
    }
    if ExactMax(types, maxM) && maxM != 0 {
      var k, r :| k in types && r in types[k].rows && Last(r.monads) == maxM;
      assert k in types' && r in types'[k].rows;
    }
  }

  /** A new database: no types, min_m = MAX_MONAD, max_m = 0. */
  const Fresh := Db(map[], map[], MAX_MONAD, 0)

  /** states[0..] is a run of the statements. */
  ghost predicate Run(statements: seq<Statement>, states: seq<Db>) {
    |states| == |statements| + 1 && states[0] == Fresh &&
    forall i :: 0 <= i < |statements| ==> Step(states[i], statements[i], states[i + 1])
  }

  /**
   * In every state of every run of successful statements the bounds hold; in a
   * run without DROP OBJECT TYPE min_m and max_m are exact.
   */
  lemma {:induction false} RunKeeps(statements: seq<Statement>, states: seq<Db>, i: nat)
    requires Run(statements, states) && i < |states|
    ensures Inv(states[i])
    ensures (forall k :: 0 <= k < i ==> !statements[k].DropType?) ==> Exact(states[i])
  {
    if i > 0 {
      RunKeeps(statements, states, i - 1);
      StepKeeps(states[i - 1], statements[i - 1], states[i]);
    }
  }

  /**
   * What the runs give the retrieval planner: in every reachable state each
   * table meets the bounds that windowed retrieval relies on, read from the cache
   * when the type is cached.
   */
  lemma RunServesRetrieval(statements: seq<Statement>, states: seq<Db>, i: nat, n: string)
    requires Run(statements, states) && i < |states| && n in states[i].types
    ensures var d := states[i];
            TableOk(d.types[n].range, d.types[n].rows)
            && Bounded(d.types[n].rows, d.minM, if n in d.cache then d.cache[n] else d.types[n].largest)
  {
    RunKeeps(statements, states, i);
  }

  /** Dropping a type leaves min_m and max_m as they were: valid bounds, exact only if other types attain them. */
  lemma DropTypeExactIff(d: Db, n: string, d': Db)
    requires Inv(d) && Exact(d) && Step(d, DropType(n), d')
    ensures Exact(d') <==>
            (d.minM == MAX_MONAD || exists k, r :: k in d.types && k != n && r in d.types[k].rows && First(r.monads) == d.minM)
            && (d.maxM == 0 || exists k, r :: k in d.types && k != n && r in d.types[k].rows && Last(r.monads) == d.maxM)
  {
    assert forall k :: k in d'.types <==> k in d.types && k != n;
  }

  /** The states of three statements: a type, an object in it, and the type dropped. */
  function OneObject(name: string, row: Row): seq<Db> {
    var d1 := Fresh.(types := Fresh.types[name := ObjectType(SingleRange, [], 0)], cache := Fresh.cache[name := 0]);
    var d2 := AfterCreate(d1, name, [row]);
    [Fresh, d1, d2, d2.(types := d2.types - {name}, cache := d2.cache - {name})]
  }

  lemma OneObjectRuns(name: string, row: Row)
    requires RowOk(SingleRange, row)
    ensures Run([CreateType(name, SingleRange), CreateObject(name, row), DropType(name)], OneObject(name, row))
  {
    hide RowOk;
    var states := OneObject(name, row);
    assert [] + [row] == [row];
    assert CanCreate(states[1].types[name], [row]);
    assert Step(states[0], CreateType(name, SingleRange), states[1]);
    assert Step(states[1], CreateObject(name, row), states[2]);
    assert Step(states[2], DropType(name), states[3]);
  }

  /** In every such run with an object inside the monad range, min_m no longer is a first monad afterwards. */
  lemma OneObjectStale(name: string, row: Row)
    requires First(row.monads) < MAX_MONAD
    ensures !Exact(OneObject(name, row)[3])
  {
    var d := OneObject(name, row)[3];
    assert [row][1..] == [];
    assert LeastFirst([row], MAX_MONAD) == First(row.monads);
    assert forall n :: n !in d.types;
  }

  /** A run after which min_m and max_m are stale: exact before the type is dropped, not exact behind it. */
  lemma DropTypeCanBeStale()
    ensures exists statements, states ::
              Run(statements, states) && |statements| == 3 && statements[2] == DropType("w")
              && Exact(states[2]) && !Exact(states[3])
  {
    hide Run, Exact;
    var row := Row(1, [Mse(3, 4)]);
    var statements, states := [CreateType("w", SingleRange), CreateObject("w", row), DropType("w")], OneObject("w", row);
    OneObjectRuns("w", row);
    RunKeeps(statements, states, 2);
    OneObjectStale("w", row);
  }
}

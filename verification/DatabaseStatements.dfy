/**
 * The statements of EMdF/emdfdb.cpp that maintain the metadata, as they run:
 * each method's effect is the step of the same name in Metadata. A list of all
 * object types, as a SELECT returns it, is the parameter `names`.
 */
module DatabaseStatements {
  import opened Monads
  import opened Retrieval
  import opened Metadata

  /* ---------- folds, as the loops build them ---------- */

  lemma {:induction false} FoldSnoc(rows: seq<Row>, r: Row, a: int, b: int, c: int)
    ensures LeastFirst(rows + [r], a) == Min(LeastFirst(rows, a), First(r.monads))
    ensures GreatestLast(rows + [r], b) == Max(GreatestLast(rows, b), Last(r.monads))
    ensures GreatestLength(rows + [r], c) == Max(GreatestLength(rows, c), Length(r))
  {
    if rows != [] {
      var x := rows[0];
      FoldSnoc(rows[1..], r, Min(a, First(x.monads)), Max(b, Last(x.monads)), Max(c, Length(x)));
      assert (rows + [r])[1..] == rows[1..] + [r];
    }
  }

  lemma {:induction false} FoldFrom(rows: seq<Row>, a: int, a': int, b: int, b': int)
    ensures a' <= a ==> LeastFirst(rows, a') == Min(a', LeastFirst(rows, a))
    ensures b' >= b ==> GreatestLast(rows, b') == Max(b', GreatestLast(rows, b))
  {
    if rows != [] {
      var x := rows[0];
      FoldFrom(rows[1..], Min(a, First(x.monads)), Min(a', First(x.monads)), Max(b, Last(x.monads)), Max(b', Last(x.monads)));
      LeastFirstMeans(rows[1..], Min(a, First(x.monads)));
      GreatestLastMeans(rows[1..], Max(b, Last(x.monads)));
    }
  }

  /** Covers min_m and max_m for the types named so far. */
  ghost predicate ExactOver(types: Types, names: set<string>, minM: int, maxM: int) {
    (forall n, r :: n in names && n in types && r in types[n].rows ==> minM <= First(r.monads) && maxM >= Last(r.monads)) &&
    minM <= MAX_MONAD && maxM >= 0 &&
    (minM == MAX_MONAD || exists n, r :: n in types && r in types[n].rows && First(r.monads) == minM) &&
    (maxM == 0 || exists n, r :: n in types && r in types[n].rows && Last(r.monads) == maxM)
  }

  lemma ExactOverType(types: Types, names: set<string>, n: string, minM: int, maxM: int, minM': int, maxM': int)
    requires n in types && ExactOver(types, names, minM, maxM)
    requires types[n].rows == [] ==> minM' == minM && maxM' == maxM
    requires types[n].rows != [] ==> minM' == Min(minM, LeastFirst(types[n].rows, First(types[n].rows[0].monads)))
    requires types[n].rows != [] ==> maxM' == Max(maxM, GreatestLast(types[n].rows, Last(types[n].rows[0].monads)))
    ensures ExactOver(types, names + {n}, minM', maxM')
  {
    var rows := types[n].rows;
    if rows != [] {
      LeastFirstMeans(rows, First(rows[0].monads));
      GreatestLastMeans(rows, Last(rows[0].monads));
      assert rows[0] in rows;
      ExactOverRow(types, names, n, minM, maxM, minM', maxM');
    }
  }

  lemma ExactOverRow(types: Types, names: set<string>, n: string, minM: int, maxM: int, minM': int, maxM': int)
    requires n in types && ExactOver(types, names, minM, maxM)
    requires minM' <= minM && maxM' >= maxM
    requires forall r :: r in types[n].rows ==> minM' <= First(r.monads) && maxM' >= Last(r.monads)
    requires minM' == minM || exists r :: r in types[n].rows && First(r.monads) == minM'
    requires maxM' == maxM || exists r :: r in types[n].rows && Last(r.monads) == maxM'
    ensures ExactOver(types, names + {n}, minM', maxM')
  {
  }

  /** The database connection with its object type cache. */
  class Database {
    var types: Types
    var cache: map<string, int>
    var minM: int
    var maxM: int

    ghost function State(): Db
      reads this
    {
      Db(types, cache, minM, maxM)
    }

    constructor ()
      ensures State() == Fresh && Inv(State()) && Exact(State())
    {
      types, cache, minM, maxM := map[], map[], MAX_MONAD, 0;
    }

    method SetMin(candidate: int, unconditionally: bool)
      modifies this`minM
      ensures minM == if unconditionally then candidate else Min(old(minM), candidate)
    {
      if unconditionally || candidate < minM { minM := candidate; }
    }

    method SetMax(candidate: int, unconditionally: bool)
      modifies this`maxM
      ensures maxM == if unconditionally then candidate else Max(old(maxM), candidate)
    {
      if unconditionally || candidate > maxM { maxM := candidate; }
    }

    /** The cache first, then the table. */
    method GetLargest(n: string) returns (largest: int)
      requires n in types && CacheOk(types, cache)
      ensures largest == types[n].largest
    {
      if n in cache { largest := cache[n]; } else { largest := types[n].largest; }
    }

    method SetLargestIfNecessary(n: string, largest: int, unconditionally: bool)
      requires n in types && CacheOk(types, cache)
      modifies this`types, this`cache
      ensures var was := old(types[n].largest);
              State() == SetLargest(old(State()), n, old(types[n]), if unconditionally then largest else Max(was, largest))
    {
      if !unconditionally {
        var current := GetLargest(n);
        if current >= largest {
          assert types == types[n := types[n]];
          assert n in cache ==> cache == cache[n := cache[n]];
          return;
        }
      }
      types := types[n := types[n].(largest := largest)];
      if n in cache { cache := cache[n := largest]; }
    }

    /** setMin_max_m_fromObjectType: SELECT MIN(first), MAX(last), skipped for an empty table. */
    method SetFromType(n: string)
      requires n in types
      modifies this`minM, this`maxM
      ensures types[n].rows == [] ==> minM == old(minM) && maxM == old(maxM)
      ensures types[n].rows != [] ==> minM == Min(old(minM), LeastFirst(types[n].rows, First(types[n].rows[0].monads)))
      ensures types[n].rows != [] ==> maxM == Max(old(maxM), GreatestLast(types[n].rows, Last(types[n].rows[0].monads)))
    {
      var rows := types[n].rows;
      if rows == [] { return; }
      SetMin(LeastFirst(rows, First(rows[0].monads)), false);
      SetMax(GreatestLast(rows, Last(rows[0].monads)), false);
    }

    /** setMin_max_m_fromObjectTypes: reset, then visit every type in the order listed. */
    method SetFromTypes(names: seq<string>)
      requires forall n :: n in names <==> n in types
      modifies this`minM, this`maxM
      ensures Exact(State())
    {
      SetMin(MAX_MONAD, true);
      SetMax(0, true);
      var i := 0;
      while i < |names|
        invariant 0 <= i <= |names|
        invariant ExactOver(types, set k | 0 <= k < i :: names[k], minM, maxM)
      {
        ghost var done, a, b := (set k | 0 <= k < i :: names[k]), minM, maxM;
        assert names[i] in names;
        SetFromType(names[i]);
        ExactOverType(types, done, names[i], a, b, minM, maxM);
        i := i + 1;
        assert done + {names[i - 1]} == set k | 0 <= k < i :: names[k];
      }
      AllVisited(types, names, minM, maxM);
    }

    method CreateObjectType(n: string, range: RangeType)
      requires n !in types && Inv(State())
      modifies this
      ensures Step(old(State()), CreateType(n, range), State())
      ensures types.Keys == old(types).Keys + {n} && types[n].range == range && types[n].rows == []
      ensures forall k :: k in old(types) ==> types[k] == old(types)[k]
    {
      types := types[n := ObjectType(range, [], 0)];
      if n !in cache { cache := cache[n := 0]; }
    }

    method DropObjectType(n: string)
      requires n in types
      modifies this
      ensures Step(old(State()), DropType(n), State())
      ensures types.Keys == old(types).Keys - {n} && forall k :: k in types ==> types[k] == old(types)[k]
    {
      types := types - {n};
      cache := cache - {n};
    }

    /** objectTypeExists: a type that is found enters the cache. */
    method ObjectTypeExists(n: string) returns (found: bool)
      requires Inv(State())
      modifies this`cache
      ensures found <==> n in types
      ensures if found then Step(old(State()), LookUp(n), State()) else State() == old(State())
    {
      if n in cache {
        assert cache == cache[n := types[n].largest];
        return true;
      }
      found := n in types;
      if found { cache := cache[n := types[n].largest]; }
    }

    method CreateOne(n: string, row: Row)
      requires n in types && CanCreate(types[n], [row]) && Inv(State())
      modifies this
      ensures Step(old(State()), CreateObject(n, row), State())
      ensures OnlyIn(old(State()), n, State())
      ensures forall k, r :: Stands(State(), k, r) <==> old(Stands(State(), k, r)) || (k == n && r == row)
    {
      hide TypesOk, CacheOk, BelowAll, AboveAll, TableOk, SetLargest, GreatestLength, LeastFirst, GreatestLast;
      ghost var d, t := State(), types[n];
      NewRows(d, n, t.(rows := t.rows + [row]));
      OneRow(d, t, row);
      types := types[n := types[n].(rows := types[n].rows + [row])];
      SetMin(First(row.monads), false);
      SetMax(Last(row.monads), false);
      SetLargestIfNecessary(n, Last(row.monads) - First(row.monads) + 1, false);
      Created(d, n, [row], minM, maxM);
      CreateMeans(d, n, [row], State());
    }

    /** createObjects: rows go in by rounds; the metadata is set once, from candidates over all of them. */
    method CreateMany(n: string, rows: seq<Row>, size: Row -> nat)
      requires n in types && CanCreate(types[n], rows) && Inv(State())
      modifies this
      ensures Step(old(State()), CreateObjects(n, rows), State())
      ensures OnlyIn(old(State()), n, State())
      ensures forall k, r :: Stands(State(), k, r) <==> old(Stands(State(), k, r)) || (k == n && r in rows)
    {
      hide TypesOk, CacheOk, BelowAll, AboveAll, TableOk, SetLargest;
      ghost var d, t := State(), types[n];
      var minCandidate, maxCandidate, largestCandidate := InsertRounds(n, rows, size);
      NewRows(d, n, t.(rows := t.rows + rows));
      SetMin(minCandidate, false);
      SetMax(maxCandidate, false);
      SetLargestIfNecessary(n, largestCandidate, false);
      FoldFrom(rows, MAX_MONAD, d.minM, 0, d.maxM);
      Created(d, n, rows, minM, maxM);
      CreateMeans(d, n, rows, State());
    }

    /** The loop of createObjects: a round is sent at 10000 objects, at the end, or past the size limit. */
    method InsertRounds(n: string, rows: seq<Row>, size: Row -> nat)
      returns (minCandidate: int, maxCandidate: int, largestCandidate: int)
      requires n in types
      modifies this`types
      ensures types == old(types)[n := old(types[n]).(rows := old(types[n].rows) + rows)]
      ensures minCandidate == LeastFirst(rows, MAX_MONAD)
      ensures maxCandidate == GreatestLast(rows, 0)
      ensures largestCandidate == GreatestLength(rows, 0)
    {
      ghost var t := types[n];
      minCandidate, maxCandidate, largestCandidate := MAX_MONAD, 0, 0;
      var pending: seq<Row>, data, i := [], 0, 0;
      assert t.rows + rows[..0] == t.rows;
      assert types == types[n := t];
      while i < |rows|
        invariant 0 <= i <= |rows| && |pending| <= i
        invariant types == old(types)[n := t.(rows := t.rows + rows[..i - |pending|])]
        invariant pending == rows[i - |pending|..i] && (i == |rows| ==> pending == [])
        invariant minCandidate == LeastFirst(rows[..i], MAX_MONAD)
        invariant maxCandidate == GreatestLast(rows[..i], 0)
        invariant largestCandidate == GreatestLength(rows[..i], 0)
      {
        var row := rows[i];
        FoldSnoc(rows[..i], row, MAX_MONAD, 0, 0);
        assert rows[..i + 1] == rows[..i] + [row];
        var length := Last(row.monads) - First(row.monads) + 1;
        if length > largestCandidate { largestCandidate := length; }
        if First(row.monads) < minCandidate { minCandidate := First(row.monads); }
        if Last(row.monads) > maxCandidate { maxCandidate := Last(row.monads); }
        pending := pending + [row];
        data := data + size(row);
        i := i + 1;
        if |pending| == 10000 || i == |rows| || data > 1042441 {
          RoundSent(t.rows, rows, i - |pending|, i);
          assert pending == rows[i - |pending|..i];
          assert types[n] == t.(rows := t.rows + rows[..i - |pending|]);
          types := types[n := types[n].(rows := types[n].rows + pending)];
          assert types == old(types)[n := t.(rows := t.rows + rows[..i])];
          pending, data := [], 0;
        }
      }
      assert rows[..i] == rows;
    }

    method DropOne(n: string, id: int, names: seq<string>)
      requires n in types && Inv(State())
      requires forall k :: k in names <==> k in types
      modifies this
      ensures Step(old(State()), DropObject(n, id), State())
      ensures OnlyIn(old(State()), n, State())
      ensures forall k, r :: Stands(State(), k, r) <==> old(Stands(State(), k, r)) && !(k == n && r.id == id)
    {
      hide TypesOk, CacheOk, BelowAll, AboveAll, TableOk, SetLargest, Exact, WithoutId;
      ghost var d, t := State(), types[n];
      ghost var left := t.(rows := WithoutId(t.rows, id));
      NewRows(d, n, left);
      var monads := MonadsOf(types[n].rows, id);
      types := types[n := types[n].(rows := WithoutId(types[n].rows, id))];
      if minM == First(monads) || maxM == Last(monads) { SetFromTypes(names); }
      var largest := GetLargest(n);
      var length := Last(monads) - First(monads) + 1;
      if length >= largest {
        SetLargestIfNecessary(n, length, true);
        Stored(d, n, left, length, minM, maxM);
      } else {
        Stored(d, n, left, t.largest, minM, maxM);
      }
      DropMeans(d, n, id, State());
    }

    method DropMany(n: string, som: MonadSet, names: seq<string>) returns (ids: seq<int>)
      requires n in types && Normal(som) && Inv(State())
      requires forall k :: k in names <==> k in types
      modifies this
      ensures Step(old(State()), DropInMonads(n, som), State())
      ensures OnlyIn(old(State()), n, State())
      ensures forall k, r :: Stands(State(), k, r) <==> old(Stands(State(), k, r)) && !(k == n && HullInOneRange(som, r))
      ensures forall id :: id in ids <==> exists r :: r in old(types[n].rows) && HullInOneRange(som, r) && r.id == id
    {
      hide TypesOk, CacheOk, BelowAll, AboveAll, TableOk, SetLargest, Exact, OutsideRanges, Normal, LargestFromRows;
      ghost var d, t := State(), types[n];
      NothingDropped(t.rows, som);
      ids := [];
      if som == [] || types[n].rows == [] { return; }
      ids := IdsWithin(types[n].rows, som);
      if ids == [] { return; }
      ghost var left := t.(rows := OutsideRanges(t.rows, som));
      NewRows(d, n, left);
      types := types[n := types[n].(rows := OutsideRanges(types[n].rows, som))];
      SetFromTypes(names);
      SetLargestIfNecessary(n, LargestFromRows(types[n]), true);
      Stored(d, n, left, LargestFromRows(left), minM, maxM);
      DropInMonadsMeans(d, n, som, State());
    }
  }

  lemma AllVisited(types: Types, names: seq<string>, minM: int, maxM: int)
    requires forall n :: n in names <==> n in types
    requires ExactOver(types, set k | 0 <= k < |names| :: names[k], minM, maxM)
    ensures ExactMin(types, minM) && ExactMax(types, maxM)
  {
    var all := set k | 0 <= k < |names| :: names[k];
    forall n | n in types ensures n in all {
      var k :| 0 <= k < |names| && names[k] == n;
    }
  }

  /** Storing a length changes no rows, so it changes neither minimum nor maximum. */
  lemma SameRows(types: Types, types': Types, minM: int, maxM: int)
    requires types.Keys == types'.Keys && forall k :: k in types ==> types'[k].rows == types[k].rows
    ensures ExactMin(types, minM) ==> ExactMin(types', minM)
    ensures ExactMax(types, maxM) ==> ExactMax(types', maxM)
  {
    if ExactMin(types, minM) && minM != MAX_MONAD {
      var k, r :| k in types && r in types[k].rows && First(r.monads) == minM;
      assert k in types' && r in types'[k].rows;
    }
    if ExactMax(types, maxM) && maxM != 0 {
      var k, r :| k in types && r in types[k].rows && Last(r.monads) == maxM;
      assert k in types' && r in types'[k].rows;
    }
  }

  /** Changing rows alone leaves the cache coherent. */
  lemma NewRows(d: Db, n: string, t: ObjectType)
    requires Inv(d) && n in d.types && t.largest == d.types[n].largest
    ensures CacheOk(d.types, d.cache) && CacheOk(d.types[n := t], d.cache)
    ensures d.minM <= MAX_MONAD && d.maxM >= 0
  {
  }

  /** Storing the new length after the new rows is storing both at once. */
  lemma Stored(d: Db, n: string, t: ObjectType, largest: int, minM: int, maxM: int)
    requires n in d.types && CacheOk(d.types, d.cache) && t.largest == d.types[n].largest
    ensures var d1 := Db(d.types[n := t], d.cache, minM, maxM);
            var d2 := SetLargest(d1, n, t, largest);
            && d2.(minM := d.minM, maxM := d.maxM) == SetLargest(d, n, t, largest)
            && (Exact(d1) <==> Exact(d2))
            && (largest == t.largest ==> d1 == d2)
  {
    var types1, types2 := d.types[n := t], d.types[n := t][n := t.(largest := largest)];
    assert types2 == d.types[n := t.(largest := largest)];
    SameRows(types1, types2, minM, maxM);
    SameRows(types2, types1, minM, maxM);
    if largest == t.largest {
      assert types2 == types1;
      assert n in d.cache ==> d.cache == d.cache[n := largest];
    }
  }

  lemma Created(d: Db, n: string, rows: seq<Row>, minM: int, maxM: int)
    requires n in d.types && CacheOk(d.types, d.cache)
    requires minM == LeastFirst(rows, d.minM) && maxM == GreatestLast(rows, d.maxM)
    ensures var t := d.types[n].(rows := d.types[n].rows + rows);
            SetLargest(Db(d.types[n := t], d.cache, minM, maxM), n, t, Max(t.largest, GreatestLength(rows, 0)))
              == AfterCreate(d, n, rows)
  {
    var t := d.types[n].(rows := d.types[n].rows + rows);
    Stored(d, n, t, Max(t.largest, GreatestLength(rows, 0)), minM, maxM);
  }

  lemma OneRow(d: Db, t: ObjectType, row: Row)
    requires CanCreate(t, [row])
    ensures GreatestLength([row], 0) == Length(row)
    ensures LeastFirst([row], d.minM) == Min(d.minM, First(row.monads))
    ensures GreatestLast([row], d.maxM) == Max(d.maxM, Last(row.monads))
  {
    assert (t.rows + [row])[|t.rows|] == row;
    assert RowOk(t.range, row);
    Extremes(row.monads);
    assert [row][1..] == [];
  }

  lemma RoundSent(had: seq<Row>, rows: seq<Row>, lo: nat, hi: nat)
    requires lo <= hi <= |rows|
    ensures had + rows[..lo] + rows[lo..hi] == had + rows[..hi]
  {
    assert rows[..lo] + rows[lo..hi] == rows[..hi];
  }

  /** The filter leaves the table alone exactly when no row matches. */
  lemma {:induction false} NothingDropped(rows: seq<Row>, som: MonadSet)
    ensures OutsideRanges(rows, som) == rows <==> forall r :: r in rows ==> !HullInOneRange(som, r)
  {
    if forall r :: r in rows ==> !HullInOneRange(som, r) {
      if rows != [] {
        assert forall r :: r in rows[1..] ==> r in rows;
        NothingDropped(rows[1..], som);
      }
    }
  }

  /** getObjectsWithinMonads. */
  method IdsWithin(rows: seq<Row>, som: MonadSet) returns (ids: seq<int>)
    ensures forall id :: id in ids <==> exists r :: r in rows && HullInOneRange(som, r) && r.id == id
    ensures ids == [] <==> forall r :: r in rows ==> !HullInOneRange(som, r)
  {
    ids := [];
    var i := 0;
    while i < |rows|
      invariant 0 <= i <= |rows|
      invariant forall id :: id in ids <==> exists r :: r in rows[..i] && HullInOneRange(som, r) && r.id == id
    {
      assert rows[..i + 1] == rows[..i] + [rows[i]];
      ghost var was := ids;
      if HullInOneRange(som, rows[i]) { ids := ids + [rows[i].id]; }
      forall id ensures id in ids <==> exists r :: r in rows[..i + 1] && HullInOneRange(som, r) && r.id == id {
        if id in was { var r :| r in rows[..i] && HullInOneRange(som, r) && r.id == id; assert r in rows[..i + 1]; }
      }
      i := i + 1;
    }
    assert rows[..i] == rows;
    forall r | r in rows && HullInOneRange(som, r) ensures ids != [] { assert r.id in ids; }
    if ids != [] { assert ids[0] in ids; }
  }
}

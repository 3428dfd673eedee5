/**
 * SELECT OBJECTS HAVING MONADS IN (getObjectsHavingMonadsInMonadSet of
 * EMdF/emdfdb.cpp): the monad set is cut into batches of 200 ranges, one SQL
 * query each, with a set of objects already seen carried from batch to batch.
 */
module Batches {
  import opened Monads
  import opened Retrieval

  const MAX_MSES := 200

  /** One row of the result table: the monad reported and the object's id. */
  datatype Entry = Entry(monad: int, id: int)

  /** m is the least monad that the sets a and b share. */
  ghost predicate LeastShared(a: MonadSet, b: MonadSet, m: int) {
    Has(a, m) && Has(b, m) && forall n :: Has(a, n) && Has(b, n) ==> m <= n
  }

  /** The WHERE clause: the hull test, and one disjunct per range when there are several. */
  predicate Where(som: MonadSet, r: Row) {
    First(r.monads) <= Last(som) && Last(r.monads) >= First(som) &&
    (|som| == 1 || exists k :: 0 <= k < |som| && First(r.monads) <= som[k].last && Last(r.monads) >= som[k].first)
  }

  /** The WHERE clause loses no object that shares a monad with the set. */
  lemma WhereKeeps(som: MonadSet, r: Row)
    requires Normal(som) && Normal(r.monads) && r.monads != [] && Share(r.monads, som)
    ensures Where(som, r)
  {
    var m :| Has(r.monads, m) && Has(som, m);
    Extremes(r.monads);
    var k :| 0 <= k < |som| && In(m, som[k]);
    Extremes(som);
    assert First(r.monads) <= som[k].last && Last(r.monads) >= som[k].first;
  }

  /** Every entry names an object of the table and the least monad it shares with som; no id twice. */
  ghost predicate Sound(table: seq<Row>, som: MonadSet, result: seq<Entry>) {
    (forall e :: e in result ==> exists r :: r in table && r.id == e.id && LeastShared(r.monads, som, e.monad)) &&
    (forall i, j :: 0 <= i < j < |result| ==> result[i].id != result[j].id)
  }

  /** The ids seen are those of the objects that share a monad with som. */
  ghost predicate Seen(table: seq<Row>, som: MonadSet, seen: set<int>) {
    forall r :: r in table ==> (r.id in seen <==> Share(r.monads, som))
  }

  ghost predicate Lists(result: seq<Entry>, seen: set<int>) {
    forall id :: id in seen <==> exists e :: e in result && e.id == id
  }

  /** Every monad of a is below every monad of b. */
  ghost predicate Below(a: MonadSet, b: MonadSet) {
    forall m, n :: Has(a, m) && Has(b, n) ==> m < n
  }

  /** The state after the first k rows of a batch: rows not yet reached are seen only through `done`. */
  ghost predicate InBatch(table: seq<Row>, k: nat, done: MonadSet, batch: MonadSet, seen: set<int>, result: seq<Entry>)
    requires k <= |table|
  {
    Sound(table, done + batch, result) && Lists(result, seen) &&
    (forall i :: 0 <= i < k ==> (table[i].id in seen <==> Share(table[i].monads, done + batch))) &&
    (forall i :: k <= i < |table| ==> (table[i].id in seen <==> Share(table[i].monads, done)))
  }

  /** A least monad shared with the earlier batches stays least when a later batch is added. */
  lemma LeastStays(a: MonadSet, done: MonadSet, batch: MonadSet, m: int)
    requires Below(done, batch) && LeastShared(a, done, m)
    ensures LeastShared(a, done + batch, m)
  {
    forall n ensures Has(done + batch, n) <==> Has(done, n) || Has(batch, n) { HasAppend(done, batch, n); }
  }

  lemma SoundStays(table: seq<Row>, done: MonadSet, batch: MonadSet, result: seq<Entry>)
    requires Below(done, batch) && Sound(table, done, result)
    ensures Sound(table, done + batch, result)
  {
    forall e | e in result ensures exists r :: r in table && r.id == e.id && LeastShared(r.monads, done + batch, e.monad) {
      var r :| r in table && r.id == e.id && LeastShared(r.monads, done, e.monad);
      LeastStays(r.monads, done, batch, e.monad);
    }
  }

  /** For an object not met before, the least monad shared with the batch is the least of all. */
  lemma LeastOfBatch(a: MonadSet, done: MonadSet, batch: MonadSet, both: MonadSet)
    requires Normal(both) && forall m :: Has(both, m) <==> Has(a, m) && Has(batch, m)
    requires !Share(a, done)
    ensures Share(a, done + batch) <==> both != []
    ensures both != [] ==> LeastShared(a, done + batch, First(both))
  {
    forall n ensures Has(done + batch, n) <==> Has(done, n) || Has(batch, n) { HasAppend(done, batch, n); }
    if both != [] {
      Extremes(both);
      assert LeastShared(a, done + batch, First(both));
    }
  }

  lemma ShareGrows(a: MonadSet, done: MonadSet, batch: MonadSet)
    requires Share(a, done)
    ensures Share(a, done + batch)
  {
    var m :| Has(a, m) && Has(done, m);
    HasAppend(done, batch, m);
  }

  lemma ShareOnlyBatch(a: MonadSet, done: MonadSet, batch: MonadSet)
    requires Share(a, done + batch) && !Share(a, done)
    ensures Share(a, batch)
  {
    var m :| Has(a, m) && Has(done + batch, m);
    HasAppend(done, batch, m);
  }

  lemma SoundSnoc(table: seq<Row>, som: MonadSet, result: seq<Entry>, row: Row, m: int)
    requires Sound(table, som, result) && row in table && LeastShared(row.monads, som, m)
    requires forall e :: e in result ==> e.id != row.id
    ensures Sound(table, som, result + [Entry(m, row.id)])
  {
    hide LeastShared;
    var now := result + [Entry(m, row.id)];
    forall e | e in now ensures exists r :: r in table && r.id == e.id && LeastShared(r.monads, som, e.monad) {
      if e !in result { assert e == Entry(m, row.id); assert row.id == e.id; }
    }
    assert forall i :: 0 <= i < |result| ==> result[i] in result;
  }

  lemma ListsSnoc(result: seq<Entry>, seen: set<int>, m: int, id: int)
    requires Lists(result, seen)
    ensures Lists(result + [Entry(m, id)], seen + {id})
  {
    var now := result + [Entry(m, id)];
    assert now[|result|] == Entry(m, id);
    forall x ensures x in seen + {id} <==> exists e :: e in now && e.id == x {
      if x == id { assert now[|result|] in now; }
      if x in seen { var e :| e in result && e.id == x; assert e in now; }
    }
  }

  /** Adding an entry for a row whose id is new. */
  lemma AddEntry(rt: RangeType, table: seq<Row>, k: nat, done: MonadSet, batch: MonadSet, seen: set<int>,
                 result: seq<Entry>, m: int)
    requires TableOk(rt, table) && k < |table| && InBatch(table, k, done, batch, seen, result)
    requires table[k].id !in seen && LeastShared(table[k].monads, done + batch, m)
    ensures InBatch(table, k + 1, done, batch, seen + {table[k].id}, result + [Entry(m, table[k].id)])
  {
    hide Sound, RowOk;
    assert Share(table[k].monads, done + batch);
    assert forall e :: e in result ==> e.id != table[k].id;
    SoundSnoc(table, done + batch, result, table[k], m);
    ListsSnoc(result, seen, m, table[k].id);
  }

  lemma PassRow(rt: RangeType, table: seq<Row>, k: nat, done: MonadSet, batch: MonadSet, seen: set<int>,
                result: seq<Entry>)
    requires TableOk(rt, table) && k < |table| && InBatch(table, k, done, batch, seen, result)
    requires table[k].id in seen || !Share(table[k].monads, batch)
    ensures InBatch(table, k + 1, done, batch, seen, result)
  {
    var a := table[k].monads;
    if Share(a, done) { ShareGrows(a, done, batch); }
    else if Share(a, done + batch) { ShareOnlyBatch(a, done, batch); }
  }

  /** One batch: the inner getObjectsHavingMonadsInMonadSet. */
  method RunBatch(rt: RangeType, table: seq<Row>, ghost done: MonadSet, batch: MonadSet,
                  seen0: set<int>, result0: seq<Entry>)
    returns (seen: set<int>, result: seq<Entry>)
    requires TableOk(rt, table) && Normal(batch) && Below(done, batch)
    requires Sound(table, done, result0) && Lists(result0, seen0) && Seen(table, done, seen0)
    ensures Sound(table, done + batch, result) && Lists(result, seen) && Seen(table, done + batch, seen)
  {
    hide Sound, Lists, Share, LeastShared;
    seen, result := seen0, result0;
    SoundStays(table, done, batch, result);
    var k := 0;
    while k < |table|
      invariant 0 <= k <= |table| && InBatch(table, k, done, batch, seen, result)
    {
      var row := table[k];
      assert RowOk(rt, row);
      if Where(batch, row) && row.id !in seen {
        var both := Intersect(row.monads, batch);
        LeastOfBatch(row.monads, done, batch, both);
        if both != [] {
          AddEntry(rt, table, k, done, batch, seen, result, First(both));
          seen := seen + {row.id};
          result := result + [Entry(First(both), row.id)];
        } else {
          NothingShared(row.monads, batch, both);
          PassRow(rt, table, k, done, batch, seen, result);
        }
      } else {
        if row.id !in seen && Share(row.monads, batch) { WhereKeeps(batch, row); }
        PassRow(rt, table, k, done, batch, seen, result);
      }
      k := k + 1;
    }
  }

  lemma NothingShared(a: MonadSet, b: MonadSet, both: MonadSet)
    requires both == [] && forall m :: Has(both, m) <==> Has(a, m) && Has(b, m)
    ensures !Share(a, b)
  {
  }

  lemma SlicesBelow(som: MonadSet, lo: nat, hi: nat)
    requires Normal(som) && lo <= hi <= |som|
    ensures Normal(som[lo..hi]) && Below(som[..lo], som[lo..hi])
  {
    forall m, n | Has(som[..lo], m) && Has(som[lo..hi], n) ensures m < n {
      var i :| 0 <= i < lo && In(m, som[..lo][i]);
      var j :| 0 <= j < hi - lo && In(n, som[lo..hi][j]);
      assert som[i].last + 1 < som[lo + j].first;
    }
  }

  lemma NormalAt(som: MonadSet, i: nat)
    requires Normal(som) && i < |som|
    ensures som[i].first <= som[i].last
  {
  }

  /** Collecting the next range into the batch is an append. */
  lemma BatchGrows(som: MonadSet, lo: nat, i: nat, temp: MonadSet)
    requires Normal(som) && lo <= i < |som| && Normal(temp)
    requires forall m :: Has(temp, m) <==> Has(som[lo..i], m) || In(m, som[i])
    ensures temp == som[lo..i + 1]
  {
    SlicesBelow(som, lo, i);
    SlicesBelow(som, lo, i + 1);
    assert som[lo..i + 1] == som[lo..i] + [som[i]];
    assert i > lo ==> som[i - 1].last + 1 < som[i].first;
    AddedAtEnd(som[lo..i], som[i], temp);
  }

  lemma NothingYet(table: seq<Row>, seen: set<int>, result: seq<Entry>)
    requires seen == {} && result == []
    ensures Sound(table, [], result) && Lists(result, seen) && Seen(table, [], seen)
  {
  }

  lemma ListedIffShared(table: seq<Row>, som: MonadSet, seen: set<int>, result: seq<Entry>)
    requires Lists(result, seen) && Seen(table, som, seen)
    ensures forall r :: r in table ==> (Share(r.monads, som) <==> exists e :: e in result && e.id == r.id)
  {
    hide Share;
  }

  /**
   * The outer getObjectsHavingMonadsInMonadSet: every object that shares a monad
   * with the set is reported exactly once, with the least monad it shares with
   * the whole set, and no other object is reported.
   */
  method GetObjectsHavingMonadsInMonadSet(rt: RangeType, table: seq<Row>, som: MonadSet)
    returns (result: seq<Entry>)
    requires TableOk(rt, table) && Normal(som)
    ensures Sound(table, som, result)
    ensures forall r :: r in table ==> (Share(r.monads, som) <==> exists e :: e in result && e.id == r.id)
  {
    hide Sound, Lists, Seen, Has, Normal, TableOk, Below;
    var seen: set<int> := {};
    result := [];
    NothingYet(table, seen, result);
    var temp: MonadSet := [];
    var count, i := 0, 0;
    while i < |som|
      invariant 0 <= count <= i <= |som| && count < MAX_MSES && (i == |som| ==> count == 0)
      invariant temp == som[i - count..i]
      invariant Sound(table, som[..i - count], result) && Lists(result, seen) && Seen(table, som[..i - count], seen)
    {
      ghost var lo := i - count;
      SlicesBelow(som, lo, i);
      assert som[i].first <= som[i].last by { NormalAt(som, i); }
      temp := AddMse(temp, som[i]);
      BatchGrows(som, lo, i, temp);
      i := i + 1;
      count := count + 1;
      if count == MAX_MSES || i == |som| {
        SlicesBelow(som, lo, i);
        assert som[..lo] + som[lo..i] == som[..i];
        assert temp == som[lo..i];
        seen, result := RunBatch(rt, table, som[..lo], temp, seen, result);
        temp := [];
        count := 0;
      }
    }
    assert som[..i] == som;
    ListedIffShared(table, som, seen, result);
  }
}

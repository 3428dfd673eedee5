/**
 * EnumConstCache (EMdF/enum_const_cache.cpp): per enumeration one map from
 * value and one from name to the same heap objects, and two maps between
 * enumeration ids and names. Values and defaults are changed in the shared
 * objects, so that the maps have to be kept in step by hand. The heap objects are
 * cells of `store` under their addresses: `new` takes an address that was never
 * used, `delete` removes the cell.
 */
module EnumCache {
  import opened Options

  type Ref = nat

  datatype Cell = Cell(name: string, value: int, isDefault: bool)

  type Store = map<Ref, Cell>
  type ByValue = map<int, Ref>
  type ByName = map<string, Ref>

  function Refs(vs: ByValue): set<Ref> { set v | v in vs :: vs[v] }

  datatype State = State(
    byValue: map<int, ByValue>, byName: map<int, ByName>,
    nameOf: map<int, string>, idOf: map<string, int>,
    store: Store, next: Ref)

  /* ---------- the invariant ---------- */

  /** The two maps of one enumeration hold the same live objects, each under its current value and its name. */
  ghost predicate Coherent(store: Store, vs: ByValue, ns: ByName) {
    (forall v :: v in vs ==>
       vs[v] in store && store[vs[v]].value == v && store[vs[v]].name in ns && ns[store[vs[v]].name] == vs[v]) &&
    (forall n :: n in ns ==>
       ns[n] in store && store[ns[n]].name == n && store[ns[n]].value in vs && vs[store[ns[n]].value] == ns[n])
  }

  /** The id and name maps are inverse to each other. */
  ghost predicate Inverse(nameOf: map<int, string>, idOf: map<string, int>) {
    (forall id :: id in nameOf ==> nameOf[id] in idOf && idOf[nameOf[id]] == id) &&
    (forall n :: n in idOf ==> idOf[n] in nameOf && nameOf[idOf[n]] == n)
  }

  /** Every live object belongs to an enumeration under its name (nothing leaks), and to one only. */
  ghost predicate Owned(s: State) {
    (forall r :: r in s.store ==> r < s.next && exists id :: Owns(s, id, r)) &&
    (forall id, id', r :: Owns(s, id, r) && Owns(s, id', r) ==> id == id')
  }

  ghost predicate Owns(s: State, id: int, r: Ref) {
    id in s.byName && r in s.store && s.store[r].name in s.byName[id] && s.byName[id][s.store[r].name] == r
  }

  ghost predicate Valid(s: State) {
    s.byValue.Keys == s.byName.Keys == s.nameOf.Keys && Inverse(s.nameOf, s.idOf) && Owned(s) &&
    forall id :: id in s.byName ==> Coherent(s.store, s.byValue[id], s.byName[id])
  }

  const Empty := State(map[], map[], map[], map[], map[], 0)

  lemma EmptyValid()
    ensures Valid(Empty)
  {
  }

  /** A lookup by value and a lookup by name find the same constants. */
  lemma LookupsAgree(s: State, id: int, r: Ref)
    requires Valid(s) && id in s.byName
    ensures (exists v :: v in s.byValue[id] && s.byValue[id][v] == r) <==>
            (exists n :: n in s.byName[id] && s.byName[id][n] == r)
  {
    var vs, ns := s.byValue[id], s.byName[id];
    assert Coherent(s.store, vs, ns);
    if v :| v in vs && vs[v] == r { assert ns[s.store[r].name] == r; }
    if n :| n in ns && ns[n] == r { assert vs[s.store[r].value] == r; }
  }

  /* ---------- enumerations ---------- */

  /** std::map::insert keeps an entry that is already there: an enumeration name in use goes on naming its first id. */
  function AfterAddEnum(s: State, id: int, name: string): State {
    if id in s.nameOf then s
    else s.(nameOf := s.nameOf[id := name], idOf := if name in s.idOf then s.idOf else s.idOf[name := id],
            byValue := s.byValue[id := map[]], byName := s.byName[id := map[]])
  }

  /** Adding an enumeration keeps the cache valid exactly when it is there already or its name is not in use. */
  lemma AddEnumValidIff(s: State, id: int, name: string)
    requires Valid(s)
    ensures Valid(AfterAddEnum(s, id, name)) <==> id in s.nameOf || name !in s.idOf
    ensures id in AfterAddEnum(s, id, name).byName && id in AfterAddEnum(s, id, name).byValue
    ensures id !in s.nameOf && name in s.idOf ==> !Inverse(AfterAddEnum(s, id, name).nameOf, AfterAddEnum(s, id, name).idOf)
  {
    hide Coherent, Inverse, Owned;
    if id !in s.nameOf {
      if name in s.idOf {
        NameInUse(s.nameOf, s.idOf, id, name);
      } else {
        AddEnumOwned(s, id, name);
        AddEnumInverse(s.nameOf, s.idOf, id, name);
        EmptyCoherent(s.store);
      }
    }
  }

  lemma NameInUse(nameOf: map<int, string>, idOf: map<string, int>, id: int, name: string)
    requires Inverse(nameOf, idOf) && id !in nameOf && name in idOf
    ensures !Inverse(nameOf[id := name], idOf)
  {
    assert nameOf[id := name][id] == name && idOf[name] != id;
  }

  lemma EmptyCoherent(store: Store)
    ensures Coherent(store, map[], map[])
  {
  }

  lemma AddEnumInverse(nameOf: map<int, string>, idOf: map<string, int>, id: int, name: string)
    requires Inverse(nameOf, idOf) && id !in nameOf && name !in idOf
    ensures Inverse(nameOf[id := name], idOf[name := id])
  {
  }

  lemma AddEnumOwned(s: State, id: int, name: string)
    requires Owned(s) && id !in s.nameOf && id !in s.byName
    ensures Owned(AfterAddEnum(s, id, name))
  {
    var t := AfterAddEnum(s, id, name);
    forall k, r ensures Owns(t, k, r) <==> Owns(s, k, r) { }
  }

  /** dropEnum deletes the objects through the map from values. */
  function AfterDropEnum(s: State, id: int): State {
    if id !in s.nameOf || id !in s.byValue then s
    else s.(nameOf := s.nameOf - {id}, idOf := s.idOf - {s.nameOf[id]}, byName := s.byName - {id},
            byValue := s.byValue - {id}, store := s.store - Refs(s.byValue[id]))
  }

  lemma {:induction false} DropEnumValid(s: State, id: int)
    requires Valid(s)
    ensures Valid(AfterDropEnum(s, id)) && id !in AfterDropEnum(s, id).nameOf
  {
    if id in s.nameOf {
      var t := AfterDropEnum(s, id);
      forall r | r in Refs(s.byValue[id]) ensures Owns(s, id, r) { DroppedOwned(s, id, r); }
      forall k | k in t.byName ensures Coherent(t.store, t.byValue[k], t.byName[k]) { OthersCoherent(s, id, k); }
      forall r | r in t.store ensures exists k :: Owns(t, k, r) {
        var k :| Owns(s, k, r);
        if k == id { OwnedIsValue(s, id, r); }
        assert Owns(t, k, r);
      }
      forall r, k | Owns(t, k, r) ensures Owns(s, k, r) { }
    }
  }

  lemma DroppedOwned(s: State, id: int, r: Ref)
    requires Valid(s) && id in s.byValue && r in Refs(s.byValue[id])
    ensures Owns(s, id, r)
  {
    assert Coherent(s.store, s.byValue[id], s.byName[id]);
    var v :| v in s.byValue[id] && s.byValue[id][v] == r;
  }

  lemma OwnedIsValue(s: State, id: int, r: Ref)
    requires Valid(s) && Owns(s, id, r)
    ensures s.byValue[id][s.store[r].value] == r && r in Refs(s.byValue[id])
  {
    assert Coherent(s.store, s.byValue[id], s.byName[id]);
  }

  /** The objects of one enumeration are no other's. */
  lemma OthersCoherent(s: State, id: int, k: int)
    requires Valid(s) && id in s.byName && k in s.byName && k != id
    ensures Coherent(s.store - Refs(s.byValue[id]), s.byValue[k], s.byName[k])
  {
    var store := s.store - Refs(s.byValue[id]);
    forall n | n in s.byName[k] ensures s.byName[k][n] in store {
      var r := s.byName[k][n];
      assert Owns(s, k, r);
      if r in Refs(s.byValue[id]) { DroppedOwned(s, id, r); }
    }
    forall v | v in s.byValue[k] ensures s.byValue[k][v] in store {
      var r := s.byValue[k][v];
      DroppedOwned(s, k, r);
      if r in Refs(s.byValue[id]) { DroppedOwned(s, id, r); }
    }
  }

  /* ---------- constants ---------- */

  datatype Outcome = Added | NotAdded | Thrown

  /** addEci once the enumeration is there; on an exception the map from values has the new object already. */
  function AfterInsert(s: State, id: int, c: Cell): (State, Outcome)
    requires id in s.byValue && id in s.byName
  {
    var vs, ns := s.byValue[id], s.byName[id];
    if c.value in vs then (s, NotAdded)
    else
      var s1 := s.(byValue := s.byValue[id := vs[c.value := s.next]], store := s.store[s.next := c], next := s.next + 1);
      if c.name in ns then (s1, Thrown)
      else (s1.(byName := s.byName[id := ns[c.name := s.next]]), Added)
  }

  /** t differs from s in one object r0 of one enumeration, and in that object's entries there. */
  ghost predicate OneChanged(s: State, t: State, id: int, name: string, r0: Ref) {
    id in s.byName && t.nameOf == s.nameOf && t.idOf == s.idOf && s.next <= t.next && r0 < t.next &&
    t.byValue.Keys == s.byValue.Keys && t.byName.Keys == s.byName.Keys &&
    (forall k :: k in s.byName && k != id ==> t.byName[k] == s.byName[k]) &&
    (forall k :: k in s.byValue && k != id ==> t.byValue[k] == s.byValue[k]) &&
    (forall r :: r != r0 ==> (r in t.store <==> r in s.store)) &&
    (forall r :: r != r0 && r in s.store ==> t.store[r] == s.store[r]) &&
    (forall n :: n != name ==> (n in t.byName[id] <==> n in s.byName[id])) &&
    (forall n :: n != name && n in s.byName[id] ==> t.byName[id][n] == s.byName[id][n]) &&
    ((Owns(s, id, r0) && s.store[r0].name == name) || (r0 == s.next && name !in s.byName[id])) &&
    (if r0 in t.store then Owns(t, id, r0) && t.store[r0].name == name else name !in t.byName[id])
  }

  lemma OwnsSame(s: State, t: State, id: int, name: string, r0: Ref, k: int, r: Ref)
    requires OneChanged(s, t, id, name, r0) && r != r0
    ensures Owns(t, k, r) <==> Owns(s, k, r)
  {
  }

  lemma OwnsChanged(s: State, t: State, id: int, name: string, r0: Ref, k: int)
    requires Valid(s) && OneChanged(s, t, id, name, r0) && Owns(t, k, r0)
    ensures k == id
  {
    if k != id {
      assert Coherent(s.store, s.byValue[k], s.byName[k]);
      assert Owns(s, k, r0);
    }
  }

  lemma ChangedOwned(s: State, t: State, id: int, name: string, r0: Ref)
    requires Valid(s) && OneChanged(s, t, id, name, r0)
    ensures Owned(t)
  {
    hide OneChanged, Coherent, Inverse;
    forall r | r in t.store ensures r < t.next && exists k :: Owns(t, k, r) {
      ChangedLives(s, t, id, name, r0, r);
    }
    forall k, k', r | Owns(t, k, r) && Owns(t, k', r) ensures k == k' {
      if r == r0 {
        OwnsChanged(s, t, id, name, r0, k);
        OwnsChanged(s, t, id, name, r0, k');
      } else {
        OwnsSame(s, t, id, name, r0, k, r);
        OwnsSame(s, t, id, name, r0, k', r);
      }
    }
  }

  lemma ChangedLives(s: State, t: State, id: int, name: string, r0: Ref, r: Ref)
    requires Owned(s) && OneChanged(s, t, id, name, r0) && r in t.store
    ensures r < t.next && exists k :: Owns(t, k, r)
  {
    if r == r0 {
      assert Owns(t, id, r);
    } else {
      var k :| Owns(s, k, r);
      OwnsSame(s, t, id, name, r0, k, r);
    }
  }

  /** Such a change keeps the cache valid as soon as the enumeration itself is coherent again. */
  lemma ChangeOne(s: State, t: State, id: int, name: string, r0: Ref)
    requires Valid(s) && OneChanged(s, t, id, name, r0)
    requires Coherent(t.store, t.byValue[id], t.byName[id])
    ensures Valid(t)
  {
    hide Coherent, Inverse;
    ChangedOwned(s, t, id, name, r0);
    forall k | k in t.byName ensures Coherent(t.store, t.byValue[k], t.byName[k]) {
      if k != id {
        forall r | Owns(s, k, r) ensures r in t.store && t.store[r] == s.store[r] { ElsewhereSame(s, t, id, name, r0, k, r); }
        KeptCoherent(s, t, k);
      }
    }
  }

  lemma ElsewhereSame(s: State, t: State, id: int, name: string, r0: Ref, k: int, r: Ref)
    requires Owned(s) && OneChanged(s, t, id, name, r0) && k != id && Owns(s, k, r)
    ensures r in t.store && t.store[r] == s.store[r]
  {
  }

  lemma KeptCoherent(s: State, t: State, k: int)
    requires Valid(s) && k in s.byName && k in t.byName && k in t.byValue
    requires t.byValue[k] == s.byValue[k] && t.byName[k] == s.byName[k]
    requires forall r :: Owns(s, k, r) ==> r in t.store && t.store[r] == s.store[r]
    ensures Coherent(t.store, t.byValue[k], t.byName[k])
  {
    assert Coherent(s.store, s.byValue[k], s.byName[k]);
    forall v | v in s.byValue[k] ensures Owns(s, k, s.byValue[k][v]) { }
    forall n | n in s.byName[k] ensures Owns(s, k, s.byName[k][n]) { }
  }

  /** addEci keeps the cache valid exactly when it does not throw: when the value is taken or the name is free. */
  lemma InsertValidIff(s: State, id: int, c: Cell)
    requires Valid(s) && id in s.byName
    ensures Valid(AfterInsert(s, id, c).0) <==> !AfterInsert(s, id, c).1.Thrown?
    ensures AfterInsert(s, id, c).1.Thrown? <==> c.value !in s.byValue[id] && c.name in s.byName[id]
  {
    var t := AfterInsert(s, id, c).0;
    if c.value !in s.byValue[id] {
      if c.name in s.byName[id] {
        assert t.byValue[id][c.value] == s.next && t.byName[id][c.name] != s.next by { NextIsFresh(s, id, c.name); }
        assert !Coherent(t.store, t.byValue[id], t.byName[id]);
      } else {
        InsertKeeps(s, t, id, c);
      }
    }
  }

  lemma NextIsFresh(s: State, id: int, n: string)
    requires Valid(s) && id in s.byName && n in s.byName[id]
    ensures s.byName[id][n] in s.store && s.byName[id][n] < s.next
  {
    assert Coherent(s.store, s.byValue[id], s.byName[id]);
  }

  lemma InsertKeeps(s: State, t: State, id: int, c: Cell)
    requires Valid(s) && id in s.byName && c.value !in s.byValue[id] && c.name !in s.byName[id]
    requires t == AfterInsert(s, id, c).0
    ensures Valid(t)
  {
    hide Coherent, Owned, Inverse, OneChanged;
    FreshUnused(s);
    InsertCoherent(s.store, s.byValue[id], s.byName[id], s.next, c);
    InsertOneChanged(s, t, id, c);
    ChangeOne(s, t, id, c.name, s.next);
  }

  lemma FreshUnused(s: State)
    requires Owned(s)
    ensures s.next !in s.store
  {
  }

  lemma InsertOneChanged(s: State, t: State, id: int, c: Cell)
    requires id in s.byName && id in s.byValue && c.value !in s.byValue[id] && c.name !in s.byName[id]
    requires t == AfterInsert(s, id, c).0
    ensures OneChanged(s, t, id, c.name, s.next)
  {
  }

  /** What coherence says of one cached constant. */
  lemma Cached(s: State, id: int, name: string)
    requires Valid(s) && id in s.byName && name in s.byName[id]
    ensures id in s.byValue && s.byName[id][name] in s.store && s.store[s.byName[id][name]].name == name
    ensures s.byName[id][name] < s.next
    ensures forall v :: v in s.byValue[id] && s.byValue[id][v] == s.byName[id][name] ==> s.store[s.byName[id][name]].value == v
  {
    assert Coherent(s.store, s.byValue[id], s.byName[id]);
  }

  lemma InsertCoherent(store: Store, vs: ByValue, ns: ByName, r: Ref, c: Cell)
    requires Coherent(store, vs, ns) && r !in store && c.value !in vs && c.name !in ns
    ensures Coherent(store[r := c], vs[c.value := r], ns[c.name := r])
  {
  }

  /** drop, where the constant is cached. */
  function AfterDrop(s: State, id: int, name: string): State {
    if id !in s.byName || id !in s.byValue || name !in s.byName[id] || s.byName[id][name] !in s.store then s
    else
      var r := s.byName[id][name];
      s.(byName := s.byName[id := s.byName[id] - {name}],
         byValue := s.byValue[id := s.byValue[id] - {s.store[r].value}], store := s.store - {r})
  }

  lemma DropValid(s: State, id: int, name: string)
    requires Valid(s)
    ensures Valid(AfterDrop(s, id, name))
    ensures id in s.byName ==> AfterDrop(s, id, name).byName[id] == s.byName[id] - {name}
  {
    hide Coherent, Owned, Inverse, OneChanged;
    var t := AfterDrop(s, id, name);
    if id in s.byName {
      if name in s.byName[id] {
        Cached(s, id, name);
        DropCoherent(s.store, s.byValue[id], s.byName[id], name);
        DropOneChanged(s, t, id, name);
        ChangeOne(s, t, id, name, s.byName[id][name]);
      } else {
        assert s.byName[id] - {name} == s.byName[id];
      }
    }
  }

  lemma DropOneChanged(s: State, t: State, id: int, name: string)
    requires id in s.byName && id in s.byValue && name in s.byName[id] && t == AfterDrop(s, id, name)
    requires s.byName[id][name] in s.store && s.store[s.byName[id][name]].name == name && s.byName[id][name] < s.next
    ensures OneChanged(s, t, id, name, s.byName[id][name])
  {
  }

  lemma DropCoherent(store: Store, vs: ByValue, ns: ByName, name: string)
    requires Coherent(store, vs, ns) && name in ns
    ensures Coherent(store - {ns[name]}, vs - {store[ns[name]].value}, ns - {name})
  {
    var r := ns[name];
    forall v | v in vs && v != store[r].value ensures vs[v] != r { }
    forall n | n in ns && n != name ensures ns[n] != r { }
  }

  /** updateValue: the object is changed first, then erased under the old value and inserted under the new one. */
  function AfterUpdate(s: State, id: int, name: string, value: int): State {
    if id !in s.byName || id !in s.byValue || name !in s.byName[id] || s.byName[id][name] !in s.store then s
    else
      var r := s.byName[id][name];
      var vs := s.byValue[id] - {s.store[r].value};
      s.(store := s.store[r := s.store[r].(value := value)],
         byValue := s.byValue[id := if value in vs then vs else vs[value := r]])
  }

  /** updateValue keeps the cache valid exactly when the new value is not held by another constant. */
  lemma UpdateValidIff(s: State, id: int, name: string, value: int)
    requires Valid(s) && id in s.byName && name in s.byName[id]
    ensures Valid(AfterUpdate(s, id, name, value)) <==>
            (value in s.byValue[id] ==> s.byValue[id][value] == s.byName[id][name])
  {
    hide Coherent, Owned, Inverse, OneChanged;
    var t := AfterUpdate(s, id, name, value);
    Cached(s, id, name);
    if value in s.byValue[id] && s.byValue[id][value] != s.byName[id][name] {
      UpdateBreaks(s, t, id, name, value);
    } else {
      UpdateCoherent(s.store, s.byValue[id], s.byName[id], name, value);
      UpdateOneChanged(s, t, id, name, value);
      ChangeOne(s, t, id, name, s.byName[id][name]);
    }
  }

  lemma UpdateBreaks(s: State, t: State, id: int, name: string, value: int)
    requires id in s.byName && id in s.byValue && Coherent(s.store, s.byValue[id], s.byName[id])
    requires name in s.byName[id] && t == AfterUpdate(s, id, name, value)
    requires value in s.byValue[id] && s.byValue[id][value] != s.byName[id][name]
    ensures !Coherent(t.store, t.byValue[id], t.byName[id])
  {
    var r := s.byName[id][name];
    assert t.byName[id][name] == r && t.store[r].value == value;
    assert t.byValue[id][value] == s.byValue[id][value];
  }

  lemma UpdateOneChanged(s: State, t: State, id: int, name: string, value: int)
    requires id in s.byName && id in s.byValue && name in s.byName[id] && t == AfterUpdate(s, id, name, value)
    requires s.byName[id][name] in s.store && s.store[s.byName[id][name]].name == name && s.byName[id][name] < s.next
    ensures OneChanged(s, t, id, name, s.byName[id][name])
  {
  }

  lemma UpdateCoherent(store: Store, vs: ByValue, ns: ByName, name: string, value: int)
    requires Coherent(store, vs, ns) && name in ns && (value in vs ==> vs[value] == ns[name])
    ensures var r := ns[name];
            Coherent(store[r := store[r].(value := value)], (vs - {store[r].value})[value := r], ns)
  {
    var r := ns[name];
    forall v | v in vs && v != store[r].value ensures vs[v] != r { }
    forall n | n in ns && n != name ensures ns[n] != r { }
  }

  function NameRefs(ns: ByName): set<Ref> { set n | n in ns :: ns[n] }

  /** setNewDefault on the first objects visited: each becomes the default or stops being it. */
  function Redefaulted(store: Store, visited: set<Ref>, name: string): Store {
    map r | r in store :: if r in visited then store[r].(isDefault := store[r].name == name) else store[r]
  }

  function AfterSetDefault(s: State, id: int, name: string): State {
    if id !in s.byName then s else s.(store := Redefaulted(s.store, NameRefs(s.byName[id]), name))
  }

  lemma RedefaultedCells(store: Store, visited: set<Ref>, name: string)
    ensures Redefaulted(store, visited, name).Keys == store.Keys
    ensures forall r :: r in store ==>
              Redefaulted(store, visited, name)[r].name == store[r].name
              && Redefaulted(store, visited, name)[r].value == store[r].value
              && Redefaulted(store, visited, name)[r].isDefault == (if r in visited then store[r].name == name else store[r].isDefault)
  {
  }

  lemma SetDefaultValid(s: State, id: int, name: string)
    requires Valid(s)
    ensures Valid(AfterSetDefault(s, id, name))
  {
    hide Inverse, Coherent, Owned, Redefaulted;
    var t := AfterSetDefault(s, id, name);
    if id in s.byName {
      RedefaultedCells(s.store, NameRefs(s.byName[id]), name);
      forall k | k in s.byName ensures Coherent(t.store, t.byValue[k], t.byName[k]) {
        SameKeysCoherent(s.store, t.store, s.byValue[k], s.byName[k]);
      }
      SameKeysOwned(s, t);
    }
  }

  lemma SameKeysOwned(s: State, t: State)
    requires Owned(s) && t.byName == s.byName && t.next == s.next && t.store.Keys == s.store.Keys
    requires forall r :: r in s.store ==> t.store[r].name == s.store[r].name
    ensures Owned(t)
  {
    forall k, r ensures Owns(t, k, r) <==> Owns(s, k, r) { }
  }

  lemma SameKeysCoherent(store: Store, store': Store, vs: ByValue, ns: ByName)
    requires Coherent(store, vs, ns) && store'.Keys == store.Keys
    requires forall r :: r in store ==> store'[r].name == store[r].name && store'[r].value == store[r].value
    ensures Coherent(store', vs, ns)
  {
  }

  /** r is a cached constant of the enumeration that is marked as its default. */
  ghost predicate IsDefault(s: State, id: int, r: Ref) {
    id in s.byValue && r in Refs(s.byValue[id]) && r in s.store && s.store[r].isDefault
  }

  /** After setNewDefault of a cached name, that constant and no other is the default. */
  lemma DefaultIsUnique(s: State, id: int, name: string, r: Ref)
    requires Valid(s) && id in s.byName && name in s.byName[id]
    ensures IsDefault(AfterSetDefault(s, id, name), id, r) <==> r == s.byName[id][name]
  {
    hide Redefaulted, Inverse, Owned, Valid;
    HasBoth(s);
    CoherentAt(s, id);
    RedefaultedCells(s.store, NameRefs(s.byName[id]), name);
    RefsSame(s.store, s.byValue[id], s.byName[id], r);
    RefsSame(s.store, s.byValue[id], s.byName[id], s.byName[id][name]);
  }

  lemma CoherentAt(s: State, id: int)
    requires Valid(s) && id in s.byName
    ensures Coherent(s.store, s.byValue[id], s.byName[id])
  {
  }

  /** Both maps of an enumeration reach the same objects. */
  lemma RefsSame(store: Store, vs: ByValue, ns: ByName, r: Ref)
    requires Coherent(store, vs, ns)
    ensures r in Refs(vs) <==> r in NameRefs(ns)
    ensures r in Refs(vs) ==> r in store && store[r].name in ns && ns[store[r].name] == r
  {
    if r in Refs(vs) {
      var v :| v in vs && vs[v] == r;
      assert ns[store[r].name] == r;
    }
    if r in NameRefs(ns) {
      var n :| n in ns && ns[n] == r;
      assert vs[store[r].value] == r;
    }
  }

  /** addEci as a whole: the enumeration first, then the constant. */
  lemma AddValidIff(s: State, id: int, enumName: string, c: Cell)
    requires Valid(s)
    ensures var s1 := AfterAddEnum(s, id, enumName);
            && id in s1.byName && id in s1.byValue
            && (Valid(AfterInsert(s1, id, c).0) <==>
                AfterInsert(s1, id, c).1 != Thrown && (id in s.nameOf || enumName !in s.idOf))
  {
    hide Valid;
    AddEnumValidIff(s, id, enumName);
    var s1 := AfterAddEnum(s, id, enumName);
    if id in s.nameOf || enumName !in s.idOf {
      InsertValidIff(s1, id, c);
    } else {
      StaysInvalid(s1, id, c);
    }
  }

  /** Nothing done to constants mends the maps of enumeration names. */
  lemma StaysInvalid(s: State, id: int, c: Cell)
    requires id in s.byName && id in s.byValue && !Inverse(s.nameOf, s.idOf)
    ensures !Valid(AfterInsert(s, id, c).0)
  {
  }

  /* ---------- what lookups find ---------- */

  /** The constant of that name in the enumeration of that id. */
  function Named(s: State, id: int, name: string): Option<Cell> {
    if id in s.byName && name in s.byName[id] && s.byName[id][name] in s.store then Some(s.store[s.byName[id][name]]) else None
  }

  /** The constant of that value in the enumeration of that id. */
  function Valued(s: State, id: int, value: int): Option<Cell> {
    if id in s.byValue && value in s.byValue[id] && s.byValue[id][value] in s.store then Some(s.store[s.byValue[id][value]]) else None
  }

  /** Both lookups find the same constants, each under its own name and value. */
  lemma LookupsMeet(s: State, id: int, c: Cell)
    requires Valid(s)
    ensures Named(s, id, c.name) == Some(c) <==> Valued(s, id, c.value) == Some(c)
    ensures forall n :: Named(s, id, n).Some? ==> Named(s, id, n).value.name == n
    ensures forall v :: Valued(s, id, v).Some? ==> Valued(s, id, v).value.value == v
    ensures forall n :: id in s.byName && n in s.byName[id] ==> Named(s, id, n).Some?
    ensures forall v :: id in s.byValue && v in s.byValue[id] ==> Valued(s, id, v).Some?
  {
    hide Valid;
    HasBoth(s);
    if id in s.byName { CoherentAt(s, id); }
  }

  /** Adding an enumeration changes no constant anywhere. */
  lemma AddEnumAt(s: State, id: int, name: string, k: int)
    requires Valid(s)
    ensures var t := AfterAddEnum(s, id, name);
            && t.nameOf == (if id in s.nameOf then s.nameOf else s.nameOf[id := name])
            && t.idOf == (if id in s.nameOf || name in s.idOf then s.idOf else s.idOf[name := id])
            && (forall n :: Named(t, k, n) == Named(s, k, n)) && (forall v :: Valued(t, k, v) == Valued(s, k, v))
  {
    hide Valid, Inverse;
    HasBoth(s);
  }

  /** No enumeration holds the next object to be made. */
  ghost predicate NextUnused(s: State) {
    (forall k, n :: k in s.byName && n in s.byName[k] ==> s.byName[k][n] < s.next) &&
    (forall k, v :: k in s.byValue && v in s.byValue[k] ==> s.byValue[k][v] < s.next)
  }

  lemma NextIsUnused(s: State)
    requires Valid(s)
    ensures NextUnused(s)
  {
    hide Valid;
    HasBoth(s);
    ValidOwned(s);
    forall k, n | k in s.byName && n in s.byName[k] ensures s.byName[k][n] < s.next { Cached(s, k, n); }
    forall k, v | k in s.byValue && v in s.byValue[k] ensures s.byValue[k][v] < s.next { CoherentAt(s, k); }
  }

  lemma StillUnused(s: State, id: int, enumName: string)
    requires NextUnused(s)
    ensures NextUnused(AfterAddEnum(s, id, enumName))
  {
  }

  lemma ValidOwned(s: State)
    requires Valid(s)
    ensures Owned(s)
  {
  }

  /** An added constant is found as it was given, and every other as before. */
  lemma InsertAt(s: State, id: int, c: Cell, k: int)
    requires NextUnused(s) && id in s.byValue && id in s.byName
    ensures var (t, out) := AfterInsert(s, id, c);
            && (out.NotAdded? ==> t == s)
            && (forall n :: Named(t, k, n) == if out.Added? && k == id && n == c.name then Some(c) else Named(s, k, n))
            && (forall v :: Valued(t, k, v) == if !out.NotAdded? && k == id && v == c.value then Some(c) else Valued(s, k, v))
            && t.nameOf == s.nameOf && t.idOf == s.idOf
  {
  }

  /** drop removes the constant of that name, from both lookups, and no other. */
  lemma DropAt(s: State, id: int, name: string, k: int)
    requires Valid(s)
    ensures var t, gone := AfterDrop(s, id, name), Named(s, id, name);
            && (forall n :: Named(t, k, n) == if k == id && n == name then None else Named(s, k, n))
            && (forall v :: Valued(t, k, v) == if k == id && gone.Some? && v == gone.value.value then None else Valued(s, k, v))
            && t.nameOf == s.nameOf && t.idOf == s.idOf
  {
    hide Valid;
    HasBoth(s);
    Separate(s, id, name, k);
  }

  /** The object of a name is reached from no other name and no other value, in this enumeration or another. */
  lemma Separate(s: State, id: int, name: string, k: int)
    requires Valid(s)
    ensures id in s.byName && name in s.byName[id] && k in s.byName ==>
              && s.byName[id][name] in s.store
              && (forall n :: n in s.byName[k] && s.byName[k][n] == s.byName[id][name] ==> k == id && n == name)
              && (forall v :: v in s.byValue[k] && s.byValue[k][v] == s.byName[id][name] ==>
                    k == id && v == s.store[s.byName[id][name]].value)
  {
    if id in s.byName && name in s.byName[id] && k in s.byName {
      CoherentAt(s, id);
      CoherentAt(s, k);
      assert Owns(s, id, s.byName[id][name]);
      forall n | n in s.byName[k] && s.byName[k][n] == s.byName[id][name] ensures k == id && n == name {
        assert Owns(s, k, s.byName[k][n]);
      }
      forall v | v in s.byValue[k] && s.byValue[k][v] == s.byName[id][name]
        ensures k == id && v == s.store[s.byName[id][name]].value
      {
        assert Owns(s, k, s.byValue[k][v]);
      }
    }
  }

  /** updateValue gives the constant of that name the value, name and default flag unchanged, and changes no other. */
  lemma UpdateAt(s: State, id: int, name: string, value: int, k: int)
    requires Valid(s)
    ensures var t, was := AfterUpdate(s, id, name, value), Named(s, id, name);
            var other := Valued(s, id, value).Some? && Valued(s, id, value) != was;
            && (forall n :: Named(t, k, n) == if k == id && n == name && was.Some? then Some(was.value.(value := value)) else Named(s, k, n))
            && (forall v :: Valued(t, k, v) ==
                  if k != id || was.None? then Valued(s, k, v)
                  else if v == value && !other then Some(was.value.(value := value))
                  else if v == was.value.value then None
                  else Valued(s, k, v))
            && t.nameOf == s.nameOf && t.idOf == s.idOf
  {
    hide Valid;
    HasBoth(s);
    Separate(s, id, name, k);
    Separate(s, id, name, id);
    if id in s.byName && name in s.byName[id] {
      CoherentAt(s, id);
      SameConstant(s, id, name, value);
    }
  }

  /** Two constants of one enumeration that look alike are one. */
  lemma SameConstant(s: State, id: int, name: string, value: int)
    requires Valid(s) && id in s.byName && id in s.byValue && name in s.byName[id]
    ensures value in s.byValue[id] ==>
              (Valued(s, id, value) == Named(s, id, name) <==> s.byValue[id][value] == s.byName[id][name])
  {
    CoherentAt(s, id);
  }

  /** dropEnum leaves the other enumerations as they were, and nothing of this one. */
  lemma DropEnumAt(s: State, id: int, k: int)
    requires Valid(s)
    ensures var t := AfterDropEnum(s, id);
            && (forall n :: Named(t, k, n) == if k == id then None else Named(s, k, n))
            && (forall v :: Valued(t, k, v) == if k == id then None else Valued(s, k, v))
            && (k in t.nameOf <==> k in s.nameOf && k != id) && (k in t.nameOf ==> t.nameOf[k] == s.nameOf[k])
            && (k in t.nameOf ==> t.nameOf[k] in t.idOf && t.idOf[t.nameOf[k]] == k)
  {
    hide Valid;
    HasBoth(s);
    DropEnumValid(s, id);
    var t := AfterDropEnum(s, id);
    HasBoth(t);
    if k in t.byName {
      CoherentAt(s, k);
      CoherentAt(t, k);
    }
  }

  /** setNewDefault marks the constant of that name and unmarks the others of its enumeration; names and values stay. */
  lemma SetDefaultAt(s: State, id: int, name: string, k: int)
    requires Valid(s)
    ensures var t := AfterSetDefault(s, id, name);
            && (forall n :: Named(t, k, n) ==
                  if k == id && Named(s, k, n).Some? then Some(Named(s, k, n).value.(isDefault := n == name)) else Named(s, k, n))
            && (forall v :: Valued(t, k, v) ==
                  if k == id && Valued(s, k, v).Some? then Some(Valued(s, k, v).value.(isDefault := Valued(s, k, v).value.name == name))
                  else Valued(s, k, v))
            && t.nameOf == s.nameOf && t.idOf == s.idOf
  {
    hide Redefaulted, Valid, NameRefs;
    HasBoth(s);
    if id in s.byName {
      RedefaultedCells(s.store, NameRefs(s.byName[id]), name);
      if k in s.byName {
        CoherentAt(s, k);
        OwnNameRefs(s, id, k);
      }
    }
  }

  /** The objects that setNewDefault visits are those of its enumeration. */
  lemma OwnNameRefs(s: State, id: int, k: int)
    requires Valid(s) && id in s.byName && k in s.byName && k in s.byValue
    ensures forall n :: n in s.byName[k] ==> (s.byName[k][n] in NameRefs(s.byName[id]) <==> k == id)
    ensures forall v :: v in s.byValue[k] ==> (s.byValue[k][v] in NameRefs(s.byName[id]) <==> k == id)
  {
    hide Valid;
    HasBoth(s);
    CoherentAt(s, k);
    forall n | n in s.byName[k] ensures s.byName[k][n] in NameRefs(s.byName[id]) <==> k == id {
      Separate(s, k, n, id);
    }
    forall v | v in s.byValue[k] ensures s.byValue[k][v] in NameRefs(s.byName[id]) <==> k == id {
      Separate(s, k, s.store[s.byValue[k][v]].name, id);
    }
  }

  /** t finds the constants that s finds. */
  ghost predicate SameConstants(s: State, t: State) {
    (forall k, n :: Named(t, k, n) == Named(s, k, n)) && (forall k, v :: Valued(t, k, v) == Valued(s, k, v))
  }

  /** An added constant is found as it was given, and every other as before; after an exception it is found by value only. */
  ghost predicate OneAdded(s: State, t: State, id: int, c: Cell, out: Outcome) {
    (forall k, n :: Named(t, k, n) == if out.Added? && k == id && n == c.name then Some(c) else Named(s, k, n)) &&
    (forall k, v :: Valued(t, k, v) == if !out.NotAdded? && k == id && v == c.value then Some(c) else Valued(s, k, v))
  }

  /** The constant of that name is found no longer, every other as before. */
  ghost predicate OneGone(s: State, t: State, id: int, name: string) {
    var gone := Named(s, id, name);
    (forall k, n :: Named(t, k, n) == if k == id && n == name then None else Named(s, k, n)) &&
    (forall k, v :: Valued(t, k, v) == if k == id && gone.Some? && v == gone.value.value then None else Valued(s, k, v))
  }

  /** The constant of that name has the value, name and default flag unchanged, and is found under it unless another is. */
  ghost predicate OneRevalued(s: State, t: State, id: int, name: string, value: int) {
    var was, held := Named(s, id, name), Valued(s, id, value);
    (forall k, n :: Named(t, k, n) ==
       if k == id && n == name && was.Some? then Some(was.value.(value := value)) else Named(s, k, n)) &&
    (forall k, v :: Valued(t, k, v) ==
       if k != id || was.None? then Valued(s, k, v)
       else if v == value && (held.None? || held == was) then Some(was.value.(value := value))
       else if v == was.value.value then None
       else Valued(s, k, v))
  }

  /** No constant of that enumeration is found any more, those of the others as before. */
  ghost predicate EnumGone(s: State, t: State, id: int) {
    (forall k, n :: Named(t, k, n) == if k == id then None else Named(s, k, n)) &&
    (forall k, v :: Valued(t, k, v) == if k == id then None else Valued(s, k, v)) &&
    (forall k :: k in t.nameOf <==> k in s.nameOf && k != id) && (forall k :: k in t.nameOf ==> t.nameOf[k] == s.nameOf[k])
  }

  /** The constants of that enumeration are default exactly if they have the name; nothing else changes. */
  ghost predicate Defaulted(s: State, t: State, id: int, name: string) {
    (forall k, n :: Named(t, k, n) ==
       if k == id && Named(s, k, n).Some? then Some(Named(s, k, n).value.(isDefault := n == name)) else Named(s, k, n)) &&
    (forall k, v :: Valued(t, k, v) ==
       if k == id && Valued(s, k, v).Some? then Some(Valued(s, k, v).value.(isDefault := Valued(s, k, v).value.name == name))
       else Valued(s, k, v))
  }

  lemma AddEnumMeans(s: State, id: int, name: string)
    requires Valid(s)
    ensures SameConstants(s, AfterAddEnum(s, id, name))
  {
    hide Valid, Named, Valued, AfterAddEnum;
    forall k, n ensures Named(AfterAddEnum(s, id, name), k, n) == Named(s, k, n) { AddEnumAt(s, id, name, k); }
    forall k, v ensures Valued(AfterAddEnum(s, id, name), k, v) == Valued(s, k, v) { AddEnumAt(s, id, name, k); }
  }

  lemma InsertMeans(s: State, id: int, c: Cell)
    requires NextUnused(s) && id in s.byValue && id in s.byName
    ensures OneAdded(s, AfterInsert(s, id, c).0, id, c, AfterInsert(s, id, c).1)
  {
    hide NextUnused, Named, Valued, AfterInsert;
    var (t, out) := AfterInsert(s, id, c);
    forall k, n ensures Named(t, k, n) == if out.Added? && k == id && n == c.name then Some(c) else Named(s, k, n) {
      InsertAt(s, id, c, k);
    }
    forall k, v ensures Valued(t, k, v) == if !out.NotAdded? && k == id && v == c.value then Some(c) else Valued(s, k, v) {
      InsertAt(s, id, c, k);
    }
  }

  lemma DropMeans(s: State, id: int, name: string)
    requires Valid(s)
    ensures OneGone(s, AfterDrop(s, id, name), id, name)
  {
    hide Valid, Named, Valued, AfterDrop;
    var t, gone := AfterDrop(s, id, name), Named(s, id, name);
    forall k, n ensures Named(t, k, n) == if k == id && n == name then None else Named(s, k, n) { DropAt(s, id, name, k); }
    forall k, v ensures Valued(t, k, v) == if k == id && gone.Some? && v == gone.value.value then None else Valued(s, k, v) {
      DropAt(s, id, name, k);
    }
  }

  lemma UpdateMeans(s: State, id: int, name: string, value: int)
    requires Valid(s)
    ensures OneRevalued(s, AfterUpdate(s, id, name, value), id, name, value)
  {
    hide Valid, Named, Valued, AfterUpdate;
    var t, was, held := AfterUpdate(s, id, name, value), Named(s, id, name), Valued(s, id, value);
    forall k, n
      ensures Named(t, k, n) == if k == id && n == name && was.Some? then Some(was.value.(value := value)) else Named(s, k, n)
    {
      UpdateAt(s, id, name, value, k);
    }
    forall k, v
      ensures Valued(t, k, v) ==
              if k != id || was.None? then Valued(s, k, v)
              else if v == value && (held.None? || held == was) then Some(was.value.(value := value))
              else if v == was.value.value then None
              else Valued(s, k, v)
    {
      UpdateAt(s, id, name, value, k);
    }
  }

  lemma DropEnumMeans(s: State, id: int)
    requires Valid(s)
    ensures EnumGone(s, AfterDropEnum(s, id), id)
  {
    hide Valid, Named, Valued, AfterDropEnum;
    var t := AfterDropEnum(s, id);
    forall k, n ensures Named(t, k, n) == if k == id then None else Named(s, k, n) { DropEnumAt(s, id, k); }
    forall k, v ensures Valued(t, k, v) == if k == id then None else Valued(s, k, v) { DropEnumAt(s, id, k); }
    forall k ensures k in t.nameOf <==> k in s.nameOf && k != id { DropEnumAt(s, id, k); }
    forall k | k in t.nameOf ensures t.nameOf[k] == s.nameOf[k] { DropEnumAt(s, id, k); }
  }

  lemma SetDefaultMeans(s: State, id: int, name: string)
    requires Valid(s)
    ensures Defaulted(s, AfterSetDefault(s, id, name), id, name)
  {
    hide Valid, Named, Valued, AfterSetDefault;
    var t := AfterSetDefault(s, id, name);
    forall k, n
      ensures Named(t, k, n) ==
              if k == id && Named(s, k, n).Some? then Some(Named(s, k, n).value.(isDefault := n == name)) else Named(s, k, n)
    {
      SetDefaultAt(s, id, name, k);
    }
    forall k, v
      ensures Valued(t, k, v) ==
              if k == id && Valued(s, k, v).Some? then Some(Valued(s, k, v).value.(isDefault := Valued(s, k, v).value.name == name))
              else Valued(s, k, v)
    {
      SetDefaultAt(s, id, name, k);
    }
  }

  lemma SameThenAdded(s: State, s1: State, t: State, id: int, c: Cell, out: Outcome)
    requires SameConstants(s, s1) && OneAdded(s1, t, id, c, out)
    ensures OneAdded(s, t, id, c, out)
  {
    hide Named, Valued;
  }

  /* ---------- runs ---------- */

  datatype Call =
    | AddCall(id: int, enumName: string, c: Cell)
    | DropEnumCall(id: int)
    | DropCall(id: int, name: string)
    | UpdateCall(id: int, name: string, value: int)
    | DefaultCall(id: int, name: string)

  function Apply(s: State, call: Call): State {
    match call
    case AddCall(id, enumName, c) =>
      var s1 := AfterAddEnum(s, id, enumName);
      if id in s1.byValue && id in s1.byName then AfterInsert(s1, id, c).0 else s1
    case DropEnumCall(id) => AfterDropEnum(s, id)
    case DropCall(id, name) => AfterDrop(s, id, name)
    case UpdateCall(id, name, value) => AfterUpdate(s, id, name, value)
    case DefaultCall(id, name) => AfterSetDefault(s, id, name)
  }

  /** Names are unique, and a new value is not held by another constant. */
  predicate Allowed(s: State, call: Call) {
    match call
    case AddCall(id, enumName, c) =>
      (id !in s.nameOf ==> enumName !in s.idOf) &&
      (id in s.byName && id in s.byValue ==> c.value in s.byValue[id] || c.name !in s.byName[id])
    case UpdateCall(id, name, value) =>
      id in s.byName && name in s.byName[id] && id in s.byValue && value in s.byValue[id] ==>
        s.byValue[id][value] == s.byName[id][name]
    case _ => true
  }

  lemma ApplyValid(s: State, call: Call)
    requires Valid(s) && Allowed(s, call)
    ensures Valid(Apply(s, call))
  {
    hide Valid;
    HasBoth(s);
    match call
    case AddCall(id, enumName, c) =>
      AddValidIff(s, id, enumName, c);
    case DropEnumCall(id) => DropEnumValid(s, id);
    case DropCall(id, name) => DropValid(s, id, name);
    case UpdateCall(id, name, value) =>
      if id in s.byName && name in s.byName[id] { UpdateValidIff(s, id, name, value); }
    case DefaultCall(id, name) => SetDefaultValid(s, id, name);
  }

  /** states is a run of the calls from the empty cache. */
  ghost predicate Run(calls: seq<Call>, states: seq<State>) {
    |states| == |calls| + 1 && states[0] == Empty &&
    forall i :: 0 <= i < |calls| ==> Allowed(states[i], calls[i]) && states[i + 1] == Apply(states[i], calls[i])
  }

  /** In every state of every such run the four maps agree and the store holds exactly their objects. */
  lemma {:induction false} RunValid(calls: seq<Call>, states: seq<State>, i: nat)
    requires Run(calls, states) && i < |states|
    ensures Valid(states[i])
  {
    if i == 0 {
      EmptyValid();
    } else {
      RunValid(calls, states, i - 1);
      ApplyValid(states[i - 1], calls[i - 1]);
    }
  }

  lemma OneConstant() returns (calls: seq<Call>, states: seq<State>)
    ensures Run(calls, states) && |calls| == 1
    ensures states[1].byName == map[1 := map["a" := 0]] && states[1].byValue == map[1 := map[10 := 0]]
    ensures states[1].nameOf == map[1 := "e"] && states[1].idOf == map["e" := 1]
  {
    var a := AddCall(1, "e", Cell("a", 10, true));
    calls, states := [a], [Empty, Apply(Empty, a)];
    assert Apply(Empty, a).byName[1] == map["a" := 0] && Apply(Empty, a).byValue[1] == map[10 := 0];
  }

  /** A run of one addition after which adding its name under another value throws and leaves the cache invalid. */
  lemma InsertCanBreak()
    ensures exists calls, states ::
              && Run(calls, states) && |calls| == 1 && Valid(states[1])
              && var s1 := AfterAddEnum(states[1], 1, "e");
                 && 1 in s1.byName && 1 in s1.byValue && AfterInsert(s1, 1, Cell("a", 20, false)).1.Thrown?
                 && !Valid(Apply(states[1], AddCall(1, "e", Cell("a", 20, false))))
  {
    hide Valid;
    var calls, states := OneConstant();
    RunValid(calls, states, 1);
    AddValidIff(states[1], 1, "e", Cell("a", 20, false));
  }

  /** A run of one addition after which a second enumeration of the same name leaves the cache invalid. */
  lemma AddEnumCanBreak()
    ensures exists calls, states ::
              && Run(calls, states) && |calls| == 1 && Valid(states[1])
              && !Valid(AfterAddEnum(states[1], 2, "e"))
              && !Valid(Apply(states[1], AddCall(2, "e", Cell("b", 20, false))))
  {
    hide Valid;
    var calls, states := OneConstant();
    RunValid(calls, states, 1);
    AddEnumValidIff(states[1], 2, "e");
    AddValidIff(states[1], 2, "e", Cell("b", 20, false));
  }

  lemma TwoConstants() returns (calls: seq<Call>, states: seq<State>)
    ensures Run(calls, states) && |calls| == 2
    ensures states[2].byName == map[1 := map["a" := 0, "b" := 1]]
    ensures states[2].byValue == map[1 := map[10 := 0, 20 := 1]]
  {
    var a, b := AddCall(1, "e", Cell("a", 10, true)), AddCall(1, "e", Cell("b", 20, false));
    var s1 := Apply(Empty, a);
    var s2 := Apply(s1, b);
    assert s1.byName[1] == map["a" := 0] && s1.byValue[1] == map[10 := 0];
    calls, states := [a, b], [Empty, s1, s2];
  }

  /** A run of two additions after which giving the first constant the second's value leaves the cache invalid. */
  lemma UpdateCanBreak()
    ensures exists calls, states ::
              Run(calls, states) && |calls| == 2 && Valid(states[2]) && !Valid(Apply(states[2], UpdateCall(1, "a", 20)))
  {
    hide Valid;
    var calls, states := TwoConstants();
    RunValid(calls, states, 2);
    UpdateValidIff(states[2], 1, "a", 20);
  }

  /* ---------- the cache as the source keeps it ---------- */

  class Cache {
    var byValue: map<int, ByValue>
    var byName: map<int, ByName>
    var nameOf: map<int, string>
    var idOf: map<string, int>
    var store: Store
    var next: Ref

    ghost function Value(): State
      reads this
    {
      State(byValue, byName, nameOf, idOf, store, next)
    }

    constructor ()
      ensures Value() == Empty && Valid(Value())
    {
      byValue, byName, nameOf, idOf, store, next := map[], map[], map[], map[], map[], 0;
    }

    method AddEnum(id: int, name: string)
      requires Valid(Value())
      modifies this
      ensures Value() == AfterAddEnum(old(Value()), id, name)
      ensures Valid(Value()) <==> id in old(nameOf) || name !in old(idOf)
      ensures SameConstants(old(Value()), Value())
      ensures nameOf == if id in old(nameOf) then old(nameOf) else old(nameOf)[id := name]
      ensures idOf == if id in old(nameOf) || name in old(idOf) then old(idOf) else old(idOf)[name := id]
    {
      hide Valid, SameConstants;
      AddEnumMeans(Value(), id, name);
      HasBoth(Value());
      AddEnumValidIff(Value(), id, name);
      if id !in nameOf {
        nameOf := nameOf[id := name];
        if name !in idOf { idOf := idOf[name := id]; }
        byValue := byValue[id := map[]];
        byName := byName[id := map[]];
      }
    }

    /**
     * addEci: a value that is there already is no error; a name that is there under
     * another value is. The cache is valid afterwards exactly when nothing was thrown
     * and no second enumeration took a name in use.
     */
    method AddEci(id: int, enumName: string, c: Cell) returns (out: Outcome)
      requires Valid(Value())
      modifies this
      ensures var s := AfterAddEnum(old(Value()), id, enumName);
              id in s.byName && id in s.byValue && (Value(), out) == AfterInsert(s, id, c)
      ensures out == Thrown <==> id in old(nameOf) && c.name in old(byName)[id] && c.value !in old(byValue)[id]
      ensures out == NotAdded <==> id in old(nameOf) && c.value in old(byValue)[id]
      ensures Valid(Value()) <==>
                if id in old(nameOf) then c.value in old(byValue)[id] || c.name !in old(byName)[id] else enumName !in old(idOf)
      ensures OneAdded(old(Value()), Value(), id, c, out)
    {
      hide Valid, SameConstants, OneAdded, NextUnused;
      HasBoth(Value());
      AddEnumValidIff(Value(), id, enumName);
      AddValidIff(Value(), id, enumName, c);
      NextIsUnused(Value());
      StillUnused(Value(), id, enumName);
      ghost var s := Value();
      AddEnumMeans(s, id, enumName);
      if id !in nameOf { AddEnum(id, enumName); }
      ghost var s1 := Value();
      InsertMeans(s1, id, c);
      out := Insert(id, c);
      SameThenAdded(s, s1, Value(), id, c, out);
    }

    /** The second half of addEci: by value first, so that a name in use is noticed too late. */
    method Insert(id: int, c: Cell) returns (out: Outcome)
      requires id in byName && id in byValue
      modifies `store, `next, `byValue, `byName
      ensures (Value(), out) == AfterInsert(old(Value()), id, c)
      ensures old(NextUnused(Value())) ==> OneAdded(old(Value()), Value(), id, c, out)
    {
      hide NextUnused, OneAdded;
      if NextUnused(Value()) { InsertMeans(Value(), id, c); }
      if c.value in byValue[id] { return NotAdded; }
      var r := next;
      next := next + 1;
      store := store[r := c];
      byValue := byValue[id := byValue[id][c.value := r]];
      if c.name in byName[id] { return Thrown; }
      byName := byName[id := byName[id][c.name := r]];
      return Added;
    }

    method DropEnum(id: int)
      requires Valid(Value())
      modifies this
      ensures Value() == AfterDropEnum(old(Value()), id) && Valid(Value()) && id !in nameOf
      ensures EnumGone(old(Value()), Value(), id)
    {
      hide Valid, EnumGone;
      DropEnumMeans(Value(), id);
      HasBoth(Value());
      DropEnumValid(Value(), id);
      if id in nameOf {
        idOf := idOf - {nameOf[id]};
        nameOf := nameOf - {id};
        byName := byName - {id};
        store := store - Refs(byValue[id]);
        byValue := byValue - {id};
      }
    }

    method Drop(id: int, name: string)
      requires Valid(Value())
      modifies this
      ensures Value() == AfterDrop(old(Value()), id, name) && Valid(Value())
      ensures OneGone(old(Value()), Value(), id, name)
    {
      hide Valid, OneGone;
      DropMeans(Value(), id, name);
      DropValid(Value(), id, name);
      HasBoth(Value());
      if id !in byName || name !in byName[id] { return; }
      Cached(Value(), id, name);
      var r := byName[id][name];
      var value := store[r].value;
      byName := byName[id := byName[id] - {name}];
      store := store - {r};
      byValue := byValue[id := byValue[id] - {value}];
    }

    method UpdateValue(id: int, name: string, value: int)
      requires Valid(Value())
      modifies this
      ensures Value() == AfterUpdate(old(Value()), id, name, value)
      ensures Valid(Value()) <==>
              (id in old(byName) && name in old(byName)[id] && id in old(byValue) && value in old(byValue)[id] ==>
                 old(byValue)[id][value] == old(byName)[id][name])
      ensures OneRevalued(old(Value()), Value(), id, name, value)
    {
      hide Valid, OneRevalued;
      UpdateMeans(Value(), id, name, value);
      HasBoth(Value());
      if id !in byName || name !in byName[id] { return; }
      UpdateValidIff(Value(), id, name, value);
      Cached(Value(), id, name);
      var r := byName[id][name];
      var old_value := store[r].value;
      store := store[r := store[r].(value := value)];
      byValue := byValue[id := byValue[id] - {old_value}];
      if value !in byValue[id] { byValue := byValue[id := byValue[id][value := r]]; }
    }

    method SetNewDefault(id: int, name: string)
      requires Valid(Value())
      modifies this
      ensures Value() == AfterSetDefault(old(Value()), id, name) && Valid(Value())
      ensures Defaulted(old(Value()), Value(), id, name)
    {
      hide Valid, Defaulted;
      SetDefaultMeans(Value(), id, name);
      SetDefaultValid(Value(), id, name);
      if id !in byName { return; }
      ghost var before := store;
      NamesLive(Value(), id);
      var todo := byName[id].Keys;
      ghost var visited: set<Ref> := {};
      assert Redefaulted(before, {}, name) == before;
      while todo != {}
        invariant unchanged(this`byName) && unchanged(this`byValue) && unchanged(this`nameOf) && unchanged(this`idOf)
        invariant unchanged(this`next)
        invariant todo <= byName[id].Keys && visited == set n | n in byName[id] && n !in todo :: byName[id][n]
        invariant store == Redefaulted(before, visited, name)
        decreases todo
      {
        var n :| n in todo;
        var r := byName[id][n];
        RedefaultedCells(before, visited, name);
        store := store[r := store[r].(isDefault := store[r].name == name)];
        todo := todo - {n};
        visited := visited + {r};
        assert store == Redefaulted(before, visited, name);
      }
      assert visited == NameRefs(byName[id]);
    }

    /** find by name. */
    method FindByName(id: int, name: string) returns (r: int)
      requires Valid(Value())
      ensures r == -1 <==> !(id in byName && name in byName[id])
      ensures r != -1 ==> r in store && store[r].name == name && Owns(Value(), id, r)
    {
      if id !in byName || name !in byName[id] { return -1; }
      Cached(Value(), id, name);
      return byName[id][name];
    }

    /** find by value, the enumeration given by its name. */
    method FindByValue(enumName: string, value: int) returns (r: int)
      requires Valid(Value())
      ensures r == -1 <==> !(enumName in idOf && value in byValue[idOf[enumName]])
      ensures r != -1 ==> r in store && store[r].value == value && Owns(Value(), idOf[enumName], r)
    {
      if enumName !in idOf { return -1; }
      var id := idOf[enumName];
      assert Coherent(store, byValue[id], byName[id]);
      if value !in byValue[id] { return -1; }
      return byValue[id][value];
    }

    /** getDefault: the first object met that is marked. */
    method GetDefault(id: int) returns (r: int)
      requires Valid(Value())
      ensures r >= 0 ==> IsDefault(Value(), id, r)
      ensures r == -1 <==> forall x :: !IsDefault(Value(), id, x)
      ensures r >= -1
    {
      hide Valid;
      if id !in byValue { return -1; }
      ValuesLive(Value(), id);
      var todo := byValue[id].Keys;
      while true
        invariant todo <= byValue[id].Keys
        invariant forall v :: v in byValue[id] && v !in todo ==> !store[byValue[id][v]].isDefault
        decreases todo
      {
        if v :| v in todo {
          if store[byValue[id][v]].isDefault { return byValue[id][v]; }
          todo := todo - {v};
        } else {
          return -1;
        }
      }
    }
  }

  /** After setNewDefault of a cached name getDefault returns that constant. */
  method NewDefaultIsFound(cache: Cache, id: int, name: string) returns (r: int)
    requires Valid(cache.Value()) && id in cache.byName && name in cache.byName[id]
    modifies cache
    ensures Valid(cache.Value()) && cache.byName == old(cache.byName)
    ensures r == old(cache.byName)[id][name] && r in cache.store && cache.store[r].name == name
  {
    hide Valid, IsDefault, Redefaulted;
    ghost var before := cache.Value();
    cache.SetNewDefault(id, name);
    r := cache.GetDefault(id);
    DefaultIsUnique(before, id, name, before.byName[id][name]);
    assert IsDefault(cache.Value(), id, before.byName[id][name]);
    DefaultIsUnique(before, id, name, r);
    Cached(cache.Value(), id, name);
  }

  lemma HasBoth(s: State)
    requires Valid(s)
    ensures s.byValue.Keys == s.byName.Keys == s.nameOf.Keys && Inverse(s.nameOf, s.idOf)
  {
  }

  lemma NamesLive(s: State, id: int)
    requires Valid(s) && id in s.byName
    ensures forall n :: n in s.byName[id] ==> s.byName[id][n] in s.store
  {
    assert Coherent(s.store, s.byValue[id], s.byName[id]);
  }

  lemma ValuesLive(s: State, id: int)
    requires Valid(s) && id in s.byValue
    ensures forall v :: v in s.byValue[id] ==> s.byValue[id][v] in s.store
  {
    assert Coherent(s.store, s.byValue[id], s.byName[id]);
  }
}

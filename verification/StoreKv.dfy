/**
 The flat key-value space under the store: one byte-string key per record, built by
 `buildKey`, and one byte string per index (internal/resource/store/store.go).
 */
module StoreKv {
  import opened Bytes
  import opened IndexBytes
  import opened StoreModel
  import opened StoreInvariant

  /** A stored value; marshalling is taken to be a bijection, so messages stand for their bytes. */
  datatype Raw = RawResource(resource: Resource) | RawRelationship(rel: Relationship) | RawIndex(bytes: Bytes)

  type Kv = map<Bytes, Raw>

  const RSRC: Bytes := "rsrc"
  const REL: Bytes := "rel"
  const IDX: Bytes := "idx"
  const SUBJECT_IDX: Bytes := "rel-subj"
  const OBJECT_IDX: Bytes := "rel-obj"
  const PREDICATE_IDX: Bytes := "rel-predicate"

  /** `buildKey`: every non-empty part after a slash. */
  function BuildKey(parts: seq<Bytes>): Bytes {
    if parts == [] then []
    else (if parts[0] == [] then [] else "/" + parts[0]) + BuildKey(parts[1..])
  }

  function Prefix(f: Family): Bytes {
    match f
    case ResourceF => "/rsrc"
    case RelationshipF => "/rel"
    case SubjectF => "/idx/rel-subj"
    case ObjectF => "/idx/rel-obj"
    case PredicateF => "/idx/rel-predicate"
  }

  function Tail(part: Bytes): Bytes {
    if part == [] then [] else "/" + part
  }

  /** The key of a record in the flat space. */
  function PhysKey(k: DbKey): Bytes {
    Prefix(k.family) + Tail(k.part)
  }

  lemma BuildTwo(a: Bytes, p: Bytes)
    requires a != []
    ensures BuildKey([a, p]) == "/" + a + Tail(p)
  {
    assert [a, p][1..] == [p] && [p][1..] == [];
    assert BuildKey([p]) == Tail(p);
  }

  lemma BuildThree(b: Bytes, p: Bytes)
    requires b != []
    ensures BuildKey([IDX, b, p]) == "/idx/" + b + Tail(p)
  {
    BuildTwo(b, p);
    assert [IDX, b, p][1..] == [b, p];
    assert "/" + IDX == "/idx";
    assert "/idx" + ("/" + b + Tail(p)) == "/idx/" + b + Tail(p);
  }

  /** The parts `buildKey` is given for a record. */
  function KeyPartsOf(k: DbKey): seq<Bytes> {
    match k.family
    case ResourceF => [RSRC, k.part]
    case RelationshipF => [REL, k.part]
    case SubjectF => [IDX, SUBJECT_IDX, k.part]
    case ObjectF => [IDX, OBJECT_IDX, k.part]
    case PredicateF => [IDX, PREDICATE_IDX, k.part]
  }

  lemma PhysKeyIsBuildKey(k: DbKey)
    ensures PhysKey(k) == BuildKey(KeyPartsOf(k))
  {
    match k.family
    case ResourceF =>
      BuildTwo(RSRC, k.part);
      assert "/" + RSRC == "/rsrc";
    case RelationshipF =>
      BuildTwo(REL, k.part);
      assert "/" + REL == "/rel";
    case SubjectF =>
      BuildThree(SUBJECT_IDX, k.part);
      assert "/idx/" + SUBJECT_IDX == "/idx/rel-subj";
    case ObjectF =>
      BuildThree(OBJECT_IDX, k.part);
      assert "/idx/" + OBJECT_IDX == "/idx/rel-obj";
    case PredicateF =>
      BuildThree(PREDICATE_IDX, k.part);
      assert "/idx/" + PREDICATE_IDX == "/idx/rel-predicate";
  }

  /** Prefixes of different families part ways within ten characters. */
  lemma PrefixesDiffer(f: Family, g: Family, s: Bytes, t: Bytes)
    requires f != g
    ensures Prefix(f) + s != Prefix(g) + t
    ensures !(Prefix(f) <= Prefix(g) + t)
  {
    var i := if Prefix(f)[1] != Prefix(g)[1] then 1 else if Prefix(f)[2] != Prefix(g)[2] then 2 else 9;
    assert Prefix(f)[i] != Prefix(g)[i];
    assert (Prefix(f) + s)[i] == Prefix(f)[i] && (Prefix(g) + t)[i] == Prefix(g)[i];
  }

  /** Keys of the flat space never collide, within a family or across families. */
  lemma PhysKeyInjective(a: DbKey, b: DbKey)
    requires PhysKey(a) == PhysKey(b)
    ensures a == b
  {
    if a.family != b.family {
      PrefixesDiffer(a.family, b.family, Tail(a.part), Tail(b.part));
    } else {
      var n := |Prefix(a.family)|;
      assert PhysKey(a)[n..] == Tail(a.part) && PhysKey(b)[n..] == Tail(b.part);
      assert a.part != [] ==> Tail(a.part)[1..] == a.part;
      assert b.part != [] ==> Tail(b.part)[1..] == b.part;
    }
  }

  /** Iterating over the predicate prefix visits the predicate indexes and nothing else. */
  lemma PredicatePrefixExact(k: DbKey)
    ensures BuildKey([IDX, PREDICATE_IDX]) <= PhysKey(k) <==> k.family.PredicateF?
  {
    BuildTwo(IDX, PREDICATE_IDX);
    assert BuildKey([IDX, PREDICATE_IDX]) == Prefix(PredicateF);
    if !k.family.PredicateF? {
      PrefixesDiffer(PredicateF, k.family, [], Tail(k.part));
    }
  }

  // ---------- The typed view of the flat space ----------

  function Phys(v: Value): Raw {
    match v
    case ResVal(r) => RawResource(r)
    case RelVal(rel) => RawRelationship(rel)
    case IdxVal(keys) => RawIndex(Flatten(keys))
  }

  /** `kv` stores exactly the records of `db`. */
  ghost predicate Stores(kv: Kv, db: Db) {
    && (forall k {:trigger PhysKey(k)} :: k in db <==> PhysKey(k) in kv)
    && (forall k {:trigger PhysKey(k)} :: k in db ==> kv[PhysKey(k)] == Phys(db[k]))
    && (forall x :: x in kv ==> exists k :: k in db && PhysKey(k) == x)
  }

  lemma StoresSet(kv: Kv, db: Db, k: DbKey, v: Value)
    requires Stores(kv, db)
    ensures Stores(kv[PhysKey(k) := Phys(v)], db[k := v])
  {
    var kv', db' := kv[PhysKey(k) := Phys(v)], db[k := v];
    forall x: DbKey ensures x != k ==> PhysKey(x) != PhysKey(k) {
      if PhysKey(x) == PhysKey(k) { PhysKeyInjective(x, k); }
    }
    forall x | x in kv' ensures exists y :: y in db' && PhysKey(y) == x {
      if x == PhysKey(k) {
        assert k in db';
      } else {
        var y :| y in db && PhysKey(y) == x;
        assert y in db';
      }
    }
  }

  lemma StoresDelete(kv: Kv, db: Db, k: DbKey)
    requires Stores(kv, db)
    ensures Stores(kv - {PhysKey(k)}, db - {k})
  {
    var kv', db' := kv - {PhysKey(k)}, db - {k};
    forall x: DbKey ensures x != k ==> PhysKey(x) != PhysKey(k) {
      if PhysKey(x) == PhysKey(k) { PhysKeyInjective(x, k); }
    }
    forall x | x in kv' ensures exists y :: y in db' && PhysKey(y) == x {
      var y :| y in db && PhysKey(y) == x;
      assert y in db';
    }
  }

  // ---------- Steps of a transaction ----------

  /** `addObjKeyToIndex` on a transaction's view of the space. */
  method AddObjKeyToIndex(kv: Kv, key: Bytes, value: ObjKey, ghost db: Db, ghost k: DbKey) returns (txn: Kv)
    requires Stores(kv, db) && Typed(db) && key == PhysKey(k) && IsIndex(k.family)
    ensures Stores(txn, AddKey(db, k, value))
  {
    if key !in kv {
      StoresSet(kv, db, k, IdxVal([value]));
      assert Flatten([value]) == value;
      return kv[key := RawIndex(value)];
    }
    var val := kv[key].bytes + value;
    ghost var keys := Idx(db, k) + [value];
    FlattenConcat(Idx(db, k), [value]);
    assert Flatten([value]) == value;
    var objs := SplitObjects(val, keys);
    objs := SortObjects(objs);
    val := JoinObjects(objs);
    StoresSet(kv, db, k, IdxVal(SortKeys(keys)));
    txn := kv[key := RawIndex(val)];
  }

  /** The sort of an index; any algorithm gives this result. */
  method SortObjects(objs: seq<ObjKey>) returns (r: seq<ObjKey>)
    ensures r == SortKeys(objs)
  {
    r := [];
    for i := 0 to |objs|
      invariant r == SortKeys(objs[..i])
    {
      assert objs[..i + 1][..i] == objs[..i];
      r := Insert(r, objs[i]);
    }
    assert objs[..|objs|] == objs;
  }

  /** `readObjKeysFromIndexes` for a single index. */
  method ReadIndex(kv: Kv, key: Bytes, ghost db: Db, ghost k: DbKey) returns (objs: seq<ObjKey>)
    requires Stores(kv, db) && Typed(db) && key == PhysKey(k) && IsIndex(k.family)
    ensures objs == Idx(db, k)
  {
    if key !in kv {
      return [];
    }
    objs := SplitObjects(kv[key].bytes, Idx(db, k));
  }

  /** Deleting the relationships listed by an index. */
  function DropRels(db: Db, objs: seq<ObjKey>): Db {
    map x | x in db && !(x.family.RelationshipF? && |x.part| == OBJ_KEY_SIZE && x.part in objs) :: db[x]
  }

  lemma DropRelsSnoc(db: Db, objs: seq<ObjKey>, h: ObjKey)
    ensures DropRels(db, objs + [h]) == DropRels(db, objs) - {RelKey(h)}
  {
    var a, b := DropRels(db, objs + [h]), DropRels(db, objs) - {RelKey(h)};
    forall x: DbKey ensures x in a <==> x in b {
      if x.family.RelationshipF? && |x.part| == OBJ_KEY_SIZE {
        assert x.part in objs + [h] <==> x.part in objs || x.part == h;
      }
    }
  }

  lemma DropStep(kv: Kv, db: Db, objs: seq<ObjKey>, i: nat)
    requires i < |objs| && Stores(kv, DropRels(db, objs[..i]))
    ensures Stores(kv - {PhysKey(RelKey(objs[i]))}, DropRels(db, objs[..i + 1]))
  {
    assert objs[..i + 1] == objs[..i] + [objs[i]];
    DropRelsSnoc(db, objs[..i], objs[i]);
    StoresDelete(kv, DropRels(db, objs[..i]), RelKey(objs[i]));
  }

  /** `deleteIndexedObjects`. */
  method DeleteIndexedObjects(kv: Kv, key: Bytes, ghost db: Db, ghost k: DbKey) returns (txn: Kv, objs: seq<ObjKey>)
    requires Stores(kv, db) && Typed(db) && key == PhysKey(k) && IsIndex(k.family)
    ensures objs == Idx(db, k)
    ensures Stores(txn, DropRels(db, objs))
  {
    objs := ReadIndex(kv, key, db, k);
    txn := kv;
    assert DropRels(db, objs[..0]) == db;
    for i := 0 to |objs|
      invariant Stores(txn, DropRels(db, objs[..i]))
    {
      DropStep(txn, db, objs, i);
      txn := txn - {PhysKey(RelKey(objs[i]))};
    }
    assert objs[..|objs|] == objs;
  }

  lemma RewriteIndex(kv: Kv, db: Db, k: DbKey, a: seq<ObjKey>, b: seq<ObjKey>)
    requires Stores(kv, db[k := IdxVal(a)])
    ensures PhysKey(k) in kv && kv[PhysKey(k)] == RawIndex(Flatten(a))
    ensures Stores(kv[PhysKey(k) := RawIndex(Flatten(b))], db[k := IdxVal(b)])
  {
    var d := db[k := IdxVal(a)];
    assert k in d;
    StoresSet(kv, d, k, IdxVal(b));
    assert d[k := IdxVal(b)] == db[k := IdxVal(b)];
  }

  lemma DeleteAllSnoc(keys: seq<ObjKey>, gone: seq<ObjKey>, i: nat)
    requires i < |gone|
    ensures DeleteAll(keys, gone[..i + 1]) == DeleteKey(DeleteAll(keys, gone[..i]), gone[i], 1)
  {
    assert gone[..i + 1][..i] == gone[..i];
  }

  /** `deleteObjKeyFromIndex`, for all keys that go, on one predicate index. */
  method DeleteFromIndex(kv: Kv, key: Bytes, gone: seq<ObjKey>, ghost db: Db, ghost k: DbKey) returns (txn: Kv)
    requires Stores(kv, db) && k in db && db[k].IdxVal? && key == PhysKey(k)
    ensures Stores(txn, db[k := IdxVal(DeleteAll(db[k].keys, gone))])
  {
    txn := kv;
    assert db[k := IdxVal(DeleteAll(db[k].keys, gone[..0]))] == db;
    for i := 0 to |gone|
      invariant Stores(txn, db[k := IdxVal(DeleteAll(db[k].keys, gone[..i]))])
    {
      ghost var keys := DeleteAll(db[k].keys, gone[..i]);
      RewriteIndex(txn, db, k, keys, DeleteKey(keys, gone[i], 1));
      DeleteAllSnoc(db[k].keys, gone, i);
      var newVal := DeleteFromBytes(txn[key].bytes, gone[i], keys);
      txn := txn[key := RawIndex(newVal)];
    }
    assert gone[..|gone|] == gone;
  }

  /** The predicate indexes of `done` have had `gone` removed, the others not yet. */
  ghost function Purged(db: Db, done: set<DbKey>, gone: seq<ObjKey>): Db {
    map x | x in db :: if x in done && db[x].IdxVal? then IdxVal(DeleteAll(db[x].keys, gone)) else db[x]
  }

  ghost function PredicateKeys(db: Db): set<DbKey> {
    set x | x in db && x.family.PredicateF?
  }

  /** The keys an iteration over the predicate prefix visits are those of the predicate indexes. */
  lemma PredicateIteration(kv: Kv, db: Db, x: DbKey)
    requires Stores(kv, db)
    ensures x in PredicateKeys(db) <==> PhysKey(x) in kv && BuildKey([IDX, PREDICATE_IDX]) <= PhysKey(x)
  {
    PredicatePrefixExact(x);
  }

  /** `todo` holds the keys of the predicate indexes not yet done. */
  ghost predicate Remaining(db: Db, done: set<DbKey>, todo: set<Bytes>) {
    && done <= PredicateKeys(db)
    && (forall x :: x in PredicateKeys(db) && x !in done ==> PhysKey(x) in todo)
    && forall key :: key in todo ==> exists x :: x in PredicateKeys(db) && x !in done && PhysKey(x) == key
  }

  lemma RemainingFirst(kv: Kv, db: Db)
    requires Stores(kv, db)
    ensures Remaining(db, {}, set key | key in kv && BuildKey([IDX, PREDICATE_IDX]) <= key)
  {
    var todo := set key | key in kv && BuildKey([IDX, PREDICATE_IDX]) <= key;
    forall x | x in PredicateKeys(db) ensures PhysKey(x) in todo {
      PredicateIteration(kv, db, x);
    }
    forall key | key in todo ensures exists x :: x in PredicateKeys(db) && PhysKey(x) == key {
      var x :| x in db && PhysKey(x) == key;
      PredicateIteration(kv, db, x);
    }
  }

  lemma RemainingNext(db: Db, done: set<DbKey>, todo: set<Bytes>, k: DbKey)
    requires Remaining(db, done, todo) && k in PredicateKeys(db) && k !in done
    ensures Remaining(db, done + {k}, todo - {PhysKey(k)})
  {
    forall x: DbKey ensures x != k ==> PhysKey(x) != PhysKey(k) {
      if PhysKey(x) == PhysKey(k) { PhysKeyInjective(x, k); }
    }
    forall key | key in todo - {PhysKey(k)}
      ensures exists x :: x in PredicateKeys(db) && x !in done + {k} && PhysKey(x) == key
    {
      var x :| x in PredicateKeys(db) && x !in done && PhysKey(x) == key;
      assert x !in done + {k};
    }
  }

  lemma PurgedNext(db: Db, done: set<DbKey>, gone: seq<ObjKey>, k: DbKey)
    requires Typed(db) && k in PredicateKeys(db) && k !in done
    ensures var d := Purged(db, done, gone);
            k in d && d[k].IdxVal? && d[k := IdxVal(DeleteAll(d[k].keys, gone))] == Purged(db, done + {k}, gone)
  {
  }

  lemma PurgedNone(db: Db, gone: seq<ObjKey>)
    ensures Purged(db, {}, gone) == db
  {
  }

  lemma RemainingNone(db: Db, done: set<DbKey>)
    requires Remaining(db, done, {})
    ensures done == PredicateKeys(db)
  {
  }

  /** One round of the iteration, on whichever predicate index comes next. */
  method PurgeOne(kv: Kv, todo: set<Bytes>, gone: seq<ObjKey>, ghost db: Db, ghost done: set<DbKey>)
    returns (txn: Kv, key: Bytes, ghost k: DbKey)
    requires Typed(db) && Remaining(db, done, todo) && todo != {}
    requires Stores(kv, Purged(db, done, gone))
    ensures key in todo && Remaining(db, done + {k}, todo - {key})
    ensures Stores(txn, Purged(db, done + {k}, gone))
  {
    key :| key in todo;
    k :| k in PredicateKeys(db) && k !in done && PhysKey(k) == key;
    PurgedNext(db, done, gone, k);
    RemainingNext(db, done, todo, k);
    txn := DeleteFromIndex(kv, key, gone, Purged(db, done, gone), k);
  }

  /** The iteration over all predicate indexes in DeleteResource. */
  method PurgePredicates(kv: Kv, gone: seq<ObjKey>, ghost db: Db) returns (txn: Kv)
    requires Stores(kv, db) && Typed(db)
    ensures Stores(txn, Purged(db, PredicateKeys(db), gone))
  {
    txn := kv;
    var todo := set key | key in kv && BuildKey([IDX, PREDICATE_IDX]) <= key;
    ghost var done: set<DbKey> := {};
    PurgedNone(db, gone);
    RemainingFirst(kv, db);
    while todo != {}
      invariant Remaining(db, done, todo)
      invariant Stores(txn, Purged(db, done, gone))
      decreases todo
    {
      var key;
      ghost var k;
      txn, key, k := PurgeOne(txn, todo, gone, db, done);
      done, todo := done + {k}, todo - {key};
    }
    RemainingNone(db, done);
  }
}

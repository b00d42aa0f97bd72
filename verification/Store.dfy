/**
 The store object (internal/resource/store/store.go): every method works on the flat
 key-value space and is tied to the typed transactions of `StoreModel`.
 A transaction works on a copy of the space that is put back when it succeeds.
 */
module Store {
  import opened Bytes
  import opened ResourceKeys
  import opened IndexBytes
  import opened StoreModel
  import opened StoreInvariant
  import opened StoreQueries
  import opened StoreEvents
  import opened StoreKv

  // ---------- Transactions on the flat space ----------

  lemma TypedSubmap(db: Db, d: Db)
    requires Typed(db) && forall k :: k in d ==> k in db && d[k] == db[k]
    ensures Typed(d)
  {
  }

  /** The body of the AddRelationships transaction for one relationship. */
  method WriteRelationship(kv: Kv, hash: Hash, rel: Relationship, ghost db: Db) returns (txn: Kv)
    requires Stores(kv, db) && Typed(db) && WellFormed(rel)
    ensures Stores(txn, AddRelationship(hash, db, rel)) && Typed(AddRelationship(hash, db, rel))
  {
    var h := hash(rel);
    ghost var d0 := db[RelKey(h) := RelVal(rel)];
    StoresSet(kv, db, RelKey(h), RelVal(rel));
    assert Typed(d0);
    txn := kv[PhysKey(RelKey(h)) := RawRelationship(rel)];
    var p := IndexKey(PredicateF, rel);
    AddKeyListed(d0, p, h);
    txn := AddObjKeyToIndex(txn, PhysKey(p), h, d0, p);
    ghost var d1 := AddKey(d0, p, h);
    var o := IndexKey(ObjectF, rel);
    AddKeyListed(d1, o, h);
    txn := AddObjKeyToIndex(txn, PhysKey(o), h, d1, o);
    ghost var d2 := AddKey(d1, o, h);
    var s := IndexKey(SubjectF, rel);
    AddKeyListed(d2, s, h);
    txn := AddObjKeyToIndex(txn, PhysKey(s), h, d2, s);
  }

  lemma AddAllSnoc(hash: Hash, db: Db, rels: seq<Relationship>, i: nat)
    requires i < |rels| && forall j :: 0 <= j <= i ==> WellFormed(rels[j])
    ensures AddAll(hash, db, rels[..i + 1]) == AddRelationship(hash, AddAll(hash, db, rels[..i]), rels[i])
  {
    assert rels[..i + 1][..i] == rels[..i];
  }

  /** The checks of AddRelationships, one refusal being enough. */
  method Check(rels: seq<Relationship>) returns (ok: bool)
    ensures ok <==> AllWellFormed(rels)
  {
    for i := 0 to |rels|
      invariant forall j :: 0 <= j < i ==> WellFormed(rels[j])
    {
      if !WellFormed(rels[i]) {
        return false;
      }
    }
    ok := true;
  }

  /** The AddRelationships transaction on relationships that pass the checks. */
  method WriteRelationships(kv: Kv, hash: Hash, rels: seq<Relationship>, ghost db: Db) returns (txn: Kv)
    requires Stores(kv, db) && Typed(db)
    requires AllWellFormed(rels)
    ensures Stores(txn, AddAll(hash, db, rels))
  {
    txn := kv;
    for i := 0 to |rels|
      invariant Stores(txn, AddAll(hash, db, rels[..i])) && Typed(AddAll(hash, db, rels[..i]))
    {
      AddAllSnoc(hash, db, rels, i);
      txn := WriteRelationship(txn, hash, rels[i], AddAll(hash, db, rels[..i]));
    }
    assert rels[..|rels|] == rels;
  }

  /** What the steps of DeleteResource leave is what the transaction promises. */
  lemma DeleteStepsCompose(db: Db, k: Bytes)
    ensures var d2 := DropRels(DropRels(db, Idx(db, DbKey(SubjectF, k))), Idx(db, DbKey(ObjectF, k)));
            var d3 := d2 - {DbKey(SubjectF, k)} - {DbKey(ObjectF, k)};
            Purged(d3, PredicateKeys(d3), Incident(db, k)) - {ResKey(k)} == DeleteKeyed(db, k)
  {
    var d2 := DropRels(DropRels(db, Idx(db, DbKey(SubjectF, k))), Idx(db, DbKey(ObjectF, k)));
    var d3 := d2 - {DbKey(SubjectF, k)} - {DbKey(ObjectF, k)};
    forall x: DbKey
      ensures x in d2 <==>
              x in db && !(x.family.RelationshipF? && |x.part| == OBJ_KEY_SIZE && x.part in Incident(db, k))
    {
    }
    var d4 := Purged(d3, PredicateKeys(d3), Incident(db, k)) - {ResKey(k)};
    assert d4.Keys == DeleteKeyed(db, k).Keys;
  }

  /** The DeleteResource transaction. */
  method EraseResource(kv: Kv, k: Bytes, ghost db: Db) returns (txn: Kv)
    requires Stores(kv, db) && Typed(db)
    ensures Stores(txn, DeleteKeyed(db, k))
  {
    var s, o := DbKey(SubjectF, k), DbKey(ObjectF, k);
    var gone, more;
    txn, gone := DeleteIndexedObjects(kv, PhysKey(s), db, s);
    ghost var d1 := DropRels(db, gone);
    TypedSubmap(db, d1);
    txn, more := DeleteIndexedObjects(txn, PhysKey(o), d1, o);
    assert more == Idx(db, o);
    ghost var d2 := DropRels(d1, more);
    StoresDelete(txn, d2, s);
    txn := txn - {PhysKey(s)};
    StoresDelete(txn, d2 - {s}, o);
    txn := txn - {PhysKey(o)};
    ghost var d3 := d2 - {s} - {o};
    TypedSubmap(db, d3);
    txn := PurgePredicates(txn, gone + more, d3);
    StoresDelete(txn, Purged(d3, PredicateKeys(d3), gone + more), ResKey(k));
    txn := txn - {PhysKey(ResKey(k))};
    DeleteStepsCompose(db, k);
  }

  // ---------- Reading ----------

  /** `intersectIndexes`: the common keys of several indexes, in no particular order. */
  method IntersectIndexes(vals: seq<Bytes>, ghost lists: seq<seq<ObjKey>>) returns (objs: seq<ObjKey>)
    requires |vals| == |lists| >= 1 && forall i :: 0 <= i < |vals| ==> vals[i] == Flatten(lists[i])
    ensures NoDuplicates(objs)
    ensures forall h :: h in objs <==> forall i :: 0 <= i < |lists| ==> h in lists[i]
  {
    var first := SplitObjects(vals[0], lists[0]);
    var common := set h | h in first;
    for n := 1 to |vals|
      invariant forall h :: h in common <==> forall i :: 0 <= i < n ==> h in lists[i]
    {
      var next := SplitObjects(vals[n], lists[n]);
      common := set h | h in common && h in next;
    }
    ghost var all := common;
    objs := [];
    while common != {}
      invariant NoDuplicates(objs)
      invariant forall h :: h in all <==> h in objs || h in common
      invariant forall h :: h in objs ==> h !in common
      decreases common
    {
      var h :| h in common;
      objs, common := objs + [h], common - {h};
    }
  }

  method IndexValue(kv: Kv, k: DbKey, ghost db: Db) returns (val: Bytes, ok: bool)
    requires Stores(kv, db) && Typed(db) && IsIndex(k.family)
    ensures ok <==> k in db
    ensures ok ==> val == Flatten(Idx(db, k))
  {
    ok := PhysKey(k) in kv;
    val := if ok then kv[PhysKey(k)].bytes else [];
  }

  /** The values of several indexes, if none is missing. */
  method ReadIndexes(kv: Kv, ks: seq<DbKey>, ghost db: Db) returns (vals: seq<Bytes>, ok: bool)
    requires Stores(kv, db) && Typed(db) && forall i :: 0 <= i < |ks| ==> IsIndex(ks[i].family)
    ensures ok <==> forall i :: 0 <= i < |ks| ==> ks[i] in db
    ensures ok ==> |vals| == |ks| && forall j :: 0 <= j < |ks| ==> vals[j] == Flatten(Idx(db, ks[j]))
  {
    vals := [];
    for i := 0 to |ks|
      invariant |vals| == i
      invariant forall j :: 0 <= j < i ==> ks[j] in db && vals[j] == Flatten(Idx(db, ks[j]))
    {
      var val, found := IndexValue(kv, ks[i], db);
      if !found {
        return vals, false;
      }
      vals := vals + [val];
    }
    ok := true;
  }

  /** `readObjKeysFromIndexes` for several indexes: nothing if one of them is missing. */
  method ReadIntersection(kv: Kv, ks: seq<DbKey>, ghost db: Db) returns (objs: seq<ObjKey>)
    requires Stores(kv, db) && Typed(db) && |ks| > 1 && forall k :: k in ks ==> IsIndex(k.family)
    ensures Visits(db, ks, objs)
  {
    var vals, ok := ReadIndexes(kv, ks, db);
    if !ok {
      return [];
    }
    ghost var lists := seq(|ks|, i requires 0 <= i < |ks| => Idx(db, ks[i]));
    objs := IntersectIndexes(vals, lists);
    CommonIsInAll(db, ks, lists);
  }

  lemma CommonIsInAll(db: Db, ks: seq<DbKey>, lists: seq<seq<ObjKey>>)
    requires |lists| == |ks| && forall i :: 0 <= i < |ks| ==> lists[i] == Idx(db, ks[i])
    ensures forall h: ObjKey :: (forall i :: 0 <= i < |lists| ==> h in lists[i]) <==> InAll(db, ks, h)
  {
    forall h: ObjKey ensures (forall i :: 0 <= i < |lists| ==> h in lists[i]) <==> InAll(db, ks, h) {
      if forall i :: 0 <= i < |lists| ==> h in lists[i] {
        forall k | k in ks ensures h in Idx(db, k) {
          var i :| 0 <= i < |ks| && ks[i] == k;
          assert h in lists[i];
        }
      } else {
        var i :| 0 <= i < |lists| && h !in lists[i];
        assert ks[i] in ks;
      }
    }
  }

  lemma FetchNext(db: Db, objs: seq<ObjKey>, i: nat)
    requires i < |objs|
    ensures Fetch(db, objs[i..]) ==
            if RelKey(objs[i]) !in db || !db[RelKey(objs[i])].RelVal? then ([], false)
            else ([db[RelKey(objs[i])].rel] + Fetch(db, objs[i + 1..]).0, Fetch(db, objs[i + 1..]).1)
  {
    assert objs[i..][1..] == objs[i + 1..];
  }

  method ReadRelationship(kv: Kv, h: ObjKey, ghost db: Db) returns (rel: Option<Relationship>)
    requires Stores(kv, db) && Typed(db)
    ensures rel == if RelKey(h) in db && db[RelKey(h)].RelVal? then Some(db[RelKey(h)].rel) else None
  {
    var key := PhysKey(RelKey(h));
    rel := if key in kv then Some(kv[key].rel) else None;
  }

  /** The loop of GetRelationships over the object keys. */
  method FetchAll(kv: Kv, objs: seq<ObjKey>, ghost db: Db) returns (rels: seq<Relationship>, ok: bool)
    requires Stores(kv, db) && Typed(db)
    ensures (rels, ok) == Fetch(db, objs)
  {
    rels, ok := [], true;
    assert objs[0..] == objs;
    ghost var goal := Fetch(db, objs);
    for i := 0 to |objs|
      invariant goal.0 == rels + Fetch(db, objs[i..]).0 && goal.1 == Fetch(db, objs[i..]).1
    {
      FetchNext(db, objs, i);
      var rel := ReadRelationship(kv, objs[i], db);
      if rel.None? {
        assert rels + [] == rels;
        return rels, false;
      }
      assert rels + [rel.value] + Fetch(db, objs[i + 1..]).0 == rels + ([rel.value] + Fetch(db, objs[i + 1..]).0);
      rels := rels + [rel.value];
    }
    assert rels + [] == rels;
  }

  /** A predicate and two different ends, each of a type. */
  predicate Acceptable(rel: Relationship) {
    && rel.pred.Some? && rel.subj != rel.obj
    && rel.subj.Some? && rel.subj.value.typeUrl != [] && rel.obj.Some? && rel.obj.value.typeUrl != []
  }

  predicate AllAcceptable(rels: seq<Relationship>) {
    forall i :: 0 <= i < |rels| ==> Acceptable(rels[i])
  }

  lemma AllAcceptableIs(rels: seq<Relationship>)
    ensures AllAcceptable(rels) <==> AllWellFormed(rels)
  {
    forall i | 0 <= i < |rels| ensures Acceptable(rels[i]) <==> WellFormed(rels[i]) {
    }
  }

  /** The additions of the relationships, one by one. */
  function RelationshipAdds(rels: seq<Relationship>): (es: seq<Event>)
    ensures |es| == |rels|
    ensures forall i :: 0 <= i < |rels| ==> es[i] == Event(ADD, rels[i].descriptor, OfRelationship(rels[i]))
  {
    seq(|rels|, i requires 0 <= i < |rels| => Event(ADD, rels[i].descriptor, OfRelationship(rels[i])))
  }

  lemma RelationshipStep(hash: Hash, db: Db, rels: seq<Relationship>, now: int)
    requires AllWellFormed(rels)
    ensures Attempt(hash, db, Call(OpAddRelationships(rels), now)) == Some(AddAll(hash, db, rels))
  {
  }

  /** What a successful AddRelationships sends. */
  lemma RelationshipEvents(hash: Hash, db: Db, rels: seq<Relationship>, now: int)
    requires Attempt(hash, db, Call(OpAddRelationships(rels), now)).Some?
    ensures EventsOf(hash, db, Call(OpAddRelationships(rels), now)) == RelationshipAdds(rels)
  {
  }

  // ---------- The object ----------

  datatype Lookup = Closed | BadReference | Missing | Present(resource: Resource)

  class Store {
    const hash: Hash
    /** The messages among which hashes are supposed not to collide. */
    ghost const universe: iset<Relationship>

    var kv: Kv
    var closed: bool
    var subscribers: seq<Subscriber>
    /** The typed view of `kv`. */
    ghost var db: Db

    ghost predicate Valid()
      reads this
    {
      Stores(kv, db) && Inv(hash, universe, db)
    }

    constructor New(hash: Hash, ghost universe: iset<Relationship>)
      requires NoCollision(hash, universe)
      ensures Valid() && db == map[] && !closed && subscribers == []
      ensures this.hash == hash && this.universe == universe
    {
      this.hash, this.universe := hash, universe;
      kv, closed, subscribers, db := map[], false, [], map[];
    }

    /** The outcome of a call: the new state if it succeeded, no change otherwise. */
    twostate predicate Did(c: Call, ok: bool)
      reads this
    {
      && (ok <==> !old(closed) && Attempt(hash, old(db), c).Some?)
      && db == (if ok then Step(hash, old(db), c) else old(db))
      && subscribers == (if ok then RouteAll(old(subscribers), EventsOf(hash, old(db), c)) else old(subscribers))
      && (!ok ==> kv == old(kv))
      && closed == old(closed)
    }

    method Publish(e: Event)
      modifies `subscribers
      ensures subscribers == Route(old(subscribers), e)
    {
      var routed: seq<Subscriber> := [];
      for i := 0 to |subscribers|
        invariant subscribers == old(subscribers) && |routed| == i
        invariant forall j :: 0 <= j < i ==> routed[j] == Route(subscribers, e)[j]
      {
        var s := subscribers[i];
        if Match(s, e.descriptor) {
          s := s.(ch := s.ch + [e]);
        }
        routed := routed + [s];
      }
      subscribers := routed;
    }

    method PublishAll(es: seq<Event>)
      modifies `subscribers
      ensures subscribers == RouteAll(old(subscribers), es)
    {
      for i := 0 to |es|
        invariant subscribers == RouteAll(old(subscribers), es[..i])
      {
        assert es[..i + 1][..i] == es[..i];
        Publish(es[i]);
      }
      assert es[..|es|] == es;
    }

    /** Commits a resource record and announces it. */
    method WriteResource(k: Bytes, w: Resource, kind: EventType)
      requires Valid() && EncodeResourceKey(Some(Ref(w))) == Some(k)
      modifies `kv, `db, `subscribers
      ensures Valid() && db == old(db)[ResKey(k) := ResVal(w)]
      ensures subscribers == RouteAll(old(subscribers), [Event(kind, w.descriptor, OfResource(w))])
    {
      StoresSet(kv, db, ResKey(k), ResVal(w));
      ResourceWriteInv(hash, universe, db, k, w);
      kv := kv[PhysKey(ResKey(k)) := RawResource(w)];
      db := db[ResKey(k) := ResVal(w)];
      PublishAll([Event(kind, w.descriptor, OfResource(w))]);
    }

    method AddResource(r: Resource, now: int) returns (ok: bool, stamped: Resource)
      requires Valid()
      modifies this
      ensures Valid() && Did(Call(OpAddResource(r), now), ok)
      ensures ok <==> !old(closed) && Ref(r).typeUrl != [] && ResKey(Key(Ref(r))) !in old(db)
      ensures ok ==> stamped == r.(createdAt := Some(now), updatedAt := Some(now))
      ensures ok ==> db == old(db)[ResKey(Key(Ref(r))) := ResVal(stamped)]
      ensures ok ==> subscribers == RouteAll(old(subscribers), [Event(ADD, r.descriptor, OfResource(stamped))])
    {
      stamped := r;
      var k := EncodeResourceKey(Some(Ref(r)));
      if closed || k.None? || PhysKey(ResKey(k.value)) in kv {
        return false, r;
      }
      stamped := r.(createdAt := Some(now), updatedAt := Some(now));
      WriteResource(k.value, stamped, ADD);
      ok := true;
    }

    method UpdateResource(r: Resource, now: int) returns (ok: bool, stamped: Resource)
      requires Valid()
      modifies this
      ensures Valid() && Did(Call(OpUpdateResource(r), now), ok)
      ensures ok <==> !old(closed) && Ref(r).typeUrl != []
      ensures ok ==> stamped == r.(createdAt := stamped.createdAt, updatedAt := Some(now))
      ensures ok ==> stamped.createdAt == if ResKey(Key(Ref(r))) in old(db)
                                          then old(db)[ResKey(Key(Ref(r)))].resource.createdAt else Some(now)
      ensures ok ==> db == old(db)[ResKey(Key(Ref(r))) := ResVal(stamped)]
      ensures ok ==> subscribers == RouteAll(old(subscribers), [Event(UPDATE, r.descriptor, OfResource(stamped))])
    {
      stamped := r;
      var k := EncodeResourceKey(Some(Ref(r)));
      if closed || k.None? {
        return false, r;
      }
      var key := PhysKey(ResKey(k.value));
      var created := Some(now);
      if key in kv {
        created := kv[key].resource.createdAt;
      }
      stamped := r.(createdAt := created, updatedAt := Some(now));
      WriteResource(k.value, stamped, UPDATE);
      ok := true;
    }

    method GetResource(ref: Option<ResourceRef>) returns (r: Lookup)
      requires Valid()
      ensures r.Closed? <==> closed
      ensures r.BadReference? <==> !closed && EncodeResourceKey(ref).None?
      ensures r.Missing? <==> !closed && EncodeResourceKey(ref).Some? && ResKey(EncodeResourceKey(ref).value) !in db
      ensures r.Present? ==> db[ResKey(EncodeResourceKey(ref).value)] == ResVal(r.resource)
    {
      if closed {
        return Closed;
      }
      var k := EncodeResourceKey(ref);
      if k.None? {
        return BadReference;
      }
      var key := PhysKey(ResKey(k.value));
      if key !in kv {
        return Missing;
      }
      assert kv[key] == Phys(db[ResKey(k.value)]);
      r := Present(kv[key].resource);
    }

    method DeleteResource(ref: Option<ResourceRef>, now: int) returns (ok: bool)
      requires Valid()
      modifies this
      ensures Valid() && Did(Call(OpDeleteResource(ref), now), ok)
      ensures ok <==> !old(closed) && ref.Some? && ref.value.typeUrl != []
      ensures ok ==> db == DeleteKeyed(old(db), Key(ref.value))
      ensures ok ==> var descriptor := Some(TypeDescriptor("Resource", ref.value.typeUrl));
                     var t := Resource(descriptor, ref.value.name, ref.value.ns, [], None, None, Some(now));
                     subscribers == RouteAll(old(subscribers), [Event(DELETE, descriptor, OfResource(t))])
    {
      var k := EncodeResourceKey(ref);
      if closed || k.None? {
        return false;
      }
      var txn := EraseResource(kv, k.value, db);
      DeleteInv(hash, universe, db, k.value);
      var t := Tombstone(ref.value, now);
      kv := txn;
      db := DeleteKeyed(db, k.value);
      PublishAll([Event(DELETE, t.descriptor, OfResource(t))]);
      ok := true;
    }

    /** The transaction of AddRelationships, committed. */
    method CommitRelationships(rels: seq<Relationship>)
      requires Valid() && (forall r :: r in rels ==> r in universe) && AllWellFormed(rels)
      modifies `kv, `db
      ensures Valid() && db == AddAll(hash, old(db), rels)
    {
      AddAllInv(hash, universe, db, rels);
      kv := WriteRelationships(kv, hash, rels, db);
      db := AddAll(hash, db, rels);
    }

    /** `AddRelationships` on relationships that pass the checks. */
    method AddAccepted(rels: seq<Relationship>, now: int)
      requires Valid() && !closed && (forall r :: r in rels ==> r in universe) && AllWellFormed(rels)
      modifies `kv, `db, `subscribers
      ensures Valid() && Did(Call(OpAddRelationships(rels), now), true)
      ensures db == AddAll(hash, old(db), rels)
      ensures subscribers == RouteAll(old(subscribers), RelationshipAdds(rels))
    {
      RelationshipStep(hash, db, rels, now);
      RelationshipEvents(hash, db, rels, now);
      CommitRelationships(rels);
      PublishAll(RelationshipAdds(rels));
    }

    method AddRelationships(rels: seq<Relationship>, now: int) returns (ok: bool)
      requires Valid() && forall r :: r in rels ==> r in universe
      modifies this
      ensures Valid() && Did(Call(OpAddRelationships(rels), now), ok)
      ensures ok <==> !old(closed) && AllAcceptable(rels)
      ensures ok ==> db == AddAll(hash, old(db), rels)
      ensures ok ==> subscribers == RouteAll(old(subscribers), RelationshipAdds(rels))
    {
      ok := Check(rels);
      AllAcceptableIs(rels);
      if closed || !ok {
        return false;
      }
      AddAccepted(rels, now);
    }

    /** `None` when the store is closed. */
    method GetRelationships(q: Query) returns (a: Option<Answer>)
      requires Valid()
      ensures a.None? <==> closed
      ensures a.Some? ==> Answers(db, q, a.value)
      ensures a.Some? && q.subj.Some? && q.obj.Some? ==>
                Correct(db, q, a.value) && (a.value.Found? ==> NoDuplicates(a.value.rels))
      ensures a.Some? && a.value.Found? ==> (set r | r in a.value.rels) == Scan(db, q)
    {
      if closed {
        return None;
      }
      var b := Lookup(q);
      QueryExact(hash, universe, db, q, b);
      if q.subj.Some? && q.obj.Some? {
        BothEndsExact(hash, universe, db, q, b);
      }
      a := Some(b);
    }

    method Lookup(q: Query) returns (a: Answer)
      requires Valid()
      ensures Answers(db, q, a)
    {
      if !Encodable(q) {
        return NotFound;
      }
      var ks := IndexesOf(q);
      if ks == [] {
        return NotFound;
      }
      var objs;
      if |ks| == 1 {
        objs := ReadIndex(kv, PhysKey(ks[0]), db, ks[0]);
      } else {
        objs := ReadIntersection(kv, ks, db);
      }
      var rels, ok := FetchAll(kv, objs, db);
      a := ToAnswer((rels, ok));
    }

    /** The channel is closed at once, hence not kept, when the store is closed. */
    method Subscribe(defs: seq<Option<TypeDescriptor>>)
      requires Valid()
      modifies `subscribers
      ensures Valid()
      ensures subscribers == if closed then old(subscribers) else old(subscribers) + [Filters(defs)]
    {
      if closed {
        return;
      }
      var kinds, types: seq<seq<Bytes>> := [], [];
      for i := 0 to |defs|
        invariant Filters(defs[..i]) == Subscriber(kinds, types, [])
        invariant subscribers == old(subscribers)
      {
        assert defs[..i + 1][..i] == defs[..i];
        if defs[i].Some? && defs[i].value.kind != [] {
          kinds := kinds + [Split(defs[i].value.kind, '.')];
        }
        if defs[i].Some? && defs[i].value.typ != [] {
          types := types + [Split(defs[i].value.typ, '.')];
        }
      }
      assert defs[..|defs|] == defs;
      subscribers := subscribers + [Subscriber(kinds, types, [])];
    }

    method Close()
      requires Valid()
      modifies `closed
      ensures Valid() && closed
    {
      closed := true;
    }
  }
}

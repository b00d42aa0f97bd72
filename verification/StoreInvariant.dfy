/**
 What every run of the store keeps about its relationships and indexes, and what
 deleting a resource removes.
 */
module StoreInvariant {
  import opened Bytes
  import opened ResourceKeys
  import opened IndexBytes
  import opened StoreModel

  /**
   No two relationships of `u` share a hash.  A 256-bit hash cannot be injective on
   all messages, so collision-freedom is only ever supposed of the messages in play.
   */
  ghost predicate NoCollision(hash: Hash, u: iset<Relationship>) {
    forall r, q :: r in u && q in u && hash(r) == hash(q) ==> r == q
  }

  ghost predicate Typed(db: Db) {
    forall k :: k in db ==>
      match k.family
      case ResourceF => db[k].ResVal? && EncodeResourceKey(Some(Ref(db[k].resource))) == Some(k.part)
      case RelationshipF => db[k].RelVal? && |k.part| == OBJ_KEY_SIZE
      case _ => db[k].IdxVal? && Sorted(db[k].keys)
  }

  /** A stored relationship is listed in its predicate, object and subject indexes. */
  ghost predicate LiveListed(hash: Hash, u: iset<Relationship>, db: Db) {
    forall k :: k in db && k.family.RelationshipF? && db[k].RelVal? ==>
      var rel := db[k].rel;
      && rel in u && WellFormed(rel) && hash(rel) == k.part
      && forall f :: IsIndex(f) ==> k.part in Idx(db, IndexKey(f, rel))
  }

  /** A key listed in an index is the hash of a relationship that belongs there. */
  ghost predicate Owned(hash: Hash, u: iset<Relationship>, db: Db) {
    forall k: DbKey, h :: IsIndex(k.family) && h in Idx(db, k) ==> Belongs(hash, u, k, h)
  }

  ghost predicate Belongs(hash: Hash, u: iset<Relationship>, k: DbKey, h: ObjKey)
    requires IsIndex(k.family)
  {
    exists rel :: rel in u && WellFormed(rel) && hash(rel) == h && IndexKey(k.family, rel) == k
  }

  /** A hash listed by both its subject and its object is stored. */
  ghost predicate ListedTwiceLive(hash: Hash, u: iset<Relationship>, db: Db) {
    forall rel :: rel in u && WellFormed(rel)
      && hash(rel) in Idx(db, IndexKey(SubjectF, rel)) && hash(rel) in Idx(db, IndexKey(ObjectF, rel))
      ==> RelKey(hash(rel)) in db
  }

  ghost predicate Inv(hash: Hash, u: iset<Relationship>, db: Db) {
    && NoCollision(hash, u)
    && Typed(db)
    && LiveListed(hash, u, db)
    && Owned(hash, u, db)
    && ListedTwiceLive(hash, u, db)
  }

  // ---------- Adding a relationship ----------

  /** Listing `h` in index `k` changes nothing else. */
  ghost predicate Listed(db: Db, k: DbKey, h: ObjKey, d: Db) {
    && Typed(d)
    && (forall x: DbKey :: !IsIndex(x.family) ==> (x in d <==> x in db) && (x in d ==> d[x] == db[x]))
    && forall x: DbKey, g :: IsIndex(x.family) ==> (g in Idx(d, x) <==> g in Idx(db, x) || (x == k && g == h))
  }

  lemma WriteListed(db: Db, k: DbKey, h: ObjKey, keys: seq<ObjKey>)
    requires Typed(db) && IsIndex(k.family) && Sorted(keys)
    requires forall g :: g in keys <==> g == h || g in Idx(db, k)
    ensures Listed(db, k, h, db[k := IdxVal(keys)])
  {
  }

  lemma AddKeyListed(db: Db, k: DbKey, h: ObjKey)
    requires Typed(db) && IsIndex(k.family)
    ensures Listed(db, k, h, AddKey(db, k, h))
  {
    SortKeysSorted(Idx(db, k) + [h]);
    SortKeysMembers(Idx(db, k), h);
    WriteListed(db, k, h, if k in db then SortKeys(Idx(db, k) + [h]) else [h]);
  }

  /** The effect of adding one relationship, index by index. */
  ghost predicate Added(hash: Hash, db: Db, rel: Relationship, d: Db) {
    && WellFormed(rel)
    && Typed(d)
    && (forall x: DbKey :: !IsIndex(x.family) && x != RelKey(hash(rel)) ==>
          (x in d <==> x in db) && (x in d ==> d[x] == db[x]))
    && RelKey(hash(rel)) in d && d[RelKey(hash(rel))] == RelVal(rel)
    && forall k: DbKey, g :: IsIndex(k.family) ==>
         (g in Idx(d, k) <==> g in Idx(db, k) || (g == hash(rel) && k == IndexKey(k.family, rel)))
  }

  lemma AddRelationshipFacts(hash: Hash, db: Db, rel: Relationship)
    requires WellFormed(rel) && Typed(db)
    ensures Added(hash, db, rel, AddRelationship(hash, db, rel))
  {
    var h := hash(rel);
    var d0 := db[RelKey(h) := RelVal(rel)];
    assert Typed(d0) && forall x: DbKey :: IsIndex(x.family) ==> Idx(d0, x) == Idx(db, x);
    AddKeyListed(d0, IndexKey(PredicateF, rel), h);
    var d1 := AddKey(d0, IndexKey(PredicateF, rel), h);
    AddKeyListed(d1, IndexKey(ObjectF, rel), h);
    var d2 := AddKey(d1, IndexKey(ObjectF, rel), h);
    AddKeyListed(d2, IndexKey(SubjectF, rel), h);
  }

  /** How often an index lists a key. */
  function Listings(db: Db, x: DbKey, h: ObjKey): nat {
    multiset(Idx(db, x))[h]
  }

  function One(c: bool): nat {
    if c then 1 else 0
  }

  /** Listing a key in an index lists it once more, and leaves the other indexes alone. */
  lemma AddKeyCounts(db: Db, k: DbKey, h: ObjKey, x: DbKey, g: ObjKey)
    ensures Listings(AddKey(db, k, h), x, g) == Listings(db, x, g) + One(x == k && g == h)
  {
  }

  /** Adding a relationship lists its hash once more in its three indexes, also if it was there, and nothing else. */
  lemma AddRelationshipCounts(hash: Hash, db: Db, rel: Relationship, x: DbKey, g: ObjKey)
    requires WellFormed(rel) && IsIndex(x.family)
    ensures Listings(AddRelationship(hash, db, rel), x, g) ==
            Listings(db, x, g) + One(x == IndexKey(x.family, rel) && g == hash(rel))
  {
    var h := hash(rel);
    var d0 := db[RelKey(h) := RelVal(rel)];
    var d1 := AddKey(d0, IndexKey(PredicateF, rel), h);
    var d2 := AddKey(d1, IndexKey(ObjectF, rel), h);
    assert Idx(d0, x) == Idx(db, x);
    AddKeyCounts(d0, IndexKey(PredicateF, rel), h, x, g);
    AddKeyCounts(d1, IndexKey(ObjectF, rel), h, x, g);
    AddKeyCounts(d2, IndexKey(SubjectF, rel), h, x, g);
  }

  lemma AddedLiveListed(hash: Hash, u: iset<Relationship>, db: Db, rel: Relationship, d: Db)
    requires Typed(db) && LiveListed(hash, u, db) && rel in u && Added(hash, db, rel, d)
    ensures LiveListed(hash, u, d)
  {
    forall k | k in d && k.family.RelationshipF? && d[k].RelVal? && k != RelKey(hash(rel))
      ensures k in db && d[k] == db[k]
    {
    }
  }

  lemma AddedOwned(hash: Hash, u: iset<Relationship>, db: Db, rel: Relationship, d: Db)
    requires Owned(hash, u, db) && rel in u && Added(hash, db, rel, d)
    ensures Owned(hash, u, d)
  {
    forall k: DbKey, h | IsIndex(k.family) && h in Idx(d, k) ensures Belongs(hash, u, k, h) {
      if h in Idx(db, k) { assert Belongs(hash, u, k, h); }
    }
  }

  lemma AddedListedTwiceLive(hash: Hash, u: iset<Relationship>, db: Db, rel: Relationship, d: Db)
    requires ListedTwiceLive(hash, u, db) && Added(hash, db, rel, d)
    ensures ListedTwiceLive(hash, u, d)
  {
    forall r | r in u && WellFormed(r)
      && hash(r) in Idx(d, IndexKey(SubjectF, r)) && hash(r) in Idx(d, IndexKey(ObjectF, r))
      ensures RelKey(hash(r)) in d
    {
      if hash(r) != hash(rel) {
        assert RelKey(hash(r)) in db;
      }
    }
  }

  lemma AddedInv(hash: Hash, u: iset<Relationship>, db: Db, rel: Relationship, d: Db)
    requires Inv(hash, u, db) && rel in u && Added(hash, db, rel, d)
    ensures Inv(hash, u, d)
  {
    AddedLiveListed(hash, u, db, rel, d);
    AddedOwned(hash, u, db, rel, d);
    AddedListedTwiceLive(hash, u, db, rel, d);
  }

  lemma AddRelationshipInv(hash: Hash, u: iset<Relationship>, db: Db, rel: Relationship)
    requires Inv(hash, u, db) && WellFormed(rel) && rel in u
    ensures Inv(hash, u, AddRelationship(hash, db, rel))
  {
    AddRelationshipFacts(hash, db, rel);
    AddedInv(hash, u, db, rel, AddRelationship(hash, db, rel));
  }

  ghost predicate Link(hash: Hash, dbs: seq<Db>, rels: seq<Relationship>, i: int)
    requires 0 <= i < |rels| < |dbs|
  {
    Added(hash, dbs[i], rels[i], dbs[i + 1])
  }

  /** The databases between the additions of several relationships. */
  ghost predicate Chain(hash: Hash, dbs: seq<Db>, rels: seq<Relationship>) {
    && |dbs| == |rels| + 1
    && forall i {:trigger Link(hash, dbs, rels, i)} :: 0 <= i < |rels| ==> Link(hash, dbs, rels, i)
  }

  lemma {:induction false} AddAllTyped(hash: Hash, db: Db, rels: seq<Relationship>)
    requires Typed(db) && AllWellFormed(rels)
    ensures Typed(AddAll(hash, db, rels))
  {
    if rels != [] {
      AddAllTyped(hash, db, rels[..|rels| - 1]);
      AddRelationshipFacts(hash, AddAll(hash, db, rels[..|rels| - 1]), rels[|rels| - 1]);
    }
  }

  lemma AddAllAdded(hash: Hash, db: Db, rels: seq<Relationship>, i: nat)
    requires Typed(db) && i < |rels| && AllWellFormed(rels)
    ensures Added(hash, AddAll(hash, db, rels[..i]), rels[i], AddAll(hash, db, rels[..i + 1]))
  {
    AddAllTyped(hash, db, rels[..i]);
    AddRelationshipFacts(hash, AddAll(hash, db, rels[..i]), rels[i]);
    assert rels[..i + 1][..i] == rels[..i];
  }

  lemma AddAllChain(hash: Hash, db: Db, rels: seq<Relationship>) returns (dbs: seq<Db>)
    requires Typed(db) && AllWellFormed(rels)
    ensures Chain(hash, dbs, rels) && dbs[0] == db && dbs[|rels|] == AddAll(hash, db, rels) && Typed(dbs[|rels|])
  {
    dbs := seq(|rels| + 1, i requires 0 <= i <= |rels| => AddAll(hash, db, rels[..i]));
    forall i | 0 <= i < |rels| ensures Link(hash, dbs, rels, i) {
      AddAllAdded(hash, db, rels, i);
    }
    AddAllTyped(hash, db, rels);
    assert rels[..|rels|] == rels && rels[..0] == [];
  }

  lemma LinkInv(hash: Hash, u: iset<Relationship>, dbs: seq<Db>, rels: seq<Relationship>, i: int)
    requires Chain(hash, dbs, rels) && 0 <= i < |rels| && Inv(hash, u, dbs[i]) && rels[i] in u
    ensures Inv(hash, u, dbs[i + 1])
  {
    assert Link(hash, dbs, rels, i);
    AddedInv(hash, u, dbs[i], rels[i], dbs[i + 1]);
  }

  lemma {:induction false} ChainInv(hash: Hash, u: iset<Relationship>, dbs: seq<Db>, rels: seq<Relationship>, n: nat)
    requires Chain(hash, dbs, rels) && n <= |rels| && Inv(hash, u, dbs[0])
    requires forall i :: 0 <= i < |rels| ==> rels[i] in u
    ensures Inv(hash, u, dbs[n])
  {
    if n > 0 {
      ChainInv(hash, u, dbs, rels, n - 1);
      LinkInv(hash, u, dbs, rels, n - 1);
    }
  }

  lemma AddAllInv(hash: Hash, u: iset<Relationship>, db: Db, rels: seq<Relationship>)
    requires Inv(hash, u, db)
    requires forall i :: 0 <= i < |rels| ==> WellFormed(rels[i]) && rels[i] in u
    ensures Inv(hash, u, AddAll(hash, db, rels))
  {
    var dbs := AddAllChain(hash, db, rels);
    ChainInv(hash, u, dbs, rels, |rels|);
  }

  // ---------- Deleting a resource ----------

  lemma DeleteKeyMembers(keys: seq<ObjKey>, v: ObjKey, h: ObjKey)
    requires Sorted(keys)
    ensures Sorted(DeleteKey(keys, v, 1))
    ensures h in DeleteKey(keys, v, 1) ==> h in keys
    ensures h in keys && h != v ==> h in DeleteKey(keys, v, 1)
  {
    DeleteKeyFrame(keys, v, 1);
    var r := DeleteKey(keys, v, 1);
    assert (h in r <==> h in multiset(r)) && (h in keys <==> h in multiset(keys));
  }

  /** Removing keys from a predicate index takes out nothing but those keys. */
  lemma {:induction false} DeleteAllFacts(keys: seq<ObjKey>, gone: seq<ObjKey>)
    requires Sorted(keys)
    ensures Sorted(DeleteAll(keys, gone))
    ensures forall h :: h in DeleteAll(keys, gone) ==> h in keys
    ensures forall h :: h in keys && h !in gone ==> h in DeleteAll(keys, gone)
  {
    if gone != [] {
      var front, v := gone[..|gone| - 1], gone[|gone| - 1];
      DeleteAllFacts(keys, front);
      var mid := DeleteAll(keys, front);
      forall h ensures Sorted(DeleteKey(mid, v, 1))
               ensures h in DeleteKey(mid, v, 1) ==> h in mid
               ensures h in mid && h != v ==> h in DeleteKey(mid, v, 1) {
        DeleteKeyMembers(mid, v, h);
      }
      DeleteKeyMembers(mid, v, v);
    }
  }

  /** The removal of `v` from the sorted keys finds an occurrence. */
  predicate Hit(keys: seq<ObjKey>, v: ObjKey) {
    exists i :: 0 <= i < |keys| && keys[i] == v && Probed(0, |keys|, i, 1)
  }

  lemma DeleteKeyCounts(keys: seq<ObjKey>, v: ObjKey, h: ObjKey)
    requires Sorted(keys)
    ensures multiset(DeleteKey(keys, v, 1))[h] + One(h == v && Hit(keys, v)) == multiset(keys)[h]
  {
    SearchExact(keys, v, 1);
  }

  /**
   Each of the keys that go, none of them twice, is taken out of a predicate index once if
   the search finds it among what the removals before have left, and not at all otherwise.
   */
  lemma {:induction false} PurgeExact(keys: seq<ObjKey>, gone: seq<ObjKey>, n: nat, i: nat)
    requires Sorted(keys) && i < n <= |gone| && forall a, b :: 0 <= a < b < |gone| ==> gone[a] != gone[b]
    ensures multiset(DeleteAll(keys, gone[..n]))[gone[i]] + One(Hit(DeleteAll(keys, gone[..i]), gone[i])) ==
            multiset(keys)[gone[i]]
  {
    assert gone[..n][..n - 1] == gone[..n - 1];
    DeleteAllFacts(keys, gone[..n - 1]);
    DeleteKeyCounts(DeleteAll(keys, gone[..n - 1]), gone[n - 1], gone[i]);
    if i < n - 1 {
      PurgeExact(keys, gone, n - 1, i);
    } else {
      Untouched(keys, gone[..i], gone[i]);
    }
  }

  lemma {:induction false} Untouched(keys: seq<ObjKey>, gone: seq<ObjKey>, h: ObjKey)
    requires Sorted(keys) && h !in gone
    ensures multiset(DeleteAll(keys, gone))[h] == multiset(keys)[h]
  {
    if gone != [] {
      var front := gone[..|gone| - 1];
      Untouched(keys, front, h);
      DeleteAllFacts(keys, front);
      DeleteKeyCounts(DeleteAll(keys, front), gone[|gone| - 1], h);
    }
  }

  /** What deleting a resource does to every index: its own two go, the predicate indexes are purged, the rest stays. */
  lemma DeletedIndexes(db: Db, k: Bytes, x: DbKey)
    requires IsIndex(x.family)
    ensures var gone := Idx(db, DbKey(SubjectF, k)) + Idx(db, DbKey(ObjectF, k));
            Idx(DeleteKeyed(db, k), x) ==
            if x == DbKey(SubjectF, k) || x == DbKey(ObjectF, k) then []
            else if x.family.PredicateF? then DeleteAll(Idx(db, x), gone)
            else Idx(db, x)
  {
    if x !in db || !db[x].IdxVal? {
      NothingLeft(Idx(db, DbKey(SubjectF, k)) + Idx(db, DbKey(ObjectF, k)));
    }
  }

  lemma {:induction false} NothingLeft(gone: seq<ObjKey>)
    ensures DeleteAll([], gone) == []
  {
    if gone != [] {
      NothingLeft(gone[..|gone| - 1]);
    }
  }

  /** An index lists a stored relationship exactly when it is one of that relationship's own. */
  lemma ListedExact(hash: Hash, u: iset<Relationship>, db: Db, x: DbKey, h: ObjKey)
    requires Inv(hash, u, db) && RelKey(h) in db && IsIndex(x.family)
    ensures var rel := db[RelKey(h)].rel;
            WellFormed(rel) && (h in Idx(db, x) <==> x == IndexKey(x.family, rel))
  {
    var rel := db[RelKey(h)].rel;
    assert WellFormed(rel) && hash(rel) == h && rel in u;
    assert h in Idx(db, IndexKey(x.family, rel));
    if h in Idx(db, x) {
      assert Belongs(hash, u, x, h);
    }
  }

  /** A stored relationship is incident to `k` exactly when it is listed by one of the indexes of `k`. */
  lemma IncidentExact(hash: Hash, u: iset<Relationship>, db: Db, k: Bytes, h: ObjKey)
    requires Inv(hash, u, db) && RelKey(h) in db
    ensures var rel := db[RelKey(h)].rel;
            WellFormed(rel) && (h in Incident(db, k) <==> SubjectKey(rel) == k || ObjectKey(rel) == k)
  {
    ListedExact(hash, u, db, DbKey(SubjectF, k), h);
    ListedExact(hash, u, db, DbKey(ObjectF, k), h);
  }

  /**
   Deleting resource `k` removes precisely the relationships whose subject or object
   is `k`; every survivor is unchanged and still listed by all three of its indexes.
   */
  lemma DeleteExact(hash: Hash, u: iset<Relationship>, db: Db, k: Bytes)
    requires Inv(hash, u, db)
    ensures var d := DeleteKeyed(db, k);
            && ResKey(k) !in d
            && (forall x: DbKey :: x.family.ResourceF? && x != ResKey(k) ==>
                  (x in d <==> x in db) && (x in d ==> d[x] == db[x]))
            && forall h :: RelKey(h) in d <==>
                 && RelKey(h) in db
                 && WellFormed(db[RelKey(h)].rel)
                 && SubjectKey(db[RelKey(h)].rel) != k && ObjectKey(db[RelKey(h)].rel) != k
    ensures var d := DeleteKeyed(db, k);
            forall h :: RelKey(h) in d ==>
              && d[RelKey(h)] == db[RelKey(h)]
              && WellFormed(d[RelKey(h)].rel)
              && forall f :: IsIndex(f) ==> h in Idx(d, IndexKey(f, d[RelKey(h)].rel))
  {
    var d := DeleteKeyed(db, k);
    forall h: ObjKey | RelKey(h) in db
      ensures WellFormed(db[RelKey(h)].rel)
      ensures RelKey(h) in d <==> SubjectKey(db[RelKey(h)].rel) != k && ObjectKey(db[RelKey(h)].rel) != k
    {
      IncidentExact(hash, u, db, k, h);
    }
    forall h: ObjKey, f | RelKey(h) in d && IsIndex(f)
      ensures h in Idx(d, IndexKey(f, d[RelKey(h)].rel))
    {
      SurvivorListed(hash, u, db, k, h, f);
    }
  }

  /** A key that is not incident stays in the indexes that stay. */
  lemma KeptInIndex(db: Db, k: Bytes, x: DbKey, h: ObjKey)
    requires Typed(db) && IsIndex(x.family) && h in Idx(db, x) && h !in Incident(db, k)
    ensures h in Idx(DeleteKeyed(db, k), x)
  {
    assert x in db && !Dropped(db, k, x);
    if x.family.PredicateF? {
      DeleteAllFacts(db[x].keys, Incident(db, k));
    }
  }

  lemma SurvivorListed(hash: Hash, u: iset<Relationship>, db: Db, k: Bytes, h: ObjKey, f: Family)
    requires Inv(hash, u, db) && RelKey(h) in DeleteKeyed(db, k) && IsIndex(f)
    ensures var d := DeleteKeyed(db, k);
            && d[RelKey(h)].RelVal? && WellFormed(d[RelKey(h)].rel)
            && h in Idx(d, IndexKey(f, d[RelKey(h)].rel))
  {
    assert RelKey(h) in db && h !in Incident(db, k);
    var rel := db[RelKey(h)].rel;
    assert WellFormed(rel) && h in Idx(db, IndexKey(f, rel));
    KeptInIndex(db, k, IndexKey(f, rel), h);
  }

  lemma DeleteTyped(db: Db, k: Bytes)
    requires Typed(db)
    ensures Typed(DeleteKeyed(db, k))
    ensures forall x: DbKey, h :: IsIndex(x.family) && h in Idx(DeleteKeyed(db, k), x) ==> h in Idx(db, x)
  {
    var d := DeleteKeyed(db, k);
    forall x | x in d && x.family.PredicateF?
      ensures d[x].IdxVal? && Sorted(d[x].keys) && forall h :: h in d[x].keys ==> h in db[x].keys
    {
      DeleteAllFacts(db[x].keys, Incident(db, k));
    }
  }

  lemma DeleteInv(hash: Hash, u: iset<Relationship>, db: Db, k: Bytes)
    requires Inv(hash, u, db)
    ensures Inv(hash, u, DeleteKeyed(db, k))
  {
    var d := DeleteKeyed(db, k);
    DeleteTyped(db, k);
    assert LiveListed(hash, u, d) by {
      forall x | x in d && x.family.RelationshipF? && d[x].RelVal?
        ensures var r := d[x].rel;
                && r in u && WellFormed(r) && hash(r) == x.part
                && forall f :: IsIndex(f) ==> x.part in Idx(d, IndexKey(f, r))
      {
        var h: ObjKey := x.part;
        assert x == RelKey(h);
        DeleteExact(hash, u, db, k);
      }
    }
    assert Owned(hash, u, d) by {
      forall x: DbKey, h | IsIndex(x.family) && h in Idx(d, x) ensures Belongs(hash, u, x, h) {
        assert h in Idx(db, x);
      }
    }
    assert ListedTwiceLive(hash, u, d) by {
      forall r | r in u && WellFormed(r)
        && hash(r) in Idx(d, IndexKey(SubjectF, r)) && hash(r) in Idx(d, IndexKey(ObjectF, r))
        ensures RelKey(hash(r)) in d
      {
        var h := hash(r);
        assert RelKey(h) in db;
        assert db[RelKey(h)].rel == r;
        IncidentExact(hash, u, db, k, h);
      }
    }
  }

  // ---------- Whole runs ----------

  /** Every relationship a run tries to add belongs to `u`. */
  ghost predicate Within(u: iset<Relationship>, calls: seq<Call>) {
    forall i, r :: 0 <= i < |calls| && calls[i].op.OpAddRelationships? && r in calls[i].op.rels ==> r in u
  }

  predicate NoDeletes(calls: seq<Call>) {
    forall i :: 0 <= i < |calls| ==> !calls[i].op.OpDeleteResource?
  }

  lemma ResourceWriteInv(hash: Hash, u: iset<Relationship>, db: Db, k: Bytes, r: Resource)
    requires Inv(hash, u, db) && EncodeResourceKey(Some(Ref(r))) == Some(k)
    ensures Inv(hash, u, db[ResKey(k) := ResVal(r)])
  {
    var d := db[ResKey(k) := ResVal(r)];
    assert forall x: DbKey :: IsIndex(x.family) ==> Idx(d, x) == Idx(db, x);
    assert forall h :: RelKey(h) in d <==> RelKey(h) in db;
  }

  lemma StepInv(hash: Hash, u: iset<Relationship>, db: Db, c: Call)
    requires Inv(hash, u, db) && Within(u, [c])
    ensures Inv(hash, u, Step(hash, db, c))
  {
    match c.op {
      case OpAddResource(r) =>
        var k := EncodeResourceKey(Some(Ref(r)));
        if Attempt(hash, db, c).Some? {
          ResourceWriteInv(hash, u, db, k.value, r.(createdAt := Some(c.now), updatedAt := Some(c.now)));
        }
      case OpUpdateResource(r) =>
        var k := EncodeResourceKey(Some(Ref(r)));
        if k.Some? {
          ResourceWriteInv(hash, u, db, k.value, Step(hash, db, c)[ResKey(k.value)].resource);
        }
      case OpDeleteResource(ref) =>
        var k := EncodeResourceKey(ref);
        if k.Some? {
          DeleteInv(hash, u, db, k.value);
        }
      case OpAddRelationships(rels) =>
        if Attempt(hash, db, c).Some? {
          assert [c][0].op.rels == rels;
          AddAllInv(hash, u, db, rels);
        }
    }
  }

  /** Every reachable database satisfies the invariant. */
  lemma {:induction false} RunInv(hash: Hash, u: iset<Relationship>, calls: seq<Call>)
    requires NoCollision(hash, u) && Within(u, calls)
    ensures Inv(hash, u, Run(hash, calls))
  {
    if calls != [] {
      var front, c := calls[..|calls| - 1], calls[|calls| - 1];
      RunInv(hash, u, front);
      StepInv(hash, u, Run(hash, front), c);
    }
  }
}

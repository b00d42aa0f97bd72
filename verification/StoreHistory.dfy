/**
 Which histories of calls leave stale hashes behind, and for which a query by one end is
 therefore wrong (internal/resource/store/store.go, DeleteResource, GetRelationships).
 */
module StoreHistory {
  import opened Bytes
  import opened ResourceKeys
  import opened IndexBytes
  import opened StoreModel
  import opened StoreInvariant
  import opened StoreQueries
  import StoreEvents

  // ---------- What a history says ----------

  /** The call stores `r`. */
  predicate Adds(c: Call, r: Relationship) {
    && c.op.OpAddRelationships? && r in c.op.rels
    && forall i :: 0 <= i < |c.op.rels| ==> WellFormed(c.op.rels[i])
  }

  /** The call deletes a resource whose key is one of `ks`. */
  predicate Deletes(c: Call, ks: set<Bytes>) {
    c.op.OpDeleteResource? && EncodeResourceKey(c.op.ref).Some? && EncodeResourceKey(c.op.ref).value in ks
  }

  /** `r` was stored, and no resource of `ks` deleted since the last time. */
  predicate Since(calls: seq<Call>, r: Relationship, ks: set<Bytes>)
    decreases |calls|
  {
    calls != [] &&
    var c := calls[|calls| - 1];
    Adds(c, r) || (!Deletes(c, ks) && Since(calls[..|calls| - 1], r, ks))
  }

  predicate IsEnd(f: Family) {
    f.SubjectF? || f.ObjectF?
  }

  function EndKey(f: Family, r: Relationship): Bytes
    requires IsEnd(f) && WellFormed(r)
  {
    if f.SubjectF? then SubjectKey(r) else ObjectKey(r)
  }

  function Ends(r: Relationship): set<Bytes>
    requires WellFormed(r)
  {
    {SubjectKey(r), ObjectKey(r)}
  }

  // ---------- One call ----------

  lemma LinkEnd(hash: Hash, dbs: seq<Db>, rels: seq<Relationship>, i: int, k: DbKey, g: ObjKey)
    requires Chain(hash, dbs, rels) && 0 <= i < |rels| && IsIndex(k.family)
    ensures WellFormed(rels[i])
    ensures g in Idx(dbs[i + 1], k) <==> g in Idx(dbs[i], k) || (g == hash(rels[i]) && k == IndexKey(k.family, rels[i]))
    ensures RelKey(g) in dbs[i + 1] <==> RelKey(g) in dbs[i] || g == hash(rels[i])
  {
    assert Link(hash, dbs, rels, i);
  }

  lemma SameHash(hash: Hash, u: iset<Relationship>, r: Relationship, q: Relationship)
    requires NoCollision(hash, u) && r in u && q in u
    ensures hash(r) == hash(q) <==> r == q
  {
  }

  lemma LinkOf(hash: Hash, u: iset<Relationship>, dbs: seq<Db>, rels: seq<Relationship>, i: int, r: Relationship,
               f: Family)
    requires Chain(hash, dbs, rels) && 0 <= i < |rels| && NoCollision(hash, u) && r in u && rels[i] in u
    requires WellFormed(r) && IsEnd(f)
    ensures hash(r) in Idx(dbs[i + 1], IndexKey(f, r)) <==> hash(r) in Idx(dbs[i], IndexKey(f, r)) || r == rels[i]
    ensures RelKey(hash(r)) in dbs[i + 1] <==> RelKey(hash(r)) in dbs[i] || r == rels[i]
  {
    LinkEnd(hash, dbs, rels, i, IndexKey(f, r), hash(r));
    SameHash(hash, u, r, rels[i]);
  }

  predicate AmongFirst(r: Relationship, rels: seq<Relationship>, n: nat)
    requires n <= |rels|
  {
    n > 0 && (rels[n - 1] == r || AmongFirst(r, rels, n - 1))
  }

  lemma {:induction false} AmongFirstIs(r: Relationship, rels: seq<Relationship>, n: nat)
    requires n <= |rels|
    ensures AmongFirst(r, rels, n) <==> r in rels[..n]
  {
    if n > 0 {
      AmongFirstIs(r, rels, n - 1);
      assert rels[..n] == rels[..n - 1] + [rels[n - 1]];
    }
  }

  /** After the first `n` additions the index lists what it did and the hashes of those that belong there. */
  lemma {:induction false} ChainListed(hash: Hash, u: iset<Relationship>, dbs: seq<Db>, rels: seq<Relationship>, n: nat,
                                       r: Relationship, f: Family)
    requires Chain(hash, dbs, rels) && n <= |rels| && NoCollision(hash, u) && r in u && WellFormed(r) && IsEnd(f)
    requires forall i :: 0 <= i < |rels| ==> rels[i] in u
    ensures hash(r) in Idx(dbs[n], IndexKey(f, r)) <==> AmongFirst(r, rels, n) || hash(r) in Idx(dbs[0], IndexKey(f, r))
    ensures RelKey(hash(r)) in dbs[n] <==> AmongFirst(r, rels, n) || RelKey(hash(r)) in dbs[0]
  {
    if n > 0 {
      ChainListed(hash, u, dbs, rels, n - 1, r, f);
      LinkOf(hash, u, dbs, rels, n - 1, r, f);
    }
  }

  /** Adding relationships lists `r` by its end, and stores it, if it is one of them or was so before. */
  lemma AddAllEnd(hash: Hash, u: iset<Relationship>, db: Db, rels: seq<Relationship>, r: Relationship, f: Family)
    requires Typed(db) && NoCollision(hash, u) && r in u && WellFormed(r) && IsEnd(f)
    requires forall i :: 0 <= i < |rels| ==> WellFormed(rels[i]) && rels[i] in u
    ensures hash(r) in Idx(AddAll(hash, db, rels), IndexKey(f, r)) <==> r in rels || hash(r) in Idx(db, IndexKey(f, r))
    ensures RelKey(hash(r)) in AddAll(hash, db, rels) <==> r in rels || RelKey(hash(r)) in db
  {
    var dbs := AddAllChain(hash, db, rels);
    ChainListed(hash, u, dbs, rels, |rels|, r, f);
    AmongFirstIs(r, rels, |rels|);
    assert rels[..|rels|] == rels;
  }

  lemma DeleteEndListed(db: Db, k: Bytes, r: Relationship, f: Family, g: ObjKey)
    requires WellFormed(r) && IsEnd(f)
    ensures g in Idx(DeleteKeyed(db, k), IndexKey(f, r)) <==> g in Idx(db, IndexKey(f, r)) && EndKey(f, r) != k
  {
  }

  lemma ResourceKeepsIndex(db: Db, k: Bytes, w: Resource, x: DbKey)
    requires IsIndex(x.family)
    ensures Idx(db[ResKey(k) := ResVal(w)], x) == Idx(db, x)
  {
  }

  /** One call: `r` is listed by its end afterwards if the call stores it, or it was listed and the end stays. */
  lemma StepEndListed(hash: Hash, u: iset<Relationship>, db: Db, c: Call, r: Relationship, f: Family)
    requires Inv(hash, u, db) && Within(u, [c]) && r in u && WellFormed(r) && IsEnd(f)
    ensures hash(r) in Idx(Step(hash, db, c), IndexKey(f, r)) <==>
            Adds(c, r) || (hash(r) in Idx(db, IndexKey(f, r)) && !Deletes(c, {EndKey(f, r)}))
  {
    if Attempt(hash, db, c).Some? {
      match c.op {
        case OpAddResource(w) =>
          ResourceKeepsIndex(db, Key(Ref(w)), w.(createdAt := Some(c.now), updatedAt := Some(c.now)), IndexKey(f, r));
        case OpUpdateResource(w) =>
          ResourceKeepsIndex(db, Key(Ref(w)), Step(hash, db, c)[ResKey(Key(Ref(w)))].resource, IndexKey(f, r));
        case OpDeleteResource(ref) =>
          DeleteEndListed(db, Key(ref.value), r, f, hash(r));
        case OpAddRelationships(rels) =>
          assert [c][0].op.rels == rels;
          AddAllEnd(hash, u, db, rels, r, f);
      }
    }
  }

  /** What is stored under the hash of `r` is `r`. */
  lemma StoredIs(hash: Hash, u: iset<Relationship>, db: Db, r: Relationship)
    requires Inv(hash, u, db) && r in u && RelKey(hash(r)) in db
    ensures db[RelKey(hash(r))] == RelVal(r)
  {
    assert db[RelKey(hash(r))].RelVal?;
  }

  lemma DeleteStored(hash: Hash, u: iset<Relationship>, db: Db, k: Bytes, r: Relationship)
    requires Inv(hash, u, db) && r in u && WellFormed(r)
    ensures RelKey(hash(r)) in DeleteKeyed(db, k) <==> RelKey(hash(r)) in db && k !in Ends(r)
  {
    DeleteExact(hash, u, db, k);
    if RelKey(hash(r)) in db {
      StoredIs(hash, u, db, r);
    }
  }

  /** One call: `r` is stored afterwards if the call stores it, or it was stored and both ends stay. */
  lemma StepStored(hash: Hash, u: iset<Relationship>, db: Db, c: Call, r: Relationship)
    requires Inv(hash, u, db) && Within(u, [c]) && r in u && WellFormed(r)
    ensures RelKey(hash(r)) in Step(hash, db, c) <==> Adds(c, r) || (RelKey(hash(r)) in db && !Deletes(c, Ends(r)))
  {
    if Attempt(hash, db, c).Some? {
      match c.op {
        case OpAddResource(w) =>
        case OpUpdateResource(w) =>
        case OpDeleteResource(ref) =>
          DeleteStored(hash, u, db, Key(ref.value), r);
        case OpAddRelationships(rels) =>
          assert [c][0].op.rels == rels;
          AddAllEnd(hash, u, db, rels, r, SubjectF);
      }
    }
  }

  // ---------- Whole histories ----------

  /** After every run `r` is listed by an end exactly if it was added since that end was last deleted. */
  lemma {:induction false} RunEndListed(hash: Hash, u: iset<Relationship>, calls: seq<Call>, r: Relationship, f: Family)
    requires NoCollision(hash, u) && Within(u, calls) && r in u && WellFormed(r) && IsEnd(f)
    ensures hash(r) in Idx(Run(hash, calls), IndexKey(f, r)) <==> Since(calls, r, {EndKey(f, r)})
    decreases |calls|
  {
    if calls != [] {
      var front, c := calls[..|calls| - 1], calls[|calls| - 1];
      RunEndListed(hash, u, front, r, f);
      RunInv(hash, u, front);
      StepEndListed(hash, u, Run(hash, front), c, r, f);
    }
  }

  /** And stored exactly if it was added since either of its ends was last deleted. */
  lemma {:induction false} RunStored(hash: Hash, u: iset<Relationship>, calls: seq<Call>, r: Relationship)
    requires NoCollision(hash, u) && Within(u, calls) && r in u && WellFormed(r)
    ensures RelKey(hash(r)) in Run(hash, calls) <==> Since(calls, r, Ends(r))
    decreases |calls|
  {
    if calls != [] {
      var front, c := calls[..|calls| - 1], calls[|calls| - 1];
      RunStored(hash, u, front, r);
      RunInv(hash, u, front);
      StepStored(hash, u, Run(hash, front), c, r);
    }
  }

  // ---------- Queries by one end ----------

  function OneEnd(f: Family, ref: ResourceRef): Query
    requires IsEnd(f)
  {
    if f.SubjectF? then Query(Some(ref), None, None) else Query(None, Some(ref), None)
  }

  /** Some relationship with this end is stored according to the history. */
  ghost predicate HasLive(u: iset<Relationship>, calls: seq<Call>, f: Family, k: Bytes)
    requires IsEnd(f)
  {
    exists r :: r in u && WellFormed(r) && EndKey(f, r) == k && Since(calls, r, Ends(r))
  }

  /** Some relationship with this end lost its other end, and was not added since. */
  ghost predicate HasStale(u: iset<Relationship>, calls: seq<Call>, f: Family, k: Bytes)
    requires IsEnd(f)
  {
    exists r :: r in u && WellFormed(r) && EndKey(f, r) == k && Since(calls, r, {k}) && !Since(calls, r, Ends(r))
  }

  lemma ListedBy(hash: Hash, u: iset<Relationship>, db: Db, f: Family, k: Bytes, h: ObjKey) returns (r: Relationship)
    requires Inv(hash, u, db) && IsEnd(f) && h in Idx(db, DbKey(f, k))
    ensures r in u && WellFormed(r) && hash(r) == h && EndKey(f, r) == k
  {
    assert Belongs(hash, u, DbKey(f, k), h);
    r :| r in u && WellFormed(r) && hash(r) == h && IndexKey(f, r) == DbKey(f, k);
  }

  lemma {:induction false} SinceSuperset(calls: seq<Call>, r: Relationship, ks: set<Bytes>, more: set<Bytes>)
    requires ks <= more && Since(calls, r, more)
    ensures Since(calls, r, ks)
    decreases |calls|
  {
    var c := calls[|calls| - 1];
    if !Adds(c, r) {
      SinceSuperset(calls[..|calls| - 1], r, ks, more);
    }
  }

  /** What the history says of the relationships listed by one end. */
  lemma EndHistory(hash: Hash, u: iset<Relationship>, calls: seq<Call>, f: Family, k: Bytes, r: Relationship)
    requires NoCollision(hash, u) && Within(u, calls) && IsEnd(f) && r in u && WellFormed(r) && EndKey(f, r) == k
    ensures hash(r) in Idx(Run(hash, calls), DbKey(f, k)) <==> Since(calls, r, {k})
    ensures RelKey(hash(r)) in Run(hash, calls) <==> Since(calls, r, Ends(r))
    ensures Since(calls, r, Ends(r)) ==> Since(calls, r, {k})
  {
    RunStored(hash, u, calls, r);
    RunEndListed(hash, u, calls, r, f);
    if Since(calls, r, Ends(r)) {
      SinceSuperset(calls, r, {k}, Ends(r));
    }
  }

  lemma InOne(db: Db, k: DbKey, h: ObjKey)
    ensures InAll(db, [k], h) <==> h in Idx(db, k)
  {
    assert k in [k];
  }

  lemma LiveExact(hash: Hash, u: iset<Relationship>, calls: seq<Call>, f: Family, k: Bytes)
    requires NoCollision(hash, u) && Within(u, calls) && IsEnd(f)
    ensures SomeLive(Run(hash, calls), [DbKey(f, k)]) <==> HasLive(u, calls, f, k)
  {
    var db, ks := Run(hash, calls), [DbKey(f, k)];
    if h :| InAll(db, ks, h) && RelKey(h) in db {
      RunInv(hash, u, calls);
      InOne(db, DbKey(f, k), h);
      var r := ListedBy(hash, u, db, f, k, h);
      EndHistory(hash, u, calls, f, k, r);
    }
    if r :| r in u && WellFormed(r) && EndKey(f, r) == k && Since(calls, r, Ends(r)) {
      EndHistory(hash, u, calls, f, k, r);
      InOne(db, DbKey(f, k), hash(r));
    }
  }

  lemma StaleExact(hash: Hash, u: iset<Relationship>, calls: seq<Call>, f: Family, k: Bytes)
    requires NoCollision(hash, u) && Within(u, calls) && IsEnd(f)
    ensures SomeStale(Run(hash, calls), [DbKey(f, k)]) <==> HasStale(u, calls, f, k)
  {
    var db, ks := Run(hash, calls), [DbKey(f, k)];
    if h :| InAll(db, ks, h) && RelKey(h) !in db {
      RunInv(hash, u, calls);
      InOne(db, DbKey(f, k), h);
      var r := ListedBy(hash, u, db, f, k, h);
      EndHistory(hash, u, calls, f, k, r);
    }
    if r :| r in u && WellFormed(r) && EndKey(f, r) == k && Since(calls, r, {k}) && !Since(calls, r, Ends(r)) {
      EndHistory(hash, u, calls, f, k, r);
      InOne(db, DbKey(f, k), hash(r));
    }
  }

  lemma OneEndIndexes(f: Family, ref: ResourceRef)
    requires IsEnd(f) && ref.typeUrl != []
    ensures Encodable(OneEnd(f, ref)) && IndexesOf(OneEnd(f, ref)) == [DbKey(f, Key(ref))]
  {
  }

  lemma OneEndExact(hash: Hash, u: iset<Relationship>, db: Db, f: Family, ref: ResourceRef, a: Answer)
    requires Inv(hash, u, db) && IsEnd(f) && ref.typeUrl != [] && Answers(db, OneEnd(f, ref), a)
    ensures var ks := [DbKey(f, Key(ref))]; Correct(db, OneEnd(f, ref), a) <==> !(SomeLive(db, ks) && SomeStale(db, ks))
  {
    OneEndIndexes(f, ref);
    QueryExact(hash, u, db, OneEnd(f, ref), a);
  }

  /**
   After every run a query by one end gives the documented answer if and only if the
   history does not leave both a relationship of that end that is still stored and one
   whose other end was deleted after it was added.
   */
  lemma OneEndHistory(hash: Hash, u: iset<Relationship>, calls: seq<Call>, f: Family, ref: ResourceRef, a: Answer)
    requires NoCollision(hash, u) && Within(u, calls) && IsEnd(f) && ref.typeUrl != []
    requires Answers(Run(hash, calls), OneEnd(f, ref), a)
    ensures Correct(Run(hash, calls), OneEnd(f, ref), a)
            <==> !(HasLive(u, calls, f, Key(ref)) && HasStale(u, calls, f, Key(ref)))
  {
    RunInv(hash, u, calls);
    OneEndExact(hash, u, Run(hash, calls), f, ref, a);
    LiveExact(hash, u, calls, f, Key(ref));
    StaleExact(hash, u, calls, f, Key(ref));
  }

  // ---------- What a scan finds, from the history ----------

  /** After every run a scan finds the matching relationships added since either of their ends was last deleted. */
  lemma ScanHistory(hash: Hash, u: iset<Relationship>, calls: seq<Call>, q: Query, r: Relationship)
    requires NoCollision(hash, u) && Within(u, calls) && r in u && WellFormed(r)
    ensures r in Scan(Run(hash, calls), q) <==> Matches(q, r) && Since(calls, r, Ends(r))
  {
    var db := Run(hash, calls);
    RunInv(hash, u, calls);
    RunStored(hash, u, calls, r);
    if RelKey(hash(r)) in db {
      StoredIs(hash, u, db, r);
    }
    if r in Scan(db, q) {
      var k :| k in db && db[k].RelVal? && k.family.RelationshipF? && Matches(q, db[k].rel) && db[k].rel == r;
      assert k == RelKey(hash(r));
    }
  }

  predicate AddedBy(calls: seq<Call>, r: Relationship) {
    exists i :: 0 <= i < |calls| && Adds(calls[i], r)
  }

  lemma AddedBySnoc(calls: seq<Call>, r: Relationship)
    requires calls != []
    ensures AddedBy(calls, r) <==> AddedBy(calls[..|calls| - 1], r) || Adds(calls[|calls| - 1], r)
  {
    var front := calls[..|calls| - 1];
    if i :| 0 <= i < |front| && Adds(front[i], r) {
      assert Adds(calls[i], r);
    }
    if i :| 0 <= i < |calls| && Adds(calls[i], r) {
      assert i < |front| ==> Adds(front[i], r);
    }
  }

  lemma {:induction false} SinceAdded(calls: seq<Call>, r: Relationship, ks: set<Bytes>)
    requires NoDeletes(calls)
    ensures Since(calls, r, ks) <==> AddedBy(calls, r)
    decreases |calls|
  {
    if calls != [] {
      var front := calls[..|calls| - 1];
      SinceAdded(front, r, ks);
      AddedBySnoc(calls, r);
    }
  }

  /** Every listed relationship is stored. */
  ghost predicate NoStale(db: Db) {
    forall k: DbKey, h :: IsIndex(k.family) && h in Idx(db, k) ==> RelKey(h) in db
  }

  lemma LinkNoStale(hash: Hash, dbs: seq<Db>, rels: seq<Relationship>, i: int)
    requires Chain(hash, dbs, rels) && 0 <= i < |rels| && NoStale(dbs[i])
    ensures NoStale(dbs[i + 1])
  {
    forall k: DbKey, h | IsIndex(k.family) && h in Idx(dbs[i + 1], k) ensures RelKey(h) in dbs[i + 1] {
      LinkEnd(hash, dbs, rels, i, k, h);
    }
  }

  lemma {:induction false} ChainNoStale(hash: Hash, dbs: seq<Db>, rels: seq<Relationship>, n: nat)
    requires Chain(hash, dbs, rels) && n <= |rels| && NoStale(dbs[0])
    ensures NoStale(dbs[n])
  {
    if n > 0 {
      ChainNoStale(hash, dbs, rels, n - 1);
      LinkNoStale(hash, dbs, rels, n - 1);
    }
  }

  lemma WriteNoStale(db: Db, k: Bytes, w: Resource)
    requires NoStale(db)
    ensures NoStale(db[ResKey(k) := ResVal(w)])
  {
    forall x: DbKey, h | IsIndex(x.family) && h in Idx(db[ResKey(k) := ResVal(w)], x) ensures RelKey(h) in db {
      ResourceKeepsIndex(db, k, w, x);
    }
  }

  lemma StepNoStale(hash: Hash, db: Db, c: Call)
    requires Typed(db) && NoStale(db) && !c.op.OpDeleteResource?
    ensures NoStale(Step(hash, db, c))
  {
    if Attempt(hash, db, c).Some? {
      match c.op {
        case OpAddResource(w) => WriteNoStale(db, Key(Ref(w)), Step(hash, db, c)[ResKey(Key(Ref(w)))].resource);
        case OpUpdateResource(w) => WriteNoStale(db, Key(Ref(w)), Step(hash, db, c)[ResKey(Key(Ref(w)))].resource);
        case OpAddRelationships(rels) =>
          var dbs := AddAllChain(hash, db, rels);
          ChainNoStale(hash, dbs, rels, |rels|);
      }
    }
  }

  lemma {:induction false} RunNoStale(hash: Hash, calls: seq<Call>)
    requires NoDeletes(calls)
    ensures NoStale(Run(hash, calls))
    decreases |calls|
  {
    if calls != [] {
      var front := calls[..|calls| - 1];
      RunNoStale(hash, front);
      StoreEvents.RunFromTyped(hash, map[], front);
      StepNoStale(hash, Run(hash, front), calls[|calls| - 1]);
    }
  }

  lemma NoneStale(db: Db, ks: seq<DbKey>)
    requires NoStale(db) && ks != [] && forall k :: k in ks ==> IsIndex(k.family)
    ensures !SomeStale(db, ks)
  {
    forall h | InAll(db, ks, h) ensures RelKey(h) in db {
      assert ks[0] in ks && h in Idx(db, ks[0]);
    }
  }

  lemma ScanWithin(hash: Hash, u: iset<Relationship>, db: Db, q: Query, r: Relationship)
    requires Inv(hash, u, db) && r in Scan(db, q)
    ensures r in u && WellFormed(r)
  {
    var k :| k in db && db[k].RelVal? && k.family.RelationshipF? && Matches(q, db[k].rel) && db[k].rel == r;
  }

  lemma FoundWithin(hash: Hash, u: iset<Relationship>, db: Db, q: Query, a: Answer)
    requires Inv(hash, u, db) && Correct(db, q, a)
    ensures a.Found? ==> a.rels != [] && forall r :: r in a.rels ==> r in u && WellFormed(r)
  {
    if a.Found? {
      var found := set r | r in a.rels;
      forall r | r in a.rels ensures r in u && WellFormed(r) {
        assert r in found;
        ScanWithin(hash, u, db, q, r);
      }
      assert a.rels == [] ==> found == {};
    }
  }

  /**
   As long as nothing is deleted every query with an argument gives the documented answer,
   and finds exactly the matching relationships that were added.
   */
  lemma UndeletedQueries(hash: Hash, u: iset<Relationship>, calls: seq<Call>, q: Query, a: Answer)
    requires NoCollision(hash, u) && Within(u, calls) && NoDeletes(calls) && Answers(Run(hash, calls), q, a)
    requires Encodable(q) && IndexesOf(q) != []
    ensures Correct(Run(hash, calls), q, a)
    ensures a.Found? ==> a.rels != [] && forall r :: r in a.rels ==> r in u && WellFormed(r)
    ensures forall r :: r in u && WellFormed(r) ==>
              (a.Found? && r in a.rels <==> Matches(q, r) && AddedBy(calls, r))
  {
    RunInv(hash, u, calls);
    RunNoStale(hash, calls);
    NoneStale(Run(hash, calls), IndexesOf(q));
    QueryExact(hash, u, Run(hash, calls), q, a);
    FoundWithin(hash, u, Run(hash, calls), q, a);
    forall r | r in u && WellFormed(r) ensures a.Found? && r in a.rels <==> Matches(q, r) && AddedBy(calls, r) {
      ScanHistory(hash, u, calls, q, r);
      SinceAdded(calls, r, Ends(r));
      assert a.Found? ==> (r in a.rels <==> r in (set x | x in a.rels));
    }
  }

  // ---------- Queries by predicate ----------

  function ByPredicate(name: Bytes): Query {
    Query(None, None, Some(name))
  }

  /** A query by a message's full name matches the relationships whose predicate is such a message. */
  lemma PredicateQuery(rel: Relationship, name: Bytes, value: Bytes, asked: Bytes)
    requires WellFormed(rel)
    ensures rel.pred == Some(Any("type.googleapis.com/" + name, value)) ==>
              (Matches(ByPredicate(asked), rel) <==> asked == name)
    ensures rel.pred == Some(Any(name, value)) && !("type.googleapis.com/" <= name) ==>
              (Matches(ByPredicate(asked), rel) <==> asked == name)
  {
    NamesExact(rel, asked);
    NamesExact(rel, name);
  }

  function AddOne(rel: Relationship, now: int): seq<Call> {
    [Call(OpAddRelationships([rel]), now)]
  }

  lemma AddOneRun(hash: Hash, rel: Relationship, now: int)
    requires WellFormed(rel)
    ensures Idx(Run(hash, AddOne(rel, now)), IndexKey(PredicateF, rel)) == [hash(rel)]
  {
    AddAllOne(hash, map[], rel);
    assert AddOne(rel, now)[..0] == [] && Run(hash, []) == map[];
    assert Step(hash, map[], AddOne(rel, now)[0]) == AddRelationship(hash, map[], rel);
  }

  lemma AddOneWithin(rel: Relationship, now: int)
    requires WellFormed(rel)
    ensures Within(iset{rel}, AddOne(rel, now)) && NoDeletes(AddOne(rel, now)) && AddedBy(AddOne(rel, now), rel)
  {
    assert Adds(AddOne(rel, now)[0], rel);
  }

  lemma OnlyOne(rels: seq<Relationship>, rel: Relationship)
    requires NoDuplicates(rels) && rel in rels && forall r :: r in rels ==> r == rel
    ensures rels == [rel]
  {
    assert |rels| > 1 ==> rels[0] != rels[1];
    forall i | 0 <= i < |rels| ensures rels[i] == rel {
      assert rels[i] in rels;
    }
  }

  /** A relationship added to an empty store is found by the name of its predicate, and by no other name. */
  lemma FoundByPredicate(hash: Hash, rel: Relationship, name: Bytes, value: Bytes, asked: Bytes, now: int, a: Answer)
    requires WellFormed(rel) && rel.pred == Some(Any("type.googleapis.com/" + name, value))
    requires Answers(Run(hash, AddOne(rel, now)), ByPredicate(asked), a)
    ensures a == if asked == name then Found([rel]) else NotFound
  {
    var db, q := Run(hash, AddOne(rel, now)), ByPredicate(asked);
    AddOneWithin(rel, now);
    AddOneRun(hash, rel, now);
    PredicateQuery(rel, name, value, asked);
    FoundAlone(hash, rel, AddOne(rel, now), q, a);
    if asked == name {
      NamesExact(rel, name);
      RunInv(hash, iset{rel}, AddOne(rel, now));
      QueryExact(hash, iset{rel}, db, q, a);
      assert IndexesOf(q) == [IndexKey(PredicateF, rel)];
      OnlyOne(a.rels, rel);
    }
  }

  /** Where only `rel` was added, an answer has it if it matches, and nothing else. */
  lemma FoundAlone(hash: Hash, rel: Relationship, calls: seq<Call>, q: Query, a: Answer)
    requires WellFormed(rel) && Within(iset{rel}, calls) && NoDeletes(calls) && AddedBy(calls, rel)
    requires Answers(Run(hash, calls), q, a) && Encodable(q) && IndexesOf(q) != []
    ensures if Matches(q, rel) then a.Found? && rel in a.rels && forall r :: r in a.rels ==> r == rel else a == NotFound
  {
    UndeletedQueries(hash, iset{rel}, calls, q, a);
  }

  // ---------- How often a relationship is listed ----------

  /** How often `r` was added since a resource of `ks` was last deleted. */
  function Times(calls: seq<Call>, r: Relationship, ks: set<Bytes>): nat
    decreases |calls|
  {
    if calls == [] then 0
    else
      var c, before := calls[|calls| - 1], Times(calls[..|calls| - 1], r, ks);
      if Adds(c, r) then before + multiset(c.op.rels)[r]
      else if Deletes(c, ks) then 0
      else before
  }

  lemma {:induction false} AddAllTimes(hash: Hash, u: iset<Relationship>, db: Db, rels: seq<Relationship>,
                                       r: Relationship, f: Family)
    requires NoCollision(hash, u) && r in u && WellFormed(r) && IsEnd(f)
    requires forall i :: 0 <= i < |rels| ==> WellFormed(rels[i]) && rels[i] in u
    ensures Listings(AddAll(hash, db, rels), IndexKey(f, r), hash(r)) ==
            Listings(db, IndexKey(f, r), hash(r)) + multiset(rels)[r]
    decreases |rels|
  {
    if rels != [] {
      var front, last := rels[..|rels| - 1], rels[|rels| - 1];
      assert rels == front + [last];
      AddAllTimes(hash, u, db, front, r, f);
      AddRelationshipCounts(hash, AddAll(hash, db, front), last, IndexKey(f, r), hash(r));
      SameHash(hash, u, r, last);
    }
  }

  lemma WriteTimes(hash: Hash, db: Db, c: Call, x: DbKey)
    requires (c.op.OpAddResource? || c.op.OpUpdateResource?) && IsIndex(x.family)
    ensures Idx(Step(hash, db, c), x) == Idx(db, x)
  {
    if Attempt(hash, db, c).Some? {
      var k := Key(Ref(c.op.r));
      ResourceKeepsIndex(db, k, Step(hash, db, c)[ResKey(k)].resource, x);
    }
  }

  lemma DeleteTimes(db: Db, k: Bytes, r: Relationship, f: Family, h: ObjKey)
    requires WellFormed(r) && IsEnd(f)
    ensures Listings(DeleteKeyed(db, k), IndexKey(f, r), h) ==
            if EndKey(f, r) == k then 0 else Listings(db, IndexKey(f, r), h)
  {
    DeletedIndexes(db, k, IndexKey(f, r));
  }

  lemma StepTimes(hash: Hash, u: iset<Relationship>, db: Db, c: Call, r: Relationship, f: Family)
    requires NoCollision(hash, u) && Within(u, [c]) && r in u && WellFormed(r) && IsEnd(f)
    ensures Listings(Step(hash, db, c), IndexKey(f, r), hash(r)) ==
            if Adds(c, r) then Listings(db, IndexKey(f, r), hash(r)) + multiset(c.op.rels)[r]
            else if Deletes(c, {EndKey(f, r)}) then 0
            else Listings(db, IndexKey(f, r), hash(r))
  {
    match c.op {
      case OpAddResource(_) => WriteTimes(hash, db, c, IndexKey(f, r));
      case OpUpdateResource(_) => WriteTimes(hash, db, c, IndexKey(f, r));
      case OpDeleteResource(ref) =>
        if EncodeResourceKey(ref).Some? {
          DeleteTimes(db, Key(ref.value), r, f, hash(r));
        }
      case OpAddRelationships(rels) =>
        if AllWellFormed(rels) {
          assert [c][0].op.rels == rels;
          AddAllTimes(hash, u, db, rels, r, f);
        }
    }
  }

  /** After every run an end lists a relationship as often as it was added since that end was last deleted. */
  lemma {:induction false} RunEndTimes(hash: Hash, u: iset<Relationship>, calls: seq<Call>, r: Relationship, f: Family)
    requires NoCollision(hash, u) && Within(u, calls) && r in u && WellFormed(r) && IsEnd(f)
    ensures Listings(Run(hash, calls), IndexKey(f, r), hash(r)) == Times(calls, r, {EndKey(f, r)})
    decreases |calls|
  {
    if calls != [] {
      var front, c := calls[..|calls| - 1], calls[|calls| - 1];
      RunEndTimes(hash, u, front, r, f);
      StepTimes(hash, u, Run(hash, front), c, r, f);
    }
  }

  lemma RepeatsExact<T>(s: seq<T>)
    ensures NoDuplicates(s) <==> forall x :: x in s ==> multiset(s)[x] <= 1
  {
    forall i, j | 0 <= i < j < |s| ensures s[i] == s[j] ==> multiset(s)[s[i]] >= 2 {
      assert s == s[..i] + [s[i]] + s[i + 1..j] + [s[j]] + s[j + 1..];
    }
    if NoDuplicates(s) {
      forall x | x in s ensures multiset(s)[x] <= 1 {
        var i :| 0 <= i < |s| && s[i] == x;
        assert s == s[..i] + [x] + s[i + 1..];
        assert x !in s[..i] && x !in s[i + 1..];
      }
    }
  }

  /** No relationship with this end was added twice since the end was last deleted. */
  ghost predicate AddedOnce(u: iset<Relationship>, calls: seq<Call>, f: Family, k: Bytes)
    requires IsEnd(f)
  {
    forall r :: r in u && WellFormed(r) && EndKey(f, r) == k ==> Times(calls, r, {k}) <= 1
  }

  lemma IndexOnceIff(hash: Hash, u: iset<Relationship>, calls: seq<Call>, f: Family, k: Bytes)
    requires NoCollision(hash, u) && Within(u, calls) && IsEnd(f)
    ensures NoDuplicates(Idx(Run(hash, calls), DbKey(f, k))) <==> AddedOnce(u, calls, f, k)
  {
    var keys := Idx(Run(hash, calls), DbKey(f, k));
    RepeatsExact(keys);
    RunInv(hash, u, calls);
    if AddedOnce(u, calls, f, k) {
      forall h | h in keys ensures multiset(keys)[h] <= 1 {
        var r := ListedBy(hash, u, Run(hash, calls), f, k, h);
        RunEndTimes(hash, u, calls, r, f);
      }
    }
    forall r | r in u && WellFormed(r) && EndKey(f, r) == k
      ensures Listings(Run(hash, calls), DbKey(f, k), hash(r)) == Times(calls, r, {k})
    {
      RunEndTimes(hash, u, calls, r, f);
    }
  }

  /** A query by one end repeats a relationship exactly if some relationship of that end was added twice since. */
  lemma OneEndOnce(hash: Hash, u: iset<Relationship>, calls: seq<Call>, f: Family, ref: ResourceRef, a: Answer)
    requires NoCollision(hash, u) && Within(u, calls) && IsEnd(f) && ref.typeUrl != []
    requires Answers(Run(hash, calls), OneEnd(f, ref), a) && a.Found?
    ensures NoDuplicates(a.rels) <==> AddedOnce(u, calls, f, Key(ref))
  {
    RunInv(hash, u, calls);
    OneEndIndexes(f, ref);
    QueryExact(hash, u, Run(hash, calls), OneEnd(f, ref), a);
    IndexOnceIff(hash, u, calls, f, Key(ref));
  }

  // ---------- What is announced ----------

  function AddEvent(r: Relationship): StoreEvents.Event {
    StoreEvents.Event(StoreEvents.ADD, r.descriptor, StoreEvents.OfRelationship(r))
  }

  lemma StepAnnounces(hash: Hash, db: Db, c: Call, r: Relationship)
    ensures AddEvent(r) in StoreEvents.EventsOf(hash, db, c) <==> Adds(c, r)
  {
    var es := StoreEvents.EventsOf(hash, db, c);
    if c.op.OpAddRelationships? && Attempt(hash, db, c).Some? && r in c.op.rels {
      var i :| 0 <= i < |c.op.rels| && c.op.rels[i] == r;
      assert es[i] == AddEvent(r);
    }
  }

  /** Over every run the relationships announced are those added. */
  lemma {:induction false} RunAnnounces(hash: Hash, calls: seq<Call>, r: Relationship)
    ensures AddEvent(r) in StoreEvents.EventsFrom(hash, map[], calls) <==> AddedBy(calls, r)
    decreases |calls|
  {
    if calls != [] {
      var front, c := calls[..|calls| - 1], calls[|calls| - 1];
      RunAnnounces(hash, front, r);
      StepAnnounces(hash, Run(hash, front), c, r);
      assert StoreEvents.EventsFrom(hash, map[], calls) ==
             StoreEvents.EventsFrom(hash, map[], front) + StoreEvents.EventsOf(hash, Run(hash, front), c);
      AddedBySnoc(calls, r);
    }
  }
}

/**
 GetRelationships against a linear scan of the stored relationships
 (internal/resource/store/store.go, GetRelationships, readObjKeysFromIndexes,
 intersectIndexes).
 */
module StoreQueries {
  import opened Bytes
  import opened ResourceKeys
  import opened IndexBytes
  import opened StoreModel
  import opened StoreInvariant

  /** The arguments: an absent one matches anything; a predicate is a message's full name. */
  datatype Query = Query(subj: Option<ResourceRef>, obj: Option<ResourceRef>, pred: Option<Bytes>)

  /** `Failed` carries the relationships read before the error. */
  datatype Answer = Found(rels: seq<Relationship>) | NotFound | Failed(partial: seq<Relationship>)

  // ---------- The specification: a linear scan ----------

  /** The full name of a message with this type URL: the URL without the usual prefix, if it has that. */
  predicate Names(typeUrl: Bytes, name: Bytes) {
    typeUrl == "type.googleapis.com/" + name || (typeUrl == name && !("type.googleapis.com/" <= typeUrl))
  }

  predicate Matches(q: Query, rel: Relationship) {
    && WellFormed(rel)
    && (q.subj.Some? ==> EncodeResourceKey(q.subj) == EncodeResourceKey(rel.subj))
    && (q.obj.Some? ==> EncodeResourceKey(q.obj) == EncodeResourceKey(rel.obj))
    && (q.pred.Some? ==> Names(rel.pred.value.typeUrl, q.pred.value))
  }

  function Scan(db: Db, q: Query): set<Relationship> {
    set k | k in db && db[k].RelVal? && k.family.RelationshipF? && Matches(q, db[k].rel) :: db[k].rel
  }

  predicate NoDuplicates<T(==)>(s: seq<T>) {
    forall i, j :: 0 <= i < j < |s| ==> s[i] != s[j]
  }

  /** The answer the documentation promises. */
  predicate Correct(db: Db, q: Query, a: Answer) {
    match a
    case Found(rels) => (set r | r in rels) == Scan(db, q) && Scan(db, q) != {}
    case NotFound => Scan(db, q) == {}
    case Failed(_) => false
  }

  // ---------- The implementation: intersecting indexes ----------

  predicate Encodable(q: Query) {
    && (q.subj.Some? ==> EncodeResourceKey(q.subj).Some?)
    && (q.obj.Some? ==> EncodeResourceKey(q.obj).Some?)
  }

  function IndexesOf(q: Query): (ks: seq<DbKey>)
    requires Encodable(q)
    ensures forall k :: k in ks ==> IsIndex(k.family)
  {
    (if q.subj.Some? then [DbKey(SubjectF, EncodeResourceKey(q.subj).value)] else []) +
    (if q.obj.Some? then [DbKey(ObjectF, EncodeResourceKey(q.obj).value)] else []) +
    (if q.pred.Some? then [DbKey(PredicateF, q.pred.value)] else [])
  }

  /** The object keys listed by every one of the indexes. */
  ghost predicate InAll(db: Db, ks: seq<DbKey>, h: ObjKey) {
    forall k :: k in ks ==> h in Idx(db, k)
  }

  /**
   The object keys a query may visit, in order: those of the only index as they are,
   or the intersection of several, which comes out of a hash set in any order.
   */
  ghost predicate Visits(db: Db, ks: seq<DbKey>, objs: seq<ObjKey>) {
    if |ks| == 1 then objs == Idx(db, ks[0])
    else if exists k :: k in ks && k !in db then objs == []
    else NoDuplicates(objs) && forall h :: h in objs <==> InAll(db, ks, h)
  }

  /** Reading the relationships until one is missing. */
  function Fetch(db: Db, objs: seq<ObjKey>): (r: (seq<Relationship>, bool)) {
    if objs == [] then ([], true)
    else if RelKey(objs[0]) !in db || !db[RelKey(objs[0])].RelVal? then ([], false)
    else
      var (rels, ok) := Fetch(db, objs[1..]);
      ([db[RelKey(objs[0])].rel] + rels, ok)
  }

  function ToAnswer(r: (seq<Relationship>, bool)): Answer {
    if r.0 == [] then NotFound else if r.1 then Found(r.0) else Failed(r.0)
  }

  /** The answers GetRelationships may give. */
  ghost predicate Answers(db: Db, q: Query, a: Answer) {
    if !Encodable(q) || IndexesOf(q) == [] then a == NotFound
    else exists objs :: Visits(db, IndexesOf(q), objs) && a == ToAnswer(Fetch(db, objs))
  }

  // ---------- Exactness ----------

  /** Fetching visits stored relationships in order and stops at the first missing one. */
  lemma {:induction false} FetchFacts(db: Db, objs: seq<ObjKey>)
    requires Typed(db)
    ensures var (rels, ok) := Fetch(db, objs);
            && |rels| <= |objs|
            && (forall i :: 0 <= i < |rels| ==> RelKey(objs[i]) in db && rels[i] == db[RelKey(objs[i])].rel)
            && (ok <==> |rels| == |objs|)
            && (!ok ==> RelKey(objs[|rels|]) !in db)
  {
    if objs != [] && RelKey(objs[0]) in db {
      FetchFacts(db, objs[1..]);
    }
  }

  /** Every type URL has one name, under which the predicate index lists it. */
  lemma NamesExact(rel: Relationship, name: Bytes)
    requires WellFormed(rel)
    ensures Names(rel.pred.value.typeUrl, name) <==> name == PredicateName(rel)
  {
    var url := rel.pred.value.typeUrl;
    if "type.googleapis.com/" <= url {
      assert url == "type.googleapis.com/" + url[20..];
    }
  }

  /** A relationship matches a query exactly when every index of the query is one of its own. */
  lemma IndexesMatch(q: Query, rel: Relationship)
    requires Encodable(q) && WellFormed(rel)
    ensures Matches(q, rel) <==> forall k :: k in IndexesOf(q) ==> k == IndexKey(k.family, rel)
  {
    var ks := IndexesOf(q);
    if q.subj.Some? { assert DbKey(SubjectF, EncodeResourceKey(q.subj).value) in ks; }
    if q.obj.Some? { assert DbKey(ObjectF, EncodeResourceKey(q.obj).value) in ks; }
    if q.pred.Some? {
      assert DbKey(PredicateF, q.pred.value) in ks;
      NamesExact(rel, q.pred.value);
    }
  }

  /** The stored keys listed by all indexes of a query are those of the matching relationships. */
  lemma InAllMatches(hash: Hash, u: iset<Relationship>, db: Db, q: Query, h: ObjKey)
    requires Inv(hash, u, db) && Encodable(q) && RelKey(h) in db
    ensures InAll(db, IndexesOf(q), h) <==> Matches(q, db[RelKey(h)].rel)
  {
    var rel := db[RelKey(h)].rel;
    ListedExact(hash, u, db, DbKey(SubjectF, []), h);
    IndexesMatch(q, rel);
    forall k | k in IndexesOf(q) ensures h in Idx(db, k) <==> k == IndexKey(k.family, rel) {
      ListedExact(hash, u, db, k, h);
    }
  }

  /** Whether some key to be visited is stored. */
  ghost predicate SomeLive(db: Db, ks: seq<DbKey>) {
    exists h :: InAll(db, ks, h) && RelKey(h) in db
  }

  /** Whether some key to be visited is stale. */
  ghost predicate SomeStale(db: Db, ks: seq<DbKey>) {
    exists h :: InAll(db, ks, h) && RelKey(h) !in db
  }

  /** The keys visited are those listed by all indexes. */
  lemma VisitsExact(db: Db, ks: seq<DbKey>, objs: seq<ObjKey>)
    requires ks != [] && Visits(db, ks, objs)
    ensures forall h :: h in objs <==> InAll(db, ks, h)
    ensures |ks| > 1 ==> NoDuplicates(objs)
  {
    if |ks| == 1 {
      assert ks == [ks[0]];
    } else if k :| k in ks && k !in db {
      assert Idx(db, k) == [];
    }
  }

  lemma ScanNonempty(hash: Hash, u: iset<Relationship>, db: Db, q: Query)
    requires Inv(hash, u, db) && Encodable(q)
    ensures Scan(db, q) != {} <==> SomeLive(db, IndexesOf(q))
  {
    if Scan(db, q) != {} {
      var rel :| rel in Scan(db, q);
      var k :| k in db && db[k].RelVal? && k.family.RelationshipF? && Matches(q, db[k].rel) && db[k].rel == rel;
      var h: ObjKey := k.part;
      assert k == RelKey(h);
      InAllMatches(hash, u, db, q, h);
    }
    if h :| InAll(db, IndexesOf(q), h) && RelKey(h) in db {
      InAllMatches(hash, u, db, q, h);
      assert db[RelKey(h)].rel in Scan(db, q);
    }
  }

  /** A query whose visited keys are all stored answers with the scan. */
  lemma FoundIsScan(hash: Hash, u: iset<Relationship>, db: Db, q: Query, objs: seq<ObjKey>)
    requires Inv(hash, u, db) && Encodable(q) && IndexesOf(q) != []
    requires Visits(db, IndexesOf(q), objs) && Fetch(db, objs).1
    ensures (set r | r in Fetch(db, objs).0) == Scan(db, q)
  {
    var rels := Fetch(db, objs).0;
    FetchFacts(db, objs);
    VisitsExact(db, IndexesOf(q), objs);
    forall r | r in rels ensures r in Scan(db, q) {
      var i :| 0 <= i < |rels| && rels[i] == r;
      assert objs[i] in objs;
      InAllMatches(hash, u, db, q, objs[i]);
    }
    forall r | r in Scan(db, q) ensures r in rels {
      var k :| k in db && db[k].RelVal? && k.family.RelationshipF? && Matches(q, db[k].rel) && db[k].rel == r;
      var h: ObjKey := k.part;
      assert k == RelKey(h);
      InAllMatches(hash, u, db, q, h);
      var i :| 0 <= i < |objs| && objs[i] == h;
      assert rels[i] == r;
    }
  }

  /** Relationships repeat in an answer exactly as their keys do in what is visited. */
  lemma FetchRepeats(hash: Hash, u: iset<Relationship>, db: Db, objs: seq<ObjKey>)
    requires Inv(hash, u, db) && Fetch(db, objs).1
    ensures NoDuplicates(Fetch(db, objs).0) <==> NoDuplicates(objs)
  {
    var rels := Fetch(db, objs).0;
    FetchFacts(db, objs);
    forall i, j | 0 <= i < j < |rels| ensures rels[i] != rels[j] <==> objs[i] != objs[j] {
      assert hash(rels[i]) == objs[i] && hash(rels[j]) == objs[j];
    }
  }

  /** One visit order, when some index is given: correct unless stored and stale keys mix. */
  lemma VisitExact(hash: Hash, u: iset<Relationship>, db: Db, q: Query, objs: seq<ObjKey>)
    requires Inv(hash, u, db) && Encodable(q) && IndexesOf(q) != []
    requires Visits(db, IndexesOf(q), objs)
    ensures var a := ToAnswer(Fetch(db, objs));
            && (a.Found? ==> (set r | r in a.rels) == Scan(db, q) && (NoDuplicates(a.rels) <==> NoDuplicates(objs)))
            && (Correct(db, q, a) <==> !(SomeLive(db, IndexesOf(q)) && SomeStale(db, IndexesOf(q))))
  {
    var ks := IndexesOf(q);
    var (rels, ok) := Fetch(db, objs);
    FetchFacts(db, objs);
    VisitsExact(db, ks, objs);
    ScanNonempty(hash, u, db, q);
    if ok {
      FoundIsScan(hash, u, db, q, objs);
      FetchRepeats(hash, u, db, objs);
      assert !SomeStale(db, ks) by {
        forall h | InAll(db, ks, h) ensures RelKey(h) in db {
          var i :| 0 <= i < |objs| && objs[i] == h;
        }
      }
    } else {
      assert objs[|rels|] in objs && InAll(db, ks, objs[|rels|]);
      if rels != [] {
        assert objs[0] in objs && InAll(db, ks, objs[0]);
      }
    }
  }

  /**
   In every state the invariant allows: a nil error comes with exactly the matching
   relationships, each once unless the only index used lists one twice, and the
   answer is the documented one if and only if the indexes of the query do not list
   both a stored and a stale relationship.  Without any argument, the answer is the
   documented one only for a store without relationships.
   */
  lemma QueryExact(hash: Hash, u: iset<Relationship>, db: Db, q: Query, a: Answer)
    requires Inv(hash, u, db) && Answers(db, q, a)
    ensures a.Found? ==> (set r | r in a.rels) == Scan(db, q)
    ensures a.Found? ==>
              (NoDuplicates(a.rels) <==> |IndexesOf(q)| > 1 || NoDuplicates(Idx(db, IndexesOf(q)[0])))
    ensures Encodable(q) && IndexesOf(q) != [] ==>
              (Correct(db, q, a) <==> !(SomeLive(db, IndexesOf(q)) && SomeStale(db, IndexesOf(q))))
    ensures Encodable(q) && IndexesOf(q) == [] ==> (Correct(db, q, a) <==> forall h :: RelKey(h) !in db)
    ensures !Encodable(q) ==> Correct(db, q, a)
  {
    if !Encodable(q) {
    } else if IndexesOf(q) == [] {
      ScanNonempty(hash, u, db, q);
      forall h: ObjKey ensures InAll(db, [], h) {}
    } else {
      var objs :| Visits(db, IndexesOf(q), objs) && a == ToAnswer(Fetch(db, objs));
      VisitExact(hash, u, db, q, objs);
      VisitsExact(db, IndexesOf(q), objs);
    }
  }

  /** A key listed by a subject and by an object is stored. */
  lemma ListedByBothEnds(hash: Hash, u: iset<Relationship>, db: Db, s: Bytes, o: Bytes, h: ObjKey)
    requires Inv(hash, u, db) && h in Idx(db, DbKey(SubjectF, s)) && h in Idx(db, DbKey(ObjectF, o))
    ensures RelKey(h) in db
  {
    assert Belongs(hash, u, DbKey(SubjectF, s), h) && Belongs(hash, u, DbKey(ObjectF, o), h);
  }

  lemma BothEndsNotStale(hash: Hash, u: iset<Relationship>, db: Db, q: Query)
    requires Inv(hash, u, db) && Encodable(q) && q.subj.Some? && q.obj.Some?
    ensures |IndexesOf(q)| > 1 && !SomeStale(db, IndexesOf(q))
  {
    var ks := IndexesOf(q);
    forall h | InAll(db, ks, h) ensures RelKey(h) in db {
      assert h in Idx(db, ks[0]) && h in Idx(db, ks[1]);
      ListedByBothEnds(hash, u, db, ks[0].part, ks[1].part, h);
    }
  }

  /**
   Given both ends, stale keys never show: the answer is the scan, each relationship
   once, and not-found exactly when nothing matches.
   */
  lemma BothEndsExact(hash: Hash, u: iset<Relationship>, db: Db, q: Query, a: Answer)
    requires Inv(hash, u, db) && Answers(db, q, a)
    requires q.subj.Some? && q.obj.Some?
    ensures Correct(db, q, a)
    ensures a.Found? ==> NoDuplicates(a.rels)
  {
    if Encodable(q) {
      BothEndsNotStale(hash, u, db, q);
    }
    QueryExact(hash, u, db, q, a);
  }

  /**
   After every run: a nil error comes with exactly the matches; by both ends the answer is
   the documented one, each relationship once; and otherwise it is the documented one if
   and only if the indexes of the query do not list both a stored and a stale relationship.
   */
  lemma RunQueries(hash: Hash, u: iset<Relationship>, calls: seq<Call>, q: Query, a: Answer)
    requires NoCollision(hash, u) && Within(u, calls) && Answers(Run(hash, calls), q, a)
    ensures a.Found? ==> (set r | r in a.rels) == Scan(Run(hash, calls), q)
    ensures q.subj.Some? && q.obj.Some? ==> Correct(Run(hash, calls), q, a) && (a.Found? ==> NoDuplicates(a.rels))
    ensures Encodable(q) && IndexesOf(q) != [] ==>
              (Correct(Run(hash, calls), q, a)
               <==> !(SomeLive(Run(hash, calls), IndexesOf(q)) && SomeStale(Run(hash, calls), IndexesOf(q))))
  {
    RunInv(hash, u, calls);
    QueryExact(hash, u, Run(hash, calls), q, a);
    if q.subj.Some? && q.obj.Some? {
      BothEndsExact(hash, u, Run(hash, calls), q, a);
    }
  }

  function TwoThenDelete(r: Relationship, s: Relationship): seq<Call> {
    [Call(OpAddRelationships([r, s]), 0), Call(OpDeleteResource(r.obj), 0)]
  }

  lemma RunTwo(hash: Hash, c: Call, d: Call)
    ensures Run(hash, [c, d]) == Step(hash, Step(hash, map[], c), d)
  {
    assert [c, d][..1] == [c] && [c][..0] == [];
    assert RunFrom(hash, map[], [c]) == Step(hash, map[], c);
  }

  lemma AddAllOne(hash: Hash, db: Db, r: Relationship)
    requires WellFormed(r)
    ensures AddAll(hash, db, [r]) == AddRelationship(hash, db, r)
  {
    assert [r][..0] == [];
    assert AddAll(hash, db, []) == db;
  }

  lemma AddTwo(hash: Hash, db: Db, r: Relationship, s: Relationship)
    requires WellFormed(r) && WellFormed(s)
    ensures AddRelationships(hash, db, [r, s]) == Some(AddRelationship(hash, AddRelationship(hash, db, r), s))
  {
    assert [r, s][..1] == [r];
    AddAllOne(hash, db, r);
  }

  lemma TwoThenDeleteRun(hash: Hash, r: Relationship, s: Relationship)
    requires WellFormed(r) && WellFormed(s)
    ensures Run(hash, TwoThenDelete(r, s)) ==
            DeleteKeyed(AddRelationship(hash, AddRelationship(hash, map[], r), s), ObjectKey(r))
  {
    var d := AddRelationship(hash, AddRelationship(hash, map[], r), s);
    RunTwo(hash, TwoThenDelete(r, s)[0], TwoThenDelete(r, s)[1]);
    AddTwo(hash, map[], r, s);
    assert Step(hash, map[], TwoThenDelete(r, s)[0]) == d;
    assert Step(hash, d, TwoThenDelete(r, s)[1]) == DeleteKeyed(d, ObjectKey(r));
  }

  /** The subject index of another resource keeps its keys, stale or not. */
  lemma OtherSubjectKept(db: Db, k: Bytes, x: DbKey)
    requires x.family.SubjectF? && x.part != k
    ensures Idx(DeleteKeyed(db, k), x) == Idx(db, x)
  {
  }

  lemma StaleFacts(hash: Hash, u: iset<Relationship>, r: Relationship, s: Relationship, d0: Db, d1: Db, d2: Db)
    requires WellFormed(r) && WellFormed(s) && hash(r) != hash(s)
    requires SubjectKey(r) == SubjectKey(s)
    requires ObjectKey(r) != SubjectKey(r) && ObjectKey(r) != ObjectKey(s)
    requires Added(hash, d0, r, d1) && Added(hash, d1, s, d2) && Inv(hash, u, d2)
    ensures var d3 := DeleteKeyed(d2, ObjectKey(r));
            && RelKey(hash(r)) !in d3 && RelKey(hash(s)) in d3
            && hash(r) in Idx(d3, IndexKey(SubjectF, r)) && hash(s) in Idx(d3, IndexKey(SubjectF, r))
  {
    var x := IndexKey(SubjectF, r);
    OtherSubjectKept(d2, ObjectKey(r), x);
    assert x == IndexKey(SubjectF, s);
    assert hash(r) in Idx(d1, x);
    assert RelKey(hash(r)) in d2 && d2[RelKey(hash(r))] == RelVal(r) && d2[RelKey(hash(s))] == RelVal(s);
    DeleteExact(hash, u, d2, ObjectKey(r));
  }

  lemma TwoAddedInv(hash: Hash, r: Relationship, s: Relationship) returns (d1: Db, d2: Db)
    requires WellFormed(r) && WellFormed(s) && hash(r) != hash(s)
    ensures d1 == AddRelationship(hash, map[], r) && d2 == AddRelationship(hash, d1, s)
    ensures Added(hash, map[], r, d1) && Added(hash, d1, s, d2)
    ensures Inv(hash, iset{r, s}, d2)
  {
    var u := iset{r, s};
    d1 := AddRelationship(hash, map[], r);
    d2 := AddRelationship(hash, d1, s);
    AddRelationshipInv(hash, u, map[], r);
    AddRelationshipInv(hash, u, d1, s);
    AddRelationshipFacts(hash, map[], r);
    AddRelationshipFacts(hash, d1, s);
  }

  /**
   A run after which a query by subject alone is wrong: two relationships of one
   subject, and the deletion of the object of the first.
   */
  lemma StaleKeysMislead(hash: Hash, r: Relationship, s: Relationship, a: Answer)
    requires WellFormed(r) && WellFormed(s) && hash(r) != hash(s)
    requires SubjectKey(r) == SubjectKey(s)
    requires ObjectKey(r) != SubjectKey(r) && ObjectKey(r) != ObjectKey(s)
    requires Answers(Run(hash, TwoThenDelete(r, s)), Query(r.subj, None, None), a)
    ensures !Correct(Run(hash, TwoThenDelete(r, s)), Query(r.subj, None, None), a)
  {
    TwoThenDeleteRun(hash, r, s);
    var d1, d2 := TwoAddedInv(hash, r, s);
    MixedMislead(hash, iset{r, s}, r, s, map[], d1, d2, a);
  }

  lemma MixedMislead(hash: Hash, u: iset<Relationship>, r: Relationship, s: Relationship, d0: Db, d1: Db, d2: Db,
                     a: Answer)
    requires WellFormed(r) && WellFormed(s) && hash(r) != hash(s)
    requires SubjectKey(r) == SubjectKey(s)
    requires ObjectKey(r) != SubjectKey(r) && ObjectKey(r) != ObjectKey(s)
    requires Added(hash, d0, r, d1) && Added(hash, d1, s, d2) && Inv(hash, u, d2)
    requires Answers(DeleteKeyed(d2, ObjectKey(r)), Query(r.subj, None, None), a)
    ensures !Correct(DeleteKeyed(d2, ObjectKey(r)), Query(r.subj, None, None), a)
  {
    StaleFacts(hash, u, r, s, d0, d1, d2);
    DeleteInv(hash, u, d2, ObjectKey(r));
    MixedIsWrong(hash, u, DeleteKeyed(d2, ObjectKey(r)), r.subj, hash(s), hash(r), a);
  }

  lemma SubjectIndexMixed(db: Db, subj: Option<ResourceRef>, live: ObjKey, stale: ObjKey)
    requires EncodeResourceKey(subj).Some?
    requires var x := DbKey(SubjectF, EncodeResourceKey(subj).value); live in Idx(db, x) && stale in Idx(db, x)
    requires RelKey(live) in db && RelKey(stale) !in db
    ensures var ks := IndexesOf(Query(subj, None, None)); ks != [] && SomeLive(db, ks) && SomeStale(db, ks)
  {
    var ks := IndexesOf(Query(subj, None, None));
    assert ks == [DbKey(SubjectF, EncodeResourceKey(subj).value)];
    assert InAll(db, ks, live) && InAll(db, ks, stale);
  }

  lemma MixedIsWrong(hash: Hash, u: iset<Relationship>, db: Db, subj: Option<ResourceRef>, live: ObjKey, stale: ObjKey,
                     a: Answer)
    requires Inv(hash, u, db) && EncodeResourceKey(subj).Some?
    requires var x := DbKey(SubjectF, EncodeResourceKey(subj).value); live in Idx(db, x) && stale in Idx(db, x)
    requires RelKey(live) in db && RelKey(stale) !in db
    requires Answers(db, Query(subj, None, None), a)
    ensures !Correct(db, Query(subj, None, None), a)
  {
    SubjectIndexMixed(db, subj, live, stale);
    QueryExact(hash, u, db, Query(subj, None, None), a);
  }
}

/**
 The Kubernetes indexer as a client of the store: it looks up every generated
 relationship and adds those it does not find (internal/kubernetes/agent/indexer.go).
 */
module Indexer {
  import opened Bytes
  import opened ResourceKeys
  import opened StoreModel
  import opened StoreInvariant
  import opened StoreQueries
  import Store

  datatype Outcome = Done | Retry | Rejected

  /**
   What the generators guarantee of a relationship: both ends and the predicate are
   set, and the type field names the predicate's message type.
   */
  predicate Generated(rel: Relationship) {
    && rel.subj.Some? && rel.obj.Some? && rel.descriptor.Some? && rel.pred.Some?
    && Names(rel.pred.value.typeUrl, rel.descriptor.value.typ)
  }

  /** The lookup that decides whether a relationship is already there. */
  function QueryOf(rel: Relationship): Query
    requires Generated(rel)
  {
    Query(rel.subj, rel.obj, Some(rel.descriptor.value.typ))
  }

  predicate AllGenerated(rels: seq<Relationship>) {
    forall i :: 0 <= i < |rels| ==> Generated(rels[i])
  }

  /** The relationships no stored one stands for. */
  function Missing(db: Db, rels: seq<Relationship>): (m: seq<Relationship>)
    requires AllGenerated(rels)
    ensures forall i :: 0 <= i < |m| ==> m[i] in rels
  {
    if rels == [] then []
    else
      var last := rels[|rels| - 1];
      Missing(db, rels[..|rels| - 1]) + (if Scan(db, QueryOf(last)) == {} then [last] else [])
  }

  /** Every predicate type is a known message type. */
  predicate Registered(registry: set<Bytes>, rels: seq<Relationship>) {
    forall i :: 0 <= i < |rels| ==> rels[i].descriptor.Some? && rels[i].descriptor.value.typ in registry
  }

  /** The part of `indexer.Update` after the resource write. */
  function Completed(hash: Hash, registry: set<Bytes>, d: Db, rels: seq<Relationship>): (Db, Outcome)
    requires AllGenerated(rels)
  {
    if !Registered(registry, rels) then (d, Rejected)
    else
      var added := AddRelationships(hash, d, Missing(d, rels));
      if added.None? then (d, Retry) else (added.value, Done)
  }

  /** `indexer.Update`; the resource write stays even if the relationships fail. */
  function UpdateDb(hash: Hash, registry: set<Bytes>, db: Db, r: Resource, rels: seq<Relationship>, now: int)
    : (Db, Outcome)
    requires AllGenerated(rels)
  {
    var d := UpdateResource(db, r, now);
    if d.None? then (db, Rejected) else Completed(hash, registry, d.value, rels)
  }

  // ---------- The object ----------

  class Indexer {
    const store: Store.Store
    const registry: set<Bytes>

    constructor (store: Store.Store, registry: set<Bytes>)
      ensures this.store == store && this.registry == registry
    {
      this.store, this.registry := store, registry;
    }

    method Update(r: Resource, rels: seq<Relationship>, now: int) returns (o: Outcome)
      requires store.Valid()
      requires forall i :: 0 <= i < |rels| ==> Generated(rels[i]) && rels[i] in store.universe
      modifies store
      ensures store.Valid() && store.closed == old(store.closed)
      ensures (store.db, o) == if store.closed then (old(store.db), Rejected)
                               else UpdateDb(store.hash, registry, old(store.db), r, rels, now)
    {
      var ok, _ := store.UpdateResource(r, now);
      if !ok {
        return Rejected;
      }
      o := Complete(rels, now);
    }

    /** The relationships: looked up, and those not found added. */
    method Complete(rels: seq<Relationship>, now: int) returns (o: Outcome)
      requires store.Valid() && !store.closed && AllGenerated(rels)
      requires forall i :: 0 <= i < |rels| ==> rels[i] in store.universe
      modifies store
      ensures store.Valid() && !store.closed
      ensures (store.db, o) == Completed(store.hash, registry, old(store.db), rels)
    {
      var relsToAdd, ok := FindMissing(rels);
      if !ok {
        return Rejected;
      }
      o := Done;
      if |relsToAdd| > 0 {
        ok := AddMissing(relsToAdd, now);
        if !ok {
          o := Retry;
        }
      }
    }

    /** `AddRelationships` as far as the database goes. */
    method AddMissing(rels: seq<Relationship>, now: int) returns (ok: bool)
      requires store.Valid() && !store.closed && forall r :: r in rels ==> r in store.universe
      modifies store
      ensures store.Valid() && !store.closed
      ensures ok == AllWellFormed(rels)
      ensures store.db == if ok then AddAll(store.hash, old(store.db), rels) else old(store.db)
    {
      ok := store.AddRelationships(rels, now);
    }

    method IsMissing(rel: Relationship) returns (missing: bool)
      requires store.Valid() && !store.closed && Generated(rel)
      ensures missing <==> Scan(store.db, QueryOf(rel)) == {}
    {
      var a := store.GetRelationships(QueryOf(rel));
      missing := a.value.NotFound?;
    }

    /** The lookups, one relationship at a time. */
    method FindMissing(rels: seq<Relationship>) returns (relsToAdd: seq<Relationship>, ok: bool)
      requires store.Valid() && !store.closed && AllGenerated(rels)
      ensures ok <==> Registered(registry, rels)
      ensures ok ==> relsToAdd == Missing(store.db, rels)
    {
      relsToAdd := [];
      for i := 0 to |rels|
        invariant AllGenerated(rels[..i]) && Registered(registry, rels[..i])
        invariant relsToAdd == Missing(store.db, rels[..i])
      {
        assert Generated(rels[i]);
        if rels[i].descriptor.value.typ !in registry {
          return relsToAdd, false;
        }
        var missing := IsMissing(rels[i]);
        MissingSnoc(store.db, rels, i);
        RegisteredSnoc(registry, rels, i);
        if missing {
          relsToAdd := relsToAdd + [rels[i]];
        }
      }
      assert rels[..|rels|] == rels;
      ok := true;
    }
  }

  lemma MissingSnoc(db: Db, rels: seq<Relationship>, i: nat)
    requires i < |rels| && AllGenerated(rels)
    ensures AllGenerated(rels[..i]) && AllGenerated(rels[..i + 1]) && Generated(rels[i])
    ensures Missing(db, rels[..i + 1]) ==
            Missing(db, rels[..i]) + if Scan(db, QueryOf(rels[i])) == {} then [rels[i]] else []
  {
    assert rels[..i + 1][..i] == rels[..i];
  }

  lemma RegisteredSnoc(registry: set<Bytes>, rels: seq<Relationship>, i: nat)
    requires i < |rels| && Registered(registry, rels[..i]) && Generated(rels[i])
    requires rels[i].descriptor.value.typ in registry
    ensures Registered(registry, rels[..i + 1])
  {
  }

  // ---------- What the lookups buy ----------

  ghost predicate Stored(db: Db, s: Relationship) {
    exists k :: k in db && k.family.RelationshipF? && db[k] == RelVal(s)
  }

  /** `s` has the ends of `rel` and a predicate of the type `rel` names. */
  predicate SameTriple(s: Relationship, rel: Relationship)
    requires Generated(rel)
  {
    && WellFormed(s) && Names(s.pred.value.typeUrl, rel.descriptor.value.typ)
    && EncodeResourceKey(s.subj) == EncodeResourceKey(rel.subj)
    && EncodeResourceKey(s.obj) == EncodeResourceKey(rel.obj)
  }

  ghost predicate Has(db: Db, rel: Relationship)
    requires Generated(rel)
  {
    exists s :: Stored(db, s) && SameTriple(s, rel)
  }

  /** The lookup finds something exactly if such a relationship is stored. */
  lemma LookupExact(db: Db, rel: Relationship)
    requires Generated(rel)
    ensures Scan(db, QueryOf(rel)) != {} <==> Has(db, rel)
  {
    if s :| Stored(db, s) && SameTriple(s, rel) {
      assert s in Scan(db, QueryOf(rel));
    }
    if Scan(db, QueryOf(rel)) != {} {
      var s :| s in Scan(db, QueryOf(rel));
      var q := QueryOf(rel);
      var k :| k in db && db[k].RelVal? && k.family.RelationshipF? && Matches(q, db[k].rel) && db[k].rel == s;
      assert Stored(db, s) && SameTriple(s, rel);
    }
  }

  lemma {:induction false} MissingScan(db: Db, rels: seq<Relationship>, rel: Relationship)
    requires forall i :: 0 <= i < |rels| ==> Generated(rels[i])
    requires rel in rels && Generated(rel)
    ensures rel in Missing(db, rels) <==> Scan(db, QueryOf(rel)) == {}
  {
    var front, last := rels[..|rels| - 1], rels[|rels| - 1];
    if rel in front {
      MissingScan(db, front, rel);
    } else {
      assert rel == last;
      assert rel !in Missing(db, front);
    }
  }

  lemma MissingExact(db: Db, rels: seq<Relationship>, rel: Relationship)
    requires AllGenerated(rels) && rel in rels && Generated(rel)
    ensures rel in Missing(db, rels) <==> !Has(db, rel)
  {
    MissingScan(db, rels, rel);
    LookupExact(db, rel);
  }

  lemma MissingRefused(d: Db, rels: seq<Relationship>)
    requires AllGenerated(rels)
    ensures AllWellFormed(Missing(d, rels)) <==>
            forall i :: 0 <= i < |rels| ==> Has(d, rels[i]) || WellFormed(rels[i])
  {
    var m := Missing(d, rels);
    forall i | 0 <= i < |rels| ensures rels[i] in m <==> !Has(d, rels[i]) {
      MissingExact(d, rels, rels[i]);
    }
    if i :| 0 <= i < |m| && !WellFormed(m[i]) {
      var j :| 0 <= j < |rels| && rels[j] == m[i];
    }
  }

  /** When an update succeeds, and whether one that does not is worth retrying. */
  lemma OutcomeExact(hash: Hash, registry: set<Bytes>, db: Db, r: Resource, rels: seq<Relationship>, now: int)
    requires AllGenerated(rels) && UpdateResource(db, r, now).Some?
    ensures var d, o := UpdateResource(db, r, now).value, UpdateDb(hash, registry, db, r, rels, now).1;
            && (o == Rejected <==> exists i :: 0 <= i < |rels| && rels[i].descriptor.value.typ !in registry)
            && (o != Rejected ==>
                  (o == Retry <==> exists i :: 0 <= i < |rels| && !Has(d, rels[i]) && !WellFormed(rels[i])))
  {
    MissingRefused(UpdateResource(db, r, now).value, rels);
  }

  lemma {:induction false} MissingNothing(db: Db, rels: seq<Relationship>)
    requires forall i :: 0 <= i < |rels| ==> Generated(rels[i]) && Scan(db, QueryOf(rels[i])) != {}
    ensures Missing(db, rels) == []
  {
    if rels != [] {
      MissingNothing(db, rels[..|rels| - 1]);
    }
  }

  /** Stored relationships stay, and so does what a scan finds, when relationships are added. */
  lemma AddedScan(hash: Hash, u: iset<Relationship>, db: Db, rel: Relationship, d: Db, q: Query)
    requires Inv(hash, u, db) && rel in u && Added(hash, db, rel, d)
    ensures Scan(db, q) <= Scan(d, q)
    ensures Matches(q, rel) ==> rel in Scan(d, q)
  {
    forall r | r in Scan(db, q) ensures r in Scan(d, q) {
      var k :| k in db && db[k].RelVal? && k.family.RelationshipF? && Matches(q, db[k].rel) && db[k].rel == r;
      AddedKeeps(hash, u, db, rel, d, k);
    }
    if Matches(q, rel) {
      assert d[RelKey(hash(rel))].rel in Scan(d, q);
    }
  }

  lemma AddedKeeps(hash: Hash, u: iset<Relationship>, db: Db, rel: Relationship, d: Db, k: DbKey)
    requires Inv(hash, u, db) && rel in u && Added(hash, db, rel, d)
    requires k in db && k.family.RelationshipF? && db[k].RelVal?
    ensures k in d && d[k] == db[k]
  {
    if k == RelKey(hash(rel)) {
      assert db[k].rel in u && hash(db[k].rel) == hash(rel);
    }
  }

  /** Every relationship of `rels` that matches is found. */
  ghost predicate Found(d: Db, rels: seq<Relationship>, q: Query) {
    forall r :: r in rels && Matches(q, r) ==> r in Scan(d, q)
  }

  lemma FoundSnoc(hash: Hash, u: iset<Relationship>, base: set<Relationship>, d: Db, rels: seq<Relationship>,
                  rel: Relationship, d': Db, q: Query)
    requires Inv(hash, u, d) && rel in u && Added(hash, d, rel, d') && base <= Scan(d, q) && Found(d, rels, q)
    ensures base <= Scan(d', q) && Found(d', rels + [rel], q)
  {
    AddedScan(hash, u, d, rel, d', q);
  }

  lemma LinkScan(hash: Hash, u: iset<Relationship>, base: set<Relationship>, dbs: seq<Db>, rels: seq<Relationship>,
                 i: int, q: Query)
    requires Chain(hash, dbs, rels) && 0 <= i < |rels| && Inv(hash, u, dbs[i]) && rels[i] in u
    requires base <= Scan(dbs[i], q) && Found(dbs[i], rels[..i], q)
    ensures base <= Scan(dbs[i + 1], q) && Found(dbs[i + 1], rels[..i] + [rels[i]], q)
  {
    assert Link(hash, dbs, rels, i);
    FoundSnoc(hash, u, base, dbs[i], rels[..i], rels[i], dbs[i + 1], q);
  }

  lemma {:induction false} ChainScan(hash: Hash, u: iset<Relationship>, dbs: seq<Db>, rels: seq<Relationship>, n: nat,
                                     q: Query)
    requires Chain(hash, dbs, rels) && n <= |rels| && Inv(hash, u, dbs[0])
    requires forall i :: 0 <= i < |rels| ==> rels[i] in u
    ensures Inv(hash, u, dbs[n]) && Scan(dbs[0], q) <= Scan(dbs[n], q) && Found(dbs[n], rels[..n], q)
  {
    if n > 0 {
      ChainScan(hash, u, dbs, rels, n - 1, q);
      LinkScan(hash, u, Scan(dbs[0], q), dbs, rels, n - 1, q);
      LinkInv(hash, u, dbs, rels, n - 1);
      assert rels[..n] == rels[..n - 1] + [rels[n - 1]];
    }
  }

  lemma AddAllScan(hash: Hash, u: iset<Relationship>, db: Db, rels: seq<Relationship>, q: Query)
    requires Inv(hash, u, db)
    requires forall i :: 0 <= i < |rels| ==> WellFormed(rels[i]) && rels[i] in u
    ensures Scan(db, q) <= Scan(AddAll(hash, db, rels), q) && Found(AddAll(hash, db, rels), rels, q)
  {
    var dbs := AddAllChain(hash, db, rels);
    ChainScan(hash, u, dbs, rels, |rels|, q);
    assert rels[..|rels|] == rels;
  }

  lemma ResourceScan(db: Db, k: Bytes, w: Resource, q: Query)
    requires Typed(db)
    ensures Scan(db[ResKey(k) := ResVal(w)], q) == Scan(db, q)
  {
    var d := db[ResKey(k) := ResVal(w)];
    forall r ensures r in Scan(d, q) <==> r in Scan(db, q) {
      if r in Scan(db, q) {
        var x :| x in db && db[x].RelVal? && x.family.RelationshipF? && Matches(q, db[x].rel) && db[x].rel == r;
        assert x in d && d[x] == db[x];
      }
      if r in Scan(d, q) {
        var x :| x in d && d[x].RelVal? && x.family.RelationshipF? && Matches(q, d[x].rel) && d[x].rel == r;
        assert x in db && d[x] == db[x];
      }
    }
  }

  lemma UpdateScan(hash: Hash, u: iset<Relationship>, db: Db, r: Resource, now: int, q: Query)
    requires Inv(hash, u, db) && UpdateResource(db, r, now).Some?
    ensures Inv(hash, u, UpdateResource(db, r, now).value)
    ensures Scan(UpdateResource(db, r, now).value, q) == Scan(db, q)
  {
    var k := EncodeResourceKey(Some(Ref(r))).value;
    var w := UpdateResource(db, r, now).value[ResKey(k)].resource;
    ResourceWriteInv(hash, u, db, k, w);
    ResourceScan(db, k, w, q);
  }

  lemma GeneratedMatches(rel: Relationship)
    requires Generated(rel) && WellFormed(rel)
    ensures Matches(QueryOf(rel), rel)
  {
  }

  /** After a successful update every generated (subject, predicate type, object) is stored. */
  lemma UpdateStoresAll(hash: Hash, u: iset<Relationship>, registry: set<Bytes>, db: Db, r: Resource,
                        rels: seq<Relationship>, now: int)
    requires Inv(hash, u, db) && forall i :: 0 <= i < |rels| ==> Generated(rels[i]) && rels[i] in u
    requires UpdateDb(hash, registry, db, r, rels, now).1 == Done
    ensures var d := UpdateDb(hash, registry, db, r, rels, now).0;
            Inv(hash, u, d) && forall i :: 0 <= i < |rels| ==> Has(d, rels[i])
  {
    UpdateScan(hash, u, db, r, now, Query(None, None, None));
    AddMissingStoresAll(hash, u, UpdateResource(db, r, now).value, rels);
    var d := UpdateDb(hash, registry, db, r, rels, now).0;
    forall i | 0 <= i < |rels| ensures Has(d, rels[i]) {
      LookupExact(d, rels[i]);
    }
  }

  lemma AddMissingStoresAll(hash: Hash, u: iset<Relationship>, db: Db, rels: seq<Relationship>)
    requires Inv(hash, u, db) && forall i :: 0 <= i < |rels| ==> Generated(rels[i]) && rels[i] in u
    requires AddRelationships(hash, db, Missing(db, rels)).Some?
    ensures var d := AddAll(hash, db, Missing(db, rels));
            Inv(hash, u, d) && forall i :: 0 <= i < |rels| ==> Scan(d, QueryOf(rels[i])) != {}
  {
    AddAllInv(hash, u, db, Missing(db, rels));
    forall i | 0 <= i < |rels| ensures Scan(AddAll(hash, db, Missing(db, rels)), QueryOf(rels[i])) != {} {
      StoredAfterAdd(hash, u, db, rels, rels[i]);
    }
  }

  lemma StoredAfterAdd(hash: Hash, u: iset<Relationship>, db: Db, rels: seq<Relationship>, rel: Relationship)
    requires Inv(hash, u, db) && forall i :: 0 <= i < |rels| ==> Generated(rels[i]) && rels[i] in u
    requires rel in rels
    requires var m := Missing(db, rels); forall i :: 0 <= i < |m| ==> WellFormed(m[i])
    ensures Scan(AddAll(hash, db, Missing(db, rels)), QueryOf(rel)) != {}
  {
    var q, m := QueryOf(rel), Missing(db, rels);
    MissingScan(db, rels, rel);
    AddAllScan(hash, u, db, m, q);
    if rel in m {
      GeneratedMatches(rel);
      assert rel in Scan(AddAll(hash, db, m), q);
    }
  }

  /** Without deletions a scan never loses a relationship. */
  lemma {:induction false} ScanGrows(hash: Hash, u: iset<Relationship>, db: Db, calls: seq<Call>, q: Query)
    requires Inv(hash, u, db) && Within(u, calls) && NoDeletes(calls)
    ensures Inv(hash, u, RunFrom(hash, db, calls))
    ensures Scan(db, q) <= Scan(RunFrom(hash, db, calls), q)
    decreases |calls|
  {
    if calls != [] {
      var front, c := calls[..|calls| - 1], calls[|calls| - 1];
      ScanGrows(hash, u, db, front, q);
      StepScan(hash, u, RunFrom(hash, db, front), c, q);
    }
  }

  lemma StepScan(hash: Hash, u: iset<Relationship>, db: Db, c: Call, q: Query)
    requires Inv(hash, u, db) && Within(u, [c]) && !c.op.OpDeleteResource?
    ensures Inv(hash, u, Step(hash, db, c)) && Scan(db, q) <= Scan(Step(hash, db, c), q)
  {
    StepInv(hash, u, db, c);
    if Attempt(hash, db, c).Some? {
      match c.op {
        case OpAddResource(r) => ResourceScan(db, Key(Ref(r)), Step(hash, db, c)[ResKey(Key(Ref(r)))].resource, q);
        case OpUpdateResource(r) => UpdateScan(hash, u, db, r, c.now, q);
        case OpAddRelationships(rels) =>
          assert [c][0].op.rels == rels;
          AddAllScan(hash, u, db, rels, q);
      }
    }
  }

  /**
   Updating the same object again, with no deletion in between, whatever else has
   been added, writes the resource and leaves every relationship and index as it is.
   */
  lemma UpdateTwice(hash: Hash, u: iset<Relationship>, registry: set<Bytes>, db: Db, r: Resource,
                    rels: seq<Relationship>, calls: seq<Call>, now: int, later: int)
    requires Inv(hash, u, db) && forall i :: 0 <= i < |rels| ==> Generated(rels[i]) && rels[i] in u
    requires UpdateDb(hash, registry, db, r, rels, now).1 == Done
    requires Within(u, calls) && NoDeletes(calls)
    ensures var d := RunFrom(hash, UpdateDb(hash, registry, db, r, rels, now).0, calls);
            UpdateDb(hash, registry, d, r, rels, later) == (UpdateResource(d, r, later).value, Done)
  {
    var d0 := UpdateDb(hash, registry, db, r, rels, now).0;
    UpdateStoresAll(hash, u, registry, db, r, rels, now);
    var d := RunFrom(hash, d0, calls);
    var d1 := UpdateResource(d, r, later).value;
    ScanGrows(hash, u, d0, calls, Query(None, None, None));
    forall i | 0 <= i < |rels| ensures Scan(d1, QueryOf(rels[i])) != {} {
      LookupExact(d0, rels[i]);
      ScanGrows(hash, u, d0, calls, QueryOf(rels[i]));
      UpdateScan(hash, u, d, r, later, QueryOf(rels[i]));
    }
    MissingNothing(d1, rels);
  }
}

/**
 The resource store as a typed database: resources, relationships and the three
 relationship indexes, with the transactions of internal/resource/store/store.go as
 functions on it.  `StoreKv` keeps the same data in one flat key-value space.
 */
module StoreModel {
  import opened Bytes
  import opened ResourceKeys
  import opened IndexBytes

  datatype TypeDescriptor = TypeDescriptor(kind: Bytes, typ: Bytes)

  datatype Resource = Resource(
    descriptor: Option<TypeDescriptor>, name: Bytes, ns: Option<Namespace>, spec: Bytes,
    createdAt: Option<int>, updatedAt: Option<int>, deletedAt: Option<int>)

  datatype Any = Any(typeUrl: Bytes, value: Bytes)

  datatype Relationship = Relationship(
    descriptor: Option<TypeDescriptor>, subj: Option<ResourceRef>, obj: Option<ResourceRef>,
    pred: Option<Any>)

  datatype Family = ResourceF | RelationshipF | SubjectF | ObjectF | PredicateF

  datatype DbKey = DbKey(family: Family, part: Bytes)

  datatype Value = ResVal(resource: Resource) | RelVal(rel: Relationship) | IdxVal(keys: seq<ObjKey>)

  type Db = map<DbKey, Value>

  /** SHA-256 of a marshalled relationship. */
  type Hash = Relationship -> ObjKey

  const TYPE_PREFIX: Bytes := "type.googleapis.com/"

  // ---------- Keys ----------

  function Ref(r: Resource): ResourceRef {
    ResourceRef(if r.descriptor.None? then [] else r.descriptor.value.typ, r.name, r.ns)
  }

  /** What AddRelationships accepts: a predicate, two different ends, both encodable. */
  predicate WellFormed(rel: Relationship) {
    && rel.pred.Some?
    && rel.subj != rel.obj
    && EncodeResourceKey(rel.subj).Some?
    && EncodeResourceKey(rel.obj).Some?
  }

  function SubjectKey(rel: Relationship): Bytes requires WellFormed(rel) { EncodeResourceKey(rel.subj).value }

  function ObjectKey(rel: Relationship): Bytes requires WellFormed(rel) { EncodeResourceKey(rel.obj).value }

  function PredicateName(rel: Relationship): Bytes requires WellFormed(rel) {
    TrimPrefix(rel.pred.value.typeUrl, TYPE_PREFIX)
  }

  predicate IsIndex(f: Family) {
    f.SubjectF? || f.ObjectF? || f.PredicateF?
  }

  /** The key of the index of family `f` that lists `rel`. */
  function IndexKey(f: Family, rel: Relationship): (k: DbKey)
    requires IsIndex(f) && WellFormed(rel)
    ensures k.family == f
  {
    match f
    case SubjectF => DbKey(SubjectF, SubjectKey(rel))
    case ObjectF => DbKey(ObjectF, ObjectKey(rel))
    case PredicateF => DbKey(PredicateF, PredicateName(rel))
  }

  function RelKey(h: ObjKey): DbKey { DbKey(RelationshipF, h) }

  function ResKey(k: Bytes): DbKey { DbKey(ResourceF, k) }

  // ---------- Indexes ----------

  function Idx(db: Db, k: DbKey): seq<ObjKey> {
    if k in db && db[k].IdxVal? then db[k].keys else []
  }

  /** `addObjKeyToIndex`. */
  function AddKey(db: Db, k: DbKey, h: ObjKey): Db {
    db[k := IdxVal(if k in db then SortKeys(Idx(db, k) + [h]) else [h])]
  }

  function DeleteAll(keys: seq<ObjKey>, gone: seq<ObjKey>): seq<ObjKey> {
    if gone == [] then keys
    else DeleteKey(DeleteAll(keys, gone[..|gone| - 1]), gone[|gone| - 1], 1)
  }

  // ---------- Transactions ----------

  function AddRelationship(hash: Hash, db: Db, rel: Relationship): Db
    requires WellFormed(rel)
  {
    var h := hash(rel);
    var d1 := AddKey(db[RelKey(h) := RelVal(rel)], IndexKey(PredicateF, rel), h);
    var d2 := AddKey(d1, IndexKey(ObjectF, rel), h);
    AddKey(d2, IndexKey(SubjectF, rel), h)
  }

  predicate AllWellFormed(rels: seq<Relationship>) {
    forall i :: 0 <= i < |rels| ==> WellFormed(rels[i])
  }

  function AddAll(hash: Hash, db: Db, rels: seq<Relationship>): Db
    requires AllWellFormed(rels)
  {
    if rels == [] then db
    else AddRelationship(hash, AddAll(hash, db, rels[..|rels| - 1]), rels[|rels| - 1])
  }

  /** `AddRelationships`: all of them or, if one is refused, none (`None` is the error). */
  function AddRelationships(hash: Hash, db: Db, rels: seq<Relationship>): Option<Db> {
    if AllWellFormed(rels) then Some(AddAll(hash, db, rels)) else None
  }

  function AddResource(db: Db, r: Resource, now: int): Option<Db> {
    var k := EncodeResourceKey(Some(Ref(r)));
    if k.None? || ResKey(k.value) in db then None
    else Some(db[ResKey(k.value) := ResVal(r.(createdAt := Some(now), updatedAt := Some(now)))])
  }

  function UpdateResource(db: Db, r: Resource, now: int): Option<Db> {
    var k := EncodeResourceKey(Some(Ref(r)));
    if k.None? then None
    else
      var created := if ResKey(k.value) in db && db[ResKey(k.value)].ResVal?
                     then db[ResKey(k.value)].resource.createdAt else Some(now);
      Some(db[ResKey(k.value) := ResVal(r.(createdAt := created, updatedAt := Some(now)))])
  }

  /** The object keys of the two indexes of resource `k`, in the order they are deleted. */
  function Incident(db: Db, k: Bytes): seq<ObjKey> {
    Idx(db, DbKey(SubjectF, k)) + Idx(db, DbKey(ObjectF, k))
  }

  /** The keys DeleteResource deletes outright. */
  predicate Dropped(db: Db, k: Bytes, x: DbKey) {
    || (x.family.RelationshipF? && |x.part| == OBJ_KEY_SIZE && x.part in Incident(db, k))
    || x == DbKey(SubjectF, k)
    || x == DbKey(ObjectF, k)
    || x == ResKey(k)
  }

  function DeleteKeyed(db: Db, k: Bytes): Db {
    map x | x in db && !Dropped(db, k, x) ::
      if x.family.PredicateF? && db[x].IdxVal? then IdxVal(DeleteAll(db[x].keys, Incident(db, k))) else db[x]
  }

  function DeleteResource(db: Db, ref: Option<ResourceRef>): Option<Db> {
    var k := EncodeResourceKey(ref);
    if k.None? then None else Some(DeleteKeyed(db, k.value))
  }

  // ---------- Runs ----------

  datatype Op =
    | OpAddResource(r: Resource)
    | OpUpdateResource(r: Resource)
    | OpDeleteResource(ref: Option<ResourceRef>)
    | OpAddRelationships(rels: seq<Relationship>)

  datatype Call = Call(op: Op, now: int)

  function Attempt(hash: Hash, db: Db, c: Call): Option<Db> {
    match c.op
    case OpAddResource(r) => AddResource(db, r, c.now)
    case OpUpdateResource(r) => UpdateResource(db, r, c.now)
    case OpDeleteResource(ref) => DeleteResource(db, ref)
    case OpAddRelationships(rels) => AddRelationships(hash, db, rels)
  }

  /** One call; a failed transaction changes nothing. */
  function Step(hash: Hash, db: Db, c: Call): Db {
    var r := Attempt(hash, db, c);
    if r.None? then db else r.value
  }

  /** The database after further calls on a store holding `db`. */
  function RunFrom(hash: Hash, db: Db, calls: seq<Call>): Db
    decreases |calls|
  {
    if calls == [] then db
    else Step(hash, RunFrom(hash, db, calls[..|calls| - 1]), calls[|calls| - 1])
  }

  /** The database after the calls of a run, starting empty. */
  function Run(hash: Hash, calls: seq<Call>): Db {
    RunFrom(hash, map[], calls)
  }
}

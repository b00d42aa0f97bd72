/**
 The events the store routes to its subscribers, and what a subscriber can rebuild
 from them (internal/resource/store/store.go, match, hasPrefix, startEventRouter).
 */
module StoreEvents {
  import opened Bytes
  import opened ResourceKeys
  import opened StoreModel
  import opened StoreInvariant

  datatype EventType = ADD | UPDATE | DELETE

  datatype Payload = OfResource(resource: Resource) | OfRelationship(rel: Relationship)

  datatype Event = Event(kind: EventType, descriptor: Option<TypeDescriptor>, payload: Payload)

  /** A subscriber's filters, and its channel as the list of events sent to it. */
  datatype Subscriber = Subscriber(kindMatch: seq<seq<Bytes>>, typeMatch: seq<seq<Bytes>>, ch: seq<Event>)

  const KIND_RESOURCE: Bytes := "Resource"

  predicate HasPrefix(path: seq<Bytes>, prefix: seq<Bytes>) {
    prefix <= path
  }

  /** The name itself, or one in the hierarchy of packages below it. */
  predicate Below(name: Bytes, filter: Bytes) {
    name == filter || filter + "." <= name
  }

  /** Prefixes of dot-separated paths are names above. */
  lemma {:induction false} HasPrefixIs(name: Bytes, filter: Bytes)
    ensures HasPrefix(Split(name, '.'), Split(filter, '.')) <==> Below(name, filter)
  {
    if name != [] && filter != [] && name[0] == filter[0] {
      HasPrefixIs(name[1..], filter[1..]);
      BelowTail(name, filter);
      SplitTails(name, filter);
    } else if name != [] && filter != [] {
      assert (filter + ".")[0] != name[0];
      FirstPart(name);
      FirstPart(filter);
    } else if name == [] && filter != [] {
      assert |filter + "."| > |name|;
      FirstPart(filter);
    } else if name != [] {
      assert filter + "." == ".";
      assert name[0] == '.' ==> "." <= name;
    }
  }

  lemma FirstPart(s: Bytes)
    requires s != []
    ensures if s[0] == '.' then Split(s, '.')[0] == [] else Split(s, '.')[0] != [] && Split(s, '.')[0][0] == s[0]
  {
  }

  lemma PrefixCons<T>(x: T, a: seq<T>, b: seq<T>)
    ensures [x] + a <= [x] + b <==> a <= b
  {
    if [x] + a <= [x] + b {
      assert a == ([x] + a)[1..] && b == ([x] + b)[1..];
    }
  }

  lemma BelowTail(name: Bytes, filter: Bytes)
    requires name != [] && filter != [] && name[0] == filter[0]
    ensures Below(name, filter) <==> Below(name[1..], filter[1..])
  {
    assert name == [name[0]] + name[1..] && filter == [name[0]] + filter[1..];
    assert filter + "." == [name[0]] + (filter[1..] + ".");
  }

  lemma PrefixHead(c: byte, f: seq<Bytes>, n: seq<Bytes>)
    requires f != [] && n != []
    ensures [[c] + f[0]] + f[1..] <= [[c] + n[0]] + n[1..] <==> f <= n
  {
    var f', n' := [[c] + f[0]] + f[1..], [[c] + n[0]] + n[1..];
    assert f'[0] == n'[0] ==> f[0] == f'[0][1..] == n'[0][1..] == n[0];
    assert forall i :: 1 <= i < |f| ==> f'[i] == f[i];
    assert forall i :: 1 <= i < |n| ==> n'[i] == n[i];
    if f' <= n' {
      assert f'[0] == n'[0];
      assert forall i :: 0 <= i < |f| ==> f'[i] == n'[i];
    }
  }

  lemma SplitTails(name: Bytes, filter: Bytes)
    requires name != [] && filter != [] && name[0] == filter[0]
    ensures Split(filter, '.') <= Split(name, '.') <==> Split(filter[1..], '.') <= Split(name[1..], '.')
  {
    if name[0] == '.' {
      PrefixCons([], Split(filter[1..], '.'), Split(name[1..], '.'));
    } else {
      PrefixHead(name[0], Split(filter[1..], '.'), Split(name[1..], '.'));
    }
  }

  /** `subscriber.match`. */
  predicate Match(s: Subscriber, d: Option<TypeDescriptor>) {
    if s.kindMatch == [] && s.typeMatch == [] then true
    else if d.None? then false
    else
      && (s.kindMatch != [] ==> exists p :: p in s.kindMatch && HasPrefix(Split(d.value.kind, '.'), p))
      && exists p :: p in s.typeMatch && HasPrefix(Split(d.value.typ, '.'), p)
  }

  /** `Subscribe`: the filters of a list of type descriptors. */
  function Filters(defs: seq<Option<TypeDescriptor>>): (s: Subscriber)
    ensures s.ch == []
  {
    if defs == [] then Subscriber([], [], [])
    else
      var s, d := Filters(defs[..|defs| - 1]), defs[|defs| - 1];
      if d.None? then s
      else
        Subscriber(
          if d.value.kind == [] then s.kindMatch else s.kindMatch + [Split(d.value.kind, '.')],
          if d.value.typ == [] then s.typeMatch else s.typeMatch + [Split(d.value.typ, '.')],
          [])
  }

  function Route(subs: seq<Subscriber>, e: Event): (r: seq<Subscriber>)
    ensures |r| == |subs|
  {
    seq(|subs|, i requires 0 <= i < |subs| =>
      if Match(subs[i], e.descriptor) then subs[i].(ch := subs[i].ch + [e]) else subs[i])
  }

  function RouteAll(subs: seq<Subscriber>, es: seq<Event>): (r: seq<Subscriber>)
    ensures |r| == |subs|
  {
    if es == [] then subs else Route(RouteAll(subs, es[..|es| - 1]), es[|es| - 1])
  }

  /** The record that announces a deletion. */
  function Tombstone(ref: ResourceRef, now: int): Resource {
    Resource(Some(TypeDescriptor(KIND_RESOURCE, ref.typeUrl)), ref.name, ref.ns, [], None, None, Some(now))
  }

  /** The events a call sends: none if it failed. */
  function EventsOf(hash: Hash, db: Db, c: Call): seq<Event> {
    var d := Attempt(hash, db, c);
    if d.None? then []
    else match c.op
      case OpAddResource(r) =>
        var w := d.value[ResKey(Key(Ref(r)))].resource;
        [Event(ADD, w.descriptor, OfResource(w))]
      case OpUpdateResource(r) =>
        var w := d.value[ResKey(Key(Ref(r)))].resource;
        [Event(UPDATE, w.descriptor, OfResource(w))]
      case OpDeleteResource(ref) =>
        var t := Tombstone(ref.value, c.now);
        [Event(DELETE, t.descriptor, OfResource(t))]
      case OpAddRelationships(rels) =>
        seq(|rels|, i requires 0 <= i < |rels| => Event(ADD, rels[i].descriptor, OfRelationship(rels[i])))
  }

  // ---------- What a subscriber rebuilds ----------

  type Inventory = map<Bytes, Resource>

  function Resources(db: Db): Inventory {
    map k | k in db && k.family.ResourceF? && db[k].ResVal? :: k.part := db[k].resource
  }

  function Restrict(s: Subscriber, m: Inventory): Inventory {
    map k | k in m && Match(s, m[k].descriptor) :: m[k]
  }

  /** A subscriber applies an event to its copy of the inventory. */
  function Apply(m: Inventory, e: Event): Inventory {
    if e.payload.OfRelationship? then m
    else
      var k := Key(Ref(e.payload.resource));
      if e.kind.DELETE? then m - {k} else m[k := e.payload.resource]
  }

  function Fold(s: Subscriber, m: Inventory, es: seq<Event>): Inventory {
    if es == [] then m
    else
      var before := Fold(s, m, es[..|es| - 1]);
      if Match(s, es[|es| - 1].descriptor) then Apply(before, es[|es| - 1]) else before
  }

  /** Resources stored under one key have one type, so a type filter treats them alike. */
  lemma SameKeySameMatch(s: Subscriber, r: Resource, q: Resource)
    requires s.kindMatch == []
    requires EncodeResourceKey(Some(Ref(r))).Some? && EncodeResourceKey(Some(Ref(r))) == EncodeResourceKey(Some(Ref(q)))
    ensures Match(s, r.descriptor) == Match(s, q.descriptor)
  {
    KeyParts(Ref(r), Ref(q));
  }

  lemma {:induction false} FoldRelationships(s: Subscriber, m: Inventory, es: seq<Event>)
    requires forall e :: e in es ==> e.payload.OfRelationship?
    ensures Fold(s, m, es) == m
  {
    if es != [] {
      FoldRelationships(s, m, es[..|es| - 1]);
    }
  }

  lemma FoldOne(s: Subscriber, m: Inventory, e: Event)
    ensures Fold(s, m, [e]) == if Match(s, e.descriptor) then Apply(m, e) else m
  {
    assert [e][..0] == [];
  }

  /** The two databases hold the same under a resource key. */
  predicate SameAt(a: Db, b: Db, k: Bytes) {
    (ResKey(k) in a <==> ResKey(k) in b) && (ResKey(k) in b ==> a[ResKey(k)] == b[ResKey(k)])
  }

  lemma LinkSameAt(hash: Hash, dbs: seq<Db>, rels: seq<Relationship>, i: int, k: Bytes)
    requires Chain(hash, dbs, rels) && 0 <= i < |rels|
    ensures SameAt(dbs[i + 1], dbs[i], k)
  {
    assert Link(hash, dbs, rels, i);
  }

  lemma {:induction false} ChainSameAt(hash: Hash, dbs: seq<Db>, rels: seq<Relationship>, n: nat, k: Bytes)
    requires Chain(hash, dbs, rels) && n <= |rels|
    ensures SameAt(dbs[n], dbs[0], k)
  {
    if n > 0 {
      ChainSameAt(hash, dbs, rels, n - 1, k);
      LinkSameAt(hash, dbs, rels, n - 1, k);
    }
  }

  lemma InResources(db: Db, k: Bytes)
    ensures k in Resources(db) <==> ResKey(k) in db && db[ResKey(k)].ResVal?
    ensures k in Resources(db) ==> Resources(db)[k] == db[ResKey(k)].resource
  {
  }

  lemma SameResources(a: Db, b: Db)
    requires forall k: Bytes {:trigger SameAt(a, b, k)} :: SameAt(a, b, k)
    ensures Resources(a) == Resources(b)
  {
    forall k: Bytes ensures k in Resources(a) <==> k in Resources(b)
                    ensures k in Resources(a) ==> Resources(a)[k] == Resources(b)[k] {
      assert SameAt(a, b, k);
      InResources(a, k);
      InResources(b, k);
    }
  }

  lemma AddAllResources(hash: Hash, db: Db, rels: seq<Relationship>)
    requires Typed(db) && AllWellFormed(rels)
    ensures Typed(AddAll(hash, db, rels)) && Resources(AddAll(hash, db, rels)) == Resources(db)
  {
    var dbs := AddAllChain(hash, db, rels);
    forall k: Bytes ensures SameAt(dbs[|rels|], dbs[0], k) {
      ChainSameAt(hash, dbs, rels, |rels|, k);
    }
    SameResources(dbs[|rels|], dbs[0]);
  }

  lemma WriteResources(db: Db, k: Bytes, w: Resource)
    ensures Resources(db[ResKey(k) := ResVal(w)]) == Resources(db)[k := w]
  {
    var d := db[ResKey(k) := ResVal(w)];
    forall x: Bytes ensures x in Resources(d) <==> x == k || x in Resources(db)
                    ensures x in Resources(d) && x != k ==> Resources(d)[x] == Resources(db)[x] {
      InResources(d, x);
      InResources(db, x);
    }
    InResources(d, k);
  }

  lemma DeleteResources(db: Db, k: Bytes)
    ensures Resources(DeleteKeyed(db, k)) == Resources(db) - {k}
  {
    var d := DeleteKeyed(db, k);
    forall x: Bytes ensures x in Resources(d) <==> x != k && x in Resources(db)
                    ensures x in Resources(d) ==> Resources(d)[x] == Resources(db)[x] {
      InResources(d, x);
      InResources(db, x);
    }
  }

  lemma RestrictWrite(s: Subscriber, m: Inventory, k: Bytes, w: Resource)
    requires k in m ==> Match(s, m[k].descriptor) == Match(s, w.descriptor)
    ensures Restrict(s, m[k := w]) == if Match(s, w.descriptor) then Restrict(s, m)[k := w] else Restrict(s, m)
  {
  }

  lemma RestrictDelete(s: Subscriber, m: Inventory, k: Bytes)
    ensures Restrict(s, m - {k}) == Restrict(s, m) - {k}
    ensures k in m && !Match(s, m[k].descriptor) ==> Restrict(s, m - {k}) == Restrict(s, m)
    ensures k !in m ==> Restrict(s, m - {k}) == Restrict(s, m)
  {
  }

  lemma WriteFolds(s: Subscriber, db: Db, k: Bytes, w: Resource, kind: EventType)
    requires s.kindMatch == [] && Typed(db) && EncodeResourceKey(Some(Ref(w))) == Some(k) && !kind.DELETE?
    ensures Fold(s, Restrict(s, Resources(db)), [Event(kind, w.descriptor, OfResource(w))])
            == Restrict(s, Resources(db[ResKey(k) := ResVal(w)]))
  {
    var m, e := Resources(db), Event(kind, w.descriptor, OfResource(w));
    FoldOne(s, Restrict(s, m), e);
    WriteResources(db, k, w);
    if k in m {
      assert ResKey(k) in db && db[ResKey(k)].resource == m[k];
      SameKeySameMatch(s, m[k], w);
    }
    RestrictWrite(s, m, k, w);
  }

  lemma DeleteFolds(s: Subscriber, db: Db, ref: ResourceRef, now: int)
    requires s.kindMatch == [] && Typed(db) && ref.typeUrl != []
    ensures var t := Tombstone(ref, now);
            Fold(s, Restrict(s, Resources(db)), [Event(DELETE, t.descriptor, OfResource(t))])
            == Restrict(s, Resources(DeleteKeyed(db, Key(ref))))
  {
    var t, m, k := Tombstone(ref, now), Resources(db), Key(ref);
    assert Ref(t) == ref;
    FoldOne(s, Restrict(s, m), Event(DELETE, t.descriptor, OfResource(t)));
    DeleteResources(db, k);
    if k in m {
      assert ResKey(k) in db && db[ResKey(k)].resource == m[k];
      SameKeySameMatch(s, m[k], t);
    }
    RestrictDelete(s, m, k);
  }

  lemma StepFolds(hash: Hash, s: Subscriber, db: Db, c: Call)
    requires s.kindMatch == [] && Typed(db)
    ensures Fold(s, Restrict(s, Resources(db)), EventsOf(hash, db, c)) == Restrict(s, Resources(Step(hash, db, c)))
  {
    if Attempt(hash, db, c).Some? {
      match c.op {
        case OpAddResource(r) =>
          WriteFolds(s, db, Key(Ref(r)), Step(hash, db, c)[ResKey(Key(Ref(r)))].resource, ADD);
        case OpUpdateResource(r) =>
          WriteFolds(s, db, Key(Ref(r)), Step(hash, db, c)[ResKey(Key(Ref(r)))].resource, UPDATE);
        case OpDeleteResource(ref) =>
          DeleteFolds(s, db, ref.value, c.now);
        case OpAddRelationships(rels) =>
          AddAllResources(hash, db, rels);
          FoldRelationships(s, Restrict(s, Resources(db)), EventsOf(hash, db, c));
      }
    }
  }

  /** The events sent by further calls on a store holding `db`. */
  function EventsFrom(hash: Hash, db: Db, calls: seq<Call>): seq<Event>
    decreases |calls|
  {
    if calls == [] then []
    else
      var front := calls[..|calls| - 1];
      EventsFrom(hash, db, front) + EventsOf(hash, RunFrom(hash, db, front), calls[|calls| - 1])
  }

  lemma RunLast(hash: Hash, db: Db, calls: seq<Call>, d: Db)
    requires calls != [] && RunFrom(hash, db, calls[..|calls| - 1]) == d
    ensures RunFrom(hash, db, calls) == Step(hash, d, calls[|calls| - 1])
  {
  }

  lemma {:induction false} RunConcat(hash: Hash, db: Db, before: seq<Call>, after: seq<Call>)
    ensures RunFrom(hash, db, before + after) == RunFrom(hash, RunFrom(hash, db, before), after)
    decreases |after|
  {
    var all := before + after;
    if after == [] {
      assert all == before;
    } else {
      var front := after[..|after| - 1];
      var d := RunFrom(hash, RunFrom(hash, db, before), front);
      RunConcat(hash, db, before, front);
      assert all[..|all| - 1] == before + front && all[|all| - 1] == after[|after| - 1];
      SameEnd(hash, db, all, RunFrom(hash, db, before), after, d);
    }
  }

  lemma SameEnd(hash: Hash, db: Db, calls: seq<Call>, db': Db, calls': seq<Call>, d: Db)
    requires calls != [] && calls' != [] && calls[|calls| - 1] == calls'[|calls'| - 1]
    requires RunFrom(hash, db, calls[..|calls| - 1]) == d && RunFrom(hash, db', calls'[..|calls'| - 1]) == d
    ensures RunFrom(hash, db, calls) == RunFrom(hash, db', calls')
  {
    RunLast(hash, db, calls, d);
    RunLast(hash, db', calls', d);
  }

  lemma {:induction false} FoldConcat(s: Subscriber, m: Inventory, es: seq<Event>, fs: seq<Event>)
    ensures Fold(s, m, es + fs) == Fold(s, Fold(s, m, es), fs)
  {
    if fs == [] {
      assert es + fs == es;
    } else {
      var all, f := es + fs, fs[..|fs| - 1];
      FoldConcat(s, m, es, f);
      assert all[..|all| - 1] == es + f && all[|all| - 1] == fs[|fs| - 1];
    }
  }

  lemma StepTyped(hash: Hash, db: Db, c: Call)
    requires Typed(db)
    ensures Typed(Step(hash, db, c))
  {
    if Attempt(hash, db, c).Some? {
      match c.op {
        case OpAddRelationships(rels) => AddAllResources(hash, db, rels);
        case OpDeleteResource(ref) => DeleteTyped(db, Key(ref.value));
        case _ =>
      }
    }
  }

  lemma {:induction false} RunFromTyped(hash: Hash, db: Db, calls: seq<Call>)
    requires Typed(db)
    ensures Typed(RunFrom(hash, db, calls))
    decreases |calls|
  {
    if calls != [] {
      RunFromTyped(hash, db, calls[..|calls| - 1]);
      StepTyped(hash, RunFrom(hash, db, calls[..|calls| - 1]), calls[|calls| - 1]);
    }
  }

  lemma {:induction false} FoldsFrom(hash: Hash, s: Subscriber, db: Db, calls: seq<Call>)
    requires s.kindMatch == [] && Typed(db)
    ensures Fold(s, Restrict(s, Resources(db)), EventsFrom(hash, db, calls))
            == Restrict(s, Resources(RunFrom(hash, db, calls)))
    decreases |calls|
  {
    if calls != [] {
      var front, c := calls[..|calls| - 1], calls[|calls| - 1];
      FoldsFrom(hash, s, db, front);
      RunFromTyped(hash, db, front);
      StepFolds(hash, s, RunFrom(hash, db, front), c);
      FoldConcat(s, Restrict(s, Resources(db)),
                 EventsFrom(hash, db, front), EventsOf(hash, RunFrom(hash, db, front), c));
    }
  }

  /**
   A subscriber that filters on types only, or not at all, and starts from the
   matching resources present when it subscribed, holds exactly the matching
   resources of the store after every later call.
   */
  lemma SubscriberReproducesStore(hash: Hash, s: Subscriber, before: seq<Call>, after: seq<Call>)
    requires s.kindMatch == []
    ensures var events := Matching(s, EventsFrom(hash, Run(hash, before), after));
            Fold(s, Restrict(s, Resources(Run(hash, before))), events)
            == Restrict(s, Resources(Run(hash, before + after)))
  {
    RunFromTyped(hash, map[], before);
    RunConcat(hash, map[], before, after);
    FoldsFrom(hash, s, Run(hash, before), after);
    FoldMatching(s, Restrict(s, Resources(Run(hash, before))), EventsFrom(hash, Run(hash, before), after));
  }

  /** Without filters nothing is left out. */
  lemma UnfilteredSeesAll(s: Subscriber, m: Inventory)
    requires s.kindMatch == [] && s.typeMatch == []
    ensures Restrict(s, m) == m
  {
  }

  function Matching(s: Subscriber, es: seq<Event>): seq<Event> {
    if es == [] then []
    else
      var m := Matching(s, es[..|es| - 1]);
      if Match(s, es[|es| - 1].descriptor) then m + [es[|es| - 1]] else m
  }

  /** Routing appends to each channel the events its subscriber matches, in order. */
  lemma {:induction false} RouteAllExact(subs: seq<Subscriber>, es: seq<Event>, i: nat)
    requires i < |subs|
    ensures RouteAll(subs, es)[i] == subs[i].(ch := subs[i].ch + Matching(subs[i], es))
  {
    if es != [] {
      RouteAllExact(subs, es[..|es| - 1], i);
      assert Match(RouteAll(subs, es[..|es| - 1])[i], es[|es| - 1].descriptor)
             == Match(subs[i], es[|es| - 1].descriptor);
    }
  }

  lemma {:induction false} FoldMatching(s: Subscriber, m: Inventory, es: seq<Event>)
    ensures Fold(s, m, Matching(s, es)) == Fold(s, m, es)
  {
    if es != [] {
      var e, front := es[|es| - 1], Matching(s, es[..|es| - 1]);
      FoldMatching(s, m, es[..|es| - 1]);
      if Match(s, e.descriptor) {
        assert (front + [e])[..|front|] == front;
      }
    }
  }

  // ---------- Filters on kinds ----------

  /** The names in a filter; a nil one has none. */
  function KindOf(def: Option<TypeDescriptor>): Bytes {
    if def.None? then [] else def.value.kind
  }

  function TypeOf(def: Option<TypeDescriptor>): Bytes {
    if def.None? then [] else def.value.typ
  }

  /** An empty string covers any name, another the names below it; an object without a descriptor has no name. */
  predicate Covers(filter: Bytes, name: Option<Bytes>) {
    filter == [] || (name.Some? && Below(name.value, filter))
  }

  predicate DefMatches(def: Option<TypeDescriptor>, d: Option<TypeDescriptor>) {
    && Covers(KindOf(def), if d.None? then None else Some(d.value.kind))
    && Covers(TypeOf(def), if d.None? then None else Some(d.value.typ))
  }

  /** The match the interface documents: without filters everything, else what one of the filters matches. */
  predicate Documented(defs: seq<Option<TypeDescriptor>>, d: Option<TypeDescriptor>) {
    defs == [] || exists i :: 0 <= i < |defs| && DefMatches(defs[i], d)
  }

  /** A filter of a subscription is a split of a non-empty name. */
  predicate OfName(p: seq<Bytes>, name: Bytes) {
    name != [] && Split(name, '.') == p
  }

  ghost predicate Nameable(p: seq<Bytes>) {
    exists name :: OfName(p, name)
  }

  ghost predicate Named(ps: seq<seq<Bytes>>) {
    forall i :: 0 <= i < |ps| ==> Nameable(ps[i])
  }

  lemma NamedSnoc(ps: seq<seq<Bytes>>, name: Bytes)
    requires Named(ps) && name != []
    ensures Named(ps + [Split(name, '.')])
  {
    assert OfName(Split(name, '.'), name);
    assert Nameable(Split(name, '.'));
  }

  lemma {:induction false} FiltersNamed(defs: seq<Option<TypeDescriptor>>)
    ensures Named(Filters(defs).kindMatch) && Named(Filters(defs).typeMatch)
  {
    if defs != [] {
      var s, d := Filters(defs[..|defs| - 1]), defs[|defs| - 1];
      FiltersNamed(defs[..|defs| - 1]);
      if d.Some? {
        if d.value.kind != [] { NamedSnoc(s.kindMatch, d.value.kind); }
        if d.value.typ != [] { NamedSnoc(s.typeMatch, d.value.typ); }
      }
    }
  }

  lemma SomeMatching(ps: seq<seq<Bytes>>) returns (name: Bytes)
    requires Named(ps) && ps != []
    ensures name != [] && exists p :: p in ps && HasPrefix(Split(name, '.'), p)
  {
    assert Nameable(ps[0]);
    name :| OfName(ps[0], name);
    assert ps[0] in ps && HasPrefix(Split(name, '.'), ps[0]);
  }

  /** A filter on kinds alone matches nothing. */
  lemma KindOnlyMatchesNothing(s: Subscriber, d: Option<TypeDescriptor>)
    requires s.kindMatch != [] && s.typeMatch == []
    ensures !Match(s, d)
  {
  }

  function Blank(n: nat): (r: Bytes)
    ensures |r| == n && '.' !in r
  {
    seq(n, _ => 'x')
  }

  function Longest(ps: seq<seq<Bytes>>): (n: nat)
    ensures forall p :: p in ps && p != [] ==> |p[0]| <= n
  {
    if ps == [] then 0
    else
      var rest, p := Longest(ps[..|ps| - 1]), ps[|ps| - 1];
      assert forall q :: q in ps ==> q in ps[..|ps| - 1] || q == p;
      if p != [] && |p[0]| > rest then |p[0]| else rest
  }

  /** Some kind is matched by none of them. */
  lemma Unmatched(ps: seq<seq<Bytes>>) returns (name: Bytes)
    requires Named(ps)
    ensures forall p :: p in ps ==> !HasPrefix(Split(name, '.'), p)
  {
    name := Blank(Longest(ps) + 1);
    SplitHead(name, [], '.');
    assert Split(name, '.') == [name];
    forall p | p in ps ensures !HasPrefix([name], p) {
      var i :| 0 <= i < |ps| && ps[i] == p;
      assert Nameable(ps[i]);
      assert p != [] && |p[0]| <= Longest(ps);
    }
  }

  // ---------- When a subscription matches as documented ----------

  predicate NamesKind(defs: seq<Option<TypeDescriptor>>, i: int)
    requires 0 <= i < |defs|
  {
    KindOf(defs[i]) != []
  }

  predicate NamesType(defs: seq<Option<TypeDescriptor>>, i: int)
    requires 0 <= i < |defs|
  {
    TypeOf(defs[i]) != []
  }

  predicate SomeKind(defs: seq<Option<TypeDescriptor>>) {
    exists i :: 0 <= i < |defs| && NamesKind(defs, i)
  }

  predicate SomeType(defs: seq<Option<TypeDescriptor>>) {
    exists i :: 0 <= i < |defs| && NamesType(defs, i)
  }

  predicate KindCovered(defs: seq<Option<TypeDescriptor>>, kind: Bytes) {
    exists i :: 0 <= i < |defs| && NamesKind(defs, i) && Covers(KindOf(defs[i]), Some(kind))
  }

  predicate TypeCovered(defs: seq<Option<TypeDescriptor>>, typ: Bytes) {
    exists i :: 0 <= i < |defs| && NamesType(defs, i) && Covers(TypeOf(defs[i]), Some(typ))
  }

  lemma {:induction false} KindFilters(defs: seq<Option<TypeDescriptor>>, p: seq<Bytes>)
    ensures p in Filters(defs).kindMatch <==>
            exists i :: 0 <= i < |defs| && NamesKind(defs, i) && Split(KindOf(defs[i]), '.') == p
  {
    if defs != [] {
      var front, n := defs[..|defs| - 1], |defs| - 1;
      KindFilters(front, p);
      if i :| 0 <= i < |front| && NamesKind(front, i) && Split(KindOf(front[i]), '.') == p {
        assert NamesKind(defs, i);
      }
      if i :| 0 <= i < |defs| && NamesKind(defs, i) && Split(KindOf(defs[i]), '.') == p {
        assert i < n ==> NamesKind(front, i);
      }
      assert NamesKind(defs, n) <==> KindOf(defs[n]) != [];
    }
  }

  lemma {:induction false} TypeFilters(defs: seq<Option<TypeDescriptor>>, p: seq<Bytes>)
    ensures p in Filters(defs).typeMatch <==>
            exists i :: 0 <= i < |defs| && NamesType(defs, i) && Split(TypeOf(defs[i]), '.') == p
  {
    if defs != [] {
      var front, n := defs[..|defs| - 1], |defs| - 1;
      TypeFilters(front, p);
      if i :| 0 <= i < |front| && NamesType(front, i) && Split(TypeOf(front[i]), '.') == p {
        assert NamesType(defs, i);
      }
      if i :| 0 <= i < |defs| && NamesType(defs, i) && Split(TypeOf(defs[i]), '.') == p {
        assert i < n ==> NamesType(front, i);
      }
      assert NamesType(defs, n) <==> TypeOf(defs[n]) != [];
    }
  }

  lemma KindsOf(defs: seq<Option<TypeDescriptor>>)
    ensures Filters(defs).kindMatch != [] <==> SomeKind(defs)
  {
    var ps := Filters(defs).kindMatch;
    if ps != [] {
      KindFilters(defs, ps[0]);
    }
    if i :| 0 <= i < |defs| && NamesKind(defs, i) {
      KindFilters(defs, Split(KindOf(defs[i]), '.'));
    }
  }

  lemma TypesOf(defs: seq<Option<TypeDescriptor>>)
    ensures Filters(defs).typeMatch != [] <==> SomeType(defs)
  {
    var ps := Filters(defs).typeMatch;
    if ps != [] {
      TypeFilters(defs, ps[0]);
    }
    if i :| 0 <= i < |defs| && NamesType(defs, i) {
      TypeFilters(defs, Split(TypeOf(defs[i]), '.'));
    }
  }

  lemma KindCoveredIs(defs: seq<Option<TypeDescriptor>>, kind: Bytes)
    ensures KindCovered(defs, kind) <==>
            exists p :: p in Filters(defs).kindMatch && HasPrefix(Split(kind, '.'), p)
  {
    if i :| 0 <= i < |defs| && NamesKind(defs, i) && Covers(KindOf(defs[i]), Some(kind)) {
      KindFilters(defs, Split(KindOf(defs[i]), '.'));
      HasPrefixIs(kind, KindOf(defs[i]));
    }
    if p :| p in Filters(defs).kindMatch && HasPrefix(Split(kind, '.'), p) {
      KindFilters(defs, p);
      var i :| 0 <= i < |defs| && NamesKind(defs, i) && Split(KindOf(defs[i]), '.') == p;
      HasPrefixIs(kind, KindOf(defs[i]));
    }
  }

  lemma TypeCoveredIs(defs: seq<Option<TypeDescriptor>>, typ: Bytes)
    ensures TypeCovered(defs, typ) <==>
            exists p :: p in Filters(defs).typeMatch && HasPrefix(Split(typ, '.'), p)
  {
    if i :| 0 <= i < |defs| && NamesType(defs, i) && Covers(TypeOf(defs[i]), Some(typ)) {
      TypeFilters(defs, Split(TypeOf(defs[i]), '.'));
      HasPrefixIs(typ, TypeOf(defs[i]));
    }
    if p :| p in Filters(defs).typeMatch && HasPrefix(Split(typ, '.'), p) {
      TypeFilters(defs, p);
      var i :| 0 <= i < |defs| && NamesType(defs, i) && Split(TypeOf(defs[i]), '.') == p;
      HasPrefixIs(typ, TypeOf(defs[i]));
    }
  }

  /** The match of a subscription, in terms of its filters: kinds and types are pooled. */
  lemma MatchPooled(defs: seq<Option<TypeDescriptor>>, d: Option<TypeDescriptor>)
    ensures Match(Filters(defs), d) <==>
            || (!SomeKind(defs) && !SomeType(defs))
            || (d.Some? && (SomeKind(defs) ==> KindCovered(defs, d.value.kind)) && TypeCovered(defs, d.value.typ))
  {
    KindsOf(defs);
    TypesOf(defs);
    if d.Some? {
      KindCoveredIs(defs, d.value.kind);
      TypeCoveredIs(defs, d.value.typ);
    }
  }

  /** Every kind named goes with every type named: one of the filters matches both. */
  predicate Crossed(defs: seq<Option<TypeDescriptor>>) {
    forall i, j {:trigger NamesKind(defs, i), NamesType(defs, j)} :: 0 <= i < |defs| && 0 <= j < |defs| ==>
      Documented(defs, Some(TypeDescriptor(KindOf(defs[i]), TypeOf(defs[j]))))
  }

  predicate AllKinds(defs: seq<Option<TypeDescriptor>>) {
    forall i :: 0 <= i < |defs| ==> NamesKind(defs, i)
  }

  predicate AllTypes(defs: seq<Option<TypeDescriptor>>) {
    forall i :: 0 <= i < |defs| ==> NamesType(defs, i)
  }

  /** Pooling the filters does no harm. */
  predicate Poolable(defs: seq<Option<TypeDescriptor>>) {
    || (!SomeKind(defs) && (AllTypes(defs) || !SomeType(defs)))
    || (AllKinds(defs) && AllTypes(defs) && Crossed(defs))
  }

  /** A subscription matches as documented, for all objects. */
  ghost predicate AsDocumented(defs: seq<Option<TypeDescriptor>>) {
    forall d {:trigger Documented(defs, d)} :: Match(Filters(defs), d) <==> Documented(defs, d)
  }

  lemma CoversTransitive(filter: Bytes, middle: Bytes, name: Bytes)
    requires Covers(filter, Some(middle)) && Covers(middle, Some(name)) && middle != []
    ensures Covers(filter, Some(name))
  {
    if filter != [] && middle != filter && name != middle {
      assert filter + "." <= middle <= middle + "." <= name;
    }
  }

  lemma TypesOnly(defs: seq<Option<TypeDescriptor>>, d: Option<TypeDescriptor>)
    requires !SomeKind(defs) && AllTypes(defs) && defs != []
    ensures Match(Filters(defs), d) <==> Documented(defs, d)
  {
    MatchPooled(defs, d);
    assert NamesType(defs, 0);
    forall i | 0 <= i < |defs| ensures KindOf(defs[i]) == [] && NamesType(defs, i) {
      assert !NamesKind(defs, i);
    }
  }

  lemma NoNames(defs: seq<Option<TypeDescriptor>>, d: Option<TypeDescriptor>)
    requires !SomeKind(defs) && !SomeType(defs)
    ensures Match(Filters(defs), d) && Documented(defs, d)
  {
    MatchPooled(defs, d);
    if defs != [] {
      assert !NamesKind(defs, 0) && !NamesType(defs, 0);
      assert DefMatches(defs[0], d);
    }
  }

  /** A kind and a type covered separately are covered by one filter. */
  lemma CrossedCovers(defs: seq<Option<TypeDescriptor>>, d: TypeDescriptor)
    requires AllKinds(defs) && AllTypes(defs) && Crossed(defs) && KindCovered(defs, d.kind) && TypeCovered(defs, d.typ)
    ensures Documented(defs, Some(d))
  {
    var i :| 0 <= i < |defs| && NamesKind(defs, i) && Covers(KindOf(defs[i]), Some(d.kind));
    var j :| 0 <= j < |defs| && NamesType(defs, j) && Covers(TypeOf(defs[j]), Some(d.typ));
    var both := TypeDescriptor(KindOf(defs[i]), TypeOf(defs[j]));
    assert Documented(defs, Some(both));
    var l :| 0 <= l < |defs| && DefMatches(defs[l], Some(both));
    CoversTransitive(KindOf(defs[l]), KindOf(defs[i]), d.kind);
    CoversTransitive(TypeOf(defs[l]), TypeOf(defs[j]), d.typ);
    assert DefMatches(defs[l], Some(d));
  }

  lemma KindsAndTypes(defs: seq<Option<TypeDescriptor>>, d: Option<TypeDescriptor>)
    requires AllKinds(defs) && AllTypes(defs) && Crossed(defs) && defs != []
    ensures Match(Filters(defs), d) <==> Documented(defs, d)
  {
    MatchPooled(defs, d);
    assert NamesKind(defs, 0) && NamesType(defs, 0);
    if Match(Filters(defs), d) {
      CrossedCovers(defs, d.value);
    }
    if i :| 0 <= i < |defs| && DefMatches(defs[i], d) {
      assert NamesKind(defs, i) && NamesType(defs, i);
    }
  }

  /** A kind none of the filters names, or a type. */
  lemma Uncovered(defs: seq<Option<TypeDescriptor>>) returns (kind: Bytes, typ: Bytes)
    ensures !KindCovered(defs, kind) && !TypeCovered(defs, typ)
  {
    FiltersNamed(defs);
    kind := Unmatched(Filters(defs).kindMatch);
    typ := Unmatched(Filters(defs).typeMatch);
    KindCoveredIs(defs, kind);
    TypeCoveredIs(defs, typ);
  }

  /** A filter without a type, where the subscription names some kind or type: an object of another type is missed. */
  lemma TypelessMisses(defs: seq<Option<TypeDescriptor>>, l: int) returns (d: TypeDescriptor)
    requires 0 <= l < |defs| && !NamesType(defs, l) && (SomeKind(defs) || SomeType(defs))
    ensures Documented(defs, Some(d)) && !Match(Filters(defs), Some(d))
  {
    var _, typ := Uncovered(defs);
    d := TypeDescriptor(KindOf(defs[l]), typ);
    assert DefMatches(defs[l], Some(d));
    MatchPooled(defs, Some(d));
  }

  /** A filter without a kind, where the subscription names some: an object of another kind is missed. */
  lemma KindlessMisses(defs: seq<Option<TypeDescriptor>>, l: int) returns (d: TypeDescriptor)
    requires 0 <= l < |defs| && !NamesKind(defs, l) && SomeKind(defs)
    ensures Documented(defs, Some(d)) && !Match(Filters(defs), Some(d))
  {
    var kind, _ := Uncovered(defs);
    d := TypeDescriptor(kind, TypeOf(defs[l]));
    assert DefMatches(defs[l], Some(d));
    MatchPooled(defs, Some(d));
  }

  lemma CrossedMatches(defs: seq<Option<TypeDescriptor>>, i: int, j: int)
    requires 0 <= i < |defs| && 0 <= j < |defs| && NamesKind(defs, i) && NamesType(defs, j)
    ensures Match(Filters(defs), Some(TypeDescriptor(KindOf(defs[i]), TypeOf(defs[j]))))
  {
    MatchPooled(defs, Some(TypeDescriptor(KindOf(defs[i]), TypeOf(defs[j]))));
    assert Covers(KindOf(defs[i]), Some(KindOf(defs[i]))) && Covers(TypeOf(defs[j]), Some(TypeOf(defs[j])));
  }

  lemma AsDocumentedTypes(defs: seq<Option<TypeDescriptor>>)
    requires AsDocumented(defs)
    ensures AllTypes(defs) || (!SomeKind(defs) && !SomeType(defs))
  {
    if l :| 0 <= l < |defs| && !NamesType(defs, l) {
      if SomeKind(defs) || SomeType(defs) {
        var d := TypelessMisses(defs, l);
        assert false;
      }
    }
  }

  lemma AsDocumentedKinds(defs: seq<Option<TypeDescriptor>>)
    requires AsDocumented(defs)
    ensures AllKinds(defs) || !SomeKind(defs)
  {
    if l :| 0 <= l < |defs| && !NamesKind(defs, l) {
      if SomeKind(defs) {
        var d := KindlessMisses(defs, l);
        assert false;
      }
    }
  }

  lemma DocumentedPoolable(defs: seq<Option<TypeDescriptor>>)
    requires AsDocumented(defs)
    ensures Poolable(defs)
  {
    AsDocumentedTypes(defs);
    AsDocumentedKinds(defs);
    if SomeKind(defs) {
      forall i, j | 0 <= i < |defs| && 0 <= j < |defs|
        ensures Documented(defs, Some(TypeDescriptor(KindOf(defs[i]), TypeOf(defs[j]))))
      {
        assert NamesKind(defs, i) && NamesType(defs, j);
        CrossedMatches(defs, i, j);
      }
    }
  }

  lemma PoolableDocumented(defs: seq<Option<TypeDescriptor>>)
    requires Poolable(defs)
    ensures AsDocumented(defs)
  {
    forall d ensures Match(Filters(defs), d) <==> Documented(defs, d) {
      if !SomeKind(defs) && !SomeType(defs) {
        NoNames(defs, d);
      } else if !SomeKind(defs) {
        TypesOnly(defs, d);
      } else {
        KindsAndTypes(defs, d);
      }
    }
  }

  /**
   A subscription matches as the interface documents, for all objects, if and only if no
   filter names a kind and all or none name a type, or every filter names both and every
   kind named goes with every type named.
   */
  lemma DocumentedIff(defs: seq<Option<TypeDescriptor>>)
    ensures AsDocumented(defs) <==> Poolable(defs)
  {
    if AsDocumented(defs) {
      DocumentedPoolable(defs);
    }
    if Poolable(defs) {
      PoolableDocumented(defs);
    }
  }

  /** Two filters, one on a kind and one on a type: the object of that kind and another type is missed. */
  lemma TwoFiltersPooled(kind: Bytes, typ: Bytes) returns (d: TypeDescriptor)
    requires kind != [] && typ != []
    ensures var defs := [Some(TypeDescriptor(kind, [])), Some(TypeDescriptor([], typ))];
            d.kind == kind && Documented(defs, Some(d)) && !Match(Filters(defs), Some(d))
  {
    var defs := [Some(TypeDescriptor(kind, [])), Some(TypeDescriptor([], typ))];
    assert NamesKind(defs, 0) && !NamesType(defs, 0);
    var _, other := Uncovered(defs);
    d := TypeDescriptor(kind, other);
    assert DefMatches(defs[0], Some(d));
    MatchPooled(defs, Some(d));
  }

  // ---------- Which subscribers rebuild the inventory ----------

  /** A subscriber holds exactly the matching resources after every run. */
  ghost predicate Reproduces(hash: Hash, s: Subscriber) {
    forall before, after :: ReproducesRun(hash, s, before, after)
  }

  ghost predicate ReproducesRun(hash: Hash, s: Subscriber, before: seq<Call>, after: seq<Call>) {
    Fold(s, Restrict(s, Resources(Run(hash, before))), Matching(s, EventsFrom(hash, Run(hash, before), after)))
    == Restrict(s, Resources(Run(hash, before + after)))
  }

  lemma NothingFolds(s: Subscriber, m: Inventory, n: Inventory, es: seq<Event>)
    requires s.kindMatch != [] && s.typeMatch == []
    ensures Fold(s, Restrict(s, m), Matching(s, es)) == Restrict(s, n)
  {
    NothingMatching(s, es);
    assert Restrict(s, m) == map[] && Restrict(s, n) == map[];
  }

  lemma MatchesNothing(hash: Hash, s: Subscriber, before: seq<Call>, after: seq<Call>)
    requires s.kindMatch != [] && s.typeMatch == []
    ensures ReproducesRun(hash, s, before, after)
  {
    NothingFolds(s, Resources(Run(hash, before)), Resources(Run(hash, before + after)),
                 EventsFrom(hash, Run(hash, before), after));
  }

  lemma {:induction false} NothingMatching(s: Subscriber, es: seq<Event>)
    requires s.kindMatch != [] && s.typeMatch == []
    ensures Matching(s, es) == []
  {
    if es != [] {
      NothingMatching(s, es[..|es| - 1]);
    }
  }

  function Bare(kind: Bytes, typ: Bytes): Resource {
    Resource(Some(TypeDescriptor(kind, typ)), [], None, [], None, None, None)
  }

  function ChangeKind(kind: Bytes, other: Bytes, typ: Bytes): seq<Call> {
    [Call(OpAddResource(Bare(kind, typ)), 0), Call(OpUpdateResource(Bare(other, typ)), 0)]
  }

  /** What the two calls store and send. */
  lemma ChangeKindRun(hash: Hash, kind: Bytes, other: Bytes, typ: Bytes) returns (k: Bytes, w: Resource, v: Resource)
    requires typ != []
    ensures w.descriptor == Some(TypeDescriptor(kind, typ)) && v.descriptor == Some(TypeDescriptor(other, typ))
    ensures k == Key(Ref(w)) && Run(hash, ChangeKind(kind, other, typ)) == map[ResKey(k) := ResVal(v)]
    ensures EventsFrom(hash, map[], ChangeKind(kind, other, typ)) ==
            [Event(ADD, w.descriptor, OfResource(w)), Event(UPDATE, v.descriptor, OfResource(v))]
  {
    var calls := ChangeKind(kind, other, typ);
    w := Bare(kind, typ).(createdAt := Some(0), updatedAt := Some(0));
    v := Bare(other, typ).(createdAt := Some(0), updatedAt := Some(0));
    k := Key(Ref(w));
    assert Key(Ref(v)) == k;
    assert calls[..1] == [calls[0]] && [calls[0]][..0] == [];
    var d := map[ResKey(k) := ResVal(w)];
    assert Step(hash, map[], calls[0]) == d;
    assert RunFrom(hash, map[], []) == map[] && RunFrom(hash, map[], calls[..1]) == d;
    assert Step(hash, d, calls[1]) == map[ResKey(k) := ResVal(v)];
    assert EventsFrom(hash, map[], calls[..1]) == [] + EventsOf(hash, map[], calls[0]);
  }

  lemma FoldTwo(s: Subscriber, m: Inventory, e: Event, f: Event)
    ensures Fold(s, m, [e, f]) == Fold(s, Fold(s, m, [e]), [f])
  {
    assert [e] + [f] == [e, f];
    FoldConcat(s, m, [e], [f]);
  }

  lemma FoldUnseen(s: Subscriber, m: Inventory, e: Event, f: Event)
    requires Match(s, e.descriptor) && !Match(s, f.descriptor)
    ensures Fold(s, m, Matching(s, [e, f])) == Apply(m, e)
  {
    FoldMatching(s, m, [e, f]);
    FoldTwo(s, m, e, f);
    FoldOne(s, m, e);
    FoldOne(s, Apply(m, e), f);
  }

  lemma LeftBehind(s: Subscriber, k: Bytes, w: Resource, v: Resource)
    requires k == Key(Ref(w)) && Match(s, w.descriptor) && !Match(s, v.descriptor)
    ensures Fold(s, Restrict(s, Resources(map[])),
                 Matching(s, [Event(ADD, w.descriptor, OfResource(w)), Event(UPDATE, v.descriptor, OfResource(v))]))
            != Restrict(s, Resources(map[ResKey(k) := ResVal(v)]))
  {
    var e, start := Event(ADD, w.descriptor, OfResource(w)), Restrict(s, Resources(map[]));
    FoldUnseen(s, start, e, Event(UPDATE, v.descriptor, OfResource(v)));
    assert k in Apply(start, e);
    OnlyResource(s, k, v);
  }

  lemma OnlyResource(s: Subscriber, k: Bytes, v: Resource)
    requires !Match(s, v.descriptor)
    ensures k !in Restrict(s, Resources(map[ResKey(k) := ResVal(v)]))
  {
    var m := Resources(map[ResKey(k) := ResVal(v)]);
    assert k in m ==> m[k] == v;
  }

  /** An update that takes a resource out of the filtered kinds is not seen. */
  lemma KindChangeUnseen(hash: Hash, s: Subscriber, kind: Bytes, other: Bytes, typ: Bytes)
    requires typ != [] && Match(s, Some(TypeDescriptor(kind, typ))) && !Match(s, Some(TypeDescriptor(other, typ)))
    ensures !ReproducesRun(hash, s, [], ChangeKind(kind, other, typ))
  {
    var k, w, v := ChangeKindRun(hash, kind, other, typ);
    assert [] + ChangeKind(kind, other, typ) == ChangeKind(kind, other, typ) && Run(hash, []) == map[];
    LeftBehind(s, k, w, v);
  }

  /**
   A subscription reproduces the store's matching resources over every run if and only if
   it names no kind, or no type, in which case it matches nothing: with both, an update
   that changes a resource's kind leaves it behind, besides the deletions it does not see.
   */
  lemma ReproducesIff(hash: Hash, defs: seq<Option<TypeDescriptor>>)
    ensures Reproduces(hash, Filters(defs)) <==> !SomeKind(defs) || !SomeType(defs)
  {
    var s := Filters(defs);
    KindsOf(defs);
    TypesOf(defs);
    if s.kindMatch == [] {
      forall before, after ensures ReproducesRun(hash, s, before, after) {
        SubscriberReproducesStore(hash, s, before, after);
      }
    } else if s.typeMatch == [] {
      forall before, after ensures ReproducesRun(hash, s, before, after) {
        MatchesNothing(hash, s, before, after);
      }
    } else {
      FiltersNamed(defs);
      var kind := SomeMatching(s.kindMatch);
      var typ := SomeMatching(s.typeMatch);
      var other := Unmatched(s.kindMatch);
      KindChangeUnseen(hash, s, kind, other, typ);
    }
  }

  /**
   A subscription on kinds and types sees the deletion of a resource it matches exactly
   when one of its kinds is "Resource": the tombstone carries that short name, not the
   resource's own kind.
   */
  lemma KindFilterSeesDeletes(defs: seq<Option<TypeDescriptor>>, r: Resource, now: int)
    requires SomeKind(defs) && Match(Filters(defs), r.descriptor)
    ensures Match(Filters(defs), Tombstone(Ref(r), now).descriptor)
            <==> exists i :: 0 <= i < |defs| && KindOf(defs[i]) == "Resource"
  {
    MatchPooled(defs, r.descriptor);
    TombstoneMatches(defs, Ref(r), now);
  }

  lemma TombstoneMatches(defs: seq<Option<TypeDescriptor>>, ref: ResourceRef, now: int)
    requires SomeKind(defs) && TypeCovered(defs, ref.typeUrl)
    ensures Match(Filters(defs), Tombstone(ref, now).descriptor)
            <==> exists i :: 0 <= i < |defs| && KindOf(defs[i]) == "Resource"
  {
    MatchPooled(defs, Tombstone(ref, now).descriptor);
    ResourceCovered(defs, "Resource");
  }

  /** A name without a dot is covered by itself only. */
  lemma ResourceCovered(defs: seq<Option<TypeDescriptor>>, name: Bytes)
    requires '.' !in name && name != []
    ensures KindCovered(defs, name) <==> exists i :: 0 <= i < |defs| && KindOf(defs[i]) == name
  {
    if i :| 0 <= i < |defs| && NamesKind(defs, i) && Covers(KindOf(defs[i]), Some(name)) {
      NothingAbove(name, KindOf(defs[i]));
    }
    if i :| 0 <= i < |defs| && KindOf(defs[i]) == name {
      assert NamesKind(defs, i) && Covers(KindOf(defs[i]), Some(name));
    }
  }

  lemma NothingAbove(name: Bytes, filter: Bytes)
    requires '.' !in name
    ensures Below(name, filter) <==> name == filter
  {
    assert (filter + ".")[|filter|] == '.';
  }

  // ---------- Creation times ----------

  /** The key is present after every call past call `i`. */
  ghost predicate PresentSince(hash: Hash, calls: seq<Call>, i: nat, k: Bytes) {
    forall j :: i < j <= |calls| ==> ResKey(k) in Run(hash, calls[..j])
  }

  lemma PresentSnoc(hash: Hash, calls: seq<Call>, i: nat, k: Bytes)
    requires calls != [] && ResKey(k) in Run(hash, calls)
    requires PresentSince(hash, calls[..|calls| - 1], i, k)
    ensures PresentSince(hash, calls, i, k)
  {
    forall j | i < j <= |calls| ensures ResKey(k) in Run(hash, calls[..j]) {
      if j == |calls| {
        assert calls[..j] == calls;
      } else {
        assert calls[..j] == calls[..|calls| - 1][..j];
      }
    }
  }

  /**
   The creation time of a stored resource is the time of the write that made its key
   present for the last time: absent just before call `i`, present ever since.
   */
  lemma {:induction false} CreatedAtFirstWrite(hash: Hash, calls: seq<Call>, k: Bytes) returns (i: nat)
    requires ResKey(k) in Run(hash, calls)
    ensures i < |calls| && ResKey(k) !in Run(hash, calls[..i]) && PresentSince(hash, calls, i, k)
    ensures var v := Run(hash, calls)[ResKey(k)];
            v.ResVal? && v.resource.createdAt == Some(calls[i].now)
  {
    var front, c := calls[..|calls| - 1], calls[|calls| - 1];
    RunFromTyped(hash, map[], front);
    CreatedAtStep(hash, Run(hash, front), c, k);
    if ResKey(k) in Run(hash, front) {
      i := CreatedAtFirstWrite(hash, front, k);
      assert calls[..i] == front[..i];
    } else {
      i := |front|;
    }
    PresentSnoc(hash, calls, i, k);
  }

  lemma CreatedAtStep(hash: Hash, db: Db, c: Call, k: Bytes)
    requires Typed(db) && ResKey(k) in Step(hash, db, c)
    ensures var v := Step(hash, db, c)[ResKey(k)];
            v.ResVal? && v.resource.createdAt ==
              if ResKey(k) in db then db[ResKey(k)].resource.createdAt else Some(c.now)
  {
    if Attempt(hash, db, c).Some? && c.op.OpAddRelationships? {
      AddAllResources(hash, db, c.op.rels);
      assert k in Resources(AddAll(hash, db, c.op.rels));
      assert k in Resources(db);
    }
  }

  // ---------- What is stored under a key ----------

  /** The call writes a resource under the key. */
  predicate WritesTo(c: Call, k: Bytes) {
    (c.op.OpAddResource? || c.op.OpUpdateResource?) && EncodeResourceKey(Some(Ref(c.op.r))) == Some(k)
  }

  predicate Removes(c: Call, k: Bytes) {
    c.op.OpDeleteResource? && EncodeResourceKey(c.op.ref) == Some(k)
  }

  /** Call `i` writes the key, and is not an addition refused because the key is present. */
  ghost predicate Succeeds(hash: Hash, calls: seq<Call>, i: int, k: Bytes)
    requires 0 <= i < |calls|
  {
    WritesTo(calls[i], k) && (calls[i].op.OpAddResource? ==> ResKey(k) !in Run(hash, calls[..i]))
  }

  /** No call from `i` on deletes the key. */
  predicate Unremoved(calls: seq<Call>, i: int, k: Bytes)
    requires 0 <= i
  {
    forall j :: i <= j < |calls| ==> !Removes(calls[j], k)
  }

  ghost predicate Unwritten(hash: Hash, calls: seq<Call>, i: int, k: Bytes)
    requires 0 <= i
  {
    forall j :: i <= j < |calls| ==> !Succeeds(hash, calls, j, k)
  }

  predicate WrittenSince(calls: seq<Call>, k: Bytes) {
    exists i :: 0 <= i < |calls| && WritesTo(calls[i], k) && Unremoved(calls, i, k)
  }

  lemma AddAllSameAt(hash: Hash, db: Db, rels: seq<Relationship>, k: Bytes)
    requires Typed(db) && AllWellFormed(rels)
    ensures SameAt(AddAll(hash, db, rels), db, k)
  {
    var dbs := AddAllChain(hash, db, rels);
    ChainSameAt(hash, dbs, rels, |rels|, k);
  }

  /** A call that neither writes nor deletes the key, or is refused, leaves it alone. */
  lemma StepSameAt(hash: Hash, db: Db, c: Call, k: Bytes)
    requires Typed(db) && !Removes(c, k) && (WritesTo(c, k) ==> c.op.OpAddResource? && ResKey(k) in db)
    ensures SameAt(Step(hash, db, c), db, k)
  {
    if Attempt(hash, db, c).Some? && c.op.OpAddRelationships? {
      AddAllSameAt(hash, db, c.op.rels, k);
    }
  }

  /** What a write stores: its argument but for the creation time, with the time of the call. */
  lemma StepWrites(hash: Hash, db: Db, c: Call, k: Bytes)
    requires WritesTo(c, k) && (c.op.OpAddResource? ==> ResKey(k) !in db)
    ensures var d := Step(hash, db, c);
            && ResKey(k) in d && d[ResKey(k)].ResVal?
            && d[ResKey(k)].resource ==
               c.op.r.(createdAt := d[ResKey(k)].resource.createdAt, updatedAt := Some(c.now))
  {
  }

  lemma StepPresent(hash: Hash, db: Db, c: Call, k: Bytes)
    requires Typed(db)
    ensures ResKey(k) in Step(hash, db, c) <==> WritesTo(c, k) || (ResKey(k) in db && !Removes(c, k))
  {
    if WritesTo(c, k) && (c.op.OpAddResource? ==> ResKey(k) !in db) {
      StepWrites(hash, db, c, k);
    } else if !Removes(c, k) {
      StepSameAt(hash, db, c, k);
    }
  }

  lemma UnremovedSnoc(calls: seq<Call>, i: int, k: Bytes)
    requires 0 <= i < |calls|
    ensures Unremoved(calls, i, k) <==> Unremoved(calls[..|calls| - 1], i, k) && !Removes(calls[|calls| - 1], k)
  {
    var front := calls[..|calls| - 1];
    assert forall j :: 0 <= j < |front| ==> front[j] == calls[j];
  }

  lemma WrittenSnoc(calls: seq<Call>, k: Bytes)
    requires calls != []
    ensures var front, c := calls[..|calls| - 1], calls[|calls| - 1];
            WrittenSince(calls, k) <==> WritesTo(c, k) || (WrittenSince(front, k) && !Removes(c, k))
  {
    var front, c := calls[..|calls| - 1], calls[|calls| - 1];
    forall i | 0 <= i < |calls| ensures Unremoved(calls, i, k) <==> Unremoved(front, i, k) && !Removes(c, k) {
      UnremovedSnoc(calls, i, k);
    }
    if WritesTo(c, k) {
      assert Unremoved(calls, |front|, k);
    }
    assert forall i :: 0 <= i < |front| ==> front[i] == calls[i];
  }

  /** After every run a resource is stored if and only if it was written since it was last deleted. */
  lemma {:induction false} PresentIff(hash: Hash, calls: seq<Call>, k: Bytes)
    ensures ResKey(k) in Run(hash, calls) <==> WrittenSince(calls, k)
    decreases |calls|
  {
    if calls != [] {
      var front := calls[..|calls| - 1];
      PresentIff(hash, front, k);
      RunFromTyped(hash, map[], front);
      StepPresent(hash, Run(hash, front), calls[|calls| - 1], k);
      WrittenSnoc(calls, k);
    }
  }

  lemma UnwrittenSnoc(hash: Hash, calls: seq<Call>, i: int, k: Bytes)
    requires 0 <= i < |calls| && Unwritten(hash, calls[..|calls| - 1], i, k) && !Succeeds(hash, calls, |calls| - 1, k)
    ensures Unwritten(hash, calls, i, k)
  {
    var front := calls[..|calls| - 1];
    forall j | i <= j < |calls| ensures !Succeeds(hash, calls, j, k) {
      if j < |front| {
        assert front[..j] == calls[..j];
        assert !Succeeds(hash, front, j, k);
      }
    }
  }

  /** Call `i` was the last successful write of the key, which was not deleted since. */
  ghost predicate LastWrite(hash: Hash, calls: seq<Call>, i: int, k: Bytes) {
    && 0 <= i < |calls| && Succeeds(hash, calls, i, k)
    && Unwritten(hash, calls, i + 1, k) && Unremoved(calls, i + 1, k)
  }

  lemma LastWriteSnoc(hash: Hash, calls: seq<Call>, i: int, k: Bytes)
    requires calls != [] && LastWrite(hash, calls[..|calls| - 1], i, k)
    requires !Succeeds(hash, calls, |calls| - 1, k) && !Removes(calls[|calls| - 1], k)
    ensures LastWrite(hash, calls, i, k)
  {
    assert calls[..|calls| - 1][..i] == calls[..i];
    UnwrittenSnoc(hash, calls, i + 1, k);
    UnremovedSnoc(calls, i + 1, k);
  }

  /** What was stored before the last call, unless that wrote it. */
  lemma KeptByLast(hash: Hash, calls: seq<Call>, k: Bytes)
    requires ResKey(k) in Run(hash, calls) && calls != [] && !Succeeds(hash, calls, |calls| - 1, k)
    ensures !Removes(calls[|calls| - 1], k) && SameAt(Run(hash, calls), Run(hash, calls[..|calls| - 1]), k)
  {
    var front, c := calls[..|calls| - 1], calls[|calls| - 1];
    RunFromTyped(hash, map[], front);
    StepPresent(hash, Run(hash, front), c, k);
    StepSameAt(hash, Run(hash, front), c, k);
  }

  predicate StoredFrom(v: Value, c: Call) {
    && v.ResVal? && (c.op.OpAddResource? || c.op.OpUpdateResource?)
    && v.resource == c.op.r.(createdAt := v.resource.createdAt, updatedAt := Some(c.now))
  }

  /**
   After every run a stored resource is the argument of the last successful write of its
   key, since which the key was not deleted, in all but the creation time.
   */
  lemma {:induction false} StoredIsLastWritten(hash: Hash, calls: seq<Call>, k: Bytes) returns (i: nat)
    requires ResKey(k) in Run(hash, calls)
    ensures LastWrite(hash, calls, i, k) && StoredFrom(Run(hash, calls)[ResKey(k)], calls[i])
  {
    var last := |calls| - 1;
    if Succeeds(hash, calls, last, k) {
      i := last;
      StepWrites(hash, Run(hash, calls[..last]), calls[last], k);
    } else {
      KeptByLast(hash, calls, k);
      i := StoredIsLastWritten(hash, calls[..last], k);
      LastWriteSnoc(hash, calls, i, k);
    }
  }
}

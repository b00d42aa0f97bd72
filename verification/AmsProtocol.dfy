/**
 The remote configuration loader as a protocol: what receiving an object and ticking do
 to the cache, the expiry heap and the subscribers, over whole runs
 (internal/config/ams.go).  A tick is one step here: in the code it releases the heap's
 lock before taking the cache's.
 */
module AmsProtocol {
  import opened Bytes
  import opened ConfigCache
  import opened TtlHeap

  /** `ttlHeapIdx` is the copy of the node's place taken when it was pushed; -1 is no node. */
  datatype Entry = Entry(instance: Instance, ttlHeapIdx: int)

  /**
   How a cache entry reaches its heap node: through the copied place, as the code does,
   or through the place the node itself keeps up to date.
   */
  datatype Handle = Copied | Live

  /**
   `items` is what is at every place of the heap and `expiry` the same as a map.
   `deadline` is the latest accepted expiry time of every key whose latest accepted
   object had one; the code does not keep it.
   */
  datatype State = State(cache: map<Bytes, Entry>, items: seq<Item>, expiry: Expiry, sent: seq<Instance>,
                         deadline: Expiry)

  const INITIAL := State(map[], [], map[], [], map[])

  function Instances(cache: map<Bytes, Entry>): Cache {
    map k | k in cache :: cache[k].instance
  }

  function Cached(cache: map<Bytes, Entry>, k: Bytes): Option<Instance> {
    if k in cache then Some(cache[k].instance) else None
  }

  function VerdictFor(rules: Rules, cache: map<Bytes, Entry>, obj: Option<Object>): Verdict {
    rules.judge(Cached(cache, rules.key(obj)), obj)
  }

  function Duration(obj: Option<Object>): int {
    if obj.None? || obj.value.ttl.None? then 0 else obj.value.ttl.value
  }

  /** What the heap's operations give: each key at one place, in heap order. */
  ghost predicate Heaped(s: State) {
    Maps(s.items, s.expiry) && HeapOrder(s.items, |s.items|)
  }

  /** And only cached keys. */
  ghost predicate WellFormed(s: State) {
    Heaped(s) && s.expiry.Keys <= s.cache.Keys
  }

  // ---------- Whose node is touched ----------

  /** The copied place lies outside the heap, and using it stops the process. */
  predicate OutOfRange(h: Handle, s: State, k: Bytes) {
    h.Copied? && k in s.cache && s.cache[k].ttlHeapIdx >= |s.items|
  }

  /** The key whose node an accepted object for `k` sets, moves or removes. */
  function Target(h: Handle, s: State, k: Bytes, d: int): Option<Bytes> {
    if k !in s.cache then (if d > 0 then Some(k) else None)
    else if h.Live? then (if k in s.expiry then Some(k) else None)
    else if 0 <= s.cache[k].ttlHeapIdx < |s.items| then Some(s.items[s.cache[k].ttlHeapIdx].key)
    else None
  }

  /** What an accepted object with time-to-live `d` does to the node of `target`. */
  function NextExpiry(expiry: Expiry, target: Option<Bytes>, d: int, now: int): Expiry {
    if target.None? then expiry
    else if d > 0 then expiry[target.value := now + d]
    else expiry - {target.value}
  }

  function NextDeadline(deadline: Expiry, k: Bytes, d: int, now: int): Expiry {
    if d > 0 then deadline[k := now + d] else deadline - {k}
  }

  // ---------- Steps ----------

  /** The copied place of `k` after an accepted object: only a first push reads it from the node. */
  predicate IndexAfter(a: State, b: State, k: Bytes, d: int)
    requires k in b.cache
  {
    var i := b.cache[k].ttlHeapIdx;
    if k !in a.cache then
      if d > 0 then 0 <= i < |b.items| && b.items[i].key == k else i == -1
    else if d <= 0 && a.cache[k].ttlHeapIdx >= 0 then i == -1
    else i == a.cache[k].ttlHeapIdx
  }

  /** `processConfig` for an object it accepts. */
  ghost predicate Accepted(h: Handle, a: State, k: Bytes, instance: Instance, d: int, now: int, b: State) {
    && k in b.cache && b.cache == a.cache[k := b.cache[k]] && b.cache[k].instance == instance
    && (h.Copied? ==> IndexAfter(a, b, k, d))
    && b.expiry == NextExpiry(a.expiry, Target(h, a, k, d), d, now)
    && b.deadline == NextDeadline(a.deadline, k, d, now)
  }

  lemma AcceptedNew(a: State, k: Bytes, instance: Instance, d: int, now: int, index: int, items: seq<Item>)
    requires k !in a.cache && if d > 0 then 0 <= index < |items| && items[index].key == k else index == -1
    ensures var expiry := if d > 0 then a.expiry[k := now + d] else a.expiry;
            Accepted(Copied, a, k, instance, d, now,
                     State(a.cache[k := Entry(instance, index)], items, expiry, a.sent,
                           NextDeadline(a.deadline, k, d, now)))
  {
  }

  /** One object in the receive loop: processed, then sent to the subscribers. */
  ghost predicate Received(h: Handle, rules: Rules, a: State, obj: Option<Object>, now: int, b: State) {
    var v, k := VerdictFor(rules, a.cache, obj), rules.key(obj);
    && b.sent == a.sent + [v.instance]
    && if v.accepted then !OutOfRange(h, a, k) && Heaped(b) && Accepted(h, a, k, v.instance, Duration(obj), now, b)
       else b == a.(sent := b.sent)
  }

  /** Processing the object stops the process. */
  predicate Panics(rules: Rules, a: State, obj: Option<Object>) {
    VerdictFor(rules, a.cache, obj).accepted && OutOfRange(Copied, a, rules.key(obj))
  }

  /** One tick: it pops the key at the root if its time has passed, and expires it if it is cached. */
  ghost predicate Ticked(a: State, now: int, expired: Option<Bytes>, b: State) {
    if a.items == [] || now <= a.items[0].at then expired == None && b == a
    else
      var k := a.items[0].key;
      && expired == Some(k) && Heaped(b)
      && b.cache == a.cache - {k} && b.expiry == a.expiry - {k} && b.deadline == a.deadline - {k}
      && b.sent == a.sent + if k in a.cache then [a.cache[k].instance.(expired := true)] else []
  }

  // ---------- The cache follows the fold of ConfigCache ----------

  lemma InstancesPut(a: map<Bytes, Entry>, k: Bytes, entry: Entry)
    ensures Instances(a[k := entry]) == Instances(a)[k := entry.instance]
  {
  }

  lemma InstancesWithout(a: map<Bytes, Entry>, k: Bytes)
    ensures Instances(a - {k}) == Instances(a) - {k}
  {
  }

  lemma VerdictForIs(parser: Parser, cache: map<Bytes, Entry>, obj: Option<Object>)
    ensures VerdictFor(RulesOf(parser), cache, obj) == VerdictOn(parser, Instances(cache), obj)
  {
    var k := KeyOf(parser, obj);
    assert Cached(cache, k) == Lookup(Instances(cache), k);
  }

  lemma ReceivedPut(h: Handle, rules: Rules, a: State, obj: Option<Object>, now: int, b: State)
    requires Received(h, rules, a, obj, now, b)
    ensures var v := VerdictFor(rules, a.cache, obj);
            Instances(b.cache) ==
              if v.accepted then Instances(a.cache)[rules.key(obj) := v.instance] else Instances(a.cache)
  {
    if VerdictFor(rules, a.cache, obj).accepted {
      InstancesPut(a.cache, rules.key(obj), b.cache[rules.key(obj)]);
    }
  }

  lemma ReceivedCache(h: Handle, parser: Parser, a: State, obj: Option<Object>, now: int, b: State)
    requires Received(h, RulesOf(parser), a, obj, now, b)
    ensures Instances(b.cache) == Next(parser, Instances(a.cache), Recv(obj))
  {
    ReceivedPut(h, RulesOf(parser), a, obj, now, b);
    VerdictForIs(parser, a.cache, obj);
  }

  lemma TickedCache(parser: Parser, a: State, now: int, k: Bytes, b: State)
    requires Ticked(a, now, Some(k), b)
    ensures Instances(b.cache) == Next(parser, Instances(a.cache), Expire(k))
  {
    InstancesWithout(a.cache, k);
  }

  lemma TickedEarliest(a: State, now: int, k: Bytes, b: State)
    requires Heaped(a) && Ticked(a, now, Some(k), b)
    ensures k in a.expiry && a.expiry[k] < now && forall j :: j in a.expiry ==> a.expiry[k] <= a.expiry[j]
  {
    RootIsEarliest(a.items, a.expiry);
  }

  // ---------- Heap keys stay cached ----------

  /** The node touched is one of the heap, or a new one for `k`. */
  lemma TargetInHeap(h: Handle, a: State, k: Bytes, d: int)
    requires Heaped(a)
    ensures var t := Target(h, a, k, d); t.Some? ==> t.value in a.expiry || (t.value == k && k !in a.cache && d > 0)
  {
    if k in a.cache && h.Copied? && 0 <= a.cache[k].ttlHeapIdx < |a.items| {
      assert IsEntry(a.items, a.expiry, a.cache[k].ttlHeapIdx);
    }
  }

  lemma AcceptedBacked(h: Handle, a: State, k: Bytes, instance: Instance, d: int, now: int, b: State)
    requires WellFormed(a) && Accepted(h, a, k, instance, d, now, b)
    ensures b.expiry.Keys <= b.cache.Keys
  {
    TargetInHeap(h, a, k, d);
  }

  lemma ReceivedWellFormed(h: Handle, rules: Rules, a: State, obj: Option<Object>, now: int, b: State)
    requires WellFormed(a) && Received(h, rules, a, obj, now, b)
    ensures WellFormed(b)
  {
    var v := VerdictFor(rules, a.cache, obj);
    if v.accepted {
      AcceptedBacked(h, a, rules.key(obj), v.instance, Duration(obj), now, b);
    }
  }

  lemma TickedWellFormed(a: State, now: int, expired: Option<Bytes>, b: State)
    requires WellFormed(a) && Ticked(a, now, expired, b)
    ensures WellFormed(b)
    ensures expired.Some? ==>
              expired.value in a.cache && b.sent == a.sent + [a.cache[expired.value].instance.(expired := true)]
  {
    if expired.Some? {
      assert IsEntry(a.items, a.expiry, 0);
    }
  }

  // ---------- Expiring on time ----------

  /** Every expiry time in the heap is the latest accepted one for its key. */
  predicate OnTime(expiry: Expiry, deadline: Expiry) {
    forall k :: k in expiry ==> k in deadline && expiry[k] == deadline[k]
  }

  /**
   Touching the node of `target` for an object of `k` does no harm: it is the node of
   `k`, or every time that is then out of date happens to be right.
   */
  predicate Harmless(expiry: Expiry, k: Bytes, target: Option<Bytes>, d: int, now: int) {
    || target == Some(k)
    || ((k in expiry ==> d > 0 && expiry[k] == now + d)
        && (target.Some? && d > 0 ==> target.value in expiry && expiry[target.value] == now + d))
  }

  lemma MapsOnTimeIff(expiry: Expiry, deadline: Expiry, k: Bytes, target: Option<Bytes>, d: int, now: int)
    requires OnTime(expiry, deadline) && (target.Some? ==> target.value in expiry || target.value == k)
    ensures OnTime(NextExpiry(expiry, target, d, now), NextDeadline(deadline, k, d, now))
            <==> Harmless(expiry, k, target, d, now)
  {
    var e, l := NextExpiry(expiry, target, d, now), NextDeadline(deadline, k, d, now);
    if !Harmless(expiry, k, target, d, now) {
      if k in expiry && !(d > 0 && expiry[k] == now + d) {
        assert k in e;
      } else {
        assert target.value in e && e[target.value] == now + d;
      }
    }
  }

  /** Accepting an object keeps the heap on time if and only if the node it touches is harmless. */
  lemma AcceptedOnTimeIff(h: Handle, a: State, k: Bytes, instance: Instance, d: int, now: int, b: State)
    requires Heaped(a) && OnTime(a.expiry, a.deadline) && Accepted(h, a, k, instance, d, now, b)
    ensures OnTime(b.expiry, b.deadline) <==> Harmless(a.expiry, k, Target(h, a, k, d), d, now)
  {
    TargetInHeap(h, a, k, d);
    MapsOnTimeIff(a.expiry, a.deadline, k, Target(h, a, k, d), d, now);
  }

  lemma LiveIsHarmless(a: State, k: Bytes, d: int, now: int)
    requires WellFormed(a)
    ensures Harmless(a.expiry, k, Target(Live, a, k, d), d, now)
  {
  }

  lemma TickedOnTime(a: State, now: int, expired: Option<Bytes>, b: State)
    requires Heaped(a) && OnTime(a.expiry, a.deadline) && Ticked(a, now, expired, b)
    ensures OnTime(b.expiry, b.deadline)
    ensures expired.Some? ==> expired.value in a.deadline && a.deadline[expired.value] < now
  {
    if expired.Some? {
      assert IsEntry(a.items, a.expiry, 0);
    }
  }

  /**
   What an accepted object does to the times: its own key gets the new time, or loses its
   node, if and only if the node touched is its own or already was as asked; and another
   key is left alone if and only if the node touched is not its own, or already had that
   time.
   */
  lemma TargetExact(h: Handle, a: State, k: Bytes, instance: Instance, d: int, now: int, b: State)
    requires Heaped(a) && Accepted(h, a, k, instance, d, now, b)
    ensures d > 0 ==>
              (k in b.expiry && b.expiry[k] == now + d
               <==> Target(h, a, k, d) == Some(k) || (k in a.expiry && a.expiry[k] == now + d))
    ensures d <= 0 ==> (k !in b.expiry <==> Target(h, a, k, d) == Some(k) || k !in a.expiry)
    ensures forall j :: j in a.expiry && j != k ==>
              (j in b.expiry && b.expiry[j] == a.expiry[j]
               <==> Target(h, a, k, d) != Some(j) || (d > 0 && a.expiry[j] == now + d))
  {
  }

  // ---------- Whole runs ----------

  datatype Event = Receive(obj: Option<Object>) | Tick(expired: Option<Bytes>)

  ghost predicate Happens(h: Handle, rules: Rules, a: State, e: Event, now: int, b: State) {
    match e
    case Receive(obj) => Received(h, rules, a, obj, now, b)
    case Tick(expired) => Ticked(a, now, expired, b)
  }

  /** `trace[n]` is the state before event `n`, which happens at `times[n]`. */
  ghost predicate IsRun(h: Handle, rules: Rules, trace: seq<State>, events: seq<Event>, times: seq<int>) {
    && |trace| == |events| + 1 && |times| == |events| && trace[0] == INITIAL
    && forall n :: 0 <= n < |events| ==> Happens(h, rules, trace[n], events[n], times[n], trace[n + 1])
  }

  lemma HappensWellFormed(h: Handle, rules: Rules, a: State, e: Event, now: int, b: State)
    requires WellFormed(a) && Happens(h, rules, a, e, now, b)
    ensures WellFormed(b)
  {
    match e
    case Receive(obj) => ReceivedWellFormed(h, rules, a, obj, now, b);
    case Tick(expired) => TickedWellFormed(a, now, expired, b);
  }

  /** Whatever node an object touches, heap keys stay distinct and cached, and the earliest is at the root. */
  lemma {:induction false} RunWellFormed(h: Handle, rules: Rules, trace: seq<State>, events: seq<Event>,
                                         times: seq<int>, n: nat)
    requires IsRun(h, rules, trace, events, times) && n < |trace|
    ensures WellFormed(trace[n])
  {
    if n > 0 {
      RunWellFormed(h, rules, trace, events, times, n - 1);
      HappensWellFormed(h, rules, trace[n - 1], events[n - 1], times[n - 1], trace[n]);
    }
  }

  /** If the event is an accepted object, the node it touches is harmless. */
  predicate HarmlessEvent(h: Handle, rules: Rules, s: State, e: Event, now: int) {
    e.Receive? && VerdictFor(rules, s.cache, e.obj).accepted ==>
      var k, d := rules.key(e.obj), Duration(e.obj);
      Harmless(s.expiry, k, Target(h, s, k, d), d, now)
  }

  lemma HappensOnTimeIff(h: Handle, rules: Rules, a: State, e: Event, now: int, b: State)
    requires Heaped(a) && OnTime(a.expiry, a.deadline) && Happens(h, rules, a, e, now, b)
    ensures OnTime(b.expiry, b.deadline) <==> HarmlessEvent(h, rules, a, e, now)
  {
    match e
    case Receive(obj) =>
      var v := VerdictFor(rules, a.cache, obj);
      if v.accepted {
        AcceptedOnTimeIff(h, a, rules.key(obj), v.instance, Duration(obj), now, b);
      }
    case Tick(expired) => TickedOnTime(a, now, expired, b);
  }

  /** The heap has been on time up to state `n`. */
  predicate OnTimeUpTo(trace: seq<State>, n: nat)
    requires n < |trace|
  {
    forall i :: 0 <= i <= n ==> OnTime(trace[i].expiry, trace[i].deadline)
  }

  predicate HarmlessUpTo(h: Handle, rules: Rules, trace: seq<State>, events: seq<Event>, times: seq<int>, n: nat)
    requires n <= |events| == |times| && |events| < |trace|
  {
    forall i :: 0 <= i < n ==> HarmlessEvent(h, rules, trace[i], events[i], times[i])
  }

  /** A run stays on time if and only if every accepted object touches a harmless node. */
  lemma {:induction false} RunOnTimeIff(h: Handle, rules: Rules, trace: seq<State>, events: seq<Event>, times: seq<int>,
                                        n: nat)
    requires IsRun(h, rules, trace, events, times) && n < |trace|
    ensures OnTimeUpTo(trace, n) <==> HarmlessUpTo(h, rules, trace, events, times, n)
  {
    if n > 0 {
      RunOnTimeIff(h, rules, trace, events, times, n - 1);
      RunWellFormed(h, rules, trace, events, times, n - 1);
      assert OnTimeUpTo(trace, n) <==> OnTimeUpTo(trace, n - 1) && OnTime(trace[n].expiry, trace[n].deadline);
      if OnTimeUpTo(trace, n - 1) {
        HappensOnTimeIff(h, rules, trace[n - 1], events[n - 1], times[n - 1], trace[n]);
      }
    }
  }

  /** Through live handles every run stays on time. */
  lemma LiveRunOnTime(rules: Rules, trace: seq<State>, events: seq<Event>, times: seq<int>, n: nat)
    requires IsRun(Live, rules, trace, events, times) && n < |trace|
    ensures OnTime(trace[n].expiry, trace[n].deadline)
  {
    forall i | 0 <= i < n ensures HarmlessEvent(Live, rules, trace[i], events[i], times[i]) {
      RunWellFormed(Live, rules, trace, events, times, i);
      match events[i]
      case Receive(obj) => LiveIsHarmless(trace[i], rules.key(obj), Duration(obj), times[i]);
      case Tick(_) =>
    }
    RunOnTimeIff(Live, rules, trace, events, times, n);
  }

  /** In a run that is on time a configuration is expired only after the latest time accepted for it. */
  lemma ExpiredAfterDeadline(h: Handle, rules: Rules, trace: seq<State>, events: seq<Event>, times: seq<int>, n: nat)
    requires IsRun(h, rules, trace, events, times) && n < |events| && events[n].Tick? && events[n].expired.Some?
    requires OnTime(trace[n].expiry, trace[n].deadline)
    ensures var k, s := events[n].expired.value, trace[n];
            && k in s.cache && k in s.deadline && s.deadline[k] < times[n]
            && k in s.expiry && forall j :: j in s.expiry ==> s.expiry[k] <= s.expiry[j]
  {
    RunWellFormed(h, rules, trace, events, times, n);
    assert Happens(h, rules, trace[n], events[n], times[n], trace[n + 1]);
    TickedWellFormed(trace[n], times[n], events[n].expired, trace[n + 1]);
    TickedOnTime(trace[n], times[n], events[n].expired, trace[n + 1]);
    TickedEarliest(trace[n], times[n], events[n].expired.value, trace[n + 1]);
  }

  /**
   Through live handles, in every run: a configuration is expired only after the latest
   expiry time accepted for it, and the one expired has the least time in the heap.
   */
  lemma NeverExpiredEarly(rules: Rules, trace: seq<State>, events: seq<Event>, times: seq<int>, n: nat)
    requires IsRun(Live, rules, trace, events, times) && n < |events| && events[n].Tick? && events[n].expired.Some?
    ensures var k, s := events[n].expired.value, trace[n];
            && k in s.cache && k in s.deadline && s.deadline[k] < times[n]
            && k in s.expiry && forall j :: j in s.expiry ==> s.expiry[k] <= s.expiry[j]
  {
    LiveRunOnTime(rules, trace, events, times, n);
    ExpiredAfterDeadline(Live, rules, trace, events, times, n);
  }

  // ---------- The cache of a run is a fold ----------

  function StepOf(e: Event): Step {
    match e
    case Receive(obj) => Recv(obj)
    case Tick(expired) => if expired.Some? then Expire(expired.value) else Idle
  }

  function StepsOf(events: seq<Event>): seq<Step> {
    seq(|events|, n requires 0 <= n < |events| => StepOf(events[n]))
  }

  function CachesOf(trace: seq<State>): seq<Cache> {
    seq(|trace|, n requires 0 <= n < |trace| => Instances(trace[n].cache))
  }

  lemma HappensFolds(h: Handle, parser: Parser, a: State, e: Event, now: int, b: State)
    requires Happens(h, RulesOf(parser), a, e, now, b)
    ensures Instances(b.cache) == Next(parser, Instances(a.cache), StepOf(e))
  {
    match e
    case Receive(obj) => ReceivedCache(h, parser, a, obj, now, b);
    case Tick(expired) =>
      if expired.Some? {
        TickedCache(parser, a, now, expired.value, b);
      }
  }

  lemma FoldLeads(h: Handle, parser: Parser, trace: seq<State>, events: seq<Event>, times: seq<int>, n: nat)
    requires IsRun(h, RulesOf(parser), trace, events, times) && n < |events|
    ensures Leads(parser, StepsOf(events), CachesOf(trace), n)
  {
    HappensFolds(h, parser, trace[n], events[n], times[n], trace[n + 1]);
  }

  /** The caches of every loader run are the fold of its messages and expiries. */
  lemma RunIsFold(h: Handle, parser: Parser, trace: seq<State>, events: seq<Event>, times: seq<int>)
    requires IsRun(h, RulesOf(parser), trace, events, times)
    ensures ConfigCache.IsRun(parser, StepsOf(events), CachesOf(trace))
  {
    assert CachesOf(trace)[0] == map[];
    forall n | 0 <= n < |events| ensures Leads(parser, StepsOf(events), CachesOf(trace), n) {
      FoldLeads(h, parser, trace, events, times, n);
    }
  }

  /** So in every loader run, while a key stays cached, its version never decreases and it stays valid. */
  lemma LoaderVersions(h: Handle, parser: Parser, trace: seq<State>, events: seq<Event>, times: seq<int>,
                       i: nat, j: nat, k: Bytes)
    requires IsRun(h, RulesOf(parser), trace, events, times) && i <= j < |trace|
    requires forall n :: i <= n <= j ==> k in trace[n].cache
    ensures k in trace[i].cache && k in trace[j].cache
    ensures Supersedes(trace[j].cache[k].instance, trace[i].cache[k].instance)
  {
    RunIsFold(h, parser, trace, events, times);
    var caches := CachesOf(trace);
    assert forall n :: i <= n <= j ==> caches[n] == Instances(trace[n].cache);
    VersionsNeverDecrease(parser, StepsOf(events), caches, i, j, k);
  }

  /** What the receive loop sends at event `n`. */
  lemma SentByReceive(h: Handle, parser: Parser, trace: seq<State>, events: seq<Event>, times: seq<int>, n: nat)
    requires IsRun(h, RulesOf(parser), trace, events, times) && n < |events| && events[n].Receive?
    ensures trace[n + 1].sent == trace[n].sent + [SentAt(parser, StepsOf(events), CachesOf(trace), n)]
  {
    assert Happens(h, RulesOf(parser), trace[n], events[n], times[n], trace[n + 1]);
    VerdictForIs(parser, trace[n].cache, events[n].obj);
  }

  /** And between expiries of a key the OK instances sent for it have non-decreasing versions. */
  lemma LoaderSentVersions(h: Handle, parser: Parser, trace: seq<State>, events: seq<Event>, times: seq<int>, i: nat,
                           j: nat)
    requires IsRun(h, RulesOf(parser), trace, events, times) && i < j < |events|
    requires events[i].Receive? && events[j].Receive? && KeyOf(parser, events[i].obj) == KeyOf(parser, events[j].obj)
    requires forall n :: i <= n < j ==> events[n] != Tick(Some(KeyOf(parser, events[i].obj)))
    ensures |trace[i + 1].sent| > 0 && |trace[j + 1].sent| > 0
    ensures var first, second := trace[i + 1].sent[|trace[i + 1].sent| - 1], trace[j + 1].sent[|trace[j + 1].sent| - 1];
            first.status.OK? && second.status.OK? ==> Supersedes(second, first)
  {
    RunIsFold(h, parser, trace, events, times);
    SentByReceive(h, parser, trace, events, times, i);
    SentByReceive(h, parser, trace, events, times, j);
    var steps, caches := StepsOf(events), CachesOf(trace);
    if SentAt(parser, steps, caches, i).status.OK? && SentAt(parser, steps, caches, j).status.OK? {
      SentVersionsNeverDecrease(parser, steps, caches, i, j);
    }
  }

  // ---------- Expiring at all ----------

  /** Every accepted time, and no other, is in the heap. */
  predicate Timely(s: State) {
    s.expiry == s.deadline
  }

  /** An accepted object leaves the heap timely: it touches its own node, or what is asked for is already so. */
  predicate Settles(expiry: Expiry, k: Bytes, target: Option<Bytes>, d: int, now: int) {
    || target == Some(k)
    || if d > 0 then k in expiry && expiry[k] == now + d
                     && (target.Some? ==> target.value in expiry && expiry[target.value] == now + d)
       else k !in expiry && (target.Some? ==> target.value !in expiry)
  }

  lemma MapsTimelyIff(e: Expiry, k: Bytes, target: Option<Bytes>, d: int, now: int)
    ensures NextExpiry(e, target, d, now) == NextDeadline(e, k, d, now) <==> Settles(e, k, target, d, now)
  {
    var x, l := NextExpiry(e, target, d, now), NextDeadline(e, k, d, now);
    if target != Some(k) {
      if x == l {
        assert d > 0 ==> k in l && l[k] == now + d;
        assert d <= 0 ==> k !in l;
        if target.Some? {
          var t := target.value;
          assert d > 0 ==> t in x && x[t] == now + d;
          assert d <= 0 ==> t !in x;
        }
      }
    }
  }

  predicate SettlesEvent(h: Handle, rules: Rules, s: State, e: Event, now: int) {
    e.Receive? && VerdictFor(rules, s.cache, e.obj).accepted ==>
      var k, d := rules.key(e.obj), Duration(e.obj);
      Settles(s.expiry, k, Target(h, s, k, d), d, now)
  }

  lemma HappensTimelyIff(h: Handle, rules: Rules, a: State, e: Event, now: int, b: State)
    requires Timely(a) && Happens(h, rules, a, e, now, b)
    ensures Timely(b) <==> SettlesEvent(h, rules, a, e, now)
  {
    if e.Receive? && VerdictFor(rules, a.cache, e.obj).accepted {
      var k, d := rules.key(e.obj), Duration(e.obj);
      MapsTimelyIff(a.expiry, k, Target(h, a, k, d), d, now);
    }
  }

  predicate TimelyUpTo(trace: seq<State>, n: nat)
    requires n < |trace|
  {
    forall i :: 0 <= i <= n ==> Timely(trace[i])
  }

  predicate SettledUpTo(h: Handle, rules: Rules, trace: seq<State>, events: seq<Event>, times: seq<int>, n: nat)
    requires n <= |events| == |times| && |events| < |trace|
  {
    forall i :: 0 <= i < n ==> SettlesEvent(h, rules, trace[i], events[i], times[i])
  }

  /** A run keeps the heap timely if and only if every accepted object leaves it so. */
  lemma {:induction false} RunTimelyIff(h: Handle, rules: Rules, trace: seq<State>, events: seq<Event>, times: seq<int>,
                                        n: nat)
    requires IsRun(h, rules, trace, events, times) && n < |trace|
    ensures TimelyUpTo(trace, n) <==> SettledUpTo(h, rules, trace, events, times, n)
  {
    if n > 0 {
      RunTimelyIff(h, rules, trace, events, times, n - 1);
      assert TimelyUpTo(trace, n) <==> TimelyUpTo(trace, n - 1) && Timely(trace[n]);
      assert Happens(h, rules, trace[n - 1], events[n - 1], times[n - 1], trace[n]);
      if TimelyUpTo(trace, n - 1) {
        HappensTimelyIff(h, rules, trace[n - 1], events[n - 1], times[n - 1], trace[n]);
      }
    }
  }

  /** An accepted object with a time-to-live for a cached key whose latest accepted object had none. */
  predicate Late(rules: Rules, s: State, e: Event) {
    && e.Receive? && VerdictFor(rules, s.cache, e.obj).accepted && Duration(e.obj) > 0
    && rules.key(e.obj) in s.cache && rules.key(e.obj) !in s.deadline
  }

  lemma LiveSettlesIff(rules: Rules, s: State, e: Event, now: int)
    requires WellFormed(s) && Timely(s)
    ensures SettlesEvent(Live, rules, s, e, now) <==> !Late(rules, s, e)
  {
  }

  predicate NoneLate(rules: Rules, trace: seq<State>, events: seq<Event>, n: nat)
    requires n <= |events| < |trace|
  {
    forall i :: 0 <= i < n ==> !Late(rules, trace[i], events[i])
  }

  /**
   Through live handles, a run has in its heap exactly the accepted times, in every state,
   if and only if no time-to-live comes late: for a configuration cached without one.
   */
  lemma {:induction false} LiveTimelyIff(rules: Rules, trace: seq<State>, events: seq<Event>, times: seq<int>, n: nat)
    requires IsRun(Live, rules, trace, events, times) && n < |trace|
    ensures TimelyUpTo(trace, n) <==> NoneLate(rules, trace, events, n)
  {
    if n > 0 {
      LiveTimelyIff(rules, trace, events, times, n - 1);
      assert TimelyUpTo(trace, n) <==> TimelyUpTo(trace, n - 1) && Timely(trace[n]);
      assert Happens(Live, rules, trace[n - 1], events[n - 1], times[n - 1], trace[n]);
      if TimelyUpTo(trace, n - 1) {
        RunWellFormed(Live, rules, trace, events, times, n - 1);
        HappensTimelyIff(Live, rules, trace[n - 1], events[n - 1], times[n - 1], trace[n]);
        LiveSettlesIff(rules, trace[n - 1], events[n - 1], times[n - 1]);
      }
    }
  }

  /** No time in the heap is before `now`. */
  predicate NoneDue(s: State, now: int) {
    forall k :: k in s.expiry ==> s.expiry[k] >= now
  }

  /** A tick after `now` finds nothing due, or takes one node away. */
  lemma TickProgress(a: State, now: int, time: int, expired: Option<Bytes>, b: State)
    requires Heaped(a) && Ticked(a, time, expired, b) && now <= time
    ensures NoneDue(a, now) ==> NoneDue(b, now)
    ensures NoneDue(b, now) || |b.expiry| == |a.expiry| - 1
  {
    if expired.None? {
      if a.items != [] {
        RootIsEarliest(a.items, a.expiry);
      }
    } else {
      assert IsEntry(a.items, a.expiry, 0);
      assert (a.expiry - {expired.value}).Keys == a.expiry.Keys - {expired.value};
    }
  }

  /** Nothing is due, or `ticks` of `size` nodes are gone. */
  predicate Cleared(s: State, now: int, size: nat, ticks: int) {
    NoneDue(s, now) || |s.expiry| + ticks == size
  }

  lemma TickClears(h: Handle, rules: Rules, trace: seq<State>, events: seq<Event>, times: seq<int>,
                   n: nat, now: int, size: nat, ticks: int)
    requires IsRun(h, rules, trace, events, times) && n < |events| && events[n].Tick? && now <= times[n]
    requires Cleared(trace[n], now, size, ticks)
    ensures Cleared(trace[n + 1], now, size, ticks + 1)
  {
    RunWellFormed(h, rules, trace, events, times, n);
    assert Happens(h, rules, trace[n], events[n], times[n], trace[n + 1]);
    TickProgress(trace[n], now, times[n], events[n].expired, trace[n + 1]);
  }

  /** After as many ticks past `now` as the heap had nodes, and no object between them, nothing is due. */
  lemma {:induction false} TicksClear(h: Handle, rules: Rules, trace: seq<State>, events: seq<Event>, times: seq<int>,
                                      m: nat, n: nat, now: int)
    requires IsRun(h, rules, trace, events, times) && m <= n < |trace|
    requires forall i :: m <= i < n ==> events[i].Tick? && now <= times[i]
    ensures Cleared(trace[n], now, |trace[m].expiry|, n - m)
    decreases n
  {
    if m < n {
      TicksClear(h, rules, trace, events, times, m, n - 1, now);
      TickClears(h, rules, trace, events, times, n - 1, now, |trace[m].expiry|, n - 1 - m);
    }
  }

  /**
   Through live handles and with no late time-to-live, every configuration whose latest
   accepted time is past is expired after as many ticks as there are configurations with one.
   */
  lemma AllDueExpire(rules: Rules, trace: seq<State>, events: seq<Event>, times: seq<int>, m: nat, n: nat, now: int,
                     k: Bytes)
    requires IsRun(Live, rules, trace, events, times) && m <= n < |trace| && NoneLate(rules, trace, events, n)
    requires forall i :: m <= i < n ==> events[i].Tick? && now <= times[i]
    requires n - m >= |trace[m].deadline|
    ensures k in trace[n].deadline ==> trace[n].deadline[k] >= now
  {
    LiveTimelyIff(rules, trace, events, times, n);
    TicksClear(Live, rules, trace, events, times, m, n, now);
    assert Timely(trace[m]) && Timely(trace[n]);
  }

  // ---------- The latest accepted times ----------

  /** Event `i` is an accepted object for `k`. */
  predicate AcceptsAt(rules: Rules, trace: seq<State>, events: seq<Event>, i: int, k: Bytes) {
    && 0 <= i < |events| < |trace| && events[i].Receive?
    && VerdictFor(rules, trace[i].cache, events[i].obj).accepted && rules.key(events[i].obj) == k
  }

  /** Event `m` is the last object accepted for `k` before event `n`, and `k` was not expired since. */
  predicate LastAccepted(rules: Rules, trace: seq<State>, events: seq<Event>, m: int, n: nat, k: Bytes)
    requires n <= |events|
  {
    && 0 <= m < n && AcceptsAt(rules, trace, events, m, k)
    && forall i :: m < i < n ==> !AcceptsAt(rules, trace, events, i, k) && events[i] != Tick(Some(k))
  }

  /** The last accepted object for `k`, if it was not expired since, asked for this time. */
  ghost predicate AskedFor(rules: Rules, trace: seq<State>, events: seq<Event>, times: seq<int>, n: nat, k: Bytes,
                           at: int)
    requires n <= |events| == |times|
  {
    exists m :: LastAccepted(rules, trace, events, m, n, k) && 0 < Duration(events[m].obj) == at - times[m]
  }

  lemma AskedForNext(rules: Rules, trace: seq<State>, events: seq<Event>, times: seq<int>, n: nat, k: Bytes, at: int)
    requires n < |events| == |times| && |events| < |trace|
    ensures AskedFor(rules, trace, events, times, n + 1, k, at) <==>
            if AcceptsAt(rules, trace, events, n, k) then 0 < Duration(events[n].obj) == at - times[n]
            else events[n] != Tick(Some(k)) && AskedFor(rules, trace, events, times, n, k, at)
  {
    var next := n + 1;
    if AcceptsAt(rules, trace, events, n, k) {
      assert LastAccepted(rules, trace, events, n, next, k);
    } else if m :| LastAccepted(rules, trace, events, m, n, k) && 0 < Duration(events[m].obj) == at - times[m] {
      assert events[n] != Tick(Some(k)) ==> LastAccepted(rules, trace, events, m, next, k);
    }
    if m :| LastAccepted(rules, trace, events, m, next, k) && 0 < Duration(events[m].obj) == at - times[m] {
      assert m < n ==> LastAccepted(rules, trace, events, m, n, k);
    }
  }

  predicate DueAt(deadline: Expiry, k: Bytes, at: int) {
    k in deadline && deadline[k] == at
  }

  lemma DeadlineNext(h: Handle, rules: Rules, a: State, e: Event, now: int, b: State, k: Bytes, at: int)
    requires Happens(h, rules, a, e, now, b)
    ensures DueAt(b.deadline, k, at) <==>
            if e.Receive? && VerdictFor(rules, a.cache, e.obj).accepted && rules.key(e.obj) == k then
              0 < Duration(e.obj) == at - now
            else e != Tick(Some(k)) && DueAt(a.deadline, k, at)
  {
  }

  /**
   In every run, by copied places or live handles, the deadline of a key is the time asked
   for by the last object accepted for it, and it has none if that object had no
   time-to-live, or the key was expired since.
   */
  lemma {:induction false} DeadlineExact(h: Handle, rules: Rules, trace: seq<State>, events: seq<Event>,
                                         times: seq<int>, n: nat, k: Bytes, at: int)
    requires IsRun(h, rules, trace, events, times) && n < |trace|
    ensures DueAt(trace[n].deadline, k, at) <==> AskedFor(rules, trace, events, times, n, k, at)
  {
    if n > 0 {
      DeadlineExact(h, rules, trace, events, times, n - 1, k, at);
      DeadlineNext(h, rules, trace[n - 1], events[n - 1], times[n - 1], trace[n], k, at);
      AskedForNext(rules, trace, events, times, n - 1, k, at);
    }
  }

  // ---------- The copied place ----------

  /** Some object accepted for `k` from event `m` up to `n` had no time-to-live. */
  predicate Lapsed(rules: Rules, trace: seq<State>, events: seq<Event>, m: nat, n: nat, k: Bytes)
    requires n <= |events|
  {
    exists i :: m <= i < n && AcceptsAt(rules, trace, events, i, k) && Duration(events[i].obj) <= 0
  }

  lemma LapsedNext(rules: Rules, trace: seq<State>, events: seq<Event>, m: nat, n: nat, k: Bytes)
    requires m <= n < |events|
    ensures Lapsed(rules, trace, events, m, n + 1, k) <==>
            || Lapsed(rules, trace, events, m, n, k)
            || (AcceptsAt(rules, trace, events, n, k) && Duration(events[n].obj) <= 0)
  {
  }

  /** An event that does not accept an object for `k` leaves its entry alone, if it leaves it. */
  lemma OtherEntryKept(rules: Rules, a: State, e: Event, now: int, b: State, k: Bytes)
    requires Happens(Copied, rules, a, e, now, b) && k in b.cache
    requires e.Receive? && VerdictFor(rules, a.cache, e.obj).accepted ==> rules.key(e.obj) != k
    ensures k in a.cache && b.cache[k] == a.cache[k]
  {
  }

  /** Event `m` put `k` into the cache, where it has been up to state `n`. */
  predicate EnteredAt(rules: Rules, trace: seq<State>, events: seq<Event>, m: int, n: nat, k: Bytes)
    requires n < |trace|
  {
    && 0 <= m < n && AcceptsAt(rules, trace, events, m, k) && k !in trace[m].cache
    && forall i :: m < i <= n ==> k in trace[i].cache
  }

  /** The node of `k` is at this place of the heap. */
  predicate PlaceAt(s: State, k: Bytes, place: int) {
    0 <= place < |s.items| && s.items[place].key == k
  }

  lemma EntryAfter(rules: Rules, a: State, e: Event, now: int, b: State, k: Bytes)
    requires Happens(Copied, rules, a, e, now, b)
    requires e.Receive? && VerdictFor(rules, a.cache, e.obj).accepted && rules.key(e.obj) == k
    ensures k in b.cache && IndexAfter(a, b, k, Duration(e.obj))
  {
  }

  /** What is kept with `k` in state `n`: no place, or the one its node had when event `m` put it there. */
  predicate KeepsPlace(rules: Rules, trace: seq<State>, events: seq<Event>, m: int, n: nat, k: Bytes)
    requires 0 <= m < n < |trace| == |events| + 1 && k in trace[n].cache
  {
    var place := trace[n].cache[k].ttlHeapIdx;
    if Lapsed(rules, trace, events, m, n, k) then place == -1 else PlaceAt(trace[m + 1], k, place)
  }

  lemma FirstPlace(rules: Rules, trace: seq<State>, events: seq<Event>, times: seq<int>, m: nat, k: Bytes)
    requires IsRun(Copied, rules, trace, events, times) && AcceptsAt(rules, trace, events, m, k) && k !in trace[m].cache
    ensures EnteredAt(rules, trace, events, m, m + 1, k) && KeepsPlace(rules, trace, events, m, m + 1, k)
  {
    assert Happens(Copied, rules, trace[m], events[m], times[m], trace[m + 1]);
    EntryAfter(rules, trace[m], events[m], times[m], trace[m + 1], k);
    LapsedNext(rules, trace, events, m, m, k);
  }

  lemma NextPlace(rules: Rules, trace: seq<State>, events: seq<Event>, times: seq<int>, m: nat, n: nat, k: Bytes)
    requires IsRun(Copied, rules, trace, events, times) && n < |events|
    requires k in trace[n].cache && k in trace[n + 1].cache
    requires EnteredAt(rules, trace, events, m, n, k) && KeepsPlace(rules, trace, events, m, n, k)
    ensures EnteredAt(rules, trace, events, m, n + 1, k) && KeepsPlace(rules, trace, events, m, n + 1, k)
  {
    assert Happens(Copied, rules, trace[n], events[n], times[n], trace[n + 1]);
    LapsedNext(rules, trace, events, m, n, k);
    if AcceptsAt(rules, trace, events, n, k) {
      EntryAfter(rules, trace[n], events[n], times[n], trace[n + 1], k);
    } else {
      OtherEntryKept(rules, trace[n], events[n], times[n], trace[n + 1], k);
    }
  }

  /** A key enters the cache by an accepted object only. */
  lemma EntersByObject(rules: Rules, trace: seq<State>, events: seq<Event>, times: seq<int>, n: nat, k: Bytes)
    requires IsRun(Copied, rules, trace, events, times) && n < |events|
    requires k !in trace[n].cache && k in trace[n + 1].cache
    ensures AcceptsAt(rules, trace, events, n, k)
  {
    assert Happens(Copied, rules, trace[n], events[n], times[n], trace[n + 1]);
  }

  /**
   In every run of the code the place kept with a cached key is the one its node had when
   the key entered the cache, however the heap has moved since, or none if some object
   accepted for it since had no time-to-live.
   */
  lemma {:induction false} CopiedPlace(rules: Rules, trace: seq<State>, events: seq<Event>, times: seq<int>, n: nat,
                                       k: Bytes)
    returns (m: nat)
    requires IsRun(Copied, rules, trace, events, times) && n < |trace| && k in trace[n].cache
    ensures EnteredAt(rules, trace, events, m, n, k) && KeepsPlace(rules, trace, events, m, n, k)
  {
    assert n > 0;
    if k in trace[n - 1].cache {
      m := CopiedPlace(rules, trace, events, times, n - 1, k);
      NextPlace(rules, trace, events, times, m, n - 1, k);
    } else {
      m := n - 1;
      EntersByObject(rules, trace, events, times, m, k);
      FirstPlace(rules, trace, events, times, m, k);
    }
  }

  // ---------- Live handles never stop the process ----------

  lemma {:induction false} LatestKey(e: Expiry) returns (k: Bytes)
    requires e != map[]
    ensures k in e && forall j :: j in e ==> e[j] <= e[k]
    decreases |e.Keys|
  {
    var first :| first in e;
    var rest := e - {first};
    assert forall j :: j in e && j != first ==> j in rest && rest[j] == e[j];
    k := first;
    if rest != map[] {
      assert rest.Keys == e.Keys - {first};
      var l := LatestKey(rest);
      if e[l] > e[first] {
        k := l;
      }
    }
  }

  lemma HeapOrderSnoc(t: seq<Item>, x: Item)
    requires HeapOrder(t, |t|) && forall i :: 0 <= i < |t| ==> t[i].at <= x.at
    ensures HeapOrder(t + [x], |t| + 1)
  {
    var r := t + [x];
    forall k {:trigger Parent(k)} | 1 <= k < |r| ensures r[Parent(k)].at <= r[k].at {
      assert r[Parent(k)] == t[Parent(k)];
      if k < |t| {
        assert r[k] == t[k];
      } else {
        assert r[k] == x;
      }
    }
  }

  /** Every set of times can be held by a heap. */
  lemma {:induction false} Arrange(e: Expiry) returns (items: seq<Item>)
    ensures Maps(items, e) && HeapOrder(items, |items|)
    decreases |e.Keys|
  {
    if e == map[] {
      items := [];
    } else {
      var k := LatestKey(e);
      var rest := e - {k};
      assert rest.Keys == e.Keys - {k};
      var front := Arrange(rest);
      forall i | 0 <= i < |front| ensures front[i].at <= e[k] {
        assert IsEntry(front, rest, i);
      }
      MapsPushed(front, rest, Item(k, e[k]));
      HeapOrderSnoc(front, Item(k, e[k]));
      assert rest[k := e[k]] == e;
      items := front + [Item(k, e[k])];
    }
  }

  /** Through live handles every object can be received in every state. */
  lemma LiveReceives(rules: Rules, a: State, obj: Option<Object>, now: int) returns (b: State)
    ensures Received(Live, rules, a, obj, now, b)
  {
    var v, k, d := VerdictFor(rules, a.cache, obj), rules.key(obj), Duration(obj);
    var sent := a.sent + [v.instance];
    if v.accepted {
      var expiry := NextExpiry(a.expiry, Target(Live, a, k, d), d, now);
      var items := Arrange(expiry);
      b := State(a.cache[k := Entry(v.instance, -1)], items, expiry, sent, NextDeadline(a.deadline, k, d, now));
    } else {
      b := a.(sent := sent);
    }
  }

  // ---------- Runs that go wrong ----------

  /** An object that is accepted as `i` whenever its key is unknown or cached with the same version. */
  ghost predicate Good(rules: Rules, obj: Option<Object>, i: Instance) {
    forall c: Option<Instance> {:trigger rules.judge(c, obj)} ::
      (c.Some? ==> c.value.version == i.version) ==> rules.judge(c, obj) == Verdict(i, true, false)
  }

  /** Under one key with one version. */
  ghost predicate Again(rules: Rules, x: Option<Object>, i: Instance, y: Option<Object>, j: Instance) {
    Good(rules, x, i) && Good(rules, y, j) && rules.key(x) == rules.key(y) && i.version == j.version
  }

  function Sample(typ: Bytes, data: Bytes, name: Bytes, ttl: Option<int>): Option<Object> {
    Some(Object(Some(typ), name, "1", Some(data), ttl))
  }

  lemma VersionOne()
    ensures CompareVersions("1", "1") == Some(0) && CompareVersions("1", []) == Some(1)
  {
    assert "1"[0] != "v"[0];
    assert TrimPrefix("1", "v") == "1" && Digits("1") == 1;
  }

  lemma GoodSample(parser: Parser, typ: Bytes, data: Bytes, name: Bytes, ttl: Option<int>)
    requires typ != [] && name != [] && parser(typ, data).Some?
    ensures var x := Sample(typ, data, name, ttl);
            && Good(RulesOf(parser), x, Parse(parser, x).0)
            && Parse(parser, x).0.version == "1" && RulesOf(parser).key(x) == typ + ":" + name
  {
    var i := Parse(parser, Sample(typ, data, name, ttl)).0;
    assert i.version == "1" && i.status == OK && i.obj.Some?;
    VersionOne();
  }

  /** There are such objects for any type and data that parse: of different keys, and any number under one key. */
  lemma GoodObjects(parser: Parser, typ: Bytes, data: Bytes, a: Bytes, b: Bytes, ttl: Option<int>, ttl': Option<int>)
    requires typ != [] && parser(typ, data).Some? && a != [] && b != [] && a != b
    ensures var rules, x, y := RulesOf(parser), Sample(typ, data, a, ttl), Sample(typ, data, b, ttl');
            var z := Sample(typ, data, a, ttl');
            && Good(rules, y, Parse(parser, y).0) && rules.key(x) != rules.key(y)
            && Again(rules, x, Parse(parser, x).0, z, Parse(parser, z).0)
            && (ttl.Some? ==> Duration(x) == ttl.value) && (ttl.None? ==> Duration(x) == 0)
  {
    GoodSample(parser, typ, data, a, ttl);
    GoodSample(parser, typ, data, b, ttl');
    GoodSample(parser, typ, data, a, ttl');
    var n := |typ + ":"|;
    assert (typ + ":" + a)[n..] == a && (typ + ":" + b)[n..] == b;
  }

  lemma GoodReceived(h: Handle, rules: Rules, a: State, obj: Option<Object>, i: Instance, now: int, b: State)
    requires Good(rules, obj, i) && Received(h, rules, a, obj, now, b)
    requires rules.key(obj) in a.cache ==> a.cache[rules.key(obj)].instance.version == i.version
    ensures Heaped(b) && Accepted(h, a, rules.key(obj), i, Duration(obj), now, b)
  {
    assert rules.judge(Cached(a.cache, rules.key(obj)), obj) == Verdict(i, true, false);
  }

  lemma OnlyKey(s: State, k: Bytes, at: int)
    requires Heaped(s) && s.expiry == map[k := at]
    ensures s.items == [Item(k, at)]
  {
    assert IsEntry(s.items, s.expiry, 0);
  }

  lemma Earliest(s: State, k: Bytes)
    requires Heaped(s) && k in s.expiry && forall j :: j in s.expiry && j != k ==> s.expiry[k] < s.expiry[j]
    ensures s.items != [] && s.items[0] == Item(k, s.expiry[k])
  {
    RootIsEarliest(s.items, s.expiry);
  }

  /** The first push leaves its key at place 0 and the index saying so. */
  lemma FirstPush(k: Bytes, i: Instance, d: int, s1: State)
    requires d > 0 && Heaped(s1) && Accepted(Copied, INITIAL, k, i, d, 0, s1)
    ensures s1.items == [Item(k, d)] && s1.expiry == map[k := d] && s1.cache == map[k := Entry(i, 0)]
    ensures s1.deadline == map[k := d]
  {
    OnlyKey(s1, k, d);
    assert s1.cache[k] == Entry(i, 0);
  }

  /** The second push does not touch the index of the first. */
  lemma SecondPush(k: Bytes, i: Instance, d: int, j: Bytes, i': Instance, d': int, s1: State, s2: State)
    requires j != k && d' > 0 && s1.cache == map[k := Entry(i, 0)] && s1.expiry == map[k := d]
    requires Heaped(s2) && Accepted(Copied, s1, j, i', d', 0, s2)
    ensures s2.expiry == map[k := d, j := d'] && |s2.items| == 2
    ensures s2.cache.Keys == {k, j} && s2.cache[k] == Entry(i, 0) && s2.cache[j].instance == i'
    ensures 0 <= s2.cache[j].ttlHeapIdx < 2 && s2.items[s2.cache[j].ttlHeapIdx].key == j
  {
    assert s2.expiry == map[k := d][j := d'];
  }

  /**
   Two pushes are enough: the second, due earlier, takes the root from the first, whose
   copied index still says 0.  Prolonging the first then prolongs the second instead, and
   the first is expired although its prolonged time has not come.
   */
  lemma StaleIndexExpiresEarly(rules: Rules, x: Option<Object>, i: Instance, y: Option<Object>, j: Instance,
                               longer: Option<Object>, l: Instance,
                               s1: State, s2: State, s3: State, s4: State, tick: int, expired: Option<Bytes>)
    requires Again(rules, x, i, longer, l) && Good(rules, y, j) && rules.key(x) != rules.key(y)
    requires 0 < Duration(y) < Duration(x) < tick < Duration(longer)
    requires Received(Copied, rules, INITIAL, x, 0, s1) && Received(Copied, rules, s1, y, 0, s2)
    requires Received(Copied, rules, s2, longer, 0, s3) && Ticked(s3, tick, expired, s4)
    ensures var k := rules.key(x); expired == Some(k) && k in s3.deadline && s3.deadline[k] >= tick
  {
    GoodReceived(Copied, rules, INITIAL, x, i, 0, s1);
    FirstPush(rules.key(x), i, Duration(x), s1);
    GoodReceived(Copied, rules, s1, y, j, 0, s2);
    SecondPush(rules.key(x), i, Duration(x), rules.key(y), j, Duration(y), s1, s2);
    GoodReceived(Copied, rules, s2, longer, l, 0, s3);
    ProlongedWrongly(rules.key(x), Duration(x), rules.key(y), Duration(y), Duration(longer), s2, s3);
  }

  lemma ProlongedWrongly(k: Bytes, d: int, j: Bytes, d': int, more: int, s2: State, s3: State)
    requires j != k && 0 < d' < d < more && Heaped(s2) && s2.expiry == map[k := d, j := d']
    requires k in s2.cache && s2.cache[k].ttlHeapIdx == 0 && Heaped(s3)
    requires s3.expiry == NextExpiry(s2.expiry, Target(Copied, s2, k, more), more, 0)
    requires s3.deadline == NextDeadline(s2.deadline, k, more, 0)
    ensures s3.items != [] && s3.items[0] == Item(k, d) && k in s3.deadline && s3.deadline[k] == more
  {
    Earliest(s2, j);
    assert s3.expiry == map[k := d, j := more];
    Earliest(s3, k);
  }

  /**
   And so for stopping the process: when the first of two configurations expires, the
   heap shrinks below the index copied for the second, and its next object panics.
   */
  lemma StaleIndexPanics(rules: Rules, x: Option<Object>, i: Instance, y: Option<Object>, j: Instance,
                         again: Option<Object>, l: Instance,
                         s1: State, s2: State, s3: State, tick: int, expired: Option<Bytes>)
    requires Good(rules, x, i) && Again(rules, y, j, again, l) && rules.key(x) != rules.key(y)
    requires 0 < Duration(x) < tick < Duration(y)
    requires Received(Copied, rules, INITIAL, x, 0, s1) && Received(Copied, rules, s1, y, 0, s2)
    requires Ticked(s2, tick, expired, s3)
    ensures expired == Some(rules.key(x)) && Panics(rules, s3, again)
  {
    GoodReceived(Copied, rules, INITIAL, x, i, 0, s1);
    FirstPush(rules.key(x), i, Duration(x), s1);
    GoodReceived(Copied, rules, s1, y, j, 0, s2);
    SecondPush(rules.key(x), i, Duration(x), rules.key(y), j, Duration(y), s1, s2);
    IndexLeftBehind(rules.key(x), Duration(x), rules.key(y), Duration(y), s2, s3, tick, expired);
    assert rules.judge(Cached(s3.cache, rules.key(y)), again) == Verdict(l, true, false);
  }

  lemma OtherPlace(s: State, i: int, k: Bytes, j: Bytes)
    requires k != j && |s.items| == 2 && 0 <= i < 2 && s.items[0].key == k && s.items[i].key == j
    ensures i == 1
  {
  }

  lemma OneLess(k: Bytes, d: int, j: Bytes, d': int)
    requires j != k
    ensures map[k := d, j := d'] - {k} == map[j := d']
  {
  }

  lemma RootExpires(a: State, k: Bytes, at: int, tick: int, expired: Option<Bytes>, b: State)
    requires Ticked(a, tick, expired, b) && a.items != [] && a.items[0] == Item(k, at) && at < tick
    ensures expired == Some(k) && Heaped(b) && b.cache == a.cache - {k} && b.expiry == a.expiry - {k}
  {
  }

  lemma EarlierOfTwo(s: State, k: Bytes, d: int, j: Bytes, d': int)
    requires j != k && d < d' && Heaped(s) && s.expiry == map[k := d, j := d']
    ensures s.items != [] && s.items[0] == Item(k, d)
  {
    Earliest(s, k);
  }

  lemma IndexLeftBehind(k: Bytes, d: int, j: Bytes, d': int, s2: State, s3: State, tick: int, expired: Option<Bytes>)
    requires j != k && 0 < d < tick < d' && Heaped(s2) && s2.expiry == map[k := d, j := d'] && |s2.items| == 2
    requires j in s2.cache && 0 <= s2.cache[j].ttlHeapIdx < 2 && s2.items[s2.cache[j].ttlHeapIdx].key == j
    requires Ticked(s2, tick, expired, s3)
    ensures expired == Some(k) && s3.items == [Item(j, d')] && j in s3.cache && s3.cache[j] == s2.cache[j]
    ensures s3.cache[j].ttlHeapIdx == 1
  {
    EarlierOfTwo(s2, k, d, j, d');
    RootExpires(s2, k, d, tick, expired, s3);
    OtherPlace(s2, s2.cache[j].ttlHeapIdx, k, j);
    OneLess(k, d, j, d');
    OnlyKey(s3, j, d');
  }

  /**
   A configuration first accepted without a time-to-live has no node, and one given later
   is ignored: nothing will expire it, although a time was accepted.
   */
  lemma LateTimeToLiveIgnored(rules: Rules, x: Option<Object>, i: Instance, later: Option<Object>, l: Instance,
                              now: int, second: int, s1: State, s2: State)
    requires Again(rules, x, i, later, l) && Duration(x) <= 0 < Duration(later)
    requires Received(Copied, rules, INITIAL, x, now, s1) && Received(Copied, rules, s1, later, second, s2)
    ensures var k := rules.key(x);
            && k in s1.cache && s1.cache[k].ttlHeapIdx == -1
            && s2.expiry == map[] && k in s2.deadline && s2.deadline[k] == second + Duration(later)
  {
    GoodReceived(Copied, rules, INITIAL, x, i, now, s1);
    GoodReceived(Copied, rules, s1, later, l, second, s2);
  }
}

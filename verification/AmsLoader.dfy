/**
 The loader object (internal/config/ams.go): its receive loop and its ticker take the
 steps of `AmsProtocol`, on the heap of pointers that container/heap rearranges.
 */
module AmsLoader {
  import opened Bytes
  import opened ConfigCache
  import opened TtlHeap
  import opened AmsProtocol

  class Loader {
    const rules: Rules
    const heap: TtlHeap
    var cache: map<Bytes, Entry>
    var sent: seq<Instance>
    /** The latest accepted expiry times. */
    ghost var deadline: Expiry

    ghost predicate Valid()
      reads this, heap, heap.nodes
    {
      heap.Valid() && heap.expiry.Keys <= cache.Keys
    }

    ghost function View(): State
      reads this, heap
    {
      State(cache, heap.items, heap.expiry, sent, deadline)
    }

    constructor (rules: Rules)
      ensures Valid() && fresh(heap) && heap.nodes == [] && this.rules == rules && View() == INITIAL
    {
      this.rules := rules;
      heap := new TtlHeap();
      cache, sent, deadline := map[], [], map[];
    }

    /** `processConfig` for an object that enters the cache, its key new: the index is read right after the push. */
    method AcceptNew(k: Bytes, instance: Instance, d: int, now: int)
      requires Valid() && k !in cache
      modifies this`cache, this`deadline, heap, Members(heap.nodes)
      ensures Valid() && fresh(Members(heap.nodes) - Members(old(heap.nodes)))
      ensures Accepted(Copied, old(View()), k, instance, d, now, View())
    {
      var index := heap.Schedule(k, d, now);
      AcceptedNew(old(View()), k, instance, d, now, index, heap.items);
      cache, deadline := cache[k := Entry(instance, index)], NextDeadline(deadline, k, d, now);
    }

    /** And for a key that is cached: the node at the copied index is given the time, or goes. */
    method AcceptKnown(k: Bytes, instance: Instance, d: int, now: int)
      requires Valid() && k in cache && !OutOfRange(Copied, View(), k)
      modifies this`cache, this`deadline, heap, Members(heap.nodes)
      ensures Valid() && fresh(Members(heap.nodes) - Members(old(heap.nodes)))
      ensures Accepted(Copied, old(View()), k, instance, d, now, View())
    {
      assert cache[k].ttlHeapIdx >= 0 ==> IsEntry(heap.items, heap.expiry, cache[k].ttlHeapIdx);
      var index := heap.Reschedule(cache[k].ttlHeapIdx, d, now);
      cache, deadline := cache[k := Entry(instance, index)], NextDeadline(deadline, k, d, now);
    }

    /** `processConfig` from the cache update on; with a copied place outside the heap only the entry is rewritten. */
    method Accept(k: Bytes, instance: Instance, d: int, now: int) returns (panicked: bool)
      requires Valid()
      modifies this`cache, this`deadline, heap, Members(heap.nodes)
      ensures Valid() && fresh(Members(heap.nodes) - Members(old(heap.nodes)))
      ensures panicked == OutOfRange(Copied, old(View()), k)
      ensures if panicked then View() == old(View()).(cache := old(cache)[k := old(cache)[k].(instance := instance)])
              else Accepted(Copied, old(View()), k, instance, d, now, View())
    {
      panicked := false;
      if k !in cache {
        AcceptNew(k, instance, d, now);
      } else if cache[k].ttlHeapIdx < |heap.nodes| {
        AcceptKnown(k, instance, d, now);
      } else {
        cache := cache[k := cache[k].(instance := instance)];
        panicked := true;
      }
    }

    /** One object in the receive loop: `processConfig`, then the send to the subscribers. */
    method Receive(obj: Option<Object>, now: int) returns (error: bool, panicked: bool)
      requires Valid()
      modifies this, heap, Members(heap.nodes)
      ensures Valid() && fresh(Members(heap.nodes) - Members(old(heap.nodes)))
      ensures Dealt(rules, old(View()), obj, now, error, panicked, View())
    {
      var k := rules.key(obj);
      var v := VerdictFor(rules, cache, obj);
      error, panicked := v.error, false;
      if v.accepted {
        panicked := Accept(k, v.instance, Duration(obj), now);
        if panicked {
          return;
        }
      }
      sent := sent + [v.instance];
    }

    /**
     The objects of one response, in order, each at its own time, and whether it is
     refused (NACK): exactly when one of them was an error.
     */
    method Respond(objs: seq<Option<Object>>, times: seq<int>)
      returns (nack: bool, panicked: bool, ghost trace: seq<State>)
      requires Valid() && |times| == |objs|
      modifies this, heap, Members(heap.nodes)
      ensures Valid() && fresh(Members(heap.nodes) - Members(old(heap.nodes)))
      ensures Progress(rules, trace, objs, times, nack) && trace[0] == old(View())
      ensures if panicked then |trace| <= |objs| && Stopped(rules, trace[|trace| - 1], objs[|trace| - 1], View())
              else |trace| == |objs| + 1 && trace[|objs|] == View()
    {
      nack, panicked, trace := false, false, [View()];
      for i := 0 to |objs|
        invariant Valid() && fresh(Members(heap.nodes) - Members(old(heap.nodes)))
        invariant Progress(rules, trace, objs, times, nack)
        invariant |trace| == i + 1 && trace[0] == old(View()) && trace[i] == View()
      {
        var error;
        error, panicked := Receive(objs[i], times[i]);
        if panicked {
          return;
        }
        ProgressMore(rules, trace, objs, times, nack, error, View());
        trace, nack := trace + [View()], nack || error;
      }
    }

    /** One tick: the key expired, if any. */
    method Tick(now: int) returns (expired: Option<Bytes>)
      requires Valid()
      modifies this, heap, Members(heap.nodes)
      ensures Valid() && fresh(Members(heap.nodes) - Members(old(heap.nodes)))
      ensures Ticked(old(View()), now, expired, View())
    {
      assert heap.items != [] ==> IsEntry(heap.items, heap.expiry, 0);
      expired := heap.PopDue(now);
      if expired.Some? {
        deadline := deadline - {expired.value};
        if expired.value in cache {
          sent := sent + [cache[expired.value].instance.(expired := true)];
          cache := cache - {expired.value};
        }
      }
    }
  }

  predicate Refused(rules: Rules, s: State, obj: Option<Object>) {
    VerdictFor(rules, s.cache, obj).error
  }

  /** The process stops: the entry already holds the new instance, the heap is untouched. */
  predicate Stopped(rules: Rules, a: State, obj: Option<Object>, b: State) {
    var k := rules.key(obj);
    && Panics(rules, a, obj)
    && b == a.(cache := a.cache[k := a.cache[k].(instance := VerdictFor(rules, a.cache, obj).instance)])
  }

  /** What becomes of one received object. */
  ghost predicate Dealt(rules: Rules, a: State, obj: Option<Object>, now: int, error: bool, panicked: bool, b: State) {
    && error == Refused(rules, a, obj) && panicked == Panics(rules, a, obj)
    && if panicked then Stopped(rules, a, obj, b) else Received(Copied, rules, a, obj, now, b)
  }

  /**
   Each state follows from the one before by receiving the object in its place; `nack` if
   one of them was an error.
   */
  ghost predicate Progress(rules: Rules, trace: seq<State>, objs: seq<Option<Object>>, times: seq<int>, nack: bool) {
    && 0 < |trace| <= |objs| + 1 && |times| == |objs|
    && (forall i :: 0 <= i < |trace| - 1 ==> Received(Copied, rules, trace[i], objs[i], times[i], trace[i + 1]))
    && (nack <==> exists i :: 0 <= i < |trace| - 1 && Refused(rules, trace[i], objs[i]))
  }

  lemma ProgressMore(rules: Rules, trace: seq<State>, objs: seq<Option<Object>>, times: seq<int>, nack: bool,
                     error: bool, s: State)
    requires |trace| <= |objs| && Progress(rules, trace, objs, times, nack)
    requires Dealt(rules, trace[|trace| - 1], objs[|trace| - 1], times[|trace| - 1], error, false, s)
    ensures Progress(rules, trace + [s], objs, times, nack || error)
  {
    var t, n := trace + [s], |trace| - 1;
    assert t[n] == trace[n] && (error ==> Refused(rules, t[n], objs[n]));
    if i :| 0 <= i < n && Refused(rules, trace[i], objs[i]) {
      assert Refused(rules, t[i], objs[i]);
    }
    if i :| 0 <= i < |t| - 1 && Refused(rules, t[i], objs[i]) {
      assert i < n ==> Refused(rules, trace[i], objs[i]);
    }
  }

  // ---------- The runs that go wrong, on the object ----------

  /** The second push moves the first node; its entry keeps place 0, which is inside the heap. */
  lemma TwoPushed(rules: Rules, x: Option<Object>, i: Instance, y: Option<Object>, j: Instance, s1: State, s2: State)
    requires Good(rules, x, i) && Good(rules, y, j) && rules.key(x) != rules.key(y) && Duration(x) > 0
    requires Duration(y) > 0
    requires Received(Copied, rules, INITIAL, x, 0, s1) && Received(Copied, rules, s1, y, 0, s2)
    ensures rules.key(x) in s2.cache && s2.cache[rules.key(x)].ttlHeapIdx == 0 && |s2.items| == 2
  {
    GoodReceived(Copied, rules, INITIAL, x, i, 0, s1);
    FirstPush(rules.key(x), i, Duration(x), s1);
    GoodReceived(Copied, rules, s1, y, j, 0, s2);
    SecondPush(rules.key(x), i, Duration(x), rules.key(y), j, Duration(y), s1, s2);
  }

  lemma OnlyOneCached(rules: Rules, x: Option<Object>, i: Instance, s1: State)
    requires Good(rules, x, i) && Duration(x) > 0 && Received(Copied, rules, INITIAL, x, 0, s1)
    ensures s1.cache.Keys == {rules.key(x)}
  {
    GoodReceived(Copied, rules, INITIAL, x, i, 0, s1);
    FirstPush(rules.key(x), i, Duration(x), s1);
  }

  /** A loader that has taken two objects with a time-to-live. */
  method TakeTwo(rules: Rules, x: Option<Object>, ghost i: Instance, y: Option<Object>, ghost j: Instance)
    returns (l: Loader, ghost s1: State)
    requires Good(rules, x, i) && Good(rules, y, j) && rules.key(x) != rules.key(y) && Duration(x) > 0
    requires Duration(y) > 0
    ensures fresh(l) && fresh(l.heap) && fresh(Members(l.heap.nodes)) && l.Valid() && l.rules == rules
    ensures Received(Copied, rules, INITIAL, x, 0, s1) && Received(Copied, rules, s1, y, 0, l.View())
  {
    l := new Loader(rules);
    var _, _ := l.Receive(x, 0);
    s1 := l.View();
    OnlyOneCached(rules, x, i, s1);
    var _, _ := l.Receive(y, 0);
  }

  /** The loader expires a configuration whose accepted time has not come. */
  method ExpireEarly(rules: Rules, x: Option<Object>, ghost i: Instance, y: Option<Object>, ghost j: Instance,
                     longer: Option<Object>, ghost k: Instance, tick: int)
    returns (expired: Option<Bytes>, ghost before: State)
    requires Again(rules, x, i, longer, k) && Good(rules, y, j) && rules.key(x) != rules.key(y)
    requires 0 < Duration(y) < Duration(x) < tick < Duration(longer)
    ensures expired == Some(rules.key(x))
    ensures rules.key(x) in before.deadline && before.deadline[rules.key(x)] >= tick
  {
    ghost var s1;
    var l;
    l, s1 := TakeTwo(rules, x, i, y, j);
    ghost var s2 := l.View();
    TwoPushed(rules, x, i, y, j, s1, s2);
    var _, _ := l.Receive(longer, 0);
    before := l.View();
    expired := l.Tick(tick);
    StaleIndexExpiresEarly(rules, x, i, y, j, longer, k, s1, s2, before, l.View(), tick, expired);
  }

  /** A loader whose entry for the second of two configurations has its place outside the heap. */
  method OutlivedPlace(rules: Rules, x: Option<Object>, ghost i: Instance, y: Option<Object>, ghost j: Instance,
                       again: Option<Object>, ghost k: Instance, tick: int)
    returns (l: Loader)
    requires Good(rules, x, i) && Again(rules, y, j, again, k) && rules.key(x) != rules.key(y)
    requires 0 < Duration(x) < tick < Duration(y)
    ensures fresh(l) && fresh(l.heap) && fresh(Members(l.heap.nodes)) && l.Valid() && l.rules == rules
    ensures Panics(rules, l.View(), again)
  {
    ghost var s1;
    l, s1 := TakeTwo(rules, x, i, y, j);
    ghost var s2 := l.View();
    var expired := l.Tick(tick);
    StaleIndexPanics(rules, x, i, y, j, again, k, s1, s2, l.View(), tick, expired);
  }

  /** The next object for it stops the process. */
  method StopTheProcess(rules: Rules, x: Option<Object>, ghost i: Instance, y: Option<Object>, ghost j: Instance,
                        again: Option<Object>, ghost k: Instance, tick: int)
    returns (panicked: bool)
    requires Good(rules, x, i) && Again(rules, y, j, again, k) && rules.key(x) != rules.key(y)
    requires 0 < Duration(x) < tick < Duration(y)
    ensures panicked
  {
    var l := OutlivedPlace(rules, x, i, y, j, again, k, tick);
    var _, p := l.Receive(again, tick);
    panicked := p;
  }

  lemma NoNode(rules: Rules, x: Option<Object>, i: Instance, now: int, s1: State)
    requires Good(rules, x, i) && Duration(x) <= 0 && Received(Copied, rules, INITIAL, x, now, s1)
    ensures rules.key(x) in s1.cache && s1.cache[rules.key(x)].ttlHeapIdx == -1
  {
    GoodReceived(Copied, rules, INITIAL, x, i, now, s1);
  }

  /** A time-to-live that comes late changes nothing: the heap stays empty, so no tick expires the configuration. */
  method IgnoreLate(rules: Rules, x: Option<Object>, ghost i: Instance, later: Option<Object>, ghost k: Instance,
                    now: int, second: int)
    returns (l: Loader)
    requires Again(rules, x, i, later, k) && Duration(x) <= 0 < Duration(later)
    ensures l.Valid() && l.heap.items == [] && l.heap.expiry == map[]
    ensures rules.key(x) in l.deadline && l.deadline[rules.key(x)] == second + Duration(later)
  {
    l := new Loader(rules);
    var _, _ := l.Receive(x, now);
    ghost var s1 := l.View();
    NoNode(rules, x, i, now, s1);
    var _, _ := l.Receive(later, second);
    LateTimeToLiveIgnored(rules, x, i, later, k, now, second, s1, l.View());
  }
}

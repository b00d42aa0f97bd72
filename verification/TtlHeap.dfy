/**
 The min-heap of expiry times (internal/config/ams.go, ttlHeap) under the algorithms
 of Go's container/heap.
 */
module TtlHeap {
  import opened Bytes

  /** What a node holds: a cache key and its expiry time. */
  datatype Item = Item(key: Bytes, at: int)

  type Expiry = map<Bytes, int>

  // ---------- Heap order ----------

  function Parent(j: int): int { (j - 1) / 2 }

  /** Min-heap order of the first `n` items. */
  predicate HeapOrder(t: seq<Item>, n: int)
    requires n <= |t|
  {
    forall k {:trigger Parent(k)} :: 1 <= k < n ==> t[Parent(k)].at <= t[k].at
  }

  /** The items below `i` are not due before the one above it. */
  predicate Bridged(t: seq<Item>, i: int, n: int)
    requires 0 <= i < |t| && n <= |t|
  {
    forall k {:trigger Parent(k)} :: 1 <= k < n && Parent(k) == i && 1 <= i ==> t[Parent(i)].at <= t[k].at
  }

  /** Heap order except that the item at `i` may be due too late for its children. */
  predicate MayBeLate(t: seq<Item>, i: int, n: int)
    requires 0 <= i < |t| && n <= |t|
  {
    Bridged(t, i, n) && forall k {:trigger Parent(k)} :: 1 <= k < n && Parent(k) != i ==> t[Parent(k)].at <= t[k].at
  }

  /** Heap order except that the item at `i` may be due too early for its parent. */
  predicate MayBeEarly(t: seq<Item>, i: int, n: int)
    requires 0 <= i < |t| && n <= |t|
  {
    Bridged(t, i, n) && forall k {:trigger Parent(k)} :: 1 <= k < n && k != i ==> t[Parent(k)].at <= t[k].at
  }

  /** Heap order except around `i`. */
  predicate MayBeWrong(t: seq<Item>, i: int, n: int)
    requires 0 <= i < |t| && n <= |t|
  {
    && Bridged(t, i, n)
    && forall k {:trigger Parent(k)} :: 1 <= k < n && k != i && Parent(k) != i ==> t[Parent(k)].at <= t[k].at
  }

  function Swapped<T>(s: seq<T>, i: int, j: int): (r: seq<T>)
    requires 0 <= i < |s| && 0 <= j < |s|
    ensures |r| == |s|
  {
    s[i := s[j]][j := s[i]]
  }

  lemma SwapUp(t: seq<Item>, j: int, n: int)
    requires 1 <= j < n <= |t| && MayBeEarly(t, j, n) && t[j].at < t[Parent(j)].at
    ensures MayBeEarly(Swapped(t, Parent(j), j), Parent(j), n)
  {
  }

  lemma SwapDown(t: seq<Item>, i: int, j: int, n: int)
    requires 0 <= i < n <= |t| && 1 <= j < n && Parent(j) == i && MayBeWrong(t, i, n)
    requires t[j].at < t[i].at && forall k {:trigger Parent(k)} :: 1 <= k < n && Parent(k) == i ==> t[j].at <= t[k].at
    ensures MayBeLate(Swapped(t, i, j), j, n)
  {
  }

  /** The root is due first. */
  lemma {:induction false} RootFirst(t: seq<Item>, k: int)
    requires 0 <= k < |t| && HeapOrder(t, |t|)
    ensures t[0].at <= t[k].at
  {
    if k > 0 {
      RootFirst(t, Parent(k));
    }
  }

  /** Giving one item another time. */
  lemma Overwritten(t: seq<Item>, i: int, v: Item)
    requires 0 <= i < |t| && HeapOrder(t, |t|)
    ensures MayBeWrong(t[i := v], i, |t|)
  {
    forall k | 1 <= k < |t| && Parent(k) == i && 1 <= i ensures t[Parent(i)].at <= t[k].at {}
  }

  /** Moving the last item into another place, for the heap without its last place. */
  lemma LastMoved(t: seq<Item>, i: int)
    requires 0 <= i < |t| - 1 && HeapOrder(t, |t|)
    ensures MayBeWrong(Swapped(t, i, |t| - 1), i, |t| - 1)
  {
    forall k | 1 <= k < |t| - 1 && Parent(k) == i && 1 <= i ensures t[Parent(i)].at <= t[k].at {}
  }

  // ---------- The heap as a map from keys to times ----------

  predicate Apart(t: seq<Item>, i: int, j: int)
    requires 0 <= i < |t| && 0 <= j < |t|
  {
    t[i].key != t[j].key
  }

  predicate IsEntry(t: seq<Item>, e: Expiry, i: int)
    requires 0 <= i < |t|
  {
    t[i].key in e && e[t[i].key] == t[i].at
  }

  /** The items are the entries of `e`, each key once. */
  ghost predicate Maps(t: seq<Item>, e: Expiry) {
    && |t| == |e|
    && (forall i, j {:trigger Apart(t, i, j)} :: 0 <= i < j < |t| ==> Apart(t, i, j))
    && forall i {:trigger IsEntry(t, e, i)} :: 0 <= i < |t| ==> IsEntry(t, e, i)
  }

  function Keys(t: seq<Item>): (r: set<Bytes>)
    ensures forall i :: 0 <= i < |t| ==> t[i].key in r
    ensures forall k :: k in r ==> exists i :: 0 <= i < |t| && t[i].key == k
  {
    set x | x in t :: x.key
  }

  lemma KeysSnoc(t: seq<Item>, x: Item)
    ensures Keys(t + [x]) == Keys(t) + {x.key}
  {
    var r := t + [x];
    assert r[|t|] == x;
    forall i | 0 <= i < |t| ensures t[i].key in Keys(r) { assert r[i] == t[i]; }
  }

  lemma {:induction false} KeysCount(t: seq<Item>)
    requires forall i, j {:trigger Apart(t, i, j)} :: 0 <= i < j < |t| ==> Apart(t, i, j)
    ensures |Keys(t)| == |t|
  {
    if t != [] {
      var r, x := t[..|t| - 1], t[|t| - 1];
      forall i, j | 0 <= i < j < |r| ensures Apart(r, i, j) { assert Apart(t, i, j); }
      KeysCount(r);
      forall i | 0 <= i < |r| ensures r[i].key != x.key { assert Apart(t, i, |t| - 1); }
      assert t == r + [x];
      KeysSnoc(r, x);
    }
  }

  lemma SubsetOfSameSize<T>(a: set<T>, b: set<T>)
    requires a <= b && |a| == |b|
    ensures a == b
  {
    assert |b - a| == |b| - |a|;
  }

  /** Every entry has its place among the items, and every place its entry. */
  lemma PlaceOf(t: seq<Item>, e: Expiry, k: Bytes) returns (i: int)
    requires Maps(t, e) && k in e
    ensures 0 <= i < |t| && t[i] == Item(k, e[k])
  {
    KeysCount(t);
    forall i | 0 <= i < |t| ensures t[i].key in e { assert IsEntry(t, e, i); }
    SubsetOfSameSize(Keys(t), e.Keys);
    i :| 0 <= i < |t| && t[i].key == k;
    assert IsEntry(t, e, i);
  }

  lemma MapsSwapped(t: seq<Item>, e: Expiry, i: int, j: int)
    requires Maps(t, e) && 0 <= i < |t| && 0 <= j < |t|
    ensures Maps(Swapped(t, i, j), e)
  {
    var r := Swapped(t, i, j);
    forall a, b | 0 <= a < b < |r| ensures Apart(r, a, b) {
      var c, d := Place(a, i, j), Place(b, i, j);
      assert if c < d then Apart(t, c, d) else Apart(t, d, c);
    }
    forall a | 0 <= a < |r| ensures IsEntry(r, e, a) {
      assert IsEntry(t, e, Place(a, i, j));
    }
  }

  function Place(a: int, i: int, j: int): int {
    if a == i then j else if a == j then i else a
  }

  lemma MapsPushed(t: seq<Item>, e: Expiry, x: Item)
    requires Maps(t, e) && x.key !in e
    ensures Maps(t + [x], e[x.key := x.at])
  {
    var r, more := t + [x], e[x.key := x.at];
    forall a | 0 <= a < |r| ensures IsEntry(r, more, a) {
      assert a < |t| ==> IsEntry(t, e, a);
    }
    forall a, b | 0 <= a < b < |r| ensures Apart(r, a, b) {
      assert if b < |t| then Apart(t, a, b) else IsEntry(t, e, a);
    }
  }

  lemma MapsPopped(t: seq<Item>, e: Expiry)
    requires Maps(t, e) && t != []
    ensures Maps(t[..|t| - 1], e - {t[|t| - 1].key})
  {
    var r, k := t[..|t| - 1], t[|t| - 1].key;
    assert IsEntry(t, e, |t| - 1);
    assert (e - {k}).Keys == e.Keys - {k};
    forall a | 0 <= a < |r| ensures IsEntry(r, e - {k}, a) {
      assert IsEntry(t, e, a) && Apart(t, a, |t| - 1);
    }
    forall a, b | 0 <= a < b < |r| ensures Apart(r, a, b) {
      assert Apart(t, a, b);
    }
  }

  lemma MapsUpdated(t: seq<Item>, e: Expiry, i: int, at: int)
    requires Maps(t, e) && 0 <= i < |t|
    ensures Maps(t[i := Item(t[i].key, at)], e[t[i].key := at])
  {
    var r, moved := t[i := Item(t[i].key, at)], e[t[i].key := at];
    assert IsEntry(t, e, i);
    forall a | 0 <= a < |r| ensures IsEntry(r, moved, a) {
      assert IsEntry(t, e, a);
      assert a < i ==> Apart(t, a, i);
      assert i < a ==> Apart(t, i, a);
    }
    forall a, b | 0 <= a < b < |r| ensures Apart(r, a, b) {
      assert Apart(t, a, b);
    }
  }

  /** No entry is due before the root's. */
  lemma RootIsEarliest(t: seq<Item>, e: Expiry)
    requires Maps(t, e) && HeapOrder(t, |t|) && t != []
    ensures t[0].key in e && e[t[0].key] == t[0].at && forall k :: k in e ==> t[0].at <= e[k]
  {
    assert IsEntry(t, e, 0);
    forall k | k in e ensures t[0].at <= e[k] {
      var i := PlaceOf(t, e, k);
      RootFirst(t, i);
    }
  }

  // ---------- The heap object ----------

  class TtlEntry {
    const cacheKey: Bytes
    var ttl: int
    var index: int

    constructor (cacheKey: Bytes, ttl: int)
      ensures this.cacheKey == cacheKey && this.ttl == ttl
    {
      this.cacheKey, this.ttl, index := cacheKey, ttl, 0;
    }
  }

  function Members(nodes: seq<TtlEntry>): set<TtlEntry> {
    set x | x in nodes
  }

  lemma SwapMembers(nodes: seq<TtlEntry>, i: int, j: int)
    requires 0 <= i < |nodes| && 0 <= j < |nodes|
    ensures Members(Swapped(nodes, i, j)) == Members(nodes)
  {
    var r := Swapped(nodes, i, j);
    forall x | x in nodes ensures x in r {
      var k :| 0 <= k < |nodes| && nodes[k] == x;
      assert r[if k == i then j else if k == j then i else k] == x;
    }
  }

  lemma MembersWithoutLast(nodes: seq<TtlEntry>)
    requires nodes != [] && nodes[|nodes| - 1] !in nodes[..|nodes| - 1]
    ensures Members(nodes[..|nodes| - 1]) == Members(nodes) - {nodes[|nodes| - 1]}
  {
    var front, x := nodes[..|nodes| - 1], nodes[|nodes| - 1];
    assert nodes == front + [x];
  }

  /** The same items in the first `n` places, the others where they were. */
  ghost predicate Tail(before: seq<Item>, after: seq<Item>, n: int) {
    |before| == |after| && 0 <= n <= |before| && forall k :: n <= k < |before| ==> before[k] == after[k]
  }

  class TtlHeap {
    var nodes: seq<TtlEntry>
    /** What the nodes hold, place by place, and as a map. */
    ghost var items: seq<Item>
    ghost var expiry: Expiry

    /** Every node knows its place and holds its item; so no node is in two places. */
    ghost predicate Linked()
      reads this, nodes
    {
      && |items| == |nodes|
      && (forall i :: 0 <= i < |nodes| ==>
            nodes[i].index == i && nodes[i].cacheKey == items[i].key && nodes[i].ttl == items[i].at)
      && Maps(items, expiry)
    }

    ghost predicate Valid()
      reads this, nodes
    {
      Linked() && HeapOrder(items, |items|)
    }

    constructor ()
      ensures nodes == [] && items == [] && expiry == map[] && Valid()
    {
      nodes, items, expiry := [], [], map[];
    }

    method Swap(i: int, j: int)
      requires Linked() && 0 <= i < |nodes| && 0 <= j < |nodes|
      modifies this, Members(nodes)`index
      ensures Linked() && items == Swapped(old(items), i, j) && expiry == old(expiry)
      ensures Members(nodes) == Members(old(nodes))
    {
      SwapMembers(nodes, i, j);
      MapsSwapped(items, expiry, i, j);
      nodes, items := nodes[i := nodes[j]][j := nodes[i]], Swapped(items, i, j);
      nodes[i].index := i;
      nodes[j].index := j;
    }

    /** container/heap `up`, with the nodes from `n` on left alone. */
    method Up(j0: int, n: int)
      requires Linked() && 0 <= j0 < n <= |items| && MayBeEarly(items, j0, n)
      modifies this, Members(nodes)`index
      ensures Linked() && Tail(old(items), items, n) && HeapOrder(items, n) && expiry == old(expiry)
      ensures Members(nodes) == Members(old(nodes))
    {
      var j := j0;
      while j > 0 && nodes[j].ttl < nodes[Parent(j)].ttl
        invariant Linked() && Tail(old(items), items, n) && expiry == old(expiry)
        invariant Members(nodes) == Members(old(nodes))
        invariant 0 <= j < n && MayBeEarly(items, j, n)
        decreases j
      {
        SwapUp(items, j, n);
        Swap(Parent(j), j);
        j := Parent(j);
      }
    }

    /** The child of `i` that is due first. */
    method EarlierChild(i: int, n: int) returns (j: int)
      requires Linked() && 0 <= i && 2 * i + 1 < n <= |items|
      ensures i < j < n && Parent(j) == i
      ensures forall k {:trigger Parent(k)} :: 1 <= k < n && Parent(k) == i ==> items[j].at <= items[k].at
    {
      j := 2 * i + 1;
      if j + 1 < n && nodes[j + 1].ttl < nodes[j].ttl {
        j := j + 1;
      }
      ChildrenOf(i, n);
    }

    /** One round of container/heap `down`: the earlier child, if due before the node, changes places with it. */
    method DownStep(i: int, n: int) returns (j: int)
      requires Linked() && 0 <= i < n <= |items| && MayBeWrong(items, i, n)
      modifies this, Members(nodes)`index
      ensures Linked() && i <= j < n && Tail(old(items), items, n) && expiry == old(expiry)
      ensures Members(nodes) == Members(old(nodes))
      ensures if j == i then items == old(items) && MayBeEarly(items, i, n) else MayBeLate(items, j, n)
    {
      if 2 * i + 1 >= n {
        ChildrenOf(i, n);
        return i;
      }
      j := EarlierChild(i, n);
      if !(nodes[j].ttl < nodes[i].ttl) {
        return i;
      }
      SwapDown(items, i, j, n);
      Swap(i, j);
    }

    /** container/heap `down`; false if the node stayed where it was. */
    method Down(i0: int, n: int) returns (moved: bool)
      requires Linked() && 0 <= i0 < n <= |items| && MayBeWrong(items, i0, n)
      modifies this, Members(nodes)`index
      ensures Linked() && Tail(old(items), items, n) && expiry == old(expiry)
      ensures Members(nodes) == Members(old(nodes))
      ensures if moved then HeapOrder(items, n) else items == old(items) && MayBeEarly(items, i0, n)
    {
      var i, j := i0, -1;
      while i != j
        invariant Linked() && Tail(old(items), items, n) && expiry == old(expiry)
        invariant Members(nodes) == Members(old(nodes))
        invariant i0 <= i < n && MayBeWrong(items, i, n)
        invariant if i > i0 then MayBeLate(items, i, n) else items == old(items)
        invariant i == j ==> MayBeEarly(items, i, n)
        decreases n - i, i != j
      {
        j := DownStep(i, n);
        if j != i {
          i, j := j, -1;
        }
      }
      moved := i > i0;
    }

    /** Down, or else up: what Fix and Remove do around a place. */
    method Settle(i: int, n: int)
      requires Linked() && 0 <= i < n <= |items| && MayBeWrong(items, i, n)
      modifies this, Members(nodes)`index
      ensures Linked() && Tail(old(items), items, n) && HeapOrder(items, n) && expiry == old(expiry)
      ensures Members(nodes) == Members(old(nodes))
    {
      var moved := Down(i, n);
      if !moved {
        Up(i, n);
      }
    }

    /** container/heap `Push`. */
    method Push(x: TtlEntry)
      requires Valid() && x !in nodes && x.cacheKey !in expiry
      modifies this, Members(nodes)`index, x`index
      ensures Valid() && |items| == |old(items)| + 1 && expiry == old(expiry)[x.cacheKey := x.ttl]
      ensures Members(nodes) == Members(old(nodes)) + {x}
      ensures 0 <= x.index < |items| && items[x.index].key == x.cacheKey
    {
      MapsPushed(items, expiry, Item(x.cacheKey, x.ttl));
      x.index := |nodes|;
      nodes, items, expiry := nodes + [x], items + [Item(x.cacheKey, x.ttl)], expiry[x.cacheKey := x.ttl];
      Up(|nodes| - 1, |nodes|);
      assert x in Members(nodes);
    }

    /** `addCfgToTTLHeap` when there is a time-to-live: a new node is pushed, and its place read; -1 otherwise. */
    method Schedule(k: Bytes, d: int, now: int) returns (index: int)
      requires Valid() && k !in expiry
      modifies this, Members(nodes)`index
      ensures Valid() && expiry == if d > 0 then old(expiry)[k := now + d] else old(expiry)
      ensures if d > 0 then 0 <= index < |items| && items[index].key == k else index == -1
      ensures fresh(Members(nodes) - Members(old(nodes)))
    {
      if d <= 0 {
        return -1;
      }
      var node := new TtlEntry(k, now + d);
      Push(node);
      index := node.index;
    }

    /** The heap's own `Pop`, which container/heap calls last. */
    method PopLast() returns (x: TtlEntry)
      requires Linked() && |items| > 0 && HeapOrder(items, |items| - 1)
      modifies this, Members(nodes)`index
      ensures Valid() && items == old(items)[..|old(items)| - 1]
      ensures x.cacheKey == old(items)[|old(items)| - 1].key && expiry == old(expiry) - {x.cacheKey}
      ensures x.index == -1 && x in old(nodes) && Members(nodes) == Members(old(nodes)) - {x}
    {
      MapsPopped(items, expiry);
      var n := |nodes|;
      x := nodes[n - 1];
      assert x !in nodes[..n - 1] by { assert forall i :: 0 <= i < n ==> nodes[i].index == i; }
      MembersWithoutLast(nodes);
      x.index := -1;
      nodes, items, expiry := nodes[..n - 1], items[..n - 1], expiry - {x.cacheKey};
    }

    /** container/heap `Pop`; on a single node the swap and the descent are void. */
    method Pop() returns (x: TtlEntry)
      requires Valid() && |items| > 0
      modifies this, Members(nodes)`index
      ensures Valid() && x.cacheKey == old(items)[0].key
      ensures |items| == |old(items)| - 1 && expiry == old(expiry) - {x.cacheKey}
      ensures x in old(nodes) && Members(nodes) == Members(old(nodes)) - {x}
    {
      var n := |nodes| - 1;
      if n != 0 {
        LastMoved(items, 0);
        Swap(0, n);
        var _ := Down(0, n);
      }
      x := PopLast();
    }

    /** The root's key, popped if its time has passed. */
    method PopDue(now: int) returns (due: Option<Bytes>)
      requires Valid()
      modifies this, Members(nodes)`index
      ensures Valid() && Members(nodes) <= Members(old(nodes))
      ensures if old(items) == [] || now <= old(items)[0].at then
                due == None && items == old(items) && expiry == old(expiry)
              else due == Some(old(items)[0].key) && expiry == old(expiry) - {old(items)[0].key}
    {
      if |nodes| == 0 || !(now > nodes[0].ttl) {
        return None;
      }
      var node := Pop();
      due := Some(node.cacheKey);
    }

    /** container/heap `Remove`. */
    method Remove(i: int) returns (x: TtlEntry)
      requires Valid() && 0 <= i < |items|
      modifies this, Members(nodes)`index
      ensures Valid() && x.cacheKey == old(items)[i].key
      ensures |items| == |old(items)| - 1 && expiry == old(expiry) - {x.cacheKey}
      ensures x in old(nodes) && Members(nodes) == Members(old(nodes)) - {x}
    {
      var n := |nodes| - 1;
      if n != i {
        LastMoved(items, i);
        Swap(i, n);
        Settle(i, n);
      }
      x := PopLast();
    }

    /** Giving the node at a place a new time, and container/heap `Fix`. */
    method Update(i: int, at: int)
      requires Valid() && 0 <= i < |items|
      modifies this, Members(nodes)
      ensures Valid() && |items| == |old(items)| && expiry == old(expiry)[old(items)[i].key := at]
      ensures Members(nodes) == Members(old(nodes))
    {
      var v := Item(items[i].key, at);
      Overwritten(items, i, v);
      MapsUpdated(items, expiry, i, at);
      nodes[i].ttl := at;
      items, expiry := items[i := v], expiry[v.key := at];
      Settle(i, |nodes|);
    }

    /** `updateCfgInTTLHeap` or `removeCfgFromTTLHeap` on the node at `i`, if `i` is a place. */
    method Reschedule(i: int, d: int, now: int) returns (index: int)
      requires Valid() && i < |items|
      modifies this, Members(nodes)
      ensures Valid() && expiry == if i < 0 then old(expiry)
                                   else if d > 0 then old(expiry)[old(items)[i].key := now + d]
                                   else old(expiry) - {old(items)[i].key}
      ensures index == if i >= 0 && d <= 0 then -1 else i
      ensures Members(nodes) <= Members(old(nodes))
    {
      index := i;
      if i >= 0 {
        if d > 0 {
          Update(i, now + d);
        } else {
          var _ := Remove(i);
          index := -1;
        }
      }
    }
  }

  lemma ChildrenOf(i: int, n: int)
    requires 0 <= i
    ensures forall k {:trigger Parent(k)} :: 1 <= k < n && Parent(k) == i ==> k == 2 * i + 1 || k == 2 * i + 2
  {
  }
}

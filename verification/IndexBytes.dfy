/**
 Index values: a byte string holding 32-byte object keys end to end, kept sorted
 (internal/resource/store/store.go, splitObjects, addObjKeyToIndex,
 deleteObjKeyFromIndex).
 */
module IndexBytes {
  import opened Bytes

  const OBJ_KEY_SIZE := 32

  type ObjKey = h: Bytes | |h| == OBJ_KEY_SIZE witness seq(OBJ_KEY_SIZE, _ => 0 as char)

  // ---------- Chunks ----------

  /** The byte string of a list of object keys. */
  function Flatten(keys: seq<ObjKey>): (b: Bytes)
    ensures |b| == |keys| * 32
  {
    if keys == [] then [] else keys[0] + Flatten(keys[1..])
  }

  lemma {:induction false} FlattenSlice(keys: seq<ObjKey>, m: nat)
    requires m < |keys|
    ensures Flatten(keys)[m * OBJ_KEY_SIZE..(m + 1) * OBJ_KEY_SIZE] == keys[m]
    ensures Flatten(keys)[..m * OBJ_KEY_SIZE] == Flatten(keys[..m])
    ensures Flatten(keys)[(m + 1) * OBJ_KEY_SIZE..] == Flatten(keys[m + 1..])
  {
    var b := Flatten(keys);
    if m > 0 {
      FlattenSlice(keys[1..], m - 1);
      var c := Flatten(keys[1..]);
      assert b[m * OBJ_KEY_SIZE..(m + 1) * OBJ_KEY_SIZE] == c[(m - 1) * OBJ_KEY_SIZE..m * OBJ_KEY_SIZE];
      assert b[(m + 1) * OBJ_KEY_SIZE..] == c[m * OBJ_KEY_SIZE..];
      assert b[..m * OBJ_KEY_SIZE] == keys[0] + c[..(m - 1) * OBJ_KEY_SIZE];
      assert keys[1..][..m - 1] == keys[..m][1..];
      assert keys[1..][m..] == keys[m + 1..];
    }
  }

  lemma {:induction false} FlattenConcat(keys: seq<ObjKey>, more: seq<ObjKey>)
    ensures Flatten(keys + more) == Flatten(keys) + Flatten(more)
  {
    if keys == [] {
      assert keys + more == more;
    } else {
      calc {
        Flatten(keys + more);
        keys[0] + Flatten((keys + more)[1..]);
        { assert (keys + more)[1..] == keys[1..] + more; }
        keys[0] + Flatten(keys[1..] + more);
        { FlattenConcat(keys[1..], more); }
        keys[0] + (Flatten(keys[1..]) + Flatten(more));
        Flatten(keys) + Flatten(more);
      }
    }
  }

  /** `splitObjects`: cuts an index value into its object keys. */
  method SplitObjects(b: Bytes, ghost keys: seq<ObjKey>) returns (chunks: seq<ObjKey>)
    requires b == Flatten(keys)
    ensures chunks == keys && |b| == 32 * |chunks|
    ensures forall i :: 0 <= i < |chunks| ==> chunks[i] == b[32 * i..32 * (i + 1)]
  {
    chunks := [];
    var i := 0;
    while i < |b|
      invariant i == |chunks| * OBJ_KEY_SIZE && |chunks| <= |keys|
      invariant chunks == keys[..|chunks|]
      invariant forall j :: 0 <= j < |chunks| ==> chunks[j] == b[32 * j..32 * (j + 1)]
    {
      FlattenSlice(keys, |chunks|);
      chunks := chunks + [b[i..i + OBJ_KEY_SIZE]];
      i := i + OBJ_KEY_SIZE;
    }
  }

  /** `bytes.Join` with an empty separator. */
  method JoinObjects(keys: seq<ObjKey>) returns (b: Bytes)
    ensures b == Flatten(keys)
  {
    b := [];
    for i := 0 to |keys|
      invariant b == Flatten(keys[..i])
    {
      FlattenConcat(keys[..i], [keys[i]]);
      assert keys[..i + 1] == keys[..i] + [keys[i]];
      assert Flatten([keys[i]]) == keys[i];
      b := b + keys[i];
    }
    assert keys[..|keys|] == keys;
  }

  // ---------- Sorting ----------

  predicate Sorted(keys: seq<ObjKey>) {
    forall i, j :: 0 <= i < j < |keys| ==> Leq(keys[i], keys[j])
  }

  function Insert(keys: seq<ObjKey>, h: ObjKey): (r: seq<ObjKey>)
    ensures multiset(r) == multiset(keys) + multiset{h}
  {
    if keys == [] || !Leq(h, keys[|keys| - 1]) || h == keys[|keys| - 1] then keys + [h]
    else
      var n := |keys| - 1;
      assert keys == keys[..n] + [keys[n]];
      Insert(keys[..n], h) + [keys[n]]
  }

  /** The order `slices.SortFunc` with `bytes.Compare` leaves. */
  function SortKeys(keys: seq<ObjKey>): (r: seq<ObjKey>)
    ensures multiset(r) == multiset(keys)
  {
    if keys == [] then []
    else
      var n := |keys| - 1;
      assert keys == keys[..n] + [keys[n]];
      Insert(SortKeys(keys[..n]), keys[n])
  }

  lemma SortedSnoc(keys: seq<ObjKey>, h: ObjKey)
    requires Sorted(keys) && forall k :: k in keys ==> Leq(k, h)
    ensures Sorted(keys + [h])
  {
  }

  lemma AppendSorted(keys: seq<ObjKey>, h: ObjKey)
    requires Sorted(keys) && keys != [] && Leq(keys[|keys| - 1], h)
    ensures Sorted(keys + [h])
  {
    forall k | k in keys ensures Leq(k, h) {
      LastIsGreatest(keys, k);
      LeqTransitive(k, keys[|keys| - 1], h);
    }
    SortedSnoc(keys, h);
  }

  lemma InsertMembers(keys: seq<ObjKey>, h: ObjKey, k: ObjKey)
    requires k in Insert(keys, h)
    ensures k == h || k in keys
  {
    assert k in multiset(Insert(keys, h));
  }

  lemma {:induction false} InsertSorted(keys: seq<ObjKey>, h: ObjKey)
    requires Sorted(keys)
    ensures Sorted(Insert(keys, h))
  {
    var n := |keys| - 1;
    if keys == [] {
    } else if !Leq(h, keys[n]) || h == keys[n] {
      LeqTotal(h, keys[n]);
      AppendSorted(keys, h);
    } else {
      InsertSorted(keys[..n], h);
      var r := Insert(keys[..n], h);
      forall k | k in r ensures Leq(k, keys[n]) {
        InsertMembers(keys[..n], h, k);
      }
      SortedSnoc(r, keys[n]);
    }
  }

  lemma {:induction false} SortKeysSorted(keys: seq<ObjKey>)
    ensures Sorted(SortKeys(keys))
  {
    if keys != [] {
      SortKeysSorted(keys[..|keys| - 1]);
      InsertSorted(SortKeys(keys[..|keys| - 1]), keys[|keys| - 1]);
    }
  }

  lemma SortKeysMembers(keys: seq<ObjKey>, h: ObjKey)
    ensures forall g :: g in SortKeys(keys + [h]) <==> g == h || g in keys
  {
    forall g ensures g in SortKeys(keys + [h]) <==> g == h || g in keys {
      assert g in multiset(SortKeys(keys + [h])) <==> g in multiset(keys + [h]);
    }
  }

  lemma LastIsGreatest(a: seq<ObjKey>, x: ObjKey)
    requires Sorted(a) && x in a
    ensures Leq(x, a[|a| - 1])
  {
    LeqTotal(x, x);
  }

  lemma SameLast(a: seq<ObjKey>, b: seq<ObjKey>)
    requires Sorted(a) && Sorted(b) && multiset(a) == multiset(b) && a != [] && b != []
    ensures a[|a| - 1] == b[|b| - 1]
  {
    var x, y := a[|a| - 1], b[|b| - 1];
    assert x in multiset(a) && y in multiset(b);
    LastIsGreatest(a, y);
    LastIsGreatest(b, x);
    LeqAntisymmetric(x, y);
  }

  lemma DropLast(a: seq<ObjKey>)
    requires a != []
    ensures a == a[..|a| - 1] + [a[|a| - 1]]
    ensures multiset(a[..|a| - 1]) == multiset(a) - multiset{a[|a| - 1]}
  {
    assert a == a[..|a| - 1] + [a[|a| - 1]];
  }

  /** Whatever the sorting algorithm, there is only one sorted arrangement. */
  lemma {:induction false} SortedArrangementUnique(a: seq<ObjKey>, b: seq<ObjKey>)
    requires Sorted(a) && Sorted(b) && multiset(a) == multiset(b)
    ensures a == b
  {
    if a == [] || b == [] {
      assert |multiset(a)| == |multiset(b)|;
    } else {
      SameLast(a, b);
      DropLast(a);
      DropLast(b);
      SortedArrangementUnique(a[..|a| - 1], b[..|b| - 1]);
    }
  }

  // ---------- Removing one key ----------

  function RemoveAt(keys: seq<ObjKey>, m: nat): (r: seq<ObjKey>)
    requires m < |keys|
    ensures multiset(r) == multiset(keys) - multiset{keys[m]}
  {
    assert keys == keys[..m] + [keys[m]] + keys[m + 1..];
    keys[..m] + keys[m + 1..]
  }

  /**
   The binary search of deleteObjKeyFromIndex over [l, h), giving an index or -1.
   `back` is what the upper bound steps back from the midpoint: the code has 1,
   which suits a closed upper bound, although the bound here is open.
   */
  function Search(keys: seq<ObjKey>, v: ObjKey, l: int, h: int, back: nat): (m: int)
    requires 0 <= l && h <= |keys|
    ensures m == -1 || (l <= m < h && keys[m] == v)
    decreases h - l
  {
    if l >= h then -1
    else
      var m := (l + h) / 2;
      if keys[m] == v then m
      else if Leq(keys[m], v) then Search(keys, v, m + 1, h, back)
      else Search(keys, v, l, m - back, back)
  }

  function DeleteKey(keys: seq<ObjKey>, v: ObjKey, back: nat): seq<ObjKey> {
    var m := Search(keys, v, 0, |keys|, back);
    if m == -1 then keys else RemoveAt(keys, m)
  }

  /** The specification of removal: the first occurrence goes, by a linear scan. */
  function LinearRemove(keys: seq<ObjKey>, v: ObjKey): seq<ObjKey> {
    if keys == [] then []
    else if keys[0] == v then keys[1..]
    else [keys[0]] + LinearRemove(keys[1..], v)
  }

  /** Position `i` of [l, h) can be a midpoint; this does not depend on the keys. */
  predicate Probed(l: int, h: int, i: int, back: nat)
    decreases h - l
  {
    l < h &&
    var m := (l + h) / 2;
    i == m || (i > m && Probed(m + 1, h, i, back)) || (i < m && Probed(l, m - back, i, back))
  }

  /** What the search returns it has probed. */
  lemma {:induction false} SearchProbes(keys: seq<ObjKey>, v: ObjKey, l: int, h: int, back: nat)
    requires 0 <= l && h <= |keys|
    ensures var m := Search(keys, v, l, h, back); m != -1 ==> Probed(l, h, m, back)
    decreases h - l
  {
    if l < h {
      var m := (l + h) / 2;
      SearchProbes(keys, v, m + 1, h, back);
      SearchProbes(keys, v, l, m - back, back);
    }
  }

  /** On a sorted index no probed occurrence is passed over. */
  lemma {:induction false} SearchFinds(keys: seq<ObjKey>, v: ObjKey, l: int, h: int, back: nat, i: int)
    requires 0 <= l && h <= |keys| && Sorted(keys)
    requires l <= i < h && keys[i] == v && Probed(l, h, i, back)
    ensures Search(keys, v, l, h, back) != -1
    decreases h - l
  {
    var m := (l + h) / 2;
    if keys[m] != v {
      if i < m {
        if Leq(keys[m], v) { LeqAntisymmetric(keys[m], v); }
        ProbedInRange(l, m - back, i, back);
        SearchFinds(keys, v, l, m - back, back, i);
      } else {
        SearchFinds(keys, v, m + 1, h, back, i);
      }
    }
  }

  /** On a sorted index the search finds a key exactly when an occurrence lies at a probed position. */
  lemma SearchExact(keys: seq<ObjKey>, v: ObjKey, back: nat)
    requires Sorted(keys)
    ensures Search(keys, v, 0, |keys|, back) != -1
            <==> exists i :: 0 <= i < |keys| && keys[i] == v && Probed(0, |keys|, i, back)
  {
    SearchProbes(keys, v, 0, |keys|, back);
    if i :| 0 <= i < |keys| && keys[i] == v && Probed(0, |keys|, i, back) {
      SearchFinds(keys, v, 0, |keys|, back, i);
    }
  }

  lemma {:induction false} ProbedInRange(l: int, h: int, i: int, back: nat)
    requires Probed(l, h, i, back)
    ensures l <= i < h
    decreases h - l
  {
    var m := (l + h) / 2;
    if i > m { ProbedInRange(m + 1, h, i, back); }
    if i < m { ProbedInRange(l, m - back, i, back); }
  }

  /** Without the extra step back every position is probed. */
  lemma {:induction false} AllProbed(l: int, h: int, i: int)
    requires l <= i < h
    ensures Probed(l, h, i, 0)
    decreases h - l
  {
    var m := (l + h) / 2;
    if i > m { AllProbed(m + 1, h, i); }
    if i < m { AllProbed(l, m, i); }
  }

  /** As written, the key left of every midpoint that is too large is skipped. */
  lemma LeftNeighbourMissed(l: int, h: int)
    requires l < h
    ensures !Probed(l, h, (l + h) / 2 - 1, 1)
  {
    var m := (l + h) / 2;
    if Probed(l, m - 1, m - 1, 1) {
      ProbedInRange(l, m - 1, m - 1, 1);
      assert false;
    }
  }

  /** As written, removal leaves the first key of any two-key index in place. */
  lemma TwoKeysFirstMissed(a: ObjKey, b: ObjKey)
    requires a != b && Leq(a, b)
    ensures Sorted([a, b]) && a in [a, b] && DeleteKey([a, b], a, 1) == [a, b]
    ensures LinearRemove([a, b], a) == [b]
  {
    assert !Leq(b, a) by {
      if Leq(b, a) { LeqAntisymmetric(a, b); }
    }
    assert Search([a, b], a, 0, 0, 1) == -1;
    assert Search([a, b], a, 0, 2, 1) == -1;
  }

  /**
   Whatever the search misses, removal keeps the index sorted and either leaves it
   alone or takes out one occurrence of the value.
   */
  lemma DeleteKeyFrame(keys: seq<ObjKey>, v: ObjKey, back: nat)
    requires Sorted(keys)
    ensures Sorted(DeleteKey(keys, v, back))
    ensures DeleteKey(keys, v, back) == keys || DeleteKey(keys, v, back) == LinearRemove(keys, v)
    ensures multiset(DeleteKey(keys, v, back)) == multiset(keys)
            || (v in keys && multiset(DeleteKey(keys, v, back)) == multiset(keys) - multiset{v})
  {
    var m := Search(keys, v, 0, |keys|, back);
    if m != -1 {
      RemoveIsLinear(keys, v, m);
    }
  }

  /** Equal keys are adjacent in a sorted index, so it does not matter which one goes. */
  lemma {:induction false} RemoveIsLinear(keys: seq<ObjKey>, v: ObjKey, m: nat)
    requires Sorted(keys) && m < |keys| && keys[m] == v
    ensures RemoveAt(keys, m) == LinearRemove(keys, v)
  {
    if keys[0] == v {
      forall i | 0 <= i < m ensures keys[i] == v {
        if i > 0 { LeqAntisymmetric(keys[i], v); }
      }
      assert RemoveAt(keys, m) == keys[1..];
    } else {
      RemoveIsLinear(keys[1..], v, m - 1);
      assert RemoveAt(keys, m) == [keys[0]] + RemoveAt(keys[1..], m - 1);
    }
  }

  /**
   The removal meets its specification exactly when the value is absent or some
   occurrence of it lies at a probed position.
   */
  lemma DeleteKeyExact(keys: seq<ObjKey>, v: ObjKey, back: nat)
    requires Sorted(keys)
    ensures DeleteKey(keys, v, back) == LinearRemove(keys, v)
            <==> v !in keys || exists i :: 0 <= i < |keys| && keys[i] == v && Probed(0, |keys|, i, back)
  {
    SearchExact(keys, v, back);
    LinearRemoveLength(keys, v);
    var m := Search(keys, v, 0, |keys|, back);
    if m != -1 {
      RemoveIsLinear(keys, v, m);
    }
  }

  lemma {:induction false} LinearRemoveLength(keys: seq<ObjKey>, v: ObjKey)
    ensures v in keys ==> |LinearRemove(keys, v)| == |keys| - 1
    ensures v !in keys ==> LinearRemove(keys, v) == keys
  {
    if keys != [] && keys[0] != v {
      LinearRemoveLength(keys[1..], v);
      assert keys == [keys[0]] + keys[1..];
    }
  }

  /** With the upper bound stepping to the midpoint itself, removal is exact on every sorted index. */
  lemma HalfOpenDeleteExact(keys: seq<ObjKey>, v: ObjKey)
    requires Sorted(keys)
    ensures DeleteKey(keys, v, 0) == LinearRemove(keys, v)
  {
    DeleteKeyExact(keys, v, 0);
    if v in keys {
      var i :| 0 <= i < |keys| && keys[i] == v;
      AllProbed(0, |keys|, i);
    }
  }

  lemma FlattenRemove(keys: seq<ObjKey>, m: nat)
    requires m < |keys|
    ensures (m + 1) * OBJ_KEY_SIZE <= |Flatten(keys)|
    ensures Flatten(keys)[m * OBJ_KEY_SIZE..(m + 1) * OBJ_KEY_SIZE] == keys[m]
    ensures Flatten(keys)[..m * OBJ_KEY_SIZE] + Flatten(keys)[(m + 1) * OBJ_KEY_SIZE..] == Flatten(RemoveAt(keys, m))
  {
    FlattenSlice(keys, m);
    FlattenConcat(keys[..m], keys[m + 1..]);
  }

  /** The search and removal of deleteObjKeyFromIndex on the bytes of an index value. */
  method DeleteFromBytes(val: Bytes, value: ObjKey, ghost keys: seq<ObjKey>) returns (newVal: Bytes)
    requires val == Flatten(keys)
    ensures newVal == Flatten(DeleteKey(keys, value, 1))
  {
    var n := |val| / OBJ_KEY_SIZE;
    assert n == |keys|;
    var l, h := 0, n;
    newVal := val;
    while l < h
      invariant 0 <= l && h <= n
      invariant Search(keys, value, 0, |keys|, 1) == Search(keys, value, l, h, 1)
      decreases h - l
    {
      var m := (l + h) / 2;
      FlattenRemove(keys, m);
      var probe := val[m * OBJ_KEY_SIZE..(m + 1) * OBJ_KEY_SIZE];
      if probe == value {
        return val[..m * OBJ_KEY_SIZE] + val[(m + 1) * OBJ_KEY_SIZE..];
      } else if Leq(probe, value) {
        l := m + 1;
      } else {
        h := m - 1;
      }
    }
  }
}

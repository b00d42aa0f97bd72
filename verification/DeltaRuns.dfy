/**
 Counter deltas between collections (pkg/performance/delta.go), in the two shapes the
 collectors have: the baseline moves only when a delta is emitted
 (pkg/performance/collectors/cpu.go), or on every collection
 (pkg/performance/collectors/disk.go).
 */
module DeltaRuns {
  import opened Bytes

  /** The ten counters of a CPU or of a disk. */
  type Fields = s: seq<nat> | |s| == 10 witness [0, 0, 0, 0, 0, 0, 0, 0, 0, 0]

  datatype Stat<K> = Stat(key: K, fields: Fields)

  datatype Delta = Delta(fields: Fields, resetDetected: bool)

  datatype Config = Config(disabled: bool, minInterval: int, maxInterval: int)

  /** `lastTime` is `None` for the zero time. */
  datatype Baseline<K> = Baseline(snapshot: Option<seq<Stat<K>>>, lastTime: Option<int>, isFirst: bool)

  // ---------- One delta ----------

  /** What a counter rose by; nothing if it was reset. */
  function Rise(current: nat, previous: nat): (r: nat)
    ensures previous <= current ==> previous + r == current
    ensures current < previous ==> r == 0
  {
    if current < previous then 0 else current - previous
  }

  function DeltaOf(current: Fields, previous: Fields): Delta {
    Delta(seq(10, i requires 0 <= i < 10 => Rise(current[i], previous[i])),
          exists i :: 0 <= i < 10 && current[i] < previous[i])
  }

  /** The last entry that carries `k`, or -1. */
  function LastAt<K(==)>(sample: seq<Stat<K>>, k: K): (i: int)
    ensures -1 <= i < |sample| && (i >= 0 ==> sample[i].key == k)
    ensures forall j :: i < j < |sample| ==> sample[j].key != k
  {
    if sample == [] then -1
    else if sample[|sample| - 1].key == k then |sample| - 1
    else LastAt(sample[..|sample| - 1], k)
  }

  /** The counters under `k`: those of the last entry that carries it. */
  function LastOf<K(==)>(sample: seq<Stat<K>>, k: K): Option<Fields> {
    if LastAt(sample, k) < 0 then None else Some(sample[LastAt(sample, k)].fields)
  }

  /** The delta of every entry whose key the previous sample has. */
  function DeltasOf<K(==)>(current: seq<Stat<K>>, previous: seq<Stat<K>>): seq<Option<Delta>> {
    seq(|current|, i requires 0 <= i < |current| =>
      var p := LastOf(previous, current[i].key);
      if p.None? then None else Some(DeltaOf(current[i].fields, p.value)))
  }

  method CalculateDelta(current: Fields, previous: Fields) returns (d: Delta)
    ensures d == DeltaOf(current, previous)
    ensures forall i :: 0 <= i < 10 ==>
              if current[i] < previous[i] then d.fields[i] == 0 else previous[i] + d.fields[i] == current[i]
    ensures d.resetDetected <==> exists i :: 0 <= i < 10 && current[i] < previous[i]
  {
    var fields: seq<nat>, reset := [], false;
    for i := 0 to 10
      invariant |fields| == i && forall k :: 0 <= k < i ==> fields[k] == Rise(current[k], previous[k])
      invariant reset <==> exists k :: 0 <= k < i && current[k] < previous[k]
    {
      if current[i] < previous[i] {
        fields, reset := fields + [0], true;
      } else {
        fields := fields + [current[i] - previous[i]];
      }
    }
    d := Delta(fields, reset);
  }

  method CalculateDeltas<K(==)>(current: seq<Stat<K>>, previous: seq<Stat<K>>) returns (deltas: seq<Option<Delta>>)
    ensures deltas == DeltasOf(current, previous)
  {
    var byKey: map<K, Fields> := map[];
    for i := 0 to |previous|
      invariant forall k :: k in byKey <==> LastOf(previous[..i], k).Some?
      invariant forall k :: k in byKey ==> LastOf(previous[..i], k) == Some(byKey[k])
    {
      assert previous[..i + 1][..i] == previous[..i];
      byKey := byKey[previous[i].key := previous[i].fields];
    }
    assert previous[..|previous|] == previous;
    deltas := [];
    for i := 0 to |current|
      invariant |deltas| == i && forall k :: 0 <= k < i ==> deltas[k] == DeltasOf(current, previous)[k]
    {
      var d := None;
      if current[i].key in byKey {
        var v := CalculateDelta(current[i].fields, byKey[current[i].key]);
        d := Some(v);
      }
      deltas := deltas + [d];
    }
  }

  // ---------- One collection ----------

  /** What a collection returns: no deltas, or one for every entry whose key is not new. */
  type Deltas = Option<seq<Option<Delta>>>

  predicate ShouldCalculate<K>(config: Config, b: Baseline<K>, now: int) {
    && !config.disabled && !b.isFirst && b.lastTime.Some?
    && config.minInterval <= now - b.lastTime.value <= config.maxInterval && now - b.lastTime.value >= 0
  }

  function Moved<K>(sample: seq<Stat<K>>, now: int): Baseline<K> {
    Baseline(Some(sample), Some(now), false)
  }

  class Collector<K(==)> {
    const config: Config
    var b: Baseline<K>

    constructor (config: Config)
      ensures this.config == config && b == Baseline(None, None, true)
    {
      this.config, b := config, Baseline(None, None, true);
    }

    /** `Collect` of the CPU collector: no deltas, or those of every entry. */
    method CollectCarrying(current: seq<Stat<K>>, now: int) returns (deltas: Deltas)
      modifies this
      ensures (b, deltas) == Carrying(config, old(b), current, now)
    {
      if !ShouldCalculate(config, b, now) {
        if b.isFirst {
          b := Moved(current, now);
        }
        return None;
      }
      if b.snapshot.None? {
        b := Moved(current, now);
        return None;
      }
      var d := CalculateDeltas(current, b.snapshot.value);
      b := Moved(current, now);
      deltas := Some(d);
    }

    /** `Collect` of the disk collector. */
    method CollectAdvancing(current: seq<Stat<K>>, now: int) returns (deltas: Deltas)
      modifies this
      ensures (b, deltas) == Advancing(config, old(b), current, now)
    {
      deltas := None;
      if !b.isFirst && b.snapshot.Some? {
        if ShouldCalculate(config, b, now) {
          var d := CalculateDeltas(current, b.snapshot.value);
          deltas := Some(d);
        }
      }
      b := Moved(current, now);
    }
  }

  function Carrying<K(==)>(config: Config, b: Baseline<K>, current: seq<Stat<K>>, now: int): (Baseline<K>, Deltas) {
    if ShouldCalculate(config, b, now) then
      (Moved(current, now), if b.snapshot.Some? then Some(DeltasOf(current, b.snapshot.value)) else None)
    else (if b.isFirst then Moved(current, now) else b, None)
  }

  function Advancing<K(==)>(config: Config, b: Baseline<K>, current: seq<Stat<K>>, now: int): (Baseline<K>, Deltas) {
    (Moved(current, now),
     if b.snapshot.Some? && ShouldCalculate(config, b, now) then Some(DeltasOf(current, b.snapshot.value)) else None)
  }

  // ---------- Whole runs ----------

  /**
   A run: `trace[n]` is the baseline before collection `n`, which took `samples[n]` at
   `times[n]` and returned `outs[n]`.
   */
  datatype Run<K> = Run(config: Config, samples: seq<seq<Stat<K>>>, times: seq<int>, trace: seq<Baseline<K>>,
                        outs: seq<Deltas>)

  predicate Lengths<K>(r: Run<K>) {
    |r.times| == |r.outs| == |r.samples| && |r.trace| == |r.samples| + 1
  }

  ghost predicate IsCarrying<K>(r: Run<K>) {
    && Lengths(r) && r.trace[0] == Baseline(None, None, true)
    && forall n :: 0 <= n < |r.samples| ==>
         (r.trace[n + 1], r.outs[n]) == Carrying(r.config, r.trace[n], r.samples[n], r.times[n])
  }

  ghost predicate IsAdvancing<K>(r: Run<K>) {
    && Lengths(r) && r.trace[0] == Baseline(None, None, true)
    && forall n :: 0 <= n < |r.samples| ==>
         (r.trace[n + 1], r.outs[n]) == Advancing(r.config, r.trace[n], r.samples[n], r.times[n])
  }

  predicate Always<K(==)>(samples: seq<seq<Stat<K>>>, k: K) {
    forall n :: 0 <= n < |samples| ==> LastAt(samples[n], k) >= 0
  }

  /** Counter `f` of `k` in sample `n`. */
  function Value<K(==)>(samples: seq<seq<Stat<K>>>, k: K, f: int, n: int): nat
    requires Always(samples, k) && 0 <= n < |samples| && 0 <= f < 10
  {
    samples[n][LastAt(samples[n], k)].fields[f]
  }

  /** What collection `n` reports for that counter. */
  function Reported<K(==)>(r: Run<K>, k: K, f: int, n: int): nat
    requires Lengths(r) && Always(r.samples, k) && 0 <= n < |r.samples| && 0 <= f < 10
  {
    var at := LastAt(r.samples[n], k);
    if r.outs[n].None? || at >= |r.outs[n].value| || r.outs[n].value[at].None? then 0
    else r.outs[n].value[at].value.fields[f]
  }

  function Total<K(==)>(r: Run<K>, k: K, f: int, n: nat): nat
    requires Lengths(r) && Always(r.samples, k) && n <= |r.samples| && 0 <= f < 10
  {
    if n == 0 then 0 else Total(r, k, f, n - 1) + Reported(r, k, f, n - 1)
  }

  lemma ReportedAgainst<K>(r: Run<K>, k: K, f: int, n: int, base: int)
    requires Lengths(r) && Always(r.samples, k) && 0 <= n < |r.samples| && 0 <= f < 10 && 0 <= base < |r.samples|
    requires r.outs[n] == Some(DeltasOf(r.samples[n], r.samples[base]))
    ensures Reported(r, k, f, n) == Rise(Value(r.samples, k, f, n), Value(r.samples, k, f, base))
  {
  }

  // ---------- Carrying the baseline ----------

  /** The samples that were baselines before collection `n`, in order. */
  function Baselines<K>(r: Run<K>, n: nat): (s: seq<int>)
    requires Lengths(r) && n <= |r.samples|
    ensures n > 0 ==> |s| > 0
    ensures forall i :: 0 <= i < |s| ==> 0 <= s[i] < n
    ensures n > 0 ==> s[0] == 0
  {
    if n == 0 then []
    else if n == 1 || r.outs[n - 1].Some? then Baselines(r, n - 1) + [n - 1]
    else Baselines(r, n - 1)
  }

  /** The rises from each of the listed samples to the next. */
  function Rises<K(==)>(samples: seq<seq<Stat<K>>>, k: K, f: int, at: seq<int>): nat
    requires Always(samples, k) && 0 <= f < 10 && forall i :: 0 <= i < |at| ==> 0 <= at[i] < |samples|
  {
    if |at| <= 1 then 0
    else Rises(samples, k, f, at[..|at| - 1])
         + Rise(Value(samples, k, f, at[|at| - 1]), Value(samples, k, f, at[|at| - 2]))
  }

  function Latest(s: seq<int>): int
    requires s != []
  {
    s[|s| - 1]
  }

  /** The baseline is the last listed sample. */
  lemma {:induction false} BaselineIs<K>(r: Run<K>, n: nat)
    requires IsCarrying(r) && 0 < n <= |r.samples|
    ensures var j := Latest(Baselines(r, n)); r.trace[n] == Moved(r.samples[j], r.times[j])
  {
    assert (r.trace[n], r.outs[n - 1]) == Carrying(r.config, r.trace[n - 1], r.samples[n - 1], r.times[n - 1]);
    if n > 1 {
      BaselineIs(r, n - 1);
    }
  }

  /** A collection emits exactly when its distance from the baseline, not from the last collection, is acceptable. */
  lemma CarryingEmits<K>(r: Run<K>, n: nat)
    requires IsCarrying(r) && 0 < n < |r.samples|
    ensures var j := Latest(Baselines(r, n));
            var d := r.times[n] - r.times[j];
            && (r.outs[n].Some? <==> !r.config.disabled && r.config.minInterval <= d <= r.config.maxInterval && d >= 0)
            && (r.outs[n].Some? ==> r.outs[n] == Some(DeltasOf(r.samples[n], r.samples[j])))
  {
    BaselineIs(r, n);
    assert (r.trace[n + 1], r.outs[n]) == Carrying(r.config, r.trace[n], r.samples[n], r.times[n]);
  }

  lemma RisesSnoc<K>(samples: seq<seq<Stat<K>>>, k: K, f: int, at: seq<int>, n: int)
    requires Always(samples, k) && 0 <= f < 10 && at != [] && 0 <= n < |samples|
    requires forall i :: 0 <= i < |at| ==> 0 <= at[i] < |samples|
    ensures var more := at + [n];
            && (forall i :: 0 <= i < |more| ==> 0 <= more[i] < |samples|)
            && Rises(samples, k, f, more) ==
                  Rises(samples, k, f, at) + Rise(Value(samples, k, f, n), Value(samples, k, f, Latest(at)))
  {
    assert (at + [n])[..|at|] == at;
  }

  lemma CarryingFirst<K>(r: Run<K>, k: K, f: int)
    requires IsCarrying(r) && Always(r.samples, k) && 0 <= f < 10 && 0 < |r.samples|
    ensures Total(r, k, f, 1) == 0 && Baselines(r, 1) == [0]
  {
    assert (r.trace[1], r.outs[0]) == Carrying(r.config, r.trace[0], r.samples[0], r.times[0]);
    assert Total(r, k, f, 1) == Total(r, k, f, 0) + Reported(r, k, f, 0);
  }

  lemma CarryingReports<K>(r: Run<K>, k: K, f: int, n: nat)
    requires IsCarrying(r) && Always(r.samples, k) && 0 <= f < 10 && 0 < n < |r.samples|
    ensures Reported(r, k, f, n) ==
            if r.outs[n].Some? then Rise(Value(r.samples, k, f, n), Value(r.samples, k, f, Latest(Baselines(r, n))))
            else 0
  {
    CarryingEmits(r, n);
    if r.outs[n].Some? {
      ReportedAgainst(r, k, f, n, Latest(Baselines(r, n)));
    }
  }

  /** The total reported is the sum of the rises from baseline to baseline. */
  lemma {:induction false} CarryingTotal<K>(r: Run<K>, k: K, f: int, n: nat)
    requires IsCarrying(r) && Always(r.samples, k) && 0 <= f < 10 && 0 < n <= |r.samples|
    ensures Total(r, k, f, n) == Rises(r.samples, k, f, Baselines(r, n))
  {
    if n == 1 {
      CarryingFirst(r, k, f);
    } else {
      CarryingTotal(r, k, f, n - 1);
      CarryingReports(r, k, f, n - 1);
      if r.outs[n - 1].Some? {
        RisesSnoc(r.samples, k, f, Baselines(r, n - 1), n - 1);
      }
    }
  }

  predicate NeverDecreases<K(==)>(samples: seq<seq<Stat<K>>>, k: K, f: int)
    requires Always(samples, k) && 0 <= f < 10
  {
    forall i, j :: 0 <= i <= j < |samples| ==> Value(samples, k, f, i) <= Value(samples, k, f, j)
  }

  lemma {:induction false} BaselinesAscend<K>(r: Run<K>, n: nat, i: int)
    requires Lengths(r) && n <= |r.samples| && 0 <= i < |Baselines(r, n)| - 1
    ensures Baselines(r, n)[i] < Baselines(r, n)[i + 1]
  {
    if i < |Baselines(r, n - 1)| - 1 {
      BaselinesAscend(r, n - 1, i);
    }
  }

  /**
   For a counter that never decreases that is the last baseline minus the first: short
   intervals are carried forward.
   */
  lemma CarryingTelescopes<K>(r: Run<K>, k: K, f: int, n: nat)
    requires IsCarrying(r) && Always(r.samples, k) && 0 <= f < 10 && 0 < n <= |r.samples|
    requires NeverDecreases(r.samples, k, f)
    ensures Total(r, k, f, n) == Value(r.samples, k, f, Latest(Baselines(r, n))) - Value(r.samples, k, f, 0)
  {
    CarryingTotal(r, k, f, n);
    var at := Baselines(r, n);
    forall i | 0 <= i < |at| - 1 ensures at[i] < at[i + 1] {
      BaselinesAscend(r, n, i);
    }
    RisesTelescope(r.samples, k, f, at);
  }

  lemma {:induction false} RisesTelescope<K>(samples: seq<seq<Stat<K>>>, k: K, f: int, at: seq<int>)
    requires Always(samples, k) && 0 <= f < 10 && at != [] && NeverDecreases(samples, k, f)
    requires forall i :: 0 <= i < |at| ==> 0 <= at[i] < |samples|
    requires forall i :: 0 <= i < |at| - 1 ==> at[i] < at[i + 1]
    ensures Rises(samples, k, f, at) == Value(samples, k, f, Latest(at)) - Value(samples, k, f, at[0])
  {
    if |at| > 1 {
      RisesTelescope(samples, k, f, at[..|at| - 1]);
      assert at[|at| - 2] < at[|at| - 1];
    }
  }

  /** A sample that ends the gap and every later one are too far from the baseline. */
  predicate TooLong<K>(r: Run<K>, m: nat, n: nat)
    requires Lengths(r) && 0 < m < n <= |r.samples|
  {
    && r.trace[m].lastTime.Some? && r.times[m] - r.trace[m].lastTime.value > r.config.maxInterval
    && forall i :: m <= i < n ==> r.times[m] <= r.times[i]
  }

  /** After one gap over the maximal interval, if the clock does not go back, nothing is ever emitted again. */
  lemma {:induction false} FrozenAfterGap<K>(r: Run<K>, m: nat, n: nat)
    requires IsCarrying(r) && 0 < m < n <= |r.samples| && TooLong(r, m, n)
    ensures r.trace[n] == r.trace[m] && forall i :: m <= i < n ==> r.outs[i] == None
  {
    BaselineIs(r, m);
    assert (r.trace[n], r.outs[n - 1]) == Carrying(r.config, r.trace[n - 1], r.samples[n - 1], r.times[n - 1]);
    if n > m + 1 {
      FrozenAfterGap(r, m, n - 1);
    }
  }

  // ---------- When a collector can still emit ----------

  /** A continuation from baseline `b` in which no collection is before `now`. */
  ghost predicate Continues<K>(r: Run<K>, config: Config, b: Baseline<K>, now: int) {
    && Lengths(r) && r.config == config && r.trace[0] == b && (forall n :: 0 <= n < |r.times| ==> r.times[n] >= now)
    && forall n :: 0 <= n < |r.samples| ==>
         (r.trace[n + 1], r.outs[n]) == Carrying(r.config, r.trace[n], r.samples[n], r.times[n])
  }

  ghost predicate Emits<K>(r: Run<K>) {
    exists n :: 0 <= n < |r.outs| && r.outs[n].Some?
  }

  ghost predicate CanEmit<K(!new)>(config: Config, b: Baseline<K>, now: int) {
    exists r: Run<K> :: Continues(r, config, b, now) && Emits(r)
  }

  /** Some interval from `at` that has not passed at `now` is acceptable. */
  predicate NotTooLate(config: Config, at: int, now: int) {
    && !config.disabled && now - at <= config.maxInterval
    && config.minInterval <= config.maxInterval && 0 <= config.maxInterval
  }

  lemma {:induction false} TooLateStays<K>(r: Run<K>, config: Config, sample: seq<Stat<K>>, at: int, now: int, n: nat)
    requires Continues(r, config, Moved(sample, at), now) && n <= |r.samples| && !NotTooLate(config, at, now)
    ensures r.trace[n] == Moved(sample, at) && forall i :: 0 <= i < n ==> r.outs[i] == None
  {
    if n > 0 {
      TooLateStays(r, config, sample, at, now, n - 1);
      assert (r.trace[n], r.outs[n - 1]) == Carrying(r.config, r.trace[n - 1], r.samples[n - 1], r.times[n - 1]);
    }
  }

  lemma InTimeEmits<K>(config: Config, sample: seq<Stat<K>>, at: int, now: int) returns (r: Run<K>)
    requires NotTooLate(config, at, now)
    ensures Continues(r, config, Moved(sample, at), now) && Emits(r)
  {
    var earliest := if config.minInterval > 0 then at + config.minInterval else at;
    var time := if now > earliest then now else earliest;
    var b := Moved(sample, at);
    var (next, out) := Carrying(config, b, sample, time);
    r := Run(config, [sample], [time], [b, next], [out]);
    assert r.outs[0].Some?;
  }

  /**
   With a clock that is past `now` for good, a CPU-style collector can emit again if and
   only if `now` is not yet over the maximal interval from its baseline (and the intervals
   configured leave room at all).
   */
  lemma CanEmitIff<K(!new)>(config: Config, sample: seq<Stat<K>>, at: int, now: int)
    ensures CanEmit(config, Moved(sample, at), now) <==> NotTooLate(config, at, now)
  {
    if NotTooLate(config, at, now) {
      var r := InTimeEmits(config, sample, at, now);
    } else {
      forall r: Run<K> | Continues(r, config, Moved(sample, at), now) ensures !Emits(r) {
        TooLateStays(r, config, sample, at, now, |r.samples|);
      }
    }
  }

  // ---------- Advancing the baseline ----------

  /** Collection `n` emits exactly when the interval since the last one is acceptable. */
  lemma AdvancingEmits<K>(r: Run<K>, n: nat)
    requires IsAdvancing(r) && 0 < n < |r.samples|
    ensures r.trace[n] == Moved(r.samples[n - 1], r.times[n - 1])
    ensures var d := r.times[n] - r.times[n - 1];
            r.outs[n].Some? <==> !r.config.disabled && r.config.minInterval <= d <= r.config.maxInterval && d >= 0
    ensures r.outs[n].Some? ==> r.outs[n] == Some(DeltasOf(r.samples[n], r.samples[n - 1]))
  {
    assert (r.trace[n], r.outs[n - 1]) == Advancing(r.config, r.trace[n - 1], r.samples[n - 1], r.times[n - 1]);
    assert (r.trace[n + 1], r.outs[n]) == Advancing(r.config, r.trace[n], r.samples[n], r.times[n]);
  }

  /** What the counter rose by in the intervals whose collection emitted nothing. */
  function Skipped<K(==)>(r: Run<K>, k: K, f: int, n: nat): nat
    requires Lengths(r) && Always(r.samples, k) && n <= |r.samples| && 0 <= f < 10
  {
    if n <= 1 then 0
    else
      Skipped(r, k, f, n - 1)
      + if r.outs[n - 1].Some? then 0 else Rise(Value(r.samples, k, f, n - 1), Value(r.samples, k, f, n - 2))
  }

  /** Every rise from one sample to the next, up to sample `n - 1`. */
  function AllRises<K(==)>(samples: seq<seq<Stat<K>>>, k: K, f: int, n: nat): nat
    requires Always(samples, k) && n <= |samples| && 0 <= f < 10
  {
    if n <= 1 then 0
    else AllRises(samples, k, f, n - 1) + Rise(Value(samples, k, f, n - 1), Value(samples, k, f, n - 2))
  }

  lemma AdvancingFirst<K>(r: Run<K>, k: K, f: int)
    requires IsAdvancing(r) && Always(r.samples, k) && 0 <= f < 10 && 0 < |r.samples|
    ensures Total(r, k, f, 1) == 0
  {
    assert (r.trace[1], r.outs[0]) == Advancing(r.config, r.trace[0], r.samples[0], r.times[0]);
    assert Total(r, k, f, 1) == Total(r, k, f, 0) + Reported(r, k, f, 0);
  }

  lemma AdvancingReports<K>(r: Run<K>, k: K, f: int, n: nat)
    requires IsAdvancing(r) && Always(r.samples, k) && 0 <= f < 10 && 0 < n < |r.samples|
    ensures Reported(r, k, f, n) ==
            if r.outs[n].Some? then Rise(Value(r.samples, k, f, n), Value(r.samples, k, f, n - 1)) else 0
  {
    AdvancingEmits(r, n);
    if r.outs[n].Some? {
      ReportedAgainst(r, k, f, n, n - 1);
    }
  }

  /** For every counter, resets included, exactly the skipped intervals are missing from the total of its rises. */
  lemma {:induction false} AdvancingDropsSkipped<K>(r: Run<K>, k: K, f: int, n: nat)
    requires IsAdvancing(r) && Always(r.samples, k) && 0 <= f < 10 && 0 < n <= |r.samples|
    ensures Total(r, k, f, n) + Skipped(r, k, f, n) == AllRises(r.samples, k, f, n)
  {
    if n == 1 {
      AdvancingFirst(r, k, f);
    } else {
      AdvancingDropsSkipped(r, k, f, n - 1);
      AdvancingReports(r, k, f, n - 1);
    }
  }

  lemma {:induction false} AllRisesTelescope<K>(samples: seq<seq<Stat<K>>>, k: K, f: int, n: nat)
    requires Always(samples, k) && 0 <= f < 10 && 0 < n <= |samples| && NeverDecreases(samples, k, f)
    ensures AllRises(samples, k, f, n) == Value(samples, k, f, n - 1) - Value(samples, k, f, 0)
  {
    if n > 1 {
      AllRisesTelescope(samples, k, f, n - 1);
      assert Value(samples, k, f, n - 2) <= Value(samples, k, f, n - 1);
    }
  }

  /** For one that never decreases the two together are the last value minus the first. */
  lemma AdvancingTelescopes<K>(r: Run<K>, k: K, f: int, n: nat)
    requires IsAdvancing(r) && Always(r.samples, k) && 0 <= f < 10 && 0 < n <= |r.samples|
    requires NeverDecreases(r.samples, k, f)
    ensures Total(r, k, f, n) + Skipped(r, k, f, n) == Value(r.samples, k, f, n - 1) - Value(r.samples, k, f, 0)
  {
    AdvancingDropsSkipped(r, k, f, n);
    AllRisesTelescope(r.samples, k, f, n);
  }
}

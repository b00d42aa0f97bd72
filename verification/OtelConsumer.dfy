/**
 The metrics buffer and its consumer as objects (internal/metrics/consumers/otel/buffer.go,
 consumer.go), each method as it runs when nothing else runs; `MetricsPipeline` says what
 holds when they interleave.
 */
module OtelConsumer {
  import opened RingBuffer
  import opened MetricsPipeline

  class MetricsBuffer {
    const rb: RingBuffer<Event>
    const threshold: int
    var notify: bool
    /** Everything pushed since the last drain. */
    ghost var since: seq<Event>

    ghost predicate Valid()
      reads this, rb, rb.data
    {
      rb.Valid() && rb.contents == LastN(since, rb.data.Length)
    }

    constructor (capacity: int, threshold: int)
      requires capacity > 0
      ensures Valid() && fresh(rb) && fresh(rb.data) && rb.data.Length == capacity && this.threshold == threshold
      ensures !notify && since == []
    {
      rb := new RingBuffer<Event>(capacity);
      this.threshold, notify, since := threshold, false, [];
    }

    method Push(event: Event)
      requires Valid()
      modifies this, rb, rb.data
      ensures Valid() && since == old(since) + [event]
      ensures notify == (old(notify) || |rb.contents| >= threshold)
    {
      LastNSnoc(since, event, rb.data.Length);
      rb.Push(event);
      since := since + [event];
      if rb.size >= threshold {
        notify := true;
      }
    }

    /** The last events pushed since the drain before, in order, up to the capacity. */
    method Drain() returns (events: seq<Event>)
      requires Valid()
      modifies this`since, rb, rb.data
      ensures Valid() && events == LastN(old(since), rb.data.Length) && since == [] && rb.contents == []
    {
      if rb.size == 0 {
        since := [];
        return [];
      }
      events := rb.GetAll();
      rb.Clear(Event(0, 0));
      since := [];
    }
  }

  // ---------- The export chunks ----------

  /** The drained events cut at every `size`. */
  function Chunks<T>(events: seq<T>, size: int): seq<seq<T>>
    requires size > 0
  {
    if |events| <= size then (if events == [] then [] else [events])
    else [events[..size]] + Chunks(events[size..], size)
  }

  function Joined<T>(chunks: seq<seq<T>>): seq<T> {
    if chunks == [] then [] else chunks[0] + Joined(chunks[1..])
  }

  /** The chunks are a partition in order, none is empty or too long, and only the last may be short. */
  lemma {:induction false} ChunksPartition<T>(events: seq<T>, size: int)
    requires size > 0
    ensures var c := Chunks(events, size);
            && Joined(c) == events
            && (forall i :: 0 <= i < |c| ==> 1 <= |c[i]| <= size)
            && (forall i :: 0 <= i < |c| - 1 ==> |c[i]| == size)
  {
    if |events| > size {
      ChunksPartition(events[size..], size);
      assert events[..size] + events[size..] == events;
    }
  }

  lemma ChunksStep<T>(events: seq<T>, i: int, end: int, size: int)
    requires size > 0 && 0 <= i < |events| && end == if i + size > |events| then |events| else i + size
    ensures Chunks(events[i..], size) == [events[i..end]] + Chunks(events[end..], size)
  {
    var rest := events[i..];
    if |rest| <= size {
      assert rest == events[i..end] && events[end..] == [];
    } else {
      assert rest[..size] == events[i..end] && rest[size..] == events[end..];
    }
  }

  function Failures(batch: seq<Event>, fails: Event -> bool): nat {
    if batch == [] then 0 else Failures(batch[..|batch| - 1], fails) + One(fails(batch[|batch| - 1]))
  }

  /** The places of the events that fail. */
  function Failing(batch: seq<Event>, fails: Event -> bool): set<int> {
    set i | 0 <= i < |batch| && fails(batch[i])
  }

  lemma {:induction false} FailuresExact(batch: seq<Event>, fails: Event -> bool)
    ensures Failures(batch, fails) == |Failing(batch, fails)|
  {
    if batch != [] {
      var n := |batch| - 1;
      FailuresExact(batch[..n], fails);
      assert Failing(batch, fails) == Failing(batch[..n], fails) + if fails(batch[n]) then {n} else {};
    }
  }

  lemma {:induction false} FailuresConcat(a: seq<Event>, b: seq<Event>, fails: Event -> bool)
    ensures Failures(a + b, fails) == Failures(a, fails) + Failures(b, fails)
  {
    if b == [] {
      assert a + b == a;
    } else {
      var n := |b| - 1;
      FailuresConcat(a, b[..n], fails);
      assert (a + b)[..|a + b| - 1] == a + b[..n];
    }
  }

  lemma FailuresStep(events: seq<Event>, i: int, end: int, fails: Event -> bool)
    requires 0 <= i <= end <= |events|
    ensures Failures(events[..end], fails) == Failures(events[..i], fails) + |Failing(events[i..end], fails)|
  {
    FailuresExact(events[i..end], fails);
    FailuresConcat(events[..i], events[i..end], fails);
    assert events[..end] == events[..i] + events[i..end];
  }

  // ---------- The consumer ----------

  class Consumer {
    const buffer: MetricsBuffer
    const batchSize: int
    var dropped: nat
    var processed: nat
    var errors: nat
    var highWater: nat
    ghost var pushed: nat
    /** The batches handed to `processBatch`. */
    ghost var exported: seq<seq<Event>>

    ghost predicate Valid()
      reads this, buffer, buffer.rb, buffer.rb.data
    {
      buffer.Valid() && batchSize > 0 && pushed == processed + errors + dropped + |buffer.rb.contents|
    }

    constructor (maxQueueSize: int, batchSize: int)
      requires maxQueueSize > 0 && batchSize > 0
      ensures Valid() && fresh(buffer) && fresh(buffer.rb) && fresh(buffer.rb.data)
      ensures this.batchSize == batchSize && pushed == 0 && exported == []
    {
      buffer := new MetricsBuffer(maxQueueSize, batchSize);
      this.batchSize, dropped, processed, errors, highWater := batchSize, 0, 0, 0, 0;
      pushed, exported := 0, [];
    }

    /** The dropped counter rises exactly when the push overwrites. */
    method HandleEvent(event: Event)
      requires Valid()
      modifies this`dropped, this`highWater, this`pushed, buffer, buffer.rb, buffer.rb.data
      ensures Valid() && buffer.since == old(buffer.since) + [event] && pushed == old(pushed) + 1
      ensures dropped - old(dropped) == old(|buffer.rb.contents|) + 1 - |buffer.rb.contents|
      ensures var n := old(|buffer.rb.contents|); highWater == if n > old(highWater) then n else old(highWater)
    {
      var n := buffer.rb.size;
      if n >= buffer.rb.data.Length {
        dropped := dropped + 1;
      }
      if n > highWater {
        highWater := n;
      }
      buffer.Push(event);
      pushed := pushed + 1;
    }

    /** Every event of the batch is counted once, as processed or as an error. */
    method ProcessBatch(batch: seq<Event>, fails: Event -> bool)
      modifies this`processed, this`errors, this`exported
      ensures exported == old(exported) + [batch]
      ensures errors == old(errors) + |Failing(batch, fails)|
      ensures processed + errors == old(processed) + old(errors) + |batch|
    {
      for i := 0 to |batch|
        invariant errors == old(errors) + Failures(batch[..i], fails)
        invariant processed + errors == old(processed) + old(errors) + i
        invariant exported == old(exported)
      {
        assert batch[..i + 1][..i] == batch[..i];
        if fails(batch[i]) {
          errors := errors + 1;
        } else {
          processed := processed + 1;
        }
      }
      assert batch[..|batch|] == batch;
      FailuresExact(batch, fails);
      exported := exported + [batch];
    }

    /** The loop over the drained events. */
    method Export(events: seq<Event>, fails: Event -> bool)
      requires batchSize > 0
      modifies this`processed, this`errors, this`exported
      ensures exported == old(exported) + Chunks(events, batchSize)
      ensures errors == old(errors) + |Failing(events, fails)|
      ensures processed + errors == old(processed) + old(errors) + |events|
    {
      var i := 0;
      assert events[0..] == events;
      while i < |events|
        invariant 0 <= i <= |events|
        invariant exported + Chunks(events[i..], batchSize) == old(exported) + Chunks(events, batchSize)
        invariant errors == old(errors) + Failures(events[..i], fails)
        invariant processed + errors == old(processed) + old(errors) + i
      {
        var end := if i + batchSize > |events| then |events| else i + batchSize;
        ChunksStep(events, i, end, batchSize);
        ghost var before := exported;
        ProcessBatch(events[i..end], fails);
        FailuresStep(events, i, end, fails);
        assert before + ([events[i..end]] + Chunks(events[end..], batchSize))
               == exported + Chunks(events[end..], batchSize);
        i := end;
      }
      FailuresStep(events, 0, |events|, fails);
      assert events[..i] == events && events[0..|events|] == events;
    }

    /** The branch of `processEvents` taken on a notification. */
    method OnNotify(fails: Event -> bool)
      requires Valid() && buffer.notify
      modifies this`processed, this`errors, this`exported, buffer, buffer.rb, buffer.rb.data
      ensures Valid() && !buffer.notify && buffer.since == []
      ensures exported == old(exported) + Chunks(LastN(old(buffer.since), buffer.rb.data.Length), batchSize)
      ensures errors == old(errors) + |Failing(LastN(old(buffer.since), buffer.rb.data.Length), fails)|
    {
      buffer.notify := false;
      var events := buffer.Drain();
      Export(events, fails);
    }

    /** The branch taken on a tick or at the end: one batch, if there is anything. */
    method OnTick(fails: Event -> bool)
      requires Valid()
      modifies this`processed, this`errors, this`exported, buffer, buffer.rb, buffer.rb.data
      ensures Valid() && buffer.since == [] && buffer.notify == old(buffer.notify)
      ensures old(exported) <= exported && |exported| <= |old(exported)| + 1
      ensures Joined(exported[|old(exported)|..]) == LastN(old(buffer.since), buffer.rb.data.Length)
      ensures errors == old(errors) + |Failing(LastN(old(buffer.since), buffer.rb.data.Length), fails)|
    {
      var events := buffer.Drain();
      if |events| > 0 {
        ProcessBatch(events, fails);
        assert exported[|old(exported)|..] == [events];
      } else {
        assert exported[|old(exported)|..] == [];
      }
    }
  }
}

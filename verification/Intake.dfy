/**
 The intake worker (internal/intake/worker.go): received deltas are batched, queued with
 a delay, sent, and queued again when the send fails.  The goroutines take turns at the
 steps below; between taking and returning a lock nothing else happens.  The work queue
 is the one of client-go: adding is delayed, an item being delayed or ready is not added
 a second time, and one that becomes ready while it is being processed waits for `Done`.
 */
module Intake {
  import opened Bytes

  datatype Op = Create | Modify | Remove | Heartbeat

  datatype Delta = Delta(op: Op, objects: seq<Bytes>)

  datatype Batch = Batch(id: int, deltas: seq<Delta>)

  /** `processing` is the batch taken from the queue and not yet done with; `pending` says its send has not ended. */
  datatype Queue = Queue(waiting: set<Batch>, ready: seq<Batch>, processing: Option<Batch>, pending: bool, dirty: bool)

  /**
   The side that fills batches.  `counter` is the last batch number given out, and
   `flushDue` is set between the append that fills the batch and the flush that follows.
   The logs are not kept by the code: the deltas received, the batches handed to the
   queue, and those of them that are not heartbeats.
   */
  datatype Batcher = Batcher(counter: int, batch: Batch, flushDue: bool,
                             received: seq<Delta>, queued: seq<Batch>, flushed: seq<Batch>)

  /** `sent`, the batches whose send succeeded, is not kept by the code. */
  datatype State = State(batcher: Batcher, queue: Queue, sent: seq<Batch>)

  function Initial(counter: int): State {
    State(Batcher(counter + 1, Batch(counter + 1, []), false, [], [], []), Queue({}, [], None, false, false), [])
  }

  predicate IsHeartbeat(b: Batch) {
    b.deltas != [] && b.deltas[0].op.Heartbeat?
  }

  function BeatBatch(id: int, objects: seq<Bytes>): Batch {
    Batch(id, [Delta(Heartbeat, objects)])
  }

  // ---------- Steps of the batcher ----------

  function Append(max: int, t: Batcher, delta: Delta): Batcher {
    var deltas := t.batch.deltas + [delta];
    t.(batch := Batch(t.batch.id, deltas), flushDue := |deltas| >= max, received := t.received + [delta])
  }

  function HandOver(t: Batcher, b: Batch): Batcher {
    t.(counter := t.counter + 1, queued := t.queued + [b])
  }

  /** `flushBatch` of a batch that is not empty. */
  function Renewed(t: Batcher): Batcher {
    HandOver(t, t.batch).(batch := Batch(t.counter + 1, []), flushed := t.flushed + [t.batch])
  }

  // ---------- Steps of the queue ----------

  function AddLater(q: Queue, b: Batch): Queue {
    q.(waiting := q.waiting + {b})
  }

  function AddNow(q: Queue, b: Batch): Queue {
    if q.processing == Some(b) then q.(dirty := true)
    else if b in q.ready then q
    else q.(ready := q.ready + [b])
  }

  function Take(q: Queue): Queue
    requires q.ready != []
  {
    q.(processing := Some(q.ready[0]), pending := true, ready := q.ready[1..])
  }

  function DoneWith(q: Queue): Queue
    requires q.processing.Some?
  {
    q.(processing := None, dirty := false, ready := if q.dirty then q.ready + [q.processing.value] else q.ready)
  }

  // ---------- Steps ----------

  /** `NumberElsewhere` is another worker taking a batch number. */
  datatype Step =
    | Receive(delta: Delta) | FlushFull | FlushTick | Beat(beat: Batch) | NumberElsewhere
    | Delayed(b: Batch) | Get | SendOk | SendFail | Done

  predicate Enabled(s: State, step: Step) {
    match step
    case Receive(delta) => !s.batcher.flushDue && !delta.op.Heartbeat?
    case FlushFull => s.batcher.flushDue
    case FlushTick => true
    case Beat(b) => b.id == s.batcher.counter + 1 && IsHeartbeat(b) && |b.deltas| == 1
    case NumberElsewhere => true
    case Delayed(b) => b in s.queue.waiting
    case Get => s.queue.processing.None? && s.queue.ready != []
    case SendOk => s.queue.processing.Some? && s.queue.pending
    case SendFail => s.queue.processing.Some? && s.queue.pending
    case Done => s.queue.processing.Some? && !s.queue.pending
  }

  function Flush(s: State): State {
    if s.batcher.batch.deltas == [] then s
    else s.(batcher := Renewed(s.batcher), queue := AddLater(s.queue, s.batcher.batch))
  }

  function HandedOver(s: State, b: Batch): State {
    State(HandOver(s.batcher, b), AddLater(s.queue, b), s.sent)
  }

  function Apply(max: int, s: State, step: Step): State
    requires Enabled(s, step)
  {
    var t, q := s.batcher, s.queue;
    match step
    case Receive(delta) => s.(batcher := Append(max, t, delta))
    case FlushFull => var f := Flush(s); f.(batcher := f.batcher.(flushDue := false))
    case FlushTick => Flush(s)
    case Beat(b) => HandedOver(s, b)
    case NumberElsewhere => s.(batcher := t.(counter := t.counter + 1))
    case Delayed(b) => s.(queue := AddNow(q.(waiting := q.waiting - {b}), b))
    case Get => s.(queue := Take(q))
    case SendOk => s.(queue := q.(pending := false), sent := s.sent + [q.processing.value])
    case SendFail => s.(queue := AddLater(q.(pending := false), q.processing.value))
    case Done => s.(queue := DoneWith(q))
  }

  /** An event received and, if it fills the batch, the flush that follows. */
  function Handled(max: int, s: State, delta: Delta): State
    requires Enabled(s, Receive(delta))
  {
    var r := Apply(max, s, Receive(delta));
    if r.batcher.flushDue then Apply(max, r, FlushFull) else r
  }

  /** A ready batch taken, its send ended, and the queue done with it. */
  function Served(max: int, s: State, sendFails: bool): State
    requires Enabled(s, Get)
  {
    Apply(max, Apply(max, Apply(max, s, Get), if sendFails then SendFail else SendOk), Done)
  }

  // ---------- What the batcher keeps ----------

  function Concat(batches: seq<Batch>): seq<Delta> {
    if batches == [] then [] else Concat(batches[..|batches| - 1]) + batches[|batches| - 1].deltas
  }

  function Largest(max: int): int {
    if max >= 1 then max else 1
  }

  predicate Increasing(batches: seq<Batch>) {
    forall i, j :: 0 <= i < j < |batches| ==> batches[i].id < batches[j].id
  }

  /** Nothing is lost or reordered on the way into the queue. */
  ghost predicate Batched(t: Batcher) {
    && Concat(t.flushed) + t.batch.deltas == t.received
    && Increasing(t.flushed) && (forall b :: b in t.flushed ==> b.id < t.batch.id)
    && (forall d :: d in t.batch.deltas ==> !d.op.Heartbeat?)
    && forall b :: b in t.flushed <==> b in t.queued && !IsHeartbeat(b)
  }

  predicate Sized(t: Batcher, max: int) {
    && (forall b :: b in t.queued ==> 1 <= |b.deltas| <= Largest(max))
    && |t.batch.deltas| <= Largest(max) && (!t.flushDue ==> |t.batch.deltas| < Largest(max))
    && (t.flushDue ==> t.batch.deltas == [] || |t.batch.deltas| == Largest(max))
  }

  predicate Distinct(batches: seq<Batch>) {
    forall i, j :: 0 <= i < j < |batches| ==> batches[i].id != batches[j].id
  }

  /** No two batches carry the same number. */
  predicate Numbered(t: Batcher) {
    && t.batch.id <= t.counter && Distinct(t.queued)
    && forall b :: b in t.queued ==> b.id <= t.counter && b.id != t.batch.id
  }

  ghost predicate BatcherInv(t: Batcher, max: int) {
    Batched(t) && Sized(t, max) && Numbered(t)
  }

  lemma ConcatSnoc(batches: seq<Batch>, b: Batch)
    ensures Concat(batches + [b]) == Concat(batches) + b.deltas
  {
    assert (batches + [b])[..|batches|] == batches;
  }

  lemma AppendInv(t: Batcher, max: int, delta: Delta)
    requires BatcherInv(t, max) && !t.flushDue && !delta.op.Heartbeat?
    ensures BatcherInv(Append(max, t, delta), max)
  {
    assert Concat(t.flushed) + (t.batch.deltas + [delta]) == t.received + [delta];
  }

  lemma Regrouped(f: seq<Batch>, b: Batch, received: seq<Delta>)
    requires Concat(f) + b.deltas == received
    ensures Concat(f + [b]) + [] == received
  {
    ConcatSnoc(f, b);
  }

  lemma IncreasingSnoc(f: seq<Batch>, b: Batch, id: int)
    requires Increasing(f) && (forall x :: x in f ==> x.id < b.id) && b.id < id
    ensures Increasing(f + [b]) && forall x :: x in f + [b] ==> x.id < id
  {
  }

  lemma RenewedBatched(t: Batcher)
    requires Batched(t) && t.batch.deltas != [] && t.batch.id <= t.counter
    ensures Batched(Renewed(t))
  {
    assert !IsHeartbeat(t.batch) by { assert t.batch.deltas[0] in t.batch.deltas; }
    Regrouped(t.flushed, t.batch, t.received);
    IncreasingSnoc(t.flushed, t.batch, t.counter + 1);
  }

  lemma DistinctSnoc(queued: seq<Batch>, b: Batch)
    requires Distinct(queued) && forall x :: x in queued ==> x.id != b.id
    ensures Distinct(queued + [b])
  {
  }

  lemma RenewedNumbered(t: Batcher)
    requires Numbered(t)
    ensures Numbered(Renewed(t))
  {
    DistinctSnoc(t.queued, t.batch);
  }

  lemma RenewedSized(t: Batcher, max: int)
    requires Sized(t, max) && t.batch.deltas != []
    ensures Sized(Renewed(t), max)
  {
  }

  lemma RenewedInv(t: Batcher, max: int)
    requires BatcherInv(t, max) && t.batch.deltas != []
    ensures BatcherInv(Renewed(t), max) && BatcherInv(Renewed(t).(flushDue := false), max)
  {
    RenewedBatched(t);
    RenewedNumbered(t);
    RenewedSized(t, max);
  }

  lemma BeatNumbered(t: Batcher, b: Batch)
    requires Numbered(t) && b.id == t.counter + 1
    ensures Numbered(HandOver(t, b))
  {
    DistinctSnoc(t.queued, b);
  }

  lemma BeatInv(t: Batcher, max: int, b: Batch)
    requires BatcherInv(t, max) && b.id == t.counter + 1 && IsHeartbeat(b) && |b.deltas| == 1
    ensures BatcherInv(HandOver(t, b), max)
  {
    BeatNumbered(t, b);
  }

  // ---------- What the queue keeps ----------

  function One(c: bool): nat {
    if c then 1 else 0
  }

  /** How often `b` is in a place a queued batch can be: delayed, ready, being sent, due again, or sent. */
  function Count(q: Queue, sent: seq<Batch>, b: Batch): nat {
    One(b in q.waiting) + multiset(q.ready)[b] + One(q.pending && q.processing == Some(b))
    + One(q.dirty && q.processing == Some(b)) + multiset(sent)[b]
  }

  predicate InTurn(q: Queue) {
    (q.pending ==> q.processing.Some? && !q.dirty) && (q.dirty ==> q.processing.Some?)
  }

  /** A batch that is nowhere yet is not taken for a duplicate. */
  lemma AddLaterCount(q: Queue, sent: seq<Batch>, b: Batch, c: Batch)
    requires Count(q, sent, b) == 0
    ensures Count(AddLater(q, b), sent, c) == Count(q, sent, c) + One(c == b)
  {
  }

  /** Nor is one whose delay ends, which is in no other place. */
  lemma DelayedCount(q: Queue, sent: seq<Batch>, b: Batch, c: Batch)
    requires b in q.waiting && Count(q, sent, b) <= 1 && InTurn(q)
    ensures var r := AddNow(q.(waiting := q.waiting - {b}), b);
            Count(r, sent, c) == Count(q, sent, c) && InTurn(r)
  {
  }

  lemma TakeCount(q: Queue, sent: seq<Batch>, c: Batch)
    requires q.ready != [] && q.processing.None? && InTurn(q)
    ensures Count(Take(q), sent, c) == Count(q, sent, c)
  {
    assert q.ready == [q.ready[0]] + q.ready[1..];
  }

  lemma SendOkCount(q: Queue, sent: seq<Batch>, c: Batch)
    requires q.processing.Some? && q.pending && InTurn(q)
    ensures Count(q.(pending := false), sent + [q.processing.value], c) == Count(q, sent, c)
  {
  }

  /** A batch whose send fails is not already delayed. */
  lemma SendFailCount(q: Queue, sent: seq<Batch>, c: Batch)
    requires q.processing.Some? && q.pending && InTurn(q) && Count(q, sent, q.processing.value) <= 1
    ensures Count(AddLater(q.(pending := false), q.processing.value), sent, c) == Count(q, sent, c)
  {
  }

  lemma DoneCount(q: Queue, sent: seq<Batch>, c: Batch)
    requires q.processing.Some? && !q.pending
    ensures Count(DoneWith(q), sent, c) == Count(q, sent, c)
  {
  }

  /** Every batch handed to the queue is in one place, and no other batch is anywhere. */
  ghost predicate OncePlaced(q: Queue, sent: seq<Batch>, queued: seq<Batch>) {
    forall b {:trigger Count(q, sent, b)} :: Count(q, sent, b) == One(b in queued)
  }

  lemma AddLaterPlaced(q: Queue, sent: seq<Batch>, queued: seq<Batch>, b: Batch)
    requires OncePlaced(q, sent, queued) && b !in queued
    ensures OncePlaced(AddLater(q, b), sent, queued + [b])
  {
    assert Count(q, sent, b) == 0;
    forall c ensures Count(AddLater(q, b), sent, c) == One(c in queued + [b]) {
      AddLaterCount(q, sent, b, c);
    }
  }

  /** The steps that only move batches. */
  predicate Moves(step: Step) {
    step.Delayed? || step.Get? || step.SendOk? || step.SendFail? || step.Done?
  }

  lemma MoveCount(max: int, s: State, step: Step, c: Batch)
    requires Enabled(s, step) && Moves(step) && InTurn(s.queue) && OncePlaced(s.queue, s.sent, s.batcher.queued)
    ensures var r := Apply(max, s, step); Count(r.queue, r.sent, c) == Count(s.queue, s.sent, c) && InTurn(r.queue)
  {
    var q, sent := s.queue, s.sent;
    match step
    case Delayed(b) => DelayedCount(q, sent, b, c);
    case Get => TakeCount(q, sent, c);
    case SendOk => SendOkCount(q, sent, c);
    case SendFail => SendFailCount(q, sent, c);
    case Done => DoneCount(q, sent, c);
  }

  lemma MovePlaced(max: int, s: State, step: Step)
    requires Enabled(s, step) && Moves(step) && InTurn(s.queue) && OncePlaced(s.queue, s.sent, s.batcher.queued)
    ensures var r := Apply(max, s, step);
            r.batcher == s.batcher && InTurn(r.queue) && OncePlaced(r.queue, r.sent, s.batcher.queued)
  {
    var r := Apply(max, s, step);
    forall c ensures Count(r.queue, r.sent, c) == One(c in s.batcher.queued) && InTurn(r.queue) {
      MoveCount(max, s, step, c);
    }
    MoveCount(max, s, step, s.batcher.batch);
  }

  // ---------- Whole runs ----------

  ghost predicate Inv(s: State, max: int) {
    BatcherInv(s.batcher, max) && InTurn(s.queue) && OncePlaced(s.queue, s.sent, s.batcher.queued)
  }

  lemma FlushInv(s: State, max: int)
    requires Inv(s, max)
    ensures Inv(Flush(s), max) && Inv(Apply(max, s, FlushTick), max)
    ensures s.batcher.flushDue ==> Inv(Apply(max, s, FlushFull), max)
  {
    var t := s.batcher;
    if t.batch.deltas != [] {
      RenewedInv(t, max);
      AddLaterPlaced(s.queue, s.sent, t.queued, t.batch);
    }
  }

  lemma HandedOverInv(s: State, max: int, b: Batch)
    requires Inv(s, max) && Enabled(s, Beat(b))
    ensures Inv(HandedOver(s, b), max)
  {
    BeatInv(s.batcher, max, b);
    AddLaterPlaced(s.queue, s.sent, s.batcher.queued, b);
  }

  lemma MoveInv(s: State, max: int, step: Step)
    requires Inv(s, max) && Enabled(s, step) && Moves(step)
    ensures Inv(Apply(max, s, step), max)
  {
    MovePlaced(max, s, step);
  }

  lemma ReceiveInv(s: State, max: int, delta: Delta)
    requires Inv(s, max) && Enabled(s, Receive(delta))
    ensures Inv(Apply(max, s, Receive(delta)), max)
  {
    AppendInv(s.batcher, max, delta);
  }

  lemma NumberInv(s: State, max: int)
    requires Inv(s, max)
    ensures Inv(Apply(max, s, NumberElsewhere), max)
  {
  }

  lemma StepInv(s: State, max: int, step: Step)
    requires Inv(s, max) && Enabled(s, step)
    ensures Inv(Apply(max, s, step), max)
  {
    if Moves(step) {
      MoveInv(s, max, step);
    } else {
      match step
      case Receive(delta) => ReceiveInv(s, max, delta);
      case FlushFull => FlushInv(s, max);
      case FlushTick => FlushInv(s, max);
      case Beat(b) => HandedOverInv(s, max, b);
      case NumberElsewhere => NumberInv(s, max);
    }
  }

  /** `trace[n]` is the state before step `n`. */
  predicate IsRun(max: int, trace: seq<State>, steps: seq<Step>) {
    && |trace| == |steps| + 1 && trace[0] == Initial(trace[0].batcher.counter - 1)
    && forall n :: 0 <= n < |steps| ==> Enabled(trace[n], steps[n]) && trace[n + 1] == Apply(max, trace[n], steps[n])
  }

  lemma {:induction false} RunInv(max: int, trace: seq<State>, steps: seq<Step>, n: nat)
    requires IsRun(max, trace, steps) && n < |trace|
    ensures Inv(trace[n], max)
  {
    if n > 0 {
      RunInv(max, trace, steps, n - 1);
      StepInv(trace[n - 1], max, steps[n - 1]);
    }
  }

  /** The deltas of the first `n` steps. */
  function DeltasOf(steps: seq<Step>, n: nat): seq<Delta>
    requires n <= |steps|
  {
    if n == 0 then [] else DeltasOf(steps, n - 1) + if steps[n - 1].Receive? then [steps[n - 1].delta] else []
  }

  /** Everything received is recorded, in order. */
  lemma {:induction false} ReceivedExact(max: int, trace: seq<State>, steps: seq<Step>, n: nat)
    requires IsRun(max, trace, steps) && n < |trace|
    ensures trace[n].batcher.received == DeltasOf(steps, n)
  {
    if n > 0 {
      ReceivedExact(max, trace, steps, n - 1);
      assert trace[n] == Apply(max, trace[n - 1], steps[n - 1]);
    }
  }

  /**
   In every reachable state the flushed batches, which are in order of their numbers, and
   the current batch put together are the deltas of the run; every batch handed to the
   queue has a size within bounds and is in exactly one place, once.
   */
  lemma NothingLost(max: int, trace: seq<State>, steps: seq<Step>, n: nat)
    requires IsRun(max, trace, steps) && n < |trace|
    ensures var t := trace[n].batcher;
            && DeltasOf(steps, n) == Concat(t.flushed) + t.batch.deltas && Increasing(t.flushed)
            && (forall b :: b in t.queued ==> 1 <= |b.deltas| <= Largest(max))
            && OncePlaced(trace[n].queue, trace[n].sent, t.queued)
  {
    RunInv(max, trace, steps, n);
    ReceivedExact(max, trace, steps, n);
  }

  /** What a step hands to the queue. */
  function HandsOver(max: int, s: State, step: Step): seq<Batch>
    requires Enabled(s, step)
  {
    var r := Apply(max, s, step);
    if |s.batcher.queued| <= |r.batcher.queued| then r.batcher.queued[|s.batcher.queued|..] else []
  }

  /**
   In every run: a flush for size hands over a full batch, or none if the ticker was
   faster; one for time hands over what there is; a heartbeat its own batch; each is then
   waiting, after a flush the batch is empty, and no other step hands anything over.
   */
  lemma FlushedBatches(max: int, trace: seq<State>, steps: seq<Step>, n: nat)
    requires IsRun(max, trace, steps) && n < |steps|
    ensures var s, r, h := trace[n], trace[n + 1], HandsOver(max, trace[n], steps[n]);
            && r.batcher.queued == s.batcher.queued + h && (forall b :: b in h ==> b in r.queue.waiting)
            && (steps[n].FlushFull? ==> h == [] || (h == [s.batcher.batch] && |s.batcher.batch.deltas| == Largest(max)))
            && (steps[n].FlushTick? ==> h == if s.batcher.batch.deltas == [] then [] else [s.batcher.batch])
            && (steps[n].FlushFull? || steps[n].FlushTick? ==> r.batcher.batch.deltas == [])
            && (steps[n].Beat? ==> h == [steps[n].beat])
            && (h != [] ==> |h| == 1 && r.batcher.counter == s.batcher.counter + 1)
            && r.batcher.batch.id == (if h == [] || steps[n].Beat? then s.batcher.batch.id else r.batcher.counter)
            && (!steps[n].FlushFull? && !steps[n].FlushTick? && !steps[n].Beat? ==> h == [])
  {
    RunInv(max, trace, steps, n);
    var s, r := trace[n], trace[n + 1];
    assert r == Apply(max, s, steps[n]);
    assert s.batcher.queued + [] == s.batcher.queued;
  }

  lemma {:induction false} Locate(f: seq<Batch>, i: nat) returns (n: nat, j: nat)
    requires i < |Concat(f)|
    ensures n < |f| && j < |f[n].deltas| && f[n].deltas[j] == Concat(f)[i] && i == |Concat(f[..n])| + j
  {
    var m := |f| - 1;
    if i < |Concat(f[..m])| {
      n, j := Locate(f[..m], i);
      assert f[..m][..n] == f[..n];
    } else {
      n, j := m, i - |Concat(f[..m])|;
    }
  }

  /**
   Every received delta is found: at place `j` of the `n`-th flushed batch, which is in
   exactly one place, or of the current batch.
   */
  lemma EveryDeltaPlaced(max: int, trace: seq<State>, steps: seq<Step>, k: nat, i: nat) returns (n: nat, j: nat)
    requires IsRun(max, trace, steps) && k < |trace| && i < |trace[k].batcher.received|
    ensures var s, t, f := trace[k], trace[k].batcher, trace[k].batcher.flushed;
            && n <= |f| && i == |Concat(f[..n])| + j
            && if n < |f| then j < |f[n].deltas| && f[n].deltas[j] == t.received[i] && Count(s.queue, s.sent, f[n]) == 1
               else j < |t.batch.deltas| && t.batch.deltas[j] == t.received[i]
  {
    RunInv(max, trace, steps, k);
    var s, t, f := trace[k], trace[k].batcher, trace[k].batcher.flushed;
    if i < |Concat(f)| {
      n, j := Locate(f, i);
      assert Count(s.queue, s.sent, f[n]) == One(f[n] in t.queued);
    } else {
      n, j := |f|, i - |Concat(f)|;
      assert f[..n] == f;
    }
  }

  // ---------- The order of sending ----------

  /** The batches in the order they are sent in if nothing fails: those sent, the one being sent, those ready. */
  function Line(s: State): seq<Batch> {
    s.sent + (if s.queue.pending && s.queue.processing.Some? then [s.queue.processing.value] else []) + s.queue.ready
  }

  /** Batches that are not heartbeats come in the order they were filled. */
  predicate Ordered(line: seq<Batch>) {
    forall i, j :: 0 <= i < j < |line| && !IsHeartbeat(line[i]) && !IsHeartbeat(line[j]) ==> line[i].id < line[j].id
  }

  /** `b` comes after every batch of the line that is not a heartbeat, or is one. */
  predicate Follows(line: seq<Batch>, b: Batch) {
    !IsHeartbeat(b) ==> forall x :: x in line && !IsHeartbeat(x) ==> x.id < b.id
  }

  lemma OrderedSnoc(line: seq<Batch>, b: Batch)
    ensures Ordered(line + [b]) <==> Ordered(line) && Follows(line, b)
  {
    var l := line + [b];
    if Ordered(l) {
      forall i, j | 0 <= i < j < |line| && !IsHeartbeat(line[i]) && !IsHeartbeat(line[j])
        ensures line[i].id < line[j].id
      {
        assert l[i] == line[i] && l[j] == line[j];
      }
      forall x | x in line && !IsHeartbeat(x) && !IsHeartbeat(b) ensures x.id < b.id {
        var i :| 0 <= i < |line| && line[i] == x;
        assert l[i] == x && l[|line|] == b;
      }
    }
  }

  lemma OrderedWithout(front: seq<Batch>, b: Batch, back: seq<Batch>)
    requires Ordered(front + [b] + back)
    ensures Ordered(front + back)
  {
    var l, r := front + [b] + back, front + back;
    forall i, j | 0 <= i < j < |r| && !IsHeartbeat(r[i]) && !IsHeartbeat(r[j]) ensures r[i].id < r[j].id {
      var m, n := if i < |front| then i else i + 1, if j < |front| then j else j + 1;
      assert l[m] == r[i] && l[n] == r[j];
    }
  }

  /** The batch a step puts at the end of the line, if any. */
  function Joins(s: State, step: Step): Option<Batch>
    requires Enabled(s, step)
  {
    match step
    case Delayed(b) => if s.queue.processing == Some(b) then None else Some(b)
    case Done => if s.queue.dirty then s.queue.processing else None
    case _ => None
  }

  lemma JoinLine(max: int, s: State, step: Step)
    requires Inv(s, max) && Enabled(s, step) && Joins(s, step).Some?
    ensures Line(Apply(max, s, step)) == Line(s) + [Joins(s, step).value]
  {
    if step.Delayed? {
      assert Count(s.queue, s.sent, step.b) == One(step.b in s.batcher.queued);
      assert step.b !in s.queue.ready;
    }
  }

  lemma StayLine(max: int, s: State, step: Step)
    requires Inv(s, max) && Enabled(s, step) && Joins(s, step).None? && !step.SendFail?
    ensures Line(Apply(max, s, step)) == Line(s)
  {
    if step.Get? {
      assert s.queue.ready == [s.queue.ready[0]] + s.queue.ready[1..];
    }
  }

  lemma FailLine(max: int, s: State)
    requires Inv(s, max) && Enabled(s, SendFail) && Ordered(Line(s))
    ensures Ordered(Line(Apply(max, s, SendFail)))
  {
    OrderedWithout(s.sent, s.queue.processing.value, s.queue.ready);
    assert s.sent + [] + s.queue.ready == s.sent + s.queue.ready;
  }

  /** A step keeps the line in order if and only if the batch it adds, if any, follows all others. */
  lemma StepOrdered(max: int, s: State, step: Step)
    requires Inv(s, max) && Enabled(s, step) && Ordered(Line(s))
    ensures Ordered(Line(Apply(max, s, step))) <==> Joins(s, step).None? || Follows(Line(s), Joins(s, step).value)
  {
    if Joins(s, step).Some? {
      JoinLine(max, s, step);
      OrderedSnoc(Line(s), Joins(s, step).value);
    } else if step.SendFail? {
      FailLine(max, s);
    } else {
      StayLine(max, s, step);
    }
  }

  predicate JoinsInOrder(s: State, step: Step)
    requires Enabled(s, step)
  {
    Joins(s, step).None? || Follows(Line(s), Joins(s, step).value)
  }

  predicate OrderedUpTo(trace: seq<State>, n: nat)
    requires n < |trace|
  {
    forall i :: 0 <= i <= n ==> Ordered(Line(trace[i]))
  }

  ghost predicate JoinedInOrder(max: int, trace: seq<State>, steps: seq<Step>, n: nat)
    requires IsRun(max, trace, steps) && n <= |steps|
  {
    forall i :: 0 <= i < n ==> JoinsInOrder(trace[i], steps[i])
  }

  /**
   A run keeps the line in the order in which batches were filled if and only if every
   batch that becomes ready follows all those sent, being sent or ready at that moment: a
   retry, or a longer delay, breaks it exactly when a later batch has become ready
   meanwhile.
   */
  lemma {:induction false} LineInOrderIff(max: int, trace: seq<State>, steps: seq<Step>, n: nat)
    requires IsRun(max, trace, steps) && n < |trace|
    ensures OrderedUpTo(trace, n) <==> JoinedInOrder(max, trace, steps, n)
  {
    if n > 0 {
      LineInOrderIff(max, trace, steps, n - 1);
      RunInv(max, trace, steps, n - 1);
      if OrderedUpTo(trace, n - 1) {
        StepOrdered(max, trace[n - 1], steps[n - 1]);
      }
      assert OrderedUpTo(trace, n) <==> OrderedUpTo(trace, n - 1) && Ordered(Line(trace[n]));
      assert JoinedInOrder(max, trace, steps, n) <==>
             JoinedInOrder(max, trace, steps, n - 1) && JoinsInOrder(trace[n - 1], steps[n - 1]);
    }
  }

  /** A successful send is of a batch that follows all those sent before it. */
  predicate SendsInOrder(s: State, step: Step)
    requires Enabled(s, step)
  {
    step.SendOk? ==> Follows(s.sent, s.queue.processing.value)
  }

  lemma StepSent(max: int, s: State, step: Step)
    requires Enabled(s, step)
    ensures Ordered(Apply(max, s, step).sent) <==> Ordered(s.sent) && SendsInOrder(s, step)
  {
    if step.SendOk? {
      OrderedSnoc(s.sent, s.queue.processing.value);
    }
  }

  ghost predicate SentEachInOrder(max: int, trace: seq<State>, steps: seq<Step>, n: nat)
    requires IsRun(max, trace, steps) && n <= |steps|
  {
    forall i :: 0 <= i < n ==> SendsInOrder(trace[i], steps[i])
  }

  /**
   What a run sent is in the order in which batches were filled if and only if every
   successful send was of a batch that follows all those sent before it.
   */
  lemma {:induction false} SentInOrderIff(max: int, trace: seq<State>, steps: seq<Step>, n: nat)
    requires IsRun(max, trace, steps) && n < |trace|
    ensures Ordered(trace[n].sent) <==> SentEachInOrder(max, trace, steps, n)
  {
    if n > 0 {
      SentInOrderIff(max, trace, steps, n - 1);
      StepSent(max, trace[n - 1], steps[n - 1]);
      assert SentEachInOrder(max, trace, steps, n) <==>
             SentEachInOrder(max, trace, steps, n - 1) && SendsInOrder(trace[n - 1], steps[n - 1]);
    }
  }

  /** What was sent is in order if the line is. */
  lemma SentOrdered(s: State)
    requires Ordered(Line(s))
    ensures Ordered(s.sent)
  {
    forall i, j | 0 <= i < j < |s.sent| && !IsHeartbeat(s.sent[i]) && !IsHeartbeat(s.sent[j])
      ensures s.sent[i].id < s.sent[j].id
    {
      assert Line(s)[i] == s.sent[i] && Line(s)[j] == s.sent[j];
    }
  }

  // ---------- A retry is overtaken ----------

  function Last(trace: seq<State>): State
    requires trace != []
  {
    trace[|trace| - 1]
  }

  lemma Extend(max: int, trace: seq<State>, steps: seq<Step>, step: Step)
    returns (trace': seq<State>, steps': seq<Step>)
    requires IsRun(max, trace, steps) && Enabled(Last(trace), step)
    ensures IsRun(max, trace', steps') && Last(trace') == Apply(max, Last(trace), step)
    ensures trace < trace'
  {
    trace', steps' := trace + [Apply(max, Last(trace), step)], steps + [step];
  }

  /** Both batches are delayed, the first flushed first. */
  lemma TwoFlushed(c: int, d1: Delta, d2: Delta) returns (trace: seq<State>, steps: seq<Step>)
    requires !d1.op.Heartbeat? && !d2.op.Heartbeat?
    ensures IsRun(1, trace, steps)
    ensures Last(trace).queue == Queue({Batch(c + 1, [d1]), Batch(c + 2, [d2])}, [], None, false, false)
    ensures Last(trace).sent == []
  {
    trace, steps := [Initial(c)], [];
    trace, steps := Extend(1, trace, steps, Receive(d1));
    assert Last(trace).batcher.batch == Batch(c + 1, [d1]);
    trace, steps := Extend(1, trace, steps, FlushFull);
    trace, steps := Extend(1, trace, steps, Receive(d2));
    assert Last(trace).batcher.batch == Batch(c + 2, [d2]);
    trace, steps := Extend(1, trace, steps, FlushFull);
  }

  lemma FirstFails(c: int, d1: Delta, d2: Delta) returns (trace: seq<State>, steps: seq<Step>)
    requires !d1.op.Heartbeat? && !d2.op.Heartbeat?
    ensures IsRun(1, trace, steps)
    ensures Last(trace).queue == Queue({Batch(c + 1, [d1]), Batch(c + 2, [d2])}, [], None, false, false)
    ensures Last(trace).sent == []
  {
    trace, steps := TwoFlushed(c, d1, d2);
    trace, steps := Extend(1, trace, steps, Delayed(Batch(c + 1, [d1])));
    trace, steps := Extend(1, trace, steps, Get);
    trace, steps := Extend(1, trace, steps, SendFail);
    trace, steps := Extend(1, trace, steps, Done);
  }

  lemma SecondSent(c: int, d1: Delta, d2: Delta) returns (trace: seq<State>, steps: seq<Step>)
    requires !d1.op.Heartbeat? && !d2.op.Heartbeat?
    ensures IsRun(1, trace, steps)
    ensures Last(trace).queue == Queue({Batch(c + 1, [d1])}, [], None, false, false)
    ensures Last(trace).sent == [Batch(c + 2, [d2])]
  {
    trace, steps := FirstFails(c, d1, d2);
    trace, steps := Extend(1, trace, steps, Delayed(Batch(c + 2, [d2])));
    trace, steps := Extend(1, trace, steps, Get);
    trace, steps := Extend(1, trace, steps, SendOk);
    trace, steps := Extend(1, trace, steps, Done);
  }

  /** A run that sends the second batch before the first, whose send failed once. */
  lemma RetryOvertaken(c: int, d1: Delta, d2: Delta) returns (trace: seq<State>, steps: seq<Step>)
    requires !d1.op.Heartbeat? && !d2.op.Heartbeat?
    ensures IsRun(1, trace, steps) && Last(trace).sent == [Batch(c + 2, [d2]), Batch(c + 1, [d1])]
  {
    trace, steps := SecondSent(c, d1, d2);
    trace, steps := Extend(1, trace, steps, Delayed(Batch(c + 1, [d1])));
    trace, steps := Extend(1, trace, steps, Get);
    trace, steps := Extend(1, trace, steps, SendOk);
  }

  /** And so does a longer delay, with no send failing. */
  lemma DelayOvertaken(c: int, d1: Delta, d2: Delta) returns (trace: seq<State>, steps: seq<Step>)
    requires !d1.op.Heartbeat? && !d2.op.Heartbeat?
    ensures IsRun(1, trace, steps) && Last(trace).sent == [Batch(c + 2, [d2])]
    ensures Last(trace).queue.ready == [Batch(c + 1, [d1])]
  {
    trace, steps := TwoFlushed(c, d1, d2);
    trace, steps := Extend(1, trace, steps, Delayed(Batch(c + 2, [d2])));
    trace, steps := Extend(1, trace, steps, Delayed(Batch(c + 1, [d1])));
    trace, steps := Extend(1, trace, steps, Get);
    trace, steps := Extend(1, trace, steps, SendOk);
  }

  predicate Disordered(trace: seq<State>) {
    exists i :: 0 <= i < |trace| && !Ordered(Line(trace[i]))
  }

  lemma StaysDisordered(trace: seq<State>, more: seq<State>)
    requires Disordered(trace) && trace <= more
    ensures Disordered(more)
  {
    var i :| 0 <= i < |trace| && !Ordered(Line(trace[i]));
    assert more[i] == trace[i];
  }

  lemma JumpDisorders(trace: seq<State>, first: Batch, second: Batch)
    requires trace != [] && Line(Last(trace)) == [first, second] && second.id < first.id
    requires !IsHeartbeat(first) && !IsHeartbeat(second)
    ensures Disordered(trace)
  {
    var line := Line(Last(trace));
    assert line[0] == first && line[1] == second;
  }

  /** The second batch is ready before the first. */
  lemma Jumped(c: int, d1: Delta, d2: Delta) returns (trace: seq<State>, steps: seq<Step>)
    requires !d1.op.Heartbeat? && !d2.op.Heartbeat?
    ensures IsRun(1, trace, steps) && Last(trace).sent == [] && Disordered(trace)
    ensures Last(trace).queue == Queue({}, [Batch(c + 2, [d2]), Batch(c + 1, [d1])], None, false, false)
  {
    var b1, b2 := Batch(c + 1, [d1]), Batch(c + 2, [d2]);
    trace, steps := TwoFlushed(c, d1, d2);
    trace, steps := Extend(1, trace, steps, Delayed(b2));
    trace, steps := Extend(1, trace, steps, Delayed(b1));
    JumpDisorders(trace, b2, b1);
  }

  /** It goes back to the end of the line when its send fails. */
  lemma JumpTakenBack(c: int, d1: Delta, d2: Delta) returns (trace: seq<State>, steps: seq<Step>)
    requires !d1.op.Heartbeat? && !d2.op.Heartbeat?
    ensures IsRun(1, trace, steps) && Last(trace).sent == [] && Disordered(trace)
    ensures Last(trace).queue == Queue({Batch(c + 2, [d2])}, [Batch(c + 1, [d1])], None, false, false)
  {
    trace, steps := Jumped(c, d1, d2);
    var before := trace;
    trace, steps := Extend(1, trace, steps, Get);
    trace, steps := Extend(1, trace, steps, SendFail);
    trace, steps := Extend(1, trace, steps, Done);
    StaysDisordered(before, trace);
  }

  lemma FirstSent(c: int, d1: Delta, d2: Delta) returns (trace: seq<State>, steps: seq<Step>)
    requires !d1.op.Heartbeat? && !d2.op.Heartbeat?
    ensures IsRun(1, trace, steps) && Last(trace).sent == [Batch(c + 1, [d1])] && Disordered(trace)
    ensures Last(trace).queue == Queue({Batch(c + 2, [d2])}, [], None, false, false)
  {
    trace, steps := JumpTakenBack(c, d1, d2);
    var before := trace;
    trace, steps := Extend(1, trace, steps, Get);
    trace, steps := Extend(1, trace, steps, SendOk);
    trace, steps := Extend(1, trace, steps, Done);
    StaysDisordered(before, trace);
  }

  /** So the line can be out of order for a while and the sending in order. */
  lemma SentInOrderAnyway(c: int, d1: Delta, d2: Delta) returns (trace: seq<State>, steps: seq<Step>)
    requires !d1.op.Heartbeat? && !d2.op.Heartbeat?
    ensures IsRun(1, trace, steps) && Disordered(trace)
    ensures Last(trace).sent == [Batch(c + 1, [d1]), Batch(c + 2, [d2])] && Ordered(Last(trace).sent)
  {
    trace, steps := FirstSent(c, d1, d2);
    var before := trace;
    trace, steps := Extend(1, trace, steps, Delayed(Batch(c + 2, [d2])));
    trace, steps := Extend(1, trace, steps, Get);
    trace, steps := Extend(1, trace, steps, SendOk);
    StaysDisordered(before, trace);
  }

  // ---------- The worker object ----------

  class Worker {
    const max: int
    var counter: int
    var batch: Batch
    var queue: Queue
    ghost var flushDue: bool
    ghost var received: seq<Delta>
    ghost var queued: seq<Batch>
    ghost var flushed: seq<Batch>
    ghost var sent: seq<Batch>

    ghost function View(): State
      reads this
    {
      State(Batcher(counter, batch, flushDue, received, queued, flushed), queue, sent)
    }

    constructor (max: int, counter: int)
      ensures this.max == max && View() == Initial(counter)
    {
      this.max, this.counter, batch := max, counter + 1, Batch(counter + 1, []);
      queue := Queue({}, [], None, false, false);
      flushDue, received, queued, flushed, sent := false, [], [], [], [];
    }

    /** One event in `Start`, up to the unlock: whether the batch is to be flushed. */
    method Append(delta: Delta) returns (shouldFlush: bool)
      requires Enabled(View(), Receive(delta))
      modifies this
      ensures View() == Apply(max, old(View()), Receive(delta)) && shouldFlush == flushDue
    {
      batch := Batch(batch.id, batch.deltas + [delta]);
      shouldFlush := |batch.deltas| >= max;
      flushDue, received := shouldFlush, received + [delta];
    }

    method FlushBatch()
      modifies this
      ensures View() == Flush(old(View()))
    {
      if batch.deltas == [] {
        return;
      }
      queue, queued, flushed := AddLater(queue, batch), queued + [batch], flushed + [batch];
      counter := counter + 1;
      batch := Batch(counter, []);
    }

    /** One tick of `heartbeatWorker`. */
    method Heartbeat(objects: seq<Bytes>)
      modifies this
      ensures Enabled(old(View()), Beat(BeatBatch(old(counter) + 1, objects)))
      ensures View() == Apply(max, old(View()), Beat(BeatBatch(old(counter) + 1, objects)))
    {
      counter := counter + 1;
      var b := BeatBatch(counter, objects);
      queue, queued := AddLater(queue, b), queued + [b];
    }

    /** `sendDelta`, once a batch is ready and with the other goroutines idle. */
    method SendDelta(sendFails: bool)
      requires Enabled(View(), Get)
      modifies this
      ensures View() == Served(max, old(View()), sendFails)
      ensures if sendFails then sent == old(sent) && old(queue.ready[0]) in queue.waiting
              else sent == old(sent) + [old(queue.ready[0])] && queue.waiting == old(queue.waiting)
    {
      var b := queue.ready[0];
      queue := Take(queue);
      queue := queue.(pending := false);
      if sendFails {
        queue := AddLater(queue, b);
      } else {
        sent := sent + [b];
      }
      queue := DoneWith(queue);
    }

    /** One event in `Start`, with the other goroutines idle. */
    method ReceiveOne(delta: Delta)
      requires Enabled(View(), Receive(delta))
      modifies this
      ensures View() == Handled(max, old(View()), delta)
    {
      var shouldFlush := Append(delta);
      if shouldFlush {
        FlushBatch();
        flushDue := false;
      }
    }

    /** `Start` on a stream of events that ends, with the other goroutines idle: everything is handed to the queue. */
    method Start(events: seq<Delta>)
      requires Inv(View(), max) && !flushDue && forall i :: 0 <= i < |events| ==> !events[i].op.Heartbeat?
      modifies this
      ensures Inv(View(), max) && Concat(flushed) == old(received) + events && batch.deltas == []
    {
      for i := 0 to |events|
        invariant Inv(View(), max) && !flushDue && received == old(received) + events[..i]
      {
        HandledInv(View(), max, events[i]);
        ReceiveOne(events[i]);
        assert events[..i + 1] == events[..i] + [events[i]];
      }
      assert events[..|events|] == events;
      FlushedAll(View(), max);
      FlushBatch();
    }
  }

  lemma HandledInv(s: State, max: int, delta: Delta)
    requires Inv(s, max) && Enabled(s, Receive(delta))
    ensures var h := Handled(max, s, delta);
            Inv(h, max) && !h.batcher.flushDue && h.batcher.received == s.batcher.received + [delta]
  {
    ReceiveInv(s, max, delta);
    FlushInv(Apply(max, s, Receive(delta)), max);
  }

  lemma FlushedAll(s: State, max: int)
    requires Inv(s, max)
    ensures var f := Flush(s);
            Inv(f, max) && f.batcher.batch.deltas == [] && Concat(f.batcher.flushed) == s.batcher.received
  {
    FlushInv(s, max);
    var t := Flush(s).batcher;
    assert Concat(t.flushed) + [] == Concat(t.flushed);
  }
}

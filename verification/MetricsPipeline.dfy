/**
 The metrics buffer between any number of concurrent event handlers and one consumer
 (internal/metrics/consumers/otel/buffer.go, consumer.go).  A handler looks at the
 length, pushes under the lock, and posts to the one-slot notify channel if it saw the
 threshold reached; each of these is one step, and so is each thing the consumer does.
 */
module MetricsPipeline {
  import opened RingBuffer

  datatype Event = Event(metricType: int, payload: int)

  /** `Draining` is between taking a notification, or a tick, and the drain. */
  datatype Consumer = Waiting | Draining | Processing(events: seq<Event>)

  /**
   `checked` is what each handler between its two steps saw (whether the buffer was
   full), `posting` the handlers that are about to post, `token` the notify channel.
   `since` (everything pushed since the last drain), `pushed` and `overwritten` are not
   kept by the code.
   */
  datatype State = State(buffer: seq<Event>, since: seq<Event>, token: bool, checked: map<int, bool>, posting: set<int>,
                         consumer: Consumer, pushed: nat, overwritten: nat, dropped: nat, processed: nat, errors: nat)

  const INITIAL := State([], [], false, map[], {}, Waiting, 0, 0, 0, 0, 0)

  datatype Step =
    | Check(id: int) | Push(id: int, event: Event) | Post(id: int)
    | Wake | Tick | Drain | Process(ok: bool) | Finish

  predicate Enabled(s: State, step: Step) {
    match step
    case Check(id) => id !in s.checked && id !in s.posting
    case Push(id, _) => id in s.checked
    case Post(id) => id in s.posting
    case Wake => s.consumer.Waiting? && s.token
    case Tick => s.consumer.Waiting?
    case Drain => s.consumer.Draining?
    case Process(_) => s.consumer.Processing? && s.consumer.events != []
    case Finish => s.consumer.Processing? && s.consumer.events == []
  }

  function One(c: bool): nat {
    if c then 1 else 0
  }

  function Apply(capacity: nat, threshold: int, s: State, step: Step): State
    requires Enabled(s, step)
  {
    match step
    case Check(id) =>
      var full := |s.buffer| >= capacity;
      s.(checked := s.checked[id := full], dropped := s.dropped + One(full))
    case Push(id, event) =>
      var buffer := LastN(s.buffer + [event], capacity);
      s.(buffer := buffer, since := s.since + [event], checked := s.checked - {id},
         posting := if |buffer| >= threshold then s.posting + {id} else s.posting,
         pushed := s.pushed + 1, overwritten := s.overwritten + One(|s.buffer| >= capacity))
    case Post(id) => s.(token := true, posting := s.posting - {id})
    case Wake => s.(token := false, consumer := Draining)
    case Tick => s.(consumer := Draining)
    case Drain => s.(buffer := [], since := [], consumer := Processing(s.buffer))
    case Process(ok) =>
      s.(consumer := Processing(s.consumer.events[1..]),
         processed := s.processed + One(ok), errors := s.errors + One(!ok))
    case Finish => s.(consumer := Waiting)
  }

  // ---------- What every step keeps ----------

  /** A buffer at the threshold is not forgotten: a notification is pending, on its way, or being answered. */
  predicate NotForgotten(threshold: int, s: State) {
    |s.buffer| >= threshold ==> s.token || s.posting != {} || s.consumer.Draining?
  }

  function InHand(s: State): nat {
    if s.consumer.Processing? then |s.consumer.events| else 0
  }

  /** Every pushed event was processed, failed, was overwritten, or is still there. */
  predicate Accounted(s: State) {
    s.pushed == s.processed + s.errors + s.overwritten + |s.buffer| + InHand(s)
  }

  /** The buffer holds the last events pushed since the last drain. */
  predicate Kept(capacity: nat, s: State) {
    s.buffer == LastN(s.since, capacity) && |s.buffer| <= capacity
  }

  predicate Inv(capacity: nat, s: State) {
    Accounted(s) && Kept(capacity, s)
  }

  lemma PushInv(capacity: nat, threshold: int, s: State, id: int, event: Event)
    requires capacity > 0 && Inv(capacity, s) && id in s.checked
    ensures Inv(capacity, Apply(capacity, threshold, s, Push(id, event)))
  {
    LastNSnoc(s.since, event, capacity);
  }

  lemma StepInv(capacity: nat, threshold: int, s: State, step: Step)
    requires capacity > 0 && Inv(capacity, s) && Enabled(s, step)
    ensures Inv(capacity, Apply(capacity, threshold, s, step))
  {
    match step
    case Push(id, event) => PushInv(capacity, threshold, s, id, event);
    case _ =>
  }

  lemma StepNotForgotten(capacity: nat, threshold: int, s: State, step: Step)
    requires threshold >= 1 && NotForgotten(threshold, s) && Enabled(s, step)
    ensures NotForgotten(threshold, Apply(capacity, threshold, s, step))
  {
    var r := Apply(capacity, threshold, s, step);
    if step.Push? {
      assert |r.buffer| >= threshold ==> step.id in r.posting;
    }
  }

  // ---------- Whole runs ----------

  /** `trace[n]` is the state before step `n`. */
  predicate IsRun(capacity: nat, threshold: int, trace: seq<State>, steps: seq<Step>) {
    && |trace| == |steps| + 1 && trace[0] == INITIAL
    && forall n :: 0 <= n < |steps| ==>
         Enabled(trace[n], steps[n]) && trace[n + 1] == Apply(capacity, threshold, trace[n], steps[n])
  }

  lemma {:induction false} RunInv(capacity: nat, threshold: int, trace: seq<State>, steps: seq<Step>, n: nat)
    requires IsRun(capacity, threshold, trace, steps) && n < |trace| && capacity > 0
    ensures Inv(capacity, trace[n])
  {
    if n > 0 {
      RunInv(capacity, threshold, trace, steps, n - 1);
      StepInv(capacity, threshold, trace[n - 1], steps[n - 1]);
    }
  }

  lemma {:induction false} RunNotForgotten(capacity: nat, threshold: int, trace: seq<State>, steps: seq<Step>, n: nat)
    requires IsRun(capacity, threshold, trace, steps) && n < |trace| && threshold >= 1
    ensures NotForgotten(threshold, trace[n])
  {
    if n > 0 {
      RunNotForgotten(capacity, threshold, trace, steps, n - 1);
      StepNotForgotten(capacity, threshold, trace[n - 1], steps[n - 1]);
    }
  }

  /** No wake-up is lost in any run if and only if the threshold is positive. */
  lemma NoLostWakeUp(capacity: nat, threshold: int)
    ensures (forall trace, steps, n :: IsRun(capacity, threshold, trace, steps) && 0 <= n < |trace| ==>
               NotForgotten(threshold, trace[n]))
            <==> threshold >= 1
  {
    if threshold >= 1 {
      forall trace, steps, n | IsRun(capacity, threshold, trace, steps) && 0 <= n < |trace|
        ensures NotForgotten(threshold, trace[n])
      {
        RunNotForgotten(capacity, threshold, trace, steps, n);
      }
    } else {
      assert IsRun(capacity, threshold, [INITIAL], []);
      assert !NotForgotten(threshold, [INITIAL][0]);
    }
  }

  /** When everybody is idle below, a full enough buffer has its notification waiting. */
  lemma IdleHasToken(capacity: nat, threshold: int, trace: seq<State>, steps: seq<Step>, n: nat)
    requires IsRun(capacity, threshold, trace, steps) && n < |trace| && threshold >= 1
    requires trace[n].posting == {} && trace[n].consumer.Waiting? && |trace[n].buffer| >= threshold
    ensures Enabled(trace[n], Wake)
  {
    RunNotForgotten(capacity, threshold, trace, steps, n);
  }

  /** What a drain hands out in any interleaving: the last events pushed since the one before, in order. */
  lemma DrainExact(capacity: nat, threshold: int, trace: seq<State>, steps: seq<Step>, n: nat)
    requires IsRun(capacity, threshold, trace, steps) && n < |steps| && steps[n].Drain? && capacity > 0
    ensures trace[n + 1].consumer == Processing(LastN(PushedSince(steps, n), capacity))
  {
    RunInv(capacity, threshold, trace, steps, n);
    SinceIs(capacity, threshold, trace, steps, n);
  }

  /** What the first `n` steps pushed after the last drain among them. */
  function PushedSince(steps: seq<Step>, n: nat): seq<Event>
    requires n <= |steps|
  {
    if n == 0 || steps[n - 1].Drain? then []
    else PushedSince(steps, n - 1) + if steps[n - 1].Push? then [steps[n - 1].event] else []
  }

  lemma {:induction false} SinceIs(capacity: nat, threshold: int, trace: seq<State>, steps: seq<Step>, n: nat)
    requires IsRun(capacity, threshold, trace, steps) && n < |trace|
    ensures trace[n].since == PushedSince(steps, n)
  {
    if n > 0 {
      SinceIs(capacity, threshold, trace, steps, n - 1);
      assert trace[n] == Apply(capacity, threshold, trace[n - 1], steps[n - 1]);
    }
  }

  /** A push that leaves the buffer at the threshold. */
  predicate Reaches(threshold: int, trace: seq<State>, steps: seq<Step>, m: int) {
    0 <= m < |steps| < |trace| && steps[m].Push? && |trace[m + 1].buffer| >= threshold
  }

  /** The last push of the handler reached the threshold, and it has not posted since. */
  predicate Owes(threshold: int, trace: seq<State>, steps: seq<Step>, n: nat, id: int)
    requires n <= |steps| < |trace|
  {
    n > 0 && (|| (Reaches(threshold, trace, steps, n - 1) && steps[n - 1].id == id)
              || (Owes(threshold, trace, steps, n - 1, id) && steps[n - 1] != Post(id)))
  }

  lemma StepPosting(capacity: nat, threshold: int, trace: seq<State>, steps: seq<Step>, before: nat, id: int)
    requires IsRun(capacity, threshold, trace, steps) && before < |steps|
    ensures id in trace[before + 1].posting <==>
            || (Reaches(threshold, trace, steps, before) && steps[before].id == id)
            || (id in trace[before].posting && steps[before] != Post(id))
  {
    assert trace[before + 1] == Apply(capacity, threshold, trace[before], steps[before]);
  }

  /** A handler is about to post if and only if its push reached the threshold and it has not posted since. */
  lemma {:induction false} PostingIff(capacity: nat, threshold: int, trace: seq<State>, steps: seq<Step>, n: nat,
                                      id: int)
    requires IsRun(capacity, threshold, trace, steps) && n < |trace|
    ensures id in trace[n].posting <==> Owes(threshold, trace, steps, n, id)
  {
    if n > 0 {
      PostingIff(capacity, threshold, trace, steps, n - 1, id);
      StepPosting(capacity, threshold, trace, steps, n - 1, id);
    }
  }

  /** A notification is posted only by a handler whose push reached the threshold. */
  lemma {:induction false} NoSpuriousWakeUp(capacity: nat, threshold: int, trace: seq<State>, steps: seq<Step>, n: nat)
    requires IsRun(capacity, threshold, trace, steps) && n < |trace|
    ensures trace[n].token || trace[n].posting != {} ==> exists m :: m < n && Reaches(threshold, trace, steps, m)
  {
    if n > 0 {
      NoSpuriousWakeUp(capacity, threshold, trace, steps, n - 1);
      assert trace[n] == Apply(capacity, threshold, trace[n - 1], steps[n - 1]);
      if steps[n - 1].Push? && |trace[n].buffer| >= threshold {
        assert Reaches(threshold, trace, steps, n - 1);
      }
    }
  }

  /** Some post among the first `n` steps was not yet answered. */
  predicate Posted(steps: seq<Step>, n: nat)
    requires n <= |steps|
  {
    exists m :: 0 <= m < n && steps[m].Post? && Unanswered(steps, m, n)
  }

  predicate Unanswered(steps: seq<Step>, m: nat, n: nat)
    requires n <= |steps|
  {
    forall i :: m < i < n ==> !steps[i].Wake?
  }

  lemma PostedNext(steps: seq<Step>, n: nat)
    requires 0 < n <= |steps|
    ensures Posted(steps, n) <==> steps[n - 1].Post? || (Posted(steps, n - 1) && !steps[n - 1].Wake?)
  {
    if steps[n - 1].Post? {
      assert Unanswered(steps, n - 1, n);
    }
    forall m: nat | m < n - 1 ensures Unanswered(steps, m, n) <==> Unanswered(steps, m, n - 1) && !steps[n - 1].Wake? {
    }
  }

  /** The notify channel holds a notification if and only if one was posted since the consumer last took one. */
  lemma {:induction false} TokenIff(capacity: nat, threshold: int, trace: seq<State>, steps: seq<Step>, n: nat)
    requires IsRun(capacity, threshold, trace, steps) && n < |trace|
    ensures trace[n].token <==> Posted(steps, n)
  {
    if n > 0 {
      TokenIff(capacity, threshold, trace, steps, n - 1);
      PostedNext(steps, n);
      assert trace[n] == Apply(capacity, threshold, trace[n - 1], steps[n - 1]);
    }
  }

  // ---------- The dropped counter ----------

  predicate Full(capacity: nat, s: State) {
    |s.buffer| >= capacity
  }

  /** How many of the first `n` steps were looks that saw the buffer full. */
  function FullLooks(capacity: nat, trace: seq<State>, steps: seq<Step>, n: nat): nat
    requires n <= |steps| < |trace|
  {
    if n == 0 then 0
    else FullLooks(capacity, trace, steps, n - 1) + One(steps[n - 1].Check? && Full(capacity, trace[n - 1]))
  }

  /** And how many were pushes that overwrote an event. */
  function Overwrites(capacity: nat, trace: seq<State>, steps: seq<Step>, n: nat): nat
    requires n <= |steps| < |trace|
  {
    if n == 0 then 0
    else Overwrites(capacity, trace, steps, n - 1) + One(steps[n - 1].Push? && Full(capacity, trace[n - 1]))
  }

  /** How many of the first `n` steps ended the processing of an event, with or without an error. */
  function Ended(steps: seq<Step>, n: nat, ok: bool): nat
    requires n <= |steps|
  {
    if n == 0 then 0 else Ended(steps, n - 1, ok) + One(steps[n - 1] == Process(ok))
  }

  /** Every counter counts what it says. */
  lemma {:induction false} CountersCount(capacity: nat, threshold: int, trace: seq<State>, steps: seq<Step>, n: nat)
    requires IsRun(capacity, threshold, trace, steps) && n < |trace|
    ensures trace[n].dropped == FullLooks(capacity, trace, steps, n)
    ensures trace[n].overwritten == Overwrites(capacity, trace, steps, n)
    ensures trace[n].processed == Ended(steps, n, true) && trace[n].errors == Ended(steps, n, false)
  {
    if n > 0 {
      CountersCount(capacity, threshold, trace, steps, n - 1);
      assert trace[n] == Apply(capacity, threshold, trace[n - 1], steps[n - 1]);
    }
  }

  predicate AddUp(s: State) {
    s.pushed == s.processed + s.errors + s.dropped + |s.buffer| + InHand(s)
  }

  /** In every run the counters add up if and only if as many looks saw the buffer full as pushes overwrote. */
  lemma CountersAddUpIff(capacity: nat, threshold: int, trace: seq<State>, steps: seq<Step>, n: nat)
    requires IsRun(capacity, threshold, trace, steps) && n < |trace| && capacity > 0
    ensures AddUp(trace[n]) <==> FullLooks(capacity, trace, steps, n) == Overwrites(capacity, trace, steps, n)
  {
    RunInv(capacity, threshold, trace, steps, n);
    CountersCount(capacity, threshold, trace, steps, n);
  }

  /** Step `m` is the look that belongs to the push at step `n`. */
  predicate LookOf(steps: seq<Step>, m: nat, n: nat)
    requires m < n < |steps|
  {
    && steps[m].Check? && steps[n].Push? && steps[m].id == steps[n].id
    && forall i :: m < i < n && steps[i].Check? ==> steps[i].id != steps[n].id
  }

  predicate Resizes(step: Step) {
    step.Push? || step.Drain?
  }

  /** Between a handler's look and its push nobody pushes or drains. */
  predicate Undisturbed(steps: seq<Step>) {
    forall m, n, i :: 0 <= m < i < n < |steps| && LookOf(steps, m, n) ==> !Resizes(steps[i])
  }

  /** What the handler saw, and when: nothing it did since. */
  lemma {:induction false} FindLook(capacity: nat, threshold: int, trace: seq<State>, steps: seq<Step>, n: nat, id: int)
    returns (m: nat)
    requires IsRun(capacity, threshold, trace, steps) && n < |trace| && id in trace[n].checked
    ensures m < n && steps[m] == Check(id) && trace[n].checked[id] == Full(capacity, trace[m])
    ensures forall i :: m < i < n && steps[i].Check? ==> steps[i].id != id
  {
    assert n > 0 && trace[n] == Apply(capacity, threshold, trace[n - 1], steps[n - 1]);
    if steps[n - 1] == Check(id) {
      m := n - 1;
    } else {
      m := FindLook(capacity, threshold, trace, steps, n - 1, id);
    }
  }

  lemma {:induction false} SameBuffer(capacity: nat, threshold: int, trace: seq<State>, steps: seq<Step>, m: nat,
                                      n: nat)
    requires IsRun(capacity, threshold, trace, steps) && m <= n < |trace|
    requires forall i :: m <= i < n ==> !Resizes(steps[i])
    ensures trace[n].buffer == trace[m].buffer
    decreases n
  {
    if m < n {
      SameBuffer(capacity, threshold, trace, steps, m, n - 1);
      assert trace[n] == Apply(capacity, threshold, trace[n - 1], steps[n - 1]);
    }
  }

  /** An undisturbed look is still right when its handler pushes. */
  lemma LookStillRight(capacity: nat, threshold: int, trace: seq<State>, steps: seq<Step>, n: nat)
    requires IsRun(capacity, threshold, trace, steps) && Undisturbed(steps) && n < |steps| && steps[n].Push?
    ensures steps[n].id in trace[n].checked && trace[n].checked[steps[n].id] == Full(capacity, trace[n])
  {
    assert Enabled(trace[n], steps[n]);
    var m := FindLook(capacity, threshold, trace, steps, n, steps[n].id);
    assert LookOf(steps, m, n);
    SameBuffer(capacity, threshold, trace, steps, m, n);
  }

  /** The handlers that saw the buffer full and have not pushed. */
  function Pending(checked: map<int, bool>): set<int> {
    set id | id in checked && checked[id]
  }

  lemma PendingCheck(checked: map<int, bool>, id: int, full: bool)
    requires id !in checked
    ensures |Pending(checked[id := full])| == |Pending(checked)| + One(full)
  {
    assert Pending(checked[id := full]) == Pending(checked) + if full then {id} else {};
  }

  lemma PendingPush(checked: map<int, bool>, id: int)
    requires id in checked
    ensures |Pending(checked - {id})| + One(checked[id]) == |Pending(checked)|
  {
    assert Pending(checked) == Pending(checked - {id}) + if checked[id] then {id} else {};
  }

  /** In an undisturbed run the dropped counter is ahead of the overwriting by the looks still pending. */
  lemma {:induction false} RunDropped(capacity: nat, threshold: int, trace: seq<State>, steps: seq<Step>, n: nat)
    requires IsRun(capacity, threshold, trace, steps) && Undisturbed(steps) && n < |trace|
    ensures trace[n].dropped == trace[n].overwritten + |Pending(trace[n].checked)|
  {
    if n > 0 {
      var s, step := trace[n - 1], steps[n - 1];
      RunDropped(capacity, threshold, trace, steps, n - 1);
      assert Enabled(s, step) && trace[n] == Apply(capacity, threshold, s, step);
      if step.Check? {
        PendingCheck(s.checked, step.id, Full(capacity, s));
      } else if step.Push? {
        LookStillRight(capacity, threshold, trace, steps, n - 1);
        PendingPush(s.checked, step.id);
      }
    }
  }

  /** In an undisturbed run the counters add up whenever nobody is between look and push. */
  lemma CountersAddUp(capacity: nat, threshold: int, trace: seq<State>, steps: seq<Step>, n: nat)
    requires IsRun(capacity, threshold, trace, steps) && Undisturbed(steps) && n < |trace| && capacity > 0
    requires trace[n].checked == map[]
    ensures AddUp(trace[n])
  {
    RunInv(capacity, threshold, trace, steps, n);
    RunDropped(capacity, threshold, trace, steps, n);
  }

  /** Two handlers that both look before either pushes: one event is overwritten and not counted. */
  lemma InterleavedHandlersMiscount(threshold: int, e: Event, f: Event) returns (trace: seq<State>, steps: seq<Step>)
    ensures IsRun(1, threshold, trace, steps)
    ensures var s := trace[|steps|];
            && s.checked == map[] && s.pushed == 2 && s.dropped == 0 && s.buffer == [f]
            && !AddUp(s)
  {
    steps := [Check(1), Check(2), Push(1, e), Push(2, f)];
    var s1 := Apply(1, threshold, INITIAL, steps[0]);
    var s2 := Apply(1, threshold, s1, steps[1]);
    var s3 := Apply(1, threshold, s2, steps[2]);
    var s4 := Apply(1, threshold, s3, steps[3]);
    trace := [INITIAL, s1, s2, s3, s4];
  }
}

/**
 The channel merger (pkg/channel/merger.go): a select loop over a list of cases that
 grows and shrinks, copying what it receives to one output.
 */
module Merger {
  /** A case of the select: an input channel, the channel of additions, or the done channel. */
  datatype Case = Input(ch: int) | Additions | Done

  /**
   `queue` is what was sent on each channel and not yet received, `additions` the calls
   of `Add` not yet answered, `shut` says `Close` was called.  The channel of an output
   message, `sent` and `known` (the first inputs and the channels ever passed to `Add`) are
   not kept by the code.
   */
  datatype State<T> = State(cases: seq<Case>, running: bool, out: seq<(int, T)>,
                            queue: map<int, seq<T>>, closed: set<int>, additions: seq<int>, shut: bool,
                            sent: map<int, seq<T>>, known: set<int>)

  function Of<T>(m: map<int, seq<T>>, ch: int): seq<T> {
    if ch in m then m[ch] else []
  }

  function InputCases(inputs: seq<int>): seq<Case> {
    seq(|inputs|, i requires 0 <= i < |inputs| => Input(inputs[i]))
  }

  /** The start of `run`; the channels may already hold messages. */
  function Initial<T>(inputs: seq<int>, queue: map<int, seq<T>>, closed: set<int>): State<T> {
    State(InputCases(inputs) + [Additions, Done], true, [], queue, closed, [], false, queue, set ch | ch in inputs)
  }

  // ---------- The list of cases ----------

  /** The additions and done cases are the last two, and all before are inputs. */
  predicate Shaped(cases: seq<Case>) {
    && |cases| >= 2 && cases[|cases| - 2] == Additions && cases[|cases| - 1] == Done
    && forall i :: 0 <= i < |cases| - 2 ==> cases[i].Input?
  }

  function Insert<T>(s: seq<T>, i: int, x: T): seq<T>
    requires 0 <= i <= |s|
  {
    s[..i] + [x] + s[i..]
  }

  function Delete<T>(s: seq<T>, i: int): seq<T>
    requires 0 <= i < |s|
  {
    s[..i] + s[i + 1..]
  }

  predicate Listed(cases: seq<Case>, ch: int) {
    exists i :: 0 <= i < |cases| && cases[i] == Input(ch)
  }

  lemma InsertListed(cases: seq<Case>, ch: int)
    requires Shaped(cases)
    ensures var r := Insert(cases, |cases| - 2, Input(ch));
            Shaped(r) && forall c :: Listed(r, c) <==> Listed(cases, c) || c == ch
  {
    var n := |cases| - 2;
    var r := Insert(cases, n, Input(ch));
    assert r[n] == Input(ch);
    forall c | Listed(cases, c) ensures Listed(r, c) {
      var i :| 0 <= i < |cases| && cases[i] == Input(c);
      assert r[i] == Input(c);
    }
    forall c | Listed(r, c) && c != ch ensures Listed(cases, c) {
      var i :| 0 <= i < |r| && r[i] == Input(c);
      assert cases[if i < n then i else i - 1] == Input(c);
    }
  }

  lemma DeleteListed(cases: seq<Case>, i: int)
    requires Shaped(cases) && 0 <= i < |cases| - 2
    ensures var r := Delete(cases, i);
            Shaped(r) && forall c :: Listed(cases, c) && c != cases[i].ch ==> Listed(r, c)
  {
    var r := Delete(cases, i);
    forall c | Listed(cases, c) && c != cases[i].ch ensures Listed(r, c) {
      var j :| 0 <= j < |cases| && cases[j] == Input(c);
      assert r[if j < i then j else j - 1] == Input(c);
    }
  }

  // ---------- Steps ----------

  datatype Step<T> = Send(ch: int, message: T) | CloseInput(ch: int) | Add(ch: int) | Close | Select(chosen: int)

  predicate Ready<T>(s: State<T>, c: Case) {
    match c
    case Input(ch) => Of(s.queue, ch) != [] || ch in s.closed
    case Additions => s.additions != [] || s.shut
    case Done => s.shut
  }

  predicate Enabled<T>(s: State<T>, step: Step<T>) {
    match step
    case Send(ch, _) => ch !in s.closed
    case CloseInput(ch) => ch !in s.closed
    case Add(_) => !s.shut
    case Close => !s.shut
    case Select(chosen) => s.running && 0 <= chosen < |s.cases| && Ready(s, s.cases[chosen])
  }

  /** One turn of the loop in `run`.  Before the last two every case is an input. */
  function Turn<T>(s: State<T>, chosen: int): State<T>
    requires 0 <= chosen < |s.cases|
  {
    if chosen == |s.cases| - 1 then s.(running := false)
    else if chosen == |s.cases| - 2 then
      if s.additions == [] then s.(running := false)
      else s.(cases := Insert(s.cases, |s.cases| - 2, Input(s.additions[0])), additions := s.additions[1..])
    else
      match s.cases[chosen]
      case Input(ch) =>
        if Of(s.queue, ch) == [] then s.(cases := Delete(s.cases, chosen))
        else s.(out := s.out + [(ch, s.queue[ch][0])], queue := s.queue[ch := s.queue[ch][1..]])
      case _ => s
  }

  function Apply<T>(s: State<T>, step: Step<T>): State<T>
    requires Enabled(s, step)
  {
    match step
    case Send(ch, m) => s.(queue := s.queue[ch := Of(s.queue, ch) + [m]], sent := s.sent[ch := Of(s.sent, ch) + [m]])
    case CloseInput(ch) => s.(closed := s.closed + {ch})
    case Add(ch) => s.(additions := s.additions + [ch], known := s.known + {ch})
    case Close => s.(shut := true)
    case Select(chosen) => Turn(s, chosen)
  }

  // ---------- What every step keeps ----------

  /** The messages of the output that came from `ch`. */
  function From<T>(out: seq<(int, T)>, ch: int): seq<T> {
    if out == [] then []
    else
      var n := |out| - 1;
      From(out[..n], ch) + if out[n].0 == ch then [out[n].1] else []
  }

  lemma FromSnoc<T>(out: seq<(int, T)>, x: (int, T), ch: int)
    ensures From(out + [x], ch) == From(out, ch) + if x.0 == ch then [x.1] else []
  {
    assert (out + [x])[..|out|] == out;
  }

  predicate InOrder<T(==)>(s: State<T>, ch: int) {
    From(s.out, ch) + Of(s.queue, ch) == Of(s.sent, ch)
  }

  /** A channel ever added is still selected or about to be, or closed and read to its end. */
  predicate Watched<T>(s: State<T>, ch: int) {
    ch in s.known ==> Listed(s.cases, ch) || ch in s.additions || (ch in s.closed && Of(s.queue, ch) == [])
  }

  ghost predicate Inv<T>(s: State<T>) {
    Shaped(s.cases) && (forall ch :: InOrder(s, ch)) && forall ch :: Watched(s, ch)
  }

  lemma HeadMoves<T>(f: seq<T>, q: seq<T>)
    requires q != []
    ensures f + [q[0]] + q[1..] == f + q
  {
  }

  /** Receiving moves the head of a channel's queue to the output. */
  lemma ReceiveInOrder<T>(s: State<T>, ch: int, c: int)
    requires Of(s.queue, ch) != [] && InOrder(s, c)
    ensures InOrder(s.(out := s.out + [(ch, s.queue[ch][0])], queue := s.queue[ch := s.queue[ch][1..]]), c)
  {
    FromSnoc(s.out, (ch, s.queue[ch][0]), c);
    if c == ch {
      HeadMoves(From(s.out, c), s.queue[ch]);
    } else {
      assert From(s.out, c) + [] == From(s.out, c);
    }
  }

  lemma TurnInOrder<T>(s: State<T>, chosen: int, c: int)
    requires Shaped(s.cases) && 0 <= chosen < |s.cases| && InOrder(s, c)
    ensures InOrder(Turn(s, chosen), c)
  {
    if chosen < |s.cases| - 2 && Of(s.queue, s.cases[chosen].ch) != [] {
      ReceiveInOrder(s, s.cases[chosen].ch, c);
    }
  }

  lemma TurnWatched<T>(s: State<T>, chosen: int)
    requires Inv(s) && Enabled(s, Select(chosen))
    ensures var r := Turn(s, chosen); Shaped(r.cases) && forall c :: Watched(r, c)
  {
    var r := Turn(s, chosen);
    if chosen == |s.cases| - 2 && s.additions != [] {
      InsertListed(s.cases, s.additions[0]);
    } else if chosen < |s.cases| - 2 && Of(s.queue, s.cases[chosen].ch) == [] {
      DeleteListed(s.cases, chosen);
    }
    forall c ensures Watched(r, c) {
      assert Watched(s, c);
    }
  }

  lemma SendInv<T>(s: State<T>, ch: int, m: T)
    requires Inv(s) && Enabled(s, Send(ch, m))
    ensures Inv(Apply(s, Send(ch, m)))
  {
    var r := Apply(s, Send(ch, m));
    forall c ensures InOrder(r, c) && Watched(r, c) {
      assert InOrder(s, c) && Watched(s, c);
      assert From(s.out, c) + (Of(s.queue, c) + [m]) == From(s.out, c) + Of(s.queue, c) + [m];
    }
  }

  lemma StepInv<T>(s: State<T>, step: Step<T>)
    requires Inv(s) && Enabled(s, step)
    ensures Inv(Apply(s, step))
  {
    match step
    case Send(ch, m) => SendInv(s, ch, m);
    case Select(chosen) =>
      TurnWatched(s, chosen);
      forall c ensures InOrder(Turn(s, chosen), c) {
        assert InOrder(s, c);
        TurnInOrder(s, chosen, c);
      }
    case _ =>
      forall c ensures InOrder(Apply(s, step), c) && Watched(Apply(s, step), c) {
        assert InOrder(s, c) && Watched(s, c);
      }
  }

  // ---------- Whole runs ----------

  /** `trace[n]` is the state before step `n`. */
  ghost predicate IsRun<T(!new)>(trace: seq<State<T>>, steps: seq<Step<T>>) {
    && |trace| == |steps| + 1 && (exists inputs, queue, closed :: trace[0] == Initial(inputs, queue, closed))
    && forall n :: 0 <= n < |steps| ==>
         Enabled(trace[n], steps[n]) && trace[n + 1] == Apply(trace[n], steps[n])
  }

  lemma InitialInv<T>(inputs: seq<int>, queue: map<int, seq<T>>, closed: set<int>)
    ensures Inv(Initial(inputs, queue, closed))
  {
    var s := Initial(inputs, queue, closed);
    forall ch ensures Watched(s, ch) {
      if ch in inputs {
        var i :| 0 <= i < |inputs| && inputs[i] == ch;
        assert s.cases[i] == Input(ch);
      }
    }
    forall ch ensures InOrder(s, ch) {
      assert [] + Of(queue, ch) == Of(queue, ch);
    }
  }

  lemma {:induction false} RunInv<T(!new)>(trace: seq<State<T>>, steps: seq<Step<T>>, n: nat)
    requires IsRun(trace, steps) && n < |trace|
    ensures Inv(trace[n])
  {
    if n == 0 {
      var inputs, queue, closed :| trace[0] == Initial(inputs, queue, closed);
      InitialInv(inputs, queue, closed);
    } else {
      RunInv(trace, steps, n - 1);
      StepInv(trace[n - 1], steps[n - 1]);
    }
  }

  /**
   In every reachable state the output, restricted to any one channel, is a prefix of
   what was sent on it, in order, the rest being still in the channel; a channel that was
   added and is neither selected nor about to be was read to its end; and the two special
   cases are the last two.
   */
  lemma Interleaving<T(!new)>(trace: seq<State<T>>, steps: seq<Step<T>>, n: nat, ch: int)
    requires IsRun(trace, steps) && n < |trace|
    ensures var s := trace[n];
            && Shaped(s.cases) && From(s.out, ch) <= Of(s.sent, ch)
            && Of(s.sent, ch)[|From(s.out, ch)|..] == Of(s.queue, ch)
            && (ch in s.known && !Listed(s.cases, ch) && ch !in s.additions ==>
                  ch in s.closed && From(s.out, ch) == Of(s.sent, ch))
  {
    RunInv(trace, steps, n);
    assert InOrder(trace[n], ch) && Watched(trace[n], ch);
  }

  /** The messages the first `n` steps sent on `ch`. */
  function SentOn<T>(steps: seq<Step<T>>, n: nat, ch: int): seq<T>
    requires n <= |steps|
  {
    if n == 0 then []
    else
      var step := steps[n - 1];
      SentOn(steps, n - 1, ch) + if step.Send? && step.ch == ch then [step.message] else []
  }

  lemma Regroup<T>(a: seq<T>, b: seq<T>, c: seq<T>)
    ensures a + b + c == a + (b + c)
  {
  }

  lemma StepSentOn<T>(s: State<T>, step: Step<T>, ch: int)
    requires Enabled(s, step)
    ensures Of(Apply(s, step).sent, ch) ==
            Of(s.sent, ch) + if step.Send? && step.ch == ch then [step.message] else []
  {
  }

  lemma {:induction false} SentExact<T(!new)>(trace: seq<State<T>>, steps: seq<Step<T>>, n: nat, ch: int)
    requires IsRun(trace, steps) && n < |trace|
    ensures Of(trace[n].sent, ch) == Of(trace[0].sent, ch) + SentOn(steps, n, ch)
  {
    if n > 0 {
      SentExact(trace, steps, n - 1, ch);
      var step := steps[n - 1];
      StepSentOn(trace[n - 1], step, ch);
      var more := if step.Send? && step.ch == ch then [step.message] else [];
      Regroup(Of(trace[0].sent, ch), SentOn(steps, n - 1, ch), more);
    }
  }

  // ---------- What can be selected ----------

  /** A message waiting on a selected channel can be put out next, and a closed empty channel dropped. */
  lemma CanReceive<T>(s: State<T>, ch: int) returns (chosen: int)
    requires Inv(s) && s.running && Listed(s.cases, ch) && (Of(s.queue, ch) != [] || ch in s.closed)
    ensures Enabled(s, Select(chosen)) && s.cases[chosen] == Input(ch)
    ensures var r := Apply(s, Select(chosen));
            if Of(s.queue, ch) != [] then r.out == s.out + [(ch, s.queue[ch][0])] && Of(r.queue, ch) == s.queue[ch][1..]
            else |r.cases| == |s.cases| - 1 && r.out == s.out
  {
    chosen :| 0 <= chosen < |s.cases| && s.cases[chosen] == Input(ch);
  }

  /** The first channel waiting to be added can be. */
  lemma CanAdd<T>(s: State<T>)
    requires Inv(s) && s.running && s.additions != []
    ensures Enabled(s, Select(|s.cases| - 2))
    ensures var r := Apply(s, Select(|s.cases| - 2));
            Listed(r.cases, s.additions[0]) && r.additions == s.additions[1..] && |r.cases| == |s.cases| + 1
  {
    InsertListed(s.cases, s.additions[0]);
  }

  /** The channels passed to `Add` in the first `n` steps. */
  function Asked<T>(steps: seq<Step<T>>, n: nat): seq<int>
    requires n <= |steps|
  {
    if n == 0 then [] else Asked(steps, n - 1) + if steps[n - 1].Add? then [steps[n - 1].ch] else []
  }

  /** The step takes the first channel waiting to be added. */
  predicate Answers<T>(s: State<T>, step: Step<T>)
    requires Enabled(s, step)
  {
    step.Select? && s.cases[step.chosen].Additions? && s.additions != []
  }

  function Answered<T>(trace: seq<State<T>>, steps: seq<Step<T>>, n: nat): nat
    requires n <= |steps| < |trace| && forall i :: 0 <= i < |steps| ==> Enabled(trace[i], steps[i])
  {
    if n == 0 then 0 else Answered(trace, steps, n - 1) + if Answers(trace[n - 1], steps[n - 1]) then 1 else 0
  }

  lemma TurnAdditions<T>(s: State<T>, chosen: int)
    requires Shaped(s.cases) && 0 <= chosen < |s.cases|
    ensures var r := Turn(s, chosen);
            && r.known == s.known && r.shut == s.shut
            && r.additions ==
               if s.cases[chosen].Additions? && s.additions != [] then s.additions[1..] else s.additions
  {
  }

  lemma StepAdditions<T>(s: State<T>, step: Step<T>)
    requires Shaped(s.cases) && Enabled(s, step)
    ensures var r := Apply(s, step);
            && r.additions == (if step.Add? then s.additions + [step.ch]
                               else if Answers(s, step) then s.additions[1..] else s.additions)
            && r.known == (if step.Add? then s.known + {step.ch} else s.known)
            && r.shut == (s.shut || step.Close?)
  {
    if step.Select? {
      TurnAdditions(s, step.chosen);
    }
  }

  lemma Tails(asked: seq<int>, taken: nat, more: seq<int>)
    requires taken <= |asked|
    ensures (asked + more)[taken..] == asked[taken..] + more
    ensures taken < |asked| ==> (asked + more)[taken + 1..] == asked[taken..][1..] + more
    ensures asked[taken..] + [] == asked[taken..] && asked[taken..] != [] ==> taken < |asked|
  {
  }

  /** Channels are added in the order of the calls of `Add`, each once. */
  lemma {:induction false} AdditionsInOrder<T(!new)>(trace: seq<State<T>>, steps: seq<Step<T>>, n: nat)
    requires IsRun(trace, steps) && n < |trace|
    ensures Answered(trace, steps, n) <= |Asked(steps, n)|
    ensures trace[n].additions == Asked(steps, n)[Answered(trace, steps, n)..]
  {
    if n == 0 {
      var inputs, queue, closed :| trace[0] == Initial(inputs, queue, closed);
    } else {
      AdditionsInOrder(trace, steps, n - 1);
      RunInv(trace, steps, n - 1);
      var step, asked, taken := steps[n - 1], Asked(steps, n - 1), Answered(trace, steps, n - 1);
      StepAdditions(trace[n - 1], step);
      Tails(asked, taken, if step.Add? then [step.ch] else []);
    }
  }

  /** The channels known are the first inputs and those passed to `Add`, and `Close` is remembered. */
  lemma {:induction false} KnownExact<T(!new)>(trace: seq<State<T>>, steps: seq<Step<T>>, n: nat, ch: int)
    requires IsRun(trace, steps) && n < |trace|
    ensures ch in trace[n].known <==> ch in trace[0].known || ch in Asked(steps, n)
    ensures trace[n].shut <==> exists m :: 0 <= m < n && steps[m].Close?
  {
    if n == 0 {
      var inputs, queue, closed :| trace[0] == Initial(inputs, queue, closed);
    } else {
      KnownExact(trace, steps, n - 1, ch);
      RunInv(trace, steps, n - 1);
      StepAdditions(trace[n - 1], steps[n - 1]);
    }
  }

  // ---------- The end of the loop ----------

  /** The step selects the done channel, or the channel of additions when that is closed and empty. */
  predicate Ends<T>(s: State<T>, step: Step<T>)
    requires Enabled(s, step)
  {
    && step.Select?
    && (s.cases[step.chosen].Done? || (s.cases[step.chosen].Additions? && s.additions == []))
  }

  lemma StepEnds<T>(s: State<T>, step: Step<T>)
    requires Shaped(s.cases) && Enabled(s, step)
    ensures var r := Apply(s, step);
            && (r.running <==> s.running && !Ends(s, step))
            && (!s.running || Ends(s, step) ==> r.out == s.out && r.cases == s.cases)
            && (Ends(s, step) ==> s.shut) && (s.shut ==> r.shut)
  {
  }

  /** The loop has ended if and only if an earlier step ended it, which can only be after `Close`. */
  lemma {:induction false} EndedIff<T(!new)>(trace: seq<State<T>>, steps: seq<Step<T>>, n: nat)
    requires IsRun(trace, steps) && n < |trace|
    ensures !trace[n].running <==> exists m :: 0 <= m < n && Ends(trace[m], steps[m])
    ensures !trace[n].running ==> trace[n].shut
  {
    if n == 0 {
      var inputs, queue, closed :| trace[0] == Initial(inputs, queue, closed);
    } else {
      EndedIff(trace, steps, n - 1);
      RunInv(trace, steps, n - 1);
      StepEnds(trace[n - 1], steps[n - 1]);
    }
  }

  /** Once the done channel is selected nothing more is selected or put out. */
  lemma {:induction false} DoneEnds<T(!new)>(trace: seq<State<T>>, steps: seq<Step<T>>, m: nat, n: nat)
    requires IsRun(trace, steps) && m < n < |trace|
    requires steps[m].Select? && trace[m].cases[steps[m].chosen].Done?
    ensures !trace[n].running && trace[n].out == trace[m].out && trace[n].cases == trace[m].cases
    ensures n < |steps| ==> !steps[n].Select?
    decreases n
  {
    RunInv(trace, steps, n - 1);
    StepEnds(trace[n - 1], steps[n - 1]);
    if m < n - 1 {
      DoneEnds(trace, steps, m, n - 1);
    }
  }

  /** After `Close` the loop can end at any turn. */
  lemma CanEnd<T>(s: State<T>)
    requires Shaped(s.cases) && s.running && s.shut
    ensures Enabled(s, Select(|s.cases| - 1)) && Ends(s, Select(|s.cases| - 1))
  {
  }

  /** Every output message is among those of its channel. */
  lemma {:induction false} OutputComesFrom<T>(out: seq<(int, T)>, i: nat) returns (k: nat)
    requires i < |out|
    ensures k < |From(out, out[i].0)| && From(out, out[i].0)[k] == out[i].1
  {
    var n := |out| - 1;
    if i == n {
      k := |From(out[..n], out[n].0)|;
    } else {
      k := OutputComesFrom(out[..n], i);
    }
  }

  // ---------- The loop ----------

  /** What a selection receives: a message, a channel to add, or the news that the channel is closed. */
  datatype Received<T> = Message(message: T) | Channel(ch: int) | Closed

  function ReceivedOn<T>(s: State<T>, c: Case): Received<T> {
    match c
    case Input(ch) => if Of(s.queue, ch) == [] then Closed else Message(s.queue[ch][0])
    case Additions => if s.additions == [] then Closed else Channel(s.additions[0])
    case Done => Closed
  }

  class Merger<T> {
    var cases: seq<Case>
    var out: seq<T>

    constructor (inputs: seq<int>)
      ensures cases == InputCases(inputs) + [Additions, Done] && out == []
    {
      cases, out := [], [];
      new;
      for i := 0 to |inputs|
        invariant cases == InputCases(inputs[..i]) && out == []
      {
        cases := cases + [Input(inputs[i])];
        assert InputCases(inputs[..i + 1]) == InputCases(inputs[..i]) + [Input(inputs[i])];
      }
      assert inputs[..|inputs|] == inputs;
      cases := cases + [Additions, Done];
    }

    /** The body of the loop after the select returned. */
    method Handle(chosen: int, r: Received<T>, ghost s: State<T>) returns (stop: bool)
      requires Shaped(cases) && cases == s.cases && 0 <= chosen < |cases| && Ready(s, cases[chosen])
      requires r == ReceivedOn(s, cases[chosen])
      modifies this
      ensures var t := Turn(s, chosen);
              && Shaped(cases) && cases == t.cases && (s.running ==> stop == !t.running)
              && out == old(out) + Messages(t.out[|s.out|..])
    {
      stop := false;
      assert s.out[|s.out|..] == [];
      if chosen == |cases| - 1 {
        return true;
      } else if chosen == |cases| - 2 {
        if r.Closed? {
          return true;
        }
        InsertListed(cases, r.ch);
        cases := Insert(cases, |cases| - 2, Input(r.ch));
      } else if r.Closed? {
        DeleteListed(cases, chosen);
        cases := Delete(cases, chosen);
      } else {
        out := out + [r.message];
        assert Turn(s, chosen).out[|s.out|..] == [(cases[chosen].ch, r.message)];
      }
    }
  }

  function Messages<T>(out: seq<(int, T)>): seq<T> {
    seq(|out|, i requires 0 <= i < |out| => out[i].1)
  }
}

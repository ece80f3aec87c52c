/** Steps that are scheduled ahead of the outputs of earlier ones: which tokens
    of a request are in flight, and which outputs a preemption has made stale. */
module AsyncTokens {

  /** One scheduled step of the request; `number` grows from step to step. */
  datatype Step = Step(number: nat, tokens: nat)

  /** What the scheduler counts for the request, and what really happened:
      `unprocessed` are the steps whose output is not in, oldest first, and
      `mark` is the first step after the last preemption. */
  datatype State = State(inFlight: int, stale: int, dropStale: bool, running: bool,
                         unprocessed: seq<Step>, nextStep: nat, mark: nat)

  function Sum(steps: seq<Step>): nat {
    if steps == [] then 0 else Sum(steps[..|steps| - 1]) + steps[|steps| - 1].tokens
  }

  lemma {:induction false} SumFirst(steps: seq<Step>)
    requires steps != []
    ensures Sum(steps) == steps[0].tokens + Sum(steps[1..])
  {
    if |steps| > 1 {
      SumFirst(steps[..|steps| - 1]);
      assert steps[..|steps| - 1][1..] == steps[1..][..|steps| - 2];
    }
  }

  /** The steps scheduled before the last preemption: they come first. */
  function Outdated(steps: seq<Step>, mark: nat): (r: seq<Step>)
    ensures r <= steps
  {
    if steps == [] || steps[0].number >= mark then []
    else [steps[0]] + Outdated(steps[1..], mark)
  }

  ghost predicate InOrder(s: State) {
    && (forall i, j :: 0 <= i < j < |s.unprocessed| ==> s.unprocessed[i].number < s.unprocessed[j].number)
    && (forall i :: 0 <= i < |s.unprocessed| ==> s.unprocessed[i].number < s.nextStep && s.unprocessed[i].tokens > 0)
    && s.mark <= s.nextStep
  }

  /** The counters are sums over the unprocessed steps. Stale output that will
      still be delivered keeps the request from running. */
  ghost predicate Inv(s: State) {
    && InOrder(s)
    && s.inFlight == Sum(s.unprocessed)
    && s.stale == Sum(Outdated(s.unprocessed, s.mark))
    && (s.stale > 0 && !s.dropStale ==> !s.running && s.inFlight == s.stale)
  }

  function Init(): State { State(0, 0, false, false, [], 0, 0) }

  // ---- what each event does ----

  datatype Event = Schedule(tokens: nat) | Preempt(drop: bool) | Resume | Output

  /** Whether the scheduler lets the event happen. */
  predicate Enabled(s: State, e: Event) {
    match e
    case Schedule(n) => s.running && n > 0
    case Preempt(_) => s.running
    case Resume => !s.running && !(s.stale > 0 && !s.dropStale)
    case Output => s.unprocessed != []
  }

  function Next(s: State, e: Event): State
    requires Enabled(s, e)
  {
    match e
    case Schedule(n) =>
      s.(inFlight := s.inFlight + n, unprocessed := s.unprocessed + [Step(s.nextStep, n)], nextStep := s.nextStep + 1)
    case Preempt(drop) =>
      s.(dropStale := drop || (s.dropStale && s.stale > 0), stale := s.inFlight, running := false, mark := s.nextStep)
    case Resume => s.(running := true)
    case Output =>
      var n := s.unprocessed[0].tokens;
      s.(inFlight := s.inFlight - n, stale := if s.stale > 0 then s.stale - n else s.stale,
          unprocessed := s.unprocessed[1..])
  }

  lemma {:induction false} OutdatedNone(steps: seq<Step>, mark: nat, more: Step)
    requires mark <= more.number
    ensures Outdated(steps + [more], mark) == Outdated(steps, mark)
  {
    if steps != [] && steps[0].number < mark {
      assert (steps + [more])[1..] == steps[1..] + [more];
      OutdatedNone(steps[1..], mark, more);
    }
  }

  lemma {:induction false} OutdatedAll(steps: seq<Step>, mark: nat)
    requires forall i :: 0 <= i < |steps| ==> steps[i].number < mark
    ensures Outdated(steps, mark) == steps
  {
    if steps != [] {
      OutdatedAll(steps[1..], mark);
    }
  }

  lemma {:induction false} SumPositive(steps: seq<Step>)
    requires steps != [] && forall i :: 0 <= i < |steps| ==> steps[i].tokens > 0
    ensures Sum(steps) > 0
  {}

  /** There is stale output exactly when the oldest unprocessed step is older
      than the last preemption. */
  lemma StaleIffHeadOld(s: State)
    requires Inv(s) && s.unprocessed != []
    ensures s.stale > 0 <==> s.unprocessed[0].number < s.mark
  {
    var old' := Outdated(s.unprocessed, s.mark);
    if old' != [] {
      SumPositive(old');
    }
  }

  lemma NextKeepsInv(s: State, e: Event)
    requires Inv(s) && Enabled(s, e)
    ensures Inv(Next(s, e))
  {
    hide Outdated;
    match e {
      case Schedule(n) =>
        OutdatedNone(s.unprocessed, s.mark, Step(s.nextStep, n));
        assert (s.unprocessed + [Step(s.nextStep, n)])[..|s.unprocessed|] == s.unprocessed;
      case Preempt(_) =>
        OutdatedAll(s.unprocessed, s.nextStep);
      case Resume =>
      case Output => OutputKeepsInv(s);
    }
  }

  lemma OutputKeepsInv(s: State)
    requires Inv(s) && s.unprocessed != []
    ensures Inv(Next(s, Output))
  {
    hide Sum, Outdated, InOrder;
    SumFirst(s.unprocessed);
    StaleIffHeadOld(s);
    OutdatedRest(s);
    OrderOfRest(s);
  }

  lemma OutdatedRest(s: State)
    requires InOrder(s) && s.unprocessed != []
    ensures var first, rest := s.unprocessed[0], s.unprocessed[1..];
            Sum(Outdated(s.unprocessed, s.mark))
            == Sum(Outdated(rest, s.mark)) + if first.number < s.mark then first.tokens else 0
  {
    var old', rest := Outdated(s.unprocessed, s.mark), s.unprocessed[1..];
    if s.unprocessed[0].number < s.mark {
      SumFirst(old');
      assert old'[1..] == Outdated(rest, s.mark);
    } else {
      assert rest != [] ==> rest[0] == s.unprocessed[1];
      assert Outdated(rest, s.mark) == [];
    }
  }

  lemma OrderOfRest(s: State)
    requires InOrder(s) && s.unprocessed != []
    ensures InOrder(Next(s, Output))
  {}

  // ---- every run ----

  /** The states an interleaving of events leads through. */
  ghost predicate Run(states: seq<State>, events: seq<Event>) {
    && |states| == |events| + 1 && states[0] == Init()
    && forall i :: 0 <= i < |events| ==> Enabled(states[i], events[i]) && states[i + 1] == Next(states[i], events[i])
  }

  lemma {:induction false} RunKeepsInv(states: seq<State>, events: seq<Event>, i: nat)
    requires Run(states, events) && i <= |events|
    ensures Inv(states[i])
  {
    if i > 0 {
      RunKeepsInv(states, events, i - 1);
      NextKeepsInv(states[i - 1], events[i - 1]);
    }
  }

  ghost predicate PreemptedBetween(events: seq<Event>, a: nat, i: nat) {
    exists j :: a < j < i && j < |events| && events[j].Preempt?
  }

  lemma {:induction false} StepsCount(states: seq<State>, events: seq<Event>, a: nat, i: nat)
    requires Run(states, events) && a <= i <= |events|
    ensures states[a].nextStep <= states[i].nextStep
    ensures a < i && events[a].Schedule? ==> states[a].nextStep < states[i].nextStep
  {
    if a < i - 1 {
      StepsCount(states, events, a, i - 1);
    }
  }

  /** A step is before the mark exactly when a preemption came after it. */
  lemma {:induction false} MarkMeansPreempted(states: seq<State>, events: seq<Event>, a: nat, i: nat)
    requires Run(states, events) && a < i <= |events| && events[a].Schedule?
    ensures states[a].nextStep < states[i].mark <==> PreemptedBetween(events, a, i)
  {
    RunKeepsInv(states, events, a);
    if i == a + 1 {
      assert states[i] == Next(states[a], events[a]);
    } else {
      MarkMeansPreempted(states, events, a, i - 1);
      StepsCount(states, events, a, i - 1);
      assert states[i] == Next(states[i - 1], events[i - 1]);
      if events[i - 1].Preempt? {
        assert PreemptedBetween(events, a, i);
      } else {
        assert PreemptedBetween(events, a, i) <==> PreemptedBetween(events, a, i - 1);
      }
    }
  }

  /** Each unprocessed step was scheduled by some event of the run. */
  lemma {:induction false} WhenScheduled(states: seq<State>, events: seq<Event>, i: nat, k: nat) returns (a: nat)
    requires Run(states, events) && i <= |events| && k < |states[i].unprocessed|
    ensures a < i && events[a] == Schedule(states[i].unprocessed[k].tokens)
    ensures states[a].nextStep == states[i].unprocessed[k].number
  {
    assert i > 0;
    assert states[i] == Next(states[i - 1], events[i - 1]);
    if events[i - 1].Schedule? && k == |states[i].unprocessed| - 1 {
      a := i - 1;
    } else {
      a := WhenScheduled(states, events, i - 1, if events[i - 1].Output? then k + 1 else k);
    }
  }

  /** In every run, an output is taken for stale exactly when its request was
      preempted after the step was scheduled; what is in flight is the sum of
      the unprocessed steps; the stale share never gets negative; and as long as
      stale output is still to be delivered, everything in flight is stale. */
  lemma OutputsClassedRight(states: seq<State>, events: seq<Event>, i: nat) returns (a: nat)
    requires Run(states, events) && i < |events| && events[i].Output?
    ensures a < i && events[a] == Schedule(states[i].unprocessed[0].tokens)
    ensures states[a].nextStep == states[i].unprocessed[0].number
    ensures states[i].stale > 0 <==> PreemptedBetween(events, a, i)
    ensures states[i].inFlight == Sum(states[i].unprocessed) && states[i + 1].inFlight == Sum(states[i + 1].unprocessed)
    ensures states[i + 1].stale >= 0
    ensures states[i].stale > 0 && !states[i].dropStale ==> states[i].inFlight == states[i].stale
  {
    RunKeepsInv(states, events, i);
    RunKeepsInv(states, events, i + 1);
    StaleIffHeadOld(states[i]);
    a := WhenScheduled(states, events, i, 0);
    MarkMeansPreempted(states, events, a, i);
  }

  /** A preemption in drop mode came before, and stale output was outstanding
      ever since. */
  ghost predicate DroppingSince(states: seq<State>, events: seq<Event>, i: nat)
    requires i < |states|
  {
    exists j :: 0 <= j < i && j < |events| && events[j] == Preempt(true) && forall k :: j < k <= i ==> states[k].stale > 0
  }

  /** In every run, stale output is discarded exactly when it was never all in
      since a preemption in drop mode, and delivered otherwise. */
  lemma {:induction false} DiscardedIff(states: seq<State>, events: seq<Event>, i: nat)
    requires Run(states, events) && i <= |events|
    ensures states[i].stale > 0 && states[i].dropStale <==> DroppingSince(states, events, i)
  {
    RunKeepsInv(states, events, i);
    if i > 0 {
      DiscardedIff(states, events, i - 1);
      var was, now := states[i - 1], states[i];
      assert now == Next(was, events[i - 1]);
      if now.stale > 0 && DroppingSince(states, events, i - 1) {
        var j :| 0 <= j < i - 1 && events[j] == Preempt(true) && forall k :: j < k <= i - 1 ==> states[k].stale > 0;
        assert forall k :: j < k <= i ==> states[k].stale > 0;
      }
    }
  }

  /** Nothing is in flight any more: the request may run again. */
  lemma DrainedMayResume(states: seq<State>, events: seq<Event>, i: nat)
    requires Run(states, events) && i <= |events| && states[i].unprocessed == [] && !states[i].running
    ensures Enabled(states[i], Resume) && Next(states[i], Resume).running
  {
    RunKeepsInv(states, events, i);
  }

  // ---- the request object ----

  class Request {
    var numInFlightTokens: int
    var numStaleOutputTokens: int
    var dropStaleOutput: bool
    var running: bool
    ghost var unprocessed: seq<Step>
    ghost var nextStep: nat
    ghost var mark: nat

    ghost function Value(): State
      reads this
    {
      State(numInFlightTokens, numStaleOutputTokens, dropStaleOutput, running, unprocessed, nextStep, mark)
    }

    constructor ()
      ensures Value() == Init()
    {
      numInFlightTokens, numStaleOutputTokens, dropStaleOutput, running := 0, 0, false, false;
      unprocessed, nextStep, mark := [], 0, 0;
    }

    /** `_update_after_schedule`, for one request. */
    method UpdateAfterSchedule(numScheduled: nat)
      requires Inv(Value()) && Enabled(Value(), Schedule(numScheduled))
      modifies this
      ensures Value() == Next(old(Value()), Schedule(numScheduled)) && Inv(Value())
    {
      NextKeepsInv(Value(), Schedule(numScheduled));
      numInFlightTokens := numInFlightTokens + numScheduled;
      unprocessed, nextStep := unprocessed + [Step(nextStep, numScheduled)], nextStep + 1;
    }

    /** `_preempt_request`. */
    method Preempt(dropStale: bool)
      requires Inv(Value()) && running
      modifies this
      ensures Value() == Next(old(Value()), Event.Preempt(dropStale)) && Inv(Value())
      ensures !running && numStaleOutputTokens == numInFlightTokens == old(numInFlightTokens)
    {
      NextKeepsInv(Value(), Event.Preempt(dropStale));
      dropStaleOutput := dropStale || (dropStaleOutput && numStaleOutputTokens > 0);
      numStaleOutputTokens := numInFlightTokens;
      running, mark := false, nextStep;
    }

    /** The waiting loop's look at a request: it is skipped while stale output is
        still to be delivered. */
    method TryResume() returns (resumed: bool)
      requires Inv(Value()) && !running
      modifies this
      ensures resumed <==> !(old(numStaleOutputTokens) > 0 && !old(dropStaleOutput))
      ensures Value() == (if resumed then Next(old(Value()), Resume) else old(Value())) && Inv(Value())
      ensures running <==> resumed
    {
      if numStaleOutputTokens > 0 && !dropStaleOutput {
        return false;
      }
      NextKeepsInv(Value(), Resume);
      running := true;
      resumed := true;
    }

    /** The request's part of `update_from_output`; outputs arrive in the order
        of their steps. */
    method UpdateFromOutput(numScheduled: nat) returns (isStale: bool, discarded: bool)
      requires Inv(Value()) && unprocessed != [] && unprocessed[0].tokens == numScheduled
      modifies this
      ensures Value() == Next(old(Value()), Output) && Inv(Value())
      ensures isStale <==> old(unprocessed)[0].number < mark
      ensures discarded <==> isStale && dropStaleOutput
      ensures numStaleOutputTokens >= 0
    {
      hide Sum, Outdated, InOrder;
      NextKeepsInv(Value(), Output);
      StaleIffHeadOld(Value());
      numInFlightTokens := numInFlightTokens - numScheduled;
      isStale := numStaleOutputTokens > 0;
      if isStale {
        numStaleOutputTokens := numStaleOutputTokens - numScheduled;
      }
      unprocessed := unprocessed[1..];
      discarded := isStale && dropStaleOutput;
    }
  }

  /** A preemption that means to deliver drops output nevertheless, even that of
      a step scheduled after the preemption in drop mode: output from before
      that one was still outstanding. */
  method NewerOutputDroppedToo() returns (first: bool, second: bool)
    ensures first && second
  {
    var r := new Request();
    var resumed := r.TryResume();
    r.UpdateAfterSchedule(1);
    r.Preempt(true);
    resumed := r.TryResume();
    r.UpdateAfterSchedule(1);
    r.Preempt(false);
    var isStale: bool;
    isStale, first := r.UpdateFromOutput(1);
    isStale, second := r.UpdateFromOutput(1);
  }
}

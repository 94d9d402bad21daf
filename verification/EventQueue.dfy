/**
 The asynchronous observer of pkg/circuit-breaker/observer.go. Producers serialize on a mutex, but
 the worker receives from the channel without it, so an enqueue is up to three steps that
 interleave with the worker. Events are named by the order in which they were dispatched.
 */
module EventQueue {

  datatype Overflow = DropNewest | DropOldest
  datatype Worker = Idle | Observing(event: nat) | Draining | DrainObserving(event: nat) | Exited
  /** Where the producer that holds the mutex stands; `Free` when nobody holds it. */
  datatype Producer = Free | Discarding(event: nat) | Sending(event: nat)

  datatype State = State(
    capacity: nat,
    overflow: Overflow,
    channel: seq<nat>,
    closed: bool,
    producer: Producer,
    worker: Worker,
    dispatched: nat,
    observed: seq<nat>,
    dropped: seq<nat>)

  function Init(capacity: nat, overflow: Overflow): State {
    State(capacity, overflow, [], false, Free, Idle, 0, [], [])
  }

  datatype Step = Dispatch | Discard | Send | Close | Receive | Finish | Stop | Drain

  /** Whether the step can be taken; a blocked channel send is simply not enabled. */
  predicate Enabled(s: State, step: Step) {
    match step
    case Dispatch => s.producer.Free?
    case Discard => s.producer.Discarding?
    case Send => s.producer.Sending? && |s.channel| < s.capacity
    case Close => s.producer.Free? && !s.closed
    case Receive => s.worker.Idle? && s.channel != []
    case Finish => s.worker.Observing? || s.worker.DrainObserving?
    case Stop => s.worker.Idle? && s.closed
    case Drain => s.worker.Draining?
  }

  /** enqueue up to the first branch that has to wait for another step. */
  function Admit(s: State): State {
    var event := s.dispatched;
    var t := s.(dispatched := s.dispatched + 1);
    if s.closed then t.(dropped := t.dropped + [event])
    else if |s.channel| < s.capacity then t.(channel := t.channel + [event])
    else if s.overflow.DropNewest? then t.(dropped := t.dropped + [event])
    else t.(producer := Discarding(event))
  }

  function Next(s: State, step: Step): State {
    if !Enabled(s, step) then s
    else
      match step
      case Dispatch => Admit(s)
      case Discard =>
        var t := s.(producer := Sending(s.producer.event));
        if s.channel == [] then t else t.(channel := s.channel[1..], dropped := s.dropped + [s.channel[0]])
      case Send => s.(channel := s.channel + [s.producer.event], producer := Free)
      case Close => s.(closed := true)
      case Receive => s.(channel := s.channel[1..], worker := Observing(s.channel[0]))
      case Finish =>
        s.(observed := s.observed + [s.worker.event], worker := if s.worker.Observing? then Idle else Draining)
      case Stop => s.(worker := Draining)
      case Drain =>
        if s.channel == [] then s.(worker := Exited)
        else s.(channel := s.channel[1..], worker := DrainObserving(s.channel[0]))
  }

  // ---- Invariant ---------------------------------------------------------------------------

  function InHand(w: Worker): seq<nat> {
    if w.Observing? || w.DrainObserving? then [w.event] else []
  }

  function Pending(p: Producer): seq<nat> {
    if p.Free? then [] else [p.event]
  }

  /** Everything not dropped, oldest first. */
  function Pipeline(s: State): seq<nat> {
    s.observed + InHand(s.worker) + s.channel + Pending(s.producer)
  }

  ghost predicate Ascending(events: seq<nat>, bound: nat) {
    && (forall i, j :: 0 <= i < j < |events| ==> events[i] < events[j])
    && (forall i :: 0 <= i < |events| ==> events[i] < bound)
  }

  /** Each dispatched event sits in the pipeline or among the dropped ones, exactly once in all. */
  ghost predicate Conserved(pipeline: seq<nat>, dropped: seq<nat>, dispatched: nat) {
    forall e: nat :: (multiset(pipeline) + multiset(dropped))[e] == (if e < dispatched then 1 else 0)
  }

  ghost predicate Inv(s: State) {
    && 0 < s.capacity
    && |s.channel| <= s.capacity
    && (s.producer.Sending? ==> |s.channel| < s.capacity)
    && (s.closed ==> s.producer.Free?)
    && (s.worker.Draining? || s.worker.DrainObserving? || s.worker.Exited? ==> s.closed)
    && (s.worker.Exited? ==> s.channel == [])
    && Ascending(Pipeline(s), s.dispatched)
    && Conserved(Pipeline(s), s.dropped, s.dispatched)
  }

  lemma AppendEvent(pipeline: seq<nat>, dropped: seq<nat>, dispatched: nat)
    requires Ascending(pipeline, dispatched) && Conserved(pipeline, dropped, dispatched)
    ensures Ascending(pipeline + [dispatched], dispatched + 1)
    ensures Conserved(pipeline + [dispatched], dropped, dispatched + 1)
    ensures Ascending(pipeline, dispatched + 1) && Conserved(pipeline, dropped + [dispatched], dispatched + 1)
  {
    var all := multiset(pipeline) + multiset(dropped);
    assert multiset(pipeline + [dispatched]) + multiset(dropped) == all + multiset{dispatched};
    assert multiset(pipeline) + multiset(dropped + [dispatched]) == all + multiset{dispatched};
    assert forall e: nat :: (all + multiset{dispatched})[e] == all[e] + multiset{dispatched}[e];
  }

  /** The oldest queued event is discarded from the middle of the pipeline. */
  lemma DropEvent(before: seq<nat>, event: nat, after: seq<nat>, dropped: seq<nat>, dispatched: nat)
    requires Ascending(before + [event] + after, dispatched) && Conserved(before + [event] + after, dropped, dispatched)
    ensures Ascending(before + after, dispatched) && Conserved(before + after, dropped + [event], dispatched)
  {
    var whole, rest := before + [event] + after, before + after;
    assert forall i :: 0 <= i < |rest| ==> rest[i] == whole[if i < |before| then i else i + 1];
    assert multiset(rest) + multiset(dropped + [event]) == multiset(whole) + multiset(dropped);
  }

  lemma AdmitIsCounted(s: State)
    requires s.producer.Free?
    ensures var t := Admit(s);
            if t.dropped == s.dropped then Pipeline(t) == Pipeline(s) + [s.dispatched]
            else Pipeline(t) == Pipeline(s) && t.dropped == s.dropped + [s.dispatched]
  {
    assert Pipeline(s) == s.observed + InHand(s.worker) + s.channel;
  }

  lemma DispatchKeepsInv(s: State)
    requires Inv(s) && s.producer.Free?
    ensures Inv(Admit(s))
  {
    var t := Admit(s);
    assert Ascending(Pipeline(t), t.dispatched) && Conserved(Pipeline(t), t.dropped, t.dispatched) by {
      AppendEvent(Pipeline(s), s.dropped, s.dispatched);
      AdmitIsCounted(s);
    }
  }

  lemma DiscardKeepsInv(s: State)
    requires Inv(s) && s.producer.Discarding?
    ensures Inv(Next(s, Discard))
  {
    if s.channel != [] {
      var before := s.observed + InHand(s.worker);
      var after := s.channel[1..] + Pending(s.producer);
      assert Pipeline(s) == before + [s.channel[0]] + after;
      DropEvent(before, s.channel[0], after, s.dropped, s.dispatched);
      assert Pipeline(Next(s, Discard)) == before + after;
    }
  }

  lemma NextKeepsInv(s: State, step: Step)
    requires Inv(s)
    ensures Inv(Next(s, step))
  {
    if Enabled(s, step) {
      match step
      case Dispatch => DispatchKeepsInv(s);
      case Discard => DiscardKeepsInv(s);
      case _ => assert Pipeline(Next(s, step)) == Pipeline(s);
    }
  }

  // ---- Every run ---------------------------------------------------------------------------

  ghost function Run(s: State, steps: seq<Step>): (t: State)
    requires Inv(s)
    ensures Inv(t)
    decreases |steps|
  {
    if steps == [] then s
    else
      NextKeepsInv(s, steps[0]);
      Run(Next(s, steps[0]), steps[1..])
  }

  ghost function Reach(capacity: nat, overflow: Overflow, steps: seq<Step>): (s: State)
    requires 0 < capacity
    ensures Inv(s)
  {
    assert Pipeline(Init(capacity, overflow)) == [];
    Run(Init(capacity, overflow), steps)
  }

  ghost function Places(s: State, e: nat): int {
    multiset(s.observed)[e] + multiset(InHand(s.worker))[e] + multiset(s.channel)[e]
    + multiset(Pending(s.producer))[e] + multiset(s.dropped)[e]
  }

  lemma PlacesArePipeline(s: State, e: nat)
    ensures Places(s, e) == (multiset(Pipeline(s)) + multiset(s.dropped))[e]
  {
  }

  /** Every dispatched event is observed, being observed, queued, being sent or dropped: exactly one of these. */
  lemma EventsAreConserved(capacity: nat, overflow: Overflow, steps: seq<Step>, e: nat)
    requires 0 < capacity
    ensures var s := Reach(capacity, overflow, steps);
            Places(s, e) == (if e < s.dispatched then 1 else 0)
  {
    PlacesArePipeline(Reach(capacity, overflow, steps), e);
  }

  /** Observers see events in dispatch order. */
  lemma DeliveryIsInOrder(capacity: nat, overflow: Overflow, steps: seq<Step>)
    requires 0 < capacity
    ensures var s := Reach(capacity, overflow, steps);
            forall i, j :: 0 <= i < j < |s.observed| ==> s.observed[i] < s.observed[j]
  {
    var s := Reach(capacity, overflow, steps);
    assert forall i :: 0 <= i < |s.observed| ==> s.observed[i] == Pipeline(s)[i];
  }

  /** The blocking send after a discard always finds room, so a producer always has a step to take. */
  lemma SendNeverBlocks(capacity: nat, overflow: Overflow, steps: seq<Step>)
    requires 0 < capacity
    ensures var s := Reach(capacity, overflow, steps);
            && |s.channel| <= s.capacity
            && (s.producer.Discarding? ==> Enabled(s, Discard))
            && (s.producer.Sending? ==> Enabled(s, Send))
  {
    var s := Reach(capacity, overflow, steps);
  }

  lemma {:induction false} SizeOfRange(pipeline: seq<nat>, dropped: seq<nat>, dispatched: nat)
    requires Conserved(pipeline, dropped, dispatched)
    ensures |pipeline| + |dropped| == dispatched
    decreases dispatched
  {
    var all := multiset(pipeline) + multiset(dropped);
    CountRange(all, dispatched);
    assert |all| == |multiset(pipeline)| + |multiset(dropped)|;
  }

  lemma {:induction false} CountRange(all: multiset<nat>, n: nat)
    requires forall e: nat :: all[e] == (if e < n then 1 else 0)
    ensures |all| == n
  {
    if n == 0 {
      assert all == multiset{};
    } else {
      var rest := all[n - 1 := 0];
      CountRange(rest, n - 1);
      assert all == rest + multiset{n - 1};
    }
  }

  /** After shutdown the channel is empty for good: every event ever dispatched was observed or counted as dropped. */
  lemma ShutdownLosesNothing(capacity: nat, overflow: Overflow, steps: seq<Step>)
    requires 0 < capacity
    ensures var s := Reach(capacity, overflow, steps);
            s.worker.Exited? ==>
              && s.channel == []
              && s.producer.Free?
              && |s.observed| + |s.dropped| == s.dispatched
  {
    var s := Reach(capacity, overflow, steps);
    if s.worker.Exited? {
      assert Pipeline(s) == s.observed;
      SizeOfRange(Pipeline(s), s.dropped, s.dispatched);
    }
  }

  // ---- Which events are dropped ------------------------------------------------------------

  /**
   The only ways to lose an event: a new one that finds the observer closed, or finds the channel full and is the one
   to go; or the oldest queued one, when a newer one waits for its place.
   */
  lemma DropsAreExact(s: State, step: Step)
    requires Inv(s)
    ensures var t := Next(s, step);
            || t.dropped == s.dropped
            || (&& step.Dispatch? && t.dropped == s.dropped + [s.dispatched]
                && (s.closed || (s.overflow.DropNewest? && |s.channel| == s.capacity)))
            || (&& step.Discard? && s.overflow == t.overflow && s.channel != []
                && t.dropped == s.dropped + [s.channel[0]] && t.channel == s.channel[1..]
                && s.producer.Discarding? && s.channel[0] < s.producer.event)
  {
    if step.Discard? && s.producer.Discarding? && s.channel != [] {
      var k := |s.observed + InHand(s.worker)|;
      assert Pipeline(s)[k] == s.channel[0] && Pipeline(s)[|Pipeline(s)| - 1] == s.producer.event;
    }
  }

  /** An event that finds the observer open and room in the channel is queued behind the others. */
  lemma RoomIsUsed(s: State)
    requires s.producer.Free? && !s.closed && |s.channel| < s.capacity
    ensures var t := Next(s, Dispatch);
            t.channel == s.channel + [s.dispatched] && t.dropped == s.dropped && t.producer.Free?
  {
  }

  predicate EndsWith(events: seq<nat>, e: int) {
    events != [] && events[|events| - 1] == e
  }

  /** The newest event, dispatched while the observer was open, has not been dropped. */
  ghost predicate NewestIsKept(s: State) {
    s.overflow.DropOldest? && !s.closed && s.dispatched > 0 ==> EndsWith(Pipeline(s), s.dispatched - 1)
  }

  lemma AdmitKeepsNewest(s: State)
    requires s.producer.Free?
    ensures NewestIsKept(Admit(s))
  {
    var before := s.observed + InHand(s.worker) + s.channel;
    assert s.overflow.DropOldest? && !s.closed ==> Pipeline(Admit(s)) == before + [s.dispatched];
  }

  lemma DiscardKeepsNewest(s: State)
    requires s.producer.Discarding? && NewestIsKept(s)
    ensures NewestIsKept(Next(s, Discard))
  {
    var t, before := Next(s, Discard), s.observed + InHand(s.worker);
    assert Pipeline(s) == before + s.channel + [s.producer.event];
    assert Pipeline(t) == before + t.channel + [s.producer.event];
  }

  lemma StepKeepsNewest(s: State, step: Step)
    requires NewestIsKept(s)
    ensures NewestIsKept(Next(s, step)) && Next(s, step).overflow == s.overflow
  {
    if Enabled(s, step) {
      if step.Dispatch? {
        AdmitKeepsNewest(s);
      } else if step.Discard? {
        DiscardKeepsNewest(s);
      } else {
        assert Pipeline(Next(s, step)) == Pipeline(s);
      }
    }
  }

  lemma {:induction false} RunKeepsNewest(s: State, steps: seq<Step>)
    requires Inv(s) && NewestIsKept(s)
    ensures NewestIsKept(Run(s, steps)) && Run(s, steps).overflow == s.overflow
    decreases |steps|
  {
    if steps != [] {
      StepKeepsNewest(s, steps[0]);
      NextKeepsInv(s, steps[0]);
      RunKeepsNewest(Next(s, steps[0]), steps[1..]);
    }
  }

  lemma KeptIsNotDropped(pipeline: seq<nat>, dropped: seq<nat>, dispatched: nat, e: nat)
    requires Conserved(pipeline, dropped, dispatched) && e in pipeline
    ensures e !in dropped
  {
    assert e in multiset(pipeline) && (multiset(pipeline) + multiset(dropped))[e] <= 1;
    assert e in dropped ==> e in multiset(dropped);
  }

  lemma InitIsSound(capacity: nat, overflow: Overflow)
    requires 0 < capacity
    ensures Inv(Init(capacity, overflow)) && NewestIsKept(Init(capacity, overflow))
  {
    assert Pipeline(Init(capacity, overflow)) == [];
  }

  /** Under DropOldest, as long as the observer is open, the newest event of a run is never the one to go. */
  lemma NewestSurvives(capacity: nat, steps: seq<Step>)
    requires 0 < capacity
    ensures var s := Reach(capacity, DropOldest, steps);
            !s.closed && s.dispatched > 0 ==> s.dispatched - 1 in Pipeline(s) && s.dispatched - 1 !in s.dropped
  {
    var s := Reach(capacity, DropOldest, steps);
    InitIsSound(capacity, DropOldest);
    RunKeepsNewest(Init(capacity, DropOldest), steps);
    if !s.closed && s.dispatched > 0 {
      KeptIsNotDropped(Pipeline(s), s.dropped, s.dispatched, s.dispatched - 1);
    }
  }

  lemma StepKeepsQueued(s: State, step: Step, e: nat)
    requires s.overflow.DropNewest? && !s.producer.Discarding? && e in Pipeline(s)
    ensures var t := Next(s, step); t.overflow == s.overflow && !t.producer.Discarding? && e in Pipeline(t)
  {
    var t := Next(s, step);
    if Enabled(s, step) {
      if step.Dispatch? {
        AdmitIsCounted(s);
      } else {
        assert Pipeline(t) == Pipeline(s);
      }
    }
  }

  /** Under DropNewest an event that was queued is never lost: it stays until it is observed. */
  lemma {:induction false} QueuedIsObserved(s: State, steps: seq<Step>, e: nat)
    requires Inv(s) && s.overflow.DropNewest? && !s.producer.Discarding? && e in Pipeline(s)
    ensures e in Pipeline(Run(s, steps)) && e !in Run(s, steps).dropped
    decreases |steps|
  {
    if steps == [] {
      KeptIsNotDropped(Pipeline(s), s.dropped, s.dispatched, e);
    } else {
      StepKeepsQueued(s, steps[0], e);
      NextKeepsInv(s, steps[0]);
      QueuedIsObserved(Next(s, steps[0]), steps[1..], e);
    }
  }

  // ---- The object --------------------------------------------------------------------------

  /** The observer fields of the breaker; `drops` is the exported counter. */
  class Observer {
    const capacity: nat
    const overflow: Overflow
    var channel: seq<nat>
    var closed: bool
    var producer: Producer
    var worker: Worker
    var drops: nat
    ghost var dispatched: nat
    ghost var observed: seq<nat>
    ghost var dropped: seq<nat>

    ghost function Model(): State
      reads this
    {
      State(capacity, overflow, channel, closed, producer, worker, dispatched, observed, dropped)
    }

    ghost predicate Valid()
      reads this
    {
      drops == |dropped|
    }

    constructor (capacity: nat, overflow: Overflow)
      requires 0 < capacity
      ensures Valid() && Model() == Init(capacity, overflow)
    {
      this.capacity, this.overflow := capacity, overflow;
      channel, closed, producer, worker, drops := [], false, Free, Idle, 0;
      dispatched, observed, dropped := 0, [], [];
    }

    /** The first critical part of enqueue; `event` is the event's dispatch number. */
    method Enqueue(event: nat)
      requires Valid() && producer.Free? && event == dispatched
      modifies this
      ensures Valid() && Model() == Admit(old(Model()))
      ensures old(!closed && |channel| < capacity) ==> channel == old(channel) + [event] && drops == old(drops)
      ensures old(closed || (|channel| >= capacity && overflow.DropNewest?)) ==>
                channel == old(channel) && drops == old(drops) + 1 && event in dropped
      ensures old(!closed && |channel| >= capacity && overflow.DropOldest?) ==>
                channel == old(channel) && drops == old(drops) && producer == Discarding(event)
    {
      dispatched := dispatched + 1;
      if closed {
        drops, dropped := drops + 1, dropped + [event];
        return;
      }
      if |channel| < capacity {
        channel := channel + [event];
        return;
      }
      if overflow == DropNewest {
        drops, dropped := drops + 1, dropped + [event];
        return;
      }
      producer := Discarding(event);
    }

    /** The non-blocking receive that makes room. */
    method DiscardOldest()
      requires Valid() && producer.Discarding?
      modifies this
      ensures Valid() && Model() == Next(old(Model()), Discard)
    {
      producer := Sending(producer.event);
      if channel != [] {
        drops, dropped := drops + 1, dropped + [channel[0]];
        channel := channel[1..];
      }
    }

    /** The final send: in a reachable state it needs no precondition about room in the channel. */
    method FinishSend()
      requires Valid() && Inv(Model()) && producer.Sending?
      modifies this
      ensures Valid() && Model() == Next(old(Model()), Send) && |channel| <= capacity
    {
      channel := channel + [producer.event];
      producer := Free;
    }

    method Close()
      requires Valid() && producer.Free?
      modifies this
      ensures Valid() && Model() == Next(old(Model()), Step.Close)
    {
      closed := true;
    }

    /** One turn of the drain loop of runObserver. */
    method DrainTurn() returns (event: nat, exited: bool)
      requires Valid() && worker.Draining?
      modifies this
      ensures Valid() && Model() == Next(old(Model()), Drain)
      ensures exited <==> old(channel) == []
      ensures !exited ==> event == old(channel)[0] && channel == old(channel)[1..] && worker == DrainObserving(event)
    {
      if channel == [] {
        worker := Exited;
        return 0, true;
      }
      event, exited := channel[0], false;
      channel := channel[1..];
      worker := DrainObserving(event);
    }
  }
}

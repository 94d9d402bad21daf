/** In every interleaving, one live flight per key and no explicit write undone by the flight it raced. */
module CacheFlightsSafety {
  import opened Collections
  import opened Sums
  import opened CacheFlights

  // ---- Replacing one flight ----------------------------------------------------------------

  /** Updates a loader or a waiter may make: the identity stays, and a writer's lock is respected. */
  ghost predicate Compatible(maxWaiters: int, f: Flight, g: Flight) {
    && g.key == f.key
    && IsLive(g) == IsLive(f)
    && FlightOk(maxWaiters, g)
    && g.superseded == f.superseded
    && (f.lock.HeldByWriter? || g.lock.HeldByWriter? ==> g.lock == f.lock)
  }

  lemma RegistryUpdate(registered: map<Key, nat>, flights: seq<Flight>, f: nat, g: Flight)
    requires Registry(registered, flights) && f < |flights|
    requires g.key == flights[f].key && IsLive(g) == IsLive(flights[f])
    ensures Registry(registered, flights[f := g])
  {
  }

  lemma WritersUpdate(writers: seq<Writer>, flights: seq<Flight>, f: nat, g: Flight)
    requires WritersOk(writers, flights) && f < |flights|
    requires g.key == flights[f].key && (flights[f].superseded ==> g.superseded)
    requires flights[f].lock.HeldByWriter? ==> g.lock == flights[f].lock
    ensures WritersOk(writers, flights[f := g])
  {
    forall w | 0 <= w < |writers|
      ensures WriterOk(w, writers[w], flights[f := g])
    {
      assert WriterOk(w, writers[w], flights);
    }
  }

  lemma FlightUpdate(s: State, f: nat, g: Flight)
    requires Inv(s) && f < |s.flights| && Compatible(s.maxWaiters, s.flights[f], g)
    ensures var flights := s.flights[f := g];
            && Sum(flights, SlotHeld) == s.slots - SlotHeld(s.flights[f]) + SlotHeld(g)
            && Sum(flights, InGroup) == s.group - InGroup(s.flights[f]) + InGroup(g)
            && Registry(s.registered, flights)
            && FlightsOk(s.maxWaiters, flights)
            && WritersOk(s.writers, flights)
            && LocksOk(flights, s.writers)
  {
    assert LockOk(f, s.flights[f].lock, s.writers);
    SumUpdate(s.flights, f, g, SlotHeld);
    SumUpdate(s.flights, f, g, InGroup);
    RegistryUpdate(s.registered, s.flights, f, g);
    WritersUpdate(s.writers, s.flights, f, g);
  }

  // ---- Flight steps ------------------------------------------------------------------------

  lemma StartKeepsInv(s: State, key: Key, waiters: int)
    requires Inv(s) && !s.closed && key !in s.registered && 0 <= waiters <= s.maxWaiters
    ensures Inv(Start(s, key, waiters))
  {
    var g := Flight(key, Checking, false, Unlocked, waiters);
    var t := Start(s, key, waiters);
    SumAppend(s.flights, g, SlotHeld);
    SumAppend(s.flights, g, InGroup);
    StartRegistry(s.registered, s.flights, g);
    StartWriters(s.writers, s.flights, g);
  }

  lemma StartRegistry(registered: map<Key, nat>, flights: seq<Flight>, g: Flight)
    requires Registry(registered, flights) && g.key !in registered && IsLive(g)
    ensures Registry(registered[g.key := |flights|], flights + [g])
  {
  }

  lemma StartWriters(writers: seq<Writer>, flights: seq<Flight>, g: Flight)
    requires WritersOk(writers, flights)
    ensures WritersOk(writers, flights + [g])
  {
    forall w | 0 <= w < |writers|
      ensures WriterOk(w, writers[w], flights + [g])
    {
      assert WriterOk(w, writers[w], flights);
    }
  }

  lemma RegistryRemove(registered: map<Key, nat>, flights: seq<Flight>, f: nat, g: Flight)
    requires Registry(registered, flights) && f < |flights| && IsLive(flights[f]) && !IsLive(g)
    ensures Registry(registered - {flights[f].key}, flights[f := g])
  {
  }

  lemma LocksStay(writers: seq<Writer>, flights: seq<Flight>, f: nat, g: Flight)
    requires LocksOk(flights, writers) && f < |flights| && g.lock == flights[f].lock
    ensures LocksOk(flights[f := g], writers)
  {
    assert LockOk(f, flights[f].lock, writers);
  }

  lemma UnregisterKeepsInv(s: State, f: nat)
    requires Inv(s) && IsFlight(s, f, Finishing)
    ensures Inv(Next(s, Unregister(f)))
  {
    var g := s.flights[f].(phase := Closing);
    SumUpdate(s.flights, f, g, SlotHeld);
    SumUpdate(s.flights, f, g, InGroup);
    RegistryRemove(s.registered, s.flights, f, g);
    WritersUpdate(s.writers, s.flights, f, g);
    LocksStay(s.writers, s.flights, f, g);
  }

  /** A loader that may store has seen no writer of its flight finish, and none can be in between. */
  lemma StoringSawNoWrite(s: State, f: nat, w: nat)
    requires Inv(s) && IsFlight(s, f, Storing) && w < |s.writers| && s.writers[w].flight == Some(f)
    ensures !s.writers[w].wrote
  {
    assert WriterOk(w, s.writers[w], s.flights);
    assert FlightOk(s.maxWaiters, s.flights[f]);
  }

  lemma StoreKeepsInv(s: State, f: nat)
    requires Inv(s) && IsFlight(s, f, Storing)
    ensures Inv(Next(s, Store(f)))
  {
    var g := s.flights[f].(phase := Stored);
    assert FlightOk(s.maxWaiters, s.flights[f]);
    FlightUpdate(s, f, g);
    var backend := s.backend[s.flights[f].key := ByFlight(f)];
    forall w | 0 <= w < |s.writers|
      ensures NotOverwritten(s.writers[w], backend)
    {
      assert NotOverwritten(s.writers[w], s.backend);
      if s.writers[w].flight == Some(f) {
        StoringSawNoWrite(s, f, w);
      }
    }
  }

  predicate IsLockStep(step: Step) {
    step.LoaderLock? || step.Decide? || step.StoreFailed? || step.LoaderUnlock?
  }

  predicate IsFlightStep(step: Step) {
    step.Detach? || step.TakeSlot? || step.GiveUp? || step.LoadFailed? || step.ReleaseSlot?
  }

  /** Replaces one flight and accounts for its load slot. */
  function Replace(s: State, f: nat, g: Flight, slots: int): State
    requires f < |s.flights|
  {
    s.(flights := s.flights[f := g], slots := slots)
  }

  lemma ReplaceKeepsInv(s: State, f: nat, g: Flight, slots: int)
    requires Inv(s) && f < |s.flights| && Compatible(s.maxWaiters, s.flights[f], g)
    requires InGroup(g) == InGroup(s.flights[f])
    requires slots == s.slots - SlotHeld(s.flights[f]) + SlotHeld(g) <= s.maxConcurrent
    ensures Inv(Replace(s, f, g, slots))
  {
    FlightUpdate(s, f, g);
  }

  lemma LockStepIsReplace(s: State, step: Step, g: Flight)
    requires Enabled(s, step) && IsLockStep(step) && g == Next(s, step).flights[step.flight]
    requires FlightOk(s.maxWaiters, s.flights[step.flight])
    ensures Next(s, step) == Replace(s, step.flight, g, s.slots)
    ensures Compatible(s.maxWaiters, s.flights[step.flight], g)
    ensures InGroup(g) == InGroup(s.flights[step.flight]) && SlotHeld(g) == SlotHeld(s.flights[step.flight])
  {
  }

  lemma LockStepKeepsInv(s: State, step: Step)
    requires Inv(s) && Enabled(s, step) && IsLockStep(step)
    ensures Inv(Next(s, step))
  {
    var g := Next(s, step).flights[step.flight];
    assert FlightOk(s.maxWaiters, s.flights[step.flight]);
    LockStepIsReplace(s, step, g);
    ReplaceKeepsInv(s, step.flight, g, s.slots);
  }

  lemma FlightStepIsReplace(s: State, step: Step, g: Flight)
    requires Enabled(s, step) && IsFlightStep(step) && g == Next(s, step).flights[step.flight]
    requires FlightOk(s.maxWaiters, s.flights[step.flight]) && s.slots <= s.maxConcurrent
    ensures var slots := Next(s, step).slots;
            && Next(s, step) == Replace(s, step.flight, g, slots)
            && slots == s.slots - SlotHeld(s.flights[step.flight]) + SlotHeld(g) <= s.maxConcurrent
    ensures Compatible(s.maxWaiters, s.flights[step.flight], g) && InGroup(g) == InGroup(s.flights[step.flight])
  {
  }

  lemma FlightStepKeepsInv(s: State, step: Step)
    requires Inv(s) && Enabled(s, step) && IsFlightStep(step)
    ensures Inv(Next(s, step))
  {
    var g := Next(s, step).flights[step.flight];
    assert FlightOk(s.maxWaiters, s.flights[step.flight]);
    FlightStepIsReplace(s, step, g);
    ReplaceKeepsInv(s, step.flight, g, Next(s, step).slots);
  }

  lemma {:induction false} GroupPositive(flights: seq<Flight>, f: nat)
    requires f < |flights| && InGroup(flights[f]) == 1
    ensures Sum(flights, InGroup) >= 1
  {
    SumNonNegative(flights, InGroup);
    assert flights[f] in flights;
  }

  lemma AttachKeepsInv(s: State, f: nat)
    requires Inv(s) && f < |s.flights| && s.flights[f].waiters < s.maxWaiters
    ensures Inv(s.(flights := s.flights[f := s.flights[f].(waiters := s.flights[f].waiters + 1)]))
  {
    assert FlightOk(s.maxWaiters, s.flights[f]);
    FlightUpdate(s, f, s.flights[f].(waiters := s.flights[f].waiters + 1));
  }

  lemma JoinKeepsInv(s: State, key: Key)
    requires Inv(s)
    ensures Inv(Next(s, Join(key))) && Inv(Next(s, StartBackground(key)))
  {
    if !s.closed {
      if key in s.registered {
        var f := s.registered[key];
        if f < |s.flights| && s.flights[f].waiters < s.maxWaiters {
          AttachKeepsInv(s, f);
        }
      } else {
        StartKeepsInv(s, key, 0);
        StartKeepsInv(s, key, 1);
      }
    }
  }

  lemma LeaveKeepsInv(s: State, f: nat)
    requires Inv(s) && IsFlight(s, f, Closing)
    ensures Inv(Next(s, LeaveGroup(f)))
  {
    var g := s.flights[f].(phase := Gone);
    assert FlightOk(s.maxWaiters, s.flights[f]);
    FlightUpdate(s, f, g);
    GroupPositive(s.flights, f);
  }

  lemma CloseKeepsInv(s: State, step: Step)
    requires Inv(s) && (step.CloseCache? || step.CloseReturns?)
    ensures Inv(Next(s, step))
  {
  }

  // ---- Writer steps ------------------------------------------------------------------------

  lemma LookupKeepsInv(s: State, key: Key)
    requires Inv(s)
    ensures Inv(Next(s, Lookup(key)))
  {
    var t := Next(s, Lookup(key));
    forall w | 0 <= w < |t.writers|
      ensures WriterOk(w, t.writers[w], t.flights) && NotOverwritten(t.writers[w], t.backend)
    {
      if w < |s.writers| {
        assert WriterOk(w, s.writers[w], s.flights) && NotOverwritten(s.writers[w], s.backend);
      }
    }
  }

  /** Writer `w` and the flight it looked up move together; every other writer is unaffected. */
  lemma WriterUpdate(writers: seq<Writer>, flights: seq<Flight>, w: nat, x: Writer, g: Flight)
    requires WritersOk(writers, flights) && w < |writers| && x.flight == writers[w].flight && x.flight.Some?
    requires x.flight.value < |flights| && g.key == flights[x.flight.value].key
    requires flights[x.flight.value].superseded ==> g.superseded
    requires flights[x.flight.value].lock == HeldByWriter(w) || flights[x.flight.value].lock.Unlocked?
    requires WriterOk(w, x, flights[x.flight.value := g])
    ensures WritersOk(writers[w := x], flights[x.flight.value := g])
  {
    var writers', flights' := writers[w := x], flights[x.flight.value := g];
    forall v | 0 <= v < |writers'|
      ensures WriterOk(v, writers'[v], flights')
    {
      assert WriterOk(v, writers[v], flights);
    }
  }

  lemma LocksUpdate(writers: seq<Writer>, flights: seq<Flight>, w: nat, x: Writer, g: Flight)
    requires LocksOk(flights, writers) && w < |writers| && x.flight == writers[w].flight && x.flight.Some?
    requires x.flight.value < |flights| && (g.lock.HeldByWriter? ==> g.lock == HeldByWriter(w) && HoldsLock(x))
    ensures LocksOk(flights[x.flight.value := g], writers[w := x])
  {
    var flights' := flights[x.flight.value := g];
    forall f | 0 <= f < |flights'|
      ensures LockOk(f, flights'[f].lock, writers[w := x])
    {
      assert LockOk(f, flights[f].lock, writers);
    }
  }

  lemma LonelyWriterUpdate(writers: seq<Writer>, flights: seq<Flight>, w: nat, x: Writer)
    requires WritersOk(writers, flights) && w < |writers| && WriterOk(w, x, flights)
    ensures WritersOk(writers[w := x], flights)
  {
    var writers' := writers[w := x];
    forall v | 0 <= v < |writers'|
      ensures WriterOk(v, writers'[v], flights)
    {
      assert WriterOk(v, writers[v], flights);
    }
  }

  lemma KeptUpdate(writers: seq<Writer>, backend: map<Key, Source>, w: nat, x: Writer)
    requires AllKept(writers, backend) && w < |writers|
    requires x.key == writers[w].key && x.flight == writers[w].flight && x.wrote == writers[w].wrote
    ensures AllKept(writers[w := x], backend)
  {
    var writers' := writers[w := x];
    forall v | 0 <= v < |writers'|
      ensures NotOverwritten(writers'[v], backend)
    {
      assert NotOverwritten(writers[v], backend);
    }
  }

  lemma WriteKeepsInv(s: State, w: nat, delete: bool)
    requires Inv(s) && IsWriter(s, w, Ready)
    ensures Inv(Next(s, Write(w, delete)))
  {
    var t := Next(s, Write(w, delete));
    assert WriterOk(w, s.writers[w], s.flights);
    LonelyWriterUpdate(s.writers, s.flights, w, t.writers[w]);
    forall v | 0 <= v < |t.writers|
      ensures NotOverwritten(t.writers[v], t.backend)
    {
      assert NotOverwritten(s.writers[v], s.backend);
    }
  }

  predicate IsWriterStep(step: Step) {
    step.WriterLock? || step.WriteFailed? || step.Mark? || step.WriterUnlock?
  }

  lemma WriterFlight(s: State, w: nat, x: Writer, g: Flight)
    requires Inv(s) && w < |s.writers| && s.writers[w].flight.Some? && s.writers[w].flight.value < |s.flights|
    requires x == s.writers[w].(phase := x.phase) && WriterOk(w, x, s.flights[s.writers[w].flight.value := g])
    requires var f := s.flights[s.writers[w].flight.value];
             && g == f.(lock := g.lock, superseded := g.superseded)
             && (f.superseded ==> g.superseded)
             && (f.lock == HeldByWriter(w) || f.lock.Unlocked?)
             && !g.lock.HeldByLoader? && (g.lock.HeldByWriter? ==> g.lock == HeldByWriter(w) && HoldsLock(x))
    ensures Inv(s.(writers := s.writers[w := x], flights := s.flights[s.writers[w].flight.value := g]))
  {
    var f := s.writers[w].flight.value;
    assert FlightOk(s.maxWaiters, s.flights[f]);
    KeptUpdate(s.writers, s.backend, w, x);
    SumUpdate(s.flights, f, g, SlotHeld);
    SumUpdate(s.flights, f, g, InGroup);
    RegistryUpdate(s.registered, s.flights, f, g);
    WriterUpdate(s.writers, s.flights, w, x, g);
    LocksUpdate(s.writers, s.flights, w, x, g);
  }

  lemma JoinedWriterKeepsInv(s: State, step: Step)
    requires Inv(s) && Enabled(s, step) && IsWriterStep(step) && s.writers[step.writer].flight.Some?
    ensures Inv(Next(s, step))
  {
    var w := step.writer;
    var x := Next(s, step).writers[w];
    assert WriterOk(w, s.writers[w], s.flights);
    var f := s.writers[w].flight.value;
    WriterFlight(s, w, x, Next(s, step).flights[f]);
    assert Next(s, step).flights == s.flights[f := Next(s, step).flights[f]];
  }

  lemma LonelyWriterKeepsInv(s: State, step: Step)
    requires Inv(s) && Enabled(s, step) && IsWriterStep(step) && s.writers[step.writer].flight.None?
    ensures Inv(Next(s, step))
  {
    var w := step.writer;
    var x := Next(s, step).writers[w];
    assert WriterOk(w, s.writers[w], s.flights);
    KeptUpdate(s.writers, s.backend, w, x);
    LonelyWriterUpdate(s.writers, s.flights, w, x);
  }

  lemma WriterStepKeepsInv(s: State, step: Step)
    requires Inv(s) && Enabled(s, step) && IsWriterStep(step)
    ensures Inv(Next(s, step))
  {
    if s.writers[step.writer].flight.Some? {
      JoinedWriterKeepsInv(s, step);
    } else {
      LonelyWriterKeepsInv(s, step);
    }
  }

  lemma OtherStepKeepsInv(s: State, step: Step)
    requires Inv(s) && Enabled(s, step) && (IsFlightStep(step) || IsLockStep(step) || IsWriterStep(step))
    ensures Inv(Next(s, step))
  {
    if IsFlightStep(step) {
      FlightStepKeepsInv(s, step);
    } else if IsLockStep(step) {
      LockStepKeepsInv(s, step);
    } else {
      WriterStepKeepsInv(s, step);
    }
  }

  lemma NextKeepsInv(s: State, step: Step)
    requires Inv(s)
    ensures Inv(Next(s, step))
  {
    if Enabled(s, step) {
      match step
      case Join(key) => JoinKeepsInv(s, key);
      case StartBackground(key) => JoinKeepsInv(s, key);
      case Unregister(f) => UnregisterKeepsInv(s, f);
      case Store(f) => StoreKeepsInv(s, f);
      case Lookup(key) => LookupKeepsInv(s, key);
      case Write(w, delete) => WriteKeepsInv(s, w, delete);
      case LeaveGroup(f) => LeaveKeepsInv(s, f);
      case CloseCache => CloseKeepsInv(s, step);
      case CloseReturns(_) => CloseKeepsInv(s, step);
      case _ => OtherStepKeepsInv(s, step);
    } else {
      assert Next(s, step) == s;
    }
  }

  // ---- Every run ---------------------------------------------------------------------------

  ghost function Run(s: State, steps: seq<Step>): State
    decreases |steps|
  {
    if steps == [] then s else Run(Next(s, steps[0]), steps[1..])
  }

  lemma {:induction false} RunKeepsInv(s: State, steps: seq<Step>)
    requires Inv(s)
    ensures Inv(Run(s, steps))
    decreases |steps|
  {
    if steps != [] {
      NextKeepsInv(s, steps[0]);
      RunKeepsInv(Next(s, steps[0]), steps[1..]);
    }
  }

  /** The state of a new cache after any interleaving. */
  ghost function Reach(maxConcurrent: int, maxWaiters: int, steps: seq<Step>): (s: State)
    requires 1 <= maxConcurrent && 1 <= maxWaiters
    ensures Inv(s)
  {
    RunKeepsInv(Init(maxConcurrent, maxWaiters), steps);
    Run(Init(maxConcurrent, maxWaiters), steps)
  }

  /** At most one load per key is in flight, and never more loads than the limit. */
  lemma OneFlightPerKey(maxConcurrent: int, maxWaiters: int, steps: seq<Step>, f: nat, g: nat)
    requires 1 <= maxConcurrent && 1 <= maxWaiters
    ensures var s := Reach(maxConcurrent, maxWaiters, steps);
            (f < |s.flights| && g < |s.flights| && IsLive(s.flights[f]) && IsLive(s.flights[g]) &&
             s.flights[f].key == s.flights[g].key) ==> f == g
    ensures var s := Reach(maxConcurrent, maxWaiters, steps);
            Sum(s.flights, SlotHeld) <= s.maxConcurrent
  {
    var s := Reach(maxConcurrent, maxWaiters, steps);
  }

  /**
   From the moment a set or delete whose lookup returned flight `f` has succeeded, the backend never
   again holds the record that `f` loaded.
   */
  lemma ExplicitWriteSurvives(maxConcurrent: int, maxWaiters: int, steps: seq<Step>, w: nat, f: nat)
    requires 1 <= maxConcurrent && 1 <= maxWaiters
    ensures var s := Reach(maxConcurrent, maxWaiters, steps);
            w < |s.writers| && s.writers[w].wrote && s.writers[w].flight == Some(f) ==>
              !(s.writers[w].key in s.backend && s.backend[s.writers[w].key] == ByFlight(f))
  {
    var s := Reach(maxConcurrent, maxWaiters, steps);
    assert w < |s.writers| ==> NotOverwritten(s.writers[w], s.backend);
  }
}

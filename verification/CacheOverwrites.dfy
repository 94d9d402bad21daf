/** From every open state, a write that is still to come can be overwritten by a load registered before it. */
module CacheOverwrites {
  import opened Collections
  import opened Sums
  import opened CacheFlights
  import opened CacheFlightsSafety

  lemma {:induction false} RunConcat(s: State, a: seq<Step>, b: seq<Step>)
    ensures Run(s, a + b) == Run(Run(s, a), b)
    decreases |a|
  {
    if a == [] {
      assert a + b == b;
    } else {
      assert (a + b)[1..] == a[1..] + b;
      RunConcat(Next(s, a[0]), a[1..], b);
    }
  }

  lemma RunOne(s: State, step: Step)
    ensures Run(s, [step]) == Next(s, step)
  {
    assert [step][1..] == [];
  }

  // ---- Finishing a load without storing ------------------------------------------------------

  function Rank(phase: FlightPhase): nat {
    match phase
    case Checking => 6
    case Loading => 6
    case Deciding => 6
    case Storing => 5
    case Stored => 4
    case Releasing => 3
    case Finishing => 2
    case Closing => 1
    case Gone => 0
  }

  /** What the flight's goroutine can always do next, without writing a record. */
  function WayOut(f: nat, phase: FlightPhase): Step {
    match phase
    case Checking => GiveUp(f)
    case Loading => LoadFailed(f)
    case Deciding => Decide(f)
    case Storing => StoreFailed(f)
    case Stored => LoaderUnlock(f)
    case Releasing => ReleaseSlot(f)
    case _ => Unregister(f)
  }

  /** Nothing but flight `f`, the slots and the registry is different. */
  ghost predicate SameBut(s: State, t: State, f: nat) {
    && f < |s.flights| == |t.flights|
    && (forall g :: 0 <= g < |s.flights| && g != f ==> t.flights[g] == s.flights[g])
    && t.flights[f].key == s.flights[f].key
    && t.closed == s.closed && t.writers == s.writers && t.backend == s.backend && t.maxConcurrent == s.maxConcurrent
  }

  ghost predicate WentOut(s: State, t: State, f: nat) {
    && SameBut(s, t, f) && Rank(t.flights[f].phase) < Rank(s.flights[f].phase)
    && t.registered == (if IsLive(t.flights[f]) then s.registered else s.registered - {s.flights[f].key})
    && t.slots - SlotHeld(t.flights[f]) == s.slots - SlotHeld(s.flights[f])
  }

  lemma TakeEarlyWayOut(s: State, f: nat)
    requires f < |s.flights|
    requires s.flights[f].phase.Checking? || s.flights[f].phase.Loading? || s.flights[f].phase.Deciding?
    ensures WentOut(s, Next(s, WayOut(f, s.flights[f].phase)), f)
  {
  }

  lemma TakeLateWayOut(s: State, f: nat)
    requires f < |s.flights| && (s.flights[f].phase.Storing? || s.flights[f].phase.Stored?)
    ensures WentOut(s, Next(s, WayOut(f, s.flights[f].phase)), f)
  {
  }

  lemma TakeLastWayOut(s: State, f: nat)
    requires f < |s.flights| && (s.flights[f].phase.Releasing? || s.flights[f].phase.Finishing?)
    ensures WentOut(s, Next(s, WayOut(f, s.flights[f].phase)), f)
  {
  }

  lemma TakeWayOut(s: State, f: nat)
    requires f < |s.flights| && IsLive(s.flights[f])
    ensures WentOut(s, Next(s, WayOut(f, s.flights[f].phase)), f)
  {
    if Rank(s.flights[f].phase) == 6 {
      TakeEarlyWayOut(s, f);
    } else if Rank(s.flights[f].phase) >= 4 {
      TakeLateWayOut(s, f);
    } else {
      TakeLastWayOut(s, f);
    }
  }

  /** Any live load can run to its end without storing anything. */
  lemma {:induction false} FinishLoad(s: State, f: nat) returns (steps: seq<Step>)
    requires Inv(s) && f < |s.flights| && IsLive(s.flights[f])
    ensures var t := Run(s, steps);
            && Inv(t) && SameBut(s, t, f) && !IsLive(t.flights[f])
            && t.registered == s.registered - {s.flights[f].key} && t.slots == s.slots - SlotHeld(s.flights[f])
    decreases Rank(s.flights[f].phase)
  {
    var step := WayOut(f, s.flights[f].phase);
    TakeWayOut(s, f);
    NextKeepsInv(s, step);
    var t := Next(s, step);
    RunOne(s, step);
    if IsLive(t.flights[f]) {
      var rest := FinishLoad(t, f);
      RunConcat(s, [step], rest);
      steps := [step] + rest;
    } else {
      steps := [step];
    }
  }

  // ---- Freeing a lock ------------------------------------------------------------------------

  function WriterRank(phase: WriterPhase): nat {
    match phase
    case LookedUp => 3
    case Ready => 2
    case Wrote => 2
    case Marked => 1
    case Failed => 1
    case Done => 0
  }

  /** What a writer that holds a lock can always do next, without writing a record. */
  function WriterWayOut(w: nat, phase: WriterPhase): Step {
    match phase
    case Ready => WriteFailed(w)
    case Wrote => Mark(w)
    case _ => WriterUnlock(w)
  }

  /** Nothing but writer `v` and the lock and mark of flight `f` is different. */
  ghost predicate SameButLock(s: State, t: State, f: nat, v: nat) {
    && f < |s.flights| == |t.flights| && v < |s.writers| == |t.writers|
    && (forall g :: 0 <= g < |s.flights| && g != f ==> t.flights[g] == s.flights[g])
    && t.flights[f].key == s.flights[f].key && t.flights[f].phase == s.flights[f].phase
    && (forall w :: 0 <= w < |s.writers| && w != v ==> t.writers[w] == s.writers[w])
    && t.writers[v].flight == s.writers[v].flight
    && t.closed == s.closed && t.slots == s.slots && t.registered == s.registered
    && t.backend == s.backend && t.maxConcurrent == s.maxConcurrent
  }

  lemma TakeWriterWayOut(s: State, f: nat, v: nat)
    requires f < |s.flights| && v < |s.writers| && s.writers[v].flight == Some(f) && HoldsLock(s.writers[v])
    ensures var t := Next(s, WriterWayOut(v, s.writers[v].phase));
            && SameButLock(s, t, f, v) && WriterRank(t.writers[v].phase) < WriterRank(s.writers[v].phase)
            && (HoldsLock(t.writers[v]) ==> t.flights[f].lock == s.flights[f].lock)
            && (!HoldsLock(t.writers[v]) ==> t.flights[f].lock.Unlocked?)
  {
  }

  lemma {:induction false} FreeLock(s: State, f: nat, v: nat) returns (steps: seq<Step>)
    requires Inv(s) && f < |s.flights| && v < |s.writers| && s.writers[v].flight == Some(f) && HoldsLock(s.writers[v])
    ensures var t := Run(s, steps);
            Inv(t) && SameButLock(s, t, f, v) && t.flights[f].lock.Unlocked?
    decreases WriterRank(s.writers[v].phase)
  {
    var step := WriterWayOut(v, s.writers[v].phase);
    TakeWriterWayOut(s, f, v);
    NextKeepsInv(s, step);
    var t := Next(s, step);
    RunOne(s, step);
    if HoldsLock(t.writers[v]) {
      var rest := FreeLock(t, f, v);
      RunConcat(s, [step], rest);
      steps := [step] + rest;
    } else {
      steps := [step];
    }
  }

  // ---- Preparing -----------------------------------------------------------------------------

  /** A writer that looked up and has not written yet. */
  predicate Undecided(s: State, w: nat) {
    w < |s.writers| && (s.writers[w].phase.LookedUp? || s.writers[w].phase.Ready?)
  }

  lemma {:induction false} SlotHolder(flights: seq<Flight>) returns (f: nat)
    requires Sum(flights, SlotHeld) > 0
    ensures f < |flights| && SlotHeld(flights[f]) == 1
  {
    f := |flights| - 1;
    if SlotHeld(flights[f]) == 0 {
      f := SlotHolder(flights[..f]);
    }
  }

  /** No load of the writer's key is left. */
  lemma EndOwnLoad(s: State, w: nat) returns (steps: seq<Step>)
    requires Inv(s) && !s.closed && Undecided(s, w)
    ensures var t := Run(s, steps);
            Inv(t) && !t.closed && w < |t.writers| && t.writers[w] == s.writers[w] && s.writers[w].key !in t.registered
  {
    var key := s.writers[w].key;
    if key in s.registered {
      steps := FinishLoad(s, s.registered[key]);
    } else {
      steps := [];
    }
  }

  /** And the lock that the writer is waiting for is free. */
  lemma EndOtherWriter(s: State, w: nat) returns (steps: seq<Step>)
    requires Inv(s) && !s.closed && Undecided(s, w) && s.writers[w].key !in s.registered
    ensures var t := Run(s, steps);
            && Inv(t) && !t.closed && w < |t.writers| && t.writers[w] == s.writers[w]
            && s.writers[w].key !in t.registered
            && (s.writers[w].phase.LookedUp? ==> CanLock(t, w))
  {
    steps := [];
    if s.writers[w].phase.LookedUp? && s.writers[w].flight.Some? {
      var f := s.writers[w].flight.value;
      assert WriterOk(w, s.writers[w], s.flights);
      assert FlightOk(s.maxWaiters, s.flights[f]) && LockOk(f, s.flights[f].lock, s.writers);
      if s.flights[f].lock.HeldByWriter? {
        steps := FreeLock(s, f, s.flights[f].lock.writer);
      }
    }
  }

  lemma StillAble(s: State, t: State, w: nat, f: nat)
    requires Undecided(s, w) && SameBut(s, t, f) && s.flights[f].key != s.writers[w].key
    requires WriterOk(w, s.writers[w], s.flights) && CanLock(s, w)
    ensures Undecided(t, w) && CanLock(t, w)
  {
    if s.writers[w].flight.Some? {
      assert t.flights[s.writers[w].flight.value] == s.flights[s.writers[w].flight.value];
    }
  }

  /** And a load slot is free. */
  lemma EndOtherLoad(s: State, w: nat) returns (steps: seq<Step>)
    requires Inv(s) && !s.closed && Undecided(s, w) && s.writers[w].key !in s.registered
    requires s.writers[w].phase.LookedUp? ==> CanLock(s, w)
    ensures Inv(Run(s, steps)) && Prepared(Run(s, steps), w) && Run(s, steps).writers[w] == s.writers[w]
  {
    steps := [];
    if s.slots == s.maxConcurrent {
      var f := SlotHolder(s.flights);
      assert s.flights[f].key != s.writers[w].key;
      assert WriterOk(w, s.writers[w], s.flights);
      steps := FinishLoad(s, f);
      if s.writers[w].phase.LookedUp? {
        StillAble(s, Run(s, steps), w, f);
      }
    }
  }

  ghost predicate Prepared(s: State, w: nat) {
    && !s.closed && Undecided(s, w) && s.writers[w].key !in s.registered && s.slots < s.maxConcurrent
    && (s.writers[w].phase.LookedUp? ==> CanLock(s, w))
  }

  // ---- Overwriting ---------------------------------------------------------------------------

  /** The load `f` of the writer's key has decided to store, and the writer has still to write. */
  ghost predicate Racing(s: State, w: nat, f: nat) {
    && Undecided(s, w) && !s.writers[w].wrote && IsFlight(s, f, Storing) && s.flights[f].key == s.writers[w].key
    && (s.writers[w].phase.LookedUp? ==> CanLock(s, w) && s.writers[w].flight != Some(f))
  }

  lemma LoadToStoring(s: State, w: nat) returns (steps: seq<Step>)
    requires Inv(s) && Prepared(s, w)
    ensures Racing(Run(s, steps), w, |s.flights|) && Run(s, steps).writers[w] == s.writers[w]
  {
    var key, f := s.writers[w].key, |s.flights|;
    assert WriterOk(w, s.writers[w], s.flights);
    var s1 := Next(s, Join(key));
    var s2 := Next(s1, TakeSlot(f));
    var s3 := Next(s2, LoaderLock(f));
    var s4 := Next(s3, Decide(f));
    assert s1 == Start(s, key, 1);
    assert s2.flights[f] == Flight(key, Loading, false, Unlocked, 1);
    assert s3.flights[f] == Flight(key, Deciding, false, HeldByLoader, 1);
    assert s4.flights[f] == Flight(key, Storing, false, HeldByLoader, 1);
    RunOne(s, Join(key));
    RunOne(s1, TakeSlot(f));
    RunOne(s2, LoaderLock(f));
    RunOne(s3, Decide(f));
    RunConcat(s, [Join(key)], [TakeSlot(f)]);
    RunConcat(s, [Join(key)] + [TakeSlot(f)], [LoaderLock(f)]);
    RunConcat(s, [Join(key)] + [TakeSlot(f)] + [LoaderLock(f)], [Decide(f)]);
    steps := [Join(key)] + [TakeSlot(f)] + [LoaderLock(f)] + [Decide(f)];
  }

  lemma LockToReady(s: State, w: nat, f: nat) returns (steps: seq<Step>)
    requires Racing(s, w, f)
    ensures var t := Run(s, steps);
            && IsWriter(t, w, Ready) && IsFlight(t, f, Storing)
            && t.writers[w].key == s.writers[w].key && t.flights[f].key == s.flights[f].key
  {
    if s.writers[w].phase.LookedUp? {
      RunOne(s, WriterLock(w));
      steps := [WriterLock(w)];
    } else {
      steps := [];
    }
  }

  lemma WriteThenStore(s: State, w: nat, f: nat) returns (steps: seq<Step>)
    requires Racing(s, w, f)
    ensures var t, key := Run(s, steps), s.writers[w].key;
            w < |t.writers| && t.writers[w].wrote && key in t.backend && t.backend[key] == ByFlight(f)
  {
    var lock := LockToReady(s, w, f);
    var s1 := Run(s, lock);
    var s2 := Next(s1, Write(w, false));
    RunOne(s1, Write(w, false));
    RunOne(s2, Store(f));
    RunConcat(s, lock, [Write(w, false)]);
    RunConcat(s, lock + [Write(w, false)], [Store(f)]);
    steps := lock + [Write(w, false)] + [Store(f)];
  }

  /** Load `f` is registered while writer `w` has not written, and in the end stands in the place of what it wrote. */
  ghost predicate Overwrites(s: State, w: nat, before: seq<Step>, after: seq<Step>, f: nat)
    requires w < |s.writers|
  {
    var m, r, key := Run(s, before), Run(s, before + after), s.writers[w].key;
    && f < |m.flights| && w < |m.writers| && !m.writers[w].wrote
    && w < |r.writers| && r.writers[w].wrote && key in r.backend && r.backend[key] == ByFlight(f)
  }

  /** From every open state, for every writer that has looked up but not written yet, some run overwrites it. */
  lemma WriteCanBeOverwritten(s: State, w: nat)
    requires Inv(s) && !s.closed && Undecided(s, w)
    ensures exists before, after, f :: Overwrites(s, w, before, after, f)
  {
    var before, after, f := Overwriting(s, w);
  }

  lemma Overwriting(s: State, w: nat) returns (before: seq<Step>, after: seq<Step>, f: nat)
    requires Inv(s) && !s.closed && Undecided(s, w)
    ensures Overwrites(s, w, before, after, f)
  {
    var a := EndOwnLoad(s, w);
    var s1 := Run(s, a);
    var b := EndOtherWriter(s1, w);
    var s2 := Run(s1, b);
    var c := EndOtherLoad(s2, w);
    var s3 := Run(s2, c);
    var d := LoadToStoring(s3, w);
    f := |s3.flights|;
    after := WriteThenStore(Run(s3, d), w, f);
    before := a + b + c + d;
    RunConcat(s, a, b);
    RunConcat(s, a + b, c);
    RunConcat(s, a + b + c, d);
    RunConcat(s, before, after);
  }
}

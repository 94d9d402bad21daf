/** What every run of the cache promises about closing, and exactly which loads can undo a write. */
module CacheRuns {
  import opened Collections
  import opened Sums
  import opened CacheFlights
  import opened CacheFlightsSafety

  // ---- Closing -----------------------------------------------------------------------------

  ghost predicate NoneRuns(flights: seq<Flight>) {
    forall f :: 0 <= f < |flights| ==> flights[f].phase.Gone?
  }

  predicate HasReturned(c: Closer) {
    !c.Waiting?
  }

  /** The wait group counts exactly the loads that have not finished. */
  lemma {:induction false} GroupCountsLoads(flights: seq<Flight>)
    ensures Sum(flights, InGroup) == 0 <==> NoneRuns(flights)
  {
    if flights != [] {
      var n := |flights| - 1;
      GroupCountsLoads(flights[..n]);
      SumNonNegative(flights[..n], InGroup);
      assert NoneRuns(flights) <==> NoneRuns(flights[..n]) && flights[n].phase.Gone? by {
        assert forall f :: 0 <= f < n ==> flights[..n][f] == flights[f];
      }
    }
  }

  lemma StaysClosed(s: State, step: Step)
    requires s.closed
    ensures Next(s, step).closed && |Next(s, step).flights| == |s.flights|
  {
  }

  lemma StaysReturned(s: State, step: Step)
    requires s.closers != [] && HasReturned(s.closers[0])
    ensures Next(s, step).closers != [] && HasReturned(Next(s, step).closers[0])
  {
  }

  /** After any call of Close has returned, whoever made it, no load ever starts again. */
  lemma {:induction false} NothingStartsAfterClose(s: State, c: nat, steps: seq<Step>)
    requires Inv(s) && c < |s.closers| && HasReturned(s.closers[c])
    ensures Run(s, steps).closed && |Run(s, steps).flights| == |s.flights|
    decreases |steps|
  {
    ClosedStaysClosed(s, steps);
  }

  lemma {:induction false} ClosedStaysClosed(s: State, steps: seq<Step>)
    requires s.closed
    ensures Run(s, steps).closed && |Run(s, steps).flights| == |s.flights|
    decreases |steps|
  {
    if steps != [] {
      StaysClosed(s, steps[0]);
      ClosedStaysClosed(Next(s, steps[0]), steps[1..]);
    }
  }

  /**
   At the moment a call of Close returns no load is running, if and only if it is the call that
   closed the cache or the loads had all finished anyway.
   */
  lemma CloseReturnsClean(s: State, step: Step, c: nat)
    requires Inv(s) && c < |Next(s, step).closers| && HasReturned(Next(s, step).closers[c])
    requires c < |s.closers| ==> !HasReturned(s.closers[c])
    ensures NoneRuns(Next(s, step).flights) <==> c == 0 || s.group == 0
  {
    OnlyClosingReturns(s, step, c);
    GroupCountsLoads(s.flights);
  }

  lemma OnlyClosingReturns(s: State, step: Step, c: nat)
    requires ClosersOk(s.closed, s.group, s.closers) && c < |Next(s, step).closers|
    requires HasReturned(Next(s, step).closers[c])
    requires c < |s.closers| ==> !HasReturned(s.closers[c])
    ensures Next(s, step).flights == s.flights && (c == 0 ==> s.group == 0)
  {
  }

  /** Once the call that closed the cache has returned, no load runs in any continuation. */
  lemma {:induction false} CloseIsFinal(s: State, steps: seq<Step>)
    requires Inv(s) && s.closers != [] && HasReturned(s.closers[0])
    ensures NoneRuns(Run(s, steps).flights) && |Run(s, steps).flights| == |s.flights|
    decreases |steps|
  {
    if steps == [] {
      GroupCountsLoads(s.flights);
    } else {
      NextKeepsInv(s, steps[0]);
      StaysClosed(s, steps[0]);
      StaysReturned(s, steps[0]);
      CloseIsFinal(Next(s, steps[0]), steps[1..]);
    }
  }

  /** Of two calls of Close on a cache with a load in progress, the second returns while it still runs. */
  lemma SecondCloseReturnsEarly(s: State)
    requires Inv(s) && !s.closed && !NoneRuns(s.flights)
    ensures var t := Run(s, [CloseCache, CloseCache]);
            |t.closers| == 2 && HasReturned(t.closers[1]) && !NoneRuns(t.flights)
  {
    assert [CloseCache, CloseCache][1..] == [CloseCache];
    assert [CloseCache][1..] == [];
  }

  // ---- Which loads can undo a write ----------------------------------------------------------

  /** Seen from writer `w`, whose lookup found `n` flights: it owns the only old flight of its key still live. */
  ghost predicate Guarded(s: State, w: nat, n: nat) {
    && w < |s.writers| && n <= |s.flights|
    && (forall f :: 0 <= f < n && IsLive(s.flights[f]) && s.flights[f].key == s.writers[w].key ==>
          s.writers[w].flight == Some(f))
    && NoOldRecord(s.writers[w], s.backend, n)
  }

  lemma LookupGuards(s: State, key: Key)
    requires Inv(s)
    ensures var t := Next(s, Lookup(key));
            Guarded(t, |s.writers|, |s.flights|) && t.writers[|s.writers|].key == key
  {
  }

  predicate OfFlight(step: Step) {
    || step.Detach? || step.TakeSlot? || step.GiveUp? || step.LoadFailed? || step.LoaderLock? || step.Decide?
    || step.Store?
    || step.StoreFailed? || step.LoaderUnlock? || step.ReleaseSlot? || step.Unregister? || step.LeaveGroup?
  }

  predicate OfWriter(step: Step) {
    step.WriterLock? || step.Write? || step.WriteFailed? || step.Mark? || step.WriterUnlock?
  }

  lemma FlightStepKeepsWriters(s: State, step: Step)
    requires OfFlight(step)
    ensures Next(s, step).writers == s.writers && |Next(s, step).flights| == |s.flights|
  {
  }

  lemma StepKeepsIdentity(s: State, step: Step, w: nat)
    requires w < |s.writers|
    ensures var t := Next(s, step);
            && |s.writers| <= |t.writers| && |s.flights| <= |t.flights|
            && t.writers[w].key == s.writers[w].key && t.writers[w].flight == s.writers[w].flight
            && (s.writers[w].wrote ==> t.writers[w].wrote)
            && (t.writers[w].wrote && !s.writers[w].wrote ==> step.Write? && step.writer == w && Enabled(s, step))
  {
    if OfFlight(step) {
      FlightStepKeepsWriters(s, step);
    }
  }

  ghost predicate KeepsFlight(s: State, t: State, f: nat)
    requires f < |s.flights|
  {
    f < |t.flights| && t.flights[f].key == s.flights[f].key && (IsLive(t.flights[f]) ==> IsLive(s.flights[f]))
  }

  lemma LockStepKeepsFlight(s: State, step: Step, f: nat)
    requires f < |s.flights| && (IsLockStep(step) || step.Store?)
    ensures KeepsFlight(s, Next(s, step), f)
  {
  }

  lemma FlightStepKeepsFlight(s: State, step: Step, f: nat)
    requires f < |s.flights| && OfFlight(step)
    ensures KeepsFlight(s, Next(s, step), f)
  {
    if IsLockStep(step) || step.Store? {
      LockStepKeepsFlight(s, step, f);
    }
  }

  lemma StepKeepsFlight(s: State, step: Step, f: nat)
    requires f < |s.flights|
    ensures var t := Next(s, step);
            f < |t.flights| && t.flights[f].key == s.flights[f].key && (IsLive(t.flights[f]) ==> IsLive(s.flights[f]))
  {
    if OfFlight(step) {
      FlightStepKeepsFlight(s, step, f);
    }
  }

  lemma StepKeepsRecords(s: State, step: Step)
    requires !step.Store? && !step.Write?
    ensures Next(s, step).backend == s.backend
  {
    if OfFlight(step) {
      FlightStepKeepsRecords(s, step);
    }
  }

  lemma FlightStepKeepsRecords(s: State, step: Step)
    requires OfFlight(step) && !step.Store?
    ensures Next(s, step).backend == s.backend
  {
  }

  ghost predicate NoOldRecord(w: Writer, backend: map<Key, Source>, n: nat) {
    w.wrote && w.key in backend && backend[w.key].ByFlight? ==> backend[w.key].flight >= n
  }

  lemma StepKeepsNewRecord(s: State, step: Step, w: nat, n: nat)
    requires Inv(s) && Guarded(s, w, n)
    ensures w < |Next(s, step).writers| && NoOldRecord(Next(s, step).writers[w], Next(s, step).backend, n)
  {
    StepKeepsIdentity(s, step, w);
    if step.Store? && Enabled(s, step) && s.writers[w].flight == Some(step.flight) {
      StoringSawNoWrite(s, step.flight, w);
    } else if !step.Store? && !step.Write? {
      StepKeepsRecords(s, step);
    }
  }

  lemma NextKeepsGuard(s: State, step: Step, w: nat, n: nat)
    requires Inv(s) && Guarded(s, w, n)
    ensures Guarded(Next(s, step), w, n)
  {
    var t := Next(s, step);
    StepKeepsIdentity(s, step, w);
    StepKeepsNewRecord(s, step, w, n);
    forall f | 0 <= f < n && IsLive(t.flights[f]) && t.flights[f].key == t.writers[w].key
      ensures t.writers[w].flight == Some(f)
    {
      StepKeepsFlight(s, step, f);
    }
  }

  lemma {:induction false} RunKeepsGuard(s: State, steps: seq<Step>, w: nat, n: nat)
    requires Inv(s) && Guarded(s, w, n)
    ensures Guarded(Run(s, steps), w, n) && Run(s, steps).writers[w].key == s.writers[w].key
    decreases |steps|
  {
    if steps != [] {
      NextKeepsInv(s, steps[0]);
      NextKeepsGuard(s, steps[0], w, n);
      StepKeepsIdentity(s, steps[0], w);
      RunKeepsGuard(Next(s, steps[0]), steps[1..], w, n);
    }
  }

  /**
   Whatever happens after a writer's lookup, once it has written, its key never holds the record of a
   load that was registered before the lookup: only a load registered later can overwrite it.
   */
  lemma OnlyLaterLoadsOverwrite(s: State, key: Key, steps: seq<Step>, f: nat)
    requires Inv(s)
    ensures var w, r := |s.writers|, Run(Next(s, Lookup(key)), steps);
            w < |r.writers| &&
            (r.writers[w].wrote && key in r.backend && r.backend[key] == ByFlight(f) ==> f >= |s.flights|)
  {
    NextKeepsInv(s, Lookup(key));
    LookupGuards(s, key);
    RunKeepsGuard(Next(s, Lookup(key)), steps, |s.writers|, |s.flights|);
  }

  /** A write whose lookup came after the cache was closed is never overwritten by a load. */
  lemma ClosedCacheKeepsWrites(s: State, key: Key, steps: seq<Step>)
    requires Inv(s) && s.closed
    ensures var w, r := |s.writers|, Run(Next(s, Lookup(key)), steps);
            w < |r.writers| && (r.writers[w].wrote && key in r.backend ==> r.backend[key].ByWriter?)
  {
    NextKeepsInv(s, Lookup(key));
    RunKeepsInv(Next(s, Lookup(key)), steps);
    LookupGuards(s, key);
    RunKeepsGuard(Next(s, Lookup(key)), steps, |s.writers|, |s.flights|);
    ClosedStaysClosed(Next(s, Lookup(key)), steps);
  }
}

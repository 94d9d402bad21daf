/** The load-flight fields of pkg/cache/cache.go and its operations, with other goroutines running in between. */
module CacheService {
  import opened Collections
  import opened CacheFlights
  import opened CacheFlightsSafety
  import opened CacheRuns
  import opened CacheContents

  // ---- What the others cannot do ---------------------------------------------------------------

  /** Steps of goroutines other than writer `w`. */
  ghost predicate NotBy(w: nat, steps: seq<Step>) {
    forall i :: 0 <= i < |steps| ==> OfWriter(steps[i]) ==> steps[i].writer != w
  }

  lemma OthersKeepWriter(s: State, step: Step, w: nat)
    requires w < |s.writers| && (OfWriter(step) ==> step.writer != w)
    ensures w < |Next(s, step).writers| && Next(s, step).writers[w] == s.writers[w]
  {
    if OfFlight(step) {
      FlightStepKeepsWriters(s, step);
    }
  }

  lemma {:induction false} RunKeepsWriter(s: State, steps: seq<Step>, w: nat)
    requires w < |s.writers| && NotBy(w, steps)
    ensures w < |Run(s, steps).writers| && Run(s, steps).writers[w] == s.writers[w]
    decreases |steps|
  {
    if steps != [] {
      OthersKeepWriter(s, steps[0], w);
      RunKeepsWriter(Next(s, steps[0]), steps[1..], w);
    }
  }

  /** Steps of goroutines other than the loader of flight `f`; its waiters may leave. */
  ghost predicate NotOf(f: nat, steps: seq<Step>) {
    forall i :: 0 <= i < |steps| ==> OfFlight(steps[i]) && !steps[i].Detach? ==> steps[i].flight != f
  }

  lemma OthersKeepLoad(s: State, step: Step, f: nat)
    requires f < |s.flights| && (OfFlight(step) && !step.Detach? ==> step.flight != f)
    ensures var t := Next(s, step);
            && f < |t.flights| && t.flights[f].phase == s.flights[f].phase && t.flights[f].key == s.flights[f].key
            && (s.flights[f].superseded ==> t.flights[f].superseded)
  {
    if OfFlight(step) {
      OtherFlightsKeepLoad(s, step, f);
    }
  }

  lemma OtherFlightsKeepLoad(s: State, step: Step, f: nat)
    requires f < |s.flights| && OfFlight(step) && (!step.Detach? ==> step.flight != f)
    ensures var t := Next(s, step);
            && f < |t.flights| && t.flights[f].phase == s.flights[f].phase && t.flights[f].key == s.flights[f].key
            && t.flights[f].superseded == s.flights[f].superseded
  {
  }

  lemma {:induction false} RunKeepsLoad(s: State, steps: seq<Step>, f: nat)
    requires f < |s.flights| && NotOf(f, steps)
    ensures var t := Run(s, steps);
            && f < |t.flights| && t.flights[f].phase == s.flights[f].phase && t.flights[f].key == s.flights[f].key
            && (s.flights[f].superseded ==> t.flights[f].superseded)
    decreases |steps|
  {
    if steps != [] {
      OthersKeepLoad(s, steps[0], f);
      RunKeepsLoad(Next(s, steps[0]), steps[1..], f);
    }
  }

  /** The load has put no record into the backend. */
  ghost predicate NoRecordOf(f: nat, backend: map<Key, Source>) {
    forall key :: key in backend ==> backend[key] != ByFlight(f)
  }

  lemma OthersKeepNoRecord(s: State, step: Step, f: nat)
    requires NoRecordOf(f, s.backend) && (step.Store? ==> step.flight != f)
    ensures NoRecordOf(f, Next(s, step).backend)
  {
    if !step.Store? && !step.Write? {
      StepKeepsRecords(s, step);
    }
  }

  lemma {:induction false} RunKeepsNoRecord(s: State, steps: seq<Step>, f: nat)
    requires NoRecordOf(f, s.backend) && NotOf(f, steps)
    ensures NoRecordOf(f, Run(s, steps).backend)
    decreases |steps|
  {
    if steps != [] {
      OthersKeepNoRecord(s, steps[0], f);
      RunKeepsNoRecord(Next(s, steps[0]), steps[1..], f);
    }
  }

  /** Another writer, or a load, holds the lock that the writer needs. */
  ghost predicate IsBusy(s: State, w: nat) {
    w < |s.writers| && !CanLock(s, w)
  }

  /** The state in which a set or delete tries to lock the load that it found. */
  ghost function AtWriterLock(s: State, key: Key, before: seq<Step>, a: seq<Step>): State {
    Run(Next(Run(s, before), Lookup(key)), a)
  }

  /** The state in which a load that began to load in `s` reads, under its lock, whether it is superseded. */
  ghost function AtLock(s: State, f: nat, gaps: seq<seq<Step>>): State
    requires |gaps| >= 2
  {
    Run(Next(Run(s, gaps[0]), LoaderLock(f)), gaps[1])
  }

  ghost function AtDecision(s: State, f: nat, gaps: seq<seq<Step>>): State
    requires |gaps| >= 3
  {
    AtLock(Next(Run(s, gaps[0]), TakeSlot(f)), f, gaps[1..])
  }

  ghost predicate IsLocked(s: State, f: nat) {
    f < |s.flights| && !s.flights[f].lock.Unlocked?
  }

  /** All slots are taken when the load wants one, or a writer holds its lock when it wants to store. */
  ghost predicate MustWait(s: State, f: nat, loaded: bool, gaps: seq<seq<Step>>)
    requires |gaps| >= 2
  {
    var t := Run(s, gaps[0]);
    t.slots >= s.maxConcurrent || (loaded && IsLocked(Run(Next(t, TakeSlot(f)), gaps[1]), f))
  }

  /** Load `f` holds its lock, is not superseded, and no writer that found it has written. */
  ghost predicate StillWanted(s: State, f: nat) {
    && f < |s.flights| && s.flights[f].lock.HeldByLoader? && !s.flights[f].superseded
    && forall w :: 0 <= w < |s.writers| && s.writers[w].flight == Some(f) ==> !s.writers[w].wrote
  }

  lemma UndecidedIsUnwritten(s: State, f: nat)
    requires Inv(s) && IsFlight(s, f, Deciding)
    ensures StillWanted(s, f) <==> !s.flights[f].superseded
  {
    assert FlightOk(s.maxWaiters, s.flights[f]);
    forall w | 0 <= w < |s.writers| && s.writers[w].flight == Some(f) && !s.flights[f].superseded
      ensures !s.writers[w].wrote
    {
      assert WriterOk(w, s.writers[w], s.flights);
    }
  }

  lemma NextKeepsBounds(s: State, step: Step)
    ensures Next(s, step).maxConcurrent == s.maxConcurrent && Next(s, step).maxWaiters == s.maxWaiters
  {
  }

  function JoinOutcome(s: State, key: Key): JoinResult {
    if s.closed then CacheClosed
    else if key !in s.registered then Started(|s.flights|)
    else if s.registered[key] >= |s.flights| || s.flights[s.registered[key]].waiters >= s.maxWaiters then WaiterLimit
    else Joined(s.registered[key])
  }

  /** The live load of the key has as many waiters as are allowed. */
  ghost predicate IsCrowded(s: State, key: Key) {
    exists f :: 0 <= f < |s.flights| && IsLive(s.flights[f]) && s.flights[f].key == key &&
                s.flights[f].waiters == s.maxWaiters
  }

  /**
   What joining means: a closed cache refuses; a key without a live load gets one, with the caller as its only waiter;
   otherwise the caller waits for the one live load, unless that has as many waiters as are allowed.
   */
  ghost predicate JoinMeans(s: State, key: Key, t: State, r: JoinResult) {
    && (r.CacheClosed? <==> s.closed)
    && (r.Started? <==> !s.closed && StartedBy(s, Join(key)) == [key])
    && (r.CacheClosed? || r.WaiterLimit? ==> t == s)
    && (r.WaiterLimit? <==> !s.closed && IsCrowded(s, key))
    && (r.Started? ==>
          && r.flight == |s.flights| && |t.flights| == |s.flights| + 1 && t.flights[..|s.flights|] == s.flights
          && t.flights[r.flight].key == key && t.flights[r.flight].phase.Checking? && t.flights[r.flight].waiters == 1)
    && (r.Joined? ==>
          && r.flight < |s.flights| && IsLive(s.flights[r.flight]) && s.flights[r.flight].key == key
          && t.flights == s.flights[r.flight := s.flights[r.flight].(waiters := s.flights[r.flight].waiters + 1)])
    && t.backend == s.backend && t.writers == s.writers
  }

  lemma JoinHasMeaning(s: State, key: Key)
    requires Inv(s)
    ensures JoinMeans(s, key, Next(s, Join(key)), JoinOutcome(s, key))
  {
    if key in s.registered {
      assert FlightOk(s.maxWaiters, s.flights[s.registered[key]]);
      assert IsLive(s.flights[s.registered[key]]);
    }
  }

  /** A writer that is done and wrote has superseded the load it found. */
  lemma DoneIsSuperseded(s: State, w: nat, f: nat)
    requires Inv(s) && w < |s.writers| && s.writers[w].wrote && s.writers[w].phase.Done?
    requires s.writers[w].flight == Some(f)
    ensures f < |s.flights| && s.flights[f].superseded
  {
    assert WriterOk(w, s.writers[w], s.flights);
  }

  // ---- The cache -------------------------------------------------------------------------------

  datatype JoinResult = Joined(flight: nat) | Started(flight: nat) | WaiterLimit | CacheClosed

  /** How a set or delete ended; `Blocked` is one still waiting for the lock of its flight. */
  datatype Mutation = Refused | Blocked | NotWritten | Written

  /** How far a load came; `Waiting` is one still waiting for a slot or for the lock. */
  datatype Load = Waiting | Ended(stored: bool)

  class Cache {
    const maxConcurrent: int
    const maxWaiters: int
    var closed: bool
    var closers: seq<Closer>
    var slots: int
    var group: int
    var registered: map<Key, nat>
    var flights: seq<Flight>
    var writers: seq<Writer>
    var backend: map<Key, Source>

    function Model(): State
      reads this
    {
      State(maxConcurrent, maxWaiters, closed, closers, slots, group, registered, flights, writers, backend)
    }

    constructor (maxConcurrent: int, maxWaiters: int)
      requires 1 <= maxConcurrent && 1 <= maxWaiters
      ensures Model() == Init(maxConcurrent, maxWaiters) && Inv(Model())
    {
      this.maxConcurrent, this.maxWaiters := maxConcurrent, maxWaiters;
      closed, closers, slots, group := false, [], 0, 0;
      registered, flights, writers, backend := map[], [], [], map[];
    }

    method Install(t: State)
      requires t.maxConcurrent == maxConcurrent && t.maxWaiters == maxWaiters
      modifies this
      ensures Model() == t
    {
      closed, closers, slots, group := t.closed, t.closers, t.slots, t.group;
      registered, flights, writers, backend := t.registered, t.flights, t.writers, t.backend;
    }

    /** Whatever other goroutines do while this one does not hold the lock. */
    method Interfere(steps: seq<Step>)
      requires Inv(Model())
      modifies this
      ensures Model() == Run(old(Model()), steps) && Inv(Model())
    {
      ghost var s := Model();
      for i := 0 to |steps|
        invariant Inv(Model()) && Run(Model(), steps[i..]) == Run(s, steps)
      {
        assert steps[i..][0] == steps[i] && steps[i..][1..] == steps[i + 1..];
        NextKeepsBounds(Model(), steps[i]);
        NextKeepsInv(Model(), steps[i]);
        Install(Next(Model(), steps[i]));
      }
      assert steps[|steps|..] == [];
    }

    // ---- Joining

    /** The registration section of GetOrLoad. */
    method JoinFlight(key: Key) returns (result: JoinResult)
      requires Inv(Model())
      modifies this
      ensures Inv(Model()) && JoinMeans(old(Model()), key, Model(), result)
    {
      NextKeepsInv(Model(), Join(key));
      JoinHasMeaning(Model(), key);
      result := Register(key);
    }

    method Register(key: Key) returns (result: JoinResult)
      requires key in registered ==> registered[key] < |flights|
      modifies this
      ensures Model() == Next(old(Model()), Join(key)) && result == JoinOutcome(old(Model()), key)
    {
      if closed {
        return CacheClosed;
      }
      if key in registered {
        var f := registered[key];
        if flights[f].waiters >= maxWaiters {
          return WaiterLimit;
        }
        flights := flights[f := flights[f].(waiters := flights[f].waiters + 1)];
        return Joined(f);
      }
      result := Started(|flights|);
      registered := registered[key := |flights|];
      flights := flights + [Flight(key, Checking, false, Unlocked, 1)];
      group := group + 1;
    }

    // ---- Writing

    method LookupFlight(key: Key) returns (w: nat)
      modifies this
      ensures Model() == Next(old(Model()), Lookup(key)) && w == old(|writers|)
      ensures backend == old(backend) && w < |writers|
      ensures writers[w].key == key && writers[w].phase.LookedUp? && !writers[w].wrote
    {
      w := |writers|;
      writers := writers + [Writer(key, if key in registered then Some(registered[key]) else None, LookedUp, false)];
    }

    method LockFlight(w: nat)
      requires Enabled(Model(), WriterLock(w))
      modifies this
      ensures Model() == Next(old(Model()), WriterLock(w))
    {
      var flight := writers[w].flight;
      writers := writers[w := writers[w].(phase := Ready)];
      if flight.Some? {
        flights := flights[flight.value := flights[flight.value].(lock := HeldByWriter(w))];
      }
    }

    method WriteRecord(w: nat, delete: bool)
      requires Enabled(Model(), Write(w, delete))
      modifies this
      ensures Model() == Next(old(Model()), Write(w, delete))
      ensures Held(backend, old(writers[w].key)) == if delete then None else Some(ByWriter(w))
    {
      var key := writers[w].key;
      backend := if delete then backend - {key} else backend[key := ByWriter(w)];
      writers := writers[w := writers[w].(phase := Wrote, wrote := true)];
    }

    method MarkSuperseded(w: nat)
      requires Enabled(Model(), Mark(w)) && (writers[w].flight.Some? ==> writers[w].flight.value < |flights|)
      modifies this
      ensures Model() == Next(old(Model()), Mark(w))
    {
      var flight := writers[w].flight;
      writers := writers[w := writers[w].(phase := Marked)];
      if flight.Some? {
        flights := flights[flight.value := flights[flight.value].(superseded := true)];
      }
    }

    method UnlockFlight(w: nat)
      requires Enabled(Model(), WriterUnlock(w)) && (writers[w].flight.Some? ==> writers[w].flight.value < |flights|)
      modifies this
      ensures Model() == Next(old(Model()), WriterUnlock(w))
    {
      var flight := writers[w].flight;
      writers := writers[w := writers[w].(phase := WriterPhase.Done)];
      if flight.Some? {
        flights := flights[flight.value := flights[flight.value].(lock := Unlocked)];
      }
    }

    /** Waits while others run: writer `w` and what guards its write stay as they were. */
    method Pause(w: nat, ghost n: nat, gap: seq<Step>)
      requires Inv(Model()) && Guarded(Model(), w, n) && NotBy(w, gap)
      modifies this
      ensures Model() == Run(old(Model()), gap)
      ensures Inv(Model()) && Guarded(Model(), w, n) && w < |writers| && writers[w] == old(writers[w])
      ensures Silent(gap) ==> backend == old(backend)
    {
      RunKeepsGuard(Model(), gap, w, n);
      RunKeepsWriter(Model(), gap, w);
      if Silent(gap) {
        SilentKeepsBackend(Model(), gap);
      }
      Interfere(gap);
    }

    /** The locking half of lockFlightMutation. */
    method TakeLock(w: nat, ghost n: nat, gap: seq<Step>) returns (ok: bool)
      requires Inv(Model()) && Guarded(Model(), w, n) && NotBy(w, gap) && writers[w].phase.LookedUp?
      modifies this
      ensures Inv(Model()) && Guarded(Model(), w, n) && w < |writers|
      ensures writers[w] == if ok then old(writers[w]).(phase := Ready) else old(writers[w])
      ensures ok <==> !IsBusy(Run(old(Model()), gap), w)
      ensures Silent(gap) ==> backend == old(backend)
    {
      Pause(w, n, gap);
      ok := CanLock(Model(), w);
      if ok {
        NextKeepsInv(Model(), WriterLock(w));
        NextKeepsGuard(Model(), WriterLock(w), w, n);
        LockFlight(w);
      }
    }

    /** The backend call under the lock; a refusal or an error writes nothing. */
    method CallBackend(w: nat, ghost n: nat, delete: bool, accepted: bool, gap: seq<Step>)
      requires Inv(Model()) && Guarded(Model(), w, n) && NotBy(w, gap) && writers[w].phase.Ready?
      modifies this
      ensures Inv(Model()) && Guarded(Model(), w, n) && w < |writers|
      ensures writers[w] == if accepted then old(writers[w]).(phase := Wrote, wrote := true)
                            else old(writers[w]).(phase := Failed)
      ensures accepted ==> Held(backend, writers[w].key) == if delete then None else Some(ByWriter(w))
      ensures !accepted && Silent(gap) ==> backend == old(backend)
    {
      Pause(w, n, gap);
      if accepted {
        NextKeepsInv(Model(), Write(w, delete));
        NextKeepsGuard(Model(), Write(w, delete), w, n);
        WriteRecord(w, delete);
      } else {
        NextKeepsInv(Model(), WriteFailed(w));
        NextKeepsGuard(Model(), WriteFailed(w), w, n);
        NoteFailure(w);
      }
    }

    method NoteFailure(w: nat)
      requires w < |writers| && writers[w].phase.Ready?
      modifies `writers
      ensures Model() == Next(old(Model()), WriteFailed(w))
      ensures w < |writers| && writers[w] == old(writers[w]).(phase := Failed)
    {
      writers := writers[w := writers[w].(phase := Failed)];
    }

    method Supersede(w: nat, ghost n: nat, gap: seq<Step>)
      requires Inv(Model()) && Guarded(Model(), w, n) && NotBy(w, gap) && writers[w].phase.Wrote?
      modifies this
      ensures Inv(Model()) && Guarded(Model(), w, n) && w < |writers| && writers[w] == old(writers[w]).(phase := Marked)
      ensures Silent(gap) ==> backend == old(backend)
    {
      Pause(w, n, gap);
      assert WriterOk(w, writers[w], flights);
      NextKeepsInv(Model(), Mark(w));
      NextKeepsGuard(Model(), Mark(w), w, n);
      MarkSuperseded(w);
    }

    method LetGo(w: nat, ghost n: nat, gap: seq<Step>)
      requires Inv(Model()) && Guarded(Model(), w, n) && NotBy(w, gap)
      requires writers[w].phase.Marked? || writers[w].phase.Failed?
      modifies this
      ensures Inv(Model()) && Guarded(Model(), w, n)
      ensures w < |writers| && writers[w] == old(writers[w]).(phase := WriterPhase.Done)
      ensures Silent(gap) ==> backend == old(backend)
    {
      Pause(w, n, gap);
      assert WriterOk(w, writers[w], flights);
      NextKeepsInv(Model(), WriterUnlock(w));
      NextKeepsGuard(Model(), WriterUnlock(w), w, n);
      UnlockFlight(w);
    }

    /**
     set and Delete from the closed check to their return, with any steps of others before and between their own.
     A write that succeeded has superseded the load it found before letting its lock go, and is never replaced by the
     record of a load that was registered when it looked.
     */
    method Mutate(key: Key, delete: bool, accepted: bool, before: seq<Step>, a: seq<Step>, b: seq<Step>, c: seq<Step>,
                  d: seq<Step>)
      returns (r: Mutation, w: nat)
      requires Inv(Model())
      requires var own := |Run(Model(), before).writers|;
               NotBy(own, a) && NotBy(own, b) && NotBy(own, c) && NotBy(own, d)
      modifies this
      ensures Inv(Model())
      ensures r.Refused? <==> old(closed)
      ensures r.Refused? ==> Model() == old(Model())
      ensures !r.Refused? ==> w < |writers| && writers[w].key == key && (writers[w].wrote <==> r.Written?)
      ensures r.Written? || r.NotWritten? ==> writers[w].phase.Done?
      ensures r.Blocked? <==> !r.Refused? && IsBusy(old(AtWriterLock(Model(), key, before, a)), w)
      ensures !r.Refused? && !r.Blocked? ==> (r.Written? <==> accepted)
      ensures r.Written? && Silent(c) && Silent(d) ==> Held(backend, key) == if delete then None else Some(ByWriter(w))
      ensures !r.Written? && Silent(before) && Silent(a) && Silent(b) && Silent(d) ==> backend == old(backend)
      ensures r.Written? && writers[w].flight.Some? ==>
                writers[w].flight.value < |flights| && flights[writers[w].flight.value].superseded
      ensures r.Written? && key in backend && backend[key].ByFlight? ==>
                backend[key].flight >= |old(Run(Model(), before)).flights|
    {
      w := 0;
      if closed {
        return Refused, w;
      }
      ghost var n := |Run(Model(), before).flights|;
      w := Begin(key, before, n);
      r := Finish(w, n, delete, accepted, a, b, c, d);
      if writers[w].flight.Some? && r.Written? {
        DoneIsSuperseded(Model(), w, writers[w].flight.value);
      }
    }

    /** The registry read of lockFlightMutation, some time after the closed check. */
    method Begin(key: Key, before: seq<Step>, ghost n: nat) returns (w: nat)
      requires Inv(Model()) && n == |Run(Model(), before).flights|
      modifies this
      ensures Inv(Model()) && Guarded(Model(), w, n)
      ensures w == |Run(old(Model()), before).writers| < |writers|
      ensures writers[w].key == key && writers[w].phase.LookedUp? && !writers[w].wrote
      ensures Model() == Next(Run(old(Model()), before), Lookup(key))
      ensures Silent(before) ==> backend == old(backend)
    {
      if Silent(before) {
        SilentKeepsBackend(Model(), before);
      }
      Interfere(before);
      NextKeepsInv(Model(), Lookup(key));
      LookupGuards(Model(), key);
      w := LookupFlight(key);
    }

    method Finish(w: nat, ghost n: nat, delete: bool, accepted: bool, a: seq<Step>, b: seq<Step>, c: seq<Step>,
                  d: seq<Step>)
      returns (r: Mutation)
      requires Inv(Model()) && Guarded(Model(), w, n) && writers[w].phase.LookedUp? && !writers[w].wrote
      requires NotBy(w, a) && NotBy(w, b) && NotBy(w, c) && NotBy(w, d)
      modifies this
      ensures Inv(Model()) && Guarded(Model(), w, n) && !r.Refused?
      ensures w < |writers| && writers[w].key == old(writers[w].key)
      ensures r.Blocked? <==> IsBusy(Run(old(Model()), a), w)
      ensures (writers[w].wrote <==> r.Written?) && (!r.Blocked? ==> (r.Written? <==> accepted))
      ensures r.Written? || r.NotWritten? ==> writers[w].phase.Done?
      ensures r.Written? && Silent(c) && Silent(d) ==>
                Held(backend, writers[w].key) == if delete then None else Some(ByWriter(w))
      ensures !r.Written? && Silent(a) && Silent(b) && Silent(d) ==> backend == old(backend)
    {
      var ok := TakeLock(w, n, a);
      if !ok {
        return Blocked;
      }
      CallBackend(w, n, delete, accepted, b);
      if accepted {
        Supersede(w, n, c);
      }
      LetGo(w, n, d);
      r := if accepted then Written else NotWritten;
    }

    // ---- Loading

    method GiveUpLoad(f: nat)
      requires IsFlight(Model(), f, Checking)
      modifies this
      ensures Model() == Next(old(Model()), GiveUp(f))
      ensures f < |flights| && flights[f].phase == Finishing && backend == old(backend)
      ensures flights[f].superseded == old(flights[f].superseded)
      ensures f < |flights| && flights[f].key == old(flights[f].key)
    {
      flights := flights[f := flights[f].(phase := Finishing)];
    }

    method EnterLoading(f: nat)
      requires Enabled(Model(), TakeSlot(f))
      modifies this
      ensures Model() == Next(old(Model()), TakeSlot(f))
      ensures f < |flights| && flights[f].phase == Loading && backend == old(backend)
      ensures flights[f].superseded == old(flights[f].superseded)
      ensures f < |flights| && flights[f].key == old(flights[f].key)
    {
      flights := flights[f := flights[f].(phase := Loading)];
      slots := slots + 1;
    }

    method FailLoad(f: nat)
      requires IsFlight(Model(), f, Loading)
      modifies this
      ensures Model() == Next(old(Model()), LoadFailed(f))
      ensures f < |flights| && flights[f].phase == Releasing && backend == old(backend)
      ensures flights[f].superseded == old(flights[f].superseded)
      ensures f < |flights| && flights[f].key == old(flights[f].key)
    {
      flights := flights[f := flights[f].(phase := Releasing)];
    }

    method LockMutation(f: nat)
      requires Enabled(Model(), LoaderLock(f))
      modifies this
      ensures Model() == Next(old(Model()), LoaderLock(f))
      ensures f < |flights| && flights[f].phase == Deciding && backend == old(backend)
      ensures flights[f].superseded == old(flights[f].superseded)
      ensures f < |flights| && flights[f].key == old(flights[f].key)
    {
      flights := flights[f := flights[f].(phase := Deciding)];
      flights := flights[f := flights[f].(lock := HeldByLoader)];
    }

    method ReadSuperseded(f: nat) returns (store: bool)
      requires IsFlight(Model(), f, Deciding)
      modifies this
      ensures Model() == Next(old(Model()), Decide(f)) && store == !old(flights[f].superseded)
      ensures f < |flights| && flights[f].phase == (if store then Storing else Releasing) && backend == old(backend)
      ensures f < |flights| && flights[f].key == old(flights[f].key)
    {
      store := !flights[f].superseded;
      if store {
        flights := flights[f := flights[f].(phase := Storing)];
      } else {
        flights := flights[f := flights[f].(phase := Releasing)];
        flights := flights[f := flights[f].(lock := Unlocked)];
      }
    }

    method PutRecord(f: nat, written: bool)
      requires IsFlight(Model(), f, Storing)
      modifies this
      ensures Model() == Next(old(Model()), if written then Store(f) else StoreFailed(f))
      ensures f < |flights| && flights[f].phase == Stored && (!written ==> backend == old(backend))
      ensures f < |flights| && flights[f].key == old(flights[f].key)
      ensures written ==> Held(backend, flights[f].key) == Some(ByFlight(f))
    {
      if written {
        backend := backend[flights[f].key := ByFlight(f)];
      }
      flights := flights[f := flights[f].(phase := Stored)];
    }

    method UnlockMutation(f: nat)
      requires IsFlight(Model(), f, Stored)
      modifies this
      ensures Model() == Next(old(Model()), LoaderUnlock(f))
      ensures f < |flights| && flights[f].key == old(flights[f].key) && backend == old(backend)
    {
      flights := flights[f := flights[f].(phase := Releasing)];
      flights := flights[f := flights[f].(lock := Unlocked)];
    }

    method Unlist(f: nat)
      requires IsFlight(Model(), f, Finishing)
      modifies this
      ensures Model() == Next(old(Model()), Unregister(f))
      ensures f < |flights| && flights[f].key == old(flights[f].key) && backend == old(backend)
    {
      registered := registered - {flights[f].key};
      flights := flights[f := flights[f].(phase := Closing)];
    }

    method Depart(f: nat)
      requires IsFlight(Model(), f, Closing)
      modifies this
      ensures Model() == Next(old(Model()), LeaveGroup(f))
      ensures f < |flights| && flights[f].key == old(flights[f].key) && backend == old(backend)
    {
      flights := flights[f := flights[f].(phase := Gone)];
      group := group - 1;
    }

    /** Waits while others run: the load stays where it is, and a mark on it stays. */
    method Rest(f: nat, gap: seq<Step>)
      requires Inv(Model()) && f < |flights| && NotOf(f, gap)
      modifies this
      ensures Model() == Run(old(Model()), gap)
      ensures Inv(Model()) && f < |flights| && flights[f].phase == old(flights[f].phase)
      ensures flights[f].key == old(flights[f].key) && (Silent(gap) ==> backend == old(backend))
      ensures old(flights[f].superseded) ==> flights[f].superseded
      ensures old(NoRecordOf(f, backend)) ==> NoRecordOf(f, backend)
    {
      RunKeepsLoad(Model(), gap, f);
      if Silent(gap) {
        SilentKeepsBackend(Model(), gap);
      }
      if NoRecordOf(f, backend) {
        RunKeepsNoRecord(Model(), gap, f);
      }
      Interfere(gap);
    }

    /** Re-reads the cache and takes a slot; a hit or an error needs none. */
    method TakeLoadSlot(f: nat, hit: bool, gap: seq<Step>) returns (waiting: bool)
      requires Inv(Model()) && f < |flights| && NotOf(f, gap) && flights[f].phase.Checking?
      modifies this
      ensures Inv(Model()) && f < |flights|
      ensures flights[f].phase == if waiting then Checking else if hit then Finishing else Loading
      ensures !waiting && !hit ==> Model() == Next(Run(old(Model()), gap), TakeSlot(f))
      ensures old(flights[f].superseded) ==> flights[f].superseded
      ensures old(NoRecordOf(f, backend)) ==> NoRecordOf(f, backend)
      ensures flights[f].key == old(flights[f].key)
      ensures waiting <==> !hit && Run(old(Model()), gap).slots >= maxConcurrent
    {
      Rest(f, gap);
      if hit {
        NextKeepsInv(Model(), GiveUp(f));
        GiveUpLoad(f);
        return false;
      }
      if slots >= maxConcurrent {
        return true;
      }
      NextKeepsInv(Model(), TakeSlot(f));
      EnterLoading(f);
      return false;
    }

    /** Runs the loader and takes the mutation lock. */
    method LockToStore(f: nat, loaded: bool, gap: seq<Step>) returns (waiting: bool)
      requires Inv(Model()) && f < |flights| && NotOf(f, gap) && flights[f].phase.Loading?
      modifies this
      ensures Inv(Model()) && f < |flights|
      ensures flights[f].phase == if waiting then Loading else if loaded then Deciding else Releasing
      ensures !waiting && loaded ==> Model() == Next(Run(old(Model()), gap), LoaderLock(f))
      ensures old(flights[f].superseded) ==> flights[f].superseded
      ensures old(NoRecordOf(f, backend)) ==> NoRecordOf(f, backend)
      ensures flights[f].key == old(flights[f].key)
      ensures waiting <==> loaded && IsLocked(Run(old(Model()), gap), f)
    {
      Rest(f, gap);
      if !loaded {
        NextKeepsInv(Model(), LoadFailed(f));
        FailLoad(f);
        return false;
      }
      if !flights[f].lock.Unlocked? {
        return true;
      }
      NextKeepsInv(Model(), LoaderLock(f));
      LockMutation(f);
      return false;
    }

    /** Under the lock: a superseded load lets go without writing. */
    method DecideToStore(f: nat, gap: seq<Step>) returns (store: bool)
      requires Inv(Model()) && f < |flights| && NotOf(f, gap) && flights[f].phase.Deciding?
      modifies this
      ensures Inv(Model()) && f < |flights| && flights[f].phase == (if store then Storing else Releasing)
      ensures old(flights[f].superseded) ==> !store
      ensures store <==> StillWanted(Run(old(Model()), gap), f)
      ensures old(NoRecordOf(f, backend)) ==> NoRecordOf(f, backend)
      ensures flights[f].key == old(flights[f].key)
    {
      Rest(f, gap);
      NextKeepsInv(Model(), Decide(f));
      UndecidedIsUnwritten(Model(), f);
      store := ReadSuperseded(f);
    }

    method StoreLoaded(f: nat, written: bool, gap: seq<Step>)
      requires Inv(Model()) && f < |flights| && NotOf(f, gap) && flights[f].phase.Storing?
      modifies this
      ensures Inv(Model()) && f < |flights| && flights[f].phase.Stored?
      ensures !written && old(NoRecordOf(f, backend)) ==> NoRecordOf(f, backend)
      ensures flights[f].key == old(flights[f].key)
      ensures written ==> Held(backend, flights[f].key) == Some(ByFlight(f))
    {
      Rest(f, gap);
      NextKeepsInv(Model(), if written then Store(f) else StoreFailed(f));
      PutRecord(f, written);
    }

    method UnlockLoad(f: nat, gap: seq<Step>)
      requires Inv(Model()) && f < |flights| && NotOf(f, gap) && flights[f].phase.Stored?
      modifies this
      ensures Inv(Model()) && f < |flights| && flights[f].phase.Releasing?
      ensures old(NoRecordOf(f, backend)) ==> NoRecordOf(f, backend)
      ensures flights[f].key == old(flights[f].key) && (Silent(gap) ==> backend == old(backend))
    {
      Rest(f, gap);
      NextKeepsInv(Model(), LoaderUnlock(f));
      UnlockMutation(f);
    }

    method ReturnSlot(f: nat, gap: seq<Step>)
      requires Inv(Model()) && f < |flights| && NotOf(f, gap) && flights[f].phase.Releasing?
      modifies this
      ensures Inv(Model()) && f < |flights| && flights[f].phase.Finishing?
      ensures old(NoRecordOf(f, backend)) ==> NoRecordOf(f, backend)
      ensures flights[f].key == old(flights[f].key) && (Silent(gap) ==> backend == old(backend))
    {
      Rest(f, gap);
      NextKeepsInv(Model(), ReleaseSlot(f));
      flights := flights[f := flights[f].(phase := Finishing)];
      slots := slots - 1;
    }

    method Deregister(f: nat, gap: seq<Step>)
      requires Inv(Model()) && f < |flights| && NotOf(f, gap) && flights[f].phase.Finishing?
      modifies this
      ensures Inv(Model()) && f < |flights| && flights[f].phase.Closing?
      ensures old(NoRecordOf(f, backend)) ==> NoRecordOf(f, backend)
      ensures flights[f].key == old(flights[f].key) && (Silent(gap) ==> backend == old(backend))
    {
      Rest(f, gap);
      NextKeepsInv(Model(), Unregister(f));
      Unlist(f);
    }

    method FinishGroup(f: nat, gap: seq<Step>)
      requires Inv(Model()) && f < |flights| && NotOf(f, gap) && flights[f].phase.Closing?
      modifies this
      ensures Inv(Model()) && f < |flights| && flights[f].phase.Gone?
      ensures old(NoRecordOf(f, backend)) ==> NoRecordOf(f, backend)
      ensures flights[f].key == old(flights[f].key) && (Silent(gap) ==> backend == old(backend))
    {
      Rest(f, gap);
      NextKeepsInv(Model(), LeaveGroup(f));
      Depart(f);
    }

    /** The part of runLoad that holds the mutation lock. */
    method StoreUnderLock(f: nat, written: bool, gaps: seq<seq<Step>>) returns (stored: bool)
      requires Inv(Model()) && f < |flights| && flights[f].phase.Deciding?
      requires |gaps| == 3 && forall i :: 0 <= i < |gaps| ==> NotOf(f, gaps[i])
      modifies this
      ensures Inv(Model()) && f < |flights| && flights[f].phase.Releasing?
      ensures stored ==> written && !old(flights[f].superseded)
      ensures stored <==> written && StillWanted(Run(old(Model()), gaps[0]), f)
      ensures !stored && old(NoRecordOf(f, backend)) ==> NoRecordOf(f, backend)
      ensures flights[f].key == old(flights[f].key)
      ensures stored && Silent(gaps[2]) ==> Held(backend, flights[f].key) == Some(ByFlight(f))
    {
      var store := DecideToStore(f, gaps[0]);
      stored := store && written;
      if store {
        StoreLoaded(f, written, gaps[1]);
        UnlockLoad(f, gaps[2]);
      }
    }

    /**
     runLoad from its start to its end, with any steps of others in between. A load that ended holds nothing any more;
     it stored its record if and only if the loader gave one, the backend took it and, when it decided under the lock,
     no write had superseded it, whether before or during the load.
     */
    method RunLoad(f: nat, hit: bool, loaded: bool, written: bool, gaps: seq<seq<Step>>) returns (r: Load)
      requires Inv(Model()) && f < |flights| && flights[f].phase.Checking?
      requires |gaps| == 8 && forall i :: 0 <= i < |gaps| ==> NotOf(f, gaps[i])
      modifies this
      ensures Inv(Model()) && f < |flights|
      ensures r.Ended? ==> flights[f].phase.Gone?
      ensures r.Ended? && r.stored ==> !hit && loaded && written && !old(flights[f].superseded)
      ensures r.Ended? ==>
                (r.stored <==> !hit && loaded && written && StillWanted(AtDecision(old(Model()), f, gaps), f))
      ensures (r.Ended? ==> !r.stored) && old(NoRecordOf(f, backend)) ==> NoRecordOf(f, backend)
      ensures r.Waiting? <==> !hit && MustWait(old(Model()), f, loaded, gaps)
      ensures flights[f].key == old(flights[f].key)
      ensures r.Ended? && r.stored && (forall i :: 4 <= i < 8 ==> Silent(gaps[i])) ==>
                Held(backend, flights[f].key) == Some(ByFlight(f))
    {
      var waiting := TakeLoadSlot(f, hit, gaps[0]);
      if waiting {
        return Load.Waiting;
      }
      var stored := false;
      if !hit {
        waiting, stored := LoadAndStore(f, loaded, written, gaps[1..6]);
        if waiting {
          return Load.Waiting;
        }
      }
      Deregister(f, gaps[6]);
      FinishGroup(f, gaps[7]);
      return Ended(stored);
    }

    /** The part of runLoad that holds a slot. */
    method LoadAndStore(f: nat, loaded: bool, written: bool, gaps: seq<seq<Step>>) returns (waiting: bool, stored: bool)
      requires Inv(Model()) && f < |flights| && flights[f].phase.Loading?
      requires |gaps| == 5 && forall i :: 0 <= i < |gaps| ==> NotOf(f, gaps[i])
      modifies this
      ensures Inv(Model()) && f < |flights|
      ensures !waiting ==> flights[f].phase.Finishing?
      ensures stored ==> !waiting && loaded && written && !old(flights[f].superseded)
      ensures !waiting ==> (stored <==> loaded && written && StillWanted(AtLock(old(Model()), f, gaps), f))
      ensures !stored && old(NoRecordOf(f, backend)) ==> NoRecordOf(f, backend)
      ensures waiting <==> loaded && IsLocked(Run(old(Model()), gaps[0]), f)
      ensures flights[f].key == old(flights[f].key)
      ensures stored && Silent(gaps[3]) && Silent(gaps[4]) ==> Held(backend, flights[f].key) == Some(ByFlight(f))
    {
      stored := false;
      waiting := LockToStore(f, loaded, gaps[0]);
      if waiting {
        return;
      }
      if loaded {
        stored := StoreUnderLock(f, written, gaps[1..4]);
      }
      ReturnSlot(f, gaps[4]);
    }

    // ---- Closing

    /**
     Close, which waits only if it is the call that closed the cache. When that call has returned no load is running;
     one that found the cache closed already says nothing about loads.
     */
    method Close(gap: seq<Step>) returns (returned: bool, first: bool)
      requires Inv(Model())
      modifies this
      ensures Inv(Model()) && closed
      ensures first <==> !old(closed)
      ensures !first ==> returned && flights == old(flights)
      ensures first ==> (returned <==> NoneRuns(flights))
    {
      NextKeepsInv(Model(), CloseCache);
      first := !closed;
      if !first {
        closers := closers + [TurnedAway];
        return true, first;
      }
      closers := closers + [Closer.Waiting];
      closed := true;
      ClosedStaysClosed(Model(), gap);
      Interfere(gap);
      GroupCountsLoads(flights);
      returned := group == 0;
      if returned && closers[0].Waiting? {
        NextKeepsInv(Model(), CloseReturns(0));
        closers := closers[0 := Drained];
      }
    }
  }
}

/**
 Load coalescing in pkg/cache/cache.go: load flights racing explicit writes. One step is one
 critical section, one lock operation or one backend call, so a writer's lookup of a flight, its
 acquisition of the flight's mutation lock, its backend write and its `superseded` mark are four
 separate steps that interleave with the loader's.
 */
module CacheFlights {
  import opened Collections
  import opened Sums

  type Key = string

  /** Who put the record that a backend key holds. */
  datatype Source = ByFlight(flight: nat) | ByWriter(writer: nat)

  datatype Holder = Unlocked | HeldByLoader | HeldByWriter(writer: nat)

  /** Where the flight's goroutine stands in runLoad. */
  datatype FlightPhase =
    | Checking        // re-reading the cache, waiting for a load slot
    | Loading         // holds a slot, runs the loader
    | Deciding        // holds the mutation lock, about to read `superseded`
    | Storing         // holds the mutation lock, may write the loaded record
    | Stored          // holds the mutation lock, the backend call has returned
    | Releasing       // the lock is released, the slot is still held
    | Finishing       // about to unregister the flight
    | Closing         // unregistered, waiting to leave the wait group
    | Gone

  datatype Flight = Flight(key: Key, phase: FlightPhase, superseded: bool, lock: Holder, waiters: int)

  datatype WriterPhase = LookedUp | Ready | Wrote | Marked | Failed | Done

  /** An explicit Set, Add, Replace, SetIfOwned or Delete; `flight` is what its lookup returned. */
  datatype Writer = Writer(key: Key, flight: Option<nat>, phase: WriterPhase, wrote: bool)

  /** A call of Close: the first one waits for the loads, a later one is turned away at once. */
  datatype Closer = Waiting | Drained | TurnedAway

  datatype State = State(
    maxConcurrent: int,
    maxWaiters: int,
    closed: bool,
    closers: seq<Closer>,
    slots: int,
    group: int,
    registered: map<Key, nat>,
    flights: seq<Flight>,
    writers: seq<Writer>,
    backend: map<Key, Source>)

  function Init(maxConcurrent: int, maxWaiters: int): State {
    State(maxConcurrent, maxWaiters, false, [], 0, 0, map[], [], [], map[])
  }

  datatype Step =
    | Join(key: Key)                             // GetOrLoad
    | StartBackground(key: Key)                  // startBackgroundLoad
    | Detach(flight: nat)                        // detachWaiter
    | TakeSlot(flight: nat)
    | GiveUp(flight: nat)                        // a hit, a failed read or a cancelled wait for a slot
    | LoadFailed(flight: nat)
    | LoaderLock(flight: nat)
    | Decide(flight: nat)
    | Store(flight: nat)
    | StoreFailed(flight: nat)                   // no record is written: policy, encoding or backend error
    | LoaderUnlock(flight: nat)
    | ReleaseSlot(flight: nat)
    | Unregister(flight: nat)
    | LeaveGroup(flight: nat)
    | Lookup(key: Key)                           // lockFlightMutation, first half
    | WriterLock(writer: nat)                    // lockFlightMutation, second half
    | Write(writer: nat, delete: bool)
    | WriteFailed(writer: nat)                   // an error, or a condition that did not hold
    | Mark(writer: nat)
    | WriterUnlock(writer: nat)
    | CloseCache                                 // the critical section of Close
    | CloseReturns(closer: nat)                  // the wait of Close is over

  predicate IsFlight(s: State, f: nat, phase: FlightPhase) {
    f < |s.flights| && s.flights[f].phase == phase
  }

  predicate IsWriter(s: State, w: nat, phase: WriterPhase) {
    w < |s.writers| && s.writers[w].phase == phase
  }

  /** The lock is free, or the writer has no flight to lock. */
  predicate CanLock(s: State, w: nat)
    requires w < |s.writers|
  {
    match s.writers[w].flight
    case None => true
    case Some(f) => f < |s.flights| && s.flights[f].lock.Unlocked?
  }

  predicate Enabled(s: State, step: Step) {
    match step
    case Join(_) => true
    case StartBackground(_) => true
    case Detach(f) => f < |s.flights| && s.flights[f].waiters > 0
    case TakeSlot(f) => IsFlight(s, f, Checking) && s.slots < s.maxConcurrent
    case GiveUp(f) => IsFlight(s, f, Checking)
    case LoadFailed(f) => IsFlight(s, f, Loading)
    case LoaderLock(f) => IsFlight(s, f, Loading) && s.flights[f].lock.Unlocked?
    case Decide(f) => IsFlight(s, f, Deciding)
    case Store(f) => IsFlight(s, f, Storing)
    case StoreFailed(f) => IsFlight(s, f, Storing)
    case LoaderUnlock(f) => IsFlight(s, f, Stored)
    case ReleaseSlot(f) => IsFlight(s, f, Releasing)
    case Unregister(f) => IsFlight(s, f, Finishing)
    case LeaveGroup(f) => IsFlight(s, f, Closing)
    case Lookup(_) => true
    case WriterLock(w) => IsWriter(s, w, LookedUp) && CanLock(s, w)
    case Write(w, _) => IsWriter(s, w, Ready)
    case WriteFailed(w) => IsWriter(s, w, Ready)
    case Mark(w) => IsWriter(s, w, Wrote)
    case WriterUnlock(w) => IsWriter(s, w, Marked) || IsWriter(s, w, Failed)
    case CloseCache => true
    case CloseReturns(c) => c < |s.closers| && s.closers[c].Waiting? && s.group == 0
  }

  function SetPhase(s: State, f: nat, phase: FlightPhase): State
    requires f < |s.flights|
  {
    s.(flights := s.flights[f := s.flights[f].(phase := phase)])
  }

  function SetLock(s: State, f: nat, lock: Holder): State
    requires f < |s.flights|
  {
    s.(flights := s.flights[f := s.flights[f].(lock := lock)])
  }

  function Start(s: State, key: Key, waiters: int): State {
    s.(flights := s.flights + [Flight(key, Checking, false, Unlocked, waiters)],
       registered := s.registered[key := |s.flights|],
       group := s.group + 1)
  }

  function SetWriter(s: State, w: nat, phase: WriterPhase): State
    requires w < |s.writers|
  {
    s.(writers := s.writers[w := s.writers[w].(phase := phase)])
  }

  /** The flight a writer's lookup returned, or the number of flights when there was none. */
  function FlightOf(s: State, w: nat): nat
    requires w < |s.writers|
  {
    match s.writers[w].flight case None => |s.flights| case Some(f) => f
  }

  function Next(s: State, step: Step): State {
    if !Enabled(s, step) then s
    else
      match step
      case Join(key) =>
        if s.closed then s
        else if key in s.registered then
          var f := s.registered[key];
          if f >= |s.flights| || s.flights[f].waiters >= s.maxWaiters then s
          else s.(flights := s.flights[f := s.flights[f].(waiters := s.flights[f].waiters + 1)])
        else Start(s, key, 1)
      case StartBackground(key) => if s.closed || key in s.registered then s else Start(s, key, 0)
      case Detach(f) => s.(flights := s.flights[f := s.flights[f].(waiters := s.flights[f].waiters - 1)])
      case TakeSlot(f) => SetPhase(s, f, Loading).(slots := s.slots + 1)
      case GiveUp(f) => SetPhase(s, f, Finishing)
      case LoadFailed(f) => SetPhase(s, f, Releasing)
      case LoaderLock(f) => SetLock(SetPhase(s, f, Deciding), f, HeldByLoader)
      case Decide(f) =>
        if s.flights[f].superseded then SetLock(SetPhase(s, f, Releasing), f, Unlocked) else SetPhase(s, f, Storing)
      case Store(f) =>
        SetPhase(s, f, Stored).(backend := s.backend[s.flights[f].key := ByFlight(f)])
      case StoreFailed(f) => SetPhase(s, f, Stored)
      case LoaderUnlock(f) => SetLock(SetPhase(s, f, Releasing), f, Unlocked)
      case ReleaseSlot(f) => SetPhase(s, f, Finishing).(slots := s.slots - 1)
      case Unregister(f) => SetPhase(s, f, Closing).(registered := s.registered - {s.flights[f].key})
      case LeaveGroup(f) => SetPhase(s, f, Gone).(group := s.group - 1)
      case Lookup(key) =>
        var flight := if key in s.registered then Some(s.registered[key]) else None;
        s.(writers := s.writers + [Writer(key, flight, LookedUp, false)])
      case WriterLock(w) =>
        var t := SetWriter(s, w, Ready);
        if FlightOf(s, w) < |s.flights| then SetLock(t, FlightOf(s, w), HeldByWriter(w)) else t
      case Write(w, delete) =>
        var key := s.writers[w].key;
        s.(writers := s.writers[w := s.writers[w].(phase := Wrote, wrote := true)],
           backend := if delete then s.backend - {key} else s.backend[key := ByWriter(w)])
      case WriteFailed(w) => SetWriter(s, w, Failed)
      case Mark(w) =>
        var t := SetWriter(s, w, Marked);
        var f := FlightOf(s, w);
        if f < |s.flights| then t.(flights := t.flights[f := t.flights[f].(superseded := true)]) else t
      case WriterUnlock(w) =>
        var t := SetWriter(s, w, Done);
        if FlightOf(s, w) < |s.flights| then SetLock(t, FlightOf(s, w), Unlocked) else t
      case CloseCache => s.(closed := true, closers := s.closers + [if s.closed then TurnedAway else Waiting])
      case CloseReturns(c) => s.(closers := s.closers[c := Drained])
  }

  // ---- Invariant ---------------------------------------------------------------------------

  predicate IsLive(f: Flight) {
    !f.phase.Closing? && !f.phase.Gone?
  }

  /** A flight is registered under its key exactly while it is live. */
  ghost predicate Registry(registered: map<Key, nat>, flights: seq<Flight>) {
    && (forall key :: key in registered ==>
          registered[key] < |flights| && IsLive(flights[registered[key]]) && flights[registered[key]].key == key)
    && (forall f :: 0 <= f < |flights| && IsLive(flights[f]) ==>
          flights[f].key in registered && registered[flights[f].key] == f)
  }

  ghost predicate FlightOk(maxWaiters: int, f: Flight) {
    && 0 <= f.waiters <= maxWaiters
    && (f.lock.HeldByLoader? <==> f.phase.Deciding? || f.phase.Storing? || f.phase.Stored?)
    && (f.phase.Storing? ==> !f.superseded)
  }

  ghost predicate FlightsOk(maxWaiters: int, flights: seq<Flight>) {
    forall f :: 0 <= f < |flights| ==> FlightOk(maxWaiters, flights[f])
  }

  predicate HoldsLock(w: Writer) {
    w.phase.Ready? || w.phase.Wrote? || w.phase.Marked? || w.phase.Failed?
  }

  /** A writer holds the lock of the flight it looked up from its lock step to its unlock step. */
  ghost predicate WriterOk(id: nat, w: Writer, flights: seq<Flight>) {
    && (w.flight.Some? ==>
          && w.flight.value < |flights|
          && flights[w.flight.value].key == w.key
          && (HoldsLock(w) ==> flights[w.flight.value].lock == HeldByWriter(id))
          && (w.wrote && !w.phase.Wrote? ==> flights[w.flight.value].superseded))
    && (w.wrote ==> w.phase.Wrote? || w.phase.Marked? || w.phase.Done?)
    && (w.phase.Wrote? || w.phase.Marked? ==> w.wrote)
  }

  ghost predicate WritersOk(writers: seq<Writer>, flights: seq<Flight>) {
    forall w :: 0 <= w < |writers| ==> WriterOk(w, writers[w], flights)
  }

  /** The guarantee: a written key never holds the record of the flight its writer had looked up. */
  ghost predicate NotOverwritten(w: Writer, backend: map<Key, Source>) {
    w.wrote && w.flight.Some? && w.key in backend ==> backend[w.key] != ByFlight(w.flight.value)
  }

  ghost predicate AllKept(writers: seq<Writer>, backend: map<Key, Source>) {
    forall w :: 0 <= w < |writers| ==> NotOverwritten(writers[w], backend)
  }

  /** A lock that a writer holds is held by a writer of that flight, between its lock and unlock steps. */
  ghost predicate LockOk(f: nat, lock: Holder, writers: seq<Writer>) {
    lock.HeldByWriter? ==>
      lock.writer < |writers| && writers[lock.writer].flight == Some(f) && HoldsLock(writers[lock.writer])
  }

  ghost predicate LocksOk(flights: seq<Flight>, writers: seq<Writer>) {
    forall f :: 0 <= f < |flights| ==> LockOk(f, flights[f].lock, writers)
  }

  ghost predicate RecordsOk(backend: map<Key, Source>, flights: seq<Flight>) {
    forall key :: key in backend && backend[key].ByFlight? ==> backend[key].flight < |flights|
  }

  /** The first Close is the one that found the cache open; it returns only when no load is left. */
  ghost predicate ClosersOk(closed: bool, group: int, closers: seq<Closer>) {
    && (closed <==> closers != [])
    && (forall c :: 0 <= c < |closers| ==> (closers[c].TurnedAway? <==> c > 0))
    && (forall c :: 0 <= c < |closers| && closers[c].Drained? ==> group == 0)
  }

  function SlotHeld(f: Flight): int {
    if f.phase.Loading? || f.phase.Deciding? || f.phase.Storing? || f.phase.Stored? || f.phase.Releasing? then 1 else 0
  }

  function InGroup(f: Flight): int {
    if f.phase.Gone? then 0 else 1
  }

  ghost predicate Inv(s: State) {
    && 1 <= s.maxWaiters && 1 <= s.maxConcurrent
    && s.slots == Sum(s.flights, SlotHeld) <= s.maxConcurrent
    && s.group == Sum(s.flights, InGroup)
    && ClosersOk(s.closed, s.group, s.closers)
    && Registry(s.registered, s.flights)
    && FlightsOk(s.maxWaiters, s.flights)
    && WritersOk(s.writers, s.flights)
    && LocksOk(s.flights, s.writers)
    && AllKept(s.writers, s.backend)
    && RecordsOk(s.backend, s.flights)
  }
}

/** What the backend holds: the record of the last write or load that reached it, read off the steps of a run. */
module CacheContents {
  import opened Collections
  import opened CacheFlights
  import opened CacheFlightsSafety
  import opened CacheRuns

  function Held(backend: map<Key, Source>, key: Key): Option<Source> {
    if key in backend then Some(backend[key]) else None
  }

  // ---- The last call wins --------------------------------------------------------------------

  /** What a step asks of the backend: a record left under a key, or the key removed. */
  datatype Effect = Untouched | Left(key: Key, record: Option<Source>)

  /** Only a load that may store, and a writer that holds its lock and has not written, call the backend. */
  function EffectOf(s: State, step: Step): Effect {
    match step
    case Store(f) =>
      if f < |s.flights| && s.flights[f].phase.Storing? then Left(s.flights[f].key, Some(ByFlight(f))) else Untouched
    case Write(w, delete) =>
      if w < |s.writers| && s.writers[w].phase.Ready?
      then Left(s.writers[w].key, if delete then None else Some(ByWriter(w)))
      else Untouched
    case _ => Untouched
  }

  ghost function Effects(s: State, steps: seq<Step>): (effects: seq<Effect>)
    ensures |effects| == |steps|
    decreases |steps|
  {
    if steps == [] then [] else [EffectOf(s, steps[0])] + Effects(Next(s, steps[0]), steps[1..])
  }

  predicate IsOn(e: Effect, key: Key) {
    e.Left? && e.key == key
  }

  ghost predicate NoneOn(effects: seq<Effect>, key: Key) {
    forall i :: 0 <= i < |effects| ==> !IsOn(effects[i], key)
  }

  ghost predicate IsLastOn(effects: seq<Effect>, key: Key, i: nat) {
    i < |effects| && IsOn(effects[i], key) && NoneOn(effects[i + 1..], key)
  }

  lemma StepLeaves(s: State, step: Step, key: Key)
    ensures var e := EffectOf(s, step);
            Held(Next(s, step).backend, key) == if IsOn(e, key) then e.record else Held(s.backend, key)
  {
    if !step.Store? && !step.Write? {
      StepKeepsRecords(s, step);
    }
  }

  lemma {:induction false} UntouchedKeyIsKept(s: State, steps: seq<Step>, key: Key)
    requires NoneOn(Effects(s, steps), key)
    ensures Held(Run(s, steps).backend, key) == Held(s.backend, key)
    decreases |steps|
  {
    if steps != [] {
      var rest := Effects(Next(s, steps[0]), steps[1..]);
      assert Effects(s, steps)[0] == EffectOf(s, steps[0]);
      assert forall i :: 0 <= i < |rest| ==> rest[i] == Effects(s, steps)[i + 1];
      StepLeaves(s, steps[0], key);
      UntouchedKeyIsKept(Next(s, steps[0]), steps[1..], key);
    }
  }

  /** The last call of the backend on a key decides what it holds, whatever happens in between. */
  lemma {:induction false} LastCallWins(s: State, steps: seq<Step>, key: Key, i: nat)
    requires IsLastOn(Effects(s, steps), key, i)
    ensures Held(Run(s, steps).backend, key) == Effects(s, steps)[i].record
    decreases |steps|
  {
    var effects, t := Effects(s, steps), Next(s, steps[0]);
    assert effects[1..] == Effects(t, steps[1..]);
    StepLeaves(s, steps[0], key);
    if i == 0 {
      UntouchedKeyIsKept(t, steps[1..], key);
    } else {
      assert effects[i + 1..] == effects[1..][i..];
      LastCallWins(t, steps[1..], key, i - 1);
    }
  }

  /** After every run of a new cache: the record of the last call on the key, and nothing if there was none. */
  lemma BackendIsLastCall(maxConcurrent: int, maxWaiters: int, steps: seq<Step>, key: Key)
    ensures var effects := Effects(Init(maxConcurrent, maxWaiters), steps);
            var backend := Run(Init(maxConcurrent, maxWaiters), steps).backend;
            && (NoneOn(effects, key) ==> key !in backend)
            && (forall i: nat :: IsLastOn(effects, key, i) ==> Held(backend, key) == effects[i].record)
  {
    var s := Init(maxConcurrent, maxWaiters);
    if NoneOn(Effects(s, steps), key) {
      UntouchedKeyIsKept(s, steps, key);
    }
    forall i: nat | IsLastOn(Effects(s, steps), key, i)
      ensures Held(Run(s, steps).backend, key) == Effects(s, steps)[i].record
    {
      LastCallWins(s, steps, key, i);
    }
  }

  // ---- Whose key -----------------------------------------------------------------------------

  /** The keys of the sets and deletes of a run, in the order in which they looked for a load. */
  function Asked(steps: seq<Step>): seq<Key>
    decreases |steps|
  {
    if steps == [] then [] else AskedBy(steps[0]) + Asked(steps[1..])
  }

  function AskedBy(step: Step): seq<Key> {
    if step.Lookup? then [step.key] else []
  }

  function KeysOf(writers: seq<Writer>): seq<Key> {
    seq(|writers|, i requires 0 <= i < |writers| => writers[i].key)
  }

  lemma StepAsks(s: State, step: Step)
    ensures KeysOf(Next(s, step).writers) == KeysOf(s.writers) + AskedBy(step)
  {
    if OfFlight(step) {
      FlightStepKeepsWriters(s, step);
    }
  }

  lemma Together(a: seq<Key>, b: seq<Key>, c: seq<Key>)
    ensures (a + b) + c == a + (b + c)
  {
  }

  /** Each writer writes under the key that its set or delete was called with. */
  lemma {:induction false} WritersKeepTheirKeys(s: State, steps: seq<Step>)
    ensures KeysOf(Run(s, steps).writers) == KeysOf(s.writers) + Asked(steps)
    decreases |steps|
  {
    if steps == [] {
      assert Asked(steps) == [];
    } else {
      var t, rest := Next(s, steps[0]), steps[1..];
      WritersKeepTheirKeys(t, rest);
      StepAsks(s, steps[0]);
      Together(KeysOf(s.writers), AskedBy(steps[0]), Asked(rest));
    }
  }

  /** The load that a step started: its key, when the cache is open and no load of the key is live. */
  ghost function StartedBy(s: State, step: Step): seq<Key> {
    if (step.Join? || step.StartBackground?) && !s.closed &&
       (forall f :: 0 <= f < |s.flights| && IsLive(s.flights[f]) ==> s.flights[f].key != step.key)
    then [step.key] else []
  }

  function FlightKeys(flights: seq<Flight>): seq<Key> {
    seq(|flights|, i requires 0 <= i < |flights| => flights[i].key)
  }

  lemma StepStarts(s: State, step: Step)
    requires Inv(s)
    ensures FlightKeys(Next(s, step).flights) == FlightKeys(s.flights) + StartedBy(s, step)
  {
    if step.Join? || step.StartBackground? {
      if step.key in s.registered {
        assert IsLive(s.flights[s.registered[step.key]]);
      }
    } else if OfFlight(step) {
      FlightStepKeepsKeys(s, step);
    } else if OfWriter(step) {
      WriterStepKeepsKeys(s, step);
    }
  }

  lemma FlightStepKeepsKeys(s: State, step: Step)
    requires OfFlight(step)
    ensures FlightKeys(Next(s, step).flights) == FlightKeys(s.flights)
  {
  }

  lemma WriterStepKeepsKeys(s: State, step: Step)
    requires OfWriter(step)
    ensures FlightKeys(Next(s, step).flights) == FlightKeys(s.flights)
  {
  }

  ghost function Started(s: State, steps: seq<Step>): seq<Key>
    decreases |steps|
  {
    if steps == [] then [] else StartedBy(s, steps[0]) + Started(Next(s, steps[0]), steps[1..])
  }

  /** Each load is of the key that it was started for, and loads are started only where none of the key is live. */
  lemma {:induction false} LoadsKeepTheirKeys(s: State, steps: seq<Step>)
    requires Inv(s)
    ensures FlightKeys(Run(s, steps).flights) == FlightKeys(s.flights) + Started(s, steps)
    decreases |steps|
  {
    if steps == [] {
      assert Started(s, steps) == [];
    } else {
      var t, rest := Next(s, steps[0]), steps[1..];
      NextKeepsInv(s, steps[0]);
      LoadsKeepTheirKeys(t, rest);
      StepStarts(s, steps[0]);
      Together(FlightKeys(s.flights), StartedBy(s, steps[0]), Started(t, rest));
    }
  }

  // ---- How many wait -------------------------------------------------------------------------

  /** What a step adds to the waiters of load `f`: a caller that finds it live and with room, or one that leaves. */
  function Change(s: State, step: Step, f: nat): int
    requires f < |s.flights|
  {
    var load := s.flights[f];
    match step
    case Join(key) => if !s.closed && IsLive(load) && load.key == key && load.waiters < s.maxWaiters then 1 else 0
    case Detach(g) => if g == f && load.waiters > 0 then -1 else 0
    case _ => 0
  }

  lemma FlightStepKeepsWaiters(s: State, step: Step, f: nat)
    requires f < |s.flights| && OfFlight(step) && !step.Detach?
    ensures f < |Next(s, step).flights| && Next(s, step).flights[f].waiters == s.flights[f].waiters
  {
  }

  lemma WriterStepKeepsWaiters(s: State, step: Step, f: nat)
    requires f < |s.flights| && OfWriter(step)
    ensures f < |Next(s, step).flights| && Next(s, step).flights[f].waiters == s.flights[f].waiters
  {
  }

  lemma StepCounts(s: State, step: Step, f: nat)
    requires Inv(s) && f < |s.flights|
    ensures f < |Next(s, step).flights|
    ensures Next(s, step).flights[f].waiters == s.flights[f].waiters + Change(s, step, f)
  {
    if step.Join? {
      if IsLive(s.flights[f]) {
        assert s.registered[s.flights[f].key] == f;
      }
    } else if OfFlight(step) && !step.Detach? {
      FlightStepKeepsWaiters(s, step, f);
    } else if OfWriter(step) {
      WriterStepKeepsWaiters(s, step, f);
    }
  }

  ghost function Changes(s: State, steps: seq<Step>, f: nat): int
    requires Inv(s) && f < |s.flights|
    decreases |steps|
  {
    if steps == [] then 0
    else
      NextKeepsInv(s, steps[0]);
      StepCounts(s, steps[0], f);
      Change(s, steps[0], f) + Changes(Next(s, steps[0]), steps[1..], f)
  }

  /** In every run a load has as many waiters as joined it and have not left. */
  lemma {:induction false} WaitersAreCounted(s: State, steps: seq<Step>, f: nat)
    requires Inv(s) && f < |s.flights|
    ensures f < |Run(s, steps).flights|
    ensures Run(s, steps).flights[f].waiters == s.flights[f].waiters + Changes(s, steps, f)
    decreases |steps|
  {
    if steps != [] {
      NextKeepsInv(s, steps[0]);
      StepCounts(s, steps[0], f);
      WaitersAreCounted(Next(s, steps[0]), steps[1..], f);
    }
  }

  // ---- Steps that leave the backend alone ----------------------------------------------------

  ghost predicate Silent(steps: seq<Step>) {
    forall i :: 0 <= i < |steps| ==> !steps[i].Store? && !steps[i].Write?
  }

  lemma {:induction false} SilentKeepsBackend(s: State, steps: seq<Step>)
    requires Silent(steps)
    ensures Run(s, steps).backend == s.backend
    decreases |steps|
  {
    if steps != [] {
      StepKeepsRecords(s, steps[0]);
      SilentKeepsBackend(Next(s, steps[0]), steps[1..]);
    }
  }
}

/**
 Callers that wait for room in the half-open sample. A caller that has to wait reads, under the lock, which
 channel is current, and sleeps until that channel is closed. signalLocked closes the current channel and makes
 the next: a state counts these calls, so a channel is known by the count at which it was made.
 */
module CircuitBreakerWaiters {
  import opened CircuitBreaker
  import opened CircuitBreakerSafety

  /** Between `s` and `t` the channel was closed: signalLocked was called. */
  predicate Signalled(s: State, t: State) {
    t.signals != s.signals
  }

  /** The sample is full of results and outstanding probes, as a caller that has to wait finds it. */
  ghost predicate Waits(s: State) {
    s.mode.Normal? && s.config.waitForProbe && Full(s)
  }

  /** The same sample, with the same probes and deadlines. */
  ghost predicate SameSample(s: State, t: State) {
    && t.generation == s.generation && t.phase == s.phase && t.mode == s.mode && t.config == s.config
    && t.probes == s.probes && t.probesActive == s.probesActive && t.probesCompleted == s.probesCompleted
    && (forall id :: id in s.probes && id < |s.permits| ==>
          id < |t.permits| && t.permits[id].deadline == s.permits[id].deadline)
  }

  /** A caller told to wait leaves a full sample behind. */
  lemma WaiterFindsFull(s: State, now: int, execution: bool)
    requires Inv(s) && TryAcquire(s, now, execution).1.MustWait?
    ensures Inv(TryAcquire(s, now, execution).0) && Waits(TryAcquire(s, now, execution).0)
  {
    TryAcquireKeepsInv(s, now, execution);
  }

  lemma NothingDue(s: State, now: int)
    requires Inv(s) && s.phase.HalfOpen? && s.probes <= Refresh(s, now).probes
    ensures Due(s, now) == {}
  {
    RefreshedProbes(s, now);
  }

  lemma QuietRefresh(s: State, now: int)
    requires Inv(s) && s.phase.HalfOpen? && Due(s, now) == {}
    ensures Refresh(s, now) == s
  {
    assert Refresh(s, now).permits == s.permits;
  }

  lemma QuietAcquire(s: State, now: int, execution: bool)
    requires Inv(s) && Waits(s) && !Signalled(s, TryAcquire(s, now, execution).0)
    ensures SameSample(s, TryAcquire(s, now, execution).0)
  {
    RefreshKeepsInv(s, now);
    assert |s.permits| !in s.probes;
    assert s.probes <= Refresh(s, now).probes;
    NothingDue(s, now);
    QuietRefresh(s, now);
  }

  lemma QuietSnapshot(s: State, now: int)
    requires Inv(s) && Waits(s) && !Signalled(s, ExpireDue(s, now))
    ensures SameSample(s, ExpireDue(s, now))
  {
    NothingDue(s, now);
    QuietRefresh(s, now);
  }

  lemma QuietComplete(s: State, id: nat, outcome: Outcome, slow: bool, now: int, jitter: real)
    requires Inv(s) && Waits(s) && id < |s.permits| && !Signalled(s, Complete(s, id, outcome, slow, now, jitter).0)
    ensures SameSample(s, Complete(s, id, outcome, slow, now, jitter).0)
  {
    if id in s.probes {
      assert IsProbe(s.generation, s.permits[id]);
    }
  }

  lemma QuietCancel(s: State, id: nat, now: int)
    requires Inv(s) && Waits(s) && id < |s.permits| && !Signalled(s, Cancel(s, id, now).0)
    ensures SameSample(s, Cancel(s, id, now).0)
  {
  }

  lemma QuietStep(s: State, step: Step)
    requires Inv(s) && Waits(s) && !Signalled(s, Next(s, step))
    ensures SameSample(s, Next(s, step))
  {
    match step
    case AcquireStep(now, execution) => QuietAcquire(s, now, execution);
    case CompleteStep(id, outcome, slow, now, jitter) =>
      if id < |s.permits| {
        QuietComplete(s, id, outcome, slow, now, jitter);
      }
    case CancelStep(id, now) =>
      if id < |s.permits| {
        QuietCancel(s, id, now);
      }
    case SnapshotStep(now) => QuietSnapshot(s, now);
    case _ =>
  }

  lemma CompletionSignals(s: State, id: nat, outcome: Outcome, slow: bool, now: int, jitter: real)
    requires id < |s.permits|
    ensures Complete(s, id, outcome, slow, now, jitter).0.signals >= s.signals
  {
  }

  lemma AcquisitionSignals(s: State, now: int, execution: bool)
    ensures TryAcquire(s, now, execution).0.signals >= s.signals
  {
  }

  lemma SignalsGrow(s: State, step: Step)
    ensures Next(s, step).signals >= s.signals
  {
    match step
    case AcquireStep(now, execution) => AcquisitionSignals(s, now, execution);
    case CompleteStep(id, outcome, slow, now, jitter) =>
      if id < |s.permits| {
        CompletionSignals(s, id, outcome, slow, now, jitter);
      }
    case _ =>
  }

  lemma {:induction false} RunSignalsGrow(s: State, steps: seq<Step>)
    requires Inv(s)
    ensures Run(s, steps).signals >= s.signals
    decreases |steps|
  {
    if steps != [] {
      NextKeepsInv(s, steps[0]);
      SignalsGrow(s, steps[0]);
      RunSignalsGrow(Next(s, steps[0]), steps[1..]);
    }
  }

  /** While the channel stays open no step changes a full sample. */
  lemma {:induction false} QuietRun(s: State, steps: seq<Step>)
    requires Inv(s) && Waits(s) && !Signalled(s, Run(s, steps))
    ensures Waits(Run(s, steps)) && SameSample(s, Run(s, steps))
    decreases |steps|
  {
    if steps != [] {
      var t := Next(s, steps[0]);
      NextKeepsInv(s, steps[0]);
      SignalsGrow(s, steps[0]);
      RunSignalsGrow(t, steps[1..]);
      QuietStep(s, steps[0]);
      QuietRun(t, steps[1..]);
    }
  }

  lemma FullMeansWait(s: State, now: int, execution: bool)
    requires Inv(s) && Waits(s)
    ensures TryAcquire(s, now, execution).1.MustWait? <==>
      forall id :: id in s.probes && id < |s.permits| ==> now < s.permits[id].deadline
  {
    RefreshedProbes(s, now);
    if Due(s, now) == {} {
      QuietRefresh(s, now);
    } else {
      var id :| id in Due(s, now);
      RefreshKeepsInv(s, now);
      FewerProbes(s, now, id);
    }
  }

  lemma FewerProbes(s: State, now: int, id: nat)
    requires Inv(s) && Waits(s) && id in Due(s, now)
    ensures !Full(Refresh(s, now))
  {
    assert |Due(s, now)| >= 1 by {
      assert {id} <= Due(s, now);
      assert Due(s, now) == {id} + (Due(s, now) - {id});
    }
  }

  /** Some probe that was out there in `s` is past its deadline. */
  ghost predicate SomeOverdue(s: State, now: int) {
    exists id :: id in s.probes && id < |s.permits| && now >= s.permits[id].deadline
  }

  /** The state in which a caller that was told to wait falls asleep; it sleeps on channel `Bed(…).signals`. */
  ghost function Bed(s: State, now: int, execution: bool): (bed: State)
    requires Inv(s) && TryAcquire(s, now, execution).1.MustWait?
    ensures Inv(bed) && Waits(bed)
  {
    WaiterFindsFull(s, now, execution);
    TryAcquire(s, now, execution).0
  }

  /**
   Whatever happens after a caller was told to wait: the channel that it sleeps on is closed, or the sample is still
   the one it found, and asking again would make it wait again unless a probe's deadline has passed.
   */
  lemma SleeperMissesNothing(s: State, now: int, execution: bool, steps: seq<Step>, later: int)
    requires Inv(s) && TryAcquire(s, now, execution).1.MustWait?
    ensures var bed := Bed(s, now, execution);
            var r := Run(bed, steps);
            || r.signals > bed.signals
            || (&& r.signals == bed.signals && r.probes == bed.probes && r.generation == bed.generation && Waits(r)
                && (TryAcquire(r, later, execution).1.MustWait? <==> !SomeOverdue(bed, later)))
  {
    var bed := Bed(s, now, execution);
    var r := Run(bed, steps);
    RunSignalsGrow(bed, steps);
    if r.signals == bed.signals {
      QuietRun(bed, steps);
      FullMeansWait(r, later, execution);
      SameOverdue(bed, r, later);
    }
  }

  lemma SameOverdue(s: State, t: State, now: int)
    requires Inv(s) && SameSample(s, t)
    ensures SomeOverdue(s, now) <==> SomeOverdue(t, now)
  {
    assert forall id :: id in s.probes ==> id < |s.permits|;
  }

  /** Whoever makes room in a full sample closes the channel. */
  lemma RoomIsSignalled(s: State, step: Step)
    requires Inv(s) && Waits(s) && !Waits(Next(s, step))
    ensures Next(s, step).signals > s.signals
  {
    SignalsGrow(s, step);
    if !Signalled(s, Next(s, step)) {
      QuietStep(s, step);
    }
  }

  // ---- Room that only a deadline makes ---------------------------------------------------------

  /**
   A passing deadline closes no channel: a caller sleeps on while a newcomer gets the room. Only the newcomer's own
   call closes the channel.
   */
  lemma NewcomerGoesFirst(s: State, now: int, execution: bool, steps: seq<Step>, later: int)
    requires Inv(s) && TryAcquire(s, now, execution).1.MustWait?
    requires !Signalled(Bed(s, now, execution), Run(Bed(s, now, execution), steps))
    requires SomeOverdue(Bed(s, now, execution), later)
    ensures var r := Run(Bed(s, now, execution), steps);
            TryAcquire(r, later, execution).1.Admitted? && TryAcquire(r, later, execution).0.signals > r.signals
  {
    var bed := Bed(s, now, execution);
    var r := Run(bed, steps);
    QuietRun(bed, steps);
    SameOverdue(bed, r, later);
    var id :| id in r.probes && id < |r.permits| && later >= r.permits[id].deadline;
    assert IsProbe(r.generation, r.permits[id]);
    FewerProbes(r, later, id);
  }

  // ---- Every breaker can get there -------------------------------------------------------------

  /** Some run of a new breaker ends in `s`. */
  ghost predicate Reachable(c: Config, s: State)
    requires ValidPolicy(c.halfOpen)
  {
    exists steps :: Reach(c, steps) == s
  }

  lemma RunCons(s: State, steps: seq<Step>)
    requires Inv(s) && steps != []
    ensures Inv(Next(s, steps[0])) && Run(s, steps) == Run(Next(s, steps[0]), steps[1..])
  {
    NextKeepsInv(s, steps[0]);
  }

  lemma {:induction false} RunSnoc(s: State, steps: seq<Step>, step: Step)
    requires Inv(s)
    ensures Run(s, steps + [step]) == Next(Run(s, steps), step)
    decreases |steps|
  {
    var longer := steps + [step];
    if steps == [] {
      RunCons(s, longer);
      assert longer[1..] == [];
    } else {
      assert longer[0] == steps[0] && longer[1..] == steps[1..] + [step];
      RunCons(s, longer);
      RunCons(s, steps);
      RunSnoc(Next(s, steps[0]), steps[1..], step);
    }
  }

  lemma ReachableNext(c: Config, s: State, step: Step)
    requires ValidPolicy(c.halfOpen) && Reachable(c, s)
    ensures Reachable(c, Next(s, step)) && Inv(s)
  {
    var steps :| Reach(c, steps) == s;
    ReachSnoc(c, steps, step);
  }

  lemma ReachSnoc(c: Config, steps: seq<Step>, step: Step)
    requires ValidPolicy(c.halfOpen)
    ensures Reach(c, steps + [step]) == Next(Reach(c, steps), step)
  {
    InitHasInv(c);
    RunSnoc(Init(c), steps, step);
  }

  lemma InitHasInv(c: Config)
    requires ValidPolicy(c.halfOpen)
    ensures Inv(Init(c))
  {
    assert Reach(c, []) == Init(c);
  }

  /** One failure opens the breaker. */
  lemma Opens(c: Config) returns (s: State)
    requires ValidPolicy(c.halfOpen) && c.permitTTL > 0 && c.opens([Record(Failure, false, 0)], 1, 0)
    ensures Reachable(c, s) && Inv(s) && s.phase.Open? && s.mode.Normal? && s.config == c
  {
    assert Reach(c, []) == Init(c);
    ReachableNext(c, Init(c), AcquireStep(0, false));
    var t := Admits(c);
    var failed := CompleteStep(0, Failure, false, 0, 0.0);
    ReachableNext(c, t, failed);
    s := Next(t, failed);
    NextKeepsInv(t, failed);
    FailureOpens(t);
  }

  lemma Admits(c: Config) returns (t: State)
    ensures t == Next(Init(c), AcquireStep(0, false)) && t == Issue(Init(c), 0, true, false)
  {
    t := Issue(Init(c), 0, true, false);
  }

  lemma FailureOpens(t: State)
    requires t == Issue(Init(t.config), 0, true, false) && t.config.permitTTL > 0
    requires t.config.opens([Record(Failure, false, 0)], 1, 0)
    ensures var s := Next(t, CompleteStep(0, Failure, false, 0, 0.0));
            s.phase.Open? && s.mode.Normal? && s.config == t.config
  {
    var u := Count(t, 0, Failure);
    assert u.window + [Record(Failure, false, 0)] == [Record(Failure, false, 0)];
    assert Conclude(t, 0, Failure, false, 0, 0.0) == CompleteClosed(u, Failure, false, 0, 0.0);
  }

  /** A half-open sample that `n` more probes fill. */
  ghost predicate Filling(s: State, n: nat, now: int) {
    && s.mode.Normal? && s.phase.HalfOpen? && s.probesCompleted == 0 && s.config.permitTTL > 0
    && s.probesActive + n == s.config.halfOpen.maxProbes && !SomeOverdue(s, now)
  }

  lemma FillOne(s: State, n: nat, now: int)
    requires Inv(s) && Filling(s, n, now) && n > 0
    ensures var t := TryAcquire(s, now, false).0; Filling(t, n - 1, now) && t.config == s.config
  {
    assert Due(s, now) == {};
    QuietRefresh(s, now);
  }

  lemma {:induction false} Fill(c: Config, s: State, n: nat, now: int) returns (r: State)
    requires ValidPolicy(c.halfOpen) && Reachable(c, s) && Filling(s, n, now)
    ensures Reachable(c, r) && Inv(r) && Filling(r, 0, now) && r.config == s.config
    decreases n
  {
    var step := AcquireStep(now, false);
    ReachableNext(c, s, step);
    r := s;
    if n > 0 {
      FillOne(s, n, now);
      r := Fill(c, Next(s, step), n - 1, now);
    }
  }

  lemma FirstProbe(s: State)
    requires Inv(s) && s.phase.Open? && s.mode.Normal? && s.config.permitTTL > 0
    ensures var t := Next(s, AcquireStep(s.nextProbeAt, false));
            Filling(t, s.config.halfOpen.maxProbes - 1, s.nextProbeAt) && t.config == s.config
  {
    var t := Renew(s.(phase := HalfOpen));
    RenewKeepsInv(s, HalfOpen, s.mode);
    FillOne(t, s.config.halfOpen.maxProbes, s.nextProbeAt);
    assert Due(t, s.nextProbeAt) == {};
    QuietRefresh(t, s.nextProbeAt);
  }

  lemma WaitsWhenFull(s: State, now: int)
    requires Inv(s) && Filling(s, 0, now) && s.config.waitForProbe
    ensures TryAcquire(s, now, false) == (s, MustWait)
  {
    assert Due(s, now) == {};
    QuietRefresh(s, now);
  }

  /** A caller told to wait at `now` sleeps on at `later` although there is room. */
  ghost predicate Misses(s: State, now: int, later: int) {
    && Inv(s) && TryAcquire(s, now, false).1.MustWait?
    && TryAcquire(TryAcquire(s, now, false).0, later, false).1.Admitted?
  }

  lemma FullMisses(s: State, now: int) returns (later: int)
    requires Inv(s) && Filling(s, 0, now) && s.config.waitForProbe
    ensures Misses(s, now, later)
  {
    WaitsWhenFull(s, now);
    var id :| id in s.probes;
    later := s.permits[id].deadline;
    assert SomeOverdue(s, later);
    NewcomerGoesFirst(s, now, false, [], later);
  }

  /** Every breaker that lets callers wait, and that one failure opens, can leave a sleeper behind in this way. */
  lemma SleeperCanMiss(c: Config)
    requires ValidPolicy(c.halfOpen) && c.waitForProbe && c.permitTTL > 0 && c.opens([Record(Failure, false, 0)], 1, 0)
    ensures exists s, now, later :: Reachable(c, s) && Misses(s, now, later)
  {
    var s := Opens(c);
    var now := s.nextProbeAt;
    FirstProbe(s);
    ReachableNext(c, s, AcquireStep(now, false));
    var full := Fill(c, Next(s, AcquireStep(now, false)), c.halfOpen.maxProbes - 1, now);
    var later := FullMisses(full, now);
  }
}

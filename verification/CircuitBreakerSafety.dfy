/** What every run of the breaker keeps, and why half-open never gets stuck. */
module CircuitBreakerSafety {
  import opened Sums
  import opened CircuitBreaker

  // ---- Transitions -------------------------------------------------------------------------

  /** A new generation makes all permits stale, so only the counters carry over. */
  lemma RenewKeepsInv(s: State, phase: Phase, mode: Mode)
    requires ValidPolicy(s.config.halfOpen) && s.generation == s.transitions + 1 && Counted(s.counts, s.permits)
    requires forall i :: 0 <= i < |s.permits| ==> s.permits[i].generation <= s.generation
    ensures Inv(Renew(s.(phase := phase, mode := mode)))
  {
  }

  /** What is left of the invariant while a completion is being applied. */
  ghost predicate Between(s: State) {
    && ValidPolicy(s.config.halfOpen)
    && s.generation == s.transitions + 1
    && Counted(s.counts, s.permits)
    && Epoch(s.generation, s.phase, s.mode, s.permits)
  }

  lemma ReopenKeepsInv(s: State, now: int, jitter: real)
    requires Between(s)
    ensures Inv(Reopen(s, now, jitter))
  {
    var count := s.openCount + 1;
    RenewKeepsInv(s.(openCount := count, nextProbeAt := now + s.config.openFor(count, jitter)), Open, s.mode);
  }

  lemma RecoverKeepsInv(s: State)
    requires Between(s)
    ensures Inv(Recover(s))
  {
    RenewKeepsInv(s.(window := [], streak := 0, openCount := 0, nextProbeAt := 0), Closed, s.mode);
  }

  // ---- Permits -----------------------------------------------------------------------------

  lemma EpochUpdate(generation: nat, phase: Phase, mode: Mode, permits: seq<Permit>, id: nat, status: Status)
    requires Epoch(generation, phase, mode, permits) && id < |permits|
    ensures Epoch(generation, phase, mode, permits[id := permits[id].(status := status)])
  {
  }

  lemma DropKeepsInv(s: State, id: nat, status: Status)
    requires Inv(s) && id < |s.permits| && s.permits[id].status.Active? && !status.Active? && !status.Completed?
    ensures Inv(Drop(s, id, status))
  {
    var p := s.permits[id].(status := status);
    SumUpdate(s.permits, id, p, CompletedOnce);
    EpochUpdate(s.generation, s.phase, s.mode, s.permits, id, status);
  }

  lemma {:induction false} SumSame(a: seq<Permit>, b: seq<Permit>)
    requires |a| == |b|
    requires forall i :: 0 <= i < |a| ==> CompletedOnce(a[i]) == CompletedOnce(b[i])
    ensures Sum(a, CompletedOnce) == Sum(b, CompletedOnce)
  {
    if a != [] {
      SumSame(a[..|a| - 1], b[..|b| - 1]);
    }
  }

  lemma ExpireDueKeepsInv(s: State, now: int)
    requires Inv(s)
    ensures Inv(ExpireDue(s, now))
  {
    var due := Due(s, now);
    var t := ExpireDue(s, now);
    SumSame(s.permits, t.permits);
    assert |s.probes - due| == |s.probes| - |due| by {
      assert s.probes == (s.probes - due) + due;
    }
  }

  lemma RefreshKeepsInv(s: State, now: int)
    requires Inv(s)
    ensures Inv(Refresh(s, now))
  {
    var t := if s.phase.Open? && now >= s.nextProbeAt then Renew(s.(phase := HalfOpen)) else s;
    if s.phase.Open? && now >= s.nextProbeAt {
      RenewKeepsInv(s, HalfOpen, s.mode);
    }
    assert Inv(t);
    if t.phase.HalfOpen? {
      ExpireDueKeepsInv(t, now);
    }
  }

  lemma CountExtends(counts: Counts, permits: seq<Permit>, p: Permit)
    requires Counted(counts, permits) && p.status.Active?
    ensures Counted(counts.(admitted := counts.admitted + 1), permits + [p])
  {
    SumAppend(permits, p, CompletedOnce);
  }

  lemma EpochExtends(generation: nat, phase: Phase, mode: Mode, permits: seq<Permit>, p: Permit)
    requires Epoch(generation, phase, mode, permits)
    requires p.generation == generation && p.phase == phase && (p.recording <==> mode.Normal?)
    ensures Epoch(generation, phase, mode, permits + [p])
  {
  }

  lemma RegisteredExtends(generation: nat, probes: set<nat>, permits: seq<Permit>, p: Permit, after: set<nat>)
    requires Registered(generation, probes, permits)
    requires after == if IsProbe(generation, p) then probes + {|permits|} else probes
    ensures Registered(generation, after, permits + [p]) && |permits| !in probes
  {
  }

  /** A permit joins the books; what changes beside them is only the half-open arithmetic. */
  lemma PermitsExtend(s: State, p: Permit, t: State)
    requires Inv(s) && p.generation == s.generation && p.phase == s.phase && p.status.Active?
    requires p.recording <==> s.mode.Normal?
    requires t.counts == s.counts.(admitted := s.counts.admitted + 1) && t.permits == s.permits + [p]
    requires t.probes == if IsProbe(s.generation, p) then s.probes + {|s.permits|} else s.probes
    requires t.config == s.config && t.generation == s.generation && t.transitions == s.transitions
    requires t.phase == s.phase && t.mode == s.mode && (|s.permits| !in s.probes ==> Sampling(t))
    ensures Inv(t)
  {
    CountExtends(s.counts, s.permits, p);
    EpochExtends(s.generation, s.phase, s.mode, s.permits, p);
    RegisteredExtends(s.generation, s.probes, s.permits, p, t.probes);
  }

  lemma IssueKeepsInv(s: State, now: int, execution: bool)
    requires Inv(s) && s.mode.Disabled?
    ensures Inv(Issue(s, now, false, execution))
  {
    var p := Permit(s.generation, s.phase, now + s.config.permitTTL, false, execution, Active);
    PermitsExtend(s, p, Issue(s, now, false, execution));
  }

  lemma SamplingIssued(s: State, t: State)
    requires Sampling(s) && !Full(s) && |s.permits| !in s.probes && t.config == s.config && t.phase == s.phase
    requires t.probesCompleted == s.probesCompleted && t.probesSucceeded == s.probesSucceeded
    requires if s.phase.HalfOpen? then t.probes == s.probes + {|s.permits|} && t.probesActive == s.probesActive + 1
             else t.probes == s.probes && t.probesActive == s.probesActive
    ensures Sampling(t)
  {
  }

  lemma IssueRecordingKeepsInv(s: State, now: int, execution: bool)
    requires Inv(s) && s.mode.Normal? && !Full(s)
    ensures Inv(IssueRecording(s, now, execution))
  {
    var p := Permit(s.generation, s.phase, now + s.config.permitTTL, true, execution, Active);
    var t := IssueRecording(s, now, execution);
    if |s.permits| !in s.probes {
      SamplingIssued(s, t);
    }
    PermitsExtend(s, p, t);
  }

  lemma TryAcquireKeepsInv(s: State, now: int, execution: bool)
    requires Inv(s)
    ensures Inv(TryAcquire(s, now, execution).0)
  {
    if s.mode.Disabled? {
      IssueKeepsInv(s, now, execution);
    } else if s.mode.Normal? && !(s.phase.Open? && now < s.nextProbeAt) {
      RefreshKeepsInv(s, now);
      TryProbeKeepsInv(Refresh(s, now), now, execution);
    }
  }

  lemma TryProbeKeepsInv(s: State, now: int, execution: bool)
    requires Inv(s) && s.mode.Normal?
    ensures Inv(TryProbe(s, now, execution).0)
  {
    if !Full(s) {
      IssueRecordingKeepsInv(s, now, execution);
    }
  }

  // ---- Completions -------------------------------------------------------------------------

  lemma CountKeeps(s: State, id: nat, outcome: Outcome)
    requires Counted(s.counts, s.permits) && id < |s.permits| && !s.permits[id].status.Completed?
    requires !outcome.UnknownOutcome?
    ensures Counted(Count(s, id, outcome).counts, Count(s, id, outcome).permits)
  {
    SumUpdate(s.permits, id, s.permits[id].(status := Completed), CompletedOnce);
  }

  /** One more probe result either settles the sample or leaves room in it. */
  lemma CompleteProbeKeepsInv(s: State, outcome: Outcome, now: int, jitter: real)
    requires Between(s) && Registered(s.generation, s.probes, s.permits)
    requires s.phase.HalfOpen? && Sampling(s.(probesActive := s.probesActive - 1))
    requires s.probesCompleted + s.probesActive <= s.config.halfOpen.maxProbes
    ensures Inv(CompleteProbe(s, outcome, now, jitter))
  {
    var u := s.(probesActive := s.probesActive - 1, signals := s.signals + 1, probesCompleted := s.probesCompleted + 1,
                probesSucceeded := s.probesSucceeded + (if outcome.Success? then 1 else 0));
    if !outcome.Ignored? {
      SettleKeepsInv(u, outcome, now, jitter);
    }
  }

  /** One more result is in the sample, and nothing is decided yet. */
  ghost predicate Drawn(u: State, outcome: Outcome) {
    && u.probesActive == |u.probes| && 0 <= u.probesSucceeded <= u.probesCompleted
    && u.probesCompleted + u.probesActive <= u.config.halfOpen.maxProbes
    && (u.config.halfOpen.failureAction.ReopenImmediately? && outcome.Success? ==>
          u.probesSucceeded == u.probesCompleted)
  }

  /** A sample that decides nothing is not complete. */
  lemma SampleGoesOn(u: State, outcome: Outcome, now: int, jitter: real)
    requires ValidPolicy(u.config.halfOpen) && u.phase.HalfOpen? && Settle(u, outcome, now, jitter) == u
    requires Drawn(u, outcome)
    ensures Sampling(u)
  {
  }

  lemma SettleKeepsInv(u: State, outcome: Outcome, now: int, jitter: real)
    requires Between(u) && Registered(u.generation, u.probes, u.permits) && u.phase.HalfOpen? && Drawn(u, outcome)
    ensures Inv(Settle(u, outcome, now, jitter))
  {
    ReopenKeepsInv(u, now, jitter);
    RecoverKeepsInv(u);
    if Settle(u, outcome, now, jitter) == u {
      SampleGoesOn(u, outcome, now, jitter);
    }
  }

  lemma CompleteClosedKeepsInv(s: State, outcome: Outcome, slow: bool, now: int, jitter: real)
    requires Inv(s)
    ensures Inv(CompleteClosed(s, outcome, slow, now, jitter))
  {
    var t := s.(window := s.window + [Record(outcome, slow && !outcome.Ignored?, now)],
                streak := match outcome
                          case Success => 0
                          case Failure => s.streak + 1
                          case _ => if s.config.ignoredResetsStreak then 0 else s.streak);
    assert Between(t);
    ReopenKeepsInv(t, now, jitter);
  }

  lemma RegisteredDrop(generation: nat, probes: set<nat>, permits: seq<Permit>, id: nat, status: Status)
    requires Registered(generation, probes, permits) && id < |permits| && !status.Active?
    ensures Registered(generation, probes - {id}, permits[id := permits[id].(status := status)])
    ensures |probes - {id}| == |probes| - (if id in probes then 1 else 0)
  {
    if id !in probes {
      assert probes - {id} == probes;
    }
  }

  lemma ConcludeProbeKeepsInv(s: State, id: nat, outcome: Outcome, slow: bool, now: int, jitter: real)
    requires Inv(s) && id < |s.permits| && IsProbe(s.generation, s.permits[id]) && !outcome.UnknownOutcome?
    ensures Inv(Conclude(s, id, outcome, slow, now, jitter))
  {
    var t := Count(s, id, outcome);
    CountKeeps(s, id, outcome);
    EpochUpdate(s.generation, s.phase, s.mode, s.permits, id, Completed);
    RegisteredDrop(s.generation, s.probes, s.permits, id, Completed);
    CompleteProbeKeepsInv(t.(probes := t.probes - {id}), outcome, now, jitter);
  }

  lemma ConcludeKeepsInv(s: State, id: nat, outcome: Outcome, slow: bool, now: int, jitter: real)
    requires Inv(s) && id < |s.permits| && s.permits[id].status.Active? && !outcome.UnknownOutcome?
    ensures Inv(Conclude(s, id, outcome, slow, now, jitter))
  {
    var p := s.permits[id];
    if IsProbe(s.generation, p) {
      ConcludeProbeKeepsInv(s, id, outcome, slow, now, jitter);
    } else {
      var t := Count(s, id, outcome);
      CountKeeps(s, id, outcome);
      EpochUpdate(s.generation, s.phase, s.mode, s.permits, id, Completed);
      RegisteredDrop(s.generation, s.probes, s.permits, id, Completed);
      assert t.probes - {id} == t.probes;
      assert Inv(t);
      if IsCurrent(s, p) && p.recording {
        CompleteClosedKeepsInv(t, outcome, slow, now, jitter);
      }
    }
  }

  lemma CompleteKeepsInv(s: State, id: nat, outcome: Outcome, slow: bool, now: int, jitter: real)
    requires Inv(s) && id < |s.permits|
    ensures Inv(Complete(s, id, outcome, slow, now, jitter).0)
  {
    var p := s.permits[id];
    if !outcome.UnknownOutcome? {
      if p.status.Active? {
        DropKeepsInv(s, id, Expired);
        ConcludeKeepsInv(s, id, outcome, slow, now, jitter);
      } else if p.status.Expired? {
        CountKeeps(s, id, outcome);
        EpochUpdate(s.generation, s.phase, s.mode, s.permits, id, Completed);
      }
    }
  }

  lemma RejectKeepsInv(s: State)
    requires Inv(s)
    ensures Inv(Reject(s))
  {
  }

  lemma CancelKeepsInv(s: State, id: nat, now: int)
    requires Inv(s) && id < |s.permits|
    ensures Inv(Cancel(s, id, now).0)
  {
    if s.permits[id].status.Active? {
      DropKeepsInv(s, id, Expired);
      DropKeepsInv(s, id, Canceled);
    }
  }

  lemma NextKeepsInv(s: State, step: Step)
    requires Inv(s)
    ensures Inv(Next(s, step))
  {
    match step
    case AcquireStep(now, execution) => TryAcquireKeepsInv(s, now, execution);
    case GiveUpStep => RejectKeepsInv(s);
    case CompleteStep(id, outcome, slow, now, jitter) =>
      if id < |s.permits| {
        CompleteKeepsInv(s, id, outcome, slow, now, jitter);
      }
    case CancelStep(id, now) =>
      if id < |s.permits| {
        CancelKeepsInv(s, id, now);
      }
    case SnapshotStep(now) => ExpireDueKeepsInv(s, now);
    case SetModeStep(mode) => RenewKeepsInv(s, s.phase, mode);
    case ResetStep =>
      RenewKeepsInv(s.(window := [], streak := 0, openCount := 0, nextProbeAt := 0), Closed, Normal);
  }

  // ---- Every run ---------------------------------------------------------------------------

  ghost function Run(s: State, steps: seq<Step>): (t: State)
    requires Inv(s)
    ensures Inv(t)
    decreases |steps|
  {
    if steps == [] then s
    else
      NextKeepsInv(s, steps[0]);
      Run(Next(s, steps[0]), steps[1..])
  }

  /** The state of a new breaker after any run. */
  ghost function Reach(c: Config, steps: seq<Step>): (s: State)
    requires ValidPolicy(c.halfOpen)
    ensures Inv(s)
  {
    Run(Init(c), steps)
  }

  /** Registered probes are counted exactly and, with the finished sample, never exceed the bound. */
  lemma ProbesAreBounded(c: Config, steps: seq<Step>)
    requires ValidPolicy(c.halfOpen)
    ensures var s := Reach(c, steps);
            && s.probesActive == |s.probes|
            && s.probesCompleted + s.probesActive <= s.config.halfOpen.maxProbes
            && s.probesCompleted < s.config.halfOpen.maxProbes
            && (forall id :: id in s.probes <==>
                  0 <= id < |s.permits| && s.permits[id].status.Active? && s.permits[id].recording &&
                  s.permits[id].generation == s.generation && s.permits[id].phase.HalfOpen?)
  {
    var s := Reach(c, steps);
  }

  lemma RefreshedProbes(s: State, now: int)
    requires Inv(s) && s.phase.HalfOpen?
    ensures Refresh(s, now).probes == set id | id in s.probes && now < s.permits[id].deadline
  {
    forall id | id in s.probes
      ensures s.permits[id].status.Active?
    {
      assert IsProbe(s.generation, s.permits[id]);
    }
  }

  ghost function Unexpired(s: State, now: int): set<nat> {
    set id | id in s.probes && id < |s.permits| && now < s.permits[id].deadline
  }

  lemma ProbingIsExact(s: State, now: int, execution: bool)
    requires Inv(s) && s.mode.Normal? && s.phase.HalfOpen?
    ensures TryAcquire(s, now, execution).1.Admitted? <==>
              Unexpired(s, now) == {} || s.probesCompleted + |Unexpired(s, now)| < s.config.halfOpen.maxProbes
  {
    RefreshKeepsInv(s, now);
    RefreshedProbes(s, now);
    assert Unexpired(s, now) == Refresh(s, now).probes;
  }

  /**
   Exactly when a caller in normal mode is turned away: the open interval is running, or the
   half-open sample is filled by results and by at least one probe that has not expired.
   */
  lemma AdmissionIsExact(c: Config, steps: seq<Step>, now: int, execution: bool)
    requires ValidPolicy(c.halfOpen)
    ensures var s := Reach(c, steps);
            s.mode.Normal? ==>
              (TryAcquire(s, now, execution).1.Admitted? <==>
               && (s.phase.Open? ==> now >= s.nextProbeAt)
               && (s.phase.HalfOpen? ==>
                     Unexpired(s, now) == {} || s.probesCompleted + |Unexpired(s, now)| < s.config.halfOpen.maxProbes))
  {
    var s := Reach(c, steps);
    RefreshKeepsInv(s, now);
    if s.mode.Normal? && s.phase.HalfOpen? {
      ProbingIsExact(s, now, execution);
    }
  }

  /** Half-open never gets stuck: with no unexpired probe outstanding the next normal-mode caller probes. */
  lemma HalfOpenNeverSticks(c: Config, steps: seq<Step>, now: int, execution: bool)
    requires ValidPolicy(c.halfOpen)
    requires var s := Reach(c, steps);
             s.mode.Normal? && s.phase.HalfOpen? && forall id :: id in s.probes && id < |s.permits| ==>
                 now >= s.permits[id].deadline
    ensures TryAcquire(Reach(c, steps), now, execution).1.Admitted?
  {
    var s := Reach(c, steps);
    AdmissionIsExact(c, steps, now, execution);
    assert Unexpired(s, now) == {};
  }

  /** Completions are counted once per permit, never outnumber admissions, and generations count transitions. */
  lemma CountersAgree(c: Config, steps: seq<Step>)
    requires ValidPolicy(c.halfOpen)
    ensures var s := Reach(c, steps);
            && s.counts.completed == s.counts.successes + s.counts.failures + s.counts.ignored
            && s.counts.completed == Sum(s.permits, CompletedOnce) <= s.counts.admitted == |s.permits|
            && s.generation == s.transitions + 1
  {
    var s := Reach(c, steps);
    SumAtMostLength(s.permits);
  }

  lemma {:induction false} SumAtMostLength(permits: seq<Permit>)
    ensures Sum(permits, CompletedOnce) <= |permits|
  {
    if permits != [] {
      SumAtMostLength(permits[..|permits| - 1]);
    }
  }

  /** Half-open recovery in terms of the sample alone, `n` classified results of which `k` succeeded. */
  predicate Recovered(policy: HalfOpenPolicy, n: int, k: int) {
    if policy.requiredSuccesses > 0 then k >= policy.requiredSuccesses
    else n >= policy.maxProbes && k as real >= policy.successRatio * n as real
  }

  /**
   What a classified probe decides: a failure under ReopenImmediately reopens, a recovered sample
   closes, a full sample that did not recover reopens, and anything else keeps sampling.
   */
  lemma ProbeDecides(c: Config, steps: seq<Step>, id: nat, outcome: Outcome, slow: bool, now: int, jitter: real)
    requires ValidPolicy(c.halfOpen) && id in Reach(c, steps).probes && (outcome.Success? || outcome.Failure?)
    requires id < |Reach(c, steps).permits|
    requires Reach(c, steps).permits[id].execution || now < Reach(c, steps).permits[id].deadline
    ensures var s := Reach(c, steps);
            var policy := s.config.halfOpen;
            var n := s.probesCompleted + 1;
            var k := s.probesSucceeded + (if outcome.Success? then 1 else 0);
            var t := Complete(s, id, outcome, slow, now, jitter).0;
            t.phase == (if outcome.Failure? && policy.failureAction.ReopenImmediately? then Open
                        else if Recovered(policy, n, k) then Closed
                        else if n >= policy.maxProbes then Open
                        else HalfOpen)
  {
    var s := Reach(c, steps);
    assert IsProbe(s.generation, s.permits[id]);
    ProbeIsSampled(s, id, outcome, slow, now, jitter);
    SampleDecides(Sampled(s, id, outcome), outcome, now, jitter);
  }

  function Sampled(s: State, id: nat, outcome: Outcome): State
    requires id < |s.permits|
  {
    Count(s, id, outcome).(probes := s.probes - {id}, probesActive := s.probesActive - 1, signals := s.signals + 1,
                           probesCompleted := s.probesCompleted + 1,
                           probesSucceeded := s.probesSucceeded + (if outcome.Success? then 1 else 0))
  }

  lemma ProbeIsSampled(s: State, id: nat, outcome: Outcome, slow: bool, now: int, jitter: real)
    requires id < |s.permits| && IsProbe(s.generation, s.permits[id]) && s.phase.HalfOpen?
    requires (outcome.Success? || outcome.Failure?) && (s.permits[id].execution || now < s.permits[id].deadline)
    ensures Complete(s, id, outcome, slow, now, jitter).0 == Settle(Sampled(s, id, outcome), outcome, now, jitter)
  {
  }

  lemma SampleDecides(s: State, outcome: Outcome, now: int, jitter: real)
    requires ValidPolicy(s.config.halfOpen) && s.phase.HalfOpen? && s.probesCompleted > 0
    requires outcome.Success? || outcome.Failure?
    requires s.config.halfOpen.failureAction.ReopenImmediately? && outcome.Success? ==>
              s.probesSucceeded == s.probesCompleted
    ensures var policy := s.config.halfOpen;
            Settle(s, outcome, now, jitter).phase ==
            (if outcome.Failure? && policy.failureAction.ReopenImmediately? then Open
             else if Recovered(policy, s.probesCompleted, s.probesSucceeded) then Closed
             else if s.probesCompleted >= policy.maxProbes then Open
             else HalfOpen)
  {
    if outcome.Failure? && s.config.halfOpen.failureAction.ReopenImmediately? {
      assert Settle(s, outcome, now, jitter) == Reopen(s, now, jitter);
    } else if s.config.halfOpen.requiredSuccesses > 0 {
      CountDecides(s, outcome, now, jitter);
    } else {
      ShareDecides(s, outcome, now, jitter);
    }
  }

  lemma CountDecides(s: State, outcome: Outcome, now: int, jitter: real)
    requires ValidPolicy(s.config.halfOpen) && s.phase.HalfOpen? && s.config.halfOpen.requiredSuccesses > 0
    requires outcome.Success? || s.config.halfOpen.failureAction.ReopenAfterSample?
    requires s.config.halfOpen.failureAction.ReopenImmediately? ==> s.probesSucceeded == s.probesCompleted
    ensures Settle(s, outcome, now, jitter).phase ==
            (if s.probesSucceeded >= s.config.halfOpen.requiredSuccesses then Closed
             else if s.probesCompleted >= s.config.halfOpen.maxProbes then Open
             else HalfOpen)
  {
  }

  lemma ShareDecides(s: State, outcome: Outcome, now: int, jitter: real)
    requires ValidPolicy(s.config.halfOpen) && s.phase.HalfOpen? && s.config.halfOpen.requiredSuccesses <= 0
    requires s.probesCompleted > 0 && (outcome.Success? || s.config.halfOpen.failureAction.ReopenAfterSample?)
    ensures Settle(s, outcome, now, jitter).phase ==
            (if s.probesCompleted < s.config.halfOpen.maxProbes then HalfOpen
             else if s.probesSucceeded as real >= s.config.halfOpen.successRatio * s.probesCompleted as real then Closed
             else Open)
  {
    ShareAgainstRatio(s.probesSucceeded, s.probesCompleted, s.config.halfOpen.successRatio);
  }

  lemma ShareAgainstRatio(k: int, n: int, ratio: real)
    requires n > 0
    ensures k as real / n as real >= ratio <==> k as real >= ratio * n as real
  {
    var share := k as real / n as real;
    assert share * n as real == k as real;
    if share >= ratio {
      assert (share - ratio) * n as real >= 0.0;
    } else {
      assert (ratio - share) * n as real > 0.0;
    }
  }

  /** Everything except permit statuses and lifetime counters. */
  ghost predicate SameControl(s: State, t: State) {
    t == s.(permits := t.permits, counts := t.counts)
  }

  lemma ConcludeTouches(s: State, id: nat, outcome: Outcome, slow: bool, now: int, jitter: real)
    requires id < |s.permits|
    ensures Conclude(s, id, outcome, slow, now, jitter).permits == s.permits[id := s.permits[id].(status := Completed)]
  {
  }

  lemma StaleConclusion(s: State, id: nat, outcome: Outcome, slow: bool, now: int, jitter: real)
    requires id < |s.permits| && id !in s.probes
    requires s.permits[id].generation < s.generation || !s.permits[id].recording
    ensures Conclude(s, id, outcome, slow, now, jitter) == Count(s, id, outcome)
  {
    assert s.probes - {id} == s.probes;
  }

  /** A permit of an older generation, or one that does not record, moves only its own status and the counters. */
  lemma StaleCompletionIsInert(s: State, id: nat, outcome: Outcome, slow: bool, now: int, jitter: real)
    requires Inv(s) && id < |s.permits|
    requires s.permits[id].generation < s.generation || !s.permits[id].recording
    ensures var t := Complete(s, id, outcome, slow, now, jitter).0;
            SameControl(s, t) && t.permits == s.permits[id := s.permits[id].(status := t.permits[id].status)]
  {
    assert !IsProbe(s.generation, s.permits[id]);
    StaleConclusion(s, id, outcome, slow, now, jitter);
  }

  lemma StaleCancellationIsInert(s: State, id: nat, now: int)
    requires Inv(s) && id < |s.permits|
    requires s.permits[id].generation < s.generation || !s.permits[id].recording
    ensures var t := Cancel(s, id, now).0;
            t == s.(permits := s.permits[id := s.permits[id].(status := t.permits[id].status)])
  {
    assert !IsProbe(s.generation, s.permits[id]);
  }

  predicate Follows(before: Permit, after: Permit) {
    && after == before.(status := after.status)
    && (after.status == before.status || before.status.Active? ||
        (before.status.Expired? && before.execution && after.status.Completed?))
  }

  ghost predicate AllFollow(before: seq<Permit>, after: seq<Permit>) {
    |before| <= |after| && forall i :: 0 <= i < |before| ==> Follows(before[i], after[i])
  }

  lemma CompletePermits(s: State, id: nat, outcome: Outcome, slow: bool, now: int, jitter: real)
    requires id < |s.permits|
    ensures AllFollow(s.permits, Complete(s, id, outcome, slow, now, jitter).0.permits)
  {
    ConcludeTouches(s, id, outcome, slow, now, jitter);
  }

  lemma RefreshPermits(s: State, now: int)
    ensures AllFollow(s.permits, Refresh(s, now).permits) && |Refresh(s, now).permits| == |s.permits|
  {
  }

  lemma ProbePermits(before: seq<Permit>, t: State, now: int, execution: bool)
    requires AllFollow(before, t.permits)
    ensures AllFollow(before, TryProbe(t, now, execution).0.permits)
  {
  }

  lemma NormalPermits(s: State, now: int, execution: bool)
    requires s.mode.Normal? && !(s.phase.Open? && now < s.nextProbeAt)
    ensures AllFollow(s.permits, TryAcquire(s, now, execution).0.permits)
  {
    RefreshPermits(s, now);
    ProbePermits(s.permits, Refresh(s, now), now, execution);
  }

  lemma AcquirePermits(s: State, now: int, execution: bool)
    ensures AllFollow(s.permits, TryAcquire(s, now, execution).0.permits)
  {
    if s.mode.Normal? && !(s.phase.Open? && now < s.nextProbeAt) {
      NormalPermits(s, now, execution);
    }
  }

  lemma CancelPermits(s: State, id: nat, now: int)
    requires id < |s.permits|
    ensures AllFollow(s.permits, Cancel(s, id, now).0.permits)
  {
  }

  lemma SnapshotPermits(s: State, now: int)
    ensures AllFollow(s.permits, ExpireDue(s, now).permits)
  {
  }

  /** No step forgets or revives a permit: only a managed execution that expired may still be counted. */
  lemma StatusIsFinal(s: State, step: Step)
    ensures AllFollow(s.permits, Next(s, step).permits)
  {
    match step
    case CompleteStep(id, outcome, slow, now, jitter) =>
      if id < |s.permits| {
        CompletePermits(s, id, outcome, slow, now, jitter);
      }
    case AcquireStep(now, execution) =>
      AcquirePermits(s, now, execution);
    case CancelStep(id, now) =>
      if id < |s.permits| {
        CancelPermits(s, id, now);
      }
    case SnapshotStep(now) =>
      SnapshotPermits(s, now);
    case _ =>
  }
}

/** pkg/circuit-breaker as the object its callers share; every method is one critical section. */
module CircuitBreakerService {
  import opened C = CircuitBreaker
  import Safety = CircuitBreakerSafety
  import Opening = CircuitBreakerOpening

  class Breaker {
    const config: Config
    var phase: Phase
    var mode: Mode
    var generation: nat
    var transitions: nat
    var streak: nat
    var openCount: nat
    var nextProbeAt: int
    var probesActive: int
    var probesCompleted: int
    var probesSucceeded: int
    var counts: Counts
    var probes: set<nat>
    var window: seq<Record>
    var permits: seq<Permit>
    /** Which channel `changed` is: how many have been closed and replaced. */
    var signals: nat

    ghost function Model(): State
      reads this
    {
      State(config, phase, mode, generation, transitions, streak, openCount, nextProbeAt, probesActive,
            probesCompleted, probesSucceeded, counts, probes, window, permits, signals)
    }

    constructor (c: Config)
      requires ValidPolicy(c.halfOpen)
      ensures Model() == Init(c)
    {
      config := c;
      phase, mode, generation, transitions, streak, openCount, nextProbeAt := Closed, Normal, 1, 0, 0, 0, 0;
      probesActive, probesCompleted, probesSucceeded := 0, 0, 0;
      counts := Counts(0, 0, 0, 0, 0, 0);
      probes, window, permits, signals := {}, [], [], 0;
    }

    /** signalLocked: closes the channel that sleeping callers wait on, and makes the next one. */
    method Signal()
      modifies `signals
      ensures signals == old(signals) + 1
    {
      signals := signals + 1;
    }

    /** transitionLocked without the caller's mutation. */
    method BeginGeneration()
      modifies this
      ensures Model() == Renew(old(Model()))
    {
      generation := generation + 1;
      transitions := transitions + 1;
      probesActive, probesCompleted, probesSucceeded := 0, 0, 0;
      probes := {};
      Signal();
    }

    /** openLocked */
    method OpenFor(now: int, jitter: real)
      modifies this
      ensures Model() == Reopen(old(Model()), now, jitter)
    {
      openCount := openCount + 1;
      nextProbeAt := now + config.openFor(openCount, jitter);
      phase := Open;
      BeginGeneration();
    }

    /** closeLocked */
    method CloseFresh()
      modifies this
      ensures Model() == Recover(old(Model()))
    {
      window := [];
      streak, openCount, nextProbeAt := 0, 0, 0;
      phase := Closed;
      BeginGeneration();
    }

    /** Back to a closed breaker with an empty record: every permit out there is stale, and every caller is admitted. */
    method Reset()
      requires Inv(Model())
      modifies this
      ensures Inv(Model()) && mode.Normal? && phase.Closed? && window == [] && streak == 0 && openCount == 0
      ensures generation == old(generation) + 1 && AllStale(generation, permits)
      ensures permits == old(permits) && counts == old(counts)
      ensures forall now, execution :: C.TryAcquire(Model(), now, execution).1.Admitted?
    {
      ResetMeans(Model());
      mode := Normal;
      CloseFresh();
    }

    /** A new mode makes every permit out there stale and forgets the sample, and keeps the policy's record. */
    method SetMode(m: Mode)
      requires Inv(Model())
      modifies this
      ensures Inv(Model()) && mode == m && permits == old(permits) && counts == old(counts)
      ensures phase == old(phase) && window == old(window) && streak == old(streak) && openCount == old(openCount)
      ensures old(mode) == m ==> Model() == old(Model())
      ensures old(mode) != m ==>
                && generation == old(generation) + 1 && AllStale(generation, permits)
                && probes == {} && probesCompleted == 0
      ensures m.ForceOpen? || m.Isolated? ==> forall now, execution :: C.TryAcquire(Model(), now, execution).1.Rejected?
      ensures m.Disabled? ==> forall now, execution :: C.TryAcquire(Model(), now, execution).1.Admitted?
    {
      SetModeMeans(Model(), m);
      if mode == m {
        return;
      }
      mode := m;
      BeginGeneration();
    }

    /** releaseHalfOpenLocked after the permit's status was set. */
    method Release(id: nat, status: Status)
      requires id < |permits|
      modifies `permits, `probes, `probesActive, `signals
      ensures Model() == Drop(old(Model()), id, status)
    {
      var p := permits[id];
      permits := permits[id := p.(status := status)];
      if p.phase != HalfOpen || p.generation != generation || p.phase != phase {
        return;
      }
      if id !in probes {
        return;
      }
      probes := probes - {id};
      probesActive := probesActive - 1;
      Signal();
    }

    /** expireHalfOpenLocked */
    method ExpireHalfOpen(now: int)
      requires Registered(generation, probes, permits) && phase.HalfOpen?
      modifies `permits, `probes, `probesActive, `signals
      ensures Model() == ExpireDue(old(Model()), now)
    {
      ghost var s := Model();
      forall id | id in s.probes
        ensures id in Due(s, now) <==> IsLate(s, id, now)
      {
        ProbeIsDue(s, id, now);
      }
      ExpireNone(s);
      VisitProbes(now, s, Due(s, now));
    }

    /** Visits the probe set in arbitrary order. */
    method VisitProbes(now: int, ghost s: State, ghost due: set<nat>)
      requires Registered(s.generation, s.probes, s.permits) && s.phase.HalfOpen?
      requires probes == s.probes && Model() == ExpireSome(s, {})
      requires due <= s.probes && forall id :: id in s.probes ==> (id in due <==> IsLate(s, id, now))
      modifies `permits, `probes, `probesActive, `signals
      ensures Model() == ExpireSome(s, due)
    {
      ghost var gone := {};
      var todo := probes;
      while todo != {}
        invariant todo <= s.probes && gone == due - todo
        invariant Model() == ExpireSome(s, gone)
        decreases todo
      {
        var id :| id in todo;
        OneGone(due, todo, id);
        todo := todo - {id};
        gone := ExpireIfLate(id, now, s, gone);
      }
      assert gone == due;
    }

    /** One turn of the visit. */
    method ExpireIfLate(id: nat, now: int, ghost s: State, ghost gone0: set<nat>) returns (ghost gone: set<nat>)
      requires Registered(s.generation, s.probes, s.permits) && s.phase.HalfOpen?
      requires id in s.probes && id !in gone0 && Model() == ExpireSome(s, gone0)
      modifies `permits, `probes, `probesActive, `signals
      ensures gone == (if IsLate(s, id, now) then gone0 + {id} else gone0) && Model() == ExpireSome(s, gone)
    {
      ProbeIsDue(s, id, now);
      ExpireOneMore(s, gone0, id);
      gone := gone0;
      if now >= permits[id].deadline {
        gone := gone0 + {id};
        Release(id, Expired);
      }
    }

    /** One turn of a caller that wants a permit: what it is told, and what it gets. */
    method TryAcquire(now: int, execution: bool) returns (verdict: Verdict)
      requires Inv(Model())
      modifies this
      ensures Inv(Model()) && Opening.Answers(old(Model()), now, execution, Model(), verdict)
    {
      Safety.TryAcquireKeepsInv(Model(), now, execution);
      Opening.VerdictIsExact(Model(), now, execution);
      verdict := TryAcquireLocked(now, execution);
    }

    /** tryAcquireLocked */
    method TryAcquireLocked(now: int, execution: bool) returns (verdict: Verdict)
      requires Registered(generation, probes, permits) && Epoch(generation, phase, mode, permits)
      modifies this
      ensures (Model(), verdict) == C.TryAcquire(old(Model()), now, execution)
    {
      match mode
      case ForceOpen =>
        counts := counts.(rejected := counts.rejected + 1);
        return Rejected(BecauseForceOpen);
      case Isolated =>
        counts := counts.(rejected := counts.rejected + 1);
        return Rejected(BecauseIsolated);
      case Disabled =>
        verdict := Admitted(|permits|);
        permits := permits + [Permit(generation, phase, now + config.permitTTL, false, execution, Active)];
        counts := counts.(admitted := counts.admitted + 1);
      case Normal =>
        verdict := Probe(now, execution);
    }

    /** The state changes tryAcquireLocked makes before it looks for capacity. */
    method RefreshPhase(now: int)
      requires Registered(generation, probes, permits) && Epoch(generation, phase, mode, permits)
      requires phase.Open? ==> now >= nextProbeAt
      modifies this
      ensures Model() == Refresh(old(Model()), now)
    {
      if phase == Open {
        phase := HalfOpen;
        BeginGeneration();
      }
      if phase == HalfOpen {
        ExpireHalfOpen(now);
      }
    }

    /** tryAcquireLocked in normal mode. */
    method Probe(now: int, execution: bool) returns (verdict: Verdict)
      requires Registered(generation, probes, permits) && Epoch(generation, phase, mode, permits) && mode.Normal?
      modifies this
      ensures (Model(), verdict) == C.TryAcquire(old(Model()), now, execution)
    {
      if phase == Open && now < nextProbeAt {
        counts := counts.(rejected := counts.rejected + 1);
        return Rejected(BecauseOpen);
      }
      RefreshPhase(now);
      verdict := AdmitOrRefuse(now, execution);
    }

    method AdmitOrRefuse(now: int, execution: bool) returns (verdict: Verdict)
      modifies this
      ensures (Model(), verdict) == TryProbe(old(Model()), now, execution)
    {
      if phase == HalfOpen && probesCompleted + probesActive >= config.halfOpen.maxProbes {
        if config.waitForProbe {
          return MustWait;
        }
        counts := counts.(rejected := counts.rejected + 1);
        return Rejected(Exhausted);
      }
      verdict := Admitted(|permits|);
      Admit(now, execution);
    }

    method Admit(now: int, execution: bool)
      modifies this
      ensures Model() == IssueRecording(old(Model()), now, execution)
    {
      if phase == HalfOpen {
        probesActive := probesActive + 1;
        probes := probes + {|permits|};
      }
      permits := permits + [Permit(generation, phase, now + config.permitTTL, true, execution, Active)];
      counts := counts.(admitted := counts.admitted + 1);
    }

    /** recordLifetimeLocked with the status change. */
    method CountCompletion(id: nat, outcome: Outcome)
      requires id < |permits|
      modifies this
      ensures Model() == Count(old(Model()), id, outcome)
    {
      permits := permits[id := permits[id].(status := Completed)];
      counts := Tick(counts, outcome);
    }

    /** completeHalfOpenLocked up to the recovery decision. */
    method CompleteHalfOpen(outcome: Outcome, now: int, jitter: real)
      modifies this
      ensures Model() == CompleteProbe(old(Model()), outcome, now, jitter)
      ensures Opening.DecidesSample(old(Model()), outcome, now, jitter, Model())
    {
      Opening.ProbeDecidesSample(Model(), outcome, now, jitter);
      LeaveSample();
      if outcome == Ignored {
        return;
      }
      CountProbe(outcome);
      SettleSample(outcome, now, jitter);
    }

    method LeaveSample()
      modifies `probesActive, `signals
      ensures Model() == old(Model()).(probesActive := old(probesActive) - 1, signals := old(signals) + 1)
    {
      probesActive := probesActive - 1;
      Signal();
    }

    method CountProbe(outcome: Outcome)
      modifies `probesCompleted, `probesSucceeded
      ensures Model() == old(Model()).(probesCompleted := old(probesCompleted) + 1,
                                       probesSucceeded := old(probesSucceeded) + (if outcome.Success? then 1 else 0))
    {
      probesCompleted := probesCompleted + 1;
      if outcome == Success {
        probesSucceeded := probesSucceeded + 1;
      }
    }

    /** The recovery decision of completeHalfOpenLocked. */
    method SettleSample(outcome: Outcome, now: int, jitter: real)
      modifies this
      ensures Model() == Settle(old(Model()), outcome, now, jitter)
    {
      var policy := config.halfOpen;
      if outcome != Success && policy.failureAction == ReopenImmediately {
        OpenFor(now, jitter);
        return;
      }
      if policy.requiredSuccesses > 0 && probesSucceeded >= policy.requiredSuccesses {
        CloseFresh();
        return;
      }
      if policy.successRatio > 0.0 && probesCompleted >= policy.maxProbes {
        var share := if probesCompleted == 0 then 0.0 else probesSucceeded as real / probesCompleted as real;
        if share >= policy.successRatio {
          CloseFresh();
        } else {
          OpenFor(now, jitter);
        }
        return;
      }
      if policy.failureAction == ReopenAfterSample && probesCompleted >= policy.maxProbes {
        OpenFor(now, jitter);
      }
    }

    method CompleteInWindow(outcome: Outcome, slow: bool, now: int, jitter: real)
      modifies this
      ensures Model() == CompleteClosed(old(Model()), outcome, slow, now, jitter)
    {
      window := window + [Record(outcome, slow && outcome != Ignored, now)];
      match outcome {
        case Success => streak := 0;
        case Failure => streak := streak + 1;
        case _ =>
          if config.ignoredResetsStreak {
            streak := 0;
          }
      }
      if config.opens(window, streak, now) {
        OpenFor(now, jitter);
      }
    }

    /** Completes a permit: it is settled once and counted, and moves the breaker as the policy says. */
    method Complete(id: nat, outcome: Outcome, slow: bool, now: int, jitter: real) returns (reply: Reply)
      requires Inv(Model()) && id < |permits|
      modifies this
      ensures Inv(Model()) && Opening.Completes(old(Model()), id, outcome, now, Model(), reply)
      ensures old(Opening.NoneOpen(permits)) ==>
                && Opening.NoneOpen(permits)
                && Opening.Moves(old(Model()), CompleteStep(id, outcome, slow, now, jitter), Model())
    {
      Safety.CompleteKeepsInv(Model(), id, outcome, slow, now, jitter);
      Opening.CompleteSettles(Model(), id, outcome, slow, now, jitter);
      if Opening.NoneOpen(permits) {
        Opening.StepMoves(Model(), CompleteStep(id, outcome, slow, now, jitter));
        Opening.StepKeepsNoneOpen(Model(), CompleteStep(id, outcome, slow, now, jitter));
      }
      reply := CompleteAt(id, outcome, slow, now, jitter);
    }

    /** completeAt */
    method CompleteAt(id: nat, outcome: Outcome, slow: bool, now: int, jitter: real) returns (reply: Reply)
      requires id < |permits|
      modifies this
      ensures (Model(), reply) == C.Complete(old(Model()), id, outcome, slow, now, jitter)
    {
      if outcome == UnknownOutcome {
        return InvalidOutcome;
      }
      var p := permits[id];
      if p.status == Completed {
        return AlreadyCompleted;
      }
      if p.status == Canceled {
        return AlreadyCanceled;
      }
      if p.status == Expired {
        if p.execution {
          CountCompletion(id, outcome);
          return Accepted;
        }
        return AlreadyExpired;
      }
      if !p.execution && now >= p.deadline {
        Release(id, Expired);
        return AlreadyExpired;
      }
      CompleteLive(id, outcome, slow, now, jitter);
      return Accepted;
    }

    method CompleteLive(id: nat, outcome: Outcome, slow: bool, now: int, jitter: real)
      requires id < |permits| && !outcome.UnknownOutcome?
      modifies this
      ensures Model() == Conclude(old(Model()), id, outcome, slow, now, jitter)
    {
      var p := permits[id];
      CountCompletion(id, outcome);
      var current := p.generation == generation && p.phase == phase;
      if p.phase == HalfOpen && current {
        probes := probes - {id};
      }
      if !p.recording {
        return;
      }
      if !current {
        return;
      }
      if phase == HalfOpen {
        CompleteHalfOpen(outcome, now, jitter);
      } else {
        CompleteInWindow(outcome, slow, now, jitter);
      }
    }

    /** Cancels a permit that is not settled, and gives its place in the sample back. */
    method Cancel(id: nat, now: int) returns (reply: Reply)
      requires Inv(Model()) && id < |permits|
      modifies this
      ensures Inv(Model()) && Opening.Cancels(old(Model()), id, now, Model(), reply)
    {
      Safety.CancelKeepsInv(Model(), id, now);
      Opening.CancelSettles(Model(), id, now);
      reply := CancelAt(id, now);
    }

    /** cancelAt */
    method CancelAt(id: nat, now: int) returns (reply: Reply)
      requires id < |permits|
      modifies this
      ensures (Model(), reply) == C.Cancel(old(Model()), id, now)
    {
      var p := permits[id];
      match p.status
      case Completed => return AlreadyCompleted;
      case Canceled => return AlreadyCanceled;
      case Expired => return AlreadyExpired;
      case Active =>
        if now >= p.deadline {
          Release(id, Expired);
          return AlreadyExpired;
        }
        Release(id, Canceled);
        return Accepted;
    }
  }

  /** No permit belongs to the current generation. */
  ghost predicate AllStale(generation: nat, permits: seq<Permit>) {
    forall i :: 0 <= i < |permits| ==> permits[i].generation < generation
  }

  lemma ResetMeans(s: State)
    requires Inv(s)
    ensures Inv(C.Reset(s)) && AllStale(C.Reset(s).generation, s.permits)
  {
    Safety.NextKeepsInv(s, ResetStep);
  }

  lemma SetModeMeans(s: State, mode: Mode)
    requires Inv(s)
    ensures Inv(C.SetMode(s, mode))
    ensures s.mode != mode ==> AllStale(C.SetMode(s, mode).generation, s.permits)
  {
    Safety.NextKeepsInv(s, SetModeStep(mode));
  }

  ghost predicate IsLate(s: State, id: nat, now: int) {
    id < |s.permits| && now >= s.permits[id].deadline
  }

  lemma ProbeIsDue(s: State, id: nat, now: int)
    requires Registered(s.generation, s.probes, s.permits) && id in s.probes
    ensures id < |s.permits| && IsProbe(s.generation, s.permits[id])
    ensures id in Due(s, now) <==> now >= s.permits[id].deadline
  {
  }

  lemma OneGone(due: set<nat>, todo: set<nat>, id: nat)
    requires id in todo
    ensures id !in due - todo
    ensures due - (todo - {id}) == if id in due then (due - todo) + {id} else due - todo
  {
  }

  lemma ExpireNone(s: State)
    ensures ExpireSome(s, {}) == s
  {
    assert ExpireSome(s, {}).permits == s.permits;
  }

  lemma ExpireOneMore(s: State, gone: set<nat>, id: nat)
    requires id in s.probes && id !in gone && id < |s.permits|
    requires s.phase.HalfOpen? && IsProbe(s.generation, s.permits[id])
    ensures Drop(ExpireSome(s, gone), id, Expired) == ExpireSome(s, gone + {id})
  {
    var t := Drop(ExpireSome(s, gone), id, Expired);
    assert t.permits == ExpireSome(s, gone + {id}).permits;
    assert t.probes == s.probes - (gone + {id});
  }
}

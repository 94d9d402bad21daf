/**
 When the breaker opens, for how long it stays open, and on what record: said of the steps that were taken, not of the
 fields that remember them. Beside it, what each call tells its caller and does to its permit.
 */
module CircuitBreakerOpening {
  import opened CircuitBreaker
  import opened CircuitBreakerSafety

  // ---- Permits that record -----------------------------------------------------------------

  /** A permit that records was given out while the breaker was closed or half-open. */
  ghost predicate NoneOpen(permits: seq<Permit>) {
    forall i :: 0 <= i < |permits| ==> !(permits[i].recording && permits[i].phase.Open?)
  }

  lemma FollowersNoneOpen(before: seq<Permit>, after: seq<Permit>)
    requires NoneOpen(before) && AllFollow(before, after)
    requires forall i :: |before| <= i < |after| ==> !(after[i].recording && after[i].phase.Open?)
    ensures NoneOpen(after)
  {
    forall i | 0 <= i < |after|
      ensures !(after[i].recording && after[i].phase.Open?)
    {
      if i < |before| {
        assert Follows(before[i], after[i]);
      }
    }
  }

  /** What a caller that is let in gets. */
  predicate IsNewPermit(s: State, p: Permit, now: int, execution: bool) {
    && p.generation == s.generation && p.phase == s.phase && p.deadline == now + s.config.permitTTL
    && p.status.Active? && p.execution == execution && (p.recording <==> s.mode.Normal?)
  }

  lemma RefreshPhase(s: State, now: int)
    requires s.phase.Open? ==> now >= s.nextProbeAt
    ensures var t := Refresh(s, now);
            && t.mode == s.mode && t.config == s.config && |t.permits| == |s.permits|
            && t.phase == (if s.phase.Open? then HalfOpen else s.phase) && t.counts == s.counts
            && t.generation == s.generation + (if s.phase.Open? then 1 else 0)
            && t.window == s.window && t.streak == s.streak && t.openCount == s.openCount
            && t.nextProbeAt == s.nextProbeAt && t.probesCompleted == (if s.phase.Open? then 0 else s.probesCompleted)
  {
  }

  /** Whoever is admitted gets a new live permit of the state after the call, and nobody else gets one. */
  lemma AdmissionGivesPermit(s: State, now: int, execution: bool)
    ensures var (t, verdict) := TryAcquire(s, now, execution);
            && (verdict.Admitted? ==>
                  && verdict.permit == |s.permits| && |t.permits| == |s.permits| + 1
                  && IsNewPermit(t, t.permits[verdict.permit], now, execution)
                  && (s.mode.Normal? ==> !t.phase.Open?))
            && (!verdict.Admitted? ==> |t.permits| == |s.permits|)
  {
    if s.mode.Normal? && !(s.phase.Open? && now < s.nextProbeAt) {
      RefreshPhase(s, now);
    }
  }

  lemma StepKeepsNoneOpen(s: State, step: Step)
    requires NoneOpen(s.permits)
    ensures NoneOpen(Next(s, step).permits)
  {
    StatusIsFinal(s, step);
    if step.AcquireStep? {
      AdmissionGivesPermit(s, step.now, step.execution);
    } else {
      OnlyAcquiringAdds(s, step);
    }
    FollowersNoneOpen(s.permits, Next(s, step).permits);
  }

  lemma OnlyAcquiringAdds(s: State, step: Step)
    requires !step.AcquireStep?
    ensures |Next(s, step).permits| == |s.permits|
  {
    if step.CompleteStep? && step.permit < |s.permits| {
      ConcludeTouches(s, step.permit, step.outcome, step.slow, step.completedAt, step.jitter);
    }
  }

  // ---- What a step does to the record ------------------------------------------------------

  /** The completion counts: the permit is live, known to record, and of this generation. */
  predicate Counts(s: State, step: Step) {
    && step.CompleteStep? && step.permit < |s.permits| && !step.outcome.UnknownOutcome?
    && var p := s.permits[step.permit];
       && p.status.Active? && (p.execution || step.completedAt < p.deadline)
       && p.recording && p.generation == s.generation && p.phase == s.phase
  }

  /** A result of normal operation: it goes into the window. */
  predicate Samples(s: State, step: Step) {
    Counts(s, step) && s.phase.Closed?
  }

  function RecordOf(step: Step): Record
    requires step.CompleteStep?
  {
    Record(step.outcome, step.slow && !step.outcome.Ignored?, step.completedAt)
  }

  /** The failures at the end of the record, whether or not an ignored result interrupts them. */
  function Streak(records: seq<Record>, ignoredResets: bool): nat {
    if records == [] then 0
    else
      match records[|records| - 1].outcome
      case Success => 0
      case Failure => Streak(records[..|records| - 1], ignoredResets) + 1
      case _ => if ignoredResets then 0 else Streak(records[..|records| - 1], ignoredResets)
  }

  ghost predicate SameRecord(s: State, t: State) {
    t.window == s.window && t.streak == s.streak
  }

  ghost predicate SameClock(s: State, t: State) {
    t.openCount == s.openCount && t.nextProbeAt == s.nextProbeAt
  }

  /** The breaker opens at `now`, once more than before. */
  ghost predicate OpensAt(s: State, t: State, now: int, jitter: real) {
    t.phase.Open? && t.openCount == s.openCount + 1 && t.nextProbeAt == now + s.config.openFor(s.openCount + 1, jitter)
  }

  ghost predicate StartsOver(t: State) {
    t.phase.Closed? && t.window == [] && t.streak == 0 && t.openCount == 0
  }

  /** Everything that a completion or another step may do to phase, record and clock. */
  ghost predicate Moves(s: State, step: Step, t: State) {
    if step.ResetStep? then StartsOver(t)
    else if Samples(s, step) then
      var records := s.window + [RecordOf(step)];
      var streak := match step.outcome {
                      case Success => 0
                      case Failure => s.streak + 1
                      case _ => if s.config.ignoredResetsStreak then 0 else s.streak
                    };
      && t.window == records && t.streak == streak
      && (if s.config.opens(records, streak, step.completedAt) then OpensAt(s, t, step.completedAt, step.jitter)
          else t.phase.Closed? && SameClock(s, t))
    else if Counts(s, step) then
      || StartsOver(t)
      || (SameRecord(s, t) && OpensAt(s, t, step.completedAt, step.jitter))
      || (SameRecord(s, t) && SameClock(s, t) && t.phase == s.phase)
    else
      && SameRecord(s, t) && SameClock(s, t)
      && t.phase == if step.AcquireStep? && s.mode.Normal? && s.phase.Open? && step.now >= s.nextProbeAt then HalfOpen
                    else s.phase
  }

  lemma SampleMoves(s: State, step: Step)
    requires Samples(s, step)
    ensures Moves(s, step, Next(s, step))
  {
  }

  lemma ProbeMoves(s: State, step: Step)
    requires Counts(s, step) && s.phase.HalfOpen?
    ensures Moves(s, step, Next(s, step))
  {
    if !step.outcome.Ignored? {
      ProbeIsSampled(s, step.permit, step.outcome, step.slow, step.completedAt, step.jitter);
      SettleMoves(Sampled(s, step.permit, step.outcome), step.outcome, step.completedAt, step.jitter);
    }
  }

  lemma SettleMoves(s: State, outcome: Outcome, now: int, jitter: real)
    ensures var t := Settle(s, outcome, now, jitter);
            StartsOver(t) || (SameRecord(s, t) && OpensAt(s, t, now, jitter)) || t == s
  {
  }

  lemma OtherCompletionStays(s: State, step: Step)
    requires Inv(s) && NoneOpen(s.permits) && step.CompleteStep? && !Counts(s, step)
    ensures var t := Next(s, step); SameRecord(s, t) && SameClock(s, t) && t.phase == s.phase
  {
  }

  lemma AcquireMoves(s: State, step: Step)
    requires step.AcquireStep?
    ensures Moves(s, step, Next(s, step))
  {
    if s.mode.Normal? && !(s.phase.Open? && step.now < s.nextProbeAt) {
      RefreshPhase(s, step.now);
    }
  }

  lemma StepMoves(s: State, step: Step)
    requires Inv(s) && NoneOpen(s.permits)
    ensures Moves(s, step, Next(s, step)) && Next(s, step).config == s.config
  {
    StepKeepsConfig(s, step);
    if step.CompleteStep? {
      if Samples(s, step) {
        SampleMoves(s, step);
      } else if Counts(s, step) {
        ProbeMoves(s, step);
      } else {
        OtherCompletionStays(s, step);
      }
    } else if step.AcquireStep? {
      AcquireMoves(s, step);
    }
  }

  lemma StepKeepsConfig(s: State, step: Step)
    ensures Next(s, step).config == s.config
  {
  }

  // ---- Openings over whole runs ------------------------------------------------------------

  ghost predicate Opened(s: State, t: State) {
    !s.phase.Open? && t.phase.Open?
  }

  ghost function Tally(s: State, t: State, k: nat): nat {
    if t.phase.Closed? then 0 else if Opened(s, t) then k + 1 else k
  }

  /** Openings since the breaker was last closed, if there were `k` before these steps. */
  ghost function OpeningsFrom(s: State, k: nat, steps: seq<Step>): nat
    decreases |steps|
  {
    if steps == [] then k
    else
      var t := Next(s, steps[0]);
      OpeningsFrom(t, Tally(s, t, k), steps[1..])
  }

  /** Openings since the breaker was last closed or reset, over a run of a new breaker. */
  ghost function Openings(c: Config, steps: seq<Step>): nat {
    OpeningsFrom(Init(c), 0, steps)
  }

  ghost predicate Sound(s: State) {
    && Inv(s) && NoneOpen(s.permits) && (s.phase.Closed? ==> s.openCount == 0)
    && s.streak == Streak(s.window, s.config.ignoredResetsStreak)
  }

  lemma StreakNext(records: seq<Record>, r: Record, ignoredResets: bool)
    ensures Streak(records + [r], ignoredResets) ==
            match r.outcome {
              case Success => 0
              case Failure => Streak(records, ignoredResets) + 1
              case _ => if ignoredResets then 0 else Streak(records, ignoredResets)
            }
  {
    assert (records + [r])[..|records|] == records;
  }

  lemma StepKeepsSound(s: State, step: Step)
    requires Sound(s)
    ensures Sound(Next(s, step))
  {
    NextKeepsInv(s, step);
    StepKeepsNoneOpen(s, step);
    StepMoves(s, step);
    if Samples(s, step) {
      StreakNext(s.window, RecordOf(step), s.config.ignoredResetsStreak);
    }
  }

  lemma StepTallies(s: State, step: Step)
    requires Sound(s)
    ensures var t := Next(s, step); Sound(t) && t.config == s.config && t.openCount == Tally(s, t, s.openCount)
  {
    StepKeepsSound(s, step);
    StepMoves(s, step);
  }

  lemma {:induction false} RunKeepsSound(s: State, steps: seq<Step>)
    requires Sound(s)
    ensures Sound(Run(s, steps)) && Run(s, steps).config == s.config
    ensures Run(s, steps).openCount == OpeningsFrom(s, s.openCount, steps)
    decreases |steps|
  {
    if steps != [] {
      StepTallies(s, steps[0]);
      RunKeepsSound(Next(s, steps[0]), steps[1..]);
    }
  }

  lemma NewIsSound(s: State)
    requires Inv(s) && s.permits == [] && s.window == [] && s.streak == 0 && s.openCount == 0
    ensures Sound(s)
  {
  }

  lemma InitIsSound(c: Config)
    requires ValidPolicy(c.halfOpen)
    ensures Sound(Init(c))
  {
    NewIsSound(Init(c));
  }

  lemma ReachIsSound(c: Config, steps: seq<Step>)
    requires ValidPolicy(c.halfOpen)
    ensures Sound(Reach(c, steps)) && Reach(c, steps).config == c && Reach(c, steps).openCount == Openings(c, steps)
  {
    InitIsSound(c);
    RunKeepsSound(Init(c), steps);
  }

  /**
   Whenever the breaker opens, in any run, it is by a completion, and the open interval that then begins is the one for
   as many openings as there were since the breaker was last closed, this one included.
   */
  lemma OpeningSetsInterval(c: Config, steps: seq<Step>, step: Step)
    requires ValidPolicy(c.halfOpen) && Opened(Reach(c, steps), Next(Reach(c, steps), step))
    ensures step.CompleteStep?
    ensures Next(Reach(c, steps), step).nextProbeAt ==
            step.completedAt + c.openFor(Openings(c, steps) + 1, step.jitter)
  {
    ReachIsSound(c, steps);
    StepMoves(Reach(c, steps), step);
  }

  /** Somebody asked at or after `from`, or the breaker was reset. */
  ghost predicate EndsInterval(steps: seq<Step>, from: int) {
    exists i :: 0 <= i < |steps| && (steps[i].ResetStep? || (steps[i].AcquireStep? && steps[i].now >= from))
  }

  lemma {:induction false} StaysOpen(s: State, steps: seq<Step>)
    requires Sound(s) && s.phase.Open? && !EndsInterval(steps, s.nextProbeAt)
    ensures Run(s, steps).phase.Open? && Run(s, steps).nextProbeAt == s.nextProbeAt
    decreases |steps|
  {
    if steps != [] {
      var t, rest := Next(s, steps[0]), steps[1..];
      StepKeepsSound(s, steps[0]);
      StepMoves(s, steps[0]);
      assert !Counts(s, steps[0]);
      assert forall i :: 0 <= i < |rest| ==> rest[i] == steps[i + 1];
      StaysOpen(t, rest);
    }
  }

  /**
   After an opening at `now` every caller in normal mode is refused as open at every time before the interval is over,
   whatever else happens, until somebody has asked after that time or the breaker was reset.
   */
  lemma OpenIntervalIsKept(c: Config, before: seq<Step>, step: Step, after: seq<Step>, now: int, execution: bool)
    requires ValidPolicy(c.halfOpen) && Opened(Reach(c, before), Next(Reach(c, before), step))
    requires step.CompleteStep?
    requires var until := step.completedAt + c.openFor(Openings(c, before) + 1, step.jitter);
             now < until && !EndsInterval(after, until)
    ensures Inv(Next(Reach(c, before), step))
    ensures var r := Run(Next(Reach(c, before), step), after);
            r.mode.Normal? ==> TryAcquire(r, now, execution).1 == Rejected(BecauseOpen)
  {
    var s := Reach(c, before);
    ReachIsSound(c, before);
    OpeningSetsInterval(c, before, step);
    StepKeepsSound(s, step);
    StaysOpen(Next(s, step), after);
  }

  // ---- The record of a run -----------------------------------------------------------------

  /** The results of normal operation since the window was last replaced, if it held `records` before these steps. */
  ghost function RecordsFrom(s: State, records: seq<Record>, steps: seq<Step>): seq<Record>
    decreases |steps|
  {
    if steps == [] then records
    else
      var step, t := steps[0], Next(s, steps[0]);
      var replaced := step.ResetStep? || (!s.phase.Closed? && t.phase.Closed?);
      RecordsFrom(t, if replaced then [] else if Samples(s, step) then records + [RecordOf(step)] else records,
                  steps[1..])
  }

  lemma {:induction false} WindowIsRecords(s: State, steps: seq<Step>)
    requires Sound(s)
    ensures Run(s, steps).window == RecordsFrom(s, s.window, steps)
    decreases |steps|
  {
    if steps != [] {
      StepKeepsSound(s, steps[0]);
      StepMoves(s, steps[0]);
      WindowIsRecords(Next(s, steps[0]), steps[1..]);
    }
  }

  /**
   A result of normal operation opens the breaker if and only if the opening rule holds of the results since the window
   was last replaced, this one included, and of the failures that they end with.
   */
  lemma ResultOpens(c: Config, steps: seq<Step>, step: Step)
    requires ValidPolicy(c.halfOpen) && Samples(Reach(c, steps), step)
    ensures var records := RecordsFrom(Init(c), [], steps) + [RecordOf(step)];
            var t := Next(Reach(c, steps), step);
            && t.window == records
            && (t.phase.Open? <==> c.opens(records, Streak(records, c.ignoredResetsStreak), step.completedAt))
            && (!t.phase.Open? ==> t.phase.Closed?)
  {
    var s := Reach(c, steps);
    ReachIsSound(c, steps);
    InitIsSound(c);
    WindowIsRecords(Init(c), steps);
    StepMoves(s, step);
    StreakNext(s.window, RecordOf(step), c.ignoredResetsStreak);
  }

  // ---- The sample of a half-open breaker ---------------------------------------------------

  /** A classified result of a probe. */
  predicate Probes(s: State, step: Step) {
    Counts(s, step) && s.phase.HalfOpen? && !step.outcome.Ignored?
  }

  function Successes(results: seq<Outcome>): nat {
    if results == [] then 0 else Successes(results[..|results| - 1]) + if results[|results| - 1].Success? then 1 else 0
  }

  /** The classified probes of the present generation, if there were `results` of them before these steps. */
  ghost function ResultsFrom(s: State, results: seq<Outcome>, steps: seq<Step>): seq<Outcome>
    decreases |steps|
  {
    if steps == [] then results
    else
      var t := Next(s, steps[0]);
      ResultsFrom(t, Extended(s, steps[0], t, results), steps[1..])
  }

  ghost function Extended(s: State, step: Step, t: State, results: seq<Outcome>): seq<Outcome> {
    if t.generation != s.generation then [] else if Probes(s, step) then results + [step.outcome] else results
  }

  ghost predicate Sums(s: State, results: seq<Outcome>) {
    s.probesCompleted == |results| && s.probesSucceeded == Successes(results)
  }

  lemma ProbeSums(s: State, step: Step)
    requires Probes(s, step)
    ensures var t := Next(s, step);
            if t.generation != s.generation then t.probesCompleted == 0 == t.probesSucceeded
            else t.probesCompleted == s.probesCompleted + 1 &&
                 t.probesSucceeded == s.probesSucceeded + (if step.outcome.Success? then 1 else 0)
  {
    ProbeIsSampled(s, step.permit, step.outcome, step.slow, step.completedAt, step.jitter);
  }

  lemma OtherSums(s: State, step: Step)
    requires !Probes(s, step)
    ensures var t := Next(s, step);
            if t.generation != s.generation then t.probesCompleted == 0 == t.probesSucceeded
            else t.probesCompleted == s.probesCompleted && t.probesSucceeded == s.probesSucceeded
  {
    if step.AcquireStep? && s.mode.Normal? && !(s.phase.Open? && step.now < s.nextProbeAt) {
      RefreshPhase(s, step.now);
    }
  }

  lemma StepSums(s: State, step: Step, results: seq<Outcome>)
    requires Sums(s, results)
    ensures Sums(Next(s, step), Extended(s, step, Next(s, step), results))
  {
    if Probes(s, step) {
      ProbeSums(s, step);
      assert (results + [step.outcome])[..|results|] == results;
    } else {
      OtherSums(s, step);
    }
  }

  lemma {:induction false} SampleIsResults(s: State, results: seq<Outcome>, steps: seq<Step>)
    requires Inv(s) && Sums(s, results)
    ensures Sums(Run(s, steps), ResultsFrom(s, results, steps))
    decreases |steps|
  {
    if steps != [] {
      NextKeepsInv(s, steps[0]);
      StepSums(s, steps[0], results);
      SampleIsResults(Next(s, steps[0]), Extended(s, steps[0], Next(s, steps[0]), results), steps[1..]);
    }
  }

  lemma NewSums(s: State)
    requires s.probesCompleted == 0 == s.probesSucceeded
    ensures Sums(s, [])
  {
  }

  lemma ReachSums(c: Config, steps: seq<Step>)
    requires ValidPolicy(c.halfOpen)
    ensures Sums(Reach(c, steps), ResultsFrom(Init(c), [], steps))
  {
    NewSums(Init(c));
    SampleIsResults(Init(c), [], steps);
  }

  lemma SuccessesNext(results: seq<Outcome>, outcome: Outcome)
    ensures Successes(results + [outcome]) == Successes(results) + if outcome.Success? then 1 else 0
  {
    assert (results + [outcome])[..|results|] == results;
  }

  lemma ProberIsRegistered(s: State, step: Step)
    requires Inv(s) && Probes(s, step)
    ensures step.permit in s.probes && (step.outcome.Success? || step.outcome.Failure?)
  {
    assert IsProbe(s.generation, s.permits[step.permit]);
  }

  /** The phase that a sample leads to: a failure may end it at once, and else it must be recovered or full. */
  ghost function PhaseAfter(policy: HalfOpenPolicy, results: seq<Outcome>, last: Outcome): Phase {
    if last.Failure? && policy.failureAction.ReopenImmediately? then Open
    else if Recovered(policy, |results|, Successes(results)) then Closed
    else if |results| >= policy.maxProbes then Open
    else HalfOpen
  }

  lemma SampleLeadsTo(s: State, step: Step, results: seq<Outcome>)
    requires Inv(s) && Sums(s, results) && Probes(s, step)
    ensures Next(s, step).phase == PhaseAfter(s.config.halfOpen, results + [step.outcome], step.outcome)
  {
    SuccessesNext(results, step.outcome);
    ProberIsRegistered(s, step);
    ProbeIsSampled(s, step.permit, step.outcome, step.slow, step.completedAt, step.jitter);
    SampleDecides(Sampled(s, step.permit, step.outcome), step.outcome, step.completedAt, step.jitter);
  }

  /** What a classified probe decides, over the classified probes of the generation in the run before it. */
  lemma ResultsDecide(c: Config, steps: seq<Step>, step: Step)
    requires ValidPolicy(c.halfOpen) && Probes(Reach(c, steps), step)
    ensures var results := ResultsFrom(Init(c), [], steps) + [step.outcome];
            Next(Reach(c, steps), step).phase == PhaseAfter(c.halfOpen, results, step.outcome)
  {
    ReachSums(c, steps);
    ReachKeepsConfig(c, steps);
    SampleLeadsTo(Reach(c, steps), step, ResultsFrom(Init(c), [], steps));
  }

  lemma ReachKeepsConfig(c: Config, steps: seq<Step>)
    requires ValidPolicy(c.halfOpen)
    ensures Reach(c, steps).config == c
  {
    RunKeepsConfig(Init(c), steps);
  }

  lemma {:induction false} RunKeepsConfig(s: State, steps: seq<Step>)
    requires Inv(s)
    ensures Run(s, steps).config == s.config
    decreases |steps|
  {
    if steps != [] {
      NextKeepsInv(s, steps[0]);
      StepKeepsConfig(s, steps[0]);
      RunKeepsConfig(Next(s, steps[0]), steps[1..]);
    }
  }

  /** The counters of a sample that has not been decided yet. */
  predicate Undecided(s: State) {
    && ValidPolicy(s.config.halfOpen) && s.phase.HalfOpen? && 0 <= s.probesCompleted
    && (s.config.halfOpen.failureAction.ReopenImmediately? ==> s.probesSucceeded == s.probesCompleted)
  }

  /** What a result does to a half-open breaker: an ignored one nothing, and else the phase follows from the sample. */
  ghost predicate DecidesSample(s: State, outcome: Outcome, now: int, jitter: real, t: State) {
    var n, k := s.probesCompleted + 1, s.probesSucceeded + (if outcome.Success? then 1 else 0);
    && (s.phase.HalfOpen? && t.phase.Open? ==> OpensAt(s, t, now, jitter))
    && (s.phase.HalfOpen? && t.phase.Closed? ==> StartsOver(t))
    && (outcome.Ignored? ==> t.phase == s.phase && t.probesCompleted == s.probesCompleted)
    && (Undecided(s) && (outcome.Success? || outcome.Failure?) ==>
          t.phase == if outcome.Failure? && s.config.halfOpen.failureAction.ReopenImmediately? then Open
                     else if Recovered(s.config.halfOpen, n, k) then Closed
                     else if n >= s.config.halfOpen.maxProbes then Open
                     else HalfOpen)
  }

  lemma ProbeDecidesSample(s: State, outcome: Outcome, now: int, jitter: real)
    ensures DecidesSample(s, outcome, now, jitter, CompleteProbe(s, outcome, now, jitter))
  {
    if !outcome.Ignored? {
      var u := s.(probesActive := s.probesActive - 1, signals := s.signals + 1,
                  probesCompleted := s.probesCompleted + 1,
                  probesSucceeded := s.probesSucceeded + (if outcome.Success? then 1 else 0));
      assert CompleteProbe(s, outcome, now, jitter) == Settle(u, outcome, now, jitter);
      SettleMoves(u, outcome, now, jitter);
      if Undecided(s) && !outcome.UnknownOutcome? {
        SampleDecides(u, outcome, now, jitter);
      }
    }
  }

  // ---- What a call tells its caller --------------------------------------------------------

  /**
   The verdict on a caller, in every mode: why it is refused, when it has to wait, the permit it gets if it is let in,
   and the one count that changes.
   */
  ghost predicate Answers(s: State, now: int, execution: bool, t: State, verdict: Verdict) {
    && (s.mode.ForceOpen? <==> verdict == Rejected(BecauseForceOpen))
    && (s.mode.Isolated? <==> verdict == Rejected(BecauseIsolated))
    && (s.mode.Disabled? ==> verdict.Admitted?)
    && (verdict == Rejected(BecauseOpen) <==> s.mode.Normal? && s.phase.Open? && now < s.nextProbeAt)
    && (verdict.MustWait? ==> s.config.waitForProbe)
    && (verdict == Rejected(Exhausted) ==> !s.config.waitForProbe)
    && verdict != Rejected(WaitTimeout)
    && t.counts == s.counts.(rejected := s.counts.rejected + (if verdict.Rejected? then 1 else 0),
                             admitted := s.counts.admitted + (if verdict.Admitted? then 1 else 0))
    && |t.permits| == |s.permits| + (if verdict.Admitted? then 1 else 0)
    && (verdict.Admitted? ==>
          verdict.permit == |s.permits| && IsNewPermit(t, t.permits[verdict.permit], now, execution))
  }

  lemma VerdictIsExact(s: State, now: int, execution: bool)
    ensures var (t, verdict) := TryAcquire(s, now, execution); Answers(s, now, execution, t, verdict)
  {
    AdmissionGivesPermit(s, now, execution);
    if s.mode.Normal? && !(s.phase.Open? && now < s.nextProbeAt) {
      RefreshPhase(s, now);
    }
  }

  /** The first caller after the open interval makes the breaker half-open and is its only probe. */
  lemma FirstProbeIsAlone(s: State, now: int, execution: bool)
    requires Inv(s) && s.mode.Normal? && s.phase.Open? && now >= s.nextProbeAt
    ensures var (t, verdict) := TryAcquire(s, now, execution);
            && t.phase.HalfOpen? && verdict.Admitted? && t.probes == {verdict.permit} && t.probesCompleted == 0
            && t.generation == s.generation + 1
  {
    RefreshPhase(s, now);
    RefreshKeepsInv(s, now);
    var t := Refresh(s, now);
    assert t.probes == {};
  }

  /** Cancelling a live permit settles it, and gives its place in the sample back; a settled one stays as it is. */
  ghost predicate Cancels(s: State, id: nat, now: int, t: State, reply: Reply)
    requires id < |s.permits|
  {
    var p := s.permits[id];
    && (!p.status.Active? ==> t == s)
    && (p.status.Active? ==>
          && t.permits == s.permits[id := p.(status := if now >= p.deadline then Expired else Canceled)]
          && t.probes == s.probes - {id} && t.counts == s.counts && SameRecord(s, t) && SameClock(s, t)
          && t.phase == s.phase && t.generation == s.generation
          && t.probesCompleted == s.probesCompleted && t.probesActive == |t.probes|)
    && (reply.Accepted? <==> p.status.Active? && now < p.deadline)
    && (reply.AlreadyCompleted? <==> p.status.Completed?) && (reply.AlreadyCanceled? <==> p.status.Canceled?)
    && !reply.InvalidOutcome?
  }

  lemma CancelSettles(s: State, id: nat, now: int)
    requires Inv(s) && id < |s.permits|
    ensures var (t, reply) := Cancel(s, id, now); Cancels(s, id, now, t, reply)
  {
    CancelKeepsInv(s, id, now);
    if s.permits[id].status.Active? && id in s.probes {
      assert IsProbe(s.generation, s.permits[id]);
    }
    assert id !in s.probes ==> s.probes - {id} == s.probes;
  }

  /** The completion is counted: of a live permit that is in time or managed, or of a managed one that has expired. */
  predicate IsCounted(p: Permit, outcome: Outcome, now: int) {
    && !outcome.UnknownOutcome?
    && ((p.status.Active? && (p.execution || now < p.deadline)) || (p.status.Expired? && p.execution))
  }

  /**
   Completing settles a live permit, once: in time, or for a managed execution at any time, it is completed and its
   outcome counted; too late, it expires. What comes after is refused with what had happened to it.
   */
  ghost predicate Completes(s: State, id: nat, outcome: Outcome, now: int, t: State, reply: Reply)
    requires id < |s.permits|
  {
    var p := s.permits[id];
    && |t.permits| == |s.permits| && t.permits == s.permits[id := p.(status := t.permits[id].status)]
    && (reply.Accepted? <==> IsCounted(p, outcome, now))
    && (if IsCounted(p, outcome, now) then
          && t.permits[id].status.Completed? && t.counts.completed == s.counts.completed + 1
          && t.counts.successes == s.counts.successes + (if outcome.Success? then 1 else 0)
          && t.counts.failures == s.counts.failures + (if outcome.Failure? then 1 else 0)
          && t.counts.ignored == s.counts.ignored + (if outcome.Ignored? then 1 else 0)
        else t.counts == s.counts)
    && (reply.InvalidOutcome? <==> outcome.UnknownOutcome?)
    && (reply.AlreadyExpired? && p.status.Active? ==> t.permits[id].status.Expired? && id !in t.probes)
    && (!reply.Accepted? && !reply.AlreadyExpired? ==> t == s)
    && (reply.AlreadyCompleted? ==> p.status.Completed?) && (reply.AlreadyCanceled? ==> p.status.Canceled?)
  }

  lemma CompleteSettles(s: State, id: nat, outcome: Outcome, slow: bool, now: int, jitter: real)
    requires Inv(s) && id < |s.permits|
    ensures var (t, reply) := Complete(s, id, outcome, slow, now, jitter); Completes(s, id, outcome, now, t, reply)
  {
    ConcludeTouches(s, id, outcome, slow, now, jitter);
    ConcludeCounts(s, id, outcome, slow, now, jitter);
    if id in s.probes {
      assert IsProbe(s.generation, s.permits[id]);
    }
  }

  lemma ConcludeCounts(s: State, id: nat, outcome: Outcome, slow: bool, now: int, jitter: real)
    requires id < |s.permits|
    ensures Conclude(s, id, outcome, slow, now, jitter).counts == Tick(s.counts, outcome)
  {
  }

  /** A snapshot, or the next caller, expires exactly the probes that are past their deadline. */
  lemma ExpiryIsExact(s: State, now: int, id: nat)
    requires Inv(s) && id < |s.permits|
    ensures var t := ExpireDue(s, now);
            && |t.permits| == |s.permits|
            && t.permits[id] == (if id in s.probes && now >= s.permits[id].deadline
                                 then s.permits[id].(status := Expired) else s.permits[id])
            && (id in t.probes <==> id in s.probes && now < s.permits[id].deadline)
  {
    if id in s.probes {
      assert IsProbe(s.generation, s.permits[id]);
    }
  }
}

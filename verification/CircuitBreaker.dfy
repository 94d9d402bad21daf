/**
 The breaker of pkg/circuit-breaker/breaker.go as a state machine with one step per critical
 section. Permits are named by admission order. The rolling window is the list of records added
 since it was last replaced; the opening rules and the open interval are functions in the
 configuration, so the theorems hold for every window, rule set, back-off and jitter.
 */
module CircuitBreaker {
  import opened Sums

  datatype Phase = Closed | Open | HalfOpen
  datatype Mode = Normal | ForceOpen | Disabled | Isolated
  datatype Outcome = Success | Failure | Ignored | UnknownOutcome
  datatype Status = Active | Completed | Canceled | Expired

  datatype Permit = Permit(generation: nat, phase: Phase, deadline: int, recording: bool, execution: bool,
                           status: Status)

  datatype FailureAction = ReopenImmediately | ReopenAfterSample
  datatype HalfOpenPolicy = HalfOpenPolicy(maxProbes: int, requiredSuccesses: int, successRatio: real,
                                           failureAction: FailureAction)

  datatype Record = Record(outcome: Outcome, slow: bool, at: int)

  datatype Config = Config(
    halfOpen: HalfOpenPolicy,
    permitTTL: int,
    waitForProbe: bool,
    ignoredResetsStreak: bool,
    opens: (seq<Record>, nat, int) -> bool,
    openFor: (nat, real) -> int)

  const MAX_HALF_OPEN_PROBES := 0x1_0000

  /** What normalizeHalfOpen lets through. */
  predicate ValidPolicy(p: HalfOpenPolicy) {
    && 1 <= p.maxProbes <= MAX_HALF_OPEN_PROBES
    && 0.0 <= p.successRatio <= 1.0
    && !(p.requiredSuccesses > 0 && p.successRatio > 0.0)
    && !(p.requiredSuccesses <= 0 && p.successRatio == 0.0)
    && p.requiredSuccesses <= p.maxProbes
  }

  /** The lifetime counters. */
  datatype Counts = Counts(admitted: nat, rejected: nat, completed: nat, successes: nat, failures: nat, ignored: nat)

  datatype State = State(
    config: Config,
    phase: Phase,
    mode: Mode,
    generation: nat,
    transitions: nat,
    streak: nat,
    openCount: nat,
    nextProbeAt: int,
    probesActive: int,
    probesCompleted: int,
    probesSucceeded: int,
    counts: Counts,
    probes: set<nat>,
    window: seq<Record>,
    permits: seq<Permit>,
    signals: nat)

  function Init(c: Config): State {
    State(c, Closed, Normal, 1, 0, 0, 0, 0, 0, 0, 0, Counts(0, 0, 0, 0, 0, 0), {}, [], [], 0)
  }

  // ---- Transitions -------------------------------------------------------------------------

  /** A new generation: every outstanding permit becomes stale and half-open counting restarts. */
  function Renew(s: State): State {
    s.(generation := s.generation + 1, transitions := s.transitions + 1,
       probesActive := 0, probesCompleted := 0, probesSucceeded := 0, probes := {}, signals := s.signals + 1)
  }

  function Reopen(s: State, now: int, jitter: real): State {
    var count := s.openCount + 1;
    Renew(s.(phase := Open, openCount := count, nextProbeAt := now + s.config.openFor(count, jitter)))
  }

  function Recover(s: State): State {
    Renew(s.(phase := Closed, window := [], streak := 0, openCount := 0, nextProbeAt := 0))
  }

  function SetMode(s: State, mode: Mode): State {
    if s.mode == mode then s else Renew(s.(mode := mode))
  }

  function Reset(s: State): State {
    Recover(s.(mode := Normal))
  }

  // ---- Permits -----------------------------------------------------------------------------

  predicate IsCurrent(s: State, p: Permit) {
    p.generation == s.generation && p.phase == s.phase
  }

  /** expireLocked and the release of its probe by releaseHalfOpenLocked. */
  function Drop(s: State, id: nat, status: Status): State
    requires id < |s.permits|
  {
    var p := s.permits[id];
    var t := s.(permits := s.permits[id := p.(status := status)]);
    if p.phase.HalfOpen? && IsCurrent(s, p) && id in s.probes
    then t.(probes := t.probes - {id}, probesActive := t.probesActive - 1, signals := t.signals + 1)
    else t
  }

  ghost function Due(s: State, now: int): set<nat> {
    set id | id in s.probes && id < |s.permits| && now >= s.permits[id].deadline && s.permits[id].status.Active?
  }

  /** The state once exactly the probes in `gone` have been expired. */
  ghost function ExpireSome(s: State, gone: set<nat>): State {
    s.(permits := seq(|s.permits|, i requires 0 <= i < |s.permits| =>
                        if i in gone then s.permits[i].(status := Expired) else s.permits[i]),
       probes := s.probes - gone,
       probesActive := s.probesActive - |gone|,
       signals := s.signals + |gone|)
  }

  /** expireHalfOpenLocked: all probes past their deadline, in whatever order they are visited. */
  ghost function ExpireDue(s: State, now: int): State {
    ExpireSome(s, Due(s, now))
  }

  datatype Cause = BecauseOpen | Exhausted | WaitTimeout | BecauseForceOpen | BecauseIsolated
  datatype Verdict = Admitted(permit: nat) | Rejected(cause: Cause) | MustWait

  function Reject(s: State): State {
    s.(counts := s.counts.(rejected := s.counts.rejected + 1))
  }

  function Issue(s: State, now: int, recording: bool, execution: bool): State {
    s.(counts := s.counts.(admitted := s.counts.admitted + 1),
       permits := s.permits + [Permit(s.generation, s.phase, now + s.config.permitTTL, recording, execution, Active)])
  }

  /** A permit issued while half-open is registered as a probe. */
  function IssueRecording(s: State, now: int, execution: bool): State {
    var t := Issue(s, now, true, execution);
    if s.phase.HalfOpen? then t.(probesActive := t.probesActive + 1, probes := t.probes + {|s.permits|}) else t
  }

  predicate Full(s: State) {
    s.phase.HalfOpen? && s.probesCompleted + s.probesActive >= s.config.halfOpen.maxProbes
  }

  /** tryAcquireLocked up to its capacity check: the open interval may end and probes may expire. */
  ghost function Refresh(s: State, now: int): State {
    var t := if s.phase.Open? && now >= s.nextProbeAt then Renew(s.(phase := HalfOpen)) else s;
    if t.phase.HalfOpen? then ExpireDue(t, now) else t
  }

  /** tryAcquireLocked from its capacity check on. */
  function TryProbe(s: State, now: int, execution: bool): (State, Verdict) {
    if !Full(s) then (IssueRecording(s, now, execution), Admitted(|s.permits|))
    else if s.config.waitForProbe then (s, MustWait)
    else (Reject(s), Rejected(Exhausted))
  }

  ghost function TryAcquire(s: State, now: int, execution: bool): (State, Verdict) {
    match s.mode
    case ForceOpen => (Reject(s), Rejected(BecauseForceOpen))
    case Isolated => (Reject(s), Rejected(BecauseIsolated))
    case Disabled => (Issue(s, now, false, execution), Admitted(|s.permits|))
    case Normal =>
      if s.phase.Open? && now < s.nextProbeAt then (Reject(s), Rejected(BecauseOpen))
      else TryProbe(Refresh(s, now), now, execution)
  }

  datatype Reply = Accepted | AlreadyCompleted | AlreadyCanceled | AlreadyExpired | InvalidOutcome

  /** recordLifetimeLocked */
  function Tick(c: Counts, outcome: Outcome): Counts {
    var d := c.(completed := c.completed + 1);
    match outcome
    case Success => d.(successes := d.successes + 1)
    case Failure => d.(failures := d.failures + 1)
    case Ignored => d.(ignored := d.ignored + 1)
    case UnknownOutcome => d
  }

  /** A permit is completed and counted. */
  function Count(s: State, id: nat, outcome: Outcome): State
    requires id < |s.permits|
  {
    s.(permits := s.permits[id := s.permits[id].(status := Completed)], counts := Tick(s.counts, outcome))
  }

  function SuccessShare(s: State): real {
    if s.probesCompleted == 0 then 0.0 else s.probesSucceeded as real / s.probesCompleted as real
  }

  /** The recovery decision at the end of completeHalfOpenLocked. */
  function Settle(s: State, outcome: Outcome, now: int, jitter: real): State {
    var policy := s.config.halfOpen;
    if !outcome.Success? && policy.failureAction.ReopenImmediately? then Reopen(s, now, jitter)
    else if policy.requiredSuccesses > 0 && s.probesSucceeded >= policy.requiredSuccesses then Recover(s)
    else if policy.successRatio > 0.0 && s.probesCompleted >= policy.maxProbes then
      if SuccessShare(s) >= policy.successRatio then Recover(s) else Reopen(s, now, jitter)
    else if policy.failureAction.ReopenAfterSample? && s.probesCompleted >= policy.maxProbes then Reopen(s, now, jitter)
    else s
  }

  /** completeHalfOpenLocked */
  function CompleteProbe(s: State, outcome: Outcome, now: int, jitter: real): State {
    var t := s.(probesActive := s.probesActive - 1, signals := s.signals + 1);
    if outcome.Ignored? then t
    else
      Settle(t.(probesCompleted := t.probesCompleted + 1,
                probesSucceeded := t.probesSucceeded + (if outcome.Success? then 1 else 0)),
             outcome, now, jitter)
  }

  /** The window update and the opening decision of completeAt. */
  function CompleteClosed(s: State, outcome: Outcome, slow: bool, now: int, jitter: real): State {
    var t := s.(window := s.window + [Record(outcome, slow && !outcome.Ignored?, now)],
                streak := match outcome
                          case Success => 0
                          case Failure => s.streak + 1
                          case _ => if s.config.ignoredResetsStreak then 0 else s.streak);
    if t.config.opens(t.window, t.streak, now) then Reopen(t, now, jitter) else t
  }

  /** completeAt once the permit is known to be live. */
  function Conclude(s: State, id: nat, outcome: Outcome, slow: bool, now: int, jitter: real): State
    requires id < |s.permits|
  {
    var p := s.permits[id];
    var t := Count(s, id, outcome);
    if !IsCurrent(s, p) then t
    else
      var u := if p.phase.HalfOpen? then t.(probes := t.probes - {id}) else t;
      if !p.recording then u
      else if u.phase.HalfOpen? then CompleteProbe(u, outcome, now, jitter)
      else CompleteClosed(u, outcome, slow, now, jitter)
  }

  function Complete(s: State, id: nat, outcome: Outcome, slow: bool, now: int, jitter: real): (State, Reply)
    requires id < |s.permits|
  {
    var p := s.permits[id];
    if outcome.UnknownOutcome? then (s, InvalidOutcome)
    else
      match p.status
      case Completed => (s, AlreadyCompleted)
      case Canceled => (s, AlreadyCanceled)
      case Expired =>
        if p.execution then (Count(s, id, outcome), Accepted)
        else (s, AlreadyExpired)
      case Active =>
        if !p.execution && now >= p.deadline then (Drop(s, id, Expired), AlreadyExpired)
        else (Conclude(s, id, outcome, slow, now, jitter), Accepted)
  }

  function Cancel(s: State, id: nat, now: int): (State, Reply)
    requires id < |s.permits|
  {
    var p := s.permits[id];
    match p.status
    case Completed => (s, AlreadyCompleted)
    case Canceled => (s, AlreadyCanceled)
    case Expired => (s, AlreadyExpired)
    case Active =>
      if now >= p.deadline then (Drop(s, id, Expired), AlreadyExpired) else (Drop(s, id, Canceled), Accepted)
  }

  // ---- Runs --------------------------------------------------------------------------------

  datatype Step =
    | AcquireStep(now: int, execution: bool)
    | GiveUpStep
    | CompleteStep(permit: nat, outcome: Outcome, slow: bool, completedAt: int, jitter: real)
    | CancelStep(canceled: nat, canceledAt: int)
    | SnapshotStep(seenAt: int)
    | SetModeStep(mode: Mode)
    | ResetStep

  ghost function Next(s: State, step: Step): State {
    match step
    case AcquireStep(now, execution) => TryAcquire(s, now, execution).0
    case GiveUpStep => Reject(s)
    case CompleteStep(id, outcome, slow, now, jitter) =>
      if id < |s.permits| then Complete(s, id, outcome, slow, now, jitter).0 else s
    case CancelStep(id, now) => if id < |s.permits| then Cancel(s, id, now).0 else s
    case SnapshotStep(now) => if s.phase.HalfOpen? then ExpireDue(s, now) else s
    case SetModeStep(mode) => SetMode(s, mode)
    case ResetStep => Reset(s)
  }

  // ---- Invariant ---------------------------------------------------------------------------

  function CompletedOnce(p: Permit): int {
    if p.status.Completed? then 1 else 0
  }

  /** Lifetime counters: each permit is counted completed at most once. */
  ghost predicate Counted(counts: Counts, permits: seq<Permit>) {
    && counts.completed == Sum(permits, CompletedOnce)
    && counts.completed == counts.successes + counts.failures + counts.ignored
    && counts.admitted == |permits|
  }

  /** Permits of the current generation were issued in the current phase, and record iff the mode is normal. */
  ghost predicate Epoch(generation: nat, phase: Phase, mode: Mode, permits: seq<Permit>) {
    forall i :: 0 <= i < |permits| ==>
      && permits[i].generation <= generation
      && (permits[i].generation == generation ==> permits[i].phase == phase && (permits[i].recording <==> mode.Normal?))
  }

  predicate IsProbe(generation: nat, p: Permit) {
    p.status.Active? && p.generation == generation && p.phase.HalfOpen? && p.recording
  }

  /** The registered probes are exactly the live recording permits of this half-open generation. */
  ghost predicate Registered(generation: nat, probes: set<nat>, permits: seq<Permit>) {
    && (forall id :: id in probes ==> id < |permits|)
    && (forall id :: 0 <= id < |permits| ==> (id in probes <==> IsProbe(generation, permits[id])))
  }

  /** Half-open arithmetic: the sample is never complete while the breaker is still half-open. */
  ghost predicate Sampling(s: State) {
    && s.probesActive == |s.probes|
    && 0 <= s.probesSucceeded <= s.probesCompleted
    && s.probesCompleted + s.probesActive <= s.config.halfOpen.maxProbes
    && s.probesCompleted < s.config.halfOpen.maxProbes
    && (s.config.halfOpen.failureAction.ReopenImmediately? ==> s.probesSucceeded == s.probesCompleted)
    && (s.config.halfOpen.requiredSuccesses > 0 ==> s.probesSucceeded < s.config.halfOpen.requiredSuccesses)
    && (!s.phase.HalfOpen? ==> s.probesCompleted == 0)
  }

  ghost predicate Inv(s: State) {
    && ValidPolicy(s.config.halfOpen)
    && s.generation == s.transitions + 1
    && Counted(s.counts, s.permits)
    && Epoch(s.generation, s.phase, s.mode, s.permits)
    && Registered(s.generation, s.probes, s.permits)
    && Sampling(s)
  }
}

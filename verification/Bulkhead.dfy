/**
 The admission gate of pkg/bulkhead as a state machine: one step per critical section of the
 bulkhead's mutex, plus the compare-and-swap that claims a permit's release outside the lock.
 Waiters and permits are named by their index, so index order is arrival order.
 */
module Bulkhead {
  import opened Collections
  import opened Sums

  datatype Reason = Caller | Weight | Reentry | Shutdown | Capacity | Queue | Timeout
  datatype Terminal = Closed | WaitTimeout | CallerCanceled

  /** The caller's context as Acquire inspects it before taking the lock. */
  datatype Context = NilContext | Canceled | Reentrant | Live

  datatype Config = Config(capacity: int, wait: bool, maxQueued: int, maxWait: int)

  const MAX_QUEUE_SIZE := 0x10_0000

  predicate ValidConfig(c: Config) {
    && 0 < c.capacity
    && (c.wait ==> 0 < c.maxQueued <= MAX_QUEUE_SIZE && 0 < c.maxWait)
    && (!c.wait ==> c.maxQueued == 0 && c.maxWait == 0)
  }

  /** `linked` is the element pointer being non-nil; `claimed` says the waiting caller has returned. */
  datatype Waiter = Waiter(weight: int, deadline: int, linked: bool, done: bool, granted: bool,
                           terminal: Option<Terminal>, claimed: bool)

  datatype Phase = Held | Releasing | Released

  /** `before` counts the callers that had queued when this permit's caller arrived. */
  datatype Permit = Permit(weight: int, phase: Phase, before: nat)

  datatype State = State(
    config: Config,
    active: int,
    queued: int,
    admissions: nat,
    rejections: map<Reason, nat>,
    draining: bool,
    drainSignals: nat,
    queue: seq<nat>,
    waiters: seq<Waiter>,
    permits: seq<Permit>)

  function Init(c: Config): State {
    State(c, 0, 0, 0, map[], false, 0, [], [], [])
  }

  // ---- Critical sections -------------------------------------------------------------------

  datatype Outcome = Admitted(permit: nat) | Enqueued(waiter: nat) | Refused(reason: Reason)

  /** The checks of Acquire that precede the lock. */
  function Precheck(c: Config, ctx: Context, weight: int): Option<Reason> {
    if ctx.NilContext? then Some(Caller)
    else if weight <= 0 || weight > c.capacity then Some(Weight)
    else if ctx.Canceled? then Some(Caller)
    else if ctx.Reentrant? then Some(Reentry)
    else None
  }

  function Fits(s: State, weight: int): bool {
    weight <= s.config.capacity - s.active
  }

  function Admit(s: State, weight: int): State {
    s.(active := s.active + weight, admissions := s.admissions + 1,
       permits := s.permits + [Permit(weight, Held, |s.waiters|)])
  }

  function NewWaiter(s: State, weight: int, start: int): Waiter {
    Waiter(weight, start + s.config.maxWait, true, false, false, None, false)
  }

  function Enqueue(s: State, weight: int, start: int): State {
    s.(queued := s.queued + 1, queue := s.queue + [|s.waiters|],
       waiters := s.waiters + [NewWaiter(s, weight, start)])
  }

  function Acquire(s: State, ctx: Context, weight: int, start: int): (State, Outcome) {
    match Precheck(s.config, ctx, weight)
    case Some(reason) => (s, Refused(reason))
    case None =>
      if s.draining then (s, Refused(Shutdown))
      else if s.queued == 0 && Fits(s, weight) then
        (Admit(s, weight), Admitted(|s.permits|))
      else if !s.config.wait then (s, Refused(Capacity))
      else if s.queued >= s.config.maxQueued then (s, Refused(Queue))
      else (Enqueue(s, weight, start), Enqueued(|s.waiters|))
  }

  function Reject(s: State, reason: Reason): State {
    s.(rejections := s.rejections[reason := Rejections(s, reason) + 1])
  }

  function Rejections(s: State, reason: Reason): nat {
    if reason in s.rejections then s.rejections[reason] else 0
  }

  ghost predicate Shape(s: State) {
    forall i :: 0 <= i < |s.queue| ==> s.queue[i] < |s.waiters|
  }

  function Unlink(s: State, i: nat): State
    requires i < |s.queue| && s.queue[i] < |s.waiters|
  {
    var id := s.queue[i];
    s.(queue := s.queue[..i] + s.queue[i + 1..], queued := s.queued - 1,
       waiters := s.waiters[id := s.waiters[id].(linked := false)])
  }

  function End(s: State, id: nat, terminal: Terminal): State
    requires id < |s.waiters|
  {
    s.(waiters := s.waiters[id := s.waiters[id].(done := true, terminal := Some(terminal))])
  }

  function GrantAt(s: State, i: nat): State
    requires i < |s.queue| && s.queue[i] < |s.waiters|
  {
    var id := s.queue[i];
    var t := Unlink(s, i);
    t.(waiters := t.waiters[id := t.waiters[id].(done := true, granted := true)],
       active := t.active + s.waiters[id].weight, admissions := t.admissions + 1)
  }

  /** One turn of the loop of grantWaitersLocked at queue position `i`. */
  function GrantTurn(s: State, i: nat, now: int): State
    requires i < |s.queue| && s.queue[i] < |s.waiters|
  {
    var id := s.queue[i];
    var w := s.waiters[id];
    if w.done then s
    else if now >= w.deadline then End(s, id, WaitTimeout)
    else if Fits(s, w.weight) then GrantAt(s, i)
    else s
  }

  /** The waiter at position `i` is owed capacity that is not free: granting stops here. */
  predicate Stops(s: State, i: nat, now: int)
    requires i < |s.queue| && s.queue[i] < |s.waiters|
  {
    var w := s.waiters[s.queue[i]];
    !w.done && now < w.deadline && !Fits(s, w.weight)
  }

  /** The loop of grantWaitersLocked from queue position `i` on. */
  ghost function GrantFrom(s: State, i: nat, now: int): State
    requires Shape(s) && i <= |s.queue|
    decreases |s.queue| - i
  {
    if i == |s.queue| || Stops(s, i, now) then s
    else
      var t := GrantTurn(s, i, now);
      GrantFrom(t, if |t.queue| == |s.queue| then i + 1 else i, now)
  }

  ghost function Grant(s: State, now: int): State
    requires Shape(s)
  {
    if s.draining then s else GrantFrom(s, 0, now)
  }

  function MaybeDrained(s: State): State {
    if !s.draining || s.active != 0 || s.queued != 0 || s.drainSignals > 0 then s
    else s.(drainSignals := s.drainSignals + 1)
  }

  datatype Cause = Ready | ContextDone | TimerFired

  function CauseTerminal(cause: Cause): Option<Terminal> {
    match cause
    case Ready => None
    case ContextDone => Some(CallerCanceled)
    case TimerFired => Some(WaitTimeout)
  }

  function TerminalReason(t: Option<Terminal>): Reason {
    match t
    case Some(Closed) => Shutdown
    case Some(WaitTimeout) => Timeout
    case _ => Caller
  }

  /** Position of `id` in the queue, or the queue's length. */
  function Position(queue: seq<nat>, id: nat): (i: nat)
    ensures i <= |queue|
    ensures i < |queue| ==> queue[i] == id
    ensures i == |queue| ==> id !in queue
  {
    if queue == [] then 0 else if queue[0] == id then 0 else 1 + Position(queue[1..], id)
  }

  function RemoveWaiter(s: State, id: nat): State
    requires id < |s.waiters|
  {
    var i := Position(s.queue, id);
    if s.waiters[id].linked && i < |s.queue| then Unlink(s, i) else s
  }

  /** The failing half of finishWait: everything before waiters are granted again. */
  function Abandon(s: State, id: nat, cause: Cause): State
    requires id < |s.waiters|
  {
    var w := s.waiters[id];
    var terminal := if w.terminal.Some? then w.terminal else CauseTerminal(cause);
    var w' := if w.done then w.(claimed := true)
              else w.(done := true, terminal := terminal, claimed := true);
    RemoveWaiter(s.(waiters := s.waiters[id := w']), id)
  }

  /** A granted waiter picks up its permit. */
  function Claim(s: State, id: nat): State
    requires id < |s.waiters|
  {
    var w := s.waiters[id];
    s.(waiters := s.waiters[id := w.(claimed := true)],
       permits := s.permits + [Permit(w.weight, Held, id)])
  }

  ghost function Finish(s: State, id: nat, cause: Cause, now: int): State
    requires Shape(s) && id < |s.waiters|
  {
    var w := s.waiters[id];
    if w.granted then
      Claim(s, id)
    else
      var terminal := if w.terminal.Some? then w.terminal else CauseTerminal(cause);
      MaybeDrained(Reject(Grant(Abandon(s, id, cause), now), TerminalReason(terminal)))
  }

  function ClaimRelease(s: State, p: nat): State
    requires p < |s.permits|
  {
    if s.permits[p].phase.Held? then s.(permits := s.permits[p := s.permits[p].(phase := Releasing)]) else s
  }

  ghost function Release(s: State, p: nat, now: int): State
    requires Shape(s) && p < |s.permits|
  {
    var permit := s.permits[p];
    MaybeDrained(Grant(s.(permits := s.permits[p := permit.(phase := Released)],
                          active := s.active - permit.weight), now))
  }

  /** The loop of Close over the queue from position `i` on. */
  ghost function EndAll(s: State, i: nat): State
    requires Shape(s) && i <= |s.queue|
    decreases |s.queue| - i
  {
    if i == |s.queue| then s
    else if s.waiters[s.queue[i]].done then EndAll(s, i + 1)
    else EndAll(End(s, s.queue[i], Closed), i + 1)
  }

  ghost function Close(s: State): State
    requires Shape(s)
  {
    if s.draining then s else MaybeDrained(EndAll(s.(draining := true), 0))
  }

  // ---- Runs --------------------------------------------------------------------------------

  datatype Step =
    | AcquireStep(ctx: Context, weight: int, start: int)
    | RejectStep(reason: Reason)
    | FinishStep(waiter: nat, cause: Cause, finishedAt: int)
    | ClaimReleaseStep(permit: nat)
    | ReleaseStep(releasing: nat, releasedAt: int)
    | CloseStep

  /**
   A waiting caller finishes once, and wakes by its ready channel only after it was ended; the
   locked half of a release runs only for the caller that won the compare-and-swap.
   */
  predicate Enabled(s: State, step: Step) {
    match step
    case FinishStep(id, cause, _) =>
      id < |s.waiters| && !s.waiters[id].claimed && (cause.Ready? ==> s.waiters[id].done)
    case ClaimReleaseStep(p) => p < |s.permits|
    case ReleaseStep(p, _) => p < |s.permits| && s.permits[p].phase.Releasing?
    case _ => true
  }

  ghost function Next(s: State, step: Step): State
    requires Shape(s)
  {
    if !Enabled(s, step) then s
    else
      match step
      case AcquireStep(ctx, weight, start) => Acquire(s, ctx, weight, start).0
      case RejectStep(reason) => Reject(s, reason)
      case FinishStep(id, cause, now) => Finish(s, id, cause, now)
      case ClaimReleaseStep(p) => ClaimRelease(s, p)
      case ReleaseStep(p, now) => Release(s, p, now)
      case CloseStep => Close(s)
  }

  // ---- Invariant ---------------------------------------------------------------------------

  function LiveWeight(p: Permit): int {
    if p.phase.Released? then 0 else p.weight
  }

  function UnclaimedWeight(w: Waiter): int {
    if w.granted && !w.claimed then w.weight else 0
  }

  function UnclaimedGrant(w: Waiter): int {
    if w.granted && !w.claimed then 1 else 0
  }

  /** Active weight is owned by unreleased permits and by grants that were not picked up yet. */
  ghost predicate Ledger(capacity: int, active: int, admissions: nat, waiters: seq<Waiter>, permits: seq<Permit>) {
    && active == Sum(permits, LiveWeight) + Sum(waiters, UnclaimedWeight) <= capacity
    && admissions == |permits| + Sum(waiters, UnclaimedGrant)
  }

  /** The queue is exactly the linked waiters, in arrival order. */
  ghost predicate Line(maxQueued: int, queued: int, queue: seq<nat>, waiters: seq<Waiter>) {
    && queued == |queue| <= maxQueued
    && (forall i :: 0 <= i < |queue| ==> queue[i] < |waiters| && waiters[queue[i]].linked)
    && (forall i, j :: 0 <= i < j < |queue| ==> queue[i] < queue[j])
    && (forall id :: 0 <= id < |waiters| && waiters[id].linked ==> id in queue)
  }

  ghost predicate WaiterOk(capacity: int, w: Waiter) {
    && 0 < w.weight <= capacity
    && (w.done <==> w.granted || w.terminal.Some?)
    && (w.linked ==> !w.granted && !w.claimed)
    && (!w.linked ==> w.done)
    && !(w.granted && w.terminal.Some?)
  }

  ghost predicate WeightsOk(capacity: int, waiters: seq<Waiter>, permits: seq<Permit>) {
    && (forall id :: 0 <= id < |waiters| ==> WaiterOk(capacity, waiters[id]))
    && (forall p :: 0 <= p < |permits| ==> 0 < permits[p].weight <= capacity)
  }

  ghost predicate EndedBefore(waiters: seq<Waiter>, n: nat) {
    forall v :: 0 <= v < n && v < |waiters| ==> waiters[v].done
  }

  /** Strict first-in first-out: whoever is admitted finds every earlier waiter already ended. */
  ghost predicate Fifo(waiters: seq<Waiter>, permits: seq<Permit>) {
    && (forall w :: 0 <= w < |waiters| && waiters[w].granted ==> EndedBefore(waiters, w))
    && (forall p :: 0 <= p < |permits| ==> permits[p].before <= |waiters| && EndedBefore(waiters, permits[p].before))
  }

  ghost predicate HasEnded(queue: seq<nat>, waiters: seq<Waiter>) {
    exists i :: 0 <= i < |queue| && queue[i] < |waiters| && waiters[queue[i]].done
  }

  /** No lost wake-up: the head of an open queue waits only for capacity that is not there. */
  ghost predicate HeadBlocked(free: int, queue: seq<nat>, waiters: seq<Waiter>) {
    queue == [] || HasEnded(queue, waiters) || (queue[0] < |waiters| && waiters[queue[0]].weight > free)
  }

  ghost predicate AllEnded(queue: seq<nat>, waiters: seq<Waiter>) {
    forall i :: 0 <= i < |queue| ==> queue[i] < |waiters| && waiters[queue[i]].done
  }

  /** The part of the invariant that also holds in the middle of a critical section. */
  ghost predicate Core(s: State) {
    && ValidConfig(s.config)
    && Ledger(s.config.capacity, s.active, s.admissions, s.waiters, s.permits)
    && Line(s.config.maxQueued, s.queued, s.queue, s.waiters)
    && WeightsOk(s.config.capacity, s.waiters, s.permits)
    && Fifo(s.waiters, s.permits)
  }

  ghost predicate Settled(s: State) {
    && (!s.draining ==> HeadBlocked(s.config.capacity - s.active, s.queue, s.waiters))
    && (s.draining ==> AllEnded(s.queue, s.waiters))
  }

  predicate IsDrained(s: State) {
    s.draining && s.active == 0 && s.queued == 0
  }

  ghost predicate Inv(s: State) {
    && Core(s)
    && Settled(s)
    && s.drainSignals == (if IsDrained(s) then 1 else 0)
  }
}

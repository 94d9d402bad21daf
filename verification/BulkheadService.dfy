/**
 pkg/bulkhead as the object its callers share. Every method is one critical section and takes
 exactly the step of the state machine, so the theorems about runs are theorems about this class.
 */
module BulkheadService {
  import opened Collections
  import opened B = Bulkhead
  import Safety = BulkheadSafety
  import Grants = BulkheadGrants

  lemma AbandonKeepsShape(s: State, id: nat, cause: Cause)
    requires Shape(s) && id < |s.waiters|
    ensures Shape(Abandon(s, id, cause))
  {
    var i := Position(s.queue, id);
    if i < |s.queue| {
      var q := s.queue[..i] + s.queue[i + 1..];
      assert forall k :: 0 <= k < |q| ==> q[k] == s.queue[if k < i then k else k + 1];
    }
  }

  class Bulkhead {
    const config: Config
    var active: int
    var queued: int
    var admissions: nat
    var rejections: map<Reason, nat>
    var draining: bool
    var drainSignals: nat
    var queue: seq<nat>
    var waiters: seq<Waiter>
    var permits: seq<Permit>

    ghost function Model(): State
      reads this
    {
      State(config, active, queued, admissions, rejections, draining, drainSignals, queue, waiters, permits)
    }

    constructor (c: Config)
      requires ValidConfig(c)
      ensures Model() == Init(c)
    {
      config := c;
      active, queued, admissions, rejections := 0, 0, 0, map[];
      draining, drainSignals := false, 0;
      queue, waiters, permits := [], [], [];
    }

    /** A caller is let in, queued with a deadline, or refused for what stands in its way. */
    method Acquire(ctx: Context, weight: int, start: int) returns (outcome: Outcome)
      requires Inv(Model())
      modifies this
      ensures Inv(Model()) && (Model(), outcome) == B.Acquire(old(Model()), ctx, weight, start)
      ensures Grants.Decides(old(Model()), ctx, weight, outcome) && (outcome.Refused? ==> Model() == old(Model()))
      ensures outcome.Enqueued? ==>
                && outcome.waiter == old(|waiters|) && queue == old(queue) + [outcome.waiter]
                && |waiters| == old(|waiters|) + 1 && waiters[outcome.waiter].weight == weight
                && waiters[outcome.waiter].deadline == start + config.maxWait
      ensures outcome.Admitted? ==> active == old(active) + weight && queue == [] && |permits| == old(|permits|) + 1
    {
      Safety.NextKeepsInv(Model(), AcquireStep(ctx, weight, start));
      Grants.AcquireDecides(Model(), ctx, weight, start);
      outcome := AcquireLocked(ctx, weight, start);
    }

    method AcquireLocked(ctx: Context, weight: int, start: int) returns (outcome: Outcome)
      modifies this
      ensures (Model(), outcome) == B.Acquire(old(Model()), ctx, weight, start)
    {
      if ctx.NilContext? {
        return Refused(Caller);
      }
      if weight <= 0 || weight > config.capacity {
        return Refused(Weight);
      }
      if ctx.Canceled? {
        return Refused(Caller);
      }
      if ctx.Reentrant? {
        return Refused(Reentry);
      }
      if draining {
        return Refused(Shutdown);
      }
      if queued == 0 && weight <= config.capacity - active {
        active := active + weight;
        admissions := admissions + 1;
        outcome := Admitted(|permits|);
        permits := permits + [Permit(weight, Held, |waiters|)];
        return;
      }
      if !config.wait {
        return Refused(Capacity);
      }
      if queued >= config.maxQueued {
        return Refused(Queue);
      }
      queued := queued + 1;
      outcome := Enqueued(|waiters|);
      queue := queue + [|waiters|];
      waiters := waiters + [Waiter(weight, start + config.maxWait, true, false, false, None, false)];
    }

    method Reject(reason: Reason)
      modifies this`rejections
      ensures Model() == B.Reject(old(Model()), reason)
    {
      var count := if reason in rejections then rejections[reason] else 0;
      rejections := rejections[reason := count + 1];
    }

    /** removeWaiterLocked for the list element at position `i`. */
    method UnlinkAt(i: nat)
      requires i < |queue| && queue[i] < |waiters|
      modifies this`queue, this`queued, this`waiters
      ensures Model() == Unlink(old(Model()), i)
    {
      var id := queue[i];
      queue := queue[..i] + queue[i + 1..];
      waiters := waiters[id := waiters[id].(linked := false)];
      queued := queued - 1;
    }

    /** The granting branch of grantWaitersLocked. */
    method AdmitAt(i: nat)
      requires i < |queue| && queue[i] < |waiters|
      modifies this`queue, this`queued, this`waiters, this`active, this`admissions
      ensures Model() == GrantAt(old(Model()), i)
    {
      var id := queue[i];
      UnlinkAt(i);
      waiters := waiters[id := waiters[id].(done := true, granted := true)];
      active := active + waiters[id].weight;
      admissions := admissions + 1;
    }

    /** grantWaitersLocked: reaches exactly one cut of the queue, up to which what is owed fits and is given out. */
    method GrantWaiters(now: int)
      requires Shape(Model())
      modifies this`queue, this`queued, this`waiters, this`active, this`admissions
      ensures Model() == Grant(old(Model()), now)
      ensures old(Core(Model()) && !draining) ==> exists n: nat :: Grants.GrantsUpTo(old(Model()), Model(), n, now)
    {
      if Core(Model()) {
        Grants.GrantIsExact(Model(), now);
      }
      GrantInOrder(now);
    }

    method GrantInOrder(now: int)
      requires Shape(Model())
      modifies this`queue, this`queued, this`waiters, this`active, this`admissions
      ensures Model() == Grant(old(Model()), now)
    {
      if draining {
        return;
      }
      ghost var s := Model();
      var i := 0;
      while i < |queue|
        invariant i <= |queue| && Shape(Model()) && Model().draining == s.draining
        invariant GrantFrom(Model(), i, now) == GrantFrom(s, 0, now)
        decreases |queue| - i
      {
        var id := queue[i];
        var w := waiters[id];
        if !w.done && now < w.deadline && w.weight > config.capacity - active {
          return;
        }
        if w.done {
          i := i + 1;
        } else if now >= w.deadline {
          waiters := waiters[id := w.(done := true, terminal := Some(WaitTimeout))];
          i := i + 1;
        } else {
          AdmitAt(i);
        }
      }
    }

    /** maybeDrainedLocked: reports whether this call gave the drained signal. */
    method SignalDrained() returns (signalled: bool)
      modifies this`drainSignals
      ensures Model() == MaybeDrained(old(Model()))
      ensures signalled <==> drainSignals != old(drainSignals)
    {
      if !draining || active != 0 || queued != 0 || drainSignals > 0 {
        return false;
      }
      drainSignals := drainSignals + 1;
      return true;
    }

    /**
     finishWait, called once by the caller that queued as `id`: a grant is turned into a permit; without one the waiter
     leaves and the others are served in order.
     */
    method FinishWait(id: nat, cause: Cause, now: int) returns (permit: Option<nat>, drained: bool)
      requires Inv(Model()) && Enabled(Model(), FinishStep(id, cause, now))
      modifies this
      ensures Inv(Model()) && Model() == Next(old(Model()), FinishStep(id, cause, now))
      ensures permit == (if old(waiters[id].granted) then Some(old(|permits|)) else None)
      ensures drained <==> drainSignals != old(drainSignals)
      ensures Grants.Finishes(old(Model()), id, cause, now, Model())
    {
      Grants.FinishMeans(Model(), id, cause, now);
      permit, drained := FinishWaitLocked(id, cause, now);
    }

    method FinishWaitLocked(id: nat, cause: Cause, now: int) returns (permit: Option<nat>, drained: bool)
      requires Shape(Model()) && Enabled(Model(), FinishStep(id, cause, now))
      requires waiters[id].linked ==> id in queue
      modifies this
      ensures Model() == Next(old(Model()), FinishStep(id, cause, now))
      ensures permit == (if old(waiters[id].granted) then Some(old(|permits|)) else None)
      ensures drained <==> drainSignals != old(drainSignals)
    {
      var w := waiters[id];
      if w.granted {
        permit, drained := Some(|permits|), false;
        waiters := waiters[id := w.(claimed := true)];
        permits := permits + [Permit(w.weight, Held, id)];
        return;
      }
      permit := None;
      drained := GiveUp(id, cause, now);
    }

    method AbandonWait(id: nat, terminal: Option<Terminal>, ghost cause: Cause)
      requires Shape(Model()) && id < |waiters| && (waiters[id].linked ==> id in queue)
      requires terminal == if waiters[id].terminal.Some? then waiters[id].terminal else CauseTerminal(cause)
      modifies this`queue, this`queued, this`waiters
      ensures Model() == Abandon(old(Model()), id, cause)
    {
      var w := waiters[id];
      waiters := waiters[id := if w.done then w.(claimed := true)
                               else w.(done := true, terminal := terminal, claimed := true)];
      if w.linked {
        UnlinkAt(Position(queue, id));
      }
    }

    /** The failing half of finishWait. */
    method GiveUp(id: nat, cause: Cause, now: int) returns (drained: bool)
      requires Shape(Model()) && id < |waiters| && !waiters[id].granted && (waiters[id].linked ==> id in queue)
      modifies this
      ensures Model() == Finish(old(Model()), id, cause, now)
      ensures drained <==> drainSignals != old(drainSignals)
    {
      var terminal := if waiters[id].terminal.Some? then waiters[id].terminal else CauseTerminal(cause);
      AbandonKeepsShape(Model(), id, cause);
      AbandonWait(id, terminal, cause);
      GrantWaiters(now);
      Reject(TerminalReason(terminal));
      drained := SignalDrained();
    }

    /** The compare-and-swap at the head of Permit.Release: only one caller ever wins it. */
    method ClaimRelease(p: nat) returns (won: bool)
      requires p < |permits|
      modifies this`permits
      ensures Model() == B.ClaimRelease(old(Model()), p)
      ensures won <==> old(permits[p].phase) == Held
    {
      won := permits[p].phase == Held;
      if won {
        permits := permits[p := permits[p].(phase := Releasing)];
      }
    }

    /** Gives the weight of a permit back and serves the queue in order with what is then free. */
    method Release(p: nat, now: int) returns (drained: bool)
      requires Inv(Model()) && Enabled(Model(), ReleaseStep(p, now))
      modifies this
      ensures Inv(Model()) && Model() == Next(old(Model()), ReleaseStep(p, now))
      ensures drained <==> drainSignals != old(drainSignals)
      ensures Grants.Releases(old(Model()), p, now, Model())
    {
      Grants.ReleaseMeans(Model(), p, now);
      drained := ReleaseLocked(p, now);
    }

    method ReleaseLocked(p: nat, now: int) returns (drained: bool)
      requires Shape(Model()) && Enabled(Model(), ReleaseStep(p, now))
      modifies this
      ensures Model() == Next(old(Model()), ReleaseStep(p, now))
      ensures drained <==> drainSignals != old(drainSignals)
    {
      active := active - permits[p].weight;
      permits := permits[p := permits[p].(phase := Released)];
      GrantWaiters(now);
      drained := SignalDrained();
    }

    /** Ends everybody who waits, because the bulkhead is closed. */
    method Close() returns (drained: bool)
      requires Inv(Model())
      modifies this
      ensures Inv(Model()) && Model() == Next(old(Model()), CloseStep)
      ensures drained <==> drainSignals != old(drainSignals)
      ensures Grants.Closes(old(Model()), Model())
    {
      Grants.CloseMeans(Model());
      drained := CloseLocked();
    }

    method CloseLocked() returns (drained: bool)
      requires Shape(Model())
      modifies this
      ensures Model() == Next(old(Model()), CloseStep)
      ensures drained <==> drainSignals != old(drainSignals)
    {
      if draining {
        return false;
      }
      draining := true;
      ghost var s := Model();
      var i := 0;
      while i < |queue|
        invariant i <= |queue| && Shape(Model())
        invariant EndAll(Model(), i) == EndAll(s, 0)
        invariant drainSignals == old(drainSignals)
      {
        var id := queue[i];
        if !waiters[id].done {
          waiters := waiters[id := waiters[id].(done := true, terminal := Some(Closed))];
        }
        i := i + 1;
      }
      drained := SignalDrained();
    }
  }
}

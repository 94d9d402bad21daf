/** Safety of every interleaving of the bulkhead's critical sections. */
module BulkheadSafety {
  import opened Collections
  import opened Sums
  import opened Bulkhead

  /** What granting and ending waiters never touches. */
  ghost predicate SameFrame(s: State, t: State) {
    && t.config == s.config
    && t.permits == s.permits
    && t.draining == s.draining
    && t.drainSignals == s.drainSignals
    && |t.waiters| == |s.waiters|
  }

  // ---- Replacing one waiter ----------------------------------------------------------------

  lemma LedgerUpdate(capacity: int, active: int, admissions: nat, waiters: seq<Waiter>, permits: seq<Permit>,
                     id: nat, w: Waiter, active': int, admissions': nat)
    requires Ledger(capacity, active, admissions, waiters, permits) && id < |waiters|
    requires active' == active - UnclaimedWeight(waiters[id]) + UnclaimedWeight(w) <= capacity
    requires admissions' == admissions - UnclaimedGrant(waiters[id]) + UnclaimedGrant(w)
    ensures Ledger(capacity, active', admissions', waiters[id := w], permits)
  {
    SumUpdate(waiters, id, w, UnclaimedWeight);
    SumUpdate(waiters, id, w, UnclaimedGrant);
  }

  lemma FifoUpdate(waiters: seq<Waiter>, permits: seq<Permit>, id: nat, w: Waiter)
    requires Fifo(waiters, permits) && id < |waiters|
    requires waiters[id].done ==> w.done
    requires w.granted && !waiters[id].granted ==> EndedBefore(waiters, id)
    ensures Fifo(waiters[id := w], permits)
  {
    forall n: nat | EndedBefore(waiters, n)
      ensures EndedBefore(waiters[id := w], n)
    {
    }
  }

  lemma LineUnlink(maxQueued: int, queued: int, queue: seq<nat>, waiters: seq<Waiter>, i: nat, w: Waiter)
    requires Line(maxQueued, queued, queue, waiters) && i < |queue| && !w.linked
    ensures Line(maxQueued, queued - 1, queue[..i] + queue[i + 1..], waiters[queue[i] := w])
  {
    var q := queue[..i] + queue[i + 1..];
    assert forall k :: 0 <= k < |q| ==> q[k] == queue[if k < i then k else k + 1];
    forall id | 0 <= id < |waiters| && waiters[id].linked && id != queue[i]
      ensures id in q
    {
      var k :| 0 <= k < |queue| && queue[k] == id;
      assert q[if k < i then k else k - 1] == id;
    }
  }

  lemma LineKeep(maxQueued: int, queued: int, queue: seq<nat>, waiters: seq<Waiter>, id: nat, w: Waiter)
    requires Line(maxQueued, queued, queue, waiters) && id < |waiters| && w.linked == waiters[id].linked
    ensures Line(maxQueued, queued, queue, waiters[id := w])
  {
  }

  lemma EndKeepsCore(s: State, id: nat, terminal: Terminal)
    requires Core(s) && id < |s.waiters| && !s.waiters[id].done
    ensures Core(End(s, id, terminal)) && SameFrame(s, End(s, id, terminal))
  {
    var w := s.waiters[id].(done := true, terminal := Some(terminal));
    assert WaiterOk(s.config.capacity, s.waiters[id]);
    LedgerUpdate(s.config.capacity, s.active, s.admissions, s.waiters, s.permits, id, w, s.active, s.admissions);
    FifoUpdate(s.waiters, s.permits, id, w);
    LineKeep(s.config.maxQueued, s.queued, s.queue, s.waiters, id, w);
  }

  lemma EarlierEnded(s: State, i: nat)
    requires Core(s) && i < |s.queue|
    requires AllEnded(s.queue[..i], s.waiters)
    ensures EndedBefore(s.waiters, s.queue[i])
  {
    forall v | 0 <= v < s.queue[i]
      ensures s.waiters[v].done
    {
      assert WaiterOk(s.config.capacity, s.waiters[v]);
      if s.waiters[v].linked {
        var k :| 0 <= k < |s.queue| && s.queue[k] == v;
        assert s.queue[..i][k] == v;
      }
    }
  }

  lemma {:induction false} EndedSoFar(s: State, i: nat, waiters: seq<Waiter>)
    requires i < |s.queue| && AllEnded(s.queue[..i], s.waiters)
    requires s.queue[i] < |waiters| == |s.waiters| && waiters[s.queue[i]].done
    requires forall id :: 0 <= id < |waiters| && s.waiters[id].done ==> waiters[id].done
    ensures AllEnded(s.queue[..i + 1], waiters)
  {
    assert s.queue[..i + 1] == s.queue[..i] + [s.queue[i]];
  }

  lemma GrantAtKeepsCore(s: State, i: nat)
    requires Core(s) && i < |s.queue| && !s.waiters[s.queue[i]].done
    requires AllEnded(s.queue[..i], s.waiters)
    requires Fits(s, s.waiters[s.queue[i]].weight)
    ensures Core(GrantAt(s, i)) && SameFrame(s, GrantAt(s, i))
    ensures i <= |GrantAt(s, i).queue| && AllEnded(GrantAt(s, i).queue[..i], GrantAt(s, i).waiters)
  {
    var id := s.queue[i];
    var w := s.waiters[id].(linked := false, done := true, granted := true);
    var t := GrantAt(s, i);
    assert t.waiters == s.waiters[id := w];
    assert WaiterOk(s.config.capacity, s.waiters[id]);
    LedgerUpdate(s.config.capacity, s.active, s.admissions, s.waiters, s.permits, id, w, t.active, t.admissions);
    LineUnlink(s.config.maxQueued, s.queued, s.queue, s.waiters, i, w);
    assert t.queue[..i] == s.queue[..i];
    EarlierEnded(s, i);
    FifoUpdate(s.waiters, s.permits, id, w);
  }

  // ---- Granting ----------------------------------------------------------------------------

  lemma BlockedAt(s: State, i: nat)
    requires Core(s) && i <= |s.queue| && AllEnded(s.queue[..i], s.waiters)
    requires i < |s.queue| ==> !Fits(s, s.waiters[s.queue[i]].weight)
    ensures HeadBlocked(s.config.capacity - s.active, s.queue, s.waiters)
  {
    if i > 0 {
      assert s.queue[..i][0] == s.queue[0];
    }
  }

  lemma GrantTurnKeepsCore(s: State, i: nat, now: int)
    requires Core(s) && i < |s.queue| && AllEnded(s.queue[..i], s.waiters) && !Stops(s, i, now)
    ensures var t := GrantTurn(s, i, now);
            var j := if |t.queue| == |s.queue| then i + 1 else i;
            Core(t) && SameFrame(s, t) && j <= |t.queue| && AllEnded(t.queue[..j], t.waiters)
  {
    var id := s.queue[i];
    var w := s.waiters[id];
    if w.done {
      EndedSoFar(s, i, s.waiters);
    } else if now >= w.deadline {
      EndKeepsCore(s, id, WaitTimeout);
      EndedSoFar(s, i, End(s, id, WaitTimeout).waiters);
    } else {
      GrantAtKeepsCore(s, i);
    }
  }

  lemma {:induction false} GrantFromKeepsCore(s: State, i: nat, now: int)
    requires Core(s) && i <= |s.queue| && AllEnded(s.queue[..i], s.waiters)
    ensures var t := GrantFrom(s, i, now);
            Core(t) && SameFrame(s, t) && HeadBlocked(t.config.capacity - t.active, t.queue, t.waiters)
    decreases |s.queue| - i
  {
    if i == |s.queue| || Stops(s, i, now) {
      BlockedAt(s, i);
    } else {
      GrantTurnKeepsCore(s, i, now);
      var t := GrantTurn(s, i, now);
      GrantFromKeepsCore(t, if |t.queue| == |s.queue| then i + 1 else i, now);
    }
  }

  lemma GrantSettles(s: State, now: int)
    requires Core(s) && (s.draining ==> AllEnded(s.queue, s.waiters))
    ensures Core(Grant(s, now)) && SameFrame(s, Grant(s, now)) && Settled(Grant(s, now))
    ensures s.draining ==> Grant(s, now) == s
  {
    if !s.draining {
      GrantFromKeepsCore(s, 0, now);
    }
  }

  // ---- Critical sections -------------------------------------------------------------------

  lemma AllDone(s: State)
    requires Core(s) && s.queued == 0
    ensures EndedBefore(s.waiters, |s.waiters|)
  {
    forall v | 0 <= v < |s.waiters|
      ensures s.waiters[v].done
    {
      assert WaiterOk(s.config.capacity, s.waiters[v]);
    }
  }

  lemma LedgerPermit(capacity: int, active: int, admissions: nat, waiters: seq<Waiter>, permits: seq<Permit>, p: Permit)
    requires Ledger(capacity, active, admissions, waiters, permits) && p.phase.Held? && active + p.weight <= capacity
    ensures Ledger(capacity, active + p.weight, admissions + 1, waiters, permits + [p])
  {
    SumAppend(permits, p, LiveWeight);
  }

  lemma WeightsPermit(capacity: int, waiters: seq<Waiter>, permits: seq<Permit>, p: Permit)
    requires WeightsOk(capacity, waiters, permits) && 0 < p.weight <= capacity
    ensures WeightsOk(capacity, waiters, permits + [p])
  {
  }

  lemma AdmitKeepsCore(s: State, weight: int)
    requires Core(s) && s.queued == 0 && 0 < weight <= s.config.capacity && Fits(s, weight)
    ensures Core(Admit(s, weight))
  {
    var p := Permit(weight, Held, |s.waiters|);
    LedgerPermit(s.config.capacity, s.active, s.admissions, s.waiters, s.permits, p);
    WeightsPermit(s.config.capacity, s.waiters, s.permits, p);
    AllDone(s);
    FifoAdmit(s.waiters, s.permits, p);
  }

  lemma FifoAdmit(waiters: seq<Waiter>, permits: seq<Permit>, p: Permit)
    requires Fifo(waiters, permits) && p.before == |waiters| && EndedBefore(waiters, |waiters|)
    ensures Fifo(waiters, permits + [p])
  {
  }

  lemma LedgerExtend(capacity: int, active: int, admissions: nat, waiters: seq<Waiter>, permits: seq<Permit>, w: Waiter)
    requires Ledger(capacity, active, admissions, waiters, permits) && !w.granted
    ensures Ledger(capacity, active, admissions, waiters + [w], permits)
  {
    SumAppend(waiters, w, UnclaimedWeight);
    SumAppend(waiters, w, UnclaimedGrant);
  }

  lemma FifoExtend(waiters: seq<Waiter>, permits: seq<Permit>, w: Waiter)
    requires Fifo(waiters, permits) && !w.granted
    ensures Fifo(waiters + [w], permits)
  {
    forall n: nat | n <= |waiters| && EndedBefore(waiters, n)
      ensures EndedBefore(waiters + [w], n)
    {
    }
  }

  lemma LineExtend(maxQueued: int, queued: int, queue: seq<nat>, waiters: seq<Waiter>, w: Waiter)
    requires Line(maxQueued, queued, queue, waiters) && w.linked && queued < maxQueued
    ensures Line(maxQueued, queued + 1, queue + [|waiters|], waiters + [w])
  {
    forall id | 0 <= id < |waiters| && waiters[id].linked
      ensures id in queue + [|waiters|]
    {
    }
  }

  lemma HeadBlockedExtend(free: int, queue: seq<nat>, waiters: seq<Waiter>, w: Waiter)
    requires HeadBlocked(free, queue, waiters) && (queue == [] ==> w.weight > free)
    ensures HeadBlocked(free, queue + [|waiters|], waiters + [w])
  {
    if HasEnded(queue, waiters) {
      var i :| 0 <= i < |queue| && queue[i] < |waiters| && waiters[queue[i]].done;
      var queue', waiters' := queue + [|waiters|], waiters + [w];
      assert queue'[i] < |waiters'| && waiters'[queue'[i]].done;
    }
  }

  lemma WeightsExtend(capacity: int, waiters: seq<Waiter>, permits: seq<Permit>, w: Waiter)
    requires WeightsOk(capacity, waiters, permits) && WaiterOk(capacity, w)
    ensures WeightsOk(capacity, waiters + [w], permits)
  {
  }

  lemma EnqueueKeepsCore(s: State, weight: int, start: int)
    requires Core(s) && s.queued < s.config.maxQueued && 0 < weight <= s.config.capacity
    ensures Core(Enqueue(s, weight, start))
  {
    var w := NewWaiter(s, weight, start);
    LedgerExtend(s.config.capacity, s.active, s.admissions, s.waiters, s.permits, w);
    FifoExtend(s.waiters, s.permits, w);
    WeightsExtend(s.config.capacity, s.waiters, s.permits, w);
    LineExtend(s.config.maxQueued, s.queued, s.queue, s.waiters, w);
  }

  lemma AcquireKeepsInv(s: State, ctx: Context, weight: int, start: int)
    requires Inv(s)
    ensures Inv(Acquire(s, ctx, weight, start).0)
  {
    match Acquire(s, ctx, weight, start).1 {
      case Admitted(_) =>
        AdmitKeepsCore(s, weight);
      case Enqueued(_) =>
        EnqueueKeepsCore(s, weight, start);
        HeadBlockedExtend(s.config.capacity - s.active, s.queue, s.waiters, NewWaiter(s, weight, start));
      case Refused(_) =>
    }
  }

  /** Abandoning replaces one waiter and takes it out of the queue if it is still there. */
  lemma AbandonIs(s: State, id: nat, cause: Cause)
    requires Core(s) && Enabled(s, FinishStep(id, cause, 0)) && !s.waiters[id].granted
    ensures var t := Abandon(s, id, cause);
            && |t.waiters| == |s.waiters| && t.waiters == s.waiters[id := t.waiters[id]]
            && WaiterOk(s.config.capacity, t.waiters[id]) && !t.waiters[id].granted && t.waiters[id].done
            && !t.waiters[id].linked
            && SameFrame(s, t) && t.active == s.active && t.admissions == s.admissions
    ensures !s.waiters[id].linked ==> Abandon(s, id, cause).queue == s.queue && Abandon(s, id, cause).queued == s.queued
    ensures s.waiters[id].linked ==>
            var t, i := Abandon(s, id, cause), Position(s.queue, id);
            i < |s.queue| && s.queue[i] == id && t.queue == s.queue[..i] + s.queue[i + 1..] && t.queued == s.queued - 1
  {
    assert WaiterOk(s.config.capacity, s.waiters[id]);
  }

  lemma WeightsUpdate(capacity: int, waiters: seq<Waiter>, permits: seq<Permit>, id: nat, w: Waiter)
    requires WeightsOk(capacity, waiters, permits) && id < |waiters| && WaiterOk(capacity, w)
    ensures WeightsOk(capacity, waiters[id := w], permits)
  {
  }

  lemma AbandonKeepsCore(s: State, id: nat, cause: Cause)
    requires Core(s) && Enabled(s, FinishStep(id, cause, 0)) && !s.waiters[id].granted
    ensures Core(Abandon(s, id, cause)) && SameFrame(s, Abandon(s, id, cause))
    ensures Abandon(s, id, cause).active == s.active
  {
    AbandonIs(s, id, cause);
    var w := Abandon(s, id, cause).waiters[id];
    LedgerUpdate(s.config.capacity, s.active, s.admissions, s.waiters, s.permits, id, w, s.active, s.admissions);
    FifoUpdate(s.waiters, s.permits, id, w);
    WeightsUpdate(s.config.capacity, s.waiters, s.permits, id, w);
    if s.waiters[id].linked {
      LineUnlink(s.config.maxQueued, s.queued, s.queue, s.waiters, Position(s.queue, id), w);
    } else {
      LineKeep(s.config.maxQueued, s.queued, s.queue, s.waiters, id, w);
    }
  }

  lemma AbandonStaysEnded(s: State, id: nat, cause: Cause)
    requires id < |s.waiters| && AllEnded(s.queue, s.waiters)
    ensures AllEnded(Abandon(s, id, cause).queue, Abandon(s, id, cause).waiters)
  {
    var t := Abandon(s, id, cause);
    var i := Position(s.queue, id);
    assert t.queue == s.queue || forall k :: 0 <= k < |t.queue| ==> t.queue[k] == s.queue[if k < i then k else k + 1];
  }

  lemma FifoPermit(waiters: seq<Waiter>, permits: seq<Permit>, permit: Permit)
    requires Fifo(waiters, permits) && permit.before < |waiters| && waiters[permit.before].granted
    ensures Fifo(waiters, permits + [permit])
  {
  }

  lemma ClaimKeepsCore(s: State, id: nat)
    requires Core(s) && id < |s.waiters| && s.waiters[id].granted && !s.waiters[id].claimed
    ensures Core(Claim(s, id))
  {
    var w := s.waiters[id].(claimed := true);
    var permit := Permit(w.weight, Held, id);
    assert WaiterOk(s.config.capacity, s.waiters[id]);
    SumUpdate(s.waiters, id, w, UnclaimedWeight);
    SumUpdate(s.waiters, id, w, UnclaimedGrant);
    SumAppend(s.permits, permit, LiveWeight);
    LineKeep(s.config.maxQueued, s.queued, s.queue, s.waiters, id, w);
    FifoUpdate(s.waiters, s.permits, id, w);
    FifoPermit(s.waiters[id := w], s.permits, permit);
  }

  lemma EndedSame(queue: seq<nat>, waiters: seq<Waiter>, id: nat, w: Waiter)
    requires id < |waiters| && w.done == waiters[id].done && w.weight == waiters[id].weight
    ensures AllEnded(queue, waiters) ==> AllEnded(queue, waiters[id := w])
    ensures forall free :: HeadBlocked(free, queue, waiters) ==> HeadBlocked(free, queue, waiters[id := w])
  {
    if HasEnded(queue, waiters) {
      var i :| 0 <= i < |queue| && queue[i] < |waiters| && waiters[queue[i]].done;
      assert waiters[id := w][queue[i]].done;
    }
  }

  lemma ConcludeKeepsInv(s: State, reason: Reason)
    requires Core(s) && Settled(s) && s.drainSignals <= (if IsDrained(s) then 1 else 0)
    ensures Inv(MaybeDrained(Reject(s, reason))) && Inv(MaybeDrained(s))
  {
  }

  lemma FailedFinishKeepsInv(s: State, id: nat, cause: Cause, now: int, reason: Reason)
    requires Inv(s) && Enabled(s, FinishStep(id, cause, now)) && !s.waiters[id].granted
    ensures Inv(MaybeDrained(Reject(Grant(Abandon(s, id, cause), now), reason)))
  {
    var t := Abandon(s, id, cause);
    AbandonKeepsCore(s, id, cause);
    if s.draining {
      AbandonStaysEnded(s, id, cause);
      assert IsDrained(s) ==> IsDrained(t);
    }
    GrantSettles(t, now);
    ConcludeKeepsInv(Grant(t, now), reason);
  }

  lemma FinishKeepsInv(s: State, id: nat, cause: Cause, now: int)
    requires Inv(s) && Enabled(s, FinishStep(id, cause, now))
    ensures Inv(Finish(s, id, cause, now))
  {
    var w := s.waiters[id];
    if w.granted {
      assert Finish(s, id, cause, now) == Claim(s, id);
      ClaimKeepsCore(s, id);
      EndedSame(s.queue, s.waiters, id, w.(claimed := true));
    } else {
      FailedFinishKeepsInv(s, id, cause, now,
                           TerminalReason(if w.terminal.Some? then w.terminal else CauseTerminal(cause)));
    }
  }

  lemma ReleaseCore(s: State, p: nat)
    requires Inv(s) && p < |s.permits| && s.permits[p].phase.Releasing?
    ensures s.active > 0
    ensures Core(s.(permits := s.permits[p := s.permits[p].(phase := Released)],
                    active := s.active - s.permits[p].weight))
  {
    var permit := s.permits[p].(phase := Released);
    SumUpdate(s.permits, p, permit, LiveWeight);
    forall q | q in s.permits ensures LiveWeight(q) >= 0 {}
    forall w | w in s.waiters ensures UnclaimedWeight(w) >= 0 {
      assert exists id :: 0 <= id < |s.waiters| && s.waiters[id] == w && WaiterOk(s.config.capacity, w);
    }
    SumNonNegative(s.permits, LiveWeight);
    SumNonNegative(s.waiters, UnclaimedWeight);
    assert LiveWeight(s.permits[p]) > 0;
  }

  lemma ReleaseKeepsInv(s: State, p: nat, now: int)
    requires Inv(s) && Enabled(s, ReleaseStep(p, now))
    ensures Inv(Release(s, p, now))
  {
    ReleaseCore(s, p);
    GrantSettles(s.(permits := s.permits[p := s.permits[p].(phase := Released)],
                    active := s.active - s.permits[p].weight), now);
  }

  lemma ClaimReleaseKeepsInv(s: State, p: nat)
    requires Inv(s) && p < |s.permits|
    ensures Inv(ClaimRelease(s, p))
  {
    SumUpdate(s.permits, p, s.permits[p].(phase := Releasing), LiveWeight);
  }

  lemma {:induction false} EndAllKeepsCore(s: State, i: nat)
    requires Core(s) && i <= |s.queue|
    requires AllEnded(s.queue[..i], s.waiters)
    ensures var t := EndAll(s, i);
            Core(t) && SameFrame(s, t) && t.active == s.active && t.queue == s.queue && AllEnded(t.queue, t.waiters)
    decreases |s.queue| - i
  {
    if i == |s.queue| {
      assert s.queue[..i] == s.queue;
    } else {
      if s.waiters[s.queue[i]].done {
        EndedSoFar(s, i, s.waiters);
        EndAllKeepsCore(s, i + 1);
      } else {
        EndKeepsCore(s, s.queue[i], Closed);
        EndedSoFar(s, i, End(s, s.queue[i], Closed).waiters);
        EndAllKeepsCore(End(s, s.queue[i], Closed), i + 1);
      }
    }
  }

  lemma CloseKeepsInv(s: State)
    requires Inv(s)
    ensures Inv(Close(s))
  {
    if !s.draining {
      EndAllKeepsCore(s.(draining := true), 0);
    }
  }

  lemma NextKeepsInv(s: State, step: Step)
    requires Inv(s)
    ensures Inv(Next(s, step))
  {
    if Enabled(s, step) {
      match step
      case AcquireStep(ctx, weight, start) => AcquireKeepsInv(s, ctx, weight, start);
      case RejectStep(reason) =>
      case FinishStep(id, cause, now) => FinishKeepsInv(s, id, cause, now);
      case ClaimReleaseStep(p) => ClaimReleaseKeepsInv(s, p);
      case ReleaseStep(p, now) => ReleaseKeepsInv(s, p, now);
      case CloseStep => CloseKeepsInv(s);
    }
  }

  // ---- Every run ---------------------------------------------------------------------------

  /** Any interleaving of callers, as the sequence of critical sections in lock order. */
  ghost function Run(s: State, steps: seq<Step>): (t: State)
    requires Inv(s)
    ensures Inv(t)
    decreases |steps|
  {
    if steps == [] then s
    else
      NextKeepsInv(s, steps[0]);
      Run(Next(s, steps[0]), steps[1..])
  }

  lemma InitInv(c: Config)
    requires ValidConfig(c)
    ensures Inv(Init(c))
  {
  }

  /** The state of a new bulkhead after any run. */
  ghost function Reach(c: Config, steps: seq<Step>): (s: State)
    requires ValidConfig(c)
    ensures Inv(s)
  {
    InitInv(c);
    Run(Init(c), steps)
  }

  /**
   Active weight is at all times exactly the weight of unreleased permits plus granted waiters
   that have not returned yet, and it never exceeds capacity; the queue never exceeds its bound.
   */
  lemma CapacityIsNeverExceeded(c: Config, steps: seq<Step>)
    requires ValidConfig(c)
    ensures var s := Reach(c, steps);
            && s.active == Sum(s.permits, LiveWeight) + Sum(s.waiters, UnclaimedWeight)
            && 0 <= s.active <= c.capacity
            && s.queued == |s.queue| <= c.maxQueued
  {
    var s := Reach(c, steps);
    RunKeepsConfig(Init(c), steps);
    ActiveNonNegative(s);
  }

  lemma FinishKeepsConfig(s: State, id: nat, cause: Cause, now: int)
    requires Inv(s) && Enabled(s, FinishStep(id, cause, now))
    ensures Finish(s, id, cause, now).config == s.config
  {
    if !s.waiters[id].granted {
      AbandonKeepsCore(s, id, cause);
      if s.draining {
        AbandonStaysEnded(s, id, cause);
      }
      GrantSettles(Abandon(s, id, cause), now);
    }
  }

  lemma ReleaseKeepsConfig(s: State, p: nat, now: int)
    requires Inv(s) && Enabled(s, ReleaseStep(p, now))
    ensures Release(s, p, now).config == s.config
  {
    ReleaseCore(s, p);
    GrantSettles(s.(permits := s.permits[p := s.permits[p].(phase := Released)],
                    active := s.active - s.permits[p].weight), now);
  }

  lemma NextKeepsConfig(s: State, step: Step)
    requires Inv(s)
    ensures Next(s, step).config == s.config
  {
    if Enabled(s, step) {
      match step
      case FinishStep(id, cause, now) => FinishKeepsConfig(s, id, cause, now);
      case ReleaseStep(p, now) => ReleaseKeepsConfig(s, p, now);
      case CloseStep =>
        if !s.draining {
          EndAllKeepsCore(s.(draining := true), 0);
        }
      case _ =>
    }
  }

  lemma {:induction false} RunKeepsConfig(s: State, steps: seq<Step>)
    requires Inv(s)
    ensures Run(s, steps).config == s.config
    decreases |steps|
  {
    if steps != [] {
      NextKeepsInv(s, steps[0]);
      NextKeepsConfig(s, steps[0]);
      RunKeepsConfig(Next(s, steps[0]), steps[1..]);
    }
  }

  /** A waiter is granted, and a later caller admitted, only after every earlier waiter ended. */
  lemma AdmissionIsFifo(c: Config, steps: seq<Step>, earlier: nat)
    requires ValidConfig(c)
    ensures var s := Reach(c, steps);
            && (forall w :: earlier < w < |s.waiters| && s.waiters[w].granted ==> s.waiters[earlier].done)
            && (forall p :: 0 <= p < |s.permits| && earlier < s.permits[p].before ==>
                  earlier < |s.waiters| && s.waiters[earlier].done)
  {
    var s := Reach(c, steps);
    forall w | earlier < w < |s.waiters| && s.waiters[w].granted
      ensures s.waiters[earlier].done
    {
      assert EndedBefore(s.waiters, w);
    }
  }

  /**
   No lost wake-up. While the bulkhead is open, a queue holding no ended waiter is blocked only
   because its head does not fit; so once everything is released, somebody queued has been woken.
   */
  lemma NoLostWakeUp(c: Config, steps: seq<Step>)
    requires ValidConfig(c)
    ensures var s := Reach(c, steps);
            && (!s.draining && s.queue != [] && !HasEnded(s.queue, s.waiters) ==>
                  s.waiters[s.queue[0]].weight > s.config.capacity - s.active)
            && (s.queue != [] && s.active == 0 ==> HasEnded(s.queue, s.waiters))
  {
    var s := Reach(c, steps);
    if s.queue != [] {
      assert WaiterOk(s.config.capacity, s.waiters[s.queue[0]]);
      if s.draining {
        assert s.waiters[s.queue[0]].done;
      }
    }
  }

  /** The drained signal is given exactly once, and exactly when nothing is admitted or queued any more. */
  lemma DrainSignalIsExact(c: Config, steps: seq<Step>)
    requires ValidConfig(c)
    ensures var s := Reach(c, steps);
            && s.drainSignals <= 1
            && (s.drainSignals == 1 <==> s.draining && s.active == 0 && s.queue == [])
  {
    var s := Reach(c, steps);
  }

  lemma DrainingStep(s: State, step: Step)
    requires Inv(s) && s.draining
    ensures var t := Next(s, step);
            t.draining && t.admissions == s.admissions && t.active <= s.active && t.queued <= s.queued
  {
    if Enabled(s, step) {
      match step
      case FinishStep(id, cause, now) =>
        assert !s.waiters[id].granted ==> Grant(Abandon(s, id, cause), now) == Abandon(s, id, cause) by {
          if !s.waiters[id].granted {
            AbandonKeepsCore(s, id, cause);
          }
        }
      case _ =>
    }
  }

  /** A closed bulkhead admits nothing again; a drained one stays empty whatever its callers do. */
  lemma {:induction false} ClosedForGood(s: State, steps: seq<Step>)
    requires Inv(s) && s.draining
    ensures var t := Run(s, steps);
            && t.draining
            && t.admissions == s.admissions
            && t.active <= s.active
            && t.queued <= s.queued
            && (IsDrained(s) ==> IsDrained(t) && t.drainSignals == s.drainSignals)
    decreases |steps|
  {
    if steps != [] {
      NextKeepsInv(s, steps[0]);
      DrainingStep(s, steps[0]);
      ClosedForGood(Next(s, steps[0]), steps[1..]);
    }
    if IsDrained(s) {
      ActiveNonNegative(Run(s, steps));
    }
  }

  lemma {:induction false} NothingOwed<T>(xs: seq<T>, weight: T -> int)
    requires forall i :: 0 <= i < |xs| ==> weight(xs[i]) == 0
    ensures Sum(xs, weight) == 0
  {
    if xs != [] {
      NothingOwed(xs[..|xs| - 1], weight);
    }
  }

  /** Capacity is never leaked: once every caller is finished, an open bulkhead admits any valid weight. */
  lemma CapacityIsRecovered(c: Config, steps: seq<Step>, weight: int, start: int)
    requires ValidConfig(c)
    requires var s := Reach(c, steps);
             && !s.draining
             && (forall p :: 0 <= p < |s.permits| ==> s.permits[p].phase.Released?)
             && (forall w :: 0 <= w < |s.waiters| ==> s.waiters[w].claimed)
    ensures var s := Reach(c, steps);
            s.active == 0 && s.queue == [] && (0 < weight <= c.capacity ==> Acquire(s, Live, weight, start).1.Admitted?)
  {
    var s := Reach(c, steps);
    RunKeepsConfig(Init(c), steps);
    NothingOwed(s.permits, LiveWeight);
    NothingOwed(s.waiters, UnclaimedWeight);
    assert forall id :: 0 <= id < |s.waiters| ==> WaiterOk(s.config.capacity, s.waiters[id]);
  }

  lemma ActiveNonNegative(s: State)
    requires Inv(s)
    ensures 0 <= s.active && 0 <= s.queued
  {
    forall p | p in s.permits ensures LiveWeight(p) >= 0 {}
    forall w | w in s.waiters ensures UnclaimedWeight(w) >= 0 {
      var id :| 0 <= id < |s.waiters| && s.waiters[id] == w;
      assert WaiterOk(s.config.capacity, s.waiters[id]);
    }
    SumNonNegative(s.permits, LiveWeight);
    SumNonNegative(s.waiters, UnclaimedWeight);
  }
}

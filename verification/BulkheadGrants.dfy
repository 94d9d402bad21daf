/**
 Who is granted, who is timed out and who is left waiting when capacity comes free, said of the queue and its deadlines
 alone; and what each critical section does to the callers that it concerns.
 */
module BulkheadGrants {
  import opened Collections
  import opened Sums
  import opened Bulkhead
  import opened BulkheadSafety

  // ---- The cut -----------------------------------------------------------------------------

  /** The waiter has not been ended and its time is not up. */
  predicate InTime(w: Waiter, now: int) {
    !w.done && now < w.deadline
  }

  /** What the first `n` in the queue are owed: the weight of those that are in time. */
  function Owed(queue: seq<nat>, waiters: seq<Waiter>, n: nat, now: int): int
    requires n <= |queue|
  {
    if n == 0 then 0
    else
      var id := queue[n - 1];
      Owed(queue, waiters, n - 1, now) + if id < |waiters| && InTime(waiters[id], now) then waiters[id].weight else 0
  }

  /** What becomes of a waiter that is reached: ended ones stay, late ones time out, and the others are granted. */
  predicate Dealt(w: Waiter, v: Waiter, now: int) {
    && (w.done ==> v == w)
    && (!w.done && now >= w.deadline ==> v == w.(done := true, terminal := Some(WaitTimeout)))
    && (InTime(w, now) ==> v == w.(linked := false, done := true, granted := true))
  }

  ghost predicate DealtUpTo(queue: seq<nat>, before: seq<Waiter>, after: seq<Waiter>, n: nat, now: int)
    requires n <= |queue|
  {
    && |after| == |before|
    && (forall k :: 0 <= k < n && queue[k] < |before| ==> Dealt(before[queue[k]], after[queue[k]], now))
    && (forall id :: 0 <= id < |before| && id !in queue[..n] ==> after[id] == before[id])
  }

  /** What granting leaves alone. */
  ghost predicate SameBooks(s: State, t: State) {
    SameFrame(s, t) && t.rejections == s.rejections
  }

  /** With `active` weight in use, all that the first `n` are owed is given out, and the next one does not fit. */
  ghost predicate CutAt(capacity: int, queue: seq<nat>, waiters: seq<Waiter>, active: int, after: int, n: nat, now: int)
    requires n <= |queue|
  {
    && after == active + Owed(queue, waiters, n, now) <= capacity
    && (n < |queue| ==>
          && queue[n] < |waiters| && InTime(waiters[queue[n]], now)
          && after + waiters[queue[n]].weight > capacity)
  }

  /** Granting reached exactly the first `n`: they are all dealt with, what they are owed fits, and no more does. */
  ghost predicate GrantsUpTo(s: State, t: State, n: nat, now: int) {
    && n <= |s.queue| && SameBooks(s, t) && DealtUpTo(s.queue, s.waiters, t.waiters, n, now)
    && CutAt(s.config.capacity, s.queue, s.waiters, s.active, t.active, n, now)
    && (n > 0 || t == s)
  }

  // ---- The loop ----------------------------------------------------------------------------

  ghost predicate Orderly(s: State) {
    Shape(s) && Distinct(s.queue) && s.active <= s.config.capacity
  }

  lemma LineIsOrderly(s: State)
    requires Core(s)
    ensures Orderly(s)
  {
  }

  /** The loop is at position `i`, having reached the first `n` of the queue that it began with. */
  ghost predicate Reached(s: State, t: State, i: nat, n: nat, now: int) {
    && n <= |s.queue| && i <= |t.queue| && t.queue[i..] == s.queue[n..]
    && SameBooks(s, t) && DealtUpTo(s.queue, s.waiters, t.waiters, n, now)
    && t.active == s.active + Owed(s.queue, s.waiters, n, now) <= s.config.capacity
    && (n > 0 || t == s)
  }

  lemma NextInLine(s: State, t: State, i: nat, n: nat, now: int)
    requires Orderly(s) && Reached(s, t, i, n, now) && i < |t.queue|
    ensures n < |s.queue| && s.queue[n] == t.queue[i] < |s.waiters| == |t.waiters|
    ensures s.queue[n] !in s.queue[..n] && t.waiters[s.queue[n]] == s.waiters[s.queue[n]]
  {
    assert t.queue[i..][0] == s.queue[n..][0];
  }

  lemma DealtNext(queue: seq<nat>, before: seq<Waiter>, after: seq<Waiter>, n: nat, now: int, v: Waiter)
    requires n < |queue| && DealtUpTo(queue, before, after, n, now)
    requires queue[n] < |before| && queue[n] !in queue[..n] && Dealt(before[queue[n]], v, now)
    ensures DealtUpTo(queue, before, after[queue[n] := v], n + 1, now)
  {
    var id, after' := queue[n], after[queue[n] := v];
    assert queue[..n + 1] == queue[..n] + [id];
    forall k | 0 <= k < n + 1 && queue[k] < |before|
      ensures Dealt(before[queue[k]], after'[queue[k]], now)
    {
      if k < n {
        assert queue[..n][k] == queue[k];
      }
    }
  }

  lemma QueueTail(queue: seq<nat>, i: nat)
    requires i < |queue|
    ensures queue[i + 1..] == queue[i..][1..]
    ensures i <= |queue[..i] + queue[i + 1..]| && (queue[..i] + queue[i + 1..])[i..] == queue[i + 1..]
  {
  }

  /** One turn changes one waiter, the next in line, and deals with it. */
  lemma TurnDeals(t: State, i: nat, now: int)
    requires i < |t.queue| && t.queue[i] < |t.waiters| && !Stops(t, i, now)
    ensures var u, id := GrantTurn(t, i, now), t.queue[i];
            && |u.waiters| == |t.waiters| && u.waiters == t.waiters[id := u.waiters[id]]
            && Dealt(t.waiters[id], u.waiters[id], now) && SameBooks(t, u)
            && u.active == t.active + (if InTime(t.waiters[id], now) then t.waiters[id].weight else 0)
            && (u.active != t.active ==> u.active <= t.config.capacity)
            && u.queue == if InTime(t.waiters[id], now) then t.queue[..i] + t.queue[i + 1..] else t.queue
  {
  }

  lemma TurnReaches(s: State, t: State, i: nat, n: nat, now: int)
    requires Orderly(s) && Reached(s, t, i, n, now) && i < |t.queue| && t.queue[i] < |t.waiters| && !Stops(t, i, now)
    ensures var u := GrantTurn(t, i, now);
            Reached(s, u, if |u.queue| == |t.queue| then i + 1 else i, n + 1, now)
  {
    NextInLine(s, t, i, n, now);
    TurnDeals(t, i, now);
    QueueTail(t.queue, i);
    QueueTail(s.queue, n);
    DealtNext(s.queue, s.waiters, t.waiters, n, now, GrantTurn(t, i, now).waiters[t.queue[i]]);
  }

  lemma {:induction false} LoopReaches(s: State, t: State, i: nat, n: nat, now: int) returns (m: nat)
    requires Orderly(s) && Shape(t) && Reached(s, t, i, n, now)
    ensures GrantsUpTo(s, GrantFrom(t, i, now), m, now)
    decreases |t.queue| - i
  {
    m := n;
    if i < |t.queue| {
      NextInLine(s, t, i, n, now);
      if !Stops(t, i, now) {
        TurnReaches(s, t, i, n, now);
        var u := GrantTurn(t, i, now);
        TurnKeepsShape(t, i, now);
        m := LoopReaches(s, u, if |u.queue| == |t.queue| then i + 1 else i, n + 1, now);
      }
    } else {
      assert |s.queue[n..]| == 0;
    }
  }

  lemma TurnKeepsShape(t: State, i: nat, now: int)
    requires Shape(t) && i < |t.queue| && !Stops(t, i, now)
    ensures Shape(GrantTurn(t, i, now))
  {
    var q := t.queue[..i] + t.queue[i + 1..];
    assert forall k :: 0 <= k < |q| ==> q[k] == t.queue[if k < i then k else k + 1];
  }

  /** Granting on an open bulkhead reaches exactly one cut of the queue; a closed one grants nothing. */
  lemma GrantIsExact(s: State, now: int)
    requires Core(s)
    ensures !s.draining ==> exists n: nat :: GrantsUpTo(s, Grant(s, now), n, now)
    ensures s.draining ==> Grant(s, now) == s
  {
    if !s.draining {
      assert s.queue[0..] == s.queue;
      LineIsOrderly(s);
      var n := LoopReaches(s, s, 0, 0, now);
      assert GrantsUpTo(s, Grant(s, now), n, now);
    }
  }

  // ---- One cut only ------------------------------------------------------------------------

  ghost predicate Heavy(queue: seq<nat>, waiters: seq<Waiter>) {
    forall k :: 0 <= k < |queue| ==> queue[k] < |waiters| && waiters[queue[k]].weight > 0
  }

  lemma LineIsHeavy(s: State)
    requires Core(s)
    ensures Heavy(s.queue, s.waiters)
  {
    forall k | 0 <= k < |s.queue|
      ensures s.queue[k] < |s.waiters| && s.waiters[s.queue[k]].weight > 0
    {
      assert WaiterOk(s.config.capacity, s.waiters[s.queue[k]]);
    }
  }

  lemma {:induction false} OwedGrows(queue: seq<nat>, waiters: seq<Waiter>, m: nat, n: nat, now: int)
    requires Heavy(queue, waiters) && m <= n <= |queue|
    ensures Owed(queue, waiters, m, now) <= Owed(queue, waiters, n, now)
    decreases n
  {
    if m < n {
      OwedGrows(queue, waiters, m, n - 1, now);
    }
  }

  /** Whoever is not in the first `n` does not fit with all before it, if the next one after them does not. */
  lemma BeyondCut(queue: seq<nat>, waiters: seq<Waiter>, room: int, n: nat, k: nat, now: int)
    requires Heavy(queue, waiters) && n <= k < |queue| && InTime(waiters[queue[n]], now)
    requires Owed(queue, waiters, n, now) + waiters[queue[n]].weight > room
    ensures Owed(queue, waiters, k + 1, now) > room
  {
    assert Owed(queue, waiters, n + 1, now) == Owed(queue, waiters, n, now) + waiters[queue[n]].weight;
    OwedGrows(queue, waiters, n + 1, k + 1, now);
  }

  lemma CutsAgree(capacity: int, queue: seq<nat>, waiters: seq<Waiter>, active: int, a: int, b: int, m: nat, n: nat,
                  now: int)
    requires Heavy(queue, waiters) && m <= |queue| && n <= |queue|
    requires CutAt(capacity, queue, waiters, active, a, m, now) && CutAt(capacity, queue, waiters, active, b, n, now)
    ensures m >= n
  {
    if m < n {
      BeyondCut(queue, waiters, capacity - active, m, n - 1, now);
    }
  }

  lemma DealtAlike(queue: seq<nat>, before: seq<Waiter>, a: seq<Waiter>, b: seq<Waiter>, n: nat, now: int)
    requires n <= |queue| && (forall k :: 0 <= k < |queue| ==> queue[k] < |before|)
    requires DealtUpTo(queue, before, a, n, now) && DealtUpTo(queue, before, b, n, now)
    ensures a == b
  {
    forall id | 0 <= id < |before|
      ensures a[id] == b[id]
    {
      if id in queue[..n] {
        var k :| 0 <= k < n && queue[..n][k] == id;
        assert Dealt(before[queue[k]], a[queue[k]], now) && Dealt(before[queue[k]], b[queue[k]], now);
      }
    }
  }

  lemma HasFirst(a: seq<nat>)
    ensures a != [] ==> a[0] in a
  {
  }

  ghost predicate Increases(a: seq<nat>) {
    forall i, j :: 0 <= i < j < |a| ==> a[i] < a[j]
  }

  lemma LastIsGreatest(a: seq<nat>)
    requires Increases(a) && a != []
    ensures forall x: nat :: x in a ==> x <= a[|a| - 1]
    ensures forall x: nat :: x in a[..|a| - 1] <==> x in a && x != a[|a| - 1]
  {
    assert a == a[..|a| - 1] + [a[|a| - 1]];
  }

  /** The queue is determined by who is linked: there is one increasing list of them. */
  lemma {:induction false} OneLine(a: seq<nat>, b: seq<nat>)
    requires Increases(a) && Increases(b)
    requires forall x: nat :: x in a <==> x in b
    ensures a == b
    decreases |a|
  {
    HasFirst(a);
    HasFirst(b);
    if a != [] {
      var m, n := |a| - 1, |b| - 1;
      LastIsGreatest(a);
      LastIsGreatest(b);
      assert a[m] in b && b[n] in a;
      assert a[m] == b[n];
      forall x: nat
        ensures x in a[..m] <==> x in b[..n]
      {
        assert x in a <==> x in b;
      }
      OneLine(a[..m], b[..n]);
      assert a == a[..m] + [a[m]] && b == b[..n] + [b[n]];
    }
  }

  /** The cut determines the outcome: any other way of granting that is exact in this sense gives the same state. */
  lemma GrantIsDetermined(s: State, t: State, u: State, m: nat, n: nat, now: int)
    requires Core(s) && Core(t) && Core(u) && GrantsUpTo(s, t, m, now) && GrantsUpTo(s, u, n, now)
    ensures t == u && m == n
  {
    LineIsHeavy(s);
    CutsAgree(s.config.capacity, s.queue, s.waiters, s.active, t.active, u.active, m, n, now);
    CutsAgree(s.config.capacity, s.queue, s.waiters, s.active, u.active, t.active, n, m, now);
    DealtAlike(s.queue, s.waiters, t.waiters, u.waiters, m, now);
    LineIsLinked(t);
    LineIsLinked(u);
    OneLine(t.queue, u.queue);
  }

  lemma LineIsLinked(s: State)
    requires Core(s)
    ensures forall x: nat :: x in s.queue <==> x < |s.waiters| && s.waiters[x].linked
  {
  }

  // ---- Releasing and finishing -------------------------------------------------------------

  /**
   Whoever fits together with all that are in time before it is dealt with, and nobody else: with `active` weight in
   use, the waiter at place `k` is reached if and only if what is owed up to it fits.
   */
  ghost predicate ServedInOrder(capacity: int, active: int, queue: seq<nat>, before: seq<Waiter>, after: seq<Waiter>,
                                now: int)
  {
    && |after| == |before|
    && (forall k :: 0 <= k < |queue| ==> Served(capacity, active, queue, before, after, k, now))
    && (forall id :: 0 <= id < |before| && id !in queue ==> after[id] == before[id])
  }

  predicate Served(capacity: int, active: int, queue: seq<nat>, before: seq<Waiter>, after: seq<Waiter>, k: nat,
                   now: int)
    requires k < |queue|
  {
    && queue[k] < |before| && queue[k] < |after|
    && (if active + Owed(queue, before, k + 1, now) <= capacity then Dealt(before[queue[k]], after[queue[k]], now)
        else after[queue[k]] == before[queue[k]])
  }

  lemma CutServes(capacity: int, active: int, after: int, queue: seq<nat>, before: seq<Waiter>, dealt: seq<Waiter>,
                  n: nat, now: int)
    requires Heavy(queue, before) && Distinct(queue) && n <= |queue| && DealtUpTo(queue, before, dealt, n, now)
    requires CutAt(capacity, queue, before, active, after, n, now)
    ensures ServedInOrder(capacity, active, queue, before, dealt, now)
  {
    forall k | 0 <= k < |queue|
      ensures Served(capacity, active, queue, before, dealt, k, now)
    {
      if k < n {
        OwedGrows(queue, before, k + 1, n, now);
      } else {
        BeyondCut(queue, before, capacity - active, n, k, now);
        assert queue[k] !in queue[..n];
      }
    }
    forall id | 0 <= id < |before| && id !in queue
      ensures dealt[id] == before[id]
    {
      assert id !in queue[..n];
    }
  }

  lemma GrantServes(s: State, now: int)
    requires Core(s) && !s.draining
    ensures Core(Grant(s, now)) && SameBooks(s, Grant(s, now))
    ensures ServedInOrder(s.config.capacity, s.active, s.queue, s.waiters, Grant(s, now).waiters, now)
  {
    GrantSettles(s, now);
    GrantIsExact(s, now);
    var n: nat :| GrantsUpTo(s, Grant(s, now), n, now);
    LineIsHeavy(s);
    LineIsOrderly(s);
    CutServes(s.config.capacity, s.active, Grant(s, now).active, s.queue, s.waiters, Grant(s, now).waiters, n, now);
  }

  /** Releasing a permit of an open bulkhead serves the queue in order with the weight that it gives back. */
  lemma ReleaseServes(s: State, p: nat, now: int)
    requires Inv(s) && Enabled(s, ReleaseStep(p, now)) && !s.draining
    ensures var t := Next(s, ReleaseStep(p, now));
            && t.permits == s.permits[p := s.permits[p].(phase := Released)] && t.rejections == s.rejections
            && ServedInOrder(s.config.capacity, s.active - s.permits[p].weight, s.queue, s.waiters, t.waiters, now)
  {
    ReleaseCore(s, p);
    GrantServes(s.(permits := s.permits[p := s.permits[p].(phase := Released)],
                   active := s.active - s.permits[p].weight), now);
  }

  /** What a release means: the permit is spent, and the queue is served with what is free without it. */
  ghost predicate Releases(s: State, p: nat, now: int, t: State)
    requires p < |s.permits|
  {
    !s.draining ==>
      && t.permits == s.permits[p := s.permits[p].(phase := Released)] && t.rejections == s.rejections
      && ServedInOrder(s.config.capacity, s.active - s.permits[p].weight, s.queue, s.waiters, t.waiters, now)
  }

  lemma ReleaseMeans(s: State, p: nat, now: int)
    requires Inv(s) && Enabled(s, ReleaseStep(p, now))
    ensures Inv(Next(s, ReleaseStep(p, now))) && Releases(s, p, now, Next(s, ReleaseStep(p, now)))
  {
    NextKeepsInv(s, ReleaseStep(p, now));
    if !s.draining {
      ReleaseServes(s, p, now);
    }
  }

  /** The queue without one waiter. */
  function Others(queue: seq<nat>, id: nat): (r: seq<nat>)
    ensures id !in queue ==> r == queue
  {
    if queue == [] then []
    else if queue[|queue| - 1] == id then Others(queue[..|queue| - 1], id)
    else Others(queue[..|queue| - 1], id) + [queue[|queue| - 1]]
  }

  lemma {:induction false} OthersAre(queue: seq<nat>, i: nat)
    requires i < |queue| && forall j, k :: 0 <= j < k < |queue| ==> queue[j] < queue[k]
    ensures Others(queue, queue[i]) == queue[..i] + queue[i + 1..]
  {
    var n := |queue| - 1;
    if i == n {
      assert queue[i] !in queue[..n];
      assert queue[..i] + queue[i + 1..] == queue[..n];
    } else {
      OthersAre(queue[..n], i);
      LeaveOut(queue, i);
    }
  }

  lemma LeaveOut(queue: seq<nat>, i: nat)
    requires i < |queue| - 1
    ensures var front := queue[..|queue| - 1];
            front[..i] + front[i + 1..] + [queue[|queue| - 1]] == queue[..i] + queue[i + 1..]
  {
    var n := |queue| - 1;
    assert queue[..n][..i] == queue[..i] && queue[..n][i + 1..] == queue[i + 1..n];
    assert queue[i + 1..] == queue[i + 1..n] + [queue[n]];
  }

  /** A waiter that was not granted gives up: it is ended, leaves the queue and returns to its caller. */
  predicate GaveUp(w: Waiter, v: Waiter, cause: Cause) {
    && v == w.(linked := false, done := true, claimed := true, terminal := v.terminal)
    && (w.done ==> v.terminal == w.terminal)
    && (!w.done && cause.ContextDone? ==> v.terminal == Some(CallerCanceled))
    && (!w.done && cause.TimerFired? ==> v.terminal == Some(WaitTimeout))
  }

  lemma AbandonGivesUp(s: State, id: nat, cause: Cause)
    requires Core(s) && Enabled(s, FinishStep(id, cause, 0)) && !s.waiters[id].granted
    ensures var t := Abandon(s, id, cause);
            && |t.waiters| == |s.waiters| && t.waiters == s.waiters[id := t.waiters[id]]
            && GaveUp(s.waiters[id], t.waiters[id], cause) && t.queue == Others(s.queue, id)
            && t.rejections == s.rejections
  {
    AbandonIs(s, id, cause);
    assert WaiterOk(s.config.capacity, s.waiters[id]);
    if s.waiters[id].linked {
      OthersAre(s.queue, Position(s.queue, id));
    } else {
      assert id !in s.queue;
    }
  }

  /** Finishing without a grant takes the waiter out and serves the others in order with the weight that is free. */
  lemma FinishServes(s: State, id: nat, cause: Cause, now: int)
    requires Inv(s) && Enabled(s, FinishStep(id, cause, now)) && !s.waiters[id].granted && !s.draining
    ensures var t := Next(s, FinishStep(id, cause, now));
            && t.permits == s.permits && id < |t.waiters| && GaveUp(s.waiters[id], t.waiters[id], cause)
            && ServedInOrder(s.config.capacity, s.active, Others(s.queue, id), s.waiters[id := t.waiters[id]],
                             t.waiters, now)
  {
    AbandonKeepsCore(s, id, cause);
    AbandonGivesUp(s, id, cause);
    var t := Abandon(s, id, cause);
    GrantServes(t, now);
    assert id !in t.queue;
  }

  /** What finishing without a grant means: the waiter gives up, and the others are served. */
  ghost predicate Finishes(s: State, id: nat, cause: Cause, now: int, t: State)
    requires id < |s.waiters|
  {
    !s.waiters[id].granted && !s.draining ==>
      && t.permits == s.permits && id < |t.waiters| && GaveUp(s.waiters[id], t.waiters[id], cause)
      && ServedInOrder(s.config.capacity, s.active, Others(s.queue, id), s.waiters[id := t.waiters[id]], t.waiters, now)
  }

  lemma FinishMeans(s: State, id: nat, cause: Cause, now: int)
    requires Inv(s) && Enabled(s, FinishStep(id, cause, now))
    ensures Inv(Next(s, FinishStep(id, cause, now))) && Finishes(s, id, cause, now, Next(s, FinishStep(id, cause, now)))
  {
    NextKeepsInv(s, FinishStep(id, cause, now));
    if !s.waiters[id].granted && !s.draining {
      FinishServes(s, id, cause, now);
    }
  }

  // ---- Deadlines ---------------------------------------------------------------------------

  /** The clock reading of a step that serves the queue. */
  predicate ServesAt(step: Step, now: int) {
    (step.ReleaseStep? && step.releasedAt == now) || (step.FinishStep? && step.finishedAt == now)
  }

  ghost predicate Newly(s: State, t: State, id: nat) {
    id < |s.waiters| && id < |t.waiters| && !s.waiters[id].granted && t.waiters[id].granted
  }

  lemma ServedFacts(capacity: int, active: int, queue: seq<nat>, before: seq<Waiter>, after: seq<Waiter>, id: nat,
                    now: int)
    requires ServedInOrder(capacity, active, queue, before, after, now) && id < |before|
    ensures after[id].weight == before[id].weight && after[id].deadline == before[id].deadline
    ensures before[id].granted ==> after[id].granted
    ensures after[id].granted && !before[id].granted ==> InTime(before[id], now)
    ensures after[id].terminal != before[id].terminal ==>
              !before[id].done && now >= before[id].deadline && after[id].terminal == Some(WaitTimeout)
  {
    if id in queue {
      var k :| 0 <= k < |queue| && queue[k] == id;
      assert Served(capacity, active, queue, before, after, k, now);
    }
  }

  /** What a step may do to a waiter that was there before it. */
  ghost predicate Lawful(w: Waiter, v: Waiter, id: nat, step: Step) {
    && v.weight == w.weight && v.deadline == w.deadline && (w.granted ==> v.granted)
    && (v.granted && !w.granted ==> !w.done && exists now :: ServesAt(step, now) && now < w.deadline)
    && (!w.done && v.terminal == Some(WaitTimeout) ==>
          || (step.FinishStep? && step.waiter == id && step.cause.TimerFired?)
          || exists now :: ServesAt(step, now) && now >= w.deadline)
    && (!w.done && v.terminal == Some(CallerCanceled) ==>
          step.FinishStep? && step.waiter == id && step.cause.ContextDone?)
    && (!w.done && v.terminal == Some(Closed) ==> step.CloseStep?)
  }

  lemma {:induction false} EndAllCloses(s: State, i: nat, id: nat, k: nat)
    requires Shape(s) && i <= |s.queue| && id < |s.waiters| && Distinct(s.queue)
    requires k <= |s.queue| && (if k < |s.queue| then s.queue[k] == id else id !in s.queue)
    ensures var t := EndAll(s, i);
            && |t.waiters| == |s.waiters|
            && t.waiters[id] == (if i <= k < |s.queue| && !s.waiters[id].done
                                 then s.waiters[id].(done := true, terminal := Some(Closed)) else s.waiters[id])
    decreases |s.queue| - i
  {
    if i < |s.queue| {
      var q := s.queue[i];
      if s.waiters[q].done {
        EndAllCloses(s, i + 1, id, k);
      } else {
        assert i != k ==> q != id;
        EndAllCloses(End(s, q, Closed), i + 1, id, k);
      }
    }
  }

  /** Closing ends exactly the waiters that were not ended yet, because the bulkhead is closed. */
  lemma CloseEndsAll(s: State, id: nat)
    requires Inv(s) && id < |s.waiters|
    ensures var w, v := s.waiters[id], Next(s, CloseStep).waiters;
            && |v| == |s.waiters|
            && v[id] == if !s.draining && !w.done then w.(done := true, terminal := Some(Closed)) else w
  {
    if !s.draining {
      EndAllCloses(s.(draining := true), 0, id, Position(s.queue, id));
      assert WaiterOk(s.config.capacity, s.waiters[id]);
    }
  }

  /** What closing means. */
  ghost predicate Closes(s: State, t: State) {
    && t.draining && |t.waiters| == |s.waiters|
    && forall id :: 0 <= id < |s.waiters| ==>
         t.waiters[id] == (if !s.draining && !s.waiters[id].done
                           then s.waiters[id].(done := true, terminal := Some(Closed)) else s.waiters[id])
  }

  lemma {:induction false} EndAllKeepsFrame(s: State, i: nat)
    requires Shape(s) && i <= |s.queue|
    ensures EndAll(s, i).draining == s.draining && |EndAll(s, i).waiters| == |s.waiters|
    decreases |s.queue| - i
  {
    if i < |s.queue| {
      var q := s.queue[i];
      EndAllKeepsFrame(if s.waiters[q].done then s else End(s, q, Closed), i + 1);
    }
  }

  lemma CloseDrains(s: State)
    requires Shape(s)
    ensures Next(s, CloseStep).draining && |Next(s, CloseStep).waiters| == |s.waiters|
  {
    EndAllKeepsFrame(s.(draining := true), 0);
  }

  lemma CloseMeans(s: State)
    requires Inv(s)
    ensures Inv(Next(s, CloseStep)) && Closes(s, Next(s, CloseStep))
  {
    var t := Next(s, CloseStep);
    NextKeepsInv(s, CloseStep);
    CloseDrains(s);
    forall id | 0 <= id < |s.waiters|
      ensures t.waiters[id] == (if !s.draining && !s.waiters[id].done
                                then s.waiters[id].(done := true, terminal := Some(Closed)) else s.waiters[id])
    {
      CloseEndsAll(s, id);
    }
  }

  /** What giving up, or being served at `now`, may do to a waiter. */
  lemma ServedIsLawful(w: Waiter, u: Waiter, v: Waiter, id: nat, step: Step, now: int)
    requires ServesAt(step, now)
    requires u == w || (step.FinishStep? && step.waiter == id && GaveUp(w, u, step.cause) && !w.granted)
    requires v.weight == u.weight && v.deadline == u.deadline && (u.granted ==> v.granted)
    requires v.granted && !u.granted ==> InTime(u, now)
    requires v.terminal != u.terminal ==> !u.done && now >= u.deadline && v.terminal == Some(WaitTimeout)
    requires w.done <==> w.granted || w.terminal.Some?
    requires step.FinishStep? && step.cause.Ready? && step.waiter == id ==> w.done
    ensures Lawful(w, v, id, step)
  {
  }

  lemma ClaimIsLawful(s: State, step: Step, id: nat)
    requires Core(s) && step.FinishStep? && Enabled(s, step) && id < |s.waiters| && s.waiters[step.waiter].granted
    ensures id < |Next(s, step).waiters| && Lawful(s.waiters[id], Next(s, step).waiters[id], id, step)
  {
    var f := step.waiter;
    assert WaiterOk(s.config.capacity, s.waiters[id]);
    assert Next(s, step).waiters == s.waiters[f := s.waiters[f].(claimed := true)];
  }

  lemma DrainingIsLawful(s: State, step: Step, id: nat)
    requires Inv(s) && step.FinishStep? && Enabled(s, step) && id < |s.waiters|
    requires !s.waiters[step.waiter].granted && s.draining
    ensures id < |Next(s, step).waiters| && Lawful(s.waiters[id], Next(s, step).waiters[id], id, step)
  {
    var t := Next(s, step);
    assert WaiterOk(s.config.capacity, s.waiters[id]);
    AbandonKeepsCore(s, step.waiter, step.cause);
    AbandonGivesUp(s, step.waiter, step.cause);
    ServedIsLawful(s.waiters[id], t.waiters[id], t.waiters[id], id, step, step.finishedAt);
  }

  lemma FinishIsLawful(s: State, step: Step, id: nat)
    requires Inv(s) && step.FinishStep? && Enabled(s, step) && id < |s.waiters|
    ensures id < |Next(s, step).waiters| && Lawful(s.waiters[id], Next(s, step).waiters[id], id, step)
  {
    var f, now := step.waiter, step.finishedAt;
    if s.waiters[f].granted {
      ClaimIsLawful(s, step, id);
    } else if s.draining {
      DrainingIsLawful(s, step, id);
    } else {
      FinishServes(s, f, step.cause, now);
      FinishedIsLawful(s, step, Next(s, step).waiters, id);
    }
  }

  lemma FinishedIsLawful(s: State, step: Step, after: seq<Waiter>, id: nat)
    requires Core(s) && step.FinishStep? && Enabled(s, step) && id < |s.waiters|
    requires var f := step.waiter;
             && !s.waiters[f].granted && f < |after| && GaveUp(s.waiters[f], after[f], step.cause)
             && ServedInOrder(s.config.capacity, s.active, Others(s.queue, f), s.waiters[f := after[f]], after,
                              step.finishedAt)
    ensures id < |after| && Lawful(s.waiters[id], after[id], id, step)
  {
    var given := s.waiters[step.waiter := after[step.waiter]];
    assert WaiterOk(s.config.capacity, s.waiters[id]);
    ServedFacts(s.config.capacity, s.active, Others(s.queue, step.waiter), given, after, id, step.finishedAt);
    ServedIsLawful(s.waiters[id], given[id], after[id], id, step, step.finishedAt);
  }

  lemma ReleaseIsLawful(s: State, step: Step, id: nat)
    requires Inv(s) && step.ReleaseStep? && Enabled(s, step) && id < |s.waiters|
    ensures id < |Next(s, step).waiters| && Lawful(s.waiters[id], Next(s, step).waiters[id], id, step)
  {
    var p, now := step.releasing, step.releasedAt;
    assert ServesAt(step, now);
    if !s.draining {
      ReleaseServes(s, p, now);
      var active := s.active - s.permits[p].weight;
      ServedFacts(s.config.capacity, active, s.queue, s.waiters, Next(s, step).waiters, id, now);
    }
  }

  /**
   In every step a waiter keeps its weight and its deadline; it is granted only before its deadline; and it is ended
   for a reason that holds: its deadline or its own timer, its own caller, or the closing.
   */
  lemma StepIsLawful(s: State, step: Step, id: nat)
    requires Inv(s) && id < |s.waiters|
    ensures id < |Next(s, step).waiters| && Lawful(s.waiters[id], Next(s, step).waiters[id], id, step)
  {
    if Enabled(s, step) {
      match step
      case FinishStep(_, _, _) => FinishIsLawful(s, step, id);
      case ReleaseStep(_, _) => ReleaseIsLawful(s, step, id);
      case CloseStep => CloseEndsAll(s, id);
      case _ =>
    }
  }

  lemma FirstIsServed(capacity: int, active: int, queue: seq<nat>, before: seq<Waiter>, after: seq<Waiter>, k: nat,
                      now: int)
    requires ServedInOrder(capacity, active, queue, before, after, now) && k < |queue| && queue[k] < |before|
    requires forall j :: 0 <= j < k && queue[j] < |before| ==> !InTime(before[queue[j]], now)
    requires InTime(before[queue[k]], now) && before[queue[k]].weight <= capacity - active
    ensures after[queue[k]].granted
  {
    NothingOwedBefore(queue, before, k, now);
    assert Served(capacity, active, queue, before, after, k, now);
  }

  /**
   Of those in the queue when a permit is released, the first that is in time, if it fits, is granted: what is ahead of
   it does not hold it up.
   */
  lemma FirstInTimeIsGranted(s: State, p: nat, now: int, k: nat)
    requires Inv(s) && Enabled(s, ReleaseStep(p, now)) && !s.draining && k < |s.queue|
    requires forall j :: 0 <= j < k ==> !InTime(s.waiters[s.queue[j]], now)
    requires InTime(s.waiters[s.queue[k]], now)
    requires s.waiters[s.queue[k]].weight <= s.config.capacity - (s.active - s.permits[p].weight)
    ensures Newly(s, Next(s, ReleaseStep(p, now)), s.queue[k])
  {
    ReleaseServes(s, p, now);
    FirstIsServed(s.config.capacity, s.active - s.permits[p].weight, s.queue, s.waiters,
                  Next(s, ReleaseStep(p, now)).waiters, k, now);
    assert WaiterOk(s.config.capacity, s.waiters[s.queue[k]]);
  }

  lemma OthersLeaveOut(s: State, f: nat, queue: seq<nat>)
    requires Core(s) && queue == Others(s.queue, f)
    ensures forall k :: 0 <= k < |queue| ==> queue[k] < |s.waiters| && queue[k] != f
  {
    if f in s.queue {
      OthersAre(s.queue, Position(s.queue, f));
    }
  }

  lemma FirstOfOthers(capacity: int, active: int, queue: seq<nat>, before: seq<Waiter>, f: nat, after: seq<Waiter>,
                      k: nat, now: int)
    requires f < |before| && f < |after| && k < |queue|
    requires forall j :: 0 <= j < |queue| ==> queue[j] < |before| && queue[j] != f
    requires ServedInOrder(capacity, active, queue, before[f := after[f]], after, now)
    requires forall j :: 0 <= j < k ==> !InTime(before[queue[j]], now)
    requires InTime(before[queue[k]], now) && before[queue[k]].weight <= capacity - active
    ensures queue[k] < |after| && after[queue[k]].granted
  {
    FirstIsServed(capacity, active, queue, before[f := after[f]], after, k, now);
  }

  lemma InTimeIsNotGranted(s: State, id: nat, now: int)
    requires Core(s) && id < |s.waiters| && InTime(s.waiters[id], now)
    ensures !s.waiters[id].granted
  {
    assert WaiterOk(s.config.capacity, s.waiters[id]);
  }

  /** The same of those that are left in the queue when a waiter gives up. */
  lemma FinishGrantsFirst(s: State, f: nat, cause: Cause, now: int, queue: seq<nat>, k: nat)
    requires Inv(s) && Enabled(s, FinishStep(f, cause, now)) && !s.waiters[f].granted && !s.draining
    requires queue == Others(s.queue, f) && k < |queue| && queue[k] < |s.waiters|
    requires forall j :: 0 <= j < k && queue[j] < |s.waiters| ==> !InTime(s.waiters[queue[j]], now)
    requires InTime(s.waiters[queue[k]], now) && s.waiters[queue[k]].weight <= s.config.capacity - s.active
    ensures Newly(s, Next(s, FinishStep(f, cause, now)), queue[k])
  {
    var after := Next(s, FinishStep(f, cause, now)).waiters;
    FinishServes(s, f, cause, now);
    OthersLeaveOut(s, f, queue);
    FirstOfOthers(s.config.capacity, s.active, queue, s.waiters, f, after, k, now);
    InTimeIsNotGranted(s, queue[k], now);
  }

  lemma {:induction false} NothingOwedBefore(queue: seq<nat>, waiters: seq<Waiter>, n: nat, now: int)
    requires n <= |queue|
    requires forall j :: 0 <= j < n && queue[j] < |waiters| ==> !InTime(waiters[queue[j]], now)
    ensures Owed(queue, waiters, n, now) == 0
  {
    if n > 0 {
      NothingOwedBefore(queue, waiters, n - 1, now);
    }
  }

  // ---- Whole runs --------------------------------------------------------------------------

  /** A caller that queues at `start` has until `start + maxWait`, in every run that follows. */
  lemma {:induction false} RunKeepsTerms(s: State, steps: seq<Step>, id: nat)
    requires Inv(s) && id < |s.waiters|
    ensures var r := Run(s, steps);
            && id < |r.waiters| && r.waiters[id].weight == s.waiters[id].weight
            && r.waiters[id].deadline == s.waiters[id].deadline
    decreases |steps|
  {
    if steps != [] {
      NextKeepsInv(s, steps[0]);
      StepIsLawful(s, steps[0], id);
      RunKeepsTerms(Next(s, steps[0]), steps[1..], id);
    }
  }

  /** Some step of the run served the queue before `deadline`. */
  ghost predicate ServedBefore(steps: seq<Step>, deadline: int) {
    exists i, now :: 0 <= i < |steps| && ServesAt(steps[i], now) && now < deadline
  }

  lemma {:induction false} RunGrantsInTime(s: State, steps: seq<Step>, id: nat)
    requires Inv(s) && id < |s.waiters| && !s.waiters[id].granted
    requires id < |Run(s, steps).waiters| && Run(s, steps).waiters[id].granted
    ensures ServedBefore(steps, s.waiters[id].deadline)
    decreases |steps|
  {
    if steps != [] {
      var t, rest := Next(s, steps[0]), steps[1..];
      NextKeepsInv(s, steps[0]);
      StepIsLawful(s, steps[0], id);
      if !t.waiters[id].granted {
        RunGrantsInTime(t, rest, id);
        var i, now :| 0 <= i < |rest| && ServesAt(rest[i], now) && now < t.waiters[id].deadline;
        assert steps[i + 1] == rest[i];
      }
    }
  }

  /**
   A caller queued at `start` keeps its weight and the deadline `start + maxWait` whatever follows, and if it is ever
   granted, capacity was given out at a moment before that deadline.
   */
  lemma QueuedCallersAreGrantedInTime(c: Config, before: seq<Step>, weight: int, start: int, after: seq<Step>)
    requires ValidConfig(c) && Acquire(Reach(c, before), Live, weight, start).1.Enqueued?
    ensures var s := Reach(c, before);
            var id := Acquire(s, Live, weight, start).1.waiter;
            Inv(Next(s, AcquireStep(Live, weight, start))) &&
            var r := Run(Next(s, AcquireStep(Live, weight, start)), after);
            && id < |r.waiters| && r.waiters[id].weight == weight && r.waiters[id].deadline == start + c.maxWait
            && (r.waiters[id].granted ==> ServedBefore(after, start + c.maxWait))
  {
    var s := Reach(c, before);
    InitInv(c);
    RunKeepsConfig(Init(c), before);
    var step := AcquireStep(Live, weight, start);
    NextKeepsInv(s, step);
    var t, id := Next(s, step), |s.waiters|;
    RunKeepsTerms(t, after, id);
    if Run(t, after).waiters[id].granted {
      RunGrantsInTime(t, after, id);
    }
  }

  // ---- Who is let in -----------------------------------------------------------------------

  /** What stands in the way of a caller, before its turn comes. */
  predicate Obstacle(s: State, ctx: Context, weight: int, reason: Reason) {
    match reason
    case Caller => ctx.NilContext? || ctx.Canceled?
    case Weight => !(0 < weight <= s.config.capacity)
    case Reentry => ctx.Reentrant?
    case Shutdown => s.draining
    case Capacity => !s.config.wait && !(s.queue == [] && Fits(s, weight))
    case Queue => s.config.wait && |s.queue| >= s.config.maxQueued && !(s.queue == [] && Fits(s, weight))
    case Timeout => false
  }

  /**
   A caller is let in if and only if nothing stands in its way, nobody queues and it fits; it queues if and only if
   nothing stands in its way but it cannot go in; and it is refused only for what does stand in its way.
   */
  ghost predicate Decides(s: State, ctx: Context, weight: int, o: Outcome) {
    var free := forall reason :: !Obstacle(s, ctx, weight, reason);
    && (o.Admitted? <==> free && s.queue == [] && Fits(s, weight))
    && (o.Enqueued? <==> free && !(s.queue == [] && Fits(s, weight)))
    && (o.Refused? ==> Obstacle(s, ctx, weight, o.reason))
  }

  lemma AcquireDecides(s: State, ctx: Context, weight: int, start: int)
    requires Inv(s)
    ensures Decides(s, ctx, weight, Acquire(s, ctx, weight, start).1)
    ensures Acquire(s, ctx, weight, start).1.Refused? ==> Acquire(s, ctx, weight, start).0 == s
  {
    var o := Acquire(s, ctx, weight, start).1;
    if o.Refused? {
      assert Obstacle(s, ctx, weight, o.reason);
    } else {
      forall reason
        ensures !Obstacle(s, ctx, weight, reason)
      {
      }
    }
  }

  /** Under what a wait that ended in this way is counted. */
  function Why(terminal: Option<Terminal>): Reason {
    if terminal == Some(Closed) then Shutdown else if terminal == Some(WaitTimeout) then Timeout else Caller
  }

  lemma AbandonedWhy(s: State, id: nat, cause: Cause)
    requires Core(s) && Enabled(s, FinishStep(id, cause, 0)) && !s.waiters[id].granted
    ensures var w := s.waiters[id];
            TerminalReason(if w.terminal.Some? then w.terminal else CauseTerminal(cause)) ==
            Why(Abandon(s, id, cause).waiters[id].terminal)
  {
    assert WaiterOk(s.config.capacity, s.waiters[id]);
  }

  lemma FinishRejects(s: State, id: nat, cause: Cause, now: int)
    requires Core(s) && Enabled(s, FinishStep(id, cause, now)) && !s.waiters[id].granted
    ensures var t := Abandon(s, id, cause);
            Next(s, FinishStep(id, cause, now)) == MaybeDrained(Reject(Grant(t, now), Why(t.waiters[id].terminal)))
  {
    AbandonedWhy(s, id, cause);
  }

  lemma RejectCounts(s: State, why: Reason, reason: Reason)
    ensures Rejections(MaybeDrained(Reject(s, why)), reason) == Rejections(s, reason) + if reason == why then 1 else 0
    ensures MaybeDrained(Reject(s, why)).waiters == s.waiters
  {
  }

  /** A caller that gives up is counted once, under the reason for which its wait ended. */
  lemma GivingUpIsCounted(s: State, id: nat, cause: Cause, now: int, reason: Reason)
    requires Inv(s) && Enabled(s, FinishStep(id, cause, now)) && !s.waiters[id].granted
    ensures var t := Next(s, FinishStep(id, cause, now));
            && id < |t.waiters|
            && Rejections(t, reason) == Rejections(s, reason) + if reason == Why(t.waiters[id].terminal) then 1 else 0
  {
    AbandonKeepsCore(s, id, cause);
    AbandonGivesUp(s, id, cause);
    FinishRejects(s, id, cause, now);
    var t := Abandon(s, id, cause);
    RejectCounts(Grant(t, now), Why(t.waiters[id].terminal), reason);
    OutsiderIsLeft(t, id, now);
  }

  lemma OutsiderIsLeft(t: State, id: nat, now: int)
    requires Core(t) && id < |t.waiters| && !t.waiters[id].linked
    ensures var u := Grant(t, now);
            |u.waiters| == |t.waiters| && u.waiters[id] == t.waiters[id] && u.rejections == t.rejections
  {
    if !t.draining {
      GrantServes(t, now);
      LineIsLinked(t);
    }
  }

  lemma FinishKeepsPermits(s: State, id: nat, cause: Cause, now: int)
    requires Inv(s) && Enabled(s, FinishStep(id, cause, now))
    ensures s.permits <= Next(s, FinishStep(id, cause, now)).permits
  {
    if !s.waiters[id].granted {
      AbandonKeepsCore(s, id, cause);
      if !s.draining {
        FinishServes(s, id, cause, now);
      }
    }
  }

  /** A permit is released at most once: its release is claimed by one caller, which then gives its weight back. */
  lemma PermitsMoveOn(s: State, step: Step, p: nat)
    requires Inv(s) && p < |s.permits|
    ensures var t := Next(s, step);
            && p < |t.permits| && t.permits[p].weight == s.permits[p].weight
            && (t.permits[p].phase == s.permits[p].phase <==>
                  !(step == ClaimReleaseStep(p) && s.permits[p].phase.Held?)
                  && !(step.ReleaseStep? && step.releasing == p && s.permits[p].phase.Releasing?))
            && (s.permits[p].phase.Held? ==> !t.permits[p].phase.Released?)
            && (s.permits[p].phase.Releasing? ==> !t.permits[p].phase.Held?)
            && (s.permits[p].phase.Released? ==> t.permits[p].phase.Released?)
  {
    if Enabled(s, step) {
      match step
      case FinishStep(id, cause, now) => FinishKeepsPermits(s, id, cause, now);
      case ReleaseStep(q, now) =>
        if !s.draining {
          ReleaseServes(s, q, now);
        }
      case CloseStep =>
        if !s.draining {
          EndAllKeepsCore(s.(draining := true), 0);
        }
      case _ =>
    }
  }
}

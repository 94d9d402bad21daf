/** What the histories of the throttle table hold after a run of the whole table. */
module ThrottleRuns {
  import opened ThrottleWindow
  import opened ThrottleTable
  import opened ThrottleTableSafety

  // ---------------------------------------------------------------- what a history holds

  /** What one step does to the history that is then kept for `key`. */
  ghost function CallsOf(t: Table, step: TableStep, key: string): seq<Call> {
    match step
    case TryAcquire(k, now, tick, shed, dryRun) =>
      if k != key then []
      else if shed then [Note(now, tick, if dryRun then DryRunRejection else LocalRejection)]
      else [Look(now, tick)]
    case RecordDirectly(k, now, tick, kind) => if k != key || kind.DryRunRejection? then [] else [Note(now, tick, kind)]
    case RecordClaimed(i, now, tick) =>
      if i < |t.permits| && t.permits[i].pending.Some? && t.permits[i].resource == key && IsLive(t, t.permits[i])
      then [Note(now, tick, t.permits[i].pending.value)]
      else []
    case TakeSnapshot(k, now, tick) => if k == key then [Look(now, tick)] else []
    case _ => []
  }

  /** The same history, not one made anew, is kept for `key` before and after. */
  predicate SameHistory(t: Table, u: Table, key: string) {
    key in t.resources && key in u.resources && t.resources[key].id == u.resources[key].id
  }

  /** Everything that a run did to the history now kept for `key`, since that was made. */
  ghost function Calls(max: nat, steps: seq<TableStep>, key: string): seq<Call>
    requires 1 <= max
    decreases |steps|
  {
    InitInv(max);
    if steps == [] then []
    else
      var front, last := steps[..|steps| - 1], steps[|steps| - 1];
      var t := FromInit(max, front);
      (if SameHistory(t, Next(t, last), key) then Calls(max, front, key) else []) + CallsOf(t, last, key)
  }

  function Birth(call: Call): Window {
    Window([], call.tick, call.now.order)
  }

  lemma RunOne(w: Window, call: Call)
    ensures Run(w, [call]) == Step(w, call)
  {
    assert [call][..0] == [];
  }

  lemma RunSnoc(w: Window, calls: seq<Call>, call: Call)
    ensures Run(w, calls + [call]) == Step(Run(w, calls), call)
  {
    assert (calls + [call])[..|calls|] == calls;
  }

  /** One step does to the window of a history that stays exactly what its calls say. */
  lemma StepIsCalls(t: Table, step: TableStep, key: string)
    requires Inv(t) && SameHistory(t, Next(t, step), key)
    ensures |CallsOf(t, step, key)| <= 1
    ensures Next(t, step).resources[key].window ==
            if CallsOf(t, step, key) == [] then t.resources[key].window
            else Step(t.resources[key].window, CallsOf(t, step, key)[0])
  {
    match step
    case TryAcquire(k, now, tick, shed, dryRun) => AcquireIsCall(t, k, now, tick, shed, dryRun, key);
    case RecordDirectly(k, now, tick, kind) =>
      if k != key && !kind.DryRunRejection? {
        TouchTouchesOne(t, k, now, tick, key);
      }
    case _ =>
  }

  lemma AcquireIsCall(t: Table, k: string, now: Instant, tick: Int64, shed: bool, dryRun: bool, key: string)
    requires Inv(t) && SameHistory(t, Acquire(t, k, now, tick, shed, dryRun), key)
    ensures Acquire(t, k, now, tick, shed, dryRun).resources[key].window ==
            if k != key then t.resources[key].window
            else Step(t.resources[key].window, CallsOf(t, TryAcquire(k, now, tick, shed, dryRun), key)[0])
  {
    if k != key {
      TouchTouchesOne(t, k, now, tick, key);
    }
  }

  /** A step that makes a history makes one call to it, at the instant of its birth. */
  lemma BirthIsCall(t: Table, step: TableStep, key: string)
    requires Inv(t) && key in Next(t, step).resources && !SameHistory(t, Next(t, step), key)
    ensures |CallsOf(t, step, key)| == 1
    ensures var call := CallsOf(t, step, key)[0]; Next(t, step).resources[key].window == Step(Birth(call), call)
  {
    match step
    case TryAcquire(k, now, tick, _, _) =>
      TouchOwn(t, k, now, tick);
      if k != key {
        TouchTouchesOne(t, k, now, tick, key);
      }
    case RecordDirectly(k, now, tick, kind) =>
      TouchOwn(t, k, now, tick);
      if k != key && !kind.DryRunRejection? {
        TouchTouchesOne(t, k, now, tick, key);
      }
    case _ =>
  }

  /** After every run, a history's window is what its calls, and no others, made of an empty one. */
  lemma {:induction false} HistoryIsItsCalls(max: nat, steps: seq<TableStep>, key: string)
    requires 1 <= max && key in FromInit(max, steps).resources
    ensures var calls := Calls(max, steps, key);
            calls != [] && FromInit(max, steps).resources[key].window == Run(Birth(calls[0]), calls)
    decreases |steps|
  {
    InitInv(max);
    var front, last := steps[..|steps| - 1], steps[|steps| - 1];
    var t := FromInit(max, front);
    var more := CallsOf(t, last, key);
    if SameHistory(t, Next(t, last), key) {
      HistoryIsItsCalls(max, front, key);
      StepIsCalls(t, last, key);
      var before := Calls(max, front, key);
      if more == [] {
        assert before + more == before;
      } else {
        assert before + more == before + [more[0]];
        RunSnoc(Birth(before[0]), before, more[0]);
      }
    } else {
      BirthIsCall(t, last, key);
      assert [] + more == [more[0]];
      RunOne(Birth(more[0]), more[0]);
    }
  }

  /** The clock went back at call `k`, or `k` is where the history began; and it has not gone back since. */
  ghost predicate LastReversal(calls: seq<Call>, k: nat) {
    && k < |calls| && Forward(calls[k..])
    && (k == 0 || Reverses(Run(Birth(calls[0]), calls[..k]), calls[k].now, calls[k].tick))
  }

  /**
   * After every run of the whole table, what a history counts is exactly what was recorded for it since the clock last
   * went back: nothing of another resource, of a history that was evicted or reset, or of a stale permit.
   */
  lemma CountsAreSinceReversal(max: nat, steps: seq<TableStep>, key: string, k: nat)
    requires 1 <= max && key in FromInit(max, steps).resources && LastReversal(Calls(max, steps, key), k)
    ensures FromInit(max, steps).resources[key].window.log == Noted(Calls(max, steps, key)[k..])
  {
    var calls := Calls(max, steps, key);
    HistoryIsItsCalls(max, steps, key);
    if k > 0 {
      LogIsSinceReversal(Birth(calls[0]), calls, k);
    } else {
      assert calls[0..] == calls;
      FirstIsEarliest(calls);
      ForwardKeepsLog(Birth(calls[0]), calls);
    }
  }

  lemma FirstIsEarliest(calls: seq<Call>)
    requires calls != [] && Forward(calls)
    ensures forall i :: 0 <= i < |calls| ==>
              Birth(calls[0]).lastTime <= calls[i].now.order && Birth(calls[0]).lastTick <= calls[i].tick
  {
  }

  /** There is always such a call, so this describes every history of every run. */
  lemma {:induction false} LastReversalExists(calls: seq<Call>) returns (k: nat)
    requires calls != []
    ensures LastReversal(calls, k)
    decreases |calls|
  {
    var n := |calls| - 1;
    k := 0;
    if n > 0 {
      var front := calls[..n];
      k := LastReversalExists(front);
      RunEndsAtLast(Birth(calls[0]), front);
      if Reverses(Run(Birth(calls[0]), front), calls[n].now, calls[n].tick) {
        k := n;
      } else {
        assert front[..k] == calls[..k];
        ForwardOneMore(calls, k);
      }
    }
  }

  lemma RunEndsAtLast(w: Window, calls: seq<Call>)
    requires calls != []
    ensures Run(w, calls).lastTick == calls[|calls| - 1].tick && Run(w, calls).lastTime == calls[|calls| - 1].now.order
  {
  }

  lemma ForwardOneMore(calls: seq<Call>, k: nat)
    requires |calls| > 1 && k < |calls| - 1 && Forward(calls[..|calls| - 1][k..])
    requires calls[|calls| - 2].now.order <= calls[|calls| - 1].now.order
    requires calls[|calls| - 2].tick <= calls[|calls| - 1].tick
    ensures Forward(calls[k..])
  {
    var front, tail := calls[..|calls| - 1][k..], calls[k..];
    var m := |tail| - 1;
    assert forall i :: 0 <= i < m ==> tail[i] == front[i];
    forall i, j | 0 <= i < j < |tail|
      ensures tail[i].now.order <= tail[j].now.order && tail[i].tick <= tail[j].tick
    {
      if j == m && i < m - 1 {
        assert front[i].now.order <= front[m - 1].now.order && front[i].tick <= front[m - 1].tick;
      }
    }
  }
}

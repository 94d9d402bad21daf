/** What every run of the throttle table keeps. */
module ThrottleTableSafety {
  import opened Collections
  import opened ThrottleWindow
  import opened ThrottleTable

  // ---------------------------------------------------------------- slots

  lemma RemoveKeepsSlots(resources: Resources, slots: seq<bool>, key: string)
    requires SlotsRight(resources, slots) && key in resources
    ensures SlotsRight(resources - {key}, slots[resources[key].slot := false])
  {
    var after, slots' := resources - {key}, slots[resources[key].slot := false];
    forall i | 0 <= i < |slots'|
      ensures slots'[i] <==> Holds(after, i)
    {
      assert slots[i] <==> Holds(resources, i);
      if i != resources[key].slot && slots[i] {
        var k :| k in resources && resources[k].slot == i;
        assert k in after;
      }
    }
  }

  lemma AddKeepsSlots(resources: Resources, slots: seq<bool>, key: string, r: Resource)
    requires SlotsRight(resources, slots) && key !in resources && 1 <= r.slot < |slots| && !slots[r.slot]
    ensures SlotsRight(resources[key := r], slots[r.slot := true])
  {
    var after, slots' := resources[key := r], slots[r.slot := true];
    assert !Holds(resources, r.slot);
    forall i | 0 <= i < |slots'|
      ensures slots'[i] <==> Holds(after, i)
    {
      assert slots[i] <==> Holds(resources, i);
      if i == r.slot {
        assert after[key].slot == i;
      } else if slots[i] {
        var k :| k in resources && resources[k].slot == i;
        assert after[k].slot == i;
      }
    }
  }

  lemma UpdateKeepsSlots(resources: Resources, slots: seq<bool>, key: string, r: Resource)
    requires SlotsRight(resources, slots) && key in resources && r.slot == resources[key].slot
    ensures SlotsRight(resources[key := r], slots)
  {
    var after := resources[key := r];
    forall i | 0 <= i < |slots|
      ensures slots[i] <==> Holds(after, i)
    {
      assert slots[i] <==> Holds(resources, i);
      if slots[i] {
        var k :| k in resources && resources[k].slot == i;
        assert after[k].slot == i;
      }
    }
  }

  ghost function UpTo(n: nat): (s: set<nat>)
    ensures forall i :: i in s <==> 1 <= i <= n
    ensures |s| == n
  {
    if n == 0 then {} else UpTo(n - 1) + {n}
  }

  lemma {:induction false} ImageSize(resources: Resources, keys: set<string>)
    requires keys <= resources.Keys
    ensures |set k | k in keys :: resources[k].slot| <= |keys|
  {
    if keys != {} {
      var key :| key in keys;
      ImageSize(resources, keys - {key});
      var rest := set k | k in keys - {key} :: resources[k].slot;
      assert (set k | k in keys :: resources[k].slot) == rest + {resources[key].slot};
    }
  }

  /** While the table is not full some slot from 1 on is free: the reserved slot 0 is never handed out. */
  lemma FreeSlotExists(t: Table)
    requires Inv(t) && |t.resources| < t.max
    ensures 1 <= FirstFree(t.slots, 1) <= t.max && !t.slots[FirstFree(t.slots, 1)]
  {
    ImageSize(t.resources, t.resources.Keys);
    assert |t.resources.Keys| == |t.resources|;
    if FirstFree(t.slots, 1) == 0 {
      var held := set k | k in t.resources.Keys :: t.resources[k].slot;
      forall i | i in UpTo(t.max)
        ensures i in held
      {
        assert t.slots[i] && Holds(t.resources, i);
      }
      SubsetSize(UpTo(t.max), held);
    }
  }

  // ---------------------------------------------------------------- eviction

  ghost predicate LeastOf(resources: Resources, keys: set<string>, key: string)
    requires keys <= resources.Keys
  {
    key in keys && forall other :: other in keys && other != key ==> Precedes(resources[key], resources[other])
  }

  lemma {:induction false} LeastExists(resources: Resources, keys: set<string>)
    requires keys <= resources.Keys && keys != {}
    requires forall j, k :: j in resources && k in resources && j != k ==> resources[j].slot != resources[k].slot
    ensures exists key :: LeastOf(resources, keys, key)
  {
    var key :| key in keys;
    var rest := keys - {key};
    if rest == {} {
      assert keys == {key};
      assert LeastOf(resources, keys, key);
    } else {
      LeastExists(resources, rest);
      var least :| LeastOf(resources, rest, least);
      assert LeastOf(resources, keys, if Precedes(resources[key], resources[least]) then key else least);
    }
  }

  lemma VictimIsUnique(resources: Resources, j: string, k: string)
    requires IsVictim(resources, j) && IsVictim(resources, k)
    ensures j == k
  {
  }

  /** A full table gives up exactly its least recently used history. */
  lemma EvictionIsLeastRecent(t: Table)
    requires Inv(t) && |t.resources| == t.max
    ensures exists key :: IsVictim(t.resources, key) && Evict(t) == Drop(t, key)
    ensures forall key :: IsVictim(t.resources, key) ==> Evict(t) == Drop(t, key)
  {
    assert t.resources.Keys != {} by {
      assert |t.resources.Keys| == |t.resources|;
    }
    LeastExists(t.resources, t.resources.Keys);
    var least :| LeastOf(t.resources, t.resources.Keys, least);
    assert IsVictim(t.resources, least);
    forall j, k | IsVictim(t.resources, j) && IsVictim(t.resources, k)
      ensures j == k
    {
      VictimIsUnique(t.resources, j, k);
    }
  }

  // ---------------------------------------------------------------- steps keep the invariant

  lemma UpdateKeepsIds(resources: Resources, created: nat, key: string, r: Resource)
    requires IdsRight(resources, created) && key in resources && r.id == resources[key].id
    ensures IdsRight(resources[key := r], created)
    ensures |resources[key := r]| == |resources|
  {
    var after := resources[key := r];
    assert after.Keys == resources.Keys && |after.Keys| == |after| && |resources.Keys| == |resources|;
    forall k | k in after
      ensures after[k].id == resources[k].id
    {
    }
  }

  lemma UpdateKeepsUse(resources: Resources, sequence: nat, key: string, r: Resource)
    requires UseRight(resources, sequence) && key in resources && r.lastUsed == resources[key].lastUsed
    ensures UseRight(resources[key := r], sequence)
  {
    var after := resources[key := r];
    forall k | k in after
      ensures after[k].lastUsed == resources[k].lastUsed
    {
    }
  }

  lemma NewestKeepsUse(resources: Resources, sequence: nat, key: string, r: Resource)
    requires UseRight(resources, sequence) && r.lastUsed == sequence
    requires sequence < MAX_UINT64 ==> forall k :: k in resources ==> resources[k].lastUsed < sequence
    ensures UseRight(resources[key := r], sequence)
  {
    var after := resources[key := r];
    forall k | k in after && k != key
      ensures after[k].lastUsed == resources[k].lastUsed
    {
    }
  }

  lemma AddKeepsIds(resources: Resources, created: nat, key: string, r: Resource)
    requires IdsRight(resources, created) && key !in resources && r.id == created
    ensures IdsRight(resources[key := r], created + 1)
    ensures |resources[key := r]| == |resources| + 1
  {
    var after := resources[key := r];
    assert after.Keys == resources.Keys + {key} && |after.Keys| == |after| && |resources.Keys| == |resources|;
    forall k | k in after && k != key
      ensures after[k].id == resources[k].id
    {
    }
  }

  lemma DropKeepsInv(t: Table, key: string)
    requires Inv(t) && key in t.resources
    ensures Inv(Drop(t, key)) && |Drop(t, key).resources| == |t.resources| - 1
  {
    RemoveKeepsSlots(t.resources, t.slots, key);
    assert (t.resources - {key}).Keys == t.resources.Keys - {key};
    assert |(t.resources - {key}).Keys| == |t.resources.Keys| - 1;
  }

  lemma SetWindowKeepsInv(t: Table, key: string, w: Window)
    requires Inv(t) && key in t.resources
    ensures Inv(SetWindow(t, key, w))
  {
    var r := t.resources[key].(window := w);
    UpdateKeepsSlots(t.resources, t.slots, key, r);
    UpdateKeepsIds(t.resources, t.created, key, r);
    UpdateKeepsUse(t.resources, t.sequence, key, r);
  }

  /** The sequence number is new: nobody was used at it, unless it is exhausted. */
  ghost predicate NewUse(t: Table) {
    t.sequence < MAX_UINT64 ==> forall k :: k in t.resources ==> t.resources[k].lastUsed < t.sequence
  }

  lemma TickIsNew(t: Table)
    requires Inv(t)
    ensures Inv(t.(sequence := Tick(t.sequence))) && NewUse(t.(sequence := Tick(t.sequence)))
  {
  }

  lemma UseKeepsInv(t: Table, key: string)
    requires Inv(t) && NewUse(t) && key in t.resources
    ensures Inv(Use(t, key))
  {
    var r := t.resources[key].(lastUsed := t.sequence);
    UpdateKeepsSlots(t.resources, t.slots, key, r);
    UpdateKeepsIds(t.resources, t.created, key, r);
    NewestKeepsUse(t.resources, t.sequence, key, r);
  }

  lemma InsertKeepsInv(t: Table, key: string, now: Instant, tick: Int64)
    requires Inv(t) && NewUse(t) && key !in t.resources && |t.resources| < t.max
    ensures Inv(Insert(t, key, now, tick))
  {
    FreeSlotExists(t);
    var slot := FirstFree(t.slots, 1);
    var r := Resource(t.created, t.sequence, slot, Window([], tick, now.order));
    AddKeepsSlots(t.resources, t.slots, key, r);
    AddKeepsIds(t.resources, t.created, key, r);
    NewestKeepsUse(t.resources, t.sequence, key, r);
  }

  lemma TouchKeepsInv(t: Table, key: string, now: Instant, tick: Int64)
    requires Inv(t)
    ensures Inv(Touch(t, key, now, tick))
  {
    var t1 := t.(sequence := Tick(t.sequence));
    TickIsNew(t);
    if key in t.resources {
      UseKeepsInv(t1, key);
    } else if |t.resources| == t.max {
      EvictionIsLeastRecent(t1);
      var victim :| IsVictim(t1.resources, victim) && Evict(t1) == Drop(t1, victim);
      DropKeepsInv(t1, victim);
      InsertKeepsInv(Drop(t1, victim), key, now, tick);
    } else {
      InsertKeepsInv(t1, key, now, tick);
    }
  }

  lemma AcquireKeepsInv(t: Table, key: string, now: Instant, tick: Int64, shed: bool, dryRun: bool)
    requires Inv(t)
    ensures Inv(Acquire(t, key, now, tick, shed, dryRun))
  {
    TouchKeepsInv(t, key, now, tick);
    var t1 := Touch(t, key, now, tick);
    SetWindowKeepsInv(t1, key, Advance(t1.resources[key].window, now, tick));
    var t2 := LookAt(t1, key, now, tick);
    if shed {
      var kind := if dryRun then DryRunRejection else LocalRejection;
      SetWindowKeepsInv(t2, key, Add(t2.resources[key].window, kind));
    }
  }

  lemma PermitKeepsInv(t: Table, i: nat, p: Permit)
    requires Inv(t) && i < |t.permits| && PermitRight(p, t.created)
    ensures Inv(t.(permits := t.permits[i := p]))
  {
  }

  lemma ClaimKeepsInv(t: Table, i: nat, kind: Kind)
    requires Inv(t) && i < |t.permits| && OfAdmittedWork(kind)
    ensures Inv(Claim(t, i, kind))
  {
    assert PermitRight(t.permits[i], t.created);
    PermitKeepsInv(t, i, t.permits[i].(recorded := true, pending := Some(kind)));
  }

  lemma CompleteKeepsInv(t: Table, i: nat, now: Instant, tick: Int64)
    requires Inv(t) && i < |t.permits|
    ensures Inv(Complete(t, i, now, tick))
  {
    var p := t.permits[i];
    assert PermitRight(p, t.created);
    PermitKeepsInv(t, i, p.(pending := None));
    if p.pending.Some? && IsLive(t, p) {
      NoteKeepsInv(t.(permits := t.permits[i := p.(pending := None)]), p.resource, now, tick, p.pending.value);
    }
  }

  lemma NoteKeepsInv(t: Table, key: string, now: Instant, tick: Int64, kind: Kind)
    requires Inv(t) && key in t.resources
    ensures Inv(NoteAt(LookAt(t, key, now, tick), key, kind))
  {
    SetWindowKeepsInv(t, key, Advance(t.resources[key].window, now, tick));
    var t1 := LookAt(t, key, now, tick);
    SetWindowKeepsInv(t1, key, Add(t1.resources[key].window, kind));
  }

  lemma ResetAllKeepsInv(t: Table)
    requires Inv(t)
    ensures Inv(t.(resources := map[], slots := seq(|t.slots|, _ => false)))
  {
  }

  lemma DirectKeepsInv(t: Table, key: string, now: Instant, tick: Int64, kind: Kind)
    requires Inv(t)
    ensures Inv(Next(t, RecordDirectly(key, now, tick, kind)))
  {
    TouchKeepsInv(t, key, now, tick);
    NoteKeepsInv(Touch(t, key, now, tick), key, now, tick, kind);
  }

  lemma PermitStepKeepsInv(t: Table, step: TableStep)
    requires Inv(t) && (step.ClaimPermit? || step.RecordClaimed?)
    ensures Inv(Next(t, step))
  {
    if step.ClaimPermit? && step.permit < |t.permits| && OfAdmittedWork(step.kind) {
      ClaimKeepsInv(t, step.permit, step.kind);
    } else if step.RecordClaimed? && step.permit < |t.permits| {
      CompleteKeepsInv(t, step.permit, step.now, step.tick);
    }
  }

  lemma SnapshotKeepsInv(t: Table, key: string, now: Instant, tick: Int64)
    requires Inv(t)
    ensures Inv(Next(t, TakeSnapshot(key, now, tick)))
  {
    if key in t.resources {
      SetWindowKeepsInv(t, key, Advance(t.resources[key].window, now, tick));
    }
  }

  lemma NextKeepsInv(t: Table, step: TableStep)
    requires Inv(t)
    ensures Inv(Next(t, step))
  {
    match step
    case TryAcquire(key, now, tick, shed, dryRun) => AcquireKeepsInv(t, key, now, tick, shed, dryRun);
    case RecordDirectly(key, now, tick, kind) => DirectKeepsInv(t, key, now, tick, kind);
    case TakeSnapshot(key, now, tick) => SnapshotKeepsInv(t, key, now, tick);
    case Reset(key) =>
      if key in t.resources {
        DropKeepsInv(t, key);
      }
    case ResetAll => ResetAllKeepsInv(t);
    case _ => PermitStepKeepsInv(t, step);
  }

  lemma NextKeepsMax(t: Table, step: TableStep)
    requires Shape(t)
    ensures Next(t, step).max == t.max
  {
  }

  // ---------------------------------------------------------------- whole runs

  lemma InitInv(max: nat)
    requires 1 <= max
    ensures Inv(Init(max))
  {
  }

  ghost function Reach(t: Table, steps: seq<TableStep>): (r: Table)
    requires Inv(t)
    ensures Inv(r) && r.max == t.max
    decreases |steps|
  {
    if steps == [] then t
    else
      var before := Reach(t, steps[..|steps| - 1]);
      NextKeepsInv(before, steps[|steps| - 1]);
      NextKeepsMax(before, steps[|steps| - 1]);
      Next(before, steps[|steps| - 1])
  }

  ghost function FromInit(max: nat, steps: seq<TableStep>): (r: Table)
    requires 1 <= max
    ensures Inv(r) && r.max == max
  {
    InitInv(max);
    Reach(Init(max), steps)
  }

  /** In every reachable table live histories have distinct slots in 1..max and the marks are exactly theirs. */
  lemma SlotsAreExact(max: nat, steps: seq<TableStep>)
    requires 1 <= max
    ensures
      var t := FromInit(max, steps);
      && |t.resources| <= max
      && (forall k :: k in t.resources ==> 1 <= t.resources[k].slot <= max)
      && (forall j, k :: j in t.resources && k in t.resources && j != k ==> t.resources[j].slot != t.resources[k].slot)
      && (forall i :: 0 <= i < |t.slots| ==> (t.slots[i] <==> Holds(t.resources, i)))
  {
    var t := FromInit(max, steps);
    assert SlotsRight(t.resources, t.slots);
  }

  /** Touching a resource changes no other history, except that a full table loses its victim. */
  lemma TouchTouchesOne(t: Table, key: string, now: Instant, tick: Int64, other: string)
    requires Inv(t) && other != key && other in Touch(t, key, now, tick).resources
    ensures other in t.resources && Touch(t, key, now, tick).resources[other] == t.resources[other]
  {
  }

  /** Only a full table asked for a new resource loses a history, and it loses the least recently used one. */
  lemma TouchLosesOnlyVictim(t: Table, key: string, now: Instant, tick: Int64, other: string)
    requires Inv(t) && other in t.resources && other !in Touch(t, key, now, tick).resources
    ensures key !in t.resources && |t.resources| == t.max && IsVictim(t.resources, other)
  {
    var t1 := t.(sequence := Tick(t.sequence));
    if key !in t.resources && |t.resources| == t.max {
      TickIsNew(t);
      EvictionIsLeastRecent(t1);
    }
  }

  /** What a touched resource is afterwards: its old history, or one that never existed before. */
  lemma TouchOwn(t: Table, key: string, now: Instant, tick: Int64)
    requires Inv(t)
    ensures var r := Touch(t, key, now, tick);
            && r.created >= t.created && r.permits == t.permits
            && r.resources[key].id == if key in t.resources then t.resources[key].id else t.created
  {
  }

  function KeyOf(t: Table, step: TableStep): string {
    match step
    case TryAcquire(key, _, _, _, _) => key
    case RecordDirectly(key, _, _, _) => key
    case ClaimPermit(_, _) => ""
    case RecordClaimed(i, _, _) => if i < |t.permits| then t.permits[i].resource else ""
    case TakeSnapshot(key, _, _) => key
    case Reset(key) => key
    case ResetAll => ""
  }

  /** A step on one resource leaves every other history that remains exactly as it was. */
  lemma StepTouchesOne(t: Table, step: TableStep, other: string)
    requires Inv(t) && other != KeyOf(t, step) && other in Next(t, step).resources
    ensures other in t.resources && Next(t, step).resources[other] == t.resources[other]
  {
    match step
    case TryAcquire(key, now, tick, _, _) => TouchTouchesOne(t, key, now, tick, other);
    case RecordDirectly(key, now, tick, kind) =>
      if !kind.DryRunRejection? {
        TouchTouchesOne(t, key, now, tick, other);
      }
    case _ =>
  }

  /** A history that the table gave up never comes back: a later one for the resource is new. */
  lemma NextKeepsStale(t: Table, step: TableStep, p: Permit)
    requires Inv(t) && p.id < t.created && !IsLive(t, p)
    ensures !IsLive(Next(t, step), p) && p.id < Next(t, step).created
  {
    match step
    case TryAcquire(key, now, tick, _, _) =>
      TouchOwn(t, key, now, tick);
      if p.resource != key && p.resource in Next(t, step).resources {
        StepTouchesOne(t, step, p.resource);
      }
    case RecordDirectly(key, now, tick, _) =>
      TouchOwn(t, key, now, tick);
      if p.resource != key && p.resource in Next(t, step).resources {
        StepTouchesOne(t, step, p.resource);
      }
    case _ =>
  }

  lemma NextKeepsPermits(t: Table, step: TableStep, i: nat)
    requires Inv(t) && i < |t.permits|
    ensures var p, p' := t.permits[i], Next(t, step).permits;
            i < |p'| && p'[i].resource == p.resource && p'[i].id == p.id && (p.recorded ==> p'[i].recorded)
  {
    match step
    case TryAcquire(key, now, tick, _, _) => TouchOwn(t, key, now, tick);
    case RecordDirectly(key, now, tick, _) => TouchOwn(t, key, now, tick);
    case _ =>
  }

  lemma {:induction false} RunKeepsStale(t: Table, steps: seq<TableStep>, i: nat)
    requires Inv(t) && i < |t.permits|
    ensures var r := Reach(t, steps);
            && i < |r.permits| && (t.permits[i].recorded ==> r.permits[i].recorded)
            && (!IsLive(t, t.permits[i]) ==> !IsLive(r, r.permits[i]))
    decreases |steps|
  {
    if steps != [] {
      var front, last := steps[..|steps| - 1], steps[|steps| - 1];
      RunKeepsStale(t, front, i);
      var before := Reach(t, front);
      NextKeepsPermits(before, last, i);
      if !IsLive(before, before.permits[i]) {
        NextKeepsStale(before, last, before.permits[i]);
      }
    }
  }

  lemma StaleRecord(t: Table, i: nat, now: Instant, tick: Int64)
    requires Shape(t) && i < |t.permits| && !IsLive(t, t.permits[i])
    ensures var after := Next(t, RecordClaimed(i, now, tick));
            after.resources == t.resources && after.slots == t.slots && after.sequence == t.sequence
  {
  }

  /** After any run, a permit whose history was evicted or reset changes no history, whenever it is recorded. */
  lemma StalePermitIsInert(t: Table, steps: seq<TableStep>, i: nat, now: Instant, tick: Int64)
    requires Inv(t) && i < |t.permits| && !IsLive(t, t.permits[i])
    ensures var r := Reach(t, steps);
            var r' := Next(r, RecordClaimed(i, now, tick));
            r'.resources == r.resources && r'.slots == r.slots && r'.sequence == r.sequence
  {
    RunKeepsStale(t, steps, i);
    StaleRecord(Reach(t, steps), i, now, tick);
  }

  // ---------------------------------------------------------------- a permit counts once

  /** The step brings the outcome of permit `i` to the table. */
  ghost predicate Delivers(t: Table, step: TableStep, i: nat) {
    step.RecordClaimed? && step.permit == i && i < |t.permits| && t.permits[i].pending.Some?
  }

  /** How often a run brings an outcome of permit `i` to the table. */
  ghost function Deliveries(t: Table, steps: seq<TableStep>, i: nat): nat
    requires Inv(t)
    decreases |steps|
  {
    if steps == [] then 0
    else
      var front, last := steps[..|steps| - 1], steps[|steps| - 1];
      Deliveries(t, front, i) + if Delivers(Reach(t, front), last, i) then 1 else 0
  }

  /** Outcomes that permit `i` may still bring: none once it is marked and nothing is on its way. */
  function Outstanding(t: Table, i: nat): nat {
    if i < |t.permits| && t.permits[i].recorded && t.permits[i].pending.None? then 0 else 1
  }

  lemma StepSpends(t: Table, step: TableStep, i: nat)
    requires Inv(t)
    ensures (if Delivers(t, step, i) then 1 else 0) + Outstanding(Next(t, step), i) <= Outstanding(t, i)
  {
    match step
    case TryAcquire(key, now, tick, _, _) => TouchOwn(t, key, now, tick);
    case RecordDirectly(key, now, tick, _) => TouchOwn(t, key, now, tick);
    case ClaimPermit(p, _) =>
    case RecordClaimed(p, _, _) =>
      if i < |t.permits| {
        assert PermitRight(t.permits[i], t.created);
      }
    case _ =>
  }

  /**
   * In every run, however its claims and recordings interleave, a permit brings at most one outcome to the table; and
   * none any more once it is marked with nothing on its way.
   */
  lemma {:induction false} PermitCountsOnce(t: Table, steps: seq<TableStep>, i: nat)
    requires Inv(t)
    ensures Deliveries(t, steps, i) + Outstanding(Reach(t, steps), i) <= Outstanding(t, i) <= 1
    decreases |steps|
  {
    if steps != [] {
      var front, last := steps[..|steps| - 1], steps[|steps| - 1];
      PermitCountsOnce(t, front, i);
      StepSpends(Reach(t, front), last, i);
    }
  }

  /** A second claim, after any run, changes nothing at all: it loses. */
  lemma SecondClaimLoses(t: Table, steps: seq<TableStep>, i: nat, kind: Kind)
    requires Inv(t) && i < |t.permits| && t.permits[i].recorded
    ensures Next(Reach(t, steps), ClaimPermit(i, kind)) == Reach(t, steps)
  {
    RunKeepsStale(t, steps, i);
  }
}

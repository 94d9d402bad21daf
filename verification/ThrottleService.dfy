/** The fields of the throttler, with the ring of every resource, and the critical sections that change them. */
module ThrottleService {
  import opened Collections
  import opened ThrottleWindow
  import opened ThrottlePolicy
  import opened ThrottleTable
  import opened ThrottleHistory
  import Safety = ThrottleTableSafety

  /** What the map keeps for a resource; its `id` tells its history from every other one ever created. */
  datatype Cell = Cell(id: nat, lastUsed: nat, slot: nat, history: History)

  predicate CellPrecedes(a: Cell, b: Cell) {
    a.lastUsed < b.lastUsed || (a.lastUsed == b.lastUsed && a.slot < b.slot)
  }

  /** The counts that the window of the history now kept for `key` shows at `tick`. */
  ghost function CountsAt(t: Table, p: Policy, key: string, tick: Int64): Counts
    requires key in t.resources
  {
    Saturate(SumWindow(t.resources[key].window.log, tick, p.count))
  }

  /** The counts that decide on a request at the instant `now`: those of the history as the request finds it. */
  ghost function Seen(t: Table, p: Policy, key: string, now: Instant): Counts
    requires Shape(t) && p.duration > 0
  {
    var tick := WindowTick(now.nanos, p.duration);
    CountsAt(Visit(t, key, now, tick), p, key, tick)
  }

  /** Whether TryAcquire sheds: decided on the history that precedes this request. */
  ghost predicate WouldShed(t: Table, p: Policy, key: string, now: Instant, tick: Int64, sample: real, scale: real)
    requires Shape(t)
  {
    Sheds(p, CountsAt(Visit(t, key, now, tick), p, key, tick), sample, scale)
  }

  lemma ShedsIfOutgrown(t: Table, p: Policy, key: string, now: Instant, sample: real, scale: real)
    requires Shape(t) && ValidPolicy(p) && 0.0 <= sample && 0.0 <= scale
    ensures WouldShed(t, p, key, now, WindowTick(now.nanos, p.duration), sample, scale) <==>
            Outgrown(p, Seen(t, p, key, now), sample, scale)
  {
    ShedsExactly(p, Seen(t, p, key, now), sample, scale);
  }

  /** Two resources do not share a history or the buckets of one. */
  ghost predicate Apart(cells: map<string, Cell>, j: string, k: string)
    requires j in cells && k in cells
  {
    j != k ==> cells[j].history != cells[k].history && cells[j].history.buckets != cells[k].history.buckets
  }

  ghost predicate Separate(cells: map<string, Cell>) {
    forall j, k {:trigger Apart(cells, j, k)} :: j in cells && k in cells ==> Apart(cells, j, k)
  }

  /** The cell stands for the resource: its ring is right for the resource's log. */
  ghost predicate Stands(p: Policy, c: Cell, r: Resource)
    reads c.history, c.history.buckets
  {
    && c.history.Valid() && c.history.duration == p.duration && c.history.buckets.Length == p.count
    && r == Resource(c.id, c.lastUsed, c.slot, c.history.Model())
  }

  ghost predicate Kept(p: Policy, c: Cell, r: Resource, repr: set<object>)
    reads repr
  {
    c.history in repr && c.history.buckets in repr && Stands(p, c, r)
  }

  ghost predicate AllKept(p: Policy, cells: map<string, Cell>, resources: Resources, repr: set<object>)
    reads repr
  {
    && resources.Keys == cells.Keys
    && forall k {:trigger Kept(p, cells[k], resources[k], repr)} :: k in cells ==> Kept(p, cells[k], resources[k], repr)
  }

  /** Cells with the histories there were, or some of them, are still separate. */
  lemma FewerAreSeparate(before: map<string, Cell>, after: map<string, Cell>)
    requires Separate(before) && forall k :: k in after ==> k in before && after[k].history == before[k].history
    ensures Separate(after)
  {
    forall j, k | j in after && k in after
      ensures Apart(after, j, k)
    {
      assert Apart(before, j, k);
    }
  }

  /** A history that is in none of the cells may be kept too. */
  lemma OneMoreIsSeparate(before: map<string, Cell>, key: string, c: Cell)
    requires Separate(before) && key !in before
    requires forall k :: k in before ==>
              before[k].history != c.history && before[k].history.buckets != c.history.buckets
    ensures Separate(before[key := c])
  {
    var after := before[key := c];
    forall j, k | j in after && k in after
      ensures Apart(after, j, k)
    {
      if j in before && k in before {
        assert Apart(before, j, k);
      }
    }
  }

  class Throttler {
    const policy: Policy
    var cells: map<string, Cell>
    var sequence: nat
    const slots: array<bool>
    /** How many histories were created: the identity of the next one. */
    var created: nat
    var permits: seq<Permit>
    /** The cells with the log that each ring stands for. */
    ghost var resources: Resources
    /** Every history that was ever kept, and its buckets. */
    ghost var Repr: set<object>

    ghost predicate Valid()
      reads this, Repr
    {
      && ValidPolicy(policy) && this !in Repr && slots !in Repr
      && Separate(cells) && AllKept(policy, cells, resources, Repr)
    }

    ghost function Model(): Table
      reads this, slots
    {
      Table(policy.maxResources, resources, sequence, slots[..], created, permits)
    }

    constructor (policy: Policy)
      requires ValidPolicy(policy)
      ensures Valid() && this.policy == policy && Model() == Init(policy.maxResources) && fresh(slots)
    {
      this.policy := policy;
      slots := new bool[policy.maxResources + 1](_ => false);
      cells, sequence, created, permits, resources, Repr := map[], 0, 0, [], map[], {};
      new;
      assert slots[..] == Init(policy.maxResources).slots;
    }

    function Tick(now: Instant): Int64
      requires policy.duration > 0
    {
      WindowTick(now.nanos, policy.duration)
    }

    /** The least history by last use, then slot, whatever order the map is walked in. */
    method FindVictim() returns (victim: string)
      requires Valid() && cells != map[]
      requires forall j, k :: j in resources && k in resources && j != k ==> resources[j].slot != resources[k].slot
      ensures victim in cells && IsVictim(resources, victim)
    {
      forall k | k in cells
        ensures cells[k].slot == resources[k].slot && cells[k].lastUsed == resources[k].lastUsed
      {
        assert Kept(policy, cells[k], resources[k], Repr);
      }
      victim :| victim in cells;
      var left := cells.Keys - {victim};
      while left != {}
        invariant left <= cells.Keys && victim in cells && victim !in left
        invariant forall k :: k in cells && k !in left && k != victim ==> Precedes(resources[victim], resources[k])
        decreases left
      {
        var key :| key in left;
        left := left - {key};
        if CellPrecedes(cells[key], cells[victim]) {
          victim := key;
        }
      }
    }

    method AvailableSlot() returns (slot: nat)
      requires slots.Length > 0
      ensures slot == FirstFree(slots[..], 1)
    {
      slot := 1;
      while slot < slots.Length
        invariant 1 <= slot <= slots.Length
        invariant FirstFree(slots[..], 1) == FirstFree(slots[..], slot)
      {
        if !slots[slot] {
          return;
        }
        slot := slot + 1;
      }
      slot := 0;
    }

    method Remove(key: string)
      requires Valid() && key in cells && resources[key].slot < slots.Length
      modifies `cells, `resources, slots
      ensures Valid() && Model() == Drop(old(Model()), key)
    {
      assert Kept(policy, cells[key], resources[key], Repr);
      slots[cells[key].slot] := false;
      cells := cells - {key};
      resources := resources - {key};
      FewerAreSeparate(old(cells), cells);
      forall k | k in cells
        ensures Kept(policy, cells[k], resources[k], Repr)
      {
        assert old(Kept(policy, cells[k], resources[k], Repr));
      }
    }

    /** Makes a history for a resource that has none and keeps it in a slot. */
    method Keep(key: string, now: Instant, slot: nat)
      requires Valid() && key !in cells && slot < slots.Length
      modifies `cells, `resources, `created, `Repr, slots
      ensures Valid() && fresh(Repr - old(Repr))
      ensures var r := Resource(old(created), sequence, slot, Window([], Tick(now), now.order));
              Model() == old(Model()).(resources := old(resources)[key := r],
                                       slots := old(slots[..])[slot := true], created := old(created) + 1)
    {
      var h := new History(policy.duration, policy.count, now);
      slots[slot] := true;
      resources := resources[key := Resource(created, sequence, slot, h.Model())];
      cells := cells[key := Cell(created, sequence, slot, h)];
      Repr := Repr + {h, h.buckets};
      created := created + 1;
      forall k | k in old(cells)
        ensures Kept(policy, cells[k], resources[k], Repr)
        ensures cells[k].history != h && cells[k].history.buckets != h.buckets
      {
        assert old(Kept(policy, cells[k], resources[k], Repr));
      }
      OneMoreIsSeparate(old(cells), key, cells[key]);
      assert Kept(policy, cells[key], resources[key], Repr);
    }

    method EvictLeast()
      requires Valid() && Inv(Model()) && |resources| == policy.maxResources
      modifies `cells, `resources, slots
      ensures Valid() && Model() == Evict(old(Model()))
    {
      Safety.EvictionIsLeastRecent(Model());
      var victim := FindVictim();
      Remove(victim);
    }

    /** Makes the history of a resource that has none, evicting if the table is full. */
    method Make(key: string, now: Instant)
      requires Valid() && Inv(Model()) && key !in cells
      modifies `cells, `resources, `created, `Repr, slots
      ensures Valid() && fresh(Repr - old(Repr))
      ensures var t := if |old(resources)| == policy.maxResources then Evict(old(Model())) else old(Model());
              Model() == Insert(t, key, now, Tick(now))
    {
      assert |resources| == |resources.Keys| == |cells.Keys| == |cells|;
      if |cells| == policy.maxResources {
        EvictLeast();
      }
      var slot := AvailableSlot();
      Keep(key, now, slot);
    }

    method NextUse()
      modifies `sequence
      ensures Model() == old(Model()).(sequence := ThrottleTable.Tick(old(sequence)))
    {
      if sequence != MAX_UINT64 {
        sequence := sequence + 1;
      }
    }

    method MarkUsed(key: string)
      requires Valid() && key in cells
      modifies `cells, `resources
      ensures Valid() && Model() == Use(old(Model()), key)
    {
      cells := cells[key := cells[key].(lastUsed := sequence)];
      resources := resources[key := resources[key].(lastUsed := sequence)];
      FewerAreSeparate(old(cells), cells);
      forall k | k in cells
        ensures Kept(policy, cells[k], resources[k], Repr)
      {
        assert old(Kept(policy, cells[k], resources[k], Repr));
      }
    }

    /** resourceLocked */
    method TouchResource(key: string, now: Instant)
      requires Valid() && Inv(Model())
      modifies `cells, `resources, `created, `sequence, `Repr, slots
      ensures Valid() && fresh(Repr - old(Repr)) && key in cells
      ensures Model() == Touch(old(Model()), key, now, Tick(now))
    {
      Safety.TickIsNew(Model());
      NextUse();
      if key in cells {
        MarkUsed(key);
      } else {
        Make(key, now);
      }
    }

    /** Place `index` of the ring of `key` is that of its last tick. */
    ghost predicate IsCurrent(key: string, index: nat)
      requires key in cells
      reads this, cells[key].history, cells[key].history.buckets
    {
      var h := cells[key].history;
      index < h.buckets.Length && index == h.lastTick % h.buckets.Length && h.buckets[index].tick == h.lastTick
    }

    /** currentBucketLocked on the history of a resource; no other history changes. */
    method Look(key: string, now: Instant) returns (index: nat)
      requires Valid() && key in cells
      modifies `resources, Repr
      ensures Valid() && cells == old(cells) && Model() == LookAt(old(Model()), key, now, Tick(now))
      ensures IsCurrent(key, index)
    {
      var h := cells[key].history;
      assert Kept(policy, cells[key], resources[key], Repr);
      index := h.CurrentBucket(now);
      resources := resources[key := resources[key].(window := h.Model())];
      forall k | k in cells
        ensures Kept(policy, cells[k], resources[k], Repr)
      {
        assert old(Kept(policy, cells[k], resources[k], Repr)) && Apart(cells, k, key);
      }
    }

    method Note(key: string, index: nat, kind: Kind)
      requires Valid() && key in cells && IsCurrent(key, index)
      modifies `resources, Repr
      ensures Valid() && Model() == NoteAt(old(Model()), key, kind)
    {
      var h := cells[key].history;
      assert Kept(policy, cells[key], resources[key], Repr);
      h.Record(index, kind);
      resources := resources[key := resources[key].(window := h.Model())];
      forall k | k in cells
        ensures Kept(policy, cells[k], resources[k], Repr)
      {
        assert old(Kept(policy, cells[k], resources[k], Repr)) && Apart(cells, k, key);
      }
    }

    /** aggregate: what a snapshot shows is the window of the log. */
    method Aggregate(key: string) returns (snapshot: Snapshot)
      requires Valid() && key in cells
      ensures var w := resources[key].window;
              && snapshot.counts == Saturate(SumWindow(w.log, w.lastTick, policy.count))
              && IsOldestAge(w.log, w.lastTick, policy.count, snapshot.oldestAge)
              && snapshot.windowAge == snapshot.oldestAge * policy.duration
    {
      assert Kept(policy, cells[key], resources[key], Repr);
      snapshot := cells[key].history.Aggregate();
    }

    /** The history of a resource, made if need be and brought to the instant `now`. */
    method VisitResource(key: string, now: Instant) returns (index: nat)
      requires Valid() && Inv(Model())
      modifies this, slots, Repr
      ensures Valid() && fresh(Repr - old(Repr)) && key in cells && IsCurrent(key, index)
      ensures Model() == Visit(old(Model()), key, now, Tick(now)) && resources[key].window.lastTick == Tick(now)
    {
      TouchResource(key, now);
      index := Look(key, now);
    }

    /** Counts a request that is shed, or gives out a permit. */
    method Reply(key: string, index: nat, wouldReject: bool) returns (admitted: bool, permit: nat)
      requires Valid() && key in cells && IsCurrent(key, index)
      modifies `resources, `permits, Repr
      ensures Valid() && Repr == old(Repr) && Model() == Answer(old(Model()), key, wouldReject, policy.dryRun)
      ensures admitted <==> policy.dryRun || !wouldReject
      ensures admitted ==> permit < |permits| && IsLive(Model(), permits[permit]) && !permits[permit].recorded
    {
      if wouldReject && !policy.dryRun {
        Note(key, index, LocalRejection);
        return false, 0;
      }
      if wouldReject {
        Note(key, index, DryRunRejection);
      }
      admitted, permit := true, |permits|;
      assert Kept(policy, cells[key], resources[key], Repr);
      permits := permits + [Permit(key, cells[key].id, false, None)];
    }

    /** TryAcquire: returns the number of the permit unless the work is shed. */
    method TryAcquire(key: string, now: Instant, sample: real, scale: real) returns (admitted: bool, permit: nat)
      requires Valid() && Inv(Model())
      modifies this, slots, Repr
      ensures Valid() && fresh(Repr - old(Repr))
      ensures var shed := WouldShed(old(Model()), policy, key, now, Tick(now), sample, scale);
              && Model() == Acquire(old(Model()), key, now, Tick(now), shed, policy.dryRun)
              && (admitted <==> policy.dryRun || !shed)
      ensures 0.0 <= sample && 0.0 <= scale ==>
                (!admitted <==>
                 !policy.dryRun && Outgrown(policy, old(Seen(Model(), policy, key, now)), sample, scale))
      ensures admitted ==> permit < |permits| && IsLive(Model(), permits[permit]) && !permits[permit].recorded
    {
      if 0.0 <= sample && 0.0 <= scale {
        ShedsIfOutgrown(Model(), policy, key, now, sample, scale);
      }
      admitted, permit := Ask(key, now, sample, scale);
    }

    method Ask(key: string, now: Instant, sample: real, scale: real) returns (admitted: bool, permit: nat)
      requires Valid() && Inv(Model())
      modifies this, slots, Repr
      ensures Valid() && fresh(Repr - old(Repr))
      ensures var shed := WouldShed(old(Model()), policy, key, now, Tick(now), sample, scale);
              && Model() == Acquire(old(Model()), key, now, Tick(now), shed, policy.dryRun)
              && (admitted <==> policy.dryRun || !shed)
      ensures admitted ==> permit < |permits| && IsLive(Model(), permits[permit]) && !permits[permit].recorded
    {
      var index := VisitResource(key, now);
      var current := Aggregate(key);
      var wouldReject := Sheds(policy, current.counts, sample, scale);
      admitted, permit := Reply(key, index, wouldReject);
    }

    /** Record: one result that was not admitted here. */
    method RecordResult(key: string, now: Instant, kind: Kind) returns (ok: bool)
      requires Valid() && Inv(Model())
      modifies this, slots, Repr
      ensures Valid() && fresh(Repr - old(Repr)) && (ok <==> !kind.DryRunRejection?)
      ensures Model() == Next(old(Model()), RecordDirectly(key, now, Tick(now), kind))
    {
      if kind == DryRunRejection {
        return false;
      }
      var index := VisitResource(key, now);
      Note(key, index, kind);
      ok := true;
    }

    /** Permit.Record up to the permit's own lock: refuses what admitted work cannot have, and a second recording. */
    method ClaimRecord(i: nat, kind: Kind) returns (ok: bool)
      requires Valid() && Inv(Model()) && i < |permits|
      modifies `permits
      ensures Valid() && Model() == Next(old(Model()), ClaimPermit(i, kind))
      ensures ok <==> OfAdmittedWork(kind) && !old(permits[i].recorded)
      ensures ok ==> permits[i].recorded && permits[i].pending == Some(kind)
    {
      if !OfAdmittedWork(kind) || permits[i].recorded {
        return false;
      }
      permits := permits[i := permits[i].(recorded := true, pending := Some(kind))];
      ok := true;
    }

    /** The rest of Permit.record, under the table's lock. */
    method FinishRecord(i: nat, now: Instant)
      requires Valid() && Inv(Model()) && i < |permits| && permits[i].pending.Some?
      modifies `permits, `resources, Repr
      ensures Valid() && Model() == Next(old(Model()), RecordClaimed(i, now, Tick(now)))
      ensures Safety.Outstanding(Model(), i) == 0
    {
      var p := permits[i];
      assert PermitRight(p, created);
      permits := permits[i := p.(pending := None)];
      if p.resource in cells {
        assert Kept(policy, cells[p.resource], resources[p.resource], Repr);
      }
      if p.resource in cells && cells[p.resource].id == p.id {
        var index := Look(p.resource, now);
        Note(p.resource, index, p.pending.value);
      }
    }

    /** Snapshot */
    method TakeSnapshot(key: string, now: Instant) returns (found: bool, snapshot: Snapshot)
      requires Valid() && Inv(Model())
      modifies `resources, Repr
      ensures Valid() && Model() == Next(old(Model()), TableStep.TakeSnapshot(key, now, Tick(now)))
      ensures found <==> key in old(cells)
      ensures found ==> key in resources && snapshot.counts == CountsAt(Model(), policy, key, Tick(now))
    {
      found, snapshot := key in cells, Snapshot(NONE, 0, 0);
      if found {
        var index := Look(key, now);
        snapshot := Aggregate(key);
      }
    }

    method Reset(key: string) returns (ok: bool)
      requires Valid() && Inv(Model())
      modifies `cells, `resources, slots
      ensures Valid() && Model() == Next(old(Model()), TableStep.Reset(key)) && (ok <==> key in old(cells))
    {
      ok := key in cells;
      if ok {
        Remove(key);
      }
    }

    method ResetAll() returns (count: nat)
      requires Valid() && Inv(Model())
      modifies `cells, `resources, slots
      ensures Valid() && Model() == Next(old(Model()), TableStep.ResetAll) && count == |old(cells)|
    {
      count := |cells|;
      cells, resources := map[], map[];
      for i := 0 to slots.Length
        invariant cells == map[] && resources == map[]
        invariant forall k :: 0 <= k < i ==> !slots[k]
      {
        slots[i] := false;
      }
      assert slots[..] == seq(slots.Length, _ => false);
    }
  }
}

/**
 The partition registry of pkg/bulkhead/registry.go over every bulkhead it ever created: callers
 may keep using a bulkhead after it was removed, so removed partitions stay in the model.
 */
module BulkheadRegistry {
  import opened Bulkhead
  import opened BulkheadSafety

  datatype Partition = Partition(resource: string, gate: State)

  datatype Registry = Registry(maximum: int, registered: map<string, nat>, partitions: seq<Partition>)

  datatype Error = PartitionExists | PartitionLimit | PartitionNotFound | PartitionBusy
  datatype Result<+T> = Ok(value: T) | Err(error: Error)

  function Empty(maximum: int): Registry {
    Registry(maximum, map[], [])
  }

  function CreatePartition(r: Registry, resource: string, c: Config): (Registry, Result<nat>) {
    if resource in r.registered then (r, Err(PartitionExists))
    else if |r.registered| >= r.maximum then (r, Err(PartitionLimit))
    else
      (r.(registered := r.registered[resource := |r.partitions|],
          partitions := r.partitions + [Partition(resource, Init(c))]),
       Ok(|r.partitions|))
  }

  function RemovePartition(r: Registry, resource: string): (Registry, Result<()>) {
    if resource !in r.registered || r.registered[resource] >= |r.partitions| then (r, Err(PartitionNotFound))
    else if !IsDrained(r.partitions[r.registered[resource]].gate) then (r, Err(PartitionBusy))
    else (r.(registered := r.registered - {resource}), Ok(()))
  }

  datatype RegistryStep =
    | CreateStep(resource: string, config: Config)
    | RemoveStep(removed: string)
    | UseStep(partition: nat, step: Step)

  ghost predicate IsRegistered(registered: map<string, nat>, partitions: seq<Partition>, i: nat)
    requires i < |partitions|
  {
    partitions[i].resource in registered && registered[partitions[i].resource] == i
  }

  ghost predicate Reachable(partitions: seq<Partition>) {
    forall i :: 0 <= i < |partitions| ==> Inv(partitions[i].gate)
  }

  /** A partition that is no longer registered is drained. */
  ghost predicate Retired(registered: map<string, nat>, partitions: seq<Partition>) {
    forall i :: 0 <= i < |partitions| && !IsRegistered(registered, partitions, i) ==> IsDrained(partitions[i].gate)
  }

  ghost predicate Named(registered: map<string, nat>, partitions: seq<Partition>) {
    forall name :: name in registered ==>
        registered[name] < |partitions| && partitions[registered[name]].resource == name
  }

  ghost predicate RegistryInv(r: Registry) {
    && |r.registered| <= r.maximum
    && Reachable(r.partitions)
    && Retired(r.registered, r.partitions)
    && Named(r.registered, r.partitions)
  }

  ghost function Next(r: Registry, step: RegistryStep): Registry
    requires RegistryInv(r)
  {
    match step
    case CreateStep(resource, c) => if ValidConfig(c) then CreatePartition(r, resource, c).0 else r
    case RemoveStep(resource) => RemovePartition(r, resource).0
    case UseStep(i, s) => if i < |r.partitions| then Use(r, i, s) else r
  }

  /** A caller that holds partition `i` takes a step on it, registered or not. */
  ghost function Use(r: Registry, i: nat, step: Step): Registry
    requires i < |r.partitions| && Inv(r.partitions[i].gate)
  {
    r.(partitions := r.partitions[i := r.partitions[i].(gate := Bulkhead.Next(r.partitions[i].gate, step))])
  }

  lemma UseGate(gate: State, step: Step)
    requires Inv(gate)
    ensures Inv(Bulkhead.Next(gate, step))
    ensures IsDrained(gate) ==> IsDrained(Bulkhead.Next(gate, step))
  {
    NextKeepsInv(gate, step);
    if IsDrained(gate) {
      DrainingStep(gate, step);
      ActiveNonNegative(Bulkhead.Next(gate, step));
    }
  }

  lemma UseKeepsInv(r: Registry, i: nat, step: Step)
    requires RegistryInv(r) && i < |r.partitions|
    ensures RegistryInv(Use(r, i, step))
  {
    UseGate(r.partitions[i].gate, step);
    var partitions := Use(r, i, step).partitions;
    forall k | 0 <= k < |partitions| && !IsRegistered(r.registered, partitions, k)
      ensures IsDrained(partitions[k].gate)
    {
      assert !IsRegistered(r.registered, r.partitions, k);
    }
  }

  lemma RetireRemoved(r: Registry, resource: string)
    requires Retired(r.registered, r.partitions) && Named(r.registered, r.partitions)
    requires resource in r.registered && IsDrained(r.partitions[r.registered[resource]].gate)
    ensures Retired(r.registered - {resource}, r.partitions) && Named(r.registered - {resource}, r.partitions)
  {
    forall i | 0 <= i < |r.partitions| && !IsRegistered(r.registered - {resource}, r.partitions, i)
      ensures IsDrained(r.partitions[i].gate)
    {
      if IsRegistered(r.registered, r.partitions, i) {
        assert r.partitions[i].resource == resource;
      }
    }
  }

  lemma RemoveKeepsInv(r: Registry, resource: string)
    requires RegistryInv(r)
    ensures RegistryInv(RemovePartition(r, resource).0)
  {
    if RemovePartition(r, resource).1.Ok? {
      RetireRemoved(r, resource);
      MapSize(r.registered, resource, 0);
    }
  }

  lemma MapSize(m: map<string, nat>, key: string, value: nat)
    ensures key in m ==> |m - {key}| == |m| - 1
    ensures key !in m ==> |m[key := value]| == |m| + 1
  {
    if key in m {
      assert (m - {key}).Keys == m.Keys - {key};
    } else {
      assert m[key := value].Keys == m.Keys + {key};
    }
  }

  lemma RetireCreated(r: Registry, p: Partition)
    requires Retired(r.registered, r.partitions) && Named(r.registered, r.partitions) && p.resource !in r.registered
    ensures var registered := r.registered[p.resource := |r.partitions|];
            Retired(registered, r.partitions + [p]) && Named(registered, r.partitions + [p])
  {
    var registered, partitions := r.registered[p.resource := |r.partitions|], r.partitions + [p];
    forall i | 0 <= i < |partitions| && !IsRegistered(registered, partitions, i)
      ensures IsDrained(partitions[i].gate)
    {
      assert i < |r.partitions| && !IsRegistered(r.registered, r.partitions, i);
    }
  }

  lemma CreateKeepsInv(r: Registry, resource: string, c: Config)
    requires RegistryInv(r) && ValidConfig(c)
    ensures RegistryInv(CreatePartition(r, resource, c).0)
  {
    if CreatePartition(r, resource, c).1.Ok? {
      InitInv(c);
      RetireCreated(r, Partition(resource, Init(c)));
      MapSize(r.registered, resource, |r.partitions|);
    }
  }

  ghost function Run(r: Registry, steps: seq<RegistryStep>): (t: Registry)
    requires RegistryInv(r)
    ensures RegistryInv(t)
    decreases |steps|
  {
    if steps == [] then r
    else
      NextKeepsRegistryInv(r, steps[0]);
      Run(Next(r, steps[0]), steps[1..])
  }

  lemma NextKeepsRegistryInv(r: Registry, step: RegistryStep)
    requires RegistryInv(r)
    ensures RegistryInv(Next(r, step))
  {
    match step
    case CreateStep(resource, c) =>
      if ValidConfig(c) {
        CreateKeepsInv(r, resource, c);
      }
    case RemoveStep(resource) => RemoveKeepsInv(r, resource);
    case UseStep(i, s) =>
      if i < |r.partitions| {
        UseKeepsInv(r, i, s);
      }
  }

  /** Live weight on `resource` over all partitions ever created for it. */
  ghost function LiveTotal(partitions: seq<Partition>, resource: string): int {
    if partitions == [] then 0
    else
      var n := |partitions| - 1;
      var last := if partitions[n].resource == resource then partitions[n].gate.active else 0;
      LiveTotal(partitions[..n], resource) + last
  }

  lemma {:induction false} LiveTotalIsRegistered(registered: map<string, nat>, partitions: seq<Partition>,
                                                 resource: string, n: nat)
    requires Retired(registered, partitions) && Named(registered, partitions) && n <= |partitions|
    ensures LiveTotal(partitions[..n], resource) ==
            if resource in registered && registered[resource] < n
            then partitions[registered[resource]].gate.active else 0
  {
    if n > 0 {
      LiveTotalIsRegistered(registered, partitions, resource, n - 1);
      assert partitions[..n][..n - 1] == partitions[..n - 1];
      assert IsRegistered(registered, partitions, n - 1) || partitions[n - 1].gate.active == 0;
    }
  }

  /**
   However partitions are closed, removed and recreated, and whoever still uses a removed one, the
   live weight on a resource stays within the capacity of the partition registered for it, and is
   zero when none is registered.
   */
  lemma CapacityIsNeverSplit(maximum: int, steps: seq<RegistryStep>, resource: string)
    requires 0 < maximum
    ensures var r := Run(Empty(maximum), steps);
            var total := LiveTotal(r.partitions, resource);
            if resource in r.registered
            then r.registered[resource] < |r.partitions| &&
                 0 <= total <= r.partitions[r.registered[resource]].gate.config.capacity
            else total == 0
  {
    var r := Run(Empty(maximum), steps);
    assert r.partitions[..|r.partitions|] == r.partitions;
    LiveTotalIsRegistered(r.registered, r.partitions, resource, |r.partitions|);
    if resource in r.registered {
      ActiveNonNegative(r.partitions[r.registered[resource]].gate);
    }
  }

  /** The registry object: `partitions` is the map of pkg/bulkhead/registry.go, `created` its history. */
  class Service {
    const maximum: int
    var partitions: map<string, nat>
    var created: seq<Partition>

    ghost function Model(): Registry
      reads this
    {
      Registry(maximum, partitions, created)
    }

    constructor (maximum: int)
      requires 0 < maximum
      ensures Model() == Empty(maximum) && RegistryInv(Model())
    {
      this.maximum := maximum;
      partitions, created := map[], [];
    }

    method Create(resource: string, c: Config) returns (result: Result<nat>)
      requires RegistryInv(Model()) && ValidConfig(c)
      modifies this
      ensures (Model(), result) == CreatePartition(old(Model()), resource, c) && RegistryInv(Model())
      ensures result == Err(PartitionExists) <==> resource in old(partitions)
      ensures result.Ok? <==> resource !in old(partitions) && |old(partitions)| < maximum
      ensures result.Ok? ==>
                && result.value == |old(created)| && partitions == old(partitions)[resource := result.value]
                && created == old(created) + [Partition(resource, Init(c))]
      ensures result.Err? ==> partitions == old(partitions) && created == old(created)
    {
      CreateKeepsInv(Model(), resource, c);
      if resource in partitions {
        return Err(PartitionExists);
      }
      if |partitions| >= maximum {
        return Err(PartitionLimit);
      }
      partitions := partitions[resource := |created|];
      result := Ok(|created|);
      created := created + [Partition(resource, Init(c))];
    }

    method Remove(resource: string) returns (result: Result<()>)
      requires RegistryInv(Model())
      modifies this
      ensures (Model(), result) == RemovePartition(old(Model()), resource) && RegistryInv(Model())
      ensures result == Err(PartitionNotFound) <==> resource !in old(partitions)
      ensures resource in old(partitions) ==>
                && partitions.Keys == old(partitions).Keys - (if result.Ok? then {resource} else {})
                && old(partitions)[resource] < |created|
                && var gate := created[old(partitions)[resource]].gate;
                   result.Ok? <==> gate.draining && gate.active == 0 && gate.queued == 0
      ensures created == old(created)
      ensures forall name :: name in partitions ==> name in old(partitions) && partitions[name] == old(partitions)[name]
    {
      RemoveKeepsInv(Model(), resource);
      if resource !in partitions {
        return Err(PartitionNotFound);
      }
      var gate := created[partitions[resource]].gate;
      if !(gate.draining && gate.active == 0 && gate.queued == 0) {
        return Err(PartitionBusy);
      }
      partitions := partitions - {resource};
      return Ok(());
    }
  }
}

/** The bounded table of resource histories: slots, last use, eviction and permits. */
module ThrottleTable {
  import opened Collections
  import opened ThrottleWindow

  /** A history; its `id` tells it from every other one ever created. */
  datatype Resource = Resource(id: nat, lastUsed: nat, slot: nat, window: Window)

  /**
   * A permit of one admitted execution. `recorded` is its own mark, set under its own lock; `pending` is the outcome
   * that whoever set the mark carries to the table, until the table's lock is taken.
   */
  datatype Permit = Permit(resource: string, id: nat, recorded: bool, pending: Option<Kind>)

  type Resources = map<string, Resource>

  datatype Table = Table(max: nat, resources: Resources, sequence: nat, slots: seq<bool>, created: nat,
                         permits: seq<Permit>)

  function Init(max: nat): Table {
    Table(max, map[], 0, seq(max + 1, _ => false), 0, [])
  }

  // ---------------------------------------------------------------- steps

  predicate Precedes(a: Resource, b: Resource) {
    a.lastUsed < b.lastUsed || (a.lastUsed == b.lastUsed && a.slot < b.slot)
  }

  /** The least recently used history; among equals the one with the lowest slot. */
  ghost predicate IsVictim(resources: Resources, key: string) {
    && key in resources
    && forall other :: other in resources && other != key ==> Precedes(resources[key], resources[other])
  }

  function FirstFree(slots: seq<bool>, from: nat): (slot: nat)
    ensures slots != [] ==> slot < |slots|
    ensures slot != 0 ==> from <= slot < |slots| && !slots[slot]
    ensures slot == 0 && from > 0 ==> forall i :: from <= i < |slots| ==> slots[i]
    decreases |slots| - from
  {
    if from >= |slots| then 0
    else if !slots[from] then from
    else FirstFree(slots, from + 1)
  }

  function Drop(t: Table, key: string): Table
    requires key in t.resources && t.resources[key].slot < |t.slots|
  {
    t.(resources := t.resources - {key}, slots := t.slots[t.resources[key].slot := false])
  }

  ghost function Evict(t: Table): Table
    requires forall k :: k in t.resources ==> t.resources[k].slot < |t.slots|
  {
    if exists key :: IsVictim(t.resources, key) then
      var key :| IsVictim(t.resources, key);
      Drop(t, key)
    else t
  }

  function Tick(sequence: nat): nat {
    if sequence != MAX_UINT64 then sequence + 1 else sequence
  }

  function Insert(t: Table, key: string, now: Instant, tick: Int64): Table
    requires t.slots != []
  {
    var slot := FirstFree(t.slots, 1);
    t.(resources := t.resources[key := Resource(t.created, t.sequence, slot, Window([], tick, now.order))],
       slots := t.slots[slot := true], created := t.created + 1)
  }

  function Use(t: Table, key: string): Table
    requires key in t.resources
  {
    t.(resources := t.resources[key := t.resources[key].(lastUsed := t.sequence)])
  }

  ghost predicate Shape(t: Table) {
    t.slots != [] && forall k :: k in t.resources ==> t.resources[k].slot < |t.slots|
  }

  /** resourceLocked: the history of `key`, made if need be at the cost of the least recently used one. */
  ghost function Touch(t: Table, key: string, now: Instant, tick: Int64): (r: Table)
    requires Shape(t)
    ensures key in r.resources && r.max == t.max
  {
    var t1 := t.(sequence := Tick(t.sequence));
    if key in t.resources then Use(t1, key)
    else Insert(if |t.resources| == t.max then Evict(t1) else t1, key, now, tick)
  }

  function SetWindow(t: Table, key: string, w: Window): Table
    requires key in t.resources
  {
    t.(resources := t.resources[key := t.resources[key].(window := w)])
  }

  function LookAt(t: Table, key: string, now: Instant, tick: Int64): Table
    requires key in t.resources
  {
    SetWindow(t, key, Advance(t.resources[key].window, now, tick))
  }

  function NoteAt(t: Table, key: string, kind: Kind): Table
    requires key in t.resources
  {
    SetWindow(t, key, Add(t.resources[key].window, kind))
  }

  datatype TableStep =
    | TryAcquire(key: string, now: Instant, tick: Int64, shed: bool, dryRun: bool)
    | RecordDirectly(key: string, now: Instant, tick: Int64, kind: Kind)
    | ClaimPermit(permit: nat, kind: Kind)
    | RecordClaimed(permit: nat, now: Instant, tick: Int64)
    | TakeSnapshot(key: string, now: Instant, tick: Int64)
    | Reset(key: string)
    | ResetAll

  /** The history of `key`, brought to the instant `now`. */
  ghost function Visit(t: Table, key: string, now: Instant, tick: Int64): (r: Table)
    requires Shape(t)
    ensures key in r.resources && r.max == t.max
  {
    LookAt(Touch(t, key, now, tick), key, now, tick)
  }

  /** Sheds the request, or gives out a permit for the history of `key`. */
  function Answer(t: Table, key: string, shed: bool, dryRun: bool): Table
    requires key in t.resources
  {
    if shed && !dryRun then NoteAt(t, key, LocalRejection)
    else
      (if shed then NoteAt(t, key, DryRunRejection) else t)
      .(permits := t.permits + [Permit(key, t.resources[key].id, false, None)])
  }

  /** `shed` says whether the random sample fell below the probability of rejection. */
  ghost function Acquire(t: Table, key: string, now: Instant, tick: Int64, shed: bool, dryRun: bool): Table
    requires Shape(t)
  {
    Answer(Visit(t, key, now, tick), key, shed, dryRun)
  }

  /** The permit's history is the one now kept for its resource. */
  predicate IsLive(t: Table, p: Permit) {
    p.resource in t.resources && t.resources[p.resource].id == p.id
  }

  /** Permit.record under the permit's lock: the first caller wins. */
  function Claim(t: Table, i: nat, kind: Kind): Table
    requires i < |t.permits|
  {
    var p := t.permits[i];
    if p.recorded then t else t.(permits := t.permits[i := p.(recorded := true, pending := Some(kind))])
  }

  /** Permit.record under the table's lock: counts the outcome if the permit's history is still the one kept. */
  function Complete(t: Table, i: nat, now: Instant, tick: Int64): Table
    requires i < |t.permits|
  {
    var p := t.permits[i];
    var t1 := t.(permits := t.permits[i := p.(pending := None)]);
    if p.pending.None? then t
    else if IsLive(t, p) then NoteAt(LookAt(t1, p.resource, now, tick), p.resource, p.pending.value)
    else t1
  }

  /** Outcomes that a permit accepts. */
  predicate OfAdmittedWork(kind: Kind) {
    kind.Accepted? || kind.DownstreamOverload? || kind.DownstreamFailure? || kind.Ignored?
  }

  ghost function Next(t: Table, step: TableStep): Table
    requires Shape(t)
  {
    match step
    case TryAcquire(key, now, tick, shed, dryRun) => Acquire(t, key, now, tick, shed, dryRun)
    case RecordDirectly(key, now, tick, kind) =>
      if kind.DryRunRejection? then t else NoteAt(Visit(t, key, now, tick), key, kind)
    case ClaimPermit(i, kind) => if i < |t.permits| && OfAdmittedWork(kind) then Claim(t, i, kind) else t
    case RecordClaimed(i, now, tick) => if i < |t.permits| then Complete(t, i, now, tick) else t
    case TakeSnapshot(key, now, tick) => if key in t.resources then LookAt(t, key, now, tick) else t
    case Reset(key) => if key in t.resources then Drop(t, key) else t
    case ResetAll => t.(resources := map[], slots := seq(|t.slots|, _ => false))
  }

  // ---------------------------------------------------------------- invariant

  ghost predicate Holds(resources: Resources, slot: int) {
    exists k :: k in resources && resources[k].slot == slot
  }

  /** Live histories have distinct slots, never slot 0, and the marks are exactly theirs. */
  ghost predicate SlotsRight(resources: Resources, slots: seq<bool>) {
    && (forall k :: k in resources ==> 1 <= resources[k].slot < |slots|)
    && (forall j, k :: j in resources && k in resources && j != k ==> resources[j].slot != resources[k].slot)
    && (forall i {:trigger slots[i]} :: 0 <= i < |slots| ==> (slots[i] <==> Holds(resources, i)))
  }

  ghost predicate IdsRight(resources: Resources, created: nat) {
    && (forall k :: k in resources ==> resources[k].id < created)
    && (forall j, k :: j in resources && k in resources && j != k ==> resources[j].id != resources[k].id)
  }

  /** Until the sequence number is exhausted, no two histories were last used at the same time. */
  ghost predicate UseRight(resources: Resources, sequence: nat) {
    && sequence <= MAX_UINT64
    && (forall k :: k in resources ==> resources[k].lastUsed <= sequence)
    && (sequence < MAX_UINT64 ==>
          forall j, k :: j in resources && k in resources && j != k ==> resources[j].lastUsed != resources[k].lastUsed)
  }

  /** Only a marked permit has an outcome on its way to the table. */
  predicate PermitRight(p: Permit, created: nat) {
    p.id < created && (p.pending.Some? ==> p.recorded && OfAdmittedWork(p.pending.value))
  }

  ghost predicate Inv(t: Table) {
    && 1 <= t.max && |t.slots| == t.max + 1 && |t.resources| <= t.max
    && SlotsRight(t.resources, t.slots)
    && IdsRight(t.resources, t.created)
    && UseRight(t.resources, t.sequence)
    && (forall i :: 0 <= i < |t.permits| ==> PermitRight(t.permits[i], t.created))
  }
}

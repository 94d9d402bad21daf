/** The ring of buckets of one resource, kept in step with the plain log it stands for. */
module ThrottleHistory {
  import opened ThrottleWindow
  import opened ThrottlePolicy

  datatype Bucket = Bucket(tick: Int64, counts: Counts)

  const EMPTY := Bucket(0, NONE)

  /** The counts of a window, the age of its oldest event in ticks, and that age as a duration. */
  datatype Snapshot = Snapshot(counts: Counts, oldestAge: nat, windowAge: Int64)

  // ---------------------------------------------------------------- what the ring holds

  /** Bucket `i` holds the saturated counts of the one tick of the window whose place it is. */
  ghost predicate BucketRight(b: Bucket, i: nat, log: seq<Entry>, now: int, count: nat)
    requires i < count
  {
    && b.counts == Saturate(SumAt(log, TickFor(now, count, i)))
    && (HasData(b.counts) ==> b.tick == TickFor(now, count, i))
  }

  ghost predicate RingRight(buckets: seq<Bucket>, log: seq<Entry>, now: int) {
    && NothingLater(log, now)
    && forall i {:trigger BucketRight(buckets[i], i, log, now, |buckets|)} ::
         0 <= i < |buckets| ==> BucketRight(buckets[i], i, log, now, |buckets|)
  }

  /** A bucket at a later instant: forgotten if its tick fell out of the window. */
  function Expire(b: Bucket, tick: Int64, count: nat): Bucket
    requires count > 0
  {
    if HasData(b.counts) && ForwardGapAtLeast(b.tick, tick, count) then EMPTY else b
  }

  lemma ExpireKeepsRight(b: Bucket, i: nat, log: seq<Entry>, was: Int64, now: Int64, count: nat)
    requires i < count && BucketRight(b, i, log, was, count) && NothingLater(log, was) && was <= now
    ensures BucketRight(Expire(b, now, count), i, log, now, count)
  {
    var t, t' := TickFor(was, count, i), TickFor(now, count, i);
    TickForIsUnique(was, count, i, t);
    TickForIsUnique(now, count, i, t');
    if t > now - count {
      TickForIsUnique(now, count, i, t);
    } else {
      LaterTick(was, now, count, i);
      SumAtNone(log, t');
    }
  }

  /** A place whose tick fell out of the window now stands for a tick after the last look. */
  lemma LaterTick(was: Int64, now: Int64, count: nat, i: nat)
    requires i < count && was <= now && TickFor(was, count, i) <= now - count
    ensures TickFor(now, count, i) > was
  {
    var t' := TickFor(now, count, i);
    TickForIsUnique(now, count, i, t');
    TickForIsUnique(was, count, i, t');
  }

  lemma ClearedIsRight(i: nat, log: seq<Entry>, now: int, count: nat)
    requires i < count && forall e :: e in log ==> e.tick <= now - count
    ensures BucketRight(EMPTY, i, log, now, count)
  {
    TickForIsUnique(now, count, i, TickFor(now, count, i));
    SumAtNone(log, TickFor(now, count, i));
  }

  /** The place of the current tick holds either that tick or nothing at all: reusing it loses nothing. */
  lemma ReuseLosesNothing(b: Bucket, tick: Int64, log: seq<Entry>, count: nat)
    requires count > 0 && BucketRight(b, BucketIndex(tick, count), log, tick, count)
    ensures b.tick != tick ==> b.counts == NONE
    ensures BucketRight(if b.tick != tick then Bucket(tick, NONE) else b, BucketIndex(tick, count), log, tick, count)
  {
    TickForIsUnique(tick, count, BucketIndex(tick, count), tick);
  }

  lemma RecordKeepsRight(b: Bucket, i: nat, log: seq<Entry>, now: Int64, kind: Kind, count: nat)
    requires i < count && BucketRight(b, i, log, now, count)
    requires i == now % count ==> b.tick == now
    ensures BucketRight(if i == now % count then Bucket(b.tick, RecordDirect(b.counts, kind)) else b,
                        i, log + [Entry(now, kind)], now, count)
  {
    assert (log + [Entry(now, kind)])[..|log|] == log;
    TickForIsUnique(now, count, i, now);
    RecordingSaturates(SumAt(log, TickFor(now, count, i)), kind);
  }

  // ---------------------------------------------------------------- the history

  class History {
    const duration: Int64
    const buckets: array<Bucket>
    var lastTick: Int64
    var lastTime: int
    ghost var log: seq<Entry>

    ghost predicate Valid()
      reads this, buckets
    {
      && duration > 0 && buckets.Length > 0
      && RingRight(buckets[..], log, lastTick)
    }

    ghost function Model(): Window
      reads this
    {
      Window(log, lastTick, lastTime)
    }

    constructor (duration: Int64, count: nat, now: Instant)
      requires duration > 0 && count > 0
      ensures Valid() && fresh(buckets) && buckets.Length == count && this.duration == duration
      ensures Model() == Window([], WindowTick(now.nanos, duration), now.order)
    {
      var tick := WindowTick(now.nanos, duration);
      this.duration := duration;
      buckets := new Bucket[count](_ => EMPTY);
      lastTick, lastTime, log := tick, now.order, [];
      new;
      buckets[BucketIndex(tick, count)] := Bucket(tick, NONE);
      assert forall i {:trigger BucketRight(buckets[i], i, log, tick, count)} ::
          0 <= i < count ==> BucketRight(buckets[i], i, log, tick, count);
    }

    method Clear()
      requires Valid()
      modifies buckets
      ensures forall i :: 0 <= i < buckets.Length ==> buckets[i] == EMPTY
    {
      for i := 0 to buckets.Length
        invariant forall k :: 0 <= k < i ==> buckets[k] == EMPTY
      {
        buckets[i] := EMPTY;
      }
    }

    method ExpireAll(tick: Int64)
      requires buckets.Length > 0
      modifies buckets
      ensures forall i :: 0 <= i < buckets.Length ==> buckets[i] == old(Expire(buckets[i], tick, buckets.Length))
    {
      for i := 0 to buckets.Length
        invariant forall k :: 0 <= k < i ==> buckets[k] == old(Expire(buckets[k], tick, buckets.Length))
        invariant forall k :: i <= k < buckets.Length ==> buckets[k] == old(buckets[k])
      {
        if HasData(buckets[i].counts) && ForwardGapAtLeast(buckets[i].tick, tick, buckets.Length) {
          buckets[i] := EMPTY;
        }
      }
    }

    /** Brings the ring to the instant `now` and returns the place of its tick. */
    method CurrentBucket(now: Instant) returns (index: nat)
      requires Valid()
      modifies this, buckets
      ensures Valid() && Model() == Advance(old(Model()), now, WindowTick(now.nanos, duration))
      ensures index < buckets.Length && index == lastTick % buckets.Length && buckets[index].tick == lastTick
    {
      var tick := WindowTick(now.nanos, duration);
      ghost var before := buckets[..];
      ghost var kept := Advance(Model(), now, tick).log;
      if now.order < lastTime || tick < lastTick || ForwardGapAtLeast(lastTick, tick, buckets.Length) {
        Clear();
        assert forall i :: 0 <= i < buckets.Length ==> buckets[..][i] == EMPTY;
        ClearedRing(buckets[..], kept, tick);
      } else {
        ExpireAll(tick);
        assert forall i :: 0 <= i < buckets.Length ==> buckets[..][i] == Expire(before[i], tick, buckets.Length);
        ExpiredRing(before, buckets[..], kept, lastTick, tick);
      }
      log, lastTick, lastTime := kept, tick, now.order;
      index := BucketIndex(tick, buckets.Length);
      ReusedRing(buckets[..], kept, tick);
      if buckets[index].tick != tick {
        buckets[index] := Bucket(tick, NONE);
      }
    }

    /** Counts one event at the instant of the last look, in the bucket that the look returned. */
    method Record(index: nat, kind: Kind)
      requires Valid() && index < buckets.Length && index == lastTick % buckets.Length
      requires buckets[index].tick == lastTick
      modifies this`log, buckets
      ensures Valid() && Model() == Add(old(Model()), kind)
      ensures buckets[index].tick == lastTick
    {
      RecordedRing(buckets[..], log, lastTick, kind);
      buckets[index] := Bucket(buckets[index].tick, RecordDirect(buckets[index].counts, kind));
      log := log + [Entry(lastTick, kind)];
    }

    /** The saturated counts of exactly the logged events of the last ticks, and the age of the oldest of them. */
    method Aggregate() returns (snapshot: Snapshot)
      requires Valid()
      ensures snapshot.counts == Saturate(SumWindow(log, lastTick, buckets.Length))
      ensures IsOldestAge(log, lastTick, buckets.Length, snapshot.oldestAge)
      ensures duration * buckets.Length <= MAX_WINDOW_DURATION ==> snapshot.windowAge == snapshot.oldestAge * duration
    {
      var total: Counts, age: nat := NONE, 0;
      ghost var count := buckets.Length;
      ghost var ticks := RingTicks(lastTick, count);
      for i := 0 to buckets.Length
        invariant total == Saturate(SumOver(log, ticks[..i]))
        invariant AgeSoFar(buckets[..i], lastTick, age)
      {
        var b := buckets[i];
        AddBucket(buckets[..], log, lastTick, i, total, age);
        total := SaturatingPlus(total, b.counts);
        if HasData(b.counts) {
          age := Later(age, AgeOf(lastTick, b.tick));
        }
        assert buckets[..][..i + 1] == buckets[..i + 1] && buckets[..][..i] == buckets[..i];
      }
      RingTicksAreWindow(lastTick, count);
      assert ticks[..count] == ticks && buckets[..count] == buckets[..];
      SumOverWindow(log, ticks, lastTick, count);
      AgeOfRing(buckets[..], log, lastTick, age);
      if duration * buckets.Length <= MAX_WINDOW_DURATION {
        AgeFits(log, lastTick, count, age, duration);
      }
      snapshot := Snapshot(total, age, ToInt64(ToInt64(age) * duration));
    }
  }

  // ---------------------------------------------------------------- the ring as a whole

  lemma ClearedRing(buckets: seq<Bucket>, log: seq<Entry>, now: int)
    requires |buckets| > 0 && forall i :: 0 <= i < |buckets| ==> buckets[i] == EMPTY
    requires forall e :: e in log ==> e.tick <= now - |buckets|
    ensures RingRight(buckets, log, now)
  {
    forall i | 0 <= i < |buckets|
      ensures BucketRight(buckets[i], i, log, now, |buckets|)
    {
      ClearedIsRight(i, log, now, |buckets|);
    }
  }

  lemma ExpiredRing(before: seq<Bucket>, after: seq<Bucket>, log: seq<Entry>, was: Int64, now: Int64)
    requires |before| == |after| > 0 && RingRight(before, log, was) && was <= now
    requires forall i :: 0 <= i < |after| ==> after[i] == Expire(before[i], now, |before|)
    ensures RingRight(after, log, now)
  {
    forall i | 0 <= i < |after|
      ensures BucketRight(after[i], i, log, now, |after|)
    {
      assert BucketRight(before[i], i, log, was, |before|);
      ExpireKeepsRight(before[i], i, log, was, now, |before|);
    }
  }

  lemma ReusedRing(buckets: seq<Bucket>, log: seq<Entry>, tick: Int64)
    requires |buckets| > 0 && RingRight(buckets, log, tick)
    ensures var index := BucketIndex(tick, |buckets|);
            && (buckets[index].tick != tick ==> buckets[index].counts == NONE)
            && RingRight(buckets[index := Bucket(tick, buckets[index].counts)], log, tick)
  {
    var index := BucketIndex(tick, |buckets|);
    var after := buckets[index := Bucket(tick, buckets[index].counts)];
    assert BucketRight(buckets[index], index, log, tick, |buckets|);
    ReuseLosesNothing(buckets[index], tick, log, |buckets|);
    forall i | 0 <= i < |after|
      ensures BucketRight(after[i], i, log, tick, |after|)
    {
      assert BucketRight(buckets[i], i, log, tick, |buckets|);
    }
  }

  lemma RecordedBucket(buckets: seq<Bucket>, log: seq<Entry>, now: Int64, kind: Kind, index: nat, i: nat)
    requires |buckets| > 0 && RingRight(buckets, log, now) && index == now % |buckets| && buckets[index].tick == now
    requires i < |buckets|
    ensures var b := if i == index then Bucket(now, RecordDirect(buckets[i].counts, kind)) else buckets[i];
            BucketRight(b, i, log + [Entry(now, kind)], now, |buckets|)
  {
    assert BucketRight(buckets[i], i, log, now, |buckets|);
    RecordKeepsRight(buckets[i], i, log, now, kind, |buckets|);
  }

  lemma RecordedRing(buckets: seq<Bucket>, log: seq<Entry>, now: Int64, kind: Kind)
    requires |buckets| > 0 && RingRight(buckets, log, now) && buckets[now % |buckets|].tick == now
    ensures var index := now % |buckets|;
            RingRight(buckets[index := Bucket(now, RecordDirect(buckets[index].counts, kind))],
                      log + [Entry(now, kind)], now)
  {
    var index := now % |buckets|;
    var after := buckets[index := Bucket(now, RecordDirect(buckets[index].counts, kind))];
    forall i | 0 <= i < |after|
      ensures BucketRight(after[i], i, log + [Entry(now, kind)], now, |after|)
    {
      RecordedBucket(buckets, log, now, kind, index, i);
    }
  }

  // ---------------------------------------------------------------- aggregation

  predicate InRange(c: Counts) {
    && c.requests <= MAX_UINT64 && c.accepts <= MAX_UINT64 && c.samples <= MAX_UINT64 && c.overloads <= MAX_UINT64
    && c.failures <= MAX_UINT64 && c.ignored <= MAX_UINT64
    && c.localRejections <= MAX_UINT64 && c.dryRunRejections <= MAX_UINT64
  }

  function SaturatingPlus(a: Counts, b: Counts): (r: Counts)
    requires InRange(a) && InRange(b)
    ensures r == Saturate(Plus(a, b))
  {
    Counts(SaturatingAdd(a.requests, b.requests), SaturatingAdd(a.accepts, b.accepts),
           SaturatingAdd(a.samples, b.samples), SaturatingAdd(a.overloads, b.overloads),
           SaturatingAdd(a.failures, b.failures), SaturatingAdd(a.ignored, b.ignored),
           SaturatingAdd(a.localRejections, b.localRejections), SaturatingAdd(a.dryRunRejections, b.dryRunRejections))
  }

  /** The distance of two ticks by wrapping subtraction; exact for a tick that is not later. */
  function AgeOf(current: Int64, tick: Int64): (r: nat)
    ensures tick <= current ==> r == current - tick
  {
    (ToUint64(current) - ToUint64(tick)) % TWO_TO_64
  }

  ghost predicate AgeSoFar(buckets: seq<Bucket>, now: Int64, age: nat) {
    && (forall i :: 0 <= i < |buckets| && HasData(buckets[i].counts) ==> now - buckets[i].tick <= age)
    && (age == 0 || exists i :: 0 <= i < |buckets| && HasData(buckets[i].counts) && age == now - buckets[i].tick)
  }

  function Later(a: nat, b: nat): nat {
    if a > b then a else b
  }

  lemma {:induction false} OneMoreTick(log: seq<Entry>, ticks: seq<int>, i: nat)
    requires i < |ticks|
    ensures SumOver(log, ticks[..i + 1]) == Plus(SumOver(log, ticks[..i]), SumAt(log, ticks[i]))
  {
    assert ticks[..i + 1][..i] == ticks[..i];
  }

  /** One turn of the aggregation loop. */
  lemma AddBucket(buckets: seq<Bucket>, log: seq<Entry>, now: Int64, i: nat, total: Counts, age: nat)
    requires RingRight(buckets, log, now) && i < |buckets|
    requires total == Saturate(SumOver(log, RingTicks(now, |buckets|)[..i])) && AgeSoFar(buckets[..i], now, age)
    ensures InRange(buckets[i].counts) && InRange(total)
    ensures Saturate(Plus(total, buckets[i].counts)) == Saturate(SumOver(log, RingTicks(now, |buckets|)[..i + 1]))
    ensures AgeSoFar(buckets[..i + 1], now,
                     if HasData(buckets[i].counts) then Later(age, AgeOf(now, buckets[i].tick)) else age)
  {
    var ticks := RingTicks(now, |buckets|);
    assert BucketRight(buckets[i], i, log, now, |buckets|);
    OneMoreTick(log, ticks, i);
    SaturationComposes(SumOver(log, ticks[..i]), SumAt(log, ticks[i]));
    TickForIsUnique(now, |buckets|, i, TickFor(now, |buckets|, i));
    AgeStep(buckets, now, i, age);
  }

  lemma AgeStep(buckets: seq<Bucket>, now: Int64, i: nat, age: nat)
    requires i < |buckets| && AgeSoFar(buckets[..i], now, age)
    requires HasData(buckets[i].counts) ==> buckets[i].tick <= now
    ensures AgeSoFar(buckets[..i + 1], now,
                     if HasData(buckets[i].counts) then Later(age, AgeOf(now, buckets[i].tick)) else age)
  {
    var front, longer := buckets[..i], buckets[..i + 1];
    assert longer == front + [buckets[i]] && longer[i] == buckets[i];
    if age != 0 {
      var k :| 0 <= k < |front| && HasData(front[k].counts) && age == now - front[k].tick;
      assert longer[k] == front[k];
    }
  }

  /** `age` is how long ago, in ticks, the oldest event of the window was; 0 if there is none. */
  ghost predicate IsOldestAge(log: seq<Entry>, now: int, count: nat, age: nat) {
    && (forall e :: e in log && now - count < e.tick <= now ==> now - e.tick <= age)
    && (age == 0 || exists e :: e in log && now - count < e.tick <= now && age == now - e.tick)
  }

  lemma {:induction false} DataMeansEvents(log: seq<Entry>, tick: int)
    ensures HasData(Saturate(SumAt(log, tick))) <==> exists e :: e in log && e.tick == tick
  {
    if log != [] {
      var front, last := log[..|log| - 1], log[|log| - 1];
      assert log == front + [last];
      DataMeansEvents(front, tick);
      EventIsData(SumAt(front, tick), last.kind);
    }
  }

  lemma EventIsData(c: Counts, kind: Kind)
    ensures HasData(Saturate(Plus(c, Tally(kind))))
  {
    var t := Tally(kind);
    assert t.requests > 0 || t.ignored > 0 || t.dryRunRejections > 0;
  }

  /** The age of an event of the window is shorter than the window, so its duration does not overflow. */
  lemma AgeFits(log: seq<Entry>, now: int, count: nat, age: nat, duration: Int64)
    requires IsOldestAge(log, now, count, age) && 0 < duration && 0 < count && duration * count <= MAX_WINDOW_DURATION
    ensures ToInt64(ToInt64(age) * duration) == age * duration
  {
    Multiply(duration, age, count);
    Multiply(age, 1, duration);
  }

  lemma AgeOfRing(buckets: seq<Bucket>, log: seq<Entry>, now: Int64, age: nat)
    requires |buckets| > 0 && RingRight(buckets, log, now) && AgeSoFar(buckets, now, age)
    ensures IsOldestAge(log, now, |buckets|, age)
  {
    var count := |buckets|;
    forall e | e in log && now - count < e.tick <= now
      ensures now - e.tick <= age
    {
      var i := e.tick % count;
      TickForIsUnique(now, count, i, e.tick);
      assert BucketRight(buckets[i], i, log, now, count);
      DataMeansEvents(log, e.tick);
    }
    if age != 0 {
      var i :| 0 <= i < count && HasData(buckets[i].counts) && age == now - buckets[i].tick;
      assert BucketRight(buckets[i], i, log, now, count);
      TickForIsUnique(now, count, i, buckets[i].tick);
      DataMeansEvents(log, buckets[i].tick);
    }
  }
}

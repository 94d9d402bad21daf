/**
 * The rolling window of the adaptive throttle: a plain log of events, and the
 * arithmetic by which a ring of buckets stands in for it.
 */
module ThrottleWindow {
  import opened Collections

  const MAX_UINT64: nat := 0xFFFF_FFFF_FFFF_FFFF
  const TWO_TO_64: nat := 0x1_0000_0000_0000_0000

  type Int64 = x: int | -0x8000_0000_0000_0000 <= x <= 0x7FFF_FFFF_FFFF_FFFF

  /** A reading of the clock: its place among all readings, and its nanoseconds as a 64-bit number. */
  datatype Instant = Instant(order: int, nanos: Int64)

  datatype Kind = Accepted | DownstreamOverload | DownstreamFailure | Ignored | LocalRejection | DryRunRejection

  datatype Counts = Counts(requests: nat, accepts: nat, samples: nat, overloads: nat,
                           failures: nat, ignored: nat, localRejections: nat, dryRunRejections: nat)

  datatype Entry = Entry(tick: Int64, kind: Kind)

  // ---------------------------------------------------------------- 64-bit arithmetic

  /** Division that truncates toward zero, as the source's does. */
  function Quotient(a: int, b: int): int
    requires b > 0
  {
    if a >= 0 then a / b else -((-a) / b)
  }

  function Remainder(a: int, b: int): int
    requires b > 0
  {
    a - Quotient(a, b) * b
  }

  lemma {:induction false} Multiply(x: nat, a: nat, b: nat)
    requires a <= b
    ensures x * a <= x * b
  {
    if x > 0 {
      Multiply(x - 1, a, b);
    }
  }

  lemma DivideBounds(p: nat, b: int)
    requires b > 0
    ensures p == (p / b) * b + p % b && 0 <= p % b < b && 0 <= p / b <= p
    ensures p / b == p ==> p % b == 0
  {
    if b >= 2 {
      Multiply(p / b, 2, b);
    }
  }

  lemma QuotientBounds(a: int, b: int)
    requires b > 0
    ensures a >= 0 ==> 0 <= Remainder(a, b) < b && 0 <= Quotient(a, b) <= a
    ensures a < 0 ==> -b < Remainder(a, b) <= 0 && a <= Quotient(a, b) <= 0
    ensures a < 0 && Quotient(a, b) == a ==> Remainder(a, b) == 0
  {
    DivideBounds(if a >= 0 then a else -a, b);
  }

  /** The number of the bucket interval that holds an instant: division rounded down, also before the epoch. */
  function WindowTick(nanos: Int64, duration: Int64): (r: Int64)
    requires duration > 0
    ensures r * duration <= nanos < r * duration + duration
  {
    QuotientBounds(nanos, duration);
    var quotient := Quotient(nanos, duration);
    if nanos < 0 && Remainder(nanos, duration) != 0 then
      assert (quotient - 1) * duration == quotient * duration - duration;
      quotient - 1
    else quotient
  }

  lemma ModIs(x: int, n: int, k: int, r: int)
    requires n > 0 && x == k * n + r && 0 <= r < n
    ensures x % n == r
  {
    var d := x / n - k;
    assert d * n == r - x % n;
    if d > 0 {
      Multiply(n, 1, d);
    } else if d < 0 {
      Multiply(n, 1, -d);
    }
  }

  /** The place of a tick in the ring, also for ticks before the epoch. */
  function BucketIndex(tick: Int64, count: int): (r: nat)
    requires count > 0
    ensures r < count && r == tick % count
  {
    QuotientBounds(tick, count);
    var index := Remainder(tick, count);
    var r := if index < 0 then index + count else index;
    assert tick == Quotient(tick, count) * count + index;
    assert index < 0 ==> tick == (Quotient(tick, count) - 1) * count + r;
    ModIs(tick, count, if index < 0 then Quotient(tick, count) - 1 else Quotient(tick, count), r);
    r
  }

  /** Conversion to a signed 64-bit number: the value if it fits, else wrapped around. */
  function ToInt64(x: int): (r: Int64)
    ensures -0x8000_0000_0000_0000 <= x <= 0x7FFF_FFFF_FFFF_FFFF ==> r == x
  {
    (x + 0x8000_0000_0000_0000) % TWO_TO_64 - 0x8000_0000_0000_0000
  }

  function ToUint64(x: Int64): nat {
    if x < 0 then x + TWO_TO_64 else x
  }

  /** Although the subtraction wraps, the comparison is exact over the whole range. */
  function ForwardGapAtLeast(previous: Int64, current: Int64, count: nat): (r: bool)
    requires 0 < count
    ensures r <==> current - previous >= count
  {
    if current <= previous then false
    else (ToUint64(current) - ToUint64(previous)) % TWO_TO_64 >= count
  }

  function Clip(x: nat): nat {
    if x > MAX_UINT64 then MAX_UINT64 else x
  }

  function Increment(x: nat): nat {
    if x != MAX_UINT64 then x + 1 else x
  }

  function SaturatingAdd(total: nat, value: nat): (r: nat)
    requires total <= MAX_UINT64 && value <= MAX_UINT64
    ensures r == Clip(total + value)
  {
    var sum, carry := (total + value) % TWO_TO_64, (total + value) / TWO_TO_64;
    if carry != 0 then MAX_UINT64 else sum
  }

  // ---------------------------------------------------------------- counters

  const NONE := Counts(0, 0, 0, 0, 0, 0, 0, 0)

  function Plus(a: Counts, b: Counts): Counts {
    Counts(a.requests + b.requests, a.accepts + b.accepts, a.samples + b.samples, a.overloads + b.overloads,
           a.failures + b.failures, a.ignored + b.ignored,
           a.localRejections + b.localRejections, a.dryRunRejections + b.dryRunRejections)
  }

  function Saturate(c: Counts): Counts {
    Counts(Clip(c.requests), Clip(c.accepts), Clip(c.samples), Clip(c.overloads),
           Clip(c.failures), Clip(c.ignored), Clip(c.localRejections), Clip(c.dryRunRejections))
  }

  predicate HasData(c: Counts) {
    || c.requests != 0 || c.accepts != 0 || c.samples != 0 || c.overloads != 0
    || c.failures != 0 || c.ignored != 0 || c.localRejections != 0 || c.dryRunRejections != 0
  }

  /** What one event counts for. */
  function Tally(kind: Kind): Counts {
    match kind
    case Accepted => Counts(1, 1, 1, 0, 0, 0, 0, 0)
    case DownstreamOverload => Counts(1, 0, 1, 1, 0, 0, 0, 0)
    case DownstreamFailure => Counts(1, 1, 1, 0, 1, 0, 0, 0)
    case Ignored => Counts(0, 0, 0, 0, 0, 1, 0, 0)
    case LocalRejection => Counts(1, 0, 0, 0, 0, 0, 1, 0)
    case DryRunRejection => Counts(0, 0, 0, 0, 0, 0, 0, 1)
  }

  function RecordDirect(c: Counts, kind: Kind): Counts {
    match kind
    case Accepted =>
      c.(requests := Increment(c.requests), accepts := Increment(c.accepts), samples := Increment(c.samples))
    case DownstreamOverload =>
      c.(requests := Increment(c.requests), samples := Increment(c.samples), overloads := Increment(c.overloads))
    case DownstreamFailure =>
      c.(requests := Increment(c.requests), accepts := Increment(c.accepts), samples := Increment(c.samples),
         failures := Increment(c.failures))
    case Ignored => c.(ignored := Increment(c.ignored))
    case LocalRejection =>
      c.(requests := Increment(c.requests), localRejections := Increment(c.localRejections))
    case DryRunRejection => c.(dryRunRejections := Increment(c.dryRunRejections))
  }

  lemma RecordingSaturates(c: Counts, kind: Kind)
    ensures RecordDirect(Saturate(c), kind) == Saturate(Plus(c, Tally(kind)))
  {
  }

  lemma SaturationComposes(a: Counts, b: Counts)
    ensures Saturate(Plus(Saturate(a), Saturate(b))) == Saturate(Plus(a, b))
  {
  }

  // ---------------------------------------------------------------- the plain log

  /** The exact counts of the events of one tick. */
  ghost function SumAt(log: seq<Entry>, tick: int): Counts {
    if log == [] then NONE
    else
      var last := log[|log| - 1];
      var rest := SumAt(log[..|log| - 1], tick);
      if last.tick == tick then Plus(rest, Tally(last.kind)) else rest
  }

  /** The exact counts of the events of the last `count` ticks up to `now`. */
  ghost function SumWindow(log: seq<Entry>, now: int, count: nat): Counts {
    if log == [] then NONE
    else
      var last := log[|log| - 1];
      var rest := SumWindow(log[..|log| - 1], now, count);
      if now - count < last.tick <= now then Plus(rest, Tally(last.kind)) else rest
  }

  function One(b: bool): nat {
    if b then 1 else 0
  }

  /** How many events of one kind the last `count` ticks up to `now` saw. */
  ghost function HowMany(log: seq<Entry>, now: int, count: nat, kind: Kind): nat {
    if log == [] then 0
    else
      HowMany(log[..|log| - 1], now, count, kind) +
      One(now - count < log[|log| - 1].tick <= now && log[|log| - 1].kind == kind)
  }

  /**
   What the counters stand for: a downstream failure is an accept, work shed here is a request that nobody sampled, and
   neither ignored work nor what a dry run would have shed is a request.
   */
  predicate Means(c: Counts, accepted: nat, overload: nat, failure: nat, ignored: nat, local: nat, dryRun: nat) {
    && c.accepts == accepted + failure
    && c.samples == accepted + failure + overload
    && c.requests == accepted + failure + overload + local
    && c.overloads == overload && c.failures == failure && c.ignored == ignored
    && c.localRejections == local && c.dryRunRejections == dryRun
  }

  lemma OneMoreMeans(c: Counts, kind: Kind, a: nat, o: nat, f: nat, i: nat, l: nat, d: nat)
    requires Means(c, a, o, f, i, l, d)
    ensures Means(Plus(c, Tally(kind)), a + One(kind == Accepted), o + One(kind == DownstreamOverload),
                  f + One(kind == DownstreamFailure), i + One(kind == Ignored), l + One(kind == LocalRejection),
                  d + One(kind == DryRunRejection))
  {
  }

  lemma HowManyLast(log: seq<Entry>, now: int, count: nat, kind: Kind)
    requires log != []
    ensures var last := log[|log| - 1];
            HowMany(log, now, count, kind) ==
            HowMany(log[..|log| - 1], now, count, kind) + One(now - count < last.tick <= now && last.kind == kind)
  {
  }

  lemma {:induction false} CountsMean(log: seq<Entry>, now: int, count: nat)
    ensures Means(SumWindow(log, now, count),
                  HowMany(log, now, count, Accepted), HowMany(log, now, count, DownstreamOverload),
                  HowMany(log, now, count, DownstreamFailure), HowMany(log, now, count, Ignored),
                  HowMany(log, now, count, LocalRejection), HowMany(log, now, count, DryRunRejection))
  {
    if log != [] {
      var front, last := log[..|log| - 1], log[|log| - 1];
      CountsMean(front, now, count);
      forall kind: Kind
        ensures HowMany(log, now, count, kind) ==
                HowMany(front, now, count, kind) + One(now - count < last.tick <= now && last.kind == kind)
      {
        HowManyLast(log, now, count, kind);
      }
      OneMoreMeans(SumWindow(front, now, count), last.kind,
                   HowMany(front, now, count, Accepted), HowMany(front, now, count, DownstreamOverload),
                   HowMany(front, now, count, DownstreamFailure), HowMany(front, now, count, Ignored),
                   HowMany(front, now, count, LocalRejection), HowMany(front, now, count, DryRunRejection));
    }
  }

  ghost function SumOver(log: seq<Entry>, ticks: seq<int>): Counts {
    if ticks == [] then NONE
    else Plus(SumOver(log, ticks[..|ticks| - 1]), SumAt(log, ticks[|ticks| - 1]))
  }

  lemma {:induction false} SumOverEntry(log: seq<Entry>, e: Entry, ticks: seq<int>)
    requires Distinct(ticks)
    ensures SumOver(log + [e], ticks)
         == if e.tick in ticks then Plus(SumOver(log, ticks), Tally(e.kind)) else SumOver(log, ticks)
  {
    assert (log + [e])[..|log|] == log;
    if ticks != [] {
      var front, last := ticks[..|ticks| - 1], ticks[|ticks| - 1];
      SumOverEntry(log, e, front);
      assert ticks == front + [last] && last !in front;
    }
  }

  lemma PlusNone(a: Counts, b: Counts)
    requires b.requests == b.accepts == b.samples == b.overloads == b.failures == b.ignored == 0
    requires b.localRejections == b.dryRunRejections == 0
    ensures Plus(a, b) == a
  {
  }

  lemma {:induction false} SumOverNothing(log: seq<Entry>, ticks: seq<int>)
    requires log == []
    ensures SumOver(log, ticks) == NONE
    decreases |ticks|
  {
    if ticks != [] {
      var front, last := ticks[..|ticks| - 1], ticks[|ticks| - 1];
      SumOverNothing(log, front);
      PlusNone(SumOver(log, front), SumAt(log, last));
    }
  }

  /** Adding up tick by tick, in any order of the ticks, gives the sum over the window. */
  lemma {:induction false} SumOverWindow(log: seq<Entry>, ticks: seq<int>, now: int, count: nat)
    requires Distinct(ticks) && forall t :: t in ticks <==> now - count < t <= now
    ensures SumOver(log, ticks) == SumWindow(log, now, count)
  {
    if log == [] {
      SumOverNothing(log, ticks);
    } else {
      var front, last := log[..|log| - 1], log[|log| - 1];
      assert log == front + [last];
      SumOverWindow(front, ticks, now, count);
      SumOverEntry(front, last, ticks);
    }
  }

  /** The one tick of the window whose place in the ring is `i`. */
  ghost function TickFor(now: int, count: nat, i: nat): int
    requires i < count
  {
    now - (now - i) % count
  }

  lemma TickForIsUnique(now: int, count: nat, i: nat, t: int)
    requires i < count
    ensures now - count < t <= now && t % count == i <==> t == TickFor(now, count, i)
  {
    var k := (now - i) % count;
    assert now - i == ((now - i) / count) * count + k;
    ModIs(now - k, count, (now - i) / count, i);
    if now - count < t <= now && t % count == i {
      assert t == (t / count) * count + i;
      assert now - i == (t / count) * count + (now - t);
      ModIs(now - i, count, t / count, now - t);
    }
  }

  /** The ticks of the window, in the order of their places in the ring. */
  ghost function RingTicks(now: int, count: nat): (ticks: seq<int>)
    ensures |ticks| == count && forall i :: 0 <= i < count ==> ticks[i] == TickFor(now, count, i)
  {
    seq(count, i requires 0 <= i < count => TickFor(now, count, i))
  }

  lemma RingTicksAreWindow(now: int, count: nat)
    requires count > 0
    ensures Distinct(RingTicks(now, count))
    ensures forall t :: t in RingTicks(now, count) <==> now - count < t <= now
  {
    var ticks := RingTicks(now, count);
    forall i | 0 <= i < count
      ensures now - count < ticks[i] <= now && ticks[i] % count == i
    {
      TickForIsUnique(now, count, i, ticks[i]);
    }
    forall t | now - count < t <= now
      ensures t in ticks
    {
      TickForIsUnique(now, count, t % count, t);
      assert ticks[t % count] == t;
    }
  }

  lemma {:induction false} SumAtNone(log: seq<Entry>, tick: int)
    requires forall e :: e in log ==> e.tick != tick
    ensures SumAt(log, tick) == NONE
  {
    if log != [] {
      SumAtNone(log[..|log| - 1], tick);
    }
  }

  // ---------------------------------------------------------------- the window as a state

  datatype Window = Window(log: seq<Entry>, lastTick: Int64, lastTime: int)

  predicate Reverses(w: Window, now: Instant, tick: Int64) {
    now.order < w.lastTime || tick < w.lastTick
  }

  /** Looking at the clock: only when it went back is the log forgotten. */
  function Advance(w: Window, now: Instant, tick: Int64): Window {
    Window(if Reverses(w, now, tick) then [] else w.log, tick, now.order)
  }

  function Add(w: Window, kind: Kind): Window {
    w.(log := w.log + [Entry(w.lastTick, kind)])
  }

  ghost predicate NothingLater(log: seq<Entry>, now: int) {
    forall e :: e in log ==> e.tick <= now
  }

  // ---------------------------------------------------------------- whole runs

  /** A look at the clock, and what was recorded at it, if anything. */
  datatype Call = Look(now: Instant, tick: Int64) | Note(now: Instant, tick: Int64, kind: Kind)

  function Step(w: Window, call: Call): Window {
    var looked := Advance(w, call.now, call.tick);
    if call.Note? then Add(looked, call.kind) else looked
  }

  function Run(w: Window, calls: seq<Call>): Window {
    if calls == [] then w else Step(Run(w, calls[..|calls| - 1]), calls[|calls| - 1])
  }

  function Noted(calls: seq<Call>): seq<Entry> {
    if calls == [] then []
    else
      var last := calls[|calls| - 1];
      Noted(calls[..|calls| - 1]) + if last.Note? then [Entry(last.tick, last.kind)] else []
  }

  ghost predicate Forward(calls: seq<Call>) {
    forall i, j :: 0 <= i < j < |calls| ==> calls[i].now.order <= calls[j].now.order && calls[i].tick <= calls[j].tick
  }

  lemma {:induction false} ForwardKeepsLog(w: Window, calls: seq<Call>)
    requires Forward(calls)
    requires forall i :: 0 <= i < |calls| ==> w.lastTime <= calls[i].now.order && w.lastTick <= calls[i].tick
    ensures Run(w, calls).log == w.log + Noted(calls)
    ensures calls != [] ==> var last := calls[|calls| - 1];
            Run(w, calls).lastTick == last.tick && Run(w, calls).lastTime == last.now.order
    ensures calls == [] ==> Run(w, calls) == w
  {
    if calls != [] {
      ForwardKeepsLog(w, calls[..|calls| - 1]);
    }
  }

  /** Forwardness and what was noted from call `k` on, without the last call. */
  lemma {:induction false} WithoutLast(calls: seq<Call>, k: nat)
    requires k < |calls| - 1 && Forward(calls[k..])
    ensures var front, last := calls[..|calls| - 1], calls[|calls| - 1];
            && Forward(front[k..]) && Noted(calls[k..]) == Noted(front[k..]) + Noted([last])
            && front[|front| - 1].now.order <= last.now.order && front[|front| - 1].tick <= last.tick
  {
    var n := |calls| - 1;
    var tail := calls[k..];
    assert tail[..n - k] == calls[..n][k..];
    assert tail[n - 1 - k] == calls[n - 1] && tail[n - k] == calls[n];
    assert [calls[n]][..0] == [];
  }

  lemma StepForward(w: Window, call: Call)
    requires !Reverses(w, call.now, call.tick)
    ensures Step(w, call).log == w.log + Noted([call])
  {
    assert [call][..0] == [];
  }

  lemma StepBack(w: Window, call: Call)
    requires Reverses(w, call.now, call.tick)
    ensures Step(w, call).log == Noted([call])
  {
    assert [call][..0] == [];
  }

  /**
   * Whatever came before: after the clock last went back, at call `k`, the
   * log is exactly what was recorded from that call on, in order.
   */
  lemma {:induction false} LogIsSinceReversal(w: Window, calls: seq<Call>, k: nat)
    requires k < |calls| && Forward(calls[k..])
    requires Reverses(Run(w, calls[..k]), calls[k].now, calls[k].tick)
    ensures var r, last := Run(w, calls), calls[|calls| - 1];
            r.log == Noted(calls[k..]) && r.lastTick == last.tick && r.lastTime == last.now.order
    decreases |calls|
  {
    var n := |calls| - 1;
    if n == k {
      assert calls[k..] == [calls[k]];
      StepBack(Run(w, calls[..k]), calls[k]);
    } else {
      assert calls[..n][..k] == calls[..k];
      WithoutLast(calls, k);
      LogIsSinceReversal(w, calls[..n], k);
      StepForward(Run(w, calls[..n]), calls[n]);
    }
  }
}

/**
 * The policy of the adaptive throttle and the probability with which it sheds work. Floating point is read as real
 * arithmetic: `ceiling` is the largest number below the greatest probability, which the source returns in its place.
 */
module ThrottlePolicy {
  import opened ThrottleWindow

  const MAX_WINDOW_DURATION: nat := 86_400_000_000_000

  datatype Policy = Policy(duration: Int64, count: nat, minimumSamples: nat, acceptsK: real, maxProbability: real,
                           ceiling: real, maxResources: nat, dryRun: bool)

  /** What NewPolicy lets through. */
  predicate ValidPolicy(p: Policy) {
    && p.duration > 0 && p.count > 0 && p.duration * p.count <= MAX_WINDOW_DURATION && p.maxResources > 0
    && ValidOdds(p)
  }

  predicate ValidOdds(p: Policy) {
    1.0 <= p.acceptsK && 0.0 < p.ceiling < p.maxProbability < 1.0
  }

  /** Requests beyond what the downstream's accepts justify, as a share of all. */
  function Excess(p: Policy, c: Counts): real {
    (c.requests as real - p.acceptsK * c.accepts as real) / (c.requests + 1) as real
  }

  /** rejectionProbability */
  function Probability(p: Policy, c: Counts): real {
    if c.samples < p.minimumSamples || c.requests == 0 then 0.0
    else if Excess(p, c) < 0.0 then 0.0
    else if Excess(p, c) > p.ceiling then p.ceiling
    else Excess(p, c)
  }

  /** The random sample falls below the probability, scaled for the caller's priority. */
  predicate Sheds(p: Policy, c: Counts, sample: real, scale: real) {
    sample < Probability(p, c) * scale
  }

  lemma Positive(x: real, y: real)
    requires y > 0.0
    ensures x / y > 0.0 <==> x > 0.0
  {
    var q := x / y;
    assert x == q * y;
    if q > 0.0 {
      assert q * y > 0.0;
    } else {
      assert -q * y >= 0.0;
    }
  }

  lemma Smaller(x: real, y: real, z: real)
    requires y > 0.0 && x <= z
    ensures x / y <= z / y
  {
    var q, r := x / y, z / y;
    assert q * y == x && r * y == z;
  }

  lemma Product(a: real, b: real, c: real)
    requires a >= 0.0 && b <= c
    ensures a * b <= a * c
  {
    assert a * (c - b) >= 0.0;
  }

  /** Work is shed only when enough was sampled and requests outgrow the accepts, and never beyond the ceiling. */
  lemma ShedsOnlyExcess(p: Policy, c: Counts)
    requires ValidOdds(p)
    ensures 0.0 <= Probability(p, c) < p.maxProbability
    ensures Probability(p, c) > 0.0 <==>
              c.samples >= p.minimumSamples && c.requests as real > p.acceptsK * c.accepts as real
  {
    Product(c.accepts as real, 0.0, p.acceptsK);
    Positive(c.requests as real - p.acceptsK * c.accepts as real, (c.requests + 1) as real);
  }

  /** Quotients are compared by what they divide. */
  lemma Compare(x: real, y: real, b: real)
    requires y > 0.0
    ensures x / y > b <==> x > b * y
    ensures x / y * y == x
  {
    var q := x / y;
    assert q * y == x;
    assert (q - b) * y == x - b * y;
    if q > b {
      assert (q - b) * y > 0.0;
    } else {
      assert (b - q) * y >= 0.0;
    }
  }

  /**
   The probability itself, once enough was sampled: below the ceiling it is the share of requests that the accepts do
   not justify, and it is the ceiling exactly when that share reaches it.
   */
  lemma ProbabilityIsShare(p: Policy, c: Counts)
    requires ValidOdds(p) && c.samples >= p.minimumSamples
    ensures var surplus := c.requests as real - p.acceptsK * c.accepts as real;
            && (0.0 < Probability(p, c) < p.ceiling ==> Probability(p, c) * (c.requests + 1) as real == surplus)
            && (Probability(p, c) == p.ceiling <==> surplus >= p.ceiling * (c.requests + 1) as real)
            && (Probability(p, c) == 0.0 <==> surplus <= 0.0)
  {
    var surplus, all := c.requests as real - p.acceptsK * c.accepts as real, (c.requests + 1) as real;
    Product(c.accepts as real, 0.0, p.acceptsK);
    Compare(surplus, all, p.ceiling);
    Compare(surplus, all, 0.0);
    Compare(-surplus, all, -p.ceiling);
    assert -surplus / all == -(surplus / all);
    Product(all, 0.0, p.ceiling);
  }

  /** Enough was sampled, and the requests outgrow the accepts by more than the sample allows, scaled for priority. */
  predicate Outgrown(p: Policy, c: Counts, sample: real, scale: real) {
    && c.samples >= p.minimumSamples && sample < p.ceiling * scale
    && sample * (c.requests + 1) as real < (c.requests as real - p.acceptsK * c.accepts as real) * scale
  }

  /** When work is shed, without naming the probability: for every sample and every priority's scale. */
  lemma ShedsExactly(p: Policy, c: Counts, sample: real, scale: real)
    requires ValidOdds(p) && 0.0 <= sample && 0.0 <= scale
    ensures Sheds(p, c, sample, scale) <==> Outgrown(p, c, sample, scale)
  {
    var surplus, all := c.requests as real - p.acceptsK * c.accepts as real, (c.requests + 1) as real;
    ShedsOnlyExcess(p, c);
    if c.samples >= p.minimumSamples {
      ProbabilityIsShare(p, c);
      Scaled(Probability(p, c), p.ceiling, surplus, all, sample, scale);
    }
  }

  lemma Scaled(probability: real, ceiling: real, surplus: real, all: real, sample: real, scale: real)
    requires 0.0 <= probability <= ceiling && 0.0 < all && 0.0 <= sample && 0.0 <= scale && 0.0 < ceiling
    requires 0.0 < probability < ceiling ==> probability * all == surplus
    requires probability == ceiling <==> surplus >= ceiling * all
    requires probability == 0.0 <==> surplus <= 0.0
    ensures sample < probability * scale <==> sample < ceiling * scale && sample * all < surplus * scale
  {
    Product(scale, probability, ceiling);
    assert (probability * scale - sample) * all == probability * all * scale - sample * all;
    if probability == 0.0 {
      Product(scale, surplus, 0.0);
      Product(all, 0.0, sample);
    } else if probability == ceiling {
      Product(scale, ceiling * all, surplus);
      Signs(probability * scale - sample, all);
    } else {
      Signs(probability * scale - sample, all);
    }
  }

  lemma Signs(x: real, y: real)
    requires y > 0.0
    ensures x > 0.0 <==> x * y > 0.0
  {
  }

  /** One more accept never makes shedding more likely. */
  lemma AcceptsCalm(p: Policy, c: Counts, d: Counts)
    requires ValidOdds(p) && c.requests == d.requests && c.samples == d.samples && c.accepts <= d.accepts
    ensures Probability(p, d) <= Probability(p, c)
  {
    LessExcess(p, c, d);
  }

  lemma LessExcess(p: Policy, c: Counts, d: Counts)
    requires p.acceptsK >= 0.0 && c.requests == d.requests && c.accepts <= d.accepts
    ensures Excess(p, d) <= Excess(p, c)
  {
    Product(p.acceptsK, c.accepts as real, d.accepts as real);
    Smaller(d.requests as real - p.acceptsK * d.accepts as real, (c.requests + 1) as real,
            c.requests as real - p.acceptsK * c.accepts as real);
  }

  /** A sample at or above the greatest probability is admitted, whatever happened before and at every priority. */
  lemma AdmissionIsReserved(p: Policy, c: Counts, sample: real, scale: real)
    requires ValidOdds(p) && 0.0 <= scale <= 1.0 && sample >= p.maxProbability
    ensures !Sheds(p, c, sample, scale)
  {
    ShedsOnlyExcess(p, c);
    Reserved(Probability(p, c), p.maxProbability, sample, scale);
  }

  lemma Reserved(probability: real, bound: real, sample: real, scale: real)
    requires 0.0 <= probability < bound <= sample && scale <= 1.0
    ensures !(sample < probability * scale)
  {
    Product(probability, scale, 1.0);
  }

  /** A caller of higher priority, with a smaller scale, is shed only if one of lower priority would be. */
  lemma PriorityProtects(p: Policy, c: Counts, sample: real, low: real, high: real)
    requires ValidOdds(p) && 0.0 <= high <= low && Sheds(p, c, sample, high)
    ensures Sheds(p, c, sample, low)
  {
    ShedsOnlyExcess(p, c);
    Protected(Probability(p, c), sample, low, high);
  }

  lemma Protected(probability: real, sample: real, low: real, high: real)
    requires 0.0 <= probability && high <= low && sample < probability * high
    ensures sample < probability * low
  {
    Product(probability, high, low);
  }
}

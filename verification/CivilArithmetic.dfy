/** Checked multiplication, day and month arithmetic with its policies, and the comparison of dates. */
module CivilArithmetic {
  import opened CivilDate

  const MIN_INT := -0x8000_0000_0000_0000
  const MAX_INT := 0x7FFF_FFFF_FFFF_FFFF
  const TWO_TO_64 := 0x1_0000_0000_0000_0000

  type Int = x: int | MIN_INT <= x <= MAX_INT

  // ---------------------------------------------------------------- checked multiplication

  /** Reduction to 64 bits, two's complement. */
  function Wrap(x: int): (r: Int)
    ensures (x - r) % TWO_TO_64 == 0
    ensures MIN_INT <= x <= MAX_INT ==> r == x
  {
    (x - MIN_INT) % TWO_TO_64 + MIN_INT
  }

  function Abs(x: int): nat {
    if x < 0 then -x else x
  }

  /** Division of magnitudes, by repeated subtraction. */
  function Quotient(p: nat, n: nat): nat
    requires n > 0
    decreases p
  {
    if p < n then 0 else 1 + Quotient(p - n, n)
  }

  lemma {:induction false} QuotientIs(p: nat, n: nat)
    requires n > 0
    ensures 0 <= p - n * Quotient(p, n) < n
    ensures Quotient(p, n) <= p && (n >= 2 ==> 2 * Quotient(p, n) <= p)
    decreases p
  {
    if p >= n {
      QuotientIs(p - n, n);
      assert n * Quotient(p, n) == n * Quotient(p - n, n) + n;
    }
  }

  /** Division toward zero, which for the least integer and -1 wraps. */
  function Divide(a: Int, b: Int): Int
    requires b != 0
  {
    if a == MIN_INT && b == -1 then MIN_INT
    else
      QuotientIs(Abs(a), Abs(b));
      var q: int := Quotient(Abs(a), Abs(b));
      if (a < 0) == (b < 0) then q else -q
  }

  lemma Signs(b: int, q: int)
    ensures b * -q == -(b * q) && (b < 0 ==> b * q == -(Abs(b) * q))
  {
  }

  lemma DivideRemainder(a: Int, b: Int)
    requires b != 0 && !(a == MIN_INT && b == -1)
    ensures Abs(a - b * Divide(a, b)) < Abs(b)
  {
    var p: int, n: int := Abs(a), Abs(b);
    var q: int := Quotient(p, n);
    var m: int := n * q;
    QuotientIs(p, n);
    Signs(b, q);
    assert b * Divide(a, b) == if a < 0 then -m else m;
  }

  /** The product in 64 bits, and whether the source takes it for exact. */
  function CheckedMultiply(a: Int, b: Int): (Int, bool) {
    var result := Wrap(a * b);
    (result, a == 0 || Divide(result, a) == b)
  }

  lemma MultipleIsZero(x: int)
    requires x % TWO_TO_64 == 0 && Abs(x) < TWO_TO_64
    ensures x == 0
  {
  }

  /** The check is exact, except that -1 times the least integer passes for itself. */
  lemma CheckedMultiplyIsExact(a: Int, b: Int)
    ensures CheckedMultiply(a, b).1 <==> MIN_INT <= a * b <= MAX_INT || (a == -1 && b == MIN_INT)
    ensures CheckedMultiply(a, b).1 && b > 0 ==> CheckedMultiply(a, b).0 == a * b
  {
    var result := Wrap(a * b);
    if a == 0 {
    } else if a == -1 {
      assert a * b == 0 - b;
      if result != MIN_INT {
        DivideRemainder(result, a);
      }
    } else {
      DivideRemainder(result, a);
      if Divide(result, a) == b {
        assert a * b - result == -(result - a * Divide(result, a));
        MultipleIsZero(a * b - result);
      } else if MIN_INT <= a * b <= MAX_INT {
        DivisionIsUnique(a, b, Divide(result, a));
      }
    }
  }

  lemma DivisionIsUnique(a: int, b: int, q: int)
    requires a != 0 && Abs(a * b - a * q) < Abs(a)
    ensures b == q
  {
    var d := b - q;
    assert a * d == a * b - a * q;
    if d != 0 {
      assert Abs(a * d) >= Abs(a) by {
        AbsMultiply(a, d);
      }
    }
  }

  lemma AbsMultiply(a: int, d: int)
    requires d != 0
    ensures Abs(a * d) >= Abs(a)
  {
    if a >= 0 && d >= 1 {
      Larger(a, d);
    } else if a >= 0 {
      Larger(a, -d);
      assert a * d == -(a * -d);
    } else if d >= 1 {
      Larger(-a, d);
      assert a * d == -(-a * d);
    } else {
      Larger(-a, -d);
      assert a * d == -a * -d;
    }
  }

  lemma {:induction false} Larger(a: nat, d: nat)
    requires d >= 1
    ensures a * d >= a
  {
    if d > 1 {
      Larger(a, d - 1);
      assert a * d == a * (d - 1) + a;
    }
  }

  // ---------------------------------------------------------------- adding

  datatype Month = Month(year: int, month: int)

  predicate Exists(m: Month) {
    MIN_YEAR <= m.year <= MAX_YEAR && 1 <= m.month <= 12
  }

  /** The number of a month, counted from January of year 1. */
  function Index(m: Month): int {
    (m.year - 1) * 12 + m.month - 1
  }

  const LAST_INDEX := MAX_YEAR * 12 - 1

  function MonthAt(index: int): Month {
    Month(index / 12 + 1, index % 12 + 1)
  }

  function MonthOf(d: Date): Month {
    Month(d.year, d.month)
  }

  function Length(m: Month): int {
    DaysInMonth(m.year, m.month)
  }

  function Next(m: Month): Month {
    if m.month < 12 then Month(m.year, m.month + 1) else Month(m.year + 1, 1)
  }

  function Previous(m: Month): Month {
    if m.month > 1 then Month(m.year, m.month - 1) else Month(m.year - 1, 12)
  }

  function On(m: Month, day: int): Date {
    Date(m.year, m.month, day)
  }

  lemma MonthAtIndex(m: Month)
    requires 1 <= m.month <= 12
    ensures MonthAt(Index(m)) == m
    ensures Exists(m) <==> 0 <= Index(m) <= LAST_INDEX
    ensures Index(Next(m)) == Index(m) + 1 && Index(Previous(m)) == Index(m) - 1
  {
  }

  /** The day itself if the month has it, and what the policy makes of it otherwise. */
  function Place(m: Month, day: int, policy: Policy): Result<Date> {
    var last := Length(m);
    if day <= last then Ok(On(m, day))
    else if policy == Clamp then Ok(On(m, last))
    else if policy == Reject then Err(Arithmetic)
    else Ok(On(Next(m), day - last))
  }

  function AddMonths(d: Date, months: int, policy: Policy): Result<Date> {
    if !Valid(d) then Err(InvalidDate)
    else if policy == UnknownPolicy then Err(Arithmetic)
    else
      var base := Index(MonthOf(d));
      if months < -base || months > LAST_INDEX - base then Err(Arithmetic)
      else Place(MonthAt(base + months), d.day, policy)
  }

  function AddYears(d: Date, years: Int, policy: Policy): Result<Date> {
    var (months, ok) := CheckedMultiply(years, 12);
    if ok then AddMonths(d, months, policy) else Err(Arithmetic)
  }

  function AddDays(d: Date, days: int): Result<Date> {
    if !Valid(d) then Err(InvalidDate) else FromOrdinalBy(Ordinal(d), days)
  }

  function FromOrdinalBy(ordinal: int, days: int): Result<Date> {
    if days < -ordinal || days > LAST_ORDINAL - ordinal then Err(Arithmetic) else Ok(FromOrdinal(ordinal + days))
  }

  lemma AddMonthsAt(d: Date, months: int, index: int, policy: Policy)
    requires Valid(d) && policy != UnknownPolicy && index == Index(MonthOf(d)) + months && 0 <= index <= LAST_INDEX
    ensures AddMonths(d, months, policy) == Place(MonthAt(index), d.day, policy)
  {
  }

  /** Adding the months between two months leads into the second. */
  lemma AddMonthsInto(d: Date, m: Month, months: int, policy: Policy)
    requires Valid(d) && Exists(m) && policy != UnknownPolicy && months == Index(m) - Index(MonthOf(d))
    ensures AddMonths(d, months, policy) == Place(m, d.day, policy)
  {
    MonthAtIndex(m);
    AddMonthsAt(d, months, Index(m), policy);
  }

  /** A carried date is a real one: the month after a short month exists and has those days. */
  lemma PlaceIsValid(m: Month, day: int, policy: Policy)
    requires Exists(m) && 1 <= day <= 31
    ensures Place(m, day, policy).Ok? ==> Valid(Place(m, day, policy).value)
    ensures day > Length(m) ==> m.month < 12
  {
  }

  /** Carrying under Overflow moves exactly the excess days past the end of the month. */
  lemma CarryIsExact(m: Month, day: int)
    requires Exists(m) && Length(m) < day <= 31
    ensures var end, carried := On(m, Length(m)), Place(m, day, Overflow).value;
            Valid(end) && Valid(carried) && Ordinal(carried) == Ordinal(end) + day - Length(m)
  {
    PlaceIsValid(m, day, Overflow);
    NextMonthAddsOne(On(m, Length(m)));
  }

  /**
   Adding the months up to month `m`: the day itself if `m` has it; otherwise nothing, the last day of `m`, or the day
   that many days after its first, by the policy.
   */
  lemma AddMonthsIsExact(d: Date, m: Month, policy: Policy)
    requires Valid(d) && Exists(m) && policy != UnknownPolicy
    ensures var r := AddMonths(d, Index(m) - Index(MonthOf(d)), policy);
            if Valid(On(m, d.day)) then r == Ok(On(m, d.day))
            else if policy == Reject then r == Err(Arithmetic)
            else
              && r.Ok? && Valid(r.value)
              && if policy == Clamp then MonthOf(r.value) == m && !Valid(On(m, r.value.day + 1))
                 else Ordinal(r.value) == Ordinal(On(m, 1)) + d.day - 1
  {
    AddMonthsInto(d, m, Index(m) - Index(MonthOf(d)), policy);
    PlaceIsValid(m, d.day, policy);
    if !Valid(On(m, d.day)) && policy == Overflow {
      CarryIsExact(m, d.day);
    }
  }

  /** Months that lead out of the years there are fail, as do invalid dates and unknown policies. */
  lemma AddMonthsFails(d: Date, months: int, policy: Policy)
    requires !Valid(d) || policy == UnknownPolicy || !(0 <= Index(MonthOf(d)) + months <= LAST_INDEX)
    ensures AddMonths(d, months, policy) == Err(if Valid(d) then Arithmetic else InvalidDate)
  {
  }

  /** Adding days leads exactly where it should. */
  lemma ReachesByOrdinal(ordinal: int, days: int, e: Date)
    requires 0 <= ordinal && Valid(e) && Ordinal(e) == ordinal + days
    ensures FromOrdinalBy(ordinal, days) == Ok(e)
  {
    LastOrdinal(e);
    OrdinalRoundTrip(ordinal + days, e);
  }

  lemma AddDaysReaches(d: Date, days: int, e: Date)
    requires Valid(d) && Valid(e) && Ordinal(e) == Ordinal(d) + days
    ensures AddDays(d, days) == Ok(e)
  {
    LastOrdinal(e);
    LastOrdinal(d);
    ReachesByOrdinal(Ordinal(d), days, e);
  }

  lemma FromOrdinalByIs(ordinal: int, days: int)
    ensures FromOrdinalBy(ordinal, days).Ok? <==> 0 <= ordinal + days <= LAST_ORDINAL
    ensures FromOrdinalBy(ordinal, days).Ok? ==>
              var e := FromOrdinalBy(ordinal, days).value; Valid(e) && Ordinal(e) == ordinal + days
  {
  }

  /** Adding days goes exactly that far, and comes back. */
  lemma AddDaysIsExact(d: Date, days: int)
    requires Valid(d)
    ensures AddDays(d, days).Ok? <==> 0 <= Ordinal(d) + days <= LAST_ORDINAL
    ensures AddDays(d, days).Ok? ==>
      var e := AddDays(d, days).value;
      Valid(e) && Ordinal(e) == Ordinal(d) + days && AddDays(e, -days) == Ok(d)
  {
    var r := AddDays(d, days);
    FromOrdinalByIs(Ordinal(d), days);
    if r.Ok? {
      AddDaysReaches(r.value, -days, d);
    }
  }

  // ---------------------------------------------------------------- comparing

  /** The sign of the difference of two ordinals is the order of the dates. */
  method Compare(a: Date, b: Date) returns (r: Result<int>)
    ensures !Valid(a) || !Valid(b) ==> r == Err(InvalidDate)
    ensures Valid(a) && Valid(b) ==> r == Ok(if Before(a, b) then -1 else if Before(b, a) then 1 else 0)
    ensures r == Ok(0) <==> Valid(a) && a == b
  {
    if !Valid(a) || !Valid(b) {
      return Err(InvalidDate);
    }
    OrdinalIsOrder(a, b);
    OrdinalIsOrder(b, a);
    return Ok(if Ordinal(a) < Ordinal(b) then -1 else if Ordinal(a) > Ordinal(b) then 1 else 0);
  }

  /** The number of days that leads from one date to the other; zero if there is none. */
  method DaysUntil(from: Date, to: Date) returns (days: int)
    ensures Valid(from) && Valid(to) ==> AddDays(from, days) == Ok(to)
    ensures Valid(from) && Valid(to) ==> (days < 0 <==> Before(to, from)) && (days > 0 <==> Before(from, to))
    ensures !Valid(from) || !Valid(to) ==> days == 0
  {
    if !Valid(from) || !Valid(to) {
      return 0;
    }
    OrdinalIsOrder(from, to);
    OrdinalIsOrder(to, from);
    days := Ordinal(to) - Ordinal(from);
    AddDaysReaches(from, days, to);
  }
}

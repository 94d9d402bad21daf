/** Civil dates: validity, the day ordinal, and the date that an ordinal stands for. */
module CivilDate {

  const MIN_YEAR := 1
  const MAX_YEAR := 9999

  datatype Date = Date(year: int, month: int, day: int)

  datatype Policy = Clamp | Reject | Overflow | UnknownPolicy

  datatype Error = InvalidDate | Arithmetic

  datatype Result<T> = Ok(value: T) | Err(error: Error)

  predicate IsLeap(year: int) {
    year % 4 == 0 && (year % 100 != 0 || year % 400 == 0)
  }

  function MonthLength(leap: bool, month: int): (r: int)
    ensures 1 <= month <= 12 ==> 28 <= r <= 31
  {
    if month == 2 then (if leap then 29 else 28)
    else if month in {4, 6, 9, 11} then 30
    else if 1 <= month <= 12 then 31
    else 0
  }

  function DaysInMonth(year: int, month: int): int {
    MonthLength(IsLeap(year), month)
  }

  predicate Valid(d: Date) {
    MIN_YEAR <= d.year <= MAX_YEAR && 1 <= d.month <= 12 && 1 <= d.day <= DaysInMonth(d.year, d.month)
  }

  /** Days of the year before a month. */
  function DaysBefore(leap: bool, month: int): int
    requires 1 <= month <= 12
    decreases month
  {
    if month == 1 then 0 else DaysBefore(leap, month - 1) + MonthLength(leap, month - 1)
  }

  function YearLength(leap: bool): int {
    if leap then 366 else 365
  }

  function YearStart(year: int): int {
    (year - 1) * 365 + (year - 1) / 4 - (year - 1) / 100 + (year - 1) / 400
  }

  /** dayOrdinal: days since the first of January of year 1. */
  function Ordinal(d: Date): int
    requires Valid(d)
  {
    YearStart(d.year) + DaysBefore(IsLeap(d.year), d.month) + d.day - 1
  }

  const LAST := Date(MAX_YEAR, 12, 31)

  /** The ordinal of the last date. */
  const LAST_ORDINAL := 3_652_058

  /** The earlier of two dates by year, month and day. */
  predicate Before(a: Date, b: Date) {
    a.year < b.year || (a.year == b.year && (a.month < b.month || (a.month == b.month && a.day < b.day)))
  }

  /** The day after: the independent account of the calendar that the ordinal is measured against. */
  function NextDay(d: Date): Date {
    if d.day < DaysInMonth(d.year, d.month) then Date(d.year, d.month, d.day + 1)
    else if d.month < 12 then Date(d.year, d.month + 1, 1)
    else Date(d.year + 1, 1, 1)
  }

  // ---------------------------------------------------------------- the ordinal

  lemma QuotientSteps(year: int)
    ensures year / 4 == (year - 1) / 4 + if year % 4 == 0 then 1 else 0
    ensures year / 100 == (year - 1) / 100 + if year % 100 == 0 then 1 else 0
    ensures year / 400 == (year - 1) / 400 + if year % 400 == 0 then 1 else 0
  {
  }

  lemma CenturiesAreFourths(year: int)
    ensures year % 100 == 0 ==> year % 4 == 0
    ensures year % 400 == 0 ==> year % 100 == 0
  {
  }

  lemma YearStarts(year: int)
    ensures YearStart(year + 1) == YearStart(year) + YearLength(IsLeap(year))
  {
    QuotientSteps(year);
    CenturiesAreFourths(year);
  }

  lemma WholeYear(leap: bool)
    ensures DaysBefore(leap, 12) + 31 == YearLength(leap)
  {
    assert DaysBefore(leap, 4) == 31 + MonthLength(leap, 2) + 31;
    assert DaysBefore(leap, 8) == DaysBefore(leap, 4) + 122;
  }

  lemma NextYearAddsOne(year: int)
    requires MIN_YEAR <= year < MAX_YEAR
    ensures Ordinal(Date(year + 1, 1, 1)) == Ordinal(Date(year, 12, 31)) + 1
  {
    YearStarts(year);
    WholeYear(IsLeap(year));
  }

  lemma NextMonthAddsOne(d: Date)
    requires Valid(d) && d.month < 12 && d.day == DaysInMonth(d.year, d.month)
    ensures Ordinal(Date(d.year, d.month + 1, 1)) == Ordinal(d) + 1
  {
    assert DaysBefore(IsLeap(d.year), d.month + 1) == DaysBefore(IsLeap(d.year), d.month) + d.day;
  }

  lemma NextDayAddsOne(d: Date)
    requires Valid(d) && d != LAST
    ensures Valid(NextDay(d)) && Ordinal(NextDay(d)) == Ordinal(d) + 1
  {
    if d.day == DaysInMonth(d.year, d.month) {
      if d.month < 12 {
        NextMonthAddsOne(d);
      } else {
        NextYearAddsOne(d.year);
      }
    }
  }

  lemma {:induction false} YearStartGrows(a: int, b: int)
    requires a < b
    ensures YearStart(a) + YearLength(IsLeap(a)) <= YearStart(b)
    decreases b - a
  {
    YearStarts(b - 1);
    if a < b - 1 {
      YearStartGrows(a, b - 1);
    }
  }

  lemma {:induction false} DaysBeforeGrows(leap: bool, a: int, b: int)
    requires 1 <= a < b <= 12
    ensures DaysBefore(leap, a) + MonthLength(leap, a) <= DaysBefore(leap, b)
    decreases b - a
  {
    if a < b - 1 {
      DaysBeforeGrows(leap, a, b - 1);
    }
  }

  lemma DayOfYearBounds(leap: bool, month: int, day: int)
    requires 1 <= month <= 12 && 1 <= day <= MonthLength(leap, month)
    ensures 1 <= DaysBefore(leap, month) + day <= YearLength(leap)
  {
    WholeYear(leap);
    if month < 12 {
      DaysBeforeGrows(leap, month, 12);
    }
    if month > 1 {
      DaysBeforeGrows(leap, 1, month);
    }
  }

  lemma OrdinalGrows(a: Date, b: Date)
    requires Valid(a) && Valid(b) && Before(a, b)
    ensures Ordinal(a) < Ordinal(b)
  {
    if a.year < b.year {
      DayOfYearBounds(IsLeap(a.year), a.month, a.day);
      DayOfYearBounds(IsLeap(b.year), b.month, b.day);
      YearStartGrows(a.year, b.year);
    } else if a.month < b.month {
      DaysBeforeGrows(IsLeap(a.year), a.month, b.month);
    }
  }

  /** The ordinal orders dates exactly as year, month and day do, and tells them apart. */
  lemma OrdinalIsOrder(a: Date, b: Date)
    requires Valid(a) && Valid(b)
    ensures Ordinal(a) < Ordinal(b) <==> Before(a, b)
    ensures Ordinal(a) == Ordinal(b) <==> a == b
  {
    if Before(a, b) {
      OrdinalGrows(a, b);
    } else if Before(b, a) {
      OrdinalGrows(b, a);
    }
  }

  lemma EndOrdinals(first: Date, last: Date)
    requires first == Date(1, 1, 1) && last == LAST
    ensures Valid(first) && Valid(last) && Ordinal(first) == 0 && Ordinal(last) == LAST_ORDINAL
  {
    WholeYear(IsLeap(MAX_YEAR));
  }

  lemma LastOrdinal(d: Date)
    requires Valid(d)
    ensures 0 <= Ordinal(d) <= LAST_ORDINAL && (Ordinal(d) == LAST_ORDINAL ==> d == LAST)
  {
    var first, last := Date(1, 1, 1), LAST;
    EndOrdinals(first, last);
    OrdinalIsOrder(first, d);
    OrdinalIsOrder(d, last);
    OrdinalIsOrder(d, first);
    OrdinalIsOrder(last, d);
  }

  lemma CountOn(before: Date, n: nat)
    requires Valid(before) && Ordinal(before) == n < LAST_ORDINAL
    ensures Valid(NextDay(before)) && Ordinal(NextDay(before)) == n + 1
  {
    EndOrdinals(Date(1, 1, 1), LAST);
    NextDayAddsOne(before);
  }

  /** The date of an ordinal, counted out day by day. */
  function FromOrdinal(n: nat): (d: Date)
    requires n <= LAST_ORDINAL
    ensures Valid(d) && Ordinal(d) == n
  {
    if n == 0 then Date(1, 1, 1)
    else
      var before := FromOrdinal(n - 1);
      CountOn(before, n - 1);
      NextDay(before)
  }

  /** Every date is reached by counting, and only from its own ordinal. */
  lemma OrdinalRoundTrip(n: nat, d: Date)
    requires Valid(d) && n == Ordinal(d)
    ensures n <= LAST_ORDINAL && FromOrdinal(n) == d
  {
    LastOrdinal(d);
    OrdinalIsOrder(FromOrdinal(n), d);
  }
}

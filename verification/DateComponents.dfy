/** Decomposing the distance between two dates into years, months and days, and putting it together again. */
module DateComponents {
  import opened CivilDate
  import opened CivilArithmetic

  datatype Difference = Difference(years: int, months: int, days: int)

  /** Years first, then months, then days lead from `d` to `other`. */
  ghost predicate Reapplies(d: Date, other: Date, policy: Policy, c: Difference) {
    && MIN_INT <= c.years <= MAX_INT
    && AddYears(d, c.years, policy).Ok?
    && var cursor := AddYears(d, c.years, policy).value;
       && AddMonths(cursor, c.months, policy).Ok?
       && AddDays(AddMonths(cursor, c.months, policy).value, c.days) == Ok(other)
  }

  predicate NonNegative(c: Difference) {
    c.years >= 0 && c.months >= 0 && c.days >= 0
  }

  predicate NonPositive(c: Difference) {
    c.years <= 0 && c.months <= 0 && c.days <= 0
  }

  lemma YearsAreMonths(d: Date, years: int, policy: Policy)
    requires -MAX_YEAR <= years <= MAX_YEAR
    ensures AddYears(d, years, policy) == AddMonths(d, years * 12, policy)
  {
    CheckedMultiplyIsExact(years, 12);
  }

  // ---------------------------------------------------------------- single tries

  /** Adding the months up to month `m` puts the day there. */
  method TryMonths(cursor: Date, ghost m: Month, months: int, policy: Policy) returns (r: Result<Date>)
    requires Valid(cursor) && Exists(m) && policy != UnknownPolicy && months == Index(m) - Index(MonthOf(cursor))
    ensures r == Place(m, cursor.day, policy) == AddMonths(cursor, months, policy) && (r.Ok? ==> Valid(r.value))
  {
    AddMonthsInto(cursor, m, months, policy);
    PlaceIsValid(m, cursor.day, policy);
    r := AddMonths(cursor, months, policy);
  }

  lemma YearsInto(d: Date, year: int, policy: Policy)
    requires Valid(d) && MIN_YEAR <= year <= MAX_YEAR && policy != UnknownPolicy
    ensures AddYears(d, year - d.year, policy) == Place(Month(year, d.month), d.day, policy)
  {
    YearsAreMonths(d, year - d.year, policy);
    AddMonthsInto(d, Month(year, d.month), (year - d.year) * 12, policy);
  }

  method TryYears(d: Date, ghost year: int, years: int, policy: Policy) returns (r: Result<Date>)
    requires Valid(d) && MIN_YEAR <= year <= MAX_YEAR && policy != UnknownPolicy && years == year - d.year
    ensures r == Place(Month(year, d.month), d.day, policy) == AddYears(d, years, policy) && (r.Ok? ==> Valid(r.value))
  {
    YearsInto(d, year, policy);
    PlaceIsValid(Month(year, d.month), d.day, policy);
    r := AddYears(d, years, policy);
  }

  // ---------------------------------------------------------------- as far as possible

  /** Whatever more years lead to lies beyond `other`, seen from `d`. */
  ghost predicate NoMoreYears(d: Date, other: Date, policy: Policy, years: int) {
    forall n: Int :: AddYears(d, n, policy).Ok? ==>
      var e := AddYears(d, n, policy).value;
      if Before(d, other) then n > years ==> Before(other, e) else n < years ==> Before(e, other)
  }

  /** Whatever more months lead to lies beyond `other`. */
  ghost predicate NoMoreMonths(cursor: Date, other: Date, policy: Policy, months: int, forward: bool) {
    forall k: int :: AddMonths(cursor, k, policy).Ok? ==>
      var e := AddMonths(cursor, k, policy).value;
      if forward then k > months ==> Before(other, e) else k < months ==> Before(e, other)
  }

  /** The years are as many as fit between the dates, and the months as many as fit after them. */
  ghost predicate GoesFarthest(d: Date, other: Date, policy: Policy, c: Difference)
    requires Reapplies(d, other, policy, c)
  {
    && NoMoreYears(d, other, policy, c.years)
    && NoMoreMonths(AddYears(d, c.years, policy).value, other, policy, c.months, Before(d, other))
  }

  /** Years that can be added lead into the year that they name, even when the day is moved. */
  lemma YearsLand(d: Date, years: Int, policy: Policy)
    requires Valid(d) && policy != UnknownPolicy && AddYears(d, years, policy).Ok?
    ensures AddYears(d, years, policy).value.year == d.year + years
  {
    var year := d.year + years;
    YearsInRange(d, years, policy);
    YearsInto(d, year, policy);
    InYear(d, year, policy, AddYears(d, years, policy));
  }

  lemma YearsInRange(d: Date, years: Int, policy: Policy)
    requires Valid(d) && policy != UnknownPolicy && AddYears(d, years, policy).Ok?
    ensures MIN_YEAR <= d.year + years <= MAX_YEAR
  {
    CheckedMultiplyIsExact(years, 12);
    YearsFit(MonthOf(d), years);
  }

  lemma YearsFit(m: Month, years: int)
    requires 1 <= m.month <= 12 && 0 <= Index(m) + years * 12 <= LAST_INDEX
    ensures MIN_YEAR <= m.year + years <= MAX_YEAR
  {
  }

  /** The difference of the years, one less if that leads past `other`. */
  predicate YearsCounted(d: Date, other: Date, policy: Policy, years: int)
    requires Valid(d) && Valid(other)
  {
    var first := AddYears(d, other.year - d.year, policy);
    && first.Ok?
    && years == other.year - d.year + (if Before(d, other) then (if Before(other, first.value) then -1 else 0)
                                       else if Before(first.value, other) then 1 else 0)
  }

  lemma YearsAreMost(d: Date, other: Date, policy: Policy, years: int)
    requires Valid(d) && Valid(other) && d != other && policy != UnknownPolicy && YearsCounted(d, other, policy, years)
    ensures NoMoreYears(d, other, policy, years)
  {
    forall n: Int | AddYears(d, n, policy).Ok?
      ensures var e := AddYears(d, n, policy).value;
              if Before(d, other) then n > years ==> Before(other, e) else n < years ==> Before(e, other)
    {
      YearsLand(d, n, policy);
    }
  }

  /** Months that can be added put the day into the month that they name. */
  lemma MonthsLand(d: Date, months: int, policy: Policy) returns (m: Month)
    requires Valid(d) && policy != UnknownPolicy && AddMonths(d, months, policy).Ok?
    ensures Exists(m) && Index(m) == Index(MonthOf(d)) + months
    ensures AddMonths(d, months, policy) == Place(m, d.day, policy)
  {
    var index := Index(MonthOf(d)) + months;
    m := MonthAt(index);
    MonthsInRange(d, months, policy);
    AtIndex(index);
    AddMonthsAt(d, months, index, policy);
  }

  lemma MonthsInRange(d: Date, months: int, policy: Policy)
    requires AddMonths(d, months, policy).Ok?
    ensures 0 <= Index(MonthOf(d)) + months <= LAST_INDEX
  {
  }

  lemma AtIndex(index: int)
    requires 0 <= index <= LAST_INDEX
    ensures Exists(MonthAt(index)) && Index(MonthAt(index)) == index
  {
  }

  lemma LaterMonth(m: Month, day: int, policy: Policy, other: Date)
    requires Exists(m) && Valid(other) && 1 <= day <= 31 && policy != UnknownPolicy && Place(m, day, policy).Ok?
    ensures Index(m) > Index(MonthOf(other)) ==> Before(other, Place(m, day, policy).value)
  {
    PlaceIsValid(m, day, policy);
  }

  /** The months up to the month of `other`, one less if that leads past it. */
  predicate MonthsCounted(cursor: Date, other: Date, policy: Policy, months: int) {
    var all := Index(MonthOf(other)) - Index(MonthOf(cursor));
    var first := Place(MonthOf(other), cursor.day, policy);
    first.Ok? && months == all - if Before(other, first.value) then 1 else 0
  }

  lemma MonthsAreMost(cursor: Date, other: Date, policy: Policy, months: int)
    requires Valid(cursor) && Valid(other) && policy != UnknownPolicy && MonthsCounted(cursor, other, policy, months)
    ensures NoMoreMonths(cursor, other, policy, months, true)
  {
    var all := Index(MonthOf(other)) - Index(MonthOf(cursor));
    AddMonthsInto(cursor, MonthOf(other), all, policy);
    forall k: int | AddMonths(cursor, k, policy).Ok? && k > months
      ensures Before(other, AddMonths(cursor, k, policy).value)
    {
      var m := MonthsLand(cursor, k, policy);
      LaterMonth(m, cursor.day, policy, other);
    }
  }

  /** Under Overflow a day that the month before `other` lacks is carried to `other` or past it. */
  predicate CarriesInto(day: int, other: Date) {
    day - Length(Previous(MonthOf(other))) >= other.day
  }

  lemma EarlierMonth(m: Month, day: int, policy: Policy, other: Date)
    requires Exists(m) && Valid(other) && 1 <= day <= 31 && policy != UnknownPolicy && Place(m, day, policy).Ok?
    requires Index(m) < Index(MonthOf(other))
    ensures !Before(Place(m, day, policy).value, other) <==>
              policy == Overflow && CarriesInto(day, other) && Index(m) == Index(MonthOf(other)) - 1
  {
    if Index(m) == Index(MonthOf(other)) - 1 {
      JustBefore(m, MonthOf(other));
    } else {
      PlaceIsValid(m, day, policy);
      Apart(m, MonthOf(other));
    }
  }

  lemma JustBefore(m: Month, n: Month)
    requires Exists(m) && Exists(n) && Index(m) == Index(n) - 1
    ensures m == Previous(n) && Next(m) == n
  {
  }

  lemma Apart(m: Month, n: Month)
    requires Exists(m) && Exists(n) && Index(m) < Index(n) - 1
    ensures Next(m).year < n.year || (Next(m).year == n.year && Next(m).month < n.month)
    ensures m.year < n.year || (m.year == n.year && m.month < n.month)
  {
  }

  /** The months back to the month of `other`, one less if that falls short of it. */
  predicate MonthsCountedBack(cursor: Date, other: Date, policy: Policy, months: int) {
    var all := Index(MonthOf(other)) - Index(MonthOf(cursor));
    var first := Place(MonthOf(other), cursor.day, policy);
    first.Ok? && months == all + if Before(first.value, other) then 1 else 0
  }

  lemma MonthsAreMostBack(cursor: Date, other: Date, policy: Policy, months: int)
    requires Valid(cursor) && Valid(other) && policy != UnknownPolicy
    requires MonthsCountedBack(cursor, other, policy, months)
    ensures NoMoreMonths(cursor, other, policy, months, false) <==>
            !(policy == Overflow && CarriesInto(cursor.day, other))
  {
    var all := Index(MonthOf(other)) - Index(MonthOf(cursor));
    if policy == Overflow && CarriesInto(cursor.day, other) {
      CarriedMonth(cursor, other, all);
    } else {
      AddMonthsInto(cursor, MonthOf(other), all, policy);
      forall k: int | AddMonths(cursor, k, policy).Ok? && k < months
        ensures Before(AddMonths(cursor, k, policy).value, other)
      {
        var m := MonthsLand(cursor, k, policy);
        if k < all {
          EarlierMonth(m, cursor.day, policy, other);
        }
      }
    }
  }

  /** One month further back is carried into the month of `other`, and not before it. */
  lemma CarriedMonth(cursor: Date, other: Date, all: int)
    requires Valid(cursor) && Valid(other) && CarriesInto(cursor.day, other)
    requires all == Index(MonthOf(other)) - Index(MonthOf(cursor))
    ensures AddMonths(cursor, all - 1, Overflow).Ok? && !Before(AddMonths(cursor, all - 1, Overflow).value, other)
    ensures !Before(Place(MonthOf(other), cursor.day, Overflow).value, other)
  {
    var before := Previous(MonthOf(other));
    MonthAtIndex(MonthOf(other));
    HasMonthBefore(MonthOf(other), cursor.day, other.day);
    AddMonthsInto(cursor, before, all - 1, Overflow);
    EarlierMonth(before, cursor.day, Overflow, other);
  }

  lemma HasMonthBefore(m: Month, day: int, least: int)
    requires Exists(m) && day <= 31 && day - Length(Previous(m)) >= least >= 1
    ensures Exists(Previous(m))
  {
  }

  // ---------------------------------------------------------------- months

  /** A month reached from a cursor, and the date there. */
  datatype Landing = Landing(months: int, date: Date)

  ghost predicate Lands(cursor: Date, m: Month, policy: Policy, l: Landing) {
    && Exists(m) && l.months == Index(m) - Index(MonthOf(cursor))
    && Place(m, cursor.day, policy) == Ok(l.date) == AddMonths(cursor, l.months, policy) && Valid(l.date)
  }

  /** Under Reject a day is missing from the month of `other`, or, if that comes too late, from the one before. */
  predicate ForwardRejects(day: int, other: Date) {
    || day > Length(MonthOf(other))
    || (day > other.day && day > Length(Previous(MonthOf(other))))
  }

  /** Under Overflow a day that February lacks is carried past `other` in March. */
  predicate ForwardOvershoots(day: int, other: Date) {
    other.month == 3 && day - DaysInMonth(other.year, 2) > other.day
  }

  predicate BackwardRejects(day: int, other: Date) {
    || day > Length(MonthOf(other))
    || (day < other.day && day > Length(Next(MonthOf(other))))
  }

  lemma MonthsBetween(a: Date, b: Date)
    requires Valid(a) && Valid(b) && !Before(b, a)
    ensures 0 <= Index(MonthOf(b)) - Index(MonthOf(a))
    ensures MonthOf(a) != MonthOf(b) ==>
              1 <= Index(MonthOf(b)) - Index(MonthOf(a)) && Exists(Previous(MonthOf(b))) && Exists(Next(MonthOf(a)))
    ensures MonthOf(a) == MonthOf(b) ==> a.day <= b.day
  {
  }

  /** The first try comes too late only by the day of the month, and then there is a month before. */
  lemma TooLate(cursor: Date, other: Date, policy: Policy, first: Result<Date>)
    requires Valid(cursor) && Valid(other) && !Before(other, cursor) && policy != UnknownPolicy
    requires first == Place(MonthOf(other), cursor.day, policy)
    ensures first.Err? <==> policy == Reject && cursor.day > Length(MonthOf(other))
    ensures first.Ok? && Before(other, first.value) ==> MonthOf(cursor) != MonthOf(other) && cursor.day > other.day
    ensures first.Ok? && !Before(other, first.value) && policy != Clamp ==> cursor.day <= other.day
  {
  }

  lemma OneMonthLess(other: Date, day: int, policy: Policy, second: Result<Date>)
    requires Valid(other) && policy != UnknownPolicy && 1 <= day <= 31
    requires second == Place(Previous(MonthOf(other)), day, policy)
    ensures second.Err? <==> policy == Reject && day > Length(Previous(MonthOf(other)))
    ensures second.Ok? && policy != Overflow ==> Before(second.value, other)
    ensures policy == Overflow ==> (Before(other, second.value) <==> ForwardOvershoots(day, other))
  {
  }

  /** Whole months toward `other`, one less if the day of the month carries past it. */
  method MonthsForward(cursor: Date, other: Date, policy: Policy) returns (r: Result<Landing>, ghost m: Month)
    requires Valid(cursor) && Valid(other) && !Before(other, cursor) && policy != UnknownPolicy
    ensures r.Ok? ==> Lands(cursor, m, policy, r.value) && r.value.months >= 0
    ensures r.Err? <==> policy == Reject && ForwardRejects(cursor.day, other)
    ensures r.Ok? && policy != Overflow ==> !Before(other, r.value.date)
    ensures policy == Overflow ==> (Before(other, r.value.date) <==> ForwardOvershoots(cursor.day, other))
    ensures r.Ok? ==> MonthsCounted(cursor, other, policy, r.value.months)
  {
    m := MonthOf(other);
    var months := (other.year - cursor.year) * 12 + (other.month - cursor.month);
    var first := TryMonths(cursor, m, months, policy);
    TooLate(cursor, other, policy, first);
    MonthsBetween(cursor, other);
    if first.Err? {
      return Err(first.error), m;
    }
    var order := Compare(first.value, other);
    if order == Ok(1) {
      m := Previous(m);
      months := months - 1;
      var second := TryMonths(cursor, m, months, policy);
      OneMonthLess(other, cursor.day, policy, second);
      if second.Err? {
        return Err(second.error), m;
      }
      return Ok(Landing(months, second.value)), m;
    }
    return Ok(Landing(months, first.value)), m;
  }

  lemma TooEarly(cursor: Date, other: Date, policy: Policy, first: Result<Date>)
    requires Valid(cursor) && Valid(other) && !Before(cursor, other) && policy != UnknownPolicy
    requires first == Place(MonthOf(other), cursor.day, policy)
    ensures first.Err? <==> policy == Reject && cursor.day > Length(MonthOf(other))
    ensures first.Ok? && Before(first.value, other) ==> MonthOf(cursor) != MonthOf(other) && cursor.day < other.day
    ensures first.Ok? && !Before(first.value, other) && policy == Reject ==> cursor.day >= other.day
  {
  }

  lemma OneMonthMore(other: Date, day: int, policy: Policy, second: Result<Date>)
    requires Valid(other) && policy != UnknownPolicy && 1 <= day <= 31
    requires second == Place(Next(MonthOf(other)), day, policy)
    ensures second.Err? <==> policy == Reject && day > Length(Next(MonthOf(other)))
    ensures second.Ok? ==> Before(other, second.value)
  {
  }

  /** Whole months back toward `other`, one less if the day of the month falls behind it. */
  method MonthsBackward(cursor: Date, other: Date, policy: Policy) returns (r: Result<Landing>, ghost m: Month)
    requires Valid(cursor) && Valid(other) && !Before(cursor, other) && policy != UnknownPolicy
    ensures r.Ok? ==> Lands(cursor, m, policy, r.value) && r.value.months <= 0
    ensures r.Err? <==> policy == Reject && BackwardRejects(cursor.day, other)
    ensures r.Ok? ==> !Before(r.value.date, other)
    ensures r.Ok? ==> MonthsCountedBack(cursor, other, policy, r.value.months)
  {
    m := MonthOf(other);
    var months := (other.year - cursor.year) * 12 + (other.month - cursor.month);
    var first := TryMonths(cursor, m, months, policy);
    TooEarly(cursor, other, policy, first);
    MonthsBetween(other, cursor);
    if first.Err? {
      return Err(first.error), m;
    }
    var order := Compare(first.value, other);
    if order == Ok(-1) {
      m := Next(m);
      months := months + 1;
      var second := TryMonths(cursor, m, months, policy);
      OneMonthMore(other, cursor.day, policy, second);
      if second.Err? {
        return Err(second.error), m;
      }
      return Ok(Landing(months, second.value)), m;
    }
    return Ok(Landing(months, first.value)), m;
  }

  // ---------------------------------------------------------------- years

  /** The years of a decomposition and the date that they lead to. */
  datatype Years = Years(years: int, cursor: Date)

  predicate IsLeapDay(d: Date) {
    d.month == 2 && d.day == 29
  }

  /** A day exists in the same month of every year, except the leap day, and nothing carries out of the year. */
  lemma InYear(d: Date, year: int, policy: Policy, r: Result<Date>)
    requires Valid(d) && policy != UnknownPolicy && r == Place(Month(year, d.month), d.day, policy)
    ensures r.Err? <==> policy == Reject && IsLeapDay(d) && !IsLeap(year)
    ensures r.Ok? ==> r.value.year == year
    ensures r.Ok? && (!IsLeapDay(d) || IsLeap(year)) ==> r.value == Date(year, d.month, d.day)
    ensures r.Ok? && IsLeapDay(d) ==> r.value.day <= 29
  {
  }

  lemma LeapYearsAreApart(year: int)
    ensures IsLeap(year) ==> !IsLeap(year - 1) && !IsLeap(year + 1)
  {
    FourApart(year);
  }

  lemma FourApart(n: int)
    ensures n % 4 == 0 ==> (n - 1) % 4 != 0 && (n + 1) % 4 != 0
  {
  }

  predicate YearsRejectForward(d: Date, other: Date) {
    IsLeapDay(d) && (!IsLeap(other.year) || Before(other, Date(other.year, 2, 29)))
  }

  predicate YearsRejectBackward(d: Date, other: Date) {
    IsLeapDay(d) && (!IsLeap(other.year) || Before(Date(other.year, 2, 29), other))
  }

  ghost predicate LandsInYear(d: Date, year: int, policy: Policy, y: Years) {
    && MIN_YEAR <= year <= MAX_YEAR && y.years == year - d.year && MIN_INT <= y.years <= MAX_INT
    && Place(Month(year, d.month), d.day, policy) == Ok(y.cursor) == AddYears(d, y.years, policy) && Valid(y.cursor)
    && (y.cursor.day == d.day || (IsLeapDay(d) && y.cursor.day <= 29 && policy != Reject))
  }

  method YearsForward(d: Date, other: Date, policy: Policy) returns (r: Result<Years>, ghost year: int)
    requires Valid(d) && Valid(other) && Before(d, other) && policy != UnknownPolicy
    ensures r.Ok? ==> LandsInYear(d, year, policy, r.value) && r.value.years >= 0 && !Before(other, r.value.cursor)
    ensures r.Err? <==> policy == Reject && YearsRejectForward(d, other)
    ensures r.Ok? ==> YearsCounted(d, other, policy, r.value.years)
  {
    year := other.year;
    var years := other.year - d.year;
    var first := TryYears(d, year, years, policy);
    InYear(d, year, policy, first);
    if first.Err? {
      return Err(first.error), year;
    }
    var order := Compare(first.value, other);
    if order == Ok(1) {
      year := year - 1;
      years := years - 1;
      var second := TryYears(d, year, years, policy);
      InYear(d, year, policy, second);
      LeapYearsAreApart(other.year);
      if second.Err? {
        return Err(second.error), year;
      }
      return Ok(Years(years, second.value)), year;
    }
    return Ok(Years(years, first.value)), year;
  }

  /** In the year of `other` the day comes before it. */
  predicate FallsShort(d: Date, other: Date, policy: Policy) {
    var e := Place(Month(other.year, d.month), d.day, policy);
    e.Ok? && Before(e.value, other)
  }

  method YearsBackward(d: Date, other: Date, policy: Policy) returns (r: Result<Years>, ghost year: int)
    requires Valid(d) && Valid(other) && Before(other, d) && policy != UnknownPolicy
    ensures r.Ok? ==> LandsInYear(d, year, policy, r.value) && r.value.years <= 0 && !Before(r.value.cursor, other)
    ensures r.Err? <==> policy == Reject && YearsRejectBackward(d, other)
    ensures r.Ok? ==> YearsCounted(d, other, policy, r.value.years)
    ensures r.Ok? ==> year == other.year || FallsShort(d, other, policy)
  {
    year := other.year;
    var years := other.year - d.year;
    var first := TryYears(d, year, years, policy);
    InYear(d, year, policy, first);
    if first.Err? {
      return Err(first.error), year;
    }
    var order := Compare(first.value, other);
    if order == Ok(-1) {
      year := year + 1;
      years := years + 1;
      var second := TryYears(d, year, years, policy);
      InYear(d, year, policy, second);
      LeapYearsAreApart(other.year);
      if second.Err? {
        return Err(second.error), year;
      }
      return Ok(Years(years, second.value)), year;
    }
    return Ok(Years(years, first.value)), year;
  }

  // ---------------------------------------------------------------- components

  /** Under Reject: some date on the way does not exist. */
  predicate ComponentsReject(d: Date, other: Date) {
    if Before(d, other) then YearsRejectForward(d, other) || ForwardRejects(d.day, other)
    else YearsRejectBackward(d, other) || BackwardRejects(d.day, other)
  }

  /** The components point the way from `d` to `other`. */
  predicate SignsAgree(d: Date, other: Date, c: Difference) {
    if Before(d, other) then NonNegative(c) else NonPositive(c)
  }

  /** Moving a leap day to another year neither makes nor avoids an overshoot. */
  lemma SameOvershoot(d: Date, cursor: Date, other: Date)
    requires Valid(other) && (cursor.day == d.day || (IsLeapDay(d) && cursor.day <= 29))
    ensures ForwardOvershoots(cursor.day, other) <==> ForwardOvershoots(d.day, other)
  {
  }

  method ComponentsForward(d: Date, other: Date, policy: Policy) returns (r: Result<Difference>)
    requires Valid(d) && Valid(other) && Before(d, other) && policy != UnknownPolicy
    ensures r.Err? <==> policy == Reject && ComponentsReject(d, other)
    ensures r.Ok? ==> Reapplies(d, other, policy, r.value)
    ensures r.Ok? ==> (NonNegative(r.value) <==> !(policy == Overflow && ForwardOvershoots(d.day, other)))
    ensures r.Ok? ==> GoesFarthest(d, other, policy, r.value)
  {
    var years, year := YearsForward(d, other, policy);
    if years.Err? {
      return Err(years.error);
    }
    var cursor := years.value.cursor;
    var months, m := MonthsForward(cursor, other, policy);
    if months.Err? {
      return Err(months.error);
    }
    SameOvershoot(d, cursor, other);
    YearsAreMost(d, other, policy, years.value.years);
    MonthsAreMost(cursor, other, policy, months.value.months);
    var days := DaysUntil(months.value.date, other);
    var c := Difference(years.value.years, months.value.months, days);
    return Ok(c);
  }

  /** Going back, a leap day that moved is no longer carried. */
  lemma SameCarry(d: Date, cursor: Date, other: Date)
    requires Valid(d) && Valid(other) && Place(Month(cursor.year, d.month), d.day, Overflow) == Ok(cursor)
    requires cursor.year == other.year || FallsShort(d, other, Overflow)
    ensures CarriesInto(cursor.day, other) <==> !IsLeapDay(d) && CarriesInto(d.day, other)
  {
  }

  method ComponentsBackward(d: Date, other: Date, policy: Policy) returns (r: Result<Difference>)
    requires Valid(d) && Valid(other) && Before(other, d) && policy != UnknownPolicy
    ensures r.Err? <==> policy == Reject && ComponentsReject(d, other)
    ensures r.Ok? ==> Reapplies(d, other, policy, r.value) && NonPositive(r.value)
    ensures r.Ok? ==>
              (GoesFarthest(d, other, policy, r.value) <==>
               !(policy == Overflow && !IsLeapDay(d) && CarriesInto(d.day, other)))
  {
    var years, year := YearsBackward(d, other, policy);
    if years.Err? {
      return Err(years.error);
    }
    var cursor := years.value.cursor;
    var months, m := MonthsBackward(cursor, other, policy);
    if months.Err? {
      return Err(months.error);
    }
    if policy == Overflow {
      SameCarry(d, cursor, other);
    }
    YearsAreMost(d, other, policy, years.value.years);
    MonthsAreMostBack(cursor, other, policy, months.value.months);
    var days := DaysUntil(months.value.date, other);
    var c := Difference(years.value.years, months.value.months, days);
    return Ok(c);
  }

  /**
   * The components lead back to `other`. They fail only for invalid dates, an unknown policy, or, under Reject, a date
   * that does not exist; and they all point the same way, except under Overflow when February carries past `other`.
   */
  method ComponentsUntil(d: Date, other: Date, policy: Policy) returns (r: Result<Difference>)
    ensures !Valid(d) || !Valid(other) ==> r == Err(InvalidDate)
    ensures Valid(d) && d == other ==> r == Ok(Difference(0, 0, 0))
    ensures Valid(d) && Valid(other) && d != other ==>
      (r.Err? <==> policy == UnknownPolicy || (policy == Reject && ComponentsReject(d, other)))
    ensures r.Ok? && d != other ==> Reapplies(d, other, policy, r.value)
    ensures r.Ok? && d != other ==>
      (GoesFarthest(d, other, policy, r.value) <==>
       !(policy == Overflow && Before(other, d) && !IsLeapDay(d) && CarriesInto(d.day, other)))
    ensures r.Ok? ==>
      (SignsAgree(d, other, r.value) <==> !(policy == Overflow && Before(d, other) && ForwardOvershoots(d.day, other)))
  {
    if !Valid(d) || !Valid(other) {
      return Err(InvalidDate);
    }
    var order := Compare(d, other);
    if order == Ok(0) {
      return Ok(Difference(0, 0, 0));
    }
    if policy == UnknownPolicy {
      return Err(Arithmetic);
    }
    if order == Ok(1) {
      r := ComponentsBackward(d, other, policy);
    } else {
      r := ComponentsForward(d, other, policy);
    }
  }

  /** From 31 January to 1 March 2023: no years, one month that carries to 3 March, and then two days back. */
  lemma SignsCanDisagree(d: Date, carried: Date, other: Date)
    requires d == Date(2023, 1, 31) && carried == Date(2023, 3, 3) && other == Date(2023, 3, 1)
    ensures Valid(d) && Valid(carried) && Valid(other) && Before(d, other) && ForwardOvershoots(d.day, other)
    ensures AddMonths(d, 2, Overflow) == Ok(Date(2023, 3, 31)) && AddMonths(d, 1, Overflow) == Ok(carried)
    ensures Ordinal(other) - Ordinal(carried) == -2
  {
  }

  /** From 31 July back to 1 May 2023: three months would be carried to 1 May itself, and are not counted. */
  lemma BackwardCanStopShort(d: Date, other: Date)
    requires d == Date(2023, 7, 31) && other == Date(2023, 5, 1)
    ensures Valid(d) && Valid(other) && Before(other, d) && CarriesInto(d.day, other)
    ensures AddMonths(d, -2, Overflow) == Ok(Date(2023, 5, 31)) && AddMonths(d, -3, Overflow) == Ok(other)
  {
  }
}

/** The civil-date formula behind catalog expiry, against counting years and months. */
module CivilDate {

  /** Rust's integer division: the quotient is rounded towards zero. */
  function Quot(a: int, b: int): int
    requires b > 0
  {
    if a >= 0 then a / b else -((-a) / b)
  }

  function Rem(a: int, b: int): int
    requires b > 0
  {
    a - b * Quot(a, b)
  }

  predicate IsLeapYear(year: int) {
    Rem(year, 4) == 0 && (Rem(year, 100) != 0 || Rem(year, 400) == 0)
  }

  function DaysInMonth(year: int, month: int): int {
    if month in {1, 3, 5, 7, 8, 10, 12} then 31
    else if month in {4, 6, 9, 11} then 30
    else if month == 2 then (if IsLeapYear(year) then 29 else 28)
    else 0
  }

  predicate ValidDate(year: int, month: int, day: int) {
    1 <= month <= 12 && 1 <= day <= DaysInMonth(year, month)
  }

  // The quantities the formula computes on its way.

  function AdjustedYear(year: int, month: int): int {
    year - (if month <= 2 then 1 else 0)
  }

  function Era(adjustedYear: int): int {
    Quot(if adjustedYear >= 0 then adjustedYear else adjustedYear - 399, 400)
  }

  function DayOfYear(month: int, day: int): int {
    Quot(153 * (month + (if month > 2 then -3 else 9)) + 2, 5) + day - 1
  }

  function DayOfEra(year: int, month: int, day: int): int {
    var adjustedYear := AdjustedYear(year, month);
    var yearOfEra := adjustedYear - Era(adjustedYear) * 400;
    yearOfEra * 365 + Quot(yearOfEra, 4) - Quot(yearOfEra, 100) + DayOfYear(month, day)
  }

  function DaysFromCivil(year: int, month: int, day: int): int {
    Era(AdjustedYear(year, month)) * 146097 + DayOfEra(year, month, day) - 719468
  }

  // ---------------------------------------------------------------------------------------------
  // The reference: sum the lengths of the years since 1970 and of the months of the year
  // ---------------------------------------------------------------------------------------------

  function YearLength(year: int): int {
    if IsLeapYear(year) then 366 else 365
  }

  function DaysBeforeYear(year: int): int
    decreases if year < 1970 then 1970 - year else year - 1970
  {
    if year == 1970 then 0
    else if year > 1970 then DaysBeforeYear(year - 1) + YearLength(year - 1)
    else DaysBeforeYear(year + 1) - YearLength(year)
  }

  function DaysBeforeMonth(year: int, month: int): int
    decreases month
  {
    if month <= 1 then 0 else DaysBeforeMonth(year, month - 1) + DaysInMonth(year, month - 1)
  }

  function CountedDays(year: int, month: int, day: int): int {
    DaysBeforeYear(year) + DaysBeforeMonth(year, month) + day - 1
  }

  // ---------------------------------------------------------------------------------------------
  // The formula is the count
  // ---------------------------------------------------------------------------------------------

  /** Quotient and remainder are determined. */
  lemma Unique(a: int, b: int, q: int, r: int)
    requires b > 0 && 0 <= r < b && a == b * q + r
    ensures a / b == q && a % b == r
  {
    assert a == b * (a / b) + a % b;
    var d := q - a / b;
    assert b * d == a % b - r;
    Multiple(b, d);
  }

  lemma Multiple(b: int, d: int)
    requires b > 0
    ensures d >= 1 ==> b * d >= b
    ensures d <= -1 ==> b * d <= -b
  {
    if d >= 1 {
      assert b * (d - 1) >= 0;
    } else if d <= -1 {
      assert b * (-d - 1) >= 0;
    }
  }

  lemma RemIsZero(a: int, b: int)
    requires b > 0
    ensures Rem(a, b) == 0 <==> a % b == 0
  {
    if a < 0 {
      var q, r := -a / b, -a % b;
      assert -a == b * q + r;
      if r == 0 {
        assert b * (-q) == -(b * q);
        Unique(a, b, -q, 0);
      } else {
        assert b * (-q - 1) == -(b * q) - b;
        Unique(a, b, -q - 1, b - r);
      }
    }
  }

  lemma LeapFloor(year: int)
    ensures IsLeapYear(year) <==> year % 4 == 0 && (year % 100 != 0 || year % 400 == 0)
  {
    RemIsZero(year, 4);
    RemIsZero(year, 100);
    RemIsZero(year, 400);
    hide Rem;
  }

  /** The months of the Gregorian calendar. */
  lemma ValidDateIs(year: int, month: int, day: int)
    ensures ValidDate(year, month, day) <==>
      && 1 <= month <= 12 && 1 <= day <= 31
      && (month in {4, 6, 9, 11} ==> day <= 30)
      && (month == 2 ==> day <= 29)
      && (month == 2 && day == 29 ==> year % 4 == 0 && (year % 100 != 0 || year % 400 == 0))
  {
    LeapFloor(year);
    hide IsLeapYear;
  }

  lemma EraFloor(a: int)
    ensures Era(a) == a / 400 && 0 <= a - Era(a) * 400 < 400
  {
    if a < 0 {
      var q, r := (399 - a) / 400, (399 - a) % 400;
      assert 399 - a == 400 * q + r;
      Unique(a, 400, -q, 399 - r);
    }
  }

  /** Days from the start of March of year 0 to the start of March of year `a`. */
  function MarchDays(a: int): int {
    365 * a + a / 4 - a / 100 + a / 400
  }

  lemma MarchDaysOfEra(a: int)
    ensures var yoe := a - Era(a) * 400;
      Era(a) * 146097 + yoe * 365 + Quot(yoe, 4) - Quot(yoe, 100) == MarchDays(a)
  {
    EraFloor(a);
    var era, yoe := Era(a), a - Era(a) * 400;
    Unique(a, 4, yoe / 4 + 100 * era, yoe % 4);
    Unique(a, 100, yoe / 100 + 4 * era, yoe % 100);
    hide Era;
  }

  /** 1 if `b` divides `a`. */
  function Tick(a: int, b: int): int
    requires b > 0
  {
    if a % b == 0 then 1 else 0
  }

  lemma DivStep(a: int, b: int)
    requires b > 1
    ensures a / b - (a - 1) / b == Tick(a, b)
  {
    var q, r := a / b, a % b;
    assert a == b * q + r;
    if r == 0 {
      assert b * (q - 1) == b * q - b;
      Unique(a - 1, b, q - 1, b - 1);
    } else {
      Unique(a - 1, b, q, r - 1);
    }
  }

  /** A fourth century is a century, and a century a fourth year. */
  lemma TicksNest(a: int)
    ensures Tick(a, 400) <= Tick(a, 100) <= Tick(a, 4)
  {
    if a % 400 == 0 {
      Unique(a, 100, 4 * (a / 400), 0);
    }
    if a % 100 == 0 {
      Unique(a, 4, 25 * (a / 100), 0);
    }
  }

  lemma LeapTicks(a: int)
    ensures YearLength(a) == 365 + Tick(a, 4) - Tick(a, 100) + Tick(a, 400)
  {
    LeapFloor(a);
    TicksNest(a);
    hide IsLeapYear;
  }

  /** From one March to the next there is one February. */
  lemma MarchStep(a: int)
    ensures MarchDays(a) - MarchDays(a - 1) == YearLength(a)
  {
    hide Tick, YearLength;
    LeapTicks(a);
    DivStep(a, 4);
    DivStep(a, 100);
    DivStep(a, 400);
  }

  lemma {:induction false} JanuaryFirst(year: int)
    ensures MarchDays(year - 1) + 306 - 719468 == DaysBeforeYear(year)
    decreases if year < 1970 then 1970 - year else year - 1970
  {
    if year > 1970 {
      JanuaryFirst(year - 1);
      MarchStep(year - 1);
    } else if year < 1970 {
      JanuaryFirst(year + 1);
      MarchStep(year);
    }
  }

  lemma MonthsBefore(year: int)
    ensures var l := if IsLeapYear(year) then 1 else 0;
      && DaysBeforeMonth(year, 1) == 0 && DaysBeforeMonth(year, 2) == 31
      && DaysBeforeMonth(year, 3) == 59 + l && DaysBeforeMonth(year, 4) == 90 + l
      && DaysBeforeMonth(year, 5) == 120 + l && DaysBeforeMonth(year, 6) == 151 + l
      && DaysBeforeMonth(year, 7) == 181 + l && DaysBeforeMonth(year, 8) == 212 + l
      && DaysBeforeMonth(year, 9) == 243 + l && DaysBeforeMonth(year, 10) == 273 + l
      && DaysBeforeMonth(year, 11) == 304 + l && DaysBeforeMonth(year, 12) == 334 + l
      && DaysBeforeMonth(year, 13) == 365 + l
  {
    assert DaysBeforeMonth(year, 3) == DaysBeforeMonth(year, 2) + DaysInMonth(year, 2);
    assert DaysBeforeMonth(year, 5) == DaysBeforeMonth(year, 4) + DaysInMonth(year, 4);
    assert DaysBeforeMonth(year, 7) == DaysBeforeMonth(year, 6) + DaysInMonth(year, 6);
    assert DaysBeforeMonth(year, 9) == DaysBeforeMonth(year, 8) + DaysInMonth(year, 8);
    assert DaysBeforeMonth(year, 11) == DaysBeforeMonth(year, 10) + DaysInMonth(year, 10);
  }

  /** The formula counts the days since 1970-01-01, for every date of every year, also before 1970. */
  lemma DaysFromCivilCounts(year: int, month: int, day: int)
    requires ValidDate(year, month, day)
    ensures DaysFromCivil(year, month, day) == CountedDays(year, month, day)
    ensures 0 <= DayOfEra(year, month, day) <= 146096
  {
    var a := AdjustedYear(year, month);
    MarchDaysOfEra(a);
    EraFloor(a);
    JanuaryFirst(year);
    MarchStep(year);
    MonthsBefore(year);
    DayOfYearCounts(year, month, day);
    hide MarchDays, DaysBeforeYear, DaysBeforeMonth, IsLeapYear, Era, DayOfYear, ValidDate;
  }

  /** The days of the year from March on, by months. */
  lemma DayOfYearCounts(year: int, month: int, day: int)
    requires ValidDate(year, month, day)
    ensures 0 <= DayOfYear(month, day) <= 365
    ensures DayOfYear(month, day) == DaysBeforeMonth(year, month) + day - 1 +
            if month <= 2 then 306 else if IsLeapYear(year) then -60 else -59
  {
    MonthsBefore(year);
    hide DaysBeforeMonth, IsLeapYear;
  }

  // ---------------------------------------------------------------------------------------------
  // Order
  // ---------------------------------------------------------------------------------------------

  predicate DateLess(y1: int, m1: int, d1: int, y2: int, m2: int, d2: int) {
    y1 < y2 || (y1 == y2 && (m1 < m2 || (m1 == m2 && d1 < d2)))
  }

  lemma WithinYear(year: int, month: int, day: int)
    requires ValidDate(year, month, day)
    ensures 0 <= DaysBeforeMonth(year, month) + day - 1 < YearLength(year)
    ensures DaysBeforeMonth(year, month) + day <= DaysBeforeMonth(year, month + 1)
  {
    MonthsBefore(year);
  }

  lemma {:induction false} YearsGrow(y1: int, y2: int)
    requires y1 < y2
    ensures DaysBeforeYear(y1) + YearLength(y1) <= DaysBeforeYear(y2)
    decreases y2 - y1
  {
    if y1 + 1 < y2 {
      YearsGrow(y1, y2 - 1);
    }
  }

  lemma {:induction false} MonthsGrow(year: int, m1: int, m2: int)
    requires 1 <= m1 < m2 <= 12
    ensures DaysBeforeMonth(year, m1 + 1) <= DaysBeforeMonth(year, m2)
    decreases m2 - m1
  {
    if m1 + 1 < m2 {
      MonthsGrow(year, m1, m2 - 1);
    }
  }

  /** Later dates have larger day numbers, so the day number determines the date. */
  lemma DateOrder(y1: int, m1: int, d1: int, y2: int, m2: int, d2: int)
    requires ValidDate(y1, m1, d1) && ValidDate(y2, m2, d2)
    ensures DaysFromCivil(y1, m1, d1) < DaysFromCivil(y2, m2, d2) <==> DateLess(y1, m1, d1, y2, m2, d2)
  {
    DaysFromCivilCounts(y1, m1, d1);
    DaysFromCivilCounts(y2, m2, d2);
    if DateLess(y1, m1, d1, y2, m2, d2) {
      CountLess(y1, m1, d1, y2, m2, d2);
    } else if DateLess(y2, m2, d2, y1, m1, d1) {
      CountLess(y2, m2, d2, y1, m1, d1);
    }
  }

  lemma CountLess(y1: int, m1: int, d1: int, y2: int, m2: int, d2: int)
    requires ValidDate(y1, m1, d1) && ValidDate(y2, m2, d2) && DateLess(y1, m1, d1, y2, m2, d2)
    ensures CountedDays(y1, m1, d1) < CountedDays(y2, m2, d2)
  {
    WithinYear(y1, m1, d1);
    WithinYear(y2, m2, d2);
    if y1 < y2 {
      YearsGrow(y1, y2);
    } else if m1 < m2 {
      MonthsGrow(y1, m1, m2);
    }
  }

  lemma FirstAndLast()
    ensures ValidDate(1970, 1, 1) && DaysFromCivil(1970, 1, 1) == 0
    ensures ValidDate(9999, 12, 31) && DaysFromCivil(9999, 12, 31) == 2932896
  {
  }

  /** With the four-digit years the parser lets through nothing leaves the range of 32-bit integers. */
  lemma FitsInt32(year: int, month: int, day: int)
    requires ValidDate(year, month, day) && 1970 <= year <= 9999
    ensures 0 <= Era(AdjustedYear(year, month)) * 146097 <= 3652425
    ensures 0 <= DaysFromCivil(year, month, day) <= 2932896
    ensures (year, month, day) == (9999, 12, 31) ==> DaysFromCivil(year, month, day) == 2932896
  {
    EraFloor(AdjustedYear(year, month));
    FirstAndLast();
    assert 1 <= month <= 12 && 1 <= day <= 31;
    hide DaysFromCivil, ValidDate, Era;
    DateOrder(year, month, day, 1970, 1, 1);
    DateOrder(9999, 12, 31, year, month, day);
  }

  /** The day after a date. */
  function NextDay(year: int, month: int, day: int): (int, int, int) {
    if day < DaysInMonth(year, month) then (year, month, day + 1)
    else if month < 12 then (year, month + 1, 1)
    else (year + 1, 1, 1)
  }

  lemma NextDayCounts(year: int, month: int, day: int)
    requires ValidDate(year, month, day) && year >= 1970
    ensures var (y, m, d) := NextDay(year, month, day);
      ValidDate(y, m, d) && y >= 1970 && CountedDays(y, m, d) == CountedDays(year, month, day) + 1
  {
    MonthsBefore(year);
    assert DaysBeforeMonth(year, month + 1) == DaysBeforeMonth(year, month) + DaysInMonth(year, month);
    assert DaysBeforeYear(year + 1) == DaysBeforeYear(year) + YearLength(year);
    hide IsLeapYear, DaysBeforeYear;
  }

  /** Every day from 1970 on is the day of some date: the numbering has no gaps. */
  lemma {:induction false} EveryDayHasADate(n: nat) returns (year: int, month: int, day: int)
    ensures ValidDate(year, month, day) && year >= 1970 && DaysFromCivil(year, month, day) == n
  {
    if n == 0 {
      FirstAndLast();
      year, month, day := 1970, 1, 1;
    } else {
      hide *;
      var y, m, d := EveryDayHasADate(n - 1);
      NextDayCounts(y, m, d);
      var next := NextDay(y, m, d);
      year, month, day := next.0, next.1, next.2;
      DaysFromCivilCounts(y, m, d);
      DaysFromCivilCounts(year, month, day);
    }
  }
}

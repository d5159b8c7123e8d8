/** The proleptic Gregorian calendar of Python's `datetime`, counted in microseconds. */
module Calendar {

  /** Wall-clock fields without an offset. */
  datatype Civil = Civil(year: int, month: int, day: int, hour: int, minute: int, second: int, micro: int)

  predicate IsLeap(y: int) {
    y % 4 == 0 && (y % 100 != 0 || y % 400 == 0)
  }

  function DaysInMonth(y: int, m: int): int {
    if m == 2 then (if IsLeap(y) then 29 else 28)
    else if m == 4 || m == 6 || m == 9 || m == 11 then 30
    else 31
  }

  function DaysInYear(y: int): int {
    if IsLeap(y) then 366 else 365
  }

  /** Days before 1 January of year `y`, counted from year 1. */
  function DaysBeforeYear(y: int): int {
    365 * (y - 1) + (y - 1) / 4 - (y - 1) / 100 + (y - 1) / 400
  }

  /** Days of year `y` before month `m`; month 13 stands for the whole year. */
  function DaysBeforeMonth(y: int, m: int): int {
    var leap := if IsLeap(y) then 1 else 0;
    if m <= 1 then 0
    else if m == 2 then 31
    else if m == 3 then leap + 59
    else if m == 4 then leap + 90
    else if m == 5 then leap + 120
    else if m == 6 then leap + 151
    else if m == 7 then leap + 181
    else if m == 8 then leap + 212
    else if m == 9 then leap + 243
    else if m == 10 then leap + 273
    else if m == 11 then leap + 304
    else if m == 12 then leap + 334
    else leap + 365
  }

  predicate ValidDate(y: int, m: int, d: int) {
    1 <= y && 1 <= m <= 12 && 1 <= d <= DaysInMonth(y, m)
  }

  /** 1 January of year 1 is day 1. */
  function Ordinal(y: int, m: int, d: int): int {
    DaysBeforeYear(y) + DaysBeforeMonth(y, m) + d
  }

  const MICROS_PER_DAY := 86_400_000_000

  /** Microseconds since midnight. */
  function TimeOfDay(c: Civil): int {
    ((c.hour * 60 + c.minute) * 60 + c.second) * 1_000_000 + c.micro
  }

  predicate Valid(c: Civil) {
    && ValidDate(c.year, c.month, c.day)
    && 0 <= c.hour < 24 && 0 <= c.minute < 60 && 0 <= c.second < 60 && 0 <= c.micro < 1_000_000
  }

  /** Microseconds since the start of day 0. */
  function Micros(c: Civil): int {
    Ordinal(c.year, c.month, c.day) * MICROS_PER_DAY + TimeOfDay(c)
  }

  // ----- Lengths of months and years -----

  lemma YearLength(y: int)
    requires y >= 1
    ensures DaysBeforeYear(y + 1) == DaysBeforeYear(y) + DaysInYear(y)
  {
    DivStep(y, 4);
    DivStep(y, 100);
    DivStep(y, 400);
    LeapRule(y);
  }

  lemma DivStep(y: int, k: int)
    requires y >= 1 && (k == 4 || k == 100 || k == 400)
    ensures y / k - (y - 1) / k == if y % k == 0 then 1 else 0
  {
  }

  lemma LeapRule(y: int)
    ensures y % 100 == 0 ==> y % 4 == 0
    ensures y % 400 == 0 ==> y % 100 == 0
  {
  }

  lemma MonthLength(y: int, m: int)
    requires 1 <= m <= 12
    ensures DaysBeforeMonth(y, m + 1) == DaysBeforeMonth(y, m) + DaysInMonth(y, m)
    ensures DaysBeforeMonth(y, 13) == DaysInYear(y)
  {
  }

  lemma {:induction false} YearsIncrease(y: int, z: int)
    requires 1 <= y < z
    ensures DaysBeforeYear(y + 1) <= DaysBeforeYear(z)
    decreases z - y
  {
    if y + 1 < z {
      YearLength(y + 1);
      YearsIncrease(y + 1, z);
    }
  }

  lemma {:induction false} MonthsIncrease(y: int, m: int, n: int)
    requires 1 <= m < n <= 13
    ensures DaysBeforeMonth(y, m) + DaysInMonth(y, m) <= DaysBeforeMonth(y, n)
    decreases n - m
  {
    MonthLength(y, m);
    if m + 1 < n {
      MonthsIncrease(y, m + 1, n);
    }
  }

  /** A date stays inside its own year. */
  lemma OrdinalInYear(y: int, m: int, d: int)
    requires ValidDate(y, m, d)
    ensures DaysBeforeYear(y) < Ordinal(y, m, d) <= DaysBeforeYear(y + 1)
  {
    YearLength(y);
    MonthLength(y, m);
    MonthsIncrease(y, m, 13);
  }

  // ----- Field order is time order -----

  predicate DateBefore(c: Civil, e: Civil) {
    c.year < e.year || (c.year == e.year && (c.month < e.month || (c.month == e.month && c.day < e.day)))
  }

  predicate TimeBefore(c: Civil, e: Civil) {
    c.hour < e.hour || (c.hour == e.hour &&
      (c.minute < e.minute || (c.minute == e.minute &&
        (c.second < e.second || (c.second == e.second && c.micro < e.micro)))))
  }

  predicate SameDate(c: Civil, e: Civil) {
    c.year == e.year && c.month == e.month && c.day == e.day
  }

  predicate Before(c: Civil, e: Civil) {
    DateBefore(c, e) || (SameDate(c, e) && TimeBefore(c, e))
  }

  lemma DateOrder(c: Civil, e: Civil)
    requires Valid(c) && Valid(e) && DateBefore(c, e)
    ensures Ordinal(c.year, c.month, c.day) < Ordinal(e.year, e.month, e.day)
  {
    OrdinalInYear(c.year, c.month, c.day);
    OrdinalInYear(e.year, e.month, e.day);
    if c.year < e.year {
      YearsIncrease(c.year, e.year);
    } else if c.month < e.month {
      MonthsIncrease(c.year, c.month, e.month);
    }
  }

  lemma TimeOrder(c: Civil, e: Civil)
    requires Valid(c) && Valid(e)
    ensures 0 <= TimeOfDay(c) < MICROS_PER_DAY
    ensures TimeBefore(c, e) ==> TimeOfDay(c) < TimeOfDay(e)
  {
  }

  /** Comparing fields from the year down compares instants. */
  lemma FieldsOrderInstants(c: Civil, e: Civil)
    requires Valid(c) && Valid(e)
    ensures Before(c, e) <==> Micros(c) < Micros(e)
    ensures c == e <==> Micros(c) == Micros(e)
  {
    TimeOrder(c, e);
    TimeOrder(e, c);
    if DateBefore(c, e) {
      DateOrder(c, e);
    } else if DateBefore(e, c) {
      DateOrder(e, c);
    }
  }

  // ----- From an instant back to fields (what `astimezone(UTC)` computes) -----

  function YearFrom(n: int, y: int): (r: int)
    requires y >= 1 && DaysBeforeYear(y) < n
    ensures r >= y && DaysBeforeYear(r) < n <= DaysBeforeYear(r + 1)
    decreases n - DaysBeforeYear(y)
  {
    YearLength(y);
    if n <= DaysBeforeYear(y + 1) then y else YearFrom(n, y + 1)
  }

  function MonthFrom(y: int, k: int, m: int): (r: int)
    requires 1 <= m <= 12 && DaysBeforeMonth(y, m) < k <= DaysInYear(y)
    ensures m <= r <= 12 && DaysBeforeMonth(y, r) < k <= DaysBeforeMonth(y, r) + DaysInMonth(y, r)
    decreases 12 - m
  {
    MonthLength(y, m);
    if k <= DaysBeforeMonth(y, m + 1) then m else MonthFrom(y, k, m + 1)
  }

  /** The first representable instant, 0001-01-01T00:00:00. */
  const FIRST_INSTANT := MICROS_PER_DAY

  function FromMicros(t: int): (c: Civil)
    requires t >= FIRST_INSTANT
    ensures Valid(c) && Micros(c) == t
  {
    var n := t / MICROS_PER_DAY;
    var u := t % MICROS_PER_DAY;
    var y := YearFrom(n, 1);
    YearLength(y);
    var k := n - DaysBeforeYear(y);
    var m := MonthFrom(y, k, 1);
    SplitTime(u);
    Civil(y, m, k - DaysBeforeMonth(y, m),
          u / 3_600_000_000, u / 60_000_000 % 60, u / 1_000_000 % 60, u % 1_000_000)
  }

  lemma SplitTime(u: int)
    requires 0 <= u < MICROS_PER_DAY
    ensures 0 <= u / 3_600_000_000 < 24
    ensures ((u / 3_600_000_000 * 60 + u / 60_000_000 % 60) * 60 + u / 1_000_000 % 60) * 1_000_000 + u % 1_000_000 == u
  {
    var s := u / 1_000_000;
    var mi := s / 60;
    assert u / 60_000_000 == mi;
    assert u / 3_600_000_000 == mi / 60;
  }

  /** The last one, 9999-12-31T23:59:59.999999. */
  const LAST_INSTANT := 315_537_983_999_999_999

  lemma InRangeYear(t: int)
    requires FIRST_INSTANT <= t
    ensures t <= LAST_INSTANT <==> FromMicros(t).year <= 9999
  {
    var last := Civil(9999, 12, 31, 23, 59, 59, 999_999);
    assert Micros(last) == LAST_INSTANT;
    var c := FromMicros(t);
    FieldsOrderInstants(last, c);
    FieldsOrderInstants(c, last);
  }

  lemma KnownYears()
    ensures DaysBeforeYear(1) == 0 && DaysBeforeYear(1900) == 693_595 && DaysBeforeYear(1970) == 719_162
    ensures DaysBeforeYear(2024) == 738_885 && DaysBeforeYear(2025) == 739_251 && DaysBeforeYear(9999) == 3_651_694
    ensures IsLeap(2024) && !IsLeap(2025) && !IsLeap(1900) && !IsLeap(1970) && !IsLeap(9999) && !IsLeap(1)
  {
  }

  lemma DayIn(y: int, before: int, leap: bool, m: int, d: int)
    requires DaysBeforeYear(y) == before && IsLeap(y) == leap
    ensures m == 1 ==> Ordinal(y, m, d) == before + d
    ensures m == 3 ==> Ordinal(y, m, d) == before + (if leap then 60 else 59) + d
    ensures m == 12 ==> Ordinal(y, m, d) == before + (if leap then 335 else 334) + d
  {
    hide DaysBeforeYear, IsLeap;
  }

  /** Day numbers as Python's `date.toordinal` counts them, in several years. */
  lemma KnownDays()
    ensures Ordinal(1, 1, 1) == 1 && Ordinal(1900, 3, 1) == 693_655 && Ordinal(1970, 1, 1) == 719_163
    ensures Ordinal(2025, 3, 1) == 739_311 && Ordinal(9999, 12, 31) == 3_652_059
  {
    hide Ordinal, DaysBeforeYear, IsLeap;
    KnownYears();
    DayIn(1, 0, false, 1, 1);
    DayIn(1900, 693_595, false, 3, 1);
    DayIn(1970, 719_162, false, 1, 1);
    DayIn(2025, 739_251, false, 3, 1);
    DayIn(9999, 3_651_694, false, 12, 31);
  }

  /** And on the last day of every month of a leap year. */
  lemma KnownMonthEnds()
    ensures Ordinal(2024, 1, 31) == 738_916 && Ordinal(2024, 2, 29) == 738_945 && Ordinal(2024, 3, 31) == 738_976
    ensures Ordinal(2024, 4, 30) == 739_006 && Ordinal(2024, 5, 31) == 739_037 && Ordinal(2024, 6, 30) == 739_067
    ensures Ordinal(2024, 7, 31) == 739_098 && Ordinal(2024, 8, 31) == 739_129 && Ordinal(2024, 9, 30) == 739_159
    ensures Ordinal(2024, 10, 31) == 739_190 && Ordinal(2024, 11, 30) == 739_220 && Ordinal(2024, 12, 31) == 739_251
  {
    hide DaysBeforeYear, IsLeap;
    KnownYears();
  }

  /** Which days there are: thirty-one in seven months, and 29 February in leap years, of which 1900 was none. */
  lemma KnownMonths(m: int)
    requires 1 <= m <= 12
    ensures ValidDate(2024, m, 31) <==> m == 1 || m == 3 || m == 5 || m == 7 || m == 8 || m == 10 || m == 12
    ensures (ValidDate(2024, m, 30) <==> m != 2) && !ValidDate(2024, m, 32) && !ValidDate(2024, m, 0)
    ensures ValidDate(2024, 2, 29) && !ValidDate(2025, 2, 29) && !ValidDate(1900, 2, 29) && ValidDate(2000, 2, 29)
  {
  }
}

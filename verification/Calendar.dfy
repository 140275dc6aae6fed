/** Instants and their UTC calendar reading, for the years 0000 to 9999 that four digits can write. */
module Calendar {

  /** Nanoseconds since 0000-01-01T00:00:00Z: later instants are larger numbers. */
  type Instant = int

  const SECOND: int := 1_000_000_000
  const DAY: int := 86_400 * SECOND

  /** `time.Time{}`, 0001-01-01T00:00:00Z, which the program uses for "never". */
  const ZERO: Instant := 366 * DAY

  const DAYS: int := 3_652_425

  predicate InRange(t: Instant) {
    0 <= t < DAYS * DAY
  }

  datatype Civil = Civil(year: nat, month: nat, day: nat, hour: nat, minute: nat, second: nat, nano: nat)

  predicate Leap(y: nat) {
    y % 4 == 0 && (y % 100 != 0 || y % 400 == 0)
  }

  function YearDays(y: nat): nat {
    if Leap(y) then 366 else 365
  }

  /** Days from 0000-01-01 to the first of January of year `y`. */
  function DaysBeforeYear(y: nat): nat {
    365 * y + (y + 3) / 4 - (y + 99) / 100 + (y + 399) / 400
  }

  lemma YearStep(y: nat)
    ensures DaysBeforeYear(y + 1) == DaysBeforeYear(y) + YearDays(y)
  {
    Quarters(y);
    Centuries(y);
    FourCenturies(y);
  }

  lemma Quarters(y: nat)
    ensures (y + 4) / 4 == (y + 3) / 4 + if y % 4 == 0 then 1 else 0
  {
  }

  lemma Centuries(y: nat)
    ensures (y + 100) / 100 == (y + 99) / 100 + if y % 100 == 0 then 1 else 0
    ensures y % 100 == 0 ==> y % 4 == 0
  {
    var q, r := y / 100, y % 100;
    assert y == 100 * q + r == 4 * (25 * q) + r;
    assert (y + 100) / 100 == q + 1;
    assert (y + 99) / 100 == if r == 0 then q else q + 1;
  }

  lemma FourCenturies(y: nat)
    ensures (y + 400) / 400 == (y + 399) / 400 + if y % 400 == 0 then 1 else 0
    ensures y % 400 == 0 ==> y % 100 == 0
  {
    var q, r := y / 400, y % 400;
    assert y == 400 * q + r == 100 * (4 * q) + r;
    assert (y + 400) / 400 == q + 1;
    assert (y + 399) / 400 == if r == 0 then q else q + 1;
  }

  function MonthDays(y: nat, m: nat): nat
    requires 1 <= m <= 12
  {
    if m == 2 then (if Leap(y) then 29 else 28)
    else if m == 4 || m == 6 || m == 9 || m == 11 then 30
    else 31
  }

  function DaysBeforeMonth(y: nat, m: nat): nat
    requires 1 <= m <= 13
  {
    if m == 1 then 0 else DaysBeforeMonth(y, m - 1) + MonthDays(y, m - 1)
  }

  predicate Valid(c: Civil) {
    && c.year <= 9999 && 1 <= c.month <= 12 && 1 <= c.day <= MonthDays(c.year, c.month)
    && c.hour < 24 && c.minute < 60 && c.second < 60 && c.nano < SECOND
  }

  function DayNumber(y: nat, m: nat, d: nat): int
    requires 1 <= m <= 12
  {
    DaysBeforeYear(y) + DaysBeforeMonth(y, m) + d - 1
  }

  function TimeOfDay(c: Civil): nat {
    ((c.hour * 60 + c.minute) * 60 + c.second) * SECOND + c.nano
  }

  function FromCivil(c: Civil): Instant
    requires Valid(c)
  {
    DayNumber(c.year, c.month, c.day) * DAY + TimeOfDay(c)
  }

  /** The year a day number falls in, counted up from a year known not to be later. */
  function YearOf(day: nat, from: nat): (y: nat)
    requires DaysBeforeYear(from) <= day
    ensures DaysBeforeYear(y) <= day < DaysBeforeYear(y + 1)
    decreases day - DaysBeforeYear(from)
  {
    YearStep(from);
    if day < DaysBeforeYear(from + 1) then from else YearOf(day, from + 1)
  }

  function MonthOf(y: nat, day: nat, from: nat): (m: nat)
    requires 1 <= from <= 12
    requires DaysBeforeMonth(y, from) <= day < DaysBeforeMonth(y, 13)
    ensures 1 <= m <= 12
    ensures DaysBeforeMonth(y, m) <= day < DaysBeforeMonth(y, m) + MonthDays(y, m)
    decreases 12 - from
  {
    assert DaysBeforeMonth(y, from + 1) == DaysBeforeMonth(y, from) + MonthDays(y, from);
    if from == 12 || day < DaysBeforeMonth(y, from + 1) then from else MonthOf(y, day, from + 1)
  }

  lemma MonthsFillYear(y: nat)
    ensures DaysBeforeMonth(y, 13) == YearDays(y)
  {
    assert DaysBeforeMonth(y, 2) == 31;
    assert DaysBeforeMonth(y, 4) == DaysBeforeMonth(y, 2) + MonthDays(y, 2) + 31;
    assert DaysBeforeMonth(y, 6) == DaysBeforeMonth(y, 4) + 61;
    assert DaysBeforeMonth(y, 8) == DaysBeforeMonth(y, 6) + 61;
    assert DaysBeforeMonth(y, 10) == DaysBeforeMonth(y, 8) + 61;
    assert DaysBeforeMonth(y, 12) == DaysBeforeMonth(y, 10) + 61;
    assert DaysBeforeMonth(y, 13) == DaysBeforeMonth(y, 12) + 31;
  }

  /** The calendar reading of an instant. */
  function ToCivil(t: Instant): (c: Civil)
    requires InRange(t)
    ensures Valid(c)
  {
    var day := t / DAY;
    var rest := t % DAY;
    var y := YearOf(day, 0);
    assert y <= 9999 by { if y > 9999 { YearsGrow(10000, y); } }
    YearStep(y);
    MonthsFillYear(y);
    var m := MonthOf(y, day - DaysBeforeYear(y), 1);
    var d := day - DaysBeforeYear(y) - DaysBeforeMonth(y, m) + 1;
    var s := rest / SECOND;
    Civil(y, m, d, s / 3600, s / 60 % 60, s % 60, rest % SECOND)
  }

  lemma {:induction false} YearsGrow(a: nat, b: nat)
    requires a <= b
    ensures DaysBeforeYear(a) <= DaysBeforeYear(b)
    decreases b - a
  {
    if a < b {
      YearStep(a);
      YearsGrow(a + 1, b);
    }
  }

  /** Reading an instant off the calendar loses nothing. */
  lemma InstantRoundTrip(t: Instant)
    requires InRange(t)
    ensures FromCivil(ToCivil(t)) == t
  {
    var c := ToCivil(t);
    assert DayNumber(c.year, c.month, c.day) == t / DAY;
    var rest := t % DAY;
    var s := rest / SECOND;
    assert (c.hour * 60 + c.minute) * 60 + c.second == s by {
      assert s / 60 / 60 == s / 3600;
    }
    assert s * SECOND + rest % SECOND == rest;
  }

  /** The calendar order: most significant field first. */
  predicate CivilLess(a: Civil, b: Civil) {
    a.year < b.year || (a.year == b.year && (
    a.month < b.month || (a.month == b.month && (
    a.day < b.day || (a.day == b.day && (
    a.hour < b.hour || (a.hour == b.hour && (
    a.minute < b.minute || (a.minute == b.minute && (
    a.second < b.second || (a.second == b.second && a.nano < b.nano)))))))))))
  }

  lemma {:induction false} MonthsGrow(y: nat, a: nat, b: nat)
    requires 1 <= a <= b <= 13
    ensures DaysBeforeMonth(y, a) <= DaysBeforeMonth(y, b)
    decreases b - a
  {
    if a < b {
      MonthsGrow(y, a + 1, b);
      assert DaysBeforeMonth(y, a + 1) == DaysBeforeMonth(y, a) + MonthDays(y, a);
    }
  }

  lemma DayOrder(a: Civil, b: Civil)
    requires Valid(a) && Valid(b)
    requires a.year < b.year || (a.year == b.year && (a.month < b.month || (a.month == b.month && a.day < b.day)))
    ensures DayNumber(a.year, a.month, a.day) < DayNumber(b.year, b.month, b.day)
  {
    assert DaysBeforeMonth(a.year, a.month + 1) == DaysBeforeMonth(a.year, a.month) + MonthDays(a.year, a.month);
    if a.year < b.year {
      MonthsGrow(a.year, a.month + 1, 13);
      MonthsFillYear(a.year);
      YearStep(a.year);
      YearsGrow(a.year + 1, b.year);
    } else if a.month < b.month {
      MonthsGrow(a.year, a.month + 1, b.month);
    }
  }

  lemma TimeOfDayBound(c: Civil)
    requires Valid(c)
    ensures TimeOfDay(c) < DAY
  {
    assert c.hour * 60 + c.minute <= 1439;
    assert (c.hour * 60 + c.minute) * 60 + c.second <= 86_399;
  }

  lemma CivilLessIsEarlier(a: Civil, b: Civil)
    requires Valid(a) && Valid(b) && CivilLess(a, b)
    ensures FromCivil(a) < FromCivil(b)
  {
    TimeOfDayBound(a);
    TimeOfDayBound(b);
    if a.year == b.year && a.month == b.month && a.day == b.day {
      TimeOrder(a, b);
    } else {
      hide DayNumber, TimeOfDay;
      DayOrder(a, b);
    }
  }

  lemma TimeOrder(a: Civil, b: Civil)
    requires Valid(a) && Valid(b) && CivilLess(a, b) && a.year == b.year && a.month == b.month && a.day == b.day
    ensures TimeOfDay(a) < TimeOfDay(b)
  {
  }

  /** Calendar order is clock order, in both directions. */
  lemma CalendarOrder(a: Civil, b: Civil)
    requires Valid(a) && Valid(b)
    ensures FromCivil(a) < FromCivil(b) <==> CivilLess(a, b)
    ensures FromCivil(a) == FromCivil(b) <==> a == b
  {
    if CivilLess(a, b) {
      CivilLessIsEarlier(a, b);
    } else if CivilLess(b, a) {
      CivilLessIsEarlier(b, a);
    } else {
      assert a == b;
    }
  }

  lemma DayInRange(c: Civil)
    requires Valid(c)
    ensures 0 <= DayNumber(c.year, c.month, c.day) < DAYS
  {
    assert DaysBeforeMonth(c.year, c.month + 1) == DaysBeforeMonth(c.year, c.month) + MonthDays(c.year, c.month);
    MonthsGrow(c.year, c.month + 1, 13);
    MonthsGrow(c.year, 1, c.month);
    MonthsFillYear(c.year);
    YearStep(c.year);
    YearsGrow(c.year + 1, 10000);
  }

  lemma CivilInRange(c: Civil)
    requires Valid(c)
    ensures InRange(FromCivil(c))
  {
    DayInRange(c);
    TimeOfDayBound(c);
  }

  /** A calendar reading names one instant, and that instant reads back as it. */
  lemma CivilRoundTrip(c: Civil)
    requires Valid(c)
    ensures InRange(FromCivil(c)) && ToCivil(FromCivil(c)) == c
  {
    CivilInRange(c);
    var t := FromCivil(c);
    InstantRoundTrip(t);
    CalendarOrder(c, ToCivil(t));
  }
}

/** ISO 8601 week numbers as computed by getWeekNumber in the activity extension.

    The source builds `Date.UTC(year, month, day)` from the local calendar date,
    moves it to the Thursday of its week, and counts the days from the first of
    January of that Thursday's year. Timestamps are exact multiples of a day
    here, so the model counts whole days since 1970-01-01 instead of
    milliseconds. */
module WeekNumbers {

  /** A calendar date; `month` runs from 1 to 12 (JavaScript's getMonth() + 1). */
  datatype Date = Date(year: int, month: int, day: int)

  predicate IsLeapYear(y: int) {
    y % 4 == 0 && (y % 100 != 0 || y % 400 == 0)
  }

  function DaysInMonth(y: int, m: int): int
    requires 1 <= m <= 12
  {
    if m == 2 then (if IsLeapYear(y) then 29 else 28)
    else if m == 4 || m == 6 || m == 9 || m == 11 then 30
    else 31
  }

  predicate ValidDate(d: Date) {
    1 <= d.month <= 12 && 1 <= d.day <= DaysInMonth(d.year, d.month)
  }

  /** Leap years among the years before `y` (proleptic Gregorian, floor division). */
  function LeapsBefore(y: int): int {
    (y - 1) / 4 - (y - 1) / 100 + (y - 1) / 400
  }

  /** Day number of the first of January of year `y`, counted from 1970-01-01. */
  function DaysBeforeYear(y: int): int {
    365 * (y - 1970) + LeapsBefore(y) - LeapsBefore(1970)
  }

  function YearLength(y: int): int {
    if IsLeapYear(y) then 366 else 365
  }

  function DaysBeforeMonth(y: int, m: int): int
    requires 1 <= m <= 12
  {
    var before :=
      if m == 1 then 0 else if m == 2 then 31 else if m == 3 then 59
      else if m == 4 then 90 else if m == 5 then 120 else if m == 6 then 151
      else if m == 7 then 181 else if m == 8 then 212 else if m == 9 then 243
      else if m == 10 then 273 else if m == 11 then 304 else 334;
    before + (if m > 2 && IsLeapYear(y) then 1 else 0)
  }

  /** Date.UTC(year, month - 1, day) divided by the milliseconds of a day. */
  function DayNumber(d: Date): int
    requires ValidDate(d)
  {
    DaysBeforeYear(d.year) + DaysBeforeMonth(d.year, d.month) + d.day - 1
  }

  /** getUTCDay of a day number: 0 is Sunday, 1970-01-01 was a Thursday. */
  function UtcDay(n: int): (r: int)
    ensures 0 <= r < 7
  {
    (n + 4) % 7
  }

  /** Day number of the Thursday of the ISO week that holds day `n`
      (`dayNum = getUTCDay() || 7`, then `setUTCDate(getUTCDate() + 4 - dayNum)`). */
  function ThursdayOf(n: int): int {
    var dayNum := if UtcDay(n) == 0 then 7 else UtcDay(n);
    n + 4 - dayNum
  }

  /** getUTCFullYear of a day at most three days away from a date in year `y`. */
  function YearNear(t: int, y: int): int {
    if t < DaysBeforeYear(y) then y - 1
    else if t >= DaysBeforeYear(y + 1) then y + 1
    else y
  }

  function CeilDiv(a: int, b: int): int
    requires b > 0
  {
    (a + b - 1) / b
  }

  /** getWeekNumber(date): `Math.ceil(((thursday - yearStart) / day + 1) / 7)`. */
  function GetWeekNumber(d: Date): (w: int)
    requires ValidDate(d)
    ensures 1 <= w <= 53
  {
    var thursday := ThursdayOf(DayNumber(d));
    var yearStart := DaysBeforeYear(YearNear(thursday, d.year));
    ThursdayInYear(d);
    CeilDiv(thursday - yearStart + 1, 7)
  }

  // ---------------------------------------------------------------------------
  // Calendar arithmetic

  lemma FloorStep(y: int, k: int)
    requires k == 4 || k == 100 || k == 400
    ensures y / k - (y - 1) / k == if y % k == 0 then 1 else 0
  {
    var q, r := (y - 1) / k, (y - 1) % k;
    assert y - 1 == k * q + r && 0 <= r < k;
    if r == k - 1 {
      assert y == k * (q + 1) + 0;
    } else {
      assert y == k * q + (r + 1);
    }
  }

  lemma Div400IsDiv100(y: int)
    requires y % 400 == 0
    ensures y % 100 == 0
  {
    var q := y / 400;
    assert y == 100 * (4 * q);
  }

  lemma Div100IsDiv4(y: int)
    requires y % 100 == 0
    ensures y % 4 == 0
  {
    var q := y / 100;
    assert y == 4 * (25 * q);
  }

  /** One more leap year is counted exactly when the year itself is a leap year. */
  lemma LeapsStep(y: int)
    ensures LeapsBefore(y + 1) - LeapsBefore(y) == if IsLeapYear(y) then 1 else 0
  {
    FloorStep(y, 4);
    FloorStep(y, 100);
    FloorStep(y, 400);
    if y % 400 == 0 {
      Div400IsDiv100(y);
      Div100IsDiv4(y);
    } else if y % 100 == 0 {
      Div100IsDiv4(y);
    }
  }

  lemma YearSpan(y: int)
    ensures DaysBeforeYear(y + 1) - DaysBeforeYear(y) == YearLength(y)
  {
    LeapsStep(y);
  }

  /** A later year never starts earlier: each year adds at least 365 days. */
  lemma {:induction false} DaysBeforeYearGrows(a: int, b: int)
    requires a <= b
    ensures DaysBeforeYear(b) - DaysBeforeYear(a) >= 365 * (b - a)
    decreases b - a
  {
    if a < b {
      DaysBeforeYearGrows(a, b - 1);
      YearSpan(b - 1);
    }
  }

  /** Every day number lies in exactly one year. */
  lemma YearUnique(t: int, a: int, b: int)
    requires DaysBeforeYear(a) <= t < DaysBeforeYear(a + 1)
    requires DaysBeforeYear(b) <= t < DaysBeforeYear(b + 1)
    ensures a == b
  {
    if a < b {
      DaysBeforeYearGrows(a + 1, b);
    } else if b < a {
      DaysBeforeYearGrows(b + 1, a);
    }
  }

  /** A valid date lies inside its own year. */
  lemma DateInYear(d: Date)
    requires ValidDate(d)
    ensures DaysBeforeYear(d.year) <= DayNumber(d) < DaysBeforeYear(d.year + 1)
  {
    YearSpan(d.year);
  }

  /** The Thursday of a day's ISO week is at most three days away. */
  lemma ThursdayNear(n: int)
    ensures n - 3 <= ThursdayOf(n) <= n + 3
  {
  }

  /** A day at most three days from a day of year `b..c` lies in that year or
      one of its neighbours, each of which is at most 366 days long. */
  lemma NearYearBounds(t: int, n: int, a: int, b: int, c: int, e: int)
    requires 365 <= b - a <= 366 && 365 <= c - b <= 366 && 365 <= e - c <= 366
    requires b <= n < c && n - 3 <= t <= n + 3
    ensures t < b ==> a <= t && t - a < 366
    ensures t >= c ==> t < e && t - c < 366
    ensures b <= t < c ==> t - b < 366
  {
  }

  /** The Thursday of a date's week lies in the year YearNear picks. */
  lemma ThursdayInYear(d: Date)
    requires ValidDate(d)
    ensures var t := ThursdayOf(DayNumber(d));
            var y := YearNear(t, d.year);
            DaysBeforeYear(y) <= t < DaysBeforeYear(y + 1)
            && t - DaysBeforeYear(y) < 366
  {
    var n, y := DayNumber(d), d.year;
    DateInYear(d);
    YearSpan(y - 1);
    YearSpan(y);
    YearSpan(y + 1);
    var t := ThursdayOf(n);
    ThursdayNear(n);
    var a, b, c, e := DaysBeforeYear(y - 1), DaysBeforeYear(y), DaysBeforeYear(y + 1), DaysBeforeYear(y + 2);
    NearYearBounds(t, n, a, b, c, e);
    if t < b {
      assert YearNear(t, y) == y - 1;
    } else if t >= c {
      assert YearNear(t, y) == y + 1;
    } else {
      assert YearNear(t, y) == y;
    }
  }

  // ---------------------------------------------------------------------------
  // Properties of getWeekNumber

  /** The week number depends only on the Thursday of the date's week. */
  lemma WeekOfThursday(d: Date, y: int)
    requires ValidDate(d)
    requires DaysBeforeYear(y) <= ThursdayOf(DayNumber(d)) < DaysBeforeYear(y + 1)
    ensures GetWeekNumber(d) == CeilDiv(ThursdayOf(DayNumber(d)) - DaysBeforeYear(y) + 1, 7)
  {
    ThursdayInYear(d);
    YearUnique(ThursdayOf(DayNumber(d)), y, YearNear(ThursdayOf(DayNumber(d)), d.year));
  }

  /** The six days after a Monday share its Thursday. */
  lemma ThursdayOfWeekday(m: int, k: int)
    requires UtcDay(m) == 1 && 0 <= k <= 6
    ensures ThursdayOf(m + k) == m + 3
  {
    var q := (m + 4) / 7;
    assert m + 4 == 7 * q + 1;
    if k == 6 {
      assert m + k + 4 == 7 * (q + 1) + 0;
    } else {
      assert m + k + 4 == 7 * q + (1 + k);
    }
  }

  /** Monday to Sunday of one ISO week get the same week number, also when the
      week straddles the turn of a year. */
  lemma {:induction false} SameWeekSameNumber(monday: Date, other: Date)
    requires ValidDate(monday) && ValidDate(other)
    requires UtcDay(DayNumber(monday)) == 1
    requires 0 <= DayNumber(other) - DayNumber(monday) <= 6
    ensures GetWeekNumber(other) == GetWeekNumber(monday)
  {
    var m, n := DayNumber(monday), DayNumber(other);
    var t := m + 3;
    assert ThursdayOf(n) == t by { ThursdayOfWeekday(m, n - m); }
    assert ThursdayOf(m) == t by { ThursdayOfWeekday(m, 0); }
    var y := YearNear(t, monday.year);
    assert DaysBeforeYear(y) <= t < DaysBeforeYear(y + 1) by { ThursdayInYear(monday); }
    WeekOfThursday(other, y);
    WeekOfThursday(monday, y);
  }

  /** 2024-01-01 is a Monday and falls in ISO week 1. */
  lemma NewYear2024IsWeekOne()
    ensures UtcDay(DayNumber(Date(2024, 1, 1))) == 1
    ensures GetWeekNumber(Date(2024, 1, 1)) == 1
  {
  }

  /** 2021-01-01 is a Friday and still belongs to week 53 of 2020. */
  lemma NewYear2021IsWeek53()
    ensures UtcDay(DayNumber(Date(2021, 1, 1))) == 5
    ensures GetWeekNumber(Date(2021, 1, 1)) == 53
  {
  }
}

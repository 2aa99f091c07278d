/** The proleptic Gregorian calendar in UTC, as Go's time package presents it.

    A day is numbered from 1 January of year 1 (day 0), and a minute from the
    start of that day, so minute 0 is Go's zero time.  Both numbers range over
    all integers.  */
module Calendar {

  const MINUTES_PER_DAY := 1440

  datatype Civil = Civil(year: int, month: int, day: int)

  predicate Leap(y: int) {
    y % 4 == 0 && (y % 100 != 0 || y % 400 == 0)
  }

  function YearLength(y: int): int {
    if Leap(y) then 366 else 365
  }

  function MonthLength(y: int, m: int): int {
    if m == 2 then (if Leap(y) then 29 else 28)
    else if m == 4 || m == 6 || m == 9 || m == 11 then 30
    else 31
  }

  predicate ValidDate(c: Civil) {
    1 <= c.month <= 12 && 1 <= c.day <= MonthLength(c.year, c.month)
  }

  /** Days from 1 January of year 1 to 1 January of year y. */
  function DaysBeforeYear(y: int): int
    decreases if y >= 1 then y - 1 else 1 - y
  {
    if y == 1 then 0
    else if y > 1 then DaysBeforeYear(y - 1) + YearLength(y - 1)
    else DaysBeforeYear(y + 1) - YearLength(y)
  }

  /** Days of year y before the first of month m. */
  function DaysBeforeMonth(y: int, m: int): int
    requires 1 <= m <= 13
    decreases m
  {
    if m == 1 then 0 else DaysBeforeMonth(y, m - 1) + MonthLength(y, m - 1)
  }

  function DayNumber(y: int, m: int, d: int): int
    requires 1 <= m <= 12
  {
    DaysBeforeYear(y) + DaysBeforeMonth(y, m) + d - 1
  }

  lemma YearStep(y: int)
    ensures DaysBeforeYear(y + 1) == DaysBeforeYear(y) + YearLength(y)
  {
  }

  function LeapDaysBefore(y: int): int {
    (y - 1) / 4 - (y - 1) / 100 + (y - 1) / 400
  }

  /** Counting years agrees with the Gregorian closed form. */
  lemma {:induction false} ClosedForm(y: int)
    ensures DaysBeforeYear(y) == 365 * (y - 1) + LeapDaysBefore(y)
    decreases if y >= 1 then y - 1 else 1 - y
  {
    if y > 1 {
      ClosedForm(y - 1);
      LeapDayStep(y - 1);
    } else if y < 1 {
      ClosedForm(y + 1);
      LeapDayStep(y);
    }
  }

  lemma LeapDayStep(y: int)
    ensures LeapDaysBefore(y + 1) == LeapDaysBefore(y) + if Leap(y) then 1 else 0
  {
    DivStep(y - 1, 4);
    DivStep(y - 1, 100);
    DivStep(y - 1, 400);
    FactorOf400(y);
    FactorOf100(y);
  }

  lemma DivStep(z: int, k: int)
    requires k == 4 || k == 100 || k == 400
    ensures (z + 1) / k == z / k + if (z + 1) % k == 0 then 1 else 0
  {
    if k == 4 {
    } else if k == 100 {
    } else {
    }
  }

  lemma FactorOf400(y: int)
    ensures y % 400 == 0 ==> y % 100 == 0
  {
    assert y % 400 == 0 ==> y == 100 * (4 * (y / 400));
  }

  lemma FactorOf100(y: int)
    ensures y % 100 == 0 ==> y % 4 == 0
  {
    assert y % 100 == 0 ==> y == 4 * (25 * (y / 100));
  }

  lemma YearTable(y: int)
    ensures DaysBeforeMonth(y, 13) == YearLength(y)
  {
    assert DaysBeforeMonth(y, 2) == 31;
    assert DaysBeforeMonth(y, 3) == YearLength(y) - 306;
    assert DaysBeforeMonth(y, 4) == YearLength(y) - 275;
    assert DaysBeforeMonth(y, 5) == YearLength(y) - 245;
    assert DaysBeforeMonth(y, 6) == YearLength(y) - 214;
    assert DaysBeforeMonth(y, 7) == YearLength(y) - 184;
    assert DaysBeforeMonth(y, 8) == YearLength(y) - 153;
    assert DaysBeforeMonth(y, 9) == YearLength(y) - 122;
    assert DaysBeforeMonth(y, 10) == YearLength(y) - 92;
    assert DaysBeforeMonth(y, 11) == YearLength(y) - 61;
    assert DaysBeforeMonth(y, 12) == YearLength(y) - 31;
  }

  lemma {:induction false} YearsIncrease(y: int, z: int)
    requires y <= z
    ensures DaysBeforeYear(y) + 365 * (z - y) <= DaysBeforeYear(z) <= DaysBeforeYear(y) + 366 * (z - y)
    decreases z - y
  {
    if y == z {
    } else {
      YearStep(z - 1);
      YearsIncrease(y, z - 1);
    }
  }

  lemma {:induction false} MonthsIncrease(y: int, m: int, n: int)
    requires 1 <= m <= n <= 13
    ensures DaysBeforeMonth(y, m) <= DaysBeforeMonth(y, n)
    ensures m < n ==> DaysBeforeMonth(y, m) + MonthLength(y, m) <= DaysBeforeMonth(y, n)
    decreases n
  {
    if m == n {
    } else {
      MonthsIncrease(y, m, n - 1);
    }
  }

  /** The year containing a day.  The estimate from the mean year length is
      never too small and at most one too large. */
  function YearOf(day: int): (y: int)
    ensures DaysBeforeYear(y) <= day < DaysBeforeYear(y + 1)
  {
    var guess := 400 * day / 146097 + 2;
    YearGuess(day);
    YearStep(guess - 1);
    YearStep(guess - 2);
    if day < DaysBeforeYear(guess - 1) then guess - 2
    else if day < DaysBeforeYear(guess) then guess - 1
    else guess
  }

  lemma YearGuess(day: int)
    ensures var y := 400 * day / 146097 + 2;
            DaysBeforeYear(y - 2) <= day < DaysBeforeYear(y + 1)
  {
    var y := 400 * day / 146097 + 2;
    assert 146097 * (y - 2) <= 400 * day < 146097 * (y - 1);
    LeapDayBounds(y - 2);
    LeapDayBounds(y + 1);
    ClosedForm(y - 2);
    ClosedForm(y + 1);
  }

  lemma LeapDayBounds(y: int)
    ensures 97 * (y - 1) - 699 <= 400 * LeapDaysBefore(y) <= 97 * (y - 1) + 396
  {
    var z := y - 1;
    assert 4 * (z / 4) <= z <= 4 * (z / 4) + 3;
    assert 100 * (z / 100) <= z <= 100 * (z / 100) + 99;
    assert 400 * (z / 400) <= z <= 400 * (z / 400) + 399;
  }

  function MonthFrom(y: int, dayOfYear: int, m: int): (r: int)
    requires 1 <= m <= 12
    requires DaysBeforeMonth(y, m) <= dayOfYear < DaysBeforeMonth(y, 13)
    ensures m <= r <= 12
    ensures DaysBeforeMonth(y, r) <= dayOfYear < DaysBeforeMonth(y, r + 1)
    decreases 12 - m
  {
    if dayOfYear < DaysBeforeMonth(y, m + 1) then m else MonthFrom(y, dayOfYear, m + 1)
  }

  /** The date of a day number: Go's Year, Month and Day. */
  function CivilOf(day: int): (c: Civil)
    ensures ValidDate(c) && DayNumber(c.year, c.month, c.day) == day
  {
    var y := YearOf(day);
    YearStep(y);
    YearTable(y);
    var rest := day - DaysBeforeYear(y);
    var m := MonthFrom(y, rest, 1);
    Civil(y, m, rest - DaysBeforeMonth(y, m) + 1)
  }

  lemma DateWithinYear(c: Civil)
    requires ValidDate(c)
    ensures DaysBeforeYear(c.year) <= DayNumber(c.year, c.month, c.day) < DaysBeforeYear(c.year + 1)
  {
    YearStep(c.year);
    YearTable(c.year);
    MonthsIncrease(c.year, c.month, 13);
    if c.month < 12 {
      MonthsIncrease(c.year, c.month + 1, 13);
    }
  }

  /** Dates are ordered as their day numbers are. */
  lemma DateOrder(a: Civil, b: Civil)
    requires ValidDate(a) && ValidDate(b)
    requires a.year < b.year || (a.year == b.year && (a.month < b.month || (a.month == b.month && a.day < b.day)))
    ensures DayNumber(a.year, a.month, a.day) < DayNumber(b.year, b.month, b.day)
  {
    if a.year < b.year {
      DateWithinYear(a);
      DateWithinYear(b);
      YearsIncrease(a.year + 1, b.year);
    } else if a.month < b.month {
      MonthsIncrease(a.year, a.month, b.month);
    }
  }

  /** CivilOf inverts DayNumber on every valid date. */
  lemma CivilRoundTrip(c: Civil)
    requires ValidDate(c)
    ensures CivilOf(DayNumber(c.year, c.month, c.day)) == c
  {
    var d := CivilOf(DayNumber(c.year, c.month, c.day));
    if d != c {
      if d.year < c.year || (d.year == c.year && (d.month < c.month || (d.month == c.month && d.day < c.day))) {
        DateOrder(d, c);
      } else {
        DateOrder(c, d);
      }
    }
  }

  /** Go's time.Date in UTC, in minutes: an out-of-range month carries into
      the year, and an out-of-range day, hour or minute carries by addition. */
  function Date(y: int, m: int, d: int, h: int, mi: int): int {
    DayNumber(y + (m - 1) / 12, (m - 1) % 12 + 1, d) * MINUTES_PER_DAY + h * 60 + mi
  }

  lemma DateInRange(y: int, m: int, d: int, h: int, mi: int)
    requires 1 <= m <= 12
    ensures Date(y, m, d, h, mi) == DayNumber(y, m, d) * MINUTES_PER_DAY + h * 60 + mi
  {
    assert (m - 1) / 12 == 0 && (m - 1) % 12 == m - 1;
  }

  function DayOf(x: int): int { x / MINUTES_PER_DAY }
  function CivilAt(x: int): Civil { CivilOf(DayOf(x)) }
  function HourOf(x: int): int { x % MINUTES_PER_DAY / 60 }
  function MinuteOf(x: int): int { x % 60 }

  /** 0 is Sunday; 1 January of year 1 was a Monday. */
  function Weekday(day: int): int { (day + 1) % 7 }

  /** Go's Time.AddDate in UTC. */
  function AddDate(x: int, years: int, months: int, days: int): int {
    var c := CivilAt(x);
    Date(c.year + years, c.month + months, c.day + days, HourOf(x), MinuteOf(x))
  }

  lemma SplitMinute(x: int)
    ensures x == 1440 * DayOf(x) + 60 * HourOf(x) + MinuteOf(x)
    ensures 0 <= HourOf(x) < 24 && 0 <= MinuteOf(x) < 60
  {
    var r := x % 1440;
    assert x == 60 * (24 * (x / 1440) + r / 60) + r % 60;
    assert x / 60 == 24 * (x / 1440) + r / 60;
  }

  lemma JoinMinute(day: int, h: int, mi: int)
    requires 0 <= h < 24 && 0 <= mi < 60
    ensures var x := 1440 * day + 60 * h + mi;
            DayOf(x) == day && HourOf(x) == h && MinuteOf(x) == mi
  {
    var x := 1440 * day + 60 * h + mi;
    assert x / 1440 == day;
    SplitMinute(x);
  }

  /** A minute number splits into its calendar fields and back. */
  lemma MinuteRoundTrip(x: int)
    ensures var c := CivilAt(x);
            Date(c.year, c.month, c.day, HourOf(x), MinuteOf(x)) == x
  {
    SplitMinute(x);
    var c := CivilAt(x);
    DateInRange(c.year, c.month, c.day, HourOf(x), MinuteOf(x));
  }

  /** Four years ahead is at most 1461 days ahead, the last being reached when
      29 February carries into 1 March. */
  lemma FourYears(x: int)
    ensures 1460 * MINUTES_PER_DAY <= AddDate(x, 4, 0, 0) - x <= 1461 * MINUTES_PER_DAY
  {
    var c := CivilAt(x);
    FourYearDays(c.year, c.month);
    SplitMinute(x);
    DateInRange(c.year + 4, c.month, c.day, HourOf(x), MinuteOf(x));
  }

  /** At most one of four consecutive years is a leap year. */
  lemma FourYearLengths(y: int)
    ensures 1460 <= YearLength(y) + YearLength(y + 1) + YearLength(y + 2) + YearLength(y + 3) <= 1461
  {
    LeapIsFourth(y);
    LeapIsFourth(y + 1);
    LeapIsFourth(y + 2);
    LeapIsFourth(y + 3);
    hide Leap;
  }

  /** One year in four is a multiple of four, and only it can be a leap year. */
  lemma LeapIsFourth(y: int)
    ensures Leap(y) ==> y % 4 == 0
    ensures (y + 1) % 4 == if y % 4 == 3 then 0 else y % 4 + 1
  {
  }

  lemma FourYearDays(y: int, m: int)
    requires 1 <= m <= 12
    ensures 1460 <= DayNumber(y + 4, m, 1) - DayNumber(y, m, 1) <= 1461
  {
    YearStep(y);
    YearStep(y + 1);
    YearStep(y + 2);
    YearStep(y + 3);
    LeapShift(y, m);
    FourYearLengths(y);
    FourYearLengths(y + 1);
    hide DaysBeforeYear, DaysBeforeMonth, YearLength;
  }

  lemma {:induction false} LeapShift(y: int, m: int)
    requires 1 <= m <= 12
    ensures DaysBeforeMonth(y + 4, m) - DaysBeforeMonth(y, m)
            == if m <= 2 then 0 else YearLength(y + 4) - YearLength(y)
    decreases m
  {
    if m == 1 {
    } else {
      LeapShift(y, m - 1);
    }
  }

  // ----- fixed points

  /** 1 January 1970 is day 719162, a Thursday, and each day is followed by the next weekday. */
  lemma Epoch(day: int)
    ensures DayNumber(1970, 1, 1) == 719162 && Weekday(719162) == 4
    ensures 0 <= Weekday(day) <= 6 && Weekday(day + 1) == if Weekday(day) == 6 then 0 else Weekday(day) + 1
  {
    ClosedForm(1970);
    MonthTable(1970, 1);
  }

  /** Where each month starts in its year. */
  lemma MonthTable(y: int, m: int)
    requires 1 <= m <= 12
    ensures DaysBeforeMonth(y, m)
         == [0, 31, 59, 90, 120, 151, 181, 212, 243, 273, 304, 334][m - 1] + if m > 2 && Leap(y) then 1 else 0
  {
    assert DaysBeforeMonth(y, 1) == 0 && DaysBeforeMonth(y, 2) == 31;
    var leap := if Leap(y) then 1 else 0;
    assert DaysBeforeMonth(y, 3) == 59 + leap && DaysBeforeMonth(y, 4) == 90 + leap;
    assert DaysBeforeMonth(y, 5) == 120 + leap && DaysBeforeMonth(y, 6) == 151 + leap;
    assert DaysBeforeMonth(y, 7) == 181 + leap && DaysBeforeMonth(y, 8) == 212 + leap;
    assert DaysBeforeMonth(y, 9) == 243 + leap && DaysBeforeMonth(y, 10) == 273 + leap;
    assert DaysBeforeMonth(y, 11) == 304 + leap && DaysBeforeMonth(y, 12) == 334 + leap;
  }

  /** Four years ahead is the same date and time, with 29 February carried into
      1 March where the year has none. */
  lemma FourYearsLater(x: int)
    ensures var c, y := CivilAt(x), AddDate(x, 4, 0, 0);
            && HourOf(y) == HourOf(x) && MinuteOf(y) == MinuteOf(x)
            && CivilAt(y) == if c.month == 2 && c.day == 29 && !Leap(c.year + 4) then Civil(c.year + 4, 3, 1)
                             else Civil(c.year + 4, c.month, c.day)
  {
    hide CivilOf, DayOf, HourOf, MinuteOf, DaysBeforeYear, Leap;
    var c := CivilAt(x);
    SplitMinute(x);
    DateInRange(c.year + 4, c.month, c.day, HourOf(x), MinuteOf(x));
    var day := DayNumber(c.year + 4, c.month, c.day);
    JoinMinute(day, HourOf(x), MinuteOf(x));
    if c.month == 2 && c.day == 29 && !Leap(c.year + 4) {
      MarchFirst(c.year + 4);
      CivilRoundTrip(Civil(c.year + 4, 3, 1));
    } else {
      CivilRoundTrip(Civil(c.year + 4, c.month, c.day));
    }
  }

  lemma MarchFirst(y: int)
    requires !Leap(y)
    ensures DayNumber(y, 2, 29) == DayNumber(y, 3, 1) && ValidDate(Civil(y, 3, 1))
  {
  }
}

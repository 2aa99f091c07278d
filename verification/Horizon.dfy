/** Which expressions always have a next fire: the search gives up four years
    ahead, so a day that few years have can make it return the zero time. */
module Horizon {
  import opened Text
  import opened Calendar
  import opened CronField
  import opened Cron
  import opened CronSearch

  /** The words of a parsed expression: every field set something in range,
      and no minute, hour or weekday is out of range. */
  ghost predicate ParsedWords(e: Expr) {
    && InField(e)
    && (exists m :: 1 <= m <= 12 && m in e.mons)
    && e.dows != {} && e.dows <= Interval(0, 6)
  }

  /** Some day named by the expression exists in every year: the weekday field
      takes part in the day rule, or the month and day fields meet on a date
      that common years have too. */
  ghost predicate FiresEveryYear(e: Expr) {
    || e.doms == Interval(1, 31)
    || e.dows != Interval(0, 6)
    || exists c :: InCommonYear(c) && c.month in e.mons && c.day in e.doms
  }

  predicate InCommonYear(c: Civil) { c.year == 2001 && ValidDate(c) }

  ghost predicate HasNext(e: Expr, t: int) {
    exists x :: After(t, x) && x < Limit(t) && Matches(e, x)
  }

  /** A date in the year after t lies between t and the limit. */
  lemma NextYearInWindow(t: int, c: Civil, h: int, mi: int)
    requires ValidDate(c) && c.year == CivilAt(FirstMinute(t)).year + 1 && 0 <= h < 24 && 0 <= mi < 60
    ensures var x := DayNumber(c.year, c.month, c.day) * MINUTES_PER_DAY + h * 60 + mi;
            After(t, x) && x < Limit(t)
            && CivilAt(x) == c && DayOf(x) == DayNumber(c.year, c.month, c.day) && HourOf(x) == h && MinuteOf(x) == mi
  {
    hide CivilOf, DaysBeforeYear, DaysBeforeMonth, MonthLength, Leap, DayOf, HourOf, MinuteOf;
    var first := FirstMinute(t);
    var a := CivilAt(first);
    var x := DayNumber(c.year, c.month, c.day) * MINUTES_PER_DAY + h * 60 + mi;
    DateOrder(a, c);
    SplitMinute(first);
    assert first < x;
    JoinMinute(DayNumber(c.year, c.month, c.day), h, mi);
    CivilRoundTrip(c);
    DateWithinYear(c);
    YearsIncrease(c.year + 1, a.year + 4);
    MonthsIncrease(a.year + 4, 1, a.month);
    MonthStart(a.year + 4);
    DateInRange(a.year + 4, a.month, a.day, HourOf(first), MinuteOf(first));
  }

  lemma MonthStart(y: int)
    ensures DaysBeforeMonth(y, 1) == 0
  {
  }

  /** Every month has each weekday in its first week. */
  lemma FirstWeek(y: int, m: int, w: int) returns (d: int)
    requires 1 <= m <= 12 && 0 <= w <= 6
    ensures 1 <= d <= 7 && Weekday(DayNumber(y, m, d)) == w
  {
    var first := DayNumber(y, m, 1);
    d := 1 + (w - Weekday(first)) % 7;
    WeekdayShift(first, w);
  }

  lemma WeekdayShift(day: int, w: int)
    requires 0 <= w <= 6
    ensures Weekday(day + (w - Weekday(day)) % 7) == w
  {
  }

  lemma WeekdayDayOK(e: Expr, day: int)
    requires e.doms == Interval(1, 31) || e.dows != Interval(0, 6)
    requires Weekday(day) in e.dows
    ensures DayOK(e, day)
  {
  }

  lemma DomDayOK(e: Expr, day: int)
    requires e.dows == Interval(0, 6) && CivilOf(day).day in e.doms
    ensures DayOK(e, day)
  {
  }

  lemma EarlyDayIsValid(y: int, m: int, d: int)
    requires 1 <= m <= 12 && (1 <= d <= 7 || 1 <= d <= MonthLength(2001, m))
    ensures ValidDate(Civil(y, m, d))
  {
  }

  /** A date of year y, in a month of the expression, whose day fires. */
  lemma FiringDate(e: Expr, y: int) returns (c: Civil)
    requires ParsedWords(e) && FiresEveryYear(e)
    ensures ValidDate(c) && c.year == y && c.month in e.mons && DayOK(e, DayNumber(c.year, c.month, c.day))
  {
    if e.doms == Interval(1, 31) || e.dows != Interval(0, 6) {
      c := FiringWeekday(e, y);
    } else {
      hide DayOK, CivilOf, MonthLength, DayNumber, InField;
      var b :| InCommonYear(b) && b.month in e.mons && b.day in e.doms;
      c := Civil(y, b.month, b.day);
      EarlyDayIsValid(y, b.month, b.day);
      CivilRoundTrip(c);
      DomDayOK(e, DayNumber(y, b.month, b.day));
    }
  }

  lemma FiringWeekday(e: Expr, y: int) returns (c: Civil)
    requires ParsedWords(e) && (e.doms == Interval(1, 31) || e.dows != Interval(0, 6))
    ensures ValidDate(c) && c.year == y && c.month in e.mons && DayOK(e, DayNumber(c.year, c.month, c.day))
  {
    hide DayOK, Weekday, DayNumber, MonthLength, InField;
    var m :| 1 <= m <= 12 && m in e.mons;
    var w :| w in e.dows;
    assert w in Interval(0, 6);
    var d := FirstWeek(y, m, w);
    c := Civil(y, m, d);
    EarlyDayIsValid(y, m, d);
    WeekdayDayOK(e, DayNumber(y, m, d));
  }

  lemma FiresInWindow(e: Expr, t: int)
    requires ParsedWords(e) && FiresEveryYear(e)
    ensures HasNext(e, t)
  {
    hide DayOK, DayNumber, CivilOf, FiresEveryYear, After, Limit;
    var h :| h in e.hours;
    var mi :| mi in e.mins;
    assert h in Interval(0, 23) && mi in Interval(0, 59);
    var c := FiringDate(e, CivilAt(FirstMinute(t)).year + 1);
    NextYearInWindow(t, c, h, mi);
    assert Matches(e, DayNumber(c.year, c.month, c.day) * MINUTES_PER_DAY + h * 60 + mi);
  }

  /** Just before 1 March 2096, from where the next 29 February is in 2104. */
  function BeforeMarch2096(): int { Date(2096, 3, 1, 0, 0) * NS_PER_MINUTE - 1 }

  lemma NothingUntil2100(e: Expr, x: int)
    requires !FiresEveryYear(e) && Date(2096, 3, 1, 0, 0) <= x < Date(2100, 3, 1, 0, 0)
    ensures !Matches(e, x)
  {
    var c := CivilAt(x);
    WindowYears(x);
    if Matches(e, x) {
      assert c.day in e.doms;
      LeapDayOnly(c);
      assert InCommonYear(Civil(2001, c.month, c.day));
    }
  }

  lemma LeapDayOnly(c: Civil)
    requires ValidDate(c)
    ensures ValidDate(Civil(2001, c.month, c.day)) || (Leap(c.year) && c.month == 2 && c.day == 29)
  {
  }

  lemma WindowYears(x: int)
    requires Date(2096, 3, 1, 0, 0) <= x < Date(2100, 3, 1, 0, 0)
    ensures var c := CivilAt(x);
            !(Leap(c.year) && c.month == 2 && c.day == 29)
  {
    hide CivilOf, DaysBeforeYear, DaysBeforeMonth, DayOf;
    DateInRange(2096, 3, 1, 0, 0);
    DateInRange(2100, 3, 1, 0, 0);
    SplitMinute(x);
    var c := CivilAt(x);
    if c.year > 2100 {
      DateOrder(Civil(2100, 3, 1), c);
    }
    if c.year < 2096 || (c.year == 2096 && c.month == 2) {
      DateOrder(c, Civil(2096, 3, 1));
    }
  }

  /** For a parsed expression, the search always finds a next fire exactly when
      the expression names a day that exists in every year. */
  lemma AlwaysFires(e: Expr)
    requires ParsedWords(e)
    ensures FiresEveryYear(e) <==> forall t :: t >= 0 ==> NextFire(e, t) != ZERO
    ensures FiresEveryYear(e) <==> forall t :: HasNext(e, t)
  {
    hide Matches, NextFire, FiresEveryYear, Limit, FirstMinute;
    if FiresEveryYear(e) {
      forall t ensures HasNext(e, t) && (t >= 0 ==> NextFire(e, t) != ZERO) {
        FiresInWindow(e, t);
        NextFireIsLeast(e, t);
      }
    } else {
      NoneAfterMarch2096(e);
      NextFireIsLeast(e, BeforeMarch2096());
    }
  }

  lemma NoneAfterMarch2096(e: Expr)
    requires !FiresEveryYear(e)
    ensures BeforeMarch2096() >= 0 && !HasNext(e, BeforeMarch2096())
  {
    hide Matches, FiresEveryYear, BeforeMarch2096, Limit, Date;
    var t := BeforeMarch2096();
    March2096();
    forall x | After(t, x) && x < Limit(t) ensures !Matches(e, x) {
      NothingUntil2100(e, x);
    }
  }

  lemma March2096()
    ensures BeforeMarch2096() >= 0
    ensures Limit(BeforeMarch2096()) == Date(2100, 3, 1, 0, 0)
    ensures forall x :: After(BeforeMarch2096(), x) <==> Date(2096, 3, 1, 0, 0) <= x
  {
    hide CivilOf, DayOf, HourOf, MinuteOf, DaysBeforeYear, DayNumber;
    var first := Date(2096, 3, 1, 0, 0);
    assert FirstMinute(BeforeMarch2096()) == first;
    DateInRange(2096, 3, 1, 0, 0);
    MarchIsLate();
    JoinMinute(DayNumber(2096, 3, 1), 0, 0);
    CivilRoundTrip(Civil(2096, 3, 1));
  }

  lemma MarchIsLate()
    ensures DayNumber(2096, 3, 1) >= 1
  {
    YearsIncrease(1, 2096);
    EarlyYears();
  }

  lemma EarlyYears()
    ensures DaysBeforeYear(1) == 0 && DaysBeforeMonth(2096, 3) == 60
  {
  }

  // ----- parsed expressions qualify

  lemma VisitsBounds(s: Span, lo: int, hi: int, v: int)
    requires 0 <= lo && hi < 64 && ValidSpan(s, lo, hi) && Visits(s, v)
    ensures 0 <= v <= hi && Visits(s, s.start)
  {
  }

  lemma MeansValid(part: string, lo: int, hi: int, s: Span)
    requires PartMeans(part, lo, hi, s)
    ensures ValidSpan(s, lo, hi)
  {
  }

  lemma FieldBounds(parts: seq<string>, lo: int, hi: int, v: int)
    requires 0 <= lo && hi < 64 && FieldSets(parts, lo, hi, v)
    ensures 0 <= v <= hi
    ensures exists u :: lo <= u <= hi && FieldSets(parts, lo, hi, u)
  {
    hide PartMeans, Visits;
    var i :| 0 <= i < |parts| && PartSets(parts[i], lo, hi, v);
    var s: Span :| PartMeans(parts[i], lo, hi, s) && s.step > 0 && Visits(s, v);
    MeansValid(parts[i], lo, hi, s);
    VisitsBounds(s, lo, hi, v);
    assert PartSets(parts[i], lo, hi, s.start);
    assert lo <= s.start <= hi && FieldSets(parts, lo, hi, s.start);
  }

  /** What Parse returns has parsed words, whatever overflow a step causes. */
  lemma ParsedHasParsedWords(e: Expr, fields: seq<string>)
    requires |fields| == 5 && forall i :: 0 <= i < 5 ==> Holds(Word(e, i), fields[i], i)
    ensures ParsedWords(e)
  {
    hide FieldSets, Split;
    forall i | 0 <= i < 5
      ensures Word(e, i) != {} && (forall v :: v in Word(e, i) ==> 0 <= v <= HIGH[i])
      ensures exists u :: LOW[i] <= u <= HIGH[i] && u in Word(e, i)
    {
      assert Holds(Word(e, i), fields[i], i);
      forall v | v in Word(e, i)
        ensures 0 <= v <= HIGH[i] && exists u :: LOW[i] <= u <= HIGH[i] && u in Word(e, i)
      {
        FieldBounds(Split(fields[i], ','), LOW[i], HIGH[i], v);
      }
      var w :| w in Word(e, i);
    }
    assert Word(e, 0) == e.mins && Word(e, 1) == e.hours && Word(e, 3) == e.mons && Word(e, 4) == e.dows;
  }
}

/** The next-fire search of a cron expression, which skips whole months, days,
    hours and minutes, against the naive search by the minute. */
module CronSearch {
  import opened Calendar
  import opened CronField
  import opened Cron

  const NS_PER_MINUTE := 60_000_000_000

  /** Go's zero time, which NextAfter returns for "no match". */
  const ZERO := 0

  /** The first minute strictly after an instant given in nanoseconds. */
  function FirstMinute(t: int): int { t / NS_PER_MINUTE + 1 }

  function Limit(t: int): int { AddDate(FirstMinute(t), 4, 0, 0) }

  /** The naive search, one minute at a time. */
  function Search(e: Expr, x: int, limit: int): int
    decreases limit - x
  {
    if x >= limit then ZERO else if Matches(e, x) then x else Search(e, x + 1, limit)
  }

  function NextFire(e: Expr, t: int): int {
    Search(e, FirstMinute(t), Limit(t))
  }

  lemma {:induction false} SearchSkips(e: Expr, a: int, b: int, limit: int)
    requires a <= b && forall x :: a <= x < b ==> !Matches(e, x)
    ensures Search(e, a, limit) == Search(e, b, limit)
    decreases b - a
  {
    hide Matches;
    if a == b {
    } else {
      assert !Matches(e, a);
      SearchSkips(e, a + 1, b, limit);
    }
  }

  /** What the naive search finds: the least matching minute before the limit,
      or the zero time exactly when there is none. */
  lemma {:induction false} SearchFindsLeast(e: Expr, a: int, limit: int)
    ensures (exists x :: a <= x < limit && Matches(e, x)) ==>
              var r := Search(e, a, limit);
              a <= r < limit && Matches(e, r) && forall x :: a <= x < r ==> !Matches(e, x)
    ensures !(exists x :: a <= x < limit && Matches(e, x)) ==> Search(e, a, limit) == ZERO
    decreases limit - a
  {
    hide Matches;
    if a >= limit || Matches(e, a) {
    } else {
      SearchFindsLeast(e, a + 1, limit);
    }
  }

  /** Minute x starts strictly after the instant t. */
  predicate After(t: int, x: int) { x * NS_PER_MINUTE > t }

  /** NextFire is the least matching minute after t and before the four-year
      limit, and the zero time when there is none. */
  lemma NextFireIsLeast(e: Expr, t: int)
    ensures var r := NextFire(e, t);
            if exists x :: After(t, x) && x < Limit(t) && Matches(e, x)
            then After(t, r) && r < Limit(t) && Matches(e, r) && forall x :: After(t, x) && x < r ==> !Matches(e, x)
            else r == ZERO
  {
    hide Matches, AddDate;
    assert forall x :: After(t, x) <==> FirstMinute(t) <= x;
    SearchFindsLeast(e, FirstMinute(t), Limit(t));
  }

  /** The same in nanoseconds. */
  lemma LeastMinute(e: Expr, t: int)
    ensures var r := NextFire(e, t);
            || (r == 0 && forall x :: x * 60_000_000_000 > t && x < Limit(t) ==> !Matches(e, x))
            || (r * 60_000_000_000 > t && r < Limit(t) && Matches(e, r)
                && forall x :: x * 60_000_000_000 > t && x < r ==> !Matches(e, x))
  {
    hide Matches, Limit, NextFire;
    NextFireIsLeast(e, t);
    assert forall x :: After(t, x) <==> x * 60_000_000_000 > t;
  }

  /** The limit: the date and time of the first minute after t, four years later. */
  lemma LimitIs(t: int)
    ensures var c, y := CivilAt(FirstMinute(t)), Limit(t);
            && HourOf(y) == HourOf(FirstMinute(t)) && MinuteOf(y) == MinuteOf(FirstMinute(t))
            && CivilAt(y) == if c.month == 2 && c.day == 29 && !Leap(c.year + 4) then Civil(c.year + 4, 3, 1)
                             else Civil(c.year + 4, c.month, c.day)
    ensures After(t, FirstMinute(t)) && !After(t, FirstMinute(t) - 1)
  {
    FourYearsLater(FirstMinute(t));
    hide CivilOf, DayOf, HourOf, MinuteOf, Date;
  }

  method AllBits(lo: int, hi: int) returns (b: Bitset)
    requires 0 <= lo <= hi < 64
    ensures b == Interval(lo, hi)
  {
    b := {};
    for v := lo to hi + 1
      invariant b == Interval(lo, v - 1)
    {
      b := SetBit(b, v);
    }
  }

  function FirstOfNextMonth(x: int): int {
    var c := CivilAt(x);
    Date(c.year, c.month + 1, 1, 0, 0)
  }

  function NextDay(x: int): int {
    var c := CivilAt(AddDate(x, 0, 0, 1));
    Date(c.year, c.month, c.day, 0, 0)
  }

  function NextHour(x: int): int {
    var y := x + 60;
    var c := CivilAt(y);
    Date(c.year, c.month, c.day, HourOf(y), 0)
  }

  // Each jump lands on the next boundary of its unit.

  lemma FirstOfNextMonthIs(x: int)
    ensures var c := CivilAt(x);
            var n := if c.month == 12 then Civil(c.year + 1, 1, 1) else Civil(c.year, c.month + 1, 1);
            ValidDate(n) && FirstOfNextMonth(x) == DayNumber(n.year, n.month, 1) * MINUTES_PER_DAY
            && DayOf(x) < DayNumber(n.year, n.month, 1)
  {
    var c := CivilAt(x);
    var n := if c.month == 12 then Civil(c.year + 1, 1, 1) else Civil(c.year, c.month + 1, 1);
    hide CivilOf, DayOf, DaysBeforeYear, DaysBeforeMonth;
    assert c.month / 12 == (if c.month == 12 then 1 else 0) && c.month % 12 == (if c.month == 12 then 0 else c.month);
    DateOrder(c, n);
  }

  lemma NextDayIs(x: int)
    ensures NextDay(x) == (DayOf(x) + 1) * MINUTES_PER_DAY
  {
    hide CivilOf, DayOf, HourOf, MinuteOf, Date, DaysBeforeYear, DaysBeforeMonth, MonthLength;
    var c := CivilAt(x);
    SplitMinute(x);
    DateInRange(c.year, c.month, c.day + 1, HourOf(x), MinuteOf(x));
    var y := AddDate(x, 0, 0, 1);
    assert y == 1440 * (DayOf(x) + 1) + 60 * HourOf(x) + MinuteOf(x);
    JoinMinute(DayOf(x) + 1, HourOf(x), MinuteOf(x));
    var d := CivilAt(y);
    DateInRange(d.year, d.month, d.day, 0, 0);
  }

  lemma MinuteCycle(x: int)
    ensures MinuteOf(x + 60) == MinuteOf(x)
  {
  }

  lemma NextHourIs(x: int)
    ensures NextHour(x) == x - MinuteOf(x) + 60
  {
    var y := x + 60;
    MinuteCycle(x);
    hide CivilOf, DayOf, HourOf, MinuteOf, Date, DaysBeforeYear, DaysBeforeMonth, MonthLength;
    SplitMinute(y);
    var c := CivilAt(y);
    DateInRange(c.year, c.month, c.day, HourOf(y), 0);
  }

  lemma SameMonth(x: int, z: int)
    requires x <= z < FirstOfNextMonth(x)
    ensures CivilAt(z).year == CivilAt(x).year && CivilAt(z).month == CivilAt(x).month
  {
    FirstOfNextMonthIs(x);
    hide CivilOf, DayOf, HourOf, MinuteOf, Date, DaysBeforeYear, DaysBeforeMonth, FirstOfNextMonth;
    var a, b := CivilAt(x), CivilAt(z);
    var n := if a.month == 12 then Civil(a.year + 1, 1, 1) else Civil(a.year, a.month + 1, 1);
    SplitMinute(x);
    SplitMinute(z);
    assert DayOf(x) <= DayOf(z) < DayNumber(n.year, n.month, 1);
    if b.year < a.year || (b.year == a.year && b.month < a.month) {
      DateOrder(b, a);
    } else if n.year < b.year || (n.year == b.year && n.month < b.month) {
      DateOrder(n, b);
    }
  }

  lemma SameDay(x: int, z: int)
    requires x <= z < (DayOf(x) + 1) * MINUTES_PER_DAY
    ensures DayOf(z) == DayOf(x)
  {
    SplitMinute(x);
    SplitMinute(z);
  }

  lemma SameHour(x: int, z: int)
    requires x <= z < x - MinuteOf(x) + 60
    ensures DayOf(z) == DayOf(x) && HourOf(z) == HourOf(x)
  {
    SplitMinute(x);
    var m := MinuteOf(x) + (z - x);
    JoinMinute(DayOf(x), HourOf(x), m);
  }

  predicate NoneIn(e: Expr, a: int, b: int) {
    forall x :: a <= x < b ==> !Matches(e, x)
  }

  lemma MonthSkip(e: Expr, x: int)
    requires CivilAt(x).month !in e.mons
    ensures x < FirstOfNextMonth(x) && NoneIn(e, x, FirstOfNextMonth(x))
  {
    FirstOfNextMonthIs(x);
    SplitMinute(x);
    forall z | x <= z < FirstOfNextMonth(x) ensures !Matches(e, z) {
      SameMonth(x, z);
    }
  }

  lemma DaySkip(e: Expr, x: int)
    requires !DayOK(e, DayOf(x))
    ensures x < NextDay(x) && NoneIn(e, x, NextDay(x))
  {
    NextDayIs(x);
    SplitMinute(x);
    forall z | x <= z < NextDay(x) ensures !Matches(e, z) {
      SameDay(x, z);
    }
  }

  lemma HourSkip(e: Expr, x: int)
    requires HourOf(x) !in e.hours
    ensures x < NextHour(x) && NoneIn(e, x, NextHour(x))
  {
    NextHourIs(x);
    SplitMinute(x);
    forall z | x <= z < NextHour(x) ensures !Matches(e, z) {
      SameHour(x, z);
    }
  }

  lemma MinuteSkip(e: Expr, x: int)
    requires MinuteOf(x) !in e.mins
    ensures NoneIn(e, x, x + 1)
  {
  }

  // ----- how many jumps the search can make

  /** Minute and hour words as Parse leaves them: not empty, inside their field. */
  predicate InField(e: Expr) {
    e.mins != {} && e.mins <= Interval(0, 59) && e.hours != {} && e.hours <= Interval(0, 23)
  }

  predicate DayFires(e: Expr, x: int) {
    CivilAt(x).month in e.mons && DayOK(e, DayOf(x))
  }

  predicate SomeFrom(b: Bitset, v: int) {
    exists w :: w in b && v <= w
  }

  function DaysLeft(x: int, limit: int): int {
    if x < limit then DayOf(limit) - DayOf(x) + 1 else 0
  }

  /** An upper bound on the jumps left.  A firing day, reached at the start of
      an hour with a matching hour to come, or inside a matching hour with a
      matching minute to come, ends the search. */
  function JumpsLeft(e: Expr, x: int, limit: int): int {
    var h, m := HourOf(x), MinuteOf(x);
    Bound(DaysLeft(x, limit), h, m, DayFires(e, x), h in e.hours && SomeFrom(e.mins, m), SomeFrom(e.hours, h))
  }

  function Bound(days: int, h: int, m: int, dayFires: bool, inHour: bool, hourToCome: bool): int {
    if dayFires && inHour then 60 - m
    else if dayFires && m == 0 && hourToCome then 85 - h
    else if m == 0 then days + 86 + (if h == 0 then 0 else 24 - h)
    else days + 170 - m
  }

  lemma LaterDays(x: int, y: int, limit: int)
    requires x < y
    ensures DayOf(x) <= DayOf(y) && DaysLeft(y, limit) <= DaysLeft(x, limit)
    ensures x < limit && DayOf(x) < DayOf(y) ==> DaysLeft(y, limit) < DaysLeft(x, limit)
  {
    SplitMinute(x);
    SplitMinute(y);
    SplitMinute(limit);
  }

  lemma AtMidnight(day: int)
    ensures DayOf(day * MINUTES_PER_DAY) == day && HourOf(day * MINUTES_PER_DAY) == 0 &&
      MinuteOf(day * MINUTES_PER_DAY) == 0
  {
    JoinMinute(day, 0, 0);
  }

  /** A jump to a later midnight. */
  lemma MidnightJump(e: Expr, x: int, day: int, limit: int)
    requires x < limit && DayOf(x) < day && !DayFires(e, x)
    ensures JumpsLeft(e, day * MINUTES_PER_DAY, limit) < JumpsLeft(e, x, limit)
  {
    hide DayFires, SomeFrom, DayOf, HourOf, MinuteOf;
    AtMidnight(day);
    SplitMinute(x);
    SplitMinute(day * MINUTES_PER_DAY);
    LaterDays(x, day * MINUTES_PER_DAY, limit);
    SplitMinute(limit);
    hide DaysLeft;
  }

  lemma NextHourFields(x: int)
    ensures var y := x - MinuteOf(x) + 60;
            MinuteOf(y) == 0 &&
            if HourOf(x) < 23 then DayOf(y) == DayOf(x) && HourOf(y) == HourOf(x) + 1
            else DayOf(y) == DayOf(x) + 1 && HourOf(y) == 0
  {
    SplitMinute(x);
    if HourOf(x) < 23 {
      JoinMinute(DayOf(x), HourOf(x) + 1, 0);
    } else {
      JoinMinute(DayOf(x) + 1, 0, 0);
    }
  }

  lemma NextMinuteFields(x: int)
    requires MinuteOf(x) < 59
    ensures DayOf(x + 1) == DayOf(x) && HourOf(x + 1) == HourOf(x) && MinuteOf(x + 1) == MinuteOf(x) + 1
  {
    SplitMinute(x);
    JoinMinute(DayOf(x), HourOf(x), MinuteOf(x) + 1);
  }

  lemma SomeFromStep(b: Bitset, v: int)
    requires v !in b
    ensures SomeFrom(b, v) <==> SomeFrom(b, v + 1)
  {
  }

  lemma SomeFromEnds(b: Bitset, hi: int)
    requires b != {} && b <= Interval(0, hi) && hi !in b
    ensures SomeFrom(b, 0) && !SomeFrom(b, hi)
  {
    var w :| w in b;
    assert w in Interval(0, hi);
    assert forall u :: u in b ==> u in Interval(0, hi);
  }

  lemma SomeFromStart(b: Bitset, hi: int)
    requires b != {} && b <= Interval(0, hi)
    ensures SomeFrom(b, 0)
  {
    var w :| w in b;
    assert w in Interval(0, hi);
  }

  lemma DaysLeftPositive(x: int, limit: int)
    requires x < limit
    ensures DaysLeft(x, limit) >= 1
  {
    SplitMinute(x);
    SplitMinute(limit);
  }

  lemma SameDayFires(e: Expr, x: int, y: int)
    requires DayOf(x) == DayOf(y)
    ensures DayFires(e, x) == DayFires(e, y)
  {
  }

  lemma HourJump(e: Expr, x: int, limit: int)
    requires InField(e) && x < limit && DayFires(e, x) && HourOf(x) !in e.hours
    ensures JumpsLeft(e, x - MinuteOf(x) + 60, limit) < JumpsLeft(e, x, limit)
  {
    hide DayFires, DayOf, HourOf, MinuteOf, DaysLeft, Interval;
    var y, h := x - MinuteOf(x) + 60, HourOf(x);
    SplitMinute(x);
    NextHourFields(x);
    LaterDays(x, y, limit);
    DaysLeftPositive(x, limit);
    SomeFromStart(e.hours, 23);
    SomeFromStep(e.hours, h);
    if h == 23 {
      SomeFromEnds(e.hours, 23);
    } else {
      SameDayFires(e, x, y);
      assert h + 1 in e.hours ==> SomeFrom(e.hours, h + 1);
    }
  }

  lemma MinuteJump(e: Expr, x: int, limit: int)
    requires InField(e) && x < limit && DayFires(e, x) && HourOf(x) in e.hours && MinuteOf(x) !in e.mins
    ensures JumpsLeft(e, x + 1, limit) < JumpsLeft(e, x, limit)
  {
    hide DayFires, DayOf, HourOf, MinuteOf, DaysLeft, Interval;
    var m := MinuteOf(x);
    SplitMinute(x);
    LaterDays(x, x + 1, limit);
    DaysLeftPositive(x, limit);
    SomeFromStart(e.mins, 59);
    SomeFromStep(e.mins, m);
    if m < 59 {
      NextMinuteFields(x);
      SameDayFires(e, x, x + 1);
    } else {
      NextHourFields(x);
      SomeFromEnds(e.mins, 59);
    }
  }

  lemma FirstJumps(e: Expr, x: int)
    ensures JumpsLeft(e, x, AddDate(x, 4, 0, 0)) <= 1632
  {
    var limit := AddDate(x, 4, 0, 0);
    FourYears(x);
    SplitMinute(x);
    SplitMinute(limit);
    hide DayFires, DayOf, HourOf, MinuteOf;
  }

  lemma JumpsLeftPositive(e: Expr, x: int, limit: int)
    ensures JumpsLeft(e, x, limit) > 0
  {
    SplitMinute(x);
    SplitMinute(limit);
  }

  /** A jump of the search: forward, over minutes that do not match, with one
      jump fewer left. */
  predicate Jump(e: Expr, x: int, y: int, limit: int) {
    && x < y
    && Search(e, x, limit) == Search(e, y, limit)
    && (InField(e) ==> JumpsLeft(e, y, limit) < JumpsLeft(e, x, limit))
  }

  lemma MonthJump(e: Expr, x: int, limit: int)
    requires x < limit && CivilAt(x).month !in e.mons
    ensures Jump(e, x, FirstOfNextMonth(x), limit)
  {
    FirstOfNextMonthIs(x);
    var c := CivilAt(x);
    var n := if c.month == 12 then Civil(c.year + 1, 1, 1) else Civil(c.year, c.month + 1, 1);
    hide JumpsLeft, Search, FirstOfNextMonth;
    MonthSkip(e, x);
    SearchSkips(e, x, FirstOfNextMonth(x), limit);
    MidnightJump(e, x, DayNumber(n.year, n.month, 1), limit);
  }

  lemma DayJump(e: Expr, x: int, limit: int)
    requires x < limit && !DayOK(e, DayOf(x))
    ensures Jump(e, x, NextDay(x), limit)
  {
    NextDayIs(x);
    hide JumpsLeft, Search, NextDay, DayOK, DayOf, Matches, InField;
    DaySkip(e, x);
    SearchSkips(e, x, NextDay(x), limit);
    MidnightJump(e, x, DayOf(x) + 1, limit);
  }

  lemma HourOrMinuteJump(e: Expr, x: int, limit: int)
    requires x < limit && CivilAt(x).month in e.mons && DayOK(e, DayOf(x))
    ensures HourOf(x) !in e.hours ==> Jump(e, x, NextHour(x), limit)
    ensures HourOf(x) in e.hours && MinuteOf(x) !in e.mins ==> Jump(e, x, x + 1, limit)
  {
    assert DayFires(e, x);
    HourAndMinuteJumps(e, x, limit);
  }

  lemma HourAndMinuteJumps(e: Expr, x: int, limit: int)
    requires x < limit && DayFires(e, x)
    ensures HourOf(x) !in e.hours ==> Jump(e, x, NextHour(x), limit)
    ensures HourOf(x) in e.hours && MinuteOf(x) !in e.mins ==> Jump(e, x, x + 1, limit)
  {
    hide JumpsLeft, Search, NextHour, InField, DayFires, HourOf, MinuteOf, Matches;
    NextHourIs(x);
    if HourOf(x) !in e.hours {
      HourSkip(e, x);
      SearchSkips(e, x, NextHour(x), limit);
      if InField(e) {
        HourJump(e, x, limit);
      }
    } else if MinuteOf(x) !in e.mins {
      MinuteSkip(e, x);
      SearchSkips(e, x, x + 1, limit);
      if InField(e) {
        MinuteJump(e, x, limit);
      }
    }
  }

  method DayAllows(e: Expr, day: int) returns (dayOK: bool)
    ensures dayOK == DayOK(e, day)
  {
    var dom := CivilOf(day).day;
    var dow := Weekday(day);
    var allDoms := AllBits(1, 31);
    var allDows := AllBits(0, 6);
    var domStar := e.doms == allDoms;
    var dowStar := e.dows == allDows;
    dayOK := true;
    if !domStar && !dowStar {
      dayOK := dom in e.doms || dow in e.dows;
    } else if !domStar {
      dayOK := dom in e.doms;
    } else if !dowStar {
      dayOK := dow in e.dows;
    }
  }

  /** The code's search returns what the naive search returns, for every
      expression and instant, and for a parsed expression it makes at most
      1632 jumps. */
  method NextAfter(e: Expr, t: int) returns (r: int, ghost jumps: nat)
    ensures r == NextFire(e, t)
    ensures || (r == 0 && forall x :: x * 60_000_000_000 > t && x < Limit(t) ==> !Matches(e, x))
            || (r * 60_000_000_000 > t && r < Limit(t) && Matches(e, r)
                && forall x :: x * 60_000_000_000 > t && x < r ==> !Matches(e, x))
    ensures InField(e) ==> jumps <= 1632
  {
    hide *;
    LeastMinute(e, t);
    var cand := FirstMinute(t);
    var limit := AddDate(cand, 4, 0, 0);
    jumps := 0;
    FirstJumps(e, cand);
    NextFireIs(e, t);
    while cand < limit
      invariant Search(e, cand, limit) == NextFire(e, t)
      invariant InField(e) ==> jumps + JumpsLeft(e, cand, limit) <= 1632
      decreases limit - cand
    {
      if CivilAt(cand).month !in e.mons {
        MonthJump(e, cand, limit);
        JumpKeeps(e, cand, FirstOfNextMonth(cand), limit);
        cand := FirstOfNextMonth(cand);
        jumps := jumps + 1;
        continue;
      }
      var dayOK := DayAllows(e, DayOf(cand));
      if !dayOK {
        DayJump(e, cand, limit);
        JumpKeeps(e, cand, NextDay(cand), limit);
        cand := NextDay(cand);
        jumps := jumps + 1;
        continue;
      }
      HourOrMinuteJump(e, cand, limit);
      if HourOf(cand) !in e.hours {
        JumpKeeps(e, cand, NextHour(cand), limit);
        cand := NextHour(cand);
        jumps := jumps + 1;
        continue;
      }
      if MinuteOf(cand) !in e.mins {
        JumpKeeps(e, cand, cand + 1, limit);
        cand := cand + 1;
        jumps := jumps + 1;
        continue;
      }
      JumpsLeftPositive(e, cand, limit);
      SearchHits(e, cand, limit);
      return cand, jumps;
    }
    JumpsLeftPositive(e, cand, limit);
    SearchEnds(e, cand, limit);
    return ZERO, jumps;
  }

  lemma JumpKeeps(e: Expr, x: int, y: int, limit: int)
    requires Jump(e, x, y, limit)
    ensures x < y
    ensures Search(e, x, limit) == Search(e, y, limit)
    ensures InField(e) ==> JumpsLeft(e, y, limit) < JumpsLeft(e, x, limit)
  {
  }

  lemma SearchHits(e: Expr, x: int, limit: int)
    requires x < limit && CivilAt(x).month in e.mons && DayOK(e, DayOf(x)) && HourOf(x) in e.hours &&
      MinuteOf(x) in e.mins
    ensures Search(e, x, limit) == x
  {
  }

  lemma SearchEnds(e: Expr, x: int, limit: int)
    requires x >= limit
    ensures Search(e, x, limit) == ZERO
  {
  }

  lemma NextFireIs(e: Expr, t: int)
    ensures NextFire(e, t) == Search(e, FirstMinute(t), AddDate(FirstMinute(t), 4, 0, 0))
  {
  }
}

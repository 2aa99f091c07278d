/** Cron expressions: parsing the five fields, and what it means for a UTC
    minute to match. */
module Cron {
  import opened Text
  import opened Calendar
  import opened CronField

  datatype Expr = Expr(raw: string, mins: Bitset, hours: Bitset, doms: Bitset, mons: Bitset, dows: Bitset)

  const LOW: seq<int> := [0, 0, 1, 1, 0]
  const HIGH: seq<int> := [59, 23, 31, 12, 6]

  function Word(e: Expr, i: nat): Bitset
    requires i < 5
  {
    [e.mins, e.hours, e.doms, e.mons, e.dows][i]
  }

  ghost predicate Parses(s: string) {
    var fields := Fields(s);
    |fields| == 5 && forall i :: 0 <= i < 5 ==> Accepts(fields[i], LOW[i], HIGH[i])
  }

  /** The i-th word holds what the i-th field sets. */
  ghost predicate Holds(b: Bitset, field: string, i: nat)
    requires i < 5
  {
    b != {} && forall v :: v in b <==> FieldSets(Split(field, ','), LOW[i], HIGH[i], v)
  }

  method Parse(s: string) returns (r: Option<Expr>)
    ensures r.Some? <==> Parses(s)
    ensures r.Some? ==> r.value.raw == s && forall i :: 0 <= i < 5 ==> Holds(Word(r.value, i), Fields(s)[i], i)
  {
    hide Accepts, FieldSets, Fields;
    var fields := Fields(s);
    if |fields| != 5 {
      return None;
    }
    var words: seq<Bitset> := [];
    for i := 0 to 5
      invariant |words| == i
      invariant forall j :: 0 <= j < i ==> Accepts(fields[j], LOW[j], HIGH[j]) && Holds(words[j], fields[j], j)
    {
      var bits := ParseField(fields[i], LOW[i], HIGH[i]);
      if bits.None? {
        return None;
      }
      words := words + [bits.value];
    }
    var e := Expr(s, words[0], words[1], words[2], words[3], words[4]);
    assert forall i :: 0 <= i < 5 ==> Word(e, i) == words[i];
    return Some(e);
  }

  /** Five value lists, printed with commas and joined by spaces. */
  function Printed(lists: seq<seq<nat>>): string
    requires |lists| == 5 && forall i :: 0 <= i < 5 ==> lists[i] != []
  {
    Join(seq(5, i requires 0 <= i < 5 => Join(PrintValues(lists[i]), ',')), ' ')
  }

  lemma PrintedFields(lists: seq<seq<nat>>)
    requires |lists| == 5 && forall i :: 0 <= i < 5 ==> lists[i] != []
    ensures |Fields(Printed(lists))| == 5
    ensures forall i :: 0 <= i < 5 ==> Fields(Printed(lists))[i] == Join(PrintValues(lists[i]), ',')
  {
    var texts := seq(5, i requires 0 <= i < 5 => Join(PrintValues(lists[i]), ','));
    forall i | 0 <= i < 5 ensures texts[i] != "" && SpaceFree(texts[i]) {
      PrintedSpaceFree(lists[i]);
    }
    FieldsJoin(texts);
  }

  /** The values a list prints lie in the bounds of its field: minutes, hours, days
      of the month, months and weekdays from Sunday. */
  predicate InBounds(lists: seq<seq<nat>>)
    requires |lists| == 5
  {
    && AllWithin(lists[0], 0, 59) && AllWithin(lists[1], 0, 23) && AllWithin(lists[2], 1, 31)
    && AllWithin(lists[3], 1, 12) && AllWithin(lists[4], 0, 6)
  }

  /** Printed lists parse exactly when each is in the bounds of its field. */
  lemma PrintedParses(lists: seq<seq<nat>>)
    requires |lists| == 5 && forall i :: 0 <= i < 5 ==> lists[i] != []
    ensures Parses(Printed(lists)) <==> InBounds(lists)
  {
    PrintedFields(lists);
    hide Fields, Join, Accepts, AllWithin;
    PrintedAcceptedExactly(lists[0], 0, 59);
    PrintedAcceptedExactly(lists[1], 0, 23);
    PrintedAcceptedExactly(lists[2], 1, 31);
    PrintedAcceptedExactly(lists[3], 1, 12);
    PrintedAcceptedExactly(lists[4], 0, 6);
  }

  /** Five printed value lists joined by spaces parse, to those values. */
  lemma PrintedExprReadsBack(lists: seq<seq<nat>>)
    requires |lists| == 5 && (forall i :: 0 <= i < 5 ==> lists[i] != []) && InBounds(lists)
    ensures Parses(Printed(lists)) && |Fields(Printed(lists))| == 5
    ensures forall i :: 0 <= i < 5 ==>
              forall v :: FieldSets(Split(Fields(Printed(lists))[i], ','), LOW[i], HIGH[i], v) <==> v in lists[i]
  {
    PrintedFields(lists);
    PrintedParses(lists);
    hide Fields, Join, FieldSets, Accepts, Printed, AllWithin, Split;
    forall i | 0 <= i < 5
      ensures forall v :: FieldSets(Split(Fields(Printed(lists))[i], ','), LOW[i], HIGH[i], v) <==> v in lists[i]
    {
      BoundsAt(lists, i);
      PrintedFieldReadsBack(lists[i], LOW[i], HIGH[i]);
    }
  }

  lemma BoundsAt(lists: seq<seq<nat>>, i: nat)
    requires |lists| == 5 && InBounds(lists) && i < 5
    ensures AllWithin(lists[i], LOW[i], HIGH[i]) && 0 <= LOW[i] <= HIGH[i] < 64
  {
    hide AllWithin;
  }

  lemma {:induction false} PrintedSpaceFree(values: seq<nat>)
    requires values != []
    ensures Join(PrintValues(values), ',') != "" && SpaceFree(Join(PrintValues(values), ','))
  {
    var texts := PrintValues(values);
    if |values| == 1 {
    } else {
      assert texts[1..] == PrintValues(values[1..]);
      PrintedSpaceFree(values[1..]);
    }
  }

  // ----- matching one minute

  function Interval(lo: int, hi: int): (b: set<int>)
    ensures forall v :: v in b <==> lo <= v <= hi
    decreases hi - lo
  {
    if lo > hi then {} else Interval(lo, hi - 1) + {hi}
  }

  /** The code's day rule, with "star" decided by set equality. */
  predicate DayOK(e: Expr, day: int) {
    var domStar := e.doms == Interval(1, 31);
    var dowStar := e.dows == Interval(0, 6);
    var dom := CivilOf(day).day;
    var dow := Weekday(day);
    if !domStar && !dowStar then dom in e.doms || dow in e.dows
    else if !domStar then dom in e.doms
    else if !dowStar then dow in e.dows
    else true
  }

  /** The minute fires: month, day rule, hour and minute all agree. */
  predicate Matches(e: Expr, x: int) {
    && CivilAt(x).month in e.mons
    && DayOK(e, DayOf(x))
    && HourOf(x) in e.hours
    && MinuteOf(x) in e.mins
  }

  /** The "either day field" rule of crontab: a day fires when each restricted
      day field allows it, or, when both are restricted, when either does. */
  lemma DayRule(e: Expr, day: int)
    ensures var inDom, inDow := CivilOf(day).day in e.doms, Weekday(day) in e.dows;
            DayOK(e, day) <==>
            if e.doms == Interval(1, 31) || e.dows == Interval(0, 6) then inDom && inDow else inDom || inDow
  {
    var c := CivilOf(day);
    assert c.day in Interval(1, 31) && Weekday(day) in Interval(0, 6);
  }
}

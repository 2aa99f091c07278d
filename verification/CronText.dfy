/** The expression of a text, as a function, and a text whose search can fail. */
module CronText {
  import opened Text
  import opened Cron
  import opened Horizon
  import CronField
  import Calendar

  ghost predicate IsParse(s: string, e: Expr) {
    Parses(s) && e.raw == s && forall i :: 0 <= i < 5 ==> Holds(Word(e, i), Fields(s)[i], i)
  }

  /** A string parses to at most one expression. */
  lemma ParseUnique(s: string, d: Expr, e: Expr)
    requires IsParse(s, d) && IsParse(s, e)
    ensures d == e
  {
    hide Fields, CronField.Accepts;
    forall i | 0 <= i < 5 ensures Word(d, i) == Word(e, i) {
      SameWord(Word(d, i), Word(e, i), Fields(s)[i], i);
    }
    assert Word(d, 0) == d.mins && Word(e, 0) == e.mins && Word(d, 1) == d.hours && Word(e, 1) == e.hours;
    assert Word(d, 2) == d.doms && Word(e, 2) == e.doms && Word(d, 3) == d.mons && Word(e, 3) == e.mons;
    assert Word(d, 4) == d.dows && Word(e, 4) == e.dows;
  }

  lemma SameWord(b: set<int>, c: set<int>, field: string, i: nat)
    requires i < 5 && (forall v :: v in b ==> 0 <= v < 64) && (forall v :: v in c ==> 0 <= v < 64)
    requires Holds(b, field, i) && Holds(c, field, i)
    ensures b == c
  {
    hide CronField.FieldSets, Split;
    assert forall v :: v in b <==> v in c;
  }

  ghost function ExprOf(s: string): (r: Option<Expr>)
    ensures r.Some? ==> IsParse(s, r.value)
  {
    if exists e :: IsParse(s, e) then var e :| IsParse(s, e); Some(e) else None
  }

  /** The word of an accepted field. */
  lemma FieldHasWord(field: string, i: nat) returns (b: CronField.Bitset)
    requires i < 5 && CronField.Accepts(field, LOW[i], HIGH[i])
    ensures Holds(b, field, i)
  {
    hide CronField.PartMeans, CronField.Visits, Split;
    var lo, hi := LOW[i], HIGH[i];
    var parts := Split(field, ',');
    b := set v | 0 <= v < 64 && CronField.FieldSets(parts, lo, hi, v);
    assert CronField.WellFormed(parts[0], lo, hi);
    var s :| CronField.PartMeans(parts[0], lo, hi, s);
    MeansValid(parts[0], lo, hi, s);
    CronField.StartVisited(s, lo, hi);
    assert CronField.PartSets(parts[0], lo, hi, s.start);
    assert s.start in b;
    forall v | CronField.FieldSets(parts, lo, hi, v) ensures 0 <= v < 64 {
      FieldBounds(parts, lo, hi, v);
    }
  }

  /** Exactly the strings of the grammar have an expression. */
  lemma ExprExactly(s: string)
    ensures ExprOf(s).Some? <==> Parses(s)
  {
    hide CronField.Accepts, Fields, Holds;
    if Parses(s) {
      var fields := Fields(s);
      var w0 := FieldHasWord(fields[0], 0);
      var w1 := FieldHasWord(fields[1], 1);
      var w2 := FieldHasWord(fields[2], 2);
      var w3 := FieldHasWord(fields[3], 3);
      var w4 := FieldHasWord(fields[4], 4);
      var e := Expr(s, w0, w1, w2, w3, w4);
      assert Word(e, 0) == w0 && Word(e, 1) == w1 && Word(e, 2) == w2 && Word(e, 3) == w3 && Word(e, 4) == w4;
      assert IsParse(s, e);
    }
  }

  lemma OneValue(v: nat, lo: int, hi: int)
    requires 0 <= lo <= v <= hi < 64
    ensures CronField.Accepts(Itoa(v), lo, hi)
    ensures forall u :: CronField.FieldSets(Split(Itoa(v), ','), lo, hi, u) <==> u == v
  {
    hide CronField.Accepts, CronField.FieldSets, Itoa;
    var values: seq<nat> := [v];
    CronField.PrintedFieldReadsBack(values, lo, hi);
    assert Join(CronField.PrintValues(values), ',') == Itoa(v);
  }

  lemma StarField(lo: int, hi: int)
    requires 0 <= lo <= hi < 64
    ensures CronField.Accepts("*", lo, hi)
    ensures forall u :: CronField.FieldSets(Split("*", ','), lo, hi, u) <==> lo <= u <= hi
  {
    assert Split("*", ',') == ["*"];
    var s := CronField.Span(lo, hi, 1);
    var star := CronField.Part(CronField.Star, None);
    assert CronField.ShowPart(star) == "*" && CronField.Denotes(star, lo, hi, s);
    assert CronField.PartMeans("*", lo, hi, s);
    CronField.ReadPartIsGrammar("*", lo, hi, s);
    forall t | CronField.PartMeans("*", lo, hi, t) ensures t == s {
      CronField.ReadPartIsGrammar("*", lo, hi, t);
    }
    StarVisits(lo, hi);
    hide CronField.PartMeans, CronField.Visits;
    var parts := Split("*", ',');
    forall u ensures CronField.FieldSets(parts, lo, hi, u) <==> lo <= u <= hi {
      assert parts[0] == "*";
      assert CronField.PartSets("*", lo, hi, u) <==> CronField.Visits(s, u);
    }
  }

  lemma StarVisits(lo: int, hi: int)
    requires 0 <= lo <= hi < 64
    ensures forall u :: CronField.Visits(CronField.Span(lo, hi, 1), u) <==> lo <= u <= hi
  {
  }

  lemma LeapDayNumbers()
    ensures Itoa(0) == "0" && Itoa(29) == "29" && Itoa(2) == "2"
  {
    assert Itoa(29) == Itoa(2) + "9";
  }

  lemma JoinCons(first: string, rest: seq<string>)
    requires rest != []
    ensures Join([first] + rest, ' ') == first + [' '] + Join(rest, ' ')
  {
    assert ([first] + rest)[1..] == rest;
  }

  lemma LeapDayJoin()
    ensures Join(["0", "0", "29", "2", "*"], ' ') == "0 0 29 2 *"
  {
    hide Join;
    JoinCons("0", ["0", "29", "2", "*"]);
    JoinCons("0", ["29", "2", "*"]);
    JoinCons("29", ["2", "*"]);
    JoinCons("2", ["*"]);
    assert ["0"] + ["0", "29", "2", "*"] == ["0", "0", "29", "2", "*"] &&
      ["0"] + ["29", "2", "*"] == ["0", "29", "2", "*"];
    assert ["29"] + ["2", "*"] == ["29", "2", "*"] && ["2"] + ["*"] == ["2", "*"];
    JoinStar();
  }

  lemma JoinStar()
    ensures Join(["*"], ' ') == "*"
  {
  }

  lemma LeapDayFields()
    ensures Fields("0 0 29 2 *") == [Itoa(0), Itoa(0), Itoa(29), Itoa(2), "*"]
  {
    hide Fields, Itoa, Join;
    LeapDayNumbers();
    LeapDayJoin();
    FieldsJoin(["0", "0", "29", "2", "*"]);
  }

  /** A text whose search fails for some instants: midnight on 29 February. */
  lemma LeapDayText()
    ensures var r := ExprOf("0 0 29 2 *");
            r.Some? && ParsedWords(r.value) && !FiresEveryYear(r.value)
  {
    hide CronField.Accepts, CronField.FieldSets, Fields, Itoa, Split, ParsedWords;
    var s := "0 0 29 2 *";
    LeapDayFields();
    OneValue(0, 0, 59);
    OneValue(0, 0, 23);
    OneValue(29, 1, 31);
    OneValue(2, 1, 12);
    StarField(0, 6);
    assert Parses(s);
    ExprExactly(s);
    var e := ExprOf(s).value;
    ParsedWordsOf(s, e);
    LeapDayWords(e, s);
  }

  lemma LeapDayWords(e: Expr, s: string)
    requires IsParse(s, e) && Fields(s) == [Itoa(0), Itoa(0), Itoa(29), Itoa(2), "*"]
    ensures !FiresEveryYear(e)
  {
    hide CronField.Accepts, CronField.FieldSets, Fields, Itoa, Split;
    OneValue(29, 1, 31);
    OneValue(2, 1, 12);
    StarField(0, 6);
    assert Holds(Word(e, 2), Itoa(29), 2) && Holds(Word(e, 3), Itoa(2), 3) && Holds(Word(e, 4), "*", 4);
    assert (forall v :: v in e.doms <==> v == 29) && (forall v :: v in e.mons <==> v == 2);
    assert forall v :: v in e.dows <==> 0 <= v <= 6;
    assert e.dows == Interval(0, 6) && 1 in Interval(1, 31);
    assert Calendar.MonthLength(2001, 2) == 28;
  }

  method ParseExpr(s: string) returns (r: Option<Expr>)
    ensures r == ExprOf(s)
  {
    hide Parses, Holds, Fields;
    r := Parse(s);
    if r.Some? {
      assert IsParse(s, r.value);
      ParseUnique(s, r.value, ExprOf(s).value);
    }
  }

  lemma ParsedWordsOf(s: string, e: Expr)
    requires ExprOf(s) == Some(e)
    ensures ParsedWords(e)
  {
    hide Fields, Holds, ParsedWords;
    ParsedHasParsedWords(e, Fields(s));
  }

  predicate Covers(values: seq<nat>, lo: int, hi: int) {
    forall v :: lo <= v <= hi ==> v in values
  }

  lemma PrintedWord(lists: seq<seq<nat>>, e: Expr, i: nat, v: int)
    requires |lists| == 5 && (forall i :: 0 <= i < 5 ==> lists[i] != []) && InBounds(lists)
    requires IsParse(Printed(lists), e) && i < 5
    ensures v in Word(e, i) <==> v in lists[i]
  {
    hide Fields, CronField.FieldSets, Split, Printed;
    PrintedExprReadsBack(lists);
    assert Holds(Word(e, i), Fields(Printed(lists))[i], i);
  }

  /** From a text to the minutes it fires at: five printed lists, of minutes, hours,
      days of the month, months and weekdays, fire at the minutes whose hour, minute
      and month are listed and whose day is, in both day lists if one of them is
      full and otherwise in either. */
  lemma PrintedMatches(lists: seq<seq<nat>>, x: int)
    requires |lists| == 5 && (forall i :: 0 <= i < 5 ==> lists[i] != []) && InBounds(lists)
    ensures var r := ExprOf(Printed(lists));
            var inDom, inDow := Calendar.CivilAt(x).day in lists[2], Calendar.Weekday(Calendar.DayOf(x)) in lists[4];
            && r.Some?
            && (Matches(r.value, x) <==>
                  && Calendar.MinuteOf(x) in lists[0] && Calendar.HourOf(x) in lists[1]
                  && Calendar.CivilAt(x).month in lists[3]
                  && if Covers(lists[2], 1, 31) || Covers(lists[4], 0, 6) then inDom && inDow else inDom || inDow)
  {
    hide Fields, Printed, Parses, DayOK, CronField.AllWithin;
    var s := Printed(lists);
    PrintedParses(lists);
    ExprExactly(s);
    var e := ExprOf(s).value;
    var c, w := Calendar.CivilAt(x), Calendar.Weekday(Calendar.DayOf(x));
    PrintedWord(lists, e, 0, Calendar.MinuteOf(x));
    PrintedWord(lists, e, 1, Calendar.HourOf(x));
    PrintedWord(lists, e, 2, c.day);
    PrintedWord(lists, e, 3, c.month);
    PrintedWord(lists, e, 4, w);
    DayRule(e, Calendar.DayOf(x));
    FullWord(lists, e, 2, 1, 31);
    FullWord(lists, e, 4, 0, 6);
    assert Word(e, 0) == e.mins && Word(e, 1) == e.hours && Word(e, 2) == e.doms;
    assert Word(e, 3) == e.mons && Word(e, 4) == e.dows;
  }

  lemma FullWord(lists: seq<seq<nat>>, e: Expr, i: nat, lo: int, hi: int)
    requires |lists| == 5 && (forall i :: 0 <= i < 5 ==> lists[i] != []) && InBounds(lists)
    requires IsParse(Printed(lists), e) && i < 5 && CronField.AllWithin(lists[i], lo, hi)
    ensures Word(e, i) == Interval(lo, hi) <==> Covers(lists[i], lo, hi)
  {
    hide IsParse, Printed, InBounds, Word, Interval;
    forall v ensures v in Word(e, i) <==> v in lists[i] {
      PrintedWord(lists, e, i, v);
    }
    assert forall v :: v in lists[i] ==> lo <= v <= hi;
    IntervalHas(lo, hi);
  }

  lemma IntervalHas(lo: int, hi: int)
    ensures forall v :: v in Interval(lo, hi) <==> lo <= v <= hi
  {
  }
}

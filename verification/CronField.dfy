/** One field of a cron expression: comma-separated parts, each a star, a
    value or a range, with an optional step. */
module CronField {
  import opened Text

  /** A 64-bit word, seen as the set of its one bits. */
  type Bitset = b: set<int> | forall v :: v in b ==> 0 <= v < 64

  /** Setting bit v.  Go's shift gives 0 for a count outside the word, so an
      out-of-range v (a negative one included) changes nothing. */
  function SetBit(b: Bitset, v: int): Bitset {
    if 0 <= v < 64 then b + {v} else b
  }

  datatype Span = Span(start: int, end: int, step: int)

  predicate ValidSpan(s: Span, lo: int, hi: int) {
    lo <= s.start <= s.end <= hi && 0 < s.step < TWO63
  }

  // ----- the grammar, stated on syntax rather than on a scan

  datatype Base = Star | Range(first: string, last: string) | Value(number: string)
  datatype Part = Part(base: Base, step: Option<string>)

  function ShowBase(b: Base): string {
    match b
    case Star => "*"
    case Range(a, z) => a + "-" + z
    case Value(n) => n
  }

  function ShowPart(p: Part): string {
    match p.step
    case None => ShowBase(p.base)
    case Some(n) => ShowBase(p.base) + "/" + n
  }

  /** What a base denotes.  A value with a step runs from the field's low
      bound, not from the value. */
  ghost predicate BaseDenotes(b: Base, stepped: bool, lo: int, hi: int, start: int, end: int) {
    match b
    case Star => start == lo && end == hi
    case Range(a, z) => '-' !in a && Atoi(a) == Some(start) && Atoi(z) == Some(end)
    case Value(n) =>
      '-' !in n && Atoi(n).Some? && (start, end) == if stepped then (lo, hi) else (Atoi(n).value, Atoi(n).value)
  }

  ghost predicate StepDenotes(step: Option<string>, n: int) {
    match step
    case None => n == 1
    case Some(text) => Atoi(text) == Some(n)
  }

  ghost predicate Denotes(p: Part, lo: int, hi: int, s: Span) {
    && '/' !in ShowBase(p.base)
    && BaseDenotes(p.base, p.step.Some?, lo, hi, s.start, s.end)
    && StepDenotes(p.step, s.step)
    && ValidSpan(s, lo, hi)
  }

  ghost predicate PartMeans(text: string, lo: int, hi: int, s: Span) {
    exists p :: ShowPart(p) == text && Denotes(p, lo, hi, s)
  }

  ghost predicate WellFormed(text: string, lo: int, hi: int) {
    exists s :: PartMeans(text, lo, hi, s)
  }

  // ----- the scan

  /** The text before the first slash. */
  function BaseText(part: string): (t: string)
    ensures '/' !in t
  {
    var i := IndexOf(part, '/');
    if i < 0 then part else part[..i]
  }

  function StepText(part: string): (n: Option<string>)
    ensures part == match n { case None => BaseText(part) case Some(m) => BaseText(part) + "/" + m }
  {
    var i := IndexOf(part, '/');
    if i < 0 then None else Some(part[i + 1..])
  }

  function ReadStep(n: Option<string>): Option<int> {
    if n.None? then Some(1)
    else
      var m := Atoi(n.value);
      if m.None? || m.value <= 0 then None else m
  }

  function ReadBase(t: string, stepped: bool, lo: int, hi: int): Option<(int, int)> {
    var dash := IndexOf(t, '-');
    if t == "*" then Some((lo, hi))
    else if dash >= 0 then
      var a, z := Atoi(t[..dash]), Atoi(t[dash + 1..]);
      if a.None? || z.None? then None else Some((a.value, z.value))
    else
      var n := Atoi(t);
      if n.None? then None else if stepped then Some((lo, hi)) else Some((n.value, n.value))
  }

  function ReadPart(part: string, lo: int, hi: int): (r: Option<Span>)
    ensures r.Some? ==> ValidSpan(r.value, lo, hi)
  {
    var step := ReadStep(StepText(part));
    var bounds := ReadBase(BaseText(part), StepText(part).Some?, lo, hi);
    if step.None? || bounds.None? then None
    else
      var s := Span(bounds.value.0, bounds.value.1, step.value);
      if s.start < lo || s.end > hi || s.start > s.end then None else Some(s)
  }

  /** The scan accepts exactly the grammar, with the grammar's meaning; in
      particular a part has at most one meaning. */
  lemma ReadPartIsGrammar(part: string, lo: int, hi: int, s: Span)
    ensures ReadPart(part, lo, hi) == Some(s) <==> PartMeans(part, lo, hi, s)
  {
    if ReadPart(part, lo, hi) == Some(s) {
      ReadPartSound(part, lo, hi, s);
    }
    forall p | ShowPart(p) == part && Denotes(p, lo, hi, s) ensures ReadPart(part, lo, hi) == Some(s) {
      ReadPartComplete(p, lo, hi, s);
    }
  }

  function BaseSyntax(t: string): (b: Base)
    ensures ShowBase(b) == t
  {
    var dash := IndexOf(t, '-');
    if t == "*" then Star
    else if dash >= 0 then assert t == t[..dash] + "-" + t[dash + 1..]; Range(t[..dash], t[dash + 1..])
    else Value(t)
  }

  lemma ReadBaseSound(t: string, stepped: bool, lo: int, hi: int, b: (int, int))
    requires ReadBase(t, stepped, lo, hi) == Some(b)
    ensures BaseDenotes(BaseSyntax(t), stepped, lo, hi, b.0, b.1)
  {
    hide Atoi, IndexOf, ShowBase;
    var dash := IndexOf(t, '-');
    if t == "*" {
    } else if dash >= 0 {
      assert '-' !in t[..dash];
    } else {
      assert '-' !in t;
    }
  }

  lemma ReadPartSound(part: string, lo: int, hi: int, s: Span)
    requires ReadPart(part, lo, hi) == Some(s)
    ensures PartMeans(part, lo, hi, s)
  {
    var base, step := BaseText(part), StepText(part);
    var p := Part(BaseSyntax(base), step);
    ReadBaseSound(base, step.Some?, lo, hi, (s.start, s.end));
    hide ReadBase, BaseDenotes, BaseSyntax, BaseText, StepText, Atoi;
    assert ShowPart(p) == part && Denotes(p, lo, hi, s);
  }

  lemma PartTexts(base: string, step: Option<string>)
    requires '/' !in base
    ensures var part := match step { case None => base case Some(n) => base + "/" + n };
            BaseText(part) == base && StepText(part) == step
  {
    if step.Some? {
      var part := base + "/" + step.value;
      assert part[..|base|] == base && part[|base| + 1..] == step.value;
      IndexOfIs(part, '/', |base|);
    }
  }

  lemma ReadRange(a: string, z: string, stepped: bool, lo: int, hi: int)
    requires '-' !in a
    ensures ReadBase(a + "-" + z, stepped, lo, hi)
         == if Atoi(a).Some? && Atoi(z).Some? then Some((Atoi(a).value, Atoi(z).value)) else None
  {
    hide Atoi;
    var t := a + "-" + z;
    assert t[..|a|] == a && t[|a| + 1..] == z && t[|a|] == '-';
    IndexOfIs(t, '-', |a|);
    StarHasNoDash(t);
  }

  lemma StarHasNoDash(t: string)
    ensures '-' in t ==> t != "*"
  {
  }

  lemma ReadValue(n: string, stepped: bool, lo: int, hi: int)
    requires '-' !in n && Atoi(n).Some?
    ensures ReadBase(n, stepped, lo, hi) == Some(if stepped then (lo, hi) else (Atoi(n).value, Atoi(n).value))
  {
    assert IndexOf(n, '-') == -1 && Atoi("*") == None;
  }

  lemma ReadPartComplete(p: Part, lo: int, hi: int, s: Span)
    requires Denotes(p, lo, hi, s)
    ensures ReadPart(ShowPart(p), lo, hi) == Some(s)
  {
    assert BaseText(ShowPart(p)) == ShowBase(p.base) && StepText(ShowPart(p)) == p.step by {
      PartTexts(ShowBase(p.base), p.step);
    }
    assert ReadStep(p.step) == Some(s.step);
    assert ReadBase(ShowBase(p.base), p.step.Some?, lo, hi) == Some((s.start, s.end)) by {
      match p.base
      case Star =>
      case Range(a, z) => ReadRange(a, z, p.step.Some?, lo, hi);
      case Value(n) => ReadValue(n, p.step.Some?, lo, hi);
    }
  }

  // ----- the values a part sets

  /** The arithmetic progression a step is meant to give. */
  ghost predicate InProgression(v: int, s: Span)
    requires s.step > 0
  {
    s.start <= v <= s.end && (v - s.start) % s.step == 0
  }

  /** How far a step is from overflowing: adding it to v overflows iff v is at least the slack. */
  function Slack(step: int): int { TWO63 - step }

  /** A step this large overflows its counter and comes back below the start. */
  predicate Overflows(s: Span) { s.start >= 2 * Slack(s.step) }

  /** The values really set: an overflowing part walks down from its start by
      twice the slack, whatever its end. */
  ghost predicate Visits(s: Span, v: int)
    requires s.step > 0
  {
    if Overflows(s) && s.step < TWO63 then InDescent(v, s.start, 2 * Slack(s.step))
    else InProgression(v, s)
  }

  // The loop's own values, one iteration at a time.

  predicate Reachable(v: int, end: int, step: int) {
    var k := Slack(step);
    0 <= end < 64 && 0 < step < TWO63 && (0 <= v || (k < 64 && (-k <= v || k <= v + TWO63 + k < 64)))
  }

  function Distance(v: int, end: int, step: int): nat
    requires Reachable(v, end, step)
  {
    var k := Slack(step);
    if v > end then 0
    else if k >= 64 then 1 + end - v
    else if v >= 0 then 2 * v + 3
    else if v >= -k then 1
    else 2 * (v + TWO63 + k) + 2
  }

  lemma NextReachable(v: int, end: int, step: int)
    requires Reachable(v, end, step) && v <= end
    ensures Reachable(Wrap(v + step), end, step)
    ensures Distance(Wrap(v + step), end, step) < Distance(v, end, step)
  {
  }

  ghost function Walk(v: int, end: int, step: int): Bitset
    requires Reachable(v, end, step)
    decreases Distance(v, end, step)
  {
    if v > end then {}
    else
      NextReachable(v, end, step);
      SetBit(Walk(Wrap(v + step), end, step), v)
  }

  lemma ModStep(a: int, step: int)
    requires step > 0
    ensures a % step == (a - step) % step
  {
    var q, r := (a - step) / step, (a - step) % step;
    assert a == step * (q + 1) + r;
    ModUnique(a, step, q + 1, r);
  }

  lemma ModUnique(a: int, k: int, q: int, r: int)
    requires k > 0 && a == k * q + r && 0 <= r < k
    ensures a % k == r
  {
    var d := a / k - q;
    assert k * d == r - a % k;
    assert d >= 1 ==> k * d >= k;
    assert d <= -1 ==> k * d <= -k;
  }

  lemma ModSmall(a: int, k: int)
    requires 0 <= a < k
    ensures a % k == 0 <==> a == 0
  {
  }

  ghost predicate InDescent(u: int, v: int, k: int)
    requires k > 0
  {
    0 <= u <= v && (v - u) % k == 0
  }

  lemma ProgressionStep(u: int, v: int, end: int, step: int)
    requires step > 0
    ensures InProgression(u, Span(v, end, step)) <==>
      v <= end && (u == v || InProgression(u, Span(v + step, end, step)))
  {
    ModStep(u - v, step);
    if v < u < v + step {
      ModSmall(u - v, step);
    }
  }

  lemma DescentStep(u: int, v: int, k: int)
    requires k > 0
    ensures InDescent(u, v, k) <==> 0 <= v && (u == v || InDescent(u, v - k, k))
  {
    ModStep(v - u, k);
    if v - k < u < v {
      ModSmall(v - u, k);
    }
  }

  lemma {:induction false} WalkUp(v: int, end: int, step: int, u: int)
    requires 0 <= end < 64 && 0 < step < TWO63 && 0 <= v && (v <= end ==> v < Slack(step))
    ensures u in Walk(v, end, step) <==> InProgression(u, Span(v, end, step))
    decreases Distance(v, end, step)
  {
    ProgressionStep(u, v, end, step);
    if v > end {
    } else {
      NextReachable(v, end, step);
      WalkUp(v + step, end, step, u);
    }
  }

  lemma {:induction false} WalkDown(v: int, end: int, step: int, u: int)
    requires v <= end < 64 && 0 <= end && 0 < step < TWO63 && 0 < Slack(step) <= end && -Slack(step) <= v
    ensures u in Walk(v, end, step) <==> InDescent(u, v, 2 * Slack(step))
    decreases Distance(v, end, step)
  {
    var k := Slack(step);
    DescentStep(u, v, 2 * k);
    NextReachable(v, end, step);
    if v < k {
    } else {
      var w := v - TWO63 - k;
      assert Wrap(v + step) == w;
      NextReachable(w, end, step);
      assert Wrap(w + step) == v - 2 * k;
      WalkDown(v - 2 * k, end, step, u);
    }
  }

  lemma WalkVisits(s: Span, lo: int, hi: int, u: int)
    requires 0 <= lo && hi < 64 && ValidSpan(s, lo, hi)
    ensures u in Walk(s.start, s.end, s.step) <==> Visits(s, u)
  {
    var k := Slack(s.step);
    if s.start < k {
      WalkUp(s.start, s.end, s.step, u);
    } else {
      WalkDown(s.start, s.end, s.step, u);
      if !Overflows(s) {
        DescentStep(u, s.start, 2 * k);
        ProgressionStep(u, s.start, s.end, s.step);
      }
    }
  }

  /** A part sets the progression it denotes, and nothing else, exactly when
      its step does not overflow. */
  lemma VisitsProgression(s: Span, lo: int, hi: int)
    requires 0 <= lo && hi < 64 && ValidSpan(s, lo, hi)
    ensures (forall v :: Visits(s, v) <==> InProgression(v, s)) <==> !Overflows(s)
  {
    if Overflows(s) {
      var v := s.start - 2 * Slack(s.step);
      ModStep(2 * Slack(s.step), 2 * Slack(s.step));
      assert Visits(s, v) && !InProgression(v, s);
    }
  }

  /** A part stays inside the field exactly when its step does not overflow
      past the low bound. */
  lemma VisitsInField(s: Span, lo: int, hi: int)
    requires 0 <= lo && hi < 64 && ValidSpan(s, lo, hi)
    ensures (forall v :: Visits(s, v) ==> lo <= v <= hi)
            <==> (Overflows(s) ==> s.start % (2 * Slack(s.step)) >= lo)
  {
    if Overflows(s) {
      var k := 2 * Slack(s.step);
      LowestDescent(s.start, k);
      forall v | Visits(s, v) ensures v >= s.start % k {
        AboveLowest(v, s.start, k);
      }
      assert Visits(s, s.start % k);
    }
  }

  lemma LowestDescent(v: int, k: int)
    requires k > 0 && v >= 0
    ensures InDescent(v % k, v, k)
  {
    assert v - v % k == k * (v / k);
    ModUnique(v - v % k, k, v / k, 0);
    assert v / k >= 0;
  }

  lemma {:induction false} AboveLowest(u: int, v: int, k: int)
    requires k > 0 && InDescent(u, v, k)
    ensures u >= v % k
    decreases v
  {
    DescentStep(u, v, k);
    if u == v {
    } else {
      ModStep(v, k);
      AboveLowest(u, v - k, k);
    }
  }

  /** A part n/step means what its step says from the field's low bound, whatever
      the integer n, in the field or not: n's value is never used.  So it sets the
      progression from n exactly when n is the low bound and no step overflows,
      and in a field that starts at 0 or 1, as all five do, none does. */
  lemma StepFromLow(n: string, step: string, lo: int, hi: int, s: Span)
    requires Atoi(n).Some? && '-' !in n && '/' !in n && Atoi(step).Some?
    requires 0 <= lo <= hi < 64
    ensures PartMeans(n + "/" + step, lo, hi, s) <==> s == Span(lo, hi, Atoi(step).value) && s.step > 0
    ensures var v, k := Atoi(n).value, Atoi(step).value;
            k > 0 && lo <= v <= hi ==>
              ((forall u :: Visits(Span(lo, hi, k), u) <==> InProgression(u, Span(v, hi, k)))
               <==> v == lo && !Overflows(Span(lo, hi, k)))
    ensures lo <= 1 && 0 < Atoi(step).value ==> !Overflows(Span(lo, hi, Atoi(step).value))
  {
    var v, k := Atoi(n).value, Atoi(step).value;
    PartTexts(n, Some(step));
    ReadValue(n, true, lo, hi);
    ReadPartIsGrammar(n + "/" + step, lo, hi, s);
    AtoiInt64(step);
    if k > 0 && lo <= v <= hi {
      VisitsProgression(Span(lo, hi, k), lo, hi);
      StartVisited(Span(lo, hi, k), lo, hi);
      assert v != lo ==> !InProgression(lo, Span(v, hi, k));
    }
  }

  lemma AtoiInt64(s: string)
    ensures Atoi(s).Some? ==> Int64(Atoi(s).value)
  {
  }

  lemma StartVisited(s: Span, lo: int, hi: int)
    requires 0 <= lo && hi < 64 && ValidSpan(s, lo, hi)
    ensures Visits(s, s.start)
  {
  }

  /** In the minutes field "5/15" and "99/15" are both accepted, and both fire at
      0, 15, 30 and 45 and at no other minute. */
  lemma FifteenFromLow(u: int)
    ensures var s := Span(0, 59, 15);
            && PartMeans("5/15", 0, 59, s) && PartMeans("99/15", 0, 59, s)
            && (Visits(s, u) <==> u in {0, 15, 30, 45})
            && InProgression(5, Span(5, 59, 15)) && !Visits(s, 5)
  {
    var s := Span(0, 59, 15);
    TwoDigits();
    hide Atoi;
    StepFromLow("5", "15", 0, 59, s);
    StepFromLow("99", "15", 0, 59, s);
    assert "5" + "/" + "15" == "5/15" && "99" + "/" + "15" == "99/15";
  }

  lemma TwoDigits()
    ensures Atoi("5") == Some(5) && Atoi("15") == Some(15) && Atoi("99") == Some(99)
  {
    assert DigitsValue("1") == 1 && DigitsValue("9") == 9;
    assert "15"[..1] == "1" && "99"[..1] == "9";
  }

  /** The value of v's digits followed by those of s, read from the left. */
  function ReadOn(v: int, s: string): int
    decreases |s|
  {
    if s == "" then v else ReadOn(v * 10 + (s[0] as int - '0' as int), s[1..])
  }

  lemma {:induction false} ReadOnPush(v: int, s: string, c: char)
    ensures ReadOn(v, s + [c]) == ReadOn(v, s) * 10 + (c as int - '0' as int)
    decreases |s|
  {
    if s == "" {
      assert (s + [c])[1..] == "";
    } else {
      assert (s + [c])[1..] == s[1..] + [c];
      ReadOnPush(v * 10 + (s[0] as int - '0' as int), s[1..], c);
    }
  }

  lemma {:induction false} ReadOnDigits(s: string)
    requires AllDigits(s)
    ensures DigitsValue(s) == ReadOn(0, s)
  {
    if s == "" {
    } else {
      var n := |s| - 1;
      ReadOnDigits(s[..n]);
      ReadOnPush(0, s[..n], s[n]);
      assert s == s[..n] + [s[n]];
    }
  }

  lemma ReadOnOne(v: int, c: char, rest: string)
    ensures ReadOn(v, [c] + rest) == ReadOn(v * 10 + (c as int - '0' as int), rest)
  {
    assert ([c] + rest)[1..] == rest;
  }

  lemma ReadOnFour(v: int, a: char, b: char, c: char, d: char, rest: string)
    ensures var zero := '0' as int;
            ReadOn(v, [a, b, c, d] + rest)
            == ReadOn((((v * 10 + (a as int - zero)) * 10 + (b as int - zero)) * 10 + (c as int - zero)) * 10
              + (d as int - zero), rest)
  {
    hide ReadOn;
    var zero := '0' as int;
    var v1 := v * 10 + (a as int - zero);
    var v2 := v1 * 10 + (b as int - zero);
    ReadOnOne(v, a, [b, c, d] + rest);
    ReadOnOne(v1, b, [c, d] + rest);
    ReadOnOne(v2, c, [d] + rest);
    ReadOnOne(v2 * 10 + (c as int - zero), d, rest);
    assert [a] + ([b, c, d] + rest) == [a, b, c, d] + rest;
    assert [b] + ([c, d] + rest) == [b, c, d] + rest && [c] + ([d] + rest) == [c, d] + rest;
  }

  lemma LargestDigits()
    ensures ReadOn(0, "9223372036854775807") == TWO63 - 1
  {
    hide ReadOn;
    ReadOnFour(0, '9', '2', '2', '3', "372036854775807");
    ReadOnFour(9223, '3', '7', '2', '0', "36854775807");
    ReadOnFour(92233720, '3', '6', '8', '5', "4775807");
    ReadOnFour(922337203685, '4', '7', '7', '5', "807");
    assert "9223372036854775807" == ['9', '2', '2', '3'] + "372036854775807";
    assert "372036854775807" == ['3', '7', '2', '0'] + "36854775807";
    assert "36854775807" == ['3', '6', '8', '5'] + "4775807";
    assert "4775807" == ['4', '7', '7', '5'] + "807";
    LastThree(9223372036854775);
  }

  lemma LastThree(v: int)
    ensures ReadOn(v, "807") == v * 1000 + 807
  {
    assert "807"[1..] == "07" && "07"[1..] == "7" && "7"[1..] == "";
  }

  lemma AtoiDigits(s: string)
    requires s != "" && AllDigits(s) && Int64(ReadOn(0, s))
    ensures Atoi(s) == Some(ReadOn(0, s))
  {
    ReadOnDigits(s);
  }

  /** The month part "6-12/9223372036854775807": the counter overflows, sets months
      4 and 2, and sets bit 0, which is not a month. */
  lemma OverflowingMonths()
    ensures var s := Span(6, 12, TWO63 - 1);
            && PartMeans("6-12/9223372036854775807", 1, 12, s) && Overflows(s)
            && Visits(s, 4) && Visits(s, 2) && Visits(s, 0) && !InProgression(4, s) && !InProgression(2, s)
  {
    var p := Part(Range("6", "12"), Some("9223372036854775807"));
    hide Atoi, ReadOn, DigitsValue;
    LargestDigits();
    AtoiDigits("9223372036854775807");
    SmallInts();
    assert ShowPart(p) == "6-12/9223372036854775807";
    assert Denotes(p, 1, 12, Span(6, 12, TWO63 - 1));
  }

  lemma SmallInts()
    ensures Atoi("6") == Some(6) && Atoi("12") == Some(12)
  {
    assert DigitsValue("1") == 1;
    assert "12"[..1] == "1";
  }

  // ----- the field

  ghost predicate Accepts(f: string, lo: int, hi: int) {
    var parts := Split(f, ',');
    forall i :: 0 <= i < |parts| ==> WellFormed(parts[i], lo, hi)
  }

  ghost predicate PartSets(part: string, lo: int, hi: int, v: int) {
    exists s: Span :: PartMeans(part, lo, hi, s) && s.step > 0 && Visits(s, v)
  }

  /** v is set by some part of the field. */
  ghost predicate FieldSets(parts: seq<string>, lo: int, hi: int, v: int) {
    exists i :: 0 <= i < |parts| && PartSets(parts[i], lo, hi, v)
  }

  /** The scan refuses a part exactly when the grammar gives it no meaning. */
  lemma ReadPartDecides(part: string, lo: int, hi: int)
    ensures ReadPart(part, lo, hi).Some? <==> WellFormed(part, lo, hi)
  {
    if ReadPart(part, lo, hi).Some? {
      ReadPartIsGrammar(part, lo, hi, ReadPart(part, lo, hi).value);
    }
    forall s | PartMeans(part, lo, hi, s) ensures ReadPart(part, lo, hi) == Some(s) {
      ReadPartIsGrammar(part, lo, hi, s);
    }
  }

  /** The first half of the loop body: the bounds and step of one part. */
  method ScanPart(part: string, lo: int, hi: int) returns (r: Option<Span>)
    ensures r == ReadPart(part, lo, hi)
  {
    hide IndexOf, Atoi;
    var step := 1;
    var rangePart := part;
    var slash := IndexOf(part, '/');
    if slash >= 0 {
      rangePart := part[..slash];
      var n := Atoi(part[slash + 1..]);
      if n.None? || n.value <= 0 {
        return None;
      }
      step := n.value;
    }
    assert ReadStep(StepText(part)) == Some(step) && BaseText(part) == rangePart;
    var start, end := lo, hi;
    var dash := IndexOf(rangePart, '-');
    if rangePart == "*" {
      start, end := lo, hi;
    } else if dash >= 0 {
      var a, z := Atoi(rangePart[..dash]), Atoi(rangePart[dash + 1..]);
      if a.None? || z.None? {
        return None;
      }
      start, end := a.value, z.value;
    } else {
      var n := Atoi(rangePart);
      if n.None? {
        return None;
      }
      if slash >= 0 {
        end := hi;
      } else {
        start, end := n.value, n.value;
      }
    }
    assert ReadBase(rangePart, StepText(part).Some?, lo, hi) == Some((start, end));
    if start < lo || end > hi || start > end {
      return None;
    }
    return Some(Span(start, end, step));
  }

  /** The second half of the loop body: a counter in a 64-bit int. */
  method SetRange(before: Bitset, start: int, end: int, step: int) returns (b: Bitset)
    requires 0 <= start <= end < 64 && 0 < step < TWO63
    ensures b == before + Walk(start, end, step)
  {
    b := before;
    var v := start;
    while v <= end
      invariant Reachable(v, end, step)
      invariant b + Walk(v, end, step) == before + Walk(start, end, step)
      decreases Distance(v, end, step)
    {
      NextReachable(v, end, step);
      b := SetBit(b, v);
      v := Wrap(v + step);
    }
  }

  /** The first n parts scan. */
  ghost predicate Readable(parts: seq<string>, n: nat, lo: int, hi: int)
    requires n <= |parts|
  {
    forall i :: 0 <= i < n ==> ReadPart(parts[i], lo, hi).Some?
  }

  /** What the loop sets for one part. */
  ghost function PartBits(part: string, lo: int, hi: int): (b: Bitset)
    requires 0 <= lo && hi < 64 && ReadPart(part, lo, hi).Some?
    ensures b != {}
  {
    var s := ReadPart(part, lo, hi).value;
    assert s.start in Walk(s.start, s.end, s.step);
    Walk(s.start, s.end, s.step)
  }

  lemma PartBitsWalk(part: string, s: Span, lo: int, hi: int)
    requires 0 <= lo && hi < 64 && ReadPart(part, lo, hi) == Some(s)
    ensures PartBits(part, lo, hi) == Walk(s.start, s.end, s.step)
  {
  }

  /** What the loop has accumulated after n parts. */
  ghost function FieldBits(parts: seq<string>, n: nat, lo: int, hi: int): (b: Bitset)
    requires 0 <= lo && hi < 64 && n <= |parts| && Readable(parts, n, lo, hi)
    ensures n > 0 ==> b != {}
  {
    if n == 0 then {} else FieldBits(parts, n - 1, lo, hi) + PartBits(parts[n - 1], lo, hi)
  }

  lemma {:induction false} FieldBitsMeaning(parts: seq<string>, n: nat, lo: int, hi: int, v: int)
    requires 0 <= lo && hi < 64 && n <= |parts| && Readable(parts, n, lo, hi)
    ensures v in FieldBits(parts, n, lo, hi) <==> exists i :: 0 <= i < n && PartSets(parts[i], lo, hi, v)
  {
    hide ReadPart, PartBits, PartSets;
    if n == 0 {
    } else {
      FieldBitsMeaning(parts, n - 1, lo, hi, v);
      PartSetsWalk(parts[n - 1], lo, hi, v);
    }
  }

  lemma ReadableIsAccepted(f: string, lo: int, hi: int)
    ensures Readable(Split(f, ','), |Split(f, ',')|, lo, hi) <==> Accepts(f, lo, hi)
  {
    forall part ensures ReadPart(part, lo, hi).Some? <==> WellFormed(part, lo, hi) {
      ReadPartDecides(part, lo, hi);
    }
  }

  method ScanField(f: string, lo: int, hi: int) returns (r: Option<Bitset>)
    requires 0 <= lo <= hi < 64
    ensures var parts := Split(f, ',');
            (r.Some? <==> Readable(parts, |parts|, lo, hi))
            && (r.Some? ==> r.value == FieldBits(parts, |parts|, lo, hi))
  {
    hide ReadPart, PartBits, Split, Walk;
    var b: Bitset := {};
    var parts := Split(f, ',');
    for i := 0 to |parts|
      invariant Readable(parts, i, lo, hi)
      invariant b == FieldBits(parts, i, lo, hi)
    {
      var span := ScanPart(parts[i], lo, hi);
      if span.None? {
        return None;
      }
      PartBitsWalk(parts[i], span.value, lo, hi);
      b := SetRange(b, span.value.start, span.value.end, span.value.step);
    }
    return Some(b);
  }

  /** A field is accepted exactly when every part is; the word returned holds
      exactly the values its parts set, and is never empty. */
  method ParseField(f: string, lo: int, hi: int) returns (r: Option<Bitset>)
    requires 0 <= lo <= hi < 64
    ensures r.Some? <==> Accepts(f, lo, hi)
    ensures r.Some? ==> r.value != {} && forall v :: v in r.value <==> FieldSets(Split(f, ','), lo, hi, v)
  {
    r := ScanField(f, lo, hi);
    ReadableIsAccepted(f, lo, hi);
    if r.Some? {
      forall v ensures v in r.value <==> FieldSets(Split(f, ','), lo, hi, v) {
        FieldBitsMeaning(Split(f, ','), |Split(f, ',')|, lo, hi, v);
      }
    }
  }

  lemma PartSetsWalk(part: string, lo: int, hi: int, v: int)
    requires 0 <= lo && hi < 64 && ReadPart(part, lo, hi).Some?
    ensures PartSets(part, lo, hi, v) <==> v in PartBits(part, lo, hi)
  {
    var s := ReadPart(part, lo, hi).value;
    ReadPartIsGrammar(part, lo, hi, s);
    WalkVisits(s, lo, hi, v);
    forall t: Span | PartMeans(part, lo, hi, t) ensures t == s {
      ReadPartIsGrammar(part, lo, hi, t);
    }
  }

  // ----- printing

  function PrintValues(values: seq<nat>): (texts: seq<string>)
    ensures |texts| == |values|
    ensures forall i :: 0 <= i < |values| ==> texts[i] == Itoa(values[i])
  {
    seq(|values|, i requires 0 <= i < |values| => Itoa(values[i]))
  }

  lemma ReadPrinted(v: nat, lo: int, hi: int)
    requires 0 <= lo <= v <= hi < 64
    ensures ReadPart(Itoa(v), lo, hi) == Some(Span(v, v, 1))
    ensures ',' !in Itoa(v)
    ensures PartBits(Itoa(v), lo, hi) == {v}
  {
    var t := Itoa(v);
    AtoiItoa(v);
    assert IndexOf(t, '/') == -1 && IndexOf(t, '-') == -1;
    assert t != "*";
    assert Walk(v + 1, v, 1) == {};
    NextReachable(v, v, 1);
  }

  /** A printed value is read exactly when it lies in the field. */
  lemma ReadPrintedExactly(v: nat, lo: int, hi: int)
    requires 0 <= lo <= hi < 64
    ensures ReadPart(Itoa(v), lo, hi).Some? <==> lo <= v <= hi
    ensures ',' !in Itoa(v)
  {
    var t := Itoa(v);
    DigitsOfItoa(v);
    assert '0' <= t[0] <= '9' && t != "*";
    assert IndexOf(t, '/') == -1 && IndexOf(t, '-') == -1;
  }

  /** A printed range with a step is accepted exactly when it lies in the field and
      is not empty and the step is positive, and means just that range and step. */
  lemma PrintedRange(a: nat, z: nat, k: nat, lo: int, hi: int)
    requires 0 <= lo <= hi < 64 && Int64(k)
    ensures ReadPart(Itoa(a) + "-" + Itoa(z) + "/" + Itoa(k), lo, hi)
         == if lo <= a <= z <= hi && k > 0 then Some(Span(a, z, k)) else None
  {
    hide Itoa, Atoi, DigitsValue, IndexOf, ReadBase, BaseText, StepText;
    var base := Itoa(a) + "-" + Itoa(z);
    DashFree(a);
    DashFree(z);
    PartTexts(base, Some(Itoa(k)));
    assert base + "/" + Itoa(k) == Itoa(a) + "-" + Itoa(z) + "/" + Itoa(k);
    AtoiSigned(a);
    AtoiSigned(z);
    AtoiSigned(k);
    ReadRange(Itoa(a), Itoa(z), true, lo, hi);
  }

  lemma DashFree(n: nat)
    ensures '-' !in Itoa(n) && '/' !in Itoa(n)
  {
    hide Itoa;
  }

  /** A printed list is accepted exactly when all its values lie in the field. */
  lemma PrintedAcceptedExactly(values: seq<nat>, lo: int, hi: int)
    requires 0 <= lo <= hi < 64 && values != []
    ensures Accepts(Join(PrintValues(values), ','), lo, hi) <==> AllWithin(values, lo, hi)
  {
    hide ReadPart, Itoa;
    var texts := PrintValues(values);
    forall i | 0 <= i < |texts|
      ensures ',' !in texts[i] && (WellFormed(texts[i], lo, hi) <==> lo <= values[i] <= hi)
    {
      ReadPrintedExactly(values[i], lo, hi);
      ReadPartDecides(texts[i], lo, hi);
    }
    SplitJoin(texts, ',');
  }

  predicate AllWithin(values: seq<nat>, lo: int, hi: int) {
    forall i :: 0 <= i < |values| ==> lo <= values[i] <= hi
  }

  /** The text stands for one value. */
  ghost predicate Single(text: string, v: int, lo: int, hi: int) {
    0 <= lo <= hi < 64 && ReadPart(text, lo, hi).Some? && PartBits(text, lo, hi) == {v}
  }

  lemma {:induction false} SinglesBits(texts: seq<string>, values: seq<nat>, n: nat, lo: int, hi: int, v: int)
    requires 0 <= lo <= hi < 64 && n <= |texts| == |values|
    requires forall i :: 0 <= i < n ==> Single(texts[i], values[i], lo, hi)
    ensures Readable(texts, n, lo, hi)
    ensures v in FieldBits(texts, n, lo, hi) <==> exists i :: 0 <= i < n && values[i] == v
  {
    hide ReadPart, PartBits;
    if n == 0 {
    } else {
      SinglesBits(texts, values, n - 1, lo, hi, v);
    }
  }

  /** Any non-empty list of in-range values, printed with commas, is accepted
      and parses back to the set of its values. */
  lemma PrintedFieldReadsBack(values: seq<nat>, lo: int, hi: int)
    requires 0 <= lo <= hi < 64 && values != [] && AllWithin(values, lo, hi)
    ensures var f := Join(PrintValues(values), ',');
            Accepts(f, lo, hi) && forall v :: FieldSets(Split(f, ','), lo, hi, v) <==> v in values
  {
    var texts := PrintValues(values);
    forall i | 0 <= i < |texts| ensures Single(texts[i], values[i], lo, hi) && ',' !in texts[i] {
      ReadPrinted(values[i], lo, hi);
    }
    SplitJoin(texts, ',');
    forall v ensures Readable(texts, |texts|, lo, hi) && (FieldSets(texts, lo, hi, v) <==> v in values) {
      SinglesBits(texts, values, |texts|, lo, hi, v);
      FieldBitsMeaning(texts, |texts|, lo, hi, v);
    }
    ReadableIsAccepted(Join(texts, ','), lo, hi);
  }
}

/** Command templates: finding the placeholders of a body and filling them in, by
    the server's Render and by its twin in the web client. */
module Snippets {
  import opened Text

  /** The two regular expression engines: they differ in what counts as a space. */
  datatype Engine = Server | Client

  predicate Space(e: Engine, c: char) {
    c in "\t\n\r " || c as int == 0x0C || (e == Client && (IsJsOnlySpace(c)))
  }

  predicate IsJsOnlySpace(c: char) {
    c as int in {0x0B, 0xA0, 0x1680, 0x2028, 0x2029, 0x202F, 0x205F, 0x3000, 0xFEFF} || 0x2000 <= c as int <= 0x200A
  }

  predicate NameChar(c: char) {
    'a' <= c <= 'z' || 'A' <= c <= 'Z' || '0' <= c <= '9' || c == '_' || c == '.' || c == '-'
  }

  /** The alphabet of names, and the spaces, character by character. */
  lemma Alphabets(c: char)
    ensures NameChar(c) <==>
              c in SMALL || c in LARGE || c in "0123456789" || c == '_' || c == '.' || c == '-'
    ensures Space(Server, c) <==> c in "\t\n\U{000C}\r "
    ensures Space(Server, c) || c in "\U{000B}\U{00A0}\U{FEFF}" ==> Space(Client, c)
  {
    hide SMALL, LARGE;
    InSmall(c);
    InLarge(c);
    InRow(c, '0', "0123456789");
  }

  const SMALL := "abcdefghijklmnopqrstuvwxyz"
  const LARGE := "ABCDEFGHIJKLMNOPQRSTUVWXYZ"

  lemma InSmall(c: char)
    ensures c in SMALL <==> 'a' <= c <= 'z'
  {
    InRow(c, 'a', SMALL);
  }

  lemma InLarge(c: char)
    ensures c in LARGE <==> 'A' <= c <= 'Z'
  {
    InRow(c, 'A', LARGE);
  }

  /** A row of consecutive characters holds those from its first to its last. */
  lemma InRow(c: char, first: char, row: string)
    requires row != "" && forall i :: 0 <= i < |row| ==> row[i] as int == first as int + i
    ensures c in row <==> first <= c <= row[|row| - 1]
  {
    if first <= c <= row[|row| - 1] {
      assert row[c as int - first as int] == c;
    }
  }

  /** The grammar: a name between braces, with spaces allowed around it. The name
      lies from i to j. */
  predicate Parts(e: Engine, text: string, i: int, j: int) {
    && 2 <= i < j < |text| && text[0] == '$' && text[1] == '{' && text[|text| - 1] == '}'
    && (forall k :: 2 <= k < i ==> Space(e, text[k]))
    && (forall k :: i <= k < j ==> NameChar(text[k]))
    && (forall k :: j <= k < |text| - 1 ==> Space(e, text[k]))
  }

  ghost predicate Placeholder(e: Engine, text: string, name: string) {
    exists i, j :: Parts(e, text, i, j) && name == text[i..j]
  }

  // ----- matching at one place

  function SpaceEnd(e: Engine, s: string, i: nat): (end: nat)
    requires i <= |s|
    ensures i <= end <= |s|
    ensures forall k :: i <= k < end ==> Space(e, s[k])
    ensures end < |s| ==> !Space(e, s[end])
    decreases |s| - i
  {
    if i < |s| && Space(e, s[i]) then SpaceEnd(e, s, i + 1) else i
  }

  function NameEnd(s: string, i: nat): (end: nat)
    requires i <= |s|
    ensures i <= end <= |s|
    ensures forall k :: i <= k < end ==> NameChar(s[k])
    ensures end < |s| ==> !NameChar(s[end])
    decreases |s| - i
  {
    if i < |s| && NameChar(s[i]) then NameEnd(s, i + 1) else i
  }

  datatype Match = Match(length: nat, name: string)

  /** The placeholder at the front of s, if there is one. */
  function MatchFront(e: Engine, s: string): (m: Option<Match>)
    ensures m.Some? ==> 0 < m.value.length <= |s|
  {
    if |s| < 2 || s[0] != '$' || s[1] != '{' then None
    else
      var i := SpaceEnd(e, s, 2);
      var j := NameEnd(s, i);
      var k := SpaceEnd(e, s, j);
      if i < j && k < |s| && s[k] == '}' then Some(Match(k + 1, s[i..j])) else None
  }

  lemma MatchSound(e: Engine, s: string)
    ensures var m := MatchFront(e, s); m.Some? ==> Placeholder(e, s[..m.value.length], m.value.name)
  {
    var m := MatchFront(e, s);
    if m.Some? {
      var i := SpaceEnd(e, s, 2);
      var j := NameEnd(s, i);
      assert Parts(e, s[..m.value.length], i, j) && m.value.name == s[..m.value.length][i..j];
    }
  }

  lemma SpaceEndIs(e: Engine, s: string, i: nat, end: nat)
    requires i <= end < |s| && (forall k :: i <= k < end ==> Space(e, s[k])) && !Space(e, s[end])
    ensures SpaceEnd(e, s, i) == end
  {}

  lemma NameEndIs(s: string, i: nat, end: nat)
    requires i <= end < |s| && (forall k :: i <= k < end ==> NameChar(s[k])) && !NameChar(s[end])
    ensures NameEnd(s, i) == end
  {}

  lemma PartsApart()
    ensures forall e, c :: Space(e, c) ==> !NameChar(c) && c != '}'
    ensures !NameChar('}')
  {}

  /** At most one placeholder starts at the front of s, and it has one name. */
  lemma MatchComplete(e: Engine, s: string, text: string, name: string)
    requires text <= s && Placeholder(e, text, name)
    ensures MatchFront(e, s) == Some(Match(|text|, name))
  {
    hide Space, NameChar;
    PartsApart();
    var i, j :| Parts(e, text, i, j) && name == text[i..j];
    var k := |text| - 1;
    assert forall m :: 0 <= m < |text| ==> s[m] == text[m];
    assert s[i..j] == name;
    SpaceEndIs(e, s, 2, i);
    NameEndIs(s, i, j);
    SpaceEndIs(e, s, j, k);
  }

  // ----- scanning a body

  datatype Segment = Letter(c: char) | Hole(text: string, name: string)

  function TextOf(seg: Segment): string {
    match seg case Letter(c) => [c] case Hole(text, _) => text
  }

  function Concat(segs: seq<Segment>): string {
    if segs == [] then "" else TextOf(segs[0]) + Concat(segs[1..])
  }

  /** The segment a scan finds at the front of s. */
  function Front(e: Engine, s: string): (seg: Segment)
    requires s != ""
    ensures var t := TextOf(seg); 0 < |t| <= |s| && s[..|t|] == t
  {
    match MatchFront(e, s)
    case Some(m) => Hole(s[..m.length], m.name)
    case None => Letter(s[0])
  }

  /** All matches from left to right, none overlapping. */
  function Scan(e: Engine, s: string): seq<Segment>
    decreases |s|
  {
    if s == "" then [] else [Front(e, s)] + Scan(e, s[|TextOf(Front(e, s))|..])
  }

  /** What the first segment of s must be: a hole is a placeholder, and no
      placeholder starts at a letter. */
  ghost predicate Divides(e: Engine, seg: Segment, s: string) {
    match seg
    case Hole(text, name) => Placeholder(e, text, name)
    case Letter(_) => !Starts(e, s)
  }

  /** A placeholder starts at the front of s. */
  ghost predicate Starts(e: Engine, s: string) {
    exists text, name :: text <= s && Placeholder(e, text, name)
  }

  lemma FrontDivides(e: Engine, s: string)
    requires s != ""
    ensures Divides(e, Front(e, s), s)
  {
    MatchSound(e, s);
    if MatchFront(e, s).None? {
      forall text, name | text <= s ensures !Placeholder(e, text, name) {
        if Placeholder(e, text, name) {
          MatchComplete(e, s, text, name);
        }
      }
    }
  }

  /** Nothing but the front segment divides s. */
  lemma DividesIsFront(e: Engine, seg: Segment, s: string)
    requires TextOf(seg) <= s && s != "" && Divides(e, seg, s)
    ensures Front(e, s) == seg
  {
    match seg {
      case Hole(text, name) => MatchComplete(e, s, text, name);
      case Letter(c) =>
        MatchSound(e, s);
        var m := MatchFront(e, s);
        assert m.Some? ==> s[..m.value.length] <= s;
    }
  }

  ghost predicate Segmented(e: Engine, segs: seq<Segment>) {
    segs != [] ==> Divides(e, segs[0], Concat(segs)) && Segmented(e, segs[1..])
  }

  lemma ScanUnfold(e: Engine, s: string)
    requires s != ""
    ensures Scan(e, s) == [Front(e, s)] + Scan(e, s[|TextOf(Front(e, s))|..])
  {}

  lemma SegmentedCons(e: Engine, seg: Segment, segs: seq<Segment>)
    ensures Concat([seg] + segs) == TextOf(seg) + Concat(segs)
    ensures Segmented(e, [seg] + segs) <==> Divides(e, seg, Concat([seg] + segs)) && Segmented(e, segs)
  {
    assert ([seg] + segs)[1..] == segs;
  }

  /** The segments of a scan concatenate back to the body, and divide it properly. */
  lemma {:induction false} ScanIsSegmented(e: Engine, s: string)
    ensures Concat(Scan(e, s)) == s && Segmented(e, Scan(e, s))
    decreases |s|
  {
    if s == "" {
    } else {
      hide Divides, Front, Scan, Concat, Segmented;
      var front := Front(e, s);
      var rest := s[|TextOf(front)|..];
      ScanIsSegmented(e, rest);
      FrontDivides(e, s);
      ScanUnfold(e, s);
      SegmentedCons(e, front, Scan(e, rest));
      assert TextOf(front) + rest == s;
    }
  }

  /** No other division of a body is proper. */
  lemma {:induction false} SegmentedIsScan(e: Engine, segs: seq<Segment>)
    requires Segmented(e, segs) && forall i :: 0 <= i < |segs| ==> TextOf(segs[i]) != ""
    ensures Scan(e, Concat(segs)) == segs
    decreases |segs|
  {
    if segs == [] {
    } else {
      hide Divides, Front, Scan, Concat, Segmented;
      var t, rest := TextOf(segs[0]), segs[1..];
      assert segs == [segs[0]] + rest;
      SegmentedCons(e, segs[0], rest);
      SegmentedIsScan(e, rest);
      var s := Concat(segs);
      assert s[|t|..] == Concat(rest);
      DividesIsFront(e, segs[0], s);
      ScanUnfold(e, s);
    }
  }

  // ----- names

  function Names(segs: seq<Segment>): set<string> {
    set i | 0 <= i < |segs| && segs[i].Hole? :: segs[i].name
  }

  predicate Less(a: string, b: string) {
    if b == "" then false
    else if a == "" then true
    else a[0] < b[0] || (a[0] == b[0] && Less(a[1..], b[1..]))
  }

  /** The order of strings: by the first difference, a proper prefix first. */
  lemma {:induction false} LessExactly(a: string, b: string)
    ensures Less(a, b)
       <==> || (a <= b && a != b)
            || exists k :: 0 <= k < |a| && k < |b| && a[..k] == b[..k] && a[k] < b[k]
  {
    if a == "" || b == "" {
    } else if a[0] != b[0] {
      assert a[..0] == b[..0];
      assert forall k :: 0 < k < |a| && k < |b| ==> a[..k][0] == a[0] && b[..k][0] == b[0];
    } else {
      var x, y := a[1..], b[1..];
      LessExactly(x, y);
      assert a == [a[0]] + x && b == [b[0]] + y;
      if k :| 0 <= k < |x| && k < |y| && x[..k] == y[..k] && x[k] < y[k] {
        assert a[..k + 1] == [a[0]] + x[..k] && b[..k + 1] == [b[0]] + y[..k];
      }
      if k :| 0 <= k < |a| && k < |b| && a[..k] == b[..k] && a[k] < b[k] {
        assert x[..k - 1] == a[..k][1..] && y[..k - 1] == b[..k][1..];
      }
    }
  }

  /** Strictly increasing in the order of strings. */
  predicate Increasing(names: seq<string>) {
    forall i, j :: 0 <= i < j < |names| ==> Less(names[i], names[j])
  }

  lemma {:induction false} LessTransitive(a: string, b: string, c: string)
    requires Less(a, b) && Less(b, c)
    ensures Less(a, c)
  {
    if a == "" || a[0] != b[0] || b[0] != c[0] {
    } else {
      LessTransitive(a[1..], b[1..], c[1..]);
    }
  }

  lemma {:induction false} LessTotal(a: string, b: string)
    ensures a == b || Less(a, b) || Less(b, a)
    ensures !(Less(a, b) && Less(b, a)) && !Less(a, a)
  {
    if a != "" && b != "" {
      LessTotal(a[1..], b[1..]);
      assert a == [a[0]] + a[1..] && b == [b[0]] + b[1..];
    }
    if a == "" {
    } else {
      LessTotal(a[1..], a[1..]);
    }
  }

  /** A set of names has one increasing list, whatever sort makes it. */
  lemma {:induction false} SortedUnique(x: seq<string>, y: seq<string>)
    requires Increasing(x) && Increasing(y) && forall s :: s in x <==> s in y
    ensures x == y
  {
    HasFirst(x);
    HasFirst(y);
    if x == [] || y == [] {
    } else {
      assert x[0] in y && x[0] in x;
      assert y[0] in x;
      var i :| 0 <= i < |x| && x[i] == y[0];
      var j :| 0 <= j < |y| && y[j] == x[0];
      LessTotal(x[0], y[0]);
      assert x[0] == y[0];
      forall s ensures s in x[1..] <==> s in y[1..] {
        RestOf(x, s);
        RestOf(y, s);
      }
      SortedUnique(x[1..], y[1..]);
      assert x == [x[0]] + x[1..] && y == [y[0]] + y[1..];
    }
  }

  lemma HasFirst(x: seq<string>)
    ensures x == [] || x[0] in x
  {}

  lemma RestOf(x: seq<string>, s: string)
    requires Increasing(x) && x != []
    ensures s in x[1..] <==> s in x && s != x[0]
  {
    LessTotal(x[0], x[0]);
    if s in x && s != x[0] {
      var i :| 0 <= i < |x| && x[i] == s;
      assert x[1..][i - 1] == s;
    }
  }

  /** The set as an increasing list. */
  method Sorted(found: set<string>) returns (out: seq<string>)
    ensures Increasing(out) && forall s :: s in out <==> s in found
  {
    out := [];
    var left := found;
    while left != {}
      invariant left <= found && Increasing(out)
      invariant forall s :: s in out <==> s in found && s !in left
      decreases |left|
    {
      var k :| k in left;
      out := Insert(out, k);
      left := left - {k};
    }
  }

  method Insert(names: seq<string>, k: string) returns (out: seq<string>)
    requires Increasing(names) && k !in names
    ensures Increasing(out) && forall s :: s in out <==> s in names || s == k
  {
    var i := 0;
    while i < |names| && Less(names[i], k)
      invariant 0 <= i <= |names|
      invariant forall j :: 0 <= j < i ==> Less(names[j], k)
    {
      i := i + 1;
    }
    out := names[..i] + [k] + names[i..];
    forall j | i <= j < |names| ensures Less(k, names[j]) {
      LessTotal(names[i], k);
      if i < j {
        LessTransitive(k, names[i], names[j]);
      }
    }
    assert names == names[..i] + names[i..];
  }

  /** RequiredVars, and requiredVariables in the client: the names of a body, once each, in order. */
  method RequiredVars(e: Engine, body: string) returns (out: seq<string>)
    ensures Increasing(out) && forall s :: s in out <==> s in Names(Scan(e, body))
  {
    hide Scan, Front, Names;
    var found: set<string> := {};
    var rest := body;
    ghost var done: seq<Segment> := [];
    ScanFrom(e, body);
    while rest != ""
      invariant Scan(e, body) == done + Scan(e, rest)
      invariant found == Names(done)
      decreases |rest|
    {
      var seg := Front(e, rest);
      ScanStep(e, done, rest);
      NamesPush(done, seg);
      if seg.Hole? {
        found := found + {seg.name};
      }
      done := done + [seg];
      rest := rest[|TextOf(seg)|..];
    }
    out := Sorted(found);
  }

  /** Where the loops over a body start and end. */
  lemma ScanFrom(e: Engine, body: string)
    ensures Scan(e, "") == [] && Names([]) == {} && Scan(e, body) == [] + Scan(e, body)
    ensures forall segs: seq<Segment> :: segs + Scan(e, "") == segs
  {}

  lemma ScanStep(e: Engine, done: seq<Segment>, rest: string)
    requires rest != ""
    ensures var seg := Front(e, rest);
            done + Scan(e, rest) == (done + [seg]) + Scan(e, rest[|TextOf(seg)|..])
  {}

  lemma NamesPush(segs: seq<Segment>, seg: Segment)
    ensures Names(segs + [seg]) == Names(segs) + if seg.Hole? then {seg.name} else {}
  {
    var all := segs + [seg];
    forall x | x in Names(segs) ensures x in Names(all) {
      var i :| 0 <= i < |segs| && segs[i].Hole? && segs[i].name == x;
      assert all[i] == segs[i];
    }
    assert all[|segs|] == seg;
  }

  // ----- filling in

  /** The server takes any given value; the client takes an empty one for missing. */
  predicate Given(e: Engine, name: string, vars: map<string, string>) {
    name in vars && (e == Client ==> vars[name] != "")
  }

  function Filled(e: Engine, seg: Segment, vars: map<string, string>): string {
    if seg.Hole? && Given(e, seg.name, vars) then vars[seg.name] else TextOf(seg)
  }

  /** The body with each hole filled in once; values are not scanned. */
  function Rendered(e: Engine, segs: seq<Segment>, vars: map<string, string>): string {
    if segs == [] then "" else Rendered(e, segs[..|segs| - 1], vars) + Filled(e, segs[|segs| - 1], vars)
  }

  /** The names left unfilled, in order of their holes. */
  function Missing(e: Engine, segs: seq<Segment>, vars: map<string, string>): seq<string> {
    if segs == [] then []
    else
      var seg := segs[|segs| - 1];
      Missing(e, segs[..|segs| - 1], vars) + if seg.Hole? && !Given(e, seg.name, vars) then [seg.name] else []
  }

  /** The first occurrence of each. */
  function Firsts(names: seq<string>): (r: seq<string>)
    ensures forall s :: s in r <==> s in names
    ensures forall i, j :: 0 <= i < j < |r| ==> r[i] != r[j]
  {
    if names == [] then []
    else
      var n := |names| - 1;
      var r := Firsts(names[..n]);
      assert names == names[..n] + [names[n]];
      if names[n] in r then r else r + [names[n]]
  }

  function Flatten<T>(parts: seq<seq<T>>): seq<T> {
    if parts == [] then [] else Flatten(parts[..|parts| - 1]) + parts[|parts| - 1]
  }

  /** What each segment is replaced by: a hole by its value, if one is given that
      the engine takes, and anything else by itself. */
  predicate Fills(e: Engine, segs: seq<Segment>, vars: map<string, string>, fills: seq<string>) {
    && |fills| == |segs|
    && forall i :: 0 <= i < |segs| ==>
         fills[i] == match segs[i]
                     case Letter(c) => [c]
                     case Hole(text, name) =>
                       if name in vars && (e.Server? || vars[name] != "") then vars[name] else text
  }

  /** What each segment reports: a hole left as it is, its name. */
  predicate Reports(e: Engine, segs: seq<Segment>, vars: map<string, string>, reports: seq<seq<string>>) {
    && |reports| == |segs|
    && forall i :: 0 <= i < |segs| ==>
         reports[i] == match segs[i]
                       case Letter(_) => []
                       case Hole(_, name) => if name in vars && (e.Server? || vars[name] != "") then [] else [name]
  }

  lemma {:induction false} RenderedIs(e: Engine, segs: seq<Segment>, vars: map<string, string>, fills: seq<string>)
    requires Fills(e, segs, vars, fills)
    ensures Rendered(e, segs, vars) == Flatten(fills)
  {
    if segs == [] {
    } else {
      RenderedIs(e, segs[..|segs| - 1], vars, fills[..|segs| - 1]);
    }
  }

  lemma {:induction false} MissingIs(e: Engine, segs: seq<Segment>, vars: map<string, string>,
      reports: seq<seq<string>>)
    requires Reports(e, segs, vars, reports)
    ensures Missing(e, segs, vars) == Flatten(reports)
  {
    if segs == [] {
    } else {
      MissingIs(e, segs[..|segs| - 1], vars, reports[..|segs| - 1]);
    }
  }

  lemma {:induction false} FillsOf(e: Engine, segs: seq<Segment>, vars: map<string, string>)
      returns (fills: seq<string>)
    ensures Fills(e, segs, vars, fills)
  {
    if segs == [] {
      fills := [];
    } else {
      var n := |segs| - 1;
      var init := FillsOf(e, segs[..n], vars);
      var last := match segs[n]
        case Letter(c) => [c]
        case Hole(text, name) => if name in vars && (e.Server? || vars[name] != "") then vars[name] else text;
      fills := init + [last];
    }
  }

  lemma {:induction false} ReportsOf(e: Engine, segs: seq<Segment>, vars: map<string, string>)
      returns (reports: seq<seq<string>>)
    ensures Reports(e, segs, vars, reports)
  {
    if segs == [] {
      reports := [];
    } else {
      var n := |segs| - 1;
      var init := ReportsOf(e, segs[..n], vars);
      var last: seq<string> := match segs[n]
        case Letter(_) => []
        case Hole(_, name) => if name in vars && (e.Server? || vars[name] != "") then [] else [name];
      reports := init + [last];
    }
  }

  /** Rendering, segment by segment: the texts put in their places, and the names
      left unfilled, in order. */
  lemma RendersBySegment(e: Engine, segs: seq<Segment>, vars: map<string, string>)
    ensures exists fills :: Fills(e, segs, vars, fills) && Rendered(e, segs, vars) == Flatten(fills)
    ensures exists reports :: Reports(e, segs, vars, reports) && Missing(e, segs, vars) == Flatten(reports)
  {
    hide Fills, Reports, Rendered, Missing, Flatten;
    var fills := FillsOf(e, segs, vars);
    RenderedIs(e, segs, vars, fills);
    var reports := ReportsOf(e, segs, vars);
    MissingIs(e, segs, vars, reports);
  }

  lemma RenderedPush(e: Engine, segs: seq<Segment>, seg: Segment, vars: map<string, string>)
    ensures Rendered(e, segs + [seg], vars) == Rendered(e, segs, vars) + Filled(e, seg, vars)
    ensures Missing(e, segs + [seg], vars)
         == Missing(e, segs, vars) + if seg.Hole? && !Given(e, seg.name, vars) then [seg.name] else []
  {
    assert (segs + [seg])[..|segs|] == segs;
  }

  /** Render, the server's: a missing variable keeps its placeholder and is reported each time. */
  method Render(body: string, vars: map<string, string>) returns (out: string, missing: seq<string>)
    ensures out == Rendered(Server, Scan(Server, body), vars)
    ensures missing == Missing(Server, Scan(Server, body), vars)
    ensures exists fills :: Fills(Server, Scan(Server, body), vars, fills) && out == Flatten(fills)
    ensures exists reports :: Reports(Server, Scan(Server, body), vars, reports) && missing == Flatten(reports)
  {
    hide Fills, Reports, Flatten, Missing, Rendered;
    RendersBySegment(Server, Scan(Server, body), vars);
    RenderedEmpty(Server, vars);
    hide Scan, Front;
    out, missing := "", [];
    var rest := body;
    ghost var done: seq<Segment> := [];
    ScanFrom(Server, body);
    while rest != ""
      invariant Scan(Server, body) == done + Scan(Server, rest)
      invariant out == Rendered(Server, done, vars) && missing == Missing(Server, done, vars)
      decreases |rest|
    {
      var seg := Front(Server, rest);
      ScanStep(Server, done, rest);
      RenderedPush(Server, done, seg, vars);
      if seg.Hole? && seg.name in vars {
        out := out + vars[seg.name];
      } else {
        if seg.Hole? {
          missing := missing + [seg.name];
        }
        out := out + TextOf(seg);
      }
      done := done + [seg];
      rest := rest[|TextOf(seg)|..];
    }
  }

  /** renderTemplate, the client's: an empty value is missing, and each name is reported once. */
  method RenderTemplate(body: string, vars: map<string, string>) returns (rendered: string, missing: seq<string>)
    ensures rendered == Rendered(Client, Scan(Client, body), vars)
    ensures missing == Firsts(Missing(Client, Scan(Client, body), vars))
    ensures exists fills :: Fills(Client, Scan(Client, body), vars, fills) && rendered == Flatten(fills)
    ensures exists reports :: Reports(Client, Scan(Client, body), vars, reports) && missing == Firsts(Flatten(reports))
  {
    hide Fills, Reports, Flatten, Missing, Rendered;
    RendersBySegment(Client, Scan(Client, body), vars);
    RenderedEmpty(Client, vars);
    hide Scan, Front, Firsts;
    rendered, missing := "", [];
    var rest := body;
    ghost var done: seq<Segment> := [];
    ghost var all: seq<string> := [];
    ScanFrom(Client, body);
    FirstsNone();
    while rest != ""
      invariant Scan(Client, body) == done + Scan(Client, rest)
      invariant rendered == Rendered(Client, done, vars)
      invariant all == Missing(Client, done, vars) && missing == Firsts(all)
      decreases |rest|
    {
      var seg := Front(Client, rest);
      ScanStep(Client, done, rest);
      RenderedPush(Client, done, seg, vars);
      if seg.Hole? && seg.name in vars && vars[seg.name] != "" {
        rendered := rendered + vars[seg.name];
      } else {
        if seg.Hole? {
          FirstsPush(all, seg.name);
          all := all + [seg.name];
          if seg.name !in missing {
            missing := missing + [seg.name];
          }
        }
        rendered := rendered + TextOf(seg);
      }
      done := done + [seg];
      rest := rest[|TextOf(seg)|..];
    }
  }

  lemma RenderedEmpty(e: Engine, vars: map<string, string>)
    ensures Rendered(e, [], vars) == "" && Missing(e, [], vars) == []
  {
  }

  /** First occurrences come in the order in which the names first occur. */
  lemma {:induction false} FirstsInOrder(names: seq<string>, i: nat, j: nat)
    requires i < j < |Firsts(names)|
    ensures exists k :: 0 <= k < |names| && names[k] == Firsts(names)[i]
                        && forall m :: 0 <= m <= k ==> names[m] != Firsts(names)[j]
  {
    if names == [] {
    } else {
      var n := |names| - 1;
      var r := Firsts(names[..n]);
      if j < |r| {
        FirstsInOrder(names[..n], i, j);
      } else {
        assert r[i] in names[..n];
        var k :| 0 <= k < n && names[k] == r[i];
        assert forall m :: 0 <= m < n ==> names[m] in names[..n];
      }
    }
  }

  lemma FirstsNone()
    ensures Firsts([]) == []
  {}

  lemma FirstsPush(names: seq<string>, name: string)
    ensures Firsts(names + [name]) == if name in Firsts(names) then Firsts(names) else Firsts(names) + [name]
  {
    assert (names + [name])[..|names|] == names;
  }

  /** The names reported are the required ones that were not given. */
  lemma {:induction false} MissingNames(e: Engine, segs: seq<Segment>, vars: map<string, string>)
    ensures forall s :: s in Missing(e, segs, vars) <==> s in Names(segs) && !Given(e, s, vars)
  {
    if segs == [] {
    } else {
      var n := |segs| - 1;
      MissingNames(e, segs[..n], vars);
      assert segs == segs[..n] + [segs[n]];
      NamesPush(segs[..n], segs[n]);
    }
  }

  lemma {:induction false} ConcatPush(segs: seq<Segment>, seg: Segment)
    ensures Concat(segs + [seg]) == Concat(segs) + TextOf(seg)
  {
    if segs == [] {
    } else {
      assert (segs + [seg])[1..] == segs[1..] + [seg];
      ConcatPush(segs[1..], seg);
    }
  }

  /** With none of its names given, a body renders as it stands. */
  lemma {:induction false} NothingGiven(e: Engine, segs: seq<Segment>, vars: map<string, string>)
    requires forall s :: s in Names(segs) ==> !Given(e, s, vars)
    ensures Rendered(e, segs, vars) == Concat(segs)
  {
    if segs == [] {
    } else {
      var n := |segs| - 1;
      assert segs == segs[..n] + [segs[n]];
      NamesPush(segs[..n], segs[n]);
      NothingGiven(e, segs[..n], vars);
      ConcatPush(segs[..n], segs[n]);
    }
  }

  /** An empty map gives the body back and reports every required name. */
  lemma EmptyMap(e: Engine, body: string)
    ensures Rendered(e, Scan(e, body), map[]) == body
    ensures forall s :: s in Missing(e, Scan(e, body), map[]) <==> s in Names(Scan(e, body))
  {
    NothingGiven(e, Scan(e, body), map[]);
    ScanIsSegmented(e, body);
    MissingNames(e, Scan(e, body), map[]);
  }

  // ----- the twins

  lemma ServerIsClient(text: string, name: string)
    requires Placeholder(Server, text, name)
    ensures Placeholder(Client, text, name)
  {
    var i, j :| Parts(Server, text, i, j) && name == text[i..j];
    assert Parts(Client, text, i, j);
  }

  /** The server would match each hole of the client's too: no hole is padded with
      a space that only the client's engine knows. */
  ghost predicate PlainHoles(segs: seq<Segment>) {
    forall i :: 0 <= i < |segs| && segs[i].Hole? ==> Placeholder(Server, segs[i].text, segs[i].name)
  }

  function Letters(s: string): (segs: seq<Segment>)
    ensures |segs| == |s| && forall i :: 0 <= i < |s| ==> segs[i] == Letter(s[i])
  {
    seq(|s|, i requires 0 <= i < |s| => Letter(s[i]))
  }

  /** Text in which no placeholder starts divides into its letters. */
  lemma {:induction false} LettersAhead(e: Engine, s: string, segs: seq<Segment>)
    requires Segmented(e, segs) && forall k :: 0 <= k < |s| ==> !Starts(e, s[k..] + Concat(segs))
    ensures Concat(Letters(s) + segs) == s + Concat(segs) && Segmented(e, Letters(s) + segs)
    decreases |s|
  {
    hide Segmented, Concat, Starts;
    if s == "" {
      assert Letters(s) + segs == segs;
    } else {
      var rest := s[1..];
      forall k | 0 <= k < |rest| ensures !Starts(e, rest[k..] + Concat(segs)) {
        assert rest[k..] == s[k + 1..];
      }
      LettersAhead(e, rest, segs);
      SegmentedCons(e, Letter(s[0]), Letters(rest) + segs);
      assert Letters(s) + segs == [Letter(s[0])] + (Letters(rest) + segs);
      assert s[0..] == s && [s[0]] + (rest + Concat(segs)) == s + Concat(segs);
    }
  }

  /** A placeholder has its only dollar sign in front. */
  lemma DollarInFront(e: Engine, text: string, name: string)
    requires Placeholder(e, text, name)
    ensures text != "" && text[0] == '$' && forall k :: 1 <= k < |text| ==> text[k] != '$'
  {
  }

  lemma OnlyDollarStarts(e: Engine, s: string)
    ensures Starts(e, s) ==> s != "" && s[0] == '$'
  {
    if text, name :| text <= s && Placeholder(e, text, name) {
      DollarInFront(e, text, name);
      assert s[0] == text[0];
    }
  }

  ghost predicate Plain(seg: Segment) {
    seg.Hole? ==> Placeholder(Server, seg.text, seg.name)
  }

  /** The client's segments as the server sees them: a hole it does not know is text. */
  ghost function ServerSegs(segs: seq<Segment>): seq<Segment> {
    if segs == [] then []
    else (if Plain(segs[0]) then [segs[0]] else Letters(TextOf(segs[0]))) + ServerSegs(segs[1..])
  }

  lemma {:induction false} ServerSegmented(segs: seq<Segment>)
    requires Segmented(Client, segs)
    ensures Segmented(Server, ServerSegs(segs)) && Concat(ServerSegs(segs)) == Concat(segs)
  {
    if segs == [] {
    } else {
      var seg, rest := segs[0], segs[1..];
      ServerSegmented(rest);
      hide Segmented, Concat, ServerSegs, Starts, Placeholder;
      SegmentedUncons(Client, segs);
      ServerSegsUncons(segs);
      if Plain(seg) {
        SegmentedCons(Server, seg, ServerSegs(rest));
        ServerStarts(Concat(segs));
      } else {
        HoleUnknown(seg.text, seg.name, Concat(rest));
        LettersAhead(Server, seg.text, ServerSegs(rest));
      }
    }
  }

  lemma ServerSegsUncons(segs: seq<Segment>)
    requires segs != []
    ensures ServerSegs(segs) == (if Plain(segs[0]) then [segs[0]] else Letters(TextOf(segs[0]))) + ServerSegs(segs[1..])
  {
  }

  lemma SegmentedUncons(e: Engine, segs: seq<Segment>)
    requires Segmented(e, segs) && segs != []
    ensures Divides(e, segs[0], Concat(segs)) && Segmented(e, segs[1..]) &&
      Concat(segs) == TextOf(segs[0]) + Concat(segs[1..])
  {
  }

  lemma ServerStarts(s: string)
    ensures Starts(Server, s) ==> Starts(Client, s)
  {
    if text, name :| text <= s && Placeholder(Server, text, name) {
      ServerIsClient(text, name);
    }
  }

  /** Nothing the server knows starts within a hole only the client knows. */
  lemma HoleUnknown(text: string, name: string, rest: string)
    requires Placeholder(Client, text, name) && !Placeholder(Server, text, name)
    ensures forall k :: 0 <= k < |text| ==> !Starts(Server, text[k..] + rest)
  {
    hide Placeholder, Starts;
    DollarInFront(Client, text, name);
    forall k | 0 <= k < |text| ensures !Starts(Server, text[k..] + rest) {
      OnlyDollarStarts(Server, text[k..] + rest);
      if k == 0 {
        assert text[0..] == text;
        UnknownFront(text, name, rest);
      }
    }
  }

  lemma UnknownFront(text: string, name: string, rest: string)
    requires Placeholder(Client, text, name) && !Placeholder(Server, text, name)
    ensures !Starts(Server, text + rest)
  {
    hide Placeholder;
    var s := text + rest;
    forall other, n | other <= s && Placeholder(Server, other, n) ensures other == text && n == name {
      ServerIsClient(other, n);
      MatchComplete(Client, s, other, n);
      MatchComplete(Client, s, text, name);
      assert other == s[..|text|];
    }
  }

  /** For every body, what the server scans is what the client scans, with the
      holes only the client knows taken as text. */
  lemma ServerScan(body: string)
    ensures Scan(Server, body) == ServerSegs(Scan(Client, body))
  {
    ScanIsSegmented(Client, body);
    ServerSegmented(Scan(Client, body));
    TextsNonEmpty(Server, ServerSegs(Scan(Client, body)));
    SegmentedIsScan(Server, ServerSegs(Scan(Client, body)));
  }

  lemma {:induction false} PlainServerSegs(segs: seq<Segment>)
    ensures PlainHoles(segs) ==> ServerSegs(segs) == segs
    ensures PlainHoles(ServerSegs(segs))
  {
    if segs == [] {
    } else {
      PlainServerSegs(segs[1..]);
      assert forall i :: 1 <= i < |segs| ==> segs[i] == segs[1..][i - 1];
      assert segs == [segs[0]] + segs[1..];
    }
  }

  /** Server and client divide a body alike exactly when every hole the client
      finds is plain. */
  lemma ScansAgree(body: string)
    ensures Scan(Server, body) == Scan(Client, body) <==> PlainHoles(Scan(Client, body))
  {
    ServerScan(body);
    PlainServerSegs(Scan(Client, body));
  }

  /** A placeholder padded with a no-break space is one for the client only. */
  lemma UnplainBody()
    ensures var body := "${\U{00A0}a}";
            Scan(Client, body) == [Hole(body, "a")] && !PlainHoles(Scan(Client, body))
  {
    var body := "${\U{00A0}a}";
    assert Parts(Client, body, 3, 4) && body[3..4] == "a";
    assert body <= body;
    DividesIsFront(Client, Hole(body, "a"), body);
    ScanUnfold(Client, body);
    assert body[5..] == "" && Scan(Client, "") == [];
    assert !Space(Server, body[2]) && !NameChar(body[2]);
    assert !Placeholder(Server, body, "a");
    assert Scan(Client, body)[0] == Hole(body, "a");
  }

  /** On a body they divide alike, both render the same text exactly when no name
      of it is given an empty value; then they miss the same names. */
  lemma {:induction false} RendersAgree(segs: seq<Segment>, vars: map<string, string>)
    requires forall i :: 0 <= i < |segs| ==> TextOf(segs[i]) != ""
    ensures (forall s :: s in Names(segs) && s in vars ==> vars[s] != "")
       <==> Rendered(Server, segs, vars) == Rendered(Client, segs, vars)
    ensures |Rendered(Server, segs, vars)| <= |Rendered(Client, segs, vars)|
    ensures (forall s :: s in Names(segs) && s in vars ==> vars[s] != "")
       ==> Missing(Server, segs, vars) == Missing(Client, segs, vars)
  {
    if segs == [] {
    } else {
      var n := |segs| - 1;
      var init, seg := segs[..n], segs[n];
      RendersAgree(init, vars);
      assert segs == init + [seg];
      NamesPush(init, seg);
      var x, y := Filled(Server, seg, vars), Filled(Client, seg, vars);
      var bad := seg.Hole? && seg.name in vars && vars[seg.name] == "";
      assert if bad then |x| < |y| else x == y;
      if !bad {
        AppendCancel(Rendered(Server, init, vars), Rendered(Client, init, vars), x);
      }
    }
  }

  lemma AppendCancel(a: string, b: string, c: string)
    ensures a + c == b + c <==> a == b
  {
    if a + c == b + c {
      assert a == (a + c)[..|a|] && b == (b + c)[..|b|];
    }
  }

  /** What the server makes of one of the client's segments. */
  ghost function ServerFilled(seg: Segment, vars: map<string, string>): string {
    if Plain(seg) then Filled(Server, seg, vars) else TextOf(seg)
  }

  ghost function ServerText(segs: seq<Segment>, vars: map<string, string>): string {
    if segs == [] then "" else ServerFilled(segs[0], vars) + ServerText(segs[1..], vars)
  }

  lemma RenderedNone(e: Engine, vars: map<string, string>)
    ensures Rendered(e, [], vars) == ""
  {
  }

  lemma {:induction false} RenderedAppend(e: Engine, a: seq<Segment>, b: seq<Segment>, vars: map<string, string>)
    ensures Rendered(e, a + b, vars) == Rendered(e, a, vars) + Rendered(e, b, vars)
    decreases |b|
  {
    hide Rendered, Filled;
    if b == [] {
      assert a + b == a;
      RenderedNone(e, vars);
    } else {
      var init, last := b[..|b| - 1], b[|b| - 1];
      assert a + b == (a + init) + [last] && b == init + [last];
      RenderedAppend(e, a, init, vars);
      RenderedPush(e, a + init, last, vars);
      RenderedPush(e, init, last, vars);
    }
  }

  lemma RenderedOne(e: Engine, seg: Segment, vars: map<string, string>)
    ensures Rendered(e, [seg], vars) == Filled(e, seg, vars)
  {
    assert [] + [seg] == [seg];
    RenderedPush(e, [], seg, vars);
  }

  lemma {:induction false} RenderedLetters(e: Engine, s: string, vars: map<string, string>)
    ensures Rendered(e, Letters(s), vars) == s
  {
    if s == "" {
    } else {
      var n := |s| - 1;
      RenderedLetters(e, s[..n], vars);
      assert Letters(s) == Letters(s[..n]) + [Letter(s[n])];
      RenderedPush(e, Letters(s[..n]), Letter(s[n]), vars);
      assert s[..n] + [s[n]] == s;
    }
  }

  lemma {:induction false} ServerRenders(segs: seq<Segment>, vars: map<string, string>)
    ensures Rendered(Server, ServerSegs(segs), vars) == ServerText(segs, vars)
  {
    if segs == [] {
    } else {
      hide Rendered, Letters, Filled;
      var first := if Plain(segs[0]) then [segs[0]] else Letters(TextOf(segs[0]));
      ServerRenders(segs[1..], vars);
      RenderedAppend(Server, first, ServerSegs(segs[1..]), vars);
      RenderedOne(Server, segs[0], vars);
      RenderedLetters(Server, TextOf(segs[0]), vars);
    }
  }

  /** The two renderings, for every body and map: the server's fills in the plain
      ones of the client's holes and leaves the others as text. */
  lemma TwinsCompared(body: string, vars: map<string, string>)
    ensures Rendered(Server, Scan(Server, body), vars) == ServerText(Scan(Client, body), vars)
  {
    ServerScan(body);
    ServerRenders(Scan(Client, body), vars);
  }

  /** Where they divide a body alike, both render the same text exactly when no name
      of it is given an empty value. */
  lemma TwinsAgree(body: string, vars: map<string, string>)
    ensures PlainHoles(Scan(Client, body)) ==>
              ((forall s :: s in Names(Scan(Server, body)) && s in vars ==> vars[s] != "")
               <==> Rendered(Server, Scan(Server, body), vars) == Rendered(Client, Scan(Client, body), vars))
  {
    ScansAgree(body);
    ScanIsSegmented(Server, body);
    TextsNonEmpty(Server, Scan(Server, body));
    if PlainHoles(Scan(Client, body)) {
      RendersAgree(Scan(Server, body), vars);
    }
  }

  ghost predicate NoEmptyValue(vars: map<string, string>) {
    forall s :: s in vars ==> vars[s] != ""
  }

  /** A hole of that name that only the client knows. */
  ghost predicate Apart(seg: Segment, name: string) {
    seg.Hole? && seg.name == name && !Plain(seg)
  }

  lemma LongOne(seg: Segment, name: string, v: string)
    requires |TextOf(seg)| < |v|
    ensures var s, c := ServerFilled(seg, map[name := v]), Filled(Client, seg, map[name := v]);
            |s| <= |c| && (Apart(seg, name) ==> |s| < |c|)
  {
  }

  /** With a long value for a name, the client's text is no shorter than the
      server's, and longer where hole i is one of that name that is not plain. */
  lemma {:induction false} LongValue(segs: seq<Segment>, name: string, v: string, i: nat)
    requires forall k :: 0 <= k < |segs| ==> |TextOf(segs[k])| < |v|
    ensures |ServerText(segs, map[name := v])| <= |Rendered(Client, segs, map[name := v])|
    ensures i < |segs| && Apart(segs[i], name) ==>
      |ServerText(segs, map[name := v])| < |Rendered(Client, segs, map[name := v])|
  {
    if segs == [] {
    } else {
      hide Rendered, Filled, ServerFilled, Apart, TextOf;
      var vars, rest := map[name := v], segs[1..];
      LongValue(rest, name, v, if i > 0 then i - 1 else |segs|);
      LongOne(segs[0], name, v);
      assert segs == [segs[0]] + rest;
      RenderedAppend(Client, [segs[0]], rest, vars);
      RenderedOne(Client, segs[0], vars);
    }
  }

  lemma {:induction false} TextsShort(segs: seq<Segment>)
    ensures forall i :: 0 <= i < |segs| ==> |TextOf(segs[i])| <= |Concat(segs)|
  {
    if segs == [] {
    } else {
      TextsShort(segs[1..]);
      assert forall i :: 1 <= i < |segs| ==> segs[i] == segs[1..][i - 1];
    }
  }

  /** A body renders alike on both sides, whatever non-empty values are given,
      exactly when every hole the client finds in it is plain. */
  lemma TwinsAlwaysAgree(body: string)
    ensures PlainHoles(Scan(Client, body))
       <==> forall vars :: NoEmptyValue(vars) ==>
         Rendered(Server, Scan(Server, body), vars) == Rendered(Client, Scan(Client, body), vars)
  {
    hide Rendered, ServerText, Scan;
    var segs := Scan(Client, body);
    if PlainHoles(segs) {
      forall vars | NoEmptyValue(vars)
        ensures Rendered(Server, Scan(Server, body), vars) == Rendered(Client, segs, vars)
      {
        TwinsAgree(body, vars);
      }
    } else {
      var i :| 0 <= i < |segs| && segs[i].Hole? && !Placeholder(Server, segs[i].text, segs[i].name);
      var v := body + "x";
      var vars := map[segs[i].name := v];
      ScanIsSegmented(Client, body);
      TextsShort(segs);
      assert Apart(segs[i], segs[i].name);
      LongValue(segs, segs[i].name, v, i);
      TwinsCompared(body, vars);
      assert NoEmptyValue(vars);
    }
  }

  lemma {:induction false} TextsNonEmpty(e: Engine, segs: seq<Segment>)
    requires Segmented(e, segs)
    ensures forall i :: 0 <= i < |segs| ==> TextOf(segs[i]) != ""
  {
    if segs == [] {
    } else {
      TextsNonEmpty(e, segs[1..]);
      assert forall i :: 1 <= i < |segs| ==> segs[i] == segs[1..][i - 1];
      if segs[0].Hole? {
        assert Placeholder(e, segs[0].text, segs[0].name);
      }
    }
  }

  // ----- what one pass does not give

  /** The segments of a rendered body, were nothing in it scanned again: values are
      letters, and holes not given are kept. */
  function Pieces(e: Engine, segs: seq<Segment>, vars: map<string, string>): seq<Segment> {
    if segs == [] then [] else Piece(e, segs[0], vars) + Pieces(e, segs[1..], vars)
  }

  function Piece(e: Engine, seg: Segment, vars: map<string, string>): seq<Segment> {
    if seg.Hole? && Given(e, seg.name, vars) then Letters(vars[seg.name]) else [seg]
  }

  lemma {:induction false} ConcatAppend(a: seq<Segment>, b: seq<Segment>)
    ensures Concat(a + b) == Concat(a) + Concat(b)
  {
    if a == [] {
      assert a + b == b;
    } else {
      assert (a + b)[1..] == a[1..] + b;
      ConcatAppend(a[1..], b);
    }
  }

  lemma {:induction false} ConcatLetters(s: string)
    ensures Concat(Letters(s)) == s
  {
    if s == "" {
    } else {
      assert Letters(s)[1..] == Letters(s[1..]);
      ConcatLetters(s[1..]);
    }
  }

  lemma PieceFilled(e: Engine, seg: Segment, vars: map<string, string>)
    ensures Concat(Piece(e, seg, vars)) == Filled(e, seg, vars)
  {
    ConcatOne(seg);
    ConcatLetters(Filled(e, seg, vars));
  }

  lemma {:induction false} PiecesRendered(e: Engine, segs: seq<Segment>, vars: map<string, string>)
    ensures Concat(Pieces(e, segs, vars)) == Rendered(e, segs, vars)
  {
    if segs == [] {
    } else {
      hide Concat, Rendered, Piece, Filled;
      var seg, rest := segs[0], segs[1..];
      PiecesRendered(e, rest, vars);
      ConcatAppend(Piece(e, seg, vars), Pieces(e, rest, vars));
      PieceFilled(e, seg, vars);
      assert segs == [seg] + rest;
      RenderedAppend(e, [seg], rest, vars);
      RenderedOne(e, seg, vars);
    }
  }

  lemma ConcatOne(seg: Segment)
    ensures Concat([seg]) == TextOf(seg)
  {
    assert [seg][1..] == [] && Concat([seg][1..]) == "";
  }

  predicate IsDollar(seg: Segment) {
    seg == Letter('$')
  }

  /** The letters before the first hole. */
  function RunText(segs: seq<Segment>): string {
    if segs == [] || segs[0].Hole? then "" else [segs[0].c] + RunText(segs[1..])
  }

  /** In some run of letters between two holes, a letter starts a placeholder. */
  ghost predicate Fresh(e: Engine, segs: seq<Segment>) {
    exists k :: 0 <= k < |segs| && IsDollar(segs[k]) && Starts(e, RunText(segs[k..]))
  }

  lemma {:induction false} RunThenHole(e: Engine, segs: seq<Segment>)
    requires ProperHoles(e, segs)
    ensures var run, all := RunText(segs), Concat(segs);
            run <= all && (|run| < |all| ==> all[|run|] == '$')
  {
    if segs == [] {
    } else {
      assert forall i :: 1 <= i < |segs| ==> segs[i] == segs[1..][i - 1];
      if segs[0].Hole? {
        DollarInFront(e, segs[0].text, segs[0].name);
      } else {
        RunThenHole(e, segs[1..]);
      }
    }
  }

  /** A placeholder that starts at a letter ends before the next hole, as its only
      dollar sign is in front. */
  lemma StartsInRun(e: Engine, segs: seq<Segment>)
    requires ProperHoles(e, segs) && segs != [] && segs[0].Letter?
    ensures Starts(e, Concat(segs)) <==> Starts(e, RunText(segs))
  {
    hide Placeholder;
    var run, all := RunText(segs), Concat(segs);
    RunThenHole(e, segs);
    assert run != "";
    forall text, name | text <= all && Placeholder(e, text, name) ensures text <= run {
      DollarInFront(e, text, name);
      assert forall m :: 0 <= m < |text| ==> text[m] == all[m];
    }
    if text, name :| text <= run && Placeholder(e, text, name) {
      assert text <= all;
    }
  }

  /** Each hole among the segments is a placeholder. */
  ghost predicate ProperHoles(e: Engine, segs: seq<Segment>) {
    forall i :: 0 <= i < |segs| && segs[i].Hole? ==> Placeholder(e, segs[i].text, segs[i].name)
  }

  lemma {:induction false} SegmentedProper(e: Engine, segs: seq<Segment>)
    requires Segmented(e, segs)
    ensures ProperHoles(e, segs)
  {
    if segs == [] {
    } else {
      SegmentedProper(e, segs[1..]);
      assert forall i :: 1 <= i < |segs| ==> segs[i] == segs[1..][i - 1];
    }
  }

  lemma {:induction false} PiecesProper(e: Engine, segs: seq<Segment>, vars: map<string, string>)
    requires ProperHoles(e, segs)
    ensures ProperHoles(e, Pieces(e, segs, vars))
  {
    if segs == [] {
    } else {
      assert forall i :: 1 <= i < |segs| ==> segs[i] == segs[1..][i - 1];
      PiecesProper(e, segs[1..], vars);
    }
  }

  lemma {:induction false} NotFreshSegmented(e: Engine, segs: seq<Segment>)
    requires ProperHoles(e, segs)
    ensures Segmented(e, segs) <==> !Fresh(e, segs)
  {
    hide Concat, RunText, Starts, Placeholder;
    if segs == [] {
    } else {
      var rest := segs[1..];
      assert forall i :: 1 <= i < |segs| ==> segs[i] == rest[i - 1] && segs[i..] == rest[i - 1..];
      assert segs[0..] == segs;
      NotFreshSegmented(e, rest);
      DividesUnlessFresh(e, segs);
      if segs[0].Letter? {
        StartsInRun(e, segs);
      }
      FreshUncons(e, segs);
    }
  }

  lemma FreshUncons(e: Engine, segs: seq<Segment>)
    requires segs != []
    ensures Fresh(e, segs) <==> (IsDollar(segs[0]) && Starts(e, RunText(segs))) || Fresh(e, segs[1..])
  {
    hide RunText, Starts;
    var rest := segs[1..];
    assert forall i :: 1 <= i < |segs| ==> segs[i] == rest[i - 1] && segs[i..] == rest[i - 1..];
    assert segs[0..] == segs;
    if k :| 0 <= k < |rest| && IsDollar(rest[k]) && Starts(e, RunText(rest[k..])) {
      assert segs[k + 1] == rest[k] && segs[k + 1..] == rest[k..];
    }
  }

  lemma DividesUnlessFresh(e: Engine, segs: seq<Segment>)
    requires segs != [] && (segs[0].Hole? ==> Placeholder(e, segs[0].text, segs[0].name))
    ensures Divides(e, segs[0], Concat(segs)) <==> !(IsDollar(segs[0]) && Starts(e, Concat(segs)))
  {
    hide Starts, Placeholder;
    OnlyDollarStarts(e, Concat(segs));
    if segs[0].Letter? {
      assert Concat(segs)[0] == segs[0].c;
    }
  }

  /** A rendered body scans to just its kept holes exactly when no dollar sign of the
      body's text or of a value starts a placeholder in it. */
  lemma FreshExactly(e: Engine, body: string, vars: map<string, string>)
    ensures var segs := Scan(e, body);
            Scan(e, Rendered(e, segs, vars)) == Pieces(e, segs, vars) <==> !Fresh(e, Pieces(e, segs, vars))
  {
    var segs := Scan(e, body);
    var pieces, out := Pieces(e, segs, vars), Rendered(e, segs, vars);
    ScanIsSegmented(e, body);
    SegmentedProper(e, segs);
    PiecesProper(e, segs, vars);
    PiecesRendered(e, segs, vars);
    NotFreshSegmented(e, pieces);
    ScanIsSegmented(e, out);
    ProperNonEmpty(e, pieces);
    if Segmented(e, pieces) {
      SegmentedIsScan(e, pieces);
    }
  }

  lemma ProperNonEmpty(e: Engine, segs: seq<Segment>)
    requires ProperHoles(e, segs)
    ensures forall i :: 0 <= i < |segs| ==> TextOf(segs[i]) != ""
  {
    forall i | 0 <= i < |segs| ensures TextOf(segs[i]) != "" {
      if segs[i].Hole? {
        DollarInFront(e, segs[i].text, segs[i].name);
      }
    }
  }

  predicate DollarFree(s: string) {
    forall i :: 0 <= i < |s| ==> s[i] != '$'
  }

  lemma {:induction false} PiecesDollarFree(e: Engine, segs: seq<Segment>, vars: map<string, string>)
    requires forall i :: 0 <= i < |segs| ==> !IsDollar(segs[i])
    requires forall s :: s in Names(segs) && Given(e, s, vars) ==> DollarFree(vars[s])
    ensures forall i :: 0 <= i < |Pieces(e, segs, vars)| ==> !IsDollar(Pieces(e, segs, vars)[i])
  {
    if segs == [] {
    } else {
      hide Given, Names;
      var seg, rest := segs[0], segs[1..];
      NamesCons(seg, rest);
      assert segs == [seg] + rest;
      PiecesDollarFree(e, rest, vars);
      if seg.Hole? && Given(e, seg.name, vars) {
        GivenIsIn(e, seg.name, vars);
      }
    }
  }

  lemma {:induction false} PiecesNames(e: Engine, segs: seq<Segment>, vars: map<string, string>)
    ensures Names(Pieces(e, segs, vars)) == set s | s in Names(segs) && !Given(e, s, vars)
  {
    if segs == [] {
    } else {
      hide Given, Names;
      var seg, rest := segs[0], segs[1..];
      NamesCons(seg, rest);
      assert segs == [seg] + rest;
      PiecesNames(e, rest, vars);
      NamesCons(seg, Pieces(e, rest, vars));
      if seg.Hole? && Given(e, seg.name, vars) {
        GivenIsIn(e, seg.name, vars);
        NamesLetters(vars[seg.name], Pieces(e, rest, vars));
      }
    }
  }

  lemma GivenIsIn(e: Engine, name: string, vars: map<string, string>)
    ensures Given(e, name, vars) ==> name in vars
  {
  }

  lemma NamesCons(seg: Segment, segs: seq<Segment>)
    ensures Names([seg] + segs) == Names(segs) + if seg.Hole? then {seg.name} else {}
  {
    var all := [seg] + segs;
    assert all[0] == seg;
    forall x | x in Names(segs) ensures x in Names(all) {
      var i :| 0 <= i < |segs| && segs[i].Hole? && segs[i].name == x;
      assert all[i + 1] == segs[i];
    }
  }

  lemma NamesLetters(s: string, segs: seq<Segment>)
    ensures Names(Letters(s) + segs) == Names(segs)
  {
    var all := Letters(s) + segs;
    forall x | x in Names(segs) ensures x in Names(all) {
      var i :| 0 <= i < |segs| && segs[i].Hole? && segs[i].name == x;
      assert all[|s| + i] == segs[i];
    }
  }

  /** Without a dollar sign in its text, other than its placeholders', and in the values given
      for its names, a body renders to one whose placeholders are the kept ones. */
  lemma DollarFreeIsSafe(e: Engine, body: string, vars: map<string, string>)
    requires forall i :: 0 <= i < |Scan(e, body)| ==> !IsDollar(Scan(e, body)[i])
    requires forall s :: s in Names(Scan(e, body)) && Given(e, s, vars) ==> DollarFree(vars[s])
    ensures var out := Rendered(e, Scan(e, body), vars);
            && Scan(e, out) == Pieces(e, Scan(e, body), vars)
            && forall s :: s in Names(Scan(e, out)) <==> s in Missing(e, Scan(e, body), vars)
  {
    hide Rendered, Missing, Names, Pieces, Starts;
    FreshExactly(e, body, vars);
    PiecesDollarFree(e, Scan(e, body), vars);
    PiecesNames(e, Scan(e, body), vars);
    MissingNames(e, Scan(e, body), vars);
  }

  /** A rendered body can hold a fresh placeholder, made of a letter of the body
      and a value. */
  lemma FreshPlaceholder()
    ensures Scan(Server, "$${a}") == [Letter('$'), Hole("${a}", "a")]
    ensures Rendered(Server, [Letter('$'), Hole("${a}", "a")], map["a" := "{b}"]) == "${b}"
    ensures Placeholder(Server, "${b}", "b")
  {
    hide Scan, Rendered, Filled, Missing;
    var e, body, hole := Server, "$${a}", Hole("${a}", "a");
    assert Parts(e, "${a}", 2, 3) && Parts(e, "${b}", 2, 3);
    assert "${a}"[2..3] == "a" && "${b}"[2..3] == "b";
    assert Front(e, body) == Letter('$') && body[1..] == "${a}";
    ScanUnfold(e, body);
    DividesIsFront(e, hole, "${a}");
    ScanUnfold(e, "${a}");
    assert "${a}"[4..] == "";
    ScanFrom(e, body);
    RenderPair(hole, map["a" := "{b}"]);
  }

  lemma RenderPair(hole: Segment, vars: map<string, string>)
    requires hole.Hole? && hole.name in vars
    ensures Rendered(Server, [Letter('$'), hole], vars) == "$" + vars[hole.name]
  {
    var first: seq<Segment> := [Letter('$')];
    var both := [Letter('$'), hole];
    assert first[..0] == [] && both[..1] == first;
    assert Rendered(Server, first, vars) == "" + "$";
  }
}

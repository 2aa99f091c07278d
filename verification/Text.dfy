/** The parts of Go's strings and strconv packages the cron parser relies on. */
module Text {

  datatype Option<+T> = None | Some(value: T)

  /** Position of the first c in s, or -1: strings.IndexByte. */
  function IndexOf(s: string, c: char): (i: int)
    ensures -1 <= i < |s|
    ensures i >= 0 ==> s[i] == c && c !in s[..i]
    ensures i == -1 ==> c !in s
  {
    if s == "" then -1
    else if s[0] == c then 0
    else
      var i := IndexOf(s[1..], c);
      assert s == [s[0]] + s[1..];
      if i == -1 then -1 else assert s[..i + 1] == [s[0]] + s[1..][..i]; i + 1
  }

  lemma IndexOfIs(s: string, c: char, i: nat)
    requires i < |s| && s[i] == c && c !in s[..i]
    ensures IndexOf(s, c) == i
  {
    var j := IndexOf(s, c);
    assert forall m :: 0 <= m < i ==> s[m] == s[..i][m];
    assert forall m :: 0 <= m < j ==> s[m] == s[..j][m];
  }

  /** strings.Split with a one-character separator. */
  function Split(s: string, c: char): (parts: seq<string>)
    ensures |parts| > 0
    ensures forall p :: p in parts ==> c !in p
    decreases |s|
  {
    var i := IndexOf(s, c);
    if i == -1 then [s] else [s[..i]] + Split(s[i + 1..], c)
  }

  function Join(parts: seq<string>, c: char): string
    requires |parts| > 0
  {
    if |parts| == 1 then parts[0] else parts[0] + [c] + Join(parts[1..], c)
  }

  lemma SplitFirst(first: string, rest: string, c: char)
    requires c !in first
    ensures Split(first + [c] + rest, c) == [first] + Split(rest, c)
  {
    var s := first + [c] + rest;
    assert s[..|first|] == first && s[|first| + 1..] == rest;
    IndexOfIs(s, c, |first|);
  }

  /** Split inverts Join on parts free of the separator. */
  lemma {:induction false} SplitJoin(parts: seq<string>, c: char)
    requires |parts| > 0 && forall p :: p in parts ==> c !in p
    ensures Split(Join(parts, c), c) == parts
  {
    if |parts| == 1 {
      assert parts == [parts[0]] && parts[0] in parts;
      assert IndexOf(parts[0], c) == -1;
    } else {
      var first, rest := parts[0], Join(parts[1..], c);
      SplitJoin(parts[1..], c);
      SplitFirst(first, rest, c);
    }
  }

  /** unicode.IsSpace. */
  predicate IsSpace(c: char) {
    || c in "\t\n\r "
    || c as int in {0x0B, 0x0C, 0x85, 0xA0, 0x1680, 0x2028, 0x2029, 0x202F, 0x205F, 0x3000}
    || 0x2000 <= c as int <= 0x200A
  }

  predicate SpaceFree(s: string) {
    forall i :: 0 <= i < |s| ==> !IsSpace(s[i])
  }

  function WordLength(s: string): (n: nat)
    ensures n <= |s| && SpaceFree(s[..n]) && (n < |s| ==> IsSpace(s[n]))
  {
    if s == "" || IsSpace(s[0]) then 0
    else
      var n := WordLength(s[1..]);
      assert s[..n + 1] == [s[0]] + s[1..][..n];
      n + 1
  }

  /** strings.Fields. */
  function Fields(s: string): (words: seq<string>)
    ensures forall w :: w in words ==> w != "" && SpaceFree(w)
    decreases |s|
  {
    if s == "" then []
    else if IsSpace(s[0]) then Fields(s[1..])
    else
      var n := WordLength(s);
      [s[..n]] + Fields(s[n..])
  }

  lemma WordLengthIs(w: string, rest: string)
    requires SpaceFree(w) && (rest == "" || IsSpace(rest[0]))
    ensures WordLength(w + rest) == |w|
  {
    var s := w + rest;
    var n := WordLength(s);
    assert forall m :: 0 <= m < |w| ==> s[m] == w[m];
    assert forall m :: 0 <= m < n ==> s[m] == s[..n][m];
    assert rest != "" ==> s[|w|] == rest[0];
  }

  predicate Blank(s: string) {
    forall i :: 0 <= i < |s| ==> IsSpace(s[i])
  }

  /** White space of any kind and length separates words, and none is left of it. */
  lemma {:induction false} FieldsSkip(blank: string, rest: string)
    requires Blank(blank)
    ensures Fields(blank + rest) == Fields(rest)
  {
    hide IsSpace;
    if blank == "" {
      assert blank + rest == rest;
    } else {
      assert (blank + rest)[1..] == blank[1..] + rest;
      FieldsSkip(blank[1..], rest);
    }
  }

  lemma FieldsWord(w: string, blank: string, rest: string)
    requires w != "" && SpaceFree(w) && Blank(blank) && (blank == "" ==> rest == "")
    ensures Fields(w + blank + rest) == [w] + Fields(rest)
  {
    hide IsSpace;
    var s, tail := w + blank + rest, blank + rest;
    assert s == w + tail && s[..|w|] == w && s[|w|..] == tail;
    assert s[0] == w[0];
    WordLengthIs(w, tail);
    FieldsSkip(blank, rest);
  }

  /** Fields inverts a join with single spaces. */
  lemma {:induction false} FieldsJoin(words: seq<string>)
    requires |words| > 0 && forall w :: w in words ==> w != "" && SpaceFree(w)
    ensures Fields(Join(words, ' ')) == words
  {
    hide SpaceFree, Blank, Fields;
    var w := words[0];
    assert w in words;
    OneSpace();
    if |words| == 1 {
      assert w + "" + "" == w;
      FieldsWord(w, "", "");
      assert words == [w];
    } else {
      var tail := Join(words[1..], ' ');
      assert forall x :: x in words[1..] ==> x in words;
      FieldsJoin(words[1..]);
      FieldsWord(w, " ", tail);
      assert w + " " + tail == Join(words, ' ');
      assert words == [w] + words[1..];
    }
  }

  lemma OneSpace()
    ensures Blank(" ") && Blank("") && Fields("") == []
  {
  }

  /** Some characters that are white space, and some that are not. */
  lemma SpaceSamples(c: char)
    ensures c in "\t\n\U{000B}\U{000C}\r \U{0085}\U{00A0}" ==> IsSpace(c)
    ensures 0x21 <= c as int <= 0x7E ==> !IsSpace(c)
  {
  }

  // ----- integers

  const TWO63: int := 0x8000_0000_0000_0000
  const TWO64: int := 0x1_0000_0000_0000_0000

  predicate Int64(n: int) { -TWO63 <= n < TWO63 }

  /** Two's-complement wrap-around of a 64-bit sum. */
  function Wrap(n: int): (r: int)
    ensures Int64(r) && (Int64(n) ==> r == n)
    ensures TWO63 <= n < TWO63 + TWO64 ==> r == n - TWO64
  {
    (n + TWO63) % TWO64 - TWO63
  }

  predicate AllDigits(s: string) {
    forall i :: 0 <= i < |s| ==> '0' <= s[i] <= '9'
  }

  function DigitsValue(s: string): (n: int)
    requires AllDigits(s)
    ensures n >= 0
  {
    if s == "" then 0 else DigitsValue(s[..|s| - 1]) * 10 + (s[|s| - 1] as int - '0' as int)
  }

  /** strconv.Atoi on a 64-bit platform: an optional sign, at least one decimal
      digit and nothing else, and no overflow. */
  function Atoi(s: string): Option<int> {
    var signed := s != "" && (s[0] == '-' || s[0] == '+');
    var body := if signed then s[1..] else s;
    if body == "" || !AllDigits(body) then None
    else
      var n: int := if signed && s[0] == '-' then -DigitsValue(body) else DigitsValue(body);
      if Int64(n) then Some(n) else None
  }

  function Itoa(n: nat): (s: string)
    ensures s != "" && AllDigits(s)
  {
    if n < 10 then [('0' as int + n) as char] else Itoa(n / 10) + [('0' as int + n % 10) as char]
  }

  lemma {:induction false} DigitsOfItoa(n: nat)
    ensures DigitsValue(Itoa(n)) == n
  {
    var s := Itoa(n);
    if n < 10 {
      assert DigitsValue(s[..0]) == 0;
    } else {
      assert s[..|s| - 1] == Itoa(n / 10);
      DigitsOfItoa(n / 10);
    }
  }

  /** Reading back a printed number. */
  lemma AtoiItoa(n: nat)
    requires Int64(n)
    ensures Atoi(Itoa(n)) == Some(n)
  {
    DigitsOfItoa(n);
    assert '0' <= Itoa(n)[0] <= '9';
  }

  /** The text is read as n, or refused where n is not a 64-bit integer. */
  predicate Reads(s: string, n: int) {
    Atoi(s) == if Int64(n) then Some(n) else None
  }

  lemma AtoiPlain(t: string)
    requires t != "" && AllDigits(t)
    ensures Atoi(t) == if DigitsValue(t) < TWO63 then Some(DigitsValue(t)) else None
  {
    hide DigitsValue;
    assert '0' <= t[0] <= '9';
  }

  lemma AtoiSign(sign: char, t: string)
    requires t != "" && AllDigits(t) && (sign == '+' || sign == '-')
    ensures var n := if sign == '-' then -DigitsValue(t) else DigitsValue(t);
            Atoi([sign] + t) == if Int64(n) then Some(n) else None
  {
    hide DigitsValue;
    assert ([sign] + t)[1..] == t;
  }

  /** A sign is read, also at both ends of the 64-bit range. */
  lemma AtoiSigned(n: nat)
    ensures var v: int := n; Reads(['+'] + Itoa(n), v) && Reads(['-'] + Itoa(n), -v) && Reads(Itoa(n), v)
  {
    hide Itoa, DigitsValue, Atoi;
    DigitsOfItoa(n);
    AtoiPlain(Itoa(n));
    AtoiSign('+', Itoa(n));
    AtoiSign('-', Itoa(n));
  }

  /** Anything but digits after an optional sign, or no digit at all, is refused. */
  lemma AtoiRefuses(s: string, i: nat)
    requires s == "" || s == "+" || s == "-" || (i < |s| && !('0' <= s[i] <= '9') && (i > 0 || s[0] !in "+-"))
    ensures Atoi(s) == None
  {
    if s != "" && i < |s| && i > 0 {
      assert s[1..][i - 1] == s[i];
    }
  }
}

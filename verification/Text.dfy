/** Strings: splitting, decimal numbers, and the percent-encoding of RFC 3986. */
module Text {
  import opened Types

  predicate Alpha(c: char) {
    'a' <= c <= 'z' || 'A' <= c <= 'Z'
  }

  predicate Digit(c: char) {
    '0' <= c <= '9'
  }

  predicate Hex(c: char) {
    Digit(c) || 'a' <= c <= 'f' || 'A' <= c <= 'F'
  }

  /** Section 2.3 of RFC 3986. */
  predicate Unreserved(c: char) {
    Alpha(c) || Digit(c) || c == '-' || c == '.' || c == '_' || c == '~'
  }

  /** Section 2.2 of RFC 3986. */
  predicate SubDelim(c: char) {
    c in {'!', '$', '&', '\'', '(', ')', '*', '+', ',', ';', '='}
  }

  predicate AllUnreserved(s: string) {
    forall i :: 0 <= i < |s| ==> Unreserved(s[i])
  }

  predicate Avoids(s: string, stops: set<char>) {
    forall i :: 0 <= i < |s| ==> s[i] !in stops
  }

  /** The position of the first character that is one of stops; the length if none is. */
  function FindFirstOf(s: string, stops: set<char>): (i: nat)
    ensures i <= |s| && (i < |s| ==> s[i] in stops)
    ensures forall j :: 0 <= j < i ==> s[j] !in stops
  {
    if s == "" || s[0] in stops then 0 else 1 + FindFirstOf(s[1..], stops)
  }

  /** The position of the last character that is one of stops, or -1. */
  function FindLastOf(s: string, stops: set<char>): (i: int)
    ensures -1 <= i < |s| && (i >= 0 ==> s[i] in stops)
    ensures forall j :: i < j < |s| ==> s[j] !in stops
  {
    if s == "" then -1
    else if s[|s| - 1] in stops then |s| - 1
    else FindLastOf(s[..|s| - 1], stops)
  }

  lemma FirstAt(a: string, b: string, stops: set<char>)
    requires Avoids(a, stops) && (b != "" ==> b[0] in stops)
    ensures FindFirstOf(a + b, stops) == |a|
  {
    assert forall j :: 0 <= j < |a| ==> (a + b)[j] == a[j];
    assert b != "" ==> (a + b)[|a|] == b[0];
  }

  lemma AvoidsConcat(a: string, b: string, stops: set<char>)
    requires Avoids(a, stops) && Avoids(b, stops)
    ensures Avoids(a + b, stops)
  {
  }

  lemma {:induction false} LastAt(a: string, c: char, b: string, stops: set<char>)
    requires Avoids(b, stops) && c in stops
    ensures FindLastOf(a + [c] + b, stops) == |a|
  {
    var s := a + [c] + b;
    if b != "" {
      LastAt(a, c, b[..|b| - 1], stops);
      assert s[..|s| - 1] == a + [c] + b[..|b| - 1] && s[|s| - 1] == b[|b| - 1];
    }
  }

  /** The pieces between separators; always at least one. */
  function Split(s: string, sep: char): (pieces: seq<string>)
    ensures pieces != []
    decreases |s|
  {
    var i := FindFirstOf(s, {sep});
    if i == |s| then [s] else [s[..i]] + Split(s[i + 1..], sep)
  }

  lemma SplitFirst(a: string, b: string, sep: char)
    requires Avoids(a, {sep})
    ensures Split(a, sep) == [a] && Split(a + [sep] + b, sep) == [a] + Split(b, sep)
  {
    FirstAt(a, "", {sep});
    assert a + "" == a;
    FirstAt(a, [sep] + b, {sep});
    assert a + [sep] + b == a + ([sep] + b);
  }

  // ---- numbers --------------------------------------------------------------

  /** std::to_string of a non-negative number. */
  function ToDecimal(n: nat): (s: string)
    ensures s != "" && forall i :: 0 <= i < |s| ==> Digit(s[i])
  {
    var d := [(n % 10) as char + '0'];
    if n < 10 then d else ToDecimal(n / 10) + d
  }

  function DigitValue(c: char): int {
    (c as int) - ('0' as int)
  }

  /** The value of the leading digits, on top of those already read. */
  function ReadDigits(s: string, acc: int): int {
    if s == "" || !Digit(s[0]) then acc else ReadDigits(s[1..], 10 * acc + DigitValue(s[0]))
  }

  predicate Space(c: char) {
    c == ' ' || '\t' <= c <= '\r'
  }

  /** std::stoi: leading blanks, a sign, digits; what follows is ignored. None when
      there are no digits or the value does not fit 32 bits. */
  function Stoi(s: string): Option<int> {
    if s == "" then None
    else if Space(s[0]) then Stoi(s[1..])
    else
      var sign := if s[0] == '-' then -1 else 1;
      var digits := if s[0] == '-' || s[0] == '+' then s[1..] else s;
      if digits == "" || !Digit(digits[0]) then None
      else
        var v := sign * ReadDigits(digits, 0);
        if -0x8000_0000 <= v < 0x8000_0000 then Some(v) else None
  }

  lemma {:induction false} ReadDigitsAppend(a: string, c: char, acc: int)
    requires (forall i :: 0 <= i < |a| ==> Digit(a[i])) && Digit(c)
    ensures ReadDigits(a + [c], acc) == 10 * ReadDigits(a, acc) + DigitValue(c)
  {
    if a == "" {
      assert ReadDigits([c], acc) == ReadDigits([c][1..], 10 * acc + DigitValue(c));
    } else {
      assert (a + [c])[1..] == a[1..] + [c];
      ReadDigitsAppend(a[1..], c, 10 * acc + DigitValue(a[0]));
    }
  }

  lemma {:induction false} DecimalReads(n: nat)
    ensures ReadDigits(ToDecimal(n), 0) == n
  {
    var c := (n % 10) as char + '0';
    assert Digit(c) && DigitValue(c) == n % 10;
    if n >= 10 {
      DecimalReads(n / 10);
      ReadDigitsAppend(ToDecimal(n / 10), c, 0);
    } else {
      ReadDigitsAppend("", c, 0);
      assert "" + [c] == [c];
    }
  }

  /** Reading back a printed number. */
  lemma StoiReads(n: nat)
    ensures Stoi(ToDecimal(n)) == if n < 0x8000_0000 then Some(n) else None
  {
    DecimalReads(n);
  }

  /** The parts of a text that starts with a number. */
  datatype NumberText = NumberText(blanks: string, sign: string, digits: string, rest: string) {
    predicate Valid() {
      && (forall i :: 0 <= i < |blanks| ==> Space(blanks[i]))
      && (sign == "" || sign == "+" || sign == "-")
      && digits != "" && (forall i :: 0 <= i < |digits| ==> Digit(digits[i]))
      && (rest == "" || !Digit(rest[0]))
    }

    function Text(): string {
      blanks + (sign + (digits + rest))
    }

    function Number(): int {
      if sign == "-" then -Value(digits) else Value(digits)
    }
  }

  /** The number that decimal digits stand for. */
  function Value(digits: string): int {
    if digits == "" then 0 else 10 * Value(digits[..|digits| - 1]) + DigitValue(digits[|digits| - 1])
  }

  lemma {:induction false} ReadDigitsStops(digits: string, rest: string, acc: int)
    requires (forall i :: 0 <= i < |digits| ==> Digit(digits[i])) && (rest == "" || !Digit(rest[0]))
    ensures ReadDigits(digits + rest, acc) == ReadDigits(digits, acc)
  {
    if digits == "" {
      assert digits + rest == rest;
    } else {
      assert (digits + rest)[1..] == digits[1..] + rest;
      ReadDigitsStops(digits[1..], rest, 10 * acc + DigitValue(digits[0]));
    }
  }

  lemma {:induction false} ReadDigitsIsValue(digits: string)
    requires forall i :: 0 <= i < |digits| ==> Digit(digits[i])
    ensures ReadDigits(digits, 0) == Value(digits)
  {
    if digits != "" {
      var n := |digits| - 1;
      ReadDigitsIsValue(digits[..n]);
      ReadDigitsAppend(digits[..n], digits[n], 0);
      assert digits[..n] + [digits[n]] == digits;
    }
  }

  lemma {:induction false} StoiSkips(blanks: string, s: string)
    requires forall i :: 0 <= i < |blanks| ==> Space(blanks[i])
    ensures Stoi(blanks + s) == Stoi(s)
  {
    if blanks == "" {
      assert blanks + s == s;
    } else {
      assert (blanks + s)[1..] == blanks[1..] + s;
      StoiSkips(blanks[1..], s);
    }
  }

  /** What stoi makes of a number text. */
  lemma StoiOfNumber(t: NumberText)
    requires t.Valid()
    ensures Stoi(t.Text()) == if -0x8000_0000 <= t.Number() < 0x8000_0000 then Some(t.Number()) else None
  {
    var digits := t.digits + t.rest;
    StoiSkips(t.blanks, t.sign + digits);
    ReadDigitsStops(t.digits, t.rest, 0);
    ReadDigitsIsValue(t.digits);
    assert digits[0] == t.digits[0];
    if t.sign == "" {
      assert t.sign + digits == digits;
    } else {
      assert (t.sign + digits)[1..] == digits && (t.sign + digits)[0] == t.sign[0];
    }
  }

  /** Digits as far as they go, and what follows. */
  lemma {:induction false} DigitsFirst(s: string) returns (digits: string, rest: string)
    ensures s == digits + rest && (forall i :: 0 <= i < |digits| ==> Digit(digits[i]))
    ensures (rest == "" || !Digit(rest[0])) && (s != "" && Digit(s[0]) ==> digits != "")
  {
    digits, rest := "", s;
    if s != "" && Digit(s[0]) {
      var more;
      more, rest := DigitsFirst(s[1..]);
      digits := [s[0]] + more;
      assert s == [s[0]] + s[1..];
    }
  }

  /** A text that stoi reads is a number text. */
  lemma {:induction false} NumberOfStoi(s: string) returns (t: NumberText)
    requires Stoi(s).Some?
    ensures t.Valid() && t.Text() == s
  {
    if Space(s[0]) {
      var u := NumberOfStoi(s[1..]);
      t := u.(blanks := [s[0]] + u.blanks);
      assert s == [s[0]] + s[1..];
    } else {
      var signed := s[0] == '-' || s[0] == '+';
      var digits, rest := DigitsFirst(if signed then s[1..] else s);
      t := NumberText("", if signed then [s[0]] else "", digits, rest);
      assert signed ==> s == [s[0]] + s[1..];
    }
  }

  /** WHAT STOI READS: blanks, a sign, decimal digits and any text after them, if the
      number fits 32 bits; and nothing else. */
  lemma StoiIff(s: string, v: int)
    ensures Stoi(s) == Some(v)
      <==> -0x8000_0000 <= v < 0x8000_0000 && exists t: NumberText :: t.Valid() && t.Text() == s && t.Number() == v
  {
    if Stoi(s).Some? {
      var t := NumberOfStoi(s);
      StoiOfNumber(t);
    }
    forall t: NumberText | t.Valid() && t.Text() == s
      ensures Stoi(s) == if -0x8000_0000 <= t.Number() < 0x8000_0000 then Some(t.Number()) else None
    {
      StoiOfNumber(t);
    }
  }

  // ---- percent-encoding -------------------------------------------------------

  function HexValue(c: char): (v: u8)
    requires Hex(c)
    ensures v < 16
  {
    if Digit(c) then DigitValue(c)
    else if 'a' <= c <= 'f' then (c as int) - ('a' as int) + 10
    else (c as int) - ('A' as int) + 10
  }

  /** None when a percent sign does not start an encoded octet. In queries a plus
      stands for a space. */
  function Decode(s: string, plus: bool): Option<string> {
    if s == "" then Some("")
    else if s[0] == '%' then
      if |s| >= 3 && Hex(s[1]) && Hex(s[2]) then
        match Decode(s[3..], plus)
        case None => None
        case Some(rest) => Some([(16 * HexValue(s[1]) + HexValue(s[2])) as char] + rest)
      else None
    else
      match Decode(s[1..], plus)
      case None => None
      case Some(rest) => Some([if plus && s[0] == '+' then ' ' else s[0]] + rest)
  }

  lemma {:induction false} DecodePlain(s: string, plus: bool)
    requires forall i :: 0 <= i < |s| ==> s[i] != '%' && s[i] != '+'
    ensures Decode(s, plus) == Some(s)
  {
    if s != "" {
      DecodePlain(s[1..], plus);
      assert s == [s[0]] + s[1..];
    }
  }

  const LOWER_DIGITS := "0123456789abcdef"
  const UPPER_DIGITS := "0123456789ABCDEF"

  /** A hexadecimal digit stands for its place among the sixteen. */
  lemma HexValueIs(c: char, v: nat)
    requires v < 16
    ensures Hex(c) && HexValue(c) == v <==> c == LOWER_DIGITS[v] || c == UPPER_DIGITS[v]
  {
  }

  /** One character of an encoded text: itself, or an octet in hexadecimal. */
  datatype Unit = Plain(c: char) | Octet(high: nat, low: nat, digits: string) {
    predicate Valid() {
      match this
      case Plain(c) => c != '%'
      case Octet(high, low, digits) =>
        && high < 16 && low < 16 && |digits| == 2
        && (digits[0] == LOWER_DIGITS[high] || digits[0] == UPPER_DIGITS[high])
        && (digits[1] == LOWER_DIGITS[low] || digits[1] == UPPER_DIGITS[low])
    }

    function Text(): string {
      match this
      case Plain(c) => [c]
      case Octet(_, _, digits) => "%" + digits
    }

    function Meaning(plus: bool): char
      requires Valid()
    {
      match this
      case Plain(c) => if plus && c == '+' then ' ' else c
      case Octet(high, low, _) => (high * 16 + low) as char
    }
  }

  ghost predicate AllValid(us: seq<Unit>) {
    forall i :: 0 <= i < |us| ==> us[i].Valid()
  }

  function TextOf(us: seq<Unit>): string {
    if us == [] then "" else us[0].Text() + TextOf(us[1..])
  }

  /** Decoding the text of one unit and what follows. */
  lemma UnitDecodes(u: Unit, rest: string, plus: bool)
    requires u.Valid()
    ensures Decode(u.Text() + rest, plus)
      == match Decode(rest, plus) case None => None case Some(t) => Some([u.Meaning(plus)] + t)
  {
    var s := u.Text() + rest;
    match u
    case Plain(c) =>
      assert s[1..] == rest;
    case Octet(high, low, digits) =>
      assert s[1] == digits[0] && s[2] == digits[1] && s[3..] == rest;
      HexValueIs(digits[0], high);
      HexValueIs(digits[1], low);
  }

  /** Every encoded text is decoded to what its units stand for. */
  lemma {:induction false} UnitsDecode(us: seq<Unit>, plus: bool)
    requires AllValid(us)
    ensures Decode(TextOf(us), plus).Some?
    ensures var t := Decode(TextOf(us), plus).value;
      |t| == |us| && forall i :: 0 <= i < |us| ==> t[i] == us[i].Meaning(plus)
  {
    if us != [] {
      UnitsDecode(us[1..], plus);
      UnitDecodes(us[0], TextOf(us[1..]), plus);
    }
  }

  lemma DigitOf(c: char) returns (v: nat)
    requires Hex(c)
    ensures v < 16 && (c == LOWER_DIGITS[v] || c == UPPER_DIGITS[v])
  {
    v := HexValue(c);
    HexValueIs(c, v);
  }

  /** Nothing else is decoded. */
  lemma {:induction false} DecodedIsUnits(s: string, plus: bool) returns (us: seq<Unit>)
    requires Decode(s, plus).Some?
    ensures AllValid(us) && TextOf(us) == s
  {
    if s == "" {
      us := [];
    } else if s[0] == '%' {
      var more := DecodedIsUnits(s[3..], plus);
      var high := DigitOf(s[1]);
      var low := DigitOf(s[2]);
      us := [Octet(high, low, s[1..3])] + more;
      assert us[1..] == more && s == "%" + s[1..3] + s[3..];
    } else {
      var more := DecodedIsUnits(s[1..], plus);
      us := [Plain(s[0])] + more;
      assert us[1..] == more && s == [s[0]] + s[1..];
    }
  }

  /** WHAT PERCENT-DECODING READS: exactly the texts made of characters other than the
      percent sign and of percent signs with two hexadecimal digits; each unit gives the
      character or the octet that it stands for. */
  lemma DecodeIff(s: string, t: string, plus: bool)
    ensures Decode(s, plus) == Some(t) <==> exists us: seq<Unit> ::
      && AllValid(us) && TextOf(us) == s && |us| == |t|
      && forall i :: 0 <= i < |us| ==> t[i] == us[i].Meaning(plus)
  {
    if Decode(s, plus) == Some(t) {
      var us := DecodedIsUnits(s, plus);
      UnitsDecode(us, plus);
    }
    forall us: seq<Unit> | AllValid(us) && TextOf(us) == s && |us| == |t|
      && forall i :: 0 <= i < |us| ==> t[i] == us[i].Meaning(plus)
      ensures Decode(s, plus) == Some(t)
    {
      UnitsDecode(us, plus);
      assert Decode(s, plus).value == t;
    }
  }
}

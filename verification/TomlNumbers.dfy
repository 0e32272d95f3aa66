/** Which texts are numbers: exactly those that the syntax writes. */
module TomlNumbers {
  import opened Base
  import opened TomlText
  import opened TomlSyntax

  /** The reader's `digit` tells the characters of `digits`. */
  ghost predicate Tells(digit: char -> bool, digits: set<char>) {
    '_' !in digits && forall ch :: digit(ch) <==> ch in digits
  }

  lemma {:induction false} DecimalSet()
    ensures Tells(DECIMAL, DIGITS)
  {
  }

  lemma {:induction false} HexSet()
    ensures Tells(HEX, HEXES)
  {
    DecimalSet();
    forall ch ensures HEX(ch) <==> ch in HEXES { HexChar(ch); }
  }

  lemma {:induction false} HexChar(ch: char)
    ensures HEX(ch) <==> ch in HEXES
  {
  }

  lemma {:induction false} SmallSets()
    ensures Tells(OCTAL, OCTALS) && Tells(BINARY, {'0', '1'})
  {
  }

  /** A run of digits does not go on here. */
  predicate RunOver(tail: string, digit: char -> bool) {
    tail == [] || (!digit(tail[0]) && !(tail[0] == '_' && |tail| > 1 && digit(tail[1])))
  }

  lemma {:induction false} GroupsSplit(groups: seq<string>, digits: set<char>)
    requires GroupsOk(groups, digits)
    ensures GroupsText(groups) != [] && GroupsText(groups)[0] in digits
    ensures |groups| > 1 ==> GroupsOk(groups[1..], digits)
  {
    var g, rest := groups[0], groups[1..];
    assert g != [] && Only(g, digits) && g[0] in digits;
    assert forall i :: 0 <= i < |rest| ==> rest[i] == groups[i + 1];
    hide Only;
  }

  /** The groups without their first character. */
  function Shorter(groups: seq<string>): seq<string>
    requires groups != [] && groups[0] != []
  {
    [groups[0][1..]] + groups[1..]
  }

  lemma {:induction false} ShorterSplit(groups: seq<string>, digits: set<char>)
    requires GroupsOk(groups, digits) && |groups[0]| > 1
    ensures GroupsOk(Shorter(groups), digits)
    ensures GroupsText(groups) == [groups[0][0]] + GroupsText(Shorter(groups))
  {
    var g, less := groups[0], Shorter(groups);
    assert less[1..] == groups[1..] && g == [g[0]] + g[1..];
    ShorterOk(groups, digits);
    hide GroupsOk, Only;
    if |groups| > 1 {
      var tail := ['_'] + GroupsText(groups[1..]);
      assert GroupsText(groups) == g + tail && GroupsText(less) == g[1..] + tail;
    }
  }

  lemma {:induction false} ShorterOk(groups: seq<string>, digits: set<char>)
    requires GroupsOk(groups, digits) && |groups[0]| > 1
    ensures GroupsOk(Shorter(groups), digits)
  {
    OnlyTail(groups[0], digits);
    hide Only;
  }

  lemma {:induction false} OnlyTail(s: string, chars: set<char>)
    requires Only(s, chars) && s != []
    ensures Only(s[1..], chars)
  {
  }

  lemma {:induction false} DigitsRead(groups: seq<string>, digits: set<char>, digit: char -> bool, tail: string)
    requires GroupsOk(groups, digits) && Tells(digit, digits) && RunOver(tail, digit)
    ensures DigitsLength(GroupsText(groups) + tail, digit) == |GroupsText(groups)|
    decreases |GroupsText(groups)|
  {
    hide GroupsOk;
    var s := GroupsText(groups) + tail;
    GroupsSplit(groups, digits);
    if |groups[0]| > 1 {
      var less := Shorter(groups);
      ShorterSplit(groups, digits);
      GroupsSplit(less, digits);
      assert s[1..] == GroupsText(less) + tail && s[1] == GroupsText(less)[0];
      DigitsRead(less, digits, digit, tail);
    } else if |groups| > 1 {
      GroupIsOne(groups, digits);
      GroupsSplit(groups[1..], digits);
      assert s[2..] == GroupsText(groups[1..]) + tail && s[1] == '_' && s[2] == GroupsText(groups[1..])[0];
      DigitsRead(groups[1..], digits, digit, tail);
    } else {
      GroupIsOne(groups, digits);
      assert s[1..] == tail;
    }
  }

  lemma {:induction false} GroupIsOne(groups: seq<string>, digits: set<char>)
    requires GroupsOk(groups, digits) && |groups[0]| <= 1
    ensures |groups[0]| == 1 && GroupsText(groups)[0] == groups[0][0]
  {
  }

  /** The groups of the digits at the front. */
  lemma {:induction false} GroupsOf(s: string, digits: set<char>, digit: char -> bool) returns (groups: seq<string>)
    requires Tells(digit, digits) && DigitsLength(s, digit) > 0
    ensures GroupsOk(groups, digits) && GroupsText(groups) == s[..DigitsLength(s, digit)]
    decreases |s|
  {
    if |s| > 2 && s[1] == '_' && digit(s[2]) {
      var rest := GroupsOf(s[2..], digits, digit);
      groups := [[s[0]]] + rest;
      assert groups[1..] == rest;
      assert s[..DigitsLength(s, digit)] == [s[0], '_'] + s[2..][..DigitsLength(s[2..], digit)];
    } else if |s| > 1 && digit(s[1]) {
      var rest := GroupsOf(s[1..], digits, digit);
      groups := [[s[0]] + rest[0]] + rest[1..];
      assert groups[1..] == rest[1..];
      assert s[..DigitsLength(s, digit)] == [s[0]] + s[1..][..DigitsLength(s[1..], digit)];
    } else {
      groups := [[s[0]]];
    }
  }

  lemma {:induction false} AllDigitsIff(s: string, digits: set<char>, digit: char -> bool)
    requires Tells(digit, digits)
    ensures AllDigits(s, digit) <==> exists groups :: GroupsOk(groups, digits) && GroupsText(groups) == s
  {
    hide GroupsOk, Tells;
    if AllDigits(s, digit) {
      var groups := GroupsOf(s, digits, digit);
      assert s[..|s|] == s;
    }
    if groups :| GroupsOk(groups, digits) && GroupsText(groups) == s {
      DigitsRead(groups, digits, digit, []);
      GroupsSplit(groups, digits);
      assert s + [] == s;
    }
  }

  ghost predicate ExponentOk(x: Exponent) {
    x.e in {'e', 'E'} && SignOk(x.sign) && GroupsOk(x.groups, DIGITS)
  }

  lemma {:induction false} ExponentIff(s: string)
    ensures IsExponent(s) <==> exists x :: ExponentOk(x) && ExponentText(Some(x)) == s
  {
    hide GroupsOk, AllDigits, Tells, DECIMAL, DIGITS;
    DecimalSet();
    if IsExponent(s) {
      var signed := s[1] == '+' || s[1] == '-';
      var digits := if signed then s[2..] else s[1..];
      AllDigitsIff(digits, DIGITS, DECIMAL);
      var groups :| GroupsOk(groups, DIGITS) && GroupsText(groups) == digits;
      var x := Exponent(s[0], if signed then [s[1]] else [], groups);
      assert ExponentOk(x) && ExponentText(Some(x)) == s;
    }
    if x :| ExponentOk(x) && ExponentText(Some(x)) == s { ExponentReads(x); }
  }

  lemma {:induction false} ExponentReads(x: Exponent)
    requires ExponentOk(x)
    ensures IsExponent(ExponentText(Some(x)))
  {
    hide GroupsOk, AllDigits, Tells, DECIMAL, DIGITS;
    DecimalSet();
    var s := ExponentText(Some(x));
    AllDigitsIff(GroupsText(x.groups), DIGITS, DECIMAL);
    GroupsSplit(x.groups, DIGITS);
    if x.sign == [] {
      assert s[1..] == GroupsText(x.groups);
      NoSign(s[1]);
    } else {
      assert s[2..] == GroupsText(x.groups);
    }
  }

  lemma {:induction false} NoSign(ch: char)
    requires ch in DIGITS
    ensures ch != '+' && ch != '-'
  {
  }

  ghost predicate DecimalOk(n: Numeral) {
    n.Decimal? && n.sign == [] && NumeralOk(n)
  }

  lemma {:induction false} DecimalReads(n: Numeral)
    requires DecimalOk(n)
    ensures IsDecimal(NumeralText(n))
  {
    hide Tells, GroupsOk, IsExponent, DIGITS, DECIMAL, DigitsLength;
    DecimalSet();
    var end := ExponentText(n.exponent);
    var t := FractionText(n.fraction) + end;
    assert NumeralText(n) == GroupsText(n.groups) + t;
    EndIsOver(n.exponent);
    FractionIsOver(n.fraction, end);
    GroupsSplit(n.groups, DIGITS);
    DigitsRead(n.groups, DIGITS, DECIMAL, t);
    assert (GroupsText(n.groups) + t)[|GroupsText(n.groups)|..] == t;
    if n.exponent.Some? { ExponentIff(end); }
    if n.fraction.Some? { FractionReads(n.fraction.value, end); } else { assert t == end; }
  }

  lemma {:induction false} FractionReads(groups: seq<string>, end: string)
    requires GroupsOk(groups, DIGITS) && RunOver(end, DECIMAL)
    ensures var t := FractionText(Some(groups)) + end;
            var m := DigitsLength(t[1..], DECIMAL);
            t[0] == '.' && m > 0 && t[1 + m..] == end
  {
    hide Tells, GroupsOk, DIGITS, DECIMAL, DigitsLength;
    DecimalSet();
    var f, t := GroupsText(groups), FractionText(Some(groups)) + end;
    assert t[1..] == f + end && t[1 + |f|..] == end;
    GroupsSplit(groups, DIGITS);
    DigitsRead(groups, DIGITS, DECIMAL, end);
  }

  lemma {:induction false} FractionIsOver(f: Option<seq<string>>, end: string)
    requires RunOver(end, DECIMAL)
    ensures RunOver(FractionText(f) + end, DECIMAL)
  {
    assert f.None? ==> [] + end == end;
    hide GroupsText;
  }

  lemma {:induction false} EndIsOver(x: Option<Exponent>)
    requires x.Some? ==> ExponentOk(x.value)
    ensures RunOver(ExponentText(x), DECIMAL)
    ensures ExponentText(x) == [] || ExponentText(x)[0] != '.'
  {
  }

  lemma {:induction false} DecimalOf(s: string) returns (n: Numeral)
    requires IsDecimal(s)
    ensures DecimalOk(n) && NumeralText(n) == s
  {
    hide Tells, GroupsOk, DIGITS, GroupsText, NumeralOk, NumeralText, FractionText, ExponentText, ExponentOk,
      DecimalOk;
    DecimalSet();
    var t := DecimalTail(s);
    hide DECIMAL, IsExponent, DigitsLength, IsDecimal;
    var groups := GroupsOf(s, DIGITS, DECIMAL);
    var fraction, end := FractionOf(t);
    var exponent := ExponentOf(end);
    n := Decimal([], groups, fraction, exponent);
    DecimalIs(groups, fraction, exponent);
  }

  lemma {:induction false} DecimalTail(s: string) returns (t: string)
    requires IsDecimal(s)
    ensures DigitsLength(s, DECIMAL) > 0 && s == s[..DigitsLength(s, DECIMAL)] + t
    ensures if t != [] && t[0] == '.' then
              var m := DigitsLength(t[1..], DECIMAL); m > 0 && (t[1 + m..] == [] || IsExponent(t[1 + m..]))
            else t == [] || IsExponent(t)
  {
    hide DECIMAL, IsExponent, DigitsLength;
    t := s[DigitsLength(s, DECIMAL)..];
  }

  lemma {:induction false} DecimalIs(groups: seq<string>, f: Option<seq<string>>, x: Option<Exponent>)
    requires GroupsOk(groups, DIGITS) && (f.Some? ==> GroupsOk(f.value, DIGITS)) && (x.Some? ==> ExponentOk(x.value))
    ensures DecimalOk(Decimal([], groups, f, x))
    ensures NumeralText(Decimal([], groups, f, x)) == GroupsText(groups) + (FractionText(f) + ExponentText(x))
  {
    hide GroupsOk, GroupsText, FractionText, ExponentText, DIGITS, SignOk;
    assert SignOk([]) by { PlainSign(); }
    var t := GroupsText(groups) + (FractionText(f) + ExponentText(x));
    assert [] + t == t;
  }

  lemma {:induction false} PlainSign()
    ensures SignOk([])
  {
  }

  lemma {:induction false} FractionOf(t: string) returns (f: Option<seq<string>>, end: string)
    requires t != [] && t[0] == '.' ==> DigitsLength(t[1..], DECIMAL) > 0
    ensures FractionText(f) + end == t && (f.Some? ==> GroupsOk(f.value, DIGITS))
    ensures end == if t != [] && t[0] == '.' then t[1 + DigitsLength(t[1..], DECIMAL)..] else t
  {
    hide Tells, GroupsOk, DigitsLength, DIGITS, DECIMAL, GroupsText;
    DecimalSet();
    f, end := None, t;
    if t != [] && t[0] == '.' {
      var m := DigitsLength(t[1..], DECIMAL);
      var groups := GroupsOf(t[1..], DIGITS, DECIMAL);
      f, end := Some(groups), t[1 + m..];
      assert t == ['.'] + t[1..][..m] + end;
    }
  }

  lemma {:induction false} ExponentOf(end: string) returns (x: Option<Exponent>)
    requires end == [] || IsExponent(end)
    ensures ExponentText(x) == end && (x.Some? ==> ExponentOk(x.value))
  {
    hide ExponentOk, IsExponent;
    if end == [] { return None; }
    ExponentIff(end);
    var y :| ExponentOk(y) && ExponentText(Some(y)) == end;
    x := Some(y);
  }

  lemma {:induction false} BasedIff(s: string)
    requires |s| >= 2 && s[0] == '0' && s[1] in {'x', 'o', 'b'}
    ensures (if s[1] == 'x' then AllDigits(s[2..], HEX) else if s[1] == 'o' then AllDigits(s[2..], OCTAL)
             else AllDigits(s[2..], BINARY)) <==>
            exists groups :: NumeralOk(Based([], s[1], groups)) && NumeralText(Based([], s[1], groups)) == s
  {
    hide Tells, GroupsOk, AllDigits, HEXES, OCTALS, HEX, OCTAL, BINARY;
    HexSet();
    SmallSets();
    AllDigitsIff(s[2..], HEXES, HEX);
    AllDigitsIff(s[2..], OCTALS, OCTAL);
    AllDigitsIff(s[2..], {'0', '1'}, BINARY);
    forall groups ensures NumeralText(Based([], s[1], groups)) == s <==> GroupsText(groups) == s[2..] {
      assert NumeralText(Based([], s[1], groups))[2..] == GroupsText(groups);
      assert s == ['0', s[1]] + s[2..];
    }
  }

  /** A number without its sign. */
  predicate IsUnsigned(s: string) {
    if |s| >= 2 && s[0] == '0' && s[1] == 'x' then AllDigits(s[2..], HEX)
    else if |s| >= 2 && s[0] == '0' && s[1] == 'o' then AllDigits(s[2..], OCTAL)
    else if |s| >= 2 && s[0] == '0' && s[1] == 'b' then AllDigits(s[2..], BINARY)
    else IsDecimal(s)
  }

  lemma {:induction false} Unsign(raw: string)
    ensures IsNumber(raw) <==> IsUnsigned(if raw != [] && (raw[0] == '+' || raw[0] == '-') then raw[1..] else raw)
  {
    var s := if raw != [] && (raw[0] == '+' || raw[0] == '-') then raw[1..] else raw;
    if |s| >= 2 { assert s[..2] == [s[0], s[1]]; }
    hide AllDigits, IsDecimal;
  }

  lemma {:induction false} UnsignedReads(n: Numeral)
    requires NumeralOk(n) && n.sign == []
    ensures IsUnsigned(NumeralText(n)) && NumeralText(n) != [] && NumeralText(n)[0] in DIGITS
  {
    var s := NumeralText(n);
    if n.Based? {
      assert s == ['0', n.base] + GroupsText(n.groups);
      BasedIff(s);
    } else {
      DecimalReads(n);
      hide IsDecimal, AllDigits;
      DecimalStarts(n);
    }
  }

  lemma {:induction false} DecimalStarts(n: Numeral)
    requires DecimalOk(n)
    ensures var s := NumeralText(n); s != [] && s[0] in DIGITS && (|s| >= 2 ==> s[1] !in {'x', 'o', 'b'})
  {
    var t := FractionText(n.fraction) + ExponentText(n.exponent);
    var g := GroupsText(n.groups);
    GroupsSplit(n.groups, DIGITS);
    assert NumeralText(n) == g + t;
    if |g| > 1 { SecondOfGroups(n.groups); }
    else if t != [] { assert t[0] in {'.', 'e', 'E'}; }
  }

  lemma {:induction false} SecondOfGroups(groups: seq<string>)
    requires GroupsOk(groups, DIGITS) && |GroupsText(groups)| > 1
    ensures GroupsText(groups)[1] in DIGITS + {'_'}
  {
    if |groups[0]| > 1 { assert groups[0][1] in DIGITS; }
  }

  lemma {:induction false} UnsignedOf(s: string) returns (n: Numeral)
    requires IsUnsigned(s)
    ensures NumeralOk(n) && n.sign == [] && NumeralText(n) == s
  {
    hide AllDigits, IsDecimal, NumeralOk;
    if |s| >= 2 && s[0] == '0' && s[1] in {'x', 'o', 'b'} {
      BasedIff(s);
      var groups :| NumeralOk(Based([], s[1], groups)) && NumeralText(Based([], s[1], groups)) == s;
      n := Based([], s[1], groups);
    } else {
      n := DecimalOf(s);
    }
  }

  lemma {:induction false} SignedText(n: Numeral)
    ensures NumeralText(n) == n.sign + NumeralText(n.(sign := []))
    ensures SignOk(n.sign) ==> (NumeralOk(n) <==> NumeralOk(n.(sign := [])))
  {
    if n.Based? {
      assert [] + ['0', n.base] == ['0', n.base];
      Assoc(n.sign, ['0', n.base], GroupsText(n.groups));
    } else {
      var t := GroupsText(n.groups) + (FractionText(n.fraction) + ExponentText(n.exponent));
      assert [] + t == t;
    }
  }

  /** A text is a number exactly when the syntax writes it. */
  lemma {:induction false} NumberIff(raw: string)
    ensures IsNumber(raw) <==> exists n :: NumeralOk(n) && NumeralText(n) == raw
  {
    Unsign(raw);
    hide IsUnsigned, IsNumber, NumeralOk, NumeralText;
    if IsNumber(raw) {
      var signed := raw != [] && (raw[0] == '+' || raw[0] == '-');
      var bare := UnsignedOf(if signed then raw[1..] else raw);
      var n := bare.(sign := if signed then raw[..1] else []);
      SignedText(n);
      assert n.(sign := []) == bare;
      assert NumeralOk(n) && NumeralText(n) == raw;
    }
    if n :| NumeralOk(n) && NumeralText(n) == raw { NumeralReads(n); }
  }

  lemma {:induction false} NumeralReads(n: Numeral)
    requires NumeralOk(n)
    ensures IsNumber(NumeralText(n))
  {
    var bare := n.(sign := []);
    var raw := NumeralText(n);
    SignedText(n);
    UnsignedReads(bare);
    Unsign(raw);
    hide IsUnsigned, IsNumber, NumeralText;
    if n.sign == [] {
      NoSign(raw[0]);
    } else {
      assert raw[1..] == NumeralText(bare);
    }
  }

  // --- The characters of a number ------------------------------------------------------

  lemma {:induction false} DigitsAreNumberChars(s: string, digit: char -> bool)
    requires forall ch :: digit(ch) ==> IsNumberChar(ch)
    ensures forall i :: 0 <= i < DigitsLength(s, digit) ==> IsNumberChar(s[i])
    decreases |s|
  {
    if s != [] && digit(s[0]) {
      if |s| > 2 && s[1] == '_' && digit(s[2]) {
        DigitsAreNumberChars(s[2..], digit);
        assert forall i :: 2 <= i < |s| ==> s[i] == s[2..][i - 2];
      } else if |s| > 1 && digit(s[1]) {
        DigitsAreNumberChars(s[1..], digit);
        assert forall i :: 1 <= i < |s| ==> s[i] == s[1..][i - 1];
      }
    }
  }

  ghost predicate NumberChars(s: string) {
    forall i :: 0 <= i < |s| ==> IsNumberChar(s[i])
  }

  lemma NumberCharsAppend(a: string, b: string)
    requires NumberChars(a) && NumberChars(b)
    ensures NumberChars(a + b)
  {
  }

  lemma DigitRun(s: string, digit: char -> bool)
    requires AllDigits(s, digit) && forall ch :: digit(ch) ==> IsNumberChar(ch)
    ensures NumberChars(s)
  {
    DigitsAreNumberChars(s, digit);
  }

  lemma ExponentChars(s: string)
    requires IsExponent(s)
    ensures NumberChars(s)
  {
    var sign := s[1] == '+' || s[1] == '-';
    DigitRun(if sign then s[2..] else s[1..], DECIMAL);
    NumberCharsAppend(if sign then s[..2] else s[..1], if sign then s[2..] else s[1..]);
    assert s == (if sign then s[..2] else s[..1]) + if sign then s[2..] else s[1..];
  }

  lemma DecimalChars(s: string)
    requires IsDecimal(s)
    ensures NumberChars(s) && s != [] && '0' <= s[0] <= '9'
  {
    hide IsExponent;
    var n := DigitsLength(s, DECIMAL);
    DigitsAreNumberChars(s, DECIMAL);
    var t := s[n..];
    if t != [] && t[0] == '.' {
      var m := DigitsLength(t[1..], DECIMAL);
      DigitsAreNumberChars(t[1..], DECIMAL);
      var u := t[1 + m..];
      if u != [] { ExponentChars(u); }
      assert t[1..] == t[1..][..m] + u && t == ['.'] + t[1..];
      NumberCharsAppend(t[1..][..m], u);
      NumberCharsAppend(['.'], t[1..]);
    } else if t != [] {
      ExponentChars(t);
    }
    assert s == s[..n] + t;
    NumberCharsAppend(s[..n], t);
  }

  lemma PrefixedChars(s: string, digit: char -> bool)
    requires |s| >= 2 && s[0] == '0' && IsNumberChar(s[1]) && AllDigits(s[2..], digit)
    requires forall ch :: digit(ch) ==> IsNumberChar(ch)
    ensures NumberChars(s)
  {
    DigitRun(s[2..], digit);
    NumberCharsAppend(s[..2], s[2..]);
    assert s == s[..2] + s[2..];
  }

  /** A number consists of number characters and begins with a sign or a digit. */
  lemma NumberShape(raw: string)
    requires IsNumber(raw)
    ensures NumberChars(raw) && raw != [] && (raw[0] == '+' || raw[0] == '-' || '0' <= raw[0] <= '9')
  {
    hide IsDecimal, AllDigits;
    var signed := raw != [] && (raw[0] == '+' || raw[0] == '-');
    var s := if signed then raw[1..] else raw;
    if |s| >= 2 && s[..2] == "0x" {
      assert s[0] == s[..2][0] && s[1] == s[..2][1];
      PrefixedChars(s, HEX);
    } else if |s| >= 2 && s[..2] == "0o" {
      assert s[0] == s[..2][0] && s[1] == s[..2][1];
      PrefixedChars(s, OCTAL);
    } else if |s| >= 2 && s[..2] == "0b" {
      assert s[0] == s[..2][0] && s[1] == s[..2][1];
      PrefixedChars(s, BINARY);
    } else {
      DecimalChars(s);
    }
    if signed {
      NumberCharsAppend(raw[..1], s);
      assert raw == raw[..1] + s;
    }
  }
}

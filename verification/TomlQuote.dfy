/**
 The quoting writer of the generated skeletons, against the TOML reader of quoted strings: which
 texts the reader gives back.  A char stands for one byte.
 */
module TomlQuote {
  import opened Base
  import opened TomlText

  // --- Runes --------------------------------------------------------------------------

  predicate InRange(ch: char, lo: int, hi: int) {
    lo <= ch as int <= hi
  }

  /** The bytes of the UTF-8 rune at the front, or 0 where there is none. */
  function RuneWidth(s: string): (n: nat)
    requires s != []
    ensures n <= |s| && n <= 4
    ensures s[0] as int < 0x80 ==> n == 1
    ensures n == 1 ==> s[0] as int < 0x80
    ensures n != 1 ==> forall i :: 0 <= i < n ==> s[i] as int >= 0x80
  {
    var b := s[0] as int;
    if b < 0x80 then 1
    else if 0xC2 <= b <= 0xDF then
      if |s| > 1 && InRange(s[1], 0x80, 0xBF) then 2 else 0
    else if 0xE0 <= b <= 0xEF then
      if |s| > 2 && InRange(s[1], if b == 0xE0 then 0xA0 else 0x80, if b == 0xED then 0x9F else 0xBF)
         && InRange(s[2], 0x80, 0xBF) then 3 else 0
    else if 0xF0 <= b <= 0xF4 then
      if |s| > 3 && InRange(s[1], if b == 0xF0 then 0x90 else 0x80, if b == 0xF4 then 0x8F else 0xBF)
         && InRange(s[2], 0x80, 0xBF) && InRange(s[3], 0x80, 0xBF) then 4 else 0
    else 0
  }

  /** The code point of the rune at the front, from the bits of its bytes. */
  function RuneAt(s: string): int
    requires s != [] && RuneWidth(s) > 0
  {
    match RuneWidth(s)
    case 1 => s[0] as int
    case 2 => (s[0] as int - 0xC0) * 0x40 + (s[1] as int - 0x80)
    case 3 => (s[0] as int - 0xE0) * 0x1000 + (s[1] as int - 0x80) * 0x40 + (s[2] as int - 0x80)
    case _ =>
      (s[0] as int - 0xF0) * 0x4_0000 + (s[1] as int - 0x80) * 0x1000 + (s[2] as int - 0x80) * 0x40 +
      (s[3] as int - 0x80)
  }

  /** The six low bits, the six above them, and so on. */
  lemma Bits(v: nat)
    ensures v == v / 0x40 * 0x40 + v % 0x40
    ensures v / 0x40 == v / 0x1000 * 0x40 + v / 0x40 % 0x40
    ensures v / 0x1000 == v / 0x4_0000 * 0x40 + v / 0x1000 % 0x40
  {
    assert v / 0x40 / 0x40 == v / 0x1000 && v / 0x1000 / 0x40 == v / 0x4_0000;
  }

  /** The bytes written for a code point are one rune, and it is that code point. */
  lemma Utf8Decodes(v: nat, rest: string)
    requires IsScalar(v)
    ensures RuneWidth(Utf8(v) + rest) == |Utf8(v)| && RuneAt(Utf8(v) + rest) == v
  {
    if v < 0x80 { OneByte(v, rest); }
    else if v < 0x800 { TwoBytes(v, rest); }
    else if v < 0x1_0000 { ThreeBytes(v, rest); }
    else { FourBytes(v, rest); }
  }

  lemma OneByte(v: nat, rest: string)
    requires v < 0x80
    ensures RuneWidth(Utf8(v) + rest) == |Utf8(v)| == 1 && RuneAt(Utf8(v) + rest) == v
  {
    assert (Utf8(v) + rest)[0] == Byte(v);
  }

  lemma TwoBytes(v: nat, rest: string)
    requires 0x80 <= v < 0x800
    ensures RuneWidth(Utf8(v) + rest) == |Utf8(v)| == 2 && RuneAt(Utf8(v) + rest) == v
  {
    Bits(v);
    var u := [Byte(0xC0 + v / 0x40), Byte(0x80 + v % 0x40)];
    assert Utf8(v) == u;
    assert (u + rest)[0] == u[0] && (u + rest)[1] == u[1];
    hide Utf8;
  }

  lemma ThreeBytes(v: nat, rest: string)
    requires 0x800 <= v < 0x1_0000 && IsScalar(v)
    ensures RuneWidth(Utf8(v) + rest) == |Utf8(v)| == 3 && RuneAt(Utf8(v) + rest) == v
  {
    Bits(v);
    var u := [Byte(0xE0 + v / 0x1000), Byte(0x80 + v / 0x40 % 0x40), Byte(0x80 + v % 0x40)];
    assert Utf8(v) == u;
    assert (u + rest)[0] == u[0] && (u + rest)[1] == u[1] && (u + rest)[2] == u[2];
    hide Utf8;
  }

  lemma FourBytes(v: nat, rest: string)
    requires 0x1_0000 <= v <= 0x10_FFFF
    ensures RuneWidth(Utf8(v) + rest) == |Utf8(v)| == 4 && RuneAt(Utf8(v) + rest) == v
  {
    Bits(v);
    var u := [Byte(0xF0 + v / 0x4_0000), Byte(0x80 + v / 0x1000 % 0x40), Byte(0x80 + v / 0x40 % 0x40),
              Byte(0x80 + v % 0x40)];
    assert Utf8(v) == u;
    assert (u + rest)[0] == u[0] && (u + rest)[1] == u[1] && (u + rest)[2] == u[2] && (u + rest)[3] == u[3];
    hide Utf8;
  }

  /** Every rune is what is written for its code point. */
  lemma RuneIsWritten(s: string)
    requires s != [] && RuneWidth(s) > 0
    ensures 0 <= RuneAt(s) && IsScalar(RuneAt(s)) && Utf8(RuneAt(s)) == s[..RuneWidth(s)]
  {
    var n := RuneWidth(s);
    var a := s[0] as int;
    if n == 2 { TwoAreWritten(s, a - 0xC0, s[1] as int - 0x80); }
    else if n == 3 { ThreeAreWritten(s, a - 0xE0, s[1] as int - 0x80, s[2] as int - 0x80); }
    else if n == 4 { FourAreWritten(s, a - 0xF0, s[1] as int - 0x80, s[2] as int - 0x80, s[3] as int - 0x80); }
  }

  lemma TwoAreWritten(s: string, a: int, b: int)
    requires |s| >= 2 && s[0] as int == 0xC0 + a && s[1] as int == 0x80 + b && 2 <= a < 32 && 0 <= b < 64
    ensures Utf8(a * 0x40 + b) == s[..2] && IsScalar(a * 0x40 + b)
  {
    var v := a * 0x40 + b;
    assert v / 0x40 == a && v % 0x40 == b;
    assert Byte(0xC0 + a) == s[0] && Byte(0x80 + b) == s[1];
  }

  lemma ThreeAreWritten(s: string, a: int, b: int, c: int)
    requires |s| >= 3 && s[0] as int == 0xE0 + a && s[1] as int == 0x80 + b && s[2] as int == 0x80 + c
    requires 0 <= a < 16 && 0 <= b < 64 && 0 <= c < 64 && (a == 0 ==> b >= 32) && (a == 13 ==> b < 32)
    ensures Utf8(a * 0x1000 + b * 0x40 + c) == s[..3] && IsScalar(a * 0x1000 + b * 0x40 + c)
  {
    var v := a * 0x1000 + b * 0x40 + c;
    assert v / 0x1000 == a && v % 0x40 == c && v / 0x40 == a * 0x40 + b && v / 0x40 % 0x40 == b;
    assert Byte(0xE0 + a) == s[0] && Byte(0x80 + b) == s[1] && Byte(0x80 + c) == s[2];
  }

  lemma FourAreWritten(s: string, a: int, b: int, c: int, d: int)
    requires |s| >= 4 && s[0] as int == 0xF0 + a && s[1] as int == 0x80 + b && s[2] as int == 0x80 + c
    requires s[3] as int == 0x80 + d && 0 <= a <= 4 && 0 <= b < 64 && 0 <= c < 64 && 0 <= d < 64
    requires (a == 0 ==> b >= 16) && (a == 4 ==> b < 16)
    ensures Utf8(a * 0x4_0000 + b * 0x1000 + c * 0x40 + d) == s[..4] &&
            IsScalar(a * 0x4_0000 + b * 0x1000 + c * 0x40 + d)
  {
    var v := a * 0x4_0000 + b * 0x1000 + c * 0x40 + d;
    assert v / 0x40 == a * 0x1000 + b * 0x40 + c && v / 0x1000 == a * 0x40 + b;
    assert v / 0x4_0000 == a && v % 0x40 == d && v / 0x1000 % 0x40 == b && v / 0x40 % 0x40 == c;
    assert Byte(0xF0 + a) == s[0] && Byte(0x80 + b) == s[1] && Byte(0x80 + c) == s[2] && Byte(0x80 + d) == s[3];
  }

  predicate ValidUtf8(s: string)
    decreases |s|
  {
    s == [] || (RuneWidth(s) > 0 && ValidUtf8(s[RuneWidth(s)..]))
  }

  /** What ranging over the runes of a string turns a stray byte into: the bytes of U+FFFD. */
  function Replacement(): string {
    Utf8(0xFFFD)
  }

  /** How far ranging over the runes of a string moves. */
  function Step(s: string): (n: nat)
    requires s != []
    ensures 1 <= n <= |s|
  {
    if RuneWidth(s) == 0 then 1 else RuneWidth(s)
  }

  /** The bytes of the rune that ranging over the runes of a string yields. */
  function RuneBytes(s: string): string
    requires s != []
  {
    if RuneWidth(s) == 0 then Replacement() else s[..RuneWidth(s)]
  }

  /** The text with every stray byte replaced. */
  function Scrubbed(s: string): string {
    if s == [] then [] else RuneBytes(s) + Scrubbed(s[Step(s)..])
  }

  lemma {:induction false} ScrubbedIff(s: string)
    ensures |Scrubbed(s)| >= |s|
    ensures Scrubbed(s) == s <==> ValidUtf8(s)
    ensures !ValidUtf8(s) ==> |Scrubbed(s)| > |s|
    decreases |s|
  {
    hide RuneWidth;
    if s != [] {
      var w := RuneWidth(s);
      ScrubbedIff(s[Step(s)..]);
      assert s == s[..w] + s[w..];
    }
  }

  // --- The writer ---------------------------------------------------------------------

  /** Control characters that have no short escape, and DEL. */
  predicate NeedsHex(ch: char) {
    (ch < ' ' && ch != '\n' && ch != '\r' && ch != '\t') || ch as int == 0x7F
  }

  function HexChar(n: nat): char
    requires n < 16
  {
    "0123456789abcdef"[n]
  }

  function EscapeChar(ch: char): (r: string)
    requires ch as int < 0x80
    ensures r != [] && r[0] != '"'
  {
    match ch
    case '\\' => "\\\\"
    case '"' => "\\\""
    case '\n' => "\\n"
    case '\r' => "\\r"
    case '\t' => "\\t"
    case _ => if NeedsHex(ch) then ['\\', 'x', HexChar(ch as int / 16), HexChar(ch as int % 16)] else [ch]
  }

  function EscapeRune(s: string): string
    requires s != []
  {
    if RuneWidth(s) == 1 then EscapeChar(s[0]) else RuneBytes(s)
  }

  function Escaped(s: string): string {
    if s == [] then [] else EscapeRune(s) + Escaped(s[Step(s)..])
  }

  method EscapeDoubleQuoted(value: string) returns (out: string)
    ensures out == Escaped(value)
  {
    out := "";
    var i := 0;
    while i < |value|
      invariant 0 <= i <= |value|
      invariant out + Escaped(value[i..]) == Escaped(value)
    {
      hide EscapeRune, Step;
      var rest := value[i..];
      assert out + Escaped(rest) == out + EscapeRune(rest) + Escaped(rest[Step(rest)..]);
      out := out + EscapeRune(rest);
      i := i + Step(rest);
      assert value[i..] == rest[Step(rest)..];
    }
  }

  function PyString(value: string): string {
    ['"'] + Escaped(value) + ['"']
  }

  // --- Reading it back ----------------------------------------------------------------

  predicate Ordinary(ch: char) {
    ch >= ' ' && ch != '"' && ch != '\\'
  }

  /** The body of a one-line basic string. */
  function Body(text: string, line: nat, acc: string, first: nat): Read<string> {
    StringBody(Cursor(text, line), '"', false, acc, first)
  }

  lemma {:induction false} OrdinaryRun(t: string, rest: string, line: nat, acc: string, first: nat)
    requires forall i :: 0 <= i < |t| ==> Ordinary(t[i])
    ensures Body(t + rest, line, acc, first) == Body(rest, line, acc + t, first)
    decreases |t|
  {
    if t == [] {
      assert t + rest == rest && acc + t == acc;
    } else {
      assert (t + rest)[0] == t[0] && (t + rest)[1..] == t[1..] + rest;
      assert acc + [t[0]] + t[1..] == acc + t;
      OrdinaryRun(t[1..], rest, line, acc + [t[0]], first);
    }
  }

  /** An escaped character is read as itself, or refused when it took a hex escape. */
  lemma EscapedCharReads(ch: char, rest: string, line: nat, acc: string, first: nat)
    requires ch as int < 0x80
    ensures Body(EscapeChar(ch) + rest, line, acc, first)
         == if NeedsHex(ch) then Fail("unknown escape", line) else Body(rest, line, acc + [ch], first)
  {
    hide ReadUnicode, SkipWhile;
    var e := EscapeChar(ch);
    if |e| == 1 {
      OrdinaryRun(e, rest, line, acc, first);
    } else {
      var c := Cursor(e + rest, line);
      assert Advance(c) == Cursor(e[1..] + rest, line) && (e[1..] + rest)[0] == e[1];
      assert Advance(Advance(c)).rest == e[2..] + rest;
      if !NeedsHex(ch) {
        assert e[2..] + rest == rest;
        assert SimpleEscape(e[1]) == Some([ch]);
        assert ReadEscape(c, false) == Got([ch], Cursor(rest, line));
      } else {
        assert ReadEscape(c, false) == Fail("unknown escape", line);
      }
    }
  }

  ghost predicate Quotable(s: string) {
    forall i :: 0 <= i < |s| ==> !NeedsHex(s[i])
  }

  /** Up to the closing quote, the reader yields the scrubbed text, or refuses the first hex escape. */
  lemma {:induction false} EscapedReads(s: string, tail: string, line: nat, acc: string, first: nat)
    ensures Body(Escaped(s) + ['"'] + tail, line, acc, first)
         == if Quotable(s) then Got(acc + Scrubbed(s), Cursor(tail, line)) else Fail("unknown escape", line)
    decreases |s|
  {
    hide EscapeRune, RuneBytes, Quotable, NeedsHex, Body;
    if s == [] {
      NothingReads(tail, line, acc, first);
    } else {
      var next := Escaped(s[Step(s)..]) + ['"'] + tail;
      assert Escaped(s) + ['"'] + tail == EscapeRune(s) + next;
      EscapedRuneReads(s, next, line, acc, first);
      EscapedReads(s[Step(s)..], tail, line, acc + RuneBytes(s), first);
      assert acc + RuneBytes(s) + Scrubbed(s[Step(s)..]) == acc + Scrubbed(s);
      QuotableSplit(s, Step(s));
    }
  }

  lemma NothingReads(tail: string, line: nat, acc: string, first: nat)
    ensures Body(Escaped([]) + ['"'] + tail, line, acc, first) == Got(acc + Scrubbed([]), Cursor(tail, line))
    ensures Quotable([])
  {
    assert Escaped([]) + ['"'] + tail == ['"'] + tail && (['"'] + tail)[1..] == tail;
    assert acc + Scrubbed([]) == acc;
  }

  lemma EscapedRuneReads(s: string, next: string, line: nat, acc: string, first: nat)
    requires s != []
    ensures Body(EscapeRune(s) + next, line, acc, first)
         == if NeedsHex(s[0]) then Fail("unknown escape", line) else Body(next, line, acc + RuneBytes(s), first)
  {
    hide Body, EscapeChar;
    if RuneWidth(s) == 1 {
      EscapedCharReads(s[0], next, line, acc, first);
      assert RuneBytes(s) == [s[0]];
    } else {
      OrdinaryRun(RuneBytes(s), next, line, acc, first);
    }
  }

  lemma QuotableSplit(s: string, step: nat)
    requires 1 <= step <= |s| && (step > 1 || s[0] as int >= 0x80 ==> forall i :: 0 <= i < step ==> s[i] as int >= 0x80)
    ensures Quotable(s) <==> !NeedsHex(s[0]) && Quotable(s[step..])
  {
    if Quotable(s[step..]) && !NeedsHex(s[0]) {
      forall i | 0 <= i < |s|
        ensures !NeedsHex(s[i])
      {
        assert i >= step ==> s[i] == s[step..][i - step];
      }
    }
    if Quotable(s) {
      forall i | 0 <= i < |s| - step
        ensures !NeedsHex(s[step..][i])
      {
        assert s[step..][i] == s[i + step];
      }
    }
  }

  /**
   The reader gives the text back, and stops right behind the literal, iff the text is UTF-8 and has
   no control character but newline, carriage return and tab.
   */
  lemma QuotingRoundTrips(s: string, tail: string, line: nat)
    ensures ReadString(Cursor(PyString(s) + tail, line), false) == Got(s, Cursor(tail, line)) <==>
            Quotable(s) && ValidUtf8(s)
    ensures !Quotable(s) ==> ReadString(Cursor(PyString(s) + tail, line), false) == Fail("unknown escape", line)
  {
    hide StringBody, Escaped, Quotable, ValidUtf8, Scrubbed;
    var c := Cursor(PyString(s) + tail, line);
    assert c.rest[0] == '"' && c.rest[1..] == Escaped(s) + ['"'] + tail;
    EscapedReads(s, tail, line, [], line);
    ScrubbedIff(s);
    assert [] + Scrubbed(s) == Scrubbed(s);
  }

  /** At the place of a value, where no quote follows the literal, it is read as that string. */
  lemma QuotedValueRoundTrips(s: string, tail: string, line: nat)
    requires tail == [] || tail[0] != '"'
    ensures ReadValue(Cursor(PyString(s) + tail, line)) == Got(Str(s), Cursor(tail, line)) <==>
            Quotable(s) && ValidUtf8(s)
  {
    hide ReadString, Quotable, ValidUtf8;
    var c := Cursor(PyString(s) + tail, line);
    QuotingRoundTrips(s, tail, line);
    assert c.rest[0] == '"';
    assert !TripleQuote(c.rest) by {
      EscapedStart(s);
      assert c.rest == ['"'] + (Escaped(s) + ['"'] + tail);
    }
  }

  lemma EscapedStart(s: string)
    ensures s != [] ==> Escaped(s) != [] && Escaped(s)[0] != '"'
  {
  }
}

/**
 The TOML subset reader, as functions on the unread text: what every construct consumes and yields,
 and on which line it fails.  A char stands for one byte of the UTF-8 source.
 */
module TomlText {
  import opened Base

  /** The unread text and the number of its first line. */
  datatype Cursor = Cursor(rest: string, line: nat)

  datatype Failure = Failure(kind: string, line: nat)

  /** A value and the cursor behind it, or a failure with the line it names. */
  datatype Read<+T> = Got(value: T, cur: Cursor) | Bad(failure: Failure)

  /** Numbers and booleans keep their text; an inline table keeps its items in order. */
  datatype Toml = Str(s: string) | Num(s: string) | Bool(s: string) | Arr(list: seq<Toml>) | Inline(items: seq<Item>)

  datatype Item = Item(key: string, val: Toml)

  function Fail<T>(kind: string, line: nat): Read<T> {
    Bad(Failure(kind, line))
  }

  // --- Characters ---------------------------------------------------------------------

  /** The next character, or NUL at the end. */
  function Peek(c: Cursor): char {
    if c.rest == [] then '\0' else c.rest[0]
  }

  function Advance(c: Cursor): Cursor
    requires c.rest != []
  {
    Cursor(c.rest[1..], if c.rest[0] == '\n' then c.line + 1 else c.line)
  }

  predicate IsBareKeyChar(ch: char) {
    ch == '-' || ch == '_' || 'a' <= ch <= 'z' || 'A' <= ch <= 'Z' || '0' <= ch <= '9'
  }

  predicate IsValueTerminator(ch: char) {
    ch == '\0' || ch == ' ' || ch == '\t' || ch == '\n' || ch == '\r' || ch == ',' || ch == ']' || ch == '}' ||
    ch == '#'
  }

  predicate IsNumberChar(ch: char) {
    '0' <= ch <= '9' || 'a' <= ch <= 'f' || 'A' <= ch <= 'F' || ch == 'x' || ch == 'X' || ch == 'o' || ch == 'O'
    || ch == '_' || ch == '.' || ch == '+' || ch == '-'
  }

  predicate IsBlank(ch: char) {
    ch == ' ' || ch == '\t' || ch == '\n' || ch == '\r'
  }

  predicate IsSpace(ch: char) {
    ch == ' ' || ch == '\t'
  }

  predicate IsNotNewline(ch: char) {
    ch != '\n'
  }

  // --- Skipping -----------------------------------------------------------------------

  /** Past the longest prefix whose characters all satisfy `p`. */
  function SkipWhile(c: Cursor, p: char -> bool): (r: Cursor)
    ensures |r.rest| <= |c.rest|
    ensures |r.rest| < |c.rest| <==> c.rest != [] && p(c.rest[0])
    decreases |c.rest|
  {
    if c.rest != [] && p(c.rest[0]) then SkipWhile(Advance(c), p) else c
  }

  /** The text between two cursors. */
  function Taken(c: Cursor, d: Cursor): string
    requires |d.rest| <= |c.rest|
  {
    c.rest[..|c.rest| - |d.rest|]
  }

  function SkipSpaces(c: Cursor): (r: Cursor)
    ensures |r.rest| <= |c.rest|
  {
    SkipWhile(c, IsSpace)
  }

  /** Spaces, line ends and comments: what may stand between statements and inside arrays. */
  function SkipFiller(c: Cursor): (r: Cursor)
    ensures |r.rest| <= |c.rest|
    decreases |c.rest|
  {
    if c.rest == [] then c
    else if IsBlank(c.rest[0]) then SkipFiller(Advance(c))
    else if c.rest[0] == '#' then SkipFiller(SkipWhile(c, IsNotNewline))
    else c
  }

  /** Nothing but a comment may follow on the line. */
  function EndOfStatement(c0: Cursor): (r: Read<()>)
    ensures r.Got? ==> |r.cur.rest| <= |c0.rest|
  {
    var c := SkipSpaces(c0);
    if c.rest == [] then Got((), c)
    else if c.rest[0] == '#' then Got((), SkipWhile(c, IsNotNewline))
    else if c.rest[0] == '\r' then
      var c1 := Advance(c);
      if c1.rest == [] then Got((), c1)
      else if c1.rest[0] != '\n' then Fail("end of line", c1.line)
      else Got((), Advance(c1))
    else if c.rest[0] == '\n' then Got((), Advance(c))
    else Fail("end of line", c.line)
  }

  // --- Strings ------------------------------------------------------------------------

  function HexDigit(ch: char): Option<nat> {
    if '0' <= ch <= '9' then Some((ch - '0') as nat)
    else if 'a' <= ch <= 'f' then Some((ch - 'a') as nat + 10)
    else if 'A' <= ch <= 'F' then Some((ch - 'A') as nat + 10)
    else None
  }

  /** 32-bit two's complement, the width of a rune. */
  function Wrap32(x: int): int {
    var m := x % 0x1_0000_0000;
    if m >= 0x8000_0000 then m - 0x1_0000_0000 else m
  }

  predicate IsScalar(v: nat) {
    v <= 0x10_FFFF && !(0xD800 <= v <= 0xDFFF)
  }

  function Byte(n: nat): char
    requires n < 256
  {
    n as char
  }

  /** The bytes of a rune; one that is no code point is written as U+FFFD. */
  function Utf8(r: int): string {
    if 0 <= r < 0x80 then [Byte(r)]
    else if 0 <= r < 0x800 then [Byte(0xC0 + r / 0x40), Byte(0x80 + r % 0x40)]
    else if r < 0 || r > 0x10_FFFF || 0xD800 <= r <= 0xDFFF then [Byte(0xEF), Byte(0xBF), Byte(0xBD)]
    else if r < 0x1_0000 then [Byte(0xE0 + r / 0x1000), Byte(0x80 + r / 0x40 % 0x40), Byte(0x80 + r % 0x40)]
    else [Byte(0xF0 + r / 0x4_0000), Byte(0x80 + r / 0x1000 % 0x40), Byte(0x80 + r / 0x40 % 0x40),
          Byte(0x80 + r % 0x40)]
  }

  /** `digits` more hex digits after the value `r`; `line` is the line of the backslash. */
  function ReadUnicode(c: Cursor, digits: nat, r: int, line: nat): (res: Read<string>)
    ensures res.Got? ==> |res.cur.rest| <= |c.rest|
    decreases digits
  {
    if digits == 0 then
      if r > 0x10_FFFF || 0xD800 <= r <= 0xDFFF then Fail("code point", line) else Got(Utf8(r), c)
    else if c.rest == [] then Fail("escape", line)
    else match HexDigit(c.rest[0])
      case None => Fail("escape", line)
      case Some(d) => ReadUnicode(Advance(c), digits - 1, Wrap32(r * 16 + d), line)
  }

  function SimpleEscape(ch: char): Option<string> {
    match ch
    case 'b' => Some("\U{0008}")
    case 't' => Some("\t")
    case 'n' => Some("\n")
    case 'f' => Some("\U{000C}")
    case 'r' => Some("\r")
    case '"' => Some("\"")
    case '\'' => Some("'")
    case '\\' => Some("\\")
    case _ => None
  }

  /** An escape, from its backslash on; yields the bytes it stands for. */
  function ReadEscape(c0: Cursor, multiline: bool): (res: Read<string>)
    requires c0.rest != []
    ensures res.Got? ==> |res.cur.rest| < |c0.rest|
  {
    var c := Advance(c0);
    if c.rest == [] then Fail("escape", c0.line) else
    var ch, c1 := c.rest[0], Advance(c);
    if SimpleEscape(ch).Some? then Got(SimpleEscape(ch).value, c1)
    else if ch == 'u' then ReadUnicode(c1, 4, 0, c0.line)
    else if ch == 'U' then ReadUnicode(c1, 8, 0, c0.line)
    else if ch == '\n' || ch == '\r' then
      if multiline then Got([], SkipWhile(c1, IsBlank)) else Fail("line continuation", c0.line)
    else Fail("unknown escape", c0.line)
  }

  /** How many times `quote` stands at the front. */
  function QuoteRun(s: string, quote: char): (n: nat)
    ensures n <= |s|
  {
    if s != [] && s[0] == quote then 1 + QuoteRun(s[1..], quote) else 0
  }

  function Drop(c: Cursor, n: nat): Cursor
    requires n <= |c.rest|
    decreases n
  {
    if n == 0 then c else Drop(Advance(c), n - 1)
  }

  lemma {:induction false} DropRest(c: Cursor, n: nat)
    requires n <= |c.rest|
    ensures Drop(c, n).rest == c.rest[n..]
    decreases n
  {
    if n > 0 { DropRest(Advance(c), n - 1); }
  }

  function Repeat(ch: char, n: nat): string {
    seq(n, _ => ch)
  }

  /** The body of a string up to its closing quotes, `acc` read so far; `line` is that of the opening. */
  function StringBody(c: Cursor, quote: char, multiline: bool, acc: string, line: nat): (res: Read<string>)
    ensures res.Got? ==> |res.cur.rest| < |c.rest|
    decreases |c.rest|
  {
    if c.rest == [] then Fail("unclosed string", line) else
    var ch := c.rest[0];
    if ch == quote && multiline then
      var run := QuoteRun(c.rest, quote);
      DropRest(c, run);
      if run >= 3 then Got(acc + Repeat(quote, run - 3), Drop(c, run))
      else StringBody(Drop(c, run), quote, multiline, acc + Repeat(quote, run), line)
    else if ch == quote then Got(acc, Advance(c))
    else if ch == '\\' && quote == '"' then
      match ReadEscape(c, multiline)
      case Bad(f) => Bad(f)
      case Got(text, c1) => StringBody(c1, quote, multiline, acc + text, line)
    else if ch == '\n' && !multiline then Fail("newline in string", c.line)
    else if ch == '\n' || ch == '\r' then StringBody(Advance(c), quote, multiline, acc + [ch], line)
    else if ch < ' ' && ch != '\t' then Fail("control character", c.line)
    else StringBody(Advance(c), quote, multiline, acc + [ch], line)
  }

  /** A string from its opening quote on. */
  function ReadString(c: Cursor, multiline: bool): (res: Read<string>)
    requires c.rest != [] && (multiline ==> |c.rest| >= 3)
    ensures res.Got? ==> |res.cur.rest| < |c.rest|
  {
    var quote := c.rest[0];
    if !multiline then StringBody(Advance(c), quote, false, [], c.line) else
    DropRest(c, 3);
    var c1 := Drop(c, 3);
    var c2 := if Peek(c1) == '\r' then Advance(c1) else c1;
    var c3 := if Peek(c2) == '\n' then Advance(c2) else c2;
    StringBody(c3, quote, true, [], c.line)
  }

  // --- Keys ---------------------------------------------------------------------------

  function ReadKeySegment(c: Cursor): (res: Read<string>)
    ensures res.Got? ==> |res.cur.rest| < |c.rest|
  {
    if Peek(c) == '"' || Peek(c) == '\'' then ReadString(c, false) else
    var d := SkipWhile(c, IsBareKeyChar);
    if d == c then Fail("key", c.line) else Got(Taken(c, d), d)
  }

  /** A dotted path of key segments after those in `acc`; no spaces are allowed around the dots. */
  function ReadKeyPath(c: Cursor, acc: seq<string>): (res: Read<seq<string>>)
    ensures res.Got? ==> |res.cur.rest| < |c.rest| && res.value != []
    decreases |c.rest|
  {
    match ReadKeySegment(c)
    case Bad(f) => Bad(f)
    case Got(seg, c1) =>
      if Peek(c1) == '.' then ReadKeyPath(Advance(c1), acc + [seg]) else Got(acc + [seg], c1)
  }

  // --- Numbers and booleans -----------------------------------------------------------

  /** The longest prefix of the form d(_?d)*, where d satisfies `digit`. */
  function DigitsLength(s: string, digit: char -> bool): (n: nat)
    ensures n <= |s|
  {
    if s == [] || !digit(s[0]) then 0
    else if |s| > 2 && s[1] == '_' && digit(s[2]) then 2 + DigitsLength(s[2..], digit)
    else if |s| > 1 && digit(s[1]) then 1 + DigitsLength(s[1..], digit)
    else 1
  }

  predicate AllDigits(s: string, digit: char -> bool) {
    s != [] && DigitsLength(s, digit) == |s|
  }

  const DECIMAL: char -> bool := ch => '0' <= ch <= '9'
  const HEX: char -> bool := ch => '0' <= ch <= '9' || 'a' <= ch <= 'f' || 'A' <= ch <= 'F'
  const OCTAL: char -> bool := ch => '0' <= ch <= '7'
  const BINARY: char -> bool := ch => ch == '0' || ch == '1'

  predicate IsExponent(s: string) {
    && |s| >= 2 && (s[0] == 'e' || s[0] == 'E')
    && AllDigits(if s[1] == '+' || s[1] == '-' then s[2..] else s[1..], DECIMAL)
  }

  /** Digits, an optional fraction, an optional exponent. */
  predicate IsDecimal(s: string) {
    var n := DigitsLength(s, DECIMAL);
    n > 0 &&
    (var t := s[n..];
     if t != [] && t[0] == '.' then
       var m := DigitsLength(t[1..], DECIMAL);
       m > 0 && (t[1 + m..] == [] || IsExponent(t[1 + m..]))
     else t == [] || IsExponent(t))
  }

  predicate IsNumber(raw: string) {
    var s := if raw != [] && (raw[0] == '+' || raw[0] == '-') then raw[1..] else raw;
    if |s| >= 2 && s[..2] == "0x" then AllDigits(s[2..], HEX)
    else if |s| >= 2 && s[..2] == "0o" then AllDigits(s[2..], OCTAL)
    else if |s| >= 2 && s[..2] == "0b" then AllDigits(s[2..], BINARY)
    else IsDecimal(s)
  }

  function ReadNumber(c: Cursor): (res: Read<Toml>)
    ensures res.Got? ==> |res.cur.rest| < |c.rest|
  {
    var d := SkipWhile(c, IsNumberChar);
    if IsNumber(Taken(c, d)) then Got(Num(Taken(c, d)), d) else Fail("number", d.line)
  }

  /** `word` stands at the front and ends there. */
  predicate WordAhead(s: string, word: string) {
    word <= s && (|s| == |word| || IsValueTerminator(s[|word|]) || s[|word|] == '=')
  }

  function ReadBool(c: Cursor): (res: Read<Toml>)
    ensures res.Got? ==> |res.cur.rest| < |c.rest|
  {
    DropRest(c, if |c.rest| >= 4 then 4 else 0);
    DropRest(c, if |c.rest| >= 5 then 5 else 0);
    if WordAhead(c.rest, "true") then Got(Bool("true"), Drop(c, 4))
    else if WordAhead(c.rest, "false") then Got(Bool("false"), Drop(c, 5))
    else Fail("boolean", c.line)
  }

  // --- Values -------------------------------------------------------------------------

  predicate TripleQuote(s: string) {
    |s| >= 3 && s[1] == s[0] && s[2] == s[0]
  }

  function ReadValue(c: Cursor): (res: Read<Toml>)
    ensures res.Got? ==> |res.cur.rest| < |c.rest|
    decreases |c.rest|, 1
  {
    if c.rest == [] then Fail("value", c.line) else
    var ch := c.rest[0];
    if ch == '"' || ch == '\'' then
      match ReadString(c, TripleQuote(c.rest))
      case Bad(f) => Bad(f)
      case Got(s, c1) => Got(Str(s), c1)
    else if ch == '[' then ReadArray(Advance(c), [], c.line)
    else if ch == '{' then ReadInline(Advance(c), [], c.line)
    else if ch == 't' || ch == 'f' then ReadBool(c)
    else if ch == '+' || ch == '-' || '0' <= ch <= '9' then ReadNumber(c)
    else Fail("value", c.line)
  }

  /** The rest of an array whose elements `acc` were read; `line` is that of its bracket. */
  function ReadArray(c0: Cursor, acc: seq<Toml>, line: nat): (res: Read<Toml>)
    ensures res.Got? ==> |res.cur.rest| < |c0.rest|
    decreases |c0.rest|, 2
  {
    var c := SkipFiller(c0);
    if c.rest == [] then Fail("unclosed array", line)
    else if c.rest[0] == ']' then Got(Arr(acc), Advance(c))
    else match ReadValue(c)
      case Bad(f) => Bad(f)
      case Got(v, c1) =>
        var c2 := SkipFiller(c1);
        if c2.rest == [] then Fail("unclosed array", line)
        else if c2.rest[0] == ',' then ReadArray(Advance(c2), acc + [v], line)
        else if c2.rest[0] == ']' then Got(Arr(acc + [v]), Advance(c2))
        else Fail("array", c2.line)
  }

  /** The rest of an inline table whose items `acc` were read; it may not span lines. */
  function ReadInline(c0: Cursor, acc: seq<Item>, line: nat): (res: Read<Toml>)
    ensures res.Got? ==> |res.cur.rest| < |c0.rest|
    decreases |c0.rest|, 2
  {
    var c := SkipSpaces(c0);
    if c.rest == [] then Fail("unclosed table", line)
    else if c.rest[0] == '}' then Got(Inline(acc), Advance(c))
    else if c.rest[0] == '\n' || c.rest[0] == '\r' then Fail("newline in table", c.line)
    else match ReadItem(c)
      case Bad(f) => Bad(f)
      case Got(item, c1) =>
        var c2 := SkipSpaces(c1);
        if c2.rest == [] then Fail("unclosed table", line)
        else if c2.rest[0] == ',' then ReadInline(Advance(c2), acc + [item], line)
        else if c2.rest[0] == '}' then Got(Inline(acc + [item]), Advance(c2))
        else Fail("table", c2.line)
  }

  /** One `key = value` of an inline table. */
  function ReadItem(c: Cursor): (res: Read<Item>)
    ensures res.Got? ==> |res.cur.rest| < |c.rest|
    decreases |c.rest|, 1
  {
    match ReadKeySegment(c)
    case Bad(f) => Bad(f)
    case Got(key, k) =>
      var e := SkipSpaces(k);
      if Peek(e) != '=' then Fail("equals in table", e.line)
      else match ReadValue(SkipSpaces(Advance(e)))
        case Bad(f) => Bad(f)
        case Got(v, c1) => Got(Item(key, v), c1)
  }

  // --- Statements ---------------------------------------------------------------------

  /** A table header with its line, or an assignment with the line the parser hands on with it. */
  datatype Stmt = Header(path: seq<string>, line: nat) | Assign(path: seq<string>, val: Toml, line: nat)

  function ReadHeader(c: Cursor): (res: Read<Stmt>)
    requires c.rest != []
    ensures res.Got? ==> |res.cur.rest| < |c.rest| && res.value.Header? && res.value.path != []
  {
    var c1 := Advance(c);
    if Peek(c1) == '[' then Fail("array of tables", c.line)
    else match ReadKeyPath(c1, [])
      case Bad(f) => Bad(f)
      case Got(path, c2) =>
        if Peek(c2) != ']' then Fail("header", c2.line)
        else match EndOfStatement(Advance(c2))
          case Bad(f) => Bad(f)
          case Got(_, c3) => Got(Header(path, c.line), c3)
  }

  function ReadKeyValue(c: Cursor): (res: Read<Stmt>)
    ensures res.Got? ==> |res.cur.rest| < |c.rest| && res.value.Assign? && res.value.path != []
  {
    match ReadKeyPath(c, [])
    case Bad(f) => Bad(f)
    case Got(path, c1) =>
      var e := SkipSpaces(c1);
      if Peek(e) != '=' then Fail("equals", c.line)
      else match ReadValue(SkipSpaces(Advance(e)))
        case Bad(f) => Bad(f)
        case Got(v, c2) =>
          match EndOfStatement(c2)
          case Bad(f) => Bad(f)
          case Got(_, c3) => Got(Assign(path, v, c3.line), c3)
  }

  /** The next statement, or None at the end of the text. */
  function ReadStatement(c0: Cursor): (res: Read<Option<Stmt>>)
    ensures res.Got? && res.value.Some? ==> |res.cur.rest| < |c0.rest| && res.value.value.path != []
  {
    var c := SkipFiller(c0);
    if c.rest == [] then Got(None, c) else
    match (if c.rest[0] == '[' then ReadHeader(c) else ReadKeyValue(c))
    case Bad(f) => Bad(f)
    case Got(st, c1) => Got(Some(st), c1)
  }

  /** All statements of the text, as far as it can be read. */
  function Statements(c: Cursor): (seq<Stmt>, Option<Failure>)
    decreases |c.rest|
  {
    match ReadStatement(c)
    case Bad(f) => ([], Some(f))
    case Got(None, _) => ([], None)
    case Got(Some(st), c1) =>
      var (rest, f) := Statements(c1);
      ([st] + rest, f)
  }
}

/**
 How the TOML subset is written: every construct as a tree with its layout, the text of the tree, and what
 the text stands for.  Nothing here refers to the reader; the reader is held against these definitions.
 */
module TomlSyntax {
  import opened Base
  import opened TomlText
  import opened TomlScanner

  // --- Characters ---------------------------------------------------------------------

  const DIGITS: set<char> := {'0', '1', '2', '3', '4', '5', '6', '7', '8', '9'}

  const LOWERS: set<char> := {
    'a', 'b', 'c', 'd', 'e', 'f', 'g', 'h', 'i', 'j', 'k', 'l', 'm',
    'n', 'o', 'p', 'q', 'r', 's', 't', 'u', 'v', 'w', 'x', 'y', 'z'
  }

  const UPPERS: set<char> := {
    'A', 'B', 'C', 'D', 'E', 'F', 'G', 'H', 'I', 'J', 'K', 'L', 'M',
    'N', 'O', 'P', 'Q', 'R', 'S', 'T', 'U', 'V', 'W', 'X', 'Y', 'Z'
  }

  const BARE: set<char> := LOWERS + UPPERS + DIGITS + {'-', '_'}

  const SPACES: set<char> := {' ', '\t'}

  const BLANKS: set<char> := {' ', '\t', '\n', '\r'}

  /** What each escape letter stands for. */
  const ESCAPES: map<char, char> := map[
    'b' := 8 as char, 't' := 9 as char, 'n' := 10 as char, 'f' := 12 as char, 'r' := 13 as char,
    '"' := '"', '\'' := '\'', '\\' := '\\'
  ]

  ghost predicate Only(s: string, chars: set<char>) {
    forall i :: 0 <= i < |s| ==> s[i] in chars
  }

  // --- Blanks and comments ------------------------------------------------------------

  /** A comment runs to the end of its line; the line end itself is a blank. */
  datatype Gap = Blank(ch: char) | Comment(text: string)

  function GapsText(gaps: seq<Gap>): string {
    if gaps == [] then [] else
    (match gaps[0] case Blank(ch) => [ch] case Comment(text) => ['#'] + text) + GapsText(gaps[1..])
  }

  /** Behind a comment there is a line end, or the end of the text. */
  ghost predicate GapsOk(gaps: seq<Gap>, atEnd: bool) {
    forall i :: 0 <= i < |gaps| ==> GapOk(gaps, i, atEnd)
  }

  predicate GapOk(gaps: seq<Gap>, i: nat, atEnd: bool)
    requires i < |gaps|
  {
    match gaps[i]
    case Blank(ch) => ch in BLANKS
    case Comment(text) => '\n' !in text && if i + 1 < |gaps| then gaps[i + 1] == Blank('\n') else atEnd
  }

  predicate LineOver(rest: string) {
    rest == [] || rest[0] == '\n'
  }

  // --- Strings ------------------------------------------------------------------------

  /** A hex digit and its case. */
  datatype Hex = Hex(value: nat, upper: bool)

  function HexText(digits: seq<Hex>): string {
    if digits == [] then [] else
    var d := digits[0];
    [if d.value < 10 then '0' + d.value as char
     else if d.value < 16 then (if d.upper then 'A' else 'a') + (d.value - 10) as char
     else '?'] + HexText(digits[1..])
  }

  function HexMeans(digits: seq<Hex>, r: nat): nat {
    if digits == [] then r else HexMeans(digits[1..], r * 16 + digits[0].value)
  }

  /**
   One piece of a string: a character as it is, an escape letter, a code point, a line that is continued, or
   quotes inside a multi-line string.
   */
  datatype Piece = Plain(ch: char) | Letter(ch: char) | Point(digits: seq<Hex>) | Fold(blanks: string) | Quotes(n: nat)

  function PieceText(p: Piece, quote: char): string {
    match p
    case Plain(ch) => [ch]
    case Letter(ch) => ['\\', ch]
    case Point(digits) => ['\\', if |digits| == 4 then 'u' else 'U'] + HexText(digits)
    case Fold(blanks) => ['\\'] + blanks
    case Quotes(n) => Repeat(quote, n)
  }

  function PieceMeans(p: Piece, quote: char): string {
    match p
    case Plain(ch) => [ch]
    case Letter(ch) => if ch in ESCAPES then [ESCAPES[ch]] else []
    case Point(digits) => CodePoint(HexMeans(digits, 0))
    case Fold(_) => []
    case Quotes(n) => Repeat(quote, n)
  }

  /** Values of 0x80000000 or more are negative runes to the reader and stand for U+FFFD. */
  function CodePoint(v: nat): string {
    Utf8(if v >= 0x8000_0000 then 0xFFFD else v)
  }

  ghost predicate PieceOk(p: Piece, quote: char, multiline: bool) {
    match p
    case Plain(ch) =>
      && ch != quote && !(quote == '"' && ch == '\\')
      && (ch >= ' ' || ch == '\t' || ch == '\r' || (ch == '\n' && multiline))
    case Letter(ch) => quote == '"' && ch in ESCAPES
    case Point(digits) =>
      && quote == '"' && (|digits| == 4 || |digits| == 8) && (forall i :: 0 <= i < |digits| ==> digits[i].value < 16)
      && (IsScalar(HexMeans(digits, 0)) || HexMeans(digits, 0) >= 0x8000_0000)
    case Fold(blanks) =>
      quote == '"' && multiline && Only(blanks, BLANKS) && blanks != [] && (blanks[0] == '\n' || blanks[0] == '\r')
    case Quotes(n) => multiline && n >= 1
  }

  function PiecesText(pieces: seq<Piece>, quote: char): string {
    if pieces == [] then [] else PieceText(pieces[0], quote) + PiecesText(pieces[1..], quote)
  }

  function PiecesMean(pieces: seq<Piece>, quote: char): string {
    if pieces == [] then [] else PieceMeans(pieces[0], quote) + PiecesMean(pieces[1..], quote)
  }

  /** A continued line takes in all blanks, and three quotes or more stand together only at the end. */
  ghost predicate PiecesOk(pieces: seq<Piece>, quote: char, multiline: bool) {
    && (forall i :: 0 <= i < |pieces| ==> PieceOk(pieces[i], quote, multiline))
    && (forall i :: 0 < i < |pieces| ==> Beside(pieces[i - 1], pieces[i]))
  }

  predicate Beside(p: Piece, q: Piece) {
    (p.Quotes? ==> p.n <= 2 && !q.Quotes?) && !(p.Fold? && q.Plain? && q.ch in BLANKS)
  }

  /** `lead` is the line end behind the opening quotes of a multi-line string, which does not belong to it. */
  datatype Quoted = Quoted(quote: char, multiline: bool, lead: string, pieces: seq<Piece>)

  function QuotedText(q: Quoted): string {
    var quotes := Repeat(q.quote, if q.multiline then 3 else 1);
    quotes + q.lead + PiecesText(q.pieces, q.quote) + quotes
  }

  function QuotedMeans(q: Quoted): string {
    PiecesMean(q.pieces, q.quote)
  }

  ghost predicate QuotedOk(q: Quoted) {
    && (q.quote == '"' || q.quote == '\'') && PiecesOk(q.pieces, q.quote, q.multiline)
    && (!q.multiline ==> q.lead == [])
    && (q.multiline ==> q.lead in {"", "\n", "\r", "\r\n"})
    && (q.lead == [] && q.multiline && q.pieces != [] ==> q.pieces[0] != Plain('\n') && q.pieces[0] != Plain('\r'))
    && (q.lead == "\r" && q.pieces != [] ==> q.pieces[0] != Plain('\n'))
  }

  // --- Keys ---------------------------------------------------------------------------

  datatype Key = Bare(name: string) | Enclosed(q: Quoted)

  function KeyText(k: Key): string {
    match k case Bare(name) => name case Enclosed(q) => QuotedText(q)
  }

  function KeyMeans(k: Key): string {
    match k case Bare(name) => name case Enclosed(q) => QuotedMeans(q)
  }

  ghost predicate KeyOk(k: Key) {
    match k
    case Bare(name) => name != [] && Only(name, BARE)
    case Enclosed(q) => QuotedOk(q) && !q.multiline
  }

  function PathText(path: seq<Key>): string {
    if path == [] then [] else if |path| == 1 then KeyText(path[0]) else KeyText(path[0]) + ['.'] + PathText(path[1..])
  }

  function PathMeans(path: seq<Key>): seq<string> {
    if path == [] then [] else [KeyMeans(path[0])] + PathMeans(path[1..])
  }

  ghost predicate PathOk(path: seq<Key>) {
    path != [] && forall i :: 0 <= i < |path| ==> KeyOk(path[i])
  }

  // --- Numbers ------------------------------------------------------------------------

  const HEXES: set<char> := DIGITS + {'a', 'b', 'c', 'd', 'e', 'f', 'A', 'B', 'C', 'D', 'E', 'F'}

  const OCTALS: set<char> := {'0', '1', '2', '3', '4', '5', '6', '7'}

  /** A sign, groups of digits with an underscore between any two, and for decimals a fraction and an exponent. */
  datatype Numeral =
    | Based(sign: string, base: char, groups: seq<string>)
    | Decimal(sign: string, groups: seq<string>, fraction: Option<seq<string>>, exponent: Option<Exponent>)

  datatype Exponent = Exponent(e: char, sign: string, groups: seq<string>)

  function GroupsText(groups: seq<string>): string {
    if groups == [] then [] else if |groups| == 1 then groups[0] else groups[0] + ['_'] + GroupsText(groups[1..])
  }

  ghost predicate GroupsOk(groups: seq<string>, digits: set<char>) {
    groups != [] && forall i :: 0 <= i < |groups| ==> groups[i] != [] && Only(groups[i], digits)
  }

  function FractionText(f: Option<seq<string>>): string {
    if f.None? then [] else ['.'] + GroupsText(f.value)
  }

  function ExponentText(x: Option<Exponent>): string {
    if x.None? then [] else [x.value.e] + x.value.sign + GroupsText(x.value.groups)
  }

  function NumeralText(n: Numeral): string {
    match n
    case Based(sign, base, groups) => sign + ['0', base] + GroupsText(groups)
    case Decimal(sign, groups, fraction, exponent) =>
      sign + (GroupsText(groups) + (FractionText(fraction) + ExponentText(exponent)))
  }

  predicate SignOk(sign: string) {
    sign == [] || sign == ['+'] || sign == ['-']
  }

  ghost predicate NumeralOk(n: Numeral) {
    && SignOk(n.sign)
    && match n
       case Based(_, base, groups) =>
         && base in {'x', 'o', 'b'}
         && GroupsOk(groups, if base == 'x' then HEXES else if base == 'o' then OCTALS else {'0', '1'})
       case Decimal(_, groups, fraction, exponent) =>
         && GroupsOk(groups, DIGITS) && (fraction.Some? ==> GroupsOk(fraction.value, DIGITS))
         && (exponent.Some? ==> exponent.value.e in {'e', 'E'} && SignOk(exponent.value.sign)
                                && GroupsOk(exponent.value.groups, DIGITS))
  }

  // --- Values -------------------------------------------------------------------------

  /** `closing` is what stands between the comma behind the last element, if there is one, and the bracket. */
  datatype Val =
    | Text(q: Quoted)
    | Number(n: Numeral)
    | Truth(b: bool)
    | List(elems: seq<Elem>, comma: bool, closing: seq<Gap>)
    | Table(entries: seq<Entry>, comma: bool, spaces: string)

  datatype Elem = Elem(before: seq<Gap>, val: Val, after: seq<Gap>)

  datatype Entry = Entry(before: string, key: Key, left: string, right: string, val: Val, after: string)

  function ValText(v: Val): string
    decreases v, 1
  {
    match v
    case Text(q) => QuotedText(q)
    case Number(n) => NumeralText(n)
    case Truth(b) => if b then "true" else "false"
    case List(elems, comma, closing) =>
      ['['] + ElemsText(elems) + (if comma then [','] else []) + GapsText(closing) + [']']
    case Table(entries, comma, spaces) =>
      ['{'] + EntriesText(entries) + (if comma then [','] else []) + spaces + ['}']
  }

  function ElemText(e: Elem): string
    decreases e, 2
  {
    GapsText(e.before) + ValText(e.val) + GapsText(e.after)
  }

  function ElemsText(elems: seq<Elem>): string
    decreases elems, 0
  {
    if elems == [] then [] else
    if |elems| == 1 then ElemText(elems[0]) else ElemText(elems[0]) + [','] + ElemsText(elems[1..])
  }

  function EntryText(e: Entry): string
    decreases e, 2
  {
    e.before + KeyText(e.key) + e.left + ['='] + e.right + ValText(e.val) + e.after
  }

  function EntriesText(entries: seq<Entry>): string
    decreases entries, 0
  {
    if entries == [] then [] else
    if |entries| == 1 then EntryText(entries[0]) else EntryText(entries[0]) + [','] + EntriesText(entries[1..])
  }

  function ValMeans(v: Val): Toml {
    match v
    case Text(q) => Str(QuotedMeans(q))
    case Number(n) => Num(NumeralText(n))
    case Truth(b) => Bool(if b then "true" else "false")
    case List(elems, _, _) => Arr(ElemsMean(elems))
    case Table(entries, _, _) => Inline(EntriesMean(entries))
  }

  function ElemsMean(elems: seq<Elem>): seq<Toml> {
    if elems == [] then [] else [ValMeans(elems[0].val)] + ElemsMean(elems[1..])
  }

  function EntriesMean(entries: seq<Entry>): seq<Item> {
    if entries == [] then [] else
    [Item(KeyMeans(entries[0].key), ValMeans(entries[0].val))] + EntriesMean(entries[1..])
  }

  ghost predicate ValOk(v: Val) {
    match v
    case Text(q) => QuotedOk(q)
    case Number(n) => NumeralOk(n)
    case Truth(_) => true
    case List(elems, comma, closing) =>
      && (forall i :: 0 <= i < |elems| ==> ElemOk(elems[i])) && GapsOk(closing, false)
      && (elems == [] ==> !comma) && (elems != [] && !comma ==> closing == [])
    case Table(entries, comma, spaces) =>
      && (forall i :: 0 <= i < |entries| ==> EntryOk(entries[i])) && Only(spaces, SPACES)
      && (entries == [] ==> !comma) && (entries != [] && !comma ==> spaces == [])
  }

  ghost predicate ElemOk(e: Elem) {
    GapsOk(e.before, false) && ValOk(e.val) && GapsOk(e.after, false)
  }

  ghost predicate EntryOk(e: Entry) {
    && Only(e.before, SPACES) && KeyOk(e.key) && Only(e.left, SPACES) && Only(e.right, SPACES)
    && ValOk(e.val) && Only(e.after, SPACES)
  }

  // --- Documents ----------------------------------------------------------------------

  /** What ends a statement: a line end, a comment, or the end of the text. */
  datatype End =
    | NewLine(spaces: string, crlf: bool)
    | Remark(spaces: string, text: string)
    | TextEnd(spaces: string, cr: bool)

  function EndText(e: End): string {
    match e
    case NewLine(spaces, crlf) => spaces + if crlf then ['\r', '\n'] else ['\n']
    case Remark(spaces, text) => spaces + ['#'] + text
    case TextEnd(spaces, cr) => spaces + if cr then ['\r'] else []
  }

  ghost predicate EndOk(e: End, tail: string) {
    && Only(e.spaces, SPACES)
    && match e
       case NewLine(_, _) => true
       case Remark(_, text) => '\n' !in text && LineOver(tail)
       case TextEnd(_, _) => tail == []
  }

  datatype Line =
    | Heading(lead: seq<Gap>, path: seq<Key>, end: End)
    | Setting(lead: seq<Gap>, path: seq<Key>, left: string, right: string, val: Val, end: End)

  /** A line without what stands before it. */
  function Body(l: Line): string {
    match l
    case Heading(_, path, end) => ['['] + PathText(path) + [']'] + EndText(end)
    case Setting(_, path, left, right, val, end) =>
      PathText(path) + left + ['='] + right + ValText(val) + EndText(end)
  }

  ghost predicate LineOk(l: Line, tail: string) {
    && GapsOk(l.lead, false) && PathOk(l.path) && EndOk(l.end, tail)
    && (l.Setting? ==> Only(l.left, SPACES) && Only(l.right, SPACES) && ValOk(l.val))
  }

  /** Lines, and the blanks and comments behind the last of them. */
  function DocText(lines: seq<Line>, last: seq<Gap>): string {
    if lines == [] then GapsText(last)
    else GapsText(lines[0].lead) + Body(lines[0]) + DocText(lines[1..], last)
  }

  ghost predicate DocOk(lines: seq<Line>, last: seq<Gap>)
    decreases |lines|
  {
    if lines == [] then GapsOk(last, true)
    else LineOk(lines[0], DocText(lines[1..], last)) && DocOk(lines[1..], last)
  }

  /** The statements with the lines they carry when the text begins on line `line`. */
  function DocMeans(lines: seq<Line>, line: nat): seq<Stmt> {
    if lines == [] then [] else
    var here := line + Newlines(GapsText(lines[0].lead));
    var next := here + Newlines(Body(lines[0]));
    [match lines[0]
     case Heading(_, path, _) => Header(PathMeans(path), here)
     case Setting(_, path, _, _, val, _) => Assign(PathMeans(path), ValMeans(val), next)] + DocMeans(lines[1..], next)
  }
}

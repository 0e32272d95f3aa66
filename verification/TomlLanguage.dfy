/**
 The reader accepts nothing else: every text that it reads is written by the syntax.  So the texts of the
 syntax are exactly the documents.
 */
module TomlLanguage {
  import opened Base
  import opened TomlText
  import opened TomlScanner
  import opened TomlDocument
  import opened TomlAccepts
  import opened TomlSyntax
  import opened TomlStrings
  import opened TomlNumbers
  import opened TomlValues
  import opened TomlRoundTrip

  // --- Blanks and comments ------------------------------------------------------------

  lemma {:induction false} SkippedRun(c: Cursor, p: char -> bool)
    ensures var d := SkipWhile(c, p);
            && c.rest == Taken(c, d) + d.rest && (d.rest == [] || !p(d.rest[0]))
            && forall i :: 0 <= i < |Taken(c, d)| ==> p(Taken(c, d)[i])
    decreases |c.rest|
  {
    if c.rest != [] && p(c.rest[0]) {
      var a, d := Advance(c), SkipWhile(c, p);
      SkippedRun(a, p);
      assert Taken(c, d) == [c.rest[0]] + Taken(a, d);
    }
  }

  lemma {:induction false} SpacesOf(c: Cursor) returns (spaces: string)
    ensures Only(spaces, SPACES) && c.rest == spaces + SkipSpaces(c).rest
    ensures SkipSpaces(c).rest == [] || SkipSpaces(c).rest[0] !in SPACES
  {
    SkippedRun(c, IsSpace);
    spaces := Taken(c, SkipSpaces(c));
  }

  lemma {:induction false} GapsJoin(g: Gap, rest: seq<Gap>, atEnd: bool)
    requires GapsOk(rest, atEnd)
    requires match g
             case Blank(ch) => ch in BLANKS
             case Comment(text) => '\n' !in text && if rest == [] then atEnd else rest[0] == Blank('\n')
    ensures GapsOk([g] + rest, atEnd) && GapsText([g] + rest) == GapsText([g]) + GapsText(rest)
  {
    var all := [g] + rest;
    assert all[1..] == rest && GapsText([]) == [];
    forall i | 0 <= i < |all| ensures GapOk(all, i, atEnd) {
      if i > 0 { assert GapOk(rest, i - 1, atEnd); }
    }
  }

  lemma {:induction false} GapsOf(c: Cursor) returns (gaps: seq<Gap>)
    ensures var d := SkipFiller(c);
            GapsOk(gaps, d.rest == []) && c.rest == GapsText(gaps) + d.rest && Solid(d.rest)
    decreases |c.rest|
  {
    hide GapsOk, GapsText, SkipWhile, Solid;
    gaps := [];
    if c.rest == [] {
      NoGapsOk(true);
      SolidIs(c.rest);
    } else if IsBlank(c.rest[0]) {
      var rest := GapsOf(Advance(c));
      gaps := BlankBefore(c.rest[0], rest, SkipFiller(c).rest);
      assert c.rest == [c.rest[0]] + Advance(c).rest;
    } else if c.rest[0] == '#' {
      var d := SkipWhile(c, IsNotNewline);
      var text := CommentOf(c);
      var rest := GapsOf(d);
      gaps := CommentBefore(text, rest, d.rest, SkipFiller(c).rest);
    } else {
      NoGapsOk(false);
      SolidIs(c.rest);
    }
  }

  lemma {:induction false} SolidIs(s: string)
    ensures Solid(s) <==> s == [] || (!IsBlank(s[0]) && s[0] != '#')
  {
  }

  lemma {:induction false} CommentOf(c: Cursor) returns (text: string)
    requires c.rest != [] && c.rest[0] == '#'
    ensures var d := SkipWhile(c, IsNotNewline);
            c.rest == ['#'] + text + d.rest && '\n' !in text && (d.rest == [] || d.rest[0] == '\n')
  {
    SkippedRun(c, IsNotNewline);
    var run := Taken(c, SkipWhile(c, IsNotNewline));
    text := run[1..];
    assert run == ['#'] + text && forall i :: 0 <= i < |text| ==> text[i] == run[i + 1];
  }

  lemma {:induction false} BlankBefore(ch: char, rest: seq<Gap>, tail: string) returns (gaps: seq<Gap>)
    requires IsBlank(ch) && GapsOk(rest, tail == [])
    ensures GapsOk(gaps, tail == []) && GapsText(gaps) + tail == [ch] + (GapsText(rest) + tail)
  {
    hide GapsOk, GapsText;
    GapsJoin(Blank(ch), rest, tail == []);
    gaps := [Blank(ch)] + rest;
    OneGap(gaps[0]);
  }

  lemma {:induction false} CommentBefore(text: string, rest: seq<Gap>, line: string, tail: string)
    returns (gaps: seq<Gap>)
    requires GapsOk(rest, tail == []) && Solid(tail) && '\n' !in text
    requires line == GapsText(rest) + tail && (line == [] || line[0] == '\n')
    ensures GapsOk(gaps, tail == []) && GapsText(gaps) + tail == ['#'] + text + line
  {
    hide GapsOk, GapsText, Solid;
    LineEndIsGap(rest, line, tail);
    GapsJoin(Comment(text), rest, tail == []);
    gaps := [Comment(text)] + rest;
    OneGap(Comment(text));
    Assoc(['#'] + text, GapsText(rest), tail);
  }

  lemma {:induction false} NoGapsOk(atEnd: bool)
    ensures GapsOk([], atEnd) && GapsText([]) == []
  {
  }

  lemma {:induction false} OneGap(g: Gap)
    ensures GapsText([g]) == match g case Blank(ch) => [ch] case Comment(text) => ['#'] + text
  {
    assert GapsText([]) == [];
  }

  /** Behind a comment there is nothing, or a line end that is a gap of its own. */
  lemma {:induction false} LineEndIsGap(gaps: seq<Gap>, text: string, tail: string)
    requires text == GapsText(gaps) + tail && (text == [] || text[0] == '\n') && Solid(tail)
    ensures if gaps == [] then tail == [] else gaps[0] == Blank('\n')
  {
    if gaps == [] { assert text == tail; }
  }

  // --- Strings ------------------------------------------------------------------------

  lemma {:induction false} HexOf(s: string, r: nat) returns (digits: seq<Hex>)
    requires HexValue(s, r).Some?
    ensures HexText(digits) == s && |digits| == |s| && HexValue(s, r) == Some(HexMeans(digits, r))
    ensures forall i :: 0 <= i < |digits| ==> digits[i].value < 16
  {
    digits := [];
    if s != [] {
      var d := HexDigitOf(s[0]);
      var rest := HexOf(s[1..], r * 16 + d.value);
      digits := [d] + rest;
      HexDigitIs(d);
      HexHead(digits);
      assert digits[1..] == rest;
    }
  }

  lemma {:induction false} HexHead(digits: seq<Hex>)
    requires digits != []
    ensures HexText(digits) == [HexText([digits[0]])[0]] + HexText(digits[1..])
  {
  }

  lemma {:induction false} HexDigitOf(ch: char) returns (d: Hex)
    requires HexDigit(ch).Some?
    ensures d.value < 16 && HexDigit(ch) == Some(d.value) && HexText([d]) == [ch]
  {
    d := Hex(HexDigit(ch).value, 'A' <= ch <= 'F');
    assert HexText([]) == [];
  }

  /** An escape that is read is a letter, a code point or a continued line. */
  lemma {:induction false} EscapeOf(c: Cursor, multiline: bool) returns (p: Piece)
    requires c.rest != [] && c.rest[0] == '\\' && ReadEscape(c, multiline).Got?
    ensures PieceOk(p, '"', multiline) && (p.Letter? || p.Point? || p.Fold?)
    ensures c.rest == PieceText(p, '"') + ReadEscape(c, multiline).cur.rest
    ensures p.Fold? ==> var rest := ReadEscape(c, multiline).cur.rest; rest == [] || rest[0] !in BLANKS
  {
    hide SimpleEscape, ESCAPES, ReadUnicode, SkipWhile, PieceOk;
    var d := Advance(c);
    var ch := d.rest[0];
    EscapesAre(ch);
    assert c.rest == ['\\', ch] + Advance(d).rest;
    if ch in ESCAPES {
      p := Letter(ch);
      LetterIsOk(ch, multiline);
    } else if ch == 'u' || ch == 'U' {
      p := PointOf(Advance(d), if ch == 'u' then 4 else 8, c.line);
    } else {
      p := FoldOf(ch, Advance(d));
    }
  }

  lemma {:induction false} LetterIsOk(ch: char, multiline: bool)
    requires ch in ESCAPES
    ensures PieceOk(Letter(ch), '"', multiline) && PieceText(Letter(ch), '"') == ['\\', ch]
  {
  }

  lemma {:induction false} FoldOf(ch: char, c: Cursor) returns (p: Piece)
    requires ch == '\n' || ch == '\r'
    ensures p.Fold? && PieceOk(p, '"', true)
    ensures PieceText(p, '"') + SkipWhile(c, IsBlank).rest == ['\\', ch] + c.rest
    ensures var rest := SkipWhile(c, IsBlank).rest; rest == [] || rest[0] !in BLANKS
  {
    var d := SkipWhile(c, IsBlank);
    SkippedRun(c, IsBlank);
    p := Fold([ch] + Taken(c, d));
    assert ['\\'] + ([ch] + Taken(c, d)) + d.rest == ['\\', ch] + (Taken(c, d) + d.rest);
  }

  lemma {:induction false} PointOf(c: Cursor, n: nat, line: nat) returns (p: Piece)
    requires (n == 4 || n == 8) && ReadUnicode(c, n, 0, line).Got?
    ensures p.Point? && PieceOk(p, '"', true) && PieceOk(p, '"', false)
    ensures PieceText(p, '"') + ReadUnicode(c, n, 0, line).cur.rest == ['\\', if n == 4 then 'u' else 'U'] + c.rest
  {
    hide ReadUnicode, HexValue, HexText, HexMeans;
    UnicodeEscapeIff(c, n, 0, line);
    var digits := HexOf(c.rest[..n], 0);
    p := Point(digits);
    assert c.rest == c.rest[..n] + c.rest[n..];
  }

  /** The quotes at the front, and what is behind them. */
  lemma {:induction false} QuotesOf(s: string, quote: char)
    ensures s == Repeat(quote, QuoteRun(s, quote)) + s[QuoteRun(s, quote)..]
    ensures var rest := s[QuoteRun(s, quote)..]; rest == [] || rest[0] != quote
  {
    if s != [] && s[0] == quote {
      QuotesOf(s[1..], quote);
      var n := QuoteRun(s[1..], quote);
      assert Repeat(quote, n + 1) == [quote] + Repeat(quote, n);
      assert s == [quote] + s[1..] && s[n + 1..] == s[1..][n..];
    }
  }

  lemma {:induction false} PiecesJoin(p: Piece, rest: seq<Piece>, quote: char, multiline: bool)
    requires PieceOk(p, quote, multiline) && PiecesOk(rest, quote, multiline) && (rest != [] ==> Beside(p, rest[0]))
    ensures PiecesOk([p] + rest, quote, multiline)
    ensures PiecesText([p] + rest, quote) == PieceText(p, quote) + PiecesText(rest, quote)
  {
    hide PieceOk, Beside, PieceText;
    var all := [p] + rest;
    assert all[1..] == rest;
    forall i | 0 < i < |all| ensures Beside(all[i - 1], all[i]) {
      if i > 1 { assert all[i - 1] == rest[i - 2] && all[i] == rest[i - 1]; }
    }
  }

  lemma {:induction false} NoPiecesOk(quote: char, multiline: bool)
    ensures PiecesOk([], quote, multiline) && PiecesText([], quote) == []
  {
  }

  /** What stands before the closing quotes are pieces. */
  lemma {:induction false} PiecesOf(c: Cursor, quote: char, multiline: bool, acc: string, line: nat)
    returns (pieces: seq<Piece>)
    requires IsQuote(quote) && StringBody(c, quote, multiline, acc, line).Got?
    ensures PiecesOk(pieces, quote, multiline)
    ensures c.rest == PiecesText(pieces, quote) + Closing(quote, multiline)
                      + StringBody(c, quote, multiline, acc, line).cur.rest
    decreases |c.rest|
  {
    hide PiecesOk, PieceOk, PiecesText, PieceText, ReadEscape, Beside;
    var ch, r := c.rest[0], StringBody(c, quote, multiline, acc, line);
    if ch == quote && multiline {
      var run := QuoteRun(c.rest, quote);
      QuotesOf(c.rest, quote);
      DropRest(c, run);
      if run >= 3 {
        pieces := LastQuotes(run, quote, r.cur.rest);
      } else {
        var rest := PiecesOf(Drop(c, run), quote, multiline, acc + Repeat(quote, run), line);
        QuotesStart(run, quote);
        pieces := JoinPiece(Quotes(run), rest, quote, multiline, Drop(c, run).rest, r.cur.rest);
      }
    } else if ch == quote {
      NoPiecesOk(quote, multiline);
      pieces := [];
      assert c.rest == [quote] + Advance(c).rest;
    } else if ch == '\\' && quote == '"' {
      var p := EscapeOf(c, multiline);
      var e := ReadEscape(c, multiline);
      var rest := PiecesOf(e.cur, quote, multiline, acc + e.value, line);
      pieces := JoinPiece(p, rest, quote, multiline, e.cur.rest, r.cur.rest);
    } else {
      var rest := PiecesOf(Advance(c), quote, multiline, acc + [ch], line);
      PlainIsOk(ch, quote, multiline);
      pieces := JoinPiece(Plain(ch), rest, quote, multiline, Advance(c).rest, r.cur.rest);
      assert c.rest == [ch] + Advance(c).rest;
    }
  }

  lemma {:induction false} PlainIsOk(ch: char, quote: char, multiline: bool)
    requires ch != quote && !(ch == '\\' && quote == '"') && !(ch == '\n' && !multiline)
    requires ch == '\n' || ch == '\r' || !(ch < ' ' && ch != '\t')
    ensures PieceOk(Plain(ch), quote, multiline) && PieceText(Plain(ch), quote) == [ch]
  {
  }

  lemma {:induction false} QuotesStart(n: nat, quote: char)
    requires n == 1 || n == 2
    ensures PieceOk(Quotes(n), quote, true) && PieceText(Quotes(n), quote) == Repeat(quote, n)
  {
  }

  /** A piece before others: what follows it in the text is not taken for part of it. */
  lemma {:induction false} JoinPiece(p: Piece, rest: seq<Piece>, quote: char, multiline: bool, text: string,
                                     tail: string)
    returns (pieces: seq<Piece>)
    requires PieceOk(p, quote, multiline) && PiecesOk(rest, quote, multiline) && IsQuote(quote)
    requires text == PiecesText(rest, quote) + Closing(quote, multiline) + tail
    requires p.Quotes? ==> p.n <= 2 && (text == [] || text[0] != quote)
    requires p.Fold? ==> text == [] || text[0] !in BLANKS
    ensures PiecesOk(pieces, quote, multiline)
    ensures PiecesText(pieces, quote) + Closing(quote, multiline) + tail == PieceText(p, quote) + text
  {
    hide PieceOk, PieceText;
    if rest != [] {
      PiecesSplit(rest, quote, multiline);
      PieceStarts(rest[0], quote, multiline);
      assert text[0] == PieceText(rest[0], quote)[0];
    }
    hide PiecesOk, PiecesText;
    PiecesJoin(p, rest, quote, multiline);
    pieces := [p] + rest;
  }

  lemma {:induction false} LastQuotes(run: nat, quote: char, tail: string) returns (pieces: seq<Piece>)
    requires run >= 3
    ensures PiecesOk(pieces, quote, true)
    ensures PiecesText(pieces, quote) + Closing(quote, true) + tail == Repeat(quote, run) + tail
  {
    NoPiecesOk(quote, true);
    pieces := [];
    if run > 3 {
      pieces := [Quotes(run - 3)];
      assert PieceOk(pieces[0], quote, true);
      assert PiecesText(pieces, quote) == Repeat(quote, run - 3) + PiecesText([], quote);
    }
    assert Repeat(quote, run - 3) + Repeat(quote, 3) == Repeat(quote, run);
  }

  /** The line end behind opening quotes. */
  lemma {:induction false} LeadOf(c: Cursor) returns (lead: string)
    ensures lead in {"", "\n", "\r", "\r\n"} && c.rest == lead + SkipLead(c).rest
    ensures var rest := SkipLead(c).rest;
            rest != [] ==> (lead == [] ==> rest[0] != '\n' && rest[0] != '\r') && (lead == "\r" ==> rest[0] != '\n')
  {
    var c1 := if Peek(c) == '\r' then Advance(c) else c;
    lead := if Peek(c) == '\r' then if Peek(c1) == '\n' then "\r\n" else "\r"
            else if Peek(c1) == '\n' then "\n" else "";
    assert Peek(c) == '\r' ==> c.rest == ['\r'] + Advance(c).rest;
    assert Peek(c1) == '\n' ==> c1.rest == ['\n'] + Advance(c1).rest;
  }

  /** A string that is read is a quoted one. */
  lemma {:induction false} QuotedOf(c: Cursor, multiline: bool) returns (q: Quoted)
    requires c.rest != [] && IsQuote(c.rest[0]) && (multiline ==> TripleQuote(c.rest)) && ReadString(c, multiline).Got?
    ensures QuotedOk(q) && q.multiline == multiline && c.rest == QuotedText(q) + ReadString(c, multiline).cur.rest
  {
    hide StringBody, PiecesOk, PiecesText;
    var quote, r := c.rest[0], ReadString(c, multiline);
    if multiline {
      DropRest(c, 3);
      var body := SkipLead(Drop(c, 3));
      var lead := LeadOf(Drop(c, 3));
      var pieces := PiecesOf(body, quote, true, [], c.line);
      q := Quoted(quote, true, lead, pieces);
      LeadFits(q, body.rest, r.cur.rest);
      assert c.rest == Repeat(quote, 3) + c.rest[3..];
    } else {
      var pieces := PiecesOf(Advance(c), quote, false, [], c.line);
      q := Quoted(quote, false, [], pieces);
      assert c.rest == [quote] + Advance(c).rest && Repeat(quote, 1) == [quote];
    }
    QuotedParts(q, r.cur.rest);
  }

  lemma {:induction false} LeadFits(q: Quoted, body: string, tail: string)
    requires PiecesOk(q.pieces, q.quote, true) && IsQuote(q.quote)
    requires body == PiecesText(q.pieces, q.quote) + Closing(q.quote, true) + tail
    requires body != [] ==>
               (q.lead == [] ==> body[0] != '\n' && body[0] != '\r') && (q.lead == "\r" ==> body[0] != '\n')
    ensures q.pieces != [] && q.lead == [] ==> q.pieces[0] != Plain('\n') && q.pieces[0] != Plain('\r')
    ensures q.pieces != [] && q.lead == "\r" ==> q.pieces[0] != Plain('\n')
  {
    hide PieceOk, PieceText;
    if q.pieces != [] {
      PiecesSplit(q.pieces, q.quote, true);
      PieceStarts(q.pieces[0], q.quote, true);
      assert body[0] == PieceText(q.pieces[0], q.quote)[0];
    }
  }

  // --- Keys ---------------------------------------------------------------------------

  lemma {:induction false} KeyOf(c: Cursor) returns (k: Key)
    requires ReadKeySegment(c).Got?
    ensures KeyOk(k) && c.rest == KeyText(k) + ReadKeySegment(c).cur.rest
    ensures k.Bare? ==> KeyOver(ReadKeySegment(c).cur.rest)
  {
    hide ReadString, QuotedOk, QuotedText, IsBareKeyChar, BARE;
    if c.rest != [] && IsQuote(c.rest[0]) {
      var q := QuotedOf(c, false);
      k := Enclosed(q);
    } else {
      var d := SkipWhile(c, IsBareKeyChar);
      SkippedRun(c, IsBareKeyChar);
      assert forall ch :: IsBareKeyChar(ch) <==> ch in BARE by {
        forall ch ensures IsBareKeyChar(ch) <==> ch in BARE { BareChars(ch); }
      }
      k := Bare(Taken(c, d));
      assert Taken(c, d) == [] ==> d == c by { NothingTaken(c); }
    }
  }

  lemma {:induction false} NothingTaken(c: Cursor)
    ensures Taken(c, SkipWhile(c, IsBareKeyChar)) == [] ==> SkipWhile(c, IsBareKeyChar) == c
  {
  }

  lemma {:induction false} PathOf(c: Cursor, acc: Path) returns (path: seq<Key>)
    requires ReadKeyPath(c, acc).Got?
    ensures PathOk(path) && c.rest == PathText(path) + ReadKeyPath(c, acc).cur.rest
    decreases |c.rest|
  {
    hide ReadKeySegment, KeyOk, KeyText;
    var k := KeyOf(c);
    var r := ReadKeySegment(c);
    if Peek(r.cur) == '.' {
      var rest := PathOf(Advance(r.cur), acc + [r.value]);
      path := [k] + rest;
      assert path[1..] == rest && r.cur.rest == ['.'] + Advance(r.cur).rest;
    } else {
      path := [k];
    }
  }

  // --- Values -------------------------------------------------------------------------

  /** A value that is read is one of the syntax. */
  lemma {:induction false} ValOf(c: Cursor) returns (v: Val)
    requires ReadValue(c).Got?
    ensures ValOk(v) && c.rest == ValText(v) + ReadValue(c).cur.rest
    decreases |c.rest|, 1
  {
    hide ReadString, ReadArray, ReadInline, ReadBool, ReadNumber, QuotedOk, QuotedText, NumeralOk, NumeralText,
      ElemOk, EntryOk, ElemsText, EntriesText, GapsText, GapsOk, Only;
    var ch, rest := c.rest[0], ReadValue(c).cur.rest;
    if ch == '"' || ch == '\'' {
      var q := QuotedOf(c, TripleQuote(c.rest));
      v := Text(q);
    } else if ch == '[' {
      var elems, comma, closing := ListOf(Advance(c), [], c.line);
      v := List(elems, comma, closing);
      assert c.rest == ['['] + Advance(c).rest;
      assert ValText(v) + rest == ['['] + (ListRest(elems, comma, closing) + rest);
    } else if ch == '{' {
      var entries, comma, spaces := TableOf(Advance(c), [], c.line);
      v := Table(entries, comma, spaces);
      assert c.rest == ['{'] + Advance(c).rest;
      assert ValText(v) + rest == ['{'] + (TableRest(entries, comma, spaces) + rest);
    } else if ch == 't' || ch == 'f' {
      v := TruthOf(c);
    } else {
      v := NumberOf(c);
    }
  }

  lemma {:induction false} TruthOf(c: Cursor) returns (v: Val)
    requires ReadBool(c).Got?
    ensures v.Truth? && c.rest == ValText(v) + ReadBool(c).cur.rest
  {
    v := Truth("true" <= c.rest);
    DropRest(c, if |c.rest| >= 4 then 4 else 0);
    DropRest(c, if |c.rest| >= 5 then 5 else 0);
    assert WordAhead(c.rest, "true") ==> c.rest == "true" + c.rest[4..];
    assert WordAhead(c.rest, "false") ==> c.rest == "false" + c.rest[5..];
    assert WordAhead(c.rest, "false") ==> c.rest[0] == 'f';
    assert "true" <= c.rest ==> c.rest[0] == 't';
  }

  lemma {:induction false} NumberOf(c: Cursor) returns (v: Val)
    requires ReadNumber(c).Got?
    ensures v.Number? && ValOk(v) && c.rest == ValText(v) + ReadNumber(c).cur.rest
  {
    hide IsNumber, NumeralText, NumeralOk, SkipWhile;
    var d := SkipWhile(c, IsNumberChar);
    SkippedRun(c, IsNumberChar);
    NumberIff(Taken(c, d));
    var n :| NumeralOk(n) && NumeralText(n) == Taken(c, d);
    v := Number(n);
  }

  lemma {:induction false} ListOf(c0: Cursor, acc: seq<Toml>, line: nat)
    returns (elems: seq<Elem>, comma: bool, closing: seq<Gap>)
    requires ReadArray(c0, acc, line).Got?
    ensures ListOk(elems, comma, closing)
    ensures c0.rest == ListRest(elems, comma, closing) + ReadArray(c0, acc, line).cur.rest
    decreases |c0.rest|, 2
  {
    hide ReadValue, SkipFiller, GapsText, GapsOk, ValOk, ValText, ListOk, ListRest;
    var c, tail := SkipFiller(c0), ReadArray(c0, acc, line).cur.rest;
    var before := GapsOf(c0);
    assert c.rest == [c.rest[0]] + Advance(c).rest;
    if c.rest[0] == ']' {
      elems, comma, closing := EmptyList(before, tail);
    } else {
      var v := ValOf(c);
      var c1 := ReadValue(c).cur;
      var c2 := SkipFiller(c1);
      var after := GapsOf(c1);
      var e := Elem(before, v, after);
      assert c2.rest == [c2.rest[0]] + Advance(c2).rest;
      assert c0.rest == ElemText(e) + [c2.rest[0]] + Advance(c2).rest;
      if c2.rest[0] == ',' {
        elems, comma, closing := ListOf(Advance(c2), acc + [ReadValue(c).value], line);
        elems, comma := AddElem(e, elems, comma, closing, tail);
      } else {
        elems, comma, closing := OneElem(e, tail);
      }
    }
  }

  lemma {:induction false} EmptyList(gaps: seq<Gap>, tail: string)
    returns (elems: seq<Elem>, comma: bool, closing: seq<Gap>)
    requires GapsOk(gaps, false)
    ensures ListOk(elems, comma, closing) && ListRest(elems, comma, closing) + tail == GapsText(gaps) + ([']'] + tail)
  {
    hide GapsText, GapsOk, ElemOk;
    elems, comma, closing := [], false, gaps;
    assert ElemsText([]) == [];
  }

  lemma {:induction false} OneElem(e: Elem, tail: string) returns (elems: seq<Elem>, comma: bool, closing: seq<Gap>)
    requires ElemOk(e)
    ensures ListOk(elems, comma, closing) && ListRest(elems, comma, closing) + tail == ElemText(e) + [']'] + tail
  {
    hide GapsText, GapsOk, ElemOk, ElemText;
    elems, comma, closing := [e], false, [];
    NoGapsOk(false);
  }

  lemma {:induction false} AddElem(e: Elem, rest: seq<Elem>, more: bool, closing: seq<Gap>, tail: string)
    returns (elems: seq<Elem>, comma: bool)
    requires ElemOk(e) && ListOk(rest, more, closing)
    ensures ListOk(elems, comma, closing)
    ensures ListRest(elems, comma, closing) + tail == ElemText(e) + [','] + (ListRest(rest, more, closing) + tail)
  {
    hide GapsText, GapsOk, ElemOk, ElemText;
    elems, comma := [e] + rest, more || rest == [];
    assert elems[1..] == rest && ElemsText([]) == [];
  }

  lemma {:induction false} TableOf(c0: Cursor, acc: seq<Item>, line: nat)
    returns (entries: seq<Entry>, comma: bool, spaces: string)
    requires ReadInline(c0, acc, line).Got?
    ensures TableOk(entries, comma, spaces)
    ensures c0.rest == TableRest(entries, comma, spaces) + ReadInline(c0, acc, line).cur.rest
    decreases |c0.rest|, 2
  {
    hide ReadItem, SkipSpaces, Only, EntryOk, EntryText, TableOk, TableRest;
    var c, tail := SkipSpaces(c0), ReadInline(c0, acc, line).cur.rest;
    var before := SpacesOf(c0);
    assert c.rest == [c.rest[0]] + Advance(c).rest;
    if c.rest[0] == '}' {
      entries, comma, spaces := EmptyTable(before, tail);
    } else {
      var e := ItemOf(c);
      var c1 := ReadItem(c).cur;
      var c2 := SkipSpaces(c1);
      var after := SpacesOf(c1);
      e := FullEntry(before, e, after, c0.rest, c.rest, c1.rest, c2.rest);
      assert c2.rest == [c2.rest[0]] + Advance(c2).rest;
      assert c0.rest == EntryText(e) + [c2.rest[0]] + Advance(c2).rest;
      if c2.rest[0] == ',' {
        entries, comma, spaces := TableOf(Advance(c2), acc + [ReadItem(c).value], line);
        entries, comma := AddEntry(e, entries, comma, spaces, tail);
      } else {
        entries, comma, spaces := OneEntry(e, tail);
      }
    }
  }

  lemma {:induction false} FullEntry(before: string, e: Entry, after: string, all: string, s: string, t: string,
                                     rest: string)
    returns (f: Entry)
    requires Only(before, SPACES) && Only(after, SPACES) && EntryOk(e) && e.before == [] && e.after == []
    requires all == before + s && s == EntryText(e) + t && t == after + rest
    ensures EntryOk(f) && all == EntryText(f) + rest
  {
    hide Only, KeyOk, ValOk, KeyText, ValText;
    f := e.(before := before, after := after);
    var inner := KeyText(e.key) + e.left + ['='] + e.right + ValText(e.val);
    assert EntryText(e) == inner && EntryText(f) == before + inner + after;
  }

  lemma {:induction false} ItemOf(c: Cursor) returns (e: Entry)
    requires ReadItem(c).Got?
    ensures EntryOk(e) && e.before == [] && e.after == [] && c.rest == EntryText(e) + ReadItem(c).cur.rest
    decreases |c.rest|, 1
  {
    hide ReadKeySegment, SkipSpaces, ReadValue, KeyOk, KeyText, ValOk, ValText, Only, EntryOk, EntryText;
    var k := ReadKeySegment(c).cur;
    var key := KeyOf(c);
    var eq := SkipSpaces(k);
    var left := SpacesOf(k);
    var right := SpacesOf(Advance(eq));
    var s := SkipSpaces(Advance(eq));
    var v := ValOf(s);
    e := BareEntry(key, left, right, v, k.rest, s.rest, ReadValue(s).cur.rest);
    EqualsAhead(eq);
  }

  lemma {:induction false} EqualsAhead(c: Cursor)
    requires Peek(c) == '='
    ensures c.rest == ['='] + Advance(c).rest
  {
  }

  lemma {:induction false} BareEntry(key: Key, left: string, right: string, v: Val, k: string, s: string, rest: string)
    returns (e: Entry)
    requires KeyOk(key) && Only(left, SPACES) && Only(right, SPACES) && ValOk(v) && s == ValText(v) + rest
    ensures EntryOk(e) && e.before == [] && e.after == []
    ensures k == left + (['='] + (right + s)) ==> KeyText(key) + k == EntryText(e) + rest
  {
    hide KeyOk, ValOk, KeyText, ValText;
    e := Entry([], key, left, right, v, []);
  }

  lemma {:induction false} EmptyTable(spaces: string, tail: string)
    returns (entries: seq<Entry>, comma: bool, inner: string)
    requires Only(spaces, SPACES)
    ensures TableOk(entries, comma, inner) && TableRest(entries, comma, inner) + tail == spaces + (['}'] + tail)
  {
    hide Only, EntryOk;
    entries, comma, inner := [], false, spaces;
    assert EntriesText([]) == [];
  }

  lemma {:induction false} OneEntry(e: Entry, tail: string) returns (entries: seq<Entry>, comma: bool, spaces: string)
    requires EntryOk(e)
    ensures TableOk(entries, comma, spaces) && TableRest(entries, comma, spaces) + tail == EntryText(e) + ['}'] + tail
  {
    hide EntryOk, EntryText;
    entries, comma, spaces := [e], false, [];
  }

  lemma {:induction false} AddEntry(e: Entry, rest: seq<Entry>, more: bool, spaces: string, tail: string)
    returns (entries: seq<Entry>, comma: bool)
    requires EntryOk(e) && TableOk(rest, more, spaces)
    ensures TableOk(entries, comma, spaces)
    ensures TableRest(entries, comma, spaces) + tail == EntryText(e) + [','] + (TableRest(rest, more, spaces) + tail)
  {
    hide EntryOk, EntryText, Only;
    entries, comma := [e] + rest, more || rest == [];
    assert entries[1..] == rest && EntriesText([]) == [];
  }

  // --- Documents ----------------------------------------------------------------------

  lemma {:induction false} EndOf(c0: Cursor) returns (e: End)
    requires EndOfStatement(c0).Got?
    ensures EndOk(e, EndOfStatement(c0).cur.rest) && c0.rest == EndText(e) + EndOfStatement(c0).cur.rest
  {
    hide SkipSpaces, Only, SkipWhile;
    var c, rest := SkipSpaces(c0), EndOfStatement(c0).cur.rest;
    var spaces := SpacesOf(c0);
    if c.rest == [] {
      e := TextEnd(spaces, false);
    } else if c.rest[0] == '#' {
      var text := CommentOf(c);
      e := Remark(spaces, text);
    } else if c.rest[0] == '\r' {
      var c1 := Advance(c);
      assert c.rest == ['\r'] + c1.rest;
      e := if c1.rest == [] then TextEnd(spaces, true) else NewLine(spaces, true);
      assert c1.rest != [] ==> c1.rest == ['\n'] + rest && c.rest == ['\r', '\n'] + rest;
    } else {
      e := NewLine(spaces, false);
      assert c.rest == ['\n'] + rest;
    }
  }

  lemma {:induction false} HeadingOf(c: Cursor) returns (l: Line)
    requires c.rest != [] && c.rest[0] == '[' && ReadHeader(c).Got?
    ensures l.lead == [] && LineOk(l, ReadHeader(c).cur.rest) && c.rest == Body(l) + ReadHeader(c).cur.rest
  {
    hide ReadKeyPath, EndOfStatement, EndOk, EndText, PathOk, PathText, GapsOk, LineOk, Body, ReadHeader;
    HeaderParts(c);
    NoGapsOk(false);
    var c1 := Advance(c);
    var c2 := ReadKeyPath(c1, []).cur;
    var c3 := Advance(c2);
    var path := PathOf(c1, []);
    var end := EndOf(c3);
    CharAhead(c);
    CharAhead(c2);
    l := HeadingText(path, end, c.rest, c1.rest, c3.rest, EndOfStatement(c3).cur.rest);
  }

  lemma {:induction false} CharAhead(c: Cursor)
    requires c.rest != []
    ensures c.rest == [c.rest[0]] + Advance(c).rest
  {
  }

  lemma {:induction false} HeaderParts(c: Cursor)
    requires c.rest != [] && ReadHeader(c).Got?
    ensures ReadKeyPath(Advance(c), []).Got?
    ensures var c2 := ReadKeyPath(Advance(c), []).cur;
            && c2.rest != [] && c2.rest[0] == ']' && EndOfStatement(Advance(c2)).Got?
            && ReadHeader(c).cur == EndOfStatement(Advance(c2)).cur
  {
    hide ReadKeyPath, EndOfStatement;
  }

  lemma {:induction false} HeadingText(path: seq<Key>, end: End, all: string, inner: string, e: string, rest: string)
    returns (l: Line)
    requires PathOk(path) && EndOk(end, rest) && GapsOk([], false)
    requires all == ['['] + inner && inner == PathText(path) + ([']'] + e) && e == EndText(end) + rest
    ensures l.Heading? && l.lead == [] && LineOk(l, rest) && all == Body(l) + rest
  {
    hide EndOk, EndText, PathOk, PathText, GapsOk;
    l := Heading([], path, end);
    Assoc5(['['], PathText(path), [']'], EndText(end), rest);
  }

  lemma {:induction false} SettingOf(c: Cursor) returns (l: Line)
    requires ReadKeyValue(c).Got?
    ensures l.lead == [] && LineOk(l, ReadKeyValue(c).cur.rest) && c.rest == Body(l) + ReadKeyValue(c).cur.rest
  {
    hide ReadKeyPath, EndOfStatement, EndOk, EndText, PathOk, PathText, SkipSpaces, ReadValue, ValOk, ValText, Only;
    NoGapsOk(false);
    var c1 := ReadKeyPath(c, []).cur;
    var path := PathOf(c, []);
    var eq := SkipSpaces(c1);
    var left := SpacesOf(c1);
    var right := SpacesOf(Advance(eq));
    var v := ValOf(SkipSpaces(Advance(eq)));
    var end := EndOf(ReadValue(SkipSpaces(Advance(eq))).cur);
    l := Setting([], path, left, right, v, end);
    assert eq.rest == ['='] + Advance(eq).rest;
  }

  lemma {:induction false} LineOf(c0: Cursor) returns (l: Line)
    requires ReadStatement(c0).Got? && ReadStatement(c0).value.Some?
    ensures LineOk(l, ReadStatement(c0).cur.rest)
    ensures c0.rest == GapsText(l.lead) + Body(l) + ReadStatement(c0).cur.rest
  {
    hide ReadHeader, ReadKeyValue, SkipFiller, GapsOk, GapsText, EndOk, PathOk, ValOk, Only, EndText, PathText,
      ValText;
    var c := SkipFiller(c0);
    var lead := GapsOf(c0);
    if c.rest[0] == '[' { l := HeadingOf(c); } else { l := SettingOf(c); }
    l := l.(lead := lead);
  }

  /** A text without a failure is a document of the syntax. */
  lemma {:induction false} DocOf(c: Cursor) returns (lines: seq<Line>, last: seq<Gap>)
    requires Statements(c).1.None?
    ensures DocOk(lines, last) && c.rest == DocText(lines, last)
    decreases |c.rest|
  {
    hide ReadStatement, GapsText, Body, LineOk, GapsOk;
    if ReadStatement(c).value.None? {
      last := LastGapsOf(c);
      lines := [];
    } else {
      var l := LineOf(c);
      var rest;
      rest, last := DocOf(ReadStatement(c).cur);
      lines := [l] + rest;
      assert lines[1..] == rest;
    }
  }

  lemma {:induction false} LastGapsOf(c: Cursor) returns (last: seq<Gap>)
    requires ReadStatement(c).Got? && ReadStatement(c).value.None?
    ensures GapsOk(last, true) && c.rest == GapsText(last)
  {
    hide SkipFiller, GapsOk, GapsText, ReadHeader, ReadKeyValue;
    last := GapsOf(c);
    assert GapsText(last) + [] == GapsText(last);
  }

  /** A text is read to its end exactly when the syntax writes it. */
  lemma {:induction false} ReadableIff(text: string, line: nat)
    ensures Statements(Cursor(text, line)).1.None? <==>
            exists lines, last :: DocOk(lines, last) && text == DocText(lines, last)
  {
    hide Statements, DocOk, DocText;
    if Statements(Cursor(text, line)).1.None? {
      var lines, last := DocOf(Cursor(text, line));
    }
    if lines, last :| DocOk(lines, last) && text == DocText(lines, last) { StatementsReadBack(lines, last, line); }
  }

  /** The source is the document, after a byte order mark if there is one, and no statement of it clashes. */
  ghost predicate Writes(lines: seq<Line>, last: seq<Gap>, src: string) {
    && DocOk(lines, last) && StripBom(src) == DocText(lines, last)
    && WellPathed(DocMeans(lines, 1)) && Compatible(Facts([], DocMeans(lines, 1)))
  }

  /** The documents the parser accepts are exactly those of the syntax whose statements do not clash. */
  lemma {:induction false} ParsesIff(src: string)
    ensures Parse(src).Ok? <==> exists lines, last :: Writes(lines, last, src)
  {
    hide Parse, DocText, Statements, Holds, Compatible, Tree, Facts, StripBom, DocOk, DocMeans, WellPathed,
      FirstClashAt;
    if Parse(src).Ok? {
      StatementsWellPathed(Cursor(StripBom(src), 1));
      AcceptedIff(src);
      var lines, last := DocOf(Cursor(StripBom(src), 1));
      DocumentReadsBack(src, lines, last);
      assert Writes(lines, last, src);
    }
    if lines, last :| Writes(lines, last, src) { DocumentReadsBack(src, lines, last); }
  }
}

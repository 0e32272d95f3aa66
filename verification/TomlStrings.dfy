/**
 Whatever is written by the syntax is read as what it stands for: strings, keys, numbers, values and whole
 documents, with nothing more of the text consumed and the line counter moved by the line ends in between.
 */
module TomlStrings {
  import opened Base
  import opened TomlText
  import opened TomlScanner
  import opened TomlAccepts
  import opened TomlSyntax

  // --- Runs of characters -------------------------------------------------------------

  lemma {:induction false} NewlinesAppend(a: string, b: string)
    ensures Newlines(a + b) == Newlines(a) + Newlines(b)
    decreases |b|
  {
    if b == [] {
      assert a + b == a;
    } else {
      assert (a + b)[..|a + b| - 1] == a + b[..|b| - 1];
      NewlinesAppend(a, b[..|b| - 1]);
    }
  }

  lemma {:induction false} NoNewlines(s: string)
    requires '\n' !in s
    ensures Newlines(s) == 0
  {
    if s != [] { NoNewlines(s[..|s| - 1]); }
  }

  /** One character is read off the front. */
  lemma {:induction false} Step(ch: char, s: string, rest: string, line: nat)
    ensures Advance(Cursor([ch] + s + rest, line)) == Cursor(s + rest, line + Newlines([ch]))
    ensures ([ch] + s + rest)[0] == ch && Newlines([ch] + s) == Newlines([ch]) + Newlines(s)
    ensures Newlines([ch]) == if ch == '\n' then 1 else 0
  {
    assert ([ch] + s + rest)[1..] == s + rest;
    NewlinesAppend([ch], s);
    assert [ch][..0] == [];
  }

  lemma {:induction false} SkipRun(s: string, rest: string, line: nat, p: char -> bool)
    requires (forall i :: 0 <= i < |s| ==> p(s[i])) && (rest == [] || !p(rest[0]))
    ensures SkipWhile(Cursor(s + rest, line), p) == Cursor(rest, line + Newlines(s))
    decreases |s|
  {
    if s == [] {
      assert s + rest == rest;
    } else {
      assert s == [s[0]] + s[1..];
      Step(s[0], s[1..], rest, line);
      SkipRun(s[1..], rest, line + Newlines([s[0]]), p);
    }
  }

  lemma {:induction false} SpacesRead(s: string, rest: string, line: nat)
    requires Only(s, SPACES) && (rest == [] || rest[0] !in SPACES)
    ensures SkipSpaces(Cursor(s + rest, line)) == Cursor(rest, line) && Newlines(s) == 0
  {
    SkipRun(s, rest, line, IsSpace);
    assert '\n' !in s;
    NoNewlines(s);
  }

  /** Where blanks and comments end. */
  predicate Solid(tail: string) {
    tail == [] || (tail[0] !in BLANKS && tail[0] != '#')
  }

  lemma {:induction false} GapsSplit(gaps: seq<Gap>, atEnd: bool)
    requires GapsOk(gaps, atEnd) && gaps != []
    ensures GapsOk(gaps[1..], atEnd)
    ensures match gaps[0]
            case Blank(ch) => ch in BLANKS
            case Comment(text) => '\n' !in text && if |gaps| == 1 then atEnd else gaps[1] == Blank('\n')
  {
    assert GapOk(gaps, 0, atEnd);
    forall i | 0 <= i < |gaps| - 1 ensures GapOk(gaps[1..], i, atEnd) {
      assert GapOk(gaps, i + 1, atEnd);
    }
  }

  lemma {:induction false} GapsRead(gaps: seq<Gap>, tail: string, line: nat)
    requires GapsOk(gaps, tail == []) && Solid(tail)
    ensures SkipFiller(Cursor(GapsText(gaps) + tail, line)) == Cursor(tail, line + Newlines(GapsText(gaps)))
    decreases |gaps|
  {
    hide SkipFiller, SkipWhile, GapsOk, Newlines, Solid;
    if gaps == [] {
      assert GapsText(gaps) + tail == tail;
      NothingSkipped(tail, line);
    } else {
      var rest := GapsText(gaps[1..]);
      GapsSplit(gaps, tail == []);
      match gaps[0]
      case Blank(ch) =>
        assert GapsText(gaps) == [ch] + rest;
        BlankRead(ch, rest, tail, line);
        GapsRead(gaps[1..], tail, line + Newlines([ch]));
      case Comment(text) =>
        CommentRead(text, gaps[1..], tail, line);
        GapsRead(gaps[1..], tail, line);
        NewlinesAppend(['#'] + text, rest);
        assert GapsText(gaps) + tail == ['#'] + text + (rest + tail);
    }
  }

  lemma {:induction false} NothingSkipped(tail: string, line: nat)
    requires Solid(tail)
    ensures SkipFiller(Cursor(tail, line)) == Cursor(tail, line) && Newlines([]) == 0
  {
  }

  lemma {:induction false} BlankRead(ch: char, s: string, rest: string, line: nat)
    requires ch in BLANKS
    ensures SkipFiller(Cursor([ch] + s + rest, line)) == SkipFiller(Cursor(s + rest, line + Newlines([ch])))
    ensures Newlines([ch] + s) == Newlines([ch]) + Newlines(s)
  {
    Step(ch, s, rest, line);
  }

  lemma {:induction false} CommentRead(text: string, gaps: seq<Gap>, tail: string, line: nat)
    requires '\n' !in text && if gaps == [] then tail == [] else gaps[0] == Blank('\n')
    ensures SkipFiller(Cursor(['#'] + text + (GapsText(gaps) + tail), line))
         == SkipFiller(Cursor(GapsText(gaps) + tail, line))
    ensures Newlines(['#'] + text) == 0
  {
    var rest := GapsText(gaps) + tail;
    NoNewlines(['#'] + text);
    assert gaps != [] ==> GapsText(gaps)[0] == '\n';
    assert (['#'] + text + rest)[0] == '#';
    SkipRun(['#'] + text, rest, line, IsNotNewline);
    hide SkipWhile;
  }

  // --- Strings ------------------------------------------------------------------------

  lemma {:induction false} QuoteRunIs(quote: char, n: nat, rest: string)
    requires rest == [] || rest[0] != quote
    ensures QuoteRun(Repeat(quote, n) + rest, quote) == n
  {
    var s := Repeat(quote, n) + rest;
    if n == 0 {
      assert s == rest;
    } else {
      assert s[0] == quote && s[1..] == Repeat(quote, n - 1) + rest;
      QuoteRunIs(quote, n - 1, rest);
    }
  }

  lemma {:induction false} DropQuotes(quote: char, n: nat, rest: string, line: nat)
    requires quote != '\n'
    ensures Drop(Cursor(Repeat(quote, n) + rest, line), n) == Cursor(rest, line) && Newlines(Repeat(quote, n)) == 0
  {
    var s := Repeat(quote, n) + rest;
    NoNewlines(Repeat(quote, n));
    if n == 0 {
      assert s == rest;
    } else {
      assert s[0] == quote && s[1..] == Repeat(quote, n - 1) + rest;
      DropQuotes(quote, n - 1, rest, line);
    }
  }

  lemma {:induction false} EscapesAre(ch: char)
    ensures SimpleEscape(ch) == if ch in ESCAPES then Some([ESCAPES[ch]]) else None
    ensures ch in ESCAPES ==> ch != '\n' && ch != '\r' && ch != 'u' && ch != 'U'
  {
  }

  lemma {:induction false} HexDigitIs(d: Hex)
    requires d.value < 16
    ensures HexText([d])[0] != '\n' && HexDigit(HexText([d])[0]) == Some(d.value)
  {
  }

  lemma {:induction false} HexReads(digits: seq<Hex>, r: nat)
    requires forall i :: 0 <= i < |digits| ==> digits[i].value < 16
    ensures |HexText(digits)| == |digits| && HexValue(HexText(digits), r) == Some(HexMeans(digits, r))
    ensures '\n' !in HexText(digits)
  {
    hide HexDigit;
    if digits != [] {
      HexDigitIs(digits[0]);
      HexReads(digits[1..], r * 16 + digits[0].value);
    }
  }

  /** The quotes that close a string. */
  function Closing(quote: char, multiline: bool): string {
    Repeat(quote, if multiline then 3 else 1)
  }

  /** What stands behind the first piece. */
  function Behind(pieces: seq<Piece>, quote: char, multiline: bool, tail: string): string
    requires pieces != []
  {
    PiecesText(pieces[1..], quote) + Closing(quote, multiline) + tail
  }

  predicate IsQuote(quote: char) {
    quote == '"' || quote == '\''
  }

  lemma {:induction false} ClosingReads(quote: char, multiline: bool, acc: string, tail: string, line: nat, first: nat)
    requires IsQuote(quote) && (multiline ==> tail == [] || tail[0] != quote)
    ensures StringBody(Cursor(Closing(quote, multiline) + tail, line), quote, multiline, acc, first)
         == Got(acc, Cursor(tail, line))
  {
    var text := Closing(quote, multiline) + tail;
    assert text[0] == quote;
    if multiline {
      QuoteRunIs(quote, 3, tail);
      DropQuotes(quote, 3, tail, line);
      assert acc + Repeat(quote, 0) == acc;
    } else {
      assert text[1..] == tail;
    }
  }

  /** A single character that stands for itself. */
  lemma {:induction false} PlainReads(ch: char, quote: char, multiline: bool, acc: string, rest: string, line: nat,
                                      first: nat)
    requires IsQuote(quote) && PieceOk(Plain(ch), quote, multiline)
    ensures StringBody(Cursor([ch] + rest, line), quote, multiline, acc, first)
         == StringBody(Cursor(rest, line + Newlines([ch])), quote, multiline, acc + [ch], first)
  {
    Step(ch, [], rest, line);
    assert [ch] + [] == [ch] && [] + rest == rest;
    hide ReadEscape, QuoteRun, Drop;
  }

  lemma {:induction false} EscapeReads(p: Piece, multiline: bool, rest: string, line: nat)
    requires PieceOk(p, '"', multiline) && (p.Letter? || p.Point? || p.Fold?)
    requires p.Fold? ==> rest == [] || rest[0] !in BLANKS
    ensures ReadEscape(Cursor(PieceText(p, '"') + rest, line), multiline)
         == Got(PieceMeans(p, '"'), Cursor(rest, line + Newlines(PieceText(p, '"'))))
    ensures PieceText(p, '"')[0] == '\\'
  {
    var c := Cursor(PieceText(p, '"') + rest, line);
    match p
    case Letter(ch) => LetterReads(ch, multiline, rest, line);
    case Point(digits) => PointReads(digits, multiline, rest, line);
    case Fold(blanks) => FoldReads(blanks, rest, line);
    case _ =>
  }

  lemma {:induction false} LetterReads(ch: char, multiline: bool, rest: string, line: nat)
    requires ch in ESCAPES
    ensures ReadEscape(Cursor(['\\', ch] + rest, line), multiline)
         == Got([ESCAPES[ch]], Cursor(rest, line + Newlines(['\\', ch])))
  {
    EscapesAre(ch);
    NoNewlines(['\\', ch]);
    var c := Cursor(['\\', ch] + rest, line);
    assert Advance(c) == Cursor([ch] + rest, line) && ([ch] + rest)[0] == ch && ([ch] + rest)[1..] == rest;
    hide SimpleEscape, ReadUnicode, SkipWhile, ESCAPES;
  }

  lemma {:induction false} PointReads(digits: seq<Hex>, multiline: bool, rest: string, line: nat)
    requires PieceOk(Point(digits), '"', multiline)
    ensures ReadEscape(Cursor(PieceText(Point(digits), '"') + rest, line), multiline)
         == Got(CodePoint(HexMeans(digits, 0)), Cursor(rest, line + Newlines(PieceText(Point(digits), '"'))))
  {
    hide SimpleEscape, ReadUnicode, SkipWhile, ESCAPES, HexText, Utf8, HexAhead, HexValue;
    var u := if |digits| == 4 then 'u' else 'U';
    var text, hex := ['\\', u] + HexText(digits), HexText(digits);
    HexReads(digits, 0);
    NoNewlines(text);
    var c, c2 := Cursor(text + rest, line), Cursor(hex + rest, line);
    Step('\\', [u] + hex, rest, line);
    Step(u, hex, rest, line);
    assert text == ['\\'] + ([u] + hex);
    UnicodeEscapeIff(c2, |digits|, 0, line);
    HexIsAhead(hex, rest);
    NotAnEscape(u);
  }

  lemma {:induction false} HexIsAhead(hex: string, rest: string)
    ensures HexAhead(hex + rest, |hex|, 0) == HexValue(hex, 0) && (hex + rest)[|hex|..] == rest
  {
    assert (hex + rest)[..|hex|] == hex;
  }

  lemma {:induction false} NotAnEscape(u: char)
    requires u == 'u' || u == 'U'
    ensures SimpleEscape(u).None?
  {
  }

  lemma {:induction false} FoldReads(blanks: string, rest: string, line: nat)
    requires PieceOk(Fold(blanks), '"', true) && (rest == [] || rest[0] !in BLANKS)
    ensures ReadEscape(Cursor(['\\'] + blanks + rest, line), true)
         == Got([], Cursor(rest, line + Newlines(['\\'] + blanks)))
  {
    hide SimpleEscape, ReadUnicode, SkipWhile, ESCAPES, Newlines;
    var c := Cursor(['\\'] + blanks + rest, line);
    var b := blanks[0];
    Step('\\', blanks, rest, line);
    assert blanks == [b] + blanks[1..];
    Step(b, blanks[1..], rest, line);
    SkipRun(blanks[1..], rest, line + Newlines([b]), IsBlank);
    EscapesAre(b);
  }

  /** Quotes inside a multi-line string, with something else behind them. */
  lemma {:induction false} QuotesRead(n: nat, quote: char, acc: string, rest: string, line: nat, first: nat)
    requires IsQuote(quote) && 1 <= n <= 2 && (rest == [] || rest[0] != quote)
    ensures StringBody(Cursor(Repeat(quote, n) + rest, line), quote, true, acc, first)
         == StringBody(Cursor(rest, line), quote, true, acc + Repeat(quote, n), first)
  {
    assert (Repeat(quote, n) + rest)[0] == quote;
    QuoteRunIs(quote, n, rest);
    DropQuotes(quote, n, rest, line);
    hide QuoteRun, Drop, ReadEscape;
  }

  /** Quotes that end with the closing ones. */
  lemma {:induction false} LastQuotesRead(n: nat, quote: char, acc: string, tail: string, line: nat, first: nat)
    requires IsQuote(quote) && n >= 1 && (tail == [] || tail[0] != quote)
    ensures StringBody(Cursor(Repeat(quote, n) + Closing(quote, true) + tail, line), quote, true, acc, first)
         == Got(acc + Repeat(quote, n), Cursor(tail, line))
  {
    var text := Repeat(quote, n) + Closing(quote, true) + tail;
    assert text == Repeat(quote, n + 3) + tail && text[0] == quote;
    QuoteRunIs(quote, n + 3, tail);
    DropQuotes(quote, n + 3, tail, line);
    hide QuoteRun, Drop, ReadEscape;
  }

  lemma {:induction false} PieceStarts(p: Piece, quote: char, multiline: bool)
    requires PieceOk(p, quote, multiline) && IsQuote(quote)
    ensures PieceText(p, quote) != []
    ensures PieceText(p, quote)[0] == quote <==> p.Quotes?
    ensures p.Plain? ==> PieceText(p, quote) == [p.ch]
    ensures !p.Plain? ==> PieceText(p, quote)[0] !in BLANKS
  {
  }

  lemma {:induction false} PiecesSplit(pieces: seq<Piece>, quote: char, multiline: bool)
    requires PiecesOk(pieces, quote, multiline) && pieces != []
    ensures PieceOk(pieces[0], quote, multiline) && PiecesOk(pieces[1..], quote, multiline)
    ensures |pieces| > 1 ==> Beside(pieces[0], pieces[1]) && PieceOk(pieces[1], quote, multiline)
    ensures pieces[0].Quotes? ==> multiline
  {
    assert PieceOk(pieces[0], quote, multiline);
    hide PieceOk, Beside;
    var rest := pieces[1..];
    assert forall i :: 0 <= i < |rest| ==> rest[i] == pieces[i + 1];
    assert forall i :: 0 < i < |rest| ==> rest[i - 1] == pieces[i] && rest[i] == pieces[i + 1];
  }

  /** What stands behind a piece does not belong to it. */
  lemma {:induction false} BehindStarts(pieces: seq<Piece>, quote: char, multiline: bool, tail: string)
    requires PiecesOk(pieces, quote, multiline) && pieces != [] && IsQuote(quote)
    ensures var rest := Behind(pieces, quote, multiline, tail);
            && rest != [] && (pieces[0].Fold? ==> rest[0] !in BLANKS)
            && (pieces[0].Quotes? && |pieces| > 1 ==> pieces[0].n <= 2 && rest[0] != quote)
  {
    hide PieceOk, PieceText;
    PiecesSplit(pieces, quote, multiline);
    if |pieces| > 1 {
      PieceStarts(pieces[1], quote, multiline);
      assert pieces[1..][0] == pieces[1];
    }
  }

  /** The body of a string is read up to its closing quotes as what its pieces stand for. */
  lemma {:induction false} PiecesRead(pieces: seq<Piece>, quote: char, multiline: bool, acc: string,
                                      tail: string, line: nat, first: nat)
    requires PiecesOk(pieces, quote, multiline) && IsQuote(quote) && (multiline ==> tail == [] || tail[0] != quote)
    ensures StringBody(Cursor(PiecesText(pieces, quote) + Closing(quote, multiline) + tail, line), quote, multiline,
                       acc, first)
         == Got(acc + PiecesMean(pieces, quote), Cursor(tail, line + Newlines(PiecesText(pieces, quote))))
    decreases |pieces|
  {
    hide StringBody, PieceOk, PiecesOk, PieceText, PieceMeans, Newlines, Closing;
    if pieces == [] {
      assert PiecesText(pieces, quote) + Closing(quote, multiline) == Closing(quote, multiline) && acc + [] == acc;
      NoNewlines([]);
      ClosingReads(quote, multiline, acc, tail, line, first);
    } else {
      var p, rest := pieces[0], Behind(pieces, quote, multiline, tail);
      PiecesSplit(pieces, quote, multiline);
      NewlinesAppend(PieceText(p, quote), PiecesText(pieces[1..], quote));
      assert PiecesText(pieces, quote) + Closing(quote, multiline) + tail == PieceText(p, quote) + rest;
      assert acc + PieceMeans(p, quote) + PiecesMean(pieces[1..], quote) == acc + PiecesMean(pieces, quote);
      if p.Quotes? && |pieces| == 1 {
        EndsWithQuotes(p, quote, multiline, acc, tail, line, first);
        NoNewlines([]);
        assert PiecesText(pieces[1..], quote) == [] && PiecesMean(pieces[1..], quote) == [];
        assert PiecesMean(pieces, quote) == PieceMeans(p, quote) && PiecesText(pieces, quote) == PieceText(p, quote);
      } else {
        BehindStarts(pieces, quote, multiline, tail);
        PieceReads(p, quote, multiline, acc, rest, line, first);
        PiecesRead(pieces[1..], quote, multiline, acc + PieceMeans(p, quote), tail,
                   line + Newlines(PieceText(p, quote)), first);
      }
    }
  }

  lemma {:induction false} EndsWithQuotes(p: Piece, quote: char, multiline: bool, acc: string, tail: string,
                                          line: nat, first: nat)
    requires p.Quotes? && PieceOk(p, quote, multiline) && IsQuote(quote) && (tail == [] || tail[0] != quote)
    ensures StringBody(Cursor(PieceText(p, quote) + Closing(quote, multiline) + tail, line), quote, multiline, acc,
                       first)
         == Got(acc + PieceMeans(p, quote), Cursor(tail, line))
    ensures Newlines(PieceText(p, quote)) == 0
  {
    LastQuotesRead(p.n, quote, acc, tail, line, first);
    NoNewlines(PieceText(p, quote));
  }

  lemma {:induction false} PieceReads(p: Piece, quote: char, multiline: bool, acc: string, rest: string, line: nat,
                                      first: nat)
    requires PieceOk(p, quote, multiline) && IsQuote(quote)
    requires p.Fold? ==> rest == [] || rest[0] !in BLANKS
    requires p.Quotes? ==> p.n <= 2 && (rest == [] || rest[0] != quote)
    ensures StringBody(Cursor(PieceText(p, quote) + rest, line), quote, multiline, acc, first)
         == StringBody(Cursor(rest, line + Newlines(PieceText(p, quote))), quote, multiline,
                       acc + PieceMeans(p, quote), first)
  {
    hide StringBody, ReadEscape, Newlines;
    if p.Plain? {
      PlainReads(p.ch, quote, multiline, acc, rest, line, first);
    } else if p.Quotes? {
      QuotesRead(p.n, quote, acc, rest, line, first);
      NoNewlines(PieceText(p, quote));
    } else {
      EscapeReads(p, multiline, rest, line);
      EscapeGoesOn(PieceText(p, quote) + rest, multiline, acc, line, first);
    }
  }

  lemma {:induction false} EscapeGoesOn(text: string, multiline: bool, acc: string, line: nat, first: nat)
    requires text != [] && text[0] == '\\' && ReadEscape(Cursor(text, line), multiline).Got?
    ensures var r := ReadEscape(Cursor(text, line), multiline);
            StringBody(Cursor(text, line), '"', multiline, acc, first) ==
            StringBody(r.cur, '"', multiline, acc + r.value, first)
  {
    hide ReadEscape;
  }
}

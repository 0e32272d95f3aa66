/**
 Whatever the syntax writes as a string, a key or a value is read as what it stands for, with nothing more of
 the text consumed and the line counter moved by the line ends in between.
 */
module TomlValues {
  import opened Base
  import opened TomlText
  import opened TomlScanner
  import opened TomlSyntax
  import opened TomlStrings
  import opened TomlNumbers

  // --- Quoted strings -----------------------------------------------------------------

  lemma {:induction false} QuotedParts(q: Quoted, tail: string)
    ensures QuotedText(q) + tail ==
            Closing(q.quote, q.multiline) +
            (q.lead + (PiecesText(q.pieces, q.quote) + Closing(q.quote, q.multiline) + tail))
  {
  }

  /** The text behind the opening quotes and the line end that does not belong to the string. */
  lemma {:induction false} BodyStarts(q: Quoted, tail: string)
    requires QuotedOk(q)
    ensures var body := PiecesText(q.pieces, q.quote) + Closing(q.quote, q.multiline) + tail;
            && body != []
            && (q.pieces == [] ==> body[0] == q.quote)
            && (q.pieces != [] ==> (body[0] == q.quote <==> q.pieces[0].Quotes?))
            && (q.pieces != [] && body[0] in BLANKS ==> q.pieces[0] == Plain(body[0]))
  {
    hide PieceOk, PieceText;
    if q.pieces != [] {
      PiecesSplit(q.pieces, q.quote, q.multiline);
      PieceStarts(q.pieces[0], q.quote, q.multiline);
    }
  }

  /** The line end behind opening quotes is skipped, and nothing else. */
  function SkipLead(c: Cursor): Cursor {
    var c1 := if Peek(c) == '\r' then Advance(c) else c;
    if Peek(c1) == '\n' then Advance(c1) else c1
  }

  lemma {:induction false} LeadReads(q: Quoted, tail: string, line: nat)
    requires QuotedOk(q) && q.multiline
    ensures var body := PiecesText(q.pieces, q.quote) + Closing(q.quote, q.multiline) + tail;
            SkipLead(Cursor(q.lead + body, line)) == Cursor(body, line + Newlines(q.lead))
  {
    var body := PiecesText(q.pieces, q.quote) + Closing(q.quote, q.multiline) + tail;
    BodyStarts(q, tail);
    hide PiecesOk, PiecesText;
    NoNewlines([]);
    NoNewlines("\r");
    assert [] + body == body;
    LeadIs(q.lead, body, line);
  }

  lemma {:induction false} LeadIs(lead: string, body: string, line: nat)
    requires lead in {"", "\n", "\r", "\r\n"} && body != []
    requires (lead == [] ==> body[0] != '\n' && body[0] != '\r') && (lead == "\r" ==> body[0] != '\n')
    ensures SkipLead(Cursor(lead + body, line)) == Cursor(body, line + Newlines(lead))
  {
    assert [] + body == body && ['\r'] + ['\n'] + body == "\r\n" + body;
    Step('\n', [], body, line);
    Step('\r', [], body, line);
    Step('\r', "\n", body, line);
    assert "\n" == ['\n'] + [] && "\r" == ['\r'] + [] && "\r\n" == ['\r'] + "\n";
    hide Newlines;
  }

  lemma {:induction false} TripleOpens(quote: char, rest: string, line: nat)
    requires IsQuote(quote)
    ensures var c := Cursor(Repeat(quote, 3) + rest, line);
            && |c.rest| >= 3 && c.rest[0] == quote && Drop(c, 3) == Cursor(rest, line)
            && Newlines(Repeat(quote, 3)) == 0
            && TripleQuote(c.rest)
  {
    DropQuotes(quote, 3, rest, line);
  }

  /** A string is read as what its pieces stand for. */
  lemma {:induction false} QuotedReads(q: Quoted, tail: string, line: nat)
    requires QuotedOk(q) && (q.multiline ==> tail == [] || tail[0] != q.quote)
    ensures var c := Cursor(QuotedText(q) + tail, line);
            && c.rest != [] && c.rest[0] == q.quote && (q.multiline ==> |c.rest| >= 3)
            && ReadString(c, q.multiline) == Got(QuotedMeans(q), Cursor(tail, line + Newlines(QuotedText(q))))
  {
    hide PiecesOk, PiecesText, StringBody, Newlines, PiecesMean, Drop;
    var quotes := Closing(q.quote, q.multiline);
    var body := PiecesText(q.pieces, q.quote) + quotes + tail;
    QuotedParts(q, tail);
    QuotedLines(q);
    assert [] + PiecesMean(q.pieces, q.quote) == PiecesMean(q.pieces, q.quote);
    PiecesRead(q.pieces, q.quote, q.multiline, [], tail, line + Newlines(q.lead), line);
    if q.multiline {
      TripleOpens(q.quote, q.lead + body, line);
      LeadReads(q, tail, line);
    } else {
      assert QuotedText(q) + tail == [q.quote] + body && ([q.quote] + body)[1..] == body;
      NoNewlines(q.lead);
    }
  }

  lemma {:induction false} QuotedLines(q: Quoted)
    requires QuotedOk(q)
    ensures Newlines(QuotedText(q)) == Newlines(q.lead) + Newlines(PiecesText(q.pieces, q.quote))
    ensures !q.multiline ==> Newlines(QuotedText(q)) == 0
  {
    hide PiecesOk, PiecesText, Newlines;
    var quotes, body := Closing(q.quote, q.multiline), PiecesText(q.pieces, q.quote);
    NoNewlines(quotes);
    NewlinesAppend(quotes + q.lead + body, quotes);
    NewlinesAppend(quotes + q.lead, body);
    NewlinesAppend(quotes, q.lead);
    if !q.multiline {
      NoNewlines(q.lead);
      OneLine(q.pieces, q.quote);
    }
  }

  lemma {:induction false} OneLine(pieces: seq<Piece>, quote: char)
    requires PiecesOk(pieces, quote, false) && IsQuote(quote)
    ensures Newlines(PiecesText(pieces, quote)) == 0
  {
    hide PieceOk, PieceText, PiecesOk, Newlines;
    if pieces == [] {
      NoNewlines([]);
    } else {
      PiecesSplit(pieces, quote, false);
      NewlinesAppend(PieceText(pieces[0], quote), PiecesText(pieces[1..], quote));
      PieceOnOneLine(pieces[0], quote);
      OneLine(pieces[1..], quote);
    }
  }

  lemma {:induction false} PieceOnOneLine(p: Piece, quote: char)
    requires PieceOk(p, quote, false) && IsQuote(quote)
    ensures Newlines(PieceText(p, quote)) == 0
  {
    if p.Point? { HexReads(p.digits, 0); }
    if p.Letter? { EscapesAre(p.ch); }
    NoNewlines(PieceText(p, quote));
  }

  // --- Keys ---------------------------------------------------------------------------

  lemma {:induction false} LowerChars(ch: char)
    ensures ch in LOWERS <==> 'a' <= ch <= 'z'
  {
  }

  lemma {:induction false} UpperChars(ch: char)
    ensures ch in UPPERS <==> 'A' <= ch <= 'Z'
  {
  }

  lemma {:induction false} BareChars(ch: char)
    ensures IsBareKeyChar(ch) <==> ch in BARE
  {
    LowerChars(ch);
    UpperChars(ch);
    hide LOWERS, UPPERS;
  }

  /** What may stand behind a key. */
  predicate KeyOver(tail: string) {
    tail == [] || tail[0] !in BARE
  }

  /** A key is read as its name, whatever its characters are and however it is written. */
  lemma {:induction false} KeyReads(k: Key, tail: string, line: nat)
    requires KeyOk(k) && (k.Bare? ==> KeyOver(tail))
    ensures ReadKeySegment(Cursor(KeyText(k) + tail, line)) == Got(KeyMeans(k), Cursor(tail, line))
    ensures KeyText(k) != [] && Newlines(KeyText(k)) == 0
    ensures KeyText(k)[0] in BARE + {'"', '\''}
  {
    hide BARE, QuotedOk, ReadString, Newlines;
    match k
    case Bare(name) => BareReads(name, tail, line);
    case Enclosed(q) =>
      QuotedReads(q, tail, line);
      QuotedLines(q);
      QuoteIs(q);
      assert QuotedText(q)[0] == q.quote;
  }

  lemma {:induction false} QuoteIs(q: Quoted)
    requires QuotedOk(q)
    ensures IsQuote(q.quote) && QuotedText(q) != [] && QuotedText(q)[0] == q.quote
  {
    hide PiecesOk, PiecesText;
  }

  lemma {:induction false} BareReads(name: string, tail: string, line: nat)
    requires name != [] && Only(name, BARE) && KeyOver(tail)
    ensures ReadKeySegment(Cursor(name + tail, line)) == Got(name, Cursor(tail, line)) && Newlines(name) == 0
    ensures name[0] in BARE
  {
    hide BARE, IsBareKeyChar, ReadString;
    var c := Cursor(name + tail, line);
    assert forall ch :: IsBareKeyChar(ch) <==> ch in BARE by {
      forall ch ensures IsBareKeyChar(ch) <==> ch in BARE { BareChars(ch); }
    }
    NotBare();
    SkipRun(name, tail, line, IsBareKeyChar);
    NoNewlines(name);
    assert c.rest[0] == name[0] && Taken(c, Cursor(tail, line)) == name;
  }

  lemma {:induction false} NotBare()
    ensures forall ch :: ch in {'"', '\'', '\n', '[', '#', '.', '=', ']', '}', ' ', '\t', '\r'} ==> ch !in BARE
  {
    hide BARE;
    forall ch | ch in {'"', '\'', '\n', '[', '#', '.', '=', ']', '}', ' ', '\t', '\r'} ensures ch !in BARE {
      BareChars(ch);
    }
  }

  // --- Values -------------------------------------------------------------------------

  /** What may follow a value: nothing, or a character that ends it. */
  predicate Clear(tail: string) {
    tail == [] || tail[0] in BLANKS + {',', ']', '}', '#'}
  }

  lemma {:induction false} NumberReads(n: Numeral, tail: string, line: nat)
    requires NumeralOk(n) && Clear(tail)
    ensures var s := NumeralText(n);
            ReadValue(Cursor(s + tail, line)) == Got(Num(s), Cursor(tail, line + Newlines(s)))
  {
    hide IsNumber, ReadArray, ReadInline, ReadString, NumeralText, NumeralOk;
    var s := NumeralText(n);
    var c := Cursor(s + tail, line);
    NumeralReads(n);
    NumberShape(s);
    NoNewlines(s);
    SkipRun(s, tail, line, IsNumberChar);
    assert c.rest[0] == s[0] && Taken(c, Cursor(tail, line)) == s;
  }

  lemma {:induction false} TruthReads(b: bool, tail: string, line: nat)
    requires Clear(tail)
    ensures var word := if b then "true" else "false";
            ReadValue(Cursor(word + tail, line)) == Got(Bool(word), Cursor(tail, line + Newlines(word)))
  {
    hide ReadArray, ReadInline, ReadString, ReadNumber, Newlines;
    var word := if b then "true" else "false";
    var c := Cursor(word + tail, line);
    NoNewlines(word);
    DropWord(word, tail, line);
    assert c.rest[0] == word[0] && c.rest[..|word|] == word && WordAhead(c.rest, word);
    assert word == "false" ==> !("true" <= c.rest);
  }

  lemma {:induction false} DropWord(word: string, tail: string, line: nat)
    requires '\n' !in word
    ensures Drop(Cursor(word + tail, line), |word|) == Cursor(tail, line)
  {
    if word == [] {
      assert word + tail == tail;
    } else {
      assert (word + tail)[0] == word[0] && (word + tail)[1..] == word[1..] + tail;
      DropWord(word[1..], tail, line);
    }
  }

  lemma {:induction false} TextReads(q: Quoted, tail: string, line: nat)
    requires QuotedOk(q) && Clear(tail)
    ensures ReadValue(Cursor(QuotedText(q) + tail, line))
         == Got(Str(QuotedMeans(q)), Cursor(tail, line + Newlines(QuotedText(q))))
  {
    hide ReadString, Newlines, PiecesOk, PiecesText;
    var c := Cursor(QuotedText(q) + tail, line);
    QuoteIs(q);
    QuotedReads(q, tail, line);
    assert TripleQuote(c.rest) <==> q.multiline by { TripleIff(q, tail); }
  }

  /** Three quotes at the front open a multi-line string and no other. */
  lemma {:induction false} TripleIff(q: Quoted, tail: string)
    requires QuotedOk(q) && Clear(tail)
    ensures TripleQuote(QuotedText(q) + tail) <==> q.multiline
  {
    QuotedParts(q, tail);
    hide PiecesOk, PiecesText;
    var body := PiecesText(q.pieces, q.quote) + Closing(q.quote, q.multiline) + tail;
    if q.multiline {
      TripleOpens(q.quote, q.lead + body, 0);
    } else {
      assert QuotedText(q) + tail == [q.quote] + body;
      BodyStarts(q, tail);
      if q.pieces == [] {
        assert PiecesText(q.pieces, q.quote) == [] by { NoPieces(q.quote); }
        assert body == [q.quote] + tail;
      } else {
        NoQuotePieces(q);
      }
    }
  }

  lemma {:induction false} NoPieces(quote: char)
    ensures PiecesText([], quote) == []
  {
  }

  lemma {:induction false} NoQuotePieces(q: Quoted)
    requires QuotedOk(q) && !q.multiline && q.pieces != []
    ensures !q.pieces[0].Quotes?
  {
    assert PieceOk(q.pieces[0], q.quote, false);
  }

  predicate StartsValue(s: string) {
    s != [] && (s[0] in DIGITS || s[0] in {'"', '\'', '[', '{', 't', 'f', '+', '-'})
  }

  lemma {:induction false} ValueStarts(v: Val)
    requires ValOk(v)
    ensures StartsValue(ValText(v))
  {
    match v
    case Text(q) => QuoteIs(q);
    case Number(n) =>
      NumeralReads(n);
      NumberShape(NumeralText(n));
    case _ =>
  }

  /** What stands between the opening bracket of an array and the end of the array. */
  function ListRest(elems: seq<Elem>, comma: bool, closing: seq<Gap>): string {
    ElemsText(elems) + (if comma then [','] else []) + GapsText(closing) + [']']
  }

  function TableRest(entries: seq<Entry>, comma: bool, spaces: string): string {
    EntriesText(entries) + (if comma then [','] else []) + spaces + ['}']
  }

  ghost predicate ListOk(elems: seq<Elem>, comma: bool, closing: seq<Gap>) {
    && (forall i :: 0 <= i < |elems| ==> ElemOk(elems[i])) && GapsOk(closing, false)
    && (elems == [] ==> !comma) && (elems != [] && !comma ==> closing == [])
  }

  ghost predicate TableOk(entries: seq<Entry>, comma: bool, spaces: string) {
    && (forall i :: 0 <= i < |entries| ==> EntryOk(entries[i])) && Only(spaces, SPACES)
    && (entries == [] ==> !comma) && (entries != [] && !comma ==> spaces == [])
  }

  /** The plain text of a value is read as that value, and nothing more of the text. */
  lemma {:induction false} ValueReadsBack(v: Val, tail: string, line: nat)
    requires ValOk(v) && Clear(tail)
    ensures ReadValue(Cursor(ValText(v) + tail, line)) == Got(ValMeans(v), Cursor(tail, line + Newlines(ValText(v))))
    decreases v
  {
    hide ReadValue, ReadArray, ReadInline, Newlines, QuotedOk, NumeralOk, ElemOk, EntryOk, GapsOk, Only, ListRest,
      TableRest, Clear, QuotedText, QuotedMeans, NumeralText;
    match v
    case Text(q) => TextReads(q, tail, line);
    case Number(n) => NumberReads(n, tail, line);
    case Truth(b) => TruthReads(b, tail, line);
    case List(elems, comma, closing) =>
      ElementsReadBack(elems, comma, closing, [], tail, line, line);
      ListOpens(v, tail, line);
    case Table(entries, comma, spaces) =>
      ItemsReadBack(entries, comma, spaces, [], tail, line, line);
      TableOpens(v, tail, line);
  }

  lemma {:induction false} ListOpens(v: Val, tail: string, line: nat)
    requires v.List?
    ensures ReadValue(Cursor(ValText(v) + tail, line))
         == ReadArray(Cursor(ListRest(v.elems, v.comma, v.closing) + tail, line), [], line)
    ensures Newlines(ValText(v)) == Newlines(ListRest(v.elems, v.comma, v.closing))
    ensures ValMeans(v) == Arr([] + ElemsMean(v.elems))
  {
    hide ReadArray, ReadInline, ReadString, Newlines, ElemsText, GapsText;
    var rest := ListRest(v.elems, v.comma, v.closing);
    assert ValText(v) == ['['] + rest;
    Step('[', rest, tail, line);
    assert [] + ElemsMean(v.elems) == ElemsMean(v.elems);
  }

  lemma {:induction false} TableOpens(v: Val, tail: string, line: nat)
    requires v.Table?
    ensures ReadValue(Cursor(ValText(v) + tail, line))
         == ReadInline(Cursor(TableRest(v.entries, v.comma, v.spaces) + tail, line), [], line)
    ensures Newlines(ValText(v)) == Newlines(TableRest(v.entries, v.comma, v.spaces))
    ensures ValMeans(v) == Inline([] + EntriesMean(v.entries))
  {
    hide ReadArray, ReadInline, ReadString, Newlines, EntriesText;
    var rest := TableRest(v.entries, v.comma, v.spaces);
    assert ValText(v) == ['{'] + rest;
    Step('{', rest, tail, line);
    assert [] + EntriesMean(v.entries) == EntriesMean(v.entries);
  }

  /** The rest of an array is its first element and, behind a comma, the rest without it. */
  lemma {:induction false} ListSplits(elems: seq<Elem>, comma: bool, closing: seq<Gap>)
    requires ListOk(elems, comma, closing) && elems != []
    ensures ElemOk(elems[0])
    ensures |elems| == 1 && !comma ==> ListRest(elems, comma, closing) == ElemText(elems[0]) + [']']
    ensures |elems| > 1 || comma ==>
              && ListRest(elems, comma, closing) ==
                 ElemText(elems[0]) + [','] + ListRest(elems[1..], comma && |elems| > 1, closing)
              && ListOk(elems[1..], comma && |elems| > 1, closing)
  {
    hide ElemText, GapsText, ElemOk, GapsOk;
    if |elems| == 1 && !comma {
      assert closing == [] && GapsText(closing) == [] by { NoGaps(); }
    } else {
      assert ElemsText([]) == [];
      assert forall i :: 0 <= i < |elems[1..]| ==> elems[1..][i] == elems[i + 1];
    }
  }

  lemma {:induction false} NoGaps()
    ensures GapsText([]) == []
  {
  }

  lemma {:induction false} ElementsReadBack(elems: seq<Elem>, comma: bool, closing: seq<Gap>, acc: seq<Toml>,
                                            tail: string, line: nat, first: nat)
    requires ListOk(elems, comma, closing)
    ensures ReadArray(Cursor(ListRest(elems, comma, closing) + tail, line), acc, first)
         == Got(Arr(acc + ElemsMean(elems)), Cursor(tail, line + Newlines(ListRest(elems, comma, closing))))
    decreases elems
  {
    hide ReadValue, ReadArray, ElemOk, ListOk, ElemText, ListRest, Newlines, GapsText, ValText, ElemsMean, Clear,
      GapsOk, ListBehind, ValOk, ValMeans;
    if elems == [] {
      ArrayEnds(comma, closing, acc, tail, line, first);
      NoElems(acc);
    } else {
      var e := elems[0];
      ListSplits(elems, comma, closing);
      FirstElem(elems, comma, closing, tail);
      MeansSplit(elems, acc);
      ValueReadsBack(e.val, ListBehind(elems, comma, closing, tail), line + Newlines(GapsText(e.before)));
      ElementsStep(elems, comma, closing, acc, tail, line, first);
      if |elems| > 1 || comma {
        ElementsReadBack(elems[1..], comma && |elems| > 1, closing, acc + [ValMeans(e.val)], tail,
                         line + Newlines(ElemText(e)), first);
      }
    }
  }

  /** What stands behind the first element's value. */
  function ListBehind(elems: seq<Elem>, comma: bool, closing: seq<Gap>, tail: string): string
    requires elems != []
  {
    var after := GapsText(elems[0].after);
    if |elems| > 1 || comma then after + [','] + (ListRest(elems[1..], comma && |elems| > 1, closing) + tail)
    else after + [']'] + tail
  }

  lemma {:induction false} FirstElem(elems: seq<Elem>, comma: bool, closing: seq<Gap>, tail: string)
    requires elems != [] && ElemOk(elems[0])
    ensures ValOk(elems[0].val) && Clear(ListBehind(elems, comma, closing, tail))
  {
    hide ListRest, Clear;
    ElemIsOk(elems[0]);
  }

  lemma {:induction false} ElementsStep(elems: seq<Elem>, comma: bool, closing: seq<Gap>, acc: seq<Toml>,
                                        tail: string, line: nat, first: nat)
    requires ListOk(elems, comma, closing) && elems != []
    requires ReadValue(Cursor(ValText(elems[0].val) + ListBehind(elems, comma, closing, tail),
                              line + Newlines(GapsText(elems[0].before)))) ==
             Got(ValMeans(elems[0].val),
                 Cursor(ListBehind(elems, comma, closing, tail),
                        line + Newlines(GapsText(elems[0].before)) + Newlines(ValText(elems[0].val))))
    ensures var all, e := ListRest(elems, comma, closing), elems[0];
            var more := ListRest(elems[1..], comma && |elems| > 1, closing);
            var acc', next := acc + [ValMeans(e.val)], line + Newlines(ElemText(e));
            if |elems| > 1 || comma then
              && ReadArray(Cursor(all + tail, line), acc, first) == ReadArray(Cursor(more + tail, next), acc', first)
              && Newlines(all) == Newlines(ElemText(e)) + Newlines(more)
            else
              && ReadArray(Cursor(all + tail, line), acc, first) == Got(Arr(acc'), Cursor(tail, next))
              && Newlines(all) == Newlines(ElemText(e))
  {
    hide ReadValue, ReadArray, ElemOk, ListOk, ElemText, ListRest, Newlines, GapsText, ValText;
    var e, more := elems[0], |elems| > 1 || comma;
    var sep := if more then ',' else ']';
    var behind := if more then ListRest(elems[1..], comma && |elems| > 1, closing) + tail else tail;
    ListSplits(elems, comma, closing);
    RestSplits(ElemText(e), sep, ListRest(elems, comma, closing),
               ListRest(elems[1..], comma && |elems| > 1, closing), tail, more);
    ElementReads(e, sep, behind, acc, line, first);
  }

  lemma {:induction false} NoElems(acc: seq<Toml>)
    ensures acc + ElemsMean([]) == acc
  {
  }

  lemma {:induction false} MeansSplit(elems: seq<Elem>, acc: seq<Toml>)
    requires elems != []
    ensures acc + [ValMeans(elems[0].val)] + ElemsMean(elems[1..]) == acc + ElemsMean(elems)
    ensures |elems| == 1 ==> acc + [ValMeans(elems[0].val)] == acc + ElemsMean(elems)
  {
    hide ValMeans;
    assert ElemsMean([]) == [];
  }

  /** The text and the line ends of a rest that is its first part, a separator and a smaller rest, if there is one. */
  lemma {:induction false} RestSplits(part: string, sep: char, all: string, more: string, tail: string, goesOn: bool)
    requires all == if goesOn then part + [sep] + more else part + [sep]
    requires sep != '\n'
    ensures all + tail == part + [sep] + if goesOn then more + tail else tail
    ensures Newlines(all) == Newlines(part) + if goesOn then Newlines(more) else 0
  {
    hide Newlines;
    NewlinesAppend(part, [sep]);
    NoNewlines([sep]);
    if goesOn { NewlinesAppend(part + [sep], more); }
  }

  /** What follows a value inside brackets ends it. */
  lemma {:induction false} ElemIsOk(e: Elem)
    requires ElemOk(e)
    ensures GapsOk(e.before, false) && ValOk(e.val) && GapsOk(e.after, false)
    ensures forall rest: string, sep :: sep == ',' || sep == ']' ==> Clear(GapsText(e.after) + [sep] + rest)
  {
    if e.after != [] { GapsSplit(e.after, false); }
    hide ValOk;
  }

  lemma {:induction false} ArrayEnds(comma: bool, closing: seq<Gap>, acc: seq<Toml>, tail: string, line: nat,
                                     first: nat)
    requires ListOk([], comma, closing)
    ensures ReadArray(Cursor(ListRest([], comma, closing) + tail, line), acc, first)
         == Got(Arr(acc), Cursor(tail, line + Newlines(ListRest([], comma, closing))))
  {
    hide ReadValue, SkipFiller, GapsText, GapsOk, Newlines, ReadArray, ElemOk;
    var gaps, rest := GapsText(closing), [']'] + tail;
    assert ElemsText([]) == [] && ListRest([], comma, closing) == gaps + [']'];
    assert gaps + [']'] + tail == gaps + rest;
    GapsRead(closing, rest, line);
    BracketReads(Cursor(gaps + rest, line), tail, acc, line + Newlines(gaps), first);
    NewlinesAppend(gaps, [']']);
    NoNewlines([']']);
  }

  lemma {:induction false} BracketReads(c: Cursor, tail: string, acc: seq<Toml>, line: nat, first: nat)
    requires SkipFiller(c) == Cursor([']'] + tail, line)
    ensures ReadArray(c, acc, first) == Got(Arr(acc), Cursor(tail, line))
  {
    hide ReadValue, SkipFiller;
    assert ([']'] + tail)[1..] == tail;
  }

  /** One element with its blanks and comments, and the comma or bracket behind it. */
  lemma {:induction false} ElementReads(e: Elem, sep: char, rest: string, acc: seq<Toml>, line: nat, first: nat)
    requires ElemOk(e) && (sep == ',' || sep == ']')
    requires var here := line + Newlines(GapsText(e.before));
             ReadValue(Cursor(ValText(e.val) + (GapsText(e.after) + [sep] + rest), here)) ==
             Got(ValMeans(e.val), Cursor(GapsText(e.after) + [sep] + rest, here + Newlines(ValText(e.val))))
    ensures var next := Cursor(rest, line + Newlines(ElemText(e)));
            ReadArray(Cursor(ElemText(e) + [sep] + rest, line), acc, first) ==
            if sep == ']' then Got(Arr(acc + [ValMeans(e.val)]), next)
            else ReadArray(next, acc + [ValMeans(e.val)], first)
  {
    hide ReadValue, SkipFiller, GapsText, GapsOk, Newlines, ValText, ValOk, ValMeans;
    var before, val, after := GapsText(e.before), ValText(e.val), GapsText(e.after);
    var tail, end := after + [sep] + rest, [sep] + rest;
    assert ElemText(e) + [sep] + rest == before + (val + tail) && tail == after + end && end[1..] == rest;
    ValueIsSolid(e.val, tail);
    GapsRead(e.before, val + tail, line);
    GapsRead(e.after, end, line + Newlines(before) + Newlines(val));
    NewlinesAppend(before + val, after);
    NewlinesAppend(before, val);
  }

  lemma {:induction false} ValueIsSolid(v: Val, tail: string)
    requires ValOk(v)
    ensures Solid(ValText(v) + tail) && ValText(v) + tail != [] && (ValText(v) + tail)[0] != ']'
    ensures (ValText(v) + tail)[0] !in SPACES
  {
    hide ValOk, ValText, StartsValue;
    ValueStarts(v);
    StartIsSolid(ValText(v));
  }

  lemma {:induction false} StartIsSolid(s: string)
    requires StartsValue(s)
    ensures s != [] && s[0] !in BLANKS && s[0] != '#' && s[0] != ']' && s[0] !in SPACES
  {
  }

  lemma {:induction false} TableSplits(entries: seq<Entry>, comma: bool, spaces: string)
    requires TableOk(entries, comma, spaces) && entries != []
    ensures EntryOk(entries[0])
    ensures |entries| == 1 && !comma ==> TableRest(entries, comma, spaces) == EntryText(entries[0]) + ['}']
    ensures |entries| > 1 || comma ==>
              && TableRest(entries, comma, spaces) ==
                 EntryText(entries[0]) + [','] + TableRest(entries[1..], comma && |entries| > 1, spaces)
              && TableOk(entries[1..], comma && |entries| > 1, spaces)
  {
    hide EntryText, EntryOk, Only;
    if |entries| > 1 || comma {
      assert EntriesText([]) == [];
      assert forall i :: 0 <= i < |entries[1..]| ==> entries[1..][i] == entries[i + 1];
    }
  }

  lemma {:induction false} ItemsReadBack(entries: seq<Entry>, comma: bool, spaces: string, acc: seq<Item>,
                                         tail: string, line: nat, first: nat)
    requires TableOk(entries, comma, spaces)
    ensures ReadInline(Cursor(TableRest(entries, comma, spaces) + tail, line), acc, first)
         == Got(Inline(acc + EntriesMean(entries)), Cursor(tail, line + Newlines(TableRest(entries, comma, spaces))))
    decreases entries
  {
    hide ReadValue, ReadInline, EntryOk, TableOk, EntryText, TableRest, Newlines, ValText, EntriesMean, Clear, Only,
      TableBehind, ValOk, ValMeans, KeyMeans;
    if entries == [] {
      TableEnds(comma, spaces, acc, tail, line, first);
      NoItems(acc);
    } else {
      var e := entries[0];
      TableSplits(entries, comma, spaces);
      FirstEntry(entries, comma, spaces, tail);
      ItemsSplit(entries, acc);
      ValueReadsBack(e.val, TableBehind(entries, comma, spaces, tail), line);
      ItemsStep(entries, comma, spaces, acc, tail, line, first);
      if |entries| > 1 || comma {
        ItemsReadBack(entries[1..], comma && |entries| > 1, spaces, acc + [Item(KeyMeans(e.key), ValMeans(e.val))],
                      tail, line + Newlines(EntryText(e)), first);
      }
    }
  }

  /** What stands behind the first entry's value. */
  function TableBehind(entries: seq<Entry>, comma: bool, spaces: string, tail: string): string
    requires entries != []
  {
    var after := entries[0].after;
    if |entries| > 1 || comma then after + [','] + (TableRest(entries[1..], comma && |entries| > 1, spaces) + tail)
    else after + ['}'] + tail
  }

  lemma {:induction false} FirstEntry(entries: seq<Entry>, comma: bool, spaces: string, tail: string)
    requires entries != [] && EntryOk(entries[0])
    ensures ValOk(entries[0].val) && Clear(TableBehind(entries, comma, spaces, tail))
  {
    hide TableRest, Clear;
    EntryIsOk(entries[0]);
  }

  lemma {:induction false} ItemsStep(entries: seq<Entry>, comma: bool, spaces: string, acc: seq<Item>,
                                     tail: string, line: nat, first: nat)
    requires TableOk(entries, comma, spaces) && entries != []
    requires ReadValue(Cursor(ValText(entries[0].val) + TableBehind(entries, comma, spaces, tail), line)) ==
             Got(ValMeans(entries[0].val),
                 Cursor(TableBehind(entries, comma, spaces, tail), line + Newlines(ValText(entries[0].val))))
    ensures var all, e := TableRest(entries, comma, spaces), entries[0];
            var more := TableRest(entries[1..], comma && |entries| > 1, spaces);
            var acc', next := acc + [Item(KeyMeans(e.key), ValMeans(e.val))], line + Newlines(EntryText(e));
            if |entries| > 1 || comma then
              && ReadInline(Cursor(all + tail, line), acc, first) == ReadInline(Cursor(more + tail, next), acc', first)
              && Newlines(all) == Newlines(EntryText(e)) + Newlines(more)
            else
              && ReadInline(Cursor(all + tail, line), acc, first) == Got(Inline(acc'), Cursor(tail, next))
              && Newlines(all) == Newlines(EntryText(e))
  {
    hide ReadValue, ReadInline, EntryOk, TableOk, EntryText, TableRest, Newlines, ValText;
    var e, more := entries[0], |entries| > 1 || comma;
    var sep := if more then ',' else '}';
    var behind := if more then TableRest(entries[1..], comma && |entries| > 1, spaces) + tail else tail;
    TableSplits(entries, comma, spaces);
    RestSplits(EntryText(e), sep, TableRest(entries, comma, spaces),
               TableRest(entries[1..], comma && |entries| > 1, spaces), tail, more);
    EntryReads(e, sep, behind, acc, line, first);
  }

  lemma {:induction false} NoItems(acc: seq<Item>)
    ensures acc + EntriesMean([]) == acc
  {
  }

  lemma {:induction false} ItemsSplit(entries: seq<Entry>, acc: seq<Item>)
    requires entries != []
    ensures var item := Item(KeyMeans(entries[0].key), ValMeans(entries[0].val));
            && acc + [item] + EntriesMean(entries[1..]) == acc + EntriesMean(entries)
            && (|entries| == 1 ==> acc + [item] == acc + EntriesMean(entries))
  {
    hide ValMeans, KeyMeans;
    assert EntriesMean([]) == [];
  }

  lemma {:induction false} EntryIsOk(e: Entry)
    requires EntryOk(e)
    ensures ValOk(e.val)
    ensures forall rest: string, sep :: sep == ',' || sep == '}' ==> Clear(e.after + [sep] + rest)
  {
    hide ValOk, KeyOk;
    assert e.after != [] ==> e.after[0] in SPACES;
  }

  lemma {:induction false} TableEnds(comma: bool, spaces: string, acc: seq<Item>, tail: string, line: nat, first: nat)
    requires TableOk([], comma, spaces)
    ensures ReadInline(Cursor(TableRest([], comma, spaces) + tail, line), acc, first)
         == Got(Inline(acc), Cursor(tail, line + Newlines(TableRest([], comma, spaces))))
  {
    hide ReadValue, SkipSpaces, Only, Newlines, ReadItem, ReadInline, EntryOk;
    var rest := ['}'] + tail;
    assert EntriesText([]) == [] && TableRest([], comma, spaces) == spaces + ['}'];
    assert spaces + ['}'] + tail == spaces + rest;
    SpacesRead(spaces, rest, line);
    BraceReads(Cursor(spaces + rest, line), tail, acc, line, first);
    NewlinesAppend(spaces, ['}']);
    NoNewlines(['}']);
  }

  lemma {:induction false} BraceReads(c: Cursor, tail: string, acc: seq<Item>, line: nat, first: nat)
    requires SkipSpaces(c) == Cursor(['}'] + tail, line)
    ensures ReadInline(c, acc, first) == Got(Inline(acc), Cursor(tail, line))
  {
    hide ReadItem, SkipSpaces;
    assert (['}'] + tail)[1..] == tail;
  }

  /** One entry with its spaces, and the comma or brace behind it. */
  lemma {:induction false} EntryReads(e: Entry, sep: char, rest: string, acc: seq<Item>, line: nat, first: nat)
    requires EntryOk(e) && (sep == ',' || sep == '}')
    requires ReadValue(Cursor(ValText(e.val) + (e.after + [sep] + rest), line)) ==
             Got(ValMeans(e.val), Cursor(e.after + [sep] + rest, line + Newlines(ValText(e.val))))
    ensures var item, next := Item(KeyMeans(e.key), ValMeans(e.val)), Cursor(rest, line + Newlines(EntryText(e)));
            ReadInline(Cursor(EntryText(e) + [sep] + rest, line), acc, first) ==
            if sep == '}' then Got(Inline(acc + [item]), next) else ReadInline(next, acc + [item], first)
  {
    hide ReadValue, SkipSpaces, ReadItem, KeyOk, KeyText, KeyMeans, Only, Newlines, ValText, ValOk, ValMeans, BARE;
    var tail, end := e.after + [sep] + rest, [sep] + rest;
    var item := e.left + ['='] + e.right + (ValText(e.val) + tail);
    ItemReads(e, tail, line);
    assert EntryText(e) + [sep] + rest == e.before + (KeyText(e.key) + item) && tail == e.after + end &&
           end[1..] == rest;
    NotBare();
    SpacesRead(e.before, KeyText(e.key) + item, line);
    SpacesRead(e.after, end, line + Newlines(ValText(e.val)));
  }

  /** `key = value` is read as an item. */
  lemma {:induction false} ItemReads(e: Entry, tail: string, line: nat)
    requires EntryOk(e)
    requires ReadValue(Cursor(ValText(e.val) + tail, line)) ==
             Got(ValMeans(e.val), Cursor(tail, line + Newlines(ValText(e.val))))
    ensures var item := e.left + ['='] + e.right + (ValText(e.val) + tail);
            && ReadItem(Cursor(KeyText(e.key) + item, line))
               == Got(Item(KeyMeans(e.key), ValMeans(e.val)), Cursor(tail, line + Newlines(ValText(e.val))))
            && KeyText(e.key) != [] && KeyText(e.key)[0] in BARE + {'"', '\''}
    ensures Newlines(EntryText(e)) == Newlines(ValText(e.val))
  {
    hide ReadValue, SkipSpaces, ReadKeySegment, KeyOk, KeyText, KeyMeans, Only, Newlines, ValText, ValOk, ValMeans,
      BARE;
    var right := e.right + (ValText(e.val) + tail);
    var eq := ['='] + right;
    var item := e.left + ['='] + e.right + (ValText(e.val) + tail);
    assert item == e.left + eq && eq[1..] == right;
    KeyIsOver(e.left, eq);
    KeyReads(e.key, item, line);
    SpacesRead(e.left, eq, line);
    ValueIsSolid(e.val, tail);
    SpacesRead(e.right, ValText(e.val) + tail, line);
    EntryLines(e);
  }

  /** Behind a key come spaces and something that is not of a key. */
  lemma {:induction false} KeyIsOver(spaces: string, rest: string)
    requires Only(spaces, SPACES) && (rest == [] || rest[0] in {'=', ']', '.'})
    ensures KeyOver(spaces + rest)
  {
    NotBare();
    assert spaces != [] ==> spaces[0] in SPACES;
    assert [] + rest == rest;
    hide BARE;
  }

  lemma {:induction false} EntryLines(e: Entry)
    requires EntryOk(e)
    ensures Newlines(EntryText(e)) == Newlines(ValText(e.val))
  {
    hide ValOk, KeyOk, KeyText, ValText, Newlines, BARE;
    NoNewlines(e.before);
    NoNewlines(e.left);
    NoNewlines(['=']);
    NoNewlines(e.right);
    NoNewlines(e.after);
    KeyReads(e.key, [], 0);
    NewlinesAppend(e.before, KeyText(e.key));
    NewlinesAppend(e.before + KeyText(e.key), e.left);
    NewlinesAppend(e.before + KeyText(e.key) + e.left, ['=']);
    NewlinesAppend(e.before + KeyText(e.key) + e.left + ['='], e.right);
    NewlinesAppend(e.before + KeyText(e.key) + e.left + ['='] + e.right, ValText(e.val));
    NewlinesAppend(e.before + KeyText(e.key) + e.left + ['='] + e.right + ValText(e.val), e.after);
  }
}

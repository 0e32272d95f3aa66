/** Whole documents: whatever the syntax writes is parsed as the statements it stands for. */
module TomlRoundTrip {
  import opened Base
  import opened TomlText
  import opened TomlScanner
  import opened TomlDocument
  import opened TomlAccepts
  import opened TomlSyntax
  import opened TomlStrings
  import opened TomlValues

  // --- Paths --------------------------------------------------------------------------

  lemma {:induction false} PathSplits(path: seq<Key>)
    requires PathOk(path)
    ensures path != [] && KeyOk(path[0]) && (|path| > 1 ==> PathOk(path[1..]))
    ensures PathMeans(path) == [KeyMeans(path[0])] + PathMeans(path[1..]) &&
            (|path| == 1 ==> PathMeans(path[1..]) == [])
  {
    hide KeyOk, KeyMeans;
    assert forall i :: 0 <= i < |path[1..]| ==> path[1..][i] == path[i + 1];
  }

  lemma {:induction false} PathStarts(path: seq<Key>)
    requires PathOk(path)
    ensures PathText(path) != [] && PathText(path)[0] in BARE + {'"', '\''} && Newlines(PathText(path)) == 0
    decreases |path|
  {
    hide KeyOk, PathOk, KeyText, KeyMeans, ReadKeySegment, Newlines, BARE;
    PathSplits(path);
    KeyReads(path[0], [], 0);
    if |path| > 1 {
      PathStarts(path[1..]);
      NoNewlines(['.']);
      NewlinesAppend(KeyText(path[0]), ['.']);
      NewlinesAppend(KeyText(path[0]) + ['.'], PathText(path[1..]));
    }
  }

  lemma {:induction false} PathReadsBack(path: seq<Key>, acc: Path, tail: string, line: nat)
    requires PathOk(path) && KeyOver(tail) && (tail == [] || tail[0] != '.')
    ensures ReadKeyPath(Cursor(PathText(path) + tail, line), acc) == Got(acc + PathMeans(path), Cursor(tail, line))
    decreases |path|
  {
    hide KeyOk, PathOk, KeyText, KeyMeans, ReadKeySegment, Newlines, BARE, PathMeans;
    PathSplits(path);
    if |path| == 1 {
      KeyReads(path[0], tail, line);
      assert acc + [KeyMeans(path[0])] == acc + PathMeans(path);
    } else {
      var rest := ['.'] + (PathText(path[1..]) + tail);
      DotIsOver(rest, tail);
      KeyReads(path[0], rest, line);
      PathReadsBack(path[1..], acc + [KeyMeans(path[0])], tail, line);
      assert PathText(path) + tail == KeyText(path[0]) + rest && rest[1..] == PathText(path[1..]) + tail;
      assert acc + [KeyMeans(path[0])] + PathMeans(path[1..]) == acc + PathMeans(path);
    }
  }

  lemma {:induction false} DotIsOver(rest: string, tail: string)
    requires KeyOver(tail) && (rest == tail || (rest != [] && rest[0] == '.'))
    ensures KeyOver(rest)
  {
    NotBare();
    hide BARE;
  }

  // --- Ends of statements -------------------------------------------------------------

  lemma {:induction false} EndReads(e: End, tail: string, line: nat)
    requires EndOk(e, tail)
    ensures EndOfStatement(Cursor(EndText(e) + tail, line)) == Got((), Cursor(tail, line + Newlines(EndText(e))))
    ensures Clear(EndText(e) + tail)
  {
    hide SkipSpaces, SkipWhile, Newlines;
    var rest := (match e
                 case NewLine(_, crlf) => if crlf then ['\r', '\n'] else ['\n']
                 case Remark(_, text) => ['#'] + text
                 case TextEnd(_, cr) => if cr then ['\r'] else []);
    assert EndText(e) == e.spaces + rest && EndText(e) + tail == e.spaces + (rest + tail);
    NewlinesAppend(e.spaces, rest);
    SpacesRead(e.spaces, rest + tail, line);
    if e.Remark? {
      NoNewlines(rest);
      SkipRun(rest, tail, line, IsNotNewline);
    } else {
      LineEndReads(rest, tail, line);
    }
    assert EndText(e) != [] ==> EndText(e)[0] == if e.spaces != [] then e.spaces[0] else rest[0];
  }

  lemma {:induction false} LineEndReads(rest: string, tail: string, line: nat)
    requires rest in {"\n", "\r\n", "\r", ""} && (rest == "\r" || rest == "" ==> tail == [])
    ensures rest == "\n" ==> Advance(Cursor(rest + tail, line)) == Cursor(tail, line + Newlines(rest))
    ensures rest == "\r\n" ==>
              var c1 := Advance(Cursor(rest + tail, line));
              c1.rest != [] && c1.rest[0] == '\n' && Advance(c1) == Cursor(tail, line + Newlines(rest))
    ensures rest == "\r" ==> Advance(Cursor(rest + tail, line)) == Cursor(tail, line + Newlines(rest))
    ensures rest == "" ==> rest + tail == tail && Newlines(rest) == 0
  {
    assert [] + tail == tail && ['\r'] + ['\n'] + tail == "\r\n" + tail;
    Step('\n', [], tail, line);
    Step('\r', [], tail, line);
    Step('\r', "\n", tail, line);
    assert "\n" == ['\n'] + [] && "\r" == ['\r'] + [] && "\r\n" == ['\r'] + "\n";
    assert "\n" + tail == ['\n'] + tail;
    NoNewlines([]);
    hide Newlines;
  }

  // --- Statements ---------------------------------------------------------------------

  /** The statement a line stands for, when the line itself begins on line `here`. */
  function LineMeans(l: Line, here: nat): Stmt {
    match l
    case Heading(_, path, _) => Header(PathMeans(path), here)
    case Setting(_, path, _, _, val, _) => Assign(PathMeans(path), ValMeans(val), here + Newlines(Body(l)))
  }

  lemma {:induction false} HeaderReadsBack(l: Line, tail: string, line: nat)
    requires l.Heading? && LineOk(l, tail)
    ensures var c := Cursor(Body(l) + tail, line);
            && c.rest != [] && c.rest[0] == '['
            && ReadHeader(c) == Got(LineMeans(l, line), Cursor(tail, line + Newlines(Body(l))))
  {
    hide PathText, PathOk, PathMeans, ReadKeyPath, EndOfStatement, EndText, EndOk, Newlines, GapsOk, BARE;
    var path, end := PathText(l.path), EndText(l.end);
    var rest := [']'] + (end + tail);
    assert Body(l) + tail == ['['] + path + rest && Body(l) == ['['] + (path + ([']'] + end));
    Step('[', path, rest, line);
    NotBare();
    PathStarts(l.path);
    PathReadsBack(l.path, [], rest, line);
    assert [] + PathMeans(l.path) == PathMeans(l.path) && rest[1..] == end + tail && (path + rest)[0] == path[0];
    EndReads(l.end, tail, line);
    NewlinesAppend(['['], path + ([']'] + end));
    NewlinesAppend(path, [']'] + end);
    NewlinesAppend([']'], end);
    NoNewlines(['[']);
    NoNewlines([']']);
  }

  lemma {:induction false} AssignReadsBack(l: Line, tail: string, line: nat)
    requires l.Setting? && LineOk(l, tail)
    ensures var c := Cursor(Body(l) + tail, line);
            && c.rest != [] && c.rest[0] in BARE + {'"', '\''}
            && ReadKeyValue(c) == Got(LineMeans(l, line), Cursor(tail, line + Newlines(Body(l))))
  {
    hide PathText, PathOk, PathMeans, ReadKeyPath, EndOfStatement, EndText, EndOk, Newlines, GapsOk, BARE, ValOk,
      ValText, ValMeans, ReadValue, Only, SkipSpaces, Clear;
    var path, val, end := PathText(l.path), ValText(l.val), EndText(l.end) + tail;
    var right := l.right + (val + end);
    var eq := ['='] + right;
    assert Body(l) + tail == path + (l.left + eq) && eq[1..] == right;
    KeyIsOver(l.left, eq);
    NotADot(l.left, eq);
    PathStarts(l.path);
    PathReadsBack(l.path, [], l.left + eq, line);
    assert [] + PathMeans(l.path) == PathMeans(l.path);
    SpacesRead(l.left, eq, line);
    ValueIsSolid(l.val, end);
    SpacesRead(l.right, val + end, line);
    EndReads(l.end, tail, line + Newlines(val));
    ValueReadsBack(l.val, end, line);
    SettingLines(l);
  }

  lemma {:induction false} NotADot(spaces: string, eq: string)
    requires Only(spaces, SPACES) && eq != [] && eq[0] == '='
    ensures spaces + eq != [] && (spaces + eq)[0] != '.' && SkipReady(eq)
  {
    assert spaces != [] ==> spaces[0] in SPACES;
  }

  predicate SkipReady(s: string) {
    s == [] || s[0] !in SPACES
  }

  lemma {:induction false} SettingLines(l: Line)
    requires l.Setting? && PathOk(l.path) && Only(l.left, SPACES) && Only(l.right, SPACES)
    ensures Newlines(Body(l)) == Newlines(ValText(l.val)) + Newlines(EndText(l.end))
  {
    hide PathText, PathOk, EndText, Newlines, ValText, BARE;
    var path, val := PathText(l.path), ValText(l.val);
    PathStarts(l.path);
    NoNewlines(l.left);
    NoNewlines(l.right);
    NoNewlines(['=']);
    NewlinesAppend(path, l.left);
    NewlinesAppend(path + l.left, ['=']);
    NewlinesAppend(path + l.left + ['='], l.right);
    NewlinesAppend(path + l.left + ['='] + l.right, val);
    NewlinesAppend(path + l.left + ['='] + l.right + val, EndText(l.end));
  }

  lemma {:induction false} StatementReadsBack(l: Line, tail: string, line: nat)
    requires LineOk(l, tail)
    ensures var here := line + Newlines(GapsText(l.lead));
            ReadStatement(Cursor(GapsText(l.lead) + Body(l) + tail, line)) ==
            Got(Some(LineMeans(l, here)), Cursor(tail, here + Newlines(Body(l))))
  {
    hide ReadHeader, ReadKeyValue, SkipFiller, GapsText, GapsOk, Body, Newlines, LineMeans, BARE, PathOk, EndOk,
      ValOk;
    var here, rest := line + Newlines(GapsText(l.lead)), Body(l) + tail;
    assert GapsText(l.lead) + Body(l) + tail == GapsText(l.lead) + rest;
    if l.Heading? { HeaderReadsBack(l, tail, here); } else { AssignReadsBack(l, tail, here); }
    KeyIsSolid(rest[0]);
    GapsRead(l.lead, rest, line);
  }

  lemma {:induction false} KeyIsSolid(ch: char)
    requires ch == '[' || ch in BARE + {'"', '\''}
    ensures ch !in BLANKS && ch != '#' && (ch != '[' || ch !in BARE + {'"', '\''}) && ch as int < 0x80
  {
    NotBare();
    BareChars(ch);
    hide BARE;
  }

  // --- Documents ----------------------------------------------------------------------

  /** A document written in any layout is read as the statements it stands for, to its end. */
  lemma {:induction false} StatementsReadBack(lines: seq<Line>, last: seq<Gap>, line: nat)
    requires DocOk(lines, last)
    ensures Statements(Cursor(DocText(lines, last), line)) == (DocMeans(lines, line), None)
    decreases |lines|
  {
    hide ReadStatement, GapsText, Body, LineOk, Newlines, GapsOk, ValMeans, PathMeans;
    if lines == [] {
      LastGapsRead(last, line);
    } else {
      var here := line + Newlines(GapsText(lines[0].lead));
      var next := here + Newlines(Body(lines[0]));
      StatementReadsBack(lines[0], DocText(lines[1..], last), line);
      StatementsReadBack(lines[1..], last, next);
      assert DocMeans(lines, line) == [LineMeans(lines[0], here)] + DocMeans(lines[1..], next);
    }
  }

  lemma {:induction false} LastGapsRead(last: seq<Gap>, line: nat)
    requires GapsOk(last, true)
    ensures ReadStatement(Cursor(GapsText(last), line)) == Got(None, Cursor([], line + Newlines(GapsText(last))))
  {
    hide GapsText, GapsOk, Newlines, SkipFiller;
    GapsRead(last, [], line);
    assert GapsText(last) + [] == GapsText(last);
  }

  lemma {:induction false} NoBom(lines: seq<Line>, last: seq<Gap>)
    requires DocOk(lines, last)
    ensures StripBom(DocText(lines, last)) == DocText(lines, last)
  {
    hide GapsOk, PathText, EndText, ValText, GapsText, LineOk, EndOk, PathOk, ValOk, Only, BARE;
    if lines == [] {
      GapsStart(last, true);
    } else {
      var l, tail := lines[0], DocText(lines[1..], last);
      LineStarts(l, tail);
      GapsStart(l.lead, false);
      assert GapsText(l.lead) == [] ==> DocText(lines, last)[0] == Body(l)[0];
    }
    assert ['\U{00EF}', '\U{00BB}', '\U{00BF}'][0] as int >= 0x80;
  }

  lemma {:induction false} GapsStart(gaps: seq<Gap>, atEnd: bool)
    requires GapsOk(gaps, atEnd)
    ensures GapsText(gaps) != [] ==> GapsText(gaps)[0] as int < 0x80
  {
    if gaps != [] { GapsSplit(gaps, atEnd); }
  }

  lemma {:induction false} LineStarts(l: Line, tail: string)
    requires LineOk(l, tail)
    ensures GapsOk(l.lead, false) && Body(l) != [] && Body(l)[0] as int < 0x80
  {
    hide GapsOk, PathText, EndText, ValText, EndOk, PathOk, ValOk, Only, BARE;
    if l.Setting? {
      PathStarts(l.path);
      KeyIsSolid(PathText(l.path)[0]);
    }
  }

  /**
   A document written in any layout is accepted iff no statement clashes with an earlier one, and the tree is
   then exactly what the statements say.
   */
  lemma {:induction false} DocumentReadsBack(src: string, lines: seq<Line>, last: seq<Gap>)
    requires DocOk(lines, last) && StripBom(src) == DocText(lines, last)
    ensures WellPathed(DocMeans(lines, 1))
    ensures var r := Parse(src);
            && (r.Ok? <==> Compatible(Facts([], DocMeans(lines, 1))))
            && (r.Ok? ==> Holds(r.value, Facts([], DocMeans(lines, 1))) && Tree(r.value))
  {
    hide Parse, DocText, Statements, Holds, Compatible, Tree, Facts, StripBom, DocOk, DocMeans, WellPathed,
      FirstClashAt;
    StatementsReadBack(lines, last, 1);
    StatementsWellPathed(Cursor(StripBom(src), 1));
    AcceptedIff(src);
  }
}

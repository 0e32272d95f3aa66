/** Everything can be written: every string, every value the reader can yield, every list of statements. */
module TomlWritable {
  import opened Base
  import opened TomlText
  import opened TomlScanner
  import opened TomlDocument
  import opened TomlAccepts
  import opened TomlSyntax
  import opened TomlStrings
  import opened TomlNumbers
  import opened TomlValues
  import opened TomlRoundTrip

  /** Numbers have the form of a number, and there are two booleans. */
  ghost predicate Sensible(v: Toml) {
    match v
    case Str(_) => true
    case Num(s) => IsNumber(s)
    case Bool(s) => s == "true" || s == "false"
    case Arr(list) => forall i :: 0 <= i < |list| ==> Sensible(list[i])
    case Inline(items) => forall i :: 0 <= i < |items| ==> Sensible(items[i].val)
  }

  /** One character of a one-line basic string. */
  lemma {:induction false} CharWritten(ch: char) returns (p: Piece)
    ensures PieceOk(p, '"', false) && !p.Quotes? && !p.Fold? && PieceMeans(p, '"') == [ch]
  {
    if ch == '"' {
      p := Letter('"');
    } else if ch == '\\' {
      p := Letter('\\');
    } else if ch >= ' ' || ch == '\t' || ch == '\r' {
      p := Plain(ch);
    } else {
      var v := ch as int;
      p := Point([Hex(0, false), Hex(0, false), Hex(v / 16, false), Hex(v % 16, false)]);
      FourDigits(v / 16, v % 16);
      assert IsScalar(v) && CodePoint(v) == [ch];
    }
  }

  lemma {:induction false} FourDigits(a: nat, b: nat)
    requires a < 16 && b < 16
    ensures var digits := [Hex(0, false), Hex(0, false), Hex(a, false), Hex(b, false)];
            HexMeans(digits, 0) == a * 16 + b && forall i :: 0 <= i < 4 ==> digits[i].value < 16
  {
    var digits := [Hex(0, false), Hex(0, false), Hex(a, false), Hex(b, false)];
    assert digits[1..] == [Hex(0, false), Hex(a, false), Hex(b, false)];
    assert digits[1..][1..] == [Hex(a, false), Hex(b, false)] && digits[1..][1..][1..] == [Hex(b, false)];
    assert digits[1..][1..][1..][1..] == [];
    assert HexMeans([Hex(b, false)], a) == a * 16 + b;
    assert HexMeans([Hex(a, false), Hex(b, false)], 0) == a * 16 + b;
    assert HexMeans([Hex(0, false), Hex(a, false), Hex(b, false)], 0) == a * 16 + b;
  }

  lemma {:induction false} PiecesWritten(s: string) returns (pieces: seq<Piece>)
    ensures PiecesOk(pieces, '"', false) && PiecesMean(pieces, '"') == s
    ensures forall i :: 0 <= i < |pieces| ==> !pieces[i].Quotes? && !pieces[i].Fold?
  {
    hide PieceOk, PieceMeans;
    pieces := [];
    if s != [] {
      var p := CharWritten(s[0]);
      var rest := PiecesWritten(s[1..]);
      pieces := [p] + rest;
      assert pieces[1..] == rest && s == [s[0]] + s[1..];
    }
  }

  lemma {:induction false} StringWritten(s: string) returns (q: Quoted)
    ensures QuotedOk(q) && !q.multiline && QuotedMeans(q) == s
  {
    var pieces := PiecesWritten(s);
    hide PiecesOk, PiecesMean;
    q := Quoted('"', false, [], pieces);
  }

  lemma {:induction false} ValueWritten(v: Toml) returns (w: Val)
    requires Sensible(v)
    ensures ValOk(w) && ValMeans(w) == v
    decreases v
  {
    hide QuotedOk, QuotedMeans, IsNumber, NumeralOk, NumeralText, ElemOk, EntryOk;
    match v
    case Str(s) =>
      var q := StringWritten(s);
      w := Text(q);
    case Num(s) =>
      NumberIff(s);
      var n :| NumeralOk(n) && NumeralText(n) == s;
      w := Number(n);
    case Bool(s) =>
      w := Truth(s == "true");
    case Arr(list) =>
      var elems := ElemsWritten(list);
      NoGapsAreOk();
      w := List(elems, false, []);
    case Inline(items) =>
      var entries := EntriesWritten(items);
      w := Table(entries, false, []);
  }

  lemma {:induction false} NoGapsAreOk()
    ensures GapsOk([], false)
  {
  }

  lemma {:induction false} ElemsWritten(list: seq<Toml>) returns (elems: seq<Elem>)
    requires forall i :: 0 <= i < |list| ==> Sensible(list[i])
    ensures (forall i :: 0 <= i < |elems| ==> ElemOk(elems[i])) && ElemsMean(elems) == list
    decreases list
  {
    hide ValOk, ValMeans, Sensible, GapsOk;
    elems := [];
    if list != [] {
      var v := ValueWritten(list[0]);
      var rest := ElemsWritten(list[1..]);
      NoGapsAreOk();
      elems := [Elem([], v, [])] + rest;
      assert elems[1..] == rest && list == [list[0]] + list[1..];
    }
  }

  lemma {:induction false} EntriesWritten(items: seq<Item>) returns (entries: seq<Entry>)
    requires forall i :: 0 <= i < |items| ==> Sensible(items[i].val)
    ensures (forall i :: 0 <= i < |entries| ==> EntryOk(entries[i])) && EntriesMean(entries) == items
    decreases items
  {
    hide ValOk, ValMeans, Sensible, QuotedOk, QuotedMeans;
    entries := [];
    if items != [] {
      var v := ValueWritten(items[0].val);
      var key := StringWritten(items[0].key);
      var rest := EntriesWritten(items[1..]);
      entries := [Entry([], Enclosed(key), [], [], v, [])] + rest;
      assert entries[1..] == rest && items == [items[0]] + items[1..];
    }
  }

  lemma {:induction false} PathWritten(path: Path) returns (keys: seq<Key>)
    requires path != []
    ensures PathOk(keys) && PathMeans(keys) == path
  {
    hide QuotedOk, QuotedMeans;
    var key := StringWritten(path[0]);
    keys := [Enclosed(key)];
    if |path| > 1 {
      var rest := PathWritten(path[1..]);
      keys := keys + rest;
      assert keys[1..] == rest && path == [path[0]] + path[1..];
    } else {
      assert path == [path[0]];
    }
  }

  /** The same statements but for the lines they carry. */
  ghost predicate SameButLines(a: seq<Stmt>, b: seq<Stmt>) {
    |a| == |b| && forall i :: 0 <= i < |a| ==> a[i] == b[i].(line := a[i].line)
  }

  lemma {:induction false} SameFacts(base: Path, a: seq<Stmt>, b: seq<Stmt>)
    requires SameButLines(a, b) && WellPathed(b)
    ensures WellPathed(a) && Facts(base, a) == Facts(base, b)
    decreases |a|
  {
    if a != [] {
      assert a[0] == b[0].(line := a[0].line);
      assert forall i :: 0 <= i < |a[1..]| ==> a[1..][i] == a[i + 1] && b[1..][i] == b[i + 1];
      SameFacts(NextBase(base, b[0]), a[1..], b[1..]);
    }
  }

  lemma {:induction false} LineWritten(st: Stmt) returns (l: Line)
    requires st.path != [] && (st.Assign? ==> Sensible(st.val))
    ensures forall tail :: LineOk(l, tail)
    ensures forall here :: LineMeans(l, here) == st.(line := LineMeans(l, here).line)
  {
    hide PathOk, PathMeans, ValOk, ValMeans, GapsOk, Body;
    NoGapsAreOk();
    var path := PathWritten(st.path);
    match st
    case Header(_, _) =>
      l := Heading([], path, NewLine([], false));
    case Assign(_, val, _) =>
      var v := ValueWritten(val);
      l := Setting([], path, [], [], v, NewLine([], false));
  }

  /** Every list of statements can be written as a document, one statement a line. */
  lemma {:induction false} DocumentWritten(stmts: seq<Stmt>, line: nat) returns (lines: seq<Line>)
    requires forall i :: 0 <= i < |stmts| ==> stmts[i].path != [] && (stmts[i].Assign? ==> Sensible(stmts[i].val))
    ensures DocOk(lines, []) && SameButLines(DocMeans(lines, line), stmts)
    decreases |stmts|
  {
    hide LineOk, Body, GapsText, ValMeans, PathMeans, Sensible, GapsOk;
    lines := [];
    if stmts == [] {
      EmptyDocOk();
    } else {
      var l := LineWritten(stmts[0]);
      var here := line + Newlines(GapsText(l.lead));
      var next := here + Newlines(Body(l));
      var rest := DocumentWritten(stmts[1..], next);
      lines := [l] + rest;
      assert lines[1..] == rest && DocMeans(lines, line) == [LineMeans(l, here)] + DocMeans(rest, next);
      forall i | 0 <= i < |stmts| ensures DocMeans(lines, line)[i] == stmts[i].(line := DocMeans(lines, line)[i].line) {
        if i > 0 { assert DocMeans(lines, line)[i] == DocMeans(rest, next)[i - 1] && stmts[i] == stmts[1..][i - 1]; }
      }
    }
  }

  lemma {:induction false} EmptyDocOk()
    ensures DocOk([], [])
  {
  }

  /** So a list of statements is a document the parser accepts exactly when none clashes with an earlier one. */
  lemma {:induction false} WrittenIsAccepted(stmts: seq<Stmt>) returns (src: string)
    requires forall i :: 0 <= i < |stmts| ==> stmts[i].path != [] && (stmts[i].Assign? ==> Sensible(stmts[i].val))
    ensures WellPathed(stmts)
    ensures var r := Parse(src);
            && (r.Ok? <==> Compatible(Facts([], stmts)))
            && (r.Ok? ==> Holds(r.value, Facts([], stmts)) && Tree(r.value))
  {
    hide Parse, DocText, Holds, Compatible, Tree, Facts, StripBom, DocOk, DocMeans, Sensible, SameButLines;
    var lines := DocumentWritten(stmts, 1);
    src := DocText(lines, []);
    NoBom(lines, []);
    DocumentReadsBack(src, lines, []);
    SameFacts([], DocMeans(lines, 1), stmts);
  }
}

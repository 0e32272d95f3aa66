/**
 What a successful parse means: the documents accepted, what their readers find, and where a
 conflict is reported.
 */
module TomlAccepts {
  import opened Base
  import opened TomlText
  import opened TomlDocument

  /** The statements of a source and the failure to read on, if there is one. */
  function StatementsOf(src: string): (seq<Stmt>, Option<Failure>) {
    Statements(Cursor(StripBom(src), 1))
  }

  lemma {:induction false} StatementsWellPathed(c: Cursor)
    ensures WellPathed(Statements(c).0)
    decreases |c.rest|
  {
    var r := ReadStatement(c);
    if r.Got? && r.value.Some? {
      StatementsWellPathed(r.cur);
    }
  }

  lemma EmptyIsSound()
    ensures [] in EMPTY && Holds(EMPTY, []) && Tree(EMPTY) && BaseFree(EMPTY, []) && Compatible([])
  {
    assert forall p :: !Touched([], p);
  }

  /** Some statement is the first to clash, and `line` is its line. */
  ghost predicate FirstClashAt(stmts: seq<Stmt>, line: nat) {
    exists k :: 0 <= k < |stmts| && FirstClash(Facts([], stmts), k) && line == stmts[k].line
  }

  lemma BuiltIff(stmts: seq<Stmt>)
    requires WellPathed(stmts)
    ensures var facts, built := Facts([], stmts), Build(EMPTY, [], stmts);
            && (built.Ok? <==> Compatible(facts))
            && (built.Ok? ==> Holds(built.value, facts) && Tree(built.value))
            && (built.Err? ==> FirstClashAt(stmts, built.error.line))
  {
    hide Holds, Tree, FirstClash, BaseFree, WellPathed, Facts, Build, Compatible;
    EmptyIsSound();
    BuildMeans(EMPTY, [], [], stmts);
    var facts, built := Facts([], stmts), Build(EMPTY, [], stmts);
    assert [] + facts == facts;
    if built.Err? {
      var k :| 0 <= k < |stmts| && FirstClash(facts, 0 + k) && built.error.line == stmts[k].line;
      assert FirstClash(facts, k);
      FirstClashIsClash(facts, k);
    }
  }

  /**
   A document is accepted iff every statement can be read and none clashes with an earlier one; then
   each assigned path holds exactly its value, each header's path is a declared table without a value,
   and nothing else holds a value or is declared.  A clash is reported with the line of the first
   statement that clashes.
   */
  lemma AcceptedIff(src: string)
    ensures var (stmts, bad) := StatementsOf(src);
            var facts := Facts([], stmts);
            && (Parse(src).Ok? <==> bad.None? && Compatible(facts))
            && (Parse(src).Ok? ==> Holds(Parse(src).value, facts) && Tree(Parse(src).value))
            && (Compatible(facts) && bad.Some? ==> Parse(src) == Err(bad.value))
            && (!Compatible(facts) ==> FirstClashAt(stmts, Parse(src).error.line))
  {
    hide Holds, Tree, FirstClashAt, WellPathed, Facts, Build, Compatible, Statements;
    StatementsWellPathed(Cursor(StripBom(src), 1));
    BuiltIff(StatementsOf(src).0);
  }

  lemma FirstClashIsClash(fs: seq<Fact>, k: nat)
    requires FirstClash(fs, k)
    ensures !Compatible(fs)
  {
  }

  /** No assignment is lost, none is made twice, no header is repeated, and none names a value. */
  lemma NoAssignmentLost(src: string, i: nat)
    requires Parse(src).Ok? && i < |StatementsOf(src).0|
    ensures var n, facts := Parse(src).value, Facts([], StatementsOf(src).0);
            && facts[i].path in n
            && n[facts[i].path].val == (if facts[i].Assigns? then Some(facts[i].val) else None)
            && n[facts[i].path].declared == facts[i].Declares?
            && forall j :: 0 <= j < |facts| && j != i ==> facts[j].path != facts[i].path
  {
    hide Parse, StatementsOf, Holds, Compatible, Tree, Facts;
    AcceptedIff(src);
    FactHeld(Parse(src).value, Facts([], StatementsOf(src).0), i);
  }

  lemma FactHeld(n: Nodes, facts: seq<Fact>, i: nat)
    requires Holds(n, facts) && Compatible(facts) && i < |facts|
    ensures var f := facts[i];
            && f.path in n
            && n[f.path].val == (if f.Assigns? then Some(f.val) else None)
            && n[f.path].declared == f.Declares?
    ensures forall j :: 0 <= j < |facts| && j != i ==> facts[j].path != facts[i].path
  {
    assert facts[i] in facts && Touched(facts, facts[i].path);
    forall j | 0 <= j < |facts| && j != i
      ensures facts[j].path != facts[i].path
    {
      assert if i < j then !Clash(facts[i], facts[j]) else !Clash(facts[j], facts[i]);
    }
  }

  // --- Reading the tree ---------------------------------------------------------------

  /** The readers' way down: a missing table is none, a value in the way is a failure. */
  function Descend(n: Nodes, cur: Path, path: Path): Result<Option<Path>, Failure>
    decreases |path|
  {
    if path == [] then Ok(Some(cur)) else
    var next := cur + [path[0]];
    if next !in n then Ok(None)
    else if n[next].val.Some? then Err(Failure("a value, not a table", n[next].line))
    else Descend(n, next, path[1..])
  }

  lemma {:induction false} DescendMeans(n: Nodes, cur: Path, path: Path)
    requires forall p :: Between(cur, p, cur + path) ==> p in n
    ensures Descend(n, cur, path) == Ok(Some(cur + path)) <==>
            forall p :: Between(cur, p, cur + path) ==> n[p].val.None?
    ensures Descend(n, cur, path) == Ok(Some(cur + path)) || Descend(n, cur, path).Err?
    decreases |path|
  {
    hide Between;
    if path == [] {
      assert cur + path == cur;
      LastBetween(cur, cur + path);
    } else {
      var next := cur + [path[0]];
      NextBetween(cur, path);
      if n[next].val.None? {
        DescendMeans(n, next, path[1..]);
      }
    }
  }

  /** The readers reach the table of an assignment iff no assignment stands at that table or above it. */
  lemma ReachedIff(n: Nodes, facts: seq<Fact>, table: Path, key: string, v: Toml)
    requires Holds(n, facts) && Assigns(table + [key], v) in facts
    ensures Descend(n, [], table) == Ok(Some(table)) <==> forall g :: g in facts && g.Assigns? ==> !(g.path <= table)
    ensures Descend(n, [], table) == Ok(Some(table)) || Descend(n, [], table).Err?
    ensures table + [key] in n && n[table + [key]].val == Some(v)
  {
    hide Descend, SamePaths, SameTables;
    PrefixesHeld(n, facts, table + [key]);
    assert [] + table == table;
    forall p | p <= table
      ensures p in n
    {
      assert p <= table + [key];
    }
    DescendMeans(n, [], table);
    WayIsFacts(n, facts, table);
  }

  lemma WayIsFacts(n: Nodes, facts: seq<Fact>, table: Path)
    requires Holds(n, facts) && forall p :: p <= table ==> p in n
    ensures (forall p :: Between([], p, table) ==> n[p].val.None?) <==>
            forall g :: g in facts && g.Assigns? ==> !(g.path <= table)
  {
    hide Touched;
    forall g | g in facts && g.Assigns? && g.path <= table
      ensures Between([], g.path, table) && n[g.path].val.Some?
    {
      assert g.path != [] && Assigns(g.path, g.val) in facts;
    }
  }

  /** TOML forbids it, the parser does not: a value laid over the table an earlier dotted key made. */
  lemma ValueOverTable(x: Toml, y: Toml)
    ensures var stmts := [Assign(["a", "b"], x, 1), Assign(["a"], y, 2)];
            var built := Build(EMPTY, [], stmts);
            && built.Ok?
            && ["a", "b"] in built.value && built.value[["a", "b"]].val == Some(x)
            && Descend(built.value, [], ["a"]).Err?
  {
    hide Holds, Tree, Compatible, Build;
    var stmts := [Assign(["a", "b"], x, 1), Assign(["a"], y, 2)];
    var f, g := Assigns(["a", "b"], x), Assigns(["a"], y);
    PairOfFacts(stmts, f, g);
    BuiltIff(stmts);
    PairCompatible(f, g);
    assert ["a"] + ["b"] == ["a", "b"] && f in [f, g] && g in [f, g] && g.path <= ["a"];
    ReachedIff(Build(EMPTY, [], stmts).value, [f, g], ["a"], "b", x);
  }

  lemma PairOfFacts(stmts: seq<Stmt>, f: Fact, g: Fact)
    requires |stmts| == 2 && stmts[0].Assign? && f == FactOf([], stmts[0]) && g == FactOf([], stmts[1])
    ensures Facts([], stmts) == [f, g]
  {
    assert stmts[1..][1..] == [];
    assert Facts([], stmts[1..]) == [g];
  }

  lemma PairCompatible(f: Fact, g: Fact)
    requires !Clash(f, g)
    ensures Compatible([f, g])
  {
    var fs := [f, g];
    forall i, j | 0 <= i < j < |fs|
      ensures !Clash(fs[i], fs[j])
    {
      assert i == 0 && j == 1;
    }
  }

  // --- The line a conflict is reported on ---------------------------------------------

  lemma {:induction false} SkipKeepsLine(c: Cursor, p: char -> bool)
    requires !p('\n')
    ensures SkipWhile(c, p).line == c.line
    decreases |c.rest|
  {
    if c.rest != [] && p(c.rest[0]) {
      SkipKeepsLine(Advance(c), p);
    }
  }

  /** The line end follows at once; a comment in between leaves it unread. */
  predicate LineEndAhead(c: Cursor) {
    var rest := SkipSpaces(c).rest;
    rest != [] && (rest[0] == '\n' || (rest[0] == '\r' && |rest| > 1))
  }

  /** The parser is handed the line after the statement: the next one iff the line end was read with it. */
  lemma EndLine(c: Cursor)
    requires EndOfStatement(c).Got?
    ensures EndOfStatement(c).cur.line == c.line + if LineEndAhead(c) then 1 else 0
  {
    SkipKeepsLine(c, IsSpace);
    SkipKeepsLine(SkipSpaces(c), IsNotNewline);
  }

  /** So a key repeated on line 2 is reported on line 3. */
  lemma DuplicateNamesTheNextLine()
    ensures var r := Parse("a=1\na=2\n"); r.Err? && r.error.line == 3
  {
    hide Parse, ReadStatement, Clash, Facts;
    var src := "a=1\na=2\n";
    var c0, c1, c2 := Cursor(src, 1), Cursor("a=2\n", 2), Cursor("", 3);
    OneDigitAssignment(c0, '1', c1);
    OneDigitAssignment(c1, '2', c2);
    NothingLeft(c2);
    var s1, s2 := Assign(["a"], Num("1"), 2), Assign(["a"], Num("2"), 3);
    assert ['1'] == "1" && ['2'] == "2";
    assert Statements(c2) == ([], None);
    assert ReadStatement(c1) == Got(Some(s2), c2);
    assert [s2] + [] == [s2] && [s1] + [s2] == [s1, s2];
    assert Statements(c1) == ([s2], None);
    assert ReadStatement(c0) == Got(Some(s1), c1);
    assert Statements(c0) == ([s1, s2], None);
    assert src[0] == 'a' && StripBom(src) == src;
    assert StatementsOf(src) == ([s1, s2], None);
    AcceptedIff(src);
    SamePathClashes([s1, s2]);
  }

  lemma SamePathClashes(stmts: seq<Stmt>)
    requires |stmts| == 2 && stmts[0].Assign? && stmts[1].Assign? && stmts[0].path == stmts[1].path
    ensures !Compatible(Facts([], stmts))
    ensures forall line :: FirstClashAt(stmts, line) ==> line == stmts[1].line
  {
    var f, g := FactOf([], stmts[0]), FactOf([], stmts[1]);
    PairOfFacts(stmts, f, g);
    assert [f, g][0] == f && [f, g][1] == g && Clash(f, g);
  }

  lemma NothingLeft(c: Cursor)
    requires c.rest == ""
    ensures ReadStatement(c) == Got(None, c)
  {
  }

  lemma OneDigitAssignment(c: Cursor, digit: char, d: Cursor)
    requires '0' <= digit <= '9' && c.rest == ['a', '=', digit, '\n'] + d.rest && d.line == c.line + 1
    ensures ReadStatement(c) == Got(Some(Assign(["a"], Num([digit]), d.line)), d)
  {
    hide ReadKeyPath, ReadValue, EndOfStatement;
    var k, v, e := Advance(c), Advance(Advance(c)), Advance(Advance(Advance(c)));
    assert k.rest == ['=', digit, '\n'] + d.rest;
    assert v.rest == [digit, '\n'] + d.rest;
    assert e.rest == ['\n'] + d.rest;
    assert v.rest[0] == digit && !IsSpace(digit) && k.rest[0] == '=';
    OneLetterKey(c, k);
    OneDigitValue(v, digit, e);
    assert SkipSpaces(k) == k && SkipSpaces(v) == v;
    assert EndOfStatement(e) == Got((), d) by {
      LineEnds(e, d);
    }
  }

  lemma LineEnds(e: Cursor, d: Cursor)
    requires e.rest == ['\n'] + d.rest && d.line == e.line + 1
    ensures EndOfStatement(e) == Got((), d)
  {
    assert SkipSpaces(e) == e && Advance(e) == d;
  }

  lemma OneLetterKey(c: Cursor, k: Cursor)
    requires c.rest == ['a'] + k.rest && k.line == c.line && k.rest != [] && k.rest[0] == '='
    ensures ReadKeyPath(c, []) == Got(["a"], k)
  {
    assert c.rest[1..] == k.rest && Advance(c) == k;
    assert SkipWhile(k, IsBareKeyChar) == k;
    assert SkipWhile(c, IsBareKeyChar) == k;
    assert |c.rest| - |k.rest| == 1 && c.rest[..1] == ['a'] && Taken(c, k) == c.rest[..1];
    assert "a" == ['a'];
    assert ReadKeySegment(c) == Got("a", k);
    assert [] + ["a"] == ["a"];
  }

  lemma OneDigitValue(v: Cursor, digit: char, e: Cursor)
    requires '0' <= digit <= '9' && v.rest == [digit] + e.rest && e.line == v.line && e.rest != [] && e.rest[0] == '\n'
    ensures ReadValue(v) == Got(Num([digit]), e)
  {
    assert Advance(v) == e && v.rest[..1] == [digit];
    assert SkipWhile(v, IsNumberChar) == e && Taken(v, e) == [digit];
    assert IsNumber([digit]);
  }

  // --- Unicode escapes ----------------------------------------------------------------

  /** The value of hex digits read after the value `r`, or None if one is no hex digit. */
  function HexValue(s: string, r: nat): Option<nat> {
    if s == [] then Some(r)
    else match HexDigit(s[0])
      case None => None
      case Some(d) => HexValue(s[1..], r * 16 + d)
  }

  /** The value of the next `digits` hex digits, if they are there. */
  function HexAhead(s: string, digits: nat, r: nat): Option<nat> {
    if digits <= |s| then HexValue(s[..digits], r) else None
  }

  lemma HexAheadStep(s: string, digits: nat, r: nat)
    requires digits >= 1
    ensures HexAhead(s, digits, r) ==
            if s == [] || HexDigit(s[0]).None? then None
              else HexAhead(s[1..], digits - 1, r * 16 + HexDigit(s[0]).value)
    ensures HexAhead(s, 0, r) == Some(r)
  {
    hide HexDigit;
    if digits <= |s| {
      assert s[..digits][0] == s[0] && s[..digits][1..] == s[1..][..digits - 1];
    }
  }

  /** A bound on the value read when `digits` hex digits are left of eight. */
  function Bound(digits: nat): nat
    requires digits <= 8
  {
    match digits
    case 8 => 1
    case 7 => 0x10
    case 6 => 0x100
    case 5 => 0x1000
    case 4 => 0x1_0000
    case 3 => 0x10_0000
    case 2 => 0x100_0000
    case 1 => 0x1000_0000
    case _ => 0x1_0000_0000
  }

  lemma BoundStep(digits: nat, r: nat, d: nat)
    requires 1 <= digits <= 8 && r < Bound(digits) && d < 16
    ensures r * 16 + d < Bound(digits - 1) <= 0x1_0000_0000
    ensures digits > 1 ==> r * 16 + d < 0x8000_0000
  {
  }

  lemma ReadUnicodeStep(c: Cursor, digits: nat, r: int, line: nat)
    requires digits > 0
    ensures ReadUnicode(c, digits, r, line) ==
            if c.rest == [] || HexDigit(c.rest[0]).None? then Fail("escape", line)
            else ReadUnicode(Advance(c), digits - 1, Wrap32(r * 16 + HexDigit(c.rest[0]).value), line)
  {
    hide Wrap32, HexDigit;
  }

  /** `res` is what reading digits of value `v` must give, ending at `after`. */
  ghost predicate IsEscape(res: Read<string>, v: Option<nat>, after: Cursor, line: nat) {
    && (res.Got? <==> v.Some? && (IsScalar(v.value) || v.value >= 0x8000_0000))
    && (res.Got? ==> res.value == Utf8(if IsScalar(v.value) then v.value else 0xFFFD) && res.cur == after)
    && (res.Bad? ==> res.failure.line == line)
  }

  /**
   An escape is accepted iff its digits are there and name a Unicode scalar value, or a value of 0x80000000
   or more, which wraps to a negative rune and is written as U+FFFD.
   */
  lemma {:induction false} UnicodeEscapeIff(c: Cursor, digits: nat, r: nat, line: nat)
    requires 1 <= digits <= 8 && r < Bound(digits)
    ensures IsEscape(ReadUnicode(c, digits, r, line), HexAhead(c.rest, digits, r),
                     Cursor(if digits <= |c.rest| then c.rest[digits..] else [], c.line), line)
    decreases digits
  {
    hide Utf8, Wrap32, HexDigit, HexAhead, IsScalar, ReadUnicode, Bound, IsEscape;
    HexAheadStep(c.rest, digits, r);
    ReadUnicodeStep(c, digits, r, line);
    if c.rest != [] && HexDigit(c.rest[0]).Some? {
      var x, next := r * 16 + HexDigit(c.rest[0]).value, Advance(c);
      HexDigitRange(c.rest[0]);
      BoundStep(digits, r, HexDigit(c.rest[0]).value);
      Wraps(x);
      if digits > 1 {
        UnicodeEscapeIff(next, digits - 1, x, line);
      } else {
        HexAheadStep(next.rest, 1, x);
        LastDigit(next, x, line);
      }
    } else {
      NoDigit(Cursor(if digits <= |c.rest| then c.rest[digits..] else [], c.line), line);
    }
  }

  lemma NoDigit(after: Cursor, line: nat)
    ensures IsEscape(Fail("escape", line), None, after, line)
  {
  }

  lemma HexDigitRange(ch: char)
    ensures HexDigit(ch).Some? ==> HexDigit(ch).value < 16 && ch != '\n'
  {
  }

  lemma Wraps(x: nat)
    requires x < 0x1_0000_0000
    ensures Wrap32(x) == if x < 0x8000_0000 then x else x - 0x1_0000_0000
  {
  }

  /** What is made of the value when all digits are read. */
  lemma LastDigit(c: Cursor, x: nat, line: nat)
    requires x < 0x1_0000_0000
    ensures IsEscape(ReadUnicode(c, 0, Wrap32(x), line), Some(x), c, line)
  {
    hide Utf8, Wrap32;
    Wraps(x);
    if x >= 0x8000_0000 {
      NegativeRune(x - 0x1_0000_0000);
    }
  }

  lemma NegativeRune(r: int)
    requires r < 0
    ensures Utf8(r) == Utf8(0xFFFD)
  {
  }

  /** An escape that names no code point at all is accepted. */
  lemma WideEscapeIsAccepted(line: nat)
    ensures ReadUnicode(Cursor("FFFFFFFF", line), 8, 0, line).Got?
         && ReadUnicode(Cursor("FFFFFFFF", line), 8, 0, line).value == Utf8(0xFFFD)
  {
    hide Utf8;
    UnicodeEscapeIff(Cursor("FFFFFFFF", line), 8, 0, line);
    var s := "FFFFFFFF";
    assert s[..8] == s && s[4..] == "FFFF" && s[4..][4..] == "";
    FourFs(s, 0);
    FourFs(s[4..], 0xFFFF);
  }

  /** Four digits F. */
  lemma FourFs(s: string, r: nat)
    requires |s| >= 4 && s[0] == s[1] == s[2] == s[3] == 'F'
    ensures HexValue(s, r) == HexValue(s[4..], r * 0x1_0000 + 0xFFFF)
  {
    assert s[1..][0] == 'F' && s[1..][1..][0] == 'F' && s[1..][1..][1..][0] == 'F' && s[1..][1..][1..][1..] == s[4..];
    assert HexDigit('F') == Some(15);
    assert HexValue(s, r) == HexValue(s[1..], r * 16 + 15);
    assert HexValue(s[1..], r * 16 + 15) == HexValue(s[1..][1..], (r * 16 + 15) * 16 + 15);
    assert HexValue(s[1..][1..], (r * 16 + 15) * 16 + 15) ==
           HexValue(s[1..][1..][1..], ((r * 16 + 15) * 16 + 15) * 16 + 15);
  }
}

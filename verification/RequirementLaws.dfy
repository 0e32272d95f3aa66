/** What the requirement parser and the manifest line promise each other. */
module RequirementLaws {
  import opened Base
  import opened RequirementText
  import opened Requirement

  // --- Names --------------------------------------------------------------------------

  predicate IsNormalChar(ch: char) {
    'a' <= ch <= 'z' || '0' <= ch <= '9' || ch == '-'
  }

  ghost predicate DoubleDash(s: string) {
    exists i :: 0 <= i < |s| - 1 && s[i] == '-' && s[i + 1] == '-'
  }

  lemma {:induction false} ReplacedChars(s: string)
    requires AllOf(s, IsNameChar)
    ensures AllOf(Lower(Replaced(s)), IsNormalChar) && (Replaced(s) == [] <==> s == [])
  {
    if s != [] {
      var k := if |s| >= 2 && s[0] == '-' && s[1] == '-' then 2 else 1;
      ReplacedChars(s[k..]);
      var r, head := Replaced(s), if IsSeparator(s[0]) then '-' else s[0];
      assert r == [head] + Replaced(s[k..]);
      assert IsNormalChar(LowerChar(head));
      assert forall i :: 1 <= i < |r| ==> Lower(r)[i] == Lower(Replaced(s[k..]))[i - 1];
    }
  }

  lemma {:induction false} ReplacedEnds(s: string)
    requires s != [] && IsAlnum(s[|s| - 1])
    ensures Replaced(s) != [] && Replaced(s)[|Replaced(s)| - 1] == s[|s| - 1]
    ensures IsAlnum(s[0]) ==> Replaced(s)[0] == s[0]
  {
    var k := if |s| >= 2 && s[0] == '-' && s[1] == '-' then 2 else 1;
    if k < |s| {
      assert s[k..][|s| - k - 1] == s[|s| - 1];
      ReplacedEnds(s[k..]);
    }
  }

  /** A normal form is a name again, of lower-case letters, digits and dashes. */
  lemma NormalShape(name: string)
    requires IsName(name)
    ensures IsName(NormalizeDistName(name)) && AllOf(NormalizeDistName(name), IsNormalChar)
  {
    TrimSpaceKeeps(name);
    ReplacedChars(name);
    ReplacedEnds(name);
    var r, n := Replaced(name), NormalizeDistName(name);
    assert n == Lower(r) && |n| == |r|;
    forall i | 0 <= i < |n|
      ensures IsNameChar(n[i])
    {
      assert IsNormalChar(n[i]);
    }
  }

  lemma DoubleDashTail(s: string)
    requires s != [] && !(|s| >= 2 && s[0] == '-' && s[1] == '-')
    ensures DoubleDash(s) <==> DoubleDash(s[1..])
  {
    var t := s[1..];
    assert forall i :: 0 <= i < |t| ==> t[i] == s[i + 1];
    if DoubleDash(s) {
      var i :| 0 <= i < |s| - 1 && s[i] == '-' && s[i + 1] == '-';
      assert t[i - 1] == '-' && t[i] == '-';
    }
    if DoubleDash(t) {
      var i :| 0 <= i < |t| - 1 && t[i] == '-' && t[i + 1] == '-';
      assert s[i + 1] == '-' && s[i + 2] == '-';
    }
  }

  lemma {:induction false} ReplacedKeeps(s: string)
    requires AllOf(s, IsNormalChar)
    ensures |Replaced(s)| <= |s|
    ensures DoubleDash(s) ==> |Replaced(s)| < |s|
    ensures !DoubleDash(s) ==> Replaced(s) == s
  {
    if s != [] {
      if |s| >= 2 && s[0] == '-' && s[1] == '-' {
        ReplacedKeeps(s[2..]);
        assert DoubleDash(s);
      } else {
        hide DoubleDash;
        ReplacedKeeps(s[1..]);
        DoubleDashTail(s);
        assert s == [s[0]] + s[1..];
      }
    }
  }

  /** Normalising a normal form changes it iff it holds two dashes in a row. */
  lemma NormalizeTwice(name: string)
    requires IsName(name) && AllOf(name, IsNormalChar)
    ensures NormalizeDistName(name) == name <==> !DoubleDash(name)
  {
    TrimSpaceKeeps(name);
    ReplacedKeeps(name);
  }

  // --- PEP 503 ------------------------------------------------------------------------

  /** The normal form of PEP 503: every run of separators is one dash. */
  function Pep503(s: string): string {
    if s == [] then []
    else if IsSeparator(s[0]) then ['-'] + Pep503(s[Span(s, IsSeparator)..])
    else [LowerChar(s[0])] + Pep503(s[1..])
  }

  /** The run of separators at the front is a single one, or a pair of dashes. */
  predicate ShortRun(s: string) {
    var n := Span(s, IsSeparator);
    n == 1 || (n == 2 && s[0] == '-' && s[1] == '-')
  }

  predicate ShortRuns(s: string) {
    if s == [] then true
    else if IsSeparator(s[0]) then ShortRun(s) && ShortRuns(s[Span(s, IsSeparator)..])
    else ShortRuns(s[1..])
  }

  function Dashes(n: nat): string {
    seq(n, _ => '-')
  }

  /** What one pass makes of a run of separators. */
  lemma {:induction false} ReplacedRun(s: string) returns (k: nat)
    requires s != [] && IsSeparator(s[0])
    ensures k >= 1 && Replaced(s) == Dashes(k) + Replaced(s[Span(s, IsSeparator)..])
    ensures k == 1 <==> ShortRun(s)
  {
    hide Dashes, Span, AllOf, Replaced;
    var n := Span(s, IsSeparator);
    var step := if |s| >= 2 && s[0] == '-' && s[1] == '-' then 2 else 1;
    var rest := Replaced(s[n..]);
    ReplacedStep(s);
    SpanFrom(s, step);
    DashesCons(0, rest);
    if n == step {
      k := 1;
    } else {
      SpanHead(s[step..]);
      var j := ReplacedRun(s[step..]);
      k := j + 1;
      assert s[step..][n - step..] == s[n..];
      DashesCons(j, rest);
    }
  }

  lemma ReplacedStep(s: string)
    requires s != [] && IsSeparator(s[0])
    ensures Replaced(s) == ['-'] + Replaced(s[if |s| >= 2 && s[0] == '-' && s[1] == '-' then 2 else 1..])
  {
  }

  lemma SpanHead(s: string)
    ensures Span(s, IsSeparator) > 0 <==> s != [] && IsSeparator(s[0])
  {
  }

  lemma DashesCons(j: nat, rest: string)
    ensures Dashes(j + 1) + rest == ['-'] + (Dashes(j) + rest)
    ensures Dashes(0) + rest == rest
  {
  }

  lemma SpanFrom(s: string, k: nat)
    requires k <= |s| && k <= 2 && forall i :: 0 <= i < k ==> IsSeparator(s[i])
    ensures Span(s, IsSeparator) == k + Span(s[k..], IsSeparator)
  {
    if k == 2 {
      assert s[1..][1..] == s[2..];
    }
  }

  /** The normal form is the one of PEP 503 iff no run of separators is longer than it may be. */
  lemma {:induction false} NormalIsPep503Iff(s: string)
    ensures Lower(Replaced(s)) == Pep503(s) <==> ShortRuns(s)
  {
    if s == [] {
    } else if IsSeparator(s[0]) {
      var n := Span(s, IsSeparator);
      var k := ReplacedRun(s);
      NormalIsPep503Iff(s[n..]);
      LowerRun(k, Replaced(s[n..]));
      var rest, pep := Lower(Replaced(s[n..])), Pep503(s[n..]);
      PepStart(s[n..]);
      hide Replaced, Span, ShortRun;
      assert Pep503(s) == ['-'] + pep;
      SameRun(k, rest, pep);
    } else {
      NormalIsPep503Iff(s[1..]);
      LowerHead(s[0], Replaced(s[1..]));
      var rest, pep := Lower(Replaced(s[1..])), Pep503(s[1..]);
      assert Lower(Replaced(s)) == [LowerChar(s[0])] + rest && Pep503(s) == [LowerChar(s[0])] + pep;
      assert ([LowerChar(s[0])] + rest)[1..] == rest && ([LowerChar(s[0])] + pep)[1..] == pep;
    }
  }

  /** Dashes before what does not begin with a dash are told apart by their number. */
  lemma SameRun(k: nat, rest: string, pep: string)
    requires k >= 1 && (pep == [] || pep[0] != '-')
    ensures Dashes(k) + rest == ['-'] + pep <==> k == 1 && rest == pep
  {
    var a, b := Dashes(k) + rest, ['-'] + pep;
    if k == 1 {
      assert Dashes(1) == ['-'] && a[1..] == rest && b[1..] == pep;
    } else {
      assert a[1] == '-' && (|b| > 1 ==> b[1] == pep[0]);
    }
  }

  lemma PepStart(s: string)
    requires s != [] ==> !IsSeparator(s[0])
    ensures Pep503(s) == [] || Pep503(s)[0] != '-'
  {
  }

  lemma LowerHead(ch: char, t: string)
    ensures Lower([ch] + t) == [LowerChar(ch)] + Lower(t)
  {
  }

  /** Not every name is normalised as PEP 503 has it: two underscores stay two dashes. */
  lemma TwoUnderscoresStay()
    ensures NormalizeDistName("a__b") == "a--b" && Pep503("a__b") == "a-b"
  {
    var s := "a__b";
    TrimSpaceKeeps(s);
    assert s[1..] == "__b" && s[1..][1..] == "_b" && s[1..][1..][1..] == "b" && "b"[1..] == "";
    assert Replaced("b") == "b" && Replaced("_b") == "-b" && Replaced("__b") == "--b";
    assert Replaced(s) == "a--b" && Lower("a--b") == "a--b";
    assert Span("b", IsSeparator) == 0 && Span("_b", IsSeparator) == 1 && Span("__b", IsSeparator) == 2;
    assert "__b"[2..] == "b" && Pep503("b") == "b" && Pep503("__b") == "-b";
  }

  lemma LowerRun(k: nat, t: string)
    ensures Lower(Dashes(k) + t) == Dashes(k) + Lower(t)
  {
  }

  // --- Versions -----------------------------------------------------------------------

  ghost predicate PinAt(parts: seq<string>, i: nat) {
    i < |parts| && ReadClause(parts[i]).Ok? && IsPin(ReadClause(parts[i]).value)
  }

  /** The part is `==` with a version that is no wildcard. */
  ghost predicate ExactAt(parts: seq<string>, i: nat) {
    PinAt(parts, i) && '*' !in ReadClause(parts[i]).value.version
  }

  ghost predicate AllRead(parts: seq<string>) {
    forall i :: 0 <= i < |parts| ==> ReadClause(parts[i]).Ok?
  }

  ghost predicate OnePinAtMost(parts: seq<string>) {
    forall i, j :: 0 <= i < j < |parts| ==> !(PinAt(parts, i) && PinAt(parts, j))
  }

  ghost predicate NoPin(parts: seq<string>) {
    forall i :: 0 <= i < |parts| ==> !PinAt(parts, i)
  }

  lemma TailPins(parts: seq<string>)
    requires parts != []
    ensures forall i: nat :: PinAt(parts[1..], i) == PinAt(parts, i + 1)
    ensures forall i: nat :: ExactAt(parts[1..], i) == ExactAt(parts, i + 1)
    ensures AllRead(parts) <==> ReadClause(parts[0]).Ok? && AllRead(parts[1..])
    ensures NoPin(parts) <==> !PinAt(parts, 0) && NoPin(parts[1..])
    ensures OnePinAtMost(parts) <==> OnePinAtMost(parts[1..]) && (PinAt(parts, 0) ==> NoPin(parts[1..]))
  {
    hide ReadClause;
    var rest := parts[1..];
    forall i: nat
      ensures PinAt(rest, i) == PinAt(parts, i + 1) && ExactAt(rest, i) == ExactAt(parts, i + 1)
    {
    }
    assert forall i :: 1 <= i < |parts| ==> parts[i] == rest[i - 1] && PinAt(parts, i) == PinAt(rest, i - 1);
  }

  /** The clause list is accepted iff all parts can be read and at most one is `==`; the version is the exact one's. */
  lemma {:induction false} ReadVersionsMeans(parts: seq<string>, v: Versions)
    requires v.pins <= 1
    ensures var r := ReadVersions(parts, v);
            && (r.Ok? <==> AllRead(parts) && OnePinAtMost(parts) && (v.pins == 1 ==> NoPin(parts)))
            && (r.Ok? ==> r.value.pins == if NoPin(parts) then v.pins else 1)
            && (r.Ok? ==> forall i: nat :: ExactAt(parts, i) ==> r.value.version == ReadClause(parts[i]).value.version)
            && (r.Ok? && (forall i: nat :: !ExactAt(parts, i)) ==> r.value.version == v.version)
  {
    hide ReadClause;
    if parts != [] {
      TailPins(parts);
      var c := ReadClause(parts[0]);
      if c.Ok? && !(IsPin(c.value) && v.pins > 0) {
        ReadVersionsMeans(parts[1..], Counted(v, c.value));
        assert NoPin(parts[1..]) ==> forall i: nat :: !ExactAt(parts[1..], i);
        assert forall i: nat :: ExactAt(parts[1..], i) ==> ExactAt(parts, i + 1);
        assert !ExactAt(parts, 0) ==> Counted(v, c.value).version == v.version;
        var r := ReadVersions(parts, v);
        forall i: nat | ExactAt(parts, i) && r.Ok?
          ensures r.value.version == ReadClause(parts[i]).value.version
        {
          if i > 0 {
            assert ExactAt(parts[1..], i - 1) && parts[1..][i - 1] == parts[i];
          } else {
            assert PinAt(parts, 0) && NoPin(parts[1..]);
          }
        }
      }
    }
  }

  /**
   A requirement is pinned iff one of its parts is `==` with a version that is no wildcard, and that is the
   version.
   */
  lemma PinnedIff(req: Requirement)
    requires req.version == [] && req.constraint != []
    ensures var r, parts := WithVersion(req), SplitComma(req.constraint);
            && (r.Ok? <==> AllRead(parts) && OnePinAtMost(parts))
            && (r.Ok? ==> (r.value.pinned <==> exists i: nat :: ExactAt(parts, i)))
            && (r.Ok? ==> forall i: nat :: ExactAt(parts, i) ==> r.value.version == ReadClause(parts[i]).value.version)
  {
    hide ReadClause;
    var parts := SplitComma(req.constraint);
    ReadVersionsMeans(parts, NO_VERSIONS);
    forall i: nat | ExactAt(parts, i)
      ensures ReadClause(parts[i]).value.version != []
    {
      ClauseShape(parts[i]);
    }
  }

  ghost predicate IsOperator(op: string) {
    op != [] && Operator(op) == op
  }

  lemma ClauseShape(part: string)
    requires ReadClause(part).Ok?
    ensures IsOperator(ReadClause(part).value.op) && IsVersion(ReadClause(part).value.version)
  {
    hide IsVersion, TrimSpace, TrimLeft;
  }

  lemma OperatorAhead(op: string, version: string)
    requires IsOperator(op) && IsVersion(version)
    ensures Operator(op + version) == op
  {
    assert (op + version)[|op|] == version[0];
  }

  /** A clause written without blanks is read as it was. */
  lemma ClauseReadsBack(c: Clause)
    requires IsOperator(c.op) && IsVersion(c.version)
    ensures ReadClause(c.op + c.version) == Ok(c)
  {
    hide IsOperator, Operator, TrimSpace;
    var text := c.op + c.version;
    OperatorEnds(c.op);
    assert text[0] == c.op[0] && text[|text| - 1] == c.version[|c.version| - 1];
    assert IsVersionChar(text[|text| - 1]);
    TrimSpaceKeeps(text);
    OperatorAhead(c.op, c.version);
    assert text[|c.op|..] == c.version;
    assert TrimLeft(c.version, IsGap) == c.version;
  }

  lemma OperatorEnds(op: string)
    requires IsOperator(op)
    ensures op != [] && !IsSpace(op[0]) && ',' !in op
  {
  }

  /** The first comma, by its place. */
  lemma {:induction false} FirstComma(s: string, i: nat)
    requires i < |s| && s[i] == ',' && ',' !in s[..i]
    ensures Find(s, ",") == Some(i)
    decreases i
  {
    if i > 0 {
      assert s[0] == s[..i][0] && s[1..][..i - 1] == s[..i][1..];
      FirstComma(s[1..], i - 1);
    } else {
      assert s[..1] == ",";
    }
  }

  lemma SplitAt(s: string, i: nat)
    requires i < |s| && s[i] == ',' && ',' !in s[..i]
    ensures SplitComma(s) == [s[..i]] + SplitComma(s[i + 1..])
  {
    FirstComma(s, i);
  }

  lemma OnePiece(s: string)
    requires ',' !in s
    ensures SplitComma(s) == [s]
  {
    FindAbsent(s, ",", 0);
  }

  lemma {:induction false} SplitSnoc(a: string, b: string)
    requires ',' !in b
    ensures SplitComma(a + "," + b) == SplitComma(a) + [b]
    decreases |a|
  {
    hide SplitComma, Find;
    var s := a + "," + b;
    var found := Find(a, ",");
    if found.Some? {
      var i := found.value;
      FindsFirst(a, i);
      assert s[..i] == a[..i] && s[i + 1..] == a[i + 1..] + "," + b;
      SplitAt(s, i);
      SplitAt(a, i);
      SplitSnoc(a[i + 1..], b);
    } else {
      NoComma(a);
      assert s[..|a|] == a && s[|a| + 1..] == b;
      SplitAt(s, |a|);
      OnePiece(a);
      OnePiece(b);
    }
  }

  lemma {:induction false} NoComma(a: string)
    requires Find(a, ",").None?
    ensures ',' !in a
  {
    if a != [] {
      assert a[..1] != ",";
      NoComma(a[1..]);
    }
  }

  lemma {:induction false} FindsFirst(a: string, i: nat)
    requires Find(a, ",") == Some(i)
    ensures i < |a| && a[i] == ',' && ',' !in a[..i]
    decreases i
  {
    if i > 0 {
      assert a[..1] != ",";
      FindsFirst(a[1..], i - 1);
      assert a[..i] == [a[0]] + a[1..][..i - 1];
    }
  }

  // --- The clauses as they are kept ---------------------------------------------------

  function ClauseText(c: Clause): string {
    c.op + c.version
  }

  function Texts(clauses: seq<Clause>): seq<string> {
    seq(|clauses|, i requires 0 <= i < |clauses| => ClauseText(clauses[i]))
  }

  ghost predicate WellFormed(clauses: seq<Clause>) {
    forall i :: 0 <= i < |clauses| ==> IsOperator(clauses[i].op) && IsVersion(clauses[i].version)
  }

  lemma {:induction false} JoinedSplits(clauses: seq<Clause>)
    requires clauses != [] && WellFormed(clauses)
    ensures SplitComma(Joined(clauses)) == Texts(clauses)
    decreases |clauses|
  {
    hide IsOperator, IsVersion, Joined, SplitComma;
    var n := |clauses| - 1;
    var front, c := clauses[..n], clauses[n];
    JoinedSnoc(front, c);
    assert front + [c] == clauses;
    OneText(c);
    if n > 0 {
      JoinedSplits(front);
      SplitSnoc(Joined(front), ClauseText(c));
      assert Joined(front) + "," + c.op + c.version == Joined(front) + "," + ClauseText(c);
      assert Texts(clauses) == Texts(front) + [ClauseText(c)];
    } else {
      assert "" + c.op + c.version == ClauseText(c) && Texts(clauses) == [ClauseText(c)];
    }
  }

  lemma OneText(c: Clause)
    requires IsOperator(c.op) && IsVersion(c.version)
    ensures ',' !in ClauseText(c) && SplitComma(ClauseText(c)) == [ClauseText(c)]
  {
    OperatorEnds(c.op);
    assert ',' !in c.version;
    OnePiece(ClauseText(c));
  }

  /** The clauses kept are those of the parts, in order. */
  lemma {:induction false} ClausesKept(parts: seq<string>, v: Versions)
    requires ReadVersions(parts, v).Ok? && WellFormed(v.clauses)
    ensures var w := ReadVersions(parts, v).value;
            && v.clauses <= w.clauses && WellFormed(w.clauses) && |w.clauses| == |v.clauses| + |parts|
            && ReadVersions(Texts(w.clauses[|v.clauses|..]), v) == Ok(w)
  {
    hide ReadClause, IsOperator, IsVersion;
    if parts != [] {
      var c := ReadClause(parts[0]).value;
      ClauseShape(parts[0]);
      ClausesKept(parts[1..], Counted(v, c));
      var w := ReadVersions(parts, v).value;
      var texts := Texts(w.clauses[|v.clauses|..]);
      assert w.clauses[|v.clauses|] == c;
      ClauseReadsBack(c);
      assert texts[0] == ClauseText(c);
      assert texts[1..] == Texts(w.clauses[|v.clauses| + 1..]);
    }
  }

  /** Reading the constraint as it is kept gives the same requirement again. */
  lemma ConstraintReadsBack(req: Requirement)
    requires WithVersion(req).Ok? && req.constraint != []
    ensures WithVersion(req.(constraint := WithVersion(req).value.constraint)) == WithVersion(req)
  {
    hide ReadClause, IsOperator, IsVersion;
    var parts := SplitComma(req.constraint);
    ClausesKept(parts, NO_VERSIONS);
    var w := ReadVersions(parts, NO_VERSIONS).value;
    assert w.clauses[0..] == w.clauses;
    JoinedSplits(w.clauses);
    JoinedNotEmpty(w.clauses);
  }

  lemma JoinedNotEmpty(clauses: seq<Clause>)
    requires clauses != [] && WellFormed(clauses)
    ensures Joined(clauses) != []
  {
    hide Operator;
    assert IsOperator(clauses[|clauses| - 1].op);
  }

  // --- The manifest line --------------------------------------------------------------

  /** What a manifest line is made of. */
  predicate IsLineChar(ch: char) {
    IsNameChar(ch) || IsManifestVersionChar(ch) || ch == '='
  }

  ghost predicate IsLine(name: string, version: string) {
    IsName(name) && IsManifestVersion(version)
  }

  function Line(name: string, version: string): string {
    name + "==" + version
  }

  lemma LineChars(name: string, version: string)
    requires IsLine(name, version)
    ensures var s := Line(name, version);
            && s[0] == name[0] && AllOf(s, IsLineChar) && s[|s| - 1] == version[|version| - 1]
            && s[..|name|] == name && s[|name|..] == "==" + version && s[|name| + 2..] == version
  {
  }

  /** No blank, comment, marker, link or bracket can be found in it. */
  lemma NothingElseInLine(s: string, sub: string, k: nat)
    requires AllOf(s, IsLineChar) && k < |sub| && !IsLineChar(sub[k])
    ensures Find(s, sub).None?
  {
    FindAbsent(s, sub, k);
  }

  lemma {:induction false} SpanAt(s: string, p: char -> bool, n: nat)
    requires n <= |s| && AllOf(s[..n], p) && (n < |s| ==> !p(s[n]))
    ensures Span(s, p) == n
    decreases n
  {
    if n > 0 {
      assert p(s[..n][0]) && s[..n][1..] == s[1..][..n - 1];
      assert forall i :: 0 <= i < n - 1 ==> s[..n][1..][i] == s[..n][i + 1];
      SpanAt(s[1..], p, n - 1);
    }
  }

  lemma LineIsNoLink(name: string, version: string)
    requires IsLine(name, version)
    ensures !IsVcs(Line(name, version))
  {
    var s := Line(name, version);
    LineChars(name, version);
    forall k | 0 <= k < |SCHEMES|
      ensures !HasScheme(s, SCHEMES[k])
    {
      var scheme := SCHEMES[k];
      assert ("@" + scheme)[0] == '@' && (" " + scheme)[0] == ' ';
      NothingElseInLine(s, "@" + scheme, 0);
      NothingElseInLine(s, " " + scheme, 0);
      SchemeEnds(scheme, k);
      if scheme <= s {
        NoPlusAhead(name, version, |scheme| - 1);
      }
    }
  }

  lemma SchemeEnds(scheme: string, k: nat)
    requires k < |SCHEMES| && scheme == SCHEMES[k]
    ensures |scheme| >= 3 && scheme[|scheme| - 1] == '+' && '=' !in scheme
  {
  }

  /** A `+` stands behind the `==`. */
  lemma NoPlusAhead(name: string, version: string, k: nat)
    requires IsLine(name, version)
    ensures var s := Line(name, version); k < |s| && s[k] == '+' ==> '=' in s[..k]
  {
    var s := Line(name, version);
    if k < |s| && s[k] == '+' {
      assert k < |name| ==> IsNameChar(name[k]);
      assert s[..k][|name|] == '=';
    }
  }

  /** A manifest line is read as a pin of exactly that version. */
  lemma LineReads(name: string, version: string)
    requires IsLine(name, version)
    ensures var s := Line(name, version);
            Parse(s) == Ok(Requirement(s, NormalizeDistName(name), [], "==" + version, version, "", "", true))
  {
    var s := Line(name, version);
    LineChars(name, version);
    assert IsLineChar(s[0]) && IsLineChar(s[|s| - 1]);
    TrimSpaceKeeps(s);
    NothingElseInLine(s, " #", 0);
    NothingElseInLine(s, ";", 0);
    NothingElseInLine(s, "@", 0);
    LineIsNoLink(name, version);
    LineBody(name, version);
    hide IsVcs, IndexRequirement, TrimSpace;
  }

  lemma LineBody(name: string, version: string)
    requires IsLine(name, version)
    ensures var s := Line(name, version);
            IndexRequirement(Blank(s), s) ==
            Ok(Requirement(s, NormalizeDistName(name), [], "==" + version, version, "", "", true))
  {
    hide NormalizeDistName, WithVersion;
    var s, rest := Line(name, version), "==" + version;
    LineChars(name, version);
    SpanAt(s, IsNameChar, |name|);
    assert TrimLeft(rest, IsIndent) == rest;
    NothingElseInLine(name, "[", 0);
    assert rest[|rest| - 1] == version[|version| - 1] && IsManifestVersionChar(version[|version| - 1]);
    TrimSpaceKeeps(rest);
    PinReads(Blank(s).(name := NormalizeDistName(name)), version);
  }

  lemma PinReads(req: Requirement, version: string)
    requires IsManifestVersion(version)
    ensures WithVersion(req.(constraint := "==" + version)) ==
            Ok(req.(constraint := "==" + version, version := version, pinned := true))
  {
    hide ReadClause, SplitComma, Find, IsOperator, Operator;
    var c, text := Clause("==", version), "==" + version;
    PinClause(version);
    assert [text][1..] == [] && [] + [c] == [c];
    assert ReadVersions([], Versions([c], 1, version)) == Ok(Versions([c], 1, version));
    assert ReadVersions([text], NO_VERSIONS) == Ok(Versions([c], 1, version));
    assert Joined([c]) == text;
  }

  lemma PinClause(version: string)
    requires IsManifestVersion(version)
    ensures var text := "==" + version;
            && ReadClause(text) == Ok(Clause("==", version)) && SplitComma(text) == [text] && '*' !in version
  {
    var c := Clause("==", version);
    assert IsVersion(version) && ClauseText(c) == "==" + version;
    OneText(c);
    ClauseReadsBack(c);
  }

  /** The name of a parsed requirement is a normal form. */
  ghost predicate NormalName(r: Result<Requirement, Error>) {
    r.Ok? ==> IsName(r.value.name) && AllOf(r.value.name, IsNormalChar)
  }

  lemma ParsedName(s: string)
    ensures NormalName(Parse(s))
  {
    hide NormalName, BodyRequirement, Find, TrimSpace, Commentless;
    forall req, body
      ensures NormalName(BodyRequirement(req, body))
    {
      BodyName(req, body);
    }
    NoNameYet();
  }

  lemma NoNameYet()
    ensures forall e :: NormalName(Err(e))
  {
  }

  lemma BodyName(req: Requirement, body: string)
    ensures NormalName(BodyRequirement(req, body))
  {
    hide IsVcs, NameExtras, Find, TrimSpace, Span, WithVersion, IsName;
    forall part, rest
      ensures NormalName(NamedRequirement(req, part, rest))
    {
      PartName(req, part, rest);
    }
    var at := Find(body, "@");
    if at.Some? && NameExtras(TrimSpace(body[..at.value])).Ok? {
      NamedName(TrimSpace(body[..at.value]));
    }
  }

  lemma PartName(req: Requirement, part: string, rest: string)
    ensures NormalName(NamedRequirement(req, part, rest))
  {
    hide NameExtras, ReadVersions, IsName, TrimSpace, SplitComma, Joined;
    if NameExtras(part).Ok? {
      NamedName(part);
    }
  }

  lemma NamedName(part: string)
    requires NameExtras(part).Ok?
    ensures IsName(NameExtras(part).value.0) && AllOf(NameExtras(part).value.0, IsNormalChar)
  {
    var open := Find(part, "[");
    NormalShape(if open.None? then part else TrimSpace(part[..open.value]));
    hide IsName, NormalizeDistName, Extras, TrimSpace;
  }

  /**
   A manifest line is read as the pin it was made from: same version, no extras, marker or link.  Its
   name, and so the line made from it again, is the same iff the name has no two dashes in a row.
   */
  lemma ManifestLineReadsBack(s: string)
    requires Parse(s).Ok? && ManifestSpec(Parse(s).value).Some?
    ensures var r, spec := Parse(s).value, ManifestSpec(Parse(s).value).value;
            && Parse(spec) ==
               Ok(Requirement(spec, NormalizeDistName(r.name), [], "==" + r.version, r.version, "", "", true))
            && (Parse(spec).value.name == r.name <==> !DoubleDash(r.name))
            && (ManifestSpec(Parse(spec).value) == Some(spec) <==> !DoubleDash(r.name))
  {
    hide Parse, IsName, NormalizeDistName, IsManifestVersion;
    var r := Parse(s).value;
    ParsedName(s);
    SpecIsLine(r);
    LineReads(r.name, r.version);
    NormalizeTwice(r.name);
    NormalShape(r.name);
    LineMatches(NormalizeDistName(r.name), r.version);
    assert |NormalizeDistName(r.name)| == |r.name| ==>
             Line(NormalizeDistName(r.name), r.version)[..|r.name|] == NormalizeDistName(r.name);
    assert Line(r.name, r.version)[..|r.name|] == r.name;
  }

  lemma SpecIsLine(r: Requirement)
    requires IsName(r.name) && ManifestSpec(r).Some?
    ensures IsLine(r.name, r.version) && ManifestSpec(r) == Some(Line(r.name, r.version))
  {
    var spec := Line(r.name, r.version);
    assert spec[..|r.name|] == r.name && spec[|r.name| + 2..] == r.version && spec[|r.name|] == '=';
    SpanAt(spec, IsNameChar, |r.name|);
  }

  lemma LineMatches(name: string, version: string)
    requires IsLine(name, version)
    ensures MatchesManifest(Line(name, version))
  {
    LineChars(name, version);
    SpanAt(Line(name, version), IsNameChar, |name|);
  }
}

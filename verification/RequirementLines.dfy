/**
 How requirement lines are written, and what the parser makes of them: name, extras, versions or link,
 marker, whatever blanks and comment stand around them.
 */
module RequirementLines {
  import opened Base
  import opened RequirementText
  import opened Requirement
  import opened RequirementLaws

  // --- The written form ---------------------------------------------------------------

  /** An item of a list with the blanks around it. */
  datatype Extra = Extra(left: string, name: string, right: string)

  datatype Part = Part(left: string, clause: Clause, mid: string, right: string)

  /** What follows the name: version parts, or a link. */
  datatype Target = Parts(pad: string, parts: seq<Part>) | Link(pad: string, gap: string, url: string)

  /** The brackets with the extras and the blanks inside them; no extras mean no brackets. */
  datatype Written = Written(before: string, name: string, gap: string, open: string, extras: seq<Extra>, close: string,
                             target: Target, marker: Option<(string, string, string)>,
                             comment: Option<(string, string)>, after: string)

  function ExtrasText(extras: seq<Extra>): string {
    if extras == [] then [] else
    var e := extras[0];
    e.left + e.name + e.right + if |extras| == 1 then [] else [','] + ExtrasText(extras[1..])
  }

  function PartText(p: Part): string {
    p.left + (p.clause.op + p.mid + p.clause.version) + p.right
  }

  function PartsText(parts: seq<Part>): string {
    if parts == [] then [] else
    PartText(parts[0]) + if |parts| == 1 then [] else [','] + PartsText(parts[1..])
  }

  function BracketText(w: Written): string {
    if w.extras == [] then [] else ['['] + (w.open + ExtrasText(w.extras) + w.close) + [']']
  }

  function NameText(w: Written): string {
    w.name + if w.extras == [] then [] else w.gap + BracketText(w)
  }

  function TargetText(t: Target): string {
    match t
    case Parts(pad, parts) => if parts == [] then [] else pad + PartsText(parts)
    case Link(pad, gap, url) => pad + ['@'] + gap + url
  }

  /** The line without marker, comment and the blanks around it. */
  function CoreText(w: Written): string {
    NameText(w) + TargetText(w.target)
  }

  function MarkerText(m: Option<(string, string, string)>): string {
    if m.None? then [] else m.value.0 + [';'] + m.value.1 + m.value.2
  }

  function CommentText(c: Option<(string, string)>): string {
    if c.None? then [] else c.value.0 + [' ', '#'] + c.value.1
  }

  function LineText(w: Written): string {
    w.before + (CoreText(w) + MarkerText(w.marker) + CommentText(w.comment)) + w.after
  }

  // --- What it stands for -------------------------------------------------------------

  function ExtraNames(extras: seq<Extra>): seq<string> {
    if extras == [] then [] else [NormalizeExtra(extras[0].name)] + ExtraNames(extras[1..])
  }

  function Clauses(parts: seq<Part>): seq<Clause> {
    if parts == [] then [] else [parts[0].clause] + Clauses(parts[1..])
  }

  /** How many parts are `==`. */
  function Pins(clauses: seq<Clause>): nat {
    if clauses == [] then 0 else (if clauses[0].op == "==" then 1 else 0) + Pins(clauses[1..])
  }

  /** The version of the part that is `==` with a version that is no wildcard, if there is one. */
  function Exact(clauses: seq<Clause>): string {
    if clauses == [] then []
    else if clauses[0].op == "==" && '*' !in clauses[0].version then clauses[0].version
    else Exact(clauses[1..])
  }

  function Means(w: Written): Result<Requirement, Error> {
    var named := Blank(LineText(w)).(name := NormalizeDistName(w.name), extras := ExtraNames(w.extras),
                                     marker := if w.marker.None? then [] else w.marker.value.2);
    match w.target
    case Link(_, _, url) => Ok(named.(url := url))
    case Parts(_, parts) =>
      var clauses := Clauses(parts);
      if Pins(clauses) > 1 then Err(TwoPins)
      else Ok(named.(constraint := Joined(clauses), version := Exact(clauses), pinned := Exact(clauses) != []))
  }

  // --- When it is well written --------------------------------------------------------

  predicate Blanks(s: string) {
    AllOf(s, IsSpace)
  }

  /** Nothing to trim, and something left. */
  predicate Trimmed(s: string) {
    s != [] && !IsSpace(s[0]) && !IsSpace(s[|s| - 1])
  }

  ghost predicate ExtrasOk(extras: seq<Extra>) {
    && (forall i :: 0 <= i < |extras| ==> IsName(extras[i].name) && Blanks(extras[i].left) && Blanks(extras[i].right))
    && (extras != [] ==> extras[0].left == [] && extras[|extras| - 1].right == [])
  }

  ghost predicate PartOk(p: Part) {
    && IsOperator(p.clause.op) && IsVersion(p.clause.version) && Blanks(p.left) && Blanks(p.right)
    && AllOf(p.mid, IsGap)
  }

  ghost predicate PartsOk(parts: seq<Part>) {
    && (forall i :: 0 <= i < |parts| ==> PartOk(parts[i]))
    && (parts != [] ==> parts[0].left == [] && parts[|parts| - 1].right == [])
  }

  /** No `#` stands behind a blank, so that no comment begins here. */
  ghost predicate HashFree(y: string) {
    forall i :: 0 < i < |y| && y[i] == '#' ==> y[i - 1] != ' '
  }

  ghost predicate TargetOk(t: Target) {
    match t
    case Parts(pad, parts) => PartsOk(parts) && Blanks(pad)
    case Link(pad, gap, url) =>
      && Blanks(pad) && Blanks(gap) && Trimmed(url) && ';' !in url && HashFree(gap + url)
      && (forall i :: 0 <= i < |url| ==> url[i] != ' ' && url[i] != '\t')
  }

  ghost predicate LineOk(w: Written) {
    && Blanks(w.before) && IsName(w.name) && ExtrasOk(w.extras) && Blanks(w.open) && Blanks(w.close)
    && (if w.target.Link? then Blanks(w.gap) else AllOf(w.gap, IsIndent)) && TargetOk(w.target) && !IsVcs(CoreText(w))
    && (w.marker.Some? ==> Blanks(w.marker.value.0) && Blanks(w.marker.value.1) && Trimmed(w.marker.value.2)
                           && HashFree(MarkerText(w.marker)))
    && (w.comment.Some? ==> Blanks(w.comment.value.0)
                            && (w.comment.value.1 != [] ==> !IsSpace(w.comment.value.1[|w.comment.value.1| - 1])))
    && Blanks(w.after)
  }

  // --- Trimming and finding -----------------------------------------------------------

  lemma {:induction false} SpanOver(a: string, b: string, p: char -> bool)
    requires AllOf(a, p) && (b == [] || !p(b[0]))
    ensures Span(a + b, p) == |a| && TrimLeft(a + b, p) == b
  {
    assert (a + b)[..|a|] == a;
    SpanAt(a + b, p, |a|);
  }

  lemma {:induction false} RightOver(a: string, b: string, p: char -> bool)
    requires AllOf(b, p) && (a == [] || !p(a[|a| - 1]))
    ensures TrimRight(a + b, p) == a
    decreases |b|
  {
    if b == [] {
      assert a + b == a;
    } else {
      assert (a + b)[..|a + b| - 1] == a + b[..|b| - 1];
      RightOver(a, b[..|b| - 1], p);
    }
  }

  lemma {:induction false} TrimPads(a: string, s: string, b: string)
    requires Blanks(a) && Blanks(b) && Trimmed(s)
    ensures TrimSpace(a + s + b) == s
  {
    assert a + s + b == a + (s + b);
    SpanOver(a, s + b, IsSpace);
    RightOver(s, b, IsSpace);
  }

  /** `sub` stands at `i` and cannot stand before, where its character `k` is missing. */
  lemma {:induction false} FindAt(s: string, sub: string, k: nat, i: nat)
    requires k < |sub| && i + |sub| <= |s| && s[i..i + |sub|] == sub && sub[k] !in s[..i + k]
    ensures Find(s, sub) == Some(i)
    decreases i
  {
    if i == 0 {
      assert s[..|sub|] == s[0..0 + |sub|];
    } else {
      assert s[..i + k][k] == s[k] != sub[k];
      var t := s[1..];
      assert t[i - 1..i - 1 + |sub|] == s[i..i + |sub|];
      assert t[..i - 1 + k] == s[..i + k][1..];
      FindAt(t, sub, k, i - 1);
    }
  }

  // --- Extras -------------------------------------------------------------------------

  lemma {:induction false} SplitCons(a: string, b: string)
    requires ',' !in a
    ensures SplitComma(a + [','] + b) == [a] + SplitComma(b)
  {
    var s := a + [','] + b;
    assert s[..|a|] == a && s[|a| + 1..] == b && s[|a|] == ',';
    SplitAt(s, |a|);
  }

  function Pieces(extras: seq<Extra>): seq<string> {
    if extras == [] then [] else [extras[0].left + extras[0].name + extras[0].right] + Pieces(extras[1..])
  }

  ghost predicate ExtraOk(e: Extra) {
    IsName(e.name) && Blanks(e.left) && Blanks(e.right)
  }

  lemma {:induction false} ExtraChars(e: Extra)
    requires ExtraOk(e)
    ensures var s := e.left + e.name + e.right;
            ',' !in s && ']' !in s && '[' !in s && ';' !in s && '@' !in s && '#' !in s
    ensures TrimSpace(e.left + e.name + e.right) == e.name && Trimmed(e.name)
  {
    hide TrimSpace, IsSpace, IsNameChar, Trimmed;
    var s := e.left + e.name + e.right;
    NameEnds(e.name);
    forall i | 0 <= i < |s| ensures IsSpace(s[i]) || IsNameChar(s[i]) {}
    forall i | 0 <= i < |s| ensures s[i] !in {',', ']', '[', ';', '@', '#'} { NotExtraChar(s[i]); }
    TrimPads(e.left, e.name, e.right);
  }

  lemma {:induction false} NotExtraChar(ch: char)
    requires IsSpace(ch) || IsNameChar(ch)
    ensures ch !in {',', ']', '[', ';', '@', '#'}
  {
  }

  lemma {:induction false} ExtrasSplit(extras: seq<Extra>)
    requires extras != [] && forall i :: 0 <= i < |extras| ==> ExtraOk(extras[i])
    ensures SplitComma(ExtrasText(extras)) == Pieces(extras)
    ensures var s := ExtrasText(extras); s != [] && ']' !in s && '[' !in s && ';' !in s && '@' !in s && '#' !in s
  {
    hide SplitComma, ExtraOk, TrimSpace;
    var e := extras[0];
    var piece := e.left + e.name + e.right;
    assert ExtraOk(extras[0]);
    ExtraChars(e);
    if |extras| == 1 {
      OnePiece(piece);
      assert Pieces(extras[1..]) == [] && ExtrasText(extras) == piece;
    } else {
      assert forall i :: 0 <= i < |extras[1..]| ==> extras[1..][i] == extras[i + 1];
      ExtrasSplit(extras[1..]);
      SplitCons(piece, ExtrasText(extras[1..]));
      assert ExtrasText(extras) == piece + [','] + ExtrasText(extras[1..]);
    }
  }

  lemma {:induction false} ExtrasRead(extras: seq<Extra>, acc: seq<string>)
    requires forall i :: 0 <= i < |extras| ==> ExtraOk(extras[i])
    ensures Extras(Pieces(extras), acc) == Ok(acc + ExtraNames(extras))
  {
    hide ExtraOk, TrimSpace, IsName, NormalizeExtra;
    if extras == [] {
      assert acc + [] == acc;
    } else {
      assert ExtraOk(extras[0]);
      ExtraChars(extras[0]);
      ExtraIsName(extras[0]);
      assert forall i :: 0 <= i < |extras[1..]| ==> extras[1..][i] == extras[i + 1];
      ExtrasRead(extras[1..], acc + [NormalizeExtra(extras[0].name)]);
      assert acc + [NormalizeExtra(extras[0].name)] + ExtraNames(extras[1..]) == acc + ExtraNames(extras);
    }
  }

  lemma {:induction false} ExtraIsName(e: Extra)
    requires ExtraOk(e)
    ensures IsName(e.name)
  {
  }

  /** The first and the last item are written without outer blanks. */
  lemma {:induction false} ExtrasTrimmed(extras: seq<Extra>)
    requires ExtrasOk(extras) && extras != []
    ensures Trimmed(ExtrasText(extras)) && forall i :: 0 <= i < |extras| ==> ExtraOk(extras[i])
  {
    hide IsName;
    LastExtra(extras);
    NameEnds(extras[0].name);
    var s := ExtrasText(extras);
    assert s[0] == extras[0].name[0];
  }

  lemma {:induction false} LastExtra(extras: seq<Extra>)
    requires extras != [] && extras[|extras| - 1].right == []
    requires forall i :: 0 <= i < |extras| ==> IsName(extras[i].name)
    ensures var s := ExtrasText(extras); s != [] && !IsSpace(s[|s| - 1])
  {
    hide IsName, IsSpace;
    NameEnds(extras[0].name);
    if |extras| > 1 {
      assert forall i :: 0 <= i < |extras[1..]| ==> extras[1..][i] == extras[i + 1];
      LastExtra(extras[1..]);
      var t, s := ExtrasText(extras[1..]), ExtrasText(extras);
      assert s[|s| - 1] == t[|t| - 1];
    } else {
      var s := ExtrasText(extras);
      assert s == extras[0].left + extras[0].name && s[|s| - 1] == extras[0].name[|extras[0].name| - 1];
    }
  }

  lemma {:induction false} NameEnds(name: string)
    requires IsName(name)
    ensures Trimmed(name) && name[0] != '#'
    ensures ',' !in name && ']' !in name && '[' !in name && ';' !in name && '@' !in name && '#' !in name
  {
  }

  // --- Version parts ------------------------------------------------------------------

  function PartTexts(parts: seq<Part>): seq<string> {
    if parts == [] then [] else [PartText(parts[0])] + PartTexts(parts[1..])
  }

  lemma {:induction false} OpShape(op: string)
    requires IsOperator(op)
    ensures op != [] && !IsNameChar(op[0]) && !IsIndent(op[0]) && !IsSpace(op[0]) && op[0] != '[' && op[0] != '#'
    ensures forall i :: 0 <= i < |op| ==> op[i] in {'=', '!', '~', '<', '>'}
  {
  }

  lemma {:induction false} VersionEnds(version: string)
    requires IsVersion(version)
    ensures Trimmed(version) && !IsGap(version[0])
    ensures ',' !in version && ';' !in version && '@' !in version && '#' !in version && '[' !in version
  {
    assert IsVersionChar(version[|version| - 1]);
  }

  /** Operator, gap and version without the blanks around them. */
  lemma {:induction false} InnerReads(p: Part)
    requires PartOk(p)
    ensures var text := p.clause.op + p.mid + p.clause.version;
            Trimmed(text) && Operator(text) == p.clause.op && TrimLeft(text[|p.clause.op|..], IsGap) == p.clause.version
  {
    hide IsOperator, Operator, IsVersion, IsSpace, IsGap, IsNameChar;
    var op, version := p.clause.op, p.clause.version;
    var text := op + p.mid + version;
    OpShape(op);
    VersionEnds(version);
    Concat(op, p.mid, version);
    SpanOver(p.mid, version, IsGap);
    GapOrVersion(p.mid, version);
    OperatorStays(op, p.mid + version);
  }

  lemma {:induction false} Concat(a: string, b: string, c: string)
    ensures var s := a + b + c;
            && s == a + (b + c) && s[|a|..] == b + c && (a != [] ==> s[0] == a[0])
            && (c != [] ==> s[|s| - 1] == c[|c| - 1])
  {
  }

  lemma {:induction false} GapOrVersion(mid: string, version: string)
    requires AllOf(mid, IsGap) && IsVersion(version)
    ensures mid + version != [] && (mid + version)[0] !in {'=', '!', '~', '<', '>'}
  {
    assert mid != [] ==> IsGap(mid[0]);
  }

  lemma {:induction false} OperatorStays(op: string, rest: string)
    requires IsOperator(op) && rest != [] && rest[0] !in {'=', '!', '~', '<', '>'}
    ensures Operator(op + rest) == op
  {
    assert (op + rest)[|op|] == rest[0];
  }

  lemma {:induction false} PartReads(p: Part)
    requires PartOk(p)
    ensures ReadClause(PartText(p)) == Ok(p.clause)
    ensures var s := PartText(p); s != [] && ',' !in s && ';' !in s && '@' !in s && '#' !in s && '[' !in s
  {
    hide Operator, TrimSpace, IsOperator, IsVersion;
    InnerReads(p);
    OpShape(p.clause.op);
    TrimPads(p.left, p.clause.op + p.mid + p.clause.version, p.right);
    PartChars(p);
    assert IsVersion(p.clause.version);
    hide Blanks, AllOf, IsGap, IsNameChar, IsIndent, IsSpace;
  }

  lemma {:induction false} PartChars(p: Part)
    requires PartOk(p)
    ensures var s := PartText(p); s != [] && ',' !in s && ';' !in s && '@' !in s && '#' !in s && '[' !in s
  {
    hide IsOperator, IsVersion;
    OpShape(p.clause.op);
    VersionEnds(p.clause.version);
    forall i | 0 <= i < |p.mid| ensures IsGap(p.mid[i]) {}
    forall i | 0 <= i < |p.left| ensures IsSpace(p.left[i]) {}
    forall i | 0 <= i < |p.right| ensures IsSpace(p.right[i]) {}
  }

  lemma {:induction false} PartsTail(parts: seq<Part>)
    requires parts != [] && forall i :: 0 <= i < |parts| ==> PartOk(parts[i])
    ensures PartOk(parts[0]) && forall i :: 0 <= i < |parts[1..]| ==> PartOk(parts[1..][i])
  {
    hide PartOk;
  }

  lemma {:induction false} PartsSplit(parts: seq<Part>)
    requires parts != [] && forall i :: 0 <= i < |parts| ==> PartOk(parts[i])
    ensures SplitComma(PartsText(parts)) == PartTexts(parts)
    ensures var s := PartsText(parts); s != [] && ';' !in s && '@' !in s && '#' !in s && '[' !in s
  {
    hide SplitComma, PartOk, ReadClause, PartText;
    PartsTail(parts);
    PartReads(parts[0]);
    if |parts| == 1 {
      OnePiece(PartText(parts[0]));
      assert PartTexts(parts[1..]) == [] && PartsText(parts) == PartText(parts[0]);
    } else {
      PartsSplit(parts[1..]);
      SplitCons(PartText(parts[0]), PartsText(parts[1..]));
      assert PartsText(parts) == PartText(parts[0]) + [','] + PartsText(parts[1..]);
    }
  }

  /** The parts are read as their clauses, unless a second one is `==`. */
  lemma {:induction false} PartsRead(parts: seq<Part>, v: Versions)
    requires (forall i :: 0 <= i < |parts| ==> PartOk(parts[i])) && v.pins <= 1
    ensures var clauses := Clauses(parts);
            ReadVersions(PartTexts(parts), v) ==
            if v.pins + Pins(clauses) > 1 then Err(TwoPins)
            else Ok(Versions(v.clauses + clauses, v.pins + Pins(clauses),
                             if Exact(clauses) == [] then v.version else Exact(clauses)))
  {
    hide ReadClause, PartOk, PartText, Counted, ReadVersions;
    if parts == [] {
      NoParts(v);
    } else {
      PartsTail(parts);
      PartReads(parts[0]);
      FirstRead(parts, v);
      ExactIsVersion(parts);
      var c, rest := parts[0].clause, Clauses(parts[1..]);
      CountsAdd(v, c, rest);
      if !(IsPin(c) && v.pins > 0) { PartsRead(parts[1..], Counted(v, c)); }
    }
  }

  lemma {:induction false} NoParts(v: Versions)
    ensures ReadVersions(PartTexts([]), v) == Ok(v) && v.clauses + Clauses([]) == v.clauses
    ensures Pins(Clauses([])) == 0 && Exact(Clauses([])) == []
  {
  }

  lemma {:induction false} FirstRead(parts: seq<Part>, v: Versions)
    requires parts != [] && ReadClause(PartText(parts[0])) == Ok(parts[0].clause)
    ensures ReadVersions(PartTexts(parts), v) ==
            if IsPin(parts[0].clause) && v.pins > 0 then Err(TwoPins)
            else ReadVersions(PartTexts(parts[1..]), Counted(v, parts[0].clause))
  {
    hide ReadClause, PartText, Counted;
    assert PartTexts(parts)[1..] == PartTexts(parts[1..]) && PartTexts(parts)[0] == PartText(parts[0]);
  }

  /** Counting a clause and then the rest is counting them all. */
  lemma {:induction false} CountsAdd(v: Versions, c: Clause, rest: seq<Clause>)
    requires v.pins <= 1 && c.version != []
    ensures var w, all := Counted(v, c), [c] + rest;
            && w.pins + Pins(rest) == v.pins + Pins(all) && w.clauses + rest == v.clauses + all
            && (IsPin(c) && v.pins > 0 ==> v.pins + Pins(all) > 1) && (!(IsPin(c) && v.pins > 0) ==> w.pins <= 1)
            && (v.pins + Pins(all) <= 1 ==>
                  (if Exact(rest) == [] then w.version else Exact(rest)) ==
                  if Exact(all) == [] then v.version else Exact(all))
  {
    var all := [c] + rest;
    assert all[1..] == rest && v.clauses + [c] + rest == v.clauses + all;
    NoPinNoVersion(rest);
  }

  lemma {:induction false} NoPinNoVersion(clauses: seq<Clause>)
    ensures Pins(clauses) == 0 ==> Exact(clauses) == []
  {
    if clauses != [] { NoPinNoVersion(clauses[1..]); }
  }

  lemma {:induction false} ExactIsVersion(parts: seq<Part>)
    requires parts != [] && PartOk(parts[0])
    ensures parts[0].clause.version != [] && Clauses(parts) == [parts[0].clause] + Clauses(parts[1..])
  {
  }

  /** A constraint is read as its clauses. */
  lemma {:induction false} ConstraintReads(req: Requirement, parts: seq<Part>)
    requires parts != [] && (forall i :: 0 <= i < |parts| ==> PartOk(parts[i])) && req.constraint == PartsText(parts)
    ensures var clauses := Clauses(parts);
            WithVersion(req) ==
            if Pins(clauses) > 1 then Err(TwoPins)
            else Ok(req.(constraint := Joined(clauses), version := Exact(clauses), pinned := Exact(clauses) != []))
  {
    hide PartOk, ReadVersions, SplitComma, Joined, PartsText;
    PartsSplit(parts);
    PartsRead(parts, NO_VERSIONS);
    var clauses := Clauses(parts);
    assert [] + clauses == clauses;
    NoPinNoVersion(clauses);
  }

  lemma {:induction false} PartsTrimmed(parts: seq<Part>)
    requires PartsOk(parts) && parts != []
    ensures Trimmed(PartsText(parts)) && PartsText(parts)[0] in {'=', '!', '~', '<', '>'}
  {
    hide PartOk, IsSpace;
    LastPart(parts);
    assert PartOk(parts[0]);
    FirstPart(parts[0]);
    assert PartsText(parts)[0] == PartText(parts[0])[0];
  }

  lemma {:induction false} FirstPart(p: Part)
    requires PartOk(p) && p.left == []
    ensures PartText(p) != [] && PartText(p)[0] in {'=', '!', '~', '<', '>'} && !IsSpace(PartText(p)[0])
  {
    OpShape(p.clause.op);
    assert PartText(p)[0] == p.clause.op[0];
  }

  lemma {:induction false} LastPart(parts: seq<Part>)
    requires parts != [] && parts[|parts| - 1].right == [] && forall i :: 0 <= i < |parts| ==> PartOk(parts[i])
    ensures var s := PartsText(parts); s != [] && !IsSpace(s[|s| - 1])
  {
    hide PartOk, IsSpace, PartText;
    PartsTail(parts);
    if |parts| > 1 {
      LastPart(parts[1..]);
      var t, s := PartsText(parts[1..]), PartsText(parts);
      assert s[|s| - 1] == t[|t| - 1];
    } else {
      EndOfPart(parts[0]);
      assert PartsText(parts) == PartText(parts[0]);
    }
  }

  lemma {:induction false} EndOfPart(p: Part)
    requires PartOk(p) && p.right == []
    ensures var s := PartText(p); s != [] && !IsSpace(s[|s| - 1])
  {
    VersionEnds(p.clause.version);
    var s := PartText(p);
    assert s[|s| - 1] == p.clause.version[|p.clause.version| - 1];
  }

  // --- The body of a line -------------------------------------------------------------

  /** The name with its brackets is read as the name and its extras. */
  lemma {:induction false} NameReads(w: Written, gap: string)
    requires IsName(w.name) && ExtrasOk(w.extras) && Blanks(w.open) && Blanks(w.close) && Blanks(gap)
    ensures w.extras == [] ==> NameExtras(w.name) == Ok((NormalizeDistName(w.name), []))
    ensures w.extras != [] ==>
              NameExtras(w.name + gap + BracketText(w)) == Ok((NormalizeDistName(w.name), ExtraNames(w.extras)))
  {
    hide IsName, NormalizeDistName, ExtrasText, Extras, SplitComma, TrimSpace;
    NameEnds(w.name);
    if w.extras == [] {
      FindAbsent(w.name, "[", 0);
    } else {
      var inner := w.open + ExtrasText(w.extras) + w.close;
      var part, front := w.name + gap + BracketText(w), w.name + gap;
      ExtrasTrimmed(w.extras);
      ExtrasSplit(w.extras);
      ExtrasRead(w.extras, []);
      TrimPads(w.open, ExtrasText(w.extras), w.close);
      assert [] + w.name == w.name;
      TrimPads([], w.name, gap);
      assert [] + w.name + gap == front;
      assert '[' !in front by { NoBracket(w.name, gap); }
      assert part == front + ['['] + inner + [']'] && part[|front|..|front| + 1] == "[";
      assert part[..|front|] == front && part[|front| + 1..|part| - 1] == inner && part[|part| - 1] == ']';
      FindAt(part, "[", 0, |front|);
      assert [] + ExtraNames(w.extras) == ExtraNames(w.extras);
    }
  }

  lemma {:induction false} NoBracket(name: string, gap: string)
    requires IsName(name) && Blanks(gap)
    ensures '[' !in name + gap && '@' !in name + gap && ';' !in name + gap && '#' !in name + gap
  {
    forall i | 0 <= i < |gap| ensures IsSpace(gap[i]) {}
    NameEnds(name);
  }

  /** Characters that end a name, a body or a line too early. */
  predicate Clean(s: string) {
    '@' !in s && ';' !in s && '#' !in s
  }

  lemma {:induction false} CleanAppend(a: string, b: string)
    requires Clean(a) && Clean(b)
    ensures Clean(a + b)
  {
  }

  lemma {:induction false} BlanksAreClean(s: string)
    requires Blanks(s)
    ensures Clean(s) && ']' !in s
  {
    forall i | 0 <= i < |s| ensures s[i] != '@' && s[i] != ';' && s[i] != '#' && s[i] != ']' { assert IsSpace(s[i]); }
  }

  lemma {:induction false} IndentIsBlank(s: string)
    requires AllOf(s, IsIndent)
    ensures Blanks(s)
  {
  }

  ghost predicate NameOk(w: Written) {
    IsName(w.name) && ExtrasOk(w.extras) && Blanks(w.open) && Blanks(w.close) && Blanks(w.gap)
  }

  lemma {:induction false} LineParts(w: Written)
    requires LineOk(w)
    ensures NameOk(w) && (w.target.Parts? ==> AllOf(w.gap, IsIndent) && PartsOk(w.target.parts) && Blanks(w.target.pad))
  {
    hide IsVcs, IsName, ExtrasOk, PartsOk, Trimmed, CoreText, IsSpace;
    if w.target.Parts? { IndentIsBlank(w.gap); }
  }

  lemma {:induction false} NameIsClean(w: Written)
    requires NameOk(w)
    ensures Clean(NameText(w)) && Trimmed(NameText(w)) && NameText(w)[0] == w.name[0]
    ensures w.extras != [] ==>
              var b := BracketText(w); b != [] && b[0] == '[' && b[|b| - 1] == ']' && ']' !in b[..|b| - 1]
  {
    hide IsName, ExtrasText, Blanks, IsSpace, ExtraOk;
    NameEnds(w.name);
    NameCleans(w.name);
    if w.extras != [] {
      ExtrasTrimmed(w.extras);
      ExtrasSplit(w.extras);
      BlanksAreClean(w.open);
      BlanksAreClean(w.close);
      BlanksAreClean(w.gap);
      var inner := w.open + ExtrasText(w.extras) + w.close;
      var b := BracketText(w);
      assert b == ['['] + inner + [']'] && b[..|b| - 1] == ['['] + inner;
      BracketIsNoSpace();
      assert Clean(b);
      CleanAppend(w.name, w.gap);
      CleanAppend(w.name + w.gap, b);
      assert NameText(w) == w.name + w.gap + b;
    } else {
      assert NameText(w) == w.name;
    }
  }

  lemma {:induction false} BracketIsNoSpace()
    ensures !IsSpace(']')
  {
  }

  lemma {:induction false} NameCleans(name: string)
    requires IsName(name)
    ensures Clean(name)
  {
    NameEnds(name);
  }

  /** A line that names a link. */
  lemma {:induction false} LinkReads(w: Written, req: Requirement)
    requires LineOk(w) && w.target.Link?
    ensures BodyRequirement(req, CoreText(w)) ==
            Ok(req.(name := NormalizeDistName(w.name), extras := ExtraNames(w.extras), url := w.target.url))
  {
    hide IsVcs, NameExtras, TrimSpace, IsName, NormalizeDistName, ExtrasOk, Blanks, Trimmed, CoreText, NameText, Find,
      Span, ExtrasText, ExtraNames, BracketText, BodyRequirement, IsNotIndent, NameOk;
    LineParts(w);
    NameIsClean(w);
    NameHere(w);
    LinkParts(w);
    var left, right := NameText(w) + w.target.pad, w.target.gap + w.target.url;
    AtFound(NameText(w), w.target.pad, right);
    TrimEnd(NameText(w), w.target.pad);
    TrimStart(w.target.gap, w.target.url);
    NameTextReads(w);
    NoIndent(w.target.url);
    TrimmedNotEmpty(w.target.url);
    LinkIs(w, req, CoreText(w), left, right);
  }

  lemma {:induction false} LinkParts(w: Written)
    requires w.target.Link?
    ensures CoreText(w) == NameText(w) + w.target.pad + "@" + (w.target.gap + w.target.url)
  {
    hide NameText;
  }

  lemma {:induction false} AtFound(name: string, pad: string, right: string)
    requires Clean(name) && Blanks(pad)
    ensures var left, s := name + pad, name + pad + "@" + right;
            Find(s, "@") == Some(|left|) && |left| < |s| && s[..|left|] == left && s[|left| + 1..] == right
  {
    hide Blanks, Find;
    BlanksAreClean(pad);
    CleanAppend(name, pad);
    CutAt(name + pad, "@", right);
    FindAt(name + pad + "@" + right, "@", 0, |name + pad|);
  }

  lemma {:induction false} NameTextReads(w: Written)
    requires NameOk(w)
    ensures NameExtras(NameText(w)) == Ok((NormalizeDistName(w.name), ExtraNames(w.extras)))
  {
    hide NameExtras, IsName, NormalizeDistName, ExtrasOk, Blanks, BracketText;
    NameReads(w, w.gap);
    Assoc(w.name, w.gap, BracketText(w));
    assert w.extras == [] ==> w.name + [] == w.name;
  }

  /** The branch of the parser for links. */
  lemma {:induction false} LinkIs(w: Written, req: Requirement, core: string, left: string, right: string)
    requires w.target.Link? && core != [] && !IsVcs(core) && Find(core, "@") == Some(|left|) && core[..|left|] == left
    requires |left| < |core| && core[|left| + 1..] == right && TrimSpace(right) == w.target.url
    requires w.target.url != [] && Span(w.target.url, IsNotIndent) == |w.target.url|
    requires NameExtras(TrimSpace(left)) == Ok((NormalizeDistName(w.name), ExtraNames(w.extras)))
    ensures BodyRequirement(req, core) ==
            Ok(req.(name := NormalizeDistName(w.name), extras := ExtraNames(w.extras), url := w.target.url))
  {
    hide IsVcs, NameExtras, TrimSpace, NormalizeDistName, Find, Span, ExtraNames;
  }

  lemma {:induction false} NoBlanks()
    ensures Blanks([])
  {
  }

  lemma {:induction false} TrimmedNotEmpty(s: string)
    requires Trimmed(s)
    ensures s != []
  {
  }

  lemma {:induction false} NoIndent(s: string)
    requires forall i :: 0 <= i < |s| ==> s[i] != ' ' && s[i] != '\t'
    ensures Span(s, IsNotIndent) == |s|
  {
    assert s + [] == s;
    SpanOver(s, [], IsNotIndent);
  }

  /** What the version parts make of a requirement. */
  function Versioned(req: Requirement, parts: seq<Part>): Result<Requirement, Error> {
    var clauses := Clauses(parts);
    if Pins(clauses) > 1 then Err(TwoPins)
    else Ok(req.(constraint := Joined(clauses), version := Exact(clauses), pinned := Exact(clauses) != []))
  }

  lemma {:induction false} TargetReads(req: Requirement, pad: string, parts: seq<Part>)
    requires Blanks(pad) && PartsOk(parts) && req.version == [] && !req.pinned
    ensures WithVersion(req.(constraint := TrimSpace(TargetText(Parts(pad, parts))))) == Versioned(req, parts)
    ensures Clean(TargetText(Parts(pad, parts)))
  {
    hide WithVersion, PartOk, PartsText, TrimSpace, Joined, Trimmed, Blanks;
    if parts == [] {
      NothingTrimmed();
      NoConstraint(req);
    } else {
      PartsTrimmed(parts);
      PartsSplit(parts);
      BlanksAreClean(pad);
      NoBlanks();
      TrimPads(pad, PartsText(parts), []);
      assert pad + PartsText(parts) + [] == pad + PartsText(parts);
      ConstraintReads(req.(constraint := PartsText(parts)), parts);
      CleanAppend(pad, PartsText(parts));
    }
  }

  lemma {:induction false} NothingTrimmed()
    ensures TrimSpace([]) == []
  {
  }

  lemma {:induction false} NoConstraint(req: Requirement)
    requires req.version == [] && !req.pinned
    ensures WithVersion(req.(constraint := [])) == Versioned(req, [])
  {
  }

  /** A name without brackets, and version parts. */
  lemma {:induction false} PlainReads(w: Written, req: Requirement)
    requires LineOk(w) && w.target.Parts? && w.extras == [] && req.version == [] && !req.pinned
    ensures IndexRequirement(req, CoreText(w)) ==
            Versioned(req.(name := NormalizeDistName(w.name), extras := []), w.target.parts)
  {
    hide IsVcs, NameExtras, TrimSpace, IsName, NormalizeDistName, Blanks, WithVersion, PartsOk, PartsText,
      IsNameChar, IsIndent, ExtrasOk;
    LineParts(w);
    var core, pad, parts := CoreText(w), w.target.pad, w.target.parts;
    NoBlanks();
    NameReads(w, []);
    assert NameText(w) == w.name && core == w.name + TargetText(w.target);
    var inner := PartsAhead(pad, parts);
    NameSpans(w.name, TargetText(w.target));
    assert core[..|w.name|] == w.name && core[|w.name|..] == TargetText(w.target);
    TargetReads(req.(name := NormalizeDistName(w.name), extras := []), inner, parts);
  }

  /** Behind a bare name come blanks and an operator, or nothing; blanks and tabs are skipped first. */
  lemma {:induction false} PartsAhead(pad: string, parts: seq<Part>) returns (inner: string)
    requires Blanks(pad) && PartsOk(parts)
    ensures Blanks(inner)
    ensures var t, rest := TargetText(Parts(pad, parts)), TargetText(Parts(inner, parts));
            && (t == [] || !IsNameChar(t[0])) && TrimLeft(t, IsIndent) == rest && (rest == [] || rest[0] != '[')
  {
    hide PartsOk, PartsText, IsIndent, IsNameChar, Blanks;
    if parts == [] {
      NoBlanks();
      SpanOver([], [], IsIndent);
      inner := [];
    } else {
      PartsTrimmed(parts);
      var front;
      front, inner := IndentOf(pad);
      var text := PartsText(parts);
      NotIndent(inner, text);
      NotIndent(pad, text);
      Assoc(front, inner, text);
      SpanOver(front, inner + text, IsIndent);
    }
  }

  lemma {:induction false} IndentOf(pad: string) returns (front: string, inner: string)
    requires Blanks(pad)
    ensures pad == front + inner && AllOf(front, IsIndent) && Blanks(inner) && (inner != [] ==> !IsIndent(inner[0]))
  {
    var n := Span(pad, IsIndent);
    front, inner := pad[..n], pad[n..];
    assert forall i :: 0 <= i < |inner| ==> inner[i] == pad[n + i];
  }

  lemma {:induction false} NotIndent(inner: string, text: string)
    requires Blanks(inner) && text != [] && text[0] in {'=', '!', '~', '<', '>'}
    ensures inner + text != [] && (inner + text)[0] != '[' && !IsNameChar((inner + text)[0])
    ensures (inner != [] ==> !IsIndent(inner[0])) ==> !IsIndent((inner + text)[0])
  {
    assert inner != [] ==> IsSpace(inner[0]);
  }

  lemma {:induction false} NameSpans(name: string, rest: string)
    requires IsName(name) && (rest == [] || !IsNameChar(rest[0]))
    ensures Span(name + rest, IsNameChar) == |name|
  {
    SpanOver(name, rest, IsNameChar);
  }

  /** A name with brackets, and version parts. */
  lemma {:induction false} BracketReads(w: Written, req: Requirement)
    requires LineOk(w) && w.target.Parts? && w.extras != [] && req.version == [] && !req.pinned
    ensures IndexRequirement(req, CoreText(w)) ==
            Versioned(req.(name := NormalizeDistName(w.name), extras := ExtraNames(w.extras)), w.target.parts)
  {
    hide IsVcs, NameExtras, TrimSpace, IsName, NormalizeDistName, Blanks, WithVersion, PartsOk, PartsText,
      IsNameChar, IsIndent, ExtrasOk, BracketText, TargetText;
    LineParts(w);
    NameIsClean(w);
    var core, b, t := CoreText(w), BracketText(w), TargetText(w.target);
    var behind := w.gap + (b + t);
    NoBlanks();
    NameReads(w, []);
    assert w.name + [] + b == w.name + b;
    assert core == w.name + behind && core[..|w.name|] == w.name && core[|w.name|..] == behind;
    GapAhead(w.gap, b + t);
    NameSpans(w.name, behind);
    BracketFound(b, t);
    TargetReads(req.(name := NormalizeDistName(w.name), extras := ExtraNames(w.extras)), w.target.pad, w.target.parts);
  }

  lemma {:induction false} BracketFound(b: string, t: string)
    requires b != [] && b[0] == '[' && b[|b| - 1] == ']' && ']' !in b[..|b| - 1]
    ensures Find(b + t, "]") == Some(|b| - 1) && (b + t)[0] == '[' && (b + t)[..|b|] == b && (b + t)[|b|..] == t
  {
    assert (b + t)[|b| - 1..|b| - 1 + 1] == "]" && (b + t)[..|b| - 1] == b[..|b| - 1];
    FindAt(b + t, "]", 0, |b| - 1);
  }

  lemma {:induction false} GapAhead(gap: string, rest: string)
    requires AllOf(gap, IsIndent) && rest != [] && rest[0] == '['
    ensures gap + rest != [] && !IsNameChar((gap + rest)[0]) && TrimLeft(gap + rest, IsIndent) == rest
  {
    assert gap != [] ==> IsIndent(gap[0]);
    SpanOver(gap, rest, IsIndent);
  }

  /** The body of a line is read as what it stands for. */
  lemma {:induction false} BodyReads(w: Written, req: Requirement)
    requires LineOk(w) && req.version == [] && !req.pinned
    ensures var named := req.(name := NormalizeDistName(w.name), extras := ExtraNames(w.extras));
            BodyRequirement(req, CoreText(w)) ==
            match w.target
            case Link(_, _, url) => Ok(named.(url := url))
            case Parts(_, parts) => Versioned(named, parts)
  {
    hide IsVcs, IndexRequirement, Versioned, TargetText, NameText, IsName, Trimmed, TargetOk;
    LineParts(w);
    NameIsClean(w);
    NameHere(w);
    if w.target.Link? {
      LinkReads(w, req);
    } else {
      TargetReads(req, w.target.pad, w.target.parts);
      CleanAppend(NameText(w), TargetText(w.target));
      FindAbsent(CoreText(w), "@", 0);
      if w.extras == [] { PlainReads(w, req); } else { BracketReads(w, req); }
    }
  }

  lemma {:induction false} NameHere(w: Written)
    requires NameOk(w)
    ensures CoreText(w) != []
  {
    hide IsName;
    NameEnds(w.name);
  }

  // --- The line -----------------------------------------------------------------------

  lemma {:induction false} CoreTrimmed(w: Written)
    requires LineOk(w)
    ensures Trimmed(CoreText(w)) && '#' != CoreText(w)[0] && (w.target.Parts? ==> Clean(CoreText(w)))
    ensures ';' !in CoreText(w)
  {
    hide IsVcs, IsName, NameText, PartsOk, PartsText, IsSpace, ExtrasOk, Blanks;
    LineParts(w);
    NameIsClean(w);
    NameEnds(w.name);
    var name, t := NameText(w), TargetText(w.target);
    if w.target.Link? {
      BlanksAreClean(w.target.pad);
      BlanksAreClean(w.target.gap);
      assert t[|t| - 1] == w.target.url[|w.target.url| - 1];
    } else {
      PartsAreClean(w.target.pad, w.target.parts);
      CleanAppend(name, t);
      if w.target.parts != [] {
        PartsTrimmed(w.target.parts);
        var parts := PartsText(w.target.parts);
        assert t[|t| - 1] == parts[|parts| - 1];
      }
    }
    var core := CoreText(w);
    assert core[0] == name[0] && core[|core| - 1] == if t == [] then name[|name| - 1] else t[|t| - 1];
  }

  lemma {:induction false} PartsAreClean(pad: string, parts: seq<Part>)
    requires Blanks(pad) && PartsOk(parts)
    ensures Clean(TargetText(Parts(pad, parts)))
  {
    TargetReads(Blank([]), pad, parts);
  }

  lemma {:induction false} MarkerReads(core: string, m: Option<(string, string, string)>)
    requires Trimmed(core) && ';' !in core
    requires m.Some? ==> Blanks(m.value.0) && Blanks(m.value.1) && Trimmed(m.value.2)
    ensures m.None? ==> core + MarkerText(m) == core
    ensures var y := core + MarkerText(m);
            && core != [] && y != [] && Trimmed(y) && y[0] == core[0]
            && (if m.None? then Find(y, ";").None?
                else Find(y, ";").Some? && TrimSpace(y[..Find(y, ";").value]) == core
                     && TrimSpace(y[Find(y, ";").value + 1..]) == m.value.2)
  {
    hide Blanks, Trimmed, TrimSpace, Find, MarkerText;
    TrimmedNotEmpty(core);
    MarkerIs(core, m);
    if m.None? {
      FindAbsent(core, ";", 0);
    } else {
      var (pad, gap, text) := m.value;
      MarkerFound(core, pad, gap + text);
      TrimEnd(core, pad);
      TrimStart(gap, text);
      TrimmedEnds(core, pad + ";" + gap, text);
      TrimmedNotEmpty(core + MarkerText(m));
    }
  }

  lemma {:induction false} MarkerIs(core: string, m: Option<(string, string, string)>)
    ensures m.None? ==> core + MarkerText(m) == core
    ensures m.Some? ==> core + MarkerText(m) == core + m.value.0 + ";" + (m.value.1 + m.value.2)
    ensures m.Some? ==> core + MarkerText(m) == core + (m.value.0 + ";" + m.value.1) + m.value.2
  {
  }

  lemma {:induction false} TrimmedEnds(a: string, mid: string, b: string)
    requires Trimmed(a) && Trimmed(b)
    ensures Trimmed(a + mid + b) && (a + mid + b)[0] == a[0] && a != []
  {
    hide IsSpace;
    var s := a + mid + b;
    assert s[0] == a[0] && s[|s| - 1] == b[|b| - 1];
  }

  lemma {:induction false} MarkerFound(core: string, pad: string, right: string)
    requires ';' !in core && Blanks(pad)
    ensures var left, y := core + pad, core + pad + ";" + right;
            Find(y, ";") == Some(|left|) && y[..|left|] == left && y[|left| + 1..] == right
  {
    hide Blanks;
    BlanksAreClean(pad);
    CutAt(core + pad, ";", right);
    FindAt(core + pad + ";" + right, ";", 0, |core + pad|);
  }

  lemma {:induction false} TrimEnd(s: string, pad: string)
    requires Trimmed(s) && Blanks(pad)
    ensures TrimSpace(s + pad) == s
  {
    hide TrimSpace, Trimmed, Blanks;
    NoBlanks();
    TrimPads([], s, pad);
    assert [] + s == s;
  }

  lemma {:induction false} TrimStart(pad: string, s: string)
    requires Trimmed(s) && Blanks(pad)
    ensures TrimSpace(pad + s) == s
  {
    hide TrimSpace, Trimmed, Blanks;
    NoBlanks();
    TrimPads(pad, s, []);
    assert pad + s + [] == pad + s;
  }

  lemma {:induction false} CommentReads(y: string, c: Option<(string, string)>)
    requires Trimmed(y) && HashFree(y) && (c.Some? ==> Blanks(c.value.0))
    requires c.Some? && c.value.1 != [] ==> !IsSpace(c.value.1[|c.value.1| - 1])
    ensures var z := y + CommentText(c); Trimmed(z) && z[0] == y[0] && Commentless(z) == y
  {
    hide Blanks, IsSpace, TrimSpace, HashFree, Find, Trimmed;
    TrimmedNotEmpty(y);
    if c.None? {
      NoHash(y);
      assert y + [] == y;
    } else {
      var (pad, text) := c.value;
      var left := y + pad;
      assert y + CommentText(c) == left + " #" + text;
      HashAhead(y, pad, text);
      TrimEnd(y, pad);
      CutAt(left, " #", text);
      CommentTrimmed(y, pad, text);
    }
  }

  lemma {:induction false} CommentTrimmed(y: string, pad: string, text: string)
    requires Trimmed(y) && (text != [] ==> !IsSpace(text[|text| - 1]))
    ensures var z := y + pad + " #" + text; Trimmed(z) && z[0] == y[0]
  {
    hide IsSpace;
    CommentEnds(y + pad, text);
    assert (y + pad + " #" + text)[0] == y[0];
  }

  lemma {:induction false} CommentEnds(left: string, text: string)
    requires text != [] ==> !IsSpace(text[|text| - 1])
    ensures var z := left + " #" + text; !IsSpace(z[|z| - 1])
  {
    hide IsSpace;
    HashIsNoSpace();
    var z := left + " #" + text;
    assert z[|z| - 1] == if text == [] then '#' else text[|text| - 1];
  }

  lemma {:induction false} NoHash(y: string)
    requires HashFree(y)
    ensures Find(y, " #").None?
  {
    forall v: nat ensures !At(y, " #", v) {
      if v + 2 <= |y| { assert y[v..v + 2][0] == y[v] && y[v..v + 2][1] == y[v + 1]; }
    }
    FindNone(y, " #");
  }

  lemma {:induction false} FindNone(s: string, sub: string)
    requires sub != [] && forall v: nat :: !At(s, sub, v)
    ensures Find(s, sub).None?
  {
    if Find(s, sub).Some? { FoundAt(s, sub); }
  }

  ghost predicate At(s: string, sub: string, v: nat) {
    v + |sub| <= |s| && s[v..v + |sub|] == sub
  }

  lemma {:induction false} FoundAt(s: string, sub: string)
    requires sub != [] && Find(s, sub).Some?
    ensures At(s, sub, Find(s, sub).value)
  {
  }

  /** The comment begins at its own blank and no earlier one. */
  lemma {:induction false} HashAhead(y: string, pad: string, text: string)
    requires HashFree(y) && Blanks(pad)
    ensures Find(y + pad + " #" + text, " #") == Some(|y + pad|)
  {
    var left, z := y + pad, y + pad + " #" + text;
    CutAt(left, " #", text);
    FindIsFirst(z, " #", |left|);
    FoundAt(z, " #");
    BlanksAreClean(pad);
    forall v: nat | v < |left| ensures !At(z, " #", v) {
      assert z[v..v + 2][0] == z[v] && z[v..v + 2][1] == z[v + 1];
      if v + 1 < |y| { assert y[v] == z[v] && y[v + 1] == z[v + 1]; }
      else if v + 1 < |left| { assert pad[v + 1 - |y|] == z[v + 1]; }
      else { assert z[|left|..|left| + 2][0] == z[|left|]; }
    }
  }

  lemma {:induction false} CutAt(left: string, mid: string, right: string)
    ensures var s := left + mid + right;
            s[..|left|] == left && s[|left|..|left| + |mid|] == mid && s[|left| + |mid|..] == right
  {
  }

  lemma {:induction false} HashIsNoSpace()
    ensures !IsSpace('#')
  {
  }

  lemma {:induction false} HashFreeAppend(a: string, b: string)
    requires HashFree(a) && HashFree(b) && (b == [] || b[0] != '#' || a == [] || a[|a| - 1] != ' ')
    ensures HashFree(a + b)
  {
    var s := a + b;
    forall i | 0 < i < |s| && s[i] == '#' ensures s[i - 1] != ' ' {
      assert i < |a| ==> a[i] == s[i] && a[i - 1] == s[i - 1];
      assert i > |a| ==> b[i - |a|] == s[i] && b[i - |a| - 1] == s[i - 1];
    }
  }

  lemma {:induction false} CleanIsHashFree(s: string)
    requires '#' !in s
    ensures HashFree(s)
  {
  }

  /** No comment begins before the comment. */
  lemma {:induction false} NoEarlyComment(w: Written)
    requires LineOk(w)
    ensures HashFree(CoreText(w) + MarkerText(w.marker))
  {
    hide IsVcs, IsName, NameText, PartsOk, PartsText, IsSpace, ExtrasOk, Blanks, HashFree, Trimmed, CoreText;
    LineParts(w);
    NameIsClean(w);
    CoreIsHashFree(w);
    var m := MarkerText(w.marker);
    if w.marker.Some? { BlanksAreClean(w.marker.value.0); } else { CleanIsHashFree(m); }
    assert m != [] ==> m[0] == if w.marker.value.0 == [] then ';' else w.marker.value.0[0];
    HashFreeAppend(CoreText(w), m);
  }

  lemma {:induction false} CoreIsHashFree(w: Written)
    requires LineOk(w)
    ensures HashFree(CoreText(w))
  {
    hide IsVcs, IsName, NameText, PartsOk, PartsText, IsSpace, ExtrasOk, Blanks, HashFree, Trimmed;
    LineParts(w);
    NameIsClean(w);
    CleanIsHashFree(NameText(w));
    if w.target.Link? {
      BlanksAreClean(w.target.pad);
      var left := NameText(w) + w.target.pad + ['@'];
      CleanIsHashFree(left);
      HashFreeAppend(left, w.target.gap + w.target.url);
      assert CoreText(w) == left + (w.target.gap + w.target.url);
    } else {
      PartsAreClean(w.target.pad, w.target.parts);
      CleanIsHashFree(TargetText(w.target));
      HashFreeAppend(NameText(w), TargetText(w.target));
    }
  }

  /**
   A line is read as what it stands for, whatever blanks, marker and comment it has, or refused when two of its
   parts are `==`.
   */
  lemma {:induction false} LineReadsBack(w: Written)
    requires LineOk(w)
    ensures Parse(LineText(w)) == Means(w)
  {
    hide IsVcs, IsName, BodyRequirement, CoreText, Trimmed, Commentless, Find, TrimSpace, MarkerText, CommentText,
      Blanks, HashFree, TargetOk, ExtrasOk, Joined, NormalizeDistName, Exact, Pins, Clauses, ExtraNames;
    var s, core := LineText(w), CoreText(w);
    var y := core + MarkerText(w.marker);
    CoreTrimmed(w);
    MarkerReads(core, w.marker);
    NoEarlyComment(w);
    CommentReads(y, w.comment);
    TrimPads(w.before, y + CommentText(w.comment), w.after);
    TrimmedNotEmpty(y + CommentText(w.comment));
    BodyReads(w, Blank(s));
    BodyReads(w, Blank(s).(marker := if w.marker.None? then [] else w.marker.value.2));
    if w.marker.Some? { TrimmedNotEmpty(w.marker.value.2); }
  }

  // --- What a manifest can hold -------------------------------------------------------

  /** A manifest line is made of an exact version alone: no extras, link or marker, and no odd version character. */
  lemma {:induction false} ManifestSpecIff(r: Requirement)
    requires IsName(r.name)
    ensures ManifestSpec(r).Some? <==>
              r.pinned && r.extras == [] && r.url == [] && r.marker == [] && IsManifestVersion(r.version)
    ensures ManifestSpec(r).Some? ==> ManifestSpec(r).value == r.name + "==" + r.version
  {
    hide IsName;
    if ManifestSpec(r).Some? { SpecIsLine(r); }
    if IsManifestVersion(r.version) { LineMatches(r.name, r.version); }
  }

  /** The lines of a foreign file that a manifest can hold. */
  lemma {:induction false} LineIsManifestIff(w: Written)
    requires LineOk(w)
    ensures Parse(LineText(w)).Ok? && ManifestSpec(Parse(LineText(w)).value).Some? <==>
              && w.target.Parts? && Pins(Clauses(w.target.parts)) == 1 && w.extras == [] && w.marker.None?
              && IsManifestVersion(Exact(Clauses(w.target.parts)))
  {
    hide IsVcs, IsManifestVersion, Joined, Exact, Clauses, Pins, TargetOk, ExtrasOk, MatchesManifest, NormalizeExtra,
      Blanks;
    LineReadsBack(w);
    NormalShape(w.name);
    hide Parse, IsName, NormalizeDistName, LineText;
    var r := Means(w);
    if r.Ok? { ManifestSpecIff(r.value); }
    NotAVersion();
    if w.marker.Some? { TrimmedNotEmpty(w.marker.value.2); }
    if w.target.Link? { TrimmedLink(w); } else { NoPinNoVersion(Clauses(w.target.parts)); }
  }

  lemma {:induction false} NotAVersion()
    ensures !IsManifestVersion([])
  {
  }

  lemma {:induction false} TrimmedLink(w: Written)
    requires w.target.Link? && TargetOk(w.target)
    ensures w.target.url != []
  {
  }
}

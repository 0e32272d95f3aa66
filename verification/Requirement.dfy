/**
 Requirements of a foreign project: the parser of requirement lines and the line a manifest may hold.
 Proved: what the version clause means, when the normal form of a name is the one PEP 503 defines, and
 when a manifest line is read back as the same requirement.
 */
module Requirement {
  import opened Base
  import opened RequirementText

  datatype Requirement = Requirement(
    raw: string, name: string, extras: seq<string>, constraint: string, version: string,
    url: string, marker: string, pinned: bool)

  datatype Error = EmptyLine | EmptyMarker | NoName | VcsLink | EmptyUrl | UrlHasSpaces | OpenBracket
    | EmptyExtra | BadExtra | BadName | EmptyPart | BadPart | TwoPins

  // --- Names --------------------------------------------------------------------------

  predicate IsSeparator(ch: char) {
    ch == '-' || ch == '_' || ch == '.'
  }

  predicate IsNameChar(ch: char) {
    IsAlnum(ch) || IsSeparator(ch)
  }

  /** The shape of distribution and extra names: name characters, with letters or digits at both ends. */
  predicate IsName(s: string) {
    s != [] && IsAlnum(s[0]) && IsAlnum(s[|s| - 1]) && AllOf(s, IsNameChar)
  }

  function LowerChar(ch: char): char {
    if 'A' <= ch <= 'Z' then ch - 'A' + 'a' else ch
  }

  function Lower(s: string): string {
    seq(|s|, i requires 0 <= i < |s| => LowerChar(s[i]))
  }

  /** One pass from the left: `_` and `.` become `-`, and so does a pair `--`. */
  function Replaced(s: string): string {
    if s == [] then []
    else if s[0] == '_' || s[0] == '.' then ['-'] + Replaced(s[1..])
    else if |s| >= 2 && s[0] == '-' && s[1] == '-' then ['-'] + Replaced(s[2..])
    else [s[0]] + Replaced(s[1..])
  }

  function NormalizeDistName(name: string): string {
    Lower(Replaced(TrimSpace(name)))
  }

  function NormalizeExtra(extra: string): string {
    Lower(seq(|extra|, i requires 0 <= i < |extra| => if extra[i] == '-' then '_' else extra[i]))
  }

  /** The extras of the items between the brackets, after those in `acc`. */
  function Extras(items: seq<string>, acc: seq<string>): Result<seq<string>, Error> {
    if items == [] then Ok(acc) else
    var item := TrimSpace(items[0]);
    if item == [] then Err(EmptyExtra)
    else if !IsName(item) then Err(BadExtra)
    else Extras(items[1..], acc + [NormalizeExtra(item)])
  }

  function CheckedName(name: string, extras: seq<string>): Result<(string, seq<string>), Error> {
    if IsName(name) then Ok((NormalizeDistName(name), extras)) else Err(BadName)
  }

  function NameExtras(part: string): Result<(string, seq<string>), Error> {
    match Find(part, "[")
    case None => CheckedName(part, [])
    case Some(i) =>
      if part[|part| - 1] != ']' then Err(OpenBracket) else
      assert part[i..i + 1][0] == part[i];
      match Extras(SplitComma(TrimSpace(part[i + 1..|part| - 1])), [])
      case Err(e) => Err(e)
      case Ok(extras) => CheckedName(TrimSpace(part[..i]), extras)
  }

  method ParseNameExtras(part: string) returns (r: Result<(string, seq<string>), Error>)
    ensures r == NameExtras(part)
  {
    var name, extras := part, [];
    var open := Find(part, "[");
    if open.Some? {
      var i := open.value;
      if part[|part| - 1] != ']' {
        return Err(OpenBracket);
      }
      assert part[i..i + 1][0] == part[i];
      name := TrimSpace(part[..i]);
      var items := SplitComma(TrimSpace(part[i + 1..|part| - 1]));
      for k := 0 to |items|
        invariant Extras(items[k..], extras) == Extras(items, [])
      {
        var item := TrimSpace(items[k]);
        if item == [] {
          return Err(EmptyExtra);
        }
        if !IsName(item) {
          return Err(BadExtra);
        }
        extras := extras + [NormalizeExtra(item)];
        assert items[k..][1..] == items[k + 1..];
      }
    }
    if !IsName(name) {
      return Err(BadName);
    }
    return Ok((NormalizeDistName(name), extras));
  }

  /** The name ends at the first character no name can hold. */
  method SplitNameAndRest(body: string) returns (name: string, rest: string)
    ensures name + rest == body && |name| == Span(body, IsNameChar)
    ensures AllOf(name, IsNameChar) && (rest != [] ==> !IsNameChar(rest[0]))
  {
    var end := 0;
    while end < |body| && IsNameChar(body[end])
      invariant 0 <= end <= |body|
      invariant end + Span(body[end..], IsNameChar) == Span(body, IsNameChar)
    {
      assert body[end..][1..] == body[end + 1..];
      end := end + 1;
    }
    return body[..end], body[end..];
  }

  // --- Repository links ---------------------------------------------------------------

  const SCHEMES: seq<string> := ["git+", "hg+", "svn+", "bzr+"]

  predicate HasScheme(body: string, scheme: string) {
    scheme <= body || Find(body, "@" + scheme).Some? || Find(body, " " + scheme).Some?
  }

  ghost predicate IsVcs(body: string) {
    exists k :: 0 <= k < |SCHEMES| && HasScheme(body, SCHEMES[k])
  }

  method IsVcsLink(body: string) returns (r: bool)
    ensures r <==> IsVcs(body)
  {
    for k := 0 to |SCHEMES|
      invariant forall j :: 0 <= j < k ==> !HasScheme(body, SCHEMES[j])
    {
      if HasScheme(body, SCHEMES[k]) {
        return true;
      }
    }
    return false;
  }

  // --- Versions -----------------------------------------------------------------------

  predicate IsVersionChar(ch: char) {
    IsAlnum(ch) || ch == '.' || ch == '*' || ch == '+' || ch == '!' || ch == '_' || ch == '-'
  }

  predicate IsVersion(s: string) {
    s != [] && IsAlnum(s[0]) && AllOf(s, IsVersionChar)
  }

  /** The operator at the front; none of them leaves a version behind when a longer one stands there. */
  function Operator(s: string): (op: string)
    ensures op <= s
  {
    if "===" <= s then "===" else if "==" <= s then "==" else if "!=" <= s then "!=" else if "~=" <= s then "~="
    else if "<=" <= s then "<=" else if ">=" <= s then ">=" else if "<" <= s then "<" else if ">" <= s then ">"
    else ""
  }

  predicate IsGap(ch: char) {
    ch == ' ' || ch == '\t' || ch == '\n' || ch == '\r' || ch as int == 0x0C
  }

  /** One operator and its version. */
  datatype Clause = Clause(op: string, version: string)

  function ReadClause(part: string): Result<Clause, Error> {
    var text := TrimSpace(part);
    var op := Operator(text);
    var version := TrimLeft(text[|op|..], IsGap);
    if text == [] then Err(EmptyPart)
    else if op == [] || !IsVersion(version) then Err(BadPart)
    else Ok(Clause(op, version))
  }

  predicate IsPin(c: Clause) {
    c.op == "=="
  }

  /** The clauses in order, without the blanks around them. */
  function Joined(clauses: seq<Clause>): string {
    if clauses == [] then []
    else if |clauses| == 1 then clauses[0].op + clauses[0].version
    else Joined(clauses[..|clauses| - 1]) + "," + clauses[|clauses| - 1].op + clauses[|clauses| - 1].version
  }

  lemma JoinedSnoc(clauses: seq<Clause>, c: Clause)
    ensures Joined(clauses + [c]) == (if clauses == [] then "" else Joined(clauses) + ",") + c.op + c.version
  {
    assert (clauses + [c])[..|clauses|] == clauses;
  }

  /** What was read of a version clause so far. */
  datatype Versions = Versions(clauses: seq<Clause>, pins: nat, version: string)

  /** Reads the remaining parts; a second `==` is an error, and a wildcard pins nothing. */
  function ReadVersions(parts: seq<string>, v: Versions): Result<Versions, Error> {
    if parts == [] then Ok(v) else
    match ReadClause(parts[0])
    case Err(e) => Err(e)
    case Ok(c) =>
      if IsPin(c) && v.pins > 0 then Err(TwoPins)
      else ReadVersions(parts[1..], Counted(v, c))
  }

  /** The next part, taken by itself. */
  lemma ReadVersionsStep(parts: seq<string>, i: nat, v: Versions)
    requires i < |parts|
    ensures var read := ReadClause(parts[i]);
            ReadVersions(parts[i..], v) ==
            if read.Err? then Err(read.error)
            else if IsPin(read.value) && v.pins > 0 then Err(TwoPins)
            else ReadVersions(parts[i + 1..], Counted(v, read.value))
  {
    hide ReadClause, Counted, IsPin;
    assert parts[i..][1..] == parts[i + 1..];
  }

  function Counted(v: Versions, c: Clause): Versions {
    Versions(v.clauses + [c], if IsPin(c) then v.pins + 1 else v.pins,
             if IsPin(c) && '*' !in c.version then c.version else v.version)
  }

  const NO_VERSIONS := Versions([], 0, "")

  /** The requirement with its version clause applied. */
  function WithVersion(req: Requirement): Result<Requirement, Error> {
    if req.constraint == [] then Ok(req) else
    match ReadVersions(SplitComma(req.constraint), NO_VERSIONS)
    case Err(e) => Err(e)
    case Ok(v) =>
      Ok(req.(constraint := Joined(v.clauses), version := v.version, pinned := v.pins == 1 && v.version != []))
  }

  method ApplyVersion(req: Requirement) returns (r: Result<Requirement, Error>)
    requires req.version == []
    ensures r == WithVersion(req)
  {
    if req.constraint == [] {
      return Ok(req);
    }
    var parts := SplitComma(req.constraint);
    ghost var clauses := [];
    var clean, pins, version := "", 0, "";
    for i := 0 to |parts|
      invariant ReadVersions(parts[i..], Versions(clauses, pins, version)) == ReadVersions(parts, NO_VERSIONS)
      invariant clean == Joined(clauses) && |clauses| == i
    {
      hide ReadClause, Joined, IsPin, SplitComma, Operator, IsVersion, ReadVersions;
      ReadVersionsStep(parts, i, Versions(clauses, pins, version));
      var clause := ReadClause(parts[i]);
      if clause.Err? {
        return Err(clause.error);
      }
      var c := clause.value;
      JoinedSnoc(clauses, c);
      clean := (if i == 0 then "" else clean + ",") + c.op + c.version;
      if IsPin(c) {
        pins := pins + 1;
        if pins > 1 {
          return Err(TwoPins);
        }
        if '*' !in c.version {
          version := c.version;
        }
      }
      clauses := clauses + [c];
    }
    return Ok(req.(constraint := clean, version := version, pinned := pins == 1 && version != []));
  }

  // --- The parser ---------------------------------------------------------------------

  predicate IsIndent(ch: char) {
    ch == ' ' || ch == '\t'
  }

  predicate IsNotIndent(ch: char) {
    !IsIndent(ch)
  }

  function Blank(s: string): Requirement {
    Requirement(s, "", [], "", "", "", "", false)
  }

  /** Without a comment that stands behind a blank. */
  function Commentless(raw: string): string {
    match Find(raw, " #")
    case None => raw
    case Some(i) => if i > 0 then TrimSpace(raw[..i]) else raw
  }

  function LinkRequirement(req: Requirement, namePart: string, url: string): Result<Requirement, Error> {
    if url == [] then Err(EmptyUrl)
    else if Span(url, IsNotIndent) < |url| then Err(UrlHasSpaces)
    else match NameExtras(namePart)
      case Err(e) => Err(e)
      case Ok(n) => Ok(req.(name := n.0, extras := n.1, url := url))
  }

  function NamedRequirement(req: Requirement, part: string, rest: string): Result<Requirement, Error> {
    match NameExtras(part)
    case Err(e) => Err(e)
    case Ok(n) => WithVersion(req.(name := n.0, extras := n.1, constraint := TrimSpace(rest)))
  }

  function IndexRequirement(req: Requirement, body: string): Result<Requirement, Error> {
    var n := Span(body, IsNameChar);
    var rest := TrimLeft(body[n..], IsIndent);
    if rest != [] && rest[0] == '[' then
      match Find(rest, "]")
      case None => Err(OpenBracket)
      case Some(c) => NamedRequirement(req, body[..n] + rest[..c + 1], rest[c + 1..])
    else NamedRequirement(req, body[..n], rest)
  }

  ghost function BodyRequirement(req: Requirement, body: string): Result<Requirement, Error> {
    if body == [] then Err(NoName)
    else if IsVcs(body) then Err(VcsLink)
    else match Find(body, "@")
      case Some(i) => LinkRequirement(req, TrimSpace(body[..i]), TrimSpace(body[i + 1..]))
      case None => IndexRequirement(req, body)
  }

  ghost function Parse(s: string): Result<Requirement, Error> {
    var raw := Commentless(TrimSpace(s));
    if TrimSpace(s) == [] then Err(EmptyLine)
    else match Find(raw, ";")
      case None => BodyRequirement(Blank(s), raw)
      case Some(i) =>
        var marker := TrimSpace(raw[i + 1..]);
        if marker == [] then Err(EmptyMarker)
        else BodyRequirement(Blank(s).(marker := marker), TrimSpace(raw[..i]))
  }

  method ParseRequirement(s: string) returns (r: Result<Requirement, Error>)
    ensures r == Parse(s)
  {
    var req := Blank(s);
    var body := TrimSpace(s);
    if body == [] {
      return Err(EmptyLine);
    }
    body := Commentless(body);
    var semicolon := Find(body, ";");
    if semicolon.Some? {
      var marker := TrimSpace(body[semicolon.value + 1..]);
      if marker == [] {
        return Err(EmptyMarker);
      }
      req := req.(marker := marker);
      body := TrimSpace(body[..semicolon.value]);
    }
    if body == [] {
      return Err(NoName);
    }
    var vcs := IsVcsLink(body);
    if vcs {
      return Err(VcsLink);
    }
    r := ParseBody(req, body);
  }

  method ParseBody(req: Requirement, body: string) returns (r: Result<Requirement, Error>)
    requires body != [] && !IsVcs(body) && req.version == []
    ensures r == BodyRequirement(req, body)
  {
    hide IsVcs, NameExtras, WithVersion, Find, Span, TrimSpace, TrimLeft, AllOf;
    var at := Find(body, "@");
    if at.Some? {
      var url := TrimSpace(body[at.value + 1..]);
      if url == [] {
        return Err(EmptyUrl);
      }
      if Span(url, IsNotIndent) < |url| {
        return Err(UrlHasSpaces);
      }
      var named := ParseNameExtras(TrimSpace(body[..at.value]));
      if named.Err? {
        return Err(named.error);
      }
      return Ok(req.(name := named.value.0, extras := named.value.1, url := url));
    }
    var part, rest := SplitNameAndRest(body);
    assert part == body[..|part|] && rest == body[|part|..];
    rest := TrimLeft(rest, IsIndent);
    if rest != [] && rest[0] == '[' {
      var close := Find(rest, "]");
      if close.None? {
        return Err(OpenBracket);
      }
      part, rest := part + rest[..close.value + 1], rest[close.value + 1..];
    }
    var named := ParseNameExtras(part);
    if named.Err? {
      return Err(named.error);
    }
    r := ApplyVersion(req.(name := named.value.0, extras := named.value.1, constraint := TrimSpace(rest)));
  }

  // --- The manifest line --------------------------------------------------------------

  predicate IsManifestVersionChar(ch: char) {
    IsAlnum(ch) || ch == '_' || ch == '.' || ch == '+' || ch == '-'
  }

  predicate IsManifestVersion(s: string) {
    s != [] && IsAlnum(s[0]) && AllOf(s, IsManifestVersionChar)
  }

  /** The manifest's own pattern: a name, `==`, a version. */
  predicate MatchesManifest(spec: string) {
    var n := Span(spec, IsNameChar);
    && n > 0 && IsAlnum(spec[0]) && n + 2 <= |spec| && spec[n..n + 2] == "==" && IsManifestVersion(spec[n + 2..])
  }

  function ManifestSpec(r: Requirement): Option<string> {
    var spec := r.name + "==" + r.version;
    if !r.pinned || r.version == [] then None
    else if r.extras != [] || r.url != [] || r.marker != [] then None
    else if !MatchesManifest(spec) then None
    else Some(spec)
  }
}

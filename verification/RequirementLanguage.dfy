/** The requirement parser accepts nothing else: every line that it reads is one that can be written. */
module RequirementLanguage {
  import opened Base
  import opened RequirementText
  import opened Requirement
  import opened RequirementLaws
  import opened RequirementLines

  // --- Trimming -----------------------------------------------------------------------

  lemma {:induction false} TrimRightOf(s: string, p: char -> bool) returns (rest: string)
    ensures s == TrimRight(s, p) + rest && AllOf(rest, p)
    ensures TrimRight(s, p) != [] ==> !p(TrimRight(s, p)[|TrimRight(s, p)| - 1])
  {
    rest := [];
    if s != [] && p(s[|s| - 1]) {
      var r := TrimRightOf(s[..|s| - 1], p);
      rest := r + [s[|s| - 1]];
      assert s == s[..|s| - 1] + [s[|s| - 1]];
    }
  }

  /** The blanks that are trimmed off. */
  lemma {:induction false} TrimOf(s: string) returns (a: string, b: string)
    ensures s == a + TrimSpace(s) + b && Blanks(a) && Blanks(b)
    ensures TrimSpace(s) != [] ==> Trimmed(TrimSpace(s))
    ensures s != [] && !IsSpace(s[0]) ==> a == [] && TrimSpace(s) != []
    ensures s != [] && !IsSpace(s[|s| - 1]) ==> b == [] && TrimSpace(s) != []
  {
    var n := Span(s, IsSpace);
    a := s[..n];
    b := TrimRightOf(s[n..], IsSpace);
    assert s == a + s[n..];
    if s != [] && !IsSpace(s[|s| - 1]) { assert n < |s| && s[n..][|s| - n - 1] == s[|s| - 1]; }
    if TrimSpace(s) != [] { assert TrimSpace(s)[0] == s[n]; }
  }

  // --- Lists --------------------------------------------------------------------------

  function CommaText(pieces: seq<string>): string {
    if pieces == [] then [] else pieces[0] + if |pieces| == 1 then [] else [','] + CommaText(pieces[1..])
  }

  lemma {:induction false} SplitJoins(s: string)
    ensures CommaText(SplitComma(s)) == s
    decreases |s|
  {
    var f := Find(s, ",");
    if f.Some? {
      var i := f.value;
      SplitJoins(s[i + 1..]);
      var rest := SplitComma(s[i + 1..]);
      var all := [s[..i]] + rest;
      assert all[1..] == rest && s[i..i + 1][0] == s[i];
      assert s == s[..i] + ([','] + s[i + 1..]);
    }
  }

  lemma {:induction false} ExtrasOf(items: seq<string>, acc: seq<string>) returns (extras: seq<Extra>)
    requires Extras(items, acc).Ok?
    ensures |extras| == |items| && (forall i :: 0 <= i < |extras| ==> ExtraOk(extras[i]))
    ensures ExtrasText(extras) == CommaText(items)
    decreases |items|
  {
    hide IsName, TrimSpace, Blanks;
    extras := [];
    if items != [] {
      var item := TrimSpace(items[0]);
      var a, b := TrimOf(items[0]);
      var rest := ExtrasOf(items[1..], acc + [NormalizeExtra(item)]);
      extras := [Extra(a, item, b)] + rest;
      assert extras[1..] == rest && ExtrasText([]) == [];
    }
  }

  /** A text without outer blanks has none before its first and behind its last item. */
  lemma {:induction false} ExtrasAreTrimmed(extras: seq<Extra>)
    requires extras != [] && (forall i :: 0 <= i < |extras| ==> ExtraOk(extras[i])) && Trimmed(ExtrasText(extras))
    ensures ExtrasOk(extras)
  {
    hide IsName, IsSpace;
    FirstLeft(extras);
    LastRight(extras);
  }

  lemma {:induction false} FirstLeft(extras: seq<Extra>)
    requires extras != [] && ExtraOk(extras[0]) && ExtrasText(extras) != []
    ensures extras[0].left != [] ==> IsSpace(ExtrasText(extras)[0])
  {
    hide IsSpace;
    var e := extras[0];
    if e.left != [] { assert ExtrasText(extras)[0] == e.left[0]; }
  }

  lemma {:induction false} LastRight(extras: seq<Extra>)
    requires extras != [] && (forall i :: 0 <= i < |extras| ==> ExtraOk(extras[i]))
    ensures var s, e := ExtrasText(extras), extras[|extras| - 1];
            s != [] && (e.right != [] ==> IsSpace(s[|s| - 1]))
  {
    hide IsSpace;
    assert ExtraOk(extras[0]);
    if |extras| > 1 {
      assert forall i :: 0 <= i < |extras[1..]| ==> extras[1..][i] == extras[i + 1];
      LastRight(extras[1..]);
    } else {
      var e, s := extras[0], ExtrasText(extras);
      assert e.right != [] ==> s[|s| - 1] == e.right[|e.right| - 1];
    }
  }

  lemma {:induction false} PartOf(piece: string) returns (p: Part)
    requires ReadClause(piece).Ok?
    ensures PartOk(p) && PartText(p) == piece && p.clause == ReadClause(piece).value
  {
    hide TrimSpace, IsVersion, Operator, IsGap;
    var text := TrimSpace(piece);
    var a, b := TrimOf(piece);
    ClauseShape(piece);
    var c := ReadClause(piece).value;
    var rest := text[|c.op|..];
    var n := Span(rest, IsGap);
    p := Part(a, c, rest[..n], b);
    assert text == c.op + rest && rest == rest[..n] + c.version;
    Assoc(c.op, rest[..n], c.version);
  }

  lemma {:induction false} PartsOf(pieces: seq<string>, v: Versions) returns (parts: seq<Part>)
    requires ReadVersions(pieces, v).Ok?
    ensures |parts| == |pieces| && (forall i :: 0 <= i < |parts| ==> PartOk(parts[i])) &&
            PartsText(parts) == CommaText(pieces)
    decreases |pieces|
  {
    hide ReadClause, PartOk, PartText;
    parts := [];
    if pieces != [] {
      var p := PartOf(pieces[0]);
      var rest := PartsOf(pieces[1..], Counted(v, ReadClause(pieces[0]).value));
      parts := [p] + rest;
      assert parts[1..] == rest && PartsText([]) == [];
    }
  }

  lemma {:induction false} PartsAreTrimmed(parts: seq<Part>)
    requires parts != [] && (forall i :: 0 <= i < |parts| ==> PartOk(parts[i])) && Trimmed(PartsText(parts))
    ensures PartsOk(parts)
  {
    hide IsSpace, IsOperator, IsVersion;
    FirstBlank(parts);
    LastBlank(parts);
  }

  lemma {:induction false} FirstBlank(parts: seq<Part>)
    requires parts != [] && PartOk(parts[0]) && PartsText(parts) != []
    ensures parts[0].left != [] ==> IsSpace(PartsText(parts)[0])
  {
    hide IsSpace, IsOperator, IsVersion;
    var p := parts[0];
    if p.left != [] { assert PartsText(parts)[0] == p.left[0]; }
  }

  lemma {:induction false} LastBlank(parts: seq<Part>)
    requires parts != [] && (forall i :: 0 <= i < |parts| ==> PartOk(parts[i]))
    ensures var s, p := PartsText(parts), parts[|parts| - 1];
            s != [] && (p.right != [] ==> IsSpace(s[|s| - 1]))
  {
    hide IsSpace, IsOperator;
    assert PartOk(parts[0]);
    if |parts| > 1 {
      assert forall i :: 0 <= i < |parts[1..]| ==> parts[1..][i] == parts[i + 1];
      LastBlank(parts[1..]);
    } else {
      var p, s := parts[0], PartsText(parts);
      assert p.right != [] ==> s[|s| - 1] == p.right[|p.right| - 1];
    }
  }

  // --- Names --------------------------------------------------------------------------

  /** A name with brackets: what is in them, and the blanks. */
  lemma {:induction false} BracketOf(inner: string) returns (open: string, extras: seq<Extra>, close: string)
    requires Extras(SplitComma(TrimSpace(inner)), []).Ok?
    ensures extras != [] && ExtrasOk(extras) && Blanks(open) && Blanks(close) &&
            inner == open + ExtrasText(extras) + close
  {
    hide TrimSpace, IsName, Blanks, SplitComma, ExtrasOk, Extras;
    open, close := TrimOf(inner);
    var text := TrimSpace(inner);
    extras := ExtrasOf(SplitComma(text), []);
    SplitJoins(text);
    SplitHasPieces(text);
    NotEmptyText(extras);
    ExtrasAreTrimmed(extras);
  }

  lemma {:induction false} SplitHasPieces(s: string)
    ensures SplitComma(s) != []
  {
  }

  lemma {:induction false} NotEmptyText(extras: seq<Extra>)
    requires extras != [] && (forall i :: 0 <= i < |extras| ==> ExtraOk(extras[i]))
    ensures ExtrasText(extras) != []
  {
    LastRight(extras);
  }

  /** What a name part is made of. */
  lemma {:induction false} NameOf(part: string) returns (w: Written)
    requires NameExtras(part).Ok? && (part == [] || !IsSpace(part[0]))
    ensures NameOk(w) && Blanks(w.gap) && part == NameText(w)
    ensures if Find(part, "[").None? then w.extras == [] && w.name == part
            else w.extras != [] && part[..Find(part, "[").value] == w.name + w.gap
  {
    hide IsName, TrimSpace, Blanks, ExtrasOk, ExtrasText, Find, SplitComma, Extras, NormalizeDistName, IsSpace;
    NoBlanks();
    var none := Parts([], []);
    var f := Find(part, "[");
    if f.None? {
      w := Written([], part, [], [], [], [], none, None, None, []);
      NoExtras();
    } else {
      var i := f.value;
      BracketStands(part, i);
      var inner, front := part[i + 1..|part| - 1], part[..i];
      var open, extras, close := BracketOf(inner);
      var a, b := TrimOf(front);
      NameStarts(part, i);
      w := Written([], TrimSpace(front), b, open, extras, close, none, None, None, []);
      assert part == front + (['['] + inner + [']']);
      assert [] + TrimSpace(front) + b == TrimSpace(front) + b;
      Assoc(TrimSpace(front), b, BracketText(w));
    }
  }

  lemma {:induction false} NoExtras()
    ensures ExtrasOk([])
  {
  }

  lemma {:induction false} BracketStands(part: string, i: nat)
    requires Find(part, "[") == Some(i)
    ensures i < |part| && part[i] == '['
  {
    assert part[i..i + 1][0] == part[i];
  }

  /** The name before the brackets begins where the part begins. */
  lemma {:induction false} NameStarts(part: string, i: nat)
    requires NameExtras(part).Ok? && Find(part, "[") == Some(i) && i < |part| && part[i] == '[' && !IsSpace(part[0])
    ensures IsName(TrimSpace(part[..i])) && part[..i] != [] && part[..i][0] == part[0]
    ensures part[|part| - 1] == ']' && i + 1 <= |part| - 1 &&
            Extras(SplitComma(TrimSpace(part[i + 1..|part| - 1])), []).Ok?
  {
    hide Extras, SplitComma;
    NothingTrimmed();
    assert part[..0] == [];
  }

  // --- The body of a line -------------------------------------------------------------

  lemma {:induction false} NoNameNoRead()
    ensures NameExtras([]).Err? && TrimSpace([]) == []
  {
  }

  /** A body with a link. */
  lemma {:induction false} LinkOf(req: Requirement, core: string) returns (w: Written)
    requires BodyRequirement(req, core).Ok? && Find(core, "@").Some? && Trimmed(core) && ';' !in core && HashFree(core)
    ensures w.target.Link? && NameOk(w) && TargetOk(w.target) && core == CoreText(w)
  {
    hide IsVcs, NameExtras, IsName, TrimSpace, Blanks, Find, Span, HashFree, NormalizeDistName, NameOk, NameText,
      IsSpace, IndexRequirement, TargetOk, BracketText, ExtrasText, CoreText;
    var i := Find(core, "@").value;
    AtStands(core, i);
    var left, right := core[..i], core[i + 1..];
    var url := TrimSpace(right);
    NoNameNoRead();
    NotEmptyLeft(left);
    var a, pad := TrimOf(left);
    var gap, b := TrimOf(right);
    var named := NameOf(TrimSpace(left));
    w := named.(target := Link(pad, gap, url));
    RenamedOk(named, w);
    LinkText(w, core, left, right, i);
    UrlOk(core, pad, gap, url, i);
  }

  lemma {:induction false} AtStands(core: string, i: nat)
    requires Find(core, "@") == Some(i) && Trimmed(core)
    ensures i < |core| && core[i] == '@' && (i > 0 ==> !IsSpace(core[..i][0]))
    ensures i + 1 < |core| ==> !IsSpace(core[i + 1..][|core| - i - 2])
  {
    assert core[i..i + 1][0] == core[i];
    hide IsSpace;
  }

  lemma {:induction false} NotEmptyLeft(left: string)
    requires NameExtras(TrimSpace(left)).Ok?
    ensures left != [] && TrimSpace(left) != []
  {
    NoNameNoRead();
    hide TrimSpace, NameExtras;
  }

  /** The target says nothing about the name. */
  lemma {:induction false} RenamedOk(named: Written, w: Written)
    requires NameOk(named) && w.name == named.name && w.extras == named.extras && w.open == named.open
    requires w.close == named.close && Blanks(w.gap)
    ensures NameOk(w) && (w.gap == named.gap ==> NameText(w) == NameText(named))
  {
    hide IsName, ExtrasOk, Blanks, ExtrasText;
  }

  lemma {:induction false} LinkText(w: Written, core: string, left: string, right: string, i: nat)
    requires w.target.Link? && i < |core| && core[i] == '@' && left == core[..i] && right == core[i + 1..]
    requires left == NameText(w) + w.target.pad && right == w.target.gap + w.target.url
    ensures core == CoreText(w)
  {
    LinkParts(w);
    hide CoreText, NameText;
    assert core == left + "@" + right;
  }

  lemma {:induction false} UrlOk(core: string, pad: string, gap: string, url: string, i: nat)
    requires i < |core| && core[i + 1..] == gap + url && HashFree(core) && ';' !in core
    requires Blanks(pad) && Blanks(gap) && Trimmed(url) && Span(url, IsNotIndent) == |url|
    ensures TargetOk(Link(pad, gap, url))
  {
    hide Blanks, Trimmed;
    assert url[..|url|] == url;
    var t := gap + url;
    forall k | 0 <= k < |t| ensures t[k] == core[i + 1 + k] {}
    assert forall k :: 0 <= k < |url| ==> url[k] == t[|gap| + k] && IsNotIndent(url[k]);
  }

  /** What follows the name, blanks included, are version parts. */
  lemma {:induction false} TargetOf(req: Requirement, rest: string) returns (pad: string, parts: seq<Part>)
    requires WithVersion(req.(constraint := TrimSpace(rest))).Ok? && (rest == [] || !IsSpace(rest[|rest| - 1]))
    ensures PartsOk(parts) && Blanks(pad) && TargetText(Parts(pad, parts)) == rest && (parts == [] ==> rest == [])
  {
    hide IsSpace, TrimSpace, Blanks, SplitComma, ReadVersions, PartOk, PartsText, Joined;
    var b;
    pad, b := TrimOf(rest);
    NoBlanks();
    parts := [];
    if rest == [] {
      pad := [];
    } else {
      var text := TrimSpace(rest);
      TrimmedNotEmpty(text);
      parts := PartsOf(SplitComma(text), NO_VERSIONS);
      SplitHasPieces(text);
      SplitJoins(text);
      PartsAreTrimmed(parts);
      assert pad + text + [] == pad + text;
    }
  }

  /** A body with version parts. */
  lemma {:induction false} IndexOf(req: Requirement, core: string) returns (w: Written)
    requires IndexRequirement(req, core).Ok? && Trimmed(core)
    ensures w.target.Parts? && NameOk(w) && AllOf(w.gap, IsIndent) && TargetOk(w.target) && core == CoreText(w)
  {
    hide Find, IsSpace, NamedRequirement, IsNameChar, IsIndent, AllOf, NameOk, TargetOk, CoreText, Trimmed;
    var n := Span(core, IsNameChar);
    var name, rest := core[..n], TrimLeft(core[n..], IsIndent);
    var gap := IndentAhead(core[n..]);
    assert core == name + (gap + rest);
    if rest != [] && rest[0] == '[' {
      var c := Find(rest, "]").value;
      CloseStands(rest, c);
      w := BracketedOf(req, core, name, gap, rest[..c + 1], rest[c + 1..]);
    } else {
      w := PlainOf(req, core, name, gap, rest);
    }
  }

  /** A name with brackets, and version parts. */
  lemma {:induction false} BracketedOf(req: Requirement, core: string, name: string, gap: string, bracket: string,
                                       tail: string)
    returns (w: Written)
    requires Trimmed(core) && core == name + (gap + (bracket + tail)) && AllOf(name, IsNameChar) && AllOf(gap, IsIndent)
    requires bracket != [] && bracket[0] == '[' && NamedRequirement(req, name + bracket, tail).Ok?
    ensures w.target.Parts? && NameOk(w) && w.gap == gap && TargetOk(w.target) && core == CoreText(w)
  {
    hide NameExtras, IsName, TrimSpace, Blanks, Find, NormalizeDistName, NameOk, NameText, IsSpace, WithVersion,
      BracketText, ExtrasText, IsNameChar, IsIndent, PartsOk, TargetText, AllOf, CoreText, Trimmed;
    PartStarts(core, name, bracket);
    NameExtrasRead(req, name + bracket, tail);
    var named := NameOf(name + bracket);
    FindsBracket(name, bracket);
    assert core == name + gap + bracket + tail;
    SuffixEnds(core, name + gap + bracket, tail);
    var pad, parts := PartsBehind(req, name + bracket, tail);
    OneBracket(name, bracket, named);
    IndentIsBlank(gap);
    w := named.(gap := gap, target := Parts(pad, parts));
    RenamedOk(named, w);
    SameBracket(named, w);
    BracketedText(w, core, name, bracket, tail);
  }

  lemma {:induction false} SameBracket(named: Written, w: Written)
    requires w.extras == named.extras && w.open == named.open && w.close == named.close
    ensures BracketText(w) == BracketText(named)
  {
    hide ExtrasText;
  }

  lemma {:induction false} NameExtrasRead(req: Requirement, part: string, tail: string)
    requires NamedRequirement(req, part, tail).Ok?
    ensures NameExtras(part).Ok?
  {
    hide NameExtras, WithVersion;
  }

  lemma {:induction false} FindsBracket(name: string, bracket: string)
    requires AllOf(name, IsNameChar) && bracket != [] && bracket[0] == '['
    ensures Find(name + bracket, "[") == Some(|name|) && (name + bracket)[..|name|] == name
  {
    hide Find, IsNameChar;
    NoBracketIn(name);
    var part := name + bracket;
    assert part[|name|..|name| + 1] == "[" && part[..|name|] == name;
    FindAt(part, "[", 0, |name|);
  }

  /** A bare name, and version parts. */
  lemma {:induction false} PlainOf(req: Requirement, core: string, name: string, gap: string, rest: string)
    returns (w: Written)
    requires Trimmed(core) && core == name + (gap + rest) && AllOf(name, IsNameChar) && AllOf(gap, IsIndent)
    requires NamedRequirement(req, name, rest).Ok?
    ensures w.target.Parts? && NameOk(w) && w.gap == [] && AllOf(w.gap, IsIndent) && TargetOk(w.target) &&
            core == CoreText(w)
  {
    hide NameExtras, IsName, TrimSpace, Blanks, Find, NormalizeDistName, NameOk, NameText, IsSpace, WithVersion,
      BracketText, ExtrasText, IsNameChar, IsIndent, PartsOk, TargetText, AllOf, CoreText, Trimmed;
    PlainStarts(core, name);
    NameExtrasRead(req, name, rest);
    NoBracketHere(name);
    var named := NameOf(name);
    Assoc(name, gap, rest);
    SuffixEnds(core, name + gap, rest);
    SuffixEnds(core, name, gap + rest);
    var pad, parts := PartsBehind(req, name, rest);
    IndentIsBlank(gap);
    LastOfGap(gap, rest);
    BlanksJoin(gap, pad);
    NoBlanks();
    NothingOf();
    w := named.(gap := [], target := Parts(gap + pad, parts));
    RenamedOk(named, w);
    PlainText(w, core, gap, pad, parts, rest);
  }

  lemma {:induction false} IndentAhead(t: string) returns (gap: string)
    ensures AllOf(gap, IsIndent) && t == gap + TrimLeft(t, IsIndent)
  {
    gap := t[..Span(t, IsIndent)];
  }

  lemma {:induction false} CloseStands(rest: string, c: nat)
    requires Find(rest, "]") == Some(c)
    ensures c < |rest| && rest[c] == ']' && rest == rest[..c + 1] + rest[c + 1..]
  {
    assert rest[c..c + 1][0] == rest[c];
  }

  lemma {:induction false} PartStarts(core: string, name: string, bracket: string)
    requires Trimmed(core) && name <= core && bracket != [] && bracket[0] == '['
    ensures name + bracket != [] && !IsSpace((name + bracket)[0])
  {
    assert (name + bracket)[0] == if name != [] then core[0] else bracket[0];
  }

  lemma {:induction false} PlainStarts(core: string, name: string)
    requires Trimmed(core) && name <= core
    ensures name == [] || !IsSpace(name[0])
  {
    hide IsSpace;
  }

  /** A text that ends where the core does ends without a blank. */
  lemma {:induction false} SuffixEnds(core: string, front: string, tail: string)
    requires Trimmed(core) && core == front + tail
    ensures tail == [] || !IsSpace(tail[|tail| - 1])
  {
    hide IsSpace;
    if tail != [] { assert core[|core| - 1] == tail[|tail| - 1]; }
  }

  lemma {:induction false} PartsBehind(req: Requirement, part: string, tail: string)
    returns (pad: string, parts: seq<Part>)
    requires NamedRequirement(req, part, tail).Ok? && (tail == [] || !IsSpace(tail[|tail| - 1]))
    ensures PartsOk(parts) && Blanks(pad) && TargetText(Parts(pad, parts)) == tail && (parts == [] ==> tail == [])
  {
    hide NameExtras, WithVersion, IsSpace, TrimSpace, PartsOk, Blanks, TargetText;
    var n := NameExtras(part).value;
    pad, parts := TargetOf(req.(name := n.0, extras := n.1), tail);
  }

  lemma {:induction false} NoBracketIn(name: string)
    requires AllOf(name, IsNameChar)
    ensures '[' !in name && (Blanks(name) ==> name == [])
  {
    if name != [] { NotBoth(name[0]); }
  }

  lemma {:induction false} NotBoth(ch: char)
    ensures !(IsNameChar(ch) && IsSpace(ch))
  {
  }

  /** Between a name of name characters and its bracket there is no blank. */
  lemma {:induction false} OneBracket(name: string, bracket: string, named: Written)
    requires AllOf(name, IsNameChar) && bracket != [] && bracket[0] == '['
    requires named.extras != [] && Blanks(named.gap) && NameText(named) == name + bracket
    requires name == named.name + named.gap
    ensures named.name == name && BracketText(named) == bracket
  {
    hide IsNameChar, Blanks, BracketText;
    SuffixOf(named.name, named.gap);
    NoBracketIn(named.gap);
    assert named.name + [] == named.name;
    assert NameText(named)[|name|..] == BracketText(named) && (name + bracket)[|name|..] == bracket;
  }

  lemma {:induction false} SuffixOf(a: string, b: string)
    requires AllOf(a + b, IsNameChar)
    ensures AllOf(b, IsNameChar)
  {
    hide IsNameChar;
    forall i | 0 <= i < |b| ensures IsNameChar(b[i]) { assert b[i] == (a + b)[|a| + i]; }
  }

  lemma {:induction false} NoBracketHere(name: string)
    requires AllOf(name, IsNameChar)
    ensures Find(name, "[").None?
  {
    NoBracketIn(name);
    FindAbsent(name, "[", 0);
  }

  lemma {:induction false} BlanksJoin(a: string, b: string)
    requires Blanks(a) && Blanks(b)
    ensures Blanks(a + b)
  {
  }

  /** A gap with nothing behind it would end the core with a blank. */
  lemma {:induction false} LastOfGap(gap: string, rest: string)
    requires Blanks(gap) && (gap + rest == [] || !IsSpace((gap + rest)[|gap + rest| - 1]))
    ensures rest == [] ==> gap == []
  {
    assert gap + [] == gap;
  }

  lemma {:induction false} NothingOf()
    ensures AllOf([], IsIndent)
  {
  }

  lemma {:induction false} BracketedText(w: Written, core: string, name: string, bracket: string, tail: string)
    requires w.extras != [] && w.name == name && BracketText(w) == bracket && TargetText(w.target) == tail
    requires core == name + (w.gap + (bracket + tail))
    ensures core == CoreText(w)
  {
    hide BracketText, TargetText;
    assert NameText(w) == name + (w.gap + bracket);
    Assoc(w.gap, bracket, tail);
    Assoc(name, w.gap + bracket, tail);
  }

  lemma {:induction false} PlainText(w: Written, core: string, gap: string, pad: string, parts: seq<Part>, rest: string)
    requires w.extras == [] && w.target == Parts(gap + pad, parts) && core == w.name + (gap + rest)
    requires TargetText(Parts(pad, parts)) == rest && (parts == [] ==> rest == [] && gap == [])
    ensures core == CoreText(w)
  {
    hide PartsText;
    if parts != [] { Assoc(gap, pad, PartsText(parts)); }
  }

  // --- The line -----------------------------------------------------------------------

  lemma {:induction false} NoHashBefore(y: string, z: string, i: nat)
    requires y <= z && |y| <= i && (Find(z, " #").None? || Find(z, " #") == Some(i))
    ensures HashFree(y)
  {
    hide Find;
    forall k | 0 < k < |y| && y[k] == '#' ensures y[k - 1] != ' ' {
      if y[k - 1] == ' ' {
        assert z[k - 1] == y[k - 1] && z[k] == y[k];
        assert z[k - 1..k - 1 + 2] == " #";
        FindIsFirst(z, " #", k - 1);
        assert false;
      }
    }
  }

  /** The comment that is cut off, with the blanks before it. */
  lemma {:induction false} CommentOf(z: string) returns (c: Option<(string, string)>)
    requires Trimmed(z)
    ensures var y := Commentless(z); z == y + CommentText(c) && HashFree(y) && Trimmed(y)
    ensures c.Some? ==> Blanks(c.value.0)
    ensures c.Some? && c.value.1 != [] ==> !IsSpace(c.value.1[|c.value.1| - 1])
  {
    hide IsSpace, TrimSpace, HashFree, Find, Blanks;
    var f := Find(z, " #");
    if f.None? {
      c := None;
      NoHashBefore(z, z, |z|);
      assert z + [] == z;
    } else {
      c := CutComment(z, f.value);
    }
  }

  lemma {:induction false} CutComment(z: string, i: nat) returns (c: Option<(string, string)>)
    requires Trimmed(z) && Find(z, " #") == Some(i)
    ensures i > 0 && i <= |z| && var y := TrimSpace(z[..i]); z == y + CommentText(c) && HashFree(y) && Trimmed(y)
    ensures c.Some? && Blanks(c.value.0)
    ensures c.value.1 != [] ==> !IsSpace(c.value.1[|c.value.1| - 1])
  {
    hide IsSpace, TrimSpace, HashFree, Find, Blanks, Trimmed;
    BlankStands(z, i);
    var left, text := z[..i], z[i + 2..];
    var a, pad := TrimOf(left);
    var y := TrimSpace(left);
    assert left == y + pad && z == left + " #" + text;
    NoHashBefore(y, z, i);
    SuffixEnds(z, left + " #", text);
    c := Some((pad, text));
  }

  lemma {:induction false} BlankStands(z: string, i: nat)
    requires Find(z, " #") == Some(i) && Trimmed(z)
    ensures 0 < i && i + 2 <= |z| && z[i..i + 2] == " #" && z[..i] != [] && !IsSpace(z[..i][0])
  {
    assert z[i..i + 2][0] == z[i];
  }

  /** The marker that is cut off, with the blanks around it. */
  lemma {:induction false} MarkerOf(y: string, i: nat) returns (m: (string, string, string))
    requires Trimmed(y) && HashFree(y) && Find(y, ";") == Some(i)
    requires TrimSpace(y[i + 1..]) != [] && TrimSpace(y[..i]) != []
    ensures y == TrimSpace(y[..i]) + MarkerText(Some(m)) && m.2 == TrimSpace(y[i + 1..])
    ensures Blanks(m.0) && Blanks(m.1) && Trimmed(m.2) && HashFree(MarkerText(Some(m)))
    ensures Trimmed(TrimSpace(y[..i])) && HashFree(TrimSpace(y[..i])) && ';' !in TrimSpace(y[..i])
  {
    hide IsSpace, TrimSpace, HashFree, Find, Blanks;
    SemicolonStands(y, i);
    var left, right := y[..i], y[i + 1..];
    var core, text := TrimSpace(left), TrimSpace(right);
    var a, pad := TrimOf(left);
    var gap, b := TrimOf(right);
    SuffixEnds(y, y[..i + 1], right);
    NothingTrimmed();
    LeftStarts(y, i);
    m := (pad, gap, text);
    assert right == gap + text && left == core + pad;
    MarkerIs(core, Some(m));
    assert y == left + ";" + right;
    HashFreeParts(core, MarkerText(Some(m)), y);
    assert core <= left;
  }

  lemma {:induction false} LeftStarts(y: string, i: nat)
    requires Trimmed(y) && i <= |y|
    ensures y[..i] == [] || !IsSpace(y[..i][0])
  {
    hide IsSpace;
  }

  lemma {:induction false} SemicolonStands(y: string, i: nat)
    requires Find(y, ";") == Some(i)
    ensures i < |y| && y[i] == ';' && y == y[..i] + ";" + y[i + 1..] && ';' !in y[..i] && y == y[..i + 1] + y[i + 1..]
  {
    assert y[i..i + 1][0] == y[i];
    forall k | 0 <= k < i ensures y[k] != ';' {
      if y[k] == ';' {
        assert y[k..k + 1] == ";";
        FindIsFirst(y, ";", k);
        assert false;
      }
    }
  }

  lemma {:induction false} HashFreeParts(a: string, b: string, y: string)
    requires y == a + b && HashFree(y)
    ensures HashFree(a) && HashFree(b)
  {
    forall k | 0 < k < |a| && a[k] == '#' ensures a[k - 1] != ' ' { assert y[k] == a[k] && y[k - 1] == a[k - 1]; }
    forall k | 0 < k < |b| && b[k] == '#' ensures b[k - 1] != ' ' {
      assert y[|a| + k] == b[k] && y[|a| + k - 1] == b[k - 1];
    }
  }

  /** A body that is read is a name with its target. */
  lemma {:induction false} BodyOf(req: Requirement, core: string) returns (w: Written)
    requires BodyRequirement(req, core).Ok? && Trimmed(core) && ';' !in core && HashFree(core)
    ensures NameOk(w) && (w.target.Parts? ==> AllOf(w.gap, IsIndent)) && TargetOk(w.target)
    ensures core == CoreText(w) && !IsVcs(core)
  {
    hide IsVcs, NameOk, TargetOk, CoreText, Find, HashFree, Trimmed, IndexRequirement, LinkRequirement;
    if Find(core, "@").Some? {
      w := LinkOf(req, core);
    } else {
      w := IndexOf(req, core);
    }
  }

  /** A line that is read can be written. */
  lemma {:induction false} LineOf(s: string) returns (w: Written)
    requires Parse(s).Ok?
    ensures LineOk(w) && LineText(w) == s
  {
    hide IsVcs, BodyRequirement, TrimSpace, Find, Blanks, Commentless, HashFree, Trimmed, IsSpace, CoreText,
      CommentText, NameText, IsName, ExtrasOk, TargetOk, MarkerText;
    var z := TrimSpace(s);
    var before, after := TrimOf(s);
    var comment := CommentOf(z);
    var y := Commentless(z);
    var f := Find(y, ";");
    NoBodyNoRead(s);
    if f.None? {
      NoSemicolon(y);
      MarkerIs(y, None);
      var body := BodyOf(Blank(s), y);
      SameCore(body, body.(before := before, marker := None, comment := comment, after := after));
      w := body.(before := before, marker := None, comment := comment, after := after);
    } else {
      var i := f.value;
      var m := MarkerOf(y, i);
      var body := BodyOf(Blank(s).(marker := TrimSpace(y[i + 1..])), TrimSpace(y[..i]));
      w := body.(before := before, marker := Some(m), comment := comment, after := after);
      SameCore(body, w);
    }
    LineAssembles(w, s, z, y);
  }

  lemma {:induction false} SameCore(body: Written, w: Written)
    requires w.name == body.name && w.gap == body.gap && w.open == body.open && w.extras == body.extras
    requires w.close == body.close && w.target == body.target
    ensures CoreText(w) == CoreText(body) && (NameOk(body) ==> NameOk(w))
    ensures NameOk(w) ==> IsName(w.name) && ExtrasOk(w.extras) && Blanks(w.open) && Blanks(w.close) && Blanks(w.gap)
  {
    hide IsName, ExtrasOk, Blanks, TargetText, ExtrasText;
  }

  lemma {:induction false} NoSemicolon(y: string)
    requires Find(y, ";").None?
    ensures ';' !in y
  {
    forall k | 0 <= k < |y| ensures y[k] != ';' {
      if y[k] == ';' {
        assert y[k..k + 1] == ";";
        FindIsFirst(y, ";", k);
        assert false;
      }
    }
  }

  /** A line with an empty body or marker is refused. */
  lemma {:induction false} NoBodyNoRead(s: string)
    requires Parse(s).Ok?
    ensures TrimSpace(s) != []
    ensures var y := Commentless(TrimSpace(s)); var f := Find(y, ";");
            f.Some? ==> f.value + 1 <= |y| && TrimSpace(y[f.value + 1..]) != [] && TrimSpace(y[..f.value]) != []
  {
    hide Commentless, TrimSpace, IsVcs, LinkRequirement, IndexRequirement;
  }

  lemma {:induction false} LineAssembles(w: Written, s: string, z: string, y: string)
    requires s == w.before + z + w.after && z == y + CommentText(w.comment) && y == CoreText(w) + MarkerText(w.marker)
    ensures LineText(w) == s
  {
    hide CoreText, CommentText, MarkerText;
  }

  /** The lines the parser reads are exactly those that can be written with one `==` part at the most. */
  lemma {:induction false} ReadableIff(s: string)
    ensures Parse(s).Ok? <==>
            exists w :: LineOk(w) && LineText(w) == s && (w.target.Parts? ==> Pins(Clauses(w.target.parts)) <= 1)
  {
    hide Parse, LineOk, LineText, Pins, Clauses;
    if Parse(s).Ok? {
      var w := LineOf(s);
      LineReadsBack(w);
    }
    if w :| LineOk(w) && LineText(w) == s && (w.target.Parts? ==> Pins(Clauses(w.target.parts)) <= 1) {
      LineReadsBack(w);
    }
  }
}

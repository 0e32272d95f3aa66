/**
 The document built from the statements.  A node of the source's tree is named here by its path from
 the root; the tree is the map from those paths to nodes.  Proved: which statement lists are accepted
 (exactly those without a clash, and otherwise the first clashing statement is the one reported), and
 that in an accepted one every assignment is found at its path.
 */
module TomlDocument {
  import opened Base
  import opened TomlText
  import opened TomlScanner

  type Path = seq<string>

  datatype Node = Node(line: nat, declared: bool, val: Option<Toml>, order: seq<string>)

  type Nodes = map<Path, Node>

  const EMPTY: Nodes := map[[] := Node(0, false, None, [])]

  // --- The two operations as functions ------------------------------------------------

  /** The child `seg` of `cur`, made on `line` when it was missing. */
  function WithChild(nodes: Nodes, cur: Path, seg: string, line: nat): (r: Nodes)
    requires cur in nodes
    ensures cur + [seg] in r
  {
    if cur + [seg] in nodes then nodes
    else nodes[cur := nodes[cur].(order := nodes[cur].order + [seg])][cur + [seg] := Node(line, false, None, [])]
  }

  /** Assigns below `cur`: the tree afterwards, and the failure if there is one. */
  function WithPath(nodes: Nodes, cur: Path, path: Path, val: Toml, line: nat): (Nodes, Option<Failure>)
    requires cur in nodes
    decreases |path|
  {
    if path == [] then (nodes, None) else
    var n, next := WithChild(nodes, cur, path[0], line), cur + [path[0]];
    if |path| == 1 then
      if n[next].val.Some? then (n, Some(Failure("duplicate key", line)))
      else if n[next].declared then (n, Some(Failure("key is a table", line)))
      else (n[next := n[next].(val := Some(val))], None)
    else if n[next].val.Some? then (n, Some(Failure("path through a value", line)))
    else WithPath(n, next, path[1..], val, line)
  }

  /** Declares the table at `path` below `cur`. */
  function WithTable(nodes: Nodes, cur: Path, path: Path, line: nat): (Nodes, Option<Failure>)
    requires cur in nodes
    decreases |path|
  {
    if path == [] then (nodes, None) else
    var n, next := WithChild(nodes, cur, path[0], line), cur + [path[0]];
    if n[next].val.Some? then (n, Some(Failure("table is a value", line)))
    else if |path| == 1 then
      if n[next].declared then (n, Some(Failure("duplicate table", line)))
      else (n[next := n[next].(declared := true)], None)
    else WithTable(n, next, path[1..], line)
  }

  function NextBase(base: Path, st: Stmt): Path {
    if st.Header? then st.path else base
  }

  /** One statement: the tree after it, or the failure. */
  function Perform(n: Nodes, base: Path, st: Stmt): (Nodes, Option<Failure>)
    requires base in n && [] in n
  {
    if st.Header? then WithTable(n, [], st.path, st.line) else WithPath(n, base, st.path, st.val, st.line)
  }

  /** Headers move the base that assignments are relative to; the first failure ends it. */
  function Build(n: Nodes, base: Path, stmts: seq<Stmt>): Result<Nodes, Failure>
    requires base in n && [] in n
    decreases |stmts|
  {
    if stmts == [] then Ok(n) else
    var (m, f) := Perform(n, base, stmts[0]);
    if f.Some? then Err(f.value) else
    PerformKeeps(n, base, stmts[0]);
    Build(m, NextBase(base, stmts[0]), stmts[1..])
  }

  // --- What the operations do ---------------------------------------------------------

  /** `p` lies below `cur` on the way to `full`, the end included. */
  predicate Between(cur: Path, p: Path, full: Path) {
    |cur| < |p| && p <= full
  }

  /** From `n` to `m`, only the nodes towards `full` were added, and no node but `full` has changed its meaning. */
  ghost predicate Grown(n: Nodes, m: Nodes, cur: Path, full: Path) {
    && (forall p :: p in m <==> p in n || Between(cur, p, full))
    && (forall p :: p in n && p != full ==> m[p].val == n[p].val && m[p].declared == n[p].declared)
    && (forall p :: p in m && p !in n && p != full ==> m[p].val == None && !m[p].declared)
  }

  /** No node strictly between `cur` and `full` holds a value. */
  ghost predicate WayFree(n: Nodes, cur: Path, full: Path) {
    forall p :: p in n && Between(cur, p, full) && p != full ==> n[p].val.None?
  }

  ghost predicate Vacant(n: Nodes, p: Path) {
    p in n ==> n[p].val.None? && !n[p].declared
  }

  ghost predicate Listed(n: Nodes, p: Path)
    requires p != []
  {
    p[..|p| - 1] in n && p[|p| - 1] in n[p[..|p| - 1]].order
  }

  ghost predicate ListsChildren(n: Nodes, p: Path)
    requires p in n
  {
    Distinct(n[p].order) && forall seg :: seg in n[p].order ==> p + [seg] in n
  }

  /** The tree is closed under parents, and every node lists each of its children exactly once. */
  ghost predicate Tree(n: Nodes) {
    && [] in n
    && (forall p :: p in n && p != [] ==> Listed(n, p))
    && (forall p :: p in n ==> ListsChildren(n, p))
  }

  lemma ChildGrows(n: Nodes, cur: Path, seg: string, line: nat)
    requires cur in n
    ensures var m := WithChild(n, cur, seg, line);
            && (forall p :: p in m <==> p in n || p == cur + [seg])
            && (forall p :: p in n ==> m[p].val == n[p].val && m[p].declared == n[p].declared)
            && (cur + [seg] !in n ==> m[cur + [seg]].val == None && !m[cur + [seg]].declared)
  {
  }

  lemma ChildKeepsTree(n: Nodes, cur: Path, seg: string, line: nat)
    requires cur in n && Tree(n)
    ensures Tree(WithChild(n, cur, seg, line))
  {
    hide Listed, ListsChildren;
    var m, child := WithChild(n, cur, seg, line), cur + [seg];
    if child !in n {
      forall p | p in m && p != []
        ensures Listed(m, p)
      {
        ChildListed(n, cur, seg, line, p);
      }
      forall p | p in m
        ensures ListsChildren(m, p)
      {
        ChildLists(n, cur, seg, line, p);
      }
    }
  }

  lemma ChildListed(n: Nodes, cur: Path, seg: string, line: nat, p: Path)
    requires cur in n && cur + [seg] !in n && p != []
    requires (p in n && Listed(n, p)) || p == cur + [seg]
    ensures Listed(WithChild(n, cur, seg, line), p)
  {
    var order := n[cur].order + [seg];
    assert order[|order| - 1] == seg;
    if p == cur + [seg] {
      assert p[..|p| - 1] == cur;
    } else {
      assert p[..|p| - 1] != cur + [seg];
      if p[..|p| - 1] == cur {
        assert p[|p| - 1] in order;
      }
    }
  }

  lemma ChildLists(n: Nodes, cur: Path, seg: string, line: nat, p: Path)
    requires cur in n && ListsChildren(n, cur) && cur + [seg] !in n
    requires (p in n && ListsChildren(n, p)) || p == cur + [seg]
    ensures ListsChildren(WithChild(n, cur, seg, line), p)
  {
    if p == cur {
      assert seg !in n[cur].order;
    }
  }

  /** The nodes between `cur` and `full` are the next one and those between it and `full`. */
  lemma NextBetween(cur: Path, path: Path)
    requires path != []
    ensures cur + path == cur + [path[0]] + path[1..]
    ensures forall p :: Between(cur, p, cur + path) <==> p == cur + [path[0]] || Between(cur + [path[0]], p, cur + path)
  {
    assert path == [path[0]] + path[1..];
    var full, next := cur + path, cur + [path[0]];
    assert full == next + path[1..];
    forall p
      ensures Between(cur, p, full) <==> p == next || Between(next, p, full)
    {
      if Between(cur, p, full) && |p| == |next| {
        assert p == full[..|next|] == next;
      }
    }
  }

  lemma {:induction false} Assigned(n: Nodes, cur: Path, path: Path, val: Toml, line: nat)
    requires cur in n
    ensures var (m, f) := WithPath(n, cur, path, val, line);
            && (forall p :: p in n ==> p in m)
            && (f.Some? ==> f.value.line == line)
    decreases |path|
  {
    if path != [] {
      ChildGrows(n, cur, path[0], line);
      if |path| > 1 {
        Assigned(WithChild(n, cur, path[0], line), cur + [path[0]], path[1..], val, line);
      }
    }
  }

  lemma {:induction false} Attached(n: Nodes, cur: Path, path: Path, line: nat)
    requires cur in n
    ensures var (m, f) := WithTable(n, cur, path, line);
            && (forall p :: p in n ==> p in m)
            && (f.Some? ==> f.value.line == line)
            && (f.None? ==> cur + path in m)
    decreases |path|
  {
    if path == [] {
      assert cur + path == cur;
    } else {
      ChildGrows(n, cur, path[0], line);
      NextBetween(cur, path);
      if |path| > 1 {
        Attached(WithChild(n, cur, path[0], line), cur + [path[0]], path[1..], line);
      }
    }
  }

  lemma PerformKeeps(n: Nodes, base: Path, st: Stmt)
    requires base in n && [] in n
    ensures var (m, f) := Perform(n, base, st);
            [] in m && (f.None? ==> NextBase(base, st) in m) && (f.Some? ==> f.value.line == st.line)
  {
    if st.Header? {
      Attached(n, [], st.path, st.line);
      assert [] + st.path == st.path;
    } else {
      Assigned(n, base, st.path, st.val, st.line);
    }
  }

  /** An assignment goes through exactly when no value stands on the way and the place is vacant. */
  lemma {:induction false} WithPathMeans(n: Nodes, cur: Path, path: Path, val: Toml, line: nat)
    requires cur in n && path != []
    ensures var (m, f) := WithPath(n, cur, path, val, line);
            var full := cur + path;
            && (f.None? <==> WayFree(n, cur, full) && Vacant(n, full))
            && (f.None? ==> Grown(n, m, cur, full) && m[full].val == Some(val) && !m[full].declared)
    decreases |path|
  {
    hide Between;
    var k, next, full := WithChild(n, cur, path[0], line), cur + [path[0]], cur + path;
    ChildGrows(n, cur, path[0], line);
    NextBetween(cur, path);
    LastBetween(next, full);
    if |path| == 1 {
      assert full == next;
    } else {
      WithPathMeans(k, next, path[1..], val, line);
      assert full != next;
    }
  }

  /** A header goes through exactly when no value stands on the way or at its end, and it is new. */
  lemma {:induction false} WithTableMeans(n: Nodes, cur: Path, path: Path, line: nat)
    requires cur in n && path != []
    ensures var (m, f) := WithTable(n, cur, path, line);
            var full := cur + path;
            && (f.None? <==> WayFree(n, cur, full) && Vacant(n, full))
            && (f.None? ==> Grown(n, m, cur, full) && m[full].val == None && m[full].declared)
    decreases |path|
  {
    hide Between;
    var k, next, full := WithChild(n, cur, path[0], line), cur + [path[0]], cur + path;
    ChildGrows(n, cur, path[0], line);
    NextBetween(cur, path);
    LastBetween(next, full);
    if |path| == 1 {
      assert full == next;
    } else {
      WithTableMeans(k, next, path[1..], line);
      assert full != next;
    }
  }

  lemma LastBetween(cur: Path, full: Path)
    ensures !Between(cur, cur, full)
    ensures cur == full ==> forall p :: !Between(cur, p, full)
    ensures |cur| < |full| ==> Between(cur, full, full)
  {
  }

  /** Values and declarations do not matter to the shape of the tree. */
  lemma ShapeKeepsTree(n: Nodes, p: Path, node: Node)
    requires Tree(n) && p in n && node.order == n[p].order
    ensures Tree(n[p := node])
  {
    var m := n[p := node];
    forall q | q in m && q != []
      ensures Listed(m, q)
    {
      assert Listed(n, q);
    }
    forall q | q in m
      ensures ListsChildren(m, q)
    {
      assert ListsChildren(n, q);
    }
  }

  lemma {:induction false} WithPathKeepsTree(n: Nodes, cur: Path, path: Path, val: Toml, line: nat)
    requires cur in n && Tree(n)
    ensures Tree(WithPath(n, cur, path, val, line).0)
    decreases |path|
  {
    hide Tree;
    if path != [] {
      var m, next := WithChild(n, cur, path[0], line), cur + [path[0]];
      ChildKeepsTree(n, cur, path[0], line);
      if |path| > 1 {
        WithPathKeepsTree(m, next, path[1..], val, line);
      } else {
        ShapeKeepsTree(m, next, m[next].(val := Some(val)));
      }
    }
  }

  lemma {:induction false} WithTableKeepsTree(n: Nodes, cur: Path, path: Path, line: nat)
    requires cur in n && Tree(n)
    ensures Tree(WithTable(n, cur, path, line).0)
    decreases |path|
  {
    hide Tree;
    if path != [] {
      var m, next := WithChild(n, cur, path[0], line), cur + [path[0]];
      ChildKeepsTree(n, cur, path[0], line);
      if |path| > 1 {
        WithTableKeepsTree(m, next, path[1..], line);
      } else {
        ShapeKeepsTree(m, next, m[next].(declared := true));
      }
    }
  }

  // --- Which documents are accepted ---------------------------------------------------

  /** What a statement says of its full path. */
  datatype Fact = Assigns(path: Path, val: Toml) | Declares(path: Path)

  function FactOf(base: Path, st: Stmt): Fact {
    match st
    case Header(path, _) => Declares(path)
    case Assign(path, val, _) => Assigns(base + path, val)
  }

  function Facts(base: Path, stmts: seq<Stmt>): (fs: seq<Fact>)
    ensures |fs| == |stmts|
    decreases |stmts|
  {
    if stmts == [] then [] else [FactOf(base, stmts[0])] + Facts(NextBase(base, stmts[0]), stmts[1..])
  }

  /** A later fact that an earlier one rules out. */
  predicate Clash(earlier: Fact, later: Fact) {
    if earlier.Assigns? then earlier.path <= later.path else earlier.path == later.path
  }

  ghost predicate Compatible(fs: seq<Fact>) {
    forall i, j :: 0 <= i < j < |fs| ==> !Clash(fs[i], fs[j])
  }

  ghost predicate FirstClash(fs: seq<Fact>, j: nat) {
    j < |fs| && Compatible(fs[..j]) && exists i :: 0 <= i < j && Clash(fs[i], fs[j])
  }

  ghost predicate Touched(fs: seq<Fact>, p: Path) {
    exists f :: f in fs && p <= f.path
  }

  /** The nodes are the root and the paths the facts lead along. */
  ghost predicate SamePaths(n: Nodes, fs: seq<Fact>) {
    && (forall f :: f in fs ==> f.path != [])
    && (forall p :: p in n <==> p == [] || Touched(fs, p))
  }

  ghost predicate SameTables(n: Nodes, fs: seq<Fact>) {
    forall p :: p in n ==> (n[p].declared <==> Declares(p) in fs)
  }

  ghost predicate SameValues(n: Nodes, fs: seq<Fact>) {
    && (forall p :: p in n && n[p].val.Some? ==> Assigns(p, n[p].val.value) in fs)
    && (forall p, v :: Assigns(p, v) in fs ==> p in n && n[p].val == Some(v))
  }

  /** The tree says exactly what the facts say. */
  ghost predicate Holds(n: Nodes, fs: seq<Fact>) {
    SamePaths(n, fs) && SameTables(n, fs) && SameValues(n, fs)
  }

  /** No value stands at `base` or above it. */
  ghost predicate BaseFree(n: Nodes, base: Path) {
    base in n && forall p :: p in n && p <= base ==> n[p].val.None?
  }

  lemma PrefixOfPrefix(p: Path, base: Path, full: Path)
    requires base <= full
    ensures p <= full && |p| <= |base| ==> p <= base
  {
    if p <= full && |p| <= |base| {
      assert p == full[..|p|] == base[..|p|];
    }
  }

  /** Every prefix of a node is a node, and the root holds no value. */
  lemma PrefixesHeld(n: Nodes, fs: seq<Fact>, base: Path)
    requires Holds(n, fs)
    ensures [] in n && n[[]].val.None?
    ensures base in n ==> forall p :: p <= base ==> p in n
  {
    if base in n && base != [] {
      var g :| g in fs && base <= g.path;
      forall p | p <= base
        ensures p in n
      {
        assert p <= g.path;
      }
    }
  }

  /** Nothing in the way is the same as no clash with an earlier fact. */
  lemma FreeMeansNoClash(n: Nodes, fs: seq<Fact>, base: Path, f: Fact)
    requires Holds(n, fs) && BaseFree(n, base) && base < f.path
    ensures (WayFree(n, base, f.path) && Vacant(n, f.path)) <==> forall g :: g in fs ==> !Clash(g, f)
  {
    if WayFree(n, base, f.path) && Vacant(n, f.path) {
      forall g | g in fs
        ensures !Clash(g, f)
      {
        assert Touched(fs, g.path);
        PrefixOfPrefix(g.path, base, f.path);
        assert g.Assigns? ==> n[g.path].val == Some(g.val);
      }
    }
    if forall g :: g in fs ==> !Clash(g, f) {
      forall p | p in n && Between(base, p, f.path)
        ensures n[p].val.None?
      {
      }
      if f.path in n {
        assert Declares(f.path) in fs ==> !Clash(Declares(f.path), f);
      }
    }
  }

  lemma GrownPaths(n: Nodes, m: Nodes, fs: seq<Fact>, base: Path, f: Fact)
    requires Holds(n, fs) && base in n && base < f.path && Grown(n, m, base, f.path)
    ensures SamePaths(m, fs + [f])
  {
    var gs := fs + [f];
    assert f in gs;
    PrefixesHeld(n, fs, base);
    forall p
      ensures p in m <==> p == [] || Touched(gs, p)
    {
      if p in n && p != [] {
        var g :| g in fs && p <= g.path;
        assert g in gs;
      }
      if p != [] && Touched(gs, p) && p !in n {
        var g :| g in gs && p <= g.path;
        assert g == f;
        PrefixOfPrefix(p, base, f.path);
      }
    }
  }

  lemma NoneEarlier(fs: seq<Fact>, f: Fact)
    requires forall g :: g in fs ==> !Clash(g, f)
    ensures Declares(f.path) !in fs && forall v :: Assigns(f.path, v) !in fs
  {
    assert Declares(f.path) in fs ==> !Clash(Declares(f.path), f);
    forall v
      ensures Assigns(f.path, v) !in fs
    {
      assert Assigns(f.path, v) in fs ==> !Clash(Assigns(f.path, v), f);
    }
  }

  lemma GrownTables(n: Nodes, m: Nodes, fs: seq<Fact>, base: Path, f: Fact)
    requires SamePaths(n, fs) && SameTables(n, fs) && Grown(n, m, base, f.path) && Declares(f.path) !in fs
    requires f.path in m && m[f.path].declared == f.Declares?
    ensures SameTables(m, fs + [f])
  {
    hide Between;
    forall p | p in m
      ensures m[p].declared <==> Declares(p) in fs + [f]
    {
      assert Declares(p) in fs ==> Touched(fs, p);
    }
  }

  lemma GrownValues(n: Nodes, m: Nodes, fs: seq<Fact>, base: Path, f: Fact)
    requires SameValues(n, fs) && Grown(n, m, base, f.path) && forall v :: Assigns(f.path, v) !in fs
    requires f.path in m && m[f.path].val == if f.Assigns? then Some(f.val) else None
    ensures SameValues(m, fs + [f])
  {
    hide Between;
    forall p | p in m && m[p].val.Some?
      ensures Assigns(p, m[p].val.value) in fs + [f]
    {
      assert p != f.path ==> p in n;
    }
    forall p, v | Assigns(p, v) in fs + [f]
      ensures p in m && m[p].val == Some(v)
    {
      assert p != f.path ==> Assigns(p, v) in fs;
    }
  }

  lemma GrownHolds(n: Nodes, m: Nodes, fs: seq<Fact>, base: Path, f: Fact)
    requires Holds(n, fs) && base in n && base < f.path && Grown(n, m, base, f.path)
    requires forall g :: g in fs ==> !Clash(g, f)
    requires f.path in m && m[f.path].declared == f.Declares?
    requires m[f.path].val == if f.Assigns? then Some(f.val) else None
    ensures Holds(m, fs + [f])
  {
    hide Grown, Clash, SamePaths, SameTables, SameValues;
    NoneEarlier(fs, f);
    GrownPaths(n, m, fs, base, f);
    GrownTables(n, m, fs, base, f);
    GrownValues(n, m, fs, base, f);
  }

  lemma CompatibleSnoc(fs: seq<Fact>, f: Fact)
    requires Compatible(fs)
    ensures Compatible(fs + [f]) <==> forall g :: g in fs ==> !Clash(g, f)
  {
    var gs := fs + [f];
    if Compatible(gs) {
      forall g | g in fs
        ensures !Clash(g, f)
      {
        var i :| 0 <= i < |fs| && fs[i] == g;
        assert gs[i] == g && gs[|fs|] == f;
      }
    }
  }

  /** A statement goes through exactly when it clashes with nothing before it, and then the tree says it too. */
  lemma PerformMeans(n: Nodes, base: Path, fs: seq<Fact>, st: Stmt)
    requires [] in n && Holds(n, fs) && Tree(n) && BaseFree(n, base) && st.path != []
    ensures var (m, failure) := Perform(n, base, st);
            var f := FactOf(base, st);
            && (failure.None? <==> forall g :: g in fs ==> !Clash(g, f))
            && [] in m
            && (failure.None? ==>
                NextBase(base, st) in m && Holds(m, fs + [f]) && Tree(m) && BaseFree(m, NextBase(base, st)))
            && (failure.Some? ==> failure.value.line == st.line)
  {
    hide Holds, Tree, Touched, Clash;
    var (m, failure) := Perform(n, base, st);
    var f, from := FactOf(base, st), if st.Header? then [] else base;
    assert [] + st.path == st.path;
    assert f.path == from + st.path;
    PrefixesHeld(n, fs, []);
    assert BaseFree(n, from);
    if st.Header? {
      WithTableMeans(n, [], st.path, st.line);
      Attached(n, [], st.path, st.line);
      WithTableKeepsTree(n, [], st.path, st.line);
    } else {
      WithPathMeans(n, base, st.path, st.val, st.line);
      Assigned(n, base, st.path, st.val, st.line);
      WithPathKeepsTree(n, base, st.path, st.val, st.line);
    }
    FreeMeansNoClash(n, fs, from, f);
    if failure.None? {
      GrownHolds(n, m, fs, from, f);
      BaseStaysFree(n, m, base, st);
    }
  }

  lemma {:induction false} BaseStaysFree(n: Nodes, m: Nodes, base: Path, st: Stmt)
    requires st.path != [] && [] in n && BaseFree(n, base) && BaseFree(n, [])
    requires var from := if st.Header? then [] else base;
             && Grown(n, m, from, from + st.path)
             && (st.Header? ==> WayFree(n, [], st.path) && st.path in m && m[st.path].val == None)
    ensures BaseFree(m, NextBase(base, st))
  {
    assert [] + st.path == st.path;
    var next := NextBase(base, st);
    forall p | p in m && p <= next
      ensures m[p].val.None?
    {
      if st.Header? && p != st.path && p in n && p != [] {
        assert Between([], p, st.path);
      }
    }
  }

  ghost predicate WellPathed(stmts: seq<Stmt>) {
    forall i :: 0 <= i < |stmts| ==> stmts[i].path != []
  }

  /** `Build` succeeds iff no fact clashes with an earlier one; otherwise it reports the first that does. */
  lemma {:induction false} BuildMeans(n: Nodes, base: Path, done: seq<Fact>, stmts: seq<Stmt>)
    requires base in n && [] in n && Holds(n, done) && Tree(n) && BaseFree(n, base) && Compatible(done) &&
             WellPathed(stmts)
    ensures var all := done + Facts(base, stmts);
            match Build(n, base, stmts)
            case Ok(m) => Compatible(all) && Holds(m, all) && Tree(m)
            case Err(f) => exists k :: 0 <= k < |stmts| && FirstClash(all, |done| + k) && f.line == stmts[k].line
    decreases |stmts|
  {
    hide Holds, Clash, Compatible, Perform, Tree, BaseFree, FirstClash, FactOf, NextBase;
    var all := done + Facts(base, stmts);
    if stmts == [] {
      assert all == done;
    } else {
      var st, rest, next := stmts[0], stmts[1..], NextBase(base, stmts[0]);
      var f := FactOf(base, st);
      var (m, failure) := Perform(n, base, st);
      PerformMeans(n, base, done, st);
      CompatibleSnoc(done, f);
      assert all == done + [f] + Facts(next, rest);
      if failure.None? {
        BuildMeans(m, next, done + [f], rest);
        if Build(m, next, rest).Err? {
          var k :| 0 <= k < |rest| && FirstClash(all, |done| + 1 + k) &&
                   Build(m, next, rest).error.line == rest[k].line;
          assert rest[k] == stmts[k + 1] && FirstClash(all, |done| + (k + 1));
        }
      } else {
        ClashIsFirst(done, f, all);
        assert FirstClash(all, |done| + 0);
      }
    }
  }

  lemma ClashIsFirst(done: seq<Fact>, f: Fact, all: seq<Fact>)
    requires Compatible(done) && done + [f] <= all && exists g :: g in done && Clash(g, f)
    ensures FirstClash(all, |done|)
  {
    hide Clash;
    var g :| g in done && Clash(g, f);
    var i :| 0 <= i < |done| && done[i] == g;
    assert all[..|done|] == done && all[i] == g && all[|done|] == f;
  }

  // --- The document object and the parser ---------------------------------------------

  class TomlDoc {
    var nodes: Nodes

    constructor ()
      ensures nodes == EMPTY
    {
      nodes := EMPTY;
    }

    /** Finds the child `seg` of `cur`, or makes it. */
    method Child(cur: Path, seg: string, line: nat) returns (next: Path)
      requires cur in nodes
      modifies this
      ensures nodes == WithChild(old(nodes), cur, seg, line) && next == cur + [seg]
    {
      next := cur + [seg];
      if next !in nodes {
        nodes := nodes[next := Node(line, false, None, [])];
        nodes := nodes[cur := nodes[cur].(order := nodes[cur].order + [seg])];
      }
    }

    method SetPath(base: Path, path: Path, val: Toml, line: nat) returns (failure: Option<Failure>)
      requires base in nodes
      modifies this
      ensures (nodes, failure) == WithPath(old(nodes), base, path, val, line)
    {
      var cur := base;
      for i := 0 to |path|
        invariant cur in nodes
        invariant WithPath(nodes, cur, path[i..], val, line) == WithPath(old(nodes), base, path, val, line)
      {
        var next := Child(cur, path[i], line);
        if i == |path| - 1 {
          if nodes[next].val.Some? {
            return Some(Failure("duplicate key", line));
          }
          if nodes[next].declared {
            return Some(Failure("key is a table", line));
          }
          nodes := nodes[next := nodes[next].(val := Some(val))];
          return None;
        }
        if nodes[next].val.Some? {
          return Some(Failure("path through a value", line));
        }
        assert path[i..][1..] == path[i + 1..];
        cur := next;
      }
      return None;
    }

    method AttachTable(path: Path, line: nat) returns (node: Path, failure: Option<Failure>)
      requires [] in nodes
      modifies this
      ensures (nodes, failure) == WithTable(old(nodes), [], path, line)
      ensures failure.None? ==> node == path
    {
      var cur: Path := [];
      for i := 0 to |path|
        invariant cur in nodes && cur == path[..i]
        invariant WithTable(nodes, cur, path[i..], line) == WithTable(old(nodes), [], path, line)
      {
        var next := Child(cur, path[i], line);
        if nodes[next].val.Some? {
          return cur, Some(Failure("table is a value", line));
        }
        if i == |path| - 1 {
          if nodes[next].declared {
            return cur, Some(Failure("duplicate table", line));
          }
          nodes := nodes[next := nodes[next].(declared := true)];
        }
        assert path[i..][1..] == path[i + 1..];
        cur := next;
      }
      return cur, None;
    }
  }

  /** Without the byte order mark. */
  function StripBom(src: string): string {
    if ['\U{00EF}', '\U{00BB}', '\U{00BF}'] <= src then src[3..] else src
  }

  /** What is left to happen at `c`, with the tree `n` built and `base` the current table. */
  function ParseFrom(n: Nodes, base: Path, c: Cursor): Result<Nodes, Failure>
    requires base in n && [] in n
  {
    var (stmts, failure) := Statements(c);
    match Build(n, base, stmts)
    case Err(f) => Err(f)
    case Ok(m) => if failure.Some? then Err(failure.value) else Ok(m)
  }

  function Parse(src: string): Result<Nodes, Failure> {
    ParseFrom(EMPTY, [], Cursor(StripBom(src), 1))
  }

  /** Reading and building take turns. */
  lemma ParseStep(n: Nodes, base: Path, c: Cursor)
    requires base in n && [] in n
    ensures match ReadStatement(c)
            case Bad(f) => ParseFrom(n, base, c) == Err(f)
            case Got(None, _) => ParseFrom(n, base, c) == Ok(n)
            case Got(Some(st), d) =>
              var (m, f) := Perform(n, base, st);
              [] in m && if f.Some? then ParseFrom(n, base, c) == Err(f.value) && f.value.line == st.line
                         else NextBase(base, st) in m && ParseFrom(n, base, c) == ParseFrom(m, NextBase(base, st), d)
  {
    hide ReadStatement, Perform;
    match ReadStatement(c)
    case Bad(_) =>
    case Got(None, _) =>
    case Got(Some(st), d) =>
      PerformKeeps(n, base, st);
      var (rest, failure) := Statements(d);
      var (m, f) := Perform(n, base, st);
      assert Statements(c) == ([st] + rest, failure);
      assert ([st] + rest)[0] == st && ([st] + rest)[1..] == rest;
      assert f.None? ==> Build(n, base, [st] + rest) == Build(m, NextBase(base, st), rest);
  }

  /** The parser; a failure names a line of the text. */
  method ParseToml(src: string) returns (doc: TomlDoc, failure: Option<Failure>)
    ensures fresh(doc)
    ensures Parse(src) == if failure.Some? then Err(failure.value) else Ok(doc.nodes)
    ensures failure.Some? ==> 1 <= failure.value.line <= 1 + Newlines(StripBom(src))
  {
    hide ReadStatement, Newlines, WithPath, WithTable, ParseFrom;
    var text := StripBom(src);
    var sc := new Scanner(text);
    doc := new TomlDoc();
    var cur: Path := [];
    while true
      invariant sc.Valid() && sc.src == text && fresh(sc) && fresh(doc) && sc.line >= 1
      invariant cur in doc.nodes && [] in doc.nodes
      invariant ParseFrom(doc.nodes, cur, sc.Cur()) == Parse(src)
      decreases |text| - sc.pos
    {
      ParseStep(doc.nodes, cur, sc.Cur());
      var read := sc.ReadStatement();
      NewlinesMonotone(text, sc.pos);
      if read.Err? {
        return doc, Some(read.error);
      }
      if read.value.None? {
        return doc, None;
      }
      var st := read.value.value;
      if st.Header? {
        cur, failure := doc.AttachTable(st.path, st.line);
      } else {
        failure := doc.SetPath(cur, st.path, st.val, st.line);
      }
      if failure.Some? {
        return doc, failure;
      }
    }
  }

  lemma {:induction false} NewlinesMonotone(s: string, k: nat)
    requires k <= |s|
    ensures Newlines(s[..k]) <= Newlines(s)
    decreases |s|
  {
    if k == |s| {
      assert s[..k] == s;
    } else {
      assert s[..|s| - 1][..k] == s[..k];
      NewlinesMonotone(s[..|s| - 1], k);
    }
  }
}

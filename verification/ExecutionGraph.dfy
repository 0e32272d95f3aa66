/**
 The dependency graph of a pipeline: built from the paths the steps read, sorted by Kahn's
 algorithm, and layered into batches of independent steps by longest incoming path.
 */
module ExecutionGraph {
  import opened Base

  /** `edges[u]` lists, with repetitions, the steps that read an output of `u`. */
  datatype Graph = Graph(nodes: seq<string>, edges: map<string, seq<string>>)

  predicate Edge(g: Graph, u: string, v: string) {
    u in g.edges && v in g.edges[u]
  }

  /** What BuildGraph guarantees: distinct nodes, and edges that lead to nodes. */
  ghost predicate WellFormed(g: Graph) {
    Distinct(g.nodes) && forall u, v :: Edge(g, u, v) ==> v in g.nodes
  }

  ghost predicate Dangling(g: Graph) {
    exists u, v :: Edge(g, u, v) && u !in g.nodes
  }

  /** Each node of `p` has an edge to the next one. */
  ghost predicate Path(g: Graph, p: seq<string>) {
    |p| > 0 && forall i :: 0 <= i < |p| - 1 ==> Edge(g, p[i], p[i + 1])
  }

  ghost predicate Cycle(g: Graph, c: seq<string>) {
    Path(g, c) && Edge(g, c[|c| - 1], c[0])
  }

  /** `order` lists every node once, and every edge goes forward in it. */
  ghost predicate TopologicalOrder(g: Graph, order: seq<string>) {
    && Distinct(order) && multiset(order) == multiset(g.nodes)
    && forall j, u :: 0 <= j < |order| && Edge(g, u, order[j]) ==> u in order[..j]
  }

  // --- Building the graph -------------------------------------------------------------

  /** A step with the paths its bindings and form fields name. */
  datatype Step = Step(id: string, paths: seq<string>)

  function UpToDot(s: string): string {
    if s == [] || s[0] == '.' then [] else [s[0]] + UpToDot(s[1..])
  }

  function TrimSuffix(s: string, suffix: string): string {
    if |suffix| <= |s| && s[|s| - |suffix|..] == suffix then s[..|s| - |suffix|] else s
  }

  /** The step whose output a path `steps.<id>...` names, `<id>_all` standing for `<id>`. */
  function DepOf(path: string): Option<string> {
    if "steps." <= path then Some(TrimSuffix(UpToDot(path[6..]), "_all")) else None
  }

  ghost predicate Reads(st: Step, u: string) {
    exists k :: 0 <= k < |st.paths| && DepOf(st.paths[k]) == Some(u)
  }

  lemma TailOfSum(s: string, t: string)
    requires s != []
    ensures (s + t)[0] == s[0] && (s + t)[1..] == s[1..] + t
  {
  }

  lemma {:induction false} UpToDotStops(id: string, rest: string)
    ensures UpToDot(id + ['.'] + rest) == UpToDot(id)
  {
    assert id + ['.'] + rest == id + (['.'] + rest);
    if id != [] {
      TailOfSum(id, ['.'] + rest);
      assert id[1..] + ['.'] + rest == id[1..] + (['.'] + rest);
      UpToDotStops(id[1..], rest);
    }
  }

  lemma {:induction false} UpToDotOfSum(id: string, rest: string)
    ensures UpToDot(id + rest) == if '.' in id then UpToDot(id) else id + UpToDot(rest)
  {
    if id == [] {
      assert id + rest == rest && id + UpToDot(rest) == UpToDot(rest);
    } else {
      TailOfSum(id, rest);
      UpToDotOfSum(id[1..], rest);
      assert '.' in id <==> id[0] == '.' || '.' in id[1..];
      assert [id[0]] + (id[1..] + UpToDot(rest)) == id + UpToDot(rest);
    }
  }

  lemma {:induction false} UpToDotCuts(id: string)
    ensures |UpToDot(id)| <= |id| && '.' !in UpToDot(id) && (UpToDot(id) == id <==> '.' !in id)
  {
    if id != [] {
      UpToDotCuts(id[1..]);
      assert '.' in id <==> id[0] == '.' || '.' in id[1..];
      assert id == [id[0]] + id[1..];
    }
  }

  predicate EndsIn(s: string, suffix: string) {
    |suffix| <= |s| && s[|s| - |suffix|..] == suffix
  }

  /**
   A path below a step's output depends on that step iff its id has no dot and does not end in `_all`; otherwise
   it is taken for the step named by what is left of the id.  The list of all outputs names a step without dots.
   */
  lemma DepOfNamesTheStep(id: string, field: string)
    ensures DepOf("steps." + id + "." + field) == Some(TrimSuffix(UpToDot(id), "_all"))
    ensures DepOf("steps." + id + "." + field) == Some(id) <==> '.' !in id && !EndsIn(id, "_all")
    ensures DepOf("steps." + id + "_all") == Some(id) <==> '.' !in id
    ensures DepOf("input." + id) == None
  {
    hide DepOf, TrimSuffix, EndsIn, UpToDot;
    FieldDep(id, field);
    TrimShortens(UpToDot(id));
    UpToDotCuts(id);
    AllDep(id);
    assert ("input." + id)[0] == 'i';
    InputDep("input." + id);
  }

  lemma InputDep(path: string)
    requires path != [] && path[0] == 'i'
    ensures DepOf(path) == None
  {
  }

  lemma FieldDep(id: string, field: string)
    ensures DepOf("steps." + id + "." + field) == Some(TrimSuffix(UpToDot(id), "_all"))
  {
    hide UpToDot, TrimSuffix;
    assert ("steps." + id + "." + field)[6..] == id + ['.'] + field;
    UpToDotStops(id, field);
  }

  lemma AllDep(id: string)
    ensures DepOf("steps." + id + "_all") == Some(id) <==> '.' !in id
  {
    hide UpToDot;
    assert ("steps." + id + "_all")[6..] == id + "_all";
    UpToDotOfSum(id, "_all");
    UpToDotCuts("_all");
    UpToDotCuts(id);
    TrimShortens(UpToDot(id));
    assert '.' !in "_all" && (id + "_all")[|id|..] == "_all" && (id + "_all")[..|id|] == id;
  }

  lemma TrimShortens(s: string)
    ensures TrimSuffix(s, "_all") <= s
    ensures TrimSuffix(s, "_all") == s <==> !EndsIn(s, "_all")
  {
  }

  method DepsOf(st: Step) returns (deps: set<string>)
    ensures forall u :: u in deps <==> Reads(st, u)
  {
    deps := {};
    for k := 0 to |st.paths|
      invariant forall u :: u in deps <==> exists j :: 0 <= j < k && DepOf(st.paths[j]) == Some(u)
    {
      var d := DepOf(st.paths[k]);
      if d.Some? { deps := deps + {d.value}; }
    }
  }

  ghost predicate EdgeOf(steps: seq<Step>, u: string, v: string) {
    exists i :: 0 <= i < |steps| && steps[i].id == v && u != v && Reads(steps[i], u)
  }

  method CollectNodes(steps: seq<Step>) returns (g: Graph)
    ensures Distinct(g.nodes) && forall u, v :: !Edge(g, u, v)
    ensures forall v :: v in g.nodes <==> exists i :: 0 <= i < |steps| && steps[i].id == v
  {
    var nodes: seq<string> := [];
    var edges: map<string, seq<string>> := map[];
    for i := 0 to |steps|
      invariant Distinct(nodes)
      invariant forall v :: v in nodes <==> exists j :: 0 <= j < i && steps[j].id == v
      invariant forall u :: u in edges ==> edges[u] == []
    {
      if steps[i].id !in nodes { nodes := nodes + [steps[i].id]; }
      if steps[i].id !in edges { edges := edges[steps[i].id := []]; }
    }
    g := Graph(nodes, edges);
  }

  method AddEdgesTo(g0: Graph, st: Step) returns (g: Graph)
    ensures g.nodes == g0.nodes
    ensures forall u, v :: Edge(g, u, v) <==> Edge(g0, u, v) || (v == st.id && u != v && Reads(st, u))
  {
    g := g0;
    var deps := DepsOf(st);
    var rest := deps;
    while rest != {}
      invariant rest <= deps && g.nodes == g0.nodes
      invariant forall u, v :: Edge(g, u, v) <==> Edge(g0, u, v) || (v == st.id && u != v && u in deps - rest)
      decreases rest
    {
      var dep :| dep in rest;
      rest := rest - {dep};
      if dep != st.id {
        var tos := if dep in g.edges then g.edges[dep] else [];
        ghost var before := g;
        g := Graph(g.nodes, g.edges[dep := tos + [st.id]]);
        forall u, v ensures Edge(g, u, v) <==> Edge(before, u, v) || (u == dep && v == st.id) {
        }
      }
    }
  }

  method BuildGraph(steps: seq<Step>) returns (g: Graph)
    ensures WellFormed(g)
    ensures forall v :: v in g.nodes <==> exists i :: 0 <= i < |steps| && steps[i].id == v
    ensures forall u, v :: Edge(g, u, v) <==> EdgeOf(steps, u, v)
  {
    g := CollectNodes(steps);
    ghost var nodes := g.nodes;
    for i := 0 to |steps|
      invariant g.nodes == nodes
      invariant forall u, v :: Edge(g, u, v) <==> EdgeOf(steps[..i], u, v)
    {
      g := AddEdgesTo(g, steps[i]);
      forall u, v ensures Edge(g, u, v) <==> EdgeOf(steps[..i + 1], u, v) {
        EdgeOfGrows(steps, i, u, v);
      }
    }
    assert steps[..|steps|] == steps;
  }

  lemma EdgeOfGrows(steps: seq<Step>, i: nat, u: string, v: string)
    requires i < |steps|
    ensures EdgeOf(steps[..i + 1], u, v) <==>
            EdgeOf(steps[..i], u, v) || (v == steps[i].id && u != v && Reads(steps[i], u))
  {
    if EdgeOf(steps[..i], u, v) {
      var k :| 0 <= k < i && steps[..i][k].id == v && u != v && Reads(steps[..i][k], u);
      assert steps[..i + 1][k] == steps[k];
    }
    if v == steps[i].id && u != v && Reads(steps[i], u) { assert steps[..i + 1][i] == steps[i]; }
    if EdgeOf(steps[..i + 1], u, v) {
      var k :| 0 <= k < i + 1 && steps[..i + 1][k].id == v && u != v && Reads(steps[..i + 1][k], u);
      if k < i { assert steps[..i][k] == steps[k]; }
    }
  }

  // --- Kahn's algorithm ---------------------------------------------------------------

  /** Every edge end of the sources in `s`, with multiplicity. */
  ghost function Ends(edges: map<string, seq<string>>, s: set<string>): multiset<string>
    requires s <= edges.Keys
  {
    if s == {} then multiset{} else
    var u :| u in s;
    multiset(edges[u]) + Ends(edges, s - {u})
  }

  lemma {:induction false} EndsRemove(edges: map<string, seq<string>>, s: set<string>, u: string)
    requires s <= edges.Keys && u in s
    ensures Ends(edges, s) == multiset(edges[u]) + Ends(edges, s - {u})
    decreases |s|
  {
    var w :| w in s && Ends(edges, s) == multiset(edges[w]) + Ends(edges, s - {w});
    if w != u {
      EndsRemove(edges, s - {w}, u);
      EndsRemove(edges, s - {u}, w);
      assert s - {w} - {u} == s - {u} - {w};
    }
  }

  lemma {:induction false} EndsOfEdges(edges: map<string, seq<string>>, s: set<string>, v: string)
    requires s <= edges.Keys
    ensures Ends(edges, s)[v] > 0 <==> exists u :: u in s && v in edges[u]
    decreases |s|
  {
    if s != {} {
      var w :| w in s && Ends(edges, s) == multiset(edges[w]) + Ends(edges, s - {w});
      EndsOfEdges(edges, s - {w}, v);
      assert v in edges[w] <==> v in multiset(edges[w]);
    }
  }

  lemma PrefixMultiset(s: seq<string>, i: nat)
    requires i < |s|
    ensures multiset(s[..i + 1]) == multiset(s[..i]) + multiset{s[i]}
  {
    assert s[..i + 1] == s[..i] + [s[i]];
  }

  function Degree(m: map<string, int>, v: string): int {
    if v in m then m[v] else 0
  }

  method InDegrees(g: Graph) returns (deg: map<string, int>)
    ensures forall v :: Degree(deg, v) == Ends(g.edges, g.edges.Keys)[v]
  {
    hide Ends;
    deg := map[];
    for i := 0 to |g.nodes|
      invariant forall v :: v in deg ==> deg[v] == 0
    {
      if g.nodes[i] !in deg { deg := deg[g.nodes[i] := 0]; }
    }
    var rest := g.edges.Keys;
    while rest != {}
      invariant rest <= g.edges.Keys
      invariant forall v :: Degree(deg, v) + Ends(g.edges, rest)[v] == Ends(g.edges, g.edges.Keys)[v]
      decreases rest
    {
      var u :| u in rest;
      EndsRemove(g.edges, rest, u);
      rest := rest - {u};
      var tos := g.edges[u];
      ghost var deg0 := deg;
      for i := 0 to |tos|
        invariant forall v :: Degree(deg, v) == Degree(deg0, v) + multiset(tos[..i])[v]
      {
        PrefixMultiset(tos, i);
        deg := deg[tos[i] := Degree(deg, tos[i]) + 1];
      }
      assert tos[..|tos|] == tos;
    }
    NoEnds(g.edges);
  }

  lemma NoEnds(edges: map<string, seq<string>>)
    ensures Ends(edges, {}) == multiset{}
  {
  }

  /** The ends of all edges whose source is not yet in `order`. */
  ghost function Remaining(g: Graph, order: seq<string>): multiset<string> {
    Ends(g.edges, set u | u in g.edges && u !in order)
  }

  /**
   `order` is what was taken from the queue, `queue` what is still in it: together the nodes
   whose predecessors are all in `order`, each once, with every edge going forward.
   */
  ghost predicate Sorted(g: Graph, order: seq<string>, queue: seq<string>) {
    var all := order + queue;
    && Distinct(all)
    && (forall v :: v in all <==> v in g.nodes && Remaining(g, order)[v] == 0)
    && (forall j, u :: 0 <= j < |order| && Edge(g, u, order[j]) ==> u in order[..j])
  }

  lemma TakeFromQueue(g: Graph, order: seq<string>, cur: string)
    requires cur !in order
    ensures Remaining(g, order) ==
            Remaining(g, order + [cur]) + (if cur in g.edges then multiset(g.edges[cur]) else multiset{})
  {
    var s := set u | u in g.edges && u !in order;
    var s' := set u | u in g.edges && u !in order + [cur];
    if cur in g.edges {
      EndsRemove(g.edges, s, cur);
      assert s' == s - {cur};
    } else {
      assert s' == s;
    }
  }

  lemma PredecessorsTaken(g: Graph, order: seq<string>, v: string)
    ensures Remaining(g, order)[v] == 0 <==> forall u :: Edge(g, u, v) ==> u in order
  {
    EndsOfEdges(g.edges, (set u | u in g.edges && u !in order), v);
  }

  lemma NothingTaken(g: Graph)
    ensures Remaining(g, []) == Ends(g.edges, g.edges.Keys)
  {
    assert (set u | u in g.edges && u !in []) == g.edges.Keys;
  }

  method InitialQueue(g: Graph, deg: map<string, int>) returns (queue: seq<string>)
    requires WellFormed(g) && forall v :: Degree(deg, v) == Remaining(g, [])[v]
    ensures Sorted(g, [], queue)
  {
    queue := [];
    for i := 0 to |g.nodes|
      invariant Distinct(queue)
      invariant forall v :: v in queue <==> v in g.nodes[..i] && Degree(deg, v) == 0
    {
      assert g.nodes[..i + 1] == g.nodes[..i] + [g.nodes[i]];
      assert g.nodes[i] !in g.nodes[..i];
      if Degree(deg, g.nodes[i]) == 0 { queue := queue + [g.nodes[i]]; }
    }
    assert g.nodes[..|g.nodes|] == g.nodes;
    assert [] + queue == queue;
  }

  lemma OrderExtends(g: Graph, order: seq<string>, cur: string, queue: seq<string>)
    requires Sorted(g, order, [cur] + queue)
    ensures forall j, u :: 0 <= j <= |order| && Edge(g, u, (order + [cur])[j]) ==> u in (order + [cur])[..j]
  {
    var order' := order + [cur];
    forall j, u | 0 <= j <= |order| && Edge(g, u, order'[j]) ensures u in order'[..j] {
      if j < |order| {
        assert order'[j] == order[j] && order'[..j] == order[..j];
      } else {
        assert order'[..j] == order && cur in order + ([cur] + queue);
        PredecessorsTaken(g, order, cur);
      }
    }
  }

  /** `all` lists each node of degree zero once. */
  ghost predicate Released(g: Graph, all: seq<string>, deg: map<string, int>) {
    Distinct(all) && forall v :: v in all <==> v in g.nodes && Degree(deg, v) == 0
  }

  lemma ReleaseOne(g: Graph, all: seq<string>, deg: map<string, int>, nb: string)
    requires Released(g, all, deg) && nb in g.nodes && Degree(deg, nb) > 0
    ensures var deg' := deg[nb := Degree(deg, nb) - 1];
            Released(g, if Degree(deg', nb) == 0 then all + [nb] else all, deg')
  {
    var deg' := deg[nb := Degree(deg, nb) - 1];
    assert forall v :: Degree(deg', v) == if v == nb then Degree(deg, v) - 1 else Degree(deg, v);
  }

  /** The degrees count the edge ends in `still` and those in `tos`. */
  ghost predicate Counts(deg: map<string, int>, still: multiset<string>, tos: seq<string>) {
    forall v :: Degree(deg, v) == still[v] + multiset(tos)[v]
  }

  lemma CountOne(deg: map<string, int>, still: multiset<string>, nb: string, rest: seq<string>)
    requires Counts(deg, still, [nb] + rest)
    ensures Degree(deg, nb) > 0 && Counts(deg[nb := Degree(deg, nb) - 1], still, rest)
  {
    assert multiset([nb] + rest) == multiset{nb} + multiset(rest);
  }

  /** Removes the edges to `tos` from the degrees, appending to the queue each node that is then free. */
  method Release(g: Graph, tos: seq<string>, ghost still: multiset<string>, ghost done: seq<string>,
                 deg0: map<string, int>, queue0: seq<string>)
    returns (deg: map<string, int>, queue: seq<string>)
    requires Released(g, done + queue0, deg0) && forall nb :: nb in tos ==> nb in g.nodes
    requires Counts(deg0, still, tos)
    ensures Released(g, done + queue, deg) && Counts(deg, still, [])
  {
    hide Released, Counts, Degree;
    deg, queue := deg0, queue0;
    assert tos[0..] == tos;
    for i := 0 to |tos|
      invariant Counts(deg, still, tos[i..])
      invariant Released(g, done + queue, deg)
    {
      var nb := tos[i];
      assert tos[i..] == [nb] + tos[i + 1..];
      CountOne(deg, still, nb, tos[i + 1..]);
      ReleaseOne(g, done + queue, deg, nb);
      var left := Degree(deg, nb) - 1;
      deg := deg[nb := left];
      DegreeOf(deg, nb);
      if left == 0 {
        assert done + (queue + [nb]) == (done + queue) + [nb];
        queue := queue + [nb];
      }
    }
  }

  lemma DegreeOf(m: map<string, int>, v: string)
    requires v in m
    ensures Degree(m, v) == m[v]
  {
  }

  method TopoSort(g: Graph) returns (r: Result<seq<string>, string>)
    requires WellFormed(g)
    ensures r.Ok? ==> TopologicalOrder(g, r.value)
    ensures r.Err? <==> Dangling(g) || exists c :: Cycle(g, c)
  {
    var deg := InDegrees(g);
    NothingTaken(g);
    var queue := InitialQueue(g, deg);
    var order: seq<string> := [];
    assert order + queue == queue;
    DistinctFits(queue, g.nodes);
    while |queue| > 0
      invariant Sorted(g, order, queue)
      invariant forall v :: Degree(deg, v) == Remaining(g, order)[v]
      invariant |order| + |queue| <= |g.nodes|
      decreases |g.nodes| - |order|
    {
      var cur := queue[0];
      assert queue == [cur] + queue[1..];
      assert (order + queue)[|order|] == cur;
      assert cur !in order by { DistinctSplit(order, queue); }
      TakeFromQueue(g, order, cur);
      OrderExtends(g, order, cur, queue[1..]);
      var tos := if cur in g.edges then g.edges[cur] else [];
      assert forall nb :: nb in tos ==> Edge(g, cur, nb);
      assert order + ([cur] + queue[1..]) == order + [cur] + queue[1..];
      deg, queue := Release(g, tos, Remaining(g, order + [cur]), order + [cur], deg, queue[1..]);
      order := order + [cur];
      DistinctFits(order + queue, g.nodes);
    }
    assert order + queue == order;
    if |order| != |g.nodes| {
      NotAllSorted(g, order);
      return Err("cycle");
    }
    AllSorted(g, order);
    return Ok(order);
  }

  lemma DistinctSplit(a: seq<string>, b: seq<string>)
    requires Distinct(a + b)
    ensures forall x :: x in b ==> x !in a
  {
    forall i, j | 0 <= i < |a| && 0 <= j < |b| ensures a[i] != b[j] {
      assert (a + b)[i] == a[i] && (a + b)[|a| + j] == b[j];
    }
  }

  ghost function Elements(s: seq<string>): set<string> {
    set x | x in s
  }

  lemma {:induction false} DistinctCount(s: seq<string>)
    requires Distinct(s)
    ensures |Elements(s)| == |s|
    ensures forall x :: multiset(s)[x] == if x in s then 1 else 0
  {
    if s != [] {
      var k := |s| - 1;
      assert s == s[..k] + [s[k]];
      DistinctCount(s[..k]);
      assert Elements(s) == Elements(s[..k]) + {s[k]};
    }
  }

  lemma DistinctFits(s: seq<string>, t: seq<string>)
    requires Distinct(s) && Distinct(t) && forall v :: v in s ==> v in t
    ensures |s| <= |t|
    ensures |s| == |t| ==> multiset(s) == multiset(t) && Elements(s) == Elements(t)
  {
    DistinctCount(s);
    DistinctCount(t);
    assert Elements(t) == Elements(s) + (Elements(t) - Elements(s));
    if |s| == |t| {
      assert Elements(s) == Elements(t);
      assert forall v :: v in Elements(s) <==> v in s;
      assert forall v :: v in Elements(t) <==> v in t;
    }
  }

  ghost predicate HasPredecessor(g: Graph, r: set<string>, v: string) {
    exists u :: u in r && Edge(g, u, v)
  }

  ghost predicate Backward(g: Graph, r: set<string>) {
    forall v {:trigger HasPredecessor(g, r, v)} :: v in r ==> HasPredecessor(g, r, v)
  }

  /** A finite set in which every node has a predecessor contains a cycle. */
  lemma CycleInside(g: Graph, r: set<string>)
    requires r != {} && Backward(g, r)
    ensures exists c :: Cycle(g, c)
  {
    var v :| v in r;
    var p := WalkBack(g, r, v, |r|);
    var i, j := Repeats(p, r);
    LoopToCycle(g, p, i, j);
  }

  /** A backward walk that meets itself is a cycle, read from its later to its earlier end. */
  lemma LoopToCycle(g: Graph, p: seq<string>, i: nat, j: nat)
    requires i < j < |p| && p[i] == p[j]
    requires forall k :: 0 <= k < |p| - 1 ==> Edge(g, p[k + 1], p[k])
    ensures exists c :: Cycle(g, c)
  {
    var c := seq(j - i, k requires 0 <= k < j - i => p[j - k]);
    forall k | 0 <= k < |c| - 1 ensures Edge(g, c[k], c[k + 1]) {
      assert Edge(g, p[j - k - 1 + 1], p[j - k - 1]);
    }
    assert Edge(g, p[i + 1], p[i]);
    assert Cycle(g, c);
  }

  lemma {:induction false} WalkBack(g: Graph, r: set<string>, v: string, n: nat) returns (p: seq<string>)
    requires v in r && Backward(g, r)
    ensures |p| == n + 1 && p[0] == v && forall i :: 0 <= i < |p| ==> p[i] in r
    ensures forall i :: 0 <= i < |p| - 1 ==> Edge(g, p[i + 1], p[i])
    decreases n
  {
    if n == 0 {
      p := [v];
    } else {
      assert HasPredecessor(g, r, v);
      var u :| u in r && Edge(g, u, v);
      var q := WalkBack(g, r, u, n - 1);
      p := [v] + q;
      forall i | 0 <= i < |p| - 1 ensures Edge(g, p[i + 1], p[i]) {
        if i > 0 { assert Edge(g, q[i - 1 + 1], q[i - 1]); }
      }
    }
  }

  lemma {:induction false} Repeats(p: seq<string>, r: set<string>) returns (i: nat, j: nat)
    requires |p| > |r| && forall k :: 0 <= k < |p| ==> p[k] in r
    ensures i < j < |p| && p[i] == p[j]
  {
    var last := p[|p| - 1];
    if k :| 0 <= k < |p| - 1 && p[k] == last {
      i, j := k, |p| - 1;
    } else {
      i, j := Repeats(p[..|p| - 1], r - {last});
    }
  }

  lemma NotAllSorted(g: Graph, order: seq<string>)
    requires WellFormed(g) && Sorted(g, order, []) && |order| != |g.nodes|
    ensures Dangling(g) || exists c :: Cycle(g, c)
  {
    assert order + [] == order;
    if !Dangling(g) {
      var r := set v | v in g.nodes && v !in order;
      assert r != {} by {
        if r == {} {
          forall v | v in g.nodes ensures v in order { assert v !in r; }
          DistinctFits(g.nodes, order);
          DistinctFits(order, g.nodes);
        }
      }
      forall v | v in r ensures HasPredecessor(g, r, v) {
        PredecessorsTaken(g, order, v);
      }
      CycleInside(g, r);
    }
  }

  lemma AllSorted(g: Graph, order: seq<string>)
    requires WellFormed(g) && Sorted(g, order, []) && |order| == |g.nodes|
    ensures TopologicalOrder(g, order)
    ensures !Dangling(g) && forall c :: !Cycle(g, c)
  {
    assert order + [] == order;
    DistinctFits(order, g.nodes);
    forall v | v in g.nodes ensures v in order {
      assert v in multiset(g.nodes);
    }
    TopologicalOrderExcludes(g, order);
  }

  lemma TopologicalOrderExcludes(g: Graph, order: seq<string>)
    requires WellFormed(g) && TopologicalOrder(g, order)
    ensures !Dangling(g) && forall c :: !Cycle(g, c)
  {
    forall u, v | Edge(g, u, v) ensures u in g.nodes {
      assert v in multiset(order);
      var j :| 0 <= j < |order| && order[j] == v;
      assert u in order[..j] && u in multiset(order);
    }
    forall c ensures !Cycle(g, c) {
      if Cycle(g, c) {
        var p := c + [c[0]];
        assert Edge(g, c[|c| - 1], c[0]) && c[0] in g.nodes;
        forall i | 0 <= i < |p| - 1 ensures Edge(g, p[i], p[i + 1]) {
          if i < |c| - 1 { assert Edge(g, c[i], c[i + 1]); }
        }
        assert c[0] in multiset(order);
        var n :| 0 <= n < |order| && order[n] == c[0];
        PathsGoForward(g, order, p, n);
      }
    }
  }

  lemma {:induction false} PathsGoForward(g: Graph, order: seq<string>, p: seq<string>, n: nat)
    requires TopologicalOrder(g, order) && Path(g, p) && |p| > 1
    requires n < |order| && order[n] == p[|p| - 1]
    ensures p[0] in order[..n]
    decreases |p|
  {
    var k := |p| - 2;
    assert Edge(g, p[k], p[k + 1]);
    var m :| 0 <= m < n && order[..n][m] == p[k];
    if k > 0 {
      PathsGoForward(g, order, p[..k + 1], m);
      assert order[..m] <= order[..n];
    }
  }

  // --- Layers -------------------------------------------------------------------------

  /** The longest path that ends in `v` has `l` edges. */
  ghost predicate LongestIn(g: Graph, v: string, l: nat) {
    && (exists p :: Path(g, p) && |p| == l + 1 && p[l] == v)
    && (forall p :: Path(g, p) && p[|p| - 1] == v ==> |p| <= l + 1)
  }

  /** Batch `l` holds, in node order, exactly the nodes whose longest incoming path has `l` edges. */
  ghost predicate Layered(g: Graph, batches: seq<seq<string>>) {
    && (forall l :: 0 <= l < |batches| ==> batches[l] == Layer(g, g.nodes, l))
    && (forall v, l: nat :: v in g.nodes && LongestIn(g, v, l) ==> l < |batches|)
    && (forall v :: v in g.nodes ==> exists l: nat :: LongestIn(g, v, l))
    && (g.nodes != [] ==> forall l :: 0 <= l < |batches| ==> batches[l] != [])
  }

  ghost function Layer(g: Graph, nodes: seq<string>, l: nat): seq<string> {
    if nodes == [] then [] else
    var k := |nodes| - 1;
    Layer(g, nodes[..k], l) + if LongestIn(g, nodes[k], l) then [nodes[k]] else []
  }

  /** Levels that satisfy the recurrence the code computes. */
  ghost predicate Levels(g: Graph, level: map<string, nat>, known: seq<string>) {
    && (forall v :: v in level <==> v in known)
    && (forall u, v :: v in known && Edge(g, u, v) ==> u in known && level[u] < level[v])
    && (forall v :: v in known && level[v] > 0 ==> exists u :: u in known && Edge(g, u, v) && level[u] + 1 == level[v])
  }

  lemma {:induction false} PathBelowLevel(g: Graph, level: map<string, nat>, known: seq<string>, p: seq<string>)
    requires Levels(g, level, known) && Path(g, p) && p[|p| - 1] in known
    ensures |p| <= level[p[|p| - 1]] + 1
  {
    if |p| > 1 {
      var q := p[..|p| - 1];
      assert Edge(g, p[|p| - 2], p[|p| - 2 + 1]);
      PathBelowLevel(g, level, known, q);
    }
  }

  lemma {:induction false} PathOfLevel(g: Graph, level: map<string, nat>, known: seq<string>, v: string)
    returns (p: seq<string>)
    requires Levels(g, level, known) && v in known
    ensures Path(g, p) && |p| == level[v] + 1 && p[|p| - 1] == v
    decreases level[v]
  {
    hide Distinct;
    if level[v] == 0 {
      p := [v];
    } else {
      var u :| u in known && Edge(g, u, v) && level[u] + 1 == level[v];
      var q := PathOfLevel(g, level, known, u);
      p := q + [v];
    }
  }

  lemma LevelIsLongest(g: Graph, level: map<string, nat>, known: seq<string>, v: string, l: nat)
    requires Levels(g, level, known) && v in known
    ensures LongestIn(g, v, l) <==> l == level[v]
  {
    var p := PathOfLevel(g, level, known, v);
    assert p[level[v]] == v;
    forall q | Path(g, q) && q[|q| - 1] == v ensures |q| <= level[v] + 1 {
      PathBelowLevel(g, level, known, q);
    }
    if LongestIn(g, v, l) {
      var q :| Path(g, q) && |q| == l + 1 && q[l] == v;
    }
  }

  /** The largest level among the known predecessors of `n`, or -1. */
  method MaxDep(g: Graph, level: map<string, nat>, n: string) returns (m: int)
    ensures m >= -1
    ensures forall u :: u in level && Edge(g, u, n) ==> level[u] <= m
    ensures m >= 0 ==> exists u :: u in level && Edge(g, u, n) && level[u] == m
  {
    m := -1;
    var rest := g.edges.Keys;
    while rest != {}
      invariant rest <= g.edges.Keys && m >= -1
      invariant forall u :: u in level && Edge(g, u, n) && u !in rest ==> level[u] <= m
      invariant m >= 0 ==> exists u :: u in level && Edge(g, u, n) && level[u] == m
      decreases rest
    {
      var from :| from in rest;
      rest := rest - {from};
      var tos := g.edges[from];
      for i := 0 to |tos|
        invariant m >= -1
        invariant forall u :: u in level && Edge(g, u, n) && u !in rest && u != from ==> level[u] <= m
        invariant from in level && n in tos[..i] ==> level[from] <= m
        invariant m >= 0 ==> exists u :: u in level && Edge(g, u, n) && level[u] == m
      {
        if tos[i] == n && from in level && level[from] > m {
          m := level[from];
          assert Edge(g, from, n);
        }
      }
      assert tos[..|tos|] == tos;
    }
  }

  method AssignLevels(g: Graph, order: seq<string>) returns (level: map<string, nat>)
    requires WellFormed(g) && TopologicalOrder(g, order)
    ensures Levels(g, level, order)
  {
    level := map[];
    for i := 0 to |order|
      invariant Levels(g, level, order[..i])
    {
      var n := order[i];
      assert order[..i + 1] == order[..i] + [n];
      assert n !in order[..i];
      var m := MaxDep(g, level, n);
      forall u | Edge(g, u, n) ensures u in order[..i] { assert u in order[..i]; }
      var level' := level[n := m + 1];
      forall v | v in order[..i + 1] && level'[v] > 0
        ensures exists u :: u in order[..i + 1] && Edge(g, u, v) && level'[u] + 1 == level'[v]
      {
        if v == n {
          var u :| u in level && Edge(g, u, n) && level[u] == m;
          assert u in order[..i + 1] && level'[u] + 1 == level'[v];
        } else {
          var u :| u in order[..i] && Edge(g, u, v) && level[u] + 1 == level[v];
          assert u in order[..i + 1] && level'[u] + 1 == level'[v];
        }
      }
      level := level';
    }
    assert order[..|order|] == order;
  }

  method MaxLevel(level: map<string, nat>) returns (m: nat)
    ensures forall v :: v in level ==> level[v] <= m
    ensures m > 0 ==> exists v :: v in level && level[v] == m
  {
    m := 0;
    var rest := level.Keys;
    while rest != {}
      invariant rest <= level.Keys
      invariant forall v :: v in level && v !in rest ==> level[v] <= m
      invariant m > 0 ==> exists v :: v in level && level[v] == m
      decreases rest
    {
      var v :| v in rest;
      rest := rest - {v};
      if level[v] > m { m := level[v]; }
    }
  }

  method FillBatches(g: Graph, level: map<string, nat>, ghost order: seq<string>, m: nat)
    returns (batches: seq<seq<string>>)
    requires Levels(g, level, order) && Elements(order) == Elements(g.nodes)
    requires forall v :: v in level ==> level[v] <= m
    ensures |batches| == m + 1 && forall l :: 0 <= l <= m ==> batches[l] == Layer(g, g.nodes, l)
  {
    assert forall v :: v in Elements(order) <==> v in order;
    batches := seq(m + 1, _ => []);
    for i := 0 to |g.nodes|
      invariant |batches| == m + 1
      invariant forall l :: 0 <= l <= m ==> batches[l] == Layer(g, g.nodes[..i], l)
    {
      var n := g.nodes[i];
      assert n in Elements(g.nodes);
      var l := level[n];
      forall k: nat ensures LongestIn(g, n, k) <==> k == l { LevelIsLongest(g, level, order, n, k); }
      assert g.nodes[..i + 1][..i] == g.nodes[..i];
      batches := batches[l := batches[l] + [n]];
    }
    assert g.nodes[..|g.nodes|] == g.nodes;
  }

  lemma LevelsLayer(g: Graph, level: map<string, nat>, order: seq<string>, m: nat, batches: seq<seq<string>>)
    requires Levels(g, level, order) && Elements(order) == Elements(g.nodes)
    requires forall v :: v in level ==> level[v] <= m
    requires m > 0 ==> exists v :: v in level && level[v] == m
    requires |batches| == m + 1 && forall l :: 0 <= l <= m ==> batches[l] == Layer(g, g.nodes, l)
    ensures Layered(g, batches)
  {
    assert forall v :: v in Elements(order) <==> v in order;
    assert forall v :: v in Elements(g.nodes) <==> v in g.nodes;
    forall v, l: nat | v in g.nodes ensures LongestIn(g, v, l) <==> l == level[v] {
      LevelIsLongest(g, level, order, v, l);
    }
    forall v | v in g.nodes ensures exists l: nat :: LongestIn(g, v, l) {
      LevelIsLongest(g, level, order, v, level[v]);
    }
    if g.nodes != [] {
      assert g.nodes[0] in level;
      forall l | 0 <= l <= m ensures batches[l] != [] {
        var v := LevelInhabited(g, level, order, m, l);
        LevelIsLongest(g, level, order, v, l);
        LayerMember(g, g.nodes, l, v);
      }
    }
  }

  method IndependentBatches(g: Graph) returns (r: Result<seq<seq<string>>, string>)
    requires WellFormed(g)
    ensures r.Ok? ==> Layered(g, r.value)
    ensures r.Err? <==> Dangling(g) || exists c :: Cycle(g, c)
  {
    var sorted := TopoSort(g);
    if sorted.Err? { return Err(sorted.error); }
    var order := sorted.value;
    SameElements(order, g.nodes);
    var level := AssignLevels(g, order);
    var m := MaxLevel(level);
    var batches := FillBatches(g, level, order, m);
    LevelsLayer(g, level, order, m, batches);
    return Ok(batches);
  }

  lemma SameElements(s: seq<string>, t: seq<string>)
    requires multiset(s) == multiset(t)
    ensures Elements(s) == Elements(t)
  {
    forall v ensures v in s <==> v in t {
      assert v in s <==> v in multiset(s);
      assert v in t <==> v in multiset(t);
    }
  }

  lemma {:induction false} LevelInhabited(g: Graph, level: map<string, nat>, order: seq<string>, top: nat, l: nat)
    returns (v: string)
    requires Levels(g, level, order) && order != [] && l <= top
    requires forall v :: v in order ==> level[v] <= top
    requires top > 0 ==> exists v :: v in order && level[v] == top
    ensures v in order && level[v] == l
    decreases top - l
  {
    if l == top {
      if top == 0 { v := order[0]; } else { v :| v in order && level[v] == top; }
    } else {
      var w := LevelInhabited(g, level, order, top, l + 1);
      v :| v in order && Edge(g, v, w) && level[v] + 1 == level[w];
    }
  }

  /** A layer holds its members and nothing else. */
  lemma {:induction false} LayerMember(g: Graph, nodes: seq<string>, l: nat, v: string)
    ensures v in Layer(g, nodes, l) <==> v in nodes && LongestIn(g, v, l)
  {
    if nodes != [] {
      var k := |nodes| - 1;
      LayerMember(g, nodes[..k], l, v);
      assert nodes == nodes[..k] + [nodes[k]];
    }
  }

  /** Every node is in exactly one batch, and every edge leads to a strictly later batch. */
  lemma BatchesPartition(g: Graph, batches: seq<seq<string>>, v: string)
    requires Layered(g, batches) && v in g.nodes
    ensures exists l :: 0 <= l < |batches| && v in batches[l] &&
              forall k :: 0 <= k < |batches| && v in batches[k] ==> k == l
  {
    var l: nat :| LongestIn(g, v, l);
    LayerMember(g, g.nodes, l, v);
    assert v in batches[l];
    forall k | 0 <= k < |batches| && v in batches[k] ensures k == l {
      LayerMember(g, g.nodes, k, v);
      LongestIsUnique(g, v, k, l);
    }
  }

  lemma LongestIsUnique(g: Graph, v: string, k: nat, l: nat)
    requires LongestIn(g, v, k) && LongestIn(g, v, l)
    ensures k == l
  {
    var p :| Path(g, p) && |p| == l + 1 && p[l] == v;
    var q :| Path(g, q) && |q| == k + 1 && q[k] == v;
    assert p[|p| - 1] == v && q[|q| - 1] == v;
  }

  /** A path of at least one edge climbs at least as many batches as it has edges. */
  lemma PathsClimb(g: Graph, batches: seq<seq<string>>, p: seq<string>, i: nat, j: nat)
    requires Layered(g, batches) && Path(g, p) && i < |batches| && j < |batches|
    requires p[0] in batches[i] && p[|p| - 1] in batches[j]
    ensures i + |p| - 1 <= j
  {
    hide Layer, Distinct;
    LayerMember(g, g.nodes, i, p[0]);
    LayerMember(g, g.nodes, j, p[|p| - 1]);
    var q :| Path(g, q) && |q| == i + 1 && q[i] == p[0];
    var whole := q + p[1..];
    forall k | 0 <= k < |whole| - 1 ensures Edge(g, whole[k], whole[k + 1]) {
      if k < i { assert Edge(g, q[k], q[k + 1]); }
      else {
        assert whole[k] == p[k - i] && whole[k + 1] == p[k - i + 1];
        assert Edge(g, p[k - i], p[k - i + 1]);
      }
    }
    assert Path(g, whole) && whole[|whole| - 1] == p[|p| - 1];
  }

  /** Two steps of one batch never wait for each other: neither reaches the other. */
  lemma BatchIsIndependent(g: Graph, batches: seq<seq<string>>, l: nat, p: seq<string>)
    requires Layered(g, batches) && l < |batches| && Path(g, p)
    requires p[0] in batches[l] && p[|p| - 1] in batches[l]
    ensures |p| == 1
  {
    PathsClimb(g, batches, p, l, l);
  }
}

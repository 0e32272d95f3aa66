/**
 A parallel group is deterministic, and equals running its steps one after another.

 Every branch is a thread: it copies the shared context, appends the events of its step to the
 journal one at a time, and deposits its result.  The barrier runs when all have done so.
 */
module ParallelGroup {
  import opened Base
  import opened StepFlow

  // --- What a step does to the context, apart from the context ------------------------

  datatype Effect = Keeps | Drops | Sets(out: map<string, Value>)

  function EffectOf(st: Step, c: Ctx): Effect {
    var fail := if st.onError.Skip? then Drops else Keeps;
    if !st.guard(c).Holds? then Keeps
    else if !st.ready(c) then fail
    else match Tries(st, c, 1).0
      case Cancelled => Keeps
      case Good(None) => Keeps
      case Good(Some(out)) => Sets(out)
      case Bad(platform, _) => if platform then Keeps else fail
  }

  function Affected(c: Ctx, id: string, e: Effect): Ctx {
    match e
    case Keeps => c
    case Drops => Drop(c, id)
    case Sets(out) => SetStep(c, id, out)
  }

  lemma FlowEffect(st: Step, c: Ctx)
    ensures RunFlow(st, c).ctx == Affected(c, st.id, EffectOf(st, c))
  {
  }

  ghost predicate AgreeOutside(c: Ctx, d: Ctx, ids: set<string>) {
    c.input == d.input && forall id :: id !in ids ==> Entry(c, id) == Entry(d, id)
  }

  function Entry(c: Ctx, id: string): Option<Value> {
    if id in c.steps then Some(c.steps[id]) else None
  }

  ghost predicate SameView(st: Step, c: Ctx, d: Ctx) {
    st.guard(c) == st.guard(d) && st.ready(c) == st.ready(d) && forall k :: st.exec(c, k) == st.exec(d, k)
  }

  /** The step reads none of the outputs in `ids`. */
  ghost predicate Blind(st: Step, ids: set<string>) {
    forall c, d {:trigger AgreeOutside(c, d, ids)} :: AgreeOutside(c, d, ids) ==> SameView(st, c, d)
  }

  lemma {:induction false} TriesAgree(st: Step, c: Ctx, d: Ctx, k: nat)
    requires SameView(st, c, d) && k <= Attempts(st)
    ensures Tries(st, c, k) == Tries(st, d, k)
    decreases Attempts(st) - k
  {
    assert st.exec(c, k) == st.exec(d, k);
    var res := st.exec(c, k);
    if TryAgain(res) && k != Attempts(st) { TriesAgree(st, c, d, k + 1); }
  }

  /** A step that does not read `ids` behaves alike in contexts that differ only there. */
  lemma FlowAgrees(st: Step, c: Ctx, d: Ctx, ids: set<string>)
    requires Blind(st, ids) && AgreeOutside(c, d, ids)
    ensures EffectOf(st, c) == EffectOf(st, d)
    ensures RunFlow(st, c).action == RunFlow(st, d).action && RunFlow(st, c).trace == RunFlow(st, d).trace
  {
    TriesAgree(st, c, d, 1);
  }

  // --- Every interleaving of the branches ---------------------------------------------

  /** `emitted` of the branch's events are in the journal. */
  datatype Thread = Waiting | Going(copy: Ctx, emitted: nat) | Ended(b: Branch)

  datatype Tagged = Tagged(branch: nat, event: Event)

  datatype Group = Group(shared: Ctx, threads: seq<Thread>, journal: seq<Tagged>)

  function Begin(steps: seq<Step>, c: Ctx): Group {
    Group(c, seq(|steps|, _ => Waiting), [])
  }

  /** One atomic step of branch `i`: copy the context, append one event, or deposit the result. */
  function Advance(steps: seq<Step>, g: Group, i: nat): Group
    requires |g.threads| == |steps|
  {
    if i >= |steps| then g else
    match g.threads[i]
    case Waiting => g.(threads := g.threads[i := Going(g.shared, 0)])
    case Ended(_) => g
    case Going(copy, n) =>
      var f := RunFlow(steps[i], copy);
      if n < |f.trace| then
        g.(threads := g.threads[i := Going(copy, n + 1)], journal := g.journal + [Tagged(i, f.trace[n])])
      else g.(threads := g.threads[i := Ended(Branch(steps[i], Output(f.ctx, steps[i].id), f.action))])
  }

  function Interleave(steps: seq<Step>, g: Group, schedule: seq<nat>): (r: Group)
    requires |g.threads| == |steps|
    ensures |r.threads| == |steps|
    decreases |schedule|
  {
    if schedule == [] then g else Interleave(steps, Advance(steps, g, schedule[0]), schedule[1..])
  }

  /** What branch `i` wrote to the journal. */
  function Of(journal: seq<Tagged>, i: nat): seq<Event> {
    if journal == [] then [] else
    var k := |journal| - 1;
    Of(journal[..k], i) + if journal[k].branch == i then [journal[k].event] else []
  }

  ghost predicate ThreadInv(steps: seq<Step>, c: Ctx, g: Group, i: nat)
    requires |g.threads| == |steps| && i < |steps|
  {
    var f := RunFlow(steps[i], c);
    match g.threads[i]
    case Waiting => Of(g.journal, i) == []
    case Going(copy, n) => copy == c && n <= |f.trace| && Of(g.journal, i) == f.trace[..n]
    case Ended(b) => BranchOf(b, steps[i], c) && Of(g.journal, i) == f.trace
  }

  ghost predicate GroupInv(steps: seq<Step>, c: Ctx, g: Group) {
    && g.shared == c && |g.threads| == |steps|
    && forall i :: 0 <= i < |steps| ==> ThreadInv(steps, c, g, i)
  }

  lemma AdvanceInv(steps: seq<Step>, c: Ctx, g: Group, i: nat)
    requires GroupInv(steps, c, g)
    ensures GroupInv(steps, c, Advance(steps, g, i))
  {
    hide RunFlow;
    var g' := Advance(steps, g, i);
    forall k | 0 <= k < |steps| ensures ThreadInv(steps, c, g', k) {
      assert ThreadInv(steps, c, g, k);
      if i < |steps| && g.threads[i].Going? && g'.journal != g.journal {
        assert ThreadInv(steps, c, g, i);
        assert g'.journal[..|g'.journal| - 1] == g.journal;
        var n, t := g.threads[i].emitted, RunFlow(steps[i], c).trace;
        assert t[..n + 1] == t[..n] + [t[n]];
      }
      if i < |steps| && g.threads[i].Going? && k == i {
        var t := RunFlow(steps[i], c).trace;
        assert t[..|t|] == t;
      }
    }
  }

  lemma {:induction false} InterleaveInv(steps: seq<Step>, c: Ctx, g: Group, schedule: seq<nat>)
    requires GroupInv(steps, c, g)
    ensures GroupInv(steps, c, Interleave(steps, g, schedule))
    decreases |schedule|
  {
    if schedule != [] {
      AdvanceInv(steps, c, g, schedule[0]);
      InterleaveInv(steps, c, Advance(steps, g, schedule[0]), schedule[1..]);
    }
  }

  /** What the barrier makes of the deposited results: the first halt, or the merged context and the actions. */
  function Barrier(outs: seq<Branch>, into: Ctx): (Ctx, seq<Action>, Option<Error>) {
    if outs == [] then (into, [], None) else
    var b := outs[0];
    if b.action.Err? || b.action.value.AbortItem? then (into, [], Some(BranchError(b.st, b.action))) else
    var (c', actions, error) := Barrier(outs[1..], if b.out.Some? then SetStep(into, b.st.id, b.out.value) else into);
    if error.Some? then (into, [], error) else (c', [if b.out.Some? then Okay else Skipped] + actions, None)
  }

  lemma {:induction false} BarrierIsMerge(steps: seq<Step>, c: Ctx, outs: seq<Branch>, into: Ctx)
    requires |outs| == |steps| && forall i :: 0 <= i < |steps| ==> BranchOf(outs[i], steps[i], c)
    ensures Barrier(outs, into) ==
            if FirstHalt(steps, c).Some? then (into, [], FirstHalt(steps, c))
            else (Merge(steps, c, into), GroupActions(steps, c), None)
  {
    hide RunFlow;
    if steps != [] {
      assert BranchOf(outs[0], steps[0], c);
      var into' := if outs[0].out.Some? then SetStep(into, steps[0].id, outs[0].out.value) else into;
      BarrierIsMerge(steps[1..], c, outs[1..], into');
    }
  }

  ghost predicate AllEnded(g: Group) {
    forall i :: 0 <= i < |g.threads| ==> g.threads[i].Ended?
  }

  function Deposits(g: Group): seq<Branch>
    requires forall i :: 0 <= i < |g.threads| ==> g.threads[i].Ended?
  {
    seq(|g.threads|, i requires 0 <= i < |g.threads| => g.threads[i].b)
  }

  /**
   Whatever the interleaving, the barrier computes the same context, actions and error, and the journal
   holds each branch's events in that branch's order.
   */
  lemma GroupIsDeterministic(seg: Segment, c: Ctx, schedule: seq<nat>)
    requires |seg.steps| <= MAX_PARALLEL_WIDTH
    requires AllEnded(Interleave(seg.steps, Begin(seg.steps, c), schedule))
    ensures var g, r := Interleave(seg.steps, Begin(seg.steps, c), schedule), RunGroup(seg, c);
            && Barrier(Deposits(g), g.shared) == (r.ctx, r.actions, r.error)
            && forall i :: 0 <= i < |seg.steps| ==> Of(g.journal, i) == RunFlow(seg.steps[i], c).trace
  {
    hide RunFlow;
    var steps := seg.steps;
    InterleaveInv(steps, c, Begin(steps, c), schedule);
    var g := Interleave(steps, Begin(steps, c), schedule);
    forall i | 0 <= i < |steps|
      ensures BranchOf(Deposits(g)[i], steps[i], c) && Of(g.journal, i) == RunFlow(steps[i], c).trace
    {
      assert ThreadInv(steps, c, g, i);
    }
    BarrierIsMerge(steps, c, Deposits(g), c);
  }

  /** The steps branch `i` still has to make. */
  ghost function Left(steps: seq<Step>, c: Ctx, t: Thread, i: nat): nat
    requires i < |steps|
  {
    var n := |RunFlow(steps[i], c).trace|;
    match t case Waiting => n + 2 case Going(_, k) => if k <= n then n + 1 - k else 0 case Ended(_) => 0
  }

  ghost function TotalLeft(steps: seq<Step>, c: Ctx, threads: seq<Thread>): nat
    requires |threads| <= |steps|
  {
    if threads == [] then 0 else
    var k := |threads| - 1;
    TotalLeft(steps, c, threads[..k]) + Left(steps, c, threads[k], k)
  }

  lemma {:induction false} TotalLeftUpdate(steps: seq<Step>, c: Ctx, threads: seq<Thread>, i: nat, t: Thread)
    requires |threads| <= |steps| && i < |threads|
    ensures TotalLeft(steps, c, threads[i := t]) ==
            TotalLeft(steps, c, threads) - Left(steps, c, threads[i], i) + Left(steps, c, t, i)
  {
    hide Left;
    var k := |threads| - 1;
    if i < k {
      TotalLeftUpdate(steps, c, threads[..k], i, t);
      assert threads[i := t][..k] == threads[..k][i := t];
    } else {
      assert threads[i := t][..k] == threads[..k];
    }
  }

  /** No branch ever waits for another: each of its own steps brings the barrier one step nearer. */
  lemma BranchesNeverWait(steps: seq<Step>, c: Ctx, schedule: seq<nat>, i: nat)
    requires i < |steps|
    ensures var g := Interleave(steps, Begin(steps, c), schedule);
            !g.threads[i].Ended? ==>
              TotalLeft(steps, c, Advance(steps, g, i).threads) == TotalLeft(steps, c, g.threads) - 1
  {
    hide RunFlow, TotalLeft;
    InterleaveInv(steps, c, Begin(steps, c), schedule);
    var g := Interleave(steps, Begin(steps, c), schedule);
    assert ThreadInv(steps, c, g, i);
    if !g.threads[i].Ended? {
      TotalLeftUpdate(steps, c, g.threads, i, Advance(steps, g, i).threads[i]);
    }
  }

  // --- A group against the same steps in sequence -------------------------------------

  function Ids(steps: seq<Step>): set<string> {
    set i | 0 <= i < |steps| :: steps[i].id
  }

  ghost predicate DistinctIds(steps: seq<Step>) {
    forall i, k :: 0 <= i < k < |steps| ==> steps[i].id != steps[k].id
  }

  function Singles(steps: seq<Step>): (segs: seq<Segment>)
    ensures WellSegmented(segs)
  {
    if steps == [] then [] else [Segment(false, "", [steps[0]])] + Singles(steps[1..])
  }

  /** The entry a step leaves under its own id when it starts from `c`. */
  function OwnEntry(st: Step, c: Ctx): Option<Value> {
    Entry(RunFlow(st, c).ctx, st.id)
  }

  /** No step of `steps` reads an output in `before`, or one of its siblings. */
  ghost predicate BlindTo(steps: seq<Step>, before: set<string>) {
    forall i :: 0 <= i < |steps| ==> steps[i].id !in before && Blind(steps[i], before + Ids(steps) - {steps[i].id})
  }

  lemma BlindTail(steps: seq<Step>, before: set<string>)
    requires DistinctIds(steps) && BlindTo(steps, before) && steps != []
    ensures Blind(steps[0], before) && BlindTo(steps[1..], before + {steps[0].id}) && DistinctIds(steps[1..])
  {
    hide Blind;
    var st, rest := steps[0], steps[1..];
    BlindSmaller(st, before + Ids(steps) - {st.id}, before);
    forall i | 0 <= i < |rest|
      ensures rest[i].id !in before + {st.id} && Blind(rest[i], before + {st.id} + Ids(rest) - {rest[i].id})
    {
      assert rest[i] == steps[i + 1] && st == steps[0];
      assert forall k :: 0 <= k < |rest| ==> rest[k] == steps[k + 1];
      BlindSmaller(rest[i], before + Ids(steps) - {rest[i].id}, before + {st.id} + Ids(rest) - {rest[i].id});
    }
  }

  /** One step of the sequence, run from `d`, against the same step run from `c`. */
  lemma OneStepEntry(st: Step, c: Ctx, d: Ctx, before: set<string>)
    requires Blind(st, before) && AgreeOutside(c, d, before) && st.id !in before
    ensures var d' := RunFlow(st, d).ctx;
            && RunFlow(st, d).action == RunFlow(st, c).action
            && d'.input == d.input && AgreeOutside(c, d', before + {st.id})
            && Entry(d', st.id) == OwnEntry(st, c) && forall id :: id != st.id ==> Entry(d', id) == Entry(d, id)
  {
    hide RunFlow;
    FlowAgrees(st, c, d, before);
    FlowEffect(st, c);
    FlowEffect(st, d);
    assert Entry(c, st.id) == Entry(d, st.id);
  }

  lemma IdsHead(steps: seq<Step>)
    requires steps != []
    ensures Ids(steps) == {steps[0].id} + Ids(steps[1..])
  {
    forall id | id in Ids(steps) ensures id in {steps[0].id} + Ids(steps[1..]) {
      var i :| 0 <= i < |steps| && steps[i].id == id;
      if i > 0 { assert steps[1..][i - 1] == steps[i]; }
    }
  }

  lemma SinglesStep(steps: seq<Step>, d: Ctx)
    requires steps != [] && !Halts(RunFlow(steps[0], d))
    ensures var r := RunSegments(Singles(steps), d, {});
            var tail := RunSegments(Singles(steps[1..]), RunFlow(steps[0], d).ctx, {});
            r.ctx == tail.ctx && r.error == tail.error
  {
    hide RunFlow;
    assert Singles(steps)[1..] == Singles(steps[1..]);
  }

  /** Run in sequence, every step leaves under its id what it leaves when run from `c` alone. */
  lemma {:induction false} SequenceEntries(steps: seq<Step>, c: Ctx, d: Ctx, before: set<string>, id: string)
    requires DistinctIds(steps) && AgreeOutside(c, d, before) && BlindTo(steps, before)
    requires forall i :: 0 <= i < |steps| ==> !Halts(RunFlow(steps[i], c))
    ensures var r := RunSegments(Singles(steps), d, {});
            && r.error.None? && r.ctx.input == d.input
            && (id !in Ids(steps) ==> Entry(r.ctx, id) == Entry(d, id))
            && (forall i :: 0 <= i < |steps| && steps[i].id == id ==> Entry(r.ctx, id) == OwnEntry(steps[i], c))
    decreases |steps|
  {
    if steps != [] {
      hide RunFlow, RunSegments, Singles, BlindTo, AgreeOutside, Entry;
      var st, rest := steps[0], steps[1..];
      BlindTail(steps, before);
      IdsHead(steps);
      assert st.id !in before by { BlindHead(steps, before); }
      OneStepEntry(st, c, d, before);
      SinglesStep(steps, d);
      SequenceEntries(rest, c, RunFlow(st, d).ctx, before + {st.id}, id);
      forall i | 0 <= i < |steps| && steps[i].id == id
        ensures Entry(RunSegments(Singles(steps), d, {}).ctx, id) == OwnEntry(steps[i], c)
      {
        if i > 0 { assert rest[i - 1] == steps[i]; }
        else { assert forall k :: 0 <= k < |rest| ==> rest[k] == steps[k + 1]; }
      }
    }
  }

  lemma BlindHead(steps: seq<Step>, before: set<string>)
    requires BlindTo(steps, before) && steps != []
    ensures steps[0].id !in before
  {
  }

  lemma BlindSmaller(st: Step, ids: set<string>, fewer: set<string>)
    requires Blind(st, ids) && fewer <= ids
    ensures Blind(st, fewer)
  {
    forall c, d | AgreeOutside(c, d, fewer) ensures SameView(st, c, d) {
      assert AgreeOutside(c, d, ids);
    }
  }

  /** The barrier writes a branch's object under its id, and leaves every other entry alone. */
  lemma {:induction false} MergeEntries(steps: seq<Step>, c: Ctx, into: Ctx, id: string)
    requires DistinctIds(steps)
    ensures var m := Merge(steps, c, into);
            && m.input == into.input
            && (id !in Ids(steps) ==> Entry(m, id) == Entry(into, id))
            && (forall i :: 0 <= i < |steps| && steps[i].id == id ==>
                  Entry(m, id) ==
                  (var o := OwnEntry(steps[i], c); if o.Some? && o.value.Object? then o else Entry(into, id)))
    decreases |steps|
  {
    hide RunFlow;
    if steps != [] {
      var st, rest := steps[0], steps[1..];
      var out := Output(RunFlow(st, c).ctx, st.id);
      var into' := if out.Some? then SetStep(into, st.id, out.value) else into;
      assert forall k :: 0 <= k < |rest| ==> rest[k] == steps[k + 1];
      MergeEntries(rest, c, into', id);
      assert id !in Ids(steps) ==> id != st.id && id !in Ids(rest);
      assert id == st.id ==> id !in Ids(rest);
      forall i | 0 <= i < |steps| && steps[i].id == id
        ensures Entry(Merge(steps, c, into), id) ==
                (var o := OwnEntry(steps[i], c); if o.Some? && o.value.Object? then o else Entry(into, id))
      {
        if i > 0 { assert rest[i - 1] == steps[i]; }
      }
    }
  }

  /** A step whose error policy throws away an output that was there before the group began. */
  ghost predicate LosesOldOutput(st: Step, c: Ctx) {
    st.id in c.steps && st.id !in RunFlow(st, c).ctx.steps
  }

  /**
   A group whose branches do not read each other and end without halting leaves the same outputs as its
   steps run one after another, if and only if no step's failure discards an output from before the group.
   */
  lemma GroupEqualsSequence(seg: Segment, c: Ctx)
    requires DistinctIds(seg.steps) && |seg.steps| <= MAX_PARALLEL_WIDTH
    requires forall i :: 0 <= i < |seg.steps| ==> Blind(seg.steps[i], Ids(seg.steps) - {seg.steps[i].id})
    requires forall i :: 0 <= i < |seg.steps| ==> !Halts(RunFlow(seg.steps[i], c))
    ensures var g, s := RunGroup(seg, c), RunSegments(Singles(seg.steps), c, {});
            && g.error.None? && s.error.None?
            && (g.ctx == s.ctx <==> forall i :: 0 <= i < |seg.steps| ==> !LosesOldOutput(seg.steps[i], c))
  {
    hide RunFlow;
    var steps := seg.steps;
    NoHalt(steps, c);
    assert BlindTo(steps, {}) by {
      forall i | 0 <= i < |steps| ensures Blind(steps[i], {} + Ids(steps) - {steps[i].id}) {
        assert {} + Ids(steps) - {steps[i].id} == Ids(steps) - {steps[i].id};
      }
    }
    hide RunSegments, Singles, Merge, Blind, BlindTo, Entry, LosesOldOutput;
    var g, s := Merge(steps, c, c), RunSegments(Singles(steps), c, {}).ctx;
    if forall i :: 0 <= i < |steps| ==> !LosesOldOutput(steps[i], c) {
      GroupEntry(steps, c, "");
      forall id ensures Entry(s, id) == Entry(g, id) {
        GroupEntry(steps, c, id);
        forall i ensures !Loses(steps, c, id, i) {}
      }
      SameEntries(s, g);
    } else {
      var i :| 0 <= i < |steps| && LosesOldOutput(steps[i], c);
      GroupEntry(steps, c, steps[i].id);
      assert Loses(steps, c, steps[i].id, i);
    }
    SequenceEntries(steps, c, c, {}, "");
  }

  ghost predicate Loses(steps: seq<Step>, c: Ctx, id: string, i: int) {
    0 <= i < |steps| && steps[i].id == id && LosesOldOutput(steps[i], c)
  }

  /** One entry after the group and after the sequence. */
  lemma GroupEntry(steps: seq<Step>, c: Ctx, id: string)
    requires DistinctIds(steps) && BlindTo(steps, {}) && forall i :: 0 <= i < |steps| ==> !Halts(RunFlow(steps[i], c))
    ensures var g, s := Merge(steps, c, c), RunSegments(Singles(steps), c, {}).ctx;
            s.input == g.input && (Entry(s, id) == Entry(g, id) <==> forall i :: !Loses(steps, c, id, i))
  {
    hide RunFlow, RunSegments, Singles, Merge, Blind, BlindTo;
    SequenceEntries(steps, c, c, {}, id);
    MergeEntries(steps, c, c, id);
    if i :| 0 <= i < |steps| && steps[i].id == id {
      FlowEffect(steps[i], c);
      assert forall k :: Loses(steps, c, id, k) ==> k == i;
      assert Loses(steps, c, id, i) <==> LosesOldOutput(steps[i], c);
    }
  }

  lemma SameEntries(c: Ctx, d: Ctx)
    requires c.input == d.input && forall id :: Entry(c, id) == Entry(d, id)
    ensures c == d
  {
    forall id ensures id in c.steps <==> id in d.steps { assert Entry(c, id) == Entry(d, id); }
    forall id | id in c.steps ensures c.steps[id] == d.steps[id] { assert Entry(c, id) == Entry(d, id); }
    assert c.steps == d.steps;
  }

  lemma {:induction false} NoHalt(steps: seq<Step>, c: Ctx)
    requires forall i :: 0 <= i < |steps| ==> !Halts(RunFlow(steps[i], c))
    ensures FirstHalt(steps, c).None?
  {
    hide RunFlow;
    if steps != [] { NoHalt(steps[1..], c); }
  }

  /** A step that always fails and throws its output away. */
  function Dropper(id: string): Step {
    Step(id, "g", _ => Holds, _ => true, OnError.Skip, 0, (_, _) => Bad(false, false))
  }

  /** Two such steps, and an old output of the first: the group keeps it, the sequence does not. */
  lemma GroupKeepsAnOldOutput()
    ensures var seg, c := Segment(true, "g", [Dropper("a"), Dropper("b")]), Ctx(map[], map["a" := Scalar("old")]);
            "a" in RunGroup(seg, c).ctx.steps && "a" !in RunSegments(Singles(seg.steps), c, {}).ctx.steps
  {
    var a, b := Dropper("a"), Dropper("b");
    var seg, c := Segment(true, "g", [a, b]), Ctx(map[], map["a" := Scalar("old")]);
    assert seg.steps[1..] == [b] && [b][1..] == [];
    forall d
      ensures RunFlow(a, d).ctx == Drop(d, "a") && RunFlow(b, d).ctx == Drop(d, "b")
      ensures !Halts(RunFlow(a, d)) && !Halts(RunFlow(b, d))
    {
      DropperDrops("a", d);
      DropperDrops("b", d);
    }
    hide RunFlow;
    NoHalt(seg.steps, c);
    assert Output(Drop(c, "a"), "a") == None && Output(Drop(c, "b"), "b") == None;
    assert Merge([], c, c) == c && Merge([b], c, c) == Merge([], c, c);
    assert Merge(seg.steps, c, c) == Merge([b], c, c);
    SinglesStep(seg.steps, c);
    SinglesStep([b], Drop(c, "a"));
  }

  lemma DropperDrops(id: string, d: Ctx)
    ensures RunFlow(Dropper(id), d).ctx == Drop(d, id) && !Halts(RunFlow(Dropper(id), d))
  {
    var st := Dropper(id);
    assert st.guard(d) == Holds && st.ready(d) && st.exec(d, 1) == Bad(false, false);
    assert Tries(st, d, 1).0 == Bad(false, false);
  }
}

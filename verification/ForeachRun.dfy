/**
 A fresh run of a pipeline over a list of items: the outputs of every step are collected in item
 order, and the journal always tells at which item a resumption has to start.
 */
module ForeachRun {
  import opened Base
  import opened StepFlow
  import opened ParallelGroup
  import opened LinearResume

  /**
   `hasPre` says that steps ran before the loop, whose outputs every item keeps.  The run looks whether it was
   cancelled before each item and before each of its segments; for item `i`, look number `limit(i)` finds that it was.
   */
  datatype Loop = Loop(steps: seq<Step>, itemKey: string, hasPre: bool, maxAggregate: nat, limit: nat -> nat)

  datatype Agg = Agg(values: map<string, seq<Value>>, count: nat)

  function AllKey(id: string): string {
    id + "_all"
  }

  /** The keys of the loop's own outputs and of its aggregates. */
  function LoopKeys(steps: seq<Step>): set<string> {
    Ids(steps) + set i | 0 <= i < |steps| :: AllKey(steps[i].id)
  }

  /** The context an item starts from. */
  function Prepare(loop: Loop, c: Ctx, item: Value): Ctx {
    Ctx(c.input[loop.itemKey := item], if loop.hasPre then c.steps - LoopKeys(loop.steps) else map[])
  }

  function AddOutput(agg: Agg, id: string, c: Ctx): Agg {
    if id !in c.steps then agg else
    var earlier := if id in agg.values then agg.values[id] else [];
    Agg(agg.values[id := earlier + [c.steps[id]]], agg.count + 1)
  }

  /** Adds the outputs of the steps whose actions came before an abort; None when the limit is exceeded. */
  function Collect(loop: Loop, agg: Agg, steps: seq<Step>, actions: seq<Action>, c: Ctx): Option<Agg>
    requires |actions| <= |steps|
    decreases |actions|
  {
    if actions == [] || actions[0].AbortItem? then Some(agg) else
    var agg' := AddOutput(agg, steps[0].id, c);
    if agg'.count > agg.count && agg'.count > loop.maxAggregate then None
    else Collect(loop, agg', steps[1..], actions[1..], c)
  }

  function WriteAggregates(c: Ctx, agg: Agg, steps: seq<Step>): Ctx
    decreases |steps|
  {
    if steps == [] then c else
    var id := steps[0].id;
    var c' := if id in agg.values then c.(steps := c.steps[AllKey(id) := List(agg.values[id])]) else c;
    WriteAggregates(c', agg, steps[1..])
  }

  /** What an item leaves when it is run alone from the context `c` before the loop. */
  function ItemRun(loop: Loop, c: Ctx, item: Value): RunResult {
    SegmentsPartition(loop.steps);
    RunSegments(Segments(loop.steps), Prepare(loop, c, item), {})
  }

  /** An item whose run may find itself cancelled before the segment number `limit`. */
  function ItemUntil(loop: Loop, c: Ctx, item: Value, limit: nat): RunResult {
    SegmentsPartition(loop.steps);
    RunUntil(Segments(loop.steps), Prepare(loop, c, item), {}, limit)
  }

  datatype LoopResult = LoopResult(ctx: Ctx, agg: Agg, ok: nat, aborted: nat, error: Option<Error>, trace: seq<Event>)

  /** The run ends with an error. */
  function Failed(c: Ctx, agg: Agg, e: Error, trace: seq<Event>): LoopResult {
    LoopResult(c, agg, 0, 0, Some(e), trace + FailEvents(e, c))
  }

  /** The item loop from item `idx` on. */
  function RunItems(loop: Loop, items: seq<Value>, idx: nat, c: Ctx, agg: Agg): LoopResult
    decreases |items|
  {
    if items == [] then LoopResult(c, agg, 0, 0, None, []) else
    if loop.limit(idx) == 0 then Failed(c, agg, Error(CANCELLED, ""), []) else
    var r := ItemUntil(loop, c, items[0], loop.limit(idx) - 1);
    UntilFits(loop, c, items[0], loop.limit(idx) - 1);
    var start := [ItemStart(idx)] + r.trace;
    if r.error.Some? then Failed(r.ctx, agg, r.error.value, start) else
    match Collect(loop, agg, loop.steps, r.actions, r.ctx)
    case None => Failed(r.ctx, agg, Error("resource_limit", ""), start)
    case Some(agg') =>
      var c' := WriteAggregates(r.ctx, agg', loop.steps);
      var tail := RunItems(loop, items[1..], idx + 1, c', agg');
      var aborted := if Stops(r) then [ItemAborted(idx, loop.steps[|r.actions| - 1].id)] else [];
      var here := start + aborted + [Saved(c'), ItemEnd(idx, !Stops(r))];
      tail.(ok := tail.ok + (if Stops(r) then 0 else 1), aborted := tail.aborted + (if Stops(r) then 1 else 0),
            trace := here + tail.trace)
  }

  // --- Steps that did not act ---------------------------------------------------------

  lemma OneActions(seg: Segment, c: Ctx)
    requires WellFormed(seg)
    ensures var one := RunOne(seg, c, {});
            && (if one.error.Some? then one.actions == [] else |one.actions| == |seg.steps|)
            && (!Stops(one) ==> forall i :: 0 <= i < |one.actions| ==> !one.actions[i].AbortItem?)
            && (Stops(one) ==> one.ctx == c && |one.actions| <= 1)
  {
    hide RunFlow;
    if seg.parallel {
      NoAborts(seg.steps, c);
      GroupNeverStops(seg, c);
    } else {
      HaltKeeps(seg.steps[0], c);
    }
  }

  /** A step without an action, or aborted, left no output. */
  ghost predicate UnactedEmpty(r: RunResult, steps: seq<Step>) {
    forall i :: 0 <= i < |steps| && (i >= |r.actions| || r.actions[i].AbortItem?) ==> steps[i].id !in r.ctx.steps
  }

  lemma UnactedThen(a: RunResult, b: RunResult, mine: seq<Step>, later: seq<Step>)
    requires |a.actions| == |mine| && (forall i :: 0 <= i < |mine| ==> !a.actions[i].AbortItem?)
    requires UnactedEmpty(b, later)
    ensures UnactedEmpty(Then(a, b), mine + later)
  {
    forall i | |mine| <= i < |mine + later| ensures (mine + later)[i] == later[i - |mine|] {}
  }

  lemma {:induction false} UnactedLeavesNothing(segs: seq<Segment>, c: Ctx)
    requires WellSegmented(segs) && DistinctIds(Flatten(segs)) && RunSegments(segs, c, {}).error.None?
    requires forall i :: 0 <= i < |Flatten(segs)| ==> Flatten(segs)[i].id !in c.steps
    ensures UnactedEmpty(RunSegments(segs, c, {}), Flatten(segs))
    decreases |segs|
  {
    if segs != [] {
      hide RunOne, WellFormed, DistinctIds, UnactedEmpty, Then;
      var one, rest := RunOne(segs[0], c, {}), segs[1..];
      OneActions(segs[0], c);
      if Stops(one) {
        NothingActed(one, Flatten(segs), c);
      } else {
        IdsAppend(segs[0].steps, Flatten(rest));
        LaterUntouched(segs[0], Flatten(rest), c);
        ThenError(one, RunSegments(rest, one.ctx, {}));
        UnactedLeavesNothing(rest, one.ctx);
        UnactedThen(one, RunSegments(rest, one.ctx, {}), segs[0].steps, Flatten(rest));
      }
    }
  }

  lemma NothingActed(r: RunResult, steps: seq<Step>, c: Ctx)
    requires r.ctx == c && forall i :: 0 <= i < |steps| ==> steps[i].id !in c.steps
    ensures UnactedEmpty(r, steps)
  {
  }

  lemma ThenError(a: RunResult, b: RunResult)
    ensures Then(a, b).error == b.error
  {
  }

  lemma LaterUntouched(seg: Segment, later: seq<Step>, c: Ctx)
    requires WellFormed(seg) && DistinctIds(seg.steps) && Ids(seg.steps) !! Ids(later)
    requires forall i :: 0 <= i < |seg.steps + later| ==> (seg.steps + later)[i].id !in c.steps
    ensures forall i :: 0 <= i < |later| ==> later[i].id !in RunOne(seg, c, {}).ctx.steps
  {
    hide RunOne, WellFormed, DistinctIds;
    forall i | 0 <= i < |later| ensures later[i].id !in RunOne(seg, c, {}).ctx.steps {
      assert (seg.steps + later)[|seg.steps| + i] == later[i] && later[i].id in Ids(later);
      RunOneFrame(seg, c, {}, later[i].id);
      assert Entry(c, later[i].id) == Entry(RunOne(seg, c, {}).ctx, later[i].id);
    }
  }

  /** The step an aborted item is journalled at is the one that failed. */
  lemma AbortedAtTheStep(loop: Loop, c: Ctx, item: Value)
    requires Stops(ItemRun(loop, c, item)) && ItemRun(loop, c, item).error.None?
    ensures var r := ItemRun(loop, c, item);
            && 0 < |r.actions| <= |loop.steps| && r.trace != []
            && r.trace[|r.trace| - 1] == StepFailed(loop.steps[|r.actions| - 1].id)
  {
    SegmentsPartition(loop.steps);
    hide RunSegments, Segments, WellFormed, SegmentDone, Kept;
    var segs := Segments(loop.steps);
    var j := AbortingSegment(segs, Prepare(loop, c, item), {});
    NothingSkipped(segs[..j]);
    FlattenAt(segs, j);
  }

  lemma ActionsFit(loop: Loop, c: Ctx, item: Value)
    ensures |ItemRun(loop, c, item).actions| <= |loop.steps|
  {
    UntilFits(loop, c, item, |Segments(loop.steps)|);
  }

  lemma UntilFits(loop: Loop, c: Ctx, item: Value, limit: nat)
    ensures var r := ItemUntil(loop, c, item, limit);
            |r.actions| <= |loop.steps| && forall i :: 0 <= i < |r.actions| - 1 ==> !r.actions[i].AbortItem?
  {
    SegmentsPartition(loop.steps);
    hide Segments, WellSegmented, RunUntil;
    UntilShape(Segments(loop.steps), Prepare(loop, c, item), {}, limit);
  }

  /** Looking for a cancellation changes nothing while none is found. */
  lemma UntilIsTheItem(loop: Loop, c: Ctx, item: Value, limit: nat)
    requires ItemUntil(loop, c, item, limit).error.None?
    ensures ItemUntil(loop, c, item, limit) == ItemRun(loop, c, item)
  {
    SegmentsPartition(loop.steps);
    hide Segments, WellSegmented, RunSegments;
    var segs := Segments(loop.steps);
    if limit < |segs| { RunSplits(segs, Prepare(loop, c, item), {}, limit); }
  }

  // --- Collecting ---------------------------------------------------------------------

  function Values(agg: Agg, id: string): seq<Value> {
    if id in agg.values then agg.values[id] else []
  }

  /** What an item contributes to the aggregate of a step: its output, if it left one. */
  function Contribution(r: RunResult, id: string): seq<Value> {
    if id in r.ctx.steps then [r.ctx.steps[id]] else []
  }

  lemma {:induction false} CollectAdds(loop: Loop, agg: Agg, steps: seq<Step>, actions: seq<Action>, c: Ctx, id: string)
    requires |actions| <= |steps| && DistinctIds(steps) && Collect(loop, agg, steps, actions, c).Some?
    requires forall i :: 0 <= i < |actions| - 1 ==> !actions[i].AbortItem?
    requires forall i :: 0 <= i < |steps| && (i >= |actions| || actions[i].AbortItem?) ==> steps[i].id !in c.steps
    ensures Values(Collect(loop, agg, steps, actions, c).value, id) ==
            Values(agg, id) + if id in Ids(steps) && id in c.steps then [c.steps[id]] else []
    decreases |actions|
  {
    if actions == [] || actions[0].AbortItem? {
      assert id in Ids(steps) ==> id !in c.steps by {
        if id in Ids(steps) { var i :| 0 <= i < |steps| && steps[i].id == id; }
      }
    } else {
      IdsHead(steps);
      var rest := steps[1..];
      assert forall k :: 0 <= k < |rest| ==> rest[k] == steps[k + 1];
      assert steps[0].id !in Ids(rest);
      CollectAdds(loop, AddOutput(agg, steps[0].id, c), rest, actions[1..], c, id);
    }
  }

  /** No step is listed without an output. */
  ghost predicate Filled(agg: Agg) {
    forall id :: id in agg.values ==> agg.values[id] != []
  }

  lemma {:induction false} CollectKeepsFilled(loop: Loop, agg: Agg, steps: seq<Step>, actions: seq<Action>, c: Ctx)
    requires |actions| <= |steps| && Collect(loop, agg, steps, actions, c).Some?
    requires Filled(agg)
    ensures Filled(Collect(loop, agg, steps, actions, c).value)
    decreases |actions|
  {
    if !(actions == [] || actions[0].AbortItem?) {
      CollectKeepsFilled(loop, AddOutput(agg, steps[0].id, c), steps[1..], actions[1..], c);
    }
  }

  lemma AllKeyInjective(a: string, b: string)
    requires AllKey(a) == AllKey(b)
    ensures a == b
  {
    assert AllKey(a)[..|a|] == a && AllKey(b)[..|b|] == b;
  }

  /** Writing the aggregates sets exactly the aggregate keys of the collected steps. */
  lemma {:induction false} WriteEntries(c: Ctx, agg: Agg, steps: seq<Step>, key: string)
    ensures var w := WriteAggregates(c, agg, steps);
            && w.input == c.input
            && (forall i :: 0 <= i < |steps| && key == AllKey(steps[i].id) ==>
                  Entry(w, key) == if steps[i].id in agg.values then Some(List(agg.values[steps[i].id]))
                                   else Entry(c, key))
            && ((forall i :: 0 <= i < |steps| ==> key != AllKey(steps[i].id)) ==> Entry(w, key) == Entry(c, key))
    decreases |steps|
  {
    if steps != [] {
      var id, rest := steps[0].id, steps[1..];
      var c' := if id in agg.values then c.(steps := c.steps[AllKey(id) := List(agg.values[id])]) else c;
      WriteEntries(c', agg, rest, key);
      assert forall k :: 0 <= k < |rest| ==> rest[k] == steps[k + 1];
      forall i | 0 <= i < |steps| && key == AllKey(steps[i].id)
        ensures Entry(WriteAggregates(c, agg, steps), key) ==
                if steps[i].id in agg.values then Some(List(agg.values[steps[i].id])) else Entry(c, key)
      {
        if key == AllKey(id) { AllKeyInjective(id, steps[i].id); }
        if i > 0 { assert rest[i - 1] == steps[i]; }
        else if k :| 0 <= k < |rest| && key == AllKey(rest[k].id) { AllKeyInjective(id, rest[k].id); }
      }
    }
  }

  // --- Items do not disturb each other ------------------------------------------------

  /**
   An item starts with its own value among the inputs, without any output or aggregate of the loop, and with the
   other inputs and the outputs from before the loop.
   */
  lemma ItemStartsAnew(loop: Loop, c: Ctx, item: Value, id: string)
    ensures var p := Prepare(loop, c, item);
            && p.input[loop.itemKey] == item && p.input - {loop.itemKey} == c.input - {loop.itemKey}
            && Entry(p, id) == if loop.hasPre && id !in LoopKeys(loop.steps) then Entry(c, id) else None
  {
    var p := Prepare(loop, c, item);
    assert p.input - {loop.itemKey} == c.input - {loop.itemKey};
  }

  /** How many of the steps before an abort left an output. */
  function OutputCount(steps: seq<Step>, actions: seq<Action>, c: Ctx): nat
    requires |actions| <= |steps|
    decreases |actions|
  {
    if actions == [] || actions[0].AbortItem? then 0
    else (if steps[0].id in c.steps then 1 else 0) + OutputCount(steps[1..], actions[1..], c)
  }

  /** Every output counts, and the limit is exceeded exactly when there is an output beyond it. */
  lemma {:induction false} CollectCounts(loop: Loop, agg: Agg, steps: seq<Step>, actions: seq<Action>, c: Ctx)
    requires |actions| <= |steps|
    ensures var r, n := Collect(loop, agg, steps, actions, c), OutputCount(steps, actions, c);
            && (r.Some? <==> n == 0 || agg.count + n <= loop.maxAggregate)
            && (r.Some? ==> r.value.count == agg.count + n)
    decreases |actions|
  {
    if actions != [] && !actions[0].AbortItem? {
      CollectCounts(loop, AddOutput(agg, steps[0].id, c), steps[1..], actions[1..], c);
    }
  }

  /** Equal but for what the loop itself writes. */
  ghost predicate SameBase(loop: Loop, c: Ctx, d: Ctx) {
    && c.input - {loop.itemKey} == d.input - {loop.itemKey}
    && (loop.hasPre ==> forall id :: id !in LoopKeys(loop.steps) ==> Entry(c, id) == Entry(d, id))
  }

  lemma PrepareSame(loop: Loop, c: Ctx, d: Ctx, item: Value)
    requires SameBase(loop, c, d)
    ensures Prepare(loop, c, item) == Prepare(loop, d, item)
  {
    var a, b := Prepare(loop, c, item), Prepare(loop, d, item);
    assert a.input == (c.input - {loop.itemKey})[loop.itemKey := item];
    assert b.input == (d.input - {loop.itemKey})[loop.itemKey := item];
    forall id ensures Entry(a, id) == Entry(b, id) {
      if loop.hasPre && id !in LoopKeys(loop.steps) { assert Entry(c, id) == Entry(d, id); }
    }
    SameEntries(a, b);
  }

  /** What an item does to the context beside its own keys: nothing. */
  lemma ItemKeepsBase(loop: Loop, c: Ctx, item: Value, agg: Agg)
    requires DistinctIds(loop.steps)
    ensures SameBase(loop, WriteAggregates(ItemRun(loop, c, item).ctx, agg, loop.steps), c)
  {
    SegmentsPartition(loop.steps);
    hide RunSegments, Segments, WriteAggregates;
    var p := Prepare(loop, c, item);
    var r := ItemRun(loop, c, item);
    var w := WriteAggregates(r.ctx, agg, loop.steps);
    var other := Unused(loop.steps);
    RunSegmentsFrame(Segments(loop.steps), p, {}, other);
    WriteEntries(r.ctx, agg, loop.steps, "");
    assert w.input == c.input[loop.itemKey := item];
    assert w.input - {loop.itemKey} == c.input - {loop.itemKey};
    forall id | loop.hasPre && id !in LoopKeys(loop.steps) ensures Entry(w, id) == Entry(c, id) {
      RunSegmentsFrame(Segments(loop.steps), p, {}, id);
      WriteEntries(r.ctx, agg, loop.steps, id);
    }
  }

  /** The aggregate keys hold what is collected; where nothing is, what the context `last` of the item has there. */
  ghost predicate Written(loop: Loop, c: Ctx, agg: Agg, last: Ctx) {
    forall i :: 0 <= i < |loop.steps| ==>
      Entry(c, AllKey(loop.steps[i].id)) ==
        if loop.steps[i].id in agg.values then Some(List(agg.values[loop.steps[i].id]))
        else Entry(last, AllKey(loop.steps[i].id))
  }

  lemma ItemWrites(loop: Loop, c: Ctx, item: Value, agg: Agg)
    ensures Written(loop, WriteAggregates(ItemRun(loop, c, item).ctx, agg, loop.steps), agg, ItemRun(loop, c, item).ctx)
  {
    hide ItemRun, WriteAggregates;
    var r := ItemRun(loop, c, item);
    forall i | 0 <= i < |loop.steps|
      ensures Entry(WriteAggregates(r.ctx, agg, loop.steps), AllKey(loop.steps[i].id)) ==
                if loop.steps[i].id in agg.values then Some(List(agg.values[loop.steps[i].id]))
                else Entry(r.ctx, AllKey(loop.steps[i].id))
    {
      WriteEntries(r.ctx, agg, loop.steps, AllKey(loop.steps[i].id));
    }
  }

  /** An item leaves nothing under an aggregate key unless a step has that very name. */
  lemma NoEntryOfItsOwn(loop: Loop, c: Ctx, item: Value, k: nat)
    requires DistinctIds(loop.steps) && k < |loop.steps| && AllKey(loop.steps[k].id) !in Ids(loop.steps)
    ensures Entry(ItemRun(loop, c, item).ctx, AllKey(loop.steps[k].id)) == None
  {
    SegmentsPartition(loop.steps);
    hide RunSegments, Segments;
    var key := AllKey(loop.steps[k].id);
    assert key in LoopKeys(loop.steps);
    RunSegmentsFrame(Segments(loop.steps), Prepare(loop, c, item), {}, key);
  }

  /** The outputs of a step over the items, each item run alone. */
  function Outputs(loop: Loop, c: Ctx, items: seq<Value>, id: string): seq<Value> {
    if items == [] then [] else Contribution(ItemRun(loop, c, items[0]), id) + Outputs(loop, c, items[1..], id)
  }

  function CountOk(loop: Loop, c: Ctx, items: seq<Value>): nat {
    if items == [] then 0 else (if Stops(ItemRun(loop, c, items[0])) then 0 else 1) + CountOk(loop, c, items[1..])
  }

  lemma ItemContributes(loop: Loop, c: Ctx, item: Value, agg: Agg, id: string)
    requires DistinctIds(loop.steps) && id in Ids(loop.steps) && ItemRun(loop, c, item).error.None?
    requires |ItemRun(loop, c, item).actions| <= |loop.steps|
    requires var r := ItemRun(loop, c, item); Collect(loop, agg, loop.steps, r.actions, r.ctx).Some?
    ensures var r := ItemRun(loop, c, item);
            Values(Collect(loop, agg, loop.steps, r.actions, r.ctx).value, id) == Values(agg, id) + Contribution(r, id)
  {
    SegmentsPartition(loop.steps);
    hide RunSegments, Segments, Collect;
    var p := Prepare(loop, c, item);
    forall i | 0 <= i < |loop.steps| ensures loop.steps[i].id !in p.steps {
      assert loop.steps[i].id in Ids(loop.steps);
    }
    UnactedLeavesNothing(Segments(loop.steps), p);
    LastAborts(loop, c, item);
    CollectAdds(loop, agg, loop.steps, ItemRun(loop, c, item).actions, ItemRun(loop, c, item).ctx, id);
  }

  /** One item, told apart from the rest of the loop. */
  lemma OneItem(loop: Loop, c0: Ctx, c: Ctx, agg: Agg, item: Value, id: string, agg': Agg, c': Ctx)
    requires DistinctIds(loop.steps) && SameBase(loop, c, c0) && id in Ids(loop.steps)
    requires Filled(agg)
    requires ItemRun(loop, c, item).error.None? && |ItemRun(loop, c, item).actions| <= |loop.steps|
    requires Collect(loop, agg, loop.steps, ItemRun(loop, c, item).actions, ItemRun(loop, c, item).ctx) == Some(agg')
    requires c' == WriteAggregates(ItemRun(loop, c, item).ctx, agg', loop.steps)
    ensures ItemRun(loop, c, item) == ItemRun(loop, c0, item)
    ensures Values(agg', id) == Values(agg, id) + Contribution(ItemRun(loop, c0, item), id)
    ensures Filled(agg')
    ensures SameBase(loop, c', c0) && Written(loop, c', agg', ItemRun(loop, c0, item).ctx)
  {
    hide Collect, WriteAggregates, ItemRun, Written, SameBase, DistinctIds;
    PrepareSameRun(loop, c, c0, item);
    ItemContributes(loop, c, item, agg, id);
    CollectKeepsFilled(loop, agg, loop.steps, ItemRun(loop, c, item).actions, ItemRun(loop, c, item).ctx);
    ItemKeepsBase(loop, c, item, agg');
    ItemWrites(loop, c, item, agg');
    SameBaseTrans(loop, c', c, c0);
  }

  lemma LoopUnfolds(loop: Loop, items: seq<Value>, idx: nat, c: Ctx, agg: Agg) returns (agg': Agg, c': Ctx)
    requires items != [] && RunItems(loop, items, idx, c, agg).error.None?
    ensures var r := ItemRun(loop, c, items[0]);
            && r.error.None? && |r.actions| <= |loop.steps|
            && Collect(loop, agg, loop.steps, r.actions, r.ctx) == Some(agg')
            && c' == WriteAggregates(r.ctx, agg', loop.steps)
    ensures var all, tail := RunItems(loop, items, idx, c, agg), RunItems(loop, items[1..], idx + 1, c', agg');
            && all.ctx == tail.ctx && all.agg == tail.agg && tail.error.None?
            && all.ok == tail.ok + (if Stops(ItemRun(loop, c, items[0])) then 0 else 1)
            && all.aborted == tail.aborted + (if Stops(ItemRun(loop, c, items[0])) then 1 else 0)
  {
    hide Collect, WriteAggregates, ItemRun, ItemUntil, Stops;
    ActionsFit(loop, c, items[0]);
    UntilIsTheItem(loop, c, items[0], loop.limit(idx) - 1);
    var r := ItemRun(loop, c, items[0]);
    agg' := Collect(loop, agg, loop.steps, r.actions, r.ctx).value;
    c' := WriteAggregates(r.ctx, agg', loop.steps);
  }

  /** What the loop adds to the aggregate of step `id` and to the verdicts, and what it leaves in the context. */
  ghost predicate Collected(loop: Loop, c0: Ctx, items: seq<Value>, agg: Agg, r: LoopResult, id: string) {
    && Values(r.agg, id) == Values(agg, id) + Outputs(loop, c0, items, id)
    && (items != [] ==> Written(loop, r.ctx, r.agg, ItemRun(loop, c0, items[|items| - 1]).ctx))
    && Filled(r.agg)
    && r.ok == CountOk(loop, c0, items) && r.ok + r.aborted == |items|
  }

  lemma CollectedStep(loop: Loop, c0: Ctx, items: seq<Value>, agg: Agg, agg': Agg, all: LoopResult, tail: LoopResult,
                      id: string)
    requires items != [] && Collected(loop, c0, items[1..], agg', tail, id)
    requires |items| == 1 ==> Written(loop, tail.ctx, tail.agg, ItemRun(loop, c0, items[0]).ctx)
    requires Values(agg', id) == Values(agg, id) + Contribution(ItemRun(loop, c0, items[0]), id)
    requires all.ctx == tail.ctx && all.agg == tail.agg
    requires all.ok == tail.ok + (if Stops(ItemRun(loop, c0, items[0])) then 0 else 1)
    requires all.aborted == tail.aborted + (if Stops(ItemRun(loop, c0, items[0])) then 1 else 0)
    ensures Collected(loop, c0, items, agg, all, id)
  {
    hide ItemRun, Written, Stops, Values, Contribution, Filled, Outputs, CountOk;
    FirstOutput(loop, c0, items, id);
    if |items| > 1 { assert items[1..][|items| - 2] == items[|items| - 1]; }
  }

  lemma {:induction false} LoopCollects(loop: Loop, items: seq<Value>, idx: nat, c0: Ctx, c: Ctx, agg: Agg, id: string)
    requires DistinctIds(loop.steps) && SameBase(loop, c, c0) && id in Ids(loop.steps)
    requires Filled(agg)
    requires RunItems(loop, items, idx, c, agg).error.None?
    ensures Collected(loop, c0, items, agg, RunItems(loop, items, idx, c, agg), id)
    decreases |items|
  {
    if items != [] {
      var agg', c' := LoopUnfolds(loop, items, idx, c, agg);
      hide RunItems, Collect, WriteAggregates, ItemRun, Written, SameBase, DistinctIds, Stops, Values, Contribution,
        Ids, Filled, Collected;
      OneItem(loop, c0, c, agg, items[0], id, agg', c');
      LoopCollects(loop, items[1..], idx + 1, c0, c', agg', id);
      if |items| == 1 { LoopEnds(loop, items, idx + 1, c', agg'); }
      CollectedStep(loop, c0, items, agg, agg', RunItems(loop, items, idx, c, agg),
                    RunItems(loop, items[1..], idx + 1, c', agg'), id);
    } else {
      assert Values(agg, id) + [] == Values(agg, id);
    }
  }

  lemma FirstOutput(loop: Loop, c: Ctx, items: seq<Value>, id: string)
    requires items != []
    ensures Outputs(loop, c, items, id) ==
            Contribution(ItemRun(loop, c, items[0]), id) + Outputs(loop, c, items[1..], id)
    ensures CountOk(loop, c, items) ==
            (if Stops(ItemRun(loop, c, items[0])) then 0 else 1) + CountOk(loop, c, items[1..])
  {
    hide ItemRun, Contribution, Stops;
  }

  lemma LoopEnds(loop: Loop, items: seq<Value>, idx: nat, c: Ctx, agg: Agg)
    requires |items| == 1
    ensures RunItems(loop, items[1..], idx, c, agg).ctx == c && RunItems(loop, items[1..], idx, c, agg).agg == agg
  {
  }

  lemma PrepareSameRun(loop: Loop, c: Ctx, d: Ctx, item: Value)
    requires SameBase(loop, c, d)
    ensures ItemRun(loop, c, item) == ItemRun(loop, d, item)
  {
    PrepareSame(loop, c, d, item);
  }

  lemma SameBaseTrans(loop: Loop, a: Ctx, b: Ctx, c: Ctx)
    requires SameBase(loop, a, b) && SameBase(loop, b, c)
    ensures SameBase(loop, a, c)
  {
  }

  /**
   A loop that ends without error leaves, for every step with outputs, these outputs in item order, each as if
   the item had been run alone; the verdicts add up.  For a step without any it leaves no aggregate, except what
   another step of the name `<id>_all` left in the last item.
   */
  lemma AggregatesAreTheOutputs(loop: Loop, items: seq<Value>, c: Ctx, k: nat)
    requires DistinctIds(loop.steps) && items != [] && k < |loop.steps|
    requires RunItems(loop, items, 0, c, Agg(map[], 0)).error.None?
    ensures var r := RunItems(loop, items, 0, c, Agg(map[], 0));
            var id, outs := loop.steps[k].id, Outputs(loop, c, items, loop.steps[k].id);
            && (outs != [] ==> Entry(r.ctx, AllKey(id)) == Some(List(outs)))
            && (outs == [] && AllKey(id) !in Ids(loop.steps) ==> Entry(r.ctx, AllKey(id)) == None)
            && (outs == [] && AllKey(id) in Ids(loop.steps) ==>
                  Entry(r.ctx, AllKey(id)) == Entry(ItemRun(loop, c, items[|items| - 1]).ctx, AllKey(id)))
            && r.ok == CountOk(loop, c, items) && r.ok + r.aborted == |items|
  {
    hide RunItems, Outputs, DistinctIds, ItemRun;
    LoopCollects(loop, items, 0, c, c, Agg(map[], 0), loop.steps[k].id);
    var outs := Outputs(loop, c, items, loop.steps[k].id);
    assert [] + outs == outs;
    if AllKey(loop.steps[k].id) !in Ids(loop.steps) {
      NoEntryOfItsOwn(loop, c, items[|items| - 1], k);
    }
  }

  /** `a` is left out by its condition; the next step has the name of its aggregate. */
  function Namesake(): Loop {
    var a := Step("a", "", _ => Fails, _ => true, OnError.Skip, 0, (_, _) => Good(Some(map[])));
    Loop([a, a.(id := "a_all", guard := _ => Holds)], "item", false, 10, _ => 9)
  }

  lemma NamesakeItem(item: Value)
    ensures var loop, r := Namesake(), ItemRun(Namesake(), Ctx(map[], map[]), item);
            && |loop.steps| == 2 && loop.steps[0].id == "a" && loop.steps[1].id == "a_all"
            && loop.limit(0) == 9 && loop.maxAggregate == 10
            && r.ctx.steps == map["a_all" := Object(map[])] && r.actions == [Okay, Okay] && r.error.None?
  {
    var p := Prepare(Namesake(), Ctx(map[], map[]), item);
    var a, b := Namesake().steps[0], Namesake().steps[1];
    assert Namesake().steps == [a, b];
    assert RunFlow(a, p) == Flow(p, Ok(Okay), [StepSkipped("a")]);
    assert b.exec(p, 1) == Good(Some(map[]));
    assert RunFlow(b, p).ctx == SetStep(p, "a_all", map[]) && RunFlow(b, p).action == Ok(Okay);
    hide RunFlow;
    TwoSteps(a, b, p);
  }

  /** Where the aggregate of `a`, which has no outputs, would stand, the output of `a_all` does. */
  lemma NamesakeStandsThere(item: Value)
    ensures var loop, c := Namesake(), Ctx(map[], map[]);
            var r := RunItems(loop, [item], 0, c, Agg(map[], 0));
            && DistinctIds(loop.steps) && loop.steps[0].id == "a" && Outputs(loop, c, [item], "a") == []
            && r.error.None? && Entry(r.ctx, AllKey("a")) == Some(Object(map[]))
  {
    hide ItemRun, ItemUntil, Prepare, Namesake, RunItems, WriteAggregates, Collect;
    NamesakeItem(item);
    var loop, c, none := Namesake(), Ctx(map[], map[]), Agg(map[], 0);
    var r, steps := ItemRun(loop, c, item), loop.steps;
    CollectSecond(loop, none, steps, r.ctx);
    ItemAlone(loop, c, item, none, AddOutput(none, "a_all", r.ctx));
    WriteEntries(r.ctx, AddOutput(none, "a_all", r.ctx), steps, "a_all");
    assert AllKey("a") == "a_all" && AllKey("a_all") != "a_all";
    assert Outputs(loop, c, [item], "a") == Contribution(r, "a") + Outputs(loop, c, [], "a") == [];
  }

  lemma ItemAlone(loop: Loop, c: Ctx, item: Value, agg: Agg, agg': Agg)
    requires loop.limit(0) > |loop.steps| >= |ItemRun(loop, c, item).actions| && ItemRun(loop, c, item).error.None?
    requires Collect(loop, agg, loop.steps, ItemRun(loop, c, item).actions, ItemRun(loop, c, item).ctx) == Some(agg')
    ensures RunItems(loop, [item], 0, c, agg).error.None?
    ensures RunItems(loop, [item], 0, c, agg).ctx == WriteAggregates(ItemRun(loop, c, item).ctx, agg', loop.steps)
  {
    LooksFindNothing(loop, c, item, loop.limit(0) - 1);
    OneItemTrace(loop, item, 0, c, agg);
    hide RunItems, ItemRun, ItemUntil, Collect, WriteAggregates;
  }

  lemma CollectSecond(loop: Loop, agg: Agg, steps: seq<Step>, c: Ctx)
    requires |steps| == 2 && steps[0].id !in c.steps && steps[1].id in c.steps && agg.count < loop.maxAggregate
    ensures Collect(loop, agg, steps, [Okay, Okay], c) == Some(AddOutput(agg, steps[1].id, c))
  {
    assert [Okay, Okay][1..] == [Okay] && [Okay][1..] == [] && steps[1..][0] == steps[1];
    assert AddOutput(agg, steps[0].id, c) == agg;
    var agg' := AddOutput(agg, steps[1].id, c);
    assert Collect(loop, agg', steps[1..][1..], [], c) == Some(agg');
    assert Collect(loop, agg, steps[1..], [Okay], c) == Some(agg');
  }

  /** A look that is never made finds nothing. */
  lemma LooksFindNothing(loop: Loop, c: Ctx, item: Value, limit: nat)
    requires limit >= |loop.steps|
    ensures ItemUntil(loop, c, item, limit) == ItemRun(loop, c, item)
  {
    SegmentsPartition(loop.steps);
    FewSegments(Segments(loop.steps));
  }

  lemma TwoSteps(a: Step, b: Step, c: Ctx)
    requires a.group == "" && b.group == "" && !Halts(RunFlow(a, c)) && !Halts(RunFlow(b, RunFlow(a, c).ctx))
    ensures WellSegmented(Segments([a, b]))
    ensures var fa, fb := RunFlow(a, c), RunFlow(b, RunFlow(a, c).ctx);
            RunSegments(Segments([a, b]), c, {}) ==
            RunResult(fb.ctx, [fa.action.value, fb.action.value], None, fa.trace + fb.trace)
  {
    hide RunFlow;
    TwoSegments(a, b);
    var one, two := Segment(false, "", [a]), Segment(false, "", [b]);
    assert [one, two][1..] == [two] && [two][1..] == [];
    var c' := RunFlow(a, c).ctx;
    var last := RunSegments([], RunFlow(b, c').ctx, {});
    assert RunSegments([two], c', {}) == Then(RunOne(two, c', {}), last);
    assert RunFlow(b, c').trace + [] == RunFlow(b, c').trace;
  }

  // --- The runner's loop --------------------------------------------------------------

  /** Collects the outputs of one item; the abort, if there is one, is journalled at its step. */
  method DoCollect(loop: Loop, agg0: Agg, actions: seq<Action>, ctx: Context, j: Journal, idx: nat)
    returns (agg: Agg, aborted: bool, error: Option<Error>)
    requires |actions| <= |loop.steps| && forall i :: 0 <= i < |actions| - 1 ==> !actions[i].AbortItem?
    modifies j
    ensures match Collect(loop, agg0, loop.steps, actions, ctx.data)
            case None => error == Some(Error("resource_limit", "")) && j.trace == old(j.trace)
            case Some(a) =>
              && error.None? && agg == a && (aborted <==> actions != [] && actions[|actions| - 1].AbortItem?)
              && j.trace == old(j.trace) + if aborted then [ItemAborted(idx, loop.steps[|actions| - 1].id)] else []
  {
    agg, aborted, error := agg0, false, None;
    assert loop.steps[0..] == loop.steps && actions[0..] == actions;
    for i := 0 to |actions|
      invariant !aborted && error.None? && j.trace == old(j.trace)
      invariant forall k :: 0 <= k < i ==> !actions[k].AbortItem?
      invariant Collect(loop, agg, loop.steps[i..], actions[i..], ctx.data) ==
                Collect(loop, agg0, loop.steps, actions, ctx.data)
    {
      assert loop.steps[i..][1..] == loop.steps[i + 1..] && actions[i..][1..] == actions[i + 1..];
      var st := loop.steps[i];
      if actions[i].AbortItem? {
        j.Event(ItemAborted(idx, st.id));
        aborted := true;
        return;
      }
      if st.id in ctx.data.steps {
        agg := AddOutput(agg, st.id, ctx.data);
        if agg.count > loop.maxAggregate { return agg, false, Some(Error("resource_limit", "")); }
      }
    }
  }

  method DoWriteAggregates(ctx: Context, agg: Agg, steps: seq<Step>)
    modifies ctx
    ensures ctx.data == WriteAggregates(old(ctx.data), agg, steps)
  {
    assert steps[0..] == steps;
    for i := 0 to |steps|
      invariant WriteAggregates(ctx.data, agg, steps[i..]) == WriteAggregates(old(ctx.data), agg, steps)
    {
      assert steps[i..][1..] == steps[i + 1..];
      var id := steps[i].id;
      if id in agg.values {
        ctx.data := ctx.data.(steps := ctx.data.steps[AllKey(id) := List(agg.values[id])]);
      }
    }
  }

  /** One item: the context and the journal after it, or the error that ends the run. */
  method DoItem(loop: Loop, item: Value, idx: nat, ctx: Context, j: Journal, agg0: Agg)
    returns (agg: Agg, aborted: bool, error: Option<Error>)
    modifies ctx, j
    ensures var one := RunItems(loop, [item], idx, old(ctx.data), agg0);
            && ctx.data == one.ctx && error == one.error && j.trace == old(j.trace) + one.trace
            && (error.None? ==>
                agg == one.agg && one.aborted == (if aborted then 1 else 0) && one.ok == 1 - one.aborted)
            && (error.Some? ==> one.ok == 0 && one.aborted == 0)
  {
    hide RunUntil, Segments, Collect, WriteAggregates, WellSegmented, RunItems, ItemRun, Prepare, FailEvents;
    ghost var c := ctx.data;
    OneItemTrace(loop, item, idx, c, agg0);
    agg, aborted := agg0, false;
    if loop.limit(idx) == 0 {
      error := Some(Error(CANCELLED, ""));
      FailEvent(error.value, ctx, j);
      return;
    }
    ctx.data := Prepare(loop, ctx.data, item);
    j.Event(ItemStart(idx));
    var actions;
    actions, error := DoRunSegments(loop.steps, ctx, j, {}, loop.limit(idx) - 1);
    ghost var r := ItemUntil(loop, c, item, loop.limit(idx) - 1);
    assert ctx.data == r.ctx && actions == r.actions && error == r.error &&
           j.trace == old(j.trace) + ([ItemStart(idx)] + r.trace);
    if error.Some? {
      FailEvent(error.value, ctx, j);
      return;
    }
    UntilFits(loop, c, item, loop.limit(idx) - 1);
    agg, aborted, error := DoCollect(loop, agg0, actions, ctx, j, idx);
    if error.Some? {
      FailEvent(error.value, ctx, j);
      return;
    }
    DoWriteAggregates(ctx, agg, loop.steps);
    j.Event(Saved(ctx.data));
    j.Event(ItemEnd(idx, !aborted));
  }

  lemma LastAborts(loop: Loop, c: Ctx, item: Value)
    ensures var r := ItemRun(loop, c, item);
            forall i :: 0 <= i < |r.actions| - 1 ==> !r.actions[i].AbortItem?
  {
    UntilFits(loop, c, item, |Segments(loop.steps)|);
  }

  /** The trace of a run of one item, case by case. */
  lemma OneItemTrace(loop: Loop, item: Value, idx: nat, c: Ctx, agg: Agg)
    ensures var one := RunItems(loop, [item], idx, c, agg);
            if loop.limit(idx) == 0 then one == Failed(c, agg, Error(CANCELLED, ""), []) else
            var r := ItemUntil(loop, c, item, loop.limit(idx) - 1);
            var start := [ItemStart(idx)] + r.trace;
            if r.error.Some? then one == Failed(r.ctx, agg, r.error.value, start) else
            && r == ItemRun(loop, c, item) && |r.actions| <= |loop.steps|
            && match Collect(loop, agg, loop.steps, r.actions, r.ctx)
               case None => one == Failed(r.ctx, agg, Error("resource_limit", ""), start)
               case Some(agg') =>
                 var c' := WriteAggregates(r.ctx, agg', loop.steps);
                 var aborted := if Stops(r) then [ItemAborted(idx, loop.steps[|r.actions| - 1].id)] else [];
                 one == LoopResult(c', agg', if Stops(r) then 0 else 1, if Stops(r) then 1 else 0, None,
                                   start + aborted + [Saved(c'), ItemEnd(idx, !Stops(r))])
  {
    hide ItemRun, ItemUntil, Collect, WriteAggregates;
    assert [item][1..] == [];
    if loop.limit(idx) > 0 {
      var r := ItemUntil(loop, c, item, loop.limit(idx) - 1);
      UntilFits(loop, c, item, loop.limit(idx) - 1);
      if r.error.None? {
        UntilIsTheItem(loop, c, item, loop.limit(idx) - 1);
        var x := Collect(loop, agg, loop.steps, r.actions, r.ctx);
        if x.Some? {
          var c' := WriteAggregates(r.ctx, x.value, loop.steps);
          assert RunItems(loop, [], idx + 1, c', x.value) == LoopResult(c', x.value, 0, 0, None, []);
          var aborted := if Stops(r) then [ItemAborted(idx, loop.steps[|r.actions| - 1].id)] else [];
          var here := [ItemStart(idx)] + r.trace + aborted + [Saved(c'), ItemEnd(idx, !Stops(r))];
          assert here + [] == here;
        }
      }
    }
  }

  /** Items run one by one are the loop. */
  lemma LoopByItems(loop: Loop, items: seq<Value>, idx: nat, c: Ctx, agg: Agg)
    requires items != []
    ensures var one, all := RunItems(loop, [items[0]], idx, c, agg), RunItems(loop, items, idx, c, agg);
            if one.error.Some? then all == one else
            var tail := RunItems(loop, items[1..], idx + 1, one.ctx, one.agg);
            all == tail.(ok := tail.ok + one.ok, aborted := tail.aborted + one.aborted, trace := one.trace + tail.trace)
  {
    OneItemTrace(loop, items[0], idx, c, agg);
    UntilFits(loop, c, items[0], if loop.limit(idx) == 0 then 0 else loop.limit(idx) - 1);
    hide ItemRun, ItemUntil, Collect, WriteAggregates, Failed, Stops;
  }

  /** The item loop of a fresh run. */
  method DoRunItems(loop: Loop, items: seq<Value>, ctx: Context, j: Journal)
    returns (agg: Agg, ok: nat, aborted: nat, error: Option<Error>)
    modifies ctx, j
    ensures var r := RunItems(loop, items, 0, old(ctx.data), Agg(map[], 0));
            && ctx.data == r.ctx && error == r.error && j.trace == old(j.trace) + r.trace
            && ok == r.ok && aborted == r.aborted && (error.None? ==> agg == r.agg)
  {
    hide RunItems;
    agg, ok, aborted, error := Agg(map[], 0), 0, 0, None;
    ghost var all := RunItems(loop, items, 0, ctx.data, agg);
    assert items[0..] == items;
    for i := 0 to |items|
      invariant error.None?
      invariant var tail := RunItems(loop, items[i..], i, ctx.data, agg);
                && all.ctx == tail.ctx && all.agg == tail.agg && all.error == tail.error
                && all.ok == ok + tail.ok && all.aborted == aborted + tail.aborted
                && old(j.trace) + all.trace == j.trace + tail.trace
    {
      LoopByItems(loop, items[i..], i, ctx.data, agg);
      assert items[i..][1..] == items[i + 1..];
      var stopped;
      agg, stopped, error := DoItem(loop, items[i], i, ctx, j, agg);
      if error.Some? {
        return;
      }
      if stopped { aborted := aborted + 1; } else { ok := ok + 1; }
    }
    NoItems(loop, |items|, ctx.data, agg);
    assert items[|items|..] == [] && j.trace + [] == j.trace;
  }

  lemma NoItems(loop: Loop, idx: nat, c: Ctx, agg: Agg)
    ensures RunItems(loop, [], idx, c, agg) == LoopResult(c, agg, 0, 0, None, [])
  {
  }

  // --- The item cursor ----------------------------------------------------------------

  /** The verdict of the last end of item `k` in the journal. */
  function LastEnd(events: seq<Event>, k: int): Option<bool> {
    if events == [] then None else
    var last := events[|events| - 1];
    if last.ItemEnd? && last.idx == k then Some(last.ok) else LastEnd(events[..|events| - 1], k)
  }

  /** `k` is the first item that the journal does not show as ended well. */
  ghost predicate IsCursor(events: seq<Event>, k: nat) {
    LastEnd(events, k) != Some(true) && forall i :: 0 <= i < k ==> LastEnd(events, i) == Some(true)
  }

  method ResumeCursor(events: seq<Event>) returns (k: nat, ok: nat)
    ensures IsCursor(events, k) && ok == k
  {
    var latest: map<int, bool> := map[];
    for i := 0 to |events|
      invariant forall n :: n >= 0 ==> (if n in latest then Some(latest[n]) else None) == LastEnd(events[..i], n)
    {
      var ev := events[i];
      assert events[..i + 1][..i] == events[..i];
      if !ev.ItemStart? && !ev.ItemEnd? { continue; }
      if ev.idx < 0 { continue; }
      if ev.ItemEnd? { latest := latest[ev.idx := ev.ok]; }
    }
    assert events[..|events|] == events;
    k, ok := 0, 0;
    ghost var seen: set<int> := {};
    while true
      invariant ok == k && seen <= latest.Keys && forall n :: n in seen <==> 0 <= n < k
      invariant forall n :: 0 <= n < k ==> LastEnd(events, n) == Some(true)
      decreases latest.Keys - seen
    {
      if k !in latest || !latest[k] { return; }
      ok := ok + 1;
      seen := seen + {k};
      k := k + 1;
    }
  }

  ghost predicate EndsNoItem(trace: seq<Event>) {
    forall i :: 0 <= i < |trace| ==> !trace[i].ItemEnd?
  }

  lemma {:induction false} LastEndAppend(a: seq<Event>, b: seq<Event>, k: int)
    ensures LastEnd(a + b, k) == if LastEnd(b, k).Some? then LastEnd(b, k) else LastEnd(a, k)
    decreases |b|
  {
    if b == [] { assert a + b == a; }
    else {
      assert (a + b)[..|a + b| - 1] == a + b[..|b| - 1];
      LastEndAppend(a, b[..|b| - 1], k);
    }
  }

  lemma {:induction false} NoLastEnd(trace: seq<Event>, k: int)
    requires EndsNoItem(trace)
    ensures LastEnd(trace, k) == None
  {
    if trace != [] { NoLastEnd(trace[..|trace| - 1], k); }
  }

  lemma {:induction false} SegmentsEndNoItem(segs: seq<Segment>, c: Ctx)
    requires WellSegmented(segs)
    ensures EndsNoItem(RunSegments(segs, c, {}).trace)
    decreases |segs|
  {
    if segs != [] {
      hide RunFlow, WellFormed;
      var one := RunOne(segs[0], c, {});
      assert EndsNoItem(one.trace) by {
        if segs[0].parallel { BranchesWriteSteps(segs[0].steps, c); } else { FlowWritesSteps(segs[0].steps[0], c); }
      }
      hide RunOne;
      if !Stops(one) { SegmentsEndNoItem(segs[1..], one.ctx); }
    }
  }

  lemma UntilEndsNoItem(loop: Loop, c: Ctx, item: Value, limit: nat)
    ensures EndsNoItem(ItemUntil(loop, c, item, limit).trace)
  {
    SegmentsPartition(loop.steps);
    hide Segments, WellFormed, RunSegments;
    var segs := Segments(loop.steps);
    assert segs[..|segs|] == segs;
    SegmentsEndNoItem(segs[..if limit < |segs| then limit else |segs|], Prepare(loop, c, item));
  }

  /** The verdicts a prefix of the journal shows are those of the first `m` items and no others. */
  ghost predicate Shows(events: seq<Event>, loop: Loop, c: Ctx, items: seq<Value>, idx: nat, m: nat) {
    m <= |items| && forall k ::
      LastEnd(events, k) == if idx <= k < idx + m then Some(!Stops(ItemRun(loop, c, items[k - idx]))) else None
  }

  /** The events of one item: only the last of them ends it. */
  lemma OneItemEnds(loop: Loop, item: Value, idx: nat, c: Ctx, agg: Agg)
    ensures var one := RunItems(loop, [item], idx, c, agg);
            if one.error.Some? then EndsNoItem(one.trace)
            else one.trace != [] && EndsNoItem(one.trace[..|one.trace| - 1])
                 && one.trace[|one.trace| - 1] == ItemEnd(idx, !Stops(ItemRun(loop, c, item)))
  {
    hide Collect, WriteAggregates, RunSegments, Segments, Stops, RunItems, Ids, WellFormed;
    if loop.limit(idx) > 0 { UntilEndsNoItem(loop, c, item, loop.limit(idx) - 1); }
    OneItemTrace(loop, item, idx, c, agg);
  }

  lemma ShowsOneMore(first: seq<Event>, q: seq<Event>, loop: Loop, c: Ctx, items: seq<Value>, idx: nat, m: nat)
    requires items != [] && first != [] && EndsNoItem(first[..|first| - 1])
    requires first[|first| - 1] == ItemEnd(idx, !Stops(ItemRun(loop, c, items[0])))
    requires Shows(q, loop, c, items[1..], idx + 1, m)
    ensures Shows(first + q, loop, c, items, idx, m + 1)
  {
    hide ItemRun, Stops;
    forall k
      ensures LastEnd(first + q, k) ==
                if idx <= k < idx + m + 1 then Some(!Stops(ItemRun(loop, c, items[k - idx]))) else None
    {
      LastEndAppend(first, q, k);
      NoLastEnd(first[..|first| - 1], k);
    }
  }

  lemma ShowsNothing(p: seq<Event>, loop: Loop, c: Ctx, items: seq<Value>, idx: nat)
    requires EndsNoItem(p)
    ensures Shows(p, loop, c, items, idx, 0)
  {
    hide ItemRun, Stops;
    forall k ensures LastEnd(p, k) == None { NoLastEnd(p, k); }
  }

  lemma {:induction false} PrefixShows(loop: Loop, items: seq<Value>, idx: nat, c0: Ctx, c: Ctx, agg: Agg, n: nat)
    returns (m: nat)
    requires DistinctIds(loop.steps) && SameBase(loop, c, c0) && n <= |RunItems(loop, items, idx, c, agg).trace|
    ensures Shows(RunItems(loop, items, idx, c, agg).trace[..n], loop, c0, items, idx, m)
    decreases |items|
  {
    hide RunItems, ItemRun, SameBase, DistinctIds, Stops, Shows;
    var p := RunItems(loop, items, idx, c, agg).trace[..n];
    m := 0;
    if items == [] {
      NoItems(loop, idx, c, agg);
      ShowsNothing(p, loop, c0, items, idx);
      return;
    }
    LoopByItems(loop, items, idx, c, agg);
    OneItemEnds(loop, items[0], idx, c, agg);
    PrepareSameRun(loop, c, c0, items[0]);
    var one := RunItems(loop, [items[0]], idx, c, agg);
    if n < |one.trace| || one.error.Some? {
      assert forall i :: 0 <= i < |p| ==> p[i] == one.trace[i];
      assert n < |one.trace| ==> p == one.trace[..|one.trace| - 1][..n];
      ShowsNothing(p, loop, c0, items, idx);
    } else {
      hide EndsNoItem;
      OneItemBase(loop, items[0], idx, c, c0, agg);
      var tail := RunItems(loop, items[1..], idx + 1, one.ctx, one.agg);
      var q := tail.trace[..n - |one.trace|];
      m := PrefixShows(loop, items[1..], idx + 1, c0, one.ctx, one.agg, n - |one.trace|);
      assert p == one.trace + q;
      ShowsOneMore(one.trace, q, loop, c0, items, idx, m);
      m := m + 1;
    }
  }

  lemma OneItemBase(loop: Loop, item: Value, idx: nat, c: Ctx, c0: Ctx, agg: Agg)
    requires DistinctIds(loop.steps) && SameBase(loop, c, c0) && RunItems(loop, [item], idx, c, agg).error.None?
    ensures SameBase(loop, RunItems(loop, [item], idx, c, agg).ctx, c0)
  {
    OneItemTrace(loop, item, idx, c, agg);
    hide RunItems, ItemRun, ItemUntil, Collect, WriteAggregates, SameBase, DistinctIds;
    var r := ItemRun(loop, c, item);
    var agg' := Collect(loop, agg, loop.steps, r.actions, r.ctx).value;
    ItemKeepsBase(loop, c, item, agg');
    SameBaseTrans(loop, WriteAggregates(r.ctx, agg', loop.steps), c, c0);
  }

  /**
   Wherever a fresh run is stopped, its journal shows the verdicts of the first `m` items, and the cursor
   stands at the first of them that was aborted, or behind all of them.
   */
  lemma CursorOnEveryPrefix(loop: Loop, items: seq<Value>, c: Ctx, n: nat, k: nat)
    requires DistinctIds(loop.steps) && n <= |RunItems(loop, items, 0, c, Agg(map[], 0)).trace|
    requires IsCursor(RunItems(loop, items, 0, c, Agg(map[], 0)).trace[..n], k)
    ensures exists m: nat ::
              && Shows(RunItems(loop, items, 0, c, Agg(map[], 0)).trace[..n], loop, c, items, 0, m)
              && k <= m && (forall i :: 0 <= i < k ==> !Stops(ItemRun(loop, c, items[i])))
              && (k < m ==> Stops(ItemRun(loop, c, items[k])))
  {
    hide RunItems, ItemRun, DistinctIds, Stops;
    var m := PrefixShows(loop, items, 0, c, c, Agg(map[], 0), n);
    var p := RunItems(loop, items, 0, c, Agg(map[], 0)).trace[..n];
    assert LastEnd(p, m) != Some(true);
    forall i | 0 <= i < k ensures !Stops(ItemRun(loop, c, items[i])) { assert LastEnd(p, i) == Some(true); }
  }
}

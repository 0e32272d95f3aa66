/**
 Resuming a linear pipeline: a run that was cancelled or killed anywhere, any number of times, and then
 resumed ends with the same step outputs as a run that was never stopped.
 */
module LinearResume {
  import opened Base
  import opened StepFlow
  import opened ParallelGroup

  // --- The resume cursor --------------------------------------------------------------

  /** The steps a journal shows as ended well. */
  ghost function Finished(events: seq<Event>): set<string> {
    set i | 0 <= i < |events| && events[i].StepEnd? && events[i].ok && events[i].step != "" :: events[i].step
  }

  method ResumeStepCursor(events: seq<Event>) returns (done: set<string>)
    ensures done == Finished(events)
  {
    done := {};
    for i := 0 to |events|
      invariant done == Finished(events[..i])
    {
      var ev := events[i];
      assert events[..i + 1] == events[..i] + [ev];
      if !ev.StepEnd? || !ev.ok { continue; }
      if ev.step != "" { done := done + {ev.step}; }
    }
    assert events[..|events|] == events;
  }

  /** Skipped is what ended well and also has its output in the restored context. */
  method SkipSteps(events: seq<Event>, c: Ctx) returns (skip: set<string>)
    ensures skip == Finished(events) * c.steps.Keys
  {
    var done := ResumeStepCursor(events);
    skip := {};
    var rest := done;
    while rest != {}
      invariant rest <= done && skip == (done - rest) * c.steps.Keys
      decreases rest
    {
      var id :| id in rest;
      rest := rest - {id};
      if id in c.steps { skip := skip + {id}; }
    }
  }

  // --- Runs of a linear chain ---------------------------------------------------------

  /** The event of an abort; the source counts the actions, so after skipped steps it names an earlier step. */
  function AbortEvents(steps: seq<Step>, actions: seq<Action>): seq<Event>
    requires |actions| <= |steps|
  {
    if actions != [] && actions[|actions| - 1].AbortItem? then [ItemAborted(0, steps[|actions| - 1].id)] else []
  }

  /** What ends a run with an error: the event, and the snapshot that a resumption starts from. */
  function FailEvents(e: Error, c: Ctx): seq<Event> {
    [if e.code == CANCELLED then RunCancelled else RunFailed, Saved(c)]
  }

  /**
   The whole chain is one item; what is written after it depends on how it ended.  The run looks whether it was
   cancelled before the item and before every segment; look number `limit` finds that it was.
   */
  function RunLinear(steps: seq<Step>, c: Ctx, skip: set<string>, limit: nat): RunResult {
    var cancelled := Error(CANCELLED, "");
    if limit == 0 then RunResult(c, [], Some(cancelled), FailEvents(cancelled, c)) else
    SegmentsPartition(steps);
    UntilShape(Segments(steps), c, skip, limit - 1);
    var r := RunUntil(Segments(steps), c, skip, limit - 1);
    if r.error.Some? then r.(trace := [ItemStart(0)] + r.trace + FailEvents(r.error.value, r.ctx))
    else r.(trace := [ItemStart(0)] + r.trace + AbortEvents(steps, r.actions) + [Saved(r.ctx), ItemEnd(0, !Stops(r))])
  }

  /** A run ends with its verdict, or with the failure or the cancellation and the snapshot after it. */
  lemma LinearEnd(steps: seq<Step>, c: Ctx, skip: set<string>, limit: nat)
    ensures var r := RunLinear(steps, c, skip, limit);
            if r.error.None? then
              r.trace[0] == ItemStart(0) && [Saved(r.ctx), ItemEnd(0, !Stops(r))] == r.trace[|r.trace| - 2..]
            else
              [if r.error.value.code == CANCELLED then RunCancelled else RunFailed, Saved(r.ctx)] ==
              r.trace[|r.trace| - 2..]
  {
    hide Segments, RunUntil, AbortEvents, WellSegmented;
    if limit > 0 {
      SegmentsPartition(steps);
      UntilShape(Segments(steps), c, skip, limit - 1);
    }
  }

  lemma OneShape(seg: Segment, c: Ctx, skip: set<string>)
    requires WellFormed(seg)
    ensures var one := RunOne(seg, c, skip);
            && |one.actions| <= |seg.steps| && (forall i :: 0 <= i < |one.actions| - 1 ==> !one.actions[i].AbortItem?)
            && (!Stops(one) ==> forall i :: 0 <= i < |one.actions| ==> !one.actions[i].AbortItem?)
  {
    hide RunFlow;
    NoAborts(seg.steps, c);
  }

  /** There are no more actions than steps, and only the last can be an abort. */
  lemma {:induction false} ActionsShape(segs: seq<Segment>, c: Ctx, skip: set<string>)
    requires WellSegmented(segs)
    ensures var r := RunSegments(segs, c, skip);
            |r.actions| <= |Flatten(segs)| && forall i :: 0 <= i < |r.actions| - 1 ==> !r.actions[i].AbortItem?
    decreases |segs|
  {
    if segs != [] {
      hide RunOne, WellFormed;
      OneShape(segs[0], c, skip);
      var one := RunOne(segs[0], c, skip);
      if !Stops(one) { ActionsShape(segs[1..], one.ctx, skip); }
    }
  }

  lemma {:induction false} FlattenAppend(a: seq<Segment>, b: seq<Segment>)
    ensures Flatten(a + b) == Flatten(a) + Flatten(b)
  {
    if a == [] { assert a + b == b; }
    else {
      assert (a + b)[1..] == a[1..] + b;
      FlattenAppend(a[1..], b);
    }
  }

  lemma UntilShape(segs: seq<Segment>, c: Ctx, skip: set<string>, limit: nat)
    requires WellSegmented(segs)
    ensures var r := RunUntil(segs, c, skip, limit);
            |r.actions| <= |Flatten(segs)| && forall i :: 0 <= i < |r.actions| - 1 ==> !r.actions[i].AbortItem?
  {
    hide RunSegments, WellFormed;
    var n := if limit < |segs| then limit else |segs|;
    assert segs[..|segs|] == segs && segs[..n] + segs[n..] == segs;
    FlattenAppend(segs[..n], segs[n..]);
    ActionsShape(segs[..n], c, skip);
  }

  /** No step reads the output of its own segment or of a later one. */
  ghost predicate ReadsEarlierOnly(segs: seq<Segment>) {
    segs == [] ||
    ((forall k :: 0 <= k < |segs[0].steps| ==> Blind(segs[0].steps[k], Ids(Flatten(segs)))) &&
     ReadsEarlierOnly(segs[1..]))
  }

  /** The inputs are those of the run, and every output in `c` is the one `final` has. */
  ghost predicate Faithful(c: Ctx, final: Ctx) {
    c.input == final.input && forall id :: id in c.steps ==> Entry(c, id) == Entry(final, id)
  }

  // --- What a segment leaves alone ----------------------------------------------------

  lemma {:induction false} IdsAppend(a: seq<Step>, b: seq<Step>)
    ensures Ids(a + b) == Ids(a) + Ids(b)
    ensures DistinctIds(a + b) ==> DistinctIds(a) && DistinctIds(b) && Ids(a) !! Ids(b)
  {
    forall id | id in Ids(a) + Ids(b) ensures id in Ids(a + b) {
      if id in Ids(a) {
        var i :| 0 <= i < |a| && a[i].id == id;
        assert (a + b)[i] == a[i];
      } else {
        var i :| 0 <= i < |b| && b[i].id == id;
        assert (a + b)[|a| + i] == b[i];
      }
    }
    if DistinctIds(a + b) {
      forall i, k | 0 <= i < |a| && 0 <= k < |b| ensures a[i].id != b[k].id {
        assert (a + b)[i] == a[i] && (a + b)[|a| + k] == b[k];
      }
      forall i, k | 0 <= i < k < |a| ensures a[i].id != a[k].id {
        assert (a + b)[i] == a[i] && (a + b)[k] == a[k];
      }
      forall i, k | 0 <= i < k < |b| ensures b[i].id != b[k].id {
        assert (a + b)[|a| + i] == b[i] && (a + b)[|a| + k] == b[k];
      }
    }
  }

  lemma RunOneFrame(seg: Segment, c: Ctx, skip: set<string>, id: string)
    requires WellFormed(seg) && DistinctIds(seg.steps) && id !in Ids(seg.steps)
    ensures RunOne(seg, c, skip).ctx.input == c.input && Entry(RunOne(seg, c, skip).ctx, id) == Entry(c, id)
  {
    hide RunFlow;
    if seg.parallel {
      MergeEntries(seg.steps, c, c, id);
    } else {
      FlowEffect(seg.steps[0], c);
      assert seg.steps[0].id in Ids(seg.steps);
    }
  }

  lemma {:induction false} RunSegmentsFrame(segs: seq<Segment>, c: Ctx, skip: set<string>, id: string)
    requires WellSegmented(segs) && DistinctIds(Flatten(segs)) && id !in Ids(Flatten(segs))
    ensures RunSegments(segs, c, skip).ctx.input == c.input && Entry(RunSegments(segs, c, skip).ctx, id) == Entry(c, id)
    decreases |segs|
  {
    if segs != [] {
      hide RunOne;
      IdsAppend(segs[0].steps, Flatten(segs[1..]));
      RunOneFrame(segs[0], c, skip, id);
      RunSegmentsFrame(segs[1..], RunOne(segs[0], c, skip).ctx, skip, id);
    }
  }

  // --- Traces hold no snapshot but the groups' ----------------------------------------

  ghost predicate SavesOnly(trace: seq<Event>, c: Ctx) {
    forall i :: 0 <= i < |trace| && trace[i].Saved? ==> trace[i].ctx == c
  }

  /** Nothing but what single steps write. */
  ghost predicate StepEventsOnly(trace: seq<Event>) {
    forall i :: 0 <= i < |trace| ==>
      trace[i].StepStart? || trace[i].StepEnd? || trace[i].StepSkipped? || trace[i].StepFailed?
  }

  lemma {:induction false} TriesWriteSteps(st: Step, c: Ctx, k: nat)
    requires k <= Attempts(st)
    ensures StepEventsOnly(Tries(st, c, k).1)
    decreases Attempts(st) - k
  {
    var res := st.exec(c, k);
    if TryAgain(res) && k != Attempts(st) { TriesWriteSteps(st, c, k + 1); }
  }

  lemma FlowWritesSteps(st: Step, c: Ctx)
    ensures StepEventsOnly(RunFlow(st, c).trace)
  {
    TriesWriteSteps(st, c, 1);
  }

  lemma {:induction false} BranchesWriteSteps(steps: seq<Step>, c: Ctx)
    ensures StepEventsOnly(BranchEvents(steps, c))
  {
    hide RunFlow;
    if steps != [] {
      FlowWritesSteps(steps[0], c);
      BranchesWriteSteps(steps[1..], c);
    }
  }

  lemma RunOneSaves(seg: Segment, c: Ctx, skip: set<string>)
    requires WellFormed(seg)
    ensures SavesOnly(RunOne(seg, c, skip).trace, RunOne(seg, c, skip).ctx)
  {
    hide RunFlow;
    if seg.parallel { BranchesWriteSteps(seg.steps, c); } else { FlowWritesSteps(seg.steps[0], c); }
  }

  // --- One segment, fresh and resumed -------------------------------------------------

  /**
   `f` is the context of the unstopped run before a stretch with the ids `ids`, `c` that of the resumed
   run at the same place, and `final` what the unstopped run ends with.
   */
  ghost predicate InStep(ids: set<string>, f: Ctx, c: Ctx, skip: set<string>, final: Ctx) {
    && (forall id :: id in ids ==> id !in f.steps)
    && AgreeOutside(f, c, ids)
    && (forall id :: id in ids && id in c.steps ==> Entry(c, id) == Entry(final, id))
    && (forall id :: id in ids && id in skip ==> id in c.steps)
  }

  /** The resumed segment ends as the fresh one did, with the entries it wrote. */
  ghost predicate SameSegment(of: RunResult, oc: RunResult, own: set<string>, c: Ctx) {
    && oc.error == of.error && (Stops(of) <==> Stops(oc)) && oc.ctx.input == of.ctx.input
    && (forall id :: id in own ==> Entry(oc.ctx, id) == Entry(of.ctx, id))
    && (forall id :: id !in own ==> Entry(oc.ctx, id) == Entry(c, id))
  }

  lemma SameSingle(seg: Segment, ids: set<string>, f: Ctx, c: Ctx, skip: set<string>, final: Ctx)
    requires WellFormed(seg) && !seg.parallel && Ids(seg.steps) <= ids && InStep(ids, f, c, skip, final)
    requires forall k :: 0 <= k < |seg.steps| ==> Blind(seg.steps[k], ids)
    requires forall id :: id in Ids(seg.steps) ==> Entry(final, id) == Entry(RunOne(seg, f, {}).ctx, id)
    ensures SameSegment(RunOne(seg, f, {}), RunOne(seg, c, skip), Ids(seg.steps), c)
  {
    hide RunFlow;
    var st := seg.steps[0];
    assert seg.steps == [st] && st.id in Ids(seg.steps) && Ids(seg.steps) == {st.id};
    FlowAgrees(st, f, c, ids);
    hide Blind, Ids;
    FlowEffect(st, f);
    FlowEffect(st, c);
    HaltKeeps(st, f);
  }

  /** A step that fails or aborts leaves the context as it was. */
  lemma HaltKeeps(st: Step, c: Ctx)
    ensures Halts(RunFlow(st, c)) ==> RunFlow(st, c).ctx == c
    ensures EffectOf(st, c).Sets? ==> RunFlow(st, c).action == Ok(Okay)
  {
  }

  lemma {:induction false} SameHalt(steps: seq<Step>, ids: set<string>, f: Ctx, c: Ctx)
    requires AgreeOutside(f, c, ids) && forall k :: 0 <= k < |steps| ==> Blind(steps[k], ids)
    ensures FirstHalt(steps, f) == FirstHalt(steps, c)
  {
    if steps != [] {
      FlowAgrees(steps[0], f, c, ids);
      SameHalt(steps[1..], ids, f, c);
    }
  }

  lemma {:induction false} SameGroup(seg: Segment, ids: set<string>, f: Ctx, c: Ctx, skip: set<string>, final: Ctx)
    requires WellFormed(seg) && seg.parallel && DistinctIds(seg.steps) && Ids(seg.steps) <= ids &&
             InStep(ids, f, c, skip, final)
    requires forall k :: 0 <= k < |seg.steps| ==> Blind(seg.steps[k], ids)
    requires forall id :: id in Ids(seg.steps) ==> Entry(final, id) == Entry(RunOne(seg, f, {}).ctx, id)
    ensures SameSegment(RunOne(seg, f, {}), RunOne(seg, c, skip), Ids(seg.steps), c)
  {
    hide RunFlow, Blind, Merge;
    var of, oc := RunOne(seg, f, {}), RunOne(seg, c, skip);
    SameHalt(seg.steps, ids, f, c);
    GroupNeverStops(seg, f);
    GroupNeverStops(seg, c);
    if SegmentDone(seg, skip) {
      assert seg.steps[0].id in Ids(seg.steps);
      forall id | id in Ids(seg.steps) ensures Entry(oc.ctx, id) == Entry(of.ctx, id) {
        assert id in c.steps;
      }
      assert Entry(f, seg.steps[0].id) == None && Entry(final, seg.steps[0].id) != None;
    } else {
      forall id ensures Entry(oc.ctx, id) == (if id in Ids(seg.steps) then Entry(of.ctx, id) else Entry(c, id)) {
        SameGroupEntry(seg, ids, f, c, final, id);
      }
    }
    assert oc.ctx.input == of.ctx.input by {
      MergeEntries(seg.steps, f, f, "");
      MergeEntries(seg.steps, c, c, "");
    }
  }

  lemma GroupNeverStops(seg: Segment, c: Ctx)
    ensures Stops(RunGroup(seg, c)) <==> RunGroup(seg, c).error.Some?
    ensures RunGroup(seg, c).ctx == (if RunGroup(seg, c).error.Some? then c else Merge(seg.steps, c, c))
  {
    hide RunFlow;
    NoAborts(seg.steps, c);
  }

  lemma {:induction false} NoAborts(steps: seq<Step>, c: Ctx)
    ensures forall i :: 0 <= i < |GroupActions(steps, c)| ==> !GroupActions(steps, c)[i].AbortItem?
    ensures |GroupActions(steps, c)| == |steps|
  {
    hide RunFlow;
    if steps != [] { NoAborts(steps[1..], c); }
  }

  lemma SameGroupEntry(seg: Segment, ids: set<string>, f: Ctx, c: Ctx, final: Ctx, id: string)
    requires DistinctIds(seg.steps) && Ids(seg.steps) <= ids && AgreeOutside(f, c, ids)
    requires forall id :: id in ids ==> id !in f.steps
    requires forall id :: id in ids && id in c.steps ==> Entry(c, id) == Entry(final, id)
    requires forall k :: 0 <= k < |seg.steps| ==> Blind(seg.steps[k], ids)
    requires forall id :: id in Ids(seg.steps) ==> Entry(final, id) == Entry(RunGroup(seg, f).ctx, id)
    requires RunGroup(seg, f).error == RunGroup(seg, c).error
    ensures Entry(RunGroup(seg, c).ctx, id) ==
            (if id in Ids(seg.steps) then Entry(RunGroup(seg, f).ctx, id) else Entry(c, id))
  {
    hide RunFlow, Merge, GroupActions, BranchEvents, FirstHalt;
    GroupNeverStops(seg, f);
    GroupNeverStops(seg, c);
    MergeEntries(seg.steps, f, f, id);
    MergeEntries(seg.steps, c, c, id);
    if id in Ids(seg.steps) {
      var i :| 0 <= i < |seg.steps| && seg.steps[i].id == id;
      FlowAgrees(seg.steps[i], f, c, ids);
      FlowEffect(seg.steps[i], f);
      FlowEffect(seg.steps[i], c);
    }
  }

  // --- All segments -------------------------------------------------------------------

  /** After a segment that did not stop, the two runs are in step for the rest. */
  lemma InStepAfter(segs: seq<Segment>, f: Ctx, c: Ctx, skip: set<string>, final: Ctx)
    requires WellSegmented(segs) && DistinctIds(Flatten(segs)) && segs != []
    requires InStep(Ids(Flatten(segs)), f, c, skip, final)
    requires SameSegment(RunOne(segs[0], f, {}), RunOne(segs[0], c, skip), Ids(segs[0].steps), c)
    ensures InStep(Ids(Flatten(segs[1..])), RunOne(segs[0], f, {}).ctx, RunOne(segs[0], c, skip).ctx, skip, final)
  {
    hide RunOne, WellFormed;
    var of, oc := RunOne(segs[0], f, {}), RunOne(segs[0], c, skip);
    IdsAppend(segs[0].steps, Flatten(segs[1..]));
    forall id | id !in Ids(segs[0].steps)
      ensures Entry(of.ctx, id) == Entry(f, id) && Entry(oc.ctx, id) == Entry(c, id)
    {
      RunOneFrame(segs[0], f, {}, id);
    }
    forall id | id in Ids(Flatten(segs[1..])) ensures id !in of.ctx.steps && (id in oc.ctx.steps <==> id in c.steps) {
      assert Entry(of.ctx, id) == Entry(f, id) && Entry(oc.ctx, id) == Entry(c, id);
    }
  }

  /** The context the resumed segment leaves holds nothing but what the unstopped run ends with. */
  lemma SegmentFaithful(segs: seq<Segment>, f: Ctx, c: Ctx, skip: set<string>, final: Ctx)
    requires WellSegmented(segs) && DistinctIds(Flatten(segs)) && segs != []
    requires InStep(Ids(Flatten(segs)), f, c, skip, final) && final == RunSegments(segs, f, {}).ctx
    requires SameSegment(RunOne(segs[0], f, {}), RunOne(segs[0], c, skip), Ids(segs[0].steps), c)
    requires forall id :: id in Ids(segs[0].steps) ==> Entry(final, id) == Entry(RunOne(segs[0], f, {}).ctx, id)
    ensures Faithful(RunOne(segs[0], c, skip).ctx, final)
    ensures final == RunOne(segs[0], f, {}).ctx ==> RunOne(segs[0], c, skip).ctx == final
  {
    hide RunOne, WellFormed, RunSegments;
    var of, oc := RunOne(segs[0], f, {}), RunOne(segs[0], c, skip);
    IdsAppend(segs[0].steps, Flatten(segs[1..]));
    assert oc.ctx.input == final.input by { FrameInput(segs, f); }
    forall id ensures id in oc.ctx.steps || final == of.ctx ==> Entry(oc.ctx, id) == Entry(final, id) {
      if id !in Ids(Flatten(segs)) { RunSegmentsFrame(segs, f, {}, id); }
      else if id !in Ids(segs[0].steps) { RunOneFrame(segs[0], f, {}, id); }
    }
    if final == of.ctx { SameEntries(oc.ctx, final); }
  }

  /** An id longer than all ids of `steps`. */
  lemma {:induction false} Unused(steps: seq<Step>) returns (id: string)
    ensures id !in Ids(steps) && forall i :: 0 <= i < |steps| ==> |steps[i].id| < |id|
  {
    if steps == [] {
      id := "";
    } else {
      var tail := Unused(steps[1..]);
      id := tail + steps[0].id + "x";
      forall i | 0 <= i < |steps| ensures |steps[i].id| < |id| {
        if i > 0 { assert steps[i] == steps[1..][i - 1]; }
      }
    }
  }

  lemma FrameInput(segs: seq<Segment>, f: Ctx)
    requires WellSegmented(segs) && DistinctIds(Flatten(segs)) && segs != []
    ensures RunSegments(segs, f, {}).ctx.input == RunOne(segs[0], f, {}).ctx.input == f.input
  {
    hide RunOne;
    var id := Unused(Flatten(segs));
    IdsAppend(segs[0].steps, Flatten(segs[1..]));
    RunSegmentsFrame(segs, f, {}, id);
    RunOneFrame(segs[0], f, {}, id);
  }

  /** One segment of the simulation: the resumed run leaves the same entries and is in step for the rest. */
  lemma OneInStep(segs: seq<Segment>, f: Ctx, c: Ctx, skip: set<string>, final: Ctx)
    requires WellSegmented(segs) && DistinctIds(Flatten(segs)) && ReadsEarlierOnly(segs) && segs != []
    requires InStep(Ids(Flatten(segs)), f, c, skip, final) && final == RunSegments(segs, f, {}).ctx
    ensures DistinctIds(Flatten(segs[1..])) && ReadsEarlierOnly(segs[1..])
    ensures var of, oc := RunOne(segs[0], f, {}), RunOne(segs[0], c, skip);
            && oc.error == of.error && (Stops(oc) <==> Stops(of)) && Faithful(oc.ctx, final)
            && (if Stops(of) then oc.ctx == final
                else InStep(Ids(Flatten(segs[1..])), of.ctx, oc.ctx, skip, final)
                     && final == RunSegments(segs[1..], of.ctx, {}).ctx)
  {
    hide RunOne, Blind, WellFormed, InStep, Faithful, Stops, AgreeOutside, Entry;
    var seg, rest := segs[0], segs[1..];
    var of := RunOne(seg, f, {});
    IdsAppend(seg.steps, Flatten(rest));
    forall id | id in Ids(seg.steps) ensures Entry(final, id) == Entry(of.ctx, id) {
      if !Stops(of) { RunSegmentsFrame(rest, of.ctx, {}, id); }
    }
    if seg.parallel { SameGroup(seg, Ids(Flatten(segs)), f, c, skip, final); }
    else { SameSingle(seg, Ids(Flatten(segs)), f, c, skip, final); }
    SegmentFaithful(segs, f, c, skip, final);
    if !Stops(of) { InStepAfter(segs, f, c, skip, final); }
  }

  lemma ThenStops(a: RunResult, b: RunResult)
    requires !Stops(a)
    ensures Stops(Then(a, b)) <==> Stops(b)
  {
  }

  lemma {:induction false} ResumeSegments(segs: seq<Segment>, f: Ctx, c: Ctx, skip: set<string>, final: Ctx)
    requires WellSegmented(segs) && DistinctIds(Flatten(segs)) && ReadsEarlierOnly(segs)
    requires InStep(Ids(Flatten(segs)), f, c, skip, final) && final == RunSegments(segs, f, {}).ctx
    ensures var rf, rc := RunSegments(segs, f, {}), RunSegments(segs, c, skip);
            rc.ctx == final && rc.error == rf.error && (Stops(rc) <==> Stops(rf))
    decreases |segs|
  {
    if segs == [] {
      SameEntries(f, c);
    } else {
      hide RunOne, WellFormed, InStep, Faithful, Stops, ReadsEarlierOnly;
      OneInStep(segs, f, c, skip, final);
      var of, oc := RunOne(segs[0], f, {}), RunOne(segs[0], c, skip);
      if !Stops(of) {
        ResumeSegments(segs[1..], of.ctx, oc.ctx, skip, final);
        ThenStops(of, RunSegments(segs[1..], of.ctx, {}));
        ThenStops(oc, RunSegments(segs[1..], oc.ctx, skip));
      }
    }
  }

  // --- Whose action is whose ----------------------------------------------------------

  /** The steps of the segments that are not skipped. */
  function Kept(segs: seq<Segment>, skip: set<string>): seq<Step> {
    if segs == [] then [] else (if SegmentDone(segs[0], skip) then [] else segs[0].steps) + Kept(segs[1..], skip)
  }

  /** Every step counts exactly when no segment is skipped. */
  lemma {:induction false} KeptAll(segs: seq<Segment>, skip: set<string>)
    requires WellSegmented(segs)
    ensures |Kept(segs, skip)| <= |Flatten(segs)|
    ensures |Kept(segs, skip)| == |Flatten(segs)| <==> forall i :: 0 <= i < |segs| ==> !SegmentDone(segs[i], skip)
  {
    if segs != [] {
      hide SegmentDone;
      KeptAll(segs[1..], skip);
      assert forall i :: 0 < i < |segs| ==> segs[i] == segs[1..][i - 1];
    }
  }

  /** Segment `k` has an action for each of its steps, in their order, unless it is skipped or fails. */
  ghost predicate OwnActions(seg: Segment, c: Ctx, skip: set<string>, actions: seq<Action>)
    requires WellFormed(seg)
  {
    if SegmentDone(seg, skip) || RunOne(seg, c, skip).error.Some? then actions == []
    else if seg.parallel then
      |actions| == |seg.steps| && forall i :: 0 <= i < |actions| ==>
        actions[i] == if Output(RunFlow(seg.steps[i], c).ctx, seg.steps[i].id).Some? then Okay else Skipped
    else actions == [RunFlow(seg.steps[0], c).action.value]
  }

  lemma {:induction false} GroupActionsAre(steps: seq<Step>, c: Ctx)
    ensures |GroupActions(steps, c)| == |steps|
    ensures forall i :: 0 <= i < |steps| ==>
              GroupActions(steps, c)[i] == if Output(RunFlow(steps[i], c).ctx, steps[i].id).Some? then Okay else Skipped
  {
    hide RunFlow;
    if steps != [] { GroupActionsAre(steps[1..], c); }
  }

  lemma OneOwnActions(seg: Segment, c: Ctx, skip: set<string>)
    requires WellFormed(seg)
    ensures OwnActions(seg, c, skip, RunOne(seg, c, skip).actions)
    ensures !SegmentDone(seg, skip) && RunOne(seg, c, skip).error.None? ==>
              |RunOne(seg, c, skip).actions| == |seg.steps|
    ensures SegmentDone(seg, skip) ==> RunOne(seg, c, skip) == RunResult(c, [], None, [])
    ensures Stops(RunOne(seg, c, skip)) && RunOne(seg, c, skip).error.None? ==>
              && !seg.parallel && RunFlow(seg.steps[0], c).action == Ok(AbortItem)
              && RunOne(seg, c, skip) == RunResult(c, [AbortItem], None, RunFlow(seg.steps[0], c).trace)
  {
    hide RunFlow;
    GroupActionsAre(seg.steps, c);
    GroupNeverStops(seg, c);
    HaltKeeps(seg.steps[0], c);
  }

  lemma {:induction false} KeptActions(segs: seq<Segment>, c: Ctx, skip: set<string>)
    requires WellSegmented(segs) && !Stops(RunSegments(segs, c, skip))
    ensures |RunSegments(segs, c, skip).actions| == |Kept(segs, skip)|
    decreases |segs|
  {
    if segs != [] {
      hide RunOne, WellFormed, OwnActions, SegmentDone;
      OneOwnActions(segs[0], c, skip);
      KeptActions(segs[1..], RunOne(segs[0], c, skip).ctx, skip);
    }
  }

  /** A run is the run of the first `k` segments and that of the others behind it. */
  lemma {:induction false} RunSplits(segs: seq<Segment>, c: Ctx, skip: set<string>, k: nat)
    requires WellSegmented(segs) && k <= |segs|
    ensures var first := RunSegments(segs[..k], c, skip);
            RunSegments(segs, c, skip) == if Stops(first) then first
              else Then(first, RunSegments(segs[k..], first.ctx, skip))
    decreases |segs|
  {
    hide RunOne, WellFormed;
    if k == 0 {
      var r := RunSegments(segs, c, skip);
      assert segs[..0] == [] && segs[0..] == segs && [] + r.actions == r.actions && [] + r.trace == r.trace;
    } else {
      var one, rest := RunOne(segs[0], c, skip), segs[1..];
      assert segs[..k][0] == segs[0] && segs[..k][1..] == rest[..k - 1] && segs[k..] == rest[k - 1..];
      if !Stops(one) {
        RunSplits(rest, one.ctx, skip, k - 1);
        var first := RunSegments(rest[..k - 1], one.ctx, skip);
        ThenStops(one, first);
        if !Stops(first) { ThenThen(one, first, RunSegments(segs[k..], first.ctx, skip)); }
      }
    }
  }

  lemma ThenThen(a: RunResult, b: RunResult, c: RunResult)
    ensures Then(a, Then(b, c)) == Then(Then(a, b), c)
  {
    assert a.actions + (b.actions + c.actions) == a.actions + b.actions + c.actions;
    assert a.trace + (b.trace + c.trace) == a.trace + b.trace + c.trace;
  }

  lemma RunHead(segs: seq<Segment>, c: Ctx, skip: set<string>)
    requires WellSegmented(segs) && segs != []
    ensures var one := RunOne(segs[0], c, skip);
            && one.actions <= RunSegments(segs, c, skip).actions
            && (Stops(one) ==> RunSegments(segs, c, skip) == one)
  {
    hide RunOne, WellFormed;
  }

  /**
   The actions of segment `k`, one for each of its steps in their order, stand behind one action for each step
   kept before it.  In a run that skips nothing the i-th action is thus that of the i-th step.
   */
  lemma ActionsAligned(segs: seq<Segment>, c: Ctx, skip: set<string>, k: nat)
    requires WellSegmented(segs) && k < |segs| && !Stops(RunSegments(segs[..k], c, skip))
    ensures var r, before := RunSegments(segs, c, skip), RunSegments(segs[..k], c, skip);
            var one := RunOne(segs[k], before.ctx, skip);
            && |before.actions| == |Kept(segs[..k], skip)| && before.actions + one.actions <= r.actions
            && OwnActions(segs[k], before.ctx, skip, one.actions)
            && (Stops(one) ==> r == Then(before, one))
    ensures skip == {} ==> Kept(segs[..k], skip) == Flatten(segs[..k])
  {
    hide RunOne, WellFormed, OwnActions, SegmentDone, Kept, RunSegments;
    var before := RunSegments(segs[..k], c, skip);
    KeptActions(segs[..k], c, skip);
    RunSplits(segs, c, skip, k);
    RunHead(segs[k..], before.ctx, skip);
    OneOwnActions(segs[k], before.ctx, skip);
    if skip == {} { NothingSkipped(segs[..k]); }
  }

  lemma {:induction false} NothingSkipped(segs: seq<Segment>)
    ensures Kept(segs, {}) == Flatten(segs)
  {
    if segs != [] { NothingSkipped(segs[1..]); }
  }

  /** The single step that ends a run with an abort: the last action and the last event are its own. */
  lemma {:induction false} AbortingSegment(segs: seq<Segment>, c: Ctx, skip: set<string>) returns (j: nat)
    requires WellSegmented(segs) && Stops(RunSegments(segs, c, skip)) && RunSegments(segs, c, skip).error.None?
    ensures j < |segs| && !segs[j].parallel && !SegmentDone(segs[j], skip)
    ensures !Stops(RunSegments(segs[..j], c, skip))
    ensures var r := RunSegments(segs, c, skip);
            && |r.actions| == |Kept(segs[..j], skip)| + 1
            && r.trace != [] && r.trace[|r.trace| - 1] == StepFailed(segs[j].steps[0].id)
    decreases |segs|
  {
    hide RunOne, WellFormed, SegmentDone;
    var one := RunOne(segs[0], c, skip);
    OneOwnActions(segs[0], c, skip);
    if Stops(one) {
      AbortIsLogged(segs[0].steps[0], c);
      j := 0;
    } else {
      ThenStops(one, RunSegments(segs[1..], one.ctx, skip));
      j := AbortingSegment(segs[1..], one.ctx, skip);
      assert segs[..j + 1][0] == segs[0] && segs[..j + 1][1..] == segs[1..][..j];
      ThenStops(one, RunSegments(segs[1..][..j], one.ctx, skip));
      j := j + 1;
    }
  }

  lemma AbortIsLogged(st: Step, c: Ctx)
    ensures var f := RunFlow(st, c);
            f.action == Ok(AbortItem) ==> f.trace != [] && f.trace[|f.trace| - 1] == StepFailed(st.id)
  {
  }

  // --- Where a run may be cut off -----------------------------------------------------

  /** The context after `i` segments, or at the segment before that ended the run. */
  ghost function CutOff(segs: seq<Segment>, c: Ctx, skip: set<string>, i: nat): Ctx
    requires WellSegmented(segs) && i <= |segs|
  {
    RunSegments(segs[..i], c, skip).ctx
  }

  lemma CutOffStep(segs: seq<Segment>, c: Ctx, skip: set<string>, i: nat)
    requires WellSegmented(segs) && 0 < i <= |segs|
    ensures var one := RunOne(segs[0], c, skip);
            CutOff(segs, c, skip, i) == if Stops(one) then one.ctx else CutOff(segs[1..], one.ctx, skip, i - 1)
  {
    hide RunOne, WellFormed;
    assert segs[..i][0] == segs[0] && segs[..i][1..] == segs[1..][..i - 1];
  }

  ghost predicate IsCutOff(x: Ctx, segs: seq<Segment>, c: Ctx, skip: set<string>)
    requires WellSegmented(segs)
  {
    exists i :: 0 <= i <= |segs| && x == CutOff(segs, c, skip, i)
  }

  lemma NotCutOff(segs: seq<Segment>, c: Ctx, skip: set<string>)
    requires WellSegmented(segs)
    ensures CutOff(segs, c, skip, 0) == c
  {
  }

  lemma StartIsFaithful(segs: seq<Segment>, f: Ctx, c: Ctx, skip: set<string>, final: Ctx)
    requires WellSegmented(segs) && DistinctIds(Flatten(segs))
    requires InStep(Ids(Flatten(segs)), f, c, skip, final) && final == RunSegments(segs, f, {}).ctx
    ensures Faithful(c, final)
  {
    hide RunOne, WellFormed;
    if segs != [] { FrameInput(segs, f); }
    forall id | id in c.steps && id !in Ids(Flatten(segs)) ensures Entry(c, id) == Entry(final, id) {
      RunSegmentsFrame(segs, f, {}, id);
    }
  }

  /** Wherever it is cut off, the resumed run holds nothing but what the unstopped run ends with. */
  lemma {:induction false} CutOffFaithful(segs: seq<Segment>, f: Ctx, c: Ctx, skip: set<string>, final: Ctx, i: nat)
    requires WellSegmented(segs) && DistinctIds(Flatten(segs)) && ReadsEarlierOnly(segs) && i <= |segs|
    requires InStep(Ids(Flatten(segs)), f, c, skip, final) && final == RunSegments(segs, f, {}).ctx
    ensures Faithful(CutOff(segs, c, skip, i), final)
    decreases |segs|
  {
    hide RunOne, WellFormed, InStep, Faithful, Stops, ReadsEarlierOnly, CutOff;
    if i == 0 {
      NotCutOff(segs, c, skip);
      StartIsFaithful(segs, f, c, skip, final);
    } else {
      OneInStep(segs, f, c, skip, final);
      CutOffStep(segs, c, skip, i);
      var of, oc := RunOne(segs[0], f, {}), RunOne(segs[0], c, skip);
      if !Stops(of) { CutOffFaithful(segs[1..], of.ctx, oc.ctx, skip, final, i - 1); }
    }
  }

  // --- Cancelled runs -----------------------------------------------------------------

  /** The step `a` answers as `b` does, save where the cancellation of the run stopped an attempt. */
  ghost predicate Interrupted(a: Step, b: Step) {
    a == b.(exec := a.exec) && forall c, k :: a.exec(c, k) == b.exec(c, k) || a.exec(c, k) == Cancelled
  }

  ghost predicate AllInterrupted(a: seq<Step>, b: seq<Step>) {
    |a| == |b| && forall i :: 0 <= i < |a| ==> Interrupted(a[i], b[i])
  }

  lemma {:induction false} TriesInterrupted(a: Step, b: Step, c: Ctx, k: nat)
    requires Interrupted(a, b) && k <= Attempts(b)
    ensures Tries(a, c, k).0.Cancelled? || Tries(a, c, k) == Tries(b, c, k)
    decreases Attempts(b) - k
  {
    assert a.exec(c, k) == b.exec(c, k) || a.exec(c, k) == Cancelled;
    if TryAgain(a.exec(c, k)) && k < Attempts(b) { TriesInterrupted(a, b, c, k + 1); }
  }

  /** A step that is cancelled leaves the context a it was. */
  lemma FlowInterrupted(a: Step, b: Step, c: Ctx)
    requires Interrupted(a, b)
    ensures RunFlow(a, c) == RunFlow(b, c) ||
            (RunFlow(a, c).action == Err(Error(CANCELLED, b.id)) && RunFlow(a, c).ctx == c)
  {
    TriesInterrupted(a, b, c, 1);
  }

  lemma {:induction false} GroupInterrupted(a: seq<Step>, b: seq<Step>, c: Ctx, into: Ctx)
    requires AllInterrupted(a, b)
    ensures FirstHalt(a, c).Some? || (FirstHalt(b, c).None? && Merge(a, c, into) == Merge(b, c, into))
  {
    if a != [] {
      hide RunFlow, Interrupted;
      FlowInterrupted(a[0], b[0], c);
      assert a[0].id == b[0].id by { assert Interrupted(a[0], b[0]); }
      var out := Output(RunFlow(a[0], c).ctx, a[0].id);
      GroupInterrupted(a[1..], b[1..], c, if out.Some? then SetStep(into, a[0].id, out.value) else into);
    }
  }

  ghost predicate SegmentInterrupted(a: Segment, b: Segment) {
    a == b.(steps := a.steps) && AllInterrupted(a.steps, b.steps)
  }

  /** A segment that is cancelled leaves the context a it was; otherwise it is the segment. */
  lemma OneInterrupted(a: Segment, b: Segment, c: Ctx, skip: set<string>)
    requires WellFormed(a) && WellFormed(b) && SegmentInterrupted(a, b)
    ensures var x, y := RunOne(a, c, skip), RunOne(b, c, skip);
            if x.error.Some? then x.ctx == c else x.ctx == y.ctx && (Stops(x) <==> Stops(y))
  {
    hide RunFlow;
    assert forall i :: 0 <= i < |a.steps| ==> Interrupted(a.steps[i], b.steps[i]) && a.steps[i].id == b.steps[i].id;
    if b.parallel {
      GroupInterrupted(a.steps, b.steps, c, c);
      GroupNeverStops(a, c);
      GroupNeverStops(b, c);
    } else {
      FlowInterrupted(a.steps[0], b.steps[0], c);
      HaltKeeps(a.steps[0], c);
    }
  }

  /** Whatever a run of interrupted steps saves, and whatever it ends with, the segments left it at a cut. */
  lemma {:induction false} SavesAreCutOffs(a: seq<Segment>, b: seq<Segment>, c: Ctx, skip: set<string>, limit: nat)
    requires WellSegmented(a) && WellSegmented(b) && |a| == |b|
    requires forall i :: 0 <= i < |a| ==> SegmentInterrupted(a[i], b[i])
    ensures IsCutOff(RunUntil(a, c, skip, limit).ctx, b, c, skip)
    ensures SavesCutOffs(RunUntil(a, c, skip, limit).trace, b, c, skip)
    decreases |a|
  {
    hide RunOne, WellFormed, SegmentInterrupted, CutOff, RunUntil;
    StartIsCutOff(b, c, skip);
    if a == [] || limit == 0 {
      NothingRun(a, c, skip, limit);
    } else {
      RunUntilStep(a, c, skip, limit);
      OneInterrupted(a[0], b[0], c, skip);
      RunOneSaves(a[0], c, skip);
      var x, y := RunOne(a[0], c, skip), RunOne(b[0], c, skip);
      FirstIsCutOff(b, c, skip);
      if !Stops(x) {
        SavesAreCutOffs(a[1..], b[1..], x.ctx, skip, limit - 1);
        assert forall z :: IsCutOff(z, b[1..], y.ctx, skip) ==> IsCutOff(z, b, c, skip) by {
          forall z | IsCutOff(z, b[1..], y.ctx, skip) ensures IsCutOff(z, b, c, skip) { LaterIsCutOff(z, b, c, skip); }
        }
      }
    }
  }

  ghost predicate SavesCutOffs(trace: seq<Event>, segs: seq<Segment>, c: Ctx, skip: set<string>)
    requires WellSegmented(segs)
  {
    forall i :: 0 <= i < |trace| && trace[i].Saved? ==> IsCutOff(trace[i].ctx, segs, c, skip)
  }

  lemma StartIsCutOff(segs: seq<Segment>, c: Ctx, skip: set<string>)
    requires WellSegmented(segs)
    ensures IsCutOff(c, segs, c, skip)
  {
    NotCutOff(segs, c, skip);
  }

  lemma NothingRun(segs: seq<Segment>, c: Ctx, skip: set<string>, limit: nat)
    requires WellSegmented(segs) && (segs == [] || limit == 0)
    ensures RunUntil(segs, c, skip, limit).ctx == c && RunUntil(segs, c, skip, limit).trace == []
  {
  }

  lemma FirstIsCutOff(segs: seq<Segment>, c: Ctx, skip: set<string>)
    requires WellSegmented(segs) && segs != []
    ensures IsCutOff(RunOne(segs[0], c, skip).ctx, segs, c, skip)
  {
    hide RunOne;
    CutOffStep(segs, c, skip, 1);
  }

  lemma LaterIsCutOff(x: Ctx, segs: seq<Segment>, c: Ctx, skip: set<string>)
    requires WellSegmented(segs) && segs != [] && !Stops(RunOne(segs[0], c, skip))
    requires IsCutOff(x, segs[1..], RunOne(segs[0], c, skip).ctx, skip)
    ensures IsCutOff(x, segs, c, skip)
  {
    hide RunOne, CutOff;
    var i :| 0 <= i <= |segs| - 1 && x == CutOff(segs[1..], RunOne(segs[0], c, skip).ctx, skip, i);
    CutOffStep(segs, c, skip, i + 1);
  }

  lemma {:induction false} GroupLengthInterrupted(a: seq<Step>, b: seq<Step>, g: string)
    requires AllInterrupted(a, b)
    ensures GroupLength(a, g) == GroupLength(b, g)
  {
    if a != [] {
      assert Interrupted(a[0], b[0]);
      GroupLengthInterrupted(a[1..], b[1..], g);
    }
  }

  /** Interrupted steps make up the same segments. */
  lemma {:induction false} SegmentsInterrupted(a: seq<Step>, b: seq<Step>)
    requires AllInterrupted(a, b)
    ensures |Segments(a)| == |Segments(b)|
    ensures forall i :: 0 <= i < |Segments(a)| ==> SegmentInterrupted(Segments(a)[i], Segments(b)[i])
    decreases |a|
  {
    if a != [] {
      hide Segments, GroupLength;
      assert Interrupted(a[0], b[0]);
      hide Interrupted;
      GroupLengthInterrupted(a, b, a[0].group);
      var n := FirstSegment(a);
      var m := FirstSegment(b);
      assert AllInterrupted(a[..n], b[..n]) && AllInterrupted(a[n..], b[n..]);
      SegmentsInterrupted(a[n..], b[n..]);
      hide AllInterrupted;
    }
  }

  lemma FirstSegment(steps: seq<Step>) returns (n: nat)
    requires steps != []
    ensures 0 < n <= |steps| && n == if steps[0].group == "" then 1 else GroupLength(steps, steps[0].group)
    ensures Segments(steps) == [Segment(n > 1, steps[0].group, steps[..n])] + Segments(steps[n..])
  {
    GroupLengthBound(steps, steps[0].group);
    n := if steps[0].group == "" then 1 else GroupLength(steps, steps[0].group);
  }

  // --- The abort event ----------------------------------------------------------------

  lemma {:induction false} FlattenAt(segs: seq<Segment>, k: nat)
    requires WellSegmented(segs) && k < |segs|
    ensures |Flatten(segs[..k])| < |Flatten(segs)| && Flatten(segs)[|Flatten(segs[..k])|] == segs[k].steps[0]
  {
    if k > 0 {
      assert segs[..k][0] == segs[0] && segs[..k][1..] == segs[1..][..k - 1];
      FlattenAt(segs[1..], k - 1);
    }
  }

  /**
   When a run ends in the abort of a step, its abort event names that step exactly when no segment before the
   step was skipped; `j` is the segment of the step.
   */
  lemma AbortEventIff(steps: seq<Step>, c: Ctx, skip: set<string>, limit: nat) returns (j: nat)
    requires DistinctIds(steps) && RunLinear(steps, c, skip, limit).error.None? &&
             Stops(RunLinear(steps, c, skip, limit))
    ensures var segs, t := Segments(steps), RunLinear(steps, c, skip, limit).trace;
            && j < |segs| && |segs[j].steps| == 1 && 4 <= |t| && t[|t| - 4] == StepFailed(segs[j].steps[0].id)
            && t[|t| - 3].ItemAborted? && t[|t| - 3].idx == 0
            && (t[|t| - 3].step == segs[j].steps[0].id <==> forall i :: 0 <= i < j ==> !SegmentDone(segs[i], skip))
  {
    SegmentsPartition(steps);
    var segs := Segments(steps);
    var n := if limit - 1 < |segs| then limit - 1 else |segs|;
    hide Segments, RunSegments, WellFormed, SegmentDone, Kept;
    UntilShape(segs, c, skip, limit - 1);
    assert segs[..|segs|] == segs;
    assert RunUntil(segs, c, skip, limit - 1) == RunSegments(segs[..n], c, skip);
    j := AbortingSegment(segs[..n], c, skip);
    assert segs[..n][..j] == segs[..j];
    FlattenAt(segs, j);
    KeptAll(segs[..j], skip);
    assert WellFormed(segs[j]);
    assert |segs[j].steps| == 1 by { AloneIsSingle(segs[j]); }
    var r, t := RunSegments(segs[..n], c, skip), RunLinear(steps, c, skip, limit).trace;
    assert t == [ItemStart(0)] + r.trace + [ItemAborted(0, steps[|r.actions| - 1].id)] +
           [Saved(r.ctx), ItemEnd(0, false)];
  }

  lemma AloneIsSingle(seg: Segment)
    requires WellFormed(seg) && !seg.parallel
    ensures |seg.steps| == 1
  {
  }

  /** Step `a` ended well before the run was resumed and is skipped; `b` aborts, and the event names `a`. */
  lemma AbortEventNamesASkippedStep()
    ensures exists steps: seq<Step>, c: Ctx :: DistinctIds(steps) &&
              var t := ResumedRun(steps, [StepEnd("a", 1, true)], c).trace;
              StepFailed("b") in t && ItemAborted(0, "a") in t && ItemAborted(0, "b") !in t
  {
    var a := Step("a", "", _ => Holds, _ => true, OnError.Stop, 0, (_, _) => Good(Some(map[])));
    var b := Step("b", "", _ => Holds, _ => false, OnError.Stop, 0, (_, _) => Good(Some(map[])));
    var c := Ctx(map[], map["a" := Object(map[])]);
    var events := [StepEnd("a", 1, true)];
    assert events[0].StepEnd?;
    assert Finished(events) * c.steps.Keys == {"a"};
    assert RunFlow(b, c) == Flow(c, Ok(AbortItem), [StepFailed("b")]);
    SecondAborts(a, b, c, {"a"}, 3);
    assert ResumedRun([a, b], events, c) == RunLinear([a, b], c, {"a"}, 3);
  }

  lemma SecondAborts(a: Step, b: Step, c: Ctx, skip: set<string>, limit: nat)
    requires a.group == "" && b.group == "" && a.id in skip && b.id !in skip && limit >= 3
    requires RunFlow(b, c) == Flow(c, Ok(AbortItem), [StepFailed(b.id)])
    ensures RunLinear([a, b], c, skip, limit).trace ==
            [ItemStart(0), StepFailed(b.id), ItemAborted(0, a.id), Saved(c), ItemEnd(0, false)]
  {
    hide RunFlow;
    TwoSegments(a, b);
    var one, two := Segment(false, "", [a]), Segment(false, "", [b]);
    assert RunOne(one, c, skip) == RunResult(c, [], None, []);
    assert RunOne(two, c, skip) == RunResult(c, [AbortItem], None, [StepFailed(b.id)]);
    assert [one, two][1..] == [two];
    hide RunOne, Segments;
    assert RunSegments([two], c, skip) == RunOne(two, c, skip);
    assert RunSegments([one, two], c, skip) == RunResult(c, [AbortItem], None, [StepFailed(b.id)]);
  }

  lemma TwoSegments(a: Step, b: Step)
    requires a.group == "" && b.group == ""
    ensures Segments([a, b]) == [Segment(false, "", [a]), Segment(false, "", [b])]
    ensures WellSegmented(Segments([a, b]))
  {
    var one, two := Segment(false, "", [a]), Segment(false, "", [b]);
    assert [a, b][..1] == [a] && [a, b][1..] == [b] && [b][..1] == [b] && [b][1..] == [];
    assert [one] + [two] == [one, two] && [two] + [] == [two];
    assert Segments([b]) == [two];
    assert Segments([a, b]) == [one] + Segments([a, b][1..]);
  }

  /** Looks through the actions for an abort. */
  method JournalAbort(steps: seq<Step>, actions: seq<Action>, j: Journal) returns (aborted: bool)
    requires |actions| <= |steps| && forall i :: 0 <= i < |actions| - 1 ==> !actions[i].AbortItem?
    modifies j
    ensures aborted <==> actions != [] && actions[|actions| - 1].AbortItem?
    ensures j.trace == old(j.trace) + AbortEvents(steps, actions)
  {
    for i := 0 to |actions|
      invariant j.trace == old(j.trace) && forall k :: 0 <= k < i ==> !actions[k].AbortItem?
    {
      if actions[i].AbortItem? {
        j.Event(ItemAborted(0, steps[i].id));
        return true;
      }
    }
    return false;
  }

  /** The runner's one item of a linear pipeline. */
  method DoRunLinear(steps: seq<Step>, ctx: Context, j: Journal, skip: set<string>, limit: nat)
    returns (error: Option<Error>, aborted: bool)
    modifies ctx, j
    ensures var r := RunLinear(steps, old(ctx.data), skip, limit);
            && ctx.data == r.ctx && error == r.error && j.trace == old(j.trace) + r.trace
            && (error.None? ==> (aborted <==> Stops(r)))
  {
    hide RunUntil, Segments, WellSegmented, AbortEvents;
    aborted := false;
    if limit == 0 {
      error := Some(Error(CANCELLED, ""));
      FailEvent(error.value, ctx, j);
      return;
    }
    SegmentsPartition(steps);
    UntilShape(Segments(steps), ctx.data, skip, limit - 1);
    j.Event(ItemStart(0));
    var actions;
    actions, error := DoRunSegments(steps, ctx, j, skip, limit - 1);
    if error.Some? {
      FailEvent(error.value, ctx, j);
      return;
    }
    aborted := JournalAbort(steps, actions, j);
    j.Event(Saved(ctx.data));
    j.Event(ItemEnd(0, !aborted));
  }

  method FailEvent(e: Error, ctx: Context, j: Journal)
    modifies j
    ensures j.trace == old(j.trace) + FailEvents(e, ctx.data)
  {
    if e.code == CANCELLED { j.Event(RunCancelled); } else { j.Event(RunFailed); }
    j.Event(Saved(ctx.data));
  }

  // --- Whole runs ---------------------------------------------------------------------

  /** The run that is never cancelled. */
  ghost function FreshRun(steps: seq<Step>, input: map<string, Value>): RunResult {
    RunLinear(steps, Ctx(input, map[]), {}, |steps| + 1)
  }

  /** The run that a journal `events` and a snapshot `c` are resumed to. */
  ghost function ResumedRun(steps: seq<Step>, events: seq<Event>, c: Ctx): RunResult {
    RunLinear(steps, c, Finished(events) * c.steps.Keys, |steps| + 1)
  }

  lemma {:induction false} FewSegments(segs: seq<Segment>)
    requires WellSegmented(segs)
    ensures |segs| <= |Flatten(segs)|
  {
    if segs != [] { FewSegments(segs[1..]); }
  }

  lemma LinearVerdict(steps: seq<Step>, c: Ctx, skip: set<string>)
    requires WellSegmented(Segments(steps)) && Flatten(Segments(steps)) == steps
    ensures var l, r := RunLinear(steps, c, skip, |steps| + 1), RunSegments(Segments(steps), c, skip);
            l.ctx == r.ctx && l.error == r.error && (Stops(l) <==> Stops(r))
  {
    hide Segments, RunSegments, WellSegmented;
    FewSegments(Segments(steps));
  }

  lemma ResumeFromFaithful(steps: seq<Step>, input: map<string, Value>, events: seq<Event>, c: Ctx)
    requires DistinctIds(steps) && ReadsEarlierOnly(Segments(steps)) && Faithful(c, FreshRun(steps, input).ctx)
    ensures var whole, r := FreshRun(steps, input), ResumedRun(steps, events, c);
            r.ctx == whole.ctx && r.error == whole.error && (Stops(r) <==> Stops(whole))
  {
    SegmentsPartition(steps);
    var skip := Finished(events) * c.steps.Keys;
    LinearVerdict(steps, c, skip);
    LinearVerdict(steps, Ctx(input, map[]), {});
    hide RunLinear, RunSegments, Segments, Faithful, InStep, Stops;
    var final := RunSegments(Segments(steps), Ctx(input, map[]), {}).ctx;
    StartInStep(steps, input, c, skip, final);
    ResumeSegments(Segments(steps), Ctx(input, map[]), c, skip, final);
  }

  lemma StartInStep(steps: seq<Step>, input: map<string, Value>, c: Ctx, skip: set<string>, final: Ctx)
    requires DistinctIds(steps) && Flatten(Segments(steps)) == steps && WellSegmented(Segments(steps))
    requires final == RunSegments(Segments(steps), Ctx(input, map[]), {}).ctx
    requires Faithful(c, final) && skip <= c.steps.Keys
    ensures InStep(Ids(steps), Ctx(input, map[]), c, skip, final)
  {
    hide Segments, RunSegments;
    var f := Ctx(input, map[]);
    forall id | id !in Ids(steps) ensures Entry(final, id) == None && Entry(c, id) == None {
      RunSegmentsFrame(Segments(steps), f, {}, id);
    }
    var other := Unused(steps);
    RunSegmentsFrame(Segments(steps), f, {}, other);
  }

  /**
   What runs of a chain can leave behind, wherever they are cancelled: exactly the contexts at the cuts
   between its segments.
   */
  lemma SnapshotsAreCutOffs(steps: seq<Step>, answered: seq<Step>, c: Ctx, skip: set<string>, limit: nat, snap: Ctx)
    requires AllInterrupted(answered, steps) && Saved(snap) in RunLinear(answered, c, skip, limit).trace
    ensures WellSegmented(Segments(steps)) && IsCutOff(snap, Segments(steps), c, skip)
  {
    SegmentsPartition(steps);
    SegmentsPartition(answered);
    hide Segments, WellSegmented, RunUntil, IsCutOff, AllInterrupted;
    SegmentsInterrupted(answered, steps);
    StartIsCutOff(Segments(steps), c, skip);
    if limit > 0 { SavesAreCutOffs(Segments(answered), Segments(steps), c, skip, limit - 1); }
  }

  lemma EveryCutIsLeftBehind(steps: seq<Step>, c: Ctx, skip: set<string>, i: nat)
    requires WellSegmented(Segments(steps)) && i <= |Segments(steps)|
    ensures Saved(CutOff(Segments(steps), c, skip, i)) in RunLinear(steps, c, skip, i + 1).trace
  {
    SegmentsPartition(steps);
    hide Segments, RunSegments, WellSegmented, AbortEvents;
    var segs := Segments(steps);
    assert segs[..|segs|] == segs;
    var r, l := RunUntil(segs, c, skip, i), RunLinear(steps, c, skip, i + 1);
    UntilShape(segs, c, skip, i);
    if r.error.Some? {
      assert l.trace[|l.trace| - 1] == Saved(r.ctx);
    } else {
      assert l.trace[|l.trace| - 2] == Saved(r.ctx);
    }
  }

  /**
   A run that was stopped: the steps as they answered, the look that found it cancelled, what its journal
   shows when it is resumed, and the snapshot it left.
   */
  datatype StoppedRun = StoppedRun(answered: seq<Step>, limit: nat, journal: seq<Event>, snap: Ctx)

  /**
   A run and its resumptions, each cancelled or killed somewhere: the first left a snapshot that the fresh run
   saved, every next one that the run resumed from the one before saved, or that one again when nothing newer
   reached the disk.
   */
  ghost predicate LeftBehind(steps: seq<Step>, input: map<string, Value>, runs: seq<StoppedRun>) {
    && |runs| > 0 && (forall k :: 0 <= k < |runs| ==> AllInterrupted(runs[k].answered, steps))
    && Saved(runs[0].snap) in RunLinear(runs[0].answered, Ctx(input, map[]), {}, runs[0].limit).trace
    && forall k :: 0 < k < |runs| ==> runs[k].snap == runs[k - 1].snap || LeftNext(runs[k - 1], runs[k])
  }

  /** `next` was resumed from what `last` left. */
  ghost predicate LeftNext(last: StoppedRun, next: StoppedRun) {
    Saved(next.snap) in
    RunLinear(next.answered, last.snap, Finished(last.journal) * last.snap.steps.Keys, next.limit).trace
  }

  lemma {:induction false} LeftBehindIsFaithful(steps: seq<Step>, input: map<string, Value>, runs: seq<StoppedRun>,
                                                n: nat)
    requires DistinctIds(steps) && ReadsEarlierOnly(Segments(steps))
    requires LeftBehind(steps, input, runs) && n < |runs|
    ensures Faithful(runs[n].snap, FreshRun(steps, input).ctx)
  {
    hide RunLinear, Finished, FreshRun, Segments, AllInterrupted, Faithful;
    if n == 0 {
      StartFaithful(steps, input);
      CutFaithful(steps, input, runs[0], Ctx(input, map[]), {});
    } else {
      var last := runs[n - 1];
      LeftBehindIsFaithful(steps, input, runs, n - 1);
      if runs[n].snap != last.snap {
        assert LeftNext(last, runs[n]);
        CutFaithful(steps, input, runs[n], last.snap, Finished(last.journal) * last.snap.steps.Keys);
      }
    }
  }

  lemma StartFaithful(steps: seq<Step>, input: map<string, Value>)
    requires DistinctIds(steps)
    ensures Faithful(Ctx(input, map[]), FreshRun(steps, input).ctx)
  {
    SegmentsPartition(steps);
    LinearVerdict(steps, Ctx(input, map[]), {});
    hide RunLinear, Segments, RunSegments;
    var other := Unused(steps);
    RunSegmentsFrame(Segments(steps), Ctx(input, map[]), {}, other);
  }

  /** A run that starts from a context that agrees with the unstopped run saves only such contexts. */
  lemma CutFaithful(steps: seq<Step>, input: map<string, Value>, run: StoppedRun, c: Ctx, skip: set<string>)
    requires DistinctIds(steps) && ReadsEarlierOnly(Segments(steps)) && AllInterrupted(run.answered, steps)
    requires Faithful(c, FreshRun(steps, input).ctx) && skip <= c.steps.Keys
    requires Saved(run.snap) in RunLinear(run.answered, c, skip, run.limit).trace
    ensures Faithful(run.snap, FreshRun(steps, input).ctx)
  {
    SegmentsPartition(steps);
    LinearVerdict(steps, Ctx(input, map[]), {});
    hide RunLinear, RunSegments, Segments, Faithful, InStep, AllInterrupted, CutOff, ReadsEarlierOnly;
    var segs, final := Segments(steps), FreshRun(steps, input).ctx;
    SnapshotsAreCutOffs(steps, run.answered, c, skip, run.limit, run.snap);
    var i :| 0 <= i <= |segs| && run.snap == CutOff(segs, c, skip, i);
    StartInStep(steps, input, c, skip, final);
    CutOffFaithful(segs, Ctx(input, map[]), c, skip, final, i);
  }

  /**
   However often the run was stopped and resumed, and whatever its journal shows, the run resumed from the
   last snapshot ends with exactly the outputs, the error and the verdict of the run that is never stopped.
   */
  lemma ResumeEqualsNotStopping(steps: seq<Step>, input: map<string, Value>, runs: seq<StoppedRun>)
    requires DistinctIds(steps) && ReadsEarlierOnly(Segments(steps)) && LeftBehind(steps, input, runs)
    ensures var whole, r := FreshRun(steps, input), ResumedRun(steps, runs[|runs| - 1].journal, runs[|runs| - 1].snap);
            r.ctx == whole.ctx && r.error == whole.error && (Stops(r) <==> Stops(whole))
  {
    hide RunLinear, Finished;
    LeftBehindIsFaithful(steps, input, runs, |runs| - 1);
    ResumeFromFaithful(steps, input, runs[|runs| - 1].journal, runs[|runs| - 1].snap);
  }
}

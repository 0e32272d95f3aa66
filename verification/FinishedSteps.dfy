/**
 What a resumed run of a linear pipeline does not do again: the steps, and the groups as a whole, that the
 journal shows as ended well and the snapshot has the outputs of.
 */
module FinishedSteps {
  import opened Base
  import opened StepFlow
  import opened ParallelGroup
  import opened LinearResume

  /** The segments with a step that is not in `done`. */
  function Unfinished(segs: seq<Segment>, done: set<string>): seq<Segment> {
    if segs == [] then [] else (if Ids(segs[0].steps) <= done then [] else [segs[0]]) + Unfinished(segs[1..], done)
  }

  lemma {:induction false} UnfinishedAre(segs: seq<Segment>, done: set<string>)
    ensures WellSegmented(segs) ==> WellSegmented(Unfinished(segs, done))
    ensures forall seg :: seg in Unfinished(segs, done) <==> seg in segs && !(Ids(seg.steps) <= done)
  {
    if segs != [] { UnfinishedAre(segs[1..], done); }
  }

  lemma SkippedIff(seg: Segment, c: Ctx, skip: set<string>)
    requires WellFormed(seg)
    ensures if Ids(seg.steps) <= skip then RunOne(seg, c, skip) == RunResult(c, [], None, [])
            else RunOne(seg, c, skip) == RunOne(seg, c, {})
  {
    hide RunFlow, RunGroup;
    assert seg.steps[0].id in Ids(seg.steps);
    assert Ids(seg.steps) <= skip <==> forall k :: 0 <= k < |seg.steps| ==> seg.steps[k].id in skip;
  }

  /** A run with a skip set is the run without one of the segments that are not finished. */
  lemma {:induction false} ResumeRunsTheRest(segs: seq<Segment>, c: Ctx, skip: set<string>)
    requires WellSegmented(segs)
    ensures WellSegmented(Unfinished(segs, skip))
    ensures RunSegments(segs, c, skip) == RunSegments(Unfinished(segs, skip), c, {})
    decreases |segs|
  {
    UnfinishedAre(segs, skip);
    if segs != [] {
      hide RunOne, WellFormed, Ids;
      SkippedIff(segs[0], c, skip);
      var one, rest := RunOne(segs[0], c, skip), segs[1..];
      UnfinishedAre(rest, skip);
      if !Stops(one) {
        ResumeRunsTheRest(rest, one.ctx, skip);
        var r := RunSegments(rest, one.ctx, skip);
        assert [] + r.actions == r.actions && [] + r.trace == r.trace;
      }
      if Ids(segs[0].steps) <= skip {
        assert Unfinished(segs, skip) == [] + Unfinished(rest, skip) == Unfinished(rest, skip);
      } else {
        assert Unfinished(segs, skip)[0] == segs[0] && Unfinished(segs, skip)[1..] == Unfinished(rest, skip);
      }
    }
  }

  /** The step an event of a step belongs to. */
  function StepOf(e: Event): Option<string> {
    match e
    case StepStart(id, _) => Some(id)
    case StepEnd(id, _, _) => Some(id)
    case StepSkipped(id) => Some(id)
    case StepFailed(id) => Some(id)
    case _ => None
  }

  /** No event in `trace` is of a step outside `ids`. */
  ghost predicate StepsWithin(trace: seq<Event>, ids: set<string>) {
    forall i :: 0 <= i < |trace| && StepOf(trace[i]).Some? ==> StepOf(trace[i]).value in ids
  }

  lemma {:induction false} TriesWithin(st: Step, c: Ctx, k: nat)
    requires k <= Attempts(st)
    ensures StepsWithin(Tries(st, c, k).1, {st.id})
    decreases Attempts(st) - k
  {
    var res := st.exec(c, k);
    if TryAgain(res) && k != Attempts(st) { TriesWithin(st, c, k + 1); }
  }

  lemma FlowWithin(st: Step, c: Ctx)
    ensures StepsWithin(RunFlow(st, c).trace, {st.id})
  {
    TriesWithin(st, c, 1);
  }

  lemma {:induction false} BranchesWithin(steps: seq<Step>, c: Ctx)
    ensures StepsWithin(BranchEvents(steps, c), Ids(steps))
  {
    hide RunFlow;
    if steps != [] {
      FlowWithin(steps[0], c);
      BranchesWithin(steps[1..], c);
      IdsHead(steps);
    }
  }

  lemma OneWithin(seg: Segment, c: Ctx, skip: set<string>)
    requires WellFormed(seg)
    ensures StepsWithin(RunOne(seg, c, skip).trace, Ids(seg.steps))
  {
    hide RunFlow;
    assert seg.steps[0].id in Ids(seg.steps);
    if seg.parallel { BranchesWithin(seg.steps, c); } else { FlowWithin(seg.steps[0], c); }
  }

  lemma {:induction false} SegmentsWithin(segs: seq<Segment>, c: Ctx, skip: set<string>)
    requires WellSegmented(segs)
    ensures StepsWithin(RunSegments(segs, c, skip).trace, Ids(Flatten(segs)))
    decreases |segs|
  {
    if segs != [] {
      hide RunOne, WellFormed, Ids;
      OneWithin(segs[0], c, skip);
      IdsAppend(segs[0].steps, Flatten(segs[1..]));
      if !Stops(RunOne(segs[0], c, skip)) { SegmentsWithin(segs[1..], RunOne(segs[0], c, skip).ctx, skip); }
    }
  }

  /** What a resumption takes as done: the journal shows that the step ended well, and the snapshot has its output. */
  ghost function DoneIds(events: seq<Event>, c: Ctx): set<string> {
    set i | 0 <= i < |events| && events[i].StepEnd? && events[i].ok && events[i].step in c.steps && events[i].step != ""
          :: events[i].step
  }

  /**
   A resumed run is a fresh run, from the snapshot, of the segments that are not finished: one whose steps all
   ended well and left their outputs is not run again, group or single step, and every other one is run as ever.
   */
  lemma ResumedRunIsTheRest(steps: seq<Step>, events: seq<Event>, c: Ctx)
    ensures WellSegmented(Unfinished(Segments(steps), DoneIds(events, c)))
    ensures var r := ResumedRun(steps, events, c);
            var rest := RunSegments(Unfinished(Segments(steps), DoneIds(events, c)), c, {});
            && r.ctx == rest.ctx && r.actions == rest.actions && r.error == rest.error
            && [ItemStart(0)] + rest.trace <= r.trace && EndsTheItem(r.trace[1 + |rest.trace|..], r.ctx)
  {
    hide RunLinear, Segments, RunSegments, WellSegmented, EndsTheItem;
    SegmentsPartition(steps);
    DoneIdsAre(events, c);
    ResumeRunsTheRest(Segments(steps), c, DoneIds(events, c));
    LinearTrace(steps, c, DoneIds(events, c));
  }

  lemma DoneIdsAre(events: seq<Event>, c: Ctx)
    ensures DoneIds(events, c) == Finished(events) * c.steps.Keys
  {
  }

  /** Events of the end of the item: none of a step or a group, and no snapshot but that of `c`. */
  ghost predicate EndsTheItem(trace: seq<Event>, c: Ctx) {
    forall i :: 0 <= i < |trace| ==>
      StepOf(trace[i]).None? && !trace[i].ParallelStart? && (trace[i].Saved? ==> trace[i].ctx == c)
  }

  lemma LinearTrace(steps: seq<Step>, c: Ctx, skip: set<string>)
    requires WellSegmented(Segments(steps)) && Flatten(Segments(steps)) == steps
    ensures var l, r := RunLinear(steps, c, skip, |steps| + 1), RunSegments(Segments(steps), c, skip);
            && l.ctx == r.ctx && l.actions == r.actions && l.error == r.error
            && [ItemStart(0)] + r.trace <= l.trace && EndsTheItem(l.trace[1 + |r.trace|..], r.ctx)
  {
    hide Segments, RunSegments, WellSegmented, EndsTheItem;
    FewSegments(Segments(steps));
    UntilShape(Segments(steps), c, skip, |steps|);
    var l, r := RunLinear(steps, c, skip, |steps| + 1), RunSegments(Segments(steps), c, skip);
    var tail := if r.error.Some? then FailEvents(r.error.value, r.ctx)
                else AbortEvents(steps, r.actions) + [Saved(r.ctx), ItemEnd(0, !Stops(r))];
    assert l.trace == [ItemStart(0)] + r.trace + tail;
    assert l.trace[1 + |r.trace|..] == tail;
    TailEndsTheItem(steps, r);
  }

  lemma TailEndsTheItem(steps: seq<Step>, r: RunResult)
    requires |r.actions| <= |steps|
    ensures r.error.Some? ==> EndsTheItem(FailEvents(r.error.value, r.ctx), r.ctx)
    ensures EndsTheItem(AbortEvents(steps, r.actions) + [Saved(r.ctx), ItemEnd(0, !Stops(r))], r.ctx)
  {
  }

  /** No event in `trace` is of a step in `ids`. */
  ghost predicate NoneOf(trace: seq<Event>, ids: set<string>) {
    forall i :: 0 <= i < |trace| && StepOf(trace[i]).Some? ==> StepOf(trace[i]).value !in ids
  }

  lemma NoneOfParts(a: seq<Event>, b: seq<Event>, c: seq<Event>, ids: set<string>)
    requires NoneOf(a, ids) && NoneOf(b, ids) && NoneOf(c, ids)
    ensures NoneOf(a + b + c, ids)
  {
  }

  /** No event of a step of a finished segment is in the trace of the resumed run. */
  lemma FinishedIsNotRun(steps: seq<Step>, events: seq<Event>, c: Ctx, seg: Segment)
    requires DistinctIds(steps) && seg in Segments(steps) && Ids(seg.steps) <= DoneIds(events, c)
    ensures NoneOf(ResumedRun(steps, events, c).trace, Ids(seg.steps))
  {
    hide Segments, RunSegments, WellFormed, ResumedRun;
    SegmentsPartition(steps);
    ResumedRunIsTheRest(steps, events, c);
    var rest := Unfinished(Segments(steps), DoneIds(events, c));
    var r, all := RunSegments(rest, c, {}), ResumedRun(steps, events, c).trace;
    SegmentsWithin(rest, c, {});
    UnfinishedAre(Segments(steps), DoneIds(events, c));
    OtherIds(Segments(steps), rest, seg);
    NoneOfParts([ItemStart(0)], r.trace, all[1 + |r.trace|..], Ids(seg.steps));
    assert all == [ItemStart(0)] + r.trace + all[1 + |r.trace|..];
  }

  lemma {:induction false} IdsOfSegments(segs: seq<Segment>, id: string) returns (k: nat)
    requires id in Ids(Flatten(segs))
    ensures k < |segs| && id in Ids(segs[k].steps)
  {
    IdsAppend(segs[0].steps, Flatten(segs[1..]));
    if id in Ids(segs[0].steps) { k := 0; }
    else {
      k := IdsOfSegments(segs[1..], id);
      k := k + 1;
    }
  }

  /** Two different segments of distinct steps share no id. */
  lemma {:induction false} SegmentsApart(segs: seq<Segment>, i: nat, k: nat)
    requires DistinctIds(Flatten(segs)) && i < k < |segs|
    ensures Ids(segs[i].steps) !! Ids(segs[k].steps)
    decreases i
  {
    IdsAppend(segs[0].steps, Flatten(segs[1..]));
    if i == 0 {
      IdsInside(segs[1..], k - 1);
    } else {
      SegmentsApart(segs[1..], i - 1, k - 1);
    }
  }

  lemma {:induction false} IdsInside(segs: seq<Segment>, k: nat)
    requires k < |segs|
    ensures Ids(segs[k].steps) <= Ids(Flatten(segs))
  {
    IdsAppend(segs[0].steps, Flatten(segs[1..]));
    if k > 0 { IdsInside(segs[1..], k - 1); }
  }

  lemma OtherIds(segs: seq<Segment>, rest: seq<Segment>, seg: Segment)
    requires DistinctIds(Flatten(segs)) && seg in segs && seg !in rest && forall s :: s in rest ==> s in segs
    ensures Ids(seg.steps) !! Ids(Flatten(rest))
  {
    hide Ids, DistinctIds, Flatten;
    var k :| 0 <= k < |segs| && segs[k] == seg;
    forall id | id in Ids(Flatten(rest)) ensures id !in Ids(seg.steps) {
      var n := IdsOfSegments(rest, id);
      assert rest[n] in segs;
      var m :| 0 <= m < |segs| && segs[m] == rest[n];
      SegmentsApart(segs, if m < k then m else k, if m < k then k else m);
    }
  }
}

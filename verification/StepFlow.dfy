/**
 Running the steps of a pipeline: one step with its condition, retries and error policy, the
 segmentation into single steps and parallel groups, and the run of all segments.

 A plugin is a function of the context it is given.  A trace lists what a run writes, in order: the
 events appended to its journal and the contexts saved as snapshots.
 */
module StepFlow {
  import opened Base

  const MAX_RETRY_ATTEMPTS: nat := 10
  const MAX_PARALLEL_WIDTH: nat := 32
  const CANCELLED := "cancelled"

  datatype Value = Scalar(text: string) | List(items: seq<Value>) | Object(fields: map<string, Value>)

  datatype Ctx = Ctx(input: map<string, Value>, steps: map<string, Value>)

  datatype OnError = Stop | Skip | Retry

  datatype Guard = Holds | Fails | Unreadable

  /**
   A plugin's answer: an output (None when it breaks the plugin's contract), a failure, or that the run
   was cancelled while it worked or while the next attempt was waited for.
   */
  datatype Exec = Good(out: Option<map<string, Value>>) | Bad(platform: bool, retry: bool) | Cancelled

  /** `ready` says whether the inputs can be assembled; `attempts` is the configured number, 0 when unset. */
  datatype Step = Step(id: string, group: string, guard: Ctx -> Guard, ready: Ctx -> bool,
                       onError: OnError, attempts: nat, exec: (Ctx, nat) -> Exec)

  datatype Action = Okay | Skipped | AbortItem

  datatype Error = Error(code: string, step: string)

  datatype Event =
    | StepStart(step: string, attempt: nat)
    | StepEnd(step: string, attempt: nat, ok: bool)
    | StepSkipped(step: string)
    | StepFailed(step: string)
    | ParallelStart(group: string)
    | ParallelEnd(group: string)
    | ItemStart(idx: int)
    | ItemAborted(idx: int, step: string)
    | ItemEnd(idx: int, ok: bool)
    | RunFailed
    | RunCancelled
    | Saved(ctx: Ctx)

  /** What one step leaves: the context, its action or error, and what it wrote. */
  datatype Flow = Flow(ctx: Ctx, action: Result<Action, Error>, trace: seq<Event>)

  // --- One step -----------------------------------------------------------------------

  function Attempts(st: Step): nat {
    var n := if st.onError.Retry? then if st.attempts > 0 then st.attempts else 3 else 1;
    if n > MAX_RETRY_ATTEMPTS then MAX_RETRY_ATTEMPTS else n
  }

  function TryEvents(st: Step, c: Ctx, k: nat): seq<Event> {
    [StepStart(st.id, k), StepEnd(st.id, k, st.exec(c, k).Good?)]
  }

  /** Another attempt is made after this answer, if there is one left. */
  predicate TryAgain(res: Exec) {
    res.Bad? && res.retry
  }

  /** The answer of the last attempt made, from attempt `k` on, and the events of these attempts. */
  function Tries(st: Step, c: Ctx, k: nat): (Exec, seq<Event>)
    requires k <= Attempts(st)
    decreases Attempts(st) - k
  {
    var res := st.exec(c, k);
    if !TryAgain(res) || k == Attempts(st) then (res, TryEvents(st, c, k))
    else var (last, rest) := Tries(st, c, k + 1); (last, TryEvents(st, c, k) + rest)
  }

  /** One attempt unless the step retries; then as many as are set, three when none is, and ten at the most. */
  lemma AttemptsAre(st: Step)
    ensures !st.onError.Retry? ==> Attempts(st) == 1
    ensures st.onError.Retry? && st.attempts == 0 ==> Attempts(st) == 3
    ensures st.onError.Retry? && 1 <= st.attempts <= 10 ==> Attempts(st) == st.attempts
    ensures st.onError.Retry? && st.attempts > 10 ==> Attempts(st) == 10
  {
  }

  /** The events of the attempts from `k` to `n`. */
  function AttemptEvents(st: Step, c: Ctx, k: nat, n: nat): seq<Event>
    requires k <= n + 1
    decreases n + 1 - k
  {
    if k > n then [] else
    [StepStart(st.id, k), StepEnd(st.id, k, st.exec(c, k).Good?)] + AttemptEvents(st, c, k + 1, n)
  }

  /**
   A step is tried until an answer is not a failure that may be retried, or its attempts are used up: all
   answers before the last are such failures, the last one counts, and every attempt is journalled.
   */
  lemma {:induction false} TriesAre(st: Step, c: Ctx, k: nat) returns (n: nat)
    requires k <= Attempts(st)
    ensures k <= n <= Attempts(st) && forall i :: k <= i < n ==> st.exec(c, i).Bad? && st.exec(c, i).retry
    ensures n < Attempts(st) ==> !(st.exec(c, n).Bad? && st.exec(c, n).retry)
    ensures Tries(st, c, k) == (st.exec(c, n), AttemptEvents(st, c, k, n))
    decreases Attempts(st) - k
  {
    hide Attempts;
    if TryAgain(st.exec(c, k)) && k < Attempts(st) {
      n := TriesAre(st, c, k + 1);
    } else {
      n := k;
      assert AttemptEvents(st, c, k + 1, k) == [] && TryEvents(st, c, k) + [] == TryEvents(st, c, k);
    }
  }

  function Drop(c: Ctx, id: string): Ctx {
    c.(steps := c.steps - {id})
  }

  function SetStep(c: Ctx, id: string, out: map<string, Value>): Ctx {
    c.(steps := c.steps[id := Object(out)])
  }

  /** A failure under the step's policy: with `skip` the step loses its output and the item goes on. */
  function Policy(st: Step, c: Ctx): Flow {
    if st.onError.Skip? then Flow(Drop(c, st.id), Ok(Okay), [StepSkipped(st.id)])
    else Flow(c, Ok(AbortItem), [StepFailed(st.id)])
  }

  function RunStep(st: Step, c: Ctx): Flow {
    if !st.ready(c) then Policy(st, c) else
    var (res, events) := Tries(st, c, 1);
    match res
    case Cancelled => Flow(c, Err(Error(CANCELLED, st.id)), events)
    case Good(None) => Flow(c, Err(Error("contract_output", st.id)), events)
    case Good(Some(out)) => Flow(SetStep(c, st.id, out), Ok(Okay), events)
    case Bad(platform, _) =>
      if platform then Flow(c, Err(Error("platform", st.id)), events)
      else var p := Policy(st, c); p.(trace := events + p.trace)
  }

  function RunFlow(st: Step, c: Ctx): Flow {
    match st.guard(c)
    case Unreadable => Flow(c, Err(Error("when_error", st.id)), [StepSkipped(st.id)])
    case Fails => Flow(c, Ok(Okay), [StepSkipped(st.id)])
    case Holds => RunStep(st, c)
  }

  /** What a failure makes of a step after `tried`: with `skip` it loses its output, otherwise the item is aborted. */
  ghost predicate FailedAfter(st: Step, c: Ctx, tried: seq<Event>, f: Flow) {
    if st.onError.Skip? then f == Flow(c.(steps := c.steps - {st.id}), Ok(Okay), tried + [StepSkipped(st.id)])
    else f == Flow(c, Ok(AbortItem), tried + [StepFailed(st.id)])
  }

  /**
   Everything a step does: it is tried only if its condition holds and its inputs can be assembled, and the
   answer of its last attempt, number `n`, decides on the output, the action and the events.
   */
  lemma {:induction false} FlowOutcome(st: Step, c: Ctx) returns (n: nat)
    ensures n > 0 <==> st.guard(c).Holds? && st.ready(c)
    ensures n <= Attempts(st) && forall i :: 1 <= i < n ==> st.exec(c, i).Bad? && st.exec(c, i).retry
    ensures 0 < n < Attempts(st) ==> !(st.exec(c, n).Bad? && st.exec(c, n).retry)
    ensures var f, tried := RunFlow(st, c), AttemptEvents(st, c, 1, n);
            if n == 0 then
              if st.guard(c).Holds? then FailedAfter(st, c, [], f)
              else f.ctx == c && f.trace == [StepSkipped(st.id)]
                   && f.action == if st.guard(c).Fails? then Ok(Okay) else Err(Error("when_error", st.id))
            else match st.exec(c, n)
              case Good(Some(out)) => f == Flow(SetStep(c, st.id, out), Ok(Okay), tried)
              case Good(None) => f == Flow(c, Err(Error("contract_output", st.id)), tried)
              case Cancelled => f == Flow(c, Err(Error(CANCELLED, st.id)), tried)
              case Bad(platform, _) =>
                if platform then f == Flow(c, Err(Error("platform", st.id)), tried) else FailedAfter(st, c, tried, f)
  {
    n := 0;
    if st.guard(c).Holds? && st.ready(c) {
      n := TriesAre(st, c, 1);
    } else {
      assert [] + [StepSkipped(st.id)] == [StepSkipped(st.id)] && [] + [StepFailed(st.id)] == [StepFailed(st.id)];
    }
  }

  /** A step touches no entry of the context but its own, and an output it leaves there is an object. */
  lemma FlowFrame(st: Step, c: Ctx)
    ensures var f := RunFlow(st, c);
            && f.ctx.input == c.input
            && (forall id :: id != st.id ==> (id in f.ctx.steps <==> id in c.steps))
            && (forall id :: id != st.id && id in c.steps ==> f.ctx.steps[id] == c.steps[id])
            && (f.ctx == c || f.ctx == Drop(c, st.id) || exists out :: f.ctx == SetStep(c, st.id, out))
            && (!(f.action.Ok? && f.action.value.Okay?) ==> f.ctx == c)
            && f.action != Ok(Skipped)
  {
  }

  // --- Segments -----------------------------------------------------------------------

  datatype Segment = Segment(parallel: bool, group: string, steps: seq<Step>)

  /** The number of leading steps that carry group `g`. */
  function GroupLength(steps: seq<Step>, g: string): nat {
    if steps != [] && steps[0].group == g then 1 + GroupLength(steps[1..], g) else 0
  }

  lemma {:induction false} GroupLengthIs(steps: seq<Step>, g: string, n: nat)
    requires n <= |steps| && forall i :: 0 <= i < n ==> steps[i].group == g
    requires n == |steps| || steps[n].group != g
    ensures GroupLength(steps, g) == n
    decreases n
  {
    if n > 0 { GroupLengthIs(steps[1..], g, n - 1); }
  }

  lemma {:induction false} GroupLengthBound(steps: seq<Step>, g: string)
    ensures GroupLength(steps, g) <= |steps|
    ensures forall i :: 0 <= i < GroupLength(steps, g) ==> steps[i].group == g
    ensures GroupLength(steps, g) < |steps| ==> steps[GroupLength(steps, g)].group != g
  {
    if steps != [] && steps[0].group == g {
      GroupLengthBound(steps[1..], g);
      forall i | 0 <= i < GroupLength(steps, g) ensures steps[i].group == g {
        if i > 0 { assert steps[i] == steps[1..][i - 1]; }
      }
    }
  }

  function Segments(steps: seq<Step>): seq<Segment>
    decreases |steps|
  {
    if steps == [] then [] else
    var g := steps[0].group;
    if g == "" then [Segment(false, "", steps[..1])] + Segments(steps[1..])
    else
      GroupLengthBound(steps, g);
      var n := GroupLength(steps, g);
      [Segment(n > 1, g, steps[..n])] + Segments(steps[n..])
  }

  /** The first segment of the steps from `i` on ends at `j`. */
  lemma {:induction false} SegmentsStep(steps: seq<Step>, i: nat, j: nat)
    requires i < j <= |steps|
    requires var g := steps[i].group;
             if g == "" then j == i + 1
             else (forall k :: i <= k < j ==> steps[k].group == g) && (j == |steps| || steps[j].group != g)
    ensures Segments(steps[i..]) == [Segment(j - i > 1, steps[i].group, steps[i..j])] + Segments(steps[j..])
  {
    var rest, g := steps[i..], steps[i].group;
    if g != "" { GroupLengthIs(rest, g, j - i); }
    assert rest[..j - i] == steps[i..j] && rest[j - i..] == steps[j..];
  }

  /** `segs` are the segments of the steps before `i`, and a border is at `i`. */
  ghost predicate SegmentedTo(steps: seq<Step>, i: nat, segs: seq<Segment>) {
    i <= |steps| && segs + Segments(steps[i..]) == Segments(steps)
  }

  lemma SegmentedEnds(steps: seq<Step>, segs: seq<Segment>)
    ensures SegmentedTo(steps, 0, [])
    ensures SegmentedTo(steps, |steps|, segs) ==> segs == Segments(steps)
  {
    assert steps[0..] == steps && segs + [] == segs;
  }

  lemma SegmentedStep(steps: seq<Step>, i: nat, j: nat, segs: seq<Segment>)
    requires SegmentedTo(steps, i, segs) && i < j <= |steps|
    requires var g := steps[i].group;
             if g == "" then j == i + 1
             else (forall k :: i <= k < j ==> steps[k].group == g) && (j == |steps| || steps[j].group != g)
    ensures SegmentedTo(steps, j, segs + [Segment(j - i > 1, steps[i].group, steps[i..j])])
  {
    SegmentsStep(steps, i, j);
    hide Segments;
    Assoc(segs, [Segment(j - i > 1, steps[i].group, steps[i..j])], Segments(steps[j..]));
  }

  method SegmentSteps(steps: seq<Step>) returns (segs: seq<Segment>)
    ensures segs == Segments(steps)
  {
    hide Segments, SegmentedTo;
    segs := [];
    var i := 0;
    SegmentedEnds(steps, []);
    while i < |steps|
      invariant i <= |steps| && SegmentedTo(steps, i, segs)
    {
      var g := steps[i].group;
      var j := i;
      if g != "" {
        while j < |steps| && steps[j].group == g
          invariant i <= j <= |steps| && forall k :: i <= k < j ==> steps[k].group == g
        {
          j := j + 1;
        }
      } else {
        j := i + 1;
      }
      SegmentedStep(steps, i, j, segs);
      segs := segs + [Segment(j - i > 1, g, steps[i..j])];
      i := j;
    }
    SegmentedEnds(steps, segs);
  }

  function Flatten(segs: seq<Segment>): seq<Step> {
    if segs == [] then [] else segs[0].steps + Flatten(segs[1..])
  }

  /** A segment is parallel exactly when it holds two steps or more, and then all are of one named group. */
  ghost predicate WellFormed(seg: Segment) {
    && seg.steps != [] && (seg.parallel <==> |seg.steps| > 1)
    && (seg.parallel ==> seg.group != "" && forall k :: 0 <= k < |seg.steps| ==> seg.steps[k].group == seg.group)
  }

  ghost predicate WellSegmented(segs: seq<Segment>) {
    forall i :: 0 <= i < |segs| ==> WellFormed(segs[i])
  }

  /** Neighbouring segments are never of one group. */
  ghost predicate Bordered(segs: seq<Segment>) {
    forall i :: 0 < i < |segs| && segs[i].group != "" ==> segs[i - 1].group != segs[i].group
  }

  lemma {:induction false} SegmentsHead(steps: seq<Step>)
    requires steps != []
    ensures var segs := Segments(steps);
            && segs != [] && segs[0].group == steps[0].group && WellFormed(segs[0])
            && 0 < |segs[0].steps| <= |steps| && segs[0].steps == steps[..|segs[0].steps|]
            && segs[1..] == Segments(steps[|segs[0].steps|..])
            && (segs[0].group != "" && |segs[0].steps| < |steps| ==> steps[|segs[0].steps|].group != segs[0].group)
  {
    GroupLengthBound(steps, steps[0].group);
  }

  /** Segmentation keeps every step in its place, and splits at exactly the borders of the groups. */
  lemma {:induction false} SegmentsPartition(steps: seq<Step>)
    ensures Flatten(Segments(steps)) == steps && WellSegmented(Segments(steps)) && Bordered(Segments(steps))
    decreases |steps|
  {
    hide WellFormed;
    if steps != [] {
      SegmentsHead(steps);
      var segs := Segments(steps);
      var n := |segs[0].steps|;
      SegmentsPartition(steps[n..]);
      assert segs == [segs[0]] + segs[1..] && steps == steps[..n] + steps[n..];
      if n < |steps| { SegmentsHead(steps[n..]); }
      forall i | 0 <= i < |segs| ensures WellFormed(segs[i]) {
        if i > 0 { assert segs[i] == segs[1..][i - 1]; }
      }
      forall i | 0 < i < |segs| && segs[i].group != "" ensures segs[i - 1].group != segs[i].group {
        if i > 1 { assert segs[i] == segs[1..][i - 1] && segs[i - 1] == segs[1..][i - 2]; }
        else { assert segs[1] == segs[1..][0]; }
      }
    }
  }

  // --- Parallel groups ----------------------------------------------------------------

  /** What a branch hands to the barrier: its own output if it left an object there. */
  function Output(c: Ctx, id: string): Option<map<string, Value>> {
    if id in c.steps && c.steps[id].Object? then Some(c.steps[id].fields) else None
  }

  predicate Halts(f: Flow) {
    f.action.Err? || f.action.value.AbortItem?
  }

  /** The error a branch ends its group with: its own, or that it aborted. */
  function BranchError(st: Step, action: Result<Action, Error>): Error {
    match action case Err(e) => e case Ok(_) => Error("run_error", st.id)
  }

  /** The first branch that fails or aborts. */
  function FirstHalt(steps: seq<Step>, c: Ctx): Option<Error> {
    if steps == [] then None
    else if Halts(RunFlow(steps[0], c)) then Some(BranchError(steps[0], RunFlow(steps[0], c).action))
    else FirstHalt(steps[1..], c)
  }

  /** The error of a group is that of its first branch in the list that fails or aborts. */
  lemma {:induction false} FirstHaltIs(steps: seq<Step>, c: Ctx, i: nat)
    requires i < |steps| && forall k :: 0 <= k < i ==> !Halts(RunFlow(steps[k], c))
    ensures Halts(RunFlow(steps[i], c)) ==>
              FirstHalt(steps, c) == Some(BranchError(steps[i], RunFlow(steps[i], c).action))
    ensures !Halts(RunFlow(steps[i], c)) && i == |steps| - 1 ==> FirstHalt(steps, c) == None
  {
    hide RunFlow;
    if i > 0 { FirstHaltIs(steps[1..], c, i - 1); }
  }

  /** The outputs of all branches, each run on its own copy of `c`, written into `into` in list order. */
  function Merge(steps: seq<Step>, c: Ctx, into: Ctx): Ctx {
    if steps == [] then into else
    var out := Output(RunFlow(steps[0], c).ctx, steps[0].id);
    Merge(steps[1..], c, if out.Some? then SetStep(into, steps[0].id, out.value) else into)
  }

  function GroupActions(steps: seq<Step>, c: Ctx): seq<Action> {
    if steps == [] then [] else
    [if Output(RunFlow(steps[0], c).ctx, steps[0].id).Some? then Okay else Skipped] + GroupActions(steps[1..], c)
  }

  /** The branches' events one branch after another; the order in the journal is any interleaving of them. */
  function BranchEvents(steps: seq<Step>, c: Ctx): seq<Event> {
    if steps == [] then [] else RunFlow(steps[0], c).trace + BranchEvents(steps[1..], c)
  }

  datatype RunResult = RunResult(ctx: Ctx, actions: seq<Action>, error: Option<Error>, trace: seq<Event>)

  function RunGroup(seg: Segment, c: Ctx): RunResult {
    if |seg.steps| > MAX_PARALLEL_WIDTH then RunResult(c, [], Some(Error("resource_limit", seg.group)), []) else
    var events := [ParallelStart(seg.group)] + BranchEvents(seg.steps, c);
    var halt := FirstHalt(seg.steps, c);
    if halt.Some? then RunResult(c, [], halt, events) else
    var c' := Merge(seg.steps, c, c);
    RunResult(c', GroupActions(seg.steps, c), None, events + [Saved(c'), ParallelEnd(seg.group)])
  }

  // --- All segments -------------------------------------------------------------------

  /** A group is skipped only when all its steps are. */
  predicate SegmentDone(seg: Segment, skip: set<string>) {
    skip != {} && seg.steps != [] && forall k :: 0 <= k < |seg.steps| ==> seg.steps[k].id in skip
  }

  function RunOne(seg: Segment, c: Ctx, skip: set<string>): RunResult
    requires WellFormed(seg)
  {
    if seg.parallel then
      if SegmentDone(seg, skip) then RunResult(c, [], None, []) else RunGroup(seg, c)
    else if seg.steps[0].id in skip then RunResult(c, [], None, [])
    else
      var f := RunFlow(seg.steps[0], c);
      match f.action
      case Err(e) => RunResult(f.ctx, [], Some(e), f.trace)
      case Ok(action) => RunResult(f.ctx, [action], None, f.trace)
  }

  /** The run ends here: with an error, or because a single step stopped the item. */
  predicate Stops(r: RunResult) {
    r.error.Some? || (r.actions != [] && r.actions[|r.actions| - 1].AbortItem?)
  }

  function RunSegments(segs: seq<Segment>, c: Ctx, skip: set<string>): RunResult
    requires WellSegmented(segs)
    decreases |segs|
  {
    if segs == [] then RunResult(c, [], None, []) else
    var one := RunOne(segs[0], c, skip);
    if Stops(one) then one else Then(one, RunSegments(segs[1..], one.ctx, skip))
  }

  function Then(a: RunResult, b: RunResult): RunResult {
    b.(actions := a.actions + b.actions, trace := a.trace + b.trace)
  }

  /** The run finds itself cancelled when it looks before segment `limit`, should it get there. */
  function RunUntil(segs: seq<Segment>, c: Ctx, skip: set<string>, limit: nat): RunResult
    requires WellSegmented(segs)
  {
    if limit >= |segs| then RunSegments(segs, c, skip) else
    var r := RunSegments(segs[..limit], c, skip);
    if Stops(r) then r else r.(error := Some(Error(CANCELLED, "")))
  }

  lemma RunUntilStep(segs: seq<Segment>, c: Ctx, skip: set<string>, limit: nat)
    requires WellSegmented(segs) && segs != []
    ensures limit == 0 ==> RunUntil(segs, c, skip, limit) == RunResult(c, [], Some(Error(CANCELLED, "")), [])
    ensures var one := RunOne(segs[0], c, skip);
            limit > 0 ==> RunUntil(segs, c, skip, limit) ==
                            if Stops(one) then one else Then(one, RunUntil(segs[1..], one.ctx, skip, limit - 1))
  {
    hide RunOne, WellFormed;
    if 0 < limit < |segs| {
      assert segs[..limit][0] == segs[0] && segs[..limit][1..] == segs[1..][..limit - 1];
    }
  }

  // --- The engine's methods -----------------------------------------------------------

  class Context {
    var data: Ctx

    constructor (data: Ctx)
      ensures this.data == data
    {
      this.data := data;
    }
  }

  /** Everything a run has written so far. */
  class Journal {
    var trace: seq<Event>

    constructor ()
      ensures trace == []
    {
      trace := [];
    }

    method Event(e: Event)
      modifies this
      ensures trace == old(trace) + [e]
    {
      trace := trace + [e];
    }
  }

  method FailByPolicy(st: Step, ctx: Context, j: Journal) returns (r: Result<Action, Error>)
    modifies ctx, j
    ensures Flow(ctx.data, r, j.trace) == var p := Policy(st, old(ctx.data)); p.(trace := old(j.trace) + p.trace)
  {
    if st.onError.Skip? {
      j.Event(StepSkipped(st.id));
      ctx.data := Drop(ctx.data, st.id);
      return Ok(Okay);
    }
    j.Event(StepFailed(st.id));
    return Ok(AbortItem);
  }

  method DoRunStep(st: Step, ctx: Context, j: Journal) returns (r: Result<Action, Error>)
    modifies ctx, j
    ensures Flow(ctx.data, r, j.trace) == var f := RunStep(st, old(ctx.data)); f.(trace := old(j.trace) + f.trace)
  {
    if !st.ready(ctx.data) {
      r := FailByPolicy(st, ctx, j);
      return;
    }
    var attempts := Attempts(st);
    var attempt := 1;
    var res := st.exec(ctx.data, 1);
    ghost var c, before := ctx.data, j.trace;
    while true
      invariant 1 <= attempt <= attempts && ctx.data == c
      invariant res == st.exec(c, attempt)
      invariant Tries(st, c, 1).0 == Tries(st, c, attempt).0
      invariant before + Tries(st, c, 1).1 == j.trace + Tries(st, c, attempt).1
      decreases attempts - attempt
    {
      j.Event(StepStart(st.id, attempt));
      j.Event(StepEnd(st.id, attempt, res.Good?));
      if res.Cancelled? { return Err(Error(CANCELLED, st.id)); }
      if !TryAgain(res) || attempt == attempts { break; }
      attempt := attempt + 1;
      res := st.exec(ctx.data, attempt);
    }
    assert j.trace == before + Tries(st, c, 1).1;
    if res.Good? {
      if res.out.None? { return Err(Error("contract_output", st.id)); }
      ctx.data := SetStep(ctx.data, st.id, res.out.value);
      return Ok(Okay);
    }
    if res.platform { return Err(Error("platform", st.id)); }
    r := FailByPolicy(st, ctx, j);
  }

  method DoRunFlow(st: Step, ctx: Context, j: Journal) returns (r: Result<Action, Error>)
    modifies ctx, j
    ensures Flow(ctx.data, r, j.trace) == var f := RunFlow(st, old(ctx.data)); f.(trace := old(j.trace) + f.trace)
  {
    var g := st.guard(ctx.data);
    if g.Unreadable? {
      j.Event(StepSkipped(st.id));
      return Err(Error("when_error", st.id));
    }
    if g.Fails? {
      j.Event(StepSkipped(st.id));
      return Ok(Okay);
    }
    r := DoRunStep(st, ctx, j);
  }

  datatype Branch = Branch(st: Step, out: Option<map<string, Value>>, action: Result<Action, Error>)

  /** `b` is what the branch of step `st` hands to the barrier when it starts from `c`. */
  ghost predicate BranchOf(b: Branch, st: Step, c: Ctx) {
    b.st == st && b.action == RunFlow(st, c).action && b.out == Output(RunFlow(st, c).ctx, st.id)
  }

  /** Each branch on its own copy of the context; the shared one is not touched before the barrier. */
  method RunBranches(steps: seq<Step>, c: Ctx, j: Journal) returns (outs: seq<Branch>)
    modifies j
    ensures |outs| == |steps|
    ensures forall i :: 0 <= i < |steps| ==> BranchOf(outs[i], steps[i], c)
    ensures j.trace == old(j.trace) + BranchEvents(steps, c)
  {
    outs := [];
    assert steps[0..] == steps;
    for i := 0 to |steps|
      invariant |outs| == i
      invariant forall k :: 0 <= k < i ==> BranchOf(outs[k], steps[k], c)
      invariant j.trace + BranchEvents(steps[i..], c) == old(j.trace) + BranchEvents(steps, c)
    {
      hide RunFlow;
      var bctx := new Context(c);
      assert steps[i..][1..] == steps[i + 1..];
      ghost var before := j.trace;
      var action := DoRunFlow(steps[i], bctx, j);
      Assoc(before, RunFlow(steps[i], c).trace, BranchEvents(steps[i + 1..], c));
      outs := outs + [Branch(steps[i], Output(bctx.data, steps[i].id), action)];
    }
  }

  /** The barrier: writes the outputs of all branches into the shared context, in list order. */
  method MergeOutputs(ghost steps: seq<Step>, ghost c: Ctx, outs: seq<Branch>, ctx: Context)
    returns (actions: seq<Action>)
    requires |outs| == |steps| && forall i :: 0 <= i < |steps| ==> BranchOf(outs[i], steps[i], c)
    modifies ctx
    ensures ctx.data == Merge(steps, c, old(ctx.data)) && actions == GroupActions(steps, c)
  {
    hide RunFlow;
    actions := [];
    assert steps[0..] == steps;
    for i := 0 to |outs|
      invariant Merge(steps, c, old(ctx.data)) == Merge(steps[i..], c, ctx.data)
      invariant actions + GroupActions(steps[i..], c) == GroupActions(steps, c)
    {
      assert steps[i..][1..] == steps[i + 1..] && BranchOf(outs[i], steps[i], c);
      if outs[i].out.Some? {
        ctx.data := SetStep(ctx.data, outs[i].st.id, outs[i].out.value);
        actions := actions + [Okay];
      } else {
        actions := actions + [Skipped];
      }
    }
  }

  method DoRunGroup(seg: Segment, ctx: Context, j: Journal) returns (actions: seq<Action>, error: Option<Error>)
    modifies ctx, j
    ensures RunResult(ctx.data, actions, error, j.trace) ==
            var g := RunGroup(seg, old(ctx.data)); g.(trace := old(j.trace) + g.trace)
  {
    hide RunFlow, Merge, GroupActions, BranchEvents;
    if |seg.steps| > MAX_PARALLEL_WIDTH { return [], Some(Error("resource_limit", seg.group)); }
    var steps := seg.steps;
    ghost var c := ctx.data;
    j.Event(ParallelStart(seg.group));
    var outs := RunBranches(steps, ctx.data, j);
    assert steps[0..] == steps;
    for i := 0 to |outs|
      invariant FirstHalt(steps, c) == FirstHalt(steps[i..], c)
    {
      assert steps[i..][1..] == steps[i + 1..] && BranchOf(outs[i], steps[i], c);
      if outs[i].action.Err? || outs[i].action.value.AbortItem? {
        return [], Some(BranchError(outs[i].st, outs[i].action));
      }
    }
    actions := MergeOutputs(steps, c, outs, ctx);
    j.Event(Saved(ctx.data));
    j.Event(ParallelEnd(seg.group));
    error := None;
  }

  method DoRunOne(seg: Segment, ctx: Context, j: Journal, skip: set<string>)
    returns (actions: seq<Action>, error: Option<Error>)
    requires WellFormed(seg)
    modifies ctx, j
    ensures RunResult(ctx.data, actions, error, j.trace) ==
            var r := RunOne(seg, old(ctx.data), skip); r.(trace := old(j.trace) + r.trace)
  {
    hide RunFlow, RunGroup;
    if seg.parallel {
      if SegmentDone(seg, skip) { return [], None; }
      actions, error := DoRunGroup(seg, ctx, j);
      return;
    }
    var st := seg.steps[0];
    if st.id in skip { return [], None; }
    var action := DoRunFlow(st, ctx, j);
    if action.Err? { return [], Some(action.error); }
    return [action.value], None;
  }

  /** The run of the segments from number `i` on. */
  ghost function RunFrom(segs: seq<Segment>, i: nat, c: Ctx, skip: set<string>, limit: nat): RunResult
    requires WellSegmented(segs) && i <= |segs| && i <= limit
  {
    RunUntil(segs[i..], c, skip, limit - i)
  }

  lemma RunFromStep(segs: seq<Segment>, i: nat, c: Ctx, skip: set<string>, limit: nat)
    requires WellSegmented(segs) && i <= |segs| && i <= limit
    ensures i == 0 ==> RunFrom(segs, i, c, skip, limit) == RunUntil(segs, c, skip, limit)
    ensures i == |segs| ==> RunFrom(segs, i, c, skip, limit) == RunResult(c, [], None, [])
    ensures i < |segs| && i == limit ==>
              RunFrom(segs, i, c, skip, limit) == RunResult(c, [], Some(Error(CANCELLED, "")), [])
    ensures i < |segs| && i < limit ==>
              var one := RunOne(segs[i], c, skip);
              RunFrom(segs, i, c, skip, limit) ==
              if Stops(one) then one else Then(one, RunFrom(segs, i + 1, one.ctx, skip, limit))
  {
    hide RunOne, WellFormed;
    assert segs[0..] == segs;
    if i < |segs| {
      assert segs[i..][0] == segs[i] && segs[i..][1..] == segs[i + 1..];
      RunUntilStep(segs[i..], c, skip, limit - i);
    }
  }

  /** Runs the segments one after another; actions come in the order of the steps that were not skipped. */
  method DoRunSegments(steps: seq<Step>, ctx: Context, j: Journal, skip: set<string>, limit: nat)
    returns (actions: seq<Action>, error: Option<Error>)
    modifies ctx, j
    ensures WellSegmented(Segments(steps))
    ensures RunResult(ctx.data, actions, error, j.trace) ==
            var r := RunUntil(Segments(steps), old(ctx.data), skip, limit);
            r.(trace := old(j.trace) + r.trace)
  {
    hide RunOne, RunUntil, RunFrom, Segments, WellFormed, Resumed, Then;
    SegmentsPartition(steps);
    var segs := SegmentSteps(steps);
    actions := [];
    RunFromStep(segs, 0, ctx.data, skip, limit);
    ghost var whole := Resumed([], j.trace, RunUntil(segs, ctx.data, skip, limit));
    ResumedStart(j.trace, RunUntil(segs, ctx.data, skip, limit));
    for i := 0 to |segs|
      invariant i <= limit
      invariant Resumed(actions, j.trace, RunFrom(segs, i, ctx.data, skip, limit)) == whole
    {
      RunFromStep(segs, i, ctx.data, skip, limit);
      if i == limit {
        ResumedOne(actions, j.trace, RunFrom(segs, i, ctx.data, skip, limit));
        return actions, Some(Error(CANCELLED, ""));
      }
      ghost var c, was, acts := ctx.data, j.trace, actions;
      var segActions, segError := DoRunOne(segs[i], ctx, j, skip);
      actions := actions + segActions;
      ResumedOne(acts, was, RunOne(segs[i], c, skip));
      if segError.Some? || (segActions != [] && segActions[|segActions| - 1].AbortItem?) {
        return actions, segError;
      }
      ResumedThen(acts, was, RunOne(segs[i], c, skip), RunFrom(segs, i + 1, ctx.data, skip, limit));
    }
    RunFromStep(segs, |segs|, ctx.data, skip, limit);
    ResumedOne(actions, j.trace, RunFrom(segs, |segs|, ctx.data, skip, limit));
    return actions, None;
  }

  /** A result that follows on earlier actions and an earlier trace. */
  ghost function Resumed(actions: seq<Action>, trace: seq<Event>, r: RunResult): RunResult {
    r.(actions := actions + r.actions, trace := trace + r.trace)
  }

  lemma ResumedThen(actions: seq<Action>, trace: seq<Event>, a: RunResult, b: RunResult)
    ensures Resumed(actions, trace, Then(a, b)) == Resumed(actions + a.actions, trace + a.trace, b)
  {
    Assoc(actions, a.actions, b.actions);
    Assoc(trace, a.trace, b.trace);
  }

  lemma ResumedOne(actions: seq<Action>, trace: seq<Event>, r: RunResult)
    ensures Resumed(actions, trace, r) == RunResult(r.ctx, actions + r.actions, r.error, trace + r.trace)
    ensures r.actions == [] && r.trace == [] ==> Resumed(actions, trace, r) == RunResult(r.ctx, actions, r.error, trace)
  {
    assert actions + [] == actions && trace + [] == trace;
  }

  lemma ResumedStart(trace: seq<Event>, r: RunResult)
    ensures Resumed([], trace, r) == r.(trace := trace + r.trace)
  {
    assert [] + r.actions == r.actions;
  }
}

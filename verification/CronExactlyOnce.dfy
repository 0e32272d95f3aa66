/**
 Whole ticks of the daemon: the object that performs them, and exactly-once execution of every
 slot when the ticks are timely and the writes succeed.
 */
module CronExactlyOnce {
  import opened Base
  import opened CronNext
  import opened CronDaemon
  import Q = SlotQueue

  /** What a tick finds for one pipeline file, and what the environment answers while it is handled. */
  datatype Visit = Visit(file: string, sched: Sched, held: bool, last: Option<int>, readable: bool, d1: nat,
                         w1: Q.Write, failed: bool, d2: nat, w2: Q.Write)

  function VisitLabels(v: Visit): seq<Label> {
    [Consider(v.file, v.sched, v.held, v.last, v.readable, v.d1, v.w1), Finish(v.failed, v.d2, v.w2)]
  }

  function VisitsLabels(visits: seq<Visit>): seq<Label> {
    if visits == [] then [] else VisitLabels(visits[0]) + VisitsLabels(visits[1..])
  }

  /** A whole tick: read the clock once, then handle file after file. */
  function TickLabels(d: nat, visits: seq<Visit>): seq<Label> {
    [Tick(d)] + VisitsLabels(visits)
  }

  lemma {:induction false} VisitsLabelsSnoc(visits: seq<Visit>, v: Visit)
    ensures VisitsLabels(visits + [v]) == VisitsLabels(visits) + VisitLabels(v)
  {
    if visits == [] {
      assert [] + [v] == [v] && [v][1..] == [];
    } else {
      assert (visits + [v])[1..] == visits[1..] + [v];
      VisitsLabelsSnoc(visits[1..], v);
    }
  }

  lemma RunTwo(s: Sys, a: Label, b: Label)
    ensures Run(s, [a, b]) == Step(Step(s, a), b)
  {
    assert [a, b][1..] == [b] && [b][1..] == [];
    assert Run(Step(s, a), [b]) == Run(Step(Step(s, a), b), []);
  }

  // --- The daemon object --------------------------------------------------------------

  class Daemon {
    const file: Q.StateFile
    var queue: Q.Queue?
    var clock: int
    var starts: seq<Start>

    constructor (file: Q.StateFile, clock: int)
      ensures this.file == file && queue == null && this.clock == clock && starts == []
    {
      this.file, queue, this.clock, starts := file, null, clock, [];
    }

    ghost predicate Valid()
      reads this, queue
    {
      queue != null ==> queue.file == file
    }

    /** The daemon between two ticks, as a state of the step system. */
    ghost function Value(tick: Option<int>, running: Option<string>): Sys
      requires Valid()
      reads this, file, queue
    {
      var mem := if queue == null then None else Some(Mem(Q.Disk(queue.tasks, queue.claims), queue.fault));
      Sys(file.content, Ready, mem, tick, running, clock, 0, starts)
    }

    /** Opens the slot queue if it is not open yet; false when it stays closed. */
    method EnsureQueue(readable: bool, ghost tick: Option<int>) returns (ok: bool)
      requires Valid()
      modifies this`queue
      ensures Valid() && Value(tick, None) == OpenQueue(old(Value(tick, None)), readable)
      ensures ok <==> queue != null
      ensures old(queue) != null ==> queue == old(queue)
      ensures queue != null && old(queue) == null ==> fresh(queue)
    {
      if queue != null { return true; }
      if !readable || !Q.OpenChecks(file.content) { return false; }
      queue := new Q.Queue(file);
      return true;
    }

    /** The slot a tick that began at `now` presents for one file; `last` is the saved time of its last run. */
    method SlotFor(sched: Sched, held: bool, last: Option<int>, now: int) returns (slot: Option<int>)
      ensures slot == Presented(sched, held, last, now)
      ensures forall t :: slot == Some(t) <==> Due(sched, held, last, now, t)
    {
      hide NextAfter, Due;
      PresentedIsDue(sched, held, last, now);
      if !sched.enabled { return None; }
      var next := Next(sched.matches, now - MINUTE);
      if next.None? { return None; }
      if held && (sched.overlap == "" || sched.overlap == "skip" || sched.overlap == "queue") { return None; }
      var shouldRun := next.value > now - MINUTE && next.value < now + 5 * SECOND;
      if !shouldRun && sched.catchUp && last.Some? {
        var expected := Next(sched.matches, last.value + MINUTE);
        if expected.Some? && expected.value < now && expected.value > last.value - 5 * MINUTE { shouldRun := true; }
      }
      return if shouldRun then next else None;
    }

    /** Claims a slot; the answer is the key of a run that now begins. */
    method OfferSlot(v: Visit, slot: int, ghost now: int) returns (key: Option<string>)
      requires Valid() && queue != null
      modifies this`clock, this`starts, file, queue
      ensures Valid() && Value(Some(now), key) ==
              DoOffer(old(Value(Some(now), None)), v.file, slot, old(clock) + v.d1, v.w1)
    {
      var k := SlotKey(v.file, slot);
      clock := clock + v.d1;
      var claimed := queue.DoClaim(k, v.file, clock, v.w1);
      if !claimed.Granted? { return None; }
      starts := starts + [Start(v.file, slot, k)];
      return Some(k);
    }

    /** Offers the slot of a file to the queue, if the file has one. */
    method Offer(v: Visit, now: int) returns (key: Option<string>)
      requires Valid()
      modifies this, file, queue
      ensures Valid() && Value(Some(now), key) == Step(old(Value(Some(now), None)), VisitLabels(v)[0])
      ensures key.Some? ==> queue != null
      ensures old(queue) != null ==> queue == old(queue)
      ensures queue != null && old(queue) == null ==> fresh(queue)
    {
      hide DoOffer, OpenQueue, Presented;
      var slot := SlotFor(v.sched, v.held, v.last, now);
      if slot.None? { return None; }
      var ok := EnsureQueue(v.readable, Some(now));
      if !ok { return None; }
      key := OfferSlot(v, slot.value, now);
    }

    /** Runs and releases the slot just claimed. */
    method Conclude(v: Visit, now: int, key: string)
      requires Valid() && queue != null
      modifies this`clock, file, queue
      ensures Valid() && Value(Some(now), None) == Step(old(Value(Some(now), Some(key))), VisitLabels(v)[1])
    {
      clock := clock + v.d2;
      var _ := queue.DoRelease(key, if v.failed then Q.Failed else Q.Done, clock, v.w2);
    }

    /** One file of a tick that began at `now`: present its slot, and if it is granted run it and release it. */
    method HandleFile(v: Visit, now: int)
      requires Valid()
      modifies this, file, queue
      ensures Valid() && Value(Some(now), None) == Run(old(Value(Some(now), None)), VisitLabels(v))
      ensures old(queue) != null ==> queue == old(queue)
      ensures queue != null && old(queue) == null ==> fresh(queue)
    {
      RunTwo(Value(Some(now), None), VisitLabels(v)[0], VisitLabels(v)[1]);
      var key := Offer(v, now);
      if key.Some? { Conclude(v, now, key.value); }
    }

    /** A tick runs exactly the steps of the system for the files in their order. */
    method DoTick(d: nat, visits: seq<Visit>)
      requires Valid()
      modifies this, file, queue
      ensures Valid()
      ensures Value(Some(old(clock) + d), None) == Run(old(Value(None, None)), TickLabels(d, visits))
    {
      ghost var s := Value(None, None);
      clock := clock + d;
      var now := clock;
      ghost var s1 := Value(Some(now), None);
      assert s1 == Step(s, Tick(d));
      ghost var q0 := queue;
      for i := 0 to |visits|
        invariant Valid() && Value(Some(now), None) == Run(s1, VisitsLabels(visits[..i]))
        invariant q0 != null ==> queue == q0
        invariant queue != null && q0 == null ==> fresh(queue)
      {
        HandleFile(visits[i], now);
        assert visits[..i + 1] == visits[..i] + [visits[i]];
        VisitsLabelsSnoc(visits[..i], visits[i]);
        RunAppend(s1, VisitsLabels(visits[..i]), VisitLabels(visits[i]));
      }
      assert visits[..|visits|] == visits;
      assert TickLabels(d, visits)[1..] == VisitsLabels(visits);
    }
  }

  // --- Exactly once -------------------------------------------------------------------

  /** The delay before a tick, and what it visits. */
  datatype TickIn = TickIn(d: nat, visits: seq<Visit>)

  function RunTicks(s: Sys, ticks: seq<TickIn>): Sys
    decreases |ticks|
  {
    if ticks == [] then s else RunTicks(Run(s, TickLabels(ticks[0].d, ticks[0].visits)), ticks[1..])
  }

  /** Every write of the visit succeeds. */
  predicate Succeeds(v: Visit) {
    v.w1.Committed? && v.w2.Committed?
  }

  /** The tick looks at `file` under a schedule that matches by `matches`, with no running lock held. */
  ghost predicate Covers(visits: seq<Visit>, file: string, matches: int -> bool) {
    && (forall i :: 0 <= i < |visits| ==> Succeeds(visits[i]))
    && exists i :: 0 <= i < |visits| && visits[i].file == file && !visits[i].held
                   && visits[i].sched.enabled && visits[i].sched.matches == matches
  }

  /** Every tick covers `file`, and a tick begins at most a minute after the one before it began. */
  ghost predicate Timely(s: Sys, ticks: seq<TickIn>, file: string, matches: int -> bool)
    decreases |ticks|
  {
    ticks == [] ||
    (var s' := Run(s, TickLabels(ticks[0].d, ticks[0].visits));
     && Covers(ticks[0].visits, file, matches)
     && (|ticks| > 1 ==> s'.clock + ticks[1].d <= s.clock + ticks[0].d + MINUTE)
     && Timely(s', ticks[1..], file, matches))
  }

  /** When the last of the ticks begins. */
  function LastTick(s: Sys, ticks: seq<TickIn>): int
    requires ticks != []
    decreases |ticks|
  {
    if |ticks| == 1 then s.clock + ticks[0].d
    else LastTick(Run(s, TickLabels(ticks[0].d, ticks[0].visits)), ticks[1..])
  }

  /** The daemon is up with a trusted queue, between two runs. */
  ghost predicate Healthy(s: Sys) {
    s.phase.Ready? && s.running.None? && s.queue.Some? && !s.queue.value.fault
    && s.queue.value.state == s.disk && Q.Sound(s.disk)
  }

  ghost predicate Started(s: Sys, file: string, slot: int) {
    Start(file, slot, SlotKey(file, slot)) in s.starts
  }

  /** The slot was started, or its claim is still free. */
  ghost predicate Open(s: Sys, file: string, slot: int) {
    Started(s, file, slot) || SlotKey(file, slot) !in s.disk.claims
  }

  lemma OfferHealthy(s: Sys, f: string, n: int, now: int, s': Sys, key: string, st: Start)
    requires Healthy(s) && s' == DoOffer(s, f, n, now, Q.Committed)
    requires st.key == key && (SlotKey(f, n) == key ==> st == Start(f, n, key))
    ensures s'.phase.Ready? && s'.queue.Some? && !s'.queue.value.fault && s'.queue.value.state == s'.disk &&
            Q.Sound(s'.disk)
    ensures s'.tick == s.tick && (s'.running.Some? ==> s'.running.value in s'.disk.claims)
    ensures s'.starts == s.starts || s'.starts == s.starts + [Start(f, n, SlotKey(f, n))]
    ensures (st in s'.starts || key !in s'.disk.claims) <==> (st in s.starts || key !in s.disk.claims)
    ensures |f| > 0 && SlotKey(f, n) == key && (st in s.starts || key !in s.disk.claims) ==> st in s'.starts
  {
    Q.ClaimSound(StoreOf(s), SlotKey(f, n), f, now, Q.Committed);
    assert |SlotKey(f, n)| > 0;
  }

  lemma FinishHealthy(s: Sys, l: Label, s': Sys)
    requires l.Finish? && l.w.Committed? && s.queue.Some? && !s.queue.value.fault && s.queue.value.state == s.disk &&
             Q.Sound(s.disk)
    requires s.phase.Ready? && s' == Step(s, l)
    ensures Healthy(s') && s'.starts == s.starts && s'.disk.claims == s.disk.claims && s'.tick == s.tick
  {
    hide SlotKey, Q.Sound, DoConsider, DoMark, DoTrim, DoBoot;
    if s.running.Some? {
      Q.ReleaseSound(StoreOf(s), s.running.value, if l.failed then Q.Failed else Q.Done, s.clock + l.d, l.w);
    }
  }

  /** The slot of this file is due at the visit. */
  ghost predicate Shows(v: Visit, now: int, file: string, slot: int) {
    v.file == file && Due(v.sched, v.held, v.last, now, slot)
  }

  ghost predicate AnyShows(visits: seq<Visit>, now: int, file: string, slot: int) {
    exists i :: 0 <= i < |visits| && Shows(visits[i], now, file, slot)
  }

  /** One visit keeps the daemon healthy and a slot open or shut, and starts an open slot when it is due. */
  lemma VisitHealthy(s: Sys, v: Visit, file: string, slot: int)
    requires Healthy(s) && s.tick.Some? && Succeeds(v) && slot % MINUTE == 0
    ensures var s' := Run(s, VisitLabels(v));
            && Healthy(s') && s'.tick == s.tick && (Open(s', file, slot) <==> Open(s, file, slot))
            && (Started(s, file, slot) ==> Started(s', file, slot))
            && (Open(s, file, slot) && |file| > 0 && Shows(v, s.tick.value, file, slot) ==> Started(s', file, slot))
  {
    hide SlotKey, DoOffer, Presented, Due, Q.Sound, DoFinish;
    PresentedIff(v.sched, v.held, v.last, s.tick.value, slot);
    var a, b := VisitLabels(v)[0], VisitLabels(v)[1];
    RunTwo(s, a, b);
    var p := Presented(v.sched, v.held, v.last, s.tick.value);
    var s1 := Step(s, a);
    if p.Some? {
      PresentedRange(v.sched, v.held, v.last, s.tick.value);
      var key := SlotKey(file, slot);
      if SlotKey(v.file, p.value) == key { SlotKeyInjective(v.file, p.value, file, slot); }
      OfferHealthy(s, v.file, p.value, s.clock + v.d1, s1, key, Start(file, slot, key));
    }
    FinishHealthy(s1, b, Step(s1, b));
  }

  /** A run that begins at a visit ends with the outcome of its pipeline on file. */
  lemma VisitReleases(s: Sys, v: Visit)
    requires Healthy(s) && s.tick.Some? && Succeeds(v) && Run(s, VisitLabels(v)).starts != s.starts
    ensures var s' := Run(s, VisitLabels(v));
            && |s'.starts| == |s.starts| + 1 && s.starts <= s'.starts
            && var key := s'.starts[|s.starts|].key;
               && key in s'.disk.claims && key in s'.disk.tasks
               && s'.disk.tasks[key].status == (if v.failed then Q.Failed else Q.Done)
  {
    hide SlotKey, Presented, Q.Sound;
    var a, b := VisitLabels(v)[0], VisitLabels(v)[1];
    RunTwo(s, a, b);
  }

  lemma {:induction false} VisitsHealthy(s: Sys, visits: seq<Visit>, file: string, slot: int)
    requires Healthy(s) && s.tick.Some? && slot % MINUTE == 0
    requires forall i :: 0 <= i < |visits| ==> Succeeds(visits[i])
    ensures var s' := Run(s, VisitsLabels(visits));
            && Healthy(s') && (Open(s', file, slot) <==> Open(s, file, slot))
            && (Started(s, file, slot) ==> Started(s', file, slot))
            && (Open(s, file, slot) && |file| > 0 && AnyShows(visits, s.tick.value, file, slot) ==>
                Started(s', file, slot))
    decreases |visits|
  {
    if visits != [] {
      RunAppend(s, VisitLabels(visits[0]), VisitsLabels(visits[1..]));
      VisitHealthy(s, visits[0], file, slot);
      var s1 := Run(s, VisitLabels(visits[0]));
      VisitsHealthy(s1, visits[1..], file, slot);
      if i :| 0 <= i < |visits| && Shows(visits[i], s.tick.value, file, slot) {
        if i > 0 { assert visits[1..][i - 1] == visits[i]; }
      }
    }
  }

  lemma {:induction false} TickHealthy(s: Sys, t: TickIn, file: string, matches: int -> bool, slot: int)
    requires Healthy(s) && |file| > 0 && slot % MINUTE == 0 && matches(slot)
    requires Covers(t.visits, file, matches)
    ensures var s' := Run(s, TickLabels(t.d, t.visits));
            && Healthy(s') && (Open(s', file, slot) <==> Open(s, file, slot))
            && (Started(s, file, slot) ==> Started(s', file, slot))
            && (Open(s, file, slot) && slot <= s.clock + t.d < slot + MINUTE ==> Started(s', file, slot))
  {
    hide Healthy, Open, Started, Covers, Succeeds, Run, AnyShows, VisitsLabels, TickLabels;
    var s1 := TickBegins(s, t.d, t.visits, file, slot);
    CoveredIsShown(t.visits, file, matches, s.clock + t.d, slot);
    VisitsHealthy(s1, t.visits, file, slot);
  }

  lemma CoveredIsShown(visits: seq<Visit>, file: string, matches: int -> bool, now: int, slot: int)
    requires Covers(visits, file, matches) && matches(slot) && slot % MINUTE == 0
    ensures forall i :: 0 <= i < |visits| ==> Succeeds(visits[i])
    ensures slot <= now < slot + MINUTE ==> AnyShows(visits, now, file, slot)
  {
    hide Presented, Due;
    if !(slot <= now < slot + MINUTE) { return; }
    var i :| 0 <= i < |visits| && visits[i].file == file && !visits[i].held
             && visits[i].sched.enabled && visits[i].sched.matches == matches;
    TickPresentsItsMinute(visits[i].sched, visits[i].last, now, slot);
    PresentedIff(visits[i].sched, false, visits[i].last, now, slot);
    assert Shows(visits[i], now, file, slot);
  }

  lemma TickBegins(s: Sys, d: nat, visits: seq<Visit>, file: string, slot: int) returns (s1: Sys)
    requires Healthy(s)
    ensures && Run(s, TickLabels(d, visits)) == Run(s1, VisitsLabels(visits))
            && Healthy(s1) && s1.tick == Some(s.clock + d)
            && (Open(s1, file, slot) <==> Open(s, file, slot)) && (Started(s1, file, slot) <==> Started(s, file, slot))
  {
    hide VisitsLabels, Run;
    s1 := s.(tick := Some(s.clock + d), clock := s.clock + d);
    RunCons(s, Tick(d), VisitsLabels(visits));
  }

  /** Ticks at most a minute apart start every matching minute they cover, unless its claim is spent. */
  lemma {:induction false} TicksStart(s: Sys, ticks: seq<TickIn>, file: string, matches: int -> bool, slot: int)
    requires Healthy(s) && |file| > 0 && slot % MINUTE == 0 && matches(slot)
    requires Timely(s, ticks, file, matches)
    requires Started(s, file, slot) || !Open(s, file, slot) ||
             (ticks != [] && s.clock + ticks[0].d < slot + MINUTE && slot <= LastTick(s, ticks))
    ensures Started(RunTicks(s, ticks), file, slot) <==> Open(s, file, slot)
    decreases |ticks|
  {
    if ticks != [] {
      TickHealthy(s, ticks[0], file, matches, slot);
      TicksStart(Run(s, TickLabels(ticks[0].d, ticks[0].visits)), ticks[1..], file, matches, slot);
    }
  }

  /** The labels of all these ticks, one after the other. */
  function AllLabels(ticks: seq<TickIn>): seq<Label> {
    if ticks == [] then [] else TickLabels(ticks[0].d, ticks[0].visits) + AllLabels(ticks[1..])
  }

  lemma {:induction false} TicksAsLabels(s: Sys, ticks: seq<TickIn>)
    ensures Run(s, AllLabels(ticks)) == RunTicks(s, ticks)
    decreases |ticks|
  {
    hide TickLabels;
    if ticks != [] {
      var first := TickLabels(ticks[0].d, ticks[0].visits);
      TicksAsLabels(Run(s, first), ticks[1..]);
      RunAppend(s, first, AllLabels(ticks[1..]));
    }
  }

  /**
   From any reachable healthy state, timely ticks with no lost write start a matching minute of the period they
   cover exactly once if and only if it was started before or its claim is free, as long as the claim of every
   presented slot outlasts it.  A claim without a start stems from a write that was reported lost.
   */
  lemma {:induction false} ExactlyOnce(labels: seq<Label>, ticks: seq<TickIn>, file: string, matches: int -> bool,
                                       slot: int)
    requires RunNear(INITIAL, labels + AllLabels(ticks))
    requires var s := Run(INITIAL, labels);
             && Healthy(s) && ticks != [] && Timely(s, ticks, file, matches)
             && Truncate(s.clock + ticks[0].d) <= slot <= LastTick(s, ticks)
    requires |file| > 0 && slot % MINUTE == 0 && matches(slot)
    ensures StartedOnce(RunTicks(Run(INITIAL, labels), ticks).starts, file, slot)
            <==> Open(Run(INITIAL, labels), file, slot)
  {
    hide SlotKey, Q.Sound, Run, RunTicks, RunNear, Timely, LastTick, Healthy, AllLabels;
    var s := Run(INITIAL, labels);
    TicksStart(s, ticks, file, matches, slot);
    TicksAsLabels(s, ticks);
    RunAppend(INITIAL, labels, AllLabels(ticks));
    RunKeyed(INITIAL, labels + AllLabels(ticks));
    if Open(s, file, slot) {
      AtMostOnce(labels + AllLabels(ticks));
      OnlyStart(RunTicks(s, ticks).starts, file, slot, SlotKey(file, slot));
    }
  }

  ghost predicate StartedOnce(starts: seq<Start>, file: string, slot: int) {
    exists i :: 0 <= i < |starts| && starts[i].file == file && starts[i].slot == slot
                && forall j :: 0 <= j < |starts| && starts[j].file == file && starts[j].slot == slot ==> j == i
  }

  lemma OnlyStart(starts: seq<Start>, file: string, slot: int, key: string)
    requires Start(file, slot, key) in starts
    requires forall i, j :: 0 <= i < j < |starts| ==>
               !(starts[i].file == starts[j].file && starts[i].slot == starts[j].slot)
    ensures StartedOnce(starts, file, slot)
  {
    var i :| 0 <= i < |starts| && starts[i] == Start(file, slot, key);
    assert starts[i].file == file && starts[i].slot == slot;
  }
}

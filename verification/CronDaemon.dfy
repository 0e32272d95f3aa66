/**
 The scheduler daemon over its durable queue: boots, ticks, crashes and lost writes in any order.
 */
module CronDaemon {
  import opened Base
  import opened CronNext
  import Q = SlotQueue

  // --- Slot keys ----------------------------------------------------------------------

  function Digit(d: nat): char
    requires d < 10
  {
    '0' + d as char
  }

  function Decimal(n: nat): string {
    if n < 10 then [Digit(n)] else Decimal(n / 10) + [Digit(n % 10)]
  }

  function DecimalInt(n: int): string
    decreases if n < 0 then 1 else 0
  {
    if n < 0 then "-" + DecimalInt(-n) else Decimal(n)
  }

  /** The slot's pipeline file and its time in whole seconds. */
  function SlotKey(file: string, slot: int): string {
    file + "|" + DecimalInt(slot / SECOND)
  }

  lemma {:induction false} DecimalInjective(m: nat, n: nat)
    requires Decimal(m) == Decimal(n)
    ensures m == n
  {
    var a, b := Decimal(m), Decimal(n);
    DecimalShape(m);
    DecimalShape(n);
    assert a[|a| - 1] == Digit(m % 10) && b[|b| - 1] == Digit(n % 10);
    if m >= 10 && n >= 10 {
      assert a[..|a| - 1] == Decimal(m / 10) && b[..|b| - 1] == Decimal(n / 10);
      DecimalInjective(m / 10, n / 10);
    }
  }

  lemma {:induction false} DecimalShape(n: nat)
    ensures |Decimal(n)| > 0 && (n >= 10 ==> |Decimal(n)| > 1)
    ensures forall c :: c in Decimal(n) ==> c != '|' && c != '-'
  {
    if n >= 10 { DecimalShape(n / 10); }
  }

  lemma {:induction false} LastBar(a: string, b: string, c: string, d: string)
    requires a + "|" + b == c + "|" + d && '|' !in b && '|' !in d
    ensures a == c && b == d
  {
    var s := a + "|" + b;
    assert s[|a|] == '|' && s[|c|] == '|';
    forall k | |a| < k < |s| ensures s[k] != '|' { assert s[k] == b[k - |a| - 1]; }
    forall k | |c| < k < |s| ensures s[k] != '|' { assert s[k] == d[k - |c| - 1]; }
    assert s[..|a|] == a && s[..|c|] == c && s[|a| + 1..] == b && s[|c| + 1..] == d;
  }

  lemma DecimalIntInjective(m: int, n: int)
    requires DecimalInt(m) == DecimalInt(n)
    ensures m == n
  {
    DecimalShape(if m < 0 then -m else m);
    DecimalShape(if n < 0 then -n else n);
    assert DecimalInt(m)[0] == '-' <==> m < 0 by { if m >= 0 { assert Decimal(m)[0] in Decimal(m); } }
    assert DecimalInt(n)[0] == '-' <==> n < 0 by { if n >= 0 { assert Decimal(n)[0] in Decimal(n); } }
    if m < 0 {
      assert DecimalInt(m)[1..] == Decimal(-m) && DecimalInt(n)[1..] == Decimal(-n);
      DecimalInjective(-m, -n);
    } else {
      DecimalInjective(m, n);
    }
  }

  lemma WholeSeconds(s: int)
    requires s % MINUTE == 0
    ensures s == s / SECOND * SECOND
  {
  }

  lemma NoBar(n: int)
    ensures '|' !in DecimalInt(n)
  {
    DecimalShape(if n < 0 then -n else n);
  }

  lemma SlotKeyInjective(f: string, s: int, g: string, t: int)
    requires SlotKey(f, s) == SlotKey(g, t) && s % MINUTE == 0 && t % MINUTE == 0
    ensures f == g && s == t
  {
    var m, n := s / SECOND, t / SECOND;
    NoBar(m);
    NoBar(n);
    LastBar(f, DecimalInt(m), g, DecimalInt(n));
    DecimalIntInjective(m, n);
    WholeSeconds(s);
    WholeSeconds(t);
  }

  // --- The daemon as a step system ----------------------------------------------------

  datatype Sched = Sched(enabled: bool, matches: int -> bool, overlap: string, catchUp: bool)

  /** A run begun for a slot of a pipeline, under the key it was claimed with. */
  datatype Start = Start(file: string, slot: int, key: string)

  /** Where the daemon stands in its start sequence. */
  datatype Phase = Down | Opened | Marked | Ready

  /**
   `queue` is the open queue's memory, `tick` the time the present tick began, `running` the key of
   the slot whose pipeline runs; `trimmed` and `starts` are history: the last trim and every run begun.
   */
  datatype Sys = Sys(disk: Q.Disk, phase: Phase, queue: Option<Mem>, tick: Option<int>, running: Option<string>,
                     clock: int, trimmed: int, starts: seq<Start>)

  datatype Mem = Mem(state: Q.Disk, fault: bool)

  /** One step with the environment's part in it; every `d` is the time that has passed since the last step. */
  datatype Label =
    | Crash
    | Boot(d: nat, readable: bool)
    | Mark(d: nat, w: Q.Write)
    | TrimOld(d: nat, w: Q.Write)
    | Tick(d: nat)
    | Consider(file: string, sched: Sched, held: bool, last: Option<int>, readable: bool, d: nat, w: Q.Write)
    | Finish(failed: bool, d: nat, w: Q.Write)

  const INITIAL := Sys(Q.EMPTY, Down, None, None, None, 0, 0, [])

  function StoreOf(s: Sys): Q.Store
    requires s.queue.Some?
  {
    Q.Store(s.queue.value.state, s.queue.value.fault, s.disk)
  }

  function WithStore(s: Sys, q: Q.Store): Sys {
    s.(queue := Some(Mem(q.mem, q.fault)), disk := q.disk)
  }

  /** A run was missed: since the saved last run a minute matched that is past. */
  predicate CatchesUp(sched: Sched, last: Option<int>, now: int) {
    sched.catchUp && last.Some? &&
    match NextAfter(sched.matches, last.value + MINUTE)
    case None => false
    case Some(expected) => expected < now && expected > last.value - 5 * MINUTE
  }

  /**
   The slot a tick that began at `now` presents to the queue, if any.  To catch up, the run begins now, but the
   slot presented is the next one, however far ahead.
   */
  function Presented(sched: Sched, held: bool, last: Option<int>, now: int): Option<int> {
    if !sched.enabled then None else
    match NextAfter(sched.matches, now - MINUTE)
    case None => None
    case Some(next) =>
      if held && (sched.overlap == "" || sched.overlap == "skip" || sched.overlap == "queue") then None
      else if next > now - MINUTE && next < now + 5 * SECOND then Some(next)
      else if CatchesUp(sched, last, now) then Some(next)
      else None
  }

  function OpenQueue(s: Sys, readable: bool): Sys {
    if s.queue.Some? || !readable then s else
    match Q.Open(s.disk)
    case None => s
    case Some(q) => WithStore(s, q)
  }

  function DoBoot(s: Sys, l: Label): Sys
    requires l.Boot?
  {
    var s1 := OpenQueue(s.(clock := s.clock + l.d), l.readable);
    s1.(phase := if s1.queue.Some? then Opened else Ready)
  }

  function DoMark(s: Sys, l: Label): Sys
    requires l.Mark? && s.queue.Some?
  {
    WithStore(s, Q.Interrupt(StoreOf(s), s.clock + l.d, l.w).0).(phase := Marked, clock := s.clock + l.d)
  }

  function DoTrim(s: Sys, l: Label): Sys
    requires l.TrimOld? && s.queue.Some?
  {
    var now := s.clock + l.d;
    WithStore(s, Q.Trim(StoreOf(s), now, Q.CLAIM_AGE, l.w).0).(phase := Ready, clock := now, trimmed := now)
  }

  /** Offers a slot to the open queue at time `now`; a granted slot begins to run. */
  function DoOffer(s: Sys, file: string, slot: int, now: int, w: Q.Write): Sys
    requires s.queue.Some?
  {
    var key := SlotKey(file, slot);
    var (q, answer) := Q.Claim(StoreOf(s), key, file, now, w);
    var s' := WithStore(s, q).(clock := now);
    if answer.Granted? then s'.(running := Some(key), starts := s.starts + [Start(file, slot, key)]) else s'
  }

  function DoConsider(s: Sys, l: Label): Sys
    requires l.Consider? && s.tick.Some?
  {
    match Presented(l.sched, l.held, l.last, s.tick.value)
    case None => s
    case Some(slot) =>
      var s1 := OpenQueue(s, l.readable);
      if s1.queue.None? then s1 else DoOffer(s1, l.file, slot, s.clock + l.d, l.w)
  }

  function DoFinish(s: Sys, l: Label): Sys
    requires l.Finish? && s.running.Some? && s.queue.Some?
  {
    var q := Q.Release(StoreOf(s), s.running.value, if l.failed then Q.Failed else Q.Done, s.clock + l.d, l.w).0;
    WithStore(s, q).(running := None, clock := s.clock + l.d)
  }

  /** A label that cannot happen in `s` leaves it as it is. */
  function Step(s: Sys, l: Label): Sys {
    match l
    case Crash => s.(phase := Down, queue := None, tick := None, running := None)
    case Boot(_, _) => if s.phase.Down? then DoBoot(s, l) else s
    case Mark(_, _) => if s.phase.Opened? && s.queue.Some? then DoMark(s, l) else s
    case TrimOld(_, _) => if s.phase.Marked? && s.queue.Some? then DoTrim(s, l) else s
    case Tick(d) =>
      if s.phase.Ready? && s.running.None? then s.(tick := Some(s.clock + d), clock := s.clock + d) else s
    case Consider(_, _, _, _, _, _, _) => if s.tick.Some? && s.running.None? then DoConsider(s, l) else s
    case Finish(_, _, _) => if s.running.Some? && s.queue.Some? then DoFinish(s, l) else s
  }

  function Run(s: Sys, labels: seq<Label>): Sys
    decreases |labels|
  {
    if labels == [] then s else Run(Step(s, labels[0]), labels[1..])
  }

  lemma {:induction false} RunAppend(s: Sys, a: seq<Label>, b: seq<Label>)
    ensures Run(s, a + b) == Run(Run(s, a), b)
    decreases |a|
  {
    if a == [] { assert a + b == b; }
    else { assert (a + b)[1..] == a[1..] + b; RunAppend(Step(s, a[0]), a[1..], b); }
  }

  lemma RunCons(s: Sys, l: Label, rest: seq<Label>)
    ensures Run(s, [l] + rest) == Run(Step(s, l), rest)
  {
    assert ([l] + rest)[1..] == rest;
  }

  // --- At most once -------------------------------------------------------------------

  /** A claim for `slot` last touched at `updated` is not trimmed before the minute of the slot is over. */
  predicate Outlasts(updated: int, slot: int) {
    slot + MINUTE <= updated + Q.CLAIM_AGE + 1
  }

  /** The claim of `st` is in the file and will be there as long as a tick can present the slot. */
  ghost predicate Kept(d: Q.Disk, st: Start) {
    st.key in d.claims && st.key in d.tasks && Outlasts(d.tasks[st.key].updated, st.slot)
  }

  /** No later tick can present a slot this old. */
  ghost predicate Expired(st: Start, trimmed: int) {
    st.slot + MINUTE <= trimmed
  }

  ghost predicate Accounted(d: Q.Disk, starts: seq<Start>, trimmed: int) {
    forall i :: 0 <= i < |starts| ==> Kept(d, starts[i]) || Expired(starts[i], trimmed)
  }

  ghost predicate Inv(s: Sys) {
    && Q.Sound(s.disk)
    && (s.queue.Some? ==> Q.SoundStore(StoreOf(s)))
    && (s.phase.Down? ==> s.queue.None?) && (s.tick.Some? || s.running.Some? ==> s.phase.Ready?)
    && s.trimmed <= s.clock && (s.tick.Some? ==> s.trimmed <= s.tick.value <= s.clock)
    && (forall i :: 0 <= i < |s.starts| ==> s.starts[i].slot % MINUTE == 0 && Outlasts(s.clock, s.starts[i].slot))
    && Accounted(s.disk, s.starts, s.trimmed)
    && Distinct(s.starts)
  }

  /** A queue operation that keeps claims, and redates none of their tasks before `now`. */
  ghost predicate Keeps(before: Q.Disk, after: Q.Disk, now: int) {
    forall k :: k in before.claims && k in before.tasks ==>
      (k in after.claims && k in after.tasks &&
       (after.tasks[k].updated == before.tasks[k].updated || after.tasks[k].updated >= now))
  }

  lemma KeepsAccounts(before: Q.Disk, after: Q.Disk, starts: seq<Start>, trimmed: int, now: int)
    requires Accounted(before, starts, trimmed) && Keeps(before, after, now)
    requires forall i :: 0 <= i < |starts| ==> Outlasts(now, starts[i].slot)
    ensures Accounted(after, starts, trimmed)
  {
    forall i | 0 <= i < |starts| && Kept(before, starts[i]) ensures Kept(after, starts[i]) {
    }
  }

  lemma ClaimKeeps(q: Q.Store, key: string, job: string, now: int, w: Q.Write)
    requires Q.SoundStore(q)
    ensures Keeps(q.disk, Q.Claim(q, key, job, now, w).0.disk, now)
  {
  }

  lemma ReleaseKeeps(q: Q.Store, key: string, outcome: Q.Status, now: int, w: Q.Write)
    requires Q.SoundStore(q)
    ensures Keeps(q.disk, Q.Release(q, key, outcome, now, w).0.disk, now)
  {
  }

  lemma InterruptKeeps(q: Q.Store, now: int, w: Q.Write)
    requires Q.SoundStore(q)
    ensures Keeps(q.disk, Q.Interrupt(q, now, w).0.disk, now)
  {
  }

  /** What a trim removes was last touched a day ago, so its slot can never be presented again. */
  lemma TrimAccounts(q: Q.Store, starts: seq<Start>, trimmed: int, now: int, w: Q.Write)
    requires Q.SoundStore(q) && Accounted(q.disk, starts, trimmed) && trimmed <= now
    ensures Accounted(Q.Trim(q, now, Q.CLAIM_AGE, w).0.disk, starts, now)
  {
    Q.TrimSound(q, now, Q.CLAIM_AGE, w);
    var q' := Q.Trim(q, now, Q.CLAIM_AGE, w).0;
    forall i | 0 <= i < |starts| ensures Kept(q'.disk, starts[i]) || Expired(starts[i], now) {
      var key := starts[i].key;
      if Kept(q.disk, starts[i]) && q'.disk != q.disk {
        assert q'.disk == q'.mem && key in q.mem.claims;
      }
    }
  }

  /** The invariant after a queue operation at time `now`, with nothing about the operation but its effect. */
  lemma InvAfter(s: Sys, q: Q.Store, now: int, trimmed: int, s': Sys)
    requires Inv(s) && Q.SoundStore(q) && s.clock <= now && trimmed <= now
    requires s'.queue == Some(Mem(q.mem, q.fault)) && s'.disk == q.disk && s'.clock == now && s'.trimmed == trimmed
    requires !s'.phase.Down? && (s'.tick.Some? || s'.running.Some? ==> s'.phase.Ready?)
    requires s'.tick.Some? ==> trimmed <= s'.tick.value <= now
    requires Accounted(q.disk, s'.starts, trimmed) && Distinct(s'.starts)
    requires forall i :: 0 <= i < |s'.starts| ==> s'.starts[i].slot % MINUTE == 0 && Outlasts(now, s'.starts[i].slot)
    ensures Inv(s')
  {
    assert StoreOf(s') == q;
  }

  lemma OpenedQueue(s: Sys, readable: bool, s1: Sys)
    requires Q.Sound(s.disk) && (s.queue.Some? ==> Q.SoundStore(StoreOf(s)))
    requires s1 == OpenQueue(s, readable)
    ensures s1.queue.Some? ==> Q.SoundStore(StoreOf(s1)) && s1 == WithStore(s, StoreOf(s1))
    ensures s1.queue.None? ==> s1 == s
    ensures s1.disk == s.disk
  {
    Q.SoundPassesChecks(s.disk);
  }

  lemma BootInv(s: Sys, l: Label, s': Sys)
    requires Inv(s) && l.Boot? && s.phase.Down? && s' == DoBoot(s, l)
    ensures Inv(s')
  {
    var s0 := s.(clock := s.clock + l.d);
    OpenedQueue(s0, l.readable, OpenQueue(s0, l.readable));
  }

  lemma MarkedInv(s: Sys, q: Q.Store, now: int, w: Q.Write, s': Sys)
    requires Inv(s) && s.queue.Some? && q == StoreOf(s) && s.phase.Opened? && s.clock <= now
    requires s' == WithStore(s, Q.Interrupt(q, now, w).0).(phase := Marked, clock := now)
    ensures Inv(s')
  {
    Q.InterruptSound(q, now, w);
    InterruptKeeps(q, now, w);
    KeepsAccounts(s.disk, Q.Interrupt(q, now, w).0.disk, s.starts, s.trimmed, now);
    InvAfter(s, Q.Interrupt(q, now, w).0, now, s.trimmed, s');
  }

  lemma MarkInv(s: Sys, l: Label, s': Sys)
    requires Inv(s) && l.Mark? && s.phase.Opened? && s.queue.Some? && s' == DoMark(s, l)
    ensures Inv(s')
  {
    MarkedInv(s, StoreOf(s), s.clock + l.d, l.w, s');
  }

  lemma TrimmedInv(s: Sys, q: Q.Store, now: int, w: Q.Write, s': Sys)
    requires Inv(s) && s.queue.Some? && q == StoreOf(s) && s.phase.Marked? && s.clock <= now
    requires s' == WithStore(s, Q.Trim(q, now, Q.CLAIM_AGE, w).0).(phase := Ready, clock := now, trimmed := now)
    ensures Inv(s')
  {
    Q.TrimSound(q, now, Q.CLAIM_AGE, w);
    TrimAccounts(q, s.starts, s.trimmed, now, w);
    InvAfter(s, Q.Trim(q, now, Q.CLAIM_AGE, w).0, now, now, s');
  }

  lemma TrimInv(s: Sys, l: Label, s': Sys)
    requires Inv(s) && l.TrimOld? && s.phase.Marked? && s.queue.Some? && s' == DoTrim(s, l)
    ensures Inv(s')
  {
    hide Accounted, Q.Sound, Distinct;
    TrimmedInv(s, StoreOf(s), s.clock + l.d, l.w, s');
  }

  /**
   A tick presents an aligned matching slot not before its own minute; without catching up, less than five
   seconds ahead.
   */
  lemma PresentedRange(sched: Sched, held: bool, last: Option<int>, now: int)
    ensures var p := Presented(sched, held, last, now);
            && (p.Some? ==> now - MINUTE < Truncate(now) <= p.value && p.value % MINUTE == 0 && sched.matches(p.value))
            && (p.Some? && !CatchesUp(sched, last, now) ==> p.value < now + 5 * SECOND)
  {
    NextFromAMinuteBack(sched.matches, now);
  }

  // --- When a slot is due -------------------------------------------------------------

  /** The policy keeps a pipeline from being started over its own running lock. */
  predicate HeldBack(sched: Sched, held: bool) {
    held && sched.overlap in {"", "skip", "queue"}
  }

  /** A whole matching minute later than the one after the saved last run has passed, within the year searched. */
  ghost predicate Missed(sched: Sched, last: Option<int>, now: int) {
    && sched.catchUp && last.Some?
    && exists u :: u % MINUTE == 0 && sched.matches(u) &&
                   last.value + MINUTE < u < now && u <= Truncate(last.value + MINUTE) + YEAR_MINUTES * MINUTE
  }

  lemma CatchesUpIff(sched: Sched, last: Option<int>, now: int)
    ensures CatchesUp(sched, last, now) <==> Missed(sched, last, now)
  {
    hide NextAfter, Truncate;
    if last.Some? {
      NextIsLeast(sched.matches, last.value + MINUTE);
      if CatchesUp(sched, last, now) {
        assert sched.matches(NextAfter(sched.matches, last.value + MINUTE).value);
      }
    }
  }

  /** `t` is to be offered: the least matching minute from the present one on, and near or long overdue. */
  ghost predicate Due(sched: Sched, held: bool, last: Option<int>, now: int, t: int) {
    && sched.enabled && !HeldBack(sched, held) && IsNext(sched.matches, now - MINUTE, Some(t))
    && (t < now + 5 * SECOND || Missed(sched, last, now))
  }

  lemma PresentedIff(sched: Sched, held: bool, last: Option<int>, now: int, t: int)
    ensures Presented(sched, held, last, now) == Some(t) <==> Due(sched, held, last, now, t)
  {
    CatchesUpIff(sched, last, now);
    NextIsUnique(sched.matches, now - MINUTE, Some(t));
    hide NextAfter, Truncate, CatchesUp, Missed;
    assert IsNext(sched.matches, now - MINUTE, Some(t)) ==> t > now - MINUTE;
  }

  lemma PresentedIsDue(sched: Sched, held: bool, last: Option<int>, now: int)
    ensures forall t :: Presented(sched, held, last, now) == Some(t) <==> Due(sched, held, last, now, t)
  {
    hide Presented, Due;
    forall t ensures Presented(sched, held, last, now) == Some(t) <==> Due(sched, held, last, now, t) {
      PresentedIff(sched, held, last, now, t);
    }
  }

  /** The start came from a label that offered its slot when it was due, to a queue that could be opened. */
  ghost predicate OfferedWhenDue(s: Sys, labels: seq<Label>, i: nat, st: Start)
    requires i < |labels|
  {
    var l, before := labels[i], Run(s, labels[..i]);
    && l.Consider? && before.tick.Some? && l.file == st.file && (before.queue.Some? || l.readable)
    && Due(l.sched, l.held, l.last, before.tick.value, st.slot)
  }

  lemma StepStarts(s: Sys, l: Label)
    ensures var s' := Step(s, l);
            || s'.starts == s.starts
            || (&& l.Consider? && s.tick.Some? && (s.queue.Some? || l.readable) && s.running.None?
                && |s'.starts| == |s.starts| + 1 && s.starts <= s'.starts
                && var st := s'.starts[|s.starts|];
                   st.file == l.file && Due(l.sched, l.held, l.last, s.tick.value, st.slot))
  {
    hide SlotKey, Due, Presented;
    if l.Consider? && s.tick.Some? {
      var p := Presented(l.sched, l.held, l.last, s.tick.value);
      if p.Some? { PresentedIff(l.sched, l.held, l.last, s.tick.value, p.value); }
    }
  }

  /** Whatever happens, no run begins but for a slot that is due, and none over a lock that holds it back. */
  lemma {:induction false} StartsAreDue(s: Sys, labels: seq<Label>, k: nat)
    requires |s.starts| <= k < |Run(s, labels).starts|
    ensures exists i :: 0 <= i < |labels| && OfferedWhenDue(s, labels, i, Run(s, labels).starts[k])
    decreases |labels|
  {
    hide Step, Due;
    var s1 := Step(s, labels[0]);
    StepStarts(s, labels[0]);
    StartsGrow(s1, labels[1..]);
    if k < |s1.starts| {
      assert labels[..0] == [];
      assert OfferedWhenDue(s, labels, 0, Run(s, labels).starts[k]);
    } else {
      StartsAreDue(s1, labels[1..], k);
      var i :| 0 <= i < |labels| - 1 && OfferedWhenDue(s1, labels[1..], i, Run(s1, labels[1..]).starts[k]);
      assert labels[..i + 1][0] == labels[0] && labels[..i + 1][1..] == labels[1..][..i];
      assert OfferedWhenDue(s, labels, i + 1, Run(s, labels).starts[k]);
    }
  }

  lemma {:induction false} StartsGrow(s: Sys, labels: seq<Label>)
    ensures s.starts <= Run(s, labels).starts
    decreases |labels|
  {
    hide Step, Due;
    if labels != [] {
      StepStarts(s, labels[0]);
      StartsGrow(Step(s, labels[0]), labels[1..]);
    }
  }

  /** A tick that begins inside the minute of a matching slot presents exactly that slot. */
  lemma TickPresentsItsMinute(sched: Sched, last: Option<int>, now: int, slot: int)
    requires sched.enabled && sched.matches(slot) && slot % MINUTE == 0 && slot <= now < slot + MINUTE
    ensures Presented(sched, false, last, now) == Some(slot)
  {
    TruncateIs(now, slot);
    NextFromAMinuteBack(sched.matches, now);
    hide NextAfter, Truncate, CatchesUp;
  }

  lemma TruncateIs(now: int, slot: int)
    requires slot % MINUTE == 0 && slot <= now < slot + MINUTE
    ensures Truncate(now) == slot
  {
  }

  /** A granted claim is a start that was never made before, and it is on disk. */
  lemma GrantedIsNew(q: Q.Store, st: Start, starts: seq<Start>, trimmed: int, now: int, w: Q.Write)
    requires Q.SoundStore(q) && Accounted(q.disk, starts, trimmed)
    requires st.slot % MINUTE == 0 && trimmed - MINUTE < st.slot && Outlasts(now, st.slot)
    requires forall i :: 0 <= i < |starts| ==> starts[i].slot % MINUTE == 0
    requires Q.Claim(q, st.key, st.file, now, w).1.Granted?
    ensures st !in starts && Kept(Q.Claim(q, st.key, st.file, now, w).0.disk, st)
  {
    forall i | 0 <= i < |starts| ensures starts[i] != st {
      assert Kept(q.disk, starts[i]) || Expired(starts[i], trimmed);
    }
  }

  /** A slot that is presented lies so near that its claim outlasts it. */
  ghost predicate Near(s: Sys, l: Label) {
    l.Consider? && s.tick.Some? ==>
      var p := Presented(l.sched, l.held, l.last, s.tick.value);
      p.Some? ==> Outlasts(s.clock + l.d, p.value)
  }

  ghost predicate RunNear(s: Sys, labels: seq<Label>)
    decreases |labels|
  {
    labels == [] || (Near(s, labels[0]) && RunNear(Step(s, labels[0]), labels[1..]))
  }

  lemma ConsiderInv(s: Sys, l: Label, s': Sys)
    requires Inv(s) && l.Consider? && s.tick.Some? && s.running.None? && Near(s, l)
    requires s' == DoConsider(s, l)
    ensures Inv(s')
  {
    hide SlotKey, Accounted, Q.Sound, Distinct, Presented, Outlasts;
    var p := Presented(l.sched, l.held, l.last, s.tick.value);
    if p.None? { return; }
    PresentedRange(l.sched, l.held, l.last, s.tick.value);
    var s1 := OpenQueue(s, l.readable);
    OpenedQueue(s, l.readable, s1);
    if s1.queue.None? { return; }
    OfferInv(s, s1, l.file, p.value, s.clock + l.d, l.w, s');
  }

  lemma OfferInv(s: Sys, s1: Sys, file: string, slot: int, now: int, w: Q.Write, s': Sys)
    requires Inv(s) && s.tick.Some? && s.running.None? && s.clock <= now
    requires s1.queue.Some? && s1 == WithStore(s, StoreOf(s1)) && Q.SoundStore(StoreOf(s1)) && s1.disk == s.disk
    requires slot % MINUTE == 0 && s.tick.value - MINUTE < slot && Outlasts(now, slot)
    requires s' == DoOffer(s1, file, slot, now, w)
    ensures Inv(s')
  {
    var q, key := StoreOf(s1), SlotKey(file, slot);
    var (q', answer) := Q.Claim(q, key, file, now, w);
    Q.ClaimSound(q, key, file, now, w);
    ClaimKeeps(q, key, file, now, w);
    KeepsAccounts(s.disk, q'.disk, s.starts, s.trimmed, now);
    if answer.Granted? {
      GrantedIsNew(q, Start(file, slot, key), s.starts, s.trimmed, now, w);
    }
    InvAfter(s, q', now, s.trimmed, s');
  }

  lemma ReleasedInv(s: Sys, q: Q.Store, key: string, outcome: Q.Status, now: int, w: Q.Write, s': Sys)
    requires Inv(s) && s.running.Some? && s.queue.Some? && q == StoreOf(s) && s.clock <= now && Q.KnownStatus(outcome)
    requires s' == WithStore(s, Q.Release(q, key, outcome, now, w).0).(running := None, clock := now)
    ensures Inv(s')
  {
    Q.ReleaseSound(q, key, outcome, now, w);
    ReleaseKeeps(q, key, outcome, now, w);
    KeepsAccounts(s.disk, Q.Release(q, key, outcome, now, w).0.disk, s.starts, s.trimmed, now);
    InvAfter(s, Q.Release(q, key, outcome, now, w).0, now, s.trimmed, s');
  }

  lemma FinishInv(s: Sys, l: Label, s': Sys)
    requires Inv(s) && l.Finish? && s.running.Some? && s.queue.Some?
    requires s' == DoFinish(s, l)
    ensures Inv(s')
  {
    ReleasedInv(s, StoreOf(s), s.running.value, if l.failed then Q.Failed else Q.Done, s.clock + l.d, l.w, s');
  }

  lemma StepInv(s: Sys, l: Label)
    requires Inv(s) && Near(s, l)
    ensures Inv(Step(s, l))
  {
    match l
    case Crash =>
    case Boot(_, _) => if s.phase.Down? { BootInv(s, l, DoBoot(s, l)); }
    case Mark(_, _) => if s.phase.Opened? && s.queue.Some? { MarkInv(s, l, DoMark(s, l)); }
    case TrimOld(_, _) => if s.phase.Marked? && s.queue.Some? { TrimInv(s, l, DoTrim(s, l)); }
    case Tick(_) =>
    case Consider(_, _, _, _, _, _, _) => if s.tick.Some? && s.running.None? { ConsiderInv(s, l, DoConsider(s, l)); }
    case Finish(_, _, _) => if s.running.Some? && s.queue.Some? { FinishInv(s, l, DoFinish(s, l)); }
  }

  lemma {:induction false} RunInv(s: Sys, labels: seq<Label>)
    requires Inv(s) && RunNear(s, labels)
    ensures Inv(Run(s, labels))
    decreases |labels|
  {
    if labels != [] {
      StepInv(s, labels[0]);
      RunInv(Step(s, labels[0]), labels[1..]);
    }
  }

  /** Every start carries the key of its slot. */
  ghost predicate Keyed(starts: seq<Start>) {
    forall i :: 0 <= i < |starts| ==> starts[i].key == SlotKey(starts[i].file, starts[i].slot)
  }

  lemma {:induction false} RunKeyed(s: Sys, labels: seq<Label>)
    requires Keyed(s.starts)
    ensures Keyed(Run(s, labels).starts)
    decreases |labels|
  {
    if labels != [] { RunKeyed(Step(s, labels[0]), labels[1..]); }
  }

  /**
   Across every run of boots, ticks, crashes, lost writes and trims, whatever the schedules match at
   each tick, no slot of a pipeline is started twice, as long as the claim of every presented slot outlasts it.
   */
  lemma AtMostOnce(labels: seq<Label>)
    requires RunNear(INITIAL, labels)
    ensures var starts := Run(INITIAL, labels).starts;
            forall i, j :: 0 <= i < j < |starts| ==>
              !(starts[i].file == starts[j].file && starts[i].slot == starts[j].slot)
  {
    RunInv(INITIAL, labels);
    RunKeyed(INITIAL, labels);
    var starts := Run(INITIAL, labels).starts;
    forall i, j | 0 <= i < j < |starts|
      ensures !(starts[i].file == starts[j].file && starts[i].slot == starts[j].slot)
    {
      assert starts[i] != starts[j];
    }
  }

  /** Without catching up none is. */
  lemma {:induction false} NoCatchUpIsNear(s: Sys, labels: seq<Label>)
    requires s.tick.Some? ==> s.tick.value <= s.clock
    requires forall i :: 0 <= i < |labels| && labels[i].Consider? ==> !labels[i].sched.catchUp
    ensures RunNear(s, labels)
    decreases |labels|
  {
    if labels != [] {
      var l := labels[0];
      if l.Consider? && s.tick.Some? { PresentedRange(l.sched, l.held, l.last, s.tick.value); }
      hide Presented, SlotKey;
      NoCatchUpIsNear(Step(s, l), labels[1..]);
    }
  }
}

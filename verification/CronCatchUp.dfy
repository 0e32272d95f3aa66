/**
 Catching up claims the next slot ahead of its time.  When that slot lies so far ahead that the claim is
 trimmed before the slot comes, the slot is started again: nearness is not only enough for at most once.
 */
module CronCatchUp {
  import opened Base
  import opened CronNext
  import opened CronDaemon
  import E = CronExactlyOnce
  import Q = SlotQueue

  lemma RunThree(s: Sys, a: Label, b: Label, c: Label)
    ensures Run(s, [a, b, c]) == Step(Step(Step(s, a), b), c)
  {
    hide Step;
    assert [a, b, c] == [a] + ([b] + ([c] + []));
    RunCons(s, a, [b] + ([c] + []));
    RunCons(Step(s, a), b, [c] + []);
    RunCons(Step(Step(s, a), b), c, []);
  }

  /** The daemon is up, trusts its file, and runs nothing. */
  function Up(disk: Q.Disk, clock: int, trimmed: int, tick: Option<int>, starts: seq<Start>): Sys {
    Sys(disk, Ready, Some(Mem(disk, false)), tick, None, clock, trimmed, starts)
  }

  function BootLabels(d: nat): seq<Label> {
    [Boot(d, true), Mark(0, Q.Committed), TrimOld(0, Q.Committed)]
  }

  /** A start of the daemon on a file without running tasks removes the dead claims and nothing else. */
  lemma Boots(disk: Q.Disk, clock: int, trimmed: int, starts: seq<Start>, d: nat)
    requires Q.OpenChecks(disk) && Q.Caught(disk) == {}
    ensures var now := clock + d;
            var after := if Q.DeadKeys(disk, now - Q.CLAIM_AGE) == {} then disk
              else Q.Without(disk, Q.DeadKeys(disk, now - Q.CLAIM_AGE));
            Run(Sys(disk, Down, None, None, None, clock, trimmed, starts), BootLabels(d)) ==
            Up(after, now, now, None, starts)
  {
    hide Q.DeadKeys, Q.Caught, Q.OpenChecks, Q.Without;
    var s := Sys(disk, Down, None, None, None, clock, trimmed, starts);
    var now := clock + d;
    var booted := Sys(disk, Opened, Some(Mem(disk, false)), None, None, now, trimmed, starts);
    RunThree(s, Boot(d, true), Mark(0, Q.Committed), TrimOld(0, Q.Committed));
    assert Step(s, Boot(d, true)) == booted;
    assert Step(booted, Mark(0, Q.Committed)) == booted.(phase := Marked);
  }

  /** A daemon that comes up on an empty file is healthy, so that timely ticks start each slot exactly once. */
  lemma ComesUpHealthy()
    ensures E.Healthy(Run(INITIAL, BootLabels(0)))
  {
    hide Run;
    EmptyBoots();
    Boots(Q.EMPTY, 0, 0, [], 0);
  }

  function TickLabels(file: string, sched: Sched, last: Option<int>, d: nat): seq<Label> {
    [Tick(d), Consider(file, sched, false, last, true, 0, Q.Committed), Finish(false, 0, Q.Committed)]
  }

  /** The file with a finished task for `key`. */
  function WithDone(disk: Q.Disk, key: string, file: string, now: int): Q.Disk {
    Q.Disk(disk.tasks[key := Q.Task(key, key, file, Q.Done, now, now)], disk.claims[key := key])
  }

  /** A tick that presents an unclaimed slot starts and finishes it. */
  lemma Ticks(disk: Q.Disk, clock: int, trimmed: int, starts: seq<Start>, file: string, sched: Sched,
              last: Option<int>, d: nat, slot: int)
    requires |file| > 0 && SlotKey(file, slot) !in disk.claims && Presented(sched, false, last, clock + d) == Some(slot)
    ensures var now, key := clock + d, SlotKey(file, slot);
            Run(Up(disk, clock, trimmed, None, starts), TickLabels(file, sched, last, d))
            == Up(WithDone(disk, key, file, now), now, trimmed, Some(now), starts + [Start(file, slot, key)])
  {
    hide Presented;
    var now, key := clock + d, SlotKey(file, slot);
    assert |key| > 0;
    hide SlotKey;
    var s, tick := Up(disk, clock, trimmed, None, starts), Tick(d);
    var offer := Consider(file, sched, false, last, true, 0, Q.Committed);
    var finish := Finish(false, 0, Q.Committed);
    RunThree(s, tick, offer, finish);
    var ticked := Up(disk, now, trimmed, Some(now), starts);
    assert Step(s, tick) == ticked;
    var claimed := Q.Disk(disk.tasks[key := Q.Task(key, key, file, Q.Running, now, now)], disk.claims[key := key]);
    var running := Sys(claimed, Ready, Some(Mem(claimed, false)), Some(now), Some(key), now, trimmed,
                       starts + [Start(file, slot, key)]);
    assert Step(ticked, offer) == running;
    var finished := WithDone(disk, key, file, now);
    assert claimed.tasks[key := claimed.tasks[key].(status := Q.Done, updated := now)] == finished.tasks;
    assert Step(running, finish) == Up(finished, now, trimmed, Some(now), starts + [Start(file, slot, key)]);
  }

  /** A moment in the minute of `slot` when a claim of time `t0` is old enough to be trimmed. */
  function Later(t0: int, slot: int): int {
    if slot > t0 + Q.CLAIM_AGE then slot else t0 + Q.CLAIM_AGE + 1
  }

  lemma LaterPresents(sched: Sched, last: Option<int>, t0: int, slot: int)
    requires Presented(sched, false, last, t0) == Some(slot) && !Outlasts(t0, slot)
    ensures var now := Later(t0, slot);
            now > t0 + Q.CLAIM_AGE && slot <= now < slot + MINUTE && Presented(sched, false, last, now) == Some(slot)
  {
    PresentedRange(sched, false, last, t0);
    TickPresentsItsMinute(sched, last, Later(t0, slot), slot);
    hide Truncate, NextAfter, CatchesUp;
  }

  /** The whole run: start, claim ahead, crash, start again a day later, and the slot's own tick. */
  function TwiceLabels(file: string, sched: Sched, last: Option<int>, t0: nat, slot: int): seq<Label>
    requires Later(t0, slot) >= t0
  {
    BootLabels(0) + TickLabels(file, sched, last, t0) + [Crash] + BootLabels(Later(t0, slot) - t0) +
    TickLabels(file, sched, last, 0)
  }

  lemma ClaimedAhead(file: string, sched: Sched, last: Option<int>, t0: nat, slot: int)
    requires |file| > 0 && Presented(sched, false, last, t0) == Some(slot)
    ensures var key := SlotKey(file, slot);
            Run(INITIAL, BootLabels(0) + TickLabels(file, sched, last, t0))
            == Up(WithDone(Q.EMPTY, key, file, t0), t0, 0, Some(t0), [Start(file, slot, key)])
  {
    hide SlotKey, Presented, Run;
    RunAppend(INITIAL, BootLabels(0), TickLabels(file, sched, last, t0));
    EmptyBoots();
    Boots(Q.EMPTY, 0, 0, [], 0);
    Ticks(Q.EMPTY, 0, 0, [], file, sched, last, t0, slot);
    assert [] + [Start(file, slot, SlotKey(file, slot))] == [Start(file, slot, SlotKey(file, slot))];
  }

  lemma StartedAgain(file: string, sched: Sched, last: Option<int>, t0: nat, slot: int, now: int)
    requires |file| > 0 && now > t0 + Q.CLAIM_AGE && Presented(sched, false, last, now) == Some(slot)
    ensures var key := SlotKey(file, slot);
            var st := Start(file, slot, key);
            Run(Sys(WithDone(Q.EMPTY, key, file, t0), Down, None, None, None, t0, 0, [st]),
                BootLabels(now - t0) + TickLabels(file, sched, last, 0)).starts == [st, st]
  {
    hide SlotKey, Presented, Run;
    var key := SlotKey(file, slot);
    var st, disk := Start(file, slot, key), WithDone(Q.EMPTY, key, file, t0);
    KeyNotEmpty(file, slot);
    DoneBoots(key, file, t0, now);
    Boots(disk, t0, 0, [st], now - t0);
    RunAppend(Sys(disk, Down, None, None, None, t0, 0, [st]), BootLabels(now - t0), TickLabels(file, sched, last, 0));
    Ticks(Q.EMPTY, now, now, [st], file, sched, last, 0, slot);
  }

  /**
   A slot presented farther ahead than its claim outlasts is started twice by some run in which every write
   succeeds.
   */
  lemma FarSlotStartsTwice(file: string, sched: Sched, last: Option<int>, t0: nat, slot: int)
    requires |file| > 0 && Presented(sched, false, last, t0) == Some(slot) && !Outlasts(t0, slot)
    ensures Later(t0, slot) >= t0
    ensures var st := Start(file, slot, SlotKey(file, slot));
            Run(INITIAL, TwiceLabels(file, sched, last, t0, slot)).starts == [st, st]
  {
    hide SlotKey, Presented, Run, BootLabels, TickLabels, WithDone;
    LaterPresents(sched, last, t0, slot);
    var now := Later(t0, slot);
    var first := BootLabels(0) + TickLabels(file, sched, last, t0);
    var second := BootLabels(now - t0) + TickLabels(file, sched, last, 0);
    assert TwiceLabels(file, sched, last, t0, slot) == first + ([Crash] + second);
    RunAppend(INITIAL, first, [Crash] + second);
    ClaimedAhead(file, sched, last, t0, slot);
    RunCons(Run(INITIAL, first), Crash, second);
    StartedAgain(file, sched, last, t0, slot, now);
  }

  lemma KeyNotEmpty(file: string, slot: int)
    ensures |SlotKey(file, slot)| > 0
  {
  }

  lemma EmptyBoots()
    ensures Q.OpenChecks(Q.EMPTY) && Q.Caught(Q.EMPTY) == {} && forall cutoff :: Q.DeadKeys(Q.EMPTY, cutoff) == {}
  {
  }

  /** The only claim is dead a day later, and the file is then empty. */
  lemma DoneBoots(key: string, file: string, t0: int, now: int)
    requires |key| > 0 && now > t0 + Q.CLAIM_AGE
    ensures var disk := WithDone(Q.EMPTY, key, file, t0);
            && Q.OpenChecks(disk) && Q.Caught(disk) == {}
            && Q.DeadKeys(disk, now - Q.CLAIM_AGE) == {key} && Q.Without(disk, {key}) == Q.EMPTY
  {
    var disk := WithDone(Q.EMPTY, key, file, t0);
    assert disk.claims.Keys == {key} && disk.tasks.Keys == {key};
    var gone := set k | k in disk.claims && k in {key} :: disk.claims[k];
    assert gone == {key};
    assert disk.tasks - {key} == map[] && disk.claims - {key} == map[];
  }

  // --- An instance --------------------------------------------------------------------

  /** The least matching minute is the next one. */
  lemma NextIs(matches: int -> bool, from: int, t: int)
    requires t % MINUTE == 0 && from < t <= Truncate(from) + YEAR_MINUTES * MINUTE && matches(t)
    requires forall u :: from < u < t && u % MINUTE == 0 ==> !matches(u)
    ensures NextAfter(matches, from) == Some(t)
  {
    hide NextAfter, Truncate;
    NextIsLeast(matches, from);
    var r := NextAfter(matches, from);
    if r.Some? {
      assert !(r.value < t) && !(t < r.value);
    }
  }

  const MISSED := 2 * MINUTE
  const AHEAD := 72 * HOUR

  /** Two matching minutes, three days apart; the first was missed when the daemon comes up after an hour. */
  lemma CatchUpStartsTwice(file: string)
    requires |file| > 0
    ensures exists labels, st :: Run(INITIAL, labels).starts == [st, st]
  {
    var sched := Sched(true, t => t == MISSED || t == AHEAD, "", true);
    NextIs(sched.matches, HOUR - MINUTE, AHEAD);
    NextIs(sched.matches, 0 + MINUTE, MISSED);
    assert Presented(sched, false, Some(0), HOUR) == Some(AHEAD);
    hide Presented, SlotKey, Run;
    FarSlotStartsTwice(file, sched, Some(0), HOUR, AHEAD);
    var labels, st := TwiceLabels(file, sched, Some(0), HOUR, AHEAD), Start(file, AHEAD, SlotKey(file, AHEAD));
    assert Run(INITIAL, labels).starts == [st, st];
  }
}

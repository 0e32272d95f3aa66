/**
 The scheduler's durable slot queue: claims and tasks in memory, their last committed image on
 disk, and the fault that stops every further write once one commit has failed.
 */
module SlotQueue {
  import opened Base

  /** A slot's status as the file spells it; a word that is none of the four is Unknown. */
  datatype Status = Running | Done | Failed | Interrupted | Unknown(word: string)

  const CLAIM_AGE := 24 * HOUR

  datatype Task = Task(id: string, key: string, job: string, status: Status, created: int, updated: int)

  /** The state file; a missing file counts as an empty one. */
  datatype Disk = Disk(tasks: map<string, Task>, claims: map<string, string>)

  const EMPTY := Disk(map[], map[])

  /** How an attempted write ends: it succeeds, or it fails with the old or with the new image on disk. */
  datatype Write = Committed | LostOld | LostNew

  /** The queue as one value: what is in memory, whether it is poisoned, and what is on disk. */
  datatype Store = Store(mem: Disk, fault: bool, disk: Disk)

  datatype Answer = Granted | Taken | Refused

  // --- The operations on values -------------------------------------------------------

  predicate KnownStatus(status: Status) {
    !status.Unknown?
  }

  /** The checks made when the state file is read back. */
  predicate OpenChecks(d: Disk) {
    && (forall id :: id in d.tasks ==> d.tasks[id].id == id && |d.tasks[id].key| > 0 && KnownStatus(d.tasks[id].status))
    && (forall k :: k in d.claims ==> d.claims[k] in d.tasks)
  }

  function Open(disk: Disk): Option<Store> {
    if OpenChecks(disk) then Some(Store(disk, false, disk)) else None
  }

  function Commit(s: Store, w: Write): (Store, bool) {
    if s.fault then (s, false)
    else match w
      case Committed => (s.(disk := s.mem), true)
      case LostOld => (s.(fault := true), false)
      case LostNew => (s.(fault := true, disk := s.mem), false)
  }

  function Claim(s: Store, key: string, job: string, now: int, w: Write): (Store, Answer) {
    if s.fault || |key| == 0 || |job| == 0 then (s, Refused)
    else if key in s.mem.claims then (s, Taken)
    else
      var mem := Disk(s.mem.tasks[key := Task(key, key, job, Running, now, now)], s.mem.claims[key := key]);
      var (s', ok) := Commit(s.(mem := mem), w);
      (s', if ok then Granted else Refused)
  }

  function Release(s: Store, key: string, outcome: Status, now: int, w: Write): (Store, bool) {
    if s.fault || key !in s.mem.claims || s.mem.claims[key] !in s.mem.tasks then (s, false)
    else
      var id := s.mem.claims[key];
      var t := s.mem.tasks[id].(status := outcome, updated := now);
      Commit(s.(mem := s.mem.(tasks := s.mem.tasks[id := t])), w)
  }

  function Caught(d: Disk): set<string> {
    set id | id in d.tasks && d.tasks[id].status == Running
  }

  function MarkInterrupted(d: Disk, ids: set<string>, now: int): Disk {
    d.(tasks := map id | id in d.tasks ::
         if id in ids then d.tasks[id].(status := Interrupted, updated := now) else d.tasks[id])
  }

  function Interrupt(s: Store, now: int, w: Write): (Store, set<string>) {
    var ids := Caught(s.mem);
    if s.fault || ids == {} then (s, {})
    else (Commit(s.(mem := MarkInterrupted(s.mem, ids, now)), w).0, ids)
  }

  predicate Dead(d: Disk, key: string, cutoff: int)
    requires key in d.claims
  {
    d.claims[key] !in d.tasks ||
    (d.tasks[d.claims[key]].updated < cutoff && d.tasks[d.claims[key]].status != Running)
  }

  function DeadKeys(d: Disk, cutoff: int): set<string> {
    set k | k in d.claims && Dead(d, k, cutoff)
  }

  /** `d` without the claims in `keys` and without the tasks they name. */
  function Without(d: Disk, keys: set<string>): Disk {
    Disk(d.tasks - (set k | k in d.claims && k in keys :: d.claims[k]), d.claims - keys)
  }

  function Trim(s: Store, now: int, age: int, w: Write): (Store, nat) {
    var dead := DeadKeys(s.mem, now - age);
    if s.fault || dead == {} then (s, 0)
    else (Commit(s.(mem := Without(s.mem, dead)), w).0, |dead|)
  }

  // --- The invariant every written state keeps ----------------------------------------

  /** Claims and tasks have the same keys, every task is filed under its own key, statuses are known. */
  ghost predicate Sound(d: Disk) {
    && (forall id :: id in d.tasks ==>
          d.tasks[id].id == id && d.tasks[id].key == id && |id| > 0 && KnownStatus(d.tasks[id].status))
    && (forall k :: k in d.claims ==> d.claims[k] == k)
    && d.claims.Keys == d.tasks.Keys
  }

  ghost predicate SoundStore(s: Store) {
    Sound(s.mem) && Sound(s.disk) && (!s.fault ==> s.mem == s.disk)
  }

  /** One call of the queue, with the answer of the environment to its write. */
  datatype Op =
    | DoClaim(key: string, job: string, now: int, w: Write)
    | DoRelease(key: string, failed: bool, now: int, w: Write)
    | DoInterrupt(now: int, w: Write)
    | DoTrim(now: int, age: int, w: Write)
    | Restart

  function Apply(s: Store, op: Op): Store {
    match op
    case DoClaim(key, job, now, w) => Claim(s, key, job, now, w).0
    case DoRelease(key, failed, now, w) => Release(s, key, if failed then Failed else Done, now, w).0
    case DoInterrupt(now, w) => Interrupt(s, now, w).0
    case DoTrim(now, age, w) => Trim(s, now, age, w).0
    case Restart => if Open(s.disk).Some? then Open(s.disk).value else s
  }

  function Run(s: Store, ops: seq<Op>): Store
    decreases |ops|
  {
    if ops == [] then s else Run(Apply(s, ops[0]), ops[1..])
  }

  lemma SoundPassesChecks(d: Disk)
    requires Sound(d)
    ensures OpenChecks(d)
  {
  }

  /** A file is refused when a task is misfiled, has no key or an unknown status, or a claim has no task. */
  lemma OpenRefuses(d: Disk)
    ensures Open(d).None? <==>
              || (exists id ::
                    id in d.tasks && (d.tasks[id].id != id || d.tasks[id].key == [] || d.tasks[id].status.Unknown?))
              || (exists k :: k in d.claims && d.claims[k] !in d.tasks)
  {
  }

  /** A granted claim and a confirmed release are on file; and a release of a known slot fails only with its write. */
  lemma AnswersAreOnFile(s: Store, key: string, job: string, outcome: Status, now: int, w: Write)
    requires SoundStore(s)
    ensures var (t, a) := Claim(s, key, job, now, w);
            && (a.Granted? ==> key in t.disk.claims && t.disk.tasks[key] == Task(key, key, job, Running, now, now))
            && (a.Taken? ==> key in s.disk.claims || s.fault)
    ensures var (t, ok) := Release(s, key, outcome, now, w);
            && (ok <==> !s.fault && key in s.mem.claims && w.Committed?)
            && (ok ==> t.disk.tasks[key] == s.disk.tasks[key].(status := outcome, updated := now))
  {
  }

  lemma TrimSound(s: Store, now: int, age: int, w: Write)
    requires SoundStore(s)
    ensures SoundStore(Trim(s, now, age, w).0)
    ensures !s.fault ==> forall k :: k in s.mem.claims ==>
              (k in Trim(s, now, age, w).0.mem.claims <==>
               !(s.mem.tasks[k].updated < now - age && s.mem.tasks[k].status != Running))
    ensures forall k :: k in Trim(s, now, age, w).0.mem.claims ==>
              (k in s.mem.claims && Trim(s, now, age, w).0.mem.tasks[k] == s.mem.tasks[k])
  {
    var dead := DeadKeys(s.mem, now - age);
    var m := Without(s.mem, dead);
    assert (set k | k in s.mem.claims && k in dead :: s.mem.claims[k]) == dead;
    assert m.claims.Keys == m.tasks.Keys;
    if dead == {} {
      assert forall k :: k in s.mem.claims ==> k !in dead;
    }
  }

  lemma CommitSound(s: Store, mem: Disk, w: Write)
    requires SoundStore(s) && Sound(mem)
    ensures SoundStore(Commit(s.(mem := mem), w).0) || s.fault
  {
  }

  lemma ClaimSound(s: Store, key: string, job: string, now: int, w: Write)
    requires SoundStore(s)
    ensures SoundStore(Claim(s, key, job, now, w).0)
  {
    if !s.fault && |key| > 0 && |job| > 0 && key !in s.mem.claims {
      var mem := Disk(s.mem.tasks[key := Task(key, key, job, Running, now, now)], s.mem.claims[key := key]);
      assert mem.claims.Keys == s.mem.claims.Keys + {key} && mem.tasks.Keys == s.mem.tasks.Keys + {key};
      CommitSound(s, mem, w);
    }
  }

  lemma ReleaseSound(s: Store, key: string, outcome: Status, now: int, w: Write)
    requires SoundStore(s) && KnownStatus(outcome)
    ensures SoundStore(Release(s, key, outcome, now, w).0)
  {
    if !s.fault && key in s.mem.claims {
      var t := s.mem.tasks[key].(status := outcome, updated := now);
      var mem := s.mem.(tasks := s.mem.tasks[key := t]);
      assert mem.tasks.Keys == s.mem.tasks.Keys;
      CommitSound(s, mem, w);
    }
  }

  lemma InterruptSound(s: Store, now: int, w: Write)
    requires SoundStore(s)
    ensures SoundStore(Interrupt(s, now, w).0)
  {
    var mem := MarkInterrupted(s.mem, Caught(s.mem), now);
    assert mem.tasks.Keys == s.mem.tasks.Keys;
    if !s.fault { CommitSound(s, mem, w); }
  }

  lemma ApplySound(s: Store, op: Op)
    requires SoundStore(s)
    ensures SoundStore(Apply(s, op))
  {
    match op
    case DoTrim(now, age, w) => TrimSound(s, now, age, w);
    case Restart => SoundPassesChecks(s.disk);
    case DoClaim(key, job, now, w) => ClaimSound(s, key, job, now, w);
    case DoRelease(key, failed, now, w) => ReleaseSound(s, key, if failed then Failed else Done, now, w);
    case DoInterrupt(now, w) => InterruptSound(s, now, w);
  }

  /** Whatever mix of calls, lost writes, crashes and restarts came before, the state file passes every check. */
  lemma {:induction false} EveryDiskStateOpens(s: Store, ops: seq<Op>)
    requires SoundStore(s)
    ensures SoundStore(Run(s, ops)) && Open(Run(s, ops).disk).Some?
    decreases |ops|
  {
    if ops == [] {
      SoundPassesChecks(s.disk);
    } else {
      ApplySound(s, ops[0]);
      EveryDiskStateOpens(Apply(s, ops[0]), ops[1..]);
    }
  }

  /** After one failed commit the file is frozen until a restart, and no claim is granted. */
  lemma {:induction false} PoisonFreezesTheDisk(s: Store, ops: seq<Op>)
    requires s.fault && Restart !in ops
    ensures Run(s, ops) == s
    ensures forall key, job, now, w :: Claim(s, key, job, now, w).1 == Refused
    decreases |ops|
  {
    if ops != [] { PoisonFreezesTheDisk(Apply(s, ops[0]), ops[1..]); }
  }

  /** The same call when its write succeeds. */
  function Committing(op: Op): Op {
    match op
    case DoClaim(key, job, now, _) => DoClaim(key, job, now, Committed)
    case DoRelease(key, failed, now, _) => DoRelease(key, failed, now, Committed)
    case DoInterrupt(now, _) => DoInterrupt(now, Committed)
    case DoTrim(now, age, _) => DoTrim(now, age, Committed)
    case Restart => Restart
  }

  /** The write of call `k` was lost, and everything stayed as it left it, with the old or the new image on file. */
  ghost predicate StuckAt(s: Store, ops: seq<Op>, k: nat)
    requires k < |ops|
  {
    var before, after := Run(s, ops[..k]), Run(s, ops);
    && !before.fault && after.fault && after == Apply(before, ops[k])
    && (after.disk == before.disk || after.disk == Apply(before, Committing(ops[k])).disk)
  }

  /**
   Until a restart, a queue either trusts its file or is stuck where one write was lost: the file is then what
   it was before that call or what the call would have written, and no later call has touched it.
   */
  lemma {:induction false} OldOrNewUntilRestart(s: Store, ops: seq<Op>)
    requires SoundStore(s) && !s.fault && Restart !in ops
    ensures var t := Run(s, ops);
            if t.fault then exists k :: 0 <= k < |ops| && StuckAt(s, ops, k) else t.mem == t.disk
    decreases |ops|
  {
    if ops != [] {
      var s1, rest := Apply(s, ops[0]), ops[1..];
      ApplySound(s, ops[0]);
      LostWrite(s, ops[0]);
      hide Apply, SoundStore;
      if s1.fault {
        PoisonFreezesTheDisk(s1, rest);
        assert Run(s, ops[..0]) == s && StuckAt(s, ops, 0);
      } else {
        OldOrNewUntilRestart(s1, rest);
        if Run(s1, rest).fault {
          var k :| 0 <= k < |rest| && StuckAt(s1, rest, k);
          assert ops[..k + 1][1..] == rest[..k] && ops[k + 1] == rest[k];
          assert Run(s, ops[..k + 1]) == Run(s1, rest[..k]);
          assert StuckAt(s, ops, k + 1);
        }
      }
    }
  }

  lemma LostWrite(s: Store, op: Op)
    requires SoundStore(s) && !s.fault && op != Restart
    ensures var t := Apply(s, op);
            if t.fault then t.disk == s.disk || t.disk == Apply(s, Committing(op)).disk else t.mem == t.disk
  {
    hide Sound, MarkInterrupted, Without, DeadKeys, Caught;
  }

  // --- Every slot by its own history --------------------------------------------------

  datatype Note = Note(status: Status, created: int, updated: int)

  /** What a call makes of the slot `key`. */
  function NextNote(was: Option<Note>, op: Op, key: string): Option<Note> {
    match op
    case DoClaim(k, job, now, _) =>
      if k == key && key != [] && job != [] && was.None? then Some(Note(Running, now, now)) else was
    case DoRelease(k, failed, now, _) =>
      if k == key && was.Some? then Some(was.value.(status := if failed then Failed else Done, updated := now)) else was
    case DoInterrupt(now, _) =>
      if was.Some? && was.value.status == Running then Some(was.value.(status := Interrupted, updated := now)) else was
    case DoTrim(now, age, _) =>
      if was.Some? && was.value.status != Running && was.value.updated < now - age then None else was
    case Restart => was
  }

  /** The slot `key` after the calls of `ops`, told from the calls that concern it alone. */
  function NoteOf(ops: seq<Op>, key: string): Option<Note>
    decreases |ops|
  {
    if ops == [] then None else NextNote(NoteOf(ops[..|ops| - 1], key), ops[|ops| - 1], key)
  }

  ghost predicate AllCommitted(ops: seq<Op>) {
    forall i :: 0 <= i < |ops| ==> ops[i] == Committing(ops[i])
  }

  ghost predicate Noted(d: Disk, key: string, note: Option<Note>) {
    && (key in d.claims <==> note.Some?)
    && (note.Some? ==> key in d.tasks && var t := d.tasks[key]; Note(t.status, t.created, t.updated) == note.value)
  }

  lemma {:induction false} RunSnoc(s: Store, ops: seq<Op>)
    requires ops != []
    ensures Run(s, ops) == Apply(Run(s, ops[..|ops| - 1]), ops[|ops| - 1])
    decreases |ops|
  {
    hide Apply;
    if |ops| == 1 {
      assert ops[1..] == [] && ops[..0] == [];
    } else {
      RunSnoc(Apply(s, ops[0]), ops[1..]);
      assert ops[1..][..|ops| - 2] == ops[..|ops| - 1][1..] && ops[..|ops| - 1][0] == ops[0];
    }
  }

  /** One call whose write succeeds moves every slot as its history says. */
  lemma NoteStep(s: Store, op: Op, was: Option<Note>, key: string)
    requires SoundStore(s) && !s.fault && op == Committing(op) && Noted(s.mem, key, was)
    ensures var t := Apply(s, op); !t.fault && SoundStore(t) && Noted(t.mem, key, NextNote(was, op, key))
  {
    ApplySound(s, op);
    hide Claim, Release, Interrupt, Trim, SoundStore;
    match op
    case DoClaim(k, job, now, _) => ClaimNotes(s, k, job, now, was, key);
    case DoRelease(k, failed, now, _) => ReleaseNotes(s, k, if failed then Failed else Done, now, key);
    case DoInterrupt(now, _) => InterruptNotes(s, now, key);
    case DoTrim(now, age, _) => TrimNotes(s, now, age, key);
    case Restart => RestartNotes(s);
  }

  lemma ClaimNotes(s: Store, k: string, job: string, now: int, was: Option<Note>, key: string)
    requires !s.fault && Noted(s.mem, key, was)
    ensures var t := Claim(s, k, job, now, Committed).0;
            !t.fault && Noted(t.mem, key, NextNote(was, DoClaim(k, job, now, Committed), key))
  {
  }

  lemma ReleaseNotes(s: Store, k: string, outcome: Status, now: int, key: string)
    requires SoundStore(s) && !s.fault
    ensures var t := Release(s, k, outcome, now, Committed).0;
            && !t.fault && t.mem.claims == s.mem.claims && t.mem.tasks.Keys == s.mem.tasks.Keys
            && (key in s.mem.tasks ==>
                  t.mem.tasks[key] ==
                  if k == key then s.mem.tasks[key].(status := outcome, updated := now) else s.mem.tasks[key])
  {
  }

  lemma TrimNotes(s: Store, now: int, age: int, key: string)
    requires SoundStore(s) && !s.fault
    ensures var t := Trim(s, now, age, Committed).0;
            && !t.fault
            && (key in t.mem.claims <==>
                key in s.mem.claims && !(s.mem.tasks[key].updated < now - age && s.mem.tasks[key].status != Running))
            && (key in t.mem.claims ==> key in t.mem.tasks && t.mem.tasks[key] == s.mem.tasks[key])
  {
    TrimSound(s, now, age, Committed);
    hide DeadKeys, Without;
  }

  lemma RestartNotes(s: Store)
    requires SoundStore(s) && !s.fault
    ensures Open(s.disk) == Some(s)
  {
    SoundPassesChecks(s.disk);
  }

  lemma InterruptNotes(s: Store, now: int, key: string)
    requires SoundStore(s) && !s.fault
    ensures var m := Interrupt(s, now, Committed).0.mem;
            && !Interrupt(s, now, Committed).0.fault && m.claims == s.mem.claims && m.tasks.Keys == s.mem.tasks.Keys
            && (key in s.mem.tasks ==>
                  m.tasks[key] == if s.mem.tasks[key].status == Running
                                  then s.mem.tasks[key].(status := Interrupted, updated := now) else s.mem.tasks[key])
  {
    assert key in s.mem.tasks ==> (key in Caught(s.mem) <==> s.mem.tasks[key].status == Running);
    assert MarkInterrupted(s.mem, Caught(s.mem), now).tasks.Keys == s.mem.tasks.Keys;
  }

  /** However the calls for different slots are mixed, every slot is in the state its own calls brought it to. */
  lemma {:induction false} EverySlotFollowsItsCalls(ops: seq<Op>, key: string)
    requires AllCommitted(ops)
    ensures var t := Run(Store(EMPTY, false, EMPTY), ops);
            !t.fault && SoundStore(t) && t.mem == t.disk && Noted(t.mem, key, NoteOf(ops, key))
    decreases |ops|
  {
    if ops != [] {
      var n := |ops| - 1;
      hide Apply, SoundStore, Noted, NextNote, Committing;
      EverySlotFollowsItsCalls(ops[..n], key);
      RunSnoc(Store(EMPTY, false, EMPTY), ops);
      NoteStep(Run(Store(EMPTY, false, EMPTY), ops[..n]), ops[n], NoteOf(ops[..n], key), key);
      SoundAgrees(Run(Store(EMPTY, false, EMPTY), ops));
    }
  }

  lemma SoundAgrees(s: Store)
    requires SoundStore(s) && !s.fault
    ensures s.mem == s.disk
  {
  }

  /** The slots that Interrupted hands back are exactly those that were running. */
  lemma InterruptedAre(ops: seq<Op>, now: int, w: Write, key: string)
    requires AllCommitted(ops)
    ensures var s := Run(Store(EMPTY, false, EMPTY), ops);
            key in Interrupt(s, now, w).1 <==> NoteOf(ops, key).Some? && NoteOf(ops, key).value.status == Running
  {
    EverySlotFollowsItsCalls(ops, key);
    hide Run, NoteOf, MarkInterrupted;
  }

  /** `m` is `d` with every running task interrupted and nothing else changed. */
  ghost predicate Interrupts(d: Disk, m: Disk) {
    && m.claims == d.claims && m.tasks.Keys == d.tasks.Keys
    && (forall id :: id in m.tasks ==> m.tasks[id].status != Running)
    && (forall id :: id in d.tasks && d.tasks[id].status != Running ==> m.tasks[id] == d.tasks[id])
    && (forall id :: id in d.tasks && d.tasks[id].status == Running ==> m.tasks[id].status == Interrupted)
  }

  lemma MarkedInterrupts(d: Disk, now: int)
    ensures Interrupts(d, MarkInterrupted(d, Caught(d), now))
    ensures Caught(d) == {} ==> Interrupts(d, d)
  {
    assert MarkInterrupted(d, Caught(d), now).tasks.Keys == d.tasks.Keys;
    assert forall id :: id in Caught(d) <==> id in d.tasks && d.tasks[id].status == Running;
  }

  /**
   After a restart and Interrupted nothing is running in memory, whatever becomes of the write: every claim
   is kept, finished tasks keep their outcome, and the file is as it was or as memory is.
   */
  lemma RestartInterrupts(s: Store, now: int, w: Write)
    requires SoundStore(s)
    ensures var s' := Interrupt(Open(s.disk).value, now, w).0;
            && Open(s.disk).Some? && Interrupts(s.disk, s'.mem)
            && (s'.disk == s.disk || s'.disk == s'.mem) && (w.Committed? ==> !s'.fault && s'.disk == s'.mem)
            && (s'.fault <==> !w.Committed? && exists id :: id in s.disk.tasks && s.disk.tasks[id].status == Running)
  {
    SoundPassesChecks(s.disk);
    MarkedInterrupts(s.disk, now);
    var ids := Caught(s.disk);
    assert ids != {} ==> exists id :: id in ids;
    hide MarkInterrupted, Interrupts, Sound, OpenChecks;
  }

  // --- The queue object ---------------------------------------------------------------

  class StateFile {
    var content: Disk

    constructor ()
      ensures content == EMPTY
    {
      content := EMPTY;
    }
  }

  class Queue {
    var tasks: map<string, Task>
    var claims: map<string, string>
    var fault: bool
    const file: StateFile

    /** Opens the queue on a file whose content passed the checks. */
    constructor (file: StateFile)
      requires OpenChecks(file.content)
      ensures this.file == file && Some(Value()) == Open(file.content)
    {
      this.file := file;
      tasks, claims, fault := file.content.tasks, file.content.claims, false;
    }

    function Value(): Store
      reads this, file
    {
      Store(Disk(tasks, claims), fault, file.content)
    }

    method DoCommit(w: Write) returns (ok: bool)
      modifies this`fault, file
      ensures (Value(), ok) == Commit(old(Value()), w)
    {
      if fault { return false; }
      if !w.LostOld? { file.content := Disk(tasks, claims); }
      if !w.Committed? { fault := true; }
      return w.Committed?;
    }

    method DoClaim(key: string, job: string, now: int, w: Write) returns (r: Answer)
      modifies this, file
      ensures (Value(), r) == Claim(old(Value()), key, job, now, w)
    {
      if fault || |key| == 0 || |job| == 0 { return Refused; }
      if key in claims { return Taken; }
      var id := key;
      tasks := tasks[id := Task(id, key, job, Running, now, now)];
      claims := claims[key := id];
      var ok := DoCommit(w);
      return if ok then Granted else Refused;
    }

    method DoRelease(key: string, outcome: Status, now: int, w: Write) returns (ok: bool)
      modifies this, file
      ensures (Value(), ok) == Release(old(Value()), key, outcome, now, w)
    {
      if fault || key !in claims { return false; }
      var id := claims[key];
      if id !in tasks { return false; }
      tasks := tasks[id := tasks[id].(status := outcome, updated := now)];
      ok := DoCommit(w);
    }

    method DoInterrupt(now: int, w: Write) returns (out: set<string>)
      modifies this, file
      ensures (Value(), out) == Interrupt(old(Value()), now, w)
    {
      if fault { return {}; }
      out := {};
      ghost var d := Disk(tasks, claims);
      var rest := tasks.Keys;
      while rest != {}
        invariant rest <= d.tasks.Keys && claims == d.claims && !fault && file.content == old(file.content)
        invariant out == set id | id in d.tasks && id !in rest && d.tasks[id].status == Running
        invariant tasks == MarkInterrupted(d, out, now).tasks
        decreases rest
      {
        var id :| id in rest;
        rest := rest - {id};
        assert tasks[id] == d.tasks[id];
        if tasks[id].status != Running { continue; }
        tasks := tasks[id := tasks[id].(status := Interrupted, updated := now)];
        out := out + {id};
      }
      assert out == Caught(d);
      if out == {} {
        assert tasks == d.tasks;
        return;
      }
      var _ := DoCommit(w);
    }

    method TrimClaims(now: int, age: int, w: Write) returns (removed: nat)
      modifies this, file
      ensures (Value(), removed) == Trim(old(Value()), now, age, w)
    {
      if fault { return 0; }
      var cutoff := now - age;
      ghost var d := Disk(tasks, claims);
      ghost var gone: set<string> := {};
      removed := 0;
      var rest := claims.Keys;
      while rest != {}
        invariant rest <= d.claims.Keys && !fault && file.content == old(file.content)
        invariant gone == (set k | k in d.claims && k !in rest && Dead(d, k, cutoff)) && removed == |gone|
        invariant Disk(tasks, claims) == Without(d, gone)
        decreases rest
      {
        var key :| key in rest;
        rest := rest - {key};
        assert claims[key] == d.claims[key];
        var id := claims[key];
        DeadAfter(d, gone, key, cutoff);
        if id !in tasks || (tasks[id].updated < cutoff && tasks[id].status != Running) {
          claims := claims - {key};
          tasks := tasks - {id};
          WithoutOneMore(d, gone, key);
          gone := gone + {key};
          removed := removed + 1;
        }
      }
      assert gone == DeadKeys(d, cutoff);
      if removed > 0 {
        var _ := DoCommit(w);
      } else {
        assert gone == {} && Without(d, gone) == d;
      }
    }
  }

  /** Deleting tasks of dead claims never makes another claim look dead that was not. */
  lemma DeadAfter(d: Disk, gone: set<string>, key: string, cutoff: int)
    requires key in d.claims && key !in gone && gone <= DeadKeys(d, cutoff)
    ensures var id, tasks := d.claims[key], Without(d, gone).tasks;
            (id !in tasks || (tasks[id].updated < cutoff && tasks[id].status != Running)) <==> Dead(d, key, cutoff)
  {
  }

  lemma WithoutOneMore(d: Disk, gone: set<string>, key: string)
    requires key in d.claims
    ensures Without(d, gone + {key}) == Disk(Without(d, gone).tasks - {d.claims[key]}, Without(d, gone).claims - {key})
  {
    assert (set k | k in d.claims && k in gone + {key} :: d.claims[k]) ==
           (set k | k in d.claims && k in gone :: d.claims[k]) + {d.claims[key]};
  }
}

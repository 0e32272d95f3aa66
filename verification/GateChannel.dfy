/**
 The gate's mailbox: one atomic flag and one channel of capacity one, used by any number
 of senders, closers and waiters at once.  Every atomic operation of the code is one step
 of one thread, and a run is any interleaving of such steps.
 */
module GateChannel {
  import opened Base

  datatype Decision = Decision(action: string, edits: map<string, string>)

  datatype Signal = Decide(d: Decision) | Eof

  /** Where a thread stands between two atomic operations. */
  datatype Pc =
    | Idle
    | Loading(s: Signal)               // SendDecision or Close, before the load of the flag
    | Swapping(s: Signal, seen: nat)   // before the compare-and-swap; `seen` signals were accepted at the load
    | Putting(s: Signal)               // the swap was won, before the channel send
    | Answered(accepted: bool)         // SendDecision or Close has its answer
    | Receiving                        // WaitDecision, before the channel receive
    | Storing(d: Decision)             // WaitDecision holds a decision, before the store of zero
    | Got(s: Signal)                   // WaitDecision has its answer

  /** Who holds the outstanding signal.  The code has no such variable. */
  datatype Stage = Free | InHand(t: nat) | InSlot | Taken(t: nat) | Closed

  /** `flag` and `slot` are the code's variables, the last three fields are its history. */
  datatype Sys = Sys(flag: int, slot: seq<Signal>, pcs: seq<Pc>,
                     stage: Stage, accepted: seq<Signal>, received: seq<Signal>)

  datatype Act =
    | Submit(t: nat, s: Signal)
    | Wait(t: nat)
    | Load(t: nat)
    | Swap(t: nat)
    | Put(t: nat)
    | Receive(t: nat)
    | Store(t: nat)
    | Leave(t: nat)

  function Start(threads: nat): Sys {
    Sys(0, [], seq(threads, _ => Idle), Free, [], [])
  }

  /** One atomic operation of thread `a.t`, or None when the thread cannot take it now. */
  function Apply(c: Sys, a: Act): Option<Sys> {
    if a.t >= |c.pcs| then None else
    match (a, c.pcs[a.t])
    case (Submit(t, s), Idle) => Some(c.(pcs := c.pcs[t := Loading(s)]))
    case (Wait(t), Idle) => Some(c.(pcs := c.pcs[t := Receiving]))
    case (Load(t), Loading(s)) =>
      if c.flag == 1 then Some(c.(pcs := c.pcs[t := Answered(false)]))
      else Some(c.(pcs := c.pcs[t := Swapping(s, |c.accepted|)]))
    case (Swap(t), Swapping(s, _)) =>
      if c.flag == 0 then
        Some(c.(flag := 1, pcs := c.pcs[t := Putting(s)], stage := InHand(t), accepted := c.accepted + [s]))
      else Some(c.(pcs := c.pcs[t := Loading(s)]))
    case (Put(t), Putting(s)) =>
      if |c.slot| >= 1 then None
      else Some(c.(slot := c.slot + [s], pcs := c.pcs[t := Answered(true)], stage := InSlot))
    case (Receive(t), Receiving) =>
      if |c.slot| == 0 then None
      else
        var s := c.slot[0];
        var c' := c.(slot := c.slot[1..], received := c.received + [s]);
        if s.Eof? then Some(c'.(pcs := c.pcs[t := Got(s)], stage := Closed))
        else Some(c'.(pcs := c.pcs[t := Storing(s.d)], stage := Taken(t)))
    case (Store(t), Storing(d)) =>
      Some(c.(flag := 0, pcs := c.pcs[t := Got(Decide(d))], stage := Free))
    case (Leave(t), Answered(_)) => Some(c.(pcs := c.pcs[t := Idle]))
    case (Leave(t), Got(_)) => Some(c.(pcs := c.pcs[t := Idle]))
    case _ => None
  }

  /** The state after a schedule, or None when the schedule asks for a step that is not enabled. */
  function Run(c: Sys, acts: seq<Act>): Option<Sys>
    decreases |acts|
  {
    if acts == [] then Some(c)
    else match Apply(c, acts[0])
      case None => None
      case Some(c') => Run(c', acts[1..])
  }

  ghost predicate Inv(c: Sys) {
    && c.flag == (if c.stage.Free? then 0 else 1)
    && (c.stage.InSlot? <==> |c.slot| == 1) && |c.slot| <= 1
    && (c.stage.InHand? || c.stage.Taken? ==> c.stage.t < |c.pcs|)
    && (forall t :: 0 <= t < |c.pcs| ==> ThreadInv(c, t))
    && (c.stage.InHand? && c.pcs[c.stage.t].Putting? ==> c.accepted == c.received + [c.pcs[c.stage.t].s])
    && (c.stage.InSlot? ==> c.accepted == c.received + c.slot)
    && (c.stage.Free? || c.stage.Taken? || c.stage.Closed? ==> c.accepted == c.received)
    && (forall i :: 0 <= i < |c.accepted| - 1 ==> c.accepted[i] != Eof)
    && (c.stage.Closed? <==> |c.received| > 0 && c.received[|c.received| - 1] == Eof)
  }

  ghost predicate ThreadInv(c: Sys, t: nat)
    requires t < |c.pcs|
  {
    && (c.pcs[t].Putting? <==> c.stage == InHand(t))
    && (c.pcs[t].Storing? <==> c.stage == Taken(t))
    && (c.pcs[t].Storing? ==> |c.received| > 0 && c.received[|c.received| - 1] == Decide(c.pcs[t].d))
    && (c.pcs[t].Swapping? ==> c.pcs[t].seen <= |c.accepted| && (c.pcs[t].seen == |c.accepted| ==> c.flag == 0))
  }

  lemma StartInv(threads: nat)
    ensures Inv(Start(threads))
  {
  }

  lemma StepThread(c: Sys, a: Act, t: nat)
    requires Inv(c) && Apply(c, a).Some? && t < |c.pcs|
    ensures |Apply(c, a).value.pcs| == |c.pcs| && ThreadInv(Apply(c, a).value, t)
  {
    assert ThreadInv(c, a.t) && ThreadInv(c, t);
  }

  lemma StepInv(c: Sys, a: Act)
    requires Inv(c) && Apply(c, a).Some?
    ensures Inv(Apply(c, a).value)
  {
    var c' := Apply(c, a).value;
    assert ThreadInv(c, a.t);
    forall t | 0 <= t < |c'.pcs|
      ensures |c'.pcs| == |c.pcs| && ThreadInv(c', t)
    {
      StepThread(c, a, if t < |c.pcs| then t else a.t);
    }
    hide ThreadInv;
  }

  lemma {:induction false} RunInv(c: Sys, acts: seq<Act>)
    requires Inv(c) && Run(c, acts).Some?
    ensures Inv(Run(c, acts).value)
    decreases |acts|
  {
    if acts != [] {
      StepInv(c, acts[0]);
      RunInv(Apply(c, acts[0]).value, acts[1..]);
    }
  }

  /** What the invariant says of the thread that holds the signal and of all the others. */
  lemma Holder(c: Sys)
    requires Inv(c)
    ensures forall t :: 0 <= t < |c.pcs| ==> (c.pcs[t].Putting? <==> c.stage == InHand(t))
    ensures forall t :: 0 <= t < |c.pcs| ==> (c.pcs[t].Storing? <==> c.stage == Taken(t))
    ensures c.stage.InHand? ==> c.pcs[c.stage.t].Putting? && c.accepted == c.received + [c.pcs[c.stage.t].s]
    ensures c.stage.Taken? ==> c.pcs[c.stage.t].Storing?
    ensures c.received <= c.accepted && |c.accepted| <= |c.received| + 1
  {
    forall t | 0 <= t < |c.pcs|
      ensures (c.pcs[t].Putting? <==> c.stage == InHand(t)) && (c.pcs[t].Storing? <==> c.stage == Taken(t))
    {
      assert ThreadInv(c, t);
    }
  }

  /** Two threads can never both be delivering or both be reopening: one signal is outstanding at most. */
  ghost predicate Carries(c: Sys, t: nat)
    requires t < |c.pcs|
  {
    c.pcs[t].Putting? || c.pcs[t].Storing?
  }

  /**
   Safety in every interleaving of any number of threads: one carrier at most, an empty slot
   whenever a send is about to happen, deliveries in order and without repetition, and nothing
   accepted after an accepted close.
   */
  lemma MailboxSafety(threads: nat, acts: seq<Act>)
    requires Run(Start(threads), acts).Some?
    ensures var c := Run(Start(threads), acts).value;
            && (forall t, u :: 0 <= t < |c.pcs| && 0 <= u < |c.pcs| && Carries(c, t) && Carries(c, u) ==> t == u)
            && (forall t :: 0 <= t < |c.pcs| && c.pcs[t].Putting? ==> Apply(c, Put(t)).Some?)
            && c.received <= c.accepted && |c.accepted| <= |c.received| + 1
            && (forall i :: 0 <= i < |c.accepted| && c.accepted[i] == Eof ==> i == |c.accepted| - 1)
  {
    StartInv(threads);
    RunInv(Start(threads), acts);
    Holder(Run(Start(threads), acts).value);
  }

  /** The histories only grow, so what was accepted or received stays so. */
  lemma {:induction false} HistoryGrows(c: Sys, acts: seq<Act>)
    requires Run(c, acts).Some?
    ensures c.accepted <= Run(c, acts).value.accepted && c.received <= Run(c, acts).value.received
    ensures |Run(c, acts).value.pcs| == |c.pcs|
    decreases |acts|
  {
    if acts != [] {
      HistoryGrows(Apply(c, acts[0]).value, acts[1..]);
    }
  }

  /** Once a close was accepted, no later step of any thread changes what is accepted. */
  lemma CloseIsFinal(threads: nat, before: seq<Act>, after: seq<Act>)
    requires Run(Start(threads), before).Some?
    requires Eof in Run(Start(threads), before).value.accepted
    requires Run(Run(Start(threads), before).value, after).Some?
    ensures Run(Run(Start(threads), before).value, after).value.accepted == Run(Start(threads), before).value.accepted
  {
    var c := Run(Start(threads), before).value;
    StartInv(threads);
    RunInv(Start(threads), before);
    RunInv(c, after);
    HistoryGrows(c, after);
    var i :| 0 <= i < |c.accepted| && c.accepted[i] == Eof;
    assert Run(c, after).value.accepted[i] == Eof;
  }

  /** A call is turned away only while a signal is outstanding or after the close was delivered. */
  lemma {:induction false} RefusedOnlyWhenTaken(threads: nat, acts: seq<Act>, t: nat)
    requires Run(Start(threads), acts).Some?
    requires var c := Run(Start(threads), acts).value;
             t < |c.pcs| && c.pcs[t].Loading?
    ensures var c := Run(Start(threads), acts).value;
            var pending := |c.accepted| > |c.received| || exists u :: 0 <= u < |c.pcs| && c.pcs[u].Storing?;
            Apply(c, Load(t)).value.pcs[t] == Answered(false) <==> pending || Eof in c.received
  {
    StartInv(threads);
    RunInv(Start(threads), acts);
    var c := Run(Start(threads), acts).value;
    Holder(c);
    if Eof in c.received {
      var i :| 0 <= i < |c.received| && c.received[i] == Eof;
      assert c.accepted[i] == Eof;
    }
  }

  /** The retry loop is lock-free: a swap is lost only when another signal was accepted since the load. */
  lemma {:induction false} LostSwapMeansProgress(threads: nat, acts: seq<Act>, t: nat)
    requires Run(Start(threads), acts).Some?
    requires var c := Run(Start(threads), acts).value;
             t < |c.pcs| && c.pcs[t].Swapping? && Apply(c, Swap(t)).value.pcs[t].Loading?
    ensures var c := Run(Start(threads), acts).value;
            c.pcs[t].seen < |c.accepted|
  {
    StartInv(threads);
    RunInv(Start(threads), acts);
    assert ThreadInv(Run(Start(threads), acts).value, t);
  }

  /**
   An accepted signal is never lost: at every reachable moment a thread that waits can be given
   it as its answer within three steps, and it is exactly the oldest signal not yet received.
   */
  lemma {:induction false} PendingSignalIsDeliverable(threads: nat, acts: seq<Act>, w: nat)
    requires Run(Start(threads), acts).Some?
    requires var c := Run(Start(threads), acts).value;
             w < |c.pcs| && c.pcs[w].Receiving? && |c.received| < |c.accepted|
    ensures exists more :: Delivers(Run(Start(threads), acts).value, w, more)
  {
    StartInv(threads);
    RunInv(Start(threads), acts);
    var c := Run(Start(threads), acts).value;
    Holder(c);
    hide Inv;
    if c.stage.InHand? {
      var p := c.stage.t;
      var full := Apply(c, Put(p)).value;
      assert full.slot == [c.pcs[p].s];
      var rest := TakesTheSlot(full, w);
      Cons(c, Put(p), rest);
      assert Delivers(c, w, [Put(p)] + rest);
    } else {
      assert c.slot == [c.slot[0]];
      var more := TakesTheSlot(c, w);
      assert Delivers(c, w, more);
    }
  }

  /** After `more`, three steps at most, the oldest signal not yet received is the answer of thread `w`. */
  ghost predicate Delivers(c: Sys, w: nat, more: seq<Act>)
    requires w < |c.pcs| && |c.received| < |c.accepted|
  {
    && |more| <= 3 && Run(c, more).Some?
    && var c' := Run(c, more).value;
       && |c'.pcs| == |c.pcs| && c'.received == c.accepted == c'.accepted
       && c'.pcs[w] == Got(c.accepted[|c.received|])
  }

  /** The waiting thread empties the slot and has its answer, in two steps or, if it is told of a close, in one. */
  lemma TakesTheSlot(c: Sys, w: nat) returns (more: seq<Act>)
    requires w < |c.pcs| && c.pcs[w].Receiving? && |c.slot| == 1 && c.accepted == c.received + c.slot
    ensures |more| <= 2 && Run(c, more).Some?
    ensures var c' := Run(c, more).value;
            && |c'.pcs| == |c.pcs| && c'.received == c.accepted == c'.accepted
            && c'.pcs[w] == Got(c.accepted[|c.received|])
  {
    var c1 := Apply(c, Receive(w)).value;
    assert c1.received == c.accepted;
    Cons(c, Receive(w), []);
    more := [Receive(w)];
    if c.slot[0].Decide? {
      Cons(c1, Store(w), []);
      Cons(c, Receive(w), [Store(w)]);
      more := [Receive(w)] + [Store(w)];
    }
  }

  lemma Cons(c: Sys, a: Act, more: seq<Act>)
    requires Apply(c, a).Some?
    ensures Run(c, [a] + more) == Run(Apply(c, a).value, more)
    ensures Run(c, [a]) == Apply(c, a)
  {
    assert ([a] + more)[1..] == more && [a][1..] == [];
  }

  // --- What each call answers ---------------------------------------------------------

  /** The states a run of `acts` goes through. */
  ghost predicate Trace(threads: nat, acts: seq<Act>, states: seq<Sys>) {
    && |states| == |acts| + 1 && states[0] == Start(threads)
    && forall i :: 0 <= i < |acts| ==> Apply(states[i], acts[i]) == Some(states[i + 1])
  }

  lemma {:induction false} RunHasTrace(threads: nat, acts: seq<Act>) returns (states: seq<Sys>)
    requires Run(Start(threads), acts).Some?
    ensures Trace(threads, acts, states) && states[|acts|] == Run(Start(threads), acts).value
  {
    hide Apply;
    states := StatesFrom(Start(threads), acts);
  }

  lemma {:induction false} StatesFrom(c: Sys, acts: seq<Act>) returns (states: seq<Sys>)
    requires Run(c, acts).Some?
    ensures |states| == |acts| + 1 && states[0] == c && states[|acts|] == Run(c, acts).value
    ensures forall i :: 0 <= i < |acts| ==> Apply(states[i], acts[i]) == Some(states[i + 1])
    decreases |acts|
  {
    hide Apply;
    states := [c];
    if acts != [] {
      var rest := StatesFrom(Apply(c, acts[0]).value, acts[1..]);
      states := states + rest;
      forall i | 0 <= i < |acts| ensures Apply(states[i], acts[i]) == Some(states[i + 1]) {
        if i > 0 { assert acts[i] == acts[1..][i - 1]; }
      }
    }
  }

  /**
   A wait that has its answer, or is about to give it, has the signal that its own receive took from the slot.
   */
  lemma {:induction false} WaitAnswersItsReceive(threads: nat, acts: seq<Act>, states: seq<Sys>, n: nat, t: nat)
    returns (i: nat)
    requires Trace(threads, acts, states) && n <= |acts| && t < |states[n].pcs|
    requires states[n].pcs[t].Got? || states[n].pcs[t].Storing?
    ensures i < n && acts[i] == Receive(t) && forall k :: i < k < n ==> acts[k] != Receive(t)
    ensures var s := if states[n].pcs[t].Got? then states[n].pcs[t].s else Decide(states[n].pcs[t].d);
            && states[i].slot != [] && states[i].slot[0] == s
            && states[i + 1].received == states[i].received + [s]
  {
    hide Apply;
    assert Apply(states[n - 1], acts[n - 1]) == Some(states[n]);
    WaitStep(states[n - 1], acts[n - 1], t);
    if acts[n - 1] == Receive(t) {
      i := n - 1;
    } else {
      i := WaitAnswersItsReceive(threads, acts, states, n - 1, t);
    }
  }

  /** A thread comes by an answer to its wait by receiving it, and keeps it while it stores the flag. */
  lemma WaitStep(c: Sys, a: Act, t: nat)
    requires Apply(c, a).Some?
    ensures var c' := Apply(c, a).value;
            && |c'.pcs| == |c.pcs|
            && (t < |c'.pcs| && (c'.pcs[t].Got? || c'.pcs[t].Storing?) ==>
                  var s := if c'.pcs[t].Got? then c'.pcs[t].s else Decide(c'.pcs[t].d);
                  if a == Receive(t) then c.slot != [] && c.slot[0] == s && c'.received == c.received + [s]
                  else c.pcs[t] == Got(s) || (c.pcs[t].Storing? && Decide(c.pcs[t].d) == s))
  {
  }

  /** One of the acts from number `i` to `n` is a swap of thread `t` that adds `s` to what is accepted. */
  ghost predicate Won(acts: seq<Act>, states: seq<Sys>, i: nat, n: nat, t: nat, s: Signal)
    requires n <= |acts| && |states| == |acts| + 1
  {
    exists k :: i < k < n && acts[k] == Swap(t) && states[k + 1].accepted == states[k].accepted + [s]
  }

  ghost predicate Calling(pc: Pc) {
    pc.Loading? || pc.Swapping? || pc.Putting? || pc.Answered?
  }

  /** A call was accepted, or is being delivered, exactly when its own swap added its signal to what is accepted. */
  lemma {:induction false} CallAnswersItsSwap(threads: nat, acts: seq<Act>, states: seq<Sys>, n: nat, t: nat)
    returns (i: nat, s: Signal)
    requires Trace(threads, acts, states) && n <= |acts| && t < |states[n].pcs| && Calling(states[n].pcs[t])
    ensures i < n && acts[i] == Submit(t, s) && forall k, u :: i < k < n ==> acts[k] != Submit(t, u)
    ensures var pc := states[n].pcs[t];
            && (Won(acts, states, i, n, t, s) <==> pc.Putting? || pc == Answered(true))
            && (!pc.Answered? ==> pc.s == s)
  {
    hide Apply, Won;
    assert Apply(states[n - 1], acts[n - 1]) == Some(states[n]);
    CallStep(states[n - 1], acts[n - 1], t);
    if acts[n - 1].Submit? && acts[n - 1].t == t {
      i, s := n - 1, acts[n - 1].s;
      NotYetWon(acts, states, i, t, s);
    } else {
      i, s := CallAnswersItsSwap(threads, acts, states, n - 1, t);
      WonGrows(acts, states, i, n, t, s);
    }
  }

  /** How one step moves a call of thread `t` on. */
  lemma CallStep(c: Sys, a: Act, t: nat)
    requires Apply(c, a).Some? && t < |Apply(c, a).value.pcs| && Calling(Apply(c, a).value.pcs[t])
    ensures |Apply(c, a).value.pcs| == |c.pcs|
    ensures var c', was, pc := Apply(c, a).value, c.pcs[t], Apply(c, a).value.pcs[t];
            if a.Submit? && a.t == t then pc == Loading(a.s) && c'.accepted == c.accepted else
            && Calling(was) && (!pc.Answered? ==> !was.Answered? && pc.s == was.s)
            && (a == Swap(t) ==> was.Swapping? && if pc.Putting? then c'.accepted == c.accepted + [was.s]
                                                  else pc.Loading? && c'.accepted == c.accepted)
            && (a != Swap(t) ==> (pc.Putting? || pc == Answered(true) <==> was.Putting? || was == Answered(true)))
  {
  }

  lemma NotYetWon(acts: seq<Act>, states: seq<Sys>, i: nat, t: nat, s: Signal)
    requires i < |acts| && |states| == |acts| + 1
    ensures !Won(acts, states, i, i + 1, t, s)
  {
  }

  lemma WonGrows(acts: seq<Act>, states: seq<Sys>, i: nat, n: nat, t: nat, s: Signal)
    requires 0 < n <= |acts| && |states| == |acts| + 1 && i < n - 1
    ensures Won(acts, states, i, n, t, s) <==>
              Won(acts, states, i, n - 1, t, s)
              || (acts[n - 1] == Swap(t) && states[n].accepted == states[n - 1].accepted + [s])
  {
  }

  /**
   No other thread can take the delivery away: a pending send, store or (while the slot is full)
   receive stays enabled whatever single step another thread makes, unless that step is the receive
   itself.
   */
  lemma DeliveryStaysEnabled(c: Sys, own: Act, other: Act)
    requires Inv(c) && Apply(c, own).Some? && Apply(c, other).Some? && own.t != other.t
    requires own.Put? || own.Store? || (own.Receive? && !other.Receive?)
    ensures Apply(Apply(c, other).value, own).Some?
  {
    assert ThreadInv(c, own.t) && ThreadInv(c, other.t);
  }

  // --- Endless runs -------------------------------------------------------------------

  /** An operation that is not enabled when its turn comes changes nothing. */
  function Perform(c: Sys, a: Act): Sys {
    if Apply(c, a).Some? then Apply(c, a).value else c
  }

  /** The state after `i` turns of an endless schedule. */
  ghost function At(threads: nat, acts: nat -> Act, i: nat): Sys {
    if i == 0 then Start(threads) else Perform(At(threads, acts, i - 1), acts(i - 1))
  }

  /** From turn `n` on, the operation `a` gets a turn or is once not enabled. */
  ghost predicate Served(threads: nat, acts: nat -> Act, n: nat, a: Act) {
    exists m: nat :: n <= m && (acts(m) == a || Apply(At(threads, acts, m), a).None?)
  }

  /**
   Weak fairness: no send and no receive stays enabled for ever without getting a turn.  Which calls are made,
   and whether any more are, is left to the callers.
   */
  ghost predicate Fair(threads: nat, acts: nat -> Act) {
    forall n: nat, a: Act | a.Put? || a.Receive? :: Served(threads, acts, n, a)
  }

  lemma {:induction false} AtInv(threads: nat, acts: nat -> Act, i: nat)
    ensures Inv(At(threads, acts, i))
  {
    hide Inv, Apply;
    if i == 0 {
      StartInv(threads);
    } else {
      AtInv(threads, acts, i - 1);
      var c := At(threads, acts, i - 1);
      if Apply(c, acts(i - 1)).Some? { StepInv(c, acts(i - 1)); }
    }
  }

  /** A signal was accepted and not yet received, and thread `w` waits for one. */
  ghost predicate Awaited(c: Sys, w: nat) {
    w < |c.pcs| && c.pcs[w].Receiving? && |c.received| < |c.accepted|
  }

  /** While a signal is on its way nothing else is accepted; it moves on by its own send and receive alone. */
  lemma OnItsWay(c: Sys, a: Act, w: nat)
    requires Inv(c) && Awaited(c, w)
    ensures var c' := Perform(c, a);
            && (c.stage.InHand? || c.stage.InSlot?)
            && (c.stage.InHand? ==> Apply(c, Put(c.stage.t)).Some? && Awaited(c', w) && c'.accepted == c.accepted
                                    && c'.stage == if a == Put(c.stage.t) then InSlot else c.stage)
            && (c.stage.InSlot? ==> Apply(c, Receive(w)).Some? && c'.accepted == c.accepted)
            && (c.stage.InSlot? && c'.received != c.accepted ==>
                Awaited(c', w) && c'.stage == InSlot && a != Receive(w))
  {
    Holder(c);
    if a.t < |c.pcs| { assert ThreadInv(c, a.t); }
  }

  /** A signal in the hand of its sender reaches the slot. */
  lemma {:induction false} ReachesTheSlot(threads: nat, acts: nat -> Act, w: nat, n: nat, m: nat) returns (k: nat)
    requires var c := At(threads, acts, n);
             && Awaited(c, w) && c.stage.InHand? && n <= m
             && (acts(m) == Put(c.stage.t) || Apply(At(threads, acts, m), Put(c.stage.t)).None?)
    ensures n < k && Awaited(At(threads, acts, k), w) && At(threads, acts, k).stage == InSlot
    ensures At(threads, acts, k).accepted == At(threads, acts, n).accepted
    decreases m - n
  {
    hide Apply, Inv, Perform, Awaited;
    var c := At(threads, acts, n);
    AtInv(threads, acts, n);
    OnItsWay(c, acts(n), w);
    assert At(threads, acts, n + 1) == Perform(c, acts(n));
    if acts(n) == Put(c.stage.t) {
      k := n + 1;
    } else {
      k := ReachesTheSlot(threads, acts, w, n + 1, m);
    }
  }

  /** A signal in the slot is received. */
  lemma {:induction false} LeavesTheSlot(threads: nat, acts: nat -> Act, w: nat, n: nat, m: nat) returns (k: nat)
    requires var c := At(threads, acts, n);
             && Awaited(c, w) && c.stage.InSlot? && n <= m
             && (acts(m) == Receive(w) || Apply(At(threads, acts, m), Receive(w)).None?)
    ensures n < k && At(threads, acts, k).received == At(threads, acts, n).accepted
    decreases m - n
  {
    hide Apply, Inv, Perform, Awaited;
    var c := At(threads, acts, n);
    AtInv(threads, acts, n);
    OnItsWay(c, acts(n), w);
    assert At(threads, acts, n + 1) == Perform(c, acts(n));
    if At(threads, acts, n + 1).received == c.accepted {
      k := n + 1;
    } else {
      k := LeavesTheSlot(threads, acts, w, n + 1, m);
    }
  }

  /**
   In every endless fair run of any number of threads, a signal that was accepted is received while a thread
   waits: no accepted decision and no accepted close is lost.
   */
  lemma EveryAcceptedSignalIsReceived(threads: nat, acts: nat -> Act, w: nat, n: nat)
    requires Fair(threads, acts) && Awaited(At(threads, acts, n), w)
    ensures exists k: nat :: n < k && At(threads, acts, k).received == At(threads, acts, n).accepted
  {
    hide Apply, Inv, Perform, Awaited;
    var c := At(threads, acts, n);
    AtInv(threads, acts, n);
    OnItsWay(c, acts(n), w);
    var start := n;
    if c.stage.InHand? {
      assert Served(threads, acts, n, Put(c.stage.t));
      var m: nat :| n <= m && (acts(m) == Put(c.stage.t) || Apply(At(threads, acts, m), Put(c.stage.t)).None?);
      start := ReachesTheSlot(threads, acts, w, n, m);
    }
    assert Served(threads, acts, start, Receive(w));
    var m: nat :| start <= m && (acts(m) == Receive(w) || Apply(At(threads, acts, m), Receive(w)).None?);
    var k := LeavesTheSlot(threads, acts, w, start, m);
  }
}

/**
 Pairing a browser with the server: a one-time code with a failure counter and a lockout,
 and the bounded set of live session tokens it is exchanged for.
 */
module PairingSession {
  import opened Base

  const CODE_TTL := 10 * MINUTE
  const MAX_SESSIONS: nat := 8
  const MAX_FAILURES: nat := 5
  const LOCKOUT := MINUTE

  datatype Entry = Entry(token: string, created: int, expires: int)

  datatype Answer = Token(token: string) | Locked | Dead | Bad | NoRandom

  /** The fields of the server that belong to the pairing code; `blocked` is None for the zero time. */
  datatype Code = Code(code: string, used: bool, expires: int, failures: nat, blocked: Option<int>)

  /** One exchange attempt: a normalised guess, its time, and the token the entropy source would give. */
  datatype Attempt = Attempt(guess: string, now: int, entropy: Option<string>)

  function Fresh(code: string, now: int): Code {
    Code(code, false, now + CODE_TTL, 0, None)
  }

  function Try(c: Code, a: Attempt): (Code, Answer) {
    if c.blocked.Some? && a.now < c.blocked.value then (c, Locked)
    else if c.used || a.now > c.expires then (c, Dead)
    else if a.guess != c.code then
      if c.failures + 1 >= MAX_FAILURES then (c.(failures := 0, blocked := Some(a.now + LOCKOUT)), Bad)
      else (c.(failures := c.failures + 1), Bad)
    else if a.entropy.None? then (c, NoRandom)
    else (c.(used := true), Token(a.entropy.value))
  }

  function Answers(c: Code, attempts: seq<Attempt>): seq<Answer>
    decreases |attempts|
  {
    if attempts == [] then [] else
    var (c', r) := Try(c, attempts[0]);
    [r] + Answers(c', attempts[1..])
  }

  /** How many answers were refusals of a wrong guess, and how many handed out a token. */
  function Wrong(answers: seq<Answer>): nat {
    if answers == [] then 0 else (if answers[0].Bad? then 1 else 0) + Wrong(answers[1..])
  }

  function Tokens(answers: seq<Answer>): nat {
    if answers == [] then 0 else (if answers[0].Token? then 1 else 0) + Tokens(answers[1..])
  }

  /** No attempt took its time before `base`; in what order the attempts are handled does not matter. */
  ghost predicate Since(attempts: seq<Attempt>, base: int) {
    forall i :: 0 <= i < |attempts| ==> base <= attempts[i].now
  }

  /** How many lockouts can begin, one after the other, in a stretch of `d`, both ends included. */
  function Periods(d: int): nat {
    if d < 0 then 0 else d / LOCKOUT + 1
  }

  /**
   `locks` lockouts were started so far, each at least one lockout after the one before it, so the
   present one ends no earlier than `base + locks * LOCKOUT`.
   */
  ghost predicate Metered(c: Code, base: int, locks: nat) {
    && c.failures < MAX_FAILURES
    && (locks > 0 ==> c.blocked.Some? && c.blocked.value >= base + locks * LOCKOUT)
  }

  /** A wrong guess that is answered leaves room for the lockout it may start. */
  lemma RoomForOneMore(d: int, locks: nat)
    requires locks * LOCKOUT <= d
    ensures locks < Periods(d)
  {
  }

  lemma {:induction false} WrongGuessBudget(c: Code, attempts: seq<Attempt>, base: int, locks: nat)
    requires Metered(c, base, locks) && Since(attempts, base)
    requires locks <= Periods(c.expires - base) && (locks == Periods(c.expires - base) ==> c.failures == 0)
    ensures Wrong(Answers(c, attempts)) + locks * MAX_FAILURES + c.failures <= MAX_FAILURES * Periods(c.expires - base)
    decreases |attempts|
  {
    hide Periods;
    if attempts != [] {
      var (c', r) := Try(c, attempts[0]);
      if r.Bad? { RoomForOneMore(c.expires - base, locks); }
      WrongGuessBudget(c', attempts[1..], base, if r.Bad? && c'.failures == 0 then locks + 1 else locks);
    }
  }

  lemma {:induction false} UsedCodeIsDead(c: Code, attempts: seq<Attempt>)
    requires c.used
    ensures Tokens(Answers(c, attempts)) == 0 && Wrong(Answers(c, attempts)) == 0
    decreases |attempts|
  {
    if attempts != [] { UsedCodeIsDead(c, attempts[1..]); }
  }

  lemma {:induction false} OneToken(c: Code, attempts: seq<Attempt>)
    ensures Tokens(Answers(c, attempts)) <= 1
    decreases |attempts|
  {
    if attempts != [] {
      var (c', r) := Try(c, attempts[0]);
      if r.Token? { UsedCodeIsDead(c', attempts[1..]); } else { OneToken(c', attempts[1..]); }
    }
  }

  /**
   One code answers at most five wrong guesses a lockout period from the earliest attempt to the end of its
   life, and yields at most one token, over any attempts in any order.
   */
  lemma GuessBound(code: string, born: int, attempts: seq<Attempt>, base: int)
    requires Since(attempts, base)
    ensures Wrong(Answers(Fresh(code, born), attempts)) <= MAX_FAILURES * Periods(born + CODE_TTL - base)
    ensures Tokens(Answers(Fresh(code, born), attempts)) <= 1
  {
    hide Periods;
    WrongGuessBudget(Fresh(code, born), attempts, base, 0);
    OneToken(Fresh(code, born), attempts);
  }

  /** So it is 55 as long as no attempt read its clock a whole lockout before the code was made. */
  lemma FiftyFiveGuesses(code: string, born: int, attempts: seq<Attempt>)
    requires forall i :: 0 <= i < |attempts| ==> born - LOCKOUT < attempts[i].now
    ensures Wrong(Answers(Fresh(code, born), attempts)) <= 55
  {
    GuessBound(code, born, attempts, born - LOCKOUT + 1);
  }

  /** The guesser who wastes no time: five guesses at the start of each lockout period from `round` to `rounds`. */
  function Relentless(guess: string, base: int, rounds: nat, round: nat, done: nat): seq<Attempt>
    requires round <= rounds && done < 5
    decreases rounds - round, 5 - done
  {
    if round == rounds then [] else
    [Attempt(guess, base + round * LOCKOUT, None)] +
    (if done == 4 then Relentless(guess, base, rounds, round + 1, 0)
     else Relentless(guess, base, rounds, round, done + 1))
  }

  lemma {:induction false} RelentlessCount(c: Code, guess: string, base: int, rounds: nat, round: nat, done: nat)
    requires round <= rounds && done < 5 && guess != c.code && !c.used && c.failures == done
    requires rounds > 0 ==> base + (rounds - 1) * LOCKOUT <= c.expires
    requires c.blocked.Some? ==> c.blocked.value <= base + round * LOCKOUT
    ensures Since(Relentless(guess, base, rounds, round, done), base)
    ensures Wrong(Answers(c, Relentless(guess, base, rounds, round, done))) ==
            if round == rounds then 0 else MAX_FAILURES * (rounds - round) - done
    decreases rounds - round, 5 - done
  {
    if round < rounds {
      var attempts := Relentless(guess, base, rounds, round, done);
      var a := attempts[0];
      var (c', r) := Try(c, a);
      var rest := if done == 4 then Relentless(guess, base, rounds, round + 1, 0)
        else Relentless(guess, base, rounds, round, done + 1);
      assert attempts == [a] + rest && attempts[1..] == rest;
      hide Relentless;
      if done == 4 {
        RelentlessCount(c', guess, base, rounds, round + 1, 0);
      } else {
        RelentlessCount(c', guess, base, rounds, round, done + 1);
      }
    }
  }

  /** The bound is reached whatever the earliest time, so it is the exact one; from the birth of the code it is 55. */
  lemma GuessBoundIsTight(code: string, guess: string, born: int, base: int)
    requires guess != code
    ensures exists attempts :: Since(attempts, base)
              && Wrong(Answers(Fresh(code, born), attempts)) == MAX_FAILURES * Periods(born + CODE_TTL - base)
    ensures MAX_FAILURES * Periods(born + CODE_TTL - born) == 55
  {
    var rounds := Periods(born + CODE_TTL - base);
    RelentlessCount(Fresh(code, born), guess, base, rounds, 0, 0);
    assert Since(Relentless(guess, base, rounds, 0, 0), base);
  }

  // --- What every attempt is answered -------------------------------------------------

  /** The code before attempt number `i`. */
  function CodeAt(c: Code, attempts: seq<Attempt>, i: nat): Code
    requires i <= |attempts|
  {
    if i == 0 then c else Try(CodeAt(c, attempts, i - 1), attempts[i - 1]).0
  }

  lemma {:induction false} CodeAtTail(c: Code, attempts: seq<Attempt>, i: nat)
    requires 0 < i <= |attempts|
    ensures CodeAt(c, attempts, i) == CodeAt(Try(c, attempts[0]).0, attempts[1..], i - 1)
  {
    hide Try;
    if i > 1 { CodeAtTail(c, attempts, i - 1); }
  }

  lemma {:induction false} AnswerAt(c: Code, attempts: seq<Attempt>, i: nat)
    requires i < |attempts|
    ensures |Answers(c, attempts)| == |attempts|
    ensures Answers(c, attempts)[i] == Try(CodeAt(c, attempts, i), attempts[i]).1
    decreases |attempts|
  {
    hide Try;
    if |attempts| > 1 {
      if i > 0 { CodeAtTail(c, attempts, i); }
      AnswerAt(Try(c, attempts[0]).0, attempts[1..], if i > 0 then i - 1 else 0);
    }
  }

  lemma {:induction false} AnswerCount(c: Code, attempts: seq<Attempt>)
    ensures |Answers(c, attempts)| == |attempts|
    decreases |attempts|
  {
    hide Try;
    if attempts != [] { AnswerCount(Try(c, attempts[0]).0, attempts[1..]); }
  }

  lemma {:induction false} WrongSnoc(answers: seq<Answer>, i: nat)
    requires i < |answers|
    ensures Wrong(answers[..i + 1]) == Wrong(answers[..i]) + if answers[i].Bad? then 1 else 0
  {
    if i > 0 {
      assert answers[..i + 1][1..] == answers[1..][..i] && answers[..i][1..] == answers[1..][..i - 1];
      WrongSnoc(answers[1..], i - 1);
    }
  }

  /** Answer `j` refused a wrong guess, and it was the fifth, tenth, ... refused one. */
  ghost predicate Fifth(answers: seq<Answer>, j: nat)
    requires j < |answers|
  {
    answers[j].Bad? && Wrong(answers[..j + 1]) % MAX_FAILURES == 0
  }

  /** Attempt `i` comes less than a lockout after an earlier fifth wrong guess. */
  ghost predicate LockedOut(attempts: seq<Attempt>, answers: seq<Answer>, i: nat)
    requires |answers| == |attempts| && i < |attempts|
  {
    exists j :: 0 <= j < i && Fifth(answers, j) && attempts[i].now < attempts[j].now + LOCKOUT
  }

  ghost predicate Spent(answers: seq<Answer>, i: nat)
    requires i <= |answers|
  {
    exists j :: 0 <= j < i && answers[j].Token?
  }

  /** What the first `i` answers say of the code: it is used, its failures and its lockout. */
  ghost predicate Ledger(c: Code, code: string, born: int, attempts: seq<Attempt>, answers: seq<Answer>, i: nat)
    requires |answers| == |attempts| && i <= |attempts|
  {
    && c.code == code && c.expires == born + CODE_TTL && (c.used <==> Spent(answers, i))
    && c.failures == Wrong(answers[..i]) % MAX_FAILURES
    && (forall j :: 0 <= j < i && Fifth(answers, j) ==> c.blocked.Some? && attempts[j].now + LOCKOUT <= c.blocked.value)
    && (c.blocked.Some? ==> exists j :: 0 <= j < i && Fifth(answers, j) && c.blocked.value == attempts[j].now + LOCKOUT)
  }

  lemma {:induction false} CodeFollowsAnswers(code: string, born: int, attempts: seq<Attempt>, i: nat)
    requires i <= |attempts|
    ensures |Answers(Fresh(code, born), attempts)| == |attempts|
    ensures var c := Fresh(code, born);
            Ledger(CodeAt(c, attempts, i), code, born, attempts, Answers(c, attempts), i)
  {
    AnswerCount(Fresh(code, born), attempts);
    if i > 0 {
      hide Answers, Wrong, Ledger;
      CodeFollowsAnswers(code, born, attempts, i - 1);
      AnswerAt(Fresh(code, born), attempts, i - 1);
      var answers := Answers(Fresh(code, born), attempts);
      LedgerStep(CodeAt(Fresh(code, born), attempts, i - 1), code, born, attempts, answers, i - 1);
    }
  }

  lemma LedgerStep(c: Code, code: string, born: int, attempts: seq<Attempt>, answers: seq<Answer>, i: nat)
    requires |answers| == |attempts| && i < |attempts| && Ledger(c, code, born, attempts, answers, i)
    requires answers[i] == Try(c, attempts[i]).1
    ensures Ledger(Try(c, attempts[i]).0, code, born, attempts, answers, i + 1)
  {
    hide Wrong;
    WrongSnoc(answers, i);
  }

  /**
   The answer to every attempt on a new code, whatever the others were: refused while a lockout runs that an
   earlier fifth wrong guess began, dead after its time or once a token was given, wrong for another code, and
   a token otherwise, if there is entropy for one.
   */
  lemma EveryAnswer(code: string, born: int, attempts: seq<Attempt>, i: nat)
    requires i < |attempts|
    ensures var answers, a := Answers(Fresh(code, born), attempts), attempts[i];
            && |answers| == |attempts|
            && answers[i] ==
               if LockedOut(attempts, answers, i) then Locked
               else if a.now > born + CODE_TTL || Spent(answers, i) then Dead
               else if a.guess != code then Bad
               else if a.entropy.None? then NoRandom
               else Token(a.entropy.value)
  {
    CodeFollowsAnswers(code, born, attempts, i);
    hide Answers, Wrong, Fifth;
    AnswerAt(Fresh(code, born), attempts, i);
  }

  /** The answer came of comparing the guess with the code. */
  predicate Compared(r: Answer) {
    r.Bad? || r.NoRandom? || r.Token?
  }

  /** Two codes that no compared guess is are answered alike, to the last attempt. */
  lemma {:induction false} AnswersTellNoMore(c: Code, other: string, attempts: seq<Attempt>)
    requires |Answers(c, attempts)| == |attempts|
    requires forall i :: 0 <= i < |attempts| && Compared(Answers(c, attempts)[i]) ==>
               attempts[i].guess !in {c.code, other}
    ensures Answers(c.(code := other), attempts) == Answers(c, attempts)
    decreases |attempts|
  {
    if attempts != [] {
      var (c', r) := Try(c, attempts[0]);
      var (d', q) := Try(c.(code := other), attempts[0]);
      assert Answers(c, attempts)[1..] == Answers(c', attempts[1..]);
      AnswerCount(c', attempts[1..]);
      assert Compared(Answers(c, attempts)[0]) ==> attempts[0].guess !in {c.code, other};
      assert d' == c'.(code := other) && q == r;
      forall i | 0 <= i < |attempts| - 1 && Compared(Answers(c', attempts[1..])[i])
        ensures attempts[1..][i].guess !in {c'.code, other}
      {
        assert Answers(c, attempts)[i + 1] == Answers(c', attempts[1..])[i];
      }
      AnswersTellNoMore(c', other, attempts[1..]);
    }
  }

  /** The guesses that were refused as wrong. */
  ghost function Refused(attempts: seq<Attempt>, answers: seq<Answer>): set<string>
    requires |answers| == |attempts|
  {
    set i | 0 <= i < |attempts| && answers[i].Bad? :: attempts[i].guess
  }

  lemma {:induction false} FewRefused(attempts: seq<Attempt>, answers: seq<Answer>)
    requires |answers| == |attempts|
    ensures |Refused(attempts, answers)| <= Wrong(answers)
  {
    if attempts != [] {
      FewRefused(attempts[1..], answers[1..]);
      var rest := Refused(attempts[1..], answers[1..]);
      forall g | g in Refused(attempts, answers) ensures g in rest || (answers[0].Bad? && g == attempts[0].guess) {
        var i :| 0 <= i < |attempts| && answers[i].Bad? && attempts[i].guess == g;
        if i > 0 { assert attempts[1..][i - 1].guess == g && answers[1..][i - 1].Bad?; }
      }
      var all := if answers[0].Bad? then rest + {attempts[0].guess} else rest;
      SubsetSize(Refused(attempts, answers), all);
    }
  }

  lemma SubsetSize<T>(a: set<T>, b: set<T>)
    requires a <= b
    ensures |a| <= |b|
  {
    assert b == a + (b - a);
  }

  /**
   A guesser who was never right has ruled out at most the bound's number of codes: all others would have
   been answered the same.
   */
  lemma GuesserLearnsLittle(code: string, born: int, attempts: seq<Attempt>, base: int) returns (out: set<string>)
    requires Since(attempts, base)
    requires forall i :: 0 <= i < |attempts| ==> attempts[i].guess != code
    ensures |out| <= MAX_FAILURES * Periods(born + CODE_TTL - base) && code !in out
    ensures forall other :: other !in out ==>
              Answers(Fresh(other, born), attempts) == Answers(Fresh(code, born), attempts)
  {
    hide Periods;
    var answers := Answers(Fresh(code, born), attempts);
    AnswerCount(Fresh(code, born), attempts);
    GuessBound(code, born, attempts, base);
    FewRefused(attempts, answers);
    out := Refused(attempts, answers);
    forall other | other !in out ensures Answers(Fresh(other, born), attempts) == answers {
      forall i | 0 <= i < |attempts| && Compared(answers[i]) ensures attempts[i].guess !in {code, other} {
        EveryAnswer(code, born, attempts, i);
        assert answers[i].Bad?;
        assert attempts[i].guess in out;
      }
      AnswersTellNoMore(Fresh(code, born), other, attempts);
      assert Fresh(code, born).(code := other) == Fresh(other, born);
    }
  }

  // --- Sessions -----------------------------------------------------------------------

  ghost function Live(sessions: map<string, Entry>, now: int): map<string, Entry> {
    map t | t in sessions && now <= sessions[t].expires :: sessions[t]
  }

  /** `kept` makes room for one more session by dropping none but the oldest of `live`. */
  ghost predicate RoomMade(live: map<string, Entry>, kept: map<string, Entry>) {
    && kept.Keys <= live.Keys
    && (forall t :: t in kept ==> kept[t] == live[t])
    && (|live| < MAX_SESSIONS ==> kept == live)
    && (|live| >= MAX_SESSIONS ==> |kept| == MAX_SESSIONS - 1)
    && (forall t, u :: t in kept && u in live && u !in kept ==> live[u].created <= kept[t].created)
  }

  ghost predicate Minted(before: map<string, Entry>, after: map<string, Entry>, token: string, now: int, ttl: int) {
    exists kept :: RoomMade(Live(before, now), kept) && after == kept[token := Entry(token, now, now + ttl)]
  }

  /** At most eight sessions, each filed under its own token. */
  ghost predicate Bounded(sessions: map<string, Entry>) {
    |sessions| <= MAX_SESSIONS && forall t :: t in sessions ==> sessions[t].token == t
  }

  /** Every change the server makes to its sessions. */
  ghost predicate SessionStep(before: map<string, Entry>, after: map<string, Entry>) {
    || after == map[]
    || (exists t :: t in before && after == before - {t})
    || after == before
    || (exists token, now, ttl :: Minted(before, after, token, now, ttl))
  }

  lemma KeyCount<K, V>(m: map<K, V>)
    ensures |m.Keys| == |m|
  {
  }

  lemma SubmapSize<K, V>(m: map<K, V>, n: map<K, V>)
    requires m.Keys <= n.Keys
    ensures |m| <= |n|
  {
    assert n.Keys == m.Keys + (n.Keys - m.Keys);
    KeyCount(m); KeyCount(n);
  }

  lemma MintedBounded(before: map<string, Entry>, kept: map<string, Entry>, token: string, now: int, ttl: int)
    requires Bounded(before) && RoomMade(Live(before, now), kept)
    ensures Bounded(kept[token := Entry(token, now, now + ttl)])
  {
    assert |kept| < MAX_SESSIONS;
    OneMore(kept, token, Entry(token, now, now + ttl));
  }

  lemma OneMore<K, V>(m: map<K, V>, k: K, v: V)
    ensures |m[k := v]| <= |m| + 1
  {
    assert m[k := v].Keys == m.Keys + {k};
    KeyCount(m[k := v]); KeyCount(m);
  }

  lemma SessionStepBounded(before: map<string, Entry>, after: map<string, Entry>)
    requires Bounded(before) && SessionStep(before, after)
    ensures Bounded(after)
  {
    if after.Keys <= before.Keys {
      SubmapSize(after, before);
    }
    if token, now, ttl :| Minted(before, after, token, now, ttl) {
      var kept :| RoomMade(Live(before, now), kept) && after == kept[token := Entry(token, now, now + ttl)];
      MintedBounded(before, kept, token, now, ttl);
    }
  }

  /** A new token is valid to the end of its time and no longer; the others stay unless seven no older ones do. */
  lemma MintedLives(before: map<string, Entry>, after: map<string, Entry>, token: string, now: int, ttl: int, t: int)
    requires Minted(before, after, token, now, ttl)
    ensures token in Live(after, t) <==> t <= now + ttl
    ensures forall u :: u != token ==>
              (u in Live(after, t) ==> u in Live(before, now) && after[u] == before[u] && t <= before[u].expires)
    ensures forall u :: u in Live(before, now) && u !in after ==>
              exists newer: set<string> :: |newer| == MAX_SESSIONS - 1 && newer <= Live(before, now).Keys
                && forall n :: n in newer ==> before[u].created <= before[n].created && (n == token || n in after)
  {
    var kept :| RoomMade(Live(before, now), kept) && after == kept[token := Entry(token, now, now + ttl)];
    KeyCount(kept);
    forall u | u in Live(before, now) && u !in after
      ensures forall n :: n in kept.Keys ==> before[u].created <= before[n].created && n in after
    {
    }
  }

  ghost predicate SessionRun(history: seq<map<string, Entry>>) {
    && |history| > 0 && history[0] == map[]
    && forall i :: 0 <= i < |history| - 1 ==> SessionStep(history[i], history[i + 1])
  }

  /** However the server is used, it never holds more than eight sessions. */
  lemma {:induction false} SessionsStayBounded(history: seq<map<string, Entry>>, n: nat)
    requires SessionRun(history) && n < |history|
    ensures Bounded(history[n])
  {
    if n > 0 {
      SessionsStayBounded(history, n - 1);
      SessionStepBounded(history[n - 1], history[n - 1 + 1]);
    }
  }

  class Server {
    var code: string
    var used: bool
    var expires: int
    var failures: nat
    var blocked: Option<int>
    var sessions: map<string, Entry>
    const ttl: int

    constructor (ttl: int)
      ensures sessions == map[] && this.ttl == ttl && Pairing() == Code("", false, 0, 0, None)
    {
      code, used, expires, failures, blocked, sessions := "", false, 0, 0, None, map[];
      this.ttl := ttl;
    }

    function Pairing(): Code
      reads this
    {
      Code(code, used, expires, failures, blocked)
    }

    method SetPairingCode(code: string, now: int)
      modifies this
      ensures Pairing() == Fresh(code, now) && sessions == old(sessions)
    {
      this.code := code;
      used, expires, failures, blocked := false, now + CODE_TTL, 0, None;
    }

    method EnableSession(code: string, now: int)
      modifies this
      ensures Pairing() == Fresh(code, now) && sessions == map[]
    {
      SetPairingCode(code, now);
      sessions := map[];
    }

    /** A valid token is known, unexpired and filed under itself; an expired one is forgotten. */
    method SessionValid(token: string, now: int) returns (ok: bool)
      requires Bounded(sessions)
      modifies this
      ensures Pairing() == old(Pairing()) && SessionStep(old(sessions), sessions)
      ensures ok <==> token != "" && token in Live(old(sessions), now)
      ensures sessions == if token != "" && token in old(sessions) && !ok then old(sessions) - {token}
                          else old(sessions)
    {
      if token == "" || token !in sessions { return false; }
      var e := sessions[token];
      if now > e.expires {
        sessions := sessions - {token};
        return false;
      }
      return e.token == token;
    }

    method ExchangePairingCode(a: Attempt) returns (r: Answer)
      modifies this
      ensures (Pairing(), r) == Try(old(Pairing()), a)
      ensures r.Token? ==> Minted(old(sessions), sessions, r.token, a.now, ttl)
      ensures !r.Token? ==> sessions == old(sessions)
    {
      if blocked.Some? && a.now < blocked.value { return Locked; }
      if used || a.now > expires { return Dead; }
      if a.guess != code {
        failures := failures + 1;
        if failures >= MAX_FAILURES {
          failures := 0;
          blocked := Some(a.now + LOCKOUT);
        }
        return Bad;
      }
      used := true;
      var token := MintSession(a.now, a.entropy);
      if token.None? {
        used := false;
        return NoRandom;
      }
      return Token(token.value);
    }

    method MintSession(now: int, entropy: Option<string>) returns (token: Option<string>)
      modifies this`sessions
      ensures token == entropy
      ensures entropy.Some? ==> Minted(old(sessions), sessions, entropy.value, now, ttl)
      ensures entropy.None? ==> sessions == old(sessions)
    {
      if entropy.None? { return None; }
      ForgetExpired(now);
      ghost var live := sessions;
      while |sessions| >= MAX_SESSIONS
        invariant sessions.Keys <= live.Keys && forall t :: t in sessions ==> sessions[t] == live[t]
        invariant |live| < MAX_SESSIONS ==> sessions == live
        invariant |live| >= MAX_SESSIONS ==> |sessions| >= MAX_SESSIONS - 1
        invariant forall t, u :: t in sessions && u in live && u !in sessions ==> live[u].created <= sessions[t].created
        decreases |sessions|
      {
        var oldest := Oldest();
        assert sessions.Keys - {oldest} == (sessions - {oldest}).Keys;
        KeyCount(sessions); KeyCount(sessions - {oldest});
        sessions := sessions - {oldest};
      }
      assert RoomMade(live, sessions);
      sessions := sessions[entropy.value := Entry(entropy.value, now, now + ttl)];
      return entropy;
    }

    method ForgetExpired(now: int)
      modifies this`sessions
      ensures sessions == Live(old(sessions), now)
    {
      var rest := sessions.Keys;
      while rest != {}
        invariant rest <= sessions.Keys <= old(sessions).Keys
        invariant forall t :: t in sessions ==> sessions[t] == old(sessions)[t]
        invariant forall t :: t in old(sessions) && t !in rest ==> (t in sessions <==> now <= old(sessions)[t].expires)
        decreases rest
      {
        var t :| t in rest;
        rest := rest - {t};
        if now > sessions[t].expires { sessions := sessions - {t}; }
      }
    }

    method Oldest() returns (token: string)
      requires sessions != map[]
      ensures token in sessions && forall t :: t in sessions ==> sessions[token].created <= sessions[t].created
    {
      var rest := sessions.Keys;
      var best: Option<string> := None;
      while rest != {}
        invariant rest <= sessions.Keys
        invariant best.None? ==> rest == sessions.Keys
        invariant best.Some? ==> best.value in sessions
        invariant best.Some? ==> forall t :: t in sessions && t !in rest ==>
                    sessions[best.value].created <= sessions[t].created
        decreases rest
      {
        var t :| t in rest;
        rest := rest - {t};
        if best.None? || sessions[t].created < sessions[best.value].created { best := Some(t); }
      }
      assert sessions.Keys != {};
      token := best.value;
    }
  }
}

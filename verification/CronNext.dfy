/**
 The next minute that matches a schedule.  A schedule is taken as a predicate over minute starts;
 what its five fields and its time zone mean is not part of this module.
 */
module CronNext {
  import opened Base

  const YEAR_MINUTES: nat := 525_600

  /** The start of the minute of `t`. */
  function Truncate(t: int): int {
    t - t % MINUTE
  }

  /** The first matching minute among the `n` minutes from `t` on. */
  function Search(matches: int -> bool, t: int, n: nat): Option<int>
    decreases n
  {
    if n == 0 then None else if matches(t) then Some(t) else Search(matches, t + MINUTE, n - 1)
  }

  function NextAfter(matches: int -> bool, from: int): Option<int> {
    Search(matches, Truncate(from) + MINUTE, YEAR_MINUTES)
  }

  lemma {:induction false} SearchIsLeast(matches: int -> bool, t: int, n: nat)
    requires t % MINUTE == 0
    ensures match Search(matches, t, n)
            case None => forall u :: t <= u < t + n * MINUTE && u % MINUTE == 0 ==> !matches(u)
            case Some(r) => && t <= r < t + n * MINUTE && r % MINUTE == 0 && matches(r)
                            && forall u :: t <= u < r && u % MINUTE == 0 ==> !matches(u)
    decreases n
  {
    if n > 0 && !matches(t) {
      SearchIsLeast(matches, t + MINUTE, n - 1);
      assert forall u :: t <= u && u % MINUTE == 0 ==> u == t || t + MINUTE <= u;
    }
  }

  lemma MinuteAfter(from: int, t: int)
    requires t % MINUTE == 0 && from < t
    ensures from < Truncate(from) + MINUTE <= t
  {
  }

  /** `r` is the least matching whole minute after `from` within a year of minutes, or there is none. */
  ghost predicate IsNext(matches: int -> bool, from: int, r: Option<int>) {
    match r
    case None => forall u :: from < u <= Truncate(from) + YEAR_MINUTES * MINUTE && u % MINUTE == 0 ==> !matches(u)
    case Some(t) => && from < t <= Truncate(from) + YEAR_MINUTES * MINUTE && t % MINUTE == 0 && matches(t)
                    && forall u :: from < u < t && u % MINUTE == 0 ==> !matches(u)
  }

  lemma NextIsLeast(matches: int -> bool, from: int)
    ensures IsNext(matches, from, NextAfter(matches, from))
  {
    hide Search, Truncate;
    var t := Truncate(from) + MINUTE;
    TruncateBelow(from);
    SearchIsLeast(matches, t, YEAR_MINUTES);
    forall u | from < u && u % MINUTE == 0
      ensures t <= u
    {
      MinuteAfter(from, u);
    }
  }

  /** There is one next minute only. */
  lemma NextIsUnique(matches: int -> bool, from: int, r: Option<int>)
    ensures IsNext(matches, from, r) <==> r == NextAfter(matches, from)
  {
    NextIsLeast(matches, from);
    hide NextAfter, Truncate;
  }

  lemma TruncateBelow(t: int)
    ensures Truncate(t) <= t < Truncate(t) + MINUTE && Truncate(t) % MINUTE == 0
  {
  }

  method Next(matches: int -> bool, from: int) returns (r: Option<int>)
    ensures r == NextAfter(matches, from) && IsNext(matches, from, r)
  {
    NextIsLeast(matches, from);
    hide IsNext;
    var t := Truncate(from) + MINUTE;
    for i := 0 to YEAR_MINUTES
      invariant Search(matches, t, YEAR_MINUTES - i) == NextAfter(matches, from)
    {
      if matches(t) { return Some(t); }
      t := t + MINUTE;
    }
    return None;
  }

  /** One minute back, the next matching minute is the least one not before the minute of `now`. */
  lemma NextFromAMinuteBack(matches: int -> bool, now: int)
    ensures match NextAfter(matches, now - MINUTE)
            case None => true
            case Some(t) => && Truncate(now) <= t && t % MINUTE == 0 && matches(t)
                            && forall u :: Truncate(now) <= u < t && u % MINUTE == 0 ==> !matches(u)
    ensures matches(Truncate(now)) ==> NextAfter(matches, now - MINUTE) == Some(Truncate(now))
  {
    assert Truncate(now - MINUTE) + MINUTE == Truncate(now);
    SearchIsLeast(matches, Truncate(now), YEAR_MINUTES);
  }
}

/**
 The bounded journal reader: a window of raw lines that drops its oldest lines to stay inside
 a byte budget and an event budget, and the tail and head reads built on it.
 */
module JournalWindow {
  import opened Base

  /** A non-blank journal line with its line number; `text` is its bytes. */
  datatype Line = Line(no: nat, text: string)

  /** A limit that is not positive is no limit. */
  datatype Limits = Limits(maxBytes: int, maxEvents: int, tail: bool)

  datatype ReadResult<E> = ReadResult(events: seq<E>, first: int, next: int, total: int, bytes: int, truncated: bool)

  function Sum(w: seq<Line>): nat {
    if w == [] then 0 else |w[0].text| + Sum(w[1..])
  }

  lemma {:induction false} SumAppend(a: seq<Line>, b: seq<Line>)
    ensures Sum(a + b) == Sum(a) + Sum(b)
  {
    if a == [] { assert a + b == b; }
    else { assert (a + b)[1..] == a[1..] + b; SumAppend(a[1..], b); }
  }

  lemma DropFirst(s: seq<Line>, x: Line)
    requires s != []
    ensures (s + [x])[1..] == s[1..] + [x]
  {
    forall i | 0 <= i < |s|
      ensures (s + [x])[1..][i] == (s[1..] + [x])[i]
    {
    }
  }

  // --- What a window should hold ------------------------------------------------------

  /** `w` is inside both budgets; a line larger than the byte budget is kept alone. */
  predicate Fits(w: seq<Line>, lim: Limits) {
    && (lim.maxEvents > 0 ==> |w| <= lim.maxEvents)
    && (lim.maxBytes > 0 ==> Sum(w) <= lim.maxBytes || |w| <= 1)
  }

  /** The longest suffix of `all` that fits. */
  function Fit(all: seq<Line>, lim: Limits): (w: seq<Line>)
    ensures Fits(w, lim)
  {
    if Fits(all, lim) then all else Fit(all[1..], lim)
  }

  /** Fit is a suffix, it fits, no longer suffix does, and it is empty only when everything is. */
  lemma {:induction false} FitIsLongest(all: seq<Line>, lim: Limits)
    ensures var w := Fit(all, lim);
            && |w| <= |all| && w == all[|all| - |w|..] && (all != [] ==> w != [])
            && forall k :: 0 <= k < |all| - |w| ==> !Fits(all[k..], lim)
  {
    if !Fits(all, lim) {
      FitIsLongest(all[1..], lim);
      var w := Fit(all, lim);
      forall k | 0 <= k < |all| - |w| ensures !Fits(all[k..], lim) {
        if k == 0 { assert all[0..] == all; } else { assert all[k..] == all[1..][k - 1..]; }
      }
    }
  }

  /** Appending to the window is as good as appending to everything that was ever pushed. */
  lemma {:induction false} FitAppend(all: seq<Line>, x: Line, lim: Limits)
    ensures Fit(all + [x], lim) == Fit(Fit(all, lim) + [x], lim)
  {
    if !Fits(all, lim) {
      if Fits(all + [x], lim) {
        SumAppend(all, [x]);
      }
      assert (all + [x])[1..] == all[1..] + [x];
      FitAppend(all[1..], x, lim);
    }
  }

  /** Nothing that fits is dropped. */
  predicate Full(w: seq<Line>, lim: Limits) {
    (lim.maxEvents > 0 && |w| >= lim.maxEvents) || (lim.maxBytes > 0 && Sum(w) >= lim.maxBytes)
  }

  /** A window that fits is full exactly when no line of a byte or more can be added without a drop. */
  lemma FullIff(w: seq<Line>, lim: Limits)
    requires Fits(w, lim) && w != []
    ensures Full(w, lim) <==> forall x: Line :: x.text != [] ==> !Fits(w + [x], lim)
  {
    forall x: Line ensures |w + [x]| == |w| + 1 && Sum(w + [x]) == Sum(w) + |x.text| {
      SumAppend(w, [x]);
      assert [x][1..] == [];
    }
    var one := Line(0, "x");
    assert |one.text| == 1 && |w + [one]| == |w| + 1 && Sum(w + [one]) == Sum(w) + 1;
    hide Sum;
  }

  class LineWindow {
    var items: seq<Line>
    var head: nat
    var bytes: int
    const lim: Limits

    constructor (lim: Limits)
      ensures Valid() && Contents() == [] && this.lim == lim
    {
      items, head, bytes := [], 0, 0;
      this.lim := lim;
    }

    ghost predicate Valid()
      reads this
    {
      head <= |items| && bytes == Sum(items[head..])
    }

    function Contents(): seq<Line>
      requires head <= |items|
      reads this
    {
      items[head..]
    }

    method IsFull() returns (full: bool)
      requires Valid()
      ensures full == Full(Contents(), lim)
    {
      if lim.maxEvents > 0 && |items| - head >= lim.maxEvents { return true; }
      return lim.maxBytes > 0 && bytes >= lim.maxBytes;
    }

    method DropOldest()
      requires Valid()
      modifies this
      ensures Valid()
      ensures Contents() == if old(Contents()) == [] then [] else old(Contents())[1..]
    {
      if head >= |items| { return; }
      bytes := bytes - |items[head].text|;
      assert items[head..][1..] == items[head + 1..];
      items := items[head := Line(0, "")];
      assert items[head + 1..] == old(items)[old(head) + 1..];
      head := head + 1;
      if head > 64 && head * 2 >= |items| {
        items := items[head..];
        head := 0;
      }
    }

    /** Pushing keeps exactly the longest suffix, new line included, that fits both budgets. */
    method Push(line: Line)
      requires Valid()
      modifies this
      ensures Valid() && Contents() == Fit(old(Contents()) + [line], lim)
    {
      ghost var all := Contents() + [line];
      while lim.maxEvents > 0 && |items| - head >= lim.maxEvents
        invariant Valid() && Fit(Contents() + [line], lim) == Fit(all, lim)
        decreases |Contents()|
      {
        DropFirst(Contents(), line);
        DropOldest();
      }
      while lim.maxBytes > 0 && |items| - head > 0 && bytes + |line.text| > lim.maxBytes
        invariant Valid() && Fit(Contents() + [line], lim) == Fit(all, lim)
        invariant lim.maxEvents > 0 ==> |Contents()| < lim.maxEvents
        decreases |Contents()|
      {
        SumAppend(Contents(), [line]);
        DropFirst(Contents(), line);
        DropOldest();
      }
      SumAppend(Contents(), [line]);
      assert (items + [line])[head..] == Contents() + [line];
      items := items + [line];
      bytes := bytes + |line.text|;
    }
  }

  // --- Reading ------------------------------------------------------------------------

  /** The events of a file: its non-blank lines, numbered from `no`. */
  function Events(lines: seq<string>, blank: string -> bool, no: nat): seq<Line>
    decreases |lines|
  {
    if lines == [] then [] else
    (if blank(lines[0]) then [] else [Line(no, lines[0])]) + Events(lines[1..], blank, no + 1)
  }

  lemma {:induction false} EventsSplit(lines: seq<string>, blank: string -> bool, no: nat, k: nat)
    requires k <= |lines|
    ensures Events(lines, blank, no) == Events(lines[..k], blank, no) + Events(lines[k..], blank, no + k)
    decreases k
  {
    if k > 0 {
      EventsSplit(lines[1..], blank, no + 1, k - 1);
      assert lines[..k][1..] == lines[1..][..k - 1];
    }
  }

  lemma EventsStep(lines: seq<string>, blank: string -> bool, k: nat)
    requires k < |lines|
    ensures Events(lines[..k + 1], blank, 1) ==
            Events(lines[..k], blank, 1) + if blank(lines[k]) then [] else [Line(k + 1, lines[k])]
    ensures Events(lines[k..], blank, k + 1) ==
            (if blank(lines[k]) then [] else [Line(k + 1, lines[k])]) + Events(lines[k + 1..], blank, k + 2)
  {
    EventsSplit(lines[..k + 1], blank, 1, k);
    assert lines[..k + 1][..k] == lines[..k] && lines[..k + 1][k..] == [lines[k]];
    assert Events([lines[k]], blank, k + 1) == if blank(lines[k]) then [] else [Line(k + 1, lines[k])];
  }

  ghost predicate Ascends(w: seq<Line>, no: nat) {
    && (forall i :: 0 <= i < |w| ==> no <= w[i].no)
    && (forall i, j :: 0 <= i < j < |w| ==> w[i].no < w[j].no)
  }

  lemma AscendsCons(x: Line, rest: seq<Line>)
    requires Ascends(rest, x.no + 1)
    ensures Ascends([x] + rest, x.no)
  {
  }

  /** Line numbers grow, so no two events of a file are equal. */
  lemma {:induction false} EventsAscend(lines: seq<string>, blank: string -> bool, no: nat)
    ensures Ascends(Events(lines, blank, no), no)
    decreases |lines|
  {
    if lines != [] {
      EventsAscend(lines[1..], blank, no + 1);
      var rest := Events(lines[1..], blank, no + 1);
      var all := Events(lines, blank, no);
      if !blank(lines[0]) { AscendsCons(Line(no, lines[0]), rest); }
    }
  }

  function DecodeAll<E>(w: seq<Line>, decode: string -> Option<E>): Result<seq<E>, nat> {
    if w == [] then Ok([]) else
    match decode(w[0].text)
    case None => Err(w[0].no)
    case Some(e) =>
      match DecodeAll(w[1..], decode)
      case Err(no) => Err(no)
      case Ok(rest) => Ok([e] + rest)
  }

  lemma {:induction false} DecodeAllSnoc<E>(w: seq<Line>, x: Line, decode: string -> Option<E>)
    requires DecodeAll(w, decode).Ok?
    ensures DecodeAll(w + [x], decode) ==
            match decode(x.text) case None => Err(x.no) case Some(e) => Ok(DecodeAll(w, decode).value + [e])
  {
    if w == [] {
      assert w + [x] == [x] && [x][1..] == [];
      if decode(x.text).Some? { assert [decode(x.text).value] + [] == [] + [decode(x.text).value]; }
    } else {
      assert (w + [x])[1..] == w[1..] + [x];
      DecodeAllSnoc(w[1..], x, decode);
      if decode(x.text).Some? {
        var e0, e1 := decode(w[0].text).value, decode(x.text).value;
        var mid := DecodeAll(w[1..], decode).value;
        assert [e0] + (mid + [e1]) == ([e0] + mid) + [e1];
      }
    }
  }

  lemma {:induction false} DecodeAllStops<E>(w: seq<Line>, k: nat, decode: string -> Option<E>)
    requires k <= |w| && DecodeAll(w[..k], decode).Err?
    ensures DecodeAll(w, decode) == DecodeAll(w[..k], decode)
  {
    if k > 0 {
      assert w[..k][1..] == w[1..][..k - 1];
      if decode(w[0].text).Some? { DecodeAllStops(w[1..], k - 1, decode); }
    }
  }

  method Decode<E>(w: LineWindow, decode: string -> Option<E>) returns (r: Result<(seq<E>, int), nat>)
    requires w.Valid()
    ensures match DecodeAll(w.Contents(), decode)
            case Err(no) => r == Err(no)
            case Ok(events) => r == Ok((events, Sum(w.Contents()))) && |events| == |w.Contents()|
  {
    var window := w.items[w.head..];
    var events: seq<E> := [];
    var kept := 0;
    for i := 0 to |window|
      invariant DecodeAll(window[..i], decode) == Ok(events) && |events| == i
      invariant kept == Sum(window[..i])
    {
      assert window[..i + 1] == window[..i] + [window[i]];
      DecodeAllSnoc(window[..i], window[i], decode);
      SumAppend(window[..i], [window[i]]);
      var e := decode(window[i].text);
      if e.None? {
        DecodeAllStops(window, i + 1, decode);
        return Err(window[i].no);
      }
      events := events + [e.value];
      kept := kept + |window[i].text|;
    }
    assert window[..|window|] == window;
    return Ok((events, kept));
  }

  function Min(a: int, b: int): int { if a < b then a else b }

  /** How many of `rest` a head read pushes, the first `n` of them being pushed already. */
  function Taken(rest: seq<Line>, n: nat, lim: Limits): nat
    requires n <= |rest|
    ensures n <= Taken(rest, n, lim) <= |rest|
    decreases |rest| - n
  {
    if n == |rest| || Full(Fit(rest[..n], lim), lim) then n else Taken(rest, n + 1, lim)
  }

  /** A full read returns every event from `since` on. */
  function FullRead<E>(all: seq<Line>, since: nat, decode: string -> Option<E>): Result<ReadResult<E>, nat> {
    var w := all[Min(since, |all|)..];
    match DecodeAll(w, decode)
    case Err(no) => Err(no)
    case Ok(events) => Ok(ReadResult(events, |all| - |events|, |all|, |all|, Sum(w), false))
  }

  /** A tail read returns the longest run of events up to the last one that fits. */
  function TailRead<E>(all: seq<Line>, since: nat, lim: Limits,
                       decode: string -> Option<E>): Result<ReadResult<E>, nat> {
    var w := Fit(all[Min(since, |all|)..], lim);
    match DecodeAll(w, decode)
    case Err(no) => Err(no)
    case Ok(events) => Ok(ReadResult(events, |all| - |events|, |all|, |all|, Sum(w), |all| > |events|))
  }

  /** A head read pushes events from `since` until the window is full. */
  function HeadRead<E>(all: seq<Line>, since: nat, lim: Limits,
                       decode: string -> Option<E>): Result<ReadResult<E>, nat> {
    var s0 := Min(since, |all|);
    var n := Taken(all[s0..], 0, lim);
    var w := Fit(all[s0..][..n], lim);
    match DecodeAll(w, decode)
    case Err(no) => Err(no)
    case Ok(events) => Ok(ReadResult(events, s0, s0 + |events|, s0 + n, Sum(w), |all| >= s0 + n + 2))
  }

  /** What a full read has collected after the events in `seen`. */
  ghost predicate Collected<E>(seen: seq<Line>, since: nat, decode: string -> Option<E>, idx: nat, events: seq<E>,
                               bytes: int) {
    var w := seen[Min(since, |seen|)..];
    idx == |seen| && DecodeAll(w, decode) == Ok(events) && |events| == |w| && bytes == Sum(w)
  }

  lemma CollectedStep<E>(seen: seq<Line>, x: Line, since: nat, decode: string -> Option<E>, events: seq<E>, bytes: int)
    requires Collected(seen, since, decode, |seen|, events, bytes)
    ensures |seen| < since ==> Collected(seen + [x], since, decode, |seen| + 1, events, bytes)
    ensures |seen| >= since && decode(x.text).Some? ==>
              Collected(seen + [x], since, decode, |seen| + 1, events + [decode(x.text).value], bytes + |x.text|)
    ensures |seen| >= since && decode(x.text).None? ==> DecodeAll((seen + [x])[since..], decode) == Err(x.no)
  {
    if |seen| < since {
      assert (seen + [x])[|seen| + 1..] == [] && seen[|seen|..] == [];
    } else {
      assert (seen + [x])[since..] == seen[since..] + [x];
      DecodeAllSnoc(seen[since..], x, decode);
      SumAppend(seen[since..], [x]);
    }
  }

  lemma FullReadFails<E>(all: seq<Line>, since: nat, k: nat, decode: string -> Option<E>)
    requires since <= k <= |all| && DecodeAll(all[..k][since..], decode).Err?
    ensures FullRead(all, since, decode) == Err(DecodeAll(all[..k][since..], decode).error)
  {
    assert all[since..][..k - since] == all[..k][since..];
    DecodeAllStops(all[since..], k - since, decode);
  }

  method ReadAllEvents<E>(lines: seq<string>, since: nat, blank: string -> bool, decode: string -> Option<E>)
    returns (r: Result<ReadResult<E>, nat>)
    ensures r == FullRead(Events(lines, blank, 1), since, decode)
  {
    var events: seq<E> := [];
    var idx, bytes := 0, 0;
    ghost var seen: seq<Line> := [];
    for k := 0 to |lines|
      invariant seen == Events(lines[..k], blank, 1)
      invariant Collected(seen, since, decode, idx, events, bytes)
    {
      var raw := lines[k];
      EventsStep(lines, blank, k);
      if blank(raw) { continue; }
      ghost var x := Line(k + 1, raw);
      CollectedStep(seen, x, since, decode, events, bytes);
      EventsSplit(lines, blank, 1, k + 1);
      seen := seen + [x];
      assert Events(lines, blank, 1)[..|seen|] == seen;
      if idx < since {
        idx := idx + 1;
        continue;
      }
      var e := decode(raw);
      if e.None? {
        FullReadFails(Events(lines, blank, 1), since, |seen|, decode);
        return Err(k + 1);
      }
      events := events + [e.value];
      bytes := bytes + |raw|;
      idx := idx + 1;
    }
    assert lines[..|lines|] == lines;
    return Ok(ReadResult(events, idx - |events|, idx, idx, bytes, false));
  }

  function Weight(lines: seq<string>): nat {
    if lines == [] then 0 else |lines[0]| + 1 + Weight(lines[1..])
  }

  lemma {:induction false} WeightSplit(lines: seq<string>, k: nat)
    requires k <= |lines|
    ensures Weight(lines) == Weight(lines[..k]) + Weight(lines[k..])
    decreases k
  {
    if k > 0 {
      assert lines[..k][1..] == lines[1..][..k - 1];
      WeightSplit(lines[1..], k - 1);
    }
  }

  lemma LightestLines(lines: seq<string>)
    requires lines != [] && Weight(lines) <= 1
    ensures lines == [""]
  {
    assert Weight(lines[1..]) == 0 && lines[1..] == [];
  }

  /**
   The size taken before reading is that of the whole file; it is less when the file has grown since, or 0 when
   unknown.
   */
  predicate Sized(lines: seq<string>, size: int) {
    size >= Weight(lines) - 1
  }

  /** Nothing but an empty line can be left when all bytes are accounted for. */
  lemma NothingLeft(lines: seq<string>, from: nat, size: int, blank: string -> bool)
    requires from <= |lines| && Sized(lines, size) && Weight(lines[..from]) >= size && blank("")
    ensures Events(lines[from..], blank, from + 1) == []
  {
    WeightSplit(lines, from);
    if from < |lines| {
      LightestLines(lines[from..]);
      assert lines[from..][1..] == [];
    }
  }

  /** Looks for another event in the unread rest of the file, unless the bytes counted so far rule it out. */
  method MoreEventsAfter(lines: seq<string>, from: nat, scanned: int, size: int, blank: string -> bool)
    returns (more: bool)
    requires from <= |lines| && scanned == Weight(lines[..from])
    ensures more <==> scanned < size && Events(lines[from..], blank, from + 1) != []
    ensures Sized(lines, size) && blank("") ==> (more <==> Events(lines[from..], blank, from + 1) != [])
  {
    if scanned >= size {
      if Sized(lines, size) && blank("") { NothingLeft(lines, from, size, blank); }
      return false;
    }
    var k := from;
    while k < |lines|
      invariant from <= k <= |lines|
      invariant Events(lines[from..], blank, from + 1) == Events(lines[k..], blank, k + 1)
    {
      EventsStep(lines, blank, k);
      if !blank(lines[k]) { return true; }
      k := k + 1;
    }
    return false;
  }

  /** What the window holds once `idx` events were passed or pushed. */
  ghost predicate Filling(all: seq<Line>, since: nat, lim: Limits, idx: nat, contents: seq<Line>) {
    var s0 := Min(since, |all|);
    && idx <= |all|
    && (idx <= since ==> contents == [])
    && (idx >= s0 ==> contents == Fit(all[s0..][..idx - s0], lim))
    && (!lim.tail && idx >= s0 ==> Taken(all[s0..], 0, lim) == Taken(all[s0..], idx - s0, lim))
  }

  lemma FillStep(all: seq<Line>, since: nat, lim: Limits, idx: nat, contents: seq<Line>)
    requires Filling(all, since, lim, idx, contents) && since <= idx < |all|
    requires lim.tail || !Full(contents, lim)
    ensures Filling(all, since, lim, idx + 1, Fit(contents + [all[idx]], lim))
  {
    var rest := all[since..];
    assert rest[..idx - since + 1] == rest[..idx - since] + [all[idx]];
    FitAppend(rest[..idx - since], all[idx], lim);
  }

  /** The unread lines hold exactly the events from `idx` on. */
  ghost predicate Unread(lines: seq<string>, blank: string -> bool, line: nat, idx: nat) {
    var all := Events(lines, blank, 1);
    line <= |lines| && idx <= |all| && Events(lines[line..], blank, line + 1) == all[idx..]
  }

  lemma ReadLine(lines: seq<string>, blank: string -> bool, line: nat, idx: nat)
    requires line < |lines| && Unread(lines, blank, line, idx)
    ensures Weight(lines[..line + 1]) == Weight(lines[..line]) + |lines[line]| + 1
    ensures blank(lines[line]) ==> Unread(lines, blank, line + 1, idx)
    ensures !blank(lines[line]) ==> Unread(lines, blank, line + 1, idx + 1)
    ensures !blank(lines[line]) ==> Events(lines, blank, 1)[idx] == Line(line + 1, lines[line])
  {
    EventsStep(lines, blank, line);
    WeightSplit(lines[..line + 1], line);
    assert lines[..line + 1][..line] == lines[..line] && lines[..line + 1][line..] == [lines[line]];
    var all := Events(lines, blank, 1);
    if !blank(lines[line]) {
      var here := Events(lines[line..], blank, line + 1);
      assert here[1..] == Events(lines[line + 1..], blank, line + 2);
      assert here[1..] == all[idx + 1..];
    }
  }

  lemma NothingRead(lines: seq<string>, blank: string -> bool)
    ensures Unread(lines, blank, 0, 0)
  {
    assert lines[0..] == lines && Events(lines, blank, 1)[0..] == Events(lines, blank, 1);
  }

  lemma EverythingRead(lines: seq<string>, blank: string -> bool, idx: nat)
    requires Unread(lines, blank, |lines|, idx)
    ensures idx == |Events(lines, blank, 1)|
  {
  }

  /** The window part of a bounded read; `past` counts the events read, pushed or not. */
  method FillWindow(window: LineWindow, lines: seq<string>, since: nat, blank: string -> bool)
    returns (idx: nat, line: nat, scanned: int, ghost past: nat)
    requires window.Valid() && window.Contents() == []
    modifies window
    ensures window.Valid() && line <= |lines| && scanned == Weight(lines[..line])
    ensures Filling(Events(lines, blank, 1), since, window.lim, idx, window.Contents())
    ensures Unread(lines, blank, line, past)
    ensures past == idx == |Events(lines, blank, 1)| ||
            (!window.lim.tail && Full(window.Contents(), window.lim) && idx >= since && past == idx + 1)
    ensures past == idx + 1 ==> idx < |Events(lines, blank, 1)| && line == Events(lines, blank, 1)[idx].no
  {
    hide Events, Full, Unread;
    idx, line, scanned, past := 0, 0, 0, 0;
    ghost var all := Events(lines, blank, 1);
    NothingRead(lines, blank);
    assert all[Min(since, |all|)..][..0] == [];
    while line < |lines|
      invariant window.Valid() && line <= |lines| && scanned == Weight(lines[..line])
      invariant past == idx && Unread(lines, blank, line, idx)
      invariant Filling(all, since, window.lim, idx, window.Contents())
    {
      var raw := lines[line];
      ReadLine(lines, blank, line, idx);
      line := line + 1;
      scanned := scanned + |raw| + 1;
      if blank(raw) { continue; }
      past := past + 1;
      if idx < since {
        assert idx + 1 >= Min(since, |all|) ==> all[Min(since, |all|)..][..0] == [];
        idx := idx + 1;
        continue;
      }
      var full := window.IsFull();
      if !window.lim.tail && full { return; }
      FillStep(all, since, window.lim, idx, window.Contents());
      window.Push(Line(line, raw));
      idx := idx + 1;
    }
    EverythingRead(lines, blank, idx);
  }

  /** Event `i` stands on a line of the file, and the events behind it on the lines behind that. */
  lemma {:induction false} EventAt(lines: seq<string>, blank: string -> bool, no: nat, i: nat)
    requires i < |Events(lines, blank, no)|
    ensures var all := Events(lines, blank, no);
            && no <= all[i].no < no + |lines|
            && Events(lines[all[i].no - no + 1..], blank, all[i].no + 1) == all[i + 1..]
    decreases |lines|
  {
    var all, rest := Events(lines, blank, no), Events(lines[1..], blank, no + 1);
    var first := if blank(lines[0]) then [] else [Line(no, lines[0])];
    assert all == first + rest;
    hide Events;
    if i < |first| {
      assert all[1..] == rest;
    } else {
      var k := i - |first|;
      EventAt(lines[1..], blank, no + 1, k);
      assert all[i] == rest[k] && all[i + 1..] == rest[k + 1..];
      assert lines[1..][rest[k].no - no..] == lines[rest[k].no - no + 1..];
    }
  }

  /** The bytes of the file up to the end of event number `i`. */
  function BytesUpTo(lines: seq<string>, blank: string -> bool, i: nat): nat
    requires i < |Events(lines, blank, 1)|
  {
    EventAt(lines, blank, 1, i);
    Weight(lines[..Events(lines, blank, 1)[i].no])
  }

  /**
   The head read of a file that was `size` bytes long before it was read: it says that events are left only
   while the bytes up to the first event left out are fewer than that.
   */
  function SizedRead<E>(lines: seq<string>, since: nat, lim: Limits, size: int,
                        blank: string -> bool, decode: string -> Option<E>): Result<ReadResult<E>, nat>
  {
    match HeadRead(Events(lines, blank, 1), since, lim, decode)
    case Err(no) => Err(no)
    case Ok(v) => Ok(v.(truncated := v.truncated && BytesUpTo(lines, blank, v.total) < size))
  }

  /** Of a file that has not grown since its size was taken, the sized read is the head read. */
  lemma SizedReadIsExact<E>(lines: seq<string>, since: nat, lim: Limits, size: int,
                            blank: string -> bool, decode: string -> Option<E>)
    requires Sized(lines, size) && blank("")
    ensures SizedRead(lines, since, lim, size, blank, decode) == HeadRead(Events(lines, blank, 1), since, lim, decode)
  {
    var h := HeadRead(Events(lines, blank, 1), since, lim, decode);
    if h.Ok? && h.value.truncated && BytesUpTo(lines, blank, h.value.total) >= size {
      var no := Events(lines, blank, 1)[h.value.total].no;
      EventAt(lines, blank, 1, h.value.total);
      NothingLeft(lines, no, size, blank);
      assert false;
    }
  }

  lemma {:induction false} WeightGrows(lines: seq<string>, k: nat, m: nat)
    requires k <= |lines| && m <= |lines|
    ensures Weight(lines[..k]) < Weight(lines[..m]) <==> k < m
  {
    WeightOrder(lines, k, m);
    WeightOrder(lines, m, k);
  }

  lemma {:induction false} WeightOrder(lines: seq<string>, k: nat, m: nat)
    requires m <= |lines|
    ensures k <= m <= |lines| ==> Weight(lines[..k]) + (m - k) <= Weight(lines[..m])
  {
    if k < m <= |lines| {
      WeightOrder(lines, k, m - 1);
      WeightSplit(lines[..m], m - 1);
      assert lines[..m][..m - 1] == lines[..m - 1] && lines[..m][m - 1..] == [lines[m - 1]] &&
             [lines[m - 1]][1..] == [];
    }
  }

  /**
   When the file had its first `m` lines as its size was taken and grew since, `Truncated` tells of the events left
   exactly when the first event left out stands before the last of these lines.
   */
  lemma GrownFileIff<E>(lines: seq<string>, since: nat, lim: Limits, m: nat,
                        blank: string -> bool, decode: string -> Option<E>)
    requires m <= |lines| && HeadRead(Events(lines, blank, 1), since, lim, decode).Ok?
    ensures var all := Events(lines, blank, 1);
            var h := HeadRead(all, since, lim, decode).value;
            var r := SizedRead(lines, since, lim, Weight(lines[..m]), blank, decode);
            && r.Ok? && r.value == h.(truncated := r.value.truncated)
            && (r.value.truncated <==> h.truncated && all[h.total].no < m)
  {
    var all := Events(lines, blank, 1);
    var h := HeadRead(all, since, lim, decode).value;
    if h.truncated {
      EventAt(lines, blank, 1, h.total);
      WeightGrows(lines, all[h.total].no, m);
    }
  }

  /** Three events, one to a page, and no size known: two are left, and the read does not say so. */
  lemma GrownFileCounterexample()
    ensures var lines, lim, text := ["a", "b", "c"], Limits(0, 1, false), (t: string) => Some(t);
            var all := Events(lines, (t: string) => t == "", 1);
            var h, r := HeadRead(all, 0, lim, text), SizedRead(lines, 0, lim, 0, (t: string) => t == "", text);
            r.Ok? && h.Ok? && r.value.next == 1 && |all| == 3 && h.value.truncated && !r.value.truncated
  {
    var lines, lim, text, blank := ["a", "b", "c"], Limits(0, 1, false), (t: string) => Some(t), (t: string) => t == "";
    assert lines[1..] == ["b", "c"] && ["b", "c"][1..] == ["c"] && ["c"][1..] == [];
    assert Events(["c"], blank, 3) == [Line(3, "c")];
    assert Events(["b", "c"], blank, 2) == [Line(2, "b"), Line(3, "c")];
    var all := Events(lines, blank, 1);
    assert all == [Line(1, "a"), Line(2, "b"), Line(3, "c")];
    assert all[0..] == all && all[..0] == [] && all[..1] == [Line(1, "a")];
    assert !Full(Fit(all[..0], lim), lim) && Full(Fit(all[..1], lim), lim);
    assert Taken(all, 1, lim) == 1 && Taken(all, 0, lim) == 1;
    assert [Line(1, "a")][1..] == [] && text("a") == Some("a");
    assert DecodeAll([Line(1, "a")], text) == Ok(["a"] + []);
  }

  /** The bounded read is the tail read of the events of the file, or the sized head read. */
  method ReadEventWindow<E>(lines: seq<string>, since: nat, lim: Limits, size: int,
                            blank: string -> bool, decode: string -> Option<E>)
    returns (r: Result<ReadResult<E>, nat>)
    ensures lim.tail ==> r == TailRead(Events(lines, blank, 1), since, lim, decode)
    ensures !lim.tail ==> r == SizedRead(lines, since, lim, size, blank, decode)
  {
    hide Events, Fit, Taken, Filling, TailRead, HeadRead, DecodeAll, Full, Weight;
    var window := new LineWindow(lim);
    var idx, line, scanned, past := FillWindow(window, lines, since, blank);
    var more := false;
    var full := window.IsFull();
    if !lim.tail && full {
      more := MoreEventsAfter(lines, line, scanned, size, blank);
    }
    BoundedResult(Events(lines, blank, 1), since, lim, idx, window.Contents(), decode);
    var d := Decode(window, decode);
    if d.Err? { return Err(d.error); }
    var (events, kept) := d.value;
    if lim.tail {
      return Ok(ReadResult(events, idx - |events|, idx, idx, kept, idx - |events| > 0));
    }
    var from := if since > idx then idx else since;
    return Ok(ReadResult(events, from, from + |events|, idx, kept, more));
  }

  /** What a filled window says of the result. */
  lemma BoundedResult<E>(all: seq<Line>, since: nat, lim: Limits, idx: nat, w: seq<Line>, decode: string -> Option<E>)
    requires Filling(all, since, lim, idx, w)
    requires idx == |all| || (!lim.tail && Full(w, lim) && idx >= since)
    ensures (if lim.tail then TailRead(all, since, lim, decode) else HeadRead(all, since, lim, decode)) ==
            match DecodeAll(w, decode)
            case Err(no) => Err(no)
            case Ok(events) =>
              var first := if lim.tail then idx - |events| else if since > idx then idx else since;
              var truncated := if lim.tail then first > 0 else idx + 2 <= |all|;
              Ok(ReadResult(events, first, first + |events|, idx, Sum(w), truncated))
  {
    FilledWindow(all, since, lim, idx, w);
  }

  lemma FilledWindow(all: seq<Line>, since: nat, lim: Limits, idx: nat, contents: seq<Line>)
    requires Filling(all, since, lim, idx, contents)
    requires idx == |all| || (!lim.tail && Full(contents, lim) && idx >= since)
    ensures lim.tail ==> contents == Fit(all[Min(since, |all|)..], lim)
    ensures !lim.tail ==> var s0 := Min(since, |all|);
                          idx == s0 + Taken(all[s0..], 0, lim) && contents == Fit(all[s0..][..idx - s0], lim)
  {
    var s0 := Min(since, |all|);
    assert all[s0..][..|all| - s0] == all[s0..];
  }

  method EventsBounded<E>(lines: seq<string>, since: int, lim: Limits, size: int,
                          blank: string -> bool, decode: string -> Option<E>)
    returns (r: Result<ReadResult<E>, nat>)
    ensures var all, from := Events(lines, blank, 1), if since < 0 then 0 else since;
            if lim.maxBytes <= 0 && lim.maxEvents <= 0 then r == FullRead(all, from, decode)
            else if lim.tail then r == TailRead(all, from, lim, decode)
            else && r == SizedRead(lines, from, lim, size, blank, decode)
                 && (Sized(lines, size) && blank("") ==> r == HeadRead(all, from, lim, decode))
  {
    hide Events, TailRead, HeadRead, FullRead, SizedRead, Sized;
    var from := if since < 0 then 0 else since;
    if lim.maxBytes <= 0 && lim.maxEvents <= 0 {
      r := ReadAllEvents(lines, from, blank, decode);
    } else {
      if Sized(lines, size) && blank("") { SizedReadIsExact(lines, from, lim, size, blank, decode); }
      r := ReadEventWindow(lines, from, lim, size, blank, decode);
    }
  }

  // --- What the reads promise ---------------------------------------------------------

  lemma {:induction false} DecodeAllPart<E>(w: seq<Line>, k: nat, decode: string -> Option<E>)
    requires k <= |w| && DecodeAll(w, decode).Ok?
    ensures |DecodeAll(w, decode).value| == |w|
    ensures DecodeAll(w[..k], decode) == Ok(DecodeAll(w, decode).value[..k])
    ensures DecodeAll(w[k..], decode) == Ok(DecodeAll(w, decode).value[k..])
    decreases |w|
  {
    if w != [] {
      DecodeAllPart(w[1..], if k == 0 then 0 else k - 1, decode);
      var e, rest := decode(w[0].text).value, DecodeAll(w[1..], decode).value;
      if k > 0 {
        assert w[..k][1..] == w[1..][..k - 1];
        assert ([e] + rest)[..k] == [e] + rest[..k - 1];
        assert ([e] + rest)[k..] == rest[k - 1..] && w[k..] == w[1..][k - 1..];
      } else {
        assert w[0..] == w;
      }
    }
  }

  /**
   A tail read returns the last events from `since` on, as many as the budgets allow, numbered by First, Next
   and Total; Truncated says that earlier events exist.  Undecodable lines before the window do not matter to it;
   where there are none, its events are the last ones of the full read.
   */
  lemma TailIsASuffixOfTheFullRead<E>(all: seq<Line>, since: nat, lim: Limits, decode: string -> Option<E>)
    requires TailRead(all, since, lim, decode).Ok?
    ensures var r := TailRead(all, since, lim, decode).value;
            && r.first + |r.events| == r.next == r.total == |all|
            && Min(since, |all|) <= r.first <= |all| && (r.truncated <==> r.first > 0)
            && DecodeAll(all[r.first..], decode) == Ok(r.events) && r.bytes == Sum(all[r.first..])
            && Fits(all[r.first..], lim)
            && (forall k :: Min(since, |all|) <= k < r.first ==> !Fits(all[k..], lim))
    ensures var t, f := TailRead(all, since, lim, decode).value, FullRead(all, since, decode);
            f.Ok? ==> |t.events| <= |f.value.events| && t.events == f.value.events[|f.value.events| - |t.events|..]
  {
    TailWindow(all, Min(since, |all|), lim);
    TailDecoded(all, Min(since, |all|), Fit(all[Min(since, |all|)..], lim), decode);
    hide Fits, Sum, DecodeAll, Fit;
  }

  /** A full read returns every event from `since` on, numbered, and never says that any is left. */
  lemma FullReadIs<E>(all: seq<Line>, since: nat, decode: string -> Option<E>)
    requires FullRead(all, since, decode).Ok?
    ensures var r := FullRead(all, since, decode).value;
            && r.first == Min(since, |all|) && r.first + |r.events| == r.next == r.total == |all| && !r.truncated
            && DecodeAll(all[r.first..], decode) == Ok(r.events) && r.bytes == Sum(all[r.first..])
  {
    DecodeAllPart(all[Min(since, |all|)..], 0, decode);
  }

  /** Some last events from `s0` on decode to the last ones of what all of them decode to. */
  lemma TailDecoded<E>(all: seq<Line>, s0: nat, w: seq<Line>, decode: string -> Option<E>)
    requires s0 + |w| <= |all| && w == all[|all| - |w|..]
    ensures DecodeAll(w, decode).Ok? ==> |DecodeAll(w, decode).value| == |w|
    ensures DecodeAll(all[s0..], decode).Ok? ==>
              var full := DecodeAll(all[s0..], decode).value;
              |full| == |all| - s0 && DecodeAll(w, decode) == Ok(full[|full| - |w|..])
  {
    hide DecodeAll;
    if DecodeAll(w, decode).Ok? { DecodeAllPart(w, 0, decode); }
    if DecodeAll(all[s0..], decode).Ok? {
      var k := |all| - s0 - |w|;
      DecodeAllPart(all[s0..], k, decode);
      Slice(all, s0, |all| - s0, k);
      assert all[s0..][..|all| - s0] == all[s0..];
    }
  }

  /** The longest run of last events from `s0` on. */
  lemma TailWindow(all: seq<Line>, s0: nat, lim: Limits)
    requires s0 <= |all|
    ensures var w := Fit(all[s0..], lim);
            && s0 + |w| <= |all| && w == all[|all| - |w|..]
            && forall k :: s0 <= k < |all| - |w| ==> !Fits(all[k..], lim)
  {
    hide Fits, Sum, Fit;
    FitIsLongest(all[s0..], lim);
    forall k | s0 <= k < |all| - |Fit(all[s0..], lim)|
      ensures !Fits(all[k..], lim)
    {
      assert all[s0..][k - s0..] == all[k..];
    }
  }

  /** The window is full while two events or more are still to come. */
  ghost predicate FillsEarly(rest: seq<Line>, lim: Limits) {
    exists k :: 0 <= k < |rest| - 1 && Full(Fit(rest[..k], lim), lim)
  }

  /** A head read stops where the window is full for the first time. */
  lemma {:induction false} TakenIsFirstFull(rest: seq<Line>, n: nat, lim: Limits)
    requires n <= |rest|
    ensures var t := Taken(rest, n, lim);
            && (t < |rest| ==> Full(Fit(rest[..t], lim), lim))
            && forall k :: n <= k < t ==> !Full(Fit(rest[..k], lim), lim)
    decreases |rest| - n
  {
    hide Full, Fit;
    if !(n == |rest| || Full(Fit(rest[..n], lim), lim)) {
      TakenIsFirstFull(rest, n + 1, lim);
    }
  }

  /** What a head read returns, in the events it starts from. */
  lemma HeadReadIs<E>(all: seq<Line>, since: nat, lim: Limits, decode: string -> Option<E>)
    requires HeadRead(all, since, lim, decode).Ok?
    ensures var r, s0 := HeadRead(all, since, lim, decode).value, Min(since, |all|);
            var n := Taken(all[s0..], 0, lim);
            var w := Fit(all[s0..][..n], lim);
            && r.first == s0 && r.total == s0 + n && r.next == s0 + |w| && |w| <= n && w == all[s0 + n - |w|..s0 + n]
            && DecodeAll(w, decode) == Ok(r.events) && |r.events| == |w| && r.bytes == Sum(w)
            && (r.truncated <==> n + 2 <= |all| - s0)
  {
    hide Fit, DecodeAll, Taken, Sum;
    var s0 := Min(since, |all|);
    var n := Taken(all[s0..], 0, lim);
    var w := Fit(all[s0..][..n], lim);
    PushedFit(all, s0, n, lim);
    DecodeAllPart(w, 0, decode);
  }

  lemma Slice<T>(s: seq<T>, from: nat, n: nat, m: nat)
    requires from + n <= |s| && m <= n
    ensures s[from..][..n][m..] == s[from + m..from + n]
  {
    forall i | 0 <= i < n - m
      ensures s[from..][..n][m..][i] == s[from + m..from + n][i]
    {
    }
  }

  /** The window after `n` events from `s0` on. */
  lemma PushedFit(all: seq<Line>, s0: nat, n: nat, lim: Limits)
    requires s0 + n <= |all|
    ensures var w := Fit(all[s0..][..n], lim); |w| <= n && w == all[s0 + n - |w|..s0 + n] && (n > 0 ==> w != [])
  {
    hide Fit, Fits, Sum;
    var pushed := all[s0..][..n];
    FitIsLongest(pushed, lim);
    Slice(all, s0, n, n - |Fit(pushed, lim)|);
  }

  /**
   Truncated of a head read never promises too much.  It says whether events remain exactly when the window is
   full while two events or more are to come, or takes in all events without being full before the last.
   */
  lemma HeadTruncatedIff<E>(all: seq<Line>, since: nat, lim: Limits, decode: string -> Option<E>)
    requires HeadRead(all, since, lim, decode).Ok?
    ensures var r, rest := HeadRead(all, since, lim, decode).value, all[Min(since, |all|)..];
            && (r.truncated ==> r.next < |all|)
            && ((r.truncated <==> r.next < |all|) <==>
                  FillsEarly(rest, lim) || (Fits(rest, lim) && (rest == [] || !Full(rest[..|rest| - 1], lim))))
  {
    HeadReadIs(all, since, lim, decode);
    hide HeadRead;
    var rest := all[Min(since, |all|)..];
    var n := Taken(rest, 0, lim);
    TakenIsFirstFull(rest, 0, lim);
    hide Taken;
    assert FillsEarly(rest, lim) <==> n + 2 <= |rest|;
    hide FillsEarly;
    if n + 2 > |rest| && rest != [] {
      assert rest[..|rest|] == rest;
      if Fits(rest, lim) {
        assert rest[..|rest| - 1 + 1] == rest;
        FitsPrefix(rest, |rest| - 1, lim);
        assert Fit(rest[..|rest| - 1], lim) == rest[..|rest| - 1];
      } else {
        hide Fits;
        FitIsLongest(rest, lim);
      }
    }
  }

  /** Where no page overflows, it is wrong exactly when the window first fills with the last event but one. */
  lemma HeadTruncatedMissesTheLast<E>(all: seq<Line>, since: nat, lim: Limits, decode: string -> Option<E>)
    requires HeadRead(all, since, lim, decode).Ok? && NeverOverflows(all[Min(since, |all|)..], lim)
    ensures var r, rest := HeadRead(all, since, lim, decode).value, all[Min(since, |all|)..];
            !(r.truncated <==> r.next < |all|) <==>
              rest != [] && Full(rest[..|rest| - 1], lim) && forall k :: 0 <= k < |rest| - 1 ==> !Full(rest[..k], lim)
  {
    HeadTruncatedIff(all, since, lim, decode);
    hide HeadRead;
    var rest := all[Min(since, |all|)..];
    if forall k :: 0 <= k < |rest| - 1 ==> !Full(rest[..k], lim) {
      forall k | 0 <= k < |rest|
        ensures Fits(rest[..k], lim)
      {
        NotFullFits(rest, k, lim);
      }
      assert forall k :: 0 <= k < |rest| ==> Fit(rest[..k], lim) == rest[..k];
      if rest != [] && !Full(rest[..|rest| - 1], lim) {
        NotFullFits(rest, |rest|, lim);
        assert rest[..|rest|] == rest;
      }
    } else {
      var k := FirstFull(rest, lim);
      NotFullFits(rest, k, lim);
      assert Fit(rest[..k], lim) == rest[..k];
    }
  }

  /** Without overflow, events fit as long as no fewer of them fill the window. */
  lemma {:induction false} NotFullFits(rest: seq<Line>, n: nat, lim: Limits)
    requires n <= |rest| && NeverOverflows(rest, lim) && forall k :: 0 <= k < n ==> !Full(rest[..k], lim)
    ensures Fits(rest[..n], lim)
  {
    if n > 1 {
      assert !Full(rest[..n - 1], lim) && rest[..n - 1 + 1] == rest[..n];
    }
  }

  lemma {:induction false} FirstFull(rest: seq<Line>, lim: Limits) returns (k: nat)
    requires exists i :: 0 <= i < |rest| - 1 && Full(rest[..i], lim)
    ensures k < |rest| - 1 && Full(rest[..k], lim) && forall i :: 0 <= i < k ==> !Full(rest[..i], lim)
  {
    hide Full;
    k := 0;
    while !Full(rest[..k], lim)
      invariant k < |rest| - 1 && forall i :: 0 <= i < k ==> !Full(rest[..i], lim)
      decreases |rest| - k
    {
      k := k + 1;
    }
  }

  /** One event left behind the page, yet Truncated is false. */
  lemma TruncatedCounterexample()
    ensures var all := [Line(1, "a"), Line(2, "b")];
            var r := HeadRead(all, 0, Limits(0, 1, false), (t: string) => Some(t));
            r.Ok? && r.value.next == 1 < |all| && !r.value.truncated
  {
    var all := [Line(1, "a"), Line(2, "b")];
    var lim := Limits(0, 1, false);
    assert all[0..] == all && all[..0] == [] && all[..1] == [Line(1, "a")];
    assert !Full(Fit(all[..0], lim), lim);
    assert Full(Fit(all[..1], lim), lim);
    assert Taken(all, 1, lim) == 1 && Taken(all, 0, lim) == 1;
    var f := (t: string) => Some(t);
    assert [Line(1, "a")][1..] == [] && f("a") == Some("a");
    assert DecodeAll([Line(1, "a")], f) == Ok(["a"] + []);
  }

  /**
   What a caller can check before a head read: whenever the window is not yet full, the next
   event still fits, so that nothing is dropped again.
   */
  ghost predicate NeverOverflows(rest: seq<Line>, lim: Limits) {
    forall n :: 0 < n < |rest| && !Full(rest[..n], lim) ==> Fits(rest[..n + 1], lim)
  }

  lemma FitsPrefix(rest: seq<Line>, n: nat, lim: Limits)
    requires n < |rest| && Fits(rest[..n + 1], lim)
    ensures Fits(rest[..n], lim)
  {
    assert rest[..n + 1] == rest[..n] + [rest[n]];
    SumAppend(rest[..n], [rest[n]]);
  }

  lemma {:induction false} FullStays(rest: seq<Line>, m: nat, n: nat, lim: Limits)
    requires m <= n <= |rest| && Full(rest[..m], lim)
    ensures Full(rest[..n], lim)
  {
    assert rest[..n] == rest[..m] + rest[m..n];
    SumAppend(rest[..m], rest[m..n]);
  }

  /** The events pushed by a head read fit, and so are all kept, exactly when the read never overflows. */
  lemma {:induction false} TakenFits(rest: seq<Line>, n: nat, lim: Limits)
    requires n <= |rest| && Fits(rest[..n], lim)
    ensures Fits(rest[..Taken(rest, n, lim)], lim) <==> NeverOverflows(rest, lim)
    decreases |rest| - n
  {
    if n == |rest| || Full(rest[..n], lim) {
      forall m | 0 < m < |rest| && !Full(rest[..m], lim) ensures Fits(rest[..m + 1], lim) {
        if m >= n { FullStays(rest, n, m, lim); }
        else if !Fits(rest[..m + 1], lim) { OverflowStays(rest, m + 1, n, lim); }
      }
    } else if Fits(rest[..n + 1], lim) {
      TakenFits(rest, n + 1, lim);
    } else {
      assert |rest[..n + 1]| == n + 1;
      OverflowStays(rest, n + 1, Taken(rest, n + 1, lim), lim);
    }
  }

  lemma {:induction false} OverflowStays(rest: seq<Line>, m: nat, n: nat, lim: Limits)
    requires m <= n <= |rest| && !Fits(rest[..m], lim)
    ensures !Fits(rest[..n], lim)
    decreases n - m
  {
    if m < n {
      if Fits(rest[..m + 1], lim) { FitsPrefix(rest, m, lim); }
      OverflowStays(rest, m + 1, n, lim);
    }
  }

  /** The page a head read from `since` returns, as window lines. */
  function Page(all: seq<Line>, since: nat, lim: Limits): seq<Line> {
    var s0 := Min(since, |all|);
    Fit(all[s0..][..Taken(all[s0..], 0, lim)], lim)
  }

  /** The page is what lies from `since` on, as far as it goes, if and only if the read never overflows. */
  lemma PageIsExact(lines: seq<string>, blank: string -> bool, since: nat, lim: Limits)
    ensures var all := Events(lines, blank, 1);
            var s0, page := Min(since, |all|), Page(all, since, lim);
            && s0 + |page| <= |all| && (s0 < |all| ==> page != [])
            && (page == all[s0..s0 + |page|] <==> NeverOverflows(all[s0..], lim))
            && (!NeverOverflows(all[s0..], lim) ==> page[0] != all[s0])
  {
    hide NeverOverflows, Events, Taken, Fits, Fit;
    var all := Events(lines, blank, 1);
    var s0 := Min(since, |all|);
    var rest := all[s0..];
    var n := Taken(rest, 0, lim);
    TakesSome(rest, lim);
    PushedFit(all, s0, n, lim);
    EventsAscend(lines, blank, 1);
    PushedFits(rest, n, lim);
    TakenFits(rest, 0, lim);
    var page := Page(all, since, lim);
    if !Fits(rest[..n], lim) {
      assert page[0] == all[s0 + n - |page|] && page[0].no > all[s0].no;
    }
  }

  lemma TakesSome(rest: seq<Line>, lim: Limits)
    ensures rest != [] ==> Taken(rest, 0, lim) > 0
    ensures Fits(rest[..0], lim)
  {
    assert rest[..0] == [] && Fit([], lim) == [];
    assert rest != [] ==> Taken(rest, 0, lim) == Taken(rest, 1, lim);
  }

  /** The window keeps all that was pushed iff it fits. */
  lemma PushedFits(rest: seq<Line>, n: nat, lim: Limits)
    requires n <= |rest|
    ensures Fits(rest[..n], lim) <==> |Fit(rest[..n], lim)| == n
    ensures n == 0 ==> Fits(rest[..n], lim)
  {
    FitIsLongest(rest[..n], lim);
  }

  /**
   A head read returns the events of its page, numbered from First to Next.  These are exactly the events there
   if and only if it never overflows; otherwise it has dropped the event at First itself.
   */
  lemma HeadPageIsExact<E>(lines: seq<string>, blank: string -> bool, since: nat, lim: Limits,
                           decode: string -> Option<E>)
    requires HeadRead(Events(lines, blank, 1), since, lim, decode).Ok?
    ensures var all := Events(lines, blank, 1);
            var r, page := HeadRead(all, since, lim, decode).value, Page(all, since, lim);
            && 0 <= r.first <= r.next <= |all| && r.next == r.first + |page| && DecodeAll(page, decode) == Ok(r.events)
            && (page == all[r.first..r.next] <==> NeverOverflows(all[r.first..], lim))
            && (!NeverOverflows(all[r.first..], lim) ==> page[0] != all[r.first])
  {
    HeadReadIs(Events(lines, blank, 1), since, lim, decode);
    PageIsExact(lines, blank, since, lim);
    hide HeadRead, Events, NeverOverflows, DecodeAll;
  }

  /** Two lines of six bytes under a budget of ten: the first is dropped, though the page is said to begin with it. */
  lemma OverflowCounterexample()
    ensures var all := [Line(1, "aaaaaa"), Line(2, "bbbbbb")];
            var r := HeadRead(all, 0, Limits(10, 5, false), (t: string) => Some(t));
            r.Ok? && r.value.first == 0 && r.value.next == 1 && r.value.events == ["bbbbbb"]
  {
    var all := [Line(1, "aaaaaa"), Line(2, "bbbbbb")];
    var lim := Limits(10, 5, false);
    var f := (t: string) => Some(t);
    assert all[0..] == all && all[..0] == [] && all[..1] == [all[0]] && all[..2] == all && all[1..] == [all[1]];
    assert Sum([all[0]]) == 6 && Sum([all[1]]) == 6 && Sum(all) == 12;
    assert !Full(Fit([], lim), lim) && !Full(Fit([all[0]], lim), lim);
    assert Taken(all, 2, lim) == 2 && Taken(all, 1, lim) == 2 && Taken(all, 0, lim) == 2;
    assert Fit(all, lim) == [all[1]];
    assert [all[1]][1..] == [] && f("bbbbbb") == Some("bbbbbb");
    assert DecodeAll([all[1]], f) == Ok(["bbbbbb"] + []);
  }

  /** A client that reads page after page, continuing at Next, until a page is empty or a read fails. */
  function ReadPages<E>(all: seq<Line>, since: nat, lim: Limits, decode: string -> Option<E>): Result<seq<E>, nat>
    decreases |all| - Min(since, |all|)
  {
    match HeadRead(all, since, lim, decode)
    case Err(no) => Err(no)
    case Ok(r) =>
      HeadReadIs(all, since, lim, decode);
      if r.events == [] then Ok([]) else
      match ReadPages(all, r.next, lim, decode)
      case Err(no) => Err(no)
      case Ok(more) => Ok(r.events + more)
  }

  /** The lines of these pages. */
  function PageLines(all: seq<Line>, since: nat, lim: Limits): seq<Line>
    decreases |all| - Min(since, |all|)
  {
    var s0, page := Min(since, |all|), Page(all, since, lim);
    PushedFit(all, s0, Taken(all[s0..], 0, lim), lim);
    if page == [] then [] else page + PageLines(all, s0 + |page|, lim)
  }

  /** No page of the client's overflows. */
  ghost predicate PagesFit(all: seq<Line>, since: nat, lim: Limits)
    decreases |all| - Min(since, |all|)
  {
    var s0, page := Min(since, |all|), Page(all, since, lim);
    PushedFit(all, s0, Taken(all[s0..], 0, lim), lim);
    NeverOverflows(all[s0..], lim) && (page == [] || PagesFit(all, s0 + |page|, lim))
  }

  lemma {:induction false} DecodeAllAppend<E>(a: seq<Line>, b: seq<Line>, decode: string -> Option<E>)
    ensures DecodeAll(a + b, decode) ==
            match DecodeAll(a, decode)
            case Err(no) => Err(no)
            case Ok(x) => match DecodeAll(b, decode) case Err(no) => Err(no) case Ok(y) => Ok(x + y)
  {
    if a == [] {
      assert a + b == b;
      if DecodeAll(b, decode).Ok? { assert [] + DecodeAll(b, decode).value == DecodeAll(b, decode).value; }
    } else {
      assert (a + b)[1..] == a[1..] + b && (a + b)[0] == a[0];
      DecodeAllAppend(a[1..], b, decode);
      var x, y := DecodeAll(a[1..], decode), DecodeAll(b, decode);
      if decode(a[0].text).Some? && x.Ok? && y.Ok? {
        var e := decode(a[0].text).value;
        assert [e] + (x.value + y.value) == ([e] + x.value) + y.value;
      }
    }
  }

  /** The client reads exactly the events of these lines, or fails on the first of them that cannot be decoded. */
  lemma {:induction false} PagesAreDecoded<E>(all: seq<Line>, since: nat, lim: Limits, decode: string -> Option<E>)
    ensures ReadPages(all, since, lim, decode) == DecodeAll(PageLines(all, since, lim), decode)
    decreases |all| - Min(since, |all|)
  {
    HeadReadsPage(all, since, lim, decode);
    hide HeadRead, Page, DecodeAll;
    var s0, page := Min(since, |all|), Page(all, since, lim);
    if page != [] {
      PagesAreDecoded(all, s0 + |page|, lim, decode);
      DecodeAllAppend(page, PageLines(all, s0 + |page|, lim), decode);
    } else {
      NothingDecoded(decode);
    }
  }

  lemma NothingDecoded<E>(decode: string -> Option<E>)
    ensures DecodeAll([], decode) == Ok([])
  {
  }

  lemma HeadReadsPage<E>(all: seq<Line>, since: nat, lim: Limits, decode: string -> Option<E>)
    ensures var s0, page, h := Min(since, |all|), Page(all, since, lim), HeadRead(all, since, lim, decode);
            && s0 + |page| <= |all| && Min(s0 + |page|, |all|) == s0 + |page|
            && match DecodeAll(page, decode)
               case Err(no) => h == Err(no)
               case Ok(events) => h.Ok? && h.value.events == events && h.value.next == s0 + |page| && |events| == |page|
  {
    if HeadRead(all, since, lim, decode).Ok? { HeadReadIs(all, since, lim, decode); }
    var s0 := Min(since, |all|);
    PushedFit(all, s0, Taken(all[s0..], 0, lim), lim);
  }

  /** The pages hold exactly the lines from `since` on if and only if none of them overflows. */
  lemma {:induction false} PageLinesAreAll(lines: seq<string>, blank: string -> bool, since: nat, lim: Limits)
    ensures var all := Events(lines, blank, 1);
            PageLines(all, since, lim) == all[Min(since, |all|)..] <==> PagesFit(all, since, lim)
    decreases |Events(lines, blank, 1)| - Min(since, |Events(lines, blank, 1)|)
  {
    hide Events, NeverOverflows, Page;
    var all := Events(lines, blank, 1);
    var s0, page := Min(since, |all|), Page(all, since, lim);
    PageIsExact(lines, blank, since, lim);
    if page != [] {
      var next := s0 + |page|;
      PageLinesAreAll(lines, blank, next, lim);
      var tail := PageLines(all, next, lim);
      assert PageLines(all, since, lim) == page + tail;
      assert all[s0..] == all[s0..next] + all[next..];
      assert (page + tail)[|page|..] == tail && all[s0..][|page|..] == all[next..];
      assert (page + tail)[0] == page[0];
    } else {
      assert all[s0..s0 + 0] == [];
    }
  }

  /**
   Paging ends.  When no page overflows, it returns exactly the events of the full read, or fails on the line on
   which the full read fails.
   */
  lemma PagesAreTheFullRead<E>(lines: seq<string>, blank: string -> bool, since: nat, lim: Limits,
                               decode: string -> Option<E>)
    requires PagesFit(Events(lines, blank, 1), since, lim)
    ensures var all := Events(lines, blank, 1);
            ReadPages(all, since, lim, decode) ==
            match FullRead(all, since, decode) case Err(no) => Err(no) case Ok(r) => Ok(r.events)
  {
    hide PagesFit, ReadPages, PageLines, Events;
    PageLinesAreAll(lines, blank, since, lim);
    PagesAreDecoded(Events(lines, blank, 1), since, lim, decode);
  }

  /** No page overflows when no stretch of the journal does. */
  lemma {:induction false} NoPageOverflows(all: seq<Line>, since: nat, lim: Limits)
    requires forall k :: 0 <= k <= |all| ==> NeverOverflows(all[k..], lim)
    ensures PagesFit(all, since, lim)
    decreases |all| - Min(since, |all|)
  {
    hide NeverOverflows;
    var s0, page := Min(since, |all|), Page(all, since, lim);
    PushedFit(all, s0, Taken(all[s0..], 0, lim), lim);
    if page != [] { NoPageOverflows(all, s0 + |page|, lim); }
  }

  /** Any run of MaxEvents events fits the byte budget: then no head read ever overflows. */
  lemma EventBudgetBindsFirst(all: seq<Line>, k: nat, lim: Limits)
    requires k <= |all| && lim.maxEvents > 0
    requires forall i, j :: 0 <= i <= j <= |all| && j - i <= lim.maxEvents ==>
               lim.maxBytes <= 0 || Sum(all[i..j]) <= lim.maxBytes
    ensures NeverOverflows(all[k..], lim)
  {
    forall n | 0 < n < |all[k..]| && !Full(all[k..][..n], lim) ensures Fits(all[k..][..n + 1], lim) {
      assert all[k..][..n + 1] == all[k..k + n + 1];
    }
  }
}

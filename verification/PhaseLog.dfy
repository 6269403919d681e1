/** The lifecycle's phases, and the log of when each was open: primary windows one after another,
    and at most one nested window at a time. */
module Phases {
  import opened Wrappers

  /** The eight lifecycle phases in order. `Other` stands for any other spelling. */
  datatype Phase = Boot | Seed | Drive | Perturb | Heal | Quiesce | Assert | Teardown | Other {
    function Ordinal(): (o: int)
      ensures o == -1 <==> this == Other
    {
      match this
      case Boot => 0
      case Seed => 1
      case Drive => 2
      case Perturb => 3
      case Heal => 4
      case Quiesce => 5
      case Assert => 6
      case Teardown => 7
      case Other => -1
    }
  }

  /** What a world goes through, in this order. */
  ghost function Lifecycle(): seq<Phase> {
    [Boot, Seed, Drive, Perturb, Heal, Quiesce, Assert, Teardown]
  }

  /** A phase's ordinal is its place there. */
  lemma OrdinalIsPlace(p: Phase)
    requires p != Other
    ensures 0 <= p.Ordinal() < |Lifecycle()| && Lifecycle()[p.Ordinal()] == p
  {
  }

  /** An interval of the monotonic clock. `end` means nothing until the window is closed. */
  datatype Window = Window(phase: Phase, start: int, end: int, closed: bool, nested: bool)

  datatype Refusal = NotAPhase | NestedOpen | NothingOpen | OutOfOrder | MarkerFailed

  // --- What a log looks like ------------------------------------------------------------------

  /** Every phase at most once, in lifecycle order. */
  ghost predicate Increasing(ws: seq<Window>) {
    && (forall i :: 0 <= i < |ws| ==> ws[i].phase != Other)
    && forall i, j :: 0 <= i < j < |ws| ==> ws[i].phase.Ordinal() < ws[j].phase.Ordinal()
  }

  /** The last primary window to open before place `i`, or -1. */
  ghost function Outer(ws: seq<Window>, i: int): (p: int)
    requires 0 <= i <= |ws|
    ensures -1 <= p < i && (p >= 0 ==> !ws[p].nested)
    ensures forall k :: p < k < i ==> ws[k].nested
  {
    if i == 0 then -1 else if ws[i - 1].nested then Outer(ws, i - 1) else i - 1
  }

  /** A nested window lies inside the primary window it opened in. A primary window starts
      where the one before it ends, unless `Finish` closed that one. */
  ghost predicate Placed(ws: seq<Window>, i: int, finished: set<int>)
    requires 0 <= i < |ws|
  {
    var p := Outer(ws, i);
    if ws[i].nested then
      p >= 0 && ws[p].start <= ws[i].start && (ws[p].closed ==> ws[i].closed && ws[i].end <= ws[p].end)
    else
      p >= 0 ==> ws[p].closed && (if p in finished then ws[p].end <= ws[i].start else ws[p].end == ws[i].start)
  }

  ghost predicate AllPlaced(ws: seq<Window>, finished: set<int>) {
    forall i :: 0 <= i < |ws| ==> Placed(ws, i, finished)
  }

  /** Nested windows do not overlap. */
  ghost predicate NestedApart(ws: seq<Window>) {
    forall i, j :: 0 <= i < j < |ws| && ws[i].nested && ws[j].nested ==> ws[i].closed && ws[i].end <= ws[j].start
  }

  ghost predicate InTime(ws: seq<Window>, last: int) {
    forall i :: 0 <= i < |ws| ==> ws[i].start <= last && (ws[i].closed ==> ws[i].start <= ws[i].end <= last)
  }

  /** Only the last primary window, and a nested one at the very end, can be open. */
  ghost predicate OpenAre(ws: seq<Window>, open: int, nest: int) {
    && -1 <= open < |ws| && (open >= 0 ==> open == Outer(ws, |ws|) && !ws[open].closed)
    && (nest == -1 || (nest == |ws| - 1 && 0 <= open < nest && ws[nest].nested && !ws[nest].closed))
    && forall i :: 0 <= i < |ws| && i != open && i != nest ==> ws[i].closed
  }

  ghost predicate Sound(ws: seq<Window>, open: int, nest: int, finished: set<int>, last: int) {
    && Increasing(ws) && InTime(ws, last) && OpenAre(ws, open, nest) && NestedApart(ws) && AllPlaced(ws, finished)
    && open !in finished && forall i :: i in finished ==> 0 <= i < |ws|
  }

  /** Window `i`, if there is one, closed at `now`. */
  function Close(ws: seq<Window>, i: int, now: int): (r: seq<Window>)
    requires -1 <= i < |ws|
    ensures |r| == |ws| && forall j :: 0 <= j < |ws| ==>
      && r[j].phase == ws[j].phase && r[j].start == ws[j].start && r[j].nested == ws[j].nested
      && (if j == i then r[j].closed && r[j].end == now else r[j] == ws[j])
  {
    if i < 0 then ws else ws[i := ws[i].(end := now, closed := true)]
  }

  lemma {:induction false} SameOuter(ws: seq<Window>, ws': seq<Window>, i: int)
    requires 0 <= i <= |ws| && i <= |ws'| && forall k :: 0 <= k < i ==> ws'[k].nested == ws[k].nested
    ensures Outer(ws', i) == Outer(ws, i)
  {
    if i > 0 {
      SameOuter(ws, ws', i - 1);
    }
  }

  // --- One step ---------------------------------------------------------------------------------

  lemma CloseNested(ws: seq<Window>, open: int, nest: int, finished: set<int>, last: int, now: int)
    requires Sound(ws, open, nest, finished, last) && last <= now
    ensures Sound(Close(ws, nest, now), open, -1, finished, now)
  {
    hide Outer;
    var ws' := Close(ws, nest, now);
    SameOuter(ws, ws', |ws|);
    forall i | 0 <= i < |ws'| ensures Placed(ws', i, finished) {
      assert Placed(ws, i, finished);
      SameOuter(ws, ws', i);
    }
  }

  lemma OpenIsOuter(ws: seq<Window>, open: int, i: int)
    requires OpenAre(ws, open, -1) && 0 <= open < i < |ws|
    ensures Outer(ws, i) == open && ws[i].nested
  {
  }

  lemma ClosePrimary(ws: seq<Window>, open: int, finished: set<int>, last: int, now: int, more: set<int>)
    requires Sound(ws, open, -1, finished, last) && last <= now
    requires more == {} || (open >= 0 && more == {open})
    ensures Sound(Close(ws, open, now), -1, -1, finished + more, now)
  {
    hide Outer;
    var ws' := Close(ws, open, now);
    if open >= 0 {
      forall i | 0 <= i < |ws'| ensures Placed(ws', i, finished + more) {
        assert Placed(ws, i, finished);
        SameOuter(ws, ws', i);
        if i > open {
          OpenIsOuter(ws, open, i);
        }
      }
    } else {
      assert finished + more == finished;
    }
  }

  /** A primary window opens where the one before it closed. */
  lemma OpenPrimary(ws: seq<Window>, finished: set<int>, last: int, now: int, p: Phase)
    requires Sound(ws, -1, -1, finished, last) && last <= now && p != Other
    requires forall i :: 0 <= i < |ws| ==> ws[i].phase.Ordinal() < p.Ordinal()
    requires var o := Outer(ws, |ws|); o >= 0 && o !in finished ==> ws[o].end == now
    ensures Sound(ws + [Window(p, now, 0, false, false)], |ws|, -1, finished, now)
  {
    hide Outer;
    var ws' := ws + [Window(p, now, 0, false, false)];
    forall i | 0 <= i < |ws'| ensures Placed(ws', i, finished) {
      SameOuter(ws, ws', i);
      assert i < |ws| ==> Placed(ws, i, finished);
    }
    NewOuter(ws, Window(p, now, 0, false, false));
  }

  lemma NewOuter(ws: seq<Window>, w: Window)
    ensures Outer(ws + [w], |ws| + 1) == if w.nested then Outer(ws, |ws|) else |ws|
  {
    if w.nested {
      SameOuter(ws, ws + [w], |ws|);
    }
  }

  lemma OpenNested(ws: seq<Window>, open: int, finished: set<int>, last: int, now: int, p: Phase)
    requires Sound(ws, open, -1, finished, last) && open >= 0 && last <= now && p != Other
    requires forall i :: 0 <= i < |ws| ==> ws[i].phase.Ordinal() < p.Ordinal()
    ensures Sound(ws + [Window(p, now, 0, false, true)], open, |ws|, finished, now)
  {
    hide Outer;
    var ws' := ws + [Window(p, now, 0, false, true)];
    forall i | 0 <= i < |ws'| ensures Placed(ws', i, finished) {
      SameOuter(ws, ws', i);
      assert i < |ws| ==> Placed(ws, i, finished);
    }
    NewOuter(ws, Window(p, now, 0, false, true));
  }

  // --- The log ------------------------------------------------------------------------------------

  /** A window in milliseconds of virtual time, which starts with DRIVE. */
  datatype Timed = Timed(phase: Phase, startMs: int, endMs: int)

  const NS_PER_MS := 1000000

  ghost predicate Follows(ws: seq<Window>, maxOrd: int) {
    && maxOrd == (if ws == [] then -1 else ws[|ws| - 1].phase.Ordinal())
  }

  lemma NextOrdinal(ws: seq<Window>, maxOrd: int, p: Phase)
    requires Increasing(ws) && Follows(ws, maxOrd)
    ensures p.Ordinal() > maxOrd <==> p != Other && forall i :: 0 <= i < |ws| ==> ws[i].phase.Ordinal() < p.Ordinal()
  {
    if p.Ordinal() > maxOrd {
      forall i | 0 <= i < |ws| ensures ws[i].phase.Ordinal() < p.Ordinal() {
        assert i < |ws| - 1 ==> ws[i].phase.Ordinal() < ws[|ws| - 1].phase.Ordinal();
      }
    } else if p != Other && ws != [] {
      assert ws[|ws| - 1].phase.Ordinal() >= p.Ordinal();
    }
  }

  /** With no primary window open, the last one was closed by `Finish`. */
  ghost predicate Ended(ws: seq<Window>, open: int, finished: set<int>) {
    open == -1 ==> Outer(ws, |ws|) == -1 || Outer(ws, |ws|) in finished
  }

  /** DRIVE is a primary window that starts at the origin of virtual time, if it is one. */
  ghost predicate OriginIs(ws: seq<Window>, o: Option<int>) {
    && (forall i :: 0 <= i < |ws| && ws[i].phase == Drive && !ws[i].nested ==> o == Some(ws[i].start))
    && (o.Some? ==> exists i :: 0 <= i < |ws| && ws[i].phase == Drive && !ws[i].nested)
  }

  lemma OriginClose(ws: seq<Window>, o: Option<int>, i: int, now: int)
    requires OriginIs(ws, o) && -1 <= i < |ws|
    ensures OriginIs(Close(ws, i, now), o)
  {
    var ws' := Close(ws, i, now);
    if o.Some? {
      var j :| 0 <= j < |ws| && ws[j].phase == Drive && !ws[j].nested;
      assert ws'[j].phase == Drive && !ws'[j].nested;
    }
  }

  lemma OriginMore(ws: seq<Window>, o: Option<int>, w: Window)
    requires OriginIs(ws, o) && forall i :: 0 <= i < |ws| ==> ws[i].phase != w.phase
    ensures OriginIs(ws + [w], if w.phase == Drive && !w.nested then Some(w.start) else o)
  {
    var ws' := ws + [w];
    if w.phase == Drive && !w.nested {
      assert ws'[|ws|] == w;
    } else if o.Some? {
      var j :| 0 <= j < |ws| && ws[j].phase == Drive && !ws[j].nested;
      assert ws'[j].phase == Drive && !ws'[j].nested;
    }
  }

  class PhaseLog {
    var windows: seq<Window>
    /** The open primary window, or -1. */
    var openIdx: int
    /** The open nested window, or -1. */
    var nestIdx: int
    var maxOrd: int
    /** The clock's reading when DRIVE opened as a primary phase. */
    var origin: Option<int>
    /** The primary windows that `Finish` closed. */
    ghost var finished: set<int>
    /** The latest reading of the clock. */
    ghost var last: int

    ghost predicate Valid()
      reads this
    {
      && Sound(windows, openIdx, nestIdx, finished, last) && Follows(windows, maxOrd) && OriginIs(windows, origin)
      && Ended(windows, openIdx, finished)
    }

    constructor (start: int)
      ensures Valid() && windows == [] && last == start && origin == None
    {
      windows, openIdx, nestIdx, maxOrd, origin, finished, last := [], -1, -1, -1, None, {}, start;
    }

    /** Closes the open primary phase and opens `p`, at one reading of the clock. DRIVE
        stamps the origin of virtual time, and opens at it. */
    method Advance(p: Phase, now: int, later: int, sinkOk: bool) returns (r: Option<Refusal>)
      requires Valid() && last <= now <= later
      modifies this
      ensures Valid() && finished == old(finished)
      ensures r == Some(NotAPhase) <==> p == Other
      ensures r == Some(NestedOpen) <==> p != Other && old(nestIdx) >= 0
      ensures r == Some(OutOfOrder) <==> p != Other && old(nestIdx) < 0 && p.Ordinal() <= old(maxOrd)
      ensures r == Some(MarkerFailed) <==>
        p != Other && old(nestIdx) < 0 && p.Ordinal() > old(maxOrd) && !sinkOk
      ensures r != Some(NothingOpen)
      ensures r.None? || r == Some(MarkerFailed) ==>
        windows == Close(old(windows), old(openIdx), last) + [Window(p, last, 0, false, false)]
      ensures r.None? || r == Some(MarkerFailed) ==>
        openIdx == |windows| - 1 && last == if p == Drive then later else now
      ensures r.Some? && r != Some(MarkerFailed) ==>
        windows == old(windows) && openIdx == old(openIdx) && nestIdx == old(nestIdx) && origin == old(origin)
    {
      hide Sound, Placed, AllPlaced, NestedApart, InTime;
      if p == Other {
        return Some(NotAPhase);
      }
      if nestIdx >= 0 {
        return Some(NestedOpen);
      }
      if p.Ordinal() <= maxOrd {
        return Some(OutOfOrder);
      }
      var at := if p == Drive then later else now;
      AdvanceSound(windows, openIdx, nestIdx, maxOrd, origin, finished, last, at, p);
      windows := Close(windows, openIdx, at);
      openIdx := |windows|;
      windows := windows + [Window(p, at, 0, false, false)];
      if p == Drive {
        origin := Some(at);
      }
      maxOrd := p.Ordinal();
      last := at;
      r := if sinkOk then None else Some(MarkerFailed);
    }

    /** Opens `p` inside the open primary phase. */
    method Nest(p: Phase, now: int, sinkOk: bool) returns (r: Option<Refusal>)
      requires Valid() && last <= now
      modifies this
      ensures Valid() && finished == old(finished) && openIdx == old(openIdx) && origin == old(origin)
      ensures r == Some(NotAPhase) <==> p == Other
      ensures r == Some(NothingOpen) <==> p != Other && old(openIdx) < 0
      ensures r == Some(NestedOpen) <==> p != Other && old(openIdx) >= 0 && old(nestIdx) >= 0
      ensures r == Some(OutOfOrder) <==>
        p != Other && old(openIdx) >= 0 && old(nestIdx) < 0 && p.Ordinal() <= old(maxOrd)
      ensures r == Some(MarkerFailed) <==>
        p != Other && old(openIdx) >= 0 && old(nestIdx) < 0 && p.Ordinal() > old(maxOrd) && !sinkOk
      ensures r.None? || r == Some(MarkerFailed) ==>
        windows == old(windows) + [Window(p, now, 0, false, true)] && nestIdx == |old(windows)|
      ensures r.Some? && r != Some(MarkerFailed) ==> windows == old(windows) && nestIdx == old(nestIdx)
    {
      hide Sound, Placed, AllPlaced, NestedApart, InTime;
      if p == Other {
        return Some(NotAPhase);
      }
      if openIdx < 0 {
        return Some(NothingOpen);
      }
      if nestIdx >= 0 {
        return Some(NestedOpen);
      }
      if p.Ordinal() <= maxOrd {
        return Some(OutOfOrder);
      }
      NestSound(windows, openIdx, nestIdx, maxOrd, origin, finished, last, now, p);
      nestIdx := |windows|;
      windows := windows + [Window(p, now, 0, false, true)];
      maxOrd := p.Ordinal();
      last := now;
      r := if sinkOk then None else Some(MarkerFailed);
    }

    /** Closes the open nested phase, if there is one. */
    method Unnest(now: int)
      requires Valid() && last <= now
      modifies this
      ensures Valid() && finished == old(finished) && openIdx == old(openIdx)
      ensures origin == old(origin) && maxOrd == old(maxOrd)
      ensures nestIdx == -1 && old(nestIdx) < |old(windows)|
      ensures windows == if old(nestIdx) < 0 then old(windows) else Close(old(windows), old(nestIdx), now)
      ensures last == if old(nestIdx) < 0 then old(last) else now
    {
      hide Placed, AllPlaced, NestedApart, InTime, Increasing;
      if nestIdx < 0 {
        return;
      }
      SameOuter(windows, Close(windows, nestIdx, now), |windows|);
      CloseNested(windows, openIdx, nestIdx, finished, last, now);
      CloseFollows(windows, maxOrd, nestIdx, now);
      OriginClose(windows, origin, nestIdx, now);
      windows := Close(windows, nestIdx, now);
      nestIdx := -1;
      last := now;
    }

    /** Closes every open window. */
    method Finish(now: int, later: int)
      requires Valid() && last <= now <= later
      modifies this
      ensures Valid() && openIdx == -1 && nestIdx == -1 && origin == old(origin) && maxOrd == old(maxOrd)
      ensures forall i :: 0 <= i < |windows| ==> windows[i].closed
      ensures |windows| == |old(windows)| && forall i :: 0 <= i < |windows| ==>
        windows[i].phase == old(windows)[i].phase && windows[i].start == old(windows)[i].start
        && (old(windows)[i].closed ==> windows[i] == old(windows)[i])
    {
      hide Placed, AllPlaced, NestedApart, InTime, Increasing, Outer;
      Unnest(now);
      if openIdx >= 0 {
        SameOuter(windows, Close(windows, openIdx, later), |windows|);
        ClosePrimary(windows, openIdx, finished, last, later, {openIdx});
        CloseFollows(windows, maxOrd, openIdx, later);
        OriginClose(windows, origin, openIdx, later);
        windows := Close(windows, openIdx, later);
        finished := finished + {openIdx};
        openIdx := -1;
        last := later;
      }
    }

    /** The windows in virtual milliseconds; one still open ends now. */
    method Timings(now: int) returns (r: Option<seq<Timed>>)
      requires Valid() && last <= now
      ensures r.None? <==> origin.None?
      ensures r.Some? ==> r.value == InMilliseconds(windows, origin.value, now)
    {
      if origin.None? {
        return None;
      }
      var out: seq<Timed> := [];
      for i := 0 to |windows|
        invariant |out| == i && forall j :: 0 <= j < i ==> out[j] == InMs(windows[j], origin.value, now)
      {
        out := out + [InMs(windows[i], origin.value, now)];
      }
      r := Some(out);
    }
  }

  /** Nanoseconds to whole milliseconds, rounded down also before the origin. */
  ghost predicate WholeMs(ms: int, ns: int) {
    ms * 1000000 <= ns < (ms + 1) * 1000000
  }

  function InMs(w: Window, origin: int, now: int): (t: Timed)
    ensures t.phase == w.phase && WholeMs(t.startMs, w.start - origin)
    ensures WholeMs(t.endMs, (if w.closed then w.end else now) - origin)
  {
    Timed(w.phase, (w.start - origin) / NS_PER_MS, ((if w.closed then w.end else now) - origin) / NS_PER_MS)
  }

  ghost function InMilliseconds(ws: seq<Window>, origin: int, now: int): seq<Timed> {
    seq(|ws|, i requires 0 <= i < |ws| => InMs(ws[i], origin, now))
  }

  lemma CloseFollows(ws: seq<Window>, maxOrd: int, i: int, now: int)
    requires Follows(ws, maxOrd) && -1 <= i < |ws|
    ensures Follows(Close(ws, i, now), maxOrd)
  {
  }

  lemma AdvanceSound(ws: seq<Window>, open: int, nest: int, maxOrd: int, o: Option<int>, finished: set<int>, last: int,
                     at: int, p: Phase)
    requires Sound(ws, open, nest, finished, last) && Follows(ws, maxOrd) && OriginIs(ws, o)
    requires Ended(ws, open, finished)
    requires last <= at && nest < 0 && p.Ordinal() > maxOrd
    ensures -1 <= open < |ws| && nest == -1
    ensures var ws' := Close(ws, open, at) + [Window(p, at, 0, false, false)];
      Sound(ws', |ws|, -1, finished, at) && OriginIs(ws', if p == Drive then Some(at) else o)
  {
    hide Outer, Placed, AllPlaced, NestedApart, InTime;
    NextOrdinal(ws, maxOrd, p);
    ClosePrimary(ws, open, finished, last, at, {});
    assert finished + {} == finished;
    var closed := Close(ws, open, at);
    SameOuter(ws, closed, |ws|);
    OpenPrimary(closed, finished, at, at, p);
    OriginClose(ws, o, open, at);
    OriginMore(closed, o, Window(p, at, 0, false, false));
  }

  lemma NestSound(ws: seq<Window>, open: int, nest: int, maxOrd: int, o: Option<int>, finished: set<int>, last: int,
                  now: int, p: Phase)
    requires Sound(ws, open, nest, finished, last) && Follows(ws, maxOrd) && OriginIs(ws, o)
    requires last <= now && open >= 0 && nest < 0 && p.Ordinal() > maxOrd
    ensures nest == -1
    ensures var ws' := ws + [Window(p, now, 0, false, true)];
      Sound(ws', open, |ws|, finished, now) && OriginIs(ws', o)
  {
    hide Outer, Placed, AllPlaced, NestedApart, InTime;
    NextOrdinal(ws, maxOrd, p);
    OpenNested(ws, open, finished, last, now, p);
    OriginMore(ws, o, Window(p, now, 0, false, true));
  }

  // --- What the timings say -------------------------------------------------------------------

  lemma FloorMonotone(a: int, b: int)
    requires a <= b
    ensures a / NS_PER_MS <= b / NS_PER_MS
  {
  }

  /** The timings of one window: not ending before it starts, and DRIVE at zero. */
  ghost predicate TimedOk(ws: seq<Window>, t: seq<Timed>, i: int, finished: set<int>)
    requires 0 <= i < |ws| == |t|
  {
    var p := Outer(ws, i);
    && t[i].phase == ws[i].phase && t[i].startMs <= t[i].endMs
    && (t[i].phase == Drive ==> t[i].startMs == 0)
    && (if ws[i].nested then p >= 0 && t[p].startMs <= t[i].startMs && t[i].endMs <= t[p].endMs
        else p >= 0 && p !in finished ==> t[p].endMs == t[i].startMs)
  }

  /** Whatever was called: each phase is timed at most once and in lifecycle order, DRIVE
      starts at zero, nested windows lie inside their primary ones, and primary windows
      meet exactly unless `Finish` came between. */
  lemma TimingsAreSound(ws: seq<Window>, open: int, nest: int, finished: set<int>, last: int, origin: int, now: int)
    requires Sound(ws, open, nest, finished, last) && OriginIs(ws, Some(origin)) && last <= now
    ensures var t := InMilliseconds(ws, origin, now);
      && (forall i :: 0 <= i < |ws| ==> TimedOk(ws, t, i, finished))
      && forall i, j :: 0 <= i < j < |t| ==> t[i].phase.Ordinal() < t[j].phase.Ordinal()
  {
    hide Outer;
    var t := InMilliseconds(ws, origin, now);
    forall i | 0 <= i < |ws| ensures TimedOk(ws, t, i, finished) {
      OneTiming(ws, open, nest, finished, last, origin, now, i);
    }
  }

  lemma OneTiming(ws: seq<Window>, open: int, nest: int, finished: set<int>, last: int, origin: int, now: int, i: int)
    requires Sound(ws, open, nest, finished, last) && OriginIs(ws, Some(origin)) && last <= now && 0 <= i < |ws|
    ensures TimedOk(ws, InMilliseconds(ws, origin, now), i, finished)
  {
    hide Outer;
    var w, p := ws[i], Outer(ws, i);
    var end := if w.closed then w.end else now;
    assert Placed(ws, i, finished);
    FloorMonotone(w.start - origin, end - origin);
    if w.phase == Drive {
      var d :| 0 <= d < |ws| && ws[d].phase == Drive && !ws[d].nested;
      assert d == i;
    }
    if w.nested {
      FloorMonotone(ws[p].start - origin, w.start - origin);
      FloorMonotone(end - origin, (if ws[p].closed then ws[p].end else now) - origin);
    }
  }
}

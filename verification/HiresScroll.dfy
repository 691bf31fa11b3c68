// The two gestures bound to a hi-res wheel: which one a wheel report goes to, and when a
// change of direction or a pause of a second starts them afresh.
module HiresScroll {
  import opened Options
  import opened Gestures

  // Clock ticks (nanoseconds) in a second.
  const SECOND := 1_000_000_000

  datatype Wheel = Wheel(up: Option<Gesture>, down: Option<Gesture>, lastDirection: int, lastScroll: int)

  datatype Event = Event(deltaV: int, now: int)

  function Restarted(g: Option<Gesture>): Option<Gesture> {
    match g
    case Some(g) => Some(Pressed(Released(g, false), true))
    case None => None
  }

  function MovedBy(g: Option<Gesture>, a: int): Option<Gesture> {
    match g
    case Some(g) => Some(Moved(g, a))
    case None => None
  }

  predicate Gap(w: Wheel, now: int) {
    now - w.lastScroll >= SECOND
  }

  // The state in which a pause leaves the wheel.
  function Rested(w: Wheel, now: int): Wheel {
    if Gap(w, now) then w.(up := Restarted(w.up), down := Restarted(w.down), lastDirection := 0) else w
  }

  function Step(w: Wheel, e: Event): Wheel {
    var r := Rested(w, e.now);
    if e.deltaV > 0 then
      Wheel(MovedBy(r.up, e.deltaV), if r.lastDirection == -1 then Restarted(r.down) else r.down, 1, e.now)
    else if e.deltaV < 0 then
      Wheel(if r.lastDirection == 1 then Restarted(r.up) else r.up, MovedBy(r.down, AsInt16(-e.deltaV)), -1, e.now)
    else r.(lastScroll := e.now)
  }

  class HiresScroll {
    var upGesture: Option<Gesture>
    var downGesture: Option<Gesture>
    var lastDirection: int
    var lastScroll: int

    ghost function View(): Wheel
      reads this
    {
      Wheel(upGesture, downGesture, lastDirection, lastScroll)
    }

    constructor (up: Option<Gesture>, down: Option<Gesture>, now: int)
      ensures View() == Start(up, down, now)
    {
      upGesture := if up.Some? then Some(Pressed(up.value, true)) else None;
      downGesture := if down.Some? then Some(Pressed(down.value, true)) else None;
      lastDirection, lastScroll := 0, now;
    }

    method RestartUp()
      modifies this`upGesture
      ensures upGesture == Restarted(old(upGesture))
    {
      if upGesture.Some? {
        upGesture := Some(Released(upGesture.value, false));
        upGesture := Some(Pressed(upGesture.value, true));
      }
    }

    method RestartDown()
      modifies this`downGesture
      ensures downGesture == Restarted(old(downGesture))
    {
      if downGesture.Some? {
        downGesture := Some(Released(downGesture.value, false));
        downGesture := Some(Pressed(downGesture.value, true));
      }
    }

    method HandleScroll(deltaV: int, now: int)
      modifies this
      ensures View() == Step(old(View()), Event(deltaV, now))
    {
      if now - lastScroll >= SECOND {
        RestartUp();
        RestartDown();
        lastDirection := 0;
      }
      if deltaV > 0 {
        if lastDirection == -1 { RestartDown(); }
        if upGesture.Some? { upGesture := Some(Moved(upGesture.value, deltaV)); }
        lastDirection := 1;
      } else if deltaV < 0 {
        if lastDirection == 1 { RestartUp(); }
        if downGesture.Some? { downGesture := Some(Moved(downGesture.value, AsInt16(-deltaV))); }
        lastDirection := -1;
      }
      lastScroll := now;
    }
  }

  // ---- Over any run ----

  function Start(up: Option<Gesture>, down: Option<Gesture>, now: int): Wheel {
    Wheel(if up.Some? then Some(Pressed(up.value, true)) else None,
          if down.Some? then Some(Pressed(down.value, true)) else None, 0, now)
  }

  function Run(w: Wheel, events: seq<Event>): Wheel {
    if events == [] then w else Step(Run(w, events[..|events| - 1]), events[|events| - 1])
  }

  // As a press leaves it.
  predicate IsFresh(g: Option<Gesture>) {
    g.Some? ==> g.value == Pressed(g.value, true)
  }

  predicate Inv(w: Wheel) {
    && -1 <= w.lastDirection <= 1
    && (w.lastDirection != 1 ==> IsFresh(w.up))
    && (w.lastDirection != -1 ==> IsFresh(w.down))
  }

  lemma StepKeepsInv(w: Wheel, e: Event)
    requires Inv(w)
    ensures Inv(Step(w, e))
  {
    RestartIsFresh(w.up);
    RestartIsFresh(w.down);
    hide IsFresh, Restarted, MovedBy;
  }

  lemma RestartIsFresh(g: Option<Gesture>)
    ensures IsFresh(Restarted(g))
  {
  }

  // The gesture opposite to the last direction has not moved since it was last pressed.
  lemma {:induction false} OppositeIsFresh(up: Option<Gesture>, down: Option<Gesture>, start: int, events: seq<Event>)
    ensures Inv(Run(Start(up, down, start), events))
  {
    hide Step;
    if events != [] {
      OppositeIsFresh(up, down, start, events[..|events| - 1]);
      StepKeepsInv(Run(Start(up, down, start), events[..|events| - 1]), events[|events| - 1]);
    }
  }

  // ---- One burst ----

  // Events in one direction or none, the first of which finds the gesture of that direction
  // unmoved and the others of which follow within a second.
  ghost predicate IsBurst(w: Wheel, events: seq<Event>) {
    && (forall i :: 0 <= i < |events| ==> events[i].deltaV >= 0)
    && (events != [] ==> w.lastDirection != 1 || Gap(w, events[0].now))
    && (forall i, j :: 0 <= i < j < |events| && j == i + 1 ==> events[j].now - events[i].now < SECOND)
  }

  function Forward(events: seq<Event>): seq<int> {
    if events == [] then [] else Forward(events[..|events| - 1]) + Upward(events[|events| - 1])
  }

  function Upward(e: Event): seq<int> {
    if e.deltaV > 0 then [e.deltaV] else []
  }

  lemma BurstParts(w: Wheel, events: seq<Event>)
    requires IsBurst(w, events) && events != []
    ensures var n := |events| - 1;
      IsBurst(w, events[..n]) && events[n].deltaV >= 0 &&
      if n == 0 then w.lastDirection != 1 || Gap(w, events[0].now)
      else events[..n][n - 1] == events[n - 1] && events[n].now - events[n - 1].now < SECOND
  {
  }

  // Since the burst began the up gesture was given these moves.
  predicate IsUpMoved(w: Wheel, g: Gesture, given: seq<int>, last: int) {
    w.up == Some(MovedAll(Pressed(g, true), given)) && w.lastScroll == last &&
    (given == [] <==> w.lastDirection != 1)
  }

  lemma BurstStarts(w: Wheel, e: Event, g: Gesture)
    requires Inv(w) && w.up == Some(g) && e.deltaV >= 0 && (w.lastDirection != 1 || Gap(w, e.now))
    ensures IsUpMoved(Step(w, e), g, Upward(e), e.now)
  {
    hide Moved, AsInt16;
    assert Rested(w, e.now).up == Some(Pressed(g, true)) && Rested(w, e.now).lastDirection != 1;
    assert MovedAll(Pressed(g, true), []) == Pressed(g, true);
    MovedAppend(Pressed(g, true), [], e.deltaV);
  }

  lemma BurstGoesOn(w: Wheel, e: Event, g: Gesture, given: seq<int>, last: int)
    requires IsUpMoved(w, g, given, last) && e.deltaV >= 0 && e.now - last < SECOND
    ensures IsUpMoved(Step(w, e), g, given + Upward(e), e.now)
  {
    hide Moved, MovedAll, AsInt16;
    if e.deltaV > 0 { MovedAppend(Pressed(g, true), given, e.deltaV); } else { assert given + Upward(e) == given; }
  }

  lemma {:induction false} BurstSoFar(w: Wheel, events: seq<Event>, g: Gesture)
    requires Inv(w) && IsBurst(w, events) && events != [] && w.up == Some(g)
    ensures IsUpMoved(Run(w, events), g, Forward(events), events[|events| - 1].now)
  {
    hide Step, IsBurst, Gap, Inv, IsUpMoved, Upward;
    BurstParts(w, events);
    var n := |events| - 1;
    if n == 0 {
      assert Run(w, events[..0]) == w && Forward(events) == Upward(events[0]);
      BurstStarts(w, events[0], g);
    } else {
      BurstSoFar(w, events[..n], g);
      BurstGoesOn(Run(w, events[..n]), events[n], g, Forward(events[..n]), events[n - 1].now);
    }
  }

  lemma BurstMovesUp(w: Wheel, events: seq<Event>, g: Gesture)
    requires Inv(w) && IsBurst(w, events) && events != [] && w.up == Some(g)
    ensures var r := Run(w, events);
      r.up == Some(MovedAll(Pressed(g, true), Forward(events))) && r.lastScroll == events[|events| - 1].now &&
      (Forward(events) == [] <==> r.lastDirection != 1)
  {
    BurstSoFar(w, events, g);
  }

  // Reports that a wheel can make.
  predicate AreReports(events: seq<Event>) {
    forall i :: 0 <= i < |events| ==> IsInt16(events[i].deltaV)
  }

  // Right after the start both gestures are freshly pressed, and reports in one direction
  // that follow each other within a second are a burst.
  lemma StartsFresh(up: Gesture, down: Gesture, now: int, events: seq<Event>)
    requires forall i, j :: 0 <= i < j < |events| && j == i + 1 ==> events[j].now - events[i].now < SECOND
    ensures var w := Start(Some(up), Some(down), now);
      w.up == Some(Pressed(up, true)) && w.down == Some(Pressed(down, true)) && w.lastScroll == now &&
      ((forall i :: 0 <= i < |events| ==> events[i].deltaV >= 0) ==> IsBurst(w, events)) &&
      ((forall i :: 0 <= i < |events| ==> -0x8000 <= events[i].deltaV <= 0) ==> IsDownBurst(w, events))
  {
  }

  // No report is longer than b.
  predicate Within(events: seq<Event>, b: int) {
    forall i :: 0 <= i < |events| ==> events[i].deltaV <= b
  }

  lemma {:induction false} ForwardPositive(events: seq<Event>)
    requires forall i :: 0 <= i < |events| ==> events[i].deltaV >= 0
    ensures NonNegative(Forward(events)) && Sum(Forward(events)) == Travel(events)
  {
    hide Upward, Sum, NonNegative;
    if events == [] {
      NothingMoved();
    } else {
      var n := |events| - 1;
      ForwardPositive(events[..n]);
      UpwardSum(Forward(events[..n]), events[n]);
    }
  }

  lemma NothingMoved()
    ensures NonNegative([]) && Sum([]) == 0
  {
  }

  lemma UpwardSum(given: seq<int>, e: Event)
    requires e.deltaV >= 0 && NonNegative(given)
    ensures NonNegative(given + Upward(e)) && Sum(given + Upward(e)) == Sum(given) + e.deltaV
  {
    SumAppend(given, e.deltaV);
    if e.deltaV == 0 { assert given + Upward(e) == given; }
  }

  lemma {:induction false} ForwardWithin(events: seq<Event>, b: int)
    requires Within(events, b)
    ensures AtMost(Forward(events), b)
  {
    if events != [] {
      assert Within(events[..|events| - 1], b);
      ForwardWithin(events[..|events| - 1], b);
    }
  }

  function Travel(events: seq<Event>): int {
    if events == [] then 0 else Travel(events[..|events| - 1]) + events[|events| - 1].deltaV
  }

  // In a burst an interval gesture fires at most once per interval of travel, and exactly
  // that often when no report is longer than an interval.
  lemma BurstFires(w: Wheel, events: seq<Event>, g: Gesture)
    requires Inv(w) && IsBurst(w, events) && events != [] && w.up == Some(g) && g.OnInterval? && g.interval > 0
    ensures var r := Run(w, events).up;
      r.Some? && r.value.OnInterval? && r.value.fired - g.fired <= Travel(events) / g.interval &&
      (Within(events, g.interval) ==> r.value.fired - g.fired == Travel(events) / g.interval)
  {
    BurstMovesUp(w, events, g);
    ForwardPositive(events);
    if Within(events, g.interval) { ForwardWithin(events, g.interval); }
    IntervalFires(g, Forward(events));
  }

  ghost predicate FiresPerTravel(w: Wheel, events: seq<Event>, g: Gesture)
    requires g.OnInterval? && g.interval > 0
  {
    var r := Run(w, events).up;
    r.Some? && Fired(r.value) - g.fired == Travel(events) / g.interval
  }

  // One firing for each interval of travel, in every burst of reports of at most b, exactly
  // when b is at most an interval or no report can be longer than one.
  lemma BurstFiresIff(w: Wheel, g: Gesture, b: int)
    requires Inv(w) && w.up == Some(g) && g.OnInterval? && g.interval > 0
    ensures (forall events :: AreReports(events) && IsBurst(w, events) && events != [] && Within(events, b) ==>
              FiresPerTravel(w, events, g))
            <==> b <= g.interval || g.interval >= 0x7fff
  {
    if b <= g.interval || g.interval >= 0x7fff {
      forall events | AreReports(events) && IsBurst(w, events) && events != [] && Within(events, b)
        ensures FiresPerTravel(w, events, g)
      {
        BurstFires(w, events, g);
      }
    } else {
      LongReportSkips(w, g);
      assert Within(LongBurst(w, g), b);
    }
  }

  // Two reports of together two intervals, the second of them longer than one.
  function LongBurst(w: Wheel, g: Gesture): seq<Event>
    requires g.OnInterval?
  {
    [Event(g.interval - 1, w.lastScroll + SECOND), Event(g.interval + 1, w.lastScroll + SECOND)]
  }

  lemma LongReportSkips(w: Wheel, g: Gesture)
    requires Inv(w) && w.up == Some(g) && g.OnInterval? && g.interval > 0
    ensures IsBurst(w, LongBurst(w, g)) && !FiresPerTravel(w, LongBurst(w, g), g)
    ensures g.interval < 0x7fff ==> AreReports(LongBurst(w, g))
  {
    hide Run, MovedAll, Forward, Travel;
    var d, events := g.interval, LongBurst(w, g);
    assert Gap(w, events[0].now);
    BurstMovesUp(w, events, g);
    LongBurstIs(w, g);
    LongMoveSkips(g);
    Twice(d);
    if d == 1 { OneLongMove(g); }
  }

  lemma LongBurstIs(w: Wheel, g: Gesture)
    requires g.OnInterval? && g.interval > 0
    ensures Travel(LongBurst(w, g)) == 2 * g.interval
    ensures Forward(LongBurst(w, g)) == if g.interval == 1 then [2] else [g.interval - 1, g.interval + 1]
  {
    var events := LongBurst(w, g);
    assert events[..1] == [events[0]];
    assert [events[0]][..0] == [];
    assert Travel([]) == 0 && Forward([]) == [];
    assert Travel([events[0]]) == g.interval - 1;
    assert Forward([events[0]]) == if g.interval == 1 then [] else [g.interval - 1];
  }

  lemma OneLongMove(g: Gesture)
    requires g.OnInterval? && g.interval == 1
    ensures Fired(MovedAll(Pressed(g, true), [2])) == g.fired + 1
  {
    assert [2][..0] == [];
    assert MovedAll(Pressed(g, true), [2]) == Moved(Pressed(g, true), 2);
  }

  lemma {:induction false} StaysInterval(up: Gesture, down: Option<Gesture>, start: int, events: seq<Event>)
    requires up.OnInterval?
    ensures var g := Run(Start(Some(up), down, start), events).up;
      g.Some? && g.value.OnInterval? && g.value.interval == up.interval && g.value.threshold == up.threshold
  {
    if events != [] { StaysInterval(up, down, start, events[..|events| - 1]); }
  }

  // The same whatever reports came before the burst.
  lemma BurstAfterAnyRun(up: Gesture, down: Option<Gesture>, start: int, history: seq<Event>, burst: seq<Event>)
    requires up.OnInterval? && up.interval > 0 && burst != []
    requires IsBurst(Run(Start(Some(up), down, start), history), burst)
    ensures var w := Run(Start(Some(up), down, start), history);
      var r := Run(w, burst).up;
      w.up.Some? && w.up.value.OnInterval? && r.Some? && r.value.OnInterval? &&
      r.value.fired - w.up.value.fired <= Travel(burst) / up.interval &&
      (Within(burst, up.interval) ==> r.value.fired - w.up.value.fired == Travel(burst) / up.interval)
  {
    OppositeIsFresh(Some(up), down, start, history);
    StaysInterval(up, down, start, history);
    var w := Run(Start(Some(up), down, start), history);
    BurstFires(w, burst, w.up.value);
  }

  // ---- The other direction is the mirror image ----

  function Mirror(w: Wheel): Wheel {
    Wheel(w.down, w.up, -w.lastDirection, w.lastScroll)
  }

  function Mirrored(events: seq<Event>): seq<Event> {
    seq(|events|, i requires 0 <= i < |events| => Event(-events[i].deltaV, events[i].now))
  }

  // All but the lowest report, whose negation does not fit in 16 bits.
  predicate Negatable(events: seq<Event>) {
    forall i :: 0 <= i < |events| ==> -0x8000 < events[i].deltaV < 0x8000
  }

  lemma {:induction false} MirrorRun(w: Wheel, events: seq<Event>)
    requires Negatable(events)
    ensures Run(Mirror(w), Mirrored(events)) == Mirror(Run(w, events))
  {
    if events != [] {
      var n := |events| - 1;
      MirrorRun(w, events[..n]);
      assert Mirrored(events)[..n] == Mirrored(events[..n]);
      MirrorStep(Run(w, events[..n]), events[n]);
    }
  }

  lemma MirrorStep(w: Wheel, e: Event)
    requires -0x8000 < e.deltaV < 0x8000
    ensures Step(Mirror(w), Event(-e.deltaV, e.now)) == Mirror(Step(w, e))
  {
    assert AsInt16(-e.deltaV) == -e.deltaV;
  }

  // The lowest report moves the down gesture back instead of forward.
  lemma LowestReport(axis: int, threshold: int, now: int)
    ensures Step(Wheel(None, Some(NoPress(axis, threshold)), -1, now), Event(-0x8000, now)) ==
      Wheel(None, Some(NoPress(axis - 0x8000, threshold)), -1, now)
  {
  }

  // ---- Downward bursts with any report ----

  // What a downward burst passes to the down gesture.
  function Backward(events: seq<Event>): seq<int> {
    if events == [] then [] else Backward(events[..|events| - 1]) + Downward(events[|events| - 1])
  }

  function Downward(e: Event): seq<int> {
    if e.deltaV < 0 then [AsInt16(-e.deltaV)] else []
  }

  // How many reports are the lowest.
  function Lowest(events: seq<Event>): nat {
    if events == [] then 0
    else Lowest(events[..|events| - 1]) + if events[|events| - 1].deltaV == -0x8000 then 1 else 0
  }

  ghost predicate IsDownBurst(w: Wheel, events: seq<Event>) {
    && (forall i :: 0 <= i < |events| ==> -0x8000 <= events[i].deltaV <= 0)
    && (events != [] ==> w.lastDirection != -1 || Gap(w, events[0].now))
    && (forall i, j :: 0 <= i < j < |events| && j == i + 1 ==> events[j].now - events[i].now < SECOND)
  }

  lemma DownBurstParts(w: Wheel, events: seq<Event>)
    requires IsDownBurst(w, events) && events != []
    ensures var n := |events| - 1;
      IsDownBurst(w, events[..n]) && events[n].deltaV <= 0 &&
      if n == 0 then w.lastDirection != -1 || Gap(w, events[0].now)
      else events[..n][n - 1] == events[n - 1] && events[n].now - events[n - 1].now < SECOND
  {
  }

  // Since the burst began the down gesture was given these moves.
  predicate IsDownMoved(w: Wheel, g: Gesture, given: seq<int>, last: int) {
    w.down == Some(MovedAll(Pressed(g, true), given)) && w.lastScroll == last &&
    (given == [] <==> w.lastDirection != -1)
  }

  lemma DownBurstStarts(w: Wheel, e: Event, g: Gesture)
    requires Inv(w) && w.down == Some(g) && e.deltaV <= 0 && (w.lastDirection != -1 || Gap(w, e.now))
    ensures IsDownMoved(Step(w, e), g, Downward(e), e.now)
  {
    hide Moved, AsInt16;
    assert Rested(w, e.now).down == Some(Pressed(g, true)) && Rested(w, e.now).lastDirection != -1;
    assert MovedAll(Pressed(g, true), []) == Pressed(g, true);
    MovedAppend(Pressed(g, true), [], AsInt16(-e.deltaV));
  }

  lemma DownBurstGoesOn(w: Wheel, e: Event, g: Gesture, given: seq<int>, last: int)
    requires IsDownMoved(w, g, given, last) && e.deltaV <= 0 && e.now - last < SECOND
    ensures IsDownMoved(Step(w, e), g, given + Downward(e), e.now)
  {
    hide Moved, MovedAll, AsInt16;
    if e.deltaV < 0 {
      MovedAppend(Pressed(g, true), given, AsInt16(-e.deltaV));
    } else {
      assert given + Downward(e) == given;
    }
  }

  lemma {:induction false} DownBurstSoFar(w: Wheel, events: seq<Event>, g: Gesture)
    requires Inv(w) && IsDownBurst(w, events) && events != [] && w.down == Some(g)
    ensures IsDownMoved(Run(w, events), g, Backward(events), events[|events| - 1].now)
  {
    hide Step, IsDownBurst, Gap, Inv, IsDownMoved, Downward;
    DownBurstParts(w, events);
    var n := |events| - 1;
    if n == 0 {
      assert Run(w, events[..0]) == w && Backward(events) == Downward(events[0]);
      DownBurstStarts(w, events[0], g);
    } else {
      DownBurstSoFar(w, events[..n], g);
      DownBurstGoesOn(Run(w, events[..n]), events[n], g, Backward(events[..n]), events[n - 1].now);
    }
  }

  lemma BurstMovesDown(w: Wheel, events: seq<Event>, g: Gesture)
    requires Inv(w) && IsDownBurst(w, events) && events != [] && w.down == Some(g)
    ensures var r := Run(w, events);
      r.down == Some(MovedAll(Pressed(g, true), Backward(events))) && r.lastScroll == events[|events| - 1].now &&
      (Backward(events) == [] <==> r.lastDirection != -1)
  {
    DownBurstSoFar(w, events, g);
  }

  lemma {:induction false} BackwardTotal(events: seq<Event>)
    requires forall i :: 0 <= i < |events| ==> -0x8000 <= events[i].deltaV <= 0
    ensures Sum(Backward(events)) == -Travel(events) - 0x10000 * Lowest(events)
  {
    hide Downward, Sum;
    if events == [] {
      NothingMoved();
    } else {
      var n := |events| - 1;
      BackwardTotal(events[..n]);
      DownwardSum(Backward(events[..n]), events[n]);
    }
  }

  lemma DownwardSum(given: seq<int>, e: Event)
    requires -0x8000 <= e.deltaV <= 0
    ensures Sum(given + Downward(e)) == Sum(given) - e.deltaV - if e.deltaV == -0x8000 then 0x10000 else 0
  {
    SumAppend(given, AsInt16(-e.deltaV));
    if e.deltaV == 0 { assert given + Downward(e) == given; }
  }

  // A downward burst moves the down gesture by its travel, less 65536 for each lowest report.
  lemma DownBurstTotal(w: Wheel, events: seq<Event>, g: Gesture)
    requires Inv(w) && IsDownBurst(w, events) && events != [] && w.down == Some(g)
    requires g.OnInterval? ==> g.interval > 0
    ensures var r := Run(w, events).down;
      r.Some? && r.value.axis == g.threshold - Travel(events) - 0x10000 * Lowest(events)
  {
    BurstMovesDown(w, events, g);
    BackwardTotal(events);
    AxisIsSum(Pressed(g, true), Backward(events));
  }

  // In a downward burst with any reports an interval gesture fires once for each boundary it
  // holds or has lost, less those skipped. Without the lowest report that is once for each
  // interval of travel, when no report is longer than an interval.
  lemma DownBurstFires(w: Wheel, events: seq<Event>, g: Gesture)
    requires Inv(w) && IsDownBurst(w, events) && events != [] && w.down == Some(g)
    requires g.OnInterval? && g.interval > 0
    ensures var r := Run(w, events).down;
      var p, given := Pressed(g, true), Backward(events);
      r.Some? && r.value.OnInterval? &&
      r.value.fired - g.fired == LevelOf(p, given) + Fallen(p, given) - Skipped(p, given) &&
      (Lowest(events) == 0 ==> r.value.fired - g.fired <= -Travel(events) / g.interval) &&
      (Lowest(events) == 0 && AtMost(given, g.interval) ==> r.value.fired - g.fired == -Travel(events) / g.interval)
  {
    hide Run, MovedAll, Moved, Backward, Inv, IsDownBurst, LevelOf, Fallen, Skipped;
    BurstMovesDown(w, events, g);
    IntervalFires(g, Backward(events));
    if Lowest(events) == 0 {
      BackwardIsForward(w, events);
      AllDown(w, events);
      BackwardTotal(events);
    }
  }

  lemma AllDown(w: Wheel, events: seq<Event>)
    requires IsDownBurst(w, events)
    ensures forall i :: 0 <= i < |events| ==> -0x8000 <= events[i].deltaV <= 0
  {
  }

  lemma {:induction false} BackwardIsForward(w: Wheel, events: seq<Event>)
    requires IsDownBurst(w, events) && Lowest(events) == 0
    ensures NonNegative(Backward(events))
  {
    if events != [] { BackwardIsForward(w, events[..|events| - 1]); }
  }
}

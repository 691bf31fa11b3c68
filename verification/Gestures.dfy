// The gestures that count accumulated movement: OnRelease, OnThreshold, OnInterval (also
// used for OnFewPixels) and NoPress.
module Gestures {
  import opened Arithmetic
  import opened Options

  // threshold and interval are the configured values or their defaults; fired counts how
  // often the gesture's action was pressed and released.
  datatype Gesture =
    | OnRelease(axis: int, threshold: int, fired: nat)
    | OnThreshold(axis: int, threshold: int, executed: bool, fired: nat)
    | OnInterval(axis: int, threshold: int, interval: int, count: int, fired: nat)
    | NoPress(axis: int, threshold: int)

  const GESTURE_THRESHOLD := 50
  const GESTURE_INTERVAL := 120

  predicate IsInt16(n: int) {
    -0x8000 <= n <= 0x7fff
  }

  // A cast to int16_t.
  function AsInt16(n: int): int {
    (n + 0x8000) % 0x10000 - 0x8000
  }

  function ValueOr(o: Option<int>, default: int): int {
    match o
    case Some(n) => n
    case None => default
  }

  function Fired(g: Gesture): nat {
    if g.NoPress? then 0 else g.fired
  }

  predicate Met(g: Gesture) {
    g.axis >= g.threshold
  }

  function Pressed(g: Gesture, initThreshold: bool): Gesture {
    var start := if initThreshold then g.threshold else 0;
    match g
    case OnRelease(_, threshold, fired) => OnRelease(start, threshold, fired)
    case OnThreshold(_, threshold, _, fired) => OnThreshold(start, threshold, false, fired)
    case OnInterval(_, threshold, interval, _, fired) => OnInterval(start, threshold, interval, 0, fired)
    case NoPress(_, threshold) => NoPress(start, threshold)
  }

  function Moved(g: Gesture, a: int): Gesture {
    match g
    case OnRelease(axis, threshold, fired) => OnRelease(axis + a, threshold, fired)
    case OnThreshold(axis, threshold, executed, fired) =>
      if !executed && axis + a >= threshold then OnThreshold(axis + a, threshold, true, fired + 1)
      else OnThreshold(axis + a, threshold, executed, fired)
    case OnInterval(axis, threshold, interval, count, fired) =>
      if interval <= 0 then g
      else if axis + a < threshold then OnInterval(axis + a, threshold, interval, count, fired)
      else
        var passed := (axis + a - threshold) / interval;
        OnInterval(axis + a, threshold, interval, passed, if passed > count then fired + 1 else fired)
    case NoPress(axis, threshold) => NoPress(axis + a, threshold)
  }

  function Released(g: Gesture, primary: bool): Gesture {
    match g
    case OnRelease(axis, threshold, fired) =>
      OnRelease(axis, threshold, if axis >= threshold && primary then fired + 1 else fired)
    case OnThreshold(axis, threshold, _, fired) => OnThreshold(axis, threshold, false, fired)
    case _ => g
  }

  // ---- The gesture objects ----

  class IntervalGesture {
    var axis: int
    var intervalPassCount: int
    var threshold: int
    var interval: int
    var fired: nat

    ghost function View(): Gesture
      reads this
    {
      OnInterval(axis, threshold, interval, intervalPassCount, fired)
    }

    constructor (threshold: Option<int>, interval: Option<int>)
      ensures View() == OnInterval(0, ValueOr(threshold, GESTURE_THRESHOLD),
                                   ValueOr(interval, GESTURE_INTERVAL), 0, 0)
    {
      axis, intervalPassCount, fired := 0, 0, 0;
      this.threshold := ValueOr(threshold, GESTURE_THRESHOLD);
      this.interval := ValueOr(interval, GESTURE_INTERVAL);
    }

    method Press(initThreshold: bool)
      modifies this
      ensures View() == Pressed(old(View()), initThreshold)
    {
      axis := if initThreshold then threshold else 0;
      intervalPassCount := 0;
    }

    method Move(a: int)
      modifies this
      ensures View() == Moved(old(View()), a)
    {
      if interval <= 0 { return; }
      axis := axis + a;
      if axis < threshold { return; }
      var newIntervalCount := (axis - threshold) / interval;
      if newIntervalCount > intervalPassCount { fired := fired + 1; }
      intervalPassCount := newIntervalCount;
    }
  }

  class ReleaseGesture {
    var axis: int
    var threshold: int
    var fired: nat

    ghost function View(): Gesture
      reads this
    {
      OnRelease(axis, threshold, fired)
    }

    constructor (threshold: Option<int>)
      ensures View() == OnRelease(0, ValueOr(threshold, GESTURE_THRESHOLD), 0)
    {
      axis, fired := 0, 0;
      this.threshold := ValueOr(threshold, GESTURE_THRESHOLD);
    }

    method Press(initThreshold: bool)
      modifies this
      ensures View() == Pressed(old(View()), initThreshold)
    {
      axis := if initThreshold then threshold else 0;
    }

    method Move(a: int)
      modifies this
      ensures View() == Moved(old(View()), a)
    {
      axis := axis + a;
    }

    method Release(primary: bool)
      modifies this
      ensures View() == Released(old(View()), primary)
    {
      if axis >= threshold && primary { fired := fired + 1; }
    }
  }

  class ThresholdGesture {
    var axis: int
    var threshold: int
    var executed: bool
    var fired: nat

    ghost function View(): Gesture
      reads this
    {
      OnThreshold(axis, threshold, executed, fired)
    }

    constructor (threshold: Option<int>)
      ensures View() == OnThreshold(0, ValueOr(threshold, GESTURE_THRESHOLD), false, 0)
    {
      axis, executed, fired := 0, false, 0;
      this.threshold := ValueOr(threshold, GESTURE_THRESHOLD);
    }

    method Press(initThreshold: bool)
      modifies this
      ensures View() == Pressed(old(View()), initThreshold)
    {
      axis := if initThreshold then threshold else 0;
      executed := false;
    }

    method Move(a: int)
      modifies this
      ensures View() == Moved(old(View()), a)
    {
      axis := axis + a;
      if !executed && axis >= threshold {
        fired := fired + 1;
        executed := true;
      }
    }

    method Release(primary: bool)
      modifies this
      ensures View() == Released(old(View()), primary)
    {
      executed := false;
    }
  }

  // ---- Runs of moves ----

  function MovedAll(g: Gesture, moves: seq<int>): Gesture {
    if moves == [] then g else Moved(MovedAll(g, moves[..|moves| - 1]), moves[|moves| - 1])
  }

  function Sum(moves: seq<int>): int {
    if moves == [] then 0 else Sum(moves[..|moves| - 1]) + moves[|moves| - 1]
  }

  predicate NonNegative(moves: seq<int>) {
    forall i :: 0 <= i < |moves| ==> moves[i] >= 0
  }

  predicate AtMost(moves: seq<int>, b: int) {
    forall i :: 0 <= i < |moves| ==> moves[i] <= b
  }

  // Whole intervals covered since the threshold.
  function Quotient(g: Gesture): int
    requires g.OnInterval? && g.interval > 0
  {
    if g.axis < g.threshold then 0 else (g.axis - g.threshold) / g.interval
  }

  // Interval boundaries that a move crossed beyond its first one: they fire nothing.
  function Skipped(g: Gesture, moves: seq<int>): nat
    requires g.OnInterval?
  {
    if moves == [] then 0
    else
      var before := MovedAll(g, moves[..|moves| - 1]);
      KindKept(g, moves[..|moves| - 1]);
      var crossed := Moved(before, moves[|moves| - 1]).count - before.count;
      Skipped(g, moves[..|moves| - 1]) + if crossed > 1 then crossed - 1 else 0
  }

  lemma {:induction false} KindKept(g: Gesture, moves: seq<int>)
    ensures var r := MovedAll(g, moves);
      r.threshold == g.threshold &&
      (g.OnInterval? ==> r.OnInterval? && r.interval == g.interval) &&
      (g.OnThreshold? ==> r.OnThreshold?) && (g.OnRelease? ==> r.OnRelease?) && (g.NoPress? ==> r.NoPress?)
  {
    if moves != [] { KindKept(g, moves[..|moves| - 1]); }
  }

  lemma {:induction false} AxisIsSum(g: Gesture, moves: seq<int>)
    requires g.OnInterval? ==> g.interval > 0
    ensures MovedAll(g, moves).axis == g.axis + Sum(moves)
  {
    if moves != [] {
      AxisIsSum(g, moves[..|moves| - 1]);
      KindKept(g, moves[..|moves| - 1]);
    }
  }

  // Interval boundaries that moves have taken back: they can be crossed, and fire, again.
  function Fallen(g: Gesture, moves: seq<int>): nat
    requires g.OnInterval?
  {
    if moves == [] then 0
    else
      var before := MovedAll(g, moves[..|moves| - 1]);
      KindKept(g, moves[..|moves| - 1]);
      var lost := before.count - Moved(before, moves[|moves| - 1]).count;
      Fallen(g, moves[..|moves| - 1]) + if lost > 0 then lost else 0
  }

  // Whatever the moves, forward or back: firings and skipped boundaries are those held and
  // those taken back.
  lemma {:induction false} IntervalAccounting(g: Gesture, initThreshold: bool, moves: seq<int>)
    requires g.OnInterval?
    ensures var p := Pressed(g, initThreshold);
      var r := MovedAll(p, moves);
      r.OnInterval? && r.interval == g.interval && r.threshold == g.threshold &&
      r.fired + Skipped(p, moves) == g.fired + r.count + Fallen(p, moves)
  {
    if moves != [] { IntervalAccounting(g, initThreshold, moves[..|moves| - 1]); }
  }

  // Forward moves take nothing back, and hold every boundary up to where they are.
  lemma {:induction false} ForwardAccounting(g: Gesture, initThreshold: bool, moves: seq<int>)
    requires g.OnInterval? && g.interval > 0 && NonNegative(moves)
    ensures var p := Pressed(g, initThreshold);
      var r := MovedAll(p, moves);
      r.OnInterval? && r.interval == g.interval && r.threshold == g.threshold &&
      r.fired + Skipped(p, moves) == g.fired + r.count && 0 <= r.count <= Quotient(r) &&
      (moves != [] ==> r.count == Quotient(r))
  {
    var p := Pressed(g, initThreshold);
    if moves == [] {
      PressedQuotient(g, initThreshold);
    } else {
      var n := |moves| - 1;
      ForwardAccounting(g, initThreshold, moves[..n]);
      MoveCrosses(MovedAll(p, moves[..n]), moves[n]);
    }
  }

  lemma PressedQuotient(g: Gesture, initThreshold: bool)
    requires g.OnInterval? && g.interval > 0
    ensures Quotient(Pressed(g, initThreshold)) >= 0
  {
    var p := Pressed(g, initThreshold);
    if p.axis >= p.threshold { QuotientMonotone(0, p.axis - p.threshold, p.interval); }
  }

  // One move forward sets the count to the quotient and fires once if that raised it.
  lemma MoveCrosses(g: Gesture, a: int)
    requires g.OnInterval? && g.interval > 0 && a >= 0 && 0 <= g.count <= Quotient(g)
    ensures var r := Moved(g, a);
      r.OnInterval? && r.interval == g.interval && r.threshold == g.threshold && r.count == Quotient(r) &&
      g.count <= r.count && r.fired == g.fired + if r.count > g.count then 1 else 0
  {
    if g.axis >= g.threshold {
      QuotientMonotone(g.axis - g.threshold, g.axis + a - g.threshold, g.interval);
    } else if g.axis + a >= g.threshold {
      QuotientMonotone(0, g.axis + a - g.threshold, g.interval);
    }
  }

  // A move to q intervals past the threshold.
  lemma MovesTo(g: Gesture, a: int, q: int)
    requires g.OnInterval? && g.interval > 0 && g.axis + a >= g.threshold
    requires (g.axis + a - g.threshold) / g.interval == q
    ensures Moved(g, a) == OnInterval(g.axis + a, g.threshold, g.interval, q, g.fired + if q > g.count then 1 else 0)
  {
  }

  lemma TwoMoves(g: Gesture, a: int, b: int)
    ensures Sum([a, b]) == a + b
    ensures MovedAll(g, [a, b]) == Moved(Moved(g, a), b)
  {
    assert [a, b][..1] == [a] && [a][..0] == [];
    assert Sum([a]) == a && MovedAll(g, [a]) == Moved(g, a);
  }

  lemma Twice(d: int)
    requires d > 0
    ensures (2 * d) / d == 2 && d / d == 1 && (d - 1) / d == 0
  {
    QuotientIs(2 * d, 2, d);
    QuotientIs(d, 1, d);
    QuotientIs(d - 1, 0, d);
  }

  lemma QuotientIs(n: nat, q: int, d: int)
    requires d > 0 && d * q <= n < d * q + d
    ensures n / d == q
  {
    Divided(n, d);
    if n / d < q { MultiplesApart(d, n / d, q); }
    if q < n / d { MultiplesApart(d, q, n / d); }
  }

  lemma SumAppend(moves: seq<int>, a: int)
    ensures Sum(moves + [a]) == Sum(moves) + a
  {
    assert (moves + [a])[..|moves|] == moves;
  }

  lemma MovedAppend(g: Gesture, moves: seq<int>, a: int)
    ensures MovedAll(g, moves + [a]) == Moved(MovedAll(g, moves), a)
  {
    assert (moves + [a])[..|moves|] == moves;
  }

  lemma {:induction false} SumNonNegative(moves: seq<int>)
    requires NonNegative(moves)
    ensures Sum(moves) >= 0
  {
    if moves != [] { SumNonNegative(moves[..|moves| - 1]); }
  }

  // ---- Moves back and forth ----

  // The whole intervals past the threshold where the gesture was last at or past it: a dip
  // below the threshold keeps what it had.
  function Level(start: int, threshold: int, interval: int, moves: seq<int>): nat
    requires interval > 0
  {
    var past := start + Sum(moves) - threshold;
    if moves == [] then 0
    else if past < 0 then Level(start, threshold, interval, moves[..|moves| - 1])
    else
      QuotientMonotone(0, past, interval);
      past / interval
  }

  // The furthest that the moves have been past the threshold.
  function Furthest(start: int, threshold: int, moves: seq<int>): nat {
    var past := start + Sum(moves) - threshold;
    var before := if moves == [] then 0 else Furthest(start, threshold, moves[..|moves| - 1]);
    if past > before then past else before
  }

  function LevelOf(p: Gesture, moves: seq<int>): nat
    requires p.OnInterval? && p.interval > 0
  {
    Level(p.axis, p.threshold, p.interval, moves)
  }

  lemma {:induction false} CountIsLevel(p: Gesture, moves: seq<int>)
    requires p.OnInterval? && p.interval > 0 && p.count == 0
    ensures MovedAll(p, moves).OnInterval? && MovedAll(p, moves).count == LevelOf(p, moves)
  {
    if moves != [] {
      CountIsLevel(p, moves[..|moves| - 1]);
      AxisIsSum(p, moves);
      KindKept(p, moves);
    }
  }

  // Some level was lower than one before it.
  ghost predicate Fell(p: Gesture, moves: seq<int>)
    requires p.OnInterval? && p.interval > 0
  {
    moves != [] &&
    (Fell(p, moves[..|moves| - 1]) || LevelOf(p, moves) < LevelOf(p, moves[..|moves| - 1]))
  }

  // Some level was higher than the one before it although another had been lower.
  ghost predicate Wavered(p: Gesture, moves: seq<int>)
    requires p.OnInterval? && p.interval > 0
  {
    moves != [] &&
    (Wavered(p, moves[..|moves| - 1]) ||
     (Fell(p, moves[..|moves| - 1]) && LevelOf(p, moves) > LevelOf(p, moves[..|moves| - 1])))
  }

  // The path has a valley: it lost a boundary and crossed one forward again.
  ghost predicate HasValley(p: Gesture, moves: seq<int>)
    requires p.OnInterval? && p.interval > 0
  {
    exists i, j, k :: 0 <= i < j < k <= |moves| && IsValley(p, moves, i, j, k)
  }

  ghost predicate IsValley(p: Gesture, moves: seq<int>, i: nat, j: nat, k: nat)
    requires p.OnInterval? && p.interval > 0 && i < j < k <= |moves|
  {
    LevelOf(p, moves[..j]) < LevelOf(p, moves[..i]) && LevelOf(p, moves[..j]) < LevelOf(p, moves[..k])
  }

  lemma {:induction false} FellWhen(p: Gesture, moves: seq<int>, i: nat, j: nat)
    requires p.OnInterval? && p.interval > 0 && i < j <= |moves|
    requires LevelOf(p, moves[..i]) > LevelOf(p, moves[..j])
    ensures Fell(p, moves[..j])
    decreases j
  {
    hide LevelOf;
    assert moves[..j][..j - 1] == moves[..j - 1];
    if i < j - 1 && LevelOf(p, moves[..j - 1]) <= LevelOf(p, moves[..j]) { FellWhen(p, moves, i, j - 1); }
  }

  lemma {:induction false} FellFrom(p: Gesture, moves: seq<int>, n: nat) returns (i: nat, j: nat)
    requires p.OnInterval? && p.interval > 0 && n <= |moves| && Fell(p, moves[..n])
    ensures i < j <= n && LevelOf(p, moves[..i]) > LevelOf(p, moves[..j])
    decreases n
  {
    hide LevelOf;
    assert moves[..n][..n - 1] == moves[..n - 1];
    if Fell(p, moves[..n - 1]) { i, j := FellFrom(p, moves, n - 1); } else { i, j := n - 1, n; }
  }

  // After a fall, a path that has not wavered only goes down.
  lemma {:induction false} OnlyDown(p: Gesture, moves: seq<int>, j: nat, k: nat)
    requires p.OnInterval? && p.interval > 0 && j <= k <= |moves|
    requires Fell(p, moves[..j]) && !Wavered(p, moves[..k])
    ensures Fell(p, moves[..k]) && LevelOf(p, moves[..k]) <= LevelOf(p, moves[..j])
    decreases k
  {
    hide LevelOf;
    if j < k {
      assert moves[..k][..k - 1] == moves[..k - 1];
      OnlyDown(p, moves, j, k - 1);
    }
  }

  lemma {:induction false} WaveredStays(p: Gesture, moves: seq<int>, k: nat)
    requires p.OnInterval? && p.interval > 0 && k <= |moves| && Wavered(p, moves[..k])
    ensures Wavered(p, moves)
    decreases |moves|
  {
    if k < |moves| {
      assert moves[..|moves| - 1][..k] == moves[..k];
      WaveredStays(p, moves[..|moves| - 1], k);
    } else {
      assert moves[..k] == moves;
    }
  }

  lemma {:induction false} ValleyFrom(p: Gesture, moves: seq<int>, n: nat) returns (i: nat, j: nat, k: nat)
    requires p.OnInterval? && p.interval > 0 && n <= |moves| && Wavered(p, moves[..n])
    ensures i < j < k <= |moves| && IsValley(p, moves, i, j, k)
    decreases n
  {
    hide LevelOf;
    assert moves[..n][..n - 1] == moves[..n - 1];
    if Wavered(p, moves[..n - 1]) {
      i, j, k := ValleyFrom(p, moves, n - 1);
    } else {
      i, j := FellFrom(p, moves, n - 1);
      FellWhen(p, moves, i, j);
      OnlyDown(p, moves, j, n - 1);
      k := n;
      if j < n - 1 { j := n - 1; }
    }
  }

  lemma {:induction false} ValleyIsWavering(p: Gesture, moves: seq<int>, i: nat, j: nat, k: nat)
    requires p.OnInterval? && p.interval > 0 && i < j < k <= |moves| && IsValley(p, moves, i, j, k)
    ensures Wavered(p, moves)
  {
    hide LevelOf;
    FellWhen(p, moves, i, j);
    if !Wavered(p, moves[..k]) { OnlyDown(p, moves, j, k); }
    WaveredStays(p, moves, k);
  }

  // Moves of at most an interval raise the level by one at a time.
  lemma LevelStep(p: Gesture, moves: seq<int>)
    requires p.OnInterval? && p.interval > 0 && p.axis - p.threshold < p.interval
    requires moves != [] && moves[|moves| - 1] <= p.interval
    ensures var before := moves[..|moves| - 1];
      var m, m0 := FurthestLevel(p, moves), FurthestLevel(p, before);
      LevelOf(p, moves) <= LevelOf(p, before) + 1 && m0 <= m && (m == m0 || m == LevelOf(p, moves)) &&
      (LevelOf(p, before) <= m0 ==> LevelOf(p, moves) <= m)
  {
    var before := moves[..|moves| - 1];
    var past0, past := p.axis + Sum(before) - p.threshold, p.axis + Sum(moves) - p.threshold;
    LevelIs(p, before);
    LevelIs(p, moves);
    if past >= 0 { QuotientStep(past0, past, Furthest(p.axis, p.threshold, before), p.interval); }
    hide Level, Sum;
  }

  lemma LevelIs(p: Gesture, moves: seq<int>)
    requires p.OnInterval? && p.interval > 0 && p.axis - p.threshold < p.interval
    ensures var past := p.axis + Sum(moves) - p.threshold;
      past <= Furthest(p.axis, p.threshold, moves) &&
      (past >= 0 ==> LevelOf(p, moves) == past / p.interval) &&
      (past < 0 && moves != [] ==> LevelOf(p, moves) == LevelOf(p, moves[..|moves| - 1]))
  {
    if moves == [] && p.axis >= p.threshold { assert (p.axis - p.threshold) / p.interval == 0; }
  }

  lemma QuotientStep(past0: int, past: nat, f0: nat, d: int)
    requires d > 0 && past <= past0 + d && past0 <= f0
    ensures past0 >= 0 ==> 0 <= past / d <= past0 / d + 1
    ensures past0 < 0 ==> past / d == 0
    ensures if past <= f0 then past / d <= f0 / d else f0 / d <= past / d
  {
    if past <= f0 { QuotientMonotone(past, f0, d); } else { QuotientMonotone(f0, past, d); }
    if past0 >= 0 {
      if past0 <= past { QuotientMonotone(past0, past, d); } else { QuotientMonotone(past, past0, d); }
    }
  }

  function FurthestLevel(p: Gesture, moves: seq<int>): nat
    requires p.OnInterval? && p.interval > 0
  {
    QuotientMonotone(0, Furthest(p.axis, p.threshold, moves), p.interval);
    Furthest(p.axis, p.threshold, moves) / p.interval
  }

  // While the level has only risen it has fired once for each interval out; once it has risen
  // after a fall it has fired more often.
  lemma {:induction false} FiringsSoFar(p: Gesture, moves: seq<int>)
    requires p.OnInterval? && p.interval > 0 && p.count == 0 && p.axis - p.threshold < p.interval
    requires AtMost(moves, p.interval)
    ensures var l, m, fired := LevelOf(p, moves), FurthestLevel(p, moves), Fired(MovedAll(p, moves)) - p.fired;
      l <= m && (Wavered(p, moves) ==> Fell(p, moves) && m < fired) &&
      (!Wavered(p, moves) ==> fired == m) && (!Fell(p, moves) ==> l == m) &&
      (Fell(p, moves) && !Wavered(p, moves) ==> l < m)
  {
    if moves == [] {
      var past := p.axis - p.threshold;
      if past >= 0 { assert past / p.interval == 0; }
    } else {
      var before := moves[..|moves| - 1];
      FiringsSoFar(p, before);
      FiresOnRise(p, moves);
      LevelStep(p, moves);
      hide LevelOf, FurthestLevel, MovedAll;
    }
  }

  lemma FiresOnRise(p: Gesture, moves: seq<int>)
    requires p.OnInterval? && p.interval > 0 && p.count == 0 && moves != []
    ensures var before := moves[..|moves| - 1];
      Fired(MovedAll(p, moves)) ==
      Fired(MovedAll(p, before)) + if LevelOf(p, moves) > LevelOf(p, before) then 1 else 0
  {
    CountIsLevel(p, moves);
    CountIsLevel(p, moves[..|moves| - 1]);
    KindKept(p, moves[..|moves| - 1]);
  }

  // Moves of at most an interval skip no boundary, whichever way they go.
  lemma {:induction false} NothingSkipped(p: Gesture, moves: seq<int>)
    requires p.OnInterval? && p.interval > 0 && p.count == 0 && p.axis - p.threshold < p.interval
    requires AtMost(moves, p.interval)
    ensures Skipped(p, moves) == 0
  {
    if moves != [] {
      var before := moves[..|moves| - 1];
      NothingSkipped(p, before);
      KindKept(p, before);
      CountIsLevel(p, before);
      CountIsLevel(p, moves);
      LevelStep(p, moves);
      hide LevelOf, FurthestLevel;
    }
  }

  // After a press on the threshold an interval gesture fires once for each boundary it holds
  // or has lost, less those skipped inside one move. Forward it loses none, and holds one for
  // each interval of movement.
  lemma IntervalFires(g: Gesture, moves: seq<int>)
    requires g.OnInterval? && g.interval > 0
    ensures var p := Pressed(g, true);
      var r := MovedAll(p, moves);
      r.OnInterval? && r.fired - g.fired == LevelOf(p, moves) + Fallen(p, moves) - Skipped(p, moves) &&
      (NonNegative(moves) ==> LevelOf(p, moves) == Sum(moves) / g.interval && Fallen(p, moves) == 0) &&
      (AtMost(moves, g.interval) ==> Skipped(p, moves) == 0)
  {
    hide LevelOf, Skipped, Fallen, Moved;
    var p := Pressed(g, true);
    IntervalAccounting(g, true, moves);
    CountIsLevel(p, moves);
    if NonNegative(moves) { ForwardFires(g, moves); }
    if AtMost(moves, g.interval) { NothingSkipped(p, moves); }
  }

  lemma ForwardFires(g: Gesture, moves: seq<int>)
    requires g.OnInterval? && g.interval > 0 && NonNegative(moves)
    ensures var p := Pressed(g, true);
      MovedAll(p, moves).OnInterval? && MovedAll(p, moves).count == Sum(moves) / g.interval && Fallen(p, moves) == 0
  {
    hide Skipped, Fallen, Moved;
    var p := Pressed(g, true);
    IntervalAccounting(g, true, moves);
    ForwardAccounting(g, true, moves);
    AxisIsSum(p, moves);
    SumNonNegative(moves);
  }

  // Moves that the gestures can be given.
  predicate AreInt16(moves: seq<int>) {
    forall i :: 0 <= i < |moves| ==> IsInt16(moves[i])
  }

  ghost predicate FiresPerInterval(g: Gesture, moves: seq<int>)
    requires g.OnInterval? && g.interval > 0
  {
    Fired(MovedAll(Pressed(g, true), moves)) - g.fired == Sum(moves) / g.interval
  }

  // One firing for each interval of movement, for every run of forward moves of at most b,
  // exactly when b is at most an interval or no move can be longer than one.
  lemma OnePerIntervalIff(g: Gesture, b: int)
    requires g.OnInterval? && g.interval > 0
    ensures (forall moves :: AreInt16(moves) && NonNegative(moves) && AtMost(moves, b) ==> FiresPerInterval(g, moves))
            <==> b <= g.interval || g.interval >= 0x7fff
  {
    if b <= g.interval || g.interval >= 0x7fff {
      forall moves | AreInt16(moves) && NonNegative(moves) && AtMost(moves, b)
        ensures FiresPerInterval(g, moves)
      {
        IntervalFires(g, moves);
      }
    } else {
      LongMoveSkips(g);
      assert AtMost([g.interval - 1, g.interval + 1], b);
    }
  }

  // A move of one more than an interval can cross two boundaries, and fires once.
  lemma LongMoveSkips(g: Gesture)
    requires g.OnInterval? && g.interval > 0
    ensures var moves := [g.interval - 1, g.interval + 1];
      (g.interval < 0x7fff ==> AreInt16(moves)) && NonNegative(moves) &&
      Sum(moves) / g.interval == 2 && Fired(MovedAll(Pressed(g, true), moves)) == g.fired + 1
  {
    hide Sum, MovedAll;
    var d, p := g.interval, Pressed(g, true);
    TwoMoves(p, d - 1, d + 1);
    Twice(d);
    MovesTo(p, d - 1, 0);
    MovesTo(Moved(p, d - 1), d + 1, 2);
  }

  // Moves of at most an interval, forward or back, fire at least once for each whole interval
  // that the path gets past the threshold, and exactly once exactly when it has no valley.
  lemma FurthestFiresIff(g: Gesture, initThreshold: bool, moves: seq<int>)
    requires g.OnInterval? && g.interval > 0 && AtMost(moves, g.interval)
    requires initThreshold || g.threshold > -g.interval
    ensures var p := Pressed(g, initThreshold);
      var fired := Fired(MovedAll(p, moves)) - g.fired;
      var out := Furthest(p.axis, p.threshold, moves) / g.interval;
      out <= fired && (fired == out <==> !HasValley(p, moves))
  {
    var p := Pressed(g, initThreshold);
    FiringsSoFar(p, moves);
    assert moves[..|moves|] == moves;
    if Wavered(p, moves) {
      var i, j, k := ValleyFrom(p, moves, |moves|);
    }
    if HasValley(p, moves) {
      var i, j, k :| 0 <= i < j < k <= |moves| && IsValley(p, moves, i, j, k);
      ValleyIsWavering(p, moves, i, j, k);
    }
  }

  // One interval past the threshold, a step back and the same step forward: no move is longer
  // than an interval and the path gets one interval out, but it fires twice.
  lemma WobbleFiresTwice(g: Gesture, initThreshold: bool)
    requires g.OnInterval? && g.interval > 1
    ensures var p := Pressed(g, initThreshold);
      var moves := [p.threshold - p.axis, g.interval, -1, 1];
      p.axis + Sum(moves) == p.threshold + g.interval && Fired(MovedAll(p, moves)) == g.fired + 2
  {
    hide Sum, MovedAll;
    var d, p := g.interval, Pressed(g, initThreshold);
    var a := p.threshold - p.axis;
    FourMoves(p, a, d, -1, 1);
    Twice(d);
    MovesTo(p, a, 0);
    var there := Moved(p, a);
    MovesTo(there, d, 1);
    MovesTo(Moved(there, d), -1, 0);
    MovesTo(Moved(Moved(there, d), -1), 1, 1);
  }

  lemma FourMoves(g: Gesture, a: int, b: int, c: int, d: int)
    ensures Sum([a, b, c, d]) == a + b + c + d
    ensures MovedAll(g, [a, b, c, d]) == Moved(Moved(Moved(Moved(g, a), b), c), d)
  {
    TwoMoves(g, a, b);
    assert [a, b, c, d][..3] == [a, b, c] && [a, b, c][..2] == [a, b];
  }

  ghost predicate ReachesThreshold(start: int, threshold: int, moves: seq<int>) {
    exists k :: 1 <= k <= |moves| && start + Sum(moves[..k]) >= threshold
  }

  // A release arms a threshold gesture again: the next move at or past its threshold fires it.
  lemma ReleaseArms(g: Gesture, primary: bool, a: int)
    requires g.OnThreshold?
    ensures var r := Moved(Released(g, primary), a);
      r.OnThreshold? && r.axis == g.axis + a && r.fired == g.fired + if r.axis >= g.threshold then 1 else 0
  {
  }

  // Between a press and a release an OnThreshold gesture fires once if the movement ever
  // reaches the threshold, back and forth or not, and never otherwise.
  lemma {:induction false} ThresholdFiresOnce(g: Gesture, initThreshold: bool, moves: seq<int>)
    requires g.OnThreshold?
    ensures var p := Pressed(g, initThreshold);
      var r := MovedAll(p, moves);
      r.OnThreshold? && r.executed == ReachesThreshold(p.axis, p.threshold, moves) &&
      r.fired == g.fired + if r.executed then 1 else 0
  {
    var p := Pressed(g, initThreshold);
    KindKept(p, moves);
    if moves != [] {
      var n := |moves| - 1;
      ThresholdFiresOnce(g, initThreshold, moves[..n]);
      AxisIsSum(p, moves);
      assert forall k :: 1 <= k <= n ==> moves[..n][..k] == moves[..k];
      assert moves[..n + 1] == moves;
      var start, threshold := p.axis, p.threshold;
      if ReachesThreshold(start, threshold, moves[..n]) {
        var k :| 1 <= k <= n && start + Sum(moves[..n][..k]) >= threshold;
        assert start + Sum(moves[..k]) >= threshold;
      }
      if ReachesThreshold(start, threshold, moves) && start + Sum(moves) < threshold {
        var k :| 1 <= k <= n + 1 && start + Sum(moves[..k]) >= threshold;
        assert start + Sum(moves[..n][..k]) >= threshold;
      }
    }
  }
}

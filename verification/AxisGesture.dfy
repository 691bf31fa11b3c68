// The gesture that turns movement into movement of a virtual axis, scaled by a
// multiplier, with a low-resolution companion axis for the hi-res wheel axes. Doubles are
// reals here.
module AxisGesture {
  import opened Options
  import Gestures

  // scale is the size of the configured multiplier (1 when unset) times the factor set for
  // hi-res wheels; negative says that the configured multiplier is. sent, viaLowRes and
  // lowSent add up what has gone to the axis, the part of it that went with a low-res axis,
  // and what has gone to that low-res axis.
  datatype Axis = Axis(hasInput: bool, axis: int, threshold: int, negative: bool, scale: real,
                       hiresRemainder: int, sent: int, viaLowRes: int, lowSent: int)

  // a is the movement; lowRes says whether the lookup of a low-res axis found one.
  datatype Movement = Movement(a: int, lowRes: bool)

  const DETENT := 120

  // Division of the source, which truncates toward zero.
  function Trunc(a: int, b: int): int
    requires b > 0
  {
    if a >= 0 then a / b else -(-a / b)
  }

  function Abs(n: int): nat {
    if n < 0 then -n else n
  }

  function AbsReal(r: real): real {
    if r < 0.0 then -r else r
  }

  predicate Emits(s: Axis, a: int) {
    s.hasInput && s.axis + a > s.threshold
  }

  // The part of a movement that lies past the threshold.
  function Past(s: Axis, a: int): int {
    if s.axis < s.threshold then s.axis + a - s.threshold else a
  }

  function Scale(multiplier: real, factor: real): real {
    AbsReal(multiplier) * factor
  }

  function Signed(s: Axis, n: int): int {
    if s.negative then -n else n
  }

  function Scaled(s: Axis, a: int): real {
    Ideal(Past(s, a), s.scale)
  }

  function Emission(s: Axis, a: int): int {
    Signed(s, Scaled(s, a).Floor)
  }

  // Detents given to the low-res axis when the hi-res remainder is h.
  function Detents(h: int): int {
    if Abs(h) < 60 then 0
    else if Trunc(h, DETENT) != 0 then Trunc(h, DETENT)
    else if h > 0 then 1 else -1
  }

  function Pressed(s: Axis, initThreshold: bool): Axis {
    s.(axis := if initThreshold then s.threshold else 0, hiresRemainder := 0)
  }

  function Moved(s: Axis, m: Movement): Axis {
    if !s.hasInput then s
    else if s.axis + m.a <= s.threshold then s.(axis := s.axis + m.a)
    else
      var e := Emission(s, m.a);
      var h := s.hiresRemainder + e;
      if m.lowRes then
        s.(axis := s.axis + m.a, sent := s.sent + e, viaLowRes := s.viaLowRes + e,
           lowSent := s.lowSent + Detents(h), hiresRemainder := h - DETENT * Detents(h))
      else s.(axis := s.axis + m.a, sent := s.sent + e)
  }

  class AxisGesture {
    var hasInput: bool
    var axis: int
    var axisRemainder: real
    var hiresRemainder: int
    var threshold: int
    var axisMultiplier: Option<real>
    var multiplier: real
    var sent: int
    var viaLowRes: int
    var lowSent: int

    ghost function View(): Axis
      reads this
    {
      Axis(hasInput, axis, threshold, ConfiguredMultiplier() < 0.0, Scale(ConfiguredMultiplier(), multiplier),
           hiresRemainder, sent, viaLowRes, lowSent)
    }

    function ConfiguredMultiplier(): real
      reads this
    {
      if axisMultiplier.Some? then axisMultiplier.value else 1.0
    }

    constructor (hasInput: bool, threshold: Option<int>, axisMultiplier: Option<real>)
      ensures var k := if axisMultiplier.Some? then axisMultiplier.value else 1.0;
        View() == Axis(hasInput, 0, Gestures.ValueOr(threshold, Gestures.GESTURE_THRESHOLD),
                       k < 0.0, Scale(k, 1.0), 0, 0, 0, 0)
    {
      this.hasInput := hasInput;
      this.threshold := Gestures.ValueOr(threshold, Gestures.GESTURE_THRESHOLD);
      this.axisMultiplier := axisMultiplier;
      axis, axisRemainder, hiresRemainder, multiplier := 0, 0.0, 0, 1.0;
      sent, viaLowRes, lowSent := 0, 0, 0;
    }

    method Press(initThreshold: bool)
      modifies this
      ensures View() == Pressed(old(View()), initThreshold)
    {
      axis := if initThreshold then threshold else 0;
      axisRemainder, hiresRemainder := 0.0, 0;
    }

    // knownLowRes says whether the axis has a low-res companion.
    method SetHiresMultiplier(hires: real, knownLowRes: bool)
      modifies this`multiplier
      ensures View() == if hasInput && knownLowRes
        then old(View()).(scale := Scale(ConfiguredMultiplier(), ConfiguredMultiplier() * hires)) else old(View())
    {
      if hasInput && knownLowRes { multiplier := ConfiguredMultiplier() * hires; }
    }

    method ScaleMove(distance: int) returns (move: real)
      ensures move == Ideal(distance, View().scale)
    {
      move := distance as real;
      if ConfiguredMultiplier() < 0.0 {
        move := move * -ConfiguredMultiplier();
      } else {
        move := move * ConfiguredMultiplier();
      }
      move := move * multiplier;
      Associate(distance as real, AbsReal(ConfiguredMultiplier()), multiplier);
    }

    // Detents due to the low-res axis are sent, and the rest is kept.
    method SendLowRes(hires: int)
      modifies this`viaLowRes, this`hiresRemainder, this`lowSent
      ensures var h := old(hiresRemainder) + hires;
        View() == old(View()).(viaLowRes := old(viaLowRes) + hires, lowSent := old(lowSent) + Detents(h),
                               hiresRemainder := h - DETENT * Detents(h))
    {
      var remainder := hiresRemainder + hires;
      viaLowRes := viaLowRes + hires;
      if Abs(remainder) >= 60 {
        var detents := Trunc(remainder, DETENT);
        if detents == 0 { detents := if remainder > 0 then 1 else -1; }
        remainder := remainder - detents * DETENT;
        lowSent := lowSent + detents;
      }
      hiresRemainder := remainder;
    }

    method Move(a: int, lowRes: bool)
      modifies this
      ensures View() == Moved(old(View()), Movement(a, lowRes))
    {
      if !hasInput { return; }
      var newAxis := axis + a;
      if newAxis > threshold {
        var move := ScaleMove(if axis < threshold then newAxis - threshold else a);
        var moveFloor := move.Floor;
        var rest := move - moveFloor as real;
        if rest >= 1.0 {
          var whole := rest.Floor;
          moveFloor := moveFloor + whole;
          rest := rest - whole as real;
        }
        axisRemainder := rest;
        if ConfiguredMultiplier() < 0.0 { moveFloor := -moveFloor; }
        sent := sent + moveFloor;
        if lowRes { SendLowRes(moveFloor); }
      }
      axis := newAxis;
    }
  }

  lemma Associate(a: real, b: real, c: real)
    ensures a * b * c == a * (b * c)
  {
  }

  // ---- Runs ----

  function Run(s: Axis, moves: seq<Movement>): Axis {
    if moves == [] then s else Moved(Run(s, moves[..|moves| - 1]), moves[|moves| - 1])
  }

  // The size of the remainder left over after a low-res step.
  lemma DetentsBalance(h: int)
    ensures Abs(h - DETENT * Detents(h)) < DETENT
  {
    if h >= 0 { assert h == DETENT * (h / DETENT) + h % DETENT; }
    else { assert -h == DETENT * (-h / DETENT) + -h % DETENT; }
  }

  // Whatever the moves, what went out along with the low-res axis is the detents sent to
  // it plus a remainder of less than one detent.
  lemma {:induction false} LowResConservation(s: Axis, initThreshold: bool, moves: seq<Movement>)
    ensures var p := Pressed(s, initThreshold);
      var r := Run(p, moves);
      r.viaLowRes - s.viaLowRes == DETENT * (r.lowSent - s.lowSent) + r.hiresRemainder &&
      Abs(r.hiresRemainder) < DETENT
  {
    if moves != [] {
      var p := Pressed(s, initThreshold);
      var before, m := Run(p, moves[..|moves| - 1]), moves[|moves| - 1];
      LowResConservation(s, initThreshold, moves[..|moves| - 1]);
      DetentsBalance(before.hiresRemainder + Emission(before, m.a));
    }
  }

  // A move that sends along with a low-res axis sends detents exactly when what is carried
  // comes to half of one, then as many whole ones as it holds and at least one, in its
  // direction; the rest is carried on. No other move touches either.
  lemma DetentsSent(s: Axis, m: Movement)
    ensures var r := Moved(s, m);
      var carried, detents := s.hiresRemainder + r.sent - s.sent, r.lowSent - s.lowSent;
      var size := if carried < 0 then -carried else carried;
      if m.lowRes && s.hasInput && s.axis + m.a > s.threshold
      then
        (detents != 0 <==> size >= 60) &&
        (size >= 60 ==> detents == (if size >= 120 then size / 120 else 1) * if carried < 0 then -1 else 1) &&
        r.hiresRemainder == carried - 120 * detents && r.viaLowRes - s.viaLowRes == r.sent - s.sent
      else detents == 0 && r.hiresRemainder == s.hiresRemainder && r.viaLowRes == s.viaLowRes
  {
    hide Emission;
    var carried := s.hiresRemainder + Emission(s, m.a);
    if carried <= -120 { QuotientPositive(-carried); }
    if carried >= 120 { QuotientPositive(carried); }
  }

  lemma QuotientPositive(n: int)
    requires n >= DETENT
    ensures n / DETENT >= 1
  {
  }

  predicate Forward(moves: seq<Movement>) {
    forall i :: 0 <= i < |moves| ==> moves[i].a >= 0
  }

  // Moves that the gesture can be given.
  predicate CanBeGiven(moves: seq<Movement>) {
    forall i :: 0 <= i < |moves| ==> Gestures.IsInt16(moves[i].a)
  }

  // Moves that emit something, even if it is a movement of 0.
  function Emitting(s: Axis, moves: seq<Movement>): nat {
    if moves == [] then 0
    else
      Emitting(s, moves[..|moves| - 1]) +
      if Emits(Run(s, moves[..|moves| - 1]), moves[|moves| - 1].a) then 1 else 0
  }

  // The fractions that the moves have cut off.
  function Lost(s: Axis, moves: seq<Movement>): real {
    if moves == [] then 0.0
    else
      Lost(s, moves[..|moves| - 1]) + Cut(Run(s, moves[..|moves| - 1]), moves[|moves| - 1].a)
  }

  function Beyond(s: Axis): nat {
    if s.axis > s.threshold then s.axis - s.threshold else 0
  }

  lemma {:induction false} SameSettings(s: Axis, moves: seq<Movement>)
    ensures var r := Run(s, moves);
      r.hasInput == s.hasInput && r.threshold == s.threshold && r.negative == s.negative && r.scale == s.scale
  {
    if moves != [] { SameSettings(s, moves[..|moves| - 1]); }
  }

  // Travel past the threshold, scaled.
  function Ideal(travel: int, scale: real): real {
    travel as real * scale
  }

  lemma IdealAdds(a: int, b: int, scale: real)
    ensures Ideal(a + b, scale) == Ideal(a, scale) + Ideal(b, scale)
    ensures Ideal(0, scale) == 0.0
  {
  }

  lemma IdealWhole(travel: int, scale: int)
    ensures Ideal(travel, scale as real) == (travel * scale) as real
  {
  }

  function Out(s: Axis, r: Axis): int {
    Signed(s, r.sent - s.sent)
  }

  function Cut(s: Axis, a: int): real {
    if Emits(s, a) then Scaled(s, a) - Scaled(s, a).Floor as real else 0.0
  }

  // Travel past the threshold that moves back to it or below have undone: they send nothing.
  function Undone(s: Axis, moves: seq<Movement>): nat {
    if moves == [] then 0
    else
      var before, m := Run(s, moves[..|moves| - 1]), moves[|moves| - 1];
      Undone(s, moves[..|moves| - 1]) + if before.axis + m.a <= before.threshold then Beyond(before) else 0
  }

  // Travel past the threshold that there was to send, forward less back.
  function Travel(s: Axis, moves: seq<Movement>): int {
    Beyond(Run(s, moves)) - Beyond(s) + Undone(s, moves)
  }

  // One move that ends past the threshold sends its scaled share of the travel, forward or
  // back, rounded down; any other sends nothing.
  lemma StepAccounting(s: Axis, m: Movement)
    requires s.hasInput
    ensures var r := Moved(s, m);
      var travel := Beyond(r) - Beyond(s) + if s.axis + m.a <= s.threshold then Beyond(s) else 0;
      (Emits(s, m.a) ==> travel == Past(s, m.a)) && (!Emits(s, m.a) ==> travel == 0) &&
      Out(s, r) as real == Ideal(travel, s.scale) - Cut(s, m.a)
  {
    IdealAdds(0, 0, s.scale);
  }

  // Whatever the moves, the movement sent is the scaled travel less the fractions cut off.
  lemma {:induction false} Accounting(s: Axis, moves: seq<Movement>)
    requires s.hasInput
    ensures var r := Run(s, moves);
      Out(s, r) as real == Ideal(Travel(s, moves), s.scale) - Lost(s, moves) &&
      (Forward(moves) ==> Travel(s, moves) == Beyond(r) - Beyond(s))
  {
    hide Moved, Cut, Emits, Ideal;
    if moves == [] {
      IdealAdds(0, 0, s.scale);
    } else {
      var n := |moves| - 1;
      var before, after := Run(s, moves[..n]), Run(s, moves);
      Accounting(s, moves[..n]);
      SameSettings(s, moves[..n]);
      StepAccounting(before, moves[n]);
      var undone := if before.axis + moves[n].a <= before.threshold then Beyond(before) else 0;
      IdealAdds(Beyond(before) - Beyond(s) + Undone(s, moves[..n]), Beyond(after) - Beyond(before) + undone, s.scale);
    }
  }

  function Total(moves: seq<Movement>): int {
    if moves == [] then 0 else Total(moves[..|moves| - 1]) + moves[|moves| - 1].a
  }

  lemma {:induction false} AxisIsTotal(s: Axis, moves: seq<Movement>)
    ensures Run(s, moves).axis == if s.hasInput then s.axis + Total(moves) else s.axis
    ensures !s.hasInput ==> Run(s, moves) == s
  {
    if moves != [] {
      AxisIsTotal(s, moves[..|moves| - 1]);
      SameSettings(s, moves[..|moves| - 1]);
    }
  }

  // A press starts at the threshold, so that all forward movement travels past it, or at 0,
  // so that what lies beyond the threshold does. It sends nothing and carries nothing over.
  lemma PressTravels(s: Axis, initThreshold: bool, moves: seq<Movement>)
    requires s.hasInput && Forward(moves) && (initThreshold || s.threshold >= 0)
    ensures var p := Pressed(s, initThreshold);
      var beyond := if initThreshold then Total(moves) else Total(moves) - s.threshold;
      p.hiresRemainder == 0 && p == s.(axis := p.axis, hiresRemainder := 0) &&
      Travel(p, moves) == if beyond > 0 then beyond else 0
  {
    var p := Pressed(s, initThreshold);
    Accounting(p, moves);
    AxisIsTotal(p, moves);
    SameSettings(p, moves);
    TotalForward(moves);
  }

  lemma {:induction false} TotalForward(moves: seq<Movement>)
    requires Forward(moves)
    ensures Total(moves) >= 0
  {
    if moves != [] { TotalForward(moves[..|moves| - 1]); }
  }

  lemma {:induction false} LostBounds(s: Axis, moves: seq<Movement>)
    ensures Emitting(s, moves) == 0 ==> Lost(s, moves) == 0.0
    ensures Emitting(s, moves) > 0 ==> 0.0 <= Lost(s, moves) < Emitting(s, moves) as real
    ensures s.scale == s.scale.Floor as real ==> Lost(s, moves) == 0.0
  {
    if moves != [] {
      var n := |moves| - 1;
      LostBounds(s, moves[..n]);
      SameSettings(s, moves[..n]);
      CutBounds(Run(s, moves[..n]), moves[n].a);
    }
  }

  lemma CutBounds(s: Axis, a: int)
    ensures 0.0 <= Cut(s, a) < 1.0
    ensures s.scale == s.scale.Floor as real ==> Cut(s, a) == 0.0
  {
    if s.scale == s.scale.Floor as real { IdealWhole(Past(s, a), s.scale.Floor); }
  }

  // After n emitting moves the movement sent, with the sign of the multiplier, is within
  // n below the scaled travel, and is the scaled travel itself if the scale is whole.
  lemma SentWithinMoves(s: Axis, moves: seq<Movement>)
    requires s.hasInput
    ensures var n := Emitting(s, moves);
      var ideal := Ideal(Travel(s, moves), s.scale);
      var out := Out(s, Run(s, moves)) as real;
      (n == 0 ==> out == 0.0 == ideal) &&
      (n > 0 ==> ideal - n as real < out <= ideal) &&
      (s.scale == s.scale.Floor as real ==> out == ideal) &&
      (-1.0 < ideal - out < 1.0 <==> Lost(s, moves) < 1.0)
  {
    Accounting(s, moves);
    LostBounds(s, moves);
    NothingEmitted(s, moves);
  }

  lemma {:induction false} NothingEmitted(s: Axis, moves: seq<Movement>)
    requires s.hasInput
    ensures Emitting(s, moves) == 0 ==> Run(s, moves).sent == s.sent
  {
    if moves != [] { NothingEmitted(s, moves[..|moves| - 1]); }
  }

  // ---- Where the code falls short ----

  // Moves of together d, the longest there are and what is left.
  function Climb(d: nat): seq<Movement> {
    if d == 0 then [] else if d <= 0x7fff then [Movement(d, false)] else Climb(d - 0x7fff) + [Movement(0x7fff, false)]
  }

  function Ones(n: nat): seq<Movement> {
    if n == 0 then [] else Ones(n - 1) + [Movement(1, false)]
  }

  // Moves up to the threshold, if it is still ahead, and then n moves of 1.
  function UpAndOnes(s: Axis, n: nat): seq<Movement> {
    Climb(if s.axis < s.threshold then s.threshold - s.axis else 0) + Ones(n)
  }

  lemma {:induction false} ClimbSilently(s: Axis, d: nat)
    requires s.hasInput && (d > 0 ==> s.axis + d <= s.threshold)
    ensures Run(s, Climb(d)) == s.(axis := s.axis + d) && Lost(s, Climb(d)) == 0.0
    ensures CanBeGiven(Climb(d)) && Forward(Climb(d))
  {
    hide Moved, Cut, Run, Lost;
    if d == 0 {
      NothingMoved(s);
    } else if d <= 0x7fff {
      NothingMoved(s);
      assert Climb(d) == [] + [Movement(d, false)];
      RunAppend(s, [], Movement(d, false));
      SilentMove(s, d);
    } else {
      var there := s.(axis := s.axis + d - 0x7fff);
      ClimbSilently(s, d - 0x7fff);
      RunAppend(s, Climb(d - 0x7fff), Movement(0x7fff, false));
      SilentMove(there, 0x7fff);
    }
  }

  lemma NothingMoved(s: Axis)
    ensures Run(s, []) == s && Lost(s, []) == 0.0
  {
  }

  lemma SilentMove(s: Axis, a: int)
    requires s.hasInput && s.axis + a <= s.threshold
    ensures Moved(s, Movement(a, false)) == s.(axis := s.axis + a) && Cut(s, a) == 0.0
  {
  }

  lemma RunAppend(s: Axis, moves: seq<Movement>, m: Movement)
    ensures Run(s, moves + [m]) == Moved(Run(s, moves), m)
    ensures Lost(s, moves + [m]) == Lost(s, moves) + Cut(Run(s, moves), m.a)
  {
    assert (moves + [m])[..|moves|] == moves;
  }

  function Fraction(r: real): real {
    r - r.Floor as real
  }

  // The fraction of a move is not carried to the next one, so each move of 1 past the
  // threshold loses the fraction of the scale.
  lemma {:induction false} OnesLoseFraction(s: Axis, n: nat)
    requires s.hasInput
    ensures Run(s, UpAndOnes(s, n)).axis == n + if s.axis < s.threshold then s.threshold else s.axis
    ensures Lost(s, UpAndOnes(s, n)) == n as real * Fraction(s.scale)
    ensures CanBeGiven(UpAndOnes(s, n)) && Forward(UpAndOnes(s, n))
  {
    hide Moved, Cut, Run, Lost, Fraction, UpAndOnes;
    if n == 0 {
      JustUp(s);
    } else {
      var before := UpAndOnes(s, n - 1);
      OneMoreUp(s, n);
      OnesLoseFraction(s, n - 1);
      SameSettings(s, before);
      RunAppend(s, before, Movement(1, false));
      OneLosesFraction(Run(s, before));
      OneMore(n, Fraction(s.scale));
    }
  }

  lemma JustUp(s: Axis)
    requires s.hasInput
    ensures Run(s, UpAndOnes(s, 0)).axis == if s.axis < s.threshold then s.threshold else s.axis
    ensures Lost(s, UpAndOnes(s, 0)) == 0.0 && CanBeGiven(UpAndOnes(s, 0)) && Forward(UpAndOnes(s, 0))
  {
    var d := if s.axis < s.threshold then s.threshold - s.axis else 0;
    assert UpAndOnes(s, 0) == Climb(d);
    ClimbSilently(s, d);
  }

  lemma OneMoreUp(s: Axis, n: nat)
    requires n > 0
    ensures UpAndOnes(s, n) == UpAndOnes(s, n - 1) + [Movement(1, false)]
  {
  }

  lemma OneLosesFraction(s: Axis)
    requires s.hasInput && s.axis >= s.threshold
    ensures Moved(s, Movement(1, false)).axis == s.axis + 1 && Cut(s, 1) == Fraction(s.scale)
  {
    assert Ideal(1, s.scale) == s.scale;
  }

  lemma OneMore(n: nat, f: real)
    requires n > 0
    ensures n as real * f == (n - 1) as real * f + f
  {
  }

  // The movement sent, against the scaled travel past the threshold.
  function Shortfall(s: Axis, moves: seq<Movement>): real {
    Ideal(Travel(s, moves), s.scale) - Out(s, Run(s, moves)) as real
  }

  // A run that falls short by one or more: as many moves of 1 as the fraction fits into 1.
  lemma FallsShort(s: Axis) returns (moves: seq<Movement>)
    requires s.hasInput && s.scale != s.scale.Floor as real
    ensures CanBeGiven(moves) && Shortfall(s, moves) >= 1.0
  {
    var n := Enough(Fraction(s.scale));
    moves := UpAndOnes(s, n);
    hide Run, Lost, Ideal, Beyond, Fraction, UpAndOnes;
    OnesLoseFraction(s, n);
    Accounting(s, moves);
  }

  lemma Enough(f: real) returns (n: nat)
    requires 0.0 < f
    ensures n as real * f >= 1.0
  {
    n := (1.0 / f).Floor + 1;
    Grows(1.0 / f, n as real, f);
  }

  lemma Grows(a: real, b: real, f: real)
    requires a <= b && 0.0 < f
    ensures a * f <= b * f
  {
  }

  // Every run that can be given stays within one of the scaled travel exactly when the scale
  // is a whole number.
  lemma WithinOneIff(s: Axis)
    requires s.hasInput
    ensures (forall moves :: CanBeGiven(moves) ==> -1.0 < Shortfall(s, moves) < 1.0)
            <==> s.scale == s.scale.Floor as real
  {
    if s.scale == s.scale.Floor as real {
      forall moves | CanBeGiven(moves)
        ensures -1.0 < Shortfall(s, moves) < 1.0
      {
        SentWithinMoves(s, moves);
      }
    } else {
      var moves := FallsShort(s);
    }
  }

  // At 0.5, no number of moves of 1 sends anything.
  lemma HalvesAreLost(s: Axis, n: nat)
    requires s.hasInput && s.axis == s.threshold && !s.negative && s.scale == 0.5
    ensures var r := Run(s, Ones(n));
      r.sent == s.sent && Beyond(r) == n && r.axis == s.axis + n && Lost(s, Ones(n)) == 0.5 * n as real
  {
    assert UpAndOnes(s, n) == Ones(n);
    OnesLoseFraction(s, n);
    SameSettings(s, Ones(n));
    Accounting(s, Ones(n));
  }

  // Setting a hi-res factor applies the configured multiplier a second time: a multiplier k
  // with factor h sends k * k * h per unit, forward even when k is negative, less than one
  // toward minus infinity, or plus infinity for a negative k, for each move that sends.
  lemma MultiplierAppliedTwice(s: Axis, k: real, h: real, moves: seq<Movement>)
    requires s.hasInput && s.negative == (k < 0.0) && s.scale == Scale(k, k * h)
    ensures var n := Emitting(s, moves);
      var sent, squared := (Run(s, moves).sent - s.sent) as real, Ideal(Travel(s, moves), k * k * h);
      (n == 0 || s.scale == s.scale.Floor as real ==> sent == squared) &&
      (n > 0 && !s.negative ==> squared - n as real < sent <= squared) &&
      (n > 0 && s.negative ==> squared <= sent < squared + n as real)
  {
    SentWithinMoves(s, moves);
    SquaredScale(k, h, Travel(s, moves));
    hide Run, Ideal, Emitting, Lost, Scale, Travel;
  }

  lemma SquaredScale(k: real, h: real, travel: int)
    ensures var squared := Ideal(travel, k * k * h);
      Ideal(travel, Scale(k, k * h)) == if k < 0.0 then -squared else squared
  {
    Associate(k, k, h);
    if k < 0.0 {
      assert -k * (k * h) == -(k * (k * h));
      Opposite(travel as real, k * (k * h));
    }
  }

  lemma Opposite(t: real, f: real)
    ensures t * -f == -(t * f)
  {
  }

  // The same for whole numbers, where nothing is cut off.
  lemma WholeMultiplier(s: Axis, k: int, h: int, moves: seq<Movement>)
    requires s.hasInput && s.negative == (k < 0)
    requires s.scale == Scale(k as real, k as real * h as real)
    ensures Run(s, moves).sent - s.sent == Travel(s, moves) * (k * k * h)
  {
    WholeScale(k, h);
    MultiplierAppliedTwice(s, k as real, h as real, moves);
    IdealWhole(Travel(s, moves), k * k * h);
    hide Run, Ideal, Emitting, Scale, Travel;
  }

  lemma WholeScale(k: int, h: int)
    ensures Scale(k as real, k as real * h as real) == (Abs(k) * (k * h)) as real
    ensures k as real * k as real * h as real == (k * k * h) as real
  {
    IdealWhole(k, h);
    IdealWhole(Abs(k), k * h);
    IdealWhole(k, k);
    IdealWhole(k * k, h);
  }

  // Setting the hi-res factor h leaves the scale that the configured multiplier k asks for
  // exactly when k is 0 or 1, or h is 0.
  lemma IntendedScaleIff(k: real, h: real)
    ensures Scale(k, k * h) == Scale(k, h) <==> k == 0.0 || k == 1.0 || h == 0.0
  {
    var a := AbsReal(k);
    Factor(a, h, k);
    if k == 1.0 || h == 0.0 { assert k * h == h; }
    if Scale(k, k * h) == Scale(k, h) && k != 0.0 && h != 0.0 {
      NonZeroProduct(a, h);
      NonZeroProduct(a * h, k - 1.0);
    }
  }

  lemma Factor(a: real, h: real, k: real)
    ensures a * (k * h) - a * h == (a * h) * (k - 1.0)
  {
    assert a * (k * h) == (a * h) * k;
  }

  lemma NonZeroProduct(x: real, y: real)
    ensures x != 0.0 && y != 0.0 ==> x * y != 0.0
  {
  }

  // The movement sent is the travel times k times h.
  predicate SendsIntended(s: Axis, moves: seq<Movement>, k: int, h: int) {
    Run(s, moves).sent - s.sent == Travel(s, moves) * (k * h)
  }

  // For whole k and h every run that can be given sends what is intended under the same
  // condition and only then.
  lemma IntendedMovementIff(s: Axis, k: int, h: int)
    requires s.hasInput && s.negative == (k < 0) && s.scale == Scale(k as real, k as real * h as real)
    ensures (forall moves :: CanBeGiven(moves) ==> SendsIntended(s, moves, k, h)) <==> k == 0 || k == 1 || h == 0
  {
    TravelOfOne(s);
    RunIntendedIff(s, UpAndOnes(s, 1), k, h);
    forall moves | CanBeGiven(moves)
      ensures k == 0 || k == 1 || h == 0 ==> SendsIntended(s, moves, k, h)
    {
      RunIntendedIff(s, moves, k, h);
    }
  }

  lemma RunIntendedIff(s: Axis, moves: seq<Movement>, k: int, h: int)
    requires s.hasInput && s.negative == (k < 0) && s.scale == Scale(k as real, k as real * h as real)
    ensures SendsIntended(s, moves, k, h) <==> Travel(s, moves) == 0 || k == 0 || k == 1 || h == 0
  {
    WholeMultiplier(s, k, h, moves);
    hide Run, Scale, Travel;
    SquareIff(Travel(s, moves), k, h);
  }

  lemma SquareIff(travel: int, k: int, h: int)
    ensures travel * (k * k * h) == travel * (k * h) <==> travel == 0 || k == 0 || k == 1 || h == 0
  {
    var p := travel * (k * h);
    assert travel * (k * k * h) - p == (k - 1) * p;
    Zero(k - 1, p);
    Zero(travel, k * h);
    Zero(k, h);
  }

  lemma Zero(a: int, b: int)
    ensures a * b == 0 <==> a == 0 || b == 0
  {
  }

  lemma TravelOfOne(s: Axis)
    requires s.hasInput
    ensures Travel(s, UpAndOnes(s, 1)) == 1 && CanBeGiven(UpAndOnes(s, 1))
  {
    hide Run, UpAndOnes, Undone, Lost, Ideal, Out;
    OnesLoseFraction(s, 1);
    Accounting(s, UpAndOnes(s, 1));
    SameSettings(s, UpAndOnes(s, 1));
  }
}

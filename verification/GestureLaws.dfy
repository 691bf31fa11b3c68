// What a gesture button does over a whole press, any number of moves, and the release.
module GestureLaws {
  import opened Options
  import opened Gestures
  import opened GestureAction

  // ---- Displacement ----

  function X(moves: seq<Delta>): int {
    if moves == [] then 0 else X(moves[..|moves| - 1]) + moves[|moves| - 1].dx
  }

  function Y(moves: seq<Delta>): int {
    if moves == [] then 0 else Y(moves[..|moves| - 1]) + moves[|moves| - 1].dy
  }

  predicate AreDeltas(moves: seq<Delta>) {
    forall i :: 0 <= i < |moves| ==> IsDelta(moves[i])
  }

  // Everything the gesture of one direction receives after a press.
  function Received(d: Direction, moves: seq<Delta>): seq<int> {
    if moves == [] then []
    else
      var before := moves[..|moves| - 1];
      var a := Sent(d, X(before), Y(before), moves[|moves| - 1]);
      Received(d, before) + if a.Some? then [a.value] else []
  }

  function Total(d: Direction, moves: seq<Delta>): int {
    Sum(Received(d, moves))
  }

  // The gestures after a press and a run of moves.
  function Run(gs: map<Direction, Gesture>, moves: seq<Delta>): map<Direction, Gesture> {
    if moves == [] then PressedAll(gs)
    else
      var before := moves[..|moves| - 1];
      Stepped(Run(gs, before), X(before), Y(before), moves[|moves| - 1])
  }

  lemma {:induction false} RunIsReceived(gs: map<Direction, Gesture>, moves: seq<Delta>)
    ensures Run(gs, moves).Keys == gs.Keys
    ensures forall k :: k in gs ==> Run(gs, moves)[k] == MovedAll(Pressed(gs[k], false), Received(k, moves))
  {
    if moves != [] {
      var before := moves[..|moves| - 1];
      RunIsReceived(gs, before);
      forall k | k in gs
        ensures Run(gs, moves)[k] == MovedAll(Pressed(gs[k], false), Received(k, moves))
      {
        var a := Sent(k, X(before), Y(before), moves[|moves| - 1]);
        if a.Some? {
          MovedAppend(Pressed(gs[k], false), Received(k, before), a.value);
        } else {
          assert Received(k, moves) == Received(k, before);
        }
      }
    }
  }

  lemma TotalStep(d: Direction, moves: seq<Delta>)
    requires moves != []
    ensures var before := moves[..|moves| - 1];
      Total(d, moves) == Total(d, before) + Amount(Sent(d, X(before), Y(before), moves[|moves| - 1]))
  {
    var before := moves[..|moves| - 1];
    var a := Sent(d, X(before), Y(before), moves[|moves| - 1]);
    if a.Some? { SumAppend(Received(d, before), a.value); } else { assert Received(d, moves) == Received(d, before); }
  }

  function Amount(a: Option<int>): int {
    ValueOr(a, 0)
  }

  // A cast keeps every value that fits.
  lemma Fits(n: int)
    ensures IsInt16(n) ==> AsInt16(n) == n
    ensures AsInt16(0x8000) == -0x8000
  {
  }

  function Max0(n: int): int {
    if n > 0 then n else 0
  }

  // Moves of -32768, whose negation does not fit in 16 bits, made from x <= 0.
  function WrapsX(moves: seq<Delta>): nat {
    if moves == [] then 0
    else
      var before := moves[..|moves| - 1];
      WrapsX(before) + if moves[|moves| - 1].dx == -0x8000 && X(before) <= 0 then 1 else 0
  }

  function WrapsY(moves: seq<Delta>): nat {
    if moves == [] then 0
    else
      var before := moves[..|moves| - 1];
      WrapsY(before) +
      if moves[|moves| - 1].dy == -0x8000 && (Y(before) <= 0 || Y(before) == 0x8000) then 1 else 0
  }

  // When a gesture is moved at all: a horizontal one when the cursor moves sideways and is on
  // its side before or after; a vertical one when the cursor moves up or down and ends on its
  // side, comes from the other, or leaves for the other.
  lemma MovedWhen(d: Direction, x: int, y: int, m: Delta)
    ensures var before, after := Toward(d, x, y), Toward(d, x + m.dx, y + m.dy);
      Sent(d, x, y, m).Some? <==>
      match d
      case NoDirection => false
      case Left => m.dx != 0 && (before > 0 || after > 0)
      case Right => m.dx != 0 && (before > 0 || after > 0)
      case _ => m.dy != 0 && (after > 0 || (before < 0 && after == 0) || (before > 0 && after < 0))
  {
  }

  lemma StepX(x: int, dx: int)
    requires IsInt16(dx)
    ensures Amount(SentX(Right, x, dx)) == Max0(x + dx) - Max0(x)
    ensures Amount(SentX(Left, x, dx)) ==
      Max0(-x - dx) - Max0(-x) - if dx == -0x8000 && x <= 0 then 0x10000 else 0
  {
    Fits(x);
    Fits(-x);
    Fits(x + dx);
    Fits(-x - dx);
    Fits(-dx);
  }

  lemma NothingReceived()
    ensures Total(Right, []) == Total(Left, []) == Total(Up, []) == Total(Down, []) == 0 && Max0(0) == 0
  {
  }

  // On x, each side has received its displacement, whatever crossings of the origin there were.
  lemma {:induction false} HorizontalTotals(moves: seq<Delta>)
    requires AreDeltas(moves)
    ensures Total(Right, moves) == Max0(X(moves))
    ensures Total(Left, moves) == Max0(-X(moves)) - 0x10000 * WrapsX(moves)
  {
    hide Total, SentX, SentY, Max0, Amount;
    if moves == [] {
      NothingReceived();
    } else {
      var before := moves[..|moves| - 1];
      HorizontalTotals(before);
      StepX(X(before), moves[|moves| - 1].dx);
      TotalStep(Right, moves);
      TotalStep(Left, moves);
    }
  }

  // What the crossings of y == 0 have added to both vertical gestures: the code gives the
  // displacement left behind to the side being entered and the other way round.
  function Residue(moves: seq<Delta>): int {
    if moves == [] then 0
    else
      var before := moves[..|moves| - 1];
      Residue(before) + Crossing(Y(before), Y(moves))
  }

  function Crossing(y: int, ny: int): int {
    if y > 0 && ny <= 0 then y + ny else if y < 0 && ny >= 0 then -(y + ny) else 0
  }

  lemma StepY(y: int, dy: int)
    requires IsInt16(dy)
    ensures Amount(SentY(Down, y, dy)) == Max0(y + dy) - Max0(y) + Crossing(y, y + dy)
    ensures Amount(SentY(Up, y, dy)) == Max0(-y - dy) - Max0(-y) + Crossing(y, y + dy) -
      if dy == -0x8000 && (y <= 0 || y == 0x8000) then 0x10000 else 0
  {
    Fits(y);
    Fits(-y);
    Fits(y + dy);
    Fits(-y - dy);
    Fits(-dy);
  }

  lemma {:induction false} VerticalTotals(moves: seq<Delta>)
    requires AreDeltas(moves)
    ensures Total(Down, moves) == Max0(Y(moves)) + Residue(moves)
    ensures Total(Up, moves) == Max0(-Y(moves)) + Residue(moves) - 0x10000 * WrapsY(moves)
  {
    hide Total, SentX, SentY, Max0, Amount, Crossing;
    if moves == [] {
      NothingReceived();
    } else {
      var before := moves[..|moves| - 1];
      VerticalTotals(before);
      StepY(Y(before), moves[|moves| - 1].dy);
      TotalStep(Down, moves);
      TotalStep(Up, moves);
    }
  }

  // The difference law on y, and exactly when each vertical gesture has its displacement.
  lemma VerticalLaw(moves: seq<Delta>)
    requires AreDeltas(moves)
    ensures Total(Down, moves) - Total(Up, moves) == Y(moves) + 0x10000 * WrapsY(moves)
    ensures Total(Down, moves) == Max0(Y(moves)) <==> Residue(moves) == 0
    ensures WrapsY(moves) == 0 ==> (Total(Up, moves) == Max0(-Y(moves)) <==> Residue(moves) == 0)
  {
    hide Total, Residue, WrapsY, Y;
    VerticalTotals(moves);
  }

  // Every crossing of y == 0 goes from some y to -y.
  predicate MirrorsCrossings(moves: seq<Delta>) {
    moves == [] ||
    (MirrorsCrossings(moves[..|moves| - 1]) &&
     (Crosses(Y(moves[..|moves| - 1]), moves[|moves| - 1].dy) ==> Y(moves) == -Y(moves[..|moves| - 1])))
  }

  // After each move so far the gesture had received its displacement.
  predicate DownAlwaysRight(moves: seq<Delta>) {
    Total(Down, moves) == Max0(Y(moves)) && (moves == [] || DownAlwaysRight(moves[..|moves| - 1]))
  }

  predicate UpAlwaysRight(moves: seq<Delta>) {
    Total(Up, moves) == Max0(-Y(moves)) && (moves == [] || UpAlwaysRight(moves[..|moves| - 1]))
  }

  // Down has its displacement throughout a run exactly when every crossing of y == 0 goes
  // from some y to -y, and so has up if no move has wrapped.
  lemma {:induction false} VerticalAlwaysIff(moves: seq<Delta>)
    requires AreDeltas(moves)
    ensures DownAlwaysRight(moves) <==> MirrorsCrossings(moves)
    ensures WrapsY(moves) == 0 ==> (UpAlwaysRight(moves) <==> MirrorsCrossings(moves))
    ensures MirrorsCrossings(moves) ==> Residue(moves) == 0
  {
    hide Total;
    VerticalTotals(moves);
    if moves != [] { VerticalAlwaysIff(moves[..|moves| - 1]); }
  }

  predicate CrossesY(moves: seq<Delta>) {
    exists i :: 0 <= i < |moves| && Crosses(Y(moves[..i]), moves[i].dy)
  }

  predicate Crosses(y: int, dy: int) {
    (y > 0 && y + dy <= 0) || (y < 0 && y + dy >= 0)
  }

  lemma {:induction false} NoCrossingNoResidue(moves: seq<Delta>)
    requires !CrossesY(moves)
    ensures Residue(moves) == 0
  {
    if moves != [] {
      var n := |moves| - 1;
      assert !Crosses(Y(moves[..n]), moves[n].dy);
      assert forall i :: 0 <= i < n ==> moves[..n][..i] == moves[..i];
      NoCrossingNoResidue(moves[..n]);
    }
  }

  // One crossing is enough: down 60 and back to the start gives 60 to both gestures.
  lemma VerticalLawFails()
    ensures var moves := [Delta(0, 60), Delta(0, -60)];
      AreDeltas(moves) && Y(moves) == 0 && Received(Down, moves) == [60] && Received(Up, moves) == [60]
  {
    var moves := [Delta(0, 60), Delta(0, -60)];
    assert moves[..1] == [Delta(0, 60)] && moves[..1][..0] == [];
    FirstDown();
    assert Sent(Down, 0, 60, Delta(0, -60)) == None && Sent(Up, 0, 60, Delta(0, -60)) == Some(60);
  }

  lemma FirstDown()
    ensures var moves := [Delta(0, 60)];
      X(moves) == 0 && Y(moves) == 60 && Received(Down, moves) == [60] && Received(Up, moves) == []
  {
    assert [Delta(0, 60)][..0] == [];
    assert Sent(Down, 0, 0, Delta(0, 60)) == Some(60) && Sent(Up, 0, 0, Delta(0, 60)) == None;
  }

  lemma {:induction false} NothingForNoDirection(moves: seq<Delta>)
    ensures Received(NoDirection, moves) == []
  {
    if moves != [] { NothingForNoDirection(moves[..|moves| - 1]); }
  }

  // ---- Release ----

  // The winner is the direction the cursor went in if its gesture met its threshold,
  // else the first of the others, in enumerator order, whose gesture did.
  lemma WinnerIsFirst(gs: map<Direction, Gesture>, d: Direction, k: Direction)
    requires d != NoDirection
    ensures Winner(gs, d) == Some(k) <==>
      k != NoDirection && HasMet(gs, k) &&
      (k == d ||
       (!HasMet(gs, d) &&
        forall j: Direction :: j != NoDirection && HasMet(gs, j) ==> Rank(k) <= Rank(j)))
  {
    var w := Winner(gs, d);
    if w.Some? && w != Some(k) { assert HasMet(gs, w.value) && w.value != NoDirection; }
  }

  // No gesture is released twice, and each gets the call its place calls for.
  lemma EachReleasedOnce(gs: map<Direction, Gesture>, d: Direction)
    requires d != NoDirection
    ensures var calls := AllCalls(gs, d);
      && (forall i, j :: 0 <= i < j < |calls| ==> calls[i].direction != calls[j].direction)
      && (forall k: Direction, p: bool :: Call(k, p) in calls <==> k in gs && CallFor(gs, d, k) == Some(p))
  {
    CallsSoFar(gs, d, DIRECTIONS);
    AppendCall(CallsUpTo(gs, d, DIRECTIONS), CallIn(gs, d, NoDirection));
  }

  ghost predicate CallsAre(gs: map<Direction, Gesture>, d: Direction, i: nat, calls: seq<Call>) {
    && (forall a, b :: 0 <= a < b < |calls| ==> calls[a].direction != calls[b].direction)
    && (forall c :: c in calls <==> Done(d, c.direction, i) && c in CallIn(gs, d, c.direction))
  }

  lemma {:induction false} CallsSoFar(gs: map<Direction, Gesture>, d: Direction, i: nat)
    requires d != NoDirection && i <= DIRECTIONS
    ensures CallsAre(gs, d, i, CallsUpTo(gs, d, i))
  {
    hide CallsAre, CallIn;
    if i == 0 {
      FirstCall(gs, d);
    } else {
      CallsSoFar(gs, d, i - 1);
      NextCall(gs, d, i - 1, CallsUpTo(gs, d, i - 1));
    }
  }

  lemma FirstCall(gs: map<Direction, Gesture>, d: Direction)
    requires d != NoDirection
    ensures CallsAre(gs, d, 0, CallIn(gs, d, d))
  {
  }

  lemma NextCall(gs: map<Direction, Gesture>, d: Direction, i: nat, calls: seq<Call>)
    requires d != NoDirection && i < DIRECTIONS && CallsAre(gs, d, i, calls)
    ensures var k := InOrder(i);
      CallsAre(gs, d, i + 1, calls + if k == d || k == NoDirection then [] else CallIn(gs, d, k))
  {
    var k := InOrder(i);
    OneMoreDone(d, i);
    AppendCall(calls, if k == d || k == NoDirection then [] else CallIn(gs, d, k));
  }

  lemma AppendCall(calls: seq<Call>, more: seq<Call>)
    requires forall a, b :: 0 <= a < b < |calls| ==> calls[a].direction != calls[b].direction
    requires |more| <= 1 && (more != [] ==> forall c :: c in calls ==> c.direction != more[0].direction)
    ensures var all := calls + more;
      && (forall a, b :: 0 <= a < b < |all| ==> all[a].direction != all[b].direction)
      && (forall c :: c in all <==> c in calls || c in more)
  {
  }

  // Among the four directions exactly the winner is released as primary while meeting its
  // threshold, and NoDirection is primary exactly when no direction met its own.
  lemma OnePrimary(gs: map<Direction, Gesture>, d: Direction, k: Direction)
    requires d != NoDirection && k in gs
    ensures k != NoDirection ==> (Call(k, true) in AllCalls(gs, d) && Met(gs[k]) <==> Winner(gs, d) == Some(k))
    ensures k == NoDirection ==>
      (Call(k, true) in AllCalls(gs, d) <==> forall j: Direction :: j != NoDirection ==> !HasMet(gs, j))
  {
    EachReleasedOnce(gs, d);
    if Winner(gs, d).Some? { WinnerIsFirst(gs, d, Winner(gs, d).value); }
  }

  // ---- Exactly one action ----

  predicate AllOnRelease(gs: map<Direction, Gesture>) {
    forall k :: k in gs ==> gs[k].OnRelease?
  }

  function FiredIn(gs: map<Direction, Gesture>, k: Direction): nat {
    if k in gs then Fired(gs[k]) else 0
  }

  function FiredAll(gs: map<Direction, Gesture>): nat {
    FiredIn(gs, NoDirection) + FiredIn(gs, Up) + FiredIn(gs, Down) + FiredIn(gs, Left) + FiredIn(gs, Right)
  }

  // What fires when the button is let go: the winner, or else NoDirection.
  lemma ReleaseFires(gs: map<Direction, Gesture>, d: Direction, k: Direction)
    requires d != NoDirection && AllOnRelease(gs)
    ensures FiredIn(ReleasedAll(gs, d), k) == FiredIn(gs, k) +
      if Winner(gs, d) == Some(k) || (k == NoDirection && Winner(gs, d) == None && HasMet(gs, k)) then 1 else 0
  {
  }

  // A press, any moves, and the release of a button with OnRelease gestures fire exactly
  // one action, if there is a gesture for no direction or some direction met its threshold,
  // and otherwise none.
  lemma FiresExactlyOnce(gs: map<Direction, Gesture>, moves: seq<Delta>)
    requires AllOnRelease(gs) && (NoDirection in gs ==> gs[NoDirection].threshold == 0)
    ensures var held := Run(gs, moves);
      var d := ToDirection(X(moves), Y(moves));
      FiredAll(ReleasedAll(held, d)) == FiredAll(gs) +
        if NoDirection in gs || (exists k: Direction :: k != NoDirection && HasMet(held, k)) then 1 else 0
  {
    var held := Run(gs, moves);
    HeldOnRelease(gs, moves);
    ReleaseFiresOne(held, ToDirection(X(moves), Y(moves)));
  }

  lemma ReleaseFiresOne(gs: map<Direction, Gesture>, d: Direction)
    requires d != NoDirection && AllOnRelease(gs)
    ensures FiredAll(ReleasedAll(gs, d)) == FiredAll(gs) +
      if HasMet(gs, NoDirection) || (exists k: Direction :: k != NoDirection && HasMet(gs, k)) then 1 else 0
  {
    ReleaseFires(gs, d, NoDirection);
    ReleaseFires(gs, d, Up);
    ReleaseFires(gs, d, Down);
    ReleaseFires(gs, d, Left);
    ReleaseFires(gs, d, Right);
    var w := Winner(gs, d);
    if w.Some? { assert w.value != NoDirection && HasMet(gs, w.value); }
  }

  lemma HeldOnRelease(gs: map<Direction, Gesture>, moves: seq<Delta>)
    requires AllOnRelease(gs)
    ensures AllOnRelease(Run(gs, moves)) && FiredAll(Run(gs, moves)) == FiredAll(gs)
    ensures NoDirection in gs && gs[NoDirection].threshold == 0 ==> HasMet(Run(gs, moves), NoDirection)
    ensures NoDirection !in gs ==> NoDirection !in Run(gs, moves)
  {
    var held := Run(gs, moves);
    RunIsReceived(gs, moves);
    NothingForNoDirection(moves);
    forall k | k in gs
      ensures held[k].OnRelease? && Fired(held[k]) == Fired(gs[k])
    {
      ReleaseKeepsCount(Pressed(gs[k], false), Received(k, moves));
    }
  }

  // What each gesture of any kind fires in a press, a run of moves and the release: one
  // action for a threshold reached on the way, one for each boundary held at the end or taken
  // back before less those skipped, and one on release for the winner, or for no direction
  // when nobody won.
  lemma EachFires(gs: map<Direction, Gesture>, moves: seq<Delta>, k: Direction)
    requires k in gs
    ensures k in Run(gs, moves) && k in ReleasedAll(Run(gs, moves), ToDirection(X(moves), Y(moves)))
    ensures var held, d := Run(gs, moves), ToDirection(X(moves), Y(moves));
      var fires := Fired(ReleasedAll(held, d)[k]) - Fired(gs[k]);
      var given := Received(k, moves);
      (gs[k].NoPress? ==> fires == 0) &&
      (gs[k].OnRelease? ==> fires == if IsWinner(held, d, k) then 1 else 0) &&
      (gs[k].OnThreshold? ==> fires == if ReachesThreshold(0, gs[k].threshold, given) then 1 else 0) &&
      (gs[k].OnInterval? ==>
        held[k].OnInterval? &&
        fires == held[k].count + Fallen(Pressed(gs[k], false), given) - Skipped(Pressed(gs[k], false), given))
  {
    RunIsReceived(gs, moves);
    MovesFire(gs[k], Received(k, moves));
    KindKept(Pressed(gs[k], false), Received(k, moves));
    ReleaseFiresOnly(Run(gs, moves), ToDirection(X(moves), Y(moves)), k);
  }

  // A held interval gesture that is given no more than an interval at a time fires once for
  // each interval that its path gets past the threshold exactly when the path has no valley.
  lemma EachIntervalIff(gs: map<Direction, Gesture>, moves: seq<Delta>, k: Direction)
    requires k in gs && gs[k].OnInterval? && gs[k].interval > 0 && gs[k].threshold > -gs[k].interval
    requires AtMost(Received(k, moves), gs[k].interval)
    ensures k in ReleasedAll(Run(gs, moves), ToDirection(X(moves), Y(moves)))
    ensures var g, given := gs[k], Received(k, moves);
      var fires := Fired(ReleasedAll(Run(gs, moves), ToDirection(X(moves), Y(moves)))[k]) - Fired(g);
      fires == Furthest(0, g.threshold, given) / g.interval <==> !HasValley(Pressed(g, false), given)
  {
    RunIsReceived(gs, moves);
    FurthestFiresIff(gs[k], false, Received(k, moves));
    KindKept(Pressed(gs[k], false), Received(k, moves));
    ReleaseFiresOnly(Run(gs, moves), ToDirection(X(moves), Y(moves)), k);
  }

  // The direction that takes the release, or no direction when nobody else does.
  predicate IsWinner(gs: map<Direction, Gesture>, d: Direction, k: Direction) {
    Winner(gs, d) == Some(k) || (k == NoDirection && Winner(gs, d) == None && HasMet(gs, k))
  }

  lemma ReleaseFiresOnly(gs: map<Direction, Gesture>, d: Direction, k: Direction)
    requires k in gs && d != NoDirection
    ensures k in ReleasedAll(gs, d)
    ensures Fired(ReleasedAll(gs, d)[k]) == Fired(gs[k]) + if gs[k].OnRelease? && IsWinner(gs, d, k) then 1 else 0
  {
    assert ReleasedAll(gs, d)[k] == ReleasedBy(gs, d, k);
    if Winner(gs, d).Some? { WinnerIsFirst(gs, d, Winner(gs, d).value); }
  }

  // What a gesture fires while it moves.
  lemma MovesFire(g: Gesture, moves: seq<int>)
    ensures var p := Pressed(g, false);
      var r := MovedAll(p, moves);
      var fires := Fired(r) - Fired(g);
      (g.NoPress? || g.OnRelease? ==> fires == 0) &&
      (g.OnThreshold? ==> fires == if ReachesThreshold(0, g.threshold, moves) then 1 else 0) &&
      (g.OnInterval? ==> r.OnInterval? && fires == r.count + Fallen(p, moves) - Skipped(p, moves))
  {
    var p := Pressed(g, false);
    KindKept(p, moves);
    match g {
      case OnRelease(_, _, _) => ReleaseKeepsCount(p, moves);
      case OnThreshold(_, _, _, _) => ThresholdFiresOnce(g, false, moves);
      case OnInterval(_, _, _, _, _) => IntervalAccounting(g, false, moves);
      case NoPress(_, _) =>
    }
  }

  lemma {:induction false} ReleaseKeepsCount(g: Gesture, moves: seq<int>)
    requires g.OnRelease?
    ensures MovedAll(g, moves).OnRelease? && MovedAll(g, moves).fired == g.fired
  {
    if moves != [] { ReleaseKeepsCount(g, moves[..|moves| - 1]); }
  }

  // In terms of the cursor alone: the button's right gesture has met its threshold
  // exactly when the cursor ended far enough right, whatever path it took.
  lemma RightMeets(gs: map<Direction, Gesture>, moves: seq<Delta>)
    requires AreDeltas(moves) && Right in gs && (gs[Right].OnInterval? ==> gs[Right].interval > 0)
    ensures HasMet(Run(gs, moves), Right) <==> Max0(X(moves)) >= gs[Right].threshold
  {
    RunIsReceived(gs, moves);
    HorizontalTotals(moves);
    AxisIsSum(Pressed(gs[Right], false), Received(Right, moves));
    KindKept(Pressed(gs[Right], false), Received(Right, moves));
  }

  // So has the left one, less what moves of -32768 have cost it.
  lemma LeftMeets(gs: map<Direction, Gesture>, moves: seq<Delta>)
    requires AreDeltas(moves) && Left in gs && (gs[Left].OnInterval? ==> gs[Left].interval > 0)
    ensures HasMet(Run(gs, moves), Left) <==> Max0(-X(moves)) - 0x10000 * WrapsX(moves) >= gs[Left].threshold
  {
    RunIsReceived(gs, moves);
    HorizontalTotals(moves);
    AxisIsSum(Pressed(gs[Left], false), Received(Left, moves));
    KindKept(Pressed(gs[Left], false), Received(Left, moves));
  }

  // On y the path matters: the cursor is back where it started, and the up gesture fires.
  lemma ReturnFiresUp(fired: nat)
    ensures var gs := map[Up := OnRelease(0, GESTURE_THRESHOLD, fired)];
      var moves := [Delta(0, 60), Delta(0, -60)];
      X(moves) == 0 && Y(moves) == 0 &&
      ReleasedAll(Run(gs, moves), ToDirection(0, 0)) == map[Up := OnRelease(60, GESTURE_THRESHOLD, fired + 1)]
  {
    var gs := map[Up := OnRelease(0, GESTURE_THRESHOLD, fired)];
    var moves := [Delta(0, 60), Delta(0, -60)];
    ReturnIsHeld(fired);
    assert moves[..1] == [Delta(0, 60)] && moves[..1][..0] == [];
    assert Winner(Run(gs, moves), Right) == Some(Up);
  }

  lemma ReturnIsHeld(fired: nat)
    ensures Run(map[Up := OnRelease(0, GESTURE_THRESHOLD, fired)], [Delta(0, 60), Delta(0, -60)]) ==
      map[Up := OnRelease(60, GESTURE_THRESHOLD, fired)]
  {
    var gs := map[Up := OnRelease(0, GESTURE_THRESHOLD, fired)];
    var moves := [Delta(0, 60), Delta(0, -60)];
    VerticalLawFails();
    RunIsReceived(gs, moves);
    assert [60][..0] == [];
    assert MovedAll(Pressed(gs[Up], false), [60]) == OnRelease(60, GESTURE_THRESHOLD, fired);
  }
}

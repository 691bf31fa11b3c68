// The gesture button: raw cursor movement split between four directions while the
// button is held, and one gesture chosen when it is let go.
module GestureAction {
  import opened Options
  import opened Gestures

  datatype Direction = NoDirection | Up | Down | Left | Right

  const DIRECTIONS := 5

  // The enumerators in order: the map of gestures is walked in this order.
  function InOrder(i: nat): Direction
    requires i < DIRECTIONS
  {
    if i == 0 then NoDirection else if i == 1 then Up else if i == 2 then Down else if i == 3 then Left else Right
  }

  function Rank(d: Direction): nat {
    match d
    case NoDirection => 0
    case Up => 1
    case Down => 2
    case Left => 3
    case Right => 4
  }

  // How far (x, y) lies towards a direction; y grows downwards.
  function Toward(d: Direction, x: int, y: int): int {
    match d
    case NoDirection => 0
    case Up => -y
    case Down => y
    case Left => -x
    case Right => x
  }

  // Which of two directions is taken when both are equally far.
  predicate WinsTie(d: Direction, other: Direction) {
    || d == other
    || (d == Right && other == Down) || (d == Down && other == Left)
    || (d == Left && other == Up) || (d == Up && other == Right)
  }

  function ToDirection(x: int, y: int): (d: Direction)
    ensures d != NoDirection
    ensures forall k: Direction :: k != NoDirection ==> Toward(k, x, y) <= Toward(d, x, y)
    ensures forall k: Direction :: k != NoDirection && Toward(k, x, y) == Toward(d, x, y) ==>
      WinsTie(d, k) || (x == 0 && y == 0 && d == Right)
  {
    if x >= 0 && y >= 0 then if x >= y then Right else Down
    else if x < 0 && y >= 0 then if -x <= y then Down else Left
    else if x <= 0 then if x <= y then Left else Up
    else if x <= -y then Up else Right
  }

  // ---- One move ----

  datatype Delta = Delta(dx: int, dy: int)

  predicate IsDelta(m: Delta) {
    IsInt16(m.dx) && IsInt16(m.dy)
  }

  // What a move passes to the gesture of one direction, if anything.
  function Sent(d: Direction, x: int, y: int, m: Delta): Option<int> {
    if d == Left || d == Right then SentX(d, x, m.dx) else SentY(d, y, m.dy)
  }

  function SentX(d: Direction, x: int, dx: int): Option<int> {
    var nx := x + dx;
    if dx == 0 then None
    else if d == Left then
      if x < 0 && nx >= 0 then Some(AsInt16(x))
      else if x > 0 && nx < 0 then Some(AsInt16(-nx))
      else if x <= 0 && nx < 0 then Some(AsInt16(-dx))
      else None
    else if d == Right then
      if x < 0 && nx > 0 then Some(AsInt16(nx))
      else if x > 0 && nx <= 0 then Some(AsInt16(-x))
      else if x >= 0 && nx > 0 then Some(dx)
      else None
    else None
  }

  function SentY(d: Direction, y: int, dy: int): Option<int> {
    var ny := y + dy;
    if dy == 0 then None
    else if d == Up then
      if y > 0 && ny <= 0 then Some(AsInt16(y))
      else if y < 0 && ny > 0 then Some(AsInt16(-ny))
      else if y <= 0 && ny < 0 then Some(AsInt16(-dy))
      else None
    else if d == Down then
      if y > 0 && ny < 0 then Some(AsInt16(ny))
      else if y < 0 && ny >= 0 then Some(AsInt16(-y))
      else if y >= 0 && ny > 0 then Some(dy)
      else None
    else None
  }

  function Given(g: Gesture, a: Option<int>): Gesture {
    match a
    case Some(n) => Moved(g, n)
    case None => g
  }

  function Stepped(gs: map<Direction, Gesture>, x: int, y: int, m: Delta): map<Direction, Gesture> {
    map k | k in gs :: Given(gs[k], Sent(k, x, y, m))
  }

  // ---- Releasing the button ----

  predicate HasMet(gs: map<Direction, Gesture>, d: Direction) {
    d in gs && Met(gs[d])
  }

  // The direction that takes the release.
  function Winner(gs: map<Direction, Gesture>, d: Direction): Option<Direction> {
    if HasMet(gs, d) then Some(d)
    else if HasMet(gs, Up) then Some(Up)
    else if HasMet(gs, Down) then Some(Down)
    else if HasMet(gs, Left) then Some(Left)
    else if HasMet(gs, Right) then Some(Right)
    else None
  }

  // The release call a gesture gets: none, as a secondary one, or as the primary one.
  function CallFor(gs: map<Direction, Gesture>, d: Direction, k: Direction): Option<bool> {
    var w := Winner(gs, d);
    if k == d then Some(true)
    else if k == NoDirection then Some(w == None)
    else if w == None then None
    else if w.value == k then Some(true)
    else if w.value == d || Rank(w.value) < Rank(k) then Some(false)
    else None
  }

  function ReleasedBy(gs: map<Direction, Gesture>, d: Direction, k: Direction): Gesture
    requires k in gs
  {
    match CallFor(gs, d, k)
    case Some(p) => Released(gs[k], p)
    case None => gs[k]
  }

  function ReleasedAll(gs: map<Direction, Gesture>, d: Direction): map<Direction, Gesture> {
    map k | k in gs :: ReleasedBy(gs, d, k)
  }

  datatype Call = Call(direction: Direction, primary: bool)

  // The directions dealt with when the walk has reached position i.
  predicate Done(d: Direction, k: Direction, i: nat) {
    k == d || (k != NoDirection && Rank(k) < i)
  }

  function CallIn(gs: map<Direction, Gesture>, d: Direction, k: Direction): seq<Call> {
    var call := CallFor(gs, d, k);
    if k in gs && call.Some? then [Call(k, call.value)] else []
  }

  function CallsUpTo(gs: map<Direction, Gesture>, d: Direction, i: nat): seq<Call>
    requires i <= DIRECTIONS
  {
    if i == 0 then CallIn(gs, d, d)
    else
      var k := InOrder(i - 1);
      CallsUpTo(gs, d, i - 1) + if k == d || k == NoDirection then [] else CallIn(gs, d, k)
  }

  // The direction the cursor went in comes first and NoDirection last.
  function AllCalls(gs: map<Direction, Gesture>, d: Direction): seq<Call> {
    CallsUpTo(gs, d, DIRECTIONS) + CallIn(gs, d, NoDirection)
  }

  function ReleasedUpTo(gs: map<Direction, Gesture>, d: Direction, i: nat): map<Direction, Gesture> {
    map k | k in gs :: if Done(d, k, i) then ReleasedBy(gs, d, k) else gs[k]
  }

  // The flag of the walk at position i.
  predicate MetBefore(gs: map<Direction, Gesture>, d: Direction, i: nat) {
    var w := Winner(gs, d);
    w.Some? && (w.value == d || Rank(w.value) < i)
  }

  class GestureAction {
    var pressed: bool
    var x: int
    var y: int
    var gestures: map<Direction, Gesture>

    constructor (gestures: map<Direction, Gesture>)
      ensures !pressed && x == 0 && y == 0 && this.gestures == gestures
    {
      pressed, x, y, this.gestures := false, 0, 0, gestures;
    }

    method Press()
      modifies this
      ensures pressed && x == 0 && y == 0
      ensures gestures == PressedAll(old(gestures))
    {
      pressed, x, y := true, 0, 0;
      var i := 0;
      while i < DIRECTIONS
        invariant 0 <= i <= DIRECTIONS
        invariant pressed && x == 0 && y == 0
        invariant gestures.Keys == old(gestures).Keys
        invariant forall k :: k in gestures ==>
          gestures[k] == if Rank(k) < i then Pressed(old(gestures)[k], false) else old(gestures)[k]
      {
        var k := InOrder(i);
        if k in gestures { gestures := gestures[k := Pressed(gestures[k], false)]; }
        i := i + 1;
      }
    }

    method Send(d: Direction, a: int)
      modifies this`gestures
      ensures gestures == if d in old(gestures) then old(gestures)[d := Moved(old(gestures)[d], a)] else old(gestures)
    {
      if d in gestures { gestures := gestures[d := Moved(gestures[d], a)]; }
    }

    method MoveX(dx: int)
      modifies this`gestures
      ensures gestures == map k | k in old(gestures) :: Given(old(gestures)[k], SentX(k, x, dx))
    {
      var newX := x + dx;
      if dx != 0 {
        if x < 0 && newX >= 0 {
          Send(Left, AsInt16(x));
          if newX != 0 { Send(Right, AsInt16(newX)); }
        } else if x > 0 && newX <= 0 {
          Send(Right, AsInt16(-x));
          if newX != 0 { Send(Left, AsInt16(-newX)); }
        } else if newX < 0 {
          Send(Left, AsInt16(-dx));
        } else if newX > 0 {
          Send(Right, dx);
        }
      }
    }

    method MoveY(dy: int)
      modifies this`gestures
      ensures gestures == map k | k in old(gestures) :: Given(old(gestures)[k], SentY(k, y, dy))
    {
      var newY := y + dy;
      if dy != 0 {
        if y > 0 && newY <= 0 {
          Send(Up, AsInt16(y));
          if newY != 0 { Send(Down, AsInt16(newY)); }
        } else if y < 0 && newY >= 0 {
          Send(Down, AsInt16(-y));
          if newY != 0 { Send(Up, AsInt16(-newY)); }
        } else if newY < 0 {
          Send(Up, AsInt16(-dy));
        } else if newY > 0 {
          Send(Down, dy);
        }
      }
    }

    method Move(dx: int, dy: int)
      modifies this
      ensures pressed == old(pressed) && x == old(x) + dx && y == old(y) + dy
      ensures gestures == Stepped(old(gestures), old(x), old(y), Delta(dx, dy))
    {
      MoveX(dx);
      MoveY(dy);
      x, y := x + dx, y + dy;
    }

    // The release call made while walking past k, where the flag says that a direction
    // has met its threshold already.
    method ReleaseInTurn(k: Direction, thresholdMet: bool) returns (met: bool, call: Option<bool>)
      requires k in gestures
      modifies this`gestures
      ensures met == (thresholdMet || Met(old(gestures)[k]))
      ensures call == CallInTurn(old(gestures)[k], thresholdMet)
      ensures var g := old(gestures)[k];
        gestures == old(gestures)[k := if call.Some? then Released(g, call.value) else g]
    {
      met, call := thresholdMet, None;
      if !thresholdMet {
        if Met(gestures[k]) {
          met, call := true, Some(true);
          gestures := gestures[k := Released(gestures[k], true)];
        }
      } else {
        call := Some(false);
        gestures := gestures[k := Released(gestures[k], false)];
      }
    }

    // calls lists the release calls in the order they are made.
    method Release() returns (calls: seq<Call>)
      modifies this
      ensures !pressed && x == old(x) && y == old(y)
      ensures gestures == ReleasedAll(old(gestures), ToDirection(x, y))
      ensures calls == AllCalls(old(gestures), ToDirection(x, y))
    {
      pressed := false;
      calls := [];
      var thresholdMet := false;
      var d := ToDirection(x, y);
      ghost var gs := gestures;
      StartOfWalk(gs, d);
      if d in gestures {
        thresholdMet := Met(gestures[d]);
        gestures := gestures[d := Released(gestures[d], true)];
        calls := [Call(d, true)];
      }
      thresholdMet, calls := ReleaseOthers(gs, d, thresholdMet, calls);
      EndOfWalk(gs, d);
      if NoDirection in gestures {
        gestures := gestures[NoDirection := Released(gestures[NoDirection], !thresholdMet)];
        calls := calls + [Call(NoDirection, !thresholdMet)];
      }
    }

    // The loop over the other directions; gs are the gestures before the release.
    method ReleaseOthers(ghost gs: map<Direction, Gesture>, d: Direction, direct: bool, first: seq<Call>)
      returns (thresholdMet: bool, calls: seq<Call>)
      requires d != NoDirection && direct == MetBefore(gs, d, 0)
      requires first == CallsUpTo(gs, d, 0) && gestures == ReleasedUpTo(gs, d, 0)
      modifies this`gestures
      ensures thresholdMet == MetBefore(gs, d, DIRECTIONS) && calls == CallsUpTo(gs, d, DIRECTIONS)
      ensures gestures == ReleasedUpTo(gs, d, DIRECTIONS)
    {
      hide MetBefore, ReleasedUpTo, CallsUpTo, ReleasedBy, Met;
      thresholdMet, calls := direct, first;
      var i := 0;
      while i < DIRECTIONS
        invariant 0 <= i <= DIRECTIONS
        invariant thresholdMet == MetBefore(gs, d, i)
        invariant calls == CallsUpTo(gs, d, i)
        invariant gestures == ReleasedUpTo(gs, d, i)
      {
        var k := InOrder(i);
        NextFlag(gs, d, i);
        NextReleased(gs, d, i);
        NextCalls(gs, d, i);
        if k in gestures && k != d && k != NoDirection {
          var call;
          thresholdMet, call := ReleaseInTurn(k, thresholdMet);
          calls := calls + if call.Some? then [Call(k, call.value)] else [];
        }
        i := i + 1;
      }
    }
  }

  lemma StartOfWalk(gs: map<Direction, Gesture>, d: Direction)
    requires d != NoDirection
    ensures MetBefore(gs, d, 0) == HasMet(gs, d)
    ensures ReleasedUpTo(gs, d, 0) == if d in gs then gs[d := Released(gs[d], true)] else gs
  {
  }

  // Whether the walk deals with the direction at position i, rather than before or after.
  predicate InWalk(gs: map<Direction, Gesture>, d: Direction, i: nat)
    requires i < DIRECTIONS
  {
    InOrder(i) in gs && InOrder(i) != d && InOrder(i) != NoDirection
  }

  lemma NextFlag(gs: map<Direction, Gesture>, d: Direction, i: nat)
    requires i < DIRECTIONS && d != NoDirection
    ensures MetBefore(gs, d, i + 1) == (MetBefore(gs, d, i) || (InWalk(gs, d, i) && Met(gs[InOrder(i)])))
  {
  }

  lemma NextReleased(gs: map<Direction, Gesture>, d: Direction, i: nat)
    requires i < DIRECTIONS && d != NoDirection
    ensures var now, next, k := ReleasedUpTo(gs, d, i), ReleasedUpTo(gs, d, i + 1), InOrder(i);
      if InWalk(gs, d, i) then now[k] == gs[k] && next == now[k := ReleasedBy(gs, d, k)] else next == now
    ensures ReleasedUpTo(gs, d, i).Keys == gs.Keys
  {
    hide ReleasedBy;
    OneMoreDone(d, i);
  }

  lemma OneMoreDone(d: Direction, i: nat)
    requires i < DIRECTIONS
    ensures forall k: Direction :: Done(d, k, i + 1) <==> Done(d, k, i) || (k == InOrder(i) && k != NoDirection)
    ensures InOrder(i) != d ==> !Done(d, InOrder(i), i)
  {
    forall k: Direction
      ensures Done(d, k, i + 1) <==> Done(d, k, i) || (k == InOrder(i) && k != NoDirection)
    {
      assert k.NoDirection? || k.Up? || k.Down? || k.Left? || k.Right?;
    }
  }

  lemma EndOfWalk(gs: map<Direction, Gesture>, d: Direction)
    requires d != NoDirection
    ensures MetBefore(gs, d, DIRECTIONS) == Winner(gs, d).Some?
    ensures ReleasedAll(gs, d) == if NoDirection in gs
      then ReleasedUpTo(gs, d, DIRECTIONS)[NoDirection := Released(gs[NoDirection], Winner(gs, d) == None)]
      else ReleasedUpTo(gs, d, DIRECTIONS)
    ensures NoDirection in gs ==> ReleasedUpTo(gs, d, DIRECTIONS)[NoDirection] == gs[NoDirection]
  {
  }

  // When the walk reaches k, the flag decides the call.
  // What the walk does at position i, given the flag.
  function CallInTurn(g: Gesture, thresholdMet: bool): Option<bool> {
    if thresholdMet then Some(false) else if Met(g) then Some(true) else None
  }

  lemma NextCalls(gs: map<Direction, Gesture>, d: Direction, i: nat)
    requires i < DIRECTIONS && d != NoDirection
    ensures var k, now := InOrder(i), CallsUpTo(gs, d, i);
      if InWalk(gs, d, i)
      then
        var call := CallInTurn(gs[k], MetBefore(gs, d, i));
        CallsUpTo(gs, d, i + 1) == now + (if call.Some? then [Call(k, call.value)] else []) &&
        ReleasedBy(gs, d, k) == if call.Some? then Released(gs[k], call.value) else gs[k]
      else CallsUpTo(gs, d, i + 1) == now
  {
    hide Met, Released;
    assert CallsUpTo(gs, d, i) + [] == CallsUpTo(gs, d, i);
  }

  function PressedAll(gs: map<Direction, Gesture>): map<Direction, Gesture> {
    map k | k in gs :: Pressed(gs[k], false)
  }
}

// Diverted buttons: the report that lists the controls held down, the presses and releases
// found by comparing it with the one before, and the raw movement passed to held buttons.
module Buttons {
  import opened BytePairs
  import opened Options
  import opened OrderedSets
  import opened Sequences

  // ---- The report ----

  function Collected(words: seq<Word>): seq<int> {
    if words == [] then [] else Inserted(Collected(words[..|words| - 1]), words[|words| - 1])
  }

  lemma {:induction false} CollectedIs(words: seq<Word>)
    ensures Ordered(Collected(words)) && forall m :: m in Collected(words) <==> m in words
  {
    if words != [] {
      var n := |words| - 1;
      CollectedIs(words[..n]);
      InsertedIs(Collected(words[..n]), words[n]);
      assert words == words[..n] + [words[n]];
    }
  }

  lemma CollectedAppend(words: seq<Word>, w: Word)
    ensures Collected(words + [w]) == Inserted(Collected(words), w)
  {
    assert (words + [w])[..|words|] == words;
  }

  method DivertedButtonEvent(params: seq<Byte>) returns (buttons: seq<int>)
    requires |params| / 2 < 0x100
    ensures buttons == Collected(WordsFrom(params, 0))
  {
    buttons := [];
    ghost var seen: seq<Word> := [];
    var cids := |params| / 2;
    var i := 0;
    while i < cids
      invariant 0 <= i <= cids
      invariant seen + WordsFrom(params, 2 * i) == WordsFrom(params, 0)
      invariant buttons == Collected(seen)
    {
      var cid: Word := params[2 * i + 1];
      cid := cid + params[2 * i] as int * 0x100;
      if cid == 0 { break; }
      CollectedAppend(seen, cid);
      Regroup(seen, cid, WordsFrom(params, 2 * i + 2));
      buttons := Inserted(buttons, cid);
      seen := seen + [cid];
      i := i + 1;
    }
    assert seen + [] == seen;
  }

  // Decoding inverts the encoding of any set of non-zero control IDs, in ascending order
  // or any other, closed by a zero or by the end of the report.
  lemma DecodeInvertsEncode(ids: seq<Word>, rest: seq<Byte>)
    requires NonZero(ids) && Closes(rest)
    ensures var decoded := Collected(WordsFrom(Encoded(ids) + rest, 0));
      Ordered(decoded) && (forall m :: m in decoded <==> m in ids) && (Ordered(ids) ==> decoded == ids)
  {
    ReadsBack([], ids, rest, 0);
    assert [] + Encoded(ids) + rest == Encoded(ids) + rest;
    CollectedIs(ids);
    if Ordered(ids) { SameElements(Collected(ids), ids); }
  }

  // ---- The buttons ----

  datatype Call = Press | Release | Move(x: int, y: int)

  datatype Action =
    | NoAction | Keypress | ToggleSmartShift | ToggleHiresScroll | CycleDpi | ChangeDpi
    | ChangeHost | ChangeProfile | Gestures

  // Whether an action's press and release set its flag: two kinds leave it as it is.
  predicate MarksPressed(action: Option<Action>) {
    action.Some? && action.value != ChangeHost && action.value != ChangeProfile
  }

  // A control with a button: its action and that action's pressed flag, whether the next
  // movement is its first since a press, and the calls made to it so far.
  datatype Button = Button(action: Option<Action>, pressed: bool, firstMove: bool, calls: seq<Call>)

  datatype Edge = Pressing(cid: int) | Releasing(cid: int)

  function AfterPress(b: Button): Button {
    Button(b.action, b.pressed || MarksPressed(b.action), true, b.calls + [Press])
  }

  function AfterRelease(b: Button): Button {
    Button(b.action, b.pressed && !MarksPressed(b.action), b.firstMove, b.calls + [Release])
  }

  // Movement is offered to a button only while its action says that it is pressed.
  function AfterMove(b: Button, x: int, y: int): Button {
    if !b.pressed then b
    else if b.firstMove then b.(firstMove := false)
    else b.(calls := b.calls + [Move(x, y)])
  }

  datatype State = State(held: seq<int>, buttons: map<int, Button>)

  datatype Input = Held(ids: seq<int>) | RawXY(x: int, y: int)

  // What a report does to one control.
  function ButtonAfter(b: Button, cid: int, held: seq<int>, i: Input): Button {
    match i
    case Held(ids) =>
      if cid in ids && cid !in held then AfterPress(b)
      else if cid !in ids && cid in held then AfterRelease(b)
      else b
    case RawXY(x, y) => AfterMove(b, x, y)
  }

  function Step(s: State, i: Input): State {
    State(if i.Held? then i.ids else s.held,
          map cid | cid in s.buttons :: ButtonAfter(s.buttons[cid], cid, s.held, i))
  }

  // The known controls of one listing that are not in another, in order.
  function Missing(ids: seq<int>, other: seq<int>, known: set<int>): seq<int> {
    if ids == [] then []
    else
      var cid := ids[|ids| - 1];
      Missing(ids[..|ids| - 1], other, known) + if cid !in other && cid in known then [cid] else []
  }

  // Once each and in ascending order.
  lemma {:induction false} MissingIs(ids: seq<int>, other: seq<int>, known: set<int>)
    requires Ordered(ids)
    ensures Ordered(Missing(ids, other, known))
    ensures forall m :: m in Missing(ids, other, known) <==> m in ids && m !in other && m in known
  {
    if ids != [] {
      var n := |ids| - 1;
      MissingIs(ids[..n], other, known);
      assert forall m :: m in ids <==> m in ids[..n] || m == ids[n];
      assert forall m :: m in ids[..n] ==> m < ids[n];
      assert forall i :: 0 <= i < |Missing(ids[..n], other, known)| ==> Missing(ids[..n], other, known)[i] in ids[..n];
    }
  }

  function Pressings(ids: seq<int>): seq<Edge> {
    seq(|ids|, i requires 0 <= i < |ids| => Pressing(ids[i]))
  }

  function Releasings(ids: seq<int>): seq<Edge> {
    seq(|ids|, i requires 0 <= i < |ids| => Releasing(ids[i]))
  }

  // What is left of the held controls once those in ids are taken out.
  ghost predicate IsLeft(left: seq<int>, was: seq<int>, ids: seq<int>) {
    Ordered(left) && forall m :: m in left <==> m in was && m !in ids
  }

  function AllPressed(buttons: map<int, Button>, ids: seq<int>, was: seq<int>): map<int, Button> {
    map cid | cid in buttons :: if cid in ids && cid !in was then AfterPress(buttons[cid]) else buttons[cid]
  }

  function AllReleased(buttons: map<int, Button>, ids: seq<int>): map<int, Button> {
    map cid | cid in buttons :: if cid in ids then AfterRelease(buttons[cid]) else buttons[cid]
  }

  class RemapButton {
    var pressedButtons: seq<int>
    var buttons: map<int, Button>

    ghost function View(): State
      reads this
    {
      State(pressedButtons, buttons)
    }

    constructor (buttons: map<int, Button>)
      ensures View() == State([], buttons)
    {
      pressedButtons, this.buttons := [], buttons;
    }

    // edges lists the calls in order: all presses, then all releases.
    method ButtonEvent(newState: seq<int>) returns (edges: seq<Edge>)
      requires Ordered(newState) && Ordered(pressedButtons)
      modifies this
      ensures View() == Step(old(View()), Held(newState))
      ensures edges == Pressings(Missing(newState, old(pressedButtons), buttons.Keys)) +
                       Releasings(Missing(old(pressedButtons), newState, buttons.Keys))
    {
      ghost var before, was := buttons, pressedButtons;
      hide AfterPress, AfterRelease, ButtonAfter, AllPressed, AllReleased, Step, Missing, Pressings, Releasings;
      var pressings := PressAdded(newState);
      assert buttons.Keys == before.Keys by { SameKeys(before, newState, was); }
      RemovedIs(was, newState, pressedButtons, buttons.Keys);
      PressThenRelease(before, was, newState, pressedButtons);
      SameKeys(buttons, pressedButtons, []);
      var releasings := ReleaseRemoved(newState);
      edges := pressings + releasings;
      pressedButtons := newState;
    }

    // Presses what is new and leaves in pressedButtons what is gone.
    method PressAdded(newState: seq<int>) returns (edges: seq<Edge>)
      requires Ordered(newState) && Ordered(pressedButtons)
      modifies this
      ensures IsLeft(pressedButtons, old(pressedButtons), newState)
      ensures buttons == AllPressed(old(buttons), newState, old(pressedButtons))
      ensures edges == Pressings(Missing(newState, old(pressedButtons), buttons.Keys))
    {
      edges := [];
      ghost var before, was := buttons, pressedButtons;
      var i := 0;
      while i < |newState|
        invariant 0 <= i <= |newState|
        invariant IsLeft(pressedButtons, was, newState[..i])
        invariant buttons == AllPressed(before, newState[..i], was)
        invariant edges == Pressings(Missing(newState[..i], was, buttons.Keys))
      {
        var cid := newState[i];
        NextMissing(newState, was, buttons.Keys, i);
        NextPressed(before, newState, was, i);
        NextLeft(pressedButtons, newState, was, i);
        var edge := PressOne(cid);
        PressingsAppend(Missing(newState[..i], was, buttons.Keys), cid);
        edges := edges + edge;
        i := i + 1;
      }
      assert newState[..i] == newState;
    }

    // A control listed now: taken off the old listing, or else pressed.
    method PressOne(cid: int) returns (edge: seq<Edge>)
      modifies this
      ensures var was := old(pressedButtons);
        pressedButtons == if cid in was then Erased(was, cid) else was
      ensures var pressed := cid !in old(pressedButtons) && cid in old(buttons);
        buttons == (if pressed then old(buttons)[cid := AfterPress(old(buttons)[cid])] else old(buttons)) &&
        edge == if pressed then [Pressing(cid)] else []
    {
      edge := [];
      if cid in pressedButtons {
        pressedButtons := Erased(pressedButtons, cid);
      } else if cid in buttons {
        buttons := buttons[cid := AfterPress(buttons[cid])];
        edge := [Pressing(cid)];
      }
    }

    // Releases what is gone.
    method ReleaseRemoved(ghost newState: seq<int>) returns (edges: seq<Edge>)
      requires Ordered(pressedButtons) && forall m :: m in pressedButtons ==> m !in newState
      modifies this`buttons
      ensures buttons == AllReleased(old(buttons), pressedButtons)
      ensures edges == Releasings(Missing(pressedButtons, newState, buttons.Keys))
    {
      edges := [];
      ghost var before := buttons;
      var i := 0;
      while i < |pressedButtons|
        invariant 0 <= i <= |pressedButtons|
        invariant buttons == AllReleased(before, pressedButtons[..i])
        invariant edges == Releasings(Missing(pressedButtons[..i], newState, buttons.Keys))
      {
        var cid := pressedButtons[i];
        NextMissing(pressedButtons, newState, buttons.Keys, i);
        NextReleased(before, pressedButtons, i);
        assert cid in pressedButtons;
        if cid in buttons {
          buttons := buttons[cid := AfterRelease(buttons[cid])];
          edges := edges + [Releasing(cid)];
        }
        i := i + 1;
      }
      assert pressedButtons[..i] == pressedButtons;
    }

    method RawXYEvent(x: int, y: int, order: seq<int>)
      requires Ordered(order) && forall m :: m in order <==> m in buttons
      modifies this`buttons
      ensures View() == Step(old(View()), RawXY(x, y))
    {
      hide AfterMove, Step, ButtonAfter;
      ghost var before := buttons;
      var i := 0;
      while i < |order|
        invariant 0 <= i <= |order|
        invariant buttons.Keys == before.Keys
        invariant forall cid :: cid in buttons ==>
          buttons[cid] == if cid in order[..i] then AfterMove(before[cid], x, y) else before[cid]
      {
        var cid := order[i];
        NextInOrder(order, i);
        NotPressedStays(buttons[cid], x, y);
        if buttons[cid].pressed { buttons := buttons[cid := AfterMove(buttons[cid], x, y)]; }
        i := i + 1;
      }
      assert order[..i] == order;
      AllMoved(pressedButtons, before, buttons, x, y);
    }
  }

  // Pressing what is new and then releasing what is left of the old listing is one step.
  lemma PressThenRelease(buttons: map<int, Button>, was: seq<int>, ids: seq<int>, left: seq<int>)
    requires IsLeft(left, was, ids)
    ensures State(ids, AllReleased(AllPressed(buttons, ids, was), left)) == Step(State(was, buttons), Held(ids))
  {
    hide AfterPress, AfterRelease;
  }

  lemma AllMoved(held: seq<int>, before: map<int, Button>, after: map<int, Button>, x: int, y: int)
    requires after.Keys == before.Keys
    requires forall cid :: cid in after ==> after[cid] == AfterMove(before[cid], x, y)
    ensures State(held, after) == Step(State(held, before), RawXY(x, y))
  {
    hide AfterMove;
  }

  lemma SameKeys(buttons: map<int, Button>, ids: seq<int>, was: seq<int>)
    ensures AllPressed(buttons, ids, was).Keys == AllReleased(buttons, ids).Keys == buttons.Keys
  {
    hide AfterPress, AfterRelease;
  }

  lemma NextInOrder(order: seq<int>, i: nat)
    requires Ordered(order) && i < |order|
    ensures order[i] !in order[..i] && forall m :: m in order[..i + 1] <==> m in order[..i] || m == order[i]
  {
  }

  lemma NotPressedStays(b: Button, x: int, y: int)
    ensures !b.pressed ==> AfterMove(b, x, y) == b
  {
  }

  lemma PressingsAppend(ids: seq<int>, cid: int)
    ensures Pressings(ids + [cid]) == Pressings(ids) + [Pressing(cid)]
    ensures Pressings(ids + []) == Pressings(ids) + []
  {
    assert ids + [] == ids;
  }

  lemma NextMissing(ids: seq<int>, other: seq<int>, known: set<int>, i: nat)
    requires Ordered(ids) && i < |ids|
    ensures ids[i] !in ids[..i] && (forall m :: m in ids[..i + 1] <==> m in ids[..i] || m == ids[i])
    ensures Missing(ids[..i + 1], other, known) ==
      Missing(ids[..i], other, known) + if ids[i] !in other && ids[i] in known then [ids[i]] else []
  {
    assert ids[..i + 1][..i] == ids[..i];
  }

  lemma NextPressed(buttons: map<int, Button>, ids: seq<int>, was: seq<int>, i: nat)
    requires Ordered(ids) && i < |ids|
    ensures var now, next := AllPressed(buttons, ids[..i], was), AllPressed(buttons, ids[..i + 1], was);
      if ids[i] in buttons && ids[i] !in was
      then now[ids[i]] == buttons[ids[i]] && next == now[ids[i] := AfterPress(buttons[ids[i]])]
      else next == now
  {
    NextMissing(ids, was, {}, i);
  }

  lemma NextReleased(buttons: map<int, Button>, ids: seq<int>, i: nat)
    requires Ordered(ids) && i < |ids|
    ensures var now, next := AllReleased(buttons, ids[..i]), AllReleased(buttons, ids[..i + 1]);
      if ids[i] in buttons
      then now[ids[i]] == buttons[ids[i]] && next == now[ids[i] := AfterRelease(buttons[ids[i]])]
      else next == now
  {
    NextMissing(ids, [], {}, i);
  }

  lemma NextLeft(left: seq<int>, ids: seq<int>, was: seq<int>, i: nat)
    requires Ordered(ids) && i < |ids| && IsLeft(left, was, ids[..i])
    ensures ids[i] in left <==> ids[i] in was
    ensures IsLeft(if ids[i] in left then Erased(left, ids[i]) else left, was, ids[..i + 1])
  {
    NextMissing(ids, was, {}, i);
    ErasedIs(left, ids[i]);
  }

  // What is left of the old listing is walked to the same effect as the old listing.
  lemma {:induction false} RemovedIs(was: seq<int>, newState: seq<int>, removed: seq<int>, known: set<int>)
    requires Ordered(was) && Ordered(removed)
    requires forall m :: m in removed <==> m in was && m !in newState
    ensures Missing(removed, newState, known) == Missing(was, newState, known)
    decreases |was|
  {
    if removed != [] { assert removed[0] in removed; }
    if was != [] {
      var n := |was| - 1;
      var rest := if was[n] in newState then removed else removed[..|removed| - 1];
      assert forall m :: m in was <==> m in was[..n] || m == was[n];
      if was[n] !in newState {
        LastIs(removed, was[n]);
      }
      RemovedIs(was[..n], newState, rest, known);
    }
  }

  lemma LastIs(s: seq<int>, n: int)
    requires Ordered(s) && n in s && forall m :: m in s ==> m <= n
    ensures s[|s| - 1] == n && forall m :: m in s[..|s| - 1] <==> m in s && m != n
  {
    assert s[|s| - 1] in s;
    assert s == s[..|s| - 1] + [s[|s| - 1]];
  }

  // ---- Any run of reports ----

  function Run(s: State, inputs: seq<Input>): State {
    if inputs == [] then s else Step(Run(s, inputs[..|inputs| - 1]), inputs[|inputs| - 1])
  }

  // The set listed last.
  function LastHeld(inputs: seq<Input>): seq<int> {
    if inputs == [] then []
    else if inputs[|inputs| - 1].Held? then inputs[|inputs| - 1].ids
    else LastHeld(inputs[..|inputs| - 1])
  }

  // Calls to one control that alternate from a press, with movement only while pressed;
  // down says whether the last edge was a press.
  predicate Alternates(calls: seq<Call>, down: bool) {
    if calls == [] then !down
    else
      var before := calls[..|calls| - 1];
      match calls[|calls| - 1]
      case Press => down && Alternates(before, false)
      case Release => !down && Alternates(before, true)
      case Move(_, _) => down && Alternates(before, true)
  }

  function Fresh(action: Option<Action>): Button {
    Button(action, false, false, [])
  }

  // The held set is the one listed last, every known control has seen presses and releases
  // strictly alternating from a press, and its action says that it is pressed exactly while
  // the control is held and the action marks itself.
  lemma {:induction false} EdgesAlternate(buttons: map<int, Button>, inputs: seq<Input>, cid: int)
    requires cid in buttons && buttons[cid] == Fresh(buttons[cid].action)
    ensures var s := Run(State([], buttons), inputs);
      s.held == LastHeld(inputs) && cid in s.buttons && s.buttons[cid].action == buttons[cid].action &&
      (s.buttons[cid].pressed <==>
        cid in s.held && buttons[cid].action !in {None, Some(ChangeHost), Some(ChangeProfile)}) &&
      Alternates(s.buttons[cid].calls, cid in s.held)
  {
    NothingAlternates();
    MarksAre(buttons[cid].action);
    hide Alternates, ButtonAfter, MarksPressed;
    if inputs != [] {
      var n := |inputs| - 1;
      EdgesAlternate(buttons, inputs[..n], cid);
      var before := Run(State([], buttons), inputs[..n]);
      EdgeAlternates(before.buttons[cid], cid, before.held, inputs[n]);
    }
  }

  lemma MarksAre(action: Option<Action>)
    ensures MarksPressed(action) <==> action !in {None, Some(ChangeHost), Some(ChangeProfile)}
  {
  }

  lemma NothingAlternates()
    ensures Alternates([], false)
  {
  }

  lemma EdgeAlternates(b: Button, cid: int, held: seq<int>, i: Input)
    requires b.pressed == (cid in held && MarksPressed(b.action)) && Alternates(b.calls, cid in held)
    ensures var after, down := ButtonAfter(b, cid, held, i), cid in if i.Held? then i.ids else held;
      after.action == b.action && after.pressed == (down && MarksPressed(b.action)) && Alternates(after.calls, down)
  {
    assert forall c: Call :: (b.calls + [c])[..|b.calls|] == b.calls;
  }

  // ---- One press ----

  function Moves(inputs: seq<Input>): seq<Call> {
    if inputs == [] then []
    else
      var i := inputs[|inputs| - 1];
      Moves(inputs[..|inputs| - 1]) + if i.RawXY? then [Move(i.x, i.y)] else []
  }

  // The control stays in every listing.
  predicate StaysHeld(inputs: seq<Input>, cid: int) {
    forall i :: 0 <= i < |inputs| && inputs[i].Held? ==> cid in inputs[i].ids
  }

  function AllButFirst(calls: seq<Call>): seq<Call> {
    if calls == [] then [] else calls[1..]
  }

  // From a press on, while the control stays held, an action that marks itself pressed is
  // given every movement reported but the first, and any other action none.
  lemma {:induction false} FirstMoveDropped(s: State, ids: seq<int>, inputs: seq<Input>, cid: int)
    requires cid in s.buttons && !s.buttons[cid].pressed && cid in ids && cid !in s.held && StaysHeld(inputs, cid)
    ensures var r := Run(Step(s, Held(ids)), inputs);
      var marks := s.buttons[cid].action !in {None, Some(ChangeHost), Some(ChangeProfile)};
      cid in r.held && cid in r.buttons && r.buttons[cid].action == s.buttons[cid].action &&
      r.buttons[cid].pressed == marks && r.buttons[cid].firstMove == (!marks || Moves(inputs) == []) &&
      r.buttons[cid].calls == s.buttons[cid].calls + [Press] + if marks then AllButFirst(Moves(inputs)) else []
  {
    MarksAre(s.buttons[cid].action);
    if inputs != [] {
      var n := |inputs| - 1;
      assert StaysHeld(inputs[..n], cid);
      FirstMoveDropped(s, ids, inputs[..n], cid);
    }
  }

  ghost predicate IsGivenMoves(s: State, ids: seq<int>, inputs: seq<Input>, cid: int)
    requires cid in s.buttons
  {
    var r := Run(Step(s, Held(ids)), inputs);
    cid in r.buttons && r.buttons[cid].calls == s.buttons[cid].calls + [Press] + AllButFirst(Moves(inputs))
  }

  // So every run of movement reaches a held action, but for its first report, exactly when
  // there is an action and it is neither ChangeHost nor ChangeProfile.
  lemma MovesReachActionIff(s: State, ids: seq<int>, cid: int)
    requires cid in s.buttons && !s.buttons[cid].pressed && cid in ids && cid !in s.held
    ensures var action := s.buttons[cid].action;
      (forall inputs :: StaysHeld(inputs, cid) ==> IsGivenMoves(s, ids, inputs, cid)) <==>
      action !in {None, Some(ChangeHost), Some(ChangeProfile)}
  {
    MarksAre(s.buttons[cid].action);
    if MarksPressed(s.buttons[cid].action) {
      forall inputs | StaysHeld(inputs, cid)
        ensures IsGivenMoves(s, ids, inputs, cid)
      {
        FirstMoveDropped(s, ids, inputs, cid);
      }
    } else {
      var inputs := [RawXY(1, 1), RawXY(2, 2)];
      FirstMoveDropped(s, ids, inputs, cid);
      assert inputs[..1] == [RawXY(1, 1)] && inputs[..1][..0] == [];
      assert Moves(inputs) == [Move(1, 1), Move(2, 2)];
      assert !IsGivenMoves(s, ids, inputs, cid);
    }
  }
}

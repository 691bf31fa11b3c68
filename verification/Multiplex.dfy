// Many callers share a few response slots under one mutex. HID++ 2.0 devices have 16 slots
// chosen by feature index, HID++ 1.0 devices have 4 chosen by sub ID.
module Multiplex {
  import opened BytePairs
  import opened Options
  import opened Reports

  datatype Version = Hidpp10 | Hidpp20

  datatype Response = Plain(report: Report) | Failed10(e10: Error10) | Failed20(e20: Error20)

  datatype Slot = Slot(key: Option<Byte>, response: Option<Response>)

  const FREE := Slot(None, None)

  function SlotCount(v: Version): nat {
    if v == Hidpp10 then 4 else 16
  }

  function SlotOf(v: Version, key: Byte): (i: nat)
    ensures i < SlotCount(v)
  {
    key % SlotCount(v)
  }

  // Where an incoming report would go, and what it would leave there.
  datatype Routed = Routed(slot: nat, key: Byte, ours: bool, response: Response)

  function Route(v: Version, r: Report): (to: Routed)
    ensures to.slot < SlotCount(v)
  {
    match v
    case Hidpp10 =>
      var error := IsError10(r);
      if error.Some? then Routed(SlotOf(v, error.value.subId), error.value.subId, true, Failed10(error.value))
      else Routed(SlotOf(v, Feature(r)), Feature(r), true, Plain(r))
    case Hidpp20 =>
      // The slot is picked from the raw feature byte, before an error is decoded.
      var slot := SlotOf(v, Feature(r));
      var error := IsError20(r);
      if error.Some? then
        Routed(slot, error.value.feature, error.value.swId == SOFTWARE_ID, Failed20(error.value))
      else Routed(slot, Feature(r), SwId(r) == SOFTWARE_ID, Plain(r))
  }

  predicate Accepts(v: Version, slots: seq<Slot>, r: Report)
    requires |slots| == SlotCount(v)
  {
    var to := Route(v, r);
    to.ours && slots[to.slot].key == Some(to.key)
  }

  function Stored(v: Version, slots: seq<Slot>, r: Report): seq<Slot>
    requires |slots| == SlotCount(v)
  {
    var to := Route(v, r);
    if Accepts(v, slots, r) then slots[to.slot := slots[to.slot].(response := Some(to.response))] else slots
  }

  datatype ClaimOutcome = SlotTaken | Sent | Threw

  // The critical sections of sendReport and responseReport.
  class ResponseTable {
    const version: Version
    const slots: array<Slot>

    ghost predicate Valid() {
      slots.Length == SlotCount(version)
    }

    constructor (version: Version)
      ensures Valid() && this.version == version && fresh(slots)
      ensures slots[..] == seq(SlotCount(version), _ => FREE)
    {
      this.version := version;
      slots := new Slot[SlotCount(version)](_ => FREE);
    }

    // The head of sendReport, when the predicate of its first wait is evaluated: the slot
    // is claimed and the request written in one critical section. A write that throws
    // leaves the slot claimed.
    method TryClaim(request: Report, writeFails: bool) returns (outcome: ClaimOutcome)
      requires Valid()
      modifies slots
      ensures var i := SlotOf(version, Feature(request));
        (outcome == SlotTaken <==> old(slots[i]).key.Some?) && (outcome == Threw ==> writeFails) &&
        (outcome == Sent ==> !writeFails) &&
        slots[..] == if outcome == SlotTaken then old(slots[..])
                     else old(slots[..])[i := old(slots[i]).(key := Some(Feature(request)))]
    {
      var i := SlotOf(version, Feature(request));
      if slots[i].key.Some? { return SlotTaken; }
      slots[i] := slots[i].(key := Some(Feature(request)));
      outcome := if writeFails then Threw else Sent;
    }

    // The end of sendReport: None when the wait timed out without a response.
    method Collect(request: Report) returns (response: Option<Response>)
      requires Valid()
      modifies slots
      ensures var i := SlotOf(version, Feature(request));
        response == old(slots[i]).response && slots[..] == old(slots[..])[i := FREE]
    {
      var i := SlotOf(version, Feature(request));
      response := slots[i].response;
      slots[i] := FREE;
    }

    // responseReport: whether the report was consumed.
    method Respond(r: Report) returns (consumed: bool)
      requires Valid()
      modifies slots
      ensures consumed == Accepts(version, old(slots[..]), r)
      ensures slots[..] == Stored(version, old(slots[..]), r)
    {
      var to := Route(version, r);
      if !to.ours { return false; }
      if slots[to.slot].key != Some(to.key) { return false; }
      slots[to.slot] := slots[to.slot].(response := Some(to.response));
      consumed := true;
    }
  }

  // ---- All interleavings ----

  datatype Outcome = Answered(response: Response) | TimedOut

  // One sendReport call. The times are indices into the run.
  datatype Caller =
    | Blocked(request: Report)
    | Waiting(request: Report, since: nat)
    | Done(request: Report, since: nat, outcome: Outcome, arrival: nat)
    | Failed(request: Report)

  // arrivals[i] is the time at which the response in slot i arrived.
  datatype State = State(slots: seq<Slot>, callers: map<nat, Caller>, arrivals: seq<nat>)

  datatype Event =
    | Call(id: nat, request: Report)
    | Claim(id: nat)
    | WriteFails(id: nat)
    | Deliver(report: Report)
    | Collect(id: nat)
    | Expire(id: nat)

  ghost function Start(v: Version): State {
    State(seq(SlotCount(v), _ => FREE), map[], seq(SlotCount(v), _ => 0))
  }

  ghost predicate Shaped(v: Version, st: State) {
    |st.slots| == |st.arrivals| == SlotCount(v)
  }

  ghost predicate CanClaim(v: Version, st: State, id: nat)
    requires Shaped(v, st)
  {
    id in st.callers && st.callers[id].Blocked? && st.slots[SlotOf(v, Feature(st.callers[id].request))].key.None?
  }

  function Claimed(v: Version, slots: seq<Slot>, request: Report): seq<Slot>
    requires |slots| == SlotCount(v)
  {
    var i := SlotOf(v, Feature(request));
    slots[i := slots[i].(key := Some(Feature(request)))]
  }

  // The state after one event at time now, or None when the event cannot happen.
  ghost function Next(v: Version, st: State, e: Event, now: nat): Option<State>
    requires Shaped(v, st)
  {
    match e
    case Call(id, request) =>
      if id in st.callers then None else Some(st.(callers := st.callers[id := Blocked(request)]))
    case Claim(id) =>
      if !CanClaim(v, st, id) then None
      else Some(st.(slots := Claimed(v, st.slots, st.callers[id].request),
                    callers := st.callers[id := Waiting(st.callers[id].request, now)]))
    case WriteFails(id) =>
      // The claim stands although nobody will wait.
      if !CanClaim(v, st, id) then None
      else Some(st.(slots := Claimed(v, st.slots, st.callers[id].request),
                    callers := st.callers[id := Failed(st.callers[id].request)]))
    case Deliver(r) =>
      Some(st.(slots := Stored(v, st.slots, r),
               arrivals := if Accepts(v, st.slots, r) then st.arrivals[Route(v, r).slot := now] else st.arrivals))
    case Collect(id) =>
      if id !in st.callers || !st.callers[id].Waiting? then None
      else
        var c := st.callers[id];
        var i := SlotOf(v, Feature(c.request));
        if st.slots[i].response.None? then None
        else Some(st.(slots := st.slots[i := FREE],
                      callers := st.callers[id :=
                        Done(c.request, c.since, Answered(st.slots[i].response.value), st.arrivals[i])]))
    case Expire(id) =>
      if id !in st.callers || !st.callers[id].Waiting? then None
      else
        var c := st.callers[id];
        var i := SlotOf(v, Feature(c.request));
        if st.slots[i].response.Some? then None
        else Some(st.(slots := st.slots[i := FREE],
                      callers := st.callers[id := Done(c.request, c.since, TimedOut, now)]))
  }

  ghost function After(v: Version, run: seq<Event>): (st: Option<State>)
    ensures st.Some? ==> Shaped(v, st.value)
  {
    if run == [] then Some(Start(v))
    else
      var n := |run| - 1;
      var before := After(v, run[..n]);
      if before.None? then None else Next(v, before.value, run[n], n)
  }

  // The response answers a request with this key.
  predicate Matches(v: Version, key: Byte, response: Response) {
    match response
    case Plain(r) =>
      Feature(r) == key &&
      if v == Hidpp10 then IsError10(r).None? else SwId(r) == SOFTWARE_ID && IsError20(r).None?
    case Failed10(e) => v == Hidpp10 && e.subId == key
    case Failed20(e) => v == Hidpp20 && e.feature == key && e.swId == SOFTWARE_ID
  }

  ghost predicate Owns(v: Version, st: State, id: nat, i: nat) {
    id in st.callers && st.callers[id].Waiting? && SlotOf(v, Feature(st.callers[id].request)) == i
  }

  // The call with this id failed to write and left slot i claimed.
  ghost predicate Left(v: Version, st: State, id: nat, i: nat) {
    id in st.callers && st.callers[id].Failed? && SlotOf(v, Feature(st.callers[id].request)) == i
  }

  ghost predicate ArrivedAt(v: Version, run: seq<Event>, time: nat, response: Response) {
    time < |run| && run[time].Deliver? && Route(v, run[time].report).response == response
  }

  ghost predicate SlotsAreOwned(v: Version, st: State)
    requires Shaped(v, st)
  {
    (forall id: nat, id2: nat, i: nat :: Owns(v, st, id, i) && Owns(v, st, id2, i) ==> id == id2) &&
    (forall id: nat, i: nat :: Owns(v, st, id, i) ==> st.slots[i].key == Some(Feature(st.callers[id].request))) &&
    (forall id: nat, i: nat :: Left(v, st, id, i) ==> st.slots[i].key == Some(Feature(st.callers[id].request))) &&
    (forall id: nat, id2: nat, i: nat :: Owns(v, st, id, i) ==> !Left(v, st, id2, i)) &&
    (forall i: nat :: i < |st.slots| && st.slots[i].key.Some? ==>
      SlotOf(v, st.slots[i].key.value) == i && exists id: nat :: Owns(v, st, id, i) || Left(v, st, id, i)) &&
    (forall i :: 0 <= i < |st.slots| && st.slots[i].key.None? ==> st.slots[i].response.None?)
  }

  ghost predicate ResponsesMatch(v: Version, run: seq<Event>, st: State)
    requires Shaped(v, st)
  {
    forall id: nat, i: nat :: Owns(v, st, id, i) ==>
      st.callers[id].since < |run| && run[st.callers[id].since] == Claim(id) &&
      (st.slots[i].response.Some? ==>
        Matches(v, Feature(st.callers[id].request), st.slots[i].response.value) &&
        st.callers[id].since < st.arrivals[i] &&
        ArrivedAt(v, run, st.arrivals[i], st.slots[i].response.value))
  }

  ghost predicate AnswersMatch(v: Version, run: seq<Event>, st: State) {
    forall id :: id in st.callers && st.callers[id].Done? && st.callers[id].outcome.Answered? ==>
      var c := st.callers[id];
      c.since < c.arrival && c.since < |run| && run[c.since] == Claim(id) &&
      Matches(v, Feature(c.request), c.outcome.response) && ArrivedAt(v, run, c.arrival, c.outcome.response)
  }

  ghost predicate Inv(v: Version, run: seq<Event>, st: State) {
    Shaped(v, st) && SlotsAreOwned(v, st) && ResponsesMatch(v, run, st) && AnswersMatch(v, run, st)
  }

  // ---- Every event keeps the invariant ----

  lemma RoutedMatches(v: Version, r: Report)
    requires Route(v, r).ours
    ensures Matches(v, Route(v, r).key, Route(v, r).response)
  {
  }

  lemma ClaimKeeps(v: Version, run: seq<Event>, st: State, id: nat)
    requires Inv(v, run, st) && Next(v, st, Claim(id), |run|).Some?
    ensures Inv(v, run + [Claim(id)], Next(v, st, Claim(id), |run|).value)
  {
    var run', st' := run + [Claim(id)], Next(v, st, Claim(id), |run|).value;
    var i := SlotOf(v, Feature(st.callers[id].request));
    assert Owns(v, st', id, i);
    forall k: nat, j: nat ensures Left(v, st', k, j) <==> Left(v, st, k, j) {
    }
    forall k: nat, j: nat | Owns(v, st', k, j) ensures Owns(v, st, k, j) || (k == id && j == i) {
    }
    forall k: nat, j: nat | Owns(v, st, k, j) ensures Owns(v, st', k, j) && j != i {
    }
  }

  lemma WriteFailsKeeps(v: Version, run: seq<Event>, st: State, id: nat)
    requires Inv(v, run, st) && Next(v, st, WriteFails(id), |run|).Some?
    ensures Inv(v, run + [WriteFails(id)], Next(v, st, WriteFails(id), |run|).value)
  {
    var run', st' := run + [WriteFails(id)], Next(v, st, WriteFails(id), |run|).value;
    var i := SlotOf(v, Feature(st.callers[id].request));
    assert Left(v, st', id, i);
    forall k: nat, j: nat ensures Owns(v, st', k, j) <==> Owns(v, st, k, j) {
    }
    forall k: nat, j: nat | Left(v, st', k, j) ensures Left(v, st, k, j) || (k == id && j == i) {
    }
    forall k: nat, j: nat | Left(v, st, k, j) ensures Left(v, st', k, j) && j != i {
    }
    forall k: nat, j: nat | Owns(v, st, k, j) ensures j != i {
    }
  }

  lemma DeliverKeeps(v: Version, run: seq<Event>, st: State, r: Report)
    requires Inv(v, run, st)
    ensures Inv(v, run + [Deliver(r)], Next(v, st, Deliver(r), |run|).value)
  {
    hide SlotsAreOwned, ResponsesMatch, AnswersMatch;
    DeliverKeepsOwners(v, st, r, |run|);
    DeliverKeepsResponses(v, run, st, r);
    AnswersStayMatched(v, run, st, Deliver(r));
  }

  lemma DeliverKeepsResponses(v: Version, run: seq<Event>, st: State, r: Report)
    requires Inv(v, run, st)
    ensures ResponsesMatch(v, run + [Deliver(r)], Next(v, st, Deliver(r), |run|).value)
  {
    hide AnswersMatch;
    var run', st' := run + [Deliver(r)], Next(v, st, Deliver(r), |run|).value;
    forall k: nat, j: nat ensures Owns(v, st', k, j) <==> Owns(v, st, k, j) {
    }
    if Accepts(v, st.slots, r) { RoutedMatches(v, r); }
    assert ArrivedAt(v, run', |run|, Route(v, r).response);
  }

  // An event that ends no call leaves the answers of the ended ones as they were.
  lemma AnswersStayMatched(v: Version, run: seq<Event>, st: State, e: Event)
    requires Inv(v, run, st) && Next(v, st, e, |run|).Some? && !e.Collect? && !e.Expire?
    ensures AnswersMatch(v, run + [e], Next(v, st, e, |run|).value)
  {
    hide SlotsAreOwned, ResponsesMatch, Matches, Stored, Claimed;
    var st' := Next(v, st, e, |run|).value;
    forall id | id in st'.callers && st'.callers[id].Done? && st'.callers[id].outcome.Answered?
      ensures id in st.callers && st.callers[id] == st'.callers[id]
    {
    }
  }

  lemma DeliverKeepsOwners(v: Version, st: State, r: Report, now: nat)
    requires Shaped(v, st) && SlotsAreOwned(v, st)
    ensures SlotsAreOwned(v, Next(v, st, Deliver(r), now).value)
  {
    var st' := Next(v, st, Deliver(r), now).value;
    forall k: nat, j: nat ensures Owns(v, st', k, j) <==> Owns(v, st, k, j) {
    }
    forall k: nat, j: nat ensures Left(v, st', k, j) <==> Left(v, st, k, j) {
    }
  }

  lemma FreedKeeps(v: Version, run: seq<Event>, st: State, id: nat, e: Event)
    requires Inv(v, run, st) && (e == Collect(id) || e == Expire(id)) && Next(v, st, e, |run|).Some?
    ensures Inv(v, run + [e], Next(v, st, e, |run|).value)
  {
    hide AnswersMatch, Matches;
    FreedKeepsAnswers(v, run, st, id, e);
    FreedKeepsOwners(v, st, id, e, |run|);
    var run', st' := run + [e], Next(v, st, e, |run|).value;
    var i := SlotOf(v, Feature(st.callers[id].request));
    assert Owns(v, st, id, i);
    forall k: nat, j: nat ensures Owns(v, st', k, j) <==> Owns(v, st, k, j) && k != id {
    }
    forall k: nat, j: nat | Owns(v, st', k, j) ensures j != i {
    }
  }

  lemma FreedKeepsAnswers(v: Version, run: seq<Event>, st: State, id: nat, e: Event)
    requires Inv(v, run, st) && (e == Collect(id) || e == Expire(id)) && Next(v, st, e, |run|).Some?
    ensures AnswersMatch(v, run + [e], Next(v, st, e, |run|).value)
  {
    hide SlotsAreOwned, Matches;
    assert Owns(v, st, id, SlotOf(v, Feature(st.callers[id].request)));
  }

  lemma FreedKeepsOwners(v: Version, st: State, id: nat, e: Event, now: nat)
    requires Shaped(v, st) && SlotsAreOwned(v, st)
    requires (e == Collect(id) || e == Expire(id)) && Next(v, st, e, now).Some?
    ensures SlotsAreOwned(v, Next(v, st, e, now).value)
  {
    var st' := Next(v, st, e, now).value;
    var i := SlotOf(v, Feature(st.callers[id].request));
    assert Owns(v, st, id, i);
    forall k: nat, j: nat ensures Left(v, st', k, j) <==> Left(v, st, k, j) {
    }
    forall k: nat, j: nat ensures Owns(v, st', k, j) <==> Owns(v, st, k, j) && k != id {
    }
    forall k: nat, j: nat | Owns(v, st', k, j) ensures j != i {
    }
  }

  lemma CallKeeps(v: Version, run: seq<Event>, st: State, id: nat, request: Report)
    requires Inv(v, run, st) && id !in st.callers
    ensures Inv(v, run + [Call(id, request)], Next(v, st, Call(id, request), |run|).value)
  {
    hide AnswersMatch;
    AnswersStayMatched(v, run, st, Call(id, request));
    var st' := Next(v, st, Call(id, request), |run|).value;
    forall k: nat, j: nat ensures Owns(v, st', k, j) <==> Owns(v, st, k, j) {
    }
    forall k: nat, j: nat ensures Left(v, st', k, j) <==> Left(v, st, k, j) {
    }
  }

  lemma StartKeeps(v: Version)
    ensures Inv(v, [], Start(v))
  {
  }

  lemma {:induction false} Safety(v: Version, run: seq<Event>)
    requires After(v, run).Some?
    ensures Inv(v, run, After(v, run).value)
  {
    hide SlotsAreOwned, ResponsesMatch, AnswersMatch;
    if run == [] {
      StartKeeps(v);
    } else {
      var n := |run| - 1;
      Safety(v, run[..n]);
      var st := After(v, run[..n]).value;
      assert run == run[..n] + [run[n]];
      match run[n] {
        case Call(id, request) => CallKeeps(v, run[..n], st, id, request);
        case Claim(id) => ClaimKeeps(v, run[..n], st, id);
        case WriteFails(id) => WriteFailsKeeps(v, run[..n], st, id);
        case Deliver(r) => DeliverKeeps(v, run[..n], st, r);
        case Collect(id) => FreedKeeps(v, run[..n], st, id, run[n]);
        case Expire(id) => FreedKeeps(v, run[..n], st, id, run[n]);
      }
    }
  }

  // ---- What callers see ----

  // In every interleaving, two callers that wait use different slots.
  lemma NoSharedSlot(v: Version, run: seq<Event>, id: nat, id2: nat)
    requires After(v, run).Some?
    requires var cs := After(v, run).value.callers;
      id in cs && id2 in cs && cs[id].Waiting? && cs[id2].Waiting? && id != id2
    ensures var cs := After(v, run).value.callers;
      SlotOf(v, Feature(cs[id].request)) != SlotOf(v, Feature(cs[id2].request))
  {
    Safety(v, run);
    var st := After(v, run).value;
    var i := SlotOf(v, Feature(st.callers[id].request));
    assert Owns(v, st, id, i);
    assert Owns(v, st, id2, SlotOf(v, Feature(st.callers[id2].request)));
  }

  // A slot is taken without anyone waiting for it exactly when a write has failed there.
  lemma TakenWithoutOwner(v: Version, run: seq<Event>, i: nat)
    requires After(v, run).Some? && i < SlotCount(v)
    ensures var st := After(v, run).value;
      (st.slots[i].key.Some? && !(exists id: nat :: Owns(v, st, id, i))) <==> exists id: nat :: Left(v, st, id, i)
    ensures forall id: nat :: Left(v, After(v, run).value, id, i) ==> WriteFails(id) in run
  {
    Safety(v, run);
    var st := After(v, run).value;
    forall id: nat | Left(v, st, id, i)
      ensures WriteFails(id) in run
    {
      FailedByWrite(v, run, id);
    }
  }

  lemma {:induction false} FailedByWrite(v: Version, run: seq<Event>, id: nat)
    requires After(v, run).Some? && id in After(v, run).value.callers && After(v, run).value.callers[id].Failed?
    ensures WriteFails(id) in run
  {
    var n := |run| - 1;
    var before := After(v, run[..n]).value;
    if id in before.callers && before.callers[id].Failed? {
      FailedByWrite(v, run[..n], id);
    } else {
      assert run[n] == WriteFails(id);
    }
  }

  lemma Continue(v: Version, run: seq<Event>, e: Event)
    requires After(v, run).Some?
    ensures After(v, run + [e]) == Next(v, After(v, run).value, e, |run|)
  {
    assert (run + [e])[..|run|] == run;
  }

  // Such a slot stays taken whatever happens next, and a caller blocked on it stays so.
  lemma {:induction false} LeakIsForEver(v: Version, run: seq<Event>, more: seq<Event>, id: nat, i: nat)
    requires After(v, run).Some? && Left(v, After(v, run).value, id, i) && After(v, run + more).Some?
    ensures var st, st' := After(v, run).value, After(v, run + more).value;
      Left(v, st', id, i) && st'.slots[i].key.Some? &&
      forall k: nat :: IsBlockedOn(v, st, k, i) ==> IsBlockedOn(v, st', k, i)
    decreases |more|
  {
    hide Next, IsBlockedOn, Left, ResponsesMatch, AnswersMatch;
    if more == [] {
      assert run + more == run;
      Safety(v, run);
    } else {
      var n := |more| - 1;
      assert (run + more)[..|run| + n] == run + more[..n];
      LeakIsForEver(v, run, more[..n], id, i);
      Safety(v, run + more[..n]);
      assert (run + more)[|run| + n] == more[n];
      LeakStays(v, After(v, run + more[..n]).value, more[n], |run| + n, id, i);
    }
  }

  ghost predicate IsBlockedOn(v: Version, st: State, id: nat, i: nat) {
    id in st.callers && st.callers[id].Blocked? && SlotOf(v, Feature(st.callers[id].request)) == i
  }

  lemma LeakStays(v: Version, st: State, e: Event, now: nat, id: nat, i: nat)
    requires Shaped(v, st) && SlotsAreOwned(v, st) && Left(v, st, id, i) && Next(v, st, e, now).Some?
    ensures var st' := Next(v, st, e, now).value;
      Left(v, st', id, i) && st'.slots[i].key.Some? &&
      forall k: nat :: IsBlockedOn(v, st, k, i) ==> IsBlockedOn(v, st', k, i)
  {
    if e.Collect? || e.Expire? {
      var j := SlotOf(v, Feature(st.callers[e.id].request));
      assert Owns(v, st, e.id, j);
    }
  }

  // So a blocked caller can get its turn exactly when no write has failed on its slot.
  lemma CanGetTurnIff(v: Version, run: seq<Event>, id: nat, i: nat)
    requires After(v, run).Some? && IsBlockedOn(v, After(v, run).value, id, i)
    ensures (exists more: seq<Event> :: GetsTurn(v, run, more, id)) <==>
            !(exists k: nat :: Left(v, After(v, run).value, k, i))
  {
    var st := After(v, run).value;
    if k: nat :| Left(v, st, k, i) {
      forall more: seq<Event> | GetsTurn(v, run, more, id)
        ensures false
      {
        LeakIsForEver(v, run, more, k, i);
      }
    } else {
      TurnIsPossible(v, run, id, i);
    }
  }

  ghost predicate GetsTurn(v: Version, run: seq<Event>, more: seq<Event>, id: nat) {
    var st := After(v, run + more);
    st.Some? && id in st.value.callers && st.value.callers[id].Waiting?
  }

  lemma TurnIsPossible(v: Version, run: seq<Event>, id: nat, i: nat)
    requires After(v, run).Some? && IsBlockedOn(v, After(v, run).value, id, i)
    requires !(exists k: nat :: Left(v, After(v, run).value, k, i))
    ensures exists more: seq<Event> :: GetsTurn(v, run, more, id)
  {
    hide ResponsesMatch, AnswersMatch;
    var st := After(v, run).value;
    if st.slots[i].key.None? {
      Continue(v, run, Claim(id));
      assert GetsTurn(v, run, [Claim(id)], id);
    } else {
      Safety(v, run);
      var owner: nat :| Owns(v, st, owner, i);
      var e := if st.slots[i].response.Some? then Collect(owner) else Expire(owner);
      Continue(v, run, e);
      Continue(v, run + [e], Claim(id));
      assert run + [e] + [Claim(id)] == run + [e, Claim(id)];
      assert GetsTurn(v, run, [e, Claim(id)], id);
    }
  }

  // A report that the version does not read as an error.
  predicate IsPlain(v: Version, r: Report) {
    if v == Hidpp10 then !(r.data[0] == 0x10 && r.data[2] == 0x8f) else !(r.data[0] == 0x11 && r.data[2] == 0xff)
  }

  // In every interleaving, a call that returns an answer returns one for the key it sent,
  // made from a report that arrived after the request went out.
  lemma AnswersAreForTheCaller(v: Version, run: seq<Event>, id: nat)
    requires After(v, run).Some?
    requires var cs := After(v, run).value.callers; id in cs && cs[id].Done? && cs[id].outcome.Answered?
    ensures var c := After(v, run).value.callers[id];
      var key := c.request.data[2];
      var got := c.outcome.response;
      (got.Plain? ==>
        got.report.data[2] == key && IsPlain(v, got.report) && (v == Hidpp20 ==> got.report.data[3] % 16 == 2)) &&
      (got.Failed10? ==> v == Hidpp10 && got.e10.subId == key) &&
      (got.Failed20? ==> v == Hidpp20 && got.e20.feature == key && got.e20.swId == 2) &&
      c.since < c.arrival < |run| && run[c.since] == Claim(id) &&
      run[c.arrival].Deliver? && Route(v, run[c.arrival].report).response == c.outcome.response
  {
    Safety(v, run);
  }

  // The call with this id has gone out for this feature.
  ghost predicate WentOut(st: State, id: nat, key: Byte) {
    && id in st.callers && (st.callers[id].Waiting? || st.callers[id].Done?)
    && Feature(st.callers[id].request) == key
  }

  // The reply or error of HID++ 2.0 names this function.
  predicate HasFunction(response: Response, fn: Byte) {
    (response.Plain? && Function(response.report) == fn) || (response.Failed20? && response.e20.fn == fn)
  }

  lemma FunctionNamed(r: Report, e: Error20, fn: Byte)
    ensures HasFunction(Plain(r), fn) <==> r.data[3] / 16 == fn
    ensures HasFunction(Failed20(e), fn) <==> e.fn == fn
  {
  }

  // A report with the driver's software ID replies to a request that has gone out, answered
  // by now or not.
  ghost predicate IsReply(st: State, r: Report) {
    var to := Route(Hidpp20, r);
    to.ours ==> exists k: nat :: IsReplyTo(st, k, to)
  }

  ghost predicate IsReplyTo(st: State, id: nat, to: Routed) {
    WentOut(st, id, to.key) && HasFunction(to.response, Function(st.callers[id].request))
  }

  // A continuation that can happen and in which the device only replies to what it was sent.
  ghost predicate Honest(run: seq<Event>, more: seq<Event>) {
    After(Hidpp20, run + more).Some? &&
    (more != [] ==>
      var before := more[..|more| - 1];
      Honest(run, before) &&
      (more[|more| - 1].Deliver? ==> IsReply(After(Hidpp20, run + before).value, more[|more| - 1].report)))
  }

  // If the call has returned an answer, the answer names this function.
  ghost predicate AnswerHas(st: State, id: nat, fn: Byte) {
    id in st.callers && st.callers[id].Done? && st.callers[id].outcome.Answered? ==>
      HasFunction(st.callers[id].outcome.response, fn)
  }

  ghost predicate AllCalled(st: State, key: Byte, fn: Byte) {
    forall k: nat :: WentOut(st, k, key) ==> Function(st.callers[k].request) == fn
  }

  ghost predicate StoredHas(st: State, key: Byte, fn: Byte)
    requires Shaped(Hidpp20, st)
  {
    var response := st.slots[SlotOf(Hidpp20, key)].response;
    response.Some? ==> HasFunction(response.value, fn)
  }

  // Whatever comes, a call that waits is only given an answer to the function it called, from
  // a device that only replies to what it was sent, exactly when every request gone out for
  // its feature called that function and no response with another one is stored.
  lemma AnswerFunctionIff(run: seq<Event>, id: nat)
    requires After(Hidpp20, run).Some?
    requires var cs := After(Hidpp20, run).value.callers; id in cs && cs[id].Waiting?
    ensures var st := After(Hidpp20, run).value;
      var key, fn := Feature(st.callers[id].request), Function(st.callers[id].request);
      (forall more :: Honest(run, more) ==> AnswerHas(After(Hidpp20, run + more).value, id, fn))
      <==> AllCalled(st, key, fn) && StoredHas(st, key, fn)
  {
    var st := After(Hidpp20, run).value;
    var request := st.callers[id].request;
    if !StoredHas(st, Feature(request), Function(request)) {
      var more := StoredIsReturned(run, id);
    } else if !AllCalled(st, Feature(request), Function(request)) {
      var more := OtherReplyIsReturned(run, id);
    } else {
      forall more | Honest(run, more)
        ensures AnswerHas(After(Hidpp20, run + more).value, id, Function(request))
      {
        AnswersStay(run, more, id, request);
      }
    }
  }

  // Until the call returns everything that could answer it names its function.
  ghost predicate Answering(st: State, id: nat, request: Report)
    requires Shaped(Hidpp20, st)
  {
    id in st.callers && st.callers[id].request == request && (st.callers[id].Waiting? || st.callers[id].Done?) &&
    AnswerHas(st, id, Function(request)) &&
    (st.callers[id].Waiting? ==>
      AllCalled(st, Feature(request), Function(request)) && StoredHas(st, Feature(request), Function(request)))
  }

  lemma {:induction false} AnswersStay(run: seq<Event>, more: seq<Event>, id: nat, request: Report)
    requires After(Hidpp20, run).Some? && Honest(run, more) && Answering(After(Hidpp20, run).value, id, request)
    ensures Answering(After(Hidpp20, run + more).value, id, request)
    decreases |more|
  {
    hide Next, Answering, IsReply, ResponsesMatch, AnswersMatch, SlotsAreOwned;
    if more == [] {
      assert run + more == run;
    } else {
      var n := |more| - 1;
      AnswersStay(run, more[..n], id, request);
      Safety(Hidpp20, run + more[..n]);
      assert run + more == (run + more[..n]) + [more[n]];
      Continue(Hidpp20, run + more[..n], more[n]);
      AnsweringKept(After(Hidpp20, run + more[..n]).value, more[n], |run| + n, id, request);
    }
  }

  lemma AnsweringKept(st: State, e: Event, now: nat, id: nat, request: Report)
    requires Shaped(Hidpp20, st) && SlotsAreOwned(Hidpp20, st) && Answering(st, id, request)
    requires Next(Hidpp20, st, e, now).Some? && (e.Deliver? ==> IsReply(st, e.report))
    ensures Answering(Next(Hidpp20, st, e, now).value, id, request)
  {
    var st' := Next(Hidpp20, st, e, now).value;
    var key := Feature(request);
    if st.callers[id].Waiting? {
      var i := SlotOf(Hidpp20, key);
      assert Owns(Hidpp20, st, id, i);
      forall k: nat | WentOut(st', k, key)
        ensures WentOut(st, k, key) && st'.callers[k].request == st.callers[k].request
      {
      }
      if e.Deliver? && Accepts(Hidpp20, st.slots, e.report) && Route(Hidpp20, e.report).slot == i {
        var k: nat :| IsReplyTo(st, k, Route(Hidpp20, e.report));
      }
      if e.Collect? || e.Expire? { assert Owns(Hidpp20, st, e.id, SlotOf(Hidpp20, Feature(st.callers[e.id].request))); }
    }
  }

  // A stored response is what the call returns.
  lemma StoredIsReturned(run: seq<Event>, id: nat) returns (more: seq<Event>)
    requires After(Hidpp20, run).Some?
    requires var st := After(Hidpp20, run).value;
      id in st.callers && st.callers[id].Waiting? &&
      !StoredHas(st, Feature(st.callers[id].request), Function(st.callers[id].request))
    ensures Honest(run, more)
    ensures !AnswerHas(After(Hidpp20, run + more).value, id,
                       Function(After(Hidpp20, run).value.callers[id].request))
  {
    more := [Collect(id)];
    Continue(Hidpp20, run, Collect(id));
    assert more[..0] == [] && run + [] == run;
  }

  // So is a late or repeated reply to another function.
  lemma OtherReplyIsReturned(run: seq<Event>, id: nat) returns (more: seq<Event>)
    requires After(Hidpp20, run).Some?
    requires var st := After(Hidpp20, run).value;
      id in st.callers && st.callers[id].Waiting? &&
      !AllCalled(st, Feature(st.callers[id].request), Function(st.callers[id].request))
    ensures Honest(run, more)
    ensures !AnswerHas(After(Hidpp20, run + more).value, id,
                       Function(After(Hidpp20, run).value.callers[id].request))
  {
    hide Inv, ResponsesMatch, AnswersMatch, SlotsAreOwned, IsReplyTo, Left;
    Safety(Hidpp20, run);
    var st := After(Hidpp20, run).value;
    var request := st.callers[id].request;
    var k: nat :| WentOut(st, k, Feature(request)) && Function(st.callers[k].request) != Function(request);
    var reply := ReplyTo(st, k, Feature(request));
    WaitsFor(Hidpp20, run, id);
    hide Accepts, IsReply, Route;
    var e := Deliver(reply);
    Continue(Hidpp20, run, e);
    Continue(Hidpp20, run + [e], Collect(id));
    more := [e, Collect(id)];
    assert run + more == run + [e] + [Collect(id)];
    assert more[..1] == [e] && [e][..0] == [] && run + [] == run;
    assert Honest(run, []);
    assert Honest(run, [e]);
  }

  lemma ReplyTo(st: State, k: nat, key: Byte) returns (r: Report)
    requires WentOut(st, k, key)
    ensures IsReply(st, r)
    ensures Route(Hidpp20, r) == Routed(SlotOf(Hidpp20, key), key, true, Plain(r))
    ensures Function(r) == Function(st.callers[k].request)
  {
    var fn := Function(st.callers[k].request);
    r := Make(SHORT, 0, key, fn, SOFTWARE_ID);
    HeaderFields(SHORT, 0, key, fn, SOFTWARE_ID, 0);
    assert IsReplyTo(st, k, Route(Hidpp20, r));
  }

  lemma WaitsFor(v: Version, run: seq<Event>, id: nat)
    requires After(v, run).Some?
    requires var cs := After(v, run).value.callers; id in cs && cs[id].Waiting?
    ensures var st := After(v, run).value;
      var key := Feature(st.callers[id].request);
      st.slots[SlotOf(v, key)].key == Some(key)
  {
    Safety(v, run);
    var st := After(v, run).value;
    assert Owns(v, st, id, SlotOf(v, Feature(st.callers[id].request)));
  }

  // ---- What can happen to a call ----

  // A slot of these low bits, and all others as they were.
  ghost predicate OnlySlot(v: Version, before: seq<Slot>, after: seq<Slot>, key: Byte, slot: Slot) {
    |before| == |after| == SlotCount(v) &&
    forall i :: 0 <= i < |after| ==> after[i] == if key % SlotCount(v) == i then slot else before[i]
  }

  // At first there is no call and all slots are free: four or sixteen.
  lemma StartsFree(v: Version)
    ensures var st := After(v, []);
      st.Some? && st.value.callers == map[] && |st.value.slots| == (if v == Hidpp10 then 4 else 16) &&
      forall slot :: slot in st.value.slots ==> slot == Slot(None, None)
  {
  }

  // A new call is blocked. When it can go out it either does, and waits, or its write fails;
  // both take its slot.
  lemma CallStarts(v: Version, run: seq<Event>, id: nat, request: Report)
    requires After(v, run).Some?
    ensures var st, called := After(v, run).value, After(v, run + [Call(id, request)]);
      if id in st.callers then called.None?
      else called == Some(st.(callers := st.callers[id := Blocked(request)]))
    ensures var st := After(v, run).value;
      var sent, failed := After(v, run + [Claim(id)]), After(v, run + [WriteFails(id)]);
      (sent.Some? <==> failed.Some?) &&
      (sent.Some? ==>
        id in st.callers && st.callers[id].Blocked? &&
        var c := st.callers[id].request;
        sent.value.callers == st.callers[id := Waiting(c, |run|)] &&
        failed.value.callers == st.callers[id := Failed(c)] &&
        OnlySlot(v, st.slots, sent.value.slots, c.data[2], Slot(Some(c.data[2]), None)) &&
        failed.value.slots == sent.value.slots)
  {
    hide ResponsesMatch, AnswersMatch;
    Continue(v, run, Call(id, request));
    Continue(v, run, Claim(id));
    Continue(v, run, WriteFails(id));
    Safety(v, run);
  }

  // A waiting call can either return the response in its slot or, while there is none, time
  // out; both free the slot.
  lemma CallEnds(v: Version, run: seq<Event>, id: nat)
    requires After(v, run).Some? && id in After(v, run).value.callers && After(v, run).value.callers[id].Waiting?
    ensures var st := After(v, run).value;
      var answered, expired := After(v, run + [Collect(id)]), After(v, run + [Expire(id)]);
      var c := st.callers[id];
      var key := c.request.data[2];
      var response := st.slots[key % SlotCount(v)].response;
      if response.Some?
      then
        answered.Some? && expired.None? && OnlySlot(v, st.slots, answered.value.slots, key, Slot(None, None)) &&
        exists arrival :: answered.value.callers ==
          st.callers[id := Done(c.request, c.since, Answered(response.value), arrival)]
      else
        answered.None? && expired.Some? && OnlySlot(v, st.slots, expired.value.slots, key, Slot(None, None)) &&
        expired.value.callers == st.callers[id := Done(c.request, c.since, TimedOut, |run|)]
  {
    Continue(v, run, Collect(id));
    Continue(v, run, Expire(id));
  }

  // ---- Replies and errors reach their callers ----

  // A plain report is stored in every slot that waits for its feature or sub ID, in HID++ 2.0
  // only with the driver's software ID, and changes nothing else.
  lemma PlainIsStoredWhere(v: Version, run: seq<Event>, r: Report)
    requires After(v, run).Some? && IsPlain(v, r)
    ensures var st, st' := After(v, run).value, After(v, run + [Deliver(r)]);
      st'.Some? && st'.value.callers == st.callers && |st'.value.slots| == |st.slots| &&
      forall i :: 0 <= i < |st.slots| ==>
        st'.value.slots[i] ==
        if st.slots[i].key == Some(r.data[2]) && (v == Hidpp10 || r.data[3] % 16 == 2)
        then Slot(Some(r.data[2]), Some(Plain(r))) else st.slots[i]
  {
    Continue(v, run, Deliver(r));
    Safety(v, run);
  }

  // In every run, a plain report with the feature or sub ID of a waiting call is what the
  // call then returns.
  lemma PlainIsAnswered(v: Version, run: seq<Event>, id: nat, r: Report)
    requires After(v, run).Some? && IsPlain(v, r) && (v == Hidpp20 ==> r.data[3] % 16 == 2)
    requires var cs := After(v, run).value.callers;
      id in cs && cs[id].Waiting? && cs[id].request.data[2] == r.data[2]
    ensures Returns(v, run, id, r, Plain(r))
  {
    WaitsFor(v, run, id);
    PlainIsStoredWhere(v, run, r);
    CollectReturns(v, run, id, r, Plain(r));
  }

  // Once r is delivered the call can return, and then returns the response.
  ghost predicate Returns(v: Version, run: seq<Event>, id: nat, r: Report, response: Response) {
    var st, st' := After(v, run), After(v, run + [Deliver(r), Collect(id)]);
    st.Some? && id in st.value.callers && st.value.callers[id].Waiting? && st'.Some? &&
    var c := st.value.callers[id];
    st'.value.callers == st.value.callers[id := Done(c.request, c.since, Answered(response), |run|)] &&
    After(v, run + [Deliver(r), Expire(id)]).None?
  }

  lemma CollectReturns(v: Version, run: seq<Event>, id: nat, r: Report, response: Response)
    requires After(v, run).Some?
    requires var cs := After(v, run).value.callers; id in cs && cs[id].Waiting?
    requires var st := After(v, run).value;
      var i := SlotOf(v, Feature(st.callers[id].request));
      Accepts(v, st.slots, r) && Route(v, r).slot == i && Route(v, r).response == response
    ensures Returns(v, run, id, r, response)
  {
    hide Route;
    Continue(v, run, Deliver(r));
    Continue(v, run + [Deliver(r)], Collect(id));
    Continue(v, run + [Deliver(r)], Expire(id));
    assert run + [Deliver(r)] + [Collect(id)] == run + [Deliver(r), Collect(id)];
    assert run + [Deliver(r)] + [Expire(id)] == run + [Deliver(r), Expire(id)];
  }

  // So is an error that names the call's sub ID on HID++ 1.0, decoded.
  lemma Error10IsAnswered(run: seq<Event>, id: nat, device: Byte, subId: Byte, address: Byte, code: Byte, last: Byte)
    requires After(Hidpp10, run).Some?
    requires var cs := After(Hidpp10, run).value.callers;
      id in cs && cs[id].Waiting? && cs[id].request.data[2] == subId
    ensures Returns(Hidpp10, run, id, RawReport([0x10, device, 0x8f, subId, address, code, last]),
                    Failed10(Error10(device, subId, address, code)))
  {
    hide After;
    WaitsFor(Hidpp10, run, id);
    CollectReturns(Hidpp10, run, id, RawReport([0x10, device, 0x8f, subId, address, code, last]),
                   Failed10(Error10(device, subId, address, code)));
  }

  // On HID++ 2.0 an error with the driver's software ID is, where the low nibble of the
  // feature index is 15.
  lemma Error20IsAnswered(run: seq<Event>, id: nat, device: Byte, feature: Byte, fn: Byte, code: Byte, rest: seq<Byte>)
    requires After(Hidpp20, run).Some? && feature % 16 == 15 && fn < 16 && |rest| == 14
    requires var cs := After(Hidpp20, run).value.callers;
      id in cs && cs[id].Waiting? && cs[id].request.data[2] == feature
    ensures Returns(Hidpp20, run, id, RawReport([0x11, device, 0xff, feature, fn * 16 + 2, code] + rest),
                    Failed20(Error20(device, feature, fn, 2, code)))
  {
    hide After;
    WaitsFor(Hidpp20, run, id);
    CollectReturns(Hidpp20, run, id, RawReport([0x11, device, 0xff, feature, fn * 16 + 2, code] + rest),
                   Failed20(Error20(device, feature, fn, 2, code)));
  }

  ghost predicate Occupies(st: State, id: nat, low: nat, n: nat)
    requires n > 0
  {
    id in st.callers && (st.callers[id].Waiting? || st.callers[id].Failed?) && st.callers[id].request.data[2] % n == low
  }

  // A blocked call can go out exactly when no call that waits or has failed to write shares
  // its low bits: two of the sub ID on HID++ 1.0, four of the feature index on HID++ 2.0.
  lemma CanClaimIff(v: Version, run: seq<Event>, id: nat)
    requires After(v, run).Some? && id in After(v, run).value.callers && After(v, run).value.callers[id].Blocked?
    ensures var st := After(v, run).value;
      var n := if v == Hidpp10 then 4 else 16;
      After(v, run + [Claim(id)]).Some? <==>
      !(exists k: nat :: Occupies(st, k, st.callers[id].request.data[2] % n, n))
  {
    hide ResponsesMatch, AnswersMatch;
    Continue(v, run, Claim(id));
    Safety(v, run);
    var st := After(v, run).value;
    var n, low := SlotCount(v), SlotOf(v, Feature(st.callers[id].request));
    if st.slots[low].key.Some? {
      var k: nat :| Owns(v, st, k, low) || Left(v, st, k, low);
      assert Occupies(st, k, low, n);
    }
    if k: nat :| Occupies(st, k, low, n) {
      assert Owns(v, st, k, low) || Left(v, st, k, low);
    }
  }

  // Reports with another software ID are left to the event handlers, whatever is waiting.
  lemma ForeignReportsPass(slots: seq<Slot>, r: Report)
    requires |slots| == 16
    requires if IsError20(r).Some? then IsError20(r).value.swId != SOFTWARE_ID else SwId(r) != SOFTWARE_ID
    ensures !Accepts(Hidpp20, slots, r) && Stored(Hidpp20, slots, r) == slots
  {
  }

  // Errors reach the caller they are for on every HID++ 1.0 device, and on HID++ 2.0
  // exactly when the low nibble of the feature index is 15, that of the error ID.
  lemma ErrorDelivery(v: Version, run: seq<Event>, id: nat, r: Report)
    requires After(v, run).Some?
    requires var cs := After(v, run).value.callers; id in cs && cs[id].Waiting?
    requires var key := Feature(After(v, run).value.callers[id].request);
      if v == Hidpp10 then IsError10(r).Some? && IsError10(r).value.subId == key
      else IsError20(r).Some? && IsError20(r).value.feature == key && IsError20(r).value.swId == SOFTWARE_ID
    ensures var st := After(v, run).value;
      Accepts(v, st.slots, r) <==> v == Hidpp10 || Feature(st.callers[id].request) % 16 == 15
  {
    Safety(v, run);
    var st := After(v, run).value;
    var key := Feature(st.callers[id].request);
    assert Owns(v, st, id, SlotOf(v, key));
    if v == Hidpp20 {
      var to := Route(v, r);
      assert to.slot == 15;
      if st.slots[15].key == Some(key) {
        var owner :| Owns(v, st, owner, 15);
        assert st.slots[15].key == Some(Feature(st.callers[owner].request));
      }
    }
  }
}

// The base HID++ device: one request in flight, matched by sub ID and address.
module Exchange {
  import opened BytePairs
  import opened Options
  import opened Reports

  // An HID++ 2.0 error is stored as the plain report it arrived in.
  datatype Response = Plain(report: Report) | Failed10(error: Error10)

  datatype Key = Key(subId: Byte, address: Byte)

  function RequestKey(request: Report): Key {
    Key(Feature(request), Address(request))
  }

  // The request that an incoming report claims to answer.
  function AnsweredKey(r: Report): Key {
    if IsError10(r).Some? then Key(IsError10(r).value.subId, IsError10(r).value.address)
    else if IsError20(r).Some? then
      Key(IsError20(r).value.feature, IsError20(r).value.fn * 16 + IsError20(r).value.swId)
    else Key(Feature(r), Address(r))
  }

  function AsResponse(r: Report): Response {
    if IsError10(r).Some? then Failed10(IsError10(r).value) else Plain(r)
  }

  function ResponseKey(response: Response): Key {
    match response
    case Plain(r) => AnsweredKey(r)
    case Failed10(e) => Key(e.subId, e.address)
  }

  lemma ResponseKeepsKey(r: Report)
    ensures ResponseKey(AsResponse(r)) == AnsweredKey(r)
  {
  }

  // ---- The shared fields and the pieces of code that run on them ----

  class Exchange {
    var sentSubId: Option<Byte>
    var sentAddress: Option<Byte>
    var response: Option<Response>
    var handled: seq<Report>        // what the event handlers were given

    ghost function View(): Fields
      reads this
    {
      Fields(sentSubId, sentAddress, response)
    }

    constructor ()
      ensures View() == Fields(None, None, None) && handled == []
    {
      sentSubId, sentAddress, response, handled := None, None, None, [];
    }

    // The two assignments at the head of sendReport; the response mutex is not held yet.
    method SetSubId(request: Report)
      modifies this`sentSubId
      ensures View() == WithSubId(old(View()), request)
    {
      sentSubId := Some(Feature(request));
    }

    method SetAddress(request: Report)
      modifies this`sentAddress
      ensures View() == WithAddress(old(View()), request)
    {
      sentAddress := Some(Address(request));
    }

    // The rest of sendReport once its wait is over; None is the timeout.
    method Finish() returns (r: Option<Response>)
      modifies this`sentSubId, this`sentAddress, this`response
      ensures r == old(response)
      ensures View() == Finished(old(View()))
    {
      r := response;
      if r.None? {
        sentSubId := None;
      } else {
        response := None;
        sentSubId := None;
        sentAddress := None;
      }
    }

    // handleEvent: a report is either kept as the response or passed to the handlers.
    method HandleEvent(r: Report)
      modifies this`response, this`handled
      ensures View() == Received(old(View()), r)
      ensures handled == if Wanted(old(View()), r) then old(handled) else old(handled) + [r]
    {
      var consumed := ResponseReport(r);
      if consumed { return; }
      handled := handled + [r];
    }

    method ResponseReport(r: Report) returns (consumed: bool)
      modifies this`response
      ensures consumed == Wanted(old(View()), r)
      ensures View() == Received(old(View()), r)
    {
      var key := AnsweredKey(r);
      consumed := Some(key.subId) == sentSubId && Some(key.address) == sentAddress;
      if consumed { response := Some(AsResponse(r)); }
    }
  }

  datatype Fields = Fields(sentSubId: Option<Byte>, sentAddress: Option<Byte>, response: Option<Response>)

  function WithSubId(f: Fields, request: Report): Fields { f.(sentSubId := Some(Feature(request))) }
  function WithAddress(f: Fields, request: Report): Fields { f.(sentAddress := Some(Address(request))) }

  predicate Wanted(f: Fields, r: Report) {
    Some(AnsweredKey(r).subId) == f.sentSubId && Some(AnsweredKey(r).address) == f.sentAddress
  }

  function Received(f: Fields, r: Report): Fields {
    if Wanted(f, r) then f.(response := Some(AsResponse(r))) else f
  }

  // A timeout leaves the address of the failed request behind.
  function Finished(f: Fields): Fields {
    if f.response.None? then f.(sentSubId := None) else Fields(None, None, None)
  }

  // ---- All interleavings with incoming reports ----

  datatype Outcome = Answered(response: Response) | TimedOut | Threw

  // The send mutex admits one sender, so one phase is enough. The two fields are set
  // before the response mutex is taken; the write and the start of the wait hold it.
  datatype Phase = Idle | HalfSet(request: Report) | BothSet(request: Report) | Waiting(request: Report)

  datatype State = State(fields: Fields, phase: Phase, result: Option<Outcome>)

  datatype Event = Send(request: Report) | SendOn | Write | WriteFails | Deliver(report: Report) | Return

  // A write that throws ends the call and resets nothing.
  function Next(st: State, e: Event): Option<State> {
    match e
    case Send(request) =>
      if st.phase != Idle then None
      else Some(State(WithSubId(st.fields, request), HalfSet(request), None))
    case SendOn =>
      if !st.phase.HalfSet? then None
      else Some(State(WithAddress(st.fields, st.phase.request), BothSet(st.phase.request), None))
    case Write => if !st.phase.BothSet? then None else Some(st.(phase := Waiting(st.phase.request)))
    case WriteFails => if !st.phase.BothSet? then None else Some(State(st.fields, Idle, Some(Threw)))
    case Deliver(r) => Some(st.(fields := Received(st.fields, r)))
    case Return =>
      if !st.phase.Waiting? then None
      else
        var response := st.fields.response;
        Some(State(Finished(st.fields), Idle, Some(if response.None? then TimedOut else Answered(response.value))))
  }

  function RunFrom(st: State, run: seq<Event>): Option<State> {
    if run == [] then Some(st)
    else
      var before := RunFrom(st, run[..|run| - 1]);
      if before.None? then None else Next(before.value, run[|run| - 1])
  }

  lemma Continue(st: State, run: seq<Event>, e: Event)
    requires RunFrom(st, run).Some?
    ensures RunFrom(st, run + [e]) == Next(RunFrom(st, run).value, e)
  {
    assert (run + [e])[..|run|] == run;
  }

  lemma NothingHappens(st: State)
    ensures RunFrom(st, []) == Some(st)
  {
  }

  const START := State(Fields(None, None, None), Idle, None)

  // A response is pending between requests only while the sub ID of a request is.
  ghost predicate Inv(st: State) {
    (st.phase.Idle? && st.fields.sentSubId.None? ==> st.fields.response.None?) &&
    (!st.phase.Idle? ==> st.fields.sentSubId == Some(Feature(st.phase.request))) &&
    (st.phase.BothSet? || st.phase.Waiting? ==> st.fields.sentAddress == Some(Address(st.phase.request)))
  }

  // No write has failed since the last request that was completed.
  ghost predicate Clean(st: State) {
    (st.phase.Idle? ==> st.fields.sentSubId.None? && st.fields.response.None?) &&
    (st.fields.response.Some? ==> Some(ResponseKey(st.fields.response.value).subId) == st.fields.sentSubId)
  }

  lemma {:induction false} ReachableInv(st: State, run: seq<Event>)
    requires Inv(st) && RunFrom(st, run).Some?
    ensures Inv(RunFrom(st, run).value)
  {
    if run != [] { ReachableInv(st, run[..|run| - 1]); }
  }

  // While writes succeed nothing is left over between requests, and a pending response
  // has the sub ID of the request in flight.
  lemma {:induction false} CleanWhileWritesSucceed(st: State, run: seq<Event>)
    requires Inv(st) && Clean(st) && RunFrom(st, run).Some? && WriteFails !in run
    ensures Clean(RunFrom(st, run).value)
  {
    if run != [] {
      var n := |run| - 1;
      CleanWhileWritesSucceed(st, run[..n]);
      ReachableInv(st, run[..n]);
      assert run[n] in run;
      if run[n].Deliver? { ResponseKeepsKey(run[n].report); }
    }
  }

  // A failed write leaves the sub ID behind, and completing any later request cleans up.
  lemma CleanAfterCompletion(st: State)
    requires Inv(st) && Next(st, Return).Some?
    ensures Clean(Next(st, Return).value)
  {
  }

  lemma DirtyAfterFailure(st: State)
    requires Inv(st) && Next(st, WriteFails).Some?
    ensures !Clean(Next(st, WriteFails).value)
  {
  }

  // The last call to end, if any, ended with a write that threw.
  predicate LastCallFailed(run: seq<Event>) {
    run != [] &&
    (run[|run| - 1].WriteFails? || (!run[|run| - 1].Return? && LastCallFailed(run[..|run| - 1])))
  }

  // Between requests something is left over exactly when the last call ended with a write
  // that threw, whatever reports came since.
  lemma {:induction false} CleanIff(run: seq<Event>)
    requires RunFrom(START, run).Some? && RunFrom(START, run).value.phase.Idle?
    ensures Clean(RunFrom(START, run).value) <==> !LastCallFailed(run)
  {
    if run != [] {
      var n := |run| - 1;
      var before := RunFrom(START, run[..n]).value;
      ReachableInv(START, run[..n]);
      match run[n] {
        case Deliver(r) =>
          CleanIff(run[..n]);
          StaysClean(before, r);
        case Return => CleanAfterCompletion(before);
        case WriteFails => DirtyAfterFailure(before);
        case _ =>
      }
    }
  }

  // A report that comes between requests cleans nothing up and leaves nothing over.
  lemma StaysClean(st: State, r: Report)
    requires st.phase.Idle? && Inv(st)
    ensures Clean(Next(st, Deliver(r)).value) <==> Clean(st)
  {
  }

  // What is kept of a report: one that answers the sub ID and address held, and then the
  // report itself, or the decoded error of HID++ 1.0. Any other report changes nothing.
  lemma KeptIff(f: Fields, r: Report)
    ensures var held := (subId: int, address: int) => f.sentSubId == Some(subId) && f.sentAddress == Some(address);
      var d := r.data;
      Received(f, r) ==
      if d[0] == 0x10 && d[2] == 0x8f
      then if held(d[3], d[4]) then f.(response := Some(Failed10(Error10(d[1], d[3], d[4], d[5])))) else f
      else if d[0] == 0x11 && d[2] == 0xff
      then if held(d[3], d[4]) then f.(response := Some(Plain(r))) else f
      else if held(d[2], d[3]) then f.(response := Some(Plain(r))) else f
  {
  }

  // A waiting request that hears such a report returns it and leaves nothing behind.
  lemma AnswerIsReturned(st: State, r: Report)
    requires Inv(st) && st.phase.Waiting?
    requires var key := st.phase.request.data;
      if (r.data[0] == 0x10 && r.data[2] == 0x8f) || (r.data[0] == 0x11 && r.data[2] == 0xff)
      then r.data[3..5] == key[2..4] else r.data[2..4] == key[2..4]
    ensures var response := if r.data[0] == 0x10 && r.data[2] == 0x8f
        then Failed10(Error10(r.data[1], r.data[3], r.data[4], r.data[5])) else Plain(r);
      RunFrom(st, [Deliver(r)] + [Return]) == Some(State(Fields(None, None, None), Idle, Some(Answered(response))))
  {
    KeptIff(st.fields, r);
    assert r.data[3..5] == [r.data[3], r.data[4]] && r.data[2..4] == [r.data[2], r.data[3]];
    assert st.phase.request.data[2..4] == [st.phase.request.data[2], st.phase.request.data[3]];
    hide RunFrom, Received;
    NothingHappens(st);
    Continue(st, [], Deliver(r));
    assert [] + [Deliver(r)] == [Deliver(r)];
    Continue(st, [Deliver(r)], Return);
  }

  // run carries the one request out from the idle state st and returns a response.
  predicate Exchanges(st: State, request: Report, run: seq<Event>) {
    |run| > 0 && run[0] == Send(request) &&
    (forall k :: 0 < k < |run| ==> !run[k].Send?) &&
    RunFrom(st, run).Some? && RunFrom(st, run).value.result.Some? &&
    RunFrom(st, run).value.result.value.Answered?
  }

  function Answer(st: State, request: Report, run: seq<Event>): Response
    requires Exchanges(st, request, run)
  {
    RunFrom(st, run).value.result.value.response
  }

  // What a caller could look at before the call: a pending response has the request's
  // key, and no other address is left behind.
  predicate KeyIsSafe(f: Fields, request: Report) {
    && (f.response.Some? ==> ResponseKey(f.response.value) == RequestKey(request))
    && (f.sentAddress.None? || f.sentAddress == Some(Address(request)))
  }

  predicate SubIdIsSafe(f: Fields, request: Report) {
    f.response.Some? ==> ResponseKey(f.response.value).subId == Feature(request)
  }

  // The call is under way or over, and whatever response there is satisfies the predicate.
  ghost predicate OnTheWay(st0: State, request: Report, st: State, fits: Response -> bool) {
    && Inv(st)
    && (!st.phase.Idle? ==> st.phase.request == request && st.result.None?)
    && (st.phase.HalfSet? ==> st.fields.sentAddress == st0.fields.sentAddress)
    && (st.phase.Idle? ==> st.result.Some? && (st.result.value.Answered? ==> fits(st.result.value.response)))
    && (!st.phase.Idle? && st.fields.response.Some? ==> fits(st.fields.response.value))
  }

  lemma {:induction false} OnTheWayAlong(st0: State, request: Report, run: seq<Event>, fits: Response -> bool)
    requires Inv(st0) && st0.phase.Idle?
    requires st0.fields.response.Some? ==> fits(st0.fields.response.value)
    requires forall r: Response :: ResponseKey(r) == RequestKey(request) ==> fits(r)
    requires forall r: Response ::
      ResponseKey(r).subId == Feature(request) && Some(ResponseKey(r).address) == st0.fields.sentAddress ==> fits(r)
    requires |run| > 0 && run[0] == Send(request) && RunFrom(st0, run).Some?
    requires forall k :: 0 < k < |run| ==> !run[k].Send?
    ensures OnTheWay(st0, request, RunFrom(st0, run).value, fits)
  {
    var n := |run| - 1;
    if n == 0 {
      assert run[..0] == [];
      assert RunFrom(st0, run[..0]) == Some(st0);
    } else {
      OnTheWayAlong(st0, request, run[..n], fits);
      if run[n].Deliver? { ResponseKeepsKey(run[n].report); }
    }
  }

  // A report with this sub ID and address that is no error.
  function PlainReport(subId: Byte, address: Byte): Report {
    RawReport([if subId == ERROR_ID_20 then SHORT else LONG, 0, subId, address] +
              Zeros(if subId == ERROR_ID_20 then 3 else 16))
  }

  lemma PlainReportIs(subId: Byte, address: Byte)
    ensures AnsweredKey(PlainReport(subId, address)) == Key(subId, address)
    ensures AsResponse(PlainReport(subId, address)) == Plain(PlainReport(subId, address))
  {
  }

  function LateReplyRun(request: Report, address: Byte): seq<Event> {
    [Send(request)] + [Deliver(PlainReport(Feature(request), address))] + [SendOn] + [Write] + [Return]
  }

  lemma LateReplyState(st: State, request: Report, address: Byte)
    requires st.phase.Idle? && st.fields.sentAddress == Some(address)
    ensures RunFrom(st, LateReplyRun(request, address)) ==
      Some(State(Fields(None, None, None), Idle, Some(Answered(Plain(PlainReport(Feature(request), address))))))
  {
    var late := PlainReport(Feature(request), address);
    PlainReportIs(Feature(request), address);
    hide PlainReport, AnsweredKey, AsResponse;
    hide RunFrom;
    NothingHappens(st);
    Continue(st, [], Send(request));
    assert [] + [Send(request)] == [Send(request)];
    Continue(st, [Send(request)], Deliver(late));
    Continue(st, [Send(request)] + [Deliver(late)], SendOn);
    Continue(st, [Send(request)] + [Deliver(late)] + [SendOn], Write);
    Continue(st, [Send(request)] + [Deliver(late)] + [SendOn] + [Write], Return);
  }

  // A late reply to an earlier request of the same sub ID, between the two assignments,
  // is taken for the answer when that request's address is left behind.
  lemma LateReplyIsTaken(st: State, request: Report, address: Byte)
    requires Inv(st) && st.phase.Idle? && st.fields.sentAddress == Some(address)
    ensures Exchanges(st, request, LateReplyRun(request, address))
    ensures Answer(st, request, LateReplyRun(request, address)) == Plain(PlainReport(Feature(request), address))
    ensures ResponseKey(Plain(PlainReport(Feature(request), address))) == Key(Feature(request), address)
  {
    hide RunFrom, PlainReport, Next;
    PlainReportIs(Feature(request), address);
    LateReplyState(st, request, address);
  }

  function PlainRun(request: Report): seq<Event> {
    [Send(request)] + [SendOn] + [Write] + [Return]
  }

  // A response that is pending before the call is the answer, whatever was asked.
  lemma PendingIsTaken(st: State, request: Report)
    requires st.phase.Idle? && st.fields.response.Some?
    ensures Exchanges(st, request, PlainRun(request))
    ensures Answer(st, request, PlainRun(request)) == st.fields.response.value
  {
    hide RunFrom;
    NothingHappens(st);
    Continue(st, [], Send(request));
    assert [] + [Send(request)] == [Send(request)];
    Continue(st, [Send(request)], SendOn);
    Continue(st, [Send(request)] + [SendOn], Write);
    Continue(st, [Send(request)] + [SendOn] + [Write], Return);
  }

  // In every interleaving the answer has the sub ID and address that were sent, exactly
  // when before the call no response with another key is pending and no other address is
  // left behind.
  lemma AnswersMatchIff(st: State, request: Report)
    requires Inv(st) && st.phase.Idle?
    ensures (forall run :: Exchanges(st, request, run) ==> ResponseKey(Answer(st, request, run)) == RequestKey(request))
            <==> KeyIsSafe(st.fields, request)
  {
    if KeyIsSafe(st.fields, request) {
      forall run | Exchanges(st, request, run)
        ensures ResponseKey(Answer(st, request, run)) == RequestKey(request)
      {
        OnTheWayAlong(st, request, run, r => ResponseKey(r) == RequestKey(request));
      }
    } else if st.fields.response.Some? && ResponseKey(st.fields.response.value) != RequestKey(request) {
      PendingIsTaken(st, request);
    } else {
      LateReplyIsTaken(st, request, st.fields.sentAddress.value);
    }
  }

  // And it has at least the sub ID sent exactly when no response with another is pending.
  lemma AnswerHasSubId(st: State, request: Report)
    requires Inv(st) && st.phase.Idle?
    ensures (forall run :: Exchanges(st, request, run) ==>
              ResponseKey(Answer(st, request, run)).subId == Feature(request))
            <==> SubIdIsSafe(st.fields, request)
  {
    if SubIdIsSafe(st.fields, request) {
      forall run | Exchanges(st, request, run)
        ensures ResponseKey(Answer(st, request, run)).subId == Feature(request)
      {
        OnTheWayAlong(st, request, run, r => ResponseKey(r).subId == Feature(request));
      }
    } else {
      PendingIsTaken(st, request);
    }
  }

  // Every timeout leaves an address behind.
  lemma TimeoutLeavesAddress(request: Report)
    ensures RunFrom(START, PlainRun(request)) ==
            Some(State(Fields(None, Some(Address(request)), None), Idle, Some(TimedOut)))
  {
    hide RunFrom;
    NothingHappens(START);
    Continue(START, [], Send(request));
    assert [] + [Send(request)] == [Send(request)];
    Continue(START, [Send(request)], SendOn);
    Continue(START, [Send(request)] + [SendOn], Write);
    Continue(START, [Send(request)] + [SendOn] + [Write], Return);
  }

  function FailedWriteRun(request: Report): seq<Event> {
    [Send(request)] + [SendOn] + [WriteFails] + [Deliver(PlainReport(Feature(request), Address(request)))]
  }

  // After a failed write a report with its key is stored though nobody waits, and the
  // next request, whatever it is, can return it.
  lemma FailedWriteMisleads(request: Report, next: Report)
    ensures var stale := Plain(PlainReport(Feature(request), Address(request)));
      RunFrom(START, FailedWriteRun(request)).Some? &&
      var st := RunFrom(START, FailedWriteRun(request)).value;
      Inv(st) && st == State(Fields(Some(Feature(request)), Some(Address(request)), Some(stale)), Idle, Some(Threw)) &&
      Exchanges(st, next, PlainRun(next)) && Answer(st, next, PlainRun(next)) == stale &&
      ResponseKey(stale) == RequestKey(request)
  {
    PlainReportIs(Feature(request), Address(request));
    hide PlainReport, AnsweredKey, AsResponse;
    hide RunFrom;
    NothingHappens(START);
    Continue(START, [], Send(request));
    assert [] + [Send(request)] == [Send(request)];
    Continue(START, [Send(request)], SendOn);
    Continue(START, [Send(request)] + [SendOn], WriteFails);
    Continue(START, [Send(request)] + [SendOn] + [WriteFails],
             Deliver(PlainReport(Feature(request), Address(request))));
    PendingIsTaken(RunFrom(START, FailedWriteRun(request)).value, next);
  }
}

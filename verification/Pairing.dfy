// The pairing session of a receiver: discovery, the queued pairing request, the passkey,
// and the reports that end it.
module Pairing {
  import opened BytePairs
  import opened Discovery

  datatype PairState = NotPairing | Discovering | FindingPasskey | Pairing

  datatype Ready = Ready(event: Event, passkey: seq<Byte>)

  // queued and ready list the bolt pairings queued and the pairReady signals emitted since
  // the session was started.
  datatype Session = Session(state: PairState, event: Event, queued: seq<Event>, ready: seq<Ready>)

  datatype Input =
    | Start
    | Stop
    | Discovered(report: Report)
    | PasskeyRequest(passkey: seq<Byte>)
    | DiscoveryStatus(discovering: bool)
    | PairStatus(pairing: bool)
    | BoltPairStatus(pairing: bool)

  predicate IsInput(i: Input) {
    i.Discovered? ==> IsReport(i.report)
  }

  // What is asked of the receiver when a session is started or stopped.
  datatype Command = NoCommand | StartDiscover | StopDiscover | StartPairing | StopPairing

  function Ended(s: Session): Session {
    if s.state == FindingPasskey || s.state == Pairing then s.(state := NotPairing) else s
  }

  function Step(bolt: bool, s: Session, i: Input): Session
    requires IsInput(i)
  {
    match i
    case Start => Session(if bolt then Discovering else Pairing, NO_EVENT, [], [])
    case Stop => s.(state := NotPairing)
    case Discovered(r) =>
      if s.state != Discovering then s
      else if Completes(s.event, r) then
        Session(FindingPasskey, Filled(s.event, r), s.queued + [Filled(s.event, r)], s.ready)
      else s.(event := Filled(s.event, r))
    case PasskeyRequest(passkey) =>
      if s.state == FindingPasskey then s.(state := Pairing, ready := s.ready + [Ready(s.event, passkey)]) else s
    case DiscoveryStatus(discovering) =>
      if s.state == Discovering && !discovering then s.(state := NotPairing) else s
    case PairStatus(pairing) => if pairing then s else Ended(s)
    case BoltPairStatus(pairing) => if pairing then s else Ended(s)
  }

  class ReceiverMonitor {
    const bolt: bool
    var pairState: PairState
    const discoveryEvent: DiscoveryEvent
    var queued: seq<Event>
    var ready: seq<Ready>

    ghost function View(): Session
      reads this, discoveryEvent
    {
      Session(pairState, discoveryEvent.View(), queued, ready)
    }

    constructor (bolt: bool)
      ensures this.bolt == bolt && fresh(discoveryEvent)
      ensures View() == Session(NotPairing, NO_EVENT, [], [])
    {
      this.bolt := bolt;
      pairState, queued, ready := NotPairing, [], [];
      discoveryEvent := new DiscoveryEvent();
    }

    method StartPair() returns (command: Command)
      modifies this, discoveryEvent
      ensures View() == Step(bolt, old(View()), Start)
      ensures command == if bolt then StartDiscover else StartPairing
    {
      pairState := if bolt then Discovering else Pairing;
      discoveryEvent.Clear();
      queued, ready := [], [];
      command := if bolt then StartDiscover else StartPairing;
    }

    method StopPair() returns (command: Command)
      modifies this
      ensures View() == Step(bolt, old(View()), Stop)
      ensures command == if old(pairState) == Discovering then StopDiscover
        else if old(pairState) == NotPairing then NoCommand else StopPairing
    {
      var lastState := pairState;
      pairState := NotPairing;
      if lastState == Discovering {
        command := StopDiscover;
      } else if lastState == Pairing || lastState == FindingPasskey {
        command := StopPairing;
      } else {
        command := NoCommand;
      }
    }

    method OnDiscovered(report: Report)
      requires IsReport(report)
      modifies this, discoveryEvent
      ensures View() == Step(bolt, old(View()), Discovered(report))
    {
      if pairState == Discovering {
        var filled := discoveryEvent.Fill(report);
        if filled {
          pairState := FindingPasskey;
          var event := discoveryEvent.Copy();
          queued := queued + [event];
        }
      }
    }

    method OnPasskey(passkey: seq<Byte>)
      modifies this
      ensures View() == Step(bolt, old(View()), PasskeyRequest(passkey))
    {
      if pairState == FindingPasskey {
        pairState := Pairing;
        var event := discoveryEvent.Copy();
        ready := ready + [Ready(event, passkey)];
      }
    }

    method OnStatus(i: Input)
      requires i.DiscoveryStatus? || i.PairStatus? || i.BoltPairStatus?
      modifies this
      ensures View() == Step(bolt, old(View()), i)
    {
      if i.DiscoveryStatus? {
        if pairState == Discovering && !i.discovering { pairState := NotPairing; }
      } else if i.PairStatus? {
        if (pairState == FindingPasskey || pairState == Pairing) && !i.pairing { pairState := NotPairing; }
      } else {
        if (pairState == FindingPasskey || pairState == Pairing) && !i.pairing { pairState := NotPairing; }
      }
    }
  }

  // ---- Any run of inputs ----

  function Run(bolt: bool, s: Session, inputs: seq<Input>): Session
    requires forall i :: 0 <= i < |inputs| ==> IsInput(inputs[i])
  {
    if inputs == [] then s
    else Step(bolt, Run(bolt, s, inputs[..|inputs| - 1]), inputs[|inputs| - 1])
  }

  const IDLE := Session(NotPairing, NO_EVENT, [], [])

  ghost predicate Inv(s: Session) {
    && |s.ready| <= |s.queued| <= 1
    && (s.state == Discovering ==> s.queued == [])
    && (s.state == FindingPasskey ==> s.queued == [s.event] && s.ready == [])
    && (s.ready != [] ==> s.ready[0].event == s.queued[0] == s.event)
  }

  // In one session a bolt pairing is queued at most once, and pairReady is emitted at most
  // once, after the queueing and with the event that was queued. Other receivers do neither.
  lemma {:induction false} OncePerSession(bolt: bool, inputs: seq<Input>)
    requires forall i :: 0 <= i < |inputs| ==> IsInput(inputs[i])
    ensures var s := Run(bolt, IDLE, inputs);
      Inv(s) && (!bolt ==> s.queued == [] && s.state != Discovering)
  {
    if inputs != [] { OncePerSession(bolt, inputs[..|inputs| - 1]); }
  }

  // Between two starts nothing that was queued or signalled is taken back or changed.
  lemma {:induction false} LogsOnlyGrow(bolt: bool, s: Session, inputs: seq<Input>)
    requires forall i :: 0 <= i < |inputs| ==> IsInput(inputs[i]) && inputs[i] != Start
    ensures var t := Run(bolt, s, inputs);
      s.queued <= t.queued && s.ready <= t.ready
  {
    if inputs != [] { LogsOnlyGrow(bolt, s, inputs[..|inputs| - 1]); }
  }

  // ---- Once a session has ended ----

  predicate NoStart(inputs: seq<Input>) {
    forall i :: 0 <= i < |inputs| ==> IsInput(inputs[i]) && inputs[i] != Start
  }

  // Neither queues a pairing nor signals one, whatever comes until the next start.
  ghost predicate IsOver(bolt: bool, s: Session) {
    forall inputs :: NoStart(inputs) ==>
      Run(bolt, s, inputs).queued == s.queued && Run(bolt, s, inputs).ready == s.ready
  }

  lemma {:induction false} NothingMore(bolt: bool, s: Session, inputs: seq<Input>)
    requires NoStart(inputs) && (s.state == NotPairing || s.state == Pairing)
    ensures var t := Run(bolt, s, inputs);
      t.queued == s.queued && t.ready == s.ready && (t.state == NotPairing || t.state == Pairing)
  {
    if inputs != [] { NothingMore(bolt, s, inputs[..|inputs| - 1]); }
  }

  // A report that completes any event: the first block of an empty name.
  function LastBlock(e: Event): Report {
    Report(e.seqNum, [0, 1, 0] + seq(PARAMS - 3, _ => 0))
  }

  lemma CompletingQueues(bolt: bool, s: Session)
    requires s.state == Discovering
    ensures NoStart([Discovered(LastBlock(s.event))])
    ensures |Run(bolt, s, [Discovered(LastBlock(s.event))]).queued| == |s.queued| + 1
  {
    var i := Discovered(LastBlock(s.event));
    RunAppend(bolt, s, [], i);
    assert [] + [i] == [i];
  }

  lemma PasskeyIsSignalled(bolt: bool, s: Session)
    requires s.state == FindingPasskey
    ensures |Run(bolt, s, [PasskeyRequest([])]).ready| == |s.ready| + 1
  {
    RunAppend(bolt, s, [], PasskeyRequest([]));
    assert [] + [PasskeyRequest([])] == [PasskeyRequest([])];
  }

  // A session is over exactly when it is in neither of its first two phases.
  lemma OverIff(bolt: bool, s: Session)
    ensures IsOver(bolt, s) <==> s.state == NotPairing || s.state == Pairing
  {
    if s.state == Discovering {
      CompletingQueues(bolt, s);
    } else if s.state == FindingPasskey {
      PasskeyIsSignalled(bolt, s);
    } else {
      forall inputs | NoStart(inputs)
        ensures Run(bolt, s, inputs).queued == s.queued && Run(bolt, s, inputs).ready == s.ready
      {
        NothingMore(bolt, s, inputs);
      }
    }
  }

  // Stopping ends every session. A status report ends the phase that it is about and only
  // when it says that the receiver has left it: then the session is over, and otherwise it
  // goes on as if the report had not come.
  lemma EndsIff(bolt: bool, s: Session, i: Input)
    requires i.Stop? || i.DiscoveryStatus? || i.PairStatus? || i.BoltPairStatus?
    ensures var t := Step(bolt, s, i);
      var left := (i == DiscoveryStatus(false) && s.state == Discovering) ||
        (i in {PairStatus(false), BoltPairStatus(false)} && s.state in {FindingPasskey, Pairing});
      t.queued == s.queued && t.ready == s.ready &&
      (i == Stop || left ==> t.state == NotPairing && IsOver(bolt, t)) && (i != Stop && !left ==> t == s)
  {
    OverIff(bolt, Step(bolt, s, i));
  }

  // A start forgets whatever session came before it.
  lemma StartsAfresh(bolt: bool, s: Session)
    ensures Step(bolt, s, Start) == Step(bolt, IDLE, Start)
    ensures IsOver(bolt, Step(bolt, s, Start)) <==> !bolt
  {
    OverIff(bolt, Step(bolt, s, Start));
  }

  function Announcements(reports: seq<Report>): seq<Input> {
    seq(|reports|, i requires 0 <= i < |reports| => Discovered(reports[i]))
  }

  // While no report completes it, the event of a session is the run of its reports.
  lemma {:induction false} StillDiscovering(reports: seq<Report>, name: seq<Byte>)
    requires Announces(reports, name) && |reports| - 1 <= |name| / BLOCK
    ensures Run(true, Step(true, IDLE, Start), Announcements(reports)) ==
      Session(Discovering, Discovery.Run(NO_EVENT, reports), [], [])
  {
    var n := |reports| - 1;
    assert Announcements(reports)[..n] == Announcements(reports[..n]);
    if n == 0 {
      assert reports[..0] == [] && Announcements(reports[..0]) == [];
    } else {
      assert Announces(reports[..n], name);
      StillDiscovering(reports[..n], name);
      NameIsRebuilt(NO_EVENT, reports, name);
    }
  }

  lemma AnnouncesFewer(reports: seq<Report>, name: seq<Byte>)
    requires Announces(reports, name) && |reports| > 1
    ensures Announces(reports[..|reports| - 1], name)
  {
  }

  lemma AnnouncedIsQueued(reports: seq<Report>, name: seq<Byte>)
    requires Announces(reports, name) && |reports| - 1 == |name| / BLOCK + 1
    ensures var device := Header(reports[0]).(name := name);
      Run(true, Step(true, IDLE, Start), Announcements(reports)) == Session(FindingPasskey, device, [device], [])
  {
    hide Completes, Filled, IsBlock;
    var n := |reports| - 1;
    AnnouncesFewer(reports, name);
    StillDiscovering(reports[..n], name);
    NameIsRebuilt(NO_EVENT, reports, name);
    assert Announcements(reports)[..n] == Announcements(reports[..n]);
  }

  // A session of a bolt receiver that hears a device announce its whole name queues one
  // pairing of exactly that device, and signals it when the passkey comes.
  lemma AnnouncedDeviceIsPaired(reports: seq<Report>, name: seq<Byte>, passkey: seq<Byte>)
    requires Announces(reports, name) && |reports| - 1 == |name| / BLOCK + 1
    ensures var device := Header(reports[0]).(name := name);
      Run(true, Step(true, IDLE, Start), Announcements(reports) + [PasskeyRequest(passkey)]) ==
      Session(Pairing, device, [device], [Ready(device, passkey)])
  {
    AnnouncedIsQueued(reports, name);
    assert (Announcements(reports) + [PasskeyRequest(passkey)])[..|reports|] == Announcements(reports);
  }

  // ---- Blocks lost or out of order ----

  // No report before the last completes the event that is being filled.
  ghost predicate FirstToComplete(reports: seq<Report>)
    requires forall i :: 0 <= i < |reports| ==> IsReport(reports[i])
  {
    && reports != [] && Completes(Discovery.Run(NO_EVENT, reports[..|reports| - 1]), reports[|reports| - 1])
    && NoneComplete(reports[..|reports| - 1])
  }

  ghost predicate NoneComplete(reports: seq<Report>)
    requires forall i :: 0 <= i < |reports| ==> IsReport(reports[i])
  {
    reports != [] ==>
      !Completes(Discovery.Run(NO_EVENT, reports[..|reports| - 1]), reports[|reports| - 1]) &&
      NoneComplete(reports[..|reports| - 1])
  }

  lemma {:induction false} DiscoveringUntilComplete(reports: seq<Report>)
    requires forall i :: 0 <= i < |reports| ==> IsReport(reports[i])
    requires NoneComplete(reports)
    ensures Run(true, Step(true, IDLE, Start), Announcements(reports)) ==
      Session(Discovering, Discovery.Run(NO_EVENT, reports), [], [])
  {
    if reports == [] {
      assert Announcements(reports) == [];
    } else {
      var n := |reports| - 1;
      assert Announcements(reports)[..n] == Announcements(reports[..n]);
      DiscoveringUntilComplete(reports[..n]);
    }
  }

  // The completing report queues the event as it is then, and the passkey signals it.
  lemma FirstCompleteIsQueued(reports: seq<Report>, passkey: seq<Byte>)
    requires forall i :: 0 <= i < |reports| ==> IsReport(reports[i])
    requires FirstToComplete(reports)
    ensures var queued := Discovery.Run(NO_EVENT, reports);
      Run(true, Step(true, IDLE, Start), Announcements(reports) + [PasskeyRequest(passkey)]) ==
      Session(Pairing, queued, [queued], [Ready(queued, passkey)])
  {
    hide Step, NoneComplete, Completes, FirstToComplete, Discovery.Run;
    FirstCompleteQueues(reports);
    RunAppend(true, Step(true, IDLE, Start), Announcements(reports), PasskeyRequest(passkey));
    PasskeySignals(Discovery.Run(NO_EVENT, reports), passkey);
  }

  lemma PasskeySignals(e: Event, passkey: seq<Byte>)
    ensures Step(true, Session(FindingPasskey, e, [e], []), PasskeyRequest(passkey)) ==
      Session(Pairing, e, [e], [Ready(e, passkey)])
  {
  }

  lemma FirstCompleteQueues(reports: seq<Report>)
    requires forall i :: 0 <= i < |reports| ==> IsReport(reports[i])
    requires FirstToComplete(reports)
    ensures var queued := Discovery.Run(NO_EVENT, reports);
      Run(true, Step(true, IDLE, Start), Announcements(reports)) == Session(FindingPasskey, queued, [queued], [])
  {
    hide NoneComplete, Completes, Filled;
    var before, last := reports[..|reports| - 1], reports[|reports| - 1];
    DiscoveringUntilComplete(before);
    AnnouncementsEnd(reports);
    RunAppend(true, Step(true, IDLE, Start), Announcements(before), Discovered(last));
  }

  lemma AnnouncementsEnd(reports: seq<Report>)
    requires reports != []
    ensures var n := |reports| - 1;
      Announcements(reports) == Announcements(reports[..n]) + [Discovered(reports[n])]
  {
  }

  lemma RunAppend(bolt: bool, s: Session, inputs: seq<Input>, i: Input)
    requires (forall k :: 0 <= k < |inputs| ==> IsInput(inputs[k])) && IsInput(i)
    ensures Run(bolt, s, inputs + [i]) == Step(bolt, Run(bolt, s, inputs), i)
  {
    assert (inputs + [i])[..|inputs|] == inputs;
  }

  // Whatever blocks of a device's name are lost, repeated or out of order, and whatever came
  // before its last header, the completing one queues the event, and the name queued and
  // later signalled is the device's exactly when nothing of it is missing by then.
  lemma QueuedNameIff(earlier: seq<Report>, reports: seq<Report>, name: seq<Byte>, passkey: seq<Byte>)
    requires (forall i :: 0 <= i < |earlier| ==> IsReport(earlier[i])) && Mixes(reports, name)
    requires FirstToComplete(earlier + reports)
    ensures var queued := Discovery.Run(NO_EVENT, earlier + reports);
      Run(true, Step(true, IDLE, Start), Announcements(earlier + reports) + [PasskeyRequest(passkey)]) ==
      Session(Pairing, queued, [queued], [Ready(queued, passkey)]) &&
      queued == Header(reports[0]).(name := queued.name) &&
      (queued.name == name <==> NothingMissing(reports, name))
  {
    hide Run, Step, Announcements, FirstToComplete, NothingMissing, Discovery.Run;
    FirstCompleteIsQueued(earlier + reports, passkey);
    HeaderStartsOver(NO_EVENT, NO_EVENT, earlier, reports);
    MixedBlocks(NO_EVENT, reports, name);
    NameIsWholeIff(NO_EVENT, earlier, reports, name);
  }

  // With its second block lost, a name of three blocks is queued with spaces in its place.
  lemma LostBlockIsQueued(reports: seq<Report>, name: seq<Byte>)
    requires Mixes(reports, name) && |reports| == 3 && 2 * BLOCK < |name| < 3 * BLOCK
    requires IsFirst(reports[1], reports[0].seqNum)
    requires reports[2].data[1] == 3 && reports[2].seqNum == reports[0].seqNum
    ensures FirstToComplete(reports)
    ensures Discovery.Run(NO_EVENT, reports).name == name[..BLOCK] + seq(BLOCK, _ => SPACE) + name[2 * BLOCK..]
  {
    LostBlockCompletes(NO_EVENT, reports, name);
    assert Mixes(reports[..2], name);
    MixedCompletes(NO_EVENT, reports[..2], name);
    assert reports[..2][..1] == reports[..1] && reports[..1][..0] == [];
    assert NoneComplete(reports[..1]);
  }
}

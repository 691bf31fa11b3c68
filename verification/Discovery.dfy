// Putting a discovered device's announcement together from a header and blocks of its
// name, and the pairing request built from it.
module Discovery {
  import opened BytePairs

  const PARAMS := 16
  const BLOCK := PARAMS - 3
  const SPACE: Byte := 0x20
  const KEYBOARD := 1

  datatype Event = Event(deviceType: Byte, seqNum: Byte, address: nat, pid: nat, authentication: Byte, name: seq<Byte>)

  const NO_EVENT := Event(0, 0, 0, 0, 0, [])

  // A long report: its sequence number and its parameters.
  datatype Report = Report(seqNum: Byte, data: seq<Byte>)

  predicate IsReport(r: Report) {
    |r.data| == PARAMS
  }

  // ---- Six-byte addresses ----

  // n << 8 * i
  function Shift(n: nat, i: nat): nat
    decreases i
  {
    if i == 0 then n else Shift(0x100 * n, i - 1)
  }

  // (n >> 8 * i) & 0xff
  function ByteOf(n: nat, i: nat): Byte
    decreases i
  {
    if i == 0 then n % 0x100 else ByteOf(n / 0x100, i - 1)
  }

  // The number whose lowest byte comes first.
  function Value(bytes: seq<Byte>): nat {
    if bytes == [] then 0 else bytes[0] + 0x100 * Value(bytes[1..])
  }

  lemma {:induction false} ShiftAdds(a: nat, b: nat, i: nat)
    ensures Shift(a + b, i) == Shift(a, i) + Shift(b, i)
    decreases i
  {
    if i > 0 { ShiftAdds(0x100 * a, 0x100 * b, i - 1); }
  }

  lemma {:induction false} ShiftZero(i: nat)
    ensures Shift(0, i) == 0
  {
    if i > 0 { ShiftZero(i - 1); }
  }

  lemma {:induction false} ByteOfValue(bytes: seq<Byte>, i: nat)
    requires i < |bytes|
    ensures ByteOf(Value(bytes), i) == bytes[i]
  {
    if i > 0 {
      assert Value(bytes) / 0x100 == Value(bytes[1..]);
      ByteOfValue(bytes[1..], i - 1);
    }
  }

  // ---- Filling an event ----

  function Header(r: Report): Event
    requires IsReport(r)
  {
    Event(r.data[3], r.seqNum, Value(r.data[6..12]), r.data[5] as int * 0x100 + r.data[4], r.data[14], [])
  }

  function Resized(name: seq<Byte>, n: nat): seq<Byte> {
    if n <= |name| then name[..n] else name + seq(n - |name|, _ => SPACE)
  }

  // The name once the first block has given it its length.
  function Sized(name: seq<Byte>, r: Report): seq<Byte>
    requires IsReport(r)
  {
    if r.data[1] == 1 then Resized(name, r.data[2]) else name
  }

  // The part of a name that block k covers comes from the report, and the rest stays.
  function WithBlock(name: seq<Byte>, k: nat, r: Report): seq<Byte>
    requires IsReport(r) && k > 0
  {
    seq(|name|, j requires 0 <= j < |name| =>
      if (k - 1) * BLOCK <= j < k * BLOCK then r.data[j - (k - 1) * BLOCK + 3] else name[j])
  }

  function Filled(e: Event, r: Report): Event
    requires IsReport(r)
  {
    if r.data[1] == 0 then Header(r)
    else if e.seqNum != r.seqNum then e
    else e.(name := WithBlock(Sized(e.name, r), r.data[1], r))
  }

  // An event is complete when a block of its sequence reaches past the end of its name.
  predicate Completes(e: Event, r: Report)
    requires IsReport(r)
  {
    r.data[1] != 0 && e.seqNum == r.seqNum && r.data[1] as int * BLOCK > |Sized(e.name, r)|
  }

  class DiscoveryEvent {
    var deviceType: Byte
    var seqNum: Byte
    var address: nat
    var pid: nat
    var authentication: Byte
    var name: seq<Byte>

    ghost function View(): Event
      reads this
    {
      Event(deviceType, seqNum, address, pid, authentication, name)
    }

    constructor ()
      ensures View() == NO_EVENT
    {
      deviceType, seqNum, address, pid, authentication, name := 0, 0, 0, 0, 0, [];
    }

    method Clear()
      modifies this
      ensures View() == NO_EVENT
    {
      deviceType, seqNum, address, pid, authentication, name := 0, 0, 0, 0, 0, [];
    }

    method Copy() returns (e: Event)
      ensures e == View()
    {
      e := Event(deviceType, seqNum, address, pid, authentication, name);
    }

    method Fill(r: Report) returns (complete: bool)
      requires IsReport(r)
      modifies this
      ensures View() == Filled(old(View()), r)
      ensures complete == Completes(old(View()), r)
    {
      if r.data[1] == 0 {
        var newAddress := ReadAddress(r);
        deviceType := r.data[3];
        pid := r.data[5] as int * 0x100 + r.data[4];
        address := newAddress;
        authentication := r.data[14];
        seqNum := r.seqNum;
        name := [];
        return false;
      }
      if seqNum != r.seqNum { return false; }
      if r.data[1] == 1 {
        name := Resized(name, r.data[2]);
      }
      complete := FillBlock(r);
    }

    static method ReadAddress(r: Report) returns (address: nat)
      requires IsReport(r)
      ensures address == Value(r.data[6..12])
    {
      address := 0;
      var i := 0;
      while i < 6
        invariant 0 <= i <= 6
        invariant address + Shift(Value(r.data[6 + i..12]), i) == Value(r.data[6..12])
      {
        var b: nat := r.data[6 + i];
        assert r.data[6 + i..12] == [b] + r.data[6 + i + 1..12];
        ShiftAdds(b, 0x100 * Value(r.data[6 + i + 1..12]), i);
        address := address + Shift(b, i);
        i := i + 1;
      }
      ShiftZero(6);
    }

    method FillBlock(r: Report) returns (complete: bool)
      requires IsReport(r) && r.data[1] > 0
      modifies this`name
      ensures name == WithBlock(old(name), r.data[1], r)
      ensures complete == (r.data[1] as int * BLOCK > |name|)
    {
      ghost var before := name;
      var start: nat := (r.data[1] - 1) as int * BLOCK;
      var i := 0;
      while i < BLOCK
        invariant 0 <= i <= BLOCK
        invariant |name| == |before| && (i > 0 ==> start + i <= |name|)
        invariant forall j :: 0 <= j < |name| ==>
          name[j] == if start <= j < start + i then r.data[j - start + 3] else before[j]
      {
        var j := start + i;
        if j < |name| {
          name := name[j := r.data[i + 3]];
        } else {
          return true;
        }
        i := i + 1;
      }
      complete := false;
    }
  }

  // ---- Whole sequences of reports ----

  function Run(e: Event, reports: seq<Report>): Event
    requires forall i :: 0 <= i < |reports| ==> IsReport(reports[i])
  {
    if reports == [] then e
    else Filled(Run(e, reports[..|reports| - 1]), reports[|reports| - 1])
  }

  predicate IsHeader(r: Report) {
    IsReport(r) && r.data[1] == 0
  }

  // Block k of a name.
  predicate IsBlock(r: Report, name: seq<Byte>, k: int) {
    && IsReport(r) && r.data[1] == k && (k == 1 ==> r.data[2] == |name|)
    && forall j :: 0 <= j < |name| && (k - 1) * BLOCK <= j < k * BLOCK ==> name[j] == r.data[j - (k - 1) * BLOCK + 3]
  }

  // A header and then blocks 1, 2, ... of a name, all with one sequence number.
  predicate Announces(reports: seq<Report>, name: seq<Byte>) {
    && reports != [] && IsHeader(reports[0])
    && forall k :: 0 < k < |reports| ==> IsBlock(reports[k], name, k) && reports[k].seqNum == reports[0].seqNum
  }

  lemma {:induction false} BlocksSoFar(e: Event, reports: seq<Report>, name: seq<Byte>)
    requires Announces(reports, name)
    ensures var r := Run(e, reports);
      r.seqNum == reports[0].seqNum && r == Header(reports[0]).(name := r.name) &&
      (if |reports| == 1 then r.name == []
       else |r.name| == |name| && forall j :: 0 <= j < |name| && j < (|reports| - 1) * BLOCK ==> r.name[j] == name[j])
  {
    var n := |reports| - 1;
    if n == 0 {
      assert Run(e, reports[..0]) == e;
    } else {
      assert Announces(reports[..n], name);
      BlocksSoFar(e, reports[..n], name);
      assert IsBlock(reports[n], name, n);
    }
  }

  lemma PastTheEnd(n: nat, length: nat)
    ensures n * BLOCK > length <==> n >= length / BLOCK + 1
  {
  }

  // Block n completes the event exactly when it reaches past the end of the name.
  lemma CompletesWhen(e: Event, reports: seq<Report>, name: seq<Byte>)
    requires Announces(reports, name) && |reports| > 1
    ensures var n := |reports| - 1;
      Completes(Run(e, reports[..n]), reports[n]) <==> n * BLOCK > |name|
  {
    var n := |reports| - 1;
    assert Announces(reports[..n], name);
    BlocksSoFar(e, reports[..n], name);
    assert IsBlock(reports[n], name, n) && reports[n].seqNum == reports[0].seqNum;
  }

  // Whatever the event held before, the name comes out exactly, and block
  // floor(length / 13) + 1 is the first to complete it.
  lemma NameIsRebuilt(e: Event, reports: seq<Report>, name: seq<Byte>)
    requires Announces(reports, name) && |reports| > 1
    ensures var n := |reports| - 1;
      var complete := Completes(Run(e, reports[..n]), reports[n]);
      (complete <==> n >= |name| / BLOCK + 1) &&
      (complete ==> Run(e, reports) == Header(reports[0]).(name := name))
  {
    var n := |reports| - 1;
    CompletesWhen(e, reports, name);
    PastTheEnd(n, |name|);
    BlocksSoFar(e, reports, name);
    if n * BLOCK > |name| { assert Run(e, reports).name == name; }
  }

  // ---- Blocks in any order ----

  // A header and then blocks of a name in any order, lost or repeated, among any blocks with
  // another sequence number.
  predicate Mixes(reports: seq<Report>, name: seq<Byte>) {
    && reports != [] && IsHeader(reports[0])
    && forall i :: 0 < i < |reports| ==>
      IsReport(reports[i]) && reports[i].data[1] != 0 &&
      (reports[i].seqNum == reports[0].seqNum ==> IsBlock(reports[i], name, reports[i].data[1]))
  }

  predicate IsFirst(r: Report, seqNum: Byte)
    requires IsReport(r)
  {
    r.data[1] == 1 && r.seqNum == seqNum
  }

  // The first block, which gives the name its length, has arrived.
  predicate HasFirst(reports: seq<Report>)
    requires forall i :: 0 <= i < |reports| ==> IsReport(reports[i])
  {
    |reports| > 1 &&
    (IsFirst(reports[|reports| - 1], reports[0].seqNum) || HasFirst(reports[..|reports| - 1]))
  }

  predicate Covers(r: Report, seqNum: Byte, j: nat)
    requires IsReport(r)
  {
    r.seqNum == seqNum && (r.data[1] - 1) * BLOCK <= j < r.data[1] * BLOCK
  }

  // Character j of the name has arrived, with the first block or after it.
  predicate Arrived(reports: seq<Report>, j: nat)
    requires forall i :: 0 <= i < |reports| ==> IsReport(reports[i])
  {
    |reports| > 1 &&
    (Arrived(reports[..|reports| - 1], j) ||
     (HasFirst(reports) && Covers(reports[|reports| - 1], reports[0].seqNum, j)))
  }

  lemma {:induction false} MixedBlocks(e: Event, reports: seq<Report>, name: seq<Byte>)
    requires Mixes(reports, name)
    ensures var r := Run(e, reports);
      r.seqNum == reports[0].seqNum && r == Header(reports[0]).(name := r.name) &&
      (if HasFirst(reports)
       then |r.name| == |name| &&
            forall j: nat :: j < |name| ==> r.name[j] == if Arrived(reports, j) then name[j] else SPACE
       else r.name == [] && forall j: nat :: !Arrived(reports, j))
  {
    var n := |reports| - 1;
    if n == 0 {
      assert Run(e, reports[..0]) == e;
    } else {
      assert Mixes(reports[..n], name);
      MixedBlocks(e, reports[..n], name);
      MixedStep(Run(e, reports[..n]), reports, name);
    }
  }

  lemma MixedStep(before: Event, reports: seq<Report>, name: seq<Byte>)
    requires Mixes(reports, name) && |reports| > 1 && before.seqNum == reports[0].seqNum
    requires var earlier := reports[..|reports| - 1];
      if HasFirst(earlier)
      then |before.name| == |name| &&
           forall j: nat :: j < |name| ==> before.name[j] == if Arrived(earlier, j) then name[j] else SPACE
      else before.name == [] && forall j: nat :: !Arrived(earlier, j)
    ensures var after := Filled(before, reports[|reports| - 1]);
      if HasFirst(reports)
      then |after.name| == |name| &&
           forall j: nat :: j < |name| ==> after.name[j] == if Arrived(reports, j) then name[j] else SPACE
      else after.name == [] && forall j: nat :: !Arrived(reports, j)
  {
    var r := reports[|reports| - 1];
    if r.seqNum == before.seqNum { assert IsBlock(r, name, r.data[1]); }
  }

  // What is still missing of the name: nothing exactly when its first block has arrived,
  // and of the rest at least every character that is not a space.
  ghost predicate NothingMissing(reports: seq<Report>, name: seq<Byte>)
    requires Mixes(reports, name)
  {
    (name == [] || HasFirst(reports)) && forall j: nat :: j < |name| ==> name[j] == SPACE || Arrived(reports, j)
  }

  // A header starts over, whatever came before it.
  lemma {:induction false} HeaderStartsOver(e: Event, f: Event, earlier: seq<Report>, reports: seq<Report>)
    requires forall i :: 0 <= i < |earlier| ==> IsReport(earlier[i])
    requires forall i :: 0 <= i < |reports| ==> IsReport(reports[i])
    requires reports != [] && IsHeader(reports[0])
    ensures Run(e, earlier + reports) == Run(f, reports)
  {
    var n := |reports| - 1;
    assert (earlier + reports)[..|earlier| + n] == earlier + reports[..n];
    if n > 0 { HeaderStartsOver(e, f, earlier, reports[..n]); }
  }

  // Whatever came before the last header, other announcements of the device or of others.
  lemma NameIsWholeIff(e: Event, earlier: seq<Report>, reports: seq<Report>, name: seq<Byte>)
    requires (forall i :: 0 <= i < |earlier| ==> IsReport(earlier[i])) && Mixes(reports, name)
    ensures Run(e, earlier + reports).name == name <==> NothingMissing(reports, name)
  {
    HeaderStartsOver(e, e, earlier, reports);
    MixedBlocks(e, reports, name);
    var got := Run(e, reports).name;
    if got == name {
      assert forall j: nat :: j < |name| ==> got[j] == name[j];
    } else if |got| == |name| {
      var j: nat :| j < |name| && got[j] != name[j];
    }
  }

  // Which block completes the event does not depend on what has arrived besides the first.
  lemma MixedCompletes(e: Event, reports: seq<Report>, name: seq<Byte>)
    requires Mixes(reports, name) && |reports| > 1
    ensures var n := |reports| - 1;
      Completes(Run(e, reports[..n]), reports[n]) <==>
        reports[n].seqNum == reports[0].seqNum &&
        reports[n].data[1] as int * BLOCK > if HasFirst(reports) then |name| else 0
  {
    var n := |reports| - 1;
    assert Mixes(reports[..n], name);
    MixedBlocks(e, reports[..n], name);
    if reports[n].seqNum == reports[0].seqNum { assert IsBlock(reports[n], name, reports[n].data[1]); }
  }

  // The second block of a name lost: the third completes it with spaces in its place.
  lemma LostBlockCompletes(e: Event, reports: seq<Report>, name: seq<Byte>)
    requires Mixes(reports, name) && |reports| == 3 && 2 * BLOCK < |name| < 3 * BLOCK
    requires IsFirst(reports[1], reports[0].seqNum)
    requires reports[2].data[1] == 3 && reports[2].seqNum == reports[0].seqNum
    ensures Completes(Run(e, reports[..2]), reports[2])
    ensures Run(e, reports).name ==
      name[..BLOCK] + seq(BLOCK, _ => SPACE) + name[2 * BLOCK..]
  {
    MixedCompletes(e, reports, name);
    MixedBlocks(e, reports, name);
    assert reports[..2][..1] == reports[..1];
    assert HasFirst(reports[..2]);
    var got := Run(e, reports).name;
    forall j: nat | j < |name|
      ensures Arrived(reports, j) <==> j < BLOCK || 2 * BLOCK <= j
    {
      assert Arrived(reports[..2], j) <==> Covers(reports[1], reports[0].seqNum, j);
    }
  }

  // What a header announces: the lowest byte of its numbers comes first.
  lemma HeaderAnnounces(e: Event, earlier: seq<Report>, r: Report)
    requires (forall i :: 0 <= i < |earlier| ==> IsReport(earlier[i])) && IsHeader(r)
    ensures var got := Run(e, earlier + [r]);
      got.seqNum == r.seqNum && got.deviceType == r.data[3] && got.authentication == r.data[14] && got.name == [] &&
      got.pid % 0x100 == r.data[4] && got.pid / 0x100 == r.data[5] &&
      got.address == LowestFirst(r.data[6], r.data[7], r.data[8], r.data[9], r.data[10], r.data[11])
  {
    assert (earlier + [r])[..|earlier|] == earlier;
    SixBytes(r.data[6..12]);
  }

  function LowestFirst(a: int, b: int, c: int, d: int, e: int, f: int): int {
    a + 0x100 * b + 0x1_0000 * c + 0x100_0000 * d + 0x1_0000_0000 * e + 0x100_0000_0000 * f
  }

  lemma SixBytes(b: seq<Byte>)
    requires |b| == 6
    ensures Value(b) == LowestFirst(b[0], b[1], b[2], b[3], b[4], b[5])
  {
    assert b[1..][1..] == b[2..] && b[2..][1..] == b[3..] && b[3..][1..] == b[4..] && b[4..][1..] == b[5..];
    assert b[5..][1..] == [];
    assert Value(b[5..]) == LowestFirst(b[5], 0, 0, 0, 0, 0);
    assert Value(b[4..]) == LowestFirst(b[4], b[5], 0, 0, 0, 0);
    assert Value(b[3..]) == LowestFirst(b[3], b[4], b[5], 0, 0, 0);
    assert Value(b[2..]) == LowestFirst(b[2], b[3], b[4], b[5], 0, 0);
  }

  // ---- Reports of other sequences ----

  predicate IsForeign(e: Event, r: Report) {
    IsReport(r) && r.data[1] != 0 && r.seqNum != e.seqNum
  }

  // Blocks of other sequences change nothing and complete nothing, however many come.
  lemma {:induction false} ForeignBlocksIgnored(e: Event, reports: seq<Report>)
    requires forall i :: 0 <= i < |reports| ==> IsReport(reports[i]) && IsForeign(e, reports[i])
    ensures Run(e, reports) == e
    ensures forall i :: 0 <= i < |reports| ==> !Completes(e, reports[i])
  {
    if reports != [] { ForeignBlocksIgnored(e, reports[..|reports| - 1]); }
  }

  // A later block that arrives when the name has no length yet completes it, empty.
  lemma EarlyBlockCompletes(e: Event, header: Report, block: Report)
    requires IsHeader(header) && IsReport(block) && block.data[1] > 1 && block.seqNum == header.seqNum
    ensures Completes(Filled(e, header), block) && Filled(Filled(e, header), block).name == []
  {
  }

  // ---- The pairing request ----

  function PairingRequest(e: Event): (request: seq<Byte>)
    ensures |request| == 10
  {
    [1, 0] + seq(6, i requires 0 <= i < 6 => ByteOf(e.address, i)) +
    [e.authentication, if e.deviceType == KEYBOARD then 10 else 20]
  }

  // A request made from a header repeats the header's address and authentication bytes.
  lemma RequestRepeatsHeader(header: Report, name: seq<Byte>)
    requires IsHeader(header)
    ensures var request := PairingRequest(Header(header).(name := name));
      |request| == 10 && request[0] == 1 && request[1] == 0 &&
      request[2..8] == header.data[6..12] && request[8] == header.data[14] &&
      request[9] == if header.data[3] == 1 then 10 else 20
  {
    var request := PairingRequest(Header(header).(name := name));
    forall i | 0 <= i < 6
      ensures request[2..8][i] == header.data[6..12][i]
    {
      ByteOfValue(header.data[6..12], i);
    }
  }
}

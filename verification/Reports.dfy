// HID++ reports: their bytes, their header fields and the two error formats.
module Reports {
  import opened BytePairs
  import opened Options

  const SHORT: Byte := 0x10
  const LONG: Byte := 0x11
  const SHORT_LENGTH := 7
  const LONG_LENGTH := 20
  const SOFTWARE_ID: Byte := 2
  const NO_ACK_SOFTWARE_ID: Byte := 3
  const ERROR_ID_10: Byte := 0x8f
  const ERROR_ID_20: Byte := 0xff

  datatype RawReport = RawReport(data: seq<Byte>) {
    predicate Valid() {
      (|data| == SHORT_LENGTH && data[0] == SHORT) || (|data| == LONG_LENGTH && data[0] == LONG)
    }
  }

  type Report = r: RawReport | r.Valid() witness RawReport([SHORT, 0, 0, 0, 0, 0, 0])

  function DeviceIndex(r: Report): Byte { r.data[1] }
  // One byte with two names: the feature index of HID++ 2.0, the sub ID of HID++ 1.0.
  function Feature(r: Report): Byte { r.data[2] }
  function Address(r: Report): Byte { r.data[3] }
  function Function(r: Report): Byte { r.data[3] / 16 }
  function SwId(r: Report): Byte { r.data[3] % 16 }

  datatype Error10 = Error10(device: Byte, subId: Byte, address: Byte, code: Byte)
  datatype Error20 = Error20(device: Byte, feature: Byte, fn: Byte, swId: Byte, code: Byte)

  function IsError10(r: Report): Option<Error10> {
    if r.data[0] != SHORT || r.data[2] != ERROR_ID_10 then None
    else Some(Error10(r.data[1], r.data[3], r.data[4], r.data[5]))
  }

  function IsError20(r: Report): Option<Error20> {
    if r.data[0] != LONG || r.data[2] != ERROR_ID_20 then None
    else Some(Error20(r.data[1], r.data[3], r.data[4] / 16, r.data[4] % 16, r.data[5]))
  }

  function Zeros(n: nat): seq<Byte> {
    seq(n, _ => 0)
  }

  // Report(type, device, feature, function, software id)
  function Make(ty: Byte, device: Byte, feature: Byte, fn: Byte, swId: Byte): Report
    requires ty == SHORT || ty == LONG
    requires fn < 16 && swId < 16
  {
    RawReport([ty, device, feature, fn * 16 + swId] + Zeros(if ty == SHORT then 3 else 16))
  }

  // Report(data): truncated or zero-filled to the length its type byte asks for; None is
  // InvalidReportID.
  function FromRaw(data: seq<Byte>): Option<Report> {
    var padded := if |data| < LONG_LENGTH then data + Zeros(LONG_LENGTH - |data|) else data[..LONG_LENGTH];
    if padded[0] == SHORT then Some(RawReport(padded[..SHORT_LENGTH]))
    else if padded[0] == LONG then Some(RawReport(padded))
    else None
  }

  function SetSwId(r: Report, swId: Byte): Report {
    RawReport(r.data[3 := r.data[3] / 16 * 16 + swId % 16])
  }

  // An error of HID++ 1.0 is a short report with these bytes, and only that is one.
  lemma Error10Iff(r: Report, e: Error10)
    ensures IsError10(r) == Some(e) <==>
      |r.data| == 7 && r.data[..6] == [0x10, e.device, 0x8f, e.subId, e.address, e.code]
  {
    assert |r.data| >= 6 && r.data[..6] == [r.data[0], r.data[1], r.data[2], r.data[3], r.data[4], r.data[5]];
  }

  // An error of HID++ 2.0 is a long report with these bytes, and only that is one.
  lemma Error20Iff(r: Report, e: Error20)
    ensures IsError20(r) == Some(e) <==>
      |r.data| == 20 && e.fn < 16 && e.swId < 16 &&
      r.data[..6] == [0x11, e.device, 0xff, e.feature, e.fn * 16 + e.swId, e.code]
  {
    assert |r.data| >= 6 && r.data[..6] == [r.data[0], r.data[1], r.data[2], r.data[3], r.data[4], r.data[5]];
  }

  // Raw bytes are cut off or filled up with zeros to the length of the type in the first one.
  lemma RawIsPadded(data: seq<Byte>)
    ensures FromRaw(data).Some? <==> data != [] && (data[0] == 0x10 || data[0] == 0x11)
    ensures FromRaw(data).Some? ==>
      var got := FromRaw(data).value.data;
      |got| == (if data[0] == 0x10 then 7 else 20) &&
      forall i :: 0 <= i < |got| ==> got[i] == if i < |data| then data[i] else 0
  {
  }

  // The header survives packing and unpacking, and changing the software ID touches
  // nothing else.
  lemma HeaderFields(ty: Byte, device: Byte, feature: Byte, fn: Byte, swId: Byte, other: Byte)
    requires (ty == SHORT || ty == LONG) && fn < 16 && swId < 16 && other < 16
    ensures var r := Make(ty, device, feature, fn, swId);
      DeviceIndex(r) == device && Feature(r) == feature && Function(r) == fn && SwId(r) == swId &&
      SwId(SetSwId(r, other)) == other && Function(SetSwId(r, other)) == fn &&
      FromRaw(r.data) == Some(r)
  {
    var r := Make(ty, device, feature, fn, swId);
    if ty == SHORT { assert (r.data + Zeros(13))[..SHORT_LENGTH] == r.data; }
    else { assert r.data[..LONG_LENGTH] == r.data; }
  }
}

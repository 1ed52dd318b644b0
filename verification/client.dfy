/** The current client: the error check on every read, the inverter discovery scan,
    the cached DTU serial number and the plant summary. */
module Client {
  import opened Bytes
  import opened Hex
  import opened Faults
  import opened Datatypes
  import opened RegisterScan
  import opened Aggregation

  /** `_read_registers`, once the transport has answered: a raised failure propagates,
      a response flagged as a Modbus error is refused, anything else is accepted. */
  function CheckReply(reply: Reply): (r: Result<Bytes>)
    ensures reply == TransportFailure ==> r == Failure(TransportFault)
    ensures reply.Response? && reply.isError ==> r == Failure(ErrorResponse)
    ensures r.Success? <==> reply.Response? && !reply.isError
    ensures r.Success? ==> r.value == reply.encoded
  {
    match reply
    case TransportFailure => Failure(TransportFault)
    case Response(isError, encoded) => if isError then Failure(ErrorResponse) else Success(encoded)
  }

  /** The register bytes of an inverter slot: the response encoding without its leading
      byte-count, at most 40 bytes (`encode()[1:41]`). */
  function SlotPayload(encoded: Bytes): (payload: Bytes)
    ensures |payload| == if |encoded| <= 1 then 0 else if |encoded| <= 2 * InverterRegisters + 1 then |encoded| - 1 else 2 * InverterRegisters
    ensures forall k :: 0 <= k < |payload| ==> payload[k] == encoded[k + 1]
  {
    Slice(encoded, 1, 2 * InverterRegisters + 1)
  }

  /** One iteration of `microinverter_data`'s loop body for slot `i`. */
  function ClassifySlot(i: nat, reply: Reply): (o: SlotOutcome<InverterData>)
    ensures reply == TransportFailure ==> o == Abort(TransportFault)
    ensures reply.Response? && reply.isError ==> o == Abort(ErrorResponse)
    ensures o == Abort(NotMappedYet) <==> i == 0 && reply.Response? && !reply.isError && |reply.encoded| <= 1
    ensures o.Found? <==>
      && reply.Response? && !reply.isError && !(i == 0 && |reply.encoded| <= 1)
      && Unpack(SlotPayload(reply.encoded)).Success?
      && Unpack(SlotPayload(reply.encoded)).value.serialNumber != NullInverter
    ensures o.Found? ==> Unpack(SlotPayload(reply.encoded)) == Success(o.record) && WellFormed(o.record)
    ensures o.EndOfList? <==>
      && reply.Response? && !reply.isError
      && Unpack(SlotPayload(reply.encoded)).Success?
      && Unpack(SlotPayload(reply.encoded)).value.serialNumber == NullInverter
    ensures
      && reply.Response? && !reply.isError && !(i == 0 && |reply.encoded| <= 1)
      && |SlotPayload(reply.encoded)| < FixedLength
      ==> o == Abort(InsufficientBytes)
  {
    match CheckReply(reply)
    case Failure(fault) => Abort(fault)
    case Success(encoded) =>
      var payload := SlotPayload(encoded);
      if i < 1 && |payload| < 1 then Abort(NotMappedYet)
      else
        match Unpack(payload)
        case Failure(fault) => Abort(fault)
        case Success(record) => if record.serialNumber == NullInverter then EndOfList else Found(record)
  }

  /** `microinverter_data`: the scan from slot 0 with this client's unit id. On success
      every inverter returned is well formed and none carries the null serial. */
  function MicroinverterData(dev: Device, unit: nat): (s: Scan<InverterData>)
    ensures |s.requests| <= MaxInverterCount
    ensures forall j :: 0 <= j < |s.requests| ==> s.requests[j] == SlotRequest(j, unit)
    ensures s.result.Success? ==> |s.result.value| <= MaxInverterCount
    ensures s.result.Success? ==>
      forall j :: 0 <= j < |s.result.value| ==>
        && WellFormed(s.result.value[j])
        && s.result.value[j].serialNumber != NullInverter
        && dev(SlotRequest(j, unit)).Response? && !dev(SlotRequest(j, unit)).isError
        && Unpack(SlotPayload(dev(SlotRequest(j, unit)).encoded)) == Success(s.result.value[j])
    ensures EndsProperly(dev, unit, ClassifySlot, s)
  {
    ScanRecords(dev, unit);
    ScanFromStartEnds(dev, unit, ClassifySlot);
    ScanFrom(dev, unit, ClassifySlot, 0)
  }

  /** What the scan result says about each slot it returned. */
  lemma ScanRecords(dev: Device, unit: nat)
    ensures var s := ScanFrom(dev, unit, ClassifySlot, 0);
      s.result.Success? ==>
        forall j :: 0 <= j < |s.result.value| ==>
          && WellFormed(s.result.value[j])
          && s.result.value[j].serialNumber != NullInverter
          && dev(SlotRequest(j, unit)).Response? && !dev(SlotRequest(j, unit)).isError
          && Unpack(SlotPayload(dev(SlotRequest(j, unit)).encoded)) == Success(s.result.value[j])
  {
    var s := ScanFrom(dev, unit, ClassifySlot, 0);
    if s.result.Success? {
      forall j | 0 <= j < |s.result.value|
        ensures WellFormed(s.result.value[j])
        ensures s.result.value[j].serialNumber != NullInverter
        ensures dev(SlotRequest(j, unit)).Response? && !dev(SlotRequest(j, unit)).isError
        ensures Unpack(SlotPayload(dev(SlotRequest(j, unit)).encoded)) == Success(s.result.value[j])
      {
        assert Outcome(dev, unit, ClassifySlot, j) == Found(s.result.value[j]);
      }
    }
  }

  /** An empty payload at slot 0 is "not mapped yet", distinct from an empty list. */
  lemma EmptyFirstSlotNotMapped(dev: Device, unit: nat)
    requires dev(SlotRequest(0, unit)).Response? && !dev(SlotRequest(0, unit)).isError
    requires |dev(SlotRequest(0, unit)).encoded| <= 1
    ensures MicroinverterData(dev, unit) == Scan([SlotRequest(0, unit)], Failure(NotMappedYet))
  {
  }

  /** A null serial at slot 0 is the legitimate "no inverters" answer. */
  lemma NullFirstSlotNoInverters(dev: Device, unit: nat)
    requires dev(SlotRequest(0, unit)).Response? && !dev(SlotRequest(0, unit)).isError
    requires Unpack(SlotPayload(dev(SlotRequest(0, unit)).encoded)).Success?
    requires Unpack(SlotPayload(dev(SlotRequest(0, unit)).encoded)).value.serialNumber == NullInverter
    ensures MicroinverterData(dev, unit) == Scan([SlotRequest(0, unit)], Success([]))
  {
  }

  /** An error response at slot `k`, after `k` inverter slots, fails the whole call:
      no partial list, and nothing after slot `k` is read. */
  lemma ErrorResponseAbortsScan(dev: Device, unit: nat, k: nat)
    requires k < MaxInverterCount
    requires forall j :: 0 <= j < k ==> Outcome(dev, unit, ClassifySlot, j).Found?
    requires dev(SlotRequest(k, unit)).Response? && dev(SlotRequest(k, unit)).isError
    ensures MicroinverterData(dev, unit).result == Failure(ErrorResponse)
    ensures |MicroinverterData(dev, unit).requests| == k + 1
  {
    assert Outcome(dev, unit, ClassifySlot, 0 + k) == Abort(ErrorResponse);
    ScanAbortsWholeCall(dev, unit, ClassifySlot, 0, k, ErrorResponse);
  }

  // ---------------------------------------------------------------------------
  // DTU serial number

  /** Address and size of the DTU identity block. */
  const DtuAddress := 0x2000
  const DtuRegisters := 3

  function DtuRequest(unit: nat): Request {
    ReadHoldingRegisters(DtuAddress, DtuRegisters, unit)
  }

  /** A read of the DTU serial: requests issued, the answer, and the cache afterwards. */
  datatype DtuRead<S> = DtuRead(requests: seq<Request>, result: Result<S>, cache: S)

  /** `dtu`: while the cache is empty, read the identity block and keep the decoded
      serial only if the read and the decoding both succeeded. */
  function ReadDtu(cache: string, dev: Device, unit: nat): (d: DtuRead<string>)
    ensures cache != "" ==> d == DtuRead([], Success(cache), cache)
    ensures cache == "" ==> d.requests == [DtuRequest(unit)]
    ensures cache == "" ==>
      (d.result.Success? <==>
        && dev(DtuRequest(unit)).Response? && !dev(DtuRequest(unit)).isError
        && |dev(DtuRequest(unit)).encoded| == 1 + SerialBytes)
    ensures cache == "" && d.result.Success? ==>
      d.result.value == Hexlify(dev(DtuRequest(unit)).encoded[1..])
    ensures d.result.Success? ==> d.cache == d.result.value && d.cache != ""
    ensures d.result.Failure? ==> d.cache == cache
    ensures cache == "" && d.result.Success? ==>
      Unhexlify(d.result.value) == Some(dev(DtuRequest(unit)).encoded[1..])
    ensures cache == "" && dev(DtuRequest(unit)) == TransportFailure ==> d.result == Failure(TransportFault)
    ensures cache == "" && dev(DtuRequest(unit)).Response? && dev(DtuRequest(unit)).isError ==>
      d.result == Failure(ErrorResponse)
    ensures cache == "" && dev(DtuRequest(unit)).Response? && !dev(DtuRequest(unit)).isError ==>
      && (|dev(DtuRequest(unit)).encoded| < 1 + SerialBytes ==> d.result == Failure(InsufficientBytes))
      && (|dev(DtuRequest(unit)).encoded| > 1 + SerialBytes ==> d.result == Failure(ExcessBytes))
  {
    if cache != "" then DtuRead([], Success(cache), cache)
    else
      var request := DtuRequest(unit);
      match CheckReply(dev(request))
      case Failure(fault) => DtuRead([request], Failure(fault), cache)
      case Success(encoded) =>
        match UnpackSerial(Drop(encoded, 1))
        case Failure(fault) => DtuRead([request], Failure(fault), cache)
        case Success(serial) => DtuRead([request], Success(serial), serial)
  }

  /** Once read, the serial never changes and the device is never asked again, whatever
      it would answer. */
  lemma DtuFixedAfterFirstRead(cache: string, dev: Device, later: Device, unit: nat)
    requires ReadDtu(cache, dev, unit).result.Success?
    ensures var first := ReadDtu(cache, dev, unit);
            ReadDtu(first.cache, later, unit) == DtuRead([], first.result, first.cache)
  {
  }

  /** The test's identity reply (byte count 6, then 11 d3 61 60 08 31) gives "11d361600831". */
  lemma DtuExample(dev: Device, unit: nat)
    requires dev(DtuRequest(unit)) == Response(false, [0x06, 0x11, 0xd3, 0x61, 0x60, 0x08, 0x31])
    ensures ReadDtu("", dev, unit).result == Success("11d361600831")
  {
    var encoded: Bytes := [0x06, 0x11, 0xd3, 0x61, 0x60, 0x08, 0x31];
    DtuSerialText(encoded[1..]);
  }

  /** The hex text of the test's DTU serial bytes, two digits at a time. */
  lemma DtuSerialText(b: Bytes)
    requires b == [0x11, 0xd3, 0x61, 0x60, 0x08, 0x31]
    ensures Hexlify(b) == "11d361600831"
  {
    HexlifyAt(b);
    var s := Hexlify(b);
    assert s[0] == HexDigit(b[0] / 16) == '1' && s[1] == HexDigit(b[0] % 16) == '1';
    assert s[2] == HexDigit(b[1] / 16) == 'd' && s[3] == HexDigit(b[1] % 16) == '3';
    assert s[4] == HexDigit(b[2] / 16) == '6' && s[5] == HexDigit(b[2] % 16) == '1';
    assert s[6] == HexDigit(b[3] / 16) == '6' && s[7] == HexDigit(b[3] % 16) == '0';
    assert s[8] == HexDigit(b[4] / 16) == '0' && s[9] == HexDigit(b[4] % 16) == '8';
    assert s[10] == HexDigit(b[5] / 16) == '3' && s[11] == HexDigit(b[5] % 16) == '1';
  }

  // ---------------------------------------------------------------------------
  // Plant summary

  /** A plant read: requests issued, the summary or the fault, the DTU cache afterwards. */
  datatype PlantRead<S> = PlantRead(requests: seq<Request>, result: Result<Plant<S>>, cache: S)

  /** `plant_data`: scan the inverters, then get the DTU serial, then fold. Any fault
      aborts the whole call. */
  function ReadPlant(cache: string, dev: Device, unit: nat): (p: PlantRead<string>)
    ensures p.result.Success? ==>
      var plant := p.result.value;
      && MicroinverterData(dev, unit).result == Success(plant.inverters)
      && ReadDtu(cache, dev, unit).result == Success(plant.dtu)
      && plant.todayProduction == TodaySum(LinkedOnly(plant.inverters))
      && plant.totalProduction == TotalSum(LinkedOnly(plant.inverters))
      && plant.pvPower == PowerSum(LinkedOnly(plant.inverters))
      && (plant.alarmFlag <==> AnyLinkedAlarm(plant.inverters))
    ensures p.result.Success? <==> MicroinverterData(dev, unit).result.Success? && ReadDtu(cache, dev, unit).result.Success?
    ensures MicroinverterData(dev, unit).result.Failure? ==>
      && p.requests == MicroinverterData(dev, unit).requests
      && p.result == MicroinverterData(dev, unit).result.PropagateFailure() && p.cache == cache
    ensures MicroinverterData(dev, unit).result.Success? ==>
      && p.requests == MicroinverterData(dev, unit).requests + ReadDtu(cache, dev, unit).requests
      && p.cache == ReadDtu(cache, dev, unit).cache
    ensures MicroinverterData(dev, unit).result.Success? && ReadDtu(cache, dev, unit).result.Failure? ==>
      p.result == Failure(ReadDtu(cache, dev, unit).result.error)
  {
    var scan := MicroinverterData(dev, unit);
    match scan.result
    case Failure(fault) => PlantRead(scan.requests, Failure(fault), cache)
    case Success(inverters) =>
      var d := ReadDtu(cache, dev, unit);
      match d.result
      case Failure(fault) => PlantRead(scan.requests + d.requests, Failure(fault), d.cache)
      case Success(dtu) => PlantRead(scan.requests + d.requests, Success(PlantData(dtu, inverters)), d.cache)
  }

  /** The client object: connection settings and the one piece of state kept across
      calls, the DTU serial number (empty until first read). */
  class HoymilesModbusTcp {
    const host: string
    const port: nat
    const unitId: nat
    var dtuSerialNumber: string

    constructor(host: string, port: nat := 502, unitId: nat := 1)
      ensures this.host == host && this.port == port && this.unitId == unitId
      ensures dtuSerialNumber == ""
    {
      this.host := host;
      this.port := port;
      this.unitId := unitId;
      dtuSerialNumber := "";
    }

    method Dtu(dev: Device) returns (r: Result<string>)
      modifies this
      ensures var d := ReadDtu(old(dtuSerialNumber), dev, unitId); r == d.result && dtuSerialNumber == d.cache
    {
      var d := ReadDtu(dtuSerialNumber, dev, unitId);
      dtuSerialNumber := d.cache;
      r := d.result;
    }

    method PlantData(dev: Device) returns (r: Result<Plant<string>>)
      modifies this
      ensures var p := ReadPlant(old(dtuSerialNumber), dev, unitId); r == p.result && dtuSerialNumber == p.cache
    {
      var p := ReadPlant(dtuSerialNumber, dev, unitId);
      dtuSerialNumber := p.cache;
      r := p.result;
    }
  }
}

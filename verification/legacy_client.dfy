/** The first release's client: the same scan, DTU cache and fold, but without the
    error-response check, without the "not mapped yet" case, with unit id 1 throughout
    and with bytes serial numbers. */
module LegacyClient {
  import opened Bytes
  import opened Faults
  import opened Datatypes
  import opened LegacyDatatypes
  import opened RegisterScan
  import opened Aggregation
  import opened Client

  /** The unit id every request of this release carries. */
  const LegacyUnit := 1

  /** One iteration of the first release's loop: whatever the device answered is
      decoded, an error response included; the transport raising aborts the call. */
  function LegacyClassifySlot(i: nat, reply: Reply): (o: SlotOutcome<LegacyInverterData>)
    ensures reply == TransportFailure <==> o == Abort(TransportFault)
    ensures o == Abort(InsufficientBytes) <==> reply.Response? && |SlotPayload(reply.encoded)| < FixedLength
    ensures o.Found? <==>
      && reply.Response? && |SlotPayload(reply.encoded)| >= FixedLength
      && LegacyUnpack(SlotPayload(reply.encoded)).value.serialNumber != NullMicroinverter
    ensures o == EndOfList <==>
      && reply.Response? && |SlotPayload(reply.encoded)| >= FixedLength
      && LegacyUnpack(SlotPayload(reply.encoded)).value.serialNumber == NullMicroinverter
    ensures o.Found? ==> LegacyUnpack(SlotPayload(reply.encoded)) == Success(o.record)
  {
    match reply
    case TransportFailure => Abort(TransportFault)
    case Response(_, encoded) =>
      match LegacyUnpack(SlotPayload(encoded))
      case Failure(fault) => Abort(fault)
      case Success(record) => if record.serialNumber == NullMicroinverter then EndOfList else Found(record)
  }

  /** `microinverter_data` of the first release. */
  function LegacyMicroinverterData(dev: Device): (s: Scan<LegacyInverterData>)
    ensures |s.requests| <= MaxInverterCount
    ensures forall j :: 0 <= j < |s.requests| ==> s.requests[j] == SlotRequest(j, LegacyUnit)
    ensures s.result.Success? ==>
      forall j :: 0 <= j < |s.result.value| ==>
        && dev(SlotRequest(j, LegacyUnit)).Response?
        && LegacyUnpack(SlotPayload(dev(SlotRequest(j, LegacyUnit)).encoded)) == Success(s.result.value[j])
        && s.result.value[j].serialNumber != NullMicroinverter
    ensures EndsProperly(dev, LegacyUnit, LegacyClassifySlot, s)
  {
    LegacyScanRecords(dev);
    ScanFromStartEnds(dev, LegacyUnit, LegacyClassifySlot);
    ScanFrom(dev, LegacyUnit, LegacyClassifySlot, 0)
  }

  /** What the first release's scan result says about each slot it returned. */
  lemma LegacyScanRecords(dev: Device)
    ensures var s := ScanFrom(dev, LegacyUnit, LegacyClassifySlot, 0);
      s.result.Success? ==>
        forall j :: 0 <= j < |s.result.value| ==>
          && dev(SlotRequest(j, LegacyUnit)).Response?
          && LegacyUnpack(SlotPayload(dev(SlotRequest(j, LegacyUnit)).encoded)) == Success(s.result.value[j])
          && s.result.value[j].serialNumber != NullMicroinverter
  {
    var s := ScanFrom(dev, LegacyUnit, LegacyClassifySlot, 0);
    if s.result.Success? {
      forall j | 0 <= j < |s.result.value|
        ensures dev(SlotRequest(j, LegacyUnit)).Response?
        ensures LegacyUnpack(SlotPayload(dev(SlotRequest(j, LegacyUnit)).encoded)) == Success(s.result.value[j])
        ensures s.result.value[j].serialNumber != NullMicroinverter
      {
        assert Outcome(dev, LegacyUnit, LegacyClassifySlot, j) == Found(s.result.value[j]);
      }
    }
  }

  /** Wherever the current release accepts a slot, the first release accepts it too and
      decodes the corresponding record; where the current release sees the end of the
      list, so does the first. */
  lemma ClassifyAgrees(i: nat, reply: Reply)
    ensures ClassifySlot(i, reply).Found? ==>
      && LegacyClassifySlot(i, reply).Found?
      && Corresponds(LegacyClassifySlot(i, reply).record, ClassifySlot(i, reply).record)
    ensures ClassifySlot(i, reply).EndOfList? ==> LegacyClassifySlot(i, reply).EndOfList?
  {
    if reply.Response? && |SlotPayload(reply.encoded)| >= FixedLength {
      var payload := SlotPayload(reply.encoded);
      LegacyUnpackAgrees(payload);
      NullSerialsAgree(Unpack(payload).value.serialNumber);
    }
  }

  /** A first-release record and a current record of the same block. */
  predicate Matches(legacy: LegacyInverterData, current: InverterData) {
    IsSerial(current.serialNumber) && Corresponds(legacy, current)
  }

  /** Pairwise correspondence between a first-release and a current inverter list. */
  predicate AllCorrespond(legacy: seq<LegacyInverterData>, current: seq<InverterData>) {
    && |legacy| == |current|
    && forall j :: 0 <= j < |current| ==> Matches(legacy[j], current[j])
  }

  /** Whenever the current release lists the inverters, the first release lists the
      same inverters, slot for slot, and asks the device the same questions. */
  lemma LegacyScanAgrees(dev: Device)
    ensures var cur := MicroinverterData(dev, LegacyUnit);
            var leg := LegacyMicroinverterData(dev);
            cur.result.Success? ==>
              && leg.requests == cur.requests
              && leg.result.Success?
              && AllCorrespond(leg.result.value, cur.result.value)
  {
    if MicroinverterData(dev, LegacyUnit).result.Failure? {
      return;
    }
    forall k | 0 <= k < MaxInverterCount && Outcome(dev, LegacyUnit, ClassifySlot, k).Found?
      ensures Outcome(dev, LegacyUnit, LegacyClassifySlot, k).Found?
      ensures Matches(Outcome(dev, LegacyUnit, LegacyClassifySlot, k).record, Outcome(dev, LegacyUnit, ClassifySlot, k).record)
    {
      ClassifyAgrees(k, dev(SlotRequest(k, LegacyUnit)));
    }
    forall k | 0 <= k < MaxInverterCount && Outcome(dev, LegacyUnit, ClassifySlot, k).EndOfList?
      ensures Outcome(dev, LegacyUnit, LegacyClassifySlot, k).EndOfList?
    {
      ClassifyAgrees(k, dev(SlotRequest(k, LegacyUnit)));
    }
    ScanSimulation(dev, LegacyUnit, ClassifySlot, LegacyClassifySlot, Matches, 0);
  }

  /** The first release decodes an error response as if it were register data, where
      the current release refuses it. */
  lemma LegacyIgnoresErrorFlag(i: nat, encoded: Bytes)
    requires |SlotPayload(encoded)| >= FixedLength
    requires LegacyUnpack(SlotPayload(encoded)).value.serialNumber != NullMicroinverter
    ensures ClassifySlot(i, Response(true, encoded)) == Abort(ErrorResponse)
    ensures LegacyClassifySlot(i, Response(true, encoded)).Found?
  {
  }

  /** An empty first slot: the current release reports "not mapped yet", the first
      release fails while decoding. */
  lemma EmptyFirstSlotDiffers(dev: Device)
    requires dev(SlotRequest(0, LegacyUnit)).Response? && !dev(SlotRequest(0, LegacyUnit)).isError
    requires |dev(SlotRequest(0, LegacyUnit)).encoded| <= 1
    ensures MicroinverterData(dev, LegacyUnit).result == Failure(NotMappedYet)
    ensures LegacyMicroinverterData(dev).result == Failure(InsufficientBytes)
  {
  }

  /** `dtu` of the first release: the cache is the empty bytes value until a read
      succeeds; the response is decoded whether or not it is an error response. */
  function LegacyReadDtu(cache: Bytes, dev: Device): (d: DtuRead<Bytes>)
    ensures cache != [] ==> d == DtuRead([], Success(cache), cache)
    ensures cache == [] ==> d.requests == [DtuRequest(LegacyUnit)]
    ensures cache == [] ==>
      (d.result.Success? <==>
        dev(DtuRequest(LegacyUnit)).Response? && |dev(DtuRequest(LegacyUnit)).encoded| == 1 + SerialBytes)
    ensures cache == [] && d.result.Success? ==>
      d.result.value == HexlifyBytes(dev(DtuRequest(LegacyUnit)).encoded[1..])
    ensures d.result.Success? ==> d.cache == d.result.value
    ensures cache == [] && d.result.Success? ==> |d.cache| == 2 * SerialBytes
    ensures d.result.Failure? ==> d.cache == cache
    ensures cache == [] && dev(DtuRequest(LegacyUnit)) == TransportFailure ==> d.result == Failure(TransportFault)
    ensures cache == [] && dev(DtuRequest(LegacyUnit)).Response? ==>
      && (|dev(DtuRequest(LegacyUnit)).encoded| < 1 + SerialBytes ==> d.result == Failure(InsufficientBytes))
      && (|dev(DtuRequest(LegacyUnit)).encoded| > 1 + SerialBytes ==> d.result == Failure(ExcessBytes))
  {
    if cache != [] then DtuRead([], Success(cache), cache)
    else
      var request := DtuRequest(LegacyUnit);
      match dev(request)
      case TransportFailure => DtuRead([request], Failure(TransportFault), cache)
      case Response(_, encoded) =>
        match LegacyUnpackSerial(Drop(encoded, 1))
        case Failure(fault) => DtuRead([request], Failure(fault), cache)
        case Success(serial) => DtuRead([request], Success(serial), serial)
  }

  /** A first read that succeeds in the current release succeeds in the first release
      with the ASCII encoding of the same serial. */
  lemma LegacyDtuAgrees(dev: Device)
    requires ReadDtu("", dev, LegacyUnit).result.Success?
    ensures LegacyReadDtu([], dev).result == Success(Ascii(ReadDtu("", dev, LegacyUnit).result.value))
  {
    LegacyUnpackSerialAgrees(Drop(dev(DtuRequest(LegacyUnit)).encoded, 1));
  }

  /** Lists that agree on every reading the fold looks at give the same sums and flag. */
  lemma {:induction false} SumsAgree<S, T>(a: seq<Inverter<S>>, b: seq<Inverter<T>>)
    requires |a| == |b|
    requires forall j :: 0 <= j < |a| ==> SameReadings(a[j], b[j])
    ensures PowerSum(LinkedOnly(a)) == PowerSum(LinkedOnly(b))
    ensures TodaySum(LinkedOnly(a)) == TodaySum(LinkedOnly(b))
    ensures TotalSum(LinkedOnly(a)) == TotalSum(LinkedOnly(b))
    ensures AnyLinkedAlarm(a) <==> AnyLinkedAlarm(b)
  {
    if |a| > 0 {
      SumsAgree(a[1..], b[1..]);
      if AnyLinkedAlarm(a) {
        var k :| 0 <= k < |a| && IsLinked(a[k]) && a[k].alarmCode != 0;
        assert SameReadings(a[k], b[k]);
      }
      if AnyLinkedAlarm(b) {
        var k :| 0 <= k < |b| && IsLinked(b[k]) && b[k].alarmCode != 0;
        assert SameReadings(a[k], b[k]);
      }
    }
  }

  /** `plant_data` of the first release: scan, then the DTU serial, then the same fold. */
  function LegacyReadPlant(cache: Bytes, dev: Device): (p: PlantRead<Bytes>)
    ensures p.result.Success? ==>
      var plant := p.result.value;
      && LegacyMicroinverterData(dev).result == Success(plant.inverters)
      && LegacyReadDtu(cache, dev).result == Success(plant.dtu)
      && plant.todayProduction == TodaySum(LinkedOnly(plant.inverters))
      && plant.totalProduction == TotalSum(LinkedOnly(plant.inverters))
      && plant.pvPower == PowerSum(LinkedOnly(plant.inverters))
      && (plant.alarmFlag <==> AnyLinkedAlarm(plant.inverters))
    ensures p.result.Success? <==> LegacyMicroinverterData(dev).result.Success? && LegacyReadDtu(cache, dev).result.Success?
    ensures LegacyMicroinverterData(dev).result.Failure? ==>
      && p.requests == LegacyMicroinverterData(dev).requests
      && p.result == LegacyMicroinverterData(dev).result.PropagateFailure() && p.cache == cache
    ensures LegacyMicroinverterData(dev).result.Success? ==>
      && p.requests == LegacyMicroinverterData(dev).requests + LegacyReadDtu(cache, dev).requests
      && p.cache == LegacyReadDtu(cache, dev).cache
    ensures LegacyMicroinverterData(dev).result.Success? && LegacyReadDtu(cache, dev).result.Failure? ==>
      p.result == Failure(LegacyReadDtu(cache, dev).result.error)
  {
    var scan := LegacyMicroinverterData(dev);
    match scan.result
    case Failure(fault) => PlantRead(scan.requests, Failure(fault), cache)
    case Success(inverters) =>
      var d := LegacyReadDtu(cache, dev);
      match d.result
      case Failure(fault) => PlantRead(scan.requests + d.requests, Failure(fault), d.cache)
      case Success(dtu) => PlantRead(scan.requests + d.requests, Success(PlantData(dtu, inverters)), d.cache)
  }

  /** From a fresh client, whenever the current release produces a plant summary with
      unit id 1, the first release produces the same totals, the same alarm flag, the
      ASCII form of the same DTU serial and a corresponding inverter list. */
  lemma LegacyPlantAgrees(dev: Device)
    ensures var cur := ReadPlant("", dev, LegacyUnit);
            var leg := LegacyReadPlant([], dev);
            cur.result.Success? ==>
              && IsSerial(cur.result.value.dtu)
              && leg.requests == cur.requests
              && leg.result.Success?
              && leg.result.value.dtu == Ascii(cur.result.value.dtu)
              && AllCorrespond(leg.result.value.inverters, cur.result.value.inverters)
              && leg.result.value.pvPower == cur.result.value.pvPower
              && leg.result.value.todayProduction == cur.result.value.todayProduction
              && leg.result.value.totalProduction == cur.result.value.totalProduction
              && leg.result.value.alarmFlag == cur.result.value.alarmFlag
  {
    var cur := ReadPlant("", dev, LegacyUnit);
    var leg := LegacyReadPlant([], dev);
    if cur.result.Failure? {
      return;
    }
    LegacyScanAgrees(dev);
    LegacyDtuAgrees(dev);
    var curInvs := MicroinverterData(dev, LegacyUnit).result.value;
    var legInvs := LegacyMicroinverterData(dev).result.value;
    assert cur.result.value.inverters == curInvs;
    assert leg.result.value.inverters == legInvs;
    assert forall j :: 0 <= j < |legInvs| ==> SameReadings(legInvs[j], curInvs[j]) by {
      forall j | 0 <= j < |legInvs|
        ensures SameReadings(legInvs[j], curInvs[j])
      {
        assert Matches(legInvs[j], curInvs[j]);
      }
    }
    SumsAgree(legInvs, curInvs);
  }

  /** The first release's client object: host, port and the bytes DTU serial cache. */
  class LegacyHoymilesModbusTcp {
    const host: string
    const port: nat
    var dtuSerialNumber: Bytes

    constructor(host: string, port: nat := 502)
      ensures this.host == host && this.port == port
      ensures dtuSerialNumber == []
    {
      this.host := host;
      this.port := port;
      dtuSerialNumber := [];
    }

    method Dtu(dev: Device) returns (r: Result<Bytes>)
      modifies this
      ensures var d := LegacyReadDtu(old(dtuSerialNumber), dev); r == d.result && dtuSerialNumber == d.cache
    {
      var d := LegacyReadDtu(dtuSerialNumber, dev);
      dtuSerialNumber := d.cache;
      r := d.result;
    }

    method PlantData(dev: Device) returns (r: Result<Plant<Bytes>>)
      modifies this
      ensures var p := LegacyReadPlant(old(dtuSerialNumber), dev); r == p.result && dtuSerialNumber == p.cache
    {
      var p := LegacyReadPlant(dtuSerialNumber, dev);
      dtuSerialNumber := p.cache;
      r := p.result;
    }
  }
}

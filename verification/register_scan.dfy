/** The transport as the client sees it, and the bounded slot-by-slot scan of the
    inverter register blocks that both releases perform. */
module RegisterScan {
  import opened Bytes
  import opened Faults

  /** A "read holding registers" request: start address, register count, unit id. */
  datatype Request = ReadHoldingRegisters(address: nat, count: nat, unit: nat)

  /** What a read yields: a response, which may carry the Modbus error flag, together
      with its encoding (byte count first, then the register bytes); or a failure the
      transport raises. */
  datatype Reply = Response(isError: bool, encoded: Bytes) | TransportFailure

  /** The device behind the transport, answering each request. */
  type Device = Request -> Reply

  /** Number of inverter slots in the register map. */
  const MaxInverterCount := 100
  /** Address of slot 0. */
  const InverterBaseAddress := 0x1000
  /** Registers per slot: 20 registers, 40 bytes. */
  const InverterRegisters := 20
  /** Address distance between consecutive slots. */
  const InverterStride := 40

  /** The read of slot `i`. */
  function SlotRequest(i: nat, unit: nat): Request {
    ReadHoldingRegisters(i * InverterStride + InverterBaseAddress, InverterRegisters, unit)
  }

  /** What one slot's reply means to the scan. */
  datatype SlotOutcome<R> = Found(record: R) | EndOfList | Abort(fault: Fault)

  /** A scan: the requests issued, in order, and the inverters found or the fault that
      ended it. */
  datatype Scan<R> = Scan(requests: seq<Request>, result: Result<seq<R>>)

  /** How slot `k` turns out when the device is asked for it. */
  function Outcome<R>(dev: Device, unit: nat, classify: (nat, Reply) -> SlotOutcome<R>, k: nat): SlotOutcome<R> {
    classify(k, dev(SlotRequest(k, unit)))
  }

  /** The loop from slot `i` on: read the slot, abort on a fault, stop without appending
      at the end-of-list marker, otherwise append and go on, up to slot 99. */
  function ScanFrom<R>(dev: Device, unit: nat, classify: (nat, Reply) -> SlotOutcome<R>, i: nat): (s: Scan<R>)
    requires i <= MaxInverterCount
    decreases MaxInverterCount - i
    ensures |s.requests| <= MaxInverterCount - i
    ensures forall j :: 0 <= j < |s.requests| ==> s.requests[j] == SlotRequest(i + j, unit)
    ensures forall k :: i <= k < i + |s.requests| - 1 ==> Outcome(dev, unit, classify, k).Found?
    ensures s.result.Success? ==>
      && |s.result.value| <= |s.requests|
      && (forall j :: 0 <= j < |s.result.value| ==> Outcome(dev, unit, classify, i + j) == Found(s.result.value[j]))
      && ((|s.result.value| == |s.requests| == MaxInverterCount - i)
          || (|s.requests| == |s.result.value| + 1 && Outcome(dev, unit, classify, i + |s.result.value|) == EndOfList))
    ensures s.result.Failure? ==>
      |s.requests| >= 1 && Outcome(dev, unit, classify, i + |s.requests| - 1) == Abort(s.result.error)
  {
    if i == MaxInverterCount then Scan([], Success([]))
    else
      var request := SlotRequest(i, unit);
      var outcome := Outcome(dev, unit, classify, i);
      if outcome.Abort? then Scan([request], Failure(outcome.fault))
      else if outcome.EndOfList? then Scan([request], Success([]))
      else
        var rest := ScanFrom(dev, unit, classify, i + 1);
        var requests := [request] + rest.requests;
        assert forall j :: 1 <= j < |requests| ==> requests[j] == rest.requests[j - 1];
        if rest.result.Failure? then Scan(requests, rest.result)
        else
          var found := [outcome.record] + rest.result.value;
          FoundPrepend(dev, unit, classify, i, outcome.record, rest.result.value);
          Scan(requests, Success(found))
  }

  /** Records found from slot `i + 1` on, preceded by the record found at slot `i`, are
      the records found from slot `i` on. */
  lemma FoundPrepend<R>(dev: Device, unit: nat, classify: (nat, Reply) -> SlotOutcome<R>, i: nat, record: R, records: seq<R>)
    requires Outcome(dev, unit, classify, i) == Found(record)
    requires forall j :: 0 <= j < |records| ==> Outcome(dev, unit, classify, i + 1 + j) == Found(records[j])
    ensures forall j :: 0 <= j < |[record] + records| ==> Outcome(dev, unit, classify, i + j) == Found(([record] + records)[j])
  {
    forall j | 0 <= j < |[record] + records|
      ensures Outcome(dev, unit, classify, i + j) == Found(([record] + records)[j])
    {
      if j > 0 {
        assert ([record] + records)[j] == records[j - 1];
        assert i + j == i + 1 + (j - 1);
      }
    }
  }

  /** How a scan from slot 0 ended: every slot before the last one read held an inverter;
      a success either read all 100 slots or stopped just past the end-of-list slot; a
      failure reports the fault of the last slot it read. */
  predicate EndsProperly<R>(dev: Device, unit: nat, classify: (nat, Reply) -> SlotOutcome<R>, s: Scan<R>) {
    && (forall k :: 0 <= k < |s.requests| - 1 ==> Outcome(dev, unit, classify, k).Found?)
    && (s.result.Success? ==>
        || |s.requests| == |s.result.value| == MaxInverterCount
        || (|s.requests| == |s.result.value| + 1 && Outcome(dev, unit, classify, |s.result.value|) == EndOfList))
    && (s.result.Failure? ==>
        |s.requests| >= 1 && Outcome(dev, unit, classify, |s.requests| - 1) == Abort(s.result.error))
  }

  lemma ScanFromStartEnds<R>(dev: Device, unit: nat, classify: (nat, Reply) -> SlotOutcome<R>)
    ensures EndsProperly(dev, unit, classify, ScanFrom(dev, unit, classify, 0))
  {
    var s := ScanFrom(dev, unit, classify, 0);
    forall k | 0 <= k < |s.requests| - 1
      ensures Outcome(dev, unit, classify, k).Found?
    {
    }
    if s.result.Success? {
      assert |s.result.value| == |s.requests| == MaxInverterCount
        || Outcome(dev, unit, classify, 0 + |s.result.value|) == EndOfList;
    } else {
      assert Outcome(dev, unit, classify, 0 + |s.requests| - 1) == Abort(s.result.error);
    }
  }

  /** From slot `i`: slots i..i+n-1 hold the n given inverters and the next slot the
      end-of-list marker, so exactly those inverters come back, in slot order, after
      n + 1 reads. */
  lemma {:induction false} ScanStopsAtEndOfList<R>(dev: Device, unit: nat, classify: (nat, Reply) -> SlotOutcome<R>,
                                                   i: nat, records: seq<R>)
    requires i + |records| < MaxInverterCount
    requires forall j :: 0 <= j < |records| ==> Outcome(dev, unit, classify, i + j) == Found(records[j])
    requires Outcome(dev, unit, classify, i + |records|) == EndOfList
    ensures ScanFrom(dev, unit, classify, i).result == Success(records)
    ensures |ScanFrom(dev, unit, classify, i).requests| == |records| + 1
    decreases |records|
  {
    if |records| > 0 {
      var tail := records[1..];
      FoundShift(dev, unit, classify, i, records);
      ScanStopsAtEndOfList(dev, unit, classify, i + 1, tail);
      ScanFoundStep(dev, unit, classify, i);
      assert records == [records[0]] + tail;
    } else {
      assert Outcome(dev, unit, classify, i) == EndOfList;
    }
  }

  /** From slot `i`: slots i..i+n-1 hold inverters and the next slot aborts, so the scan
      fails with that fault, returns no partial list, and reads nothing after it. */
  lemma {:induction false} ScanAbortsWholeCall<R>(dev: Device, unit: nat, classify: (nat, Reply) -> SlotOutcome<R>,
                                                  i: nat, n: nat, fault: Fault)
    requires i + n < MaxInverterCount
    requires forall k :: i <= k < i + n ==> Outcome(dev, unit, classify, k).Found?
    requires Outcome(dev, unit, classify, i + n) == Abort(fault)
    ensures ScanFrom(dev, unit, classify, i).result == Failure(fault)
    ensures |ScanFrom(dev, unit, classify, i).requests| == n + 1
    decreases n
  {
    if n > 0 {
      assert Outcome(dev, unit, classify, i).Found?;
      ScanAbortsWholeCall(dev, unit, classify, i + 1, n - 1, fault);
    }
  }

  /** From slot `i`: every slot up to the last one holds an inverter, so all of them
      come back, in slot order, after one read per slot. */
  lemma {:induction false} ScanRunsToBound<R>(dev: Device, unit: nat, classify: (nat, Reply) -> SlotOutcome<R>,
                                              i: nat, records: seq<R>)
    requires i + |records| == MaxInverterCount
    requires forall j :: 0 <= j < |records| ==> Outcome(dev, unit, classify, i + j) == Found(records[j])
    ensures ScanFrom(dev, unit, classify, i).result == Success(records)
    ensures |ScanFrom(dev, unit, classify, i).requests| == |records|
    decreases |records|
  {
    if |records| > 0 {
      var tail := records[1..];
      FoundShift(dev, unit, classify, i, records);
      ScanRunsToBound(dev, unit, classify, i + 1, tail);
      ScanFoundStep(dev, unit, classify, i);
      assert records == [records[0]] + tail;
    }
  }

  /** Two classifiers where every inverter slot of the first is an inverter slot of the
      second with related records, and every end-of-list slot of the first is one of the
      second: from slot `i`, whenever the first scan succeeds the second issues the same
      requests and succeeds with a list related slot by slot. */
  lemma {:induction false} ScanSimulation<R, T>(dev: Device, unit: nat, c1: (nat, Reply) -> SlotOutcome<R>,
                                                c2: (nat, Reply) -> SlotOutcome<T>, rel: (T, R) -> bool, i: nat)
    requires i <= MaxInverterCount
    requires forall k :: i <= k < MaxInverterCount && Outcome(dev, unit, c1, k).Found? ==>
      && Outcome(dev, unit, c2, k).Found?
      && rel(Outcome(dev, unit, c2, k).record, Outcome(dev, unit, c1, k).record)
    requires forall k :: i <= k < MaxInverterCount && Outcome(dev, unit, c1, k).EndOfList? ==>
      Outcome(dev, unit, c2, k).EndOfList?
    requires ScanFrom(dev, unit, c1, i).result.Success?
    ensures Simulates(dev, unit, c1, c2, rel, i)
    decreases MaxInverterCount - i
  {
    if i < MaxInverterCount && Outcome(dev, unit, c1, i).Found? {
      ScanFoundStep(dev, unit, c1, i);
      ScanSimulation(dev, unit, c1, c2, rel, i + 1);
      SimulationStep(dev, unit, c1, c2, rel, i);
    }
  }

  /** The conclusion of `ScanSimulation` at slot `i`: the second scan issues the same
      requests and succeeds with a list related slot by slot to the first's. */
  predicate Simulates<R, T>(dev: Device, unit: nat, c1: (nat, Reply) -> SlotOutcome<R>,
                            c2: (nat, Reply) -> SlotOutcome<T>, rel: (T, R) -> bool, i: nat)
    requires i <= MaxInverterCount
    requires ScanFrom(dev, unit, c1, i).result.Success?
  {
    var s1 := ScanFrom(dev, unit, c1, i);
    var s2 := ScanFrom(dev, unit, c2, i);
    && s2.requests == s1.requests
    && s2.result.Success?
    && |s2.result.value| == |s1.result.value|
    && forall j :: 0 <= j < |s1.result.value| ==> rel(s2.result.value[j], s1.result.value[j])
  }

  /** One inverter slot related in both scans extends the relation from slot `i + 1` to
      slot `i`. */
  lemma SimulationStep<R, T>(dev: Device, unit: nat, c1: (nat, Reply) -> SlotOutcome<R>,
                             c2: (nat, Reply) -> SlotOutcome<T>, rel: (T, R) -> bool, i: nat)
    requires i < MaxInverterCount
    requires Outcome(dev, unit, c1, i).Found? && Outcome(dev, unit, c2, i).Found?
    requires rel(Outcome(dev, unit, c2, i).record, Outcome(dev, unit, c1, i).record)
    requires ScanFrom(dev, unit, c1, i + 1).result.Success?
    requires Simulates(dev, unit, c1, c2, rel, i + 1)
    ensures ScanFrom(dev, unit, c1, i).result.Success?
    ensures Simulates(dev, unit, c1, c2, rel, i)
  {
    ScanFoundStep(dev, unit, c1, i);
    ScanFoundStep(dev, unit, c2, i);
    var r1 := ScanFrom(dev, unit, c1, i + 1);
    var r2 := ScanFrom(dev, unit, c2, i + 1);
    RelatedPrepend(Outcome(dev, unit, c2, i).record, Outcome(dev, unit, c1, i).record,
                   r2.result.value, r1.result.value, rel);
  }

  /** Slots i, i+1, ... holding `records` means slots i+1, ... hold its tail. */
  lemma FoundShift<R>(dev: Device, unit: nat, classify: (nat, Reply) -> SlotOutcome<R>, i: nat, records: seq<R>)
    requires |records| > 0
    requires forall j :: 0 <= j < |records| ==> Outcome(dev, unit, classify, i + j) == Found(records[j])
    ensures Outcome(dev, unit, classify, i) == Found(records[0])
    ensures forall j :: 0 <= j < |records| - 1 ==> Outcome(dev, unit, classify, i + 1 + j) == Found(records[1..][j])
  {
    assert Outcome(dev, unit, classify, i + 0) == Found(records[0]);
    forall j | 0 <= j < |records| - 1
      ensures Outcome(dev, unit, classify, i + 1 + j) == Found(records[1..][j])
    {
      assert Outcome(dev, unit, classify, i + (j + 1)) == Found(records[j + 1]);
    }
  }

  /** A slot holding an inverter contributes one request and, when the rest of the scan
      succeeds, its record at the head of the list. */
  lemma ScanFoundStep<R>(dev: Device, unit: nat, classify: (nat, Reply) -> SlotOutcome<R>, i: nat)
    requires i < MaxInverterCount && Outcome(dev, unit, classify, i).Found?
    ensures var rest := ScanFrom(dev, unit, classify, i + 1);
            ScanFrom(dev, unit, classify, i) ==
              Scan([SlotRequest(i, unit)] + rest.requests,
                   if rest.result.Success? then Success([Outcome(dev, unit, classify, i).record] + rest.result.value)
                   else rest.result)
  {
  }

  /** Relating two lists element by element survives adding a related head to each. */
  lemma RelatedPrepend<R, T>(x2: T, x1: R, l2: seq<T>, l1: seq<R>, rel: (T, R) -> bool)
    requires rel(x2, x1) && |l2| == |l1|
    requires forall j :: 0 <= j < |l1| ==> rel(l2[j], l1[j])
    ensures forall j :: 0 <= j < |l1| + 1 ==> rel(([x2] + l2)[j], ([x1] + l1)[j])
  {
    forall j | 0 <= j < |l1| + 1
      ensures rel(([x2] + l2)[j], ([x1] + l1)[j])
    {
      if j > 0 {
        assert ([x2] + l2)[j] == l2[j - 1] && ([x1] + l1)[j] == l1[j - 1];
      }
    }
  }

  /** Slot addresses stay inside the inverter block area, below the DTU identity at 0x2000. */
  lemma SlotAddressesBelowDtu(i: nat, unit: nat)
    requires i < MaxInverterCount
    ensures InverterBaseAddress <= SlotRequest(i, unit).address
    ensures SlotRequest(i, unit).address + InverterRegisters <= 0x2000
  {
  }
}

/** The register-block layouts of the current release: the inverter status record,
    its serial-number and fixed-point field types, and the plant summary record. */
module Datatypes {
  import opened Bytes
  import opened Hex
  import opened Faults

  // ---------------------------------------------------------------------------
  // Exact fixed-point decimals

  /** 10 to the power `p`, exactly. */
  function Scale(p: nat): (r: real)
    ensures r >= 1.0
  {
    if p == 0 then 1.0 else 10.0 * Scale(p - 1)
  }

  /** A `DecimalX` field's value: the stored integer divided by 10 to the precision,
      with no rounding (Python `Decimal` is exact at these magnitudes). */
  function Decimal(raw: int, precision: nat): real {
    raw as real / Scale(precision)
  }

  /** The integer a decimal is stored as at the given precision (rounded down when the
      value is not on the grid). */
  function Units(x: real, precision: nat): int {
    (x * Scale(precision)).Floor
  }

  /** The stored integer is recovered from a decoded decimal. */
  lemma UnitsOfDecimal(raw: int, precision: nat)
    ensures Units(Decimal(raw, precision), precision) == raw
  {
    var s := Scale(precision);
    assert raw as real / s * s == raw as real;
  }

  /** `x` is a value an unsigned 16-bit field of the given precision can hold. */
  predicate IsUdec16(x: real, precision: nat) {
    0 <= Units(x, precision) < 0x1_0000 && Decimal(Units(x, precision), precision) == x
  }

  /** `x` is a value a signed 16-bit field of the given precision can hold. */
  predicate IsSdec16(x: real, precision: nat) {
    -0x8000 <= Units(x, precision) < 0x8000 && Decimal(Units(x, precision), precision) == x
  }

  /** `_udec16p1`, `_udec16p2`: a big-endian unsigned 16-bit integer scaled down. */
  function Udec16(field: Bytes, precision: nat): (x: real)
    requires |field| == 2
    ensures IsUdec16(x, precision) && Units(x, precision) == BeUint(field)
  {
    UnitsOfDecimal(BeUint(field), precision);
    Decimal(BeUint(field), precision)
  }

  /** `_sdec16p1`: a big-endian two's-complement 16-bit integer scaled down. */
  function Sdec16(field: Bytes, precision: nat): (x: real)
    requires |field| == 2
    ensures IsSdec16(x, precision) && Units(x, precision) == ToInt16(BeUint(field))
  {
    UnitsOfDecimal(ToInt16(BeUint(field)), precision);
    Decimal(ToInt16(BeUint(field)), precision)
  }

  /** Unsigned decimals lie between 0 and 65535 / 10^p; signed ones between -32768 / 10^p
      and 32767 / 10^p. */
  lemma DecimalRanges(x: real)
    ensures IsUdec16(x, 1) ==> 0.0 <= x <= 6553.5
    ensures IsUdec16(x, 2) ==> 0.0 <= x <= 655.35
    ensures IsSdec16(x, 1) ==> -3276.8 <= x <= 3276.7
  {
  }

  /** The raw words 0x0228 and 0x0002 decode to exactly 55.2 at precision 1 and 0.02 at precision 2. */
  lemma DecimalExamples()
    ensures Udec16([0x02, 0x28], 1) == 55.2
    ensures Udec16([0x00, 0x02], 2) == 0.02
    ensures Udec16([0x00, 0x02], 1) == 0.2
  {
    assert Scale(1) == 10.0 && Scale(2) == 100.0;
    var a: Bytes, b: Bytes := [0x02, 0x28], [0x00, 0x02];
    assert BeUint(a) == 552 by {
      assert a[..1] == [0x02] && a[..1][..0] == [];
    }
    assert BeUint(b) == 2 by {
      assert b[..1] == [0x00] && b[..1][..0] == [];
    }
  }

  // ---------------------------------------------------------------------------
  // Serial numbers

  /** Raw serial-number width in bytes. */
  const SerialBytes := 6

  /** The serial number of an unmapped inverter slot. */
  const NullInverter := "000000000000"

  /** What a decoded serial number always looks like: 12 lowercase hex digits. */
  predicate IsSerial(s: string) {
    |s| == 2 * SerialBytes && IsLowerHex(s)
  }

  /** The serial-number type on its own buffer (the DTU read): exactly 6 bytes are
      hex-encoded; a shorter buffer runs out, a longer one leaves bytes over. */
  function UnpackSerial(buf: Bytes): (r: Result<string>)
    ensures r.Success? <==> |buf| == SerialBytes
    ensures |buf| < SerialBytes ==> r == Failure(InsufficientBytes)
    ensures |buf| > SerialBytes ==> r == Failure(ExcessBytes)
    ensures r.Success? ==> IsSerial(r.value) && Unhexlify(r.value) == Some(buf)
  {
    if |buf| < SerialBytes then Failure(InsufficientBytes)
    else if |buf| > SerialBytes then Failure(ExcessBytes)
    else
      UnhexlifyHexlify(buf);
      Success(Hexlify(buf))
  }

  /** The 6 raw bytes behind a serial number. */
  function SerialToBytes(s: string): (b: Bytes)
    requires IsSerial(s)
    ensures |b| == SerialBytes && Hexlify(b) == s
  {
    HexlifyUnhexlify(s);
    Unhexlify(s).value
  }

  /** Precision of `pv_current`: 1 (tenths, MI series) for serials starting "10",
      2 (hundredths, HM series) for every other serial, the all-zero one included. */
  function PvCurrentPrecision(serial: string): (p: nat)
    ensures p == 1 <==> StartsWith10(serial)
    ensures p == 1 || p == 2
  {
    if StartsWith10(serial) then 1 else 2
  }

  /** The precision is chosen by the first raw serial byte: 0x10 selects tenths. */
  lemma PvCurrentPrecisionOfBytes(b: Bytes)
    requires |b| == SerialBytes
    ensures PvCurrentPrecision(Hexlify(b)) == (if b[0] == 0x10 then 1 else 2)
  {
    StartsWith10Hexlify(b);
  }

  // ---------------------------------------------------------------------------
  // Inverter status record

  /** One inverter's status block, generic in how the serial number is represented
      (text here, ASCII bytes in the first release). */
  datatype Inverter<Serial> = Inverter(
    dataType: Byte,
    serialNumber: Serial,
    portNumber: Byte,
    pvVoltage: real,       // V
    pvCurrent: real,       // A
    gridVoltage: real,     // V
    gridFrequency: real,   // Hz
    pvPower: real,         // W
    todayProduction: Uint16,  // Wh
    totalProduction: Uint32,  // Wh
    temperature: real,     // degrees C
    operatingStatus: Uint16,
    alarmCode: Uint16,
    alarmCount: Uint16,
    linkStatus: Byte,
    reserved: Bytes)

  type InverterData = Inverter<string>

  /** Bytes taken by the fields before `reserved`; `reserved` takes whatever follows. */
  const FixedLength := 33

  /** Every field holds a value its wire type can carry. */
  predicate WellFormed(rec: InverterData) {
    && IsSerial(rec.serialNumber)
    && IsUdec16(rec.pvVoltage, 1)
    && IsUdec16(rec.pvCurrent, PvCurrentPrecision(rec.serialNumber))
    && IsUdec16(rec.gridVoltage, 1)
    && IsUdec16(rec.gridFrequency, 2)
    && IsUdec16(rec.pvPower, 1)
    && IsSdec16(rec.temperature, 1)
  }

  /** `InverterData.unpack`: the big-endian layout at fixed offsets, `reserved` greedy. */
  function Unpack(buf: Bytes): (r: Result<InverterData>)
    ensures r.Success? <==> |buf| >= FixedLength
    ensures r.Failure? ==> r.error == InsufficientBytes
    ensures r.Success? ==> WellFormed(r.value) && r.value.reserved == buf[FixedLength..]
  {
    if |buf| < FixedLength then Failure(InsufficientBytes)
    else
      var serial := Hexlify(buf[1..7]);
      Success(Inverter(
        dataType := buf[0],
        serialNumber := serial,
        portNumber := buf[7],
        pvVoltage := Udec16(buf[8..10], 1),
        pvCurrent := Udec16(buf[10..12], PvCurrentPrecision(serial)),
        gridVoltage := Udec16(buf[12..14], 1),
        gridFrequency := Udec16(buf[14..16], 2),
        pvPower := Udec16(buf[16..18], 1),
        todayProduction := BeUint(buf[18..20]),
        totalProduction := BeUint(buf[20..24]),
        temperature := Sdec16(buf[24..26], 1),
        operatingStatus := BeUint(buf[26..28]),
        alarmCode := BeUint(buf[28..30]),
        alarmCount := BeUint(buf[30..32]),
        linkStatus := buf[32],
        reserved := buf[FixedLength..]))
  }

  /** The encoder the library lacks (its serial type refuses to pack): lays a
      well-formed record out in the block format. */
  function Pack(rec: InverterData): (buf: Bytes)
    requires WellFormed(rec)
    ensures |buf| == FixedLength + |rec.reserved|
  {
    [rec.dataType]
    + SerialToBytes(rec.serialNumber)
    + [rec.portNumber]
    + BeBytes(Units(rec.pvVoltage, 1), 2)
    + BeBytes(Units(rec.pvCurrent, PvCurrentPrecision(rec.serialNumber)), 2)
    + BeBytes(Units(rec.gridVoltage, 1), 2)
    + BeBytes(Units(rec.gridFrequency, 2), 2)
    + BeBytes(Units(rec.pvPower, 1), 2)
    + BeBytes(rec.todayProduction, 2)
    + BeBytes(rec.totalProduction, 4)
    + BeBytes(FromInt16(Units(rec.temperature, 1)), 2)
    + BeBytes(rec.operatingStatus, 2)
    + BeBytes(rec.alarmCode, 2)
    + BeBytes(rec.alarmCount, 2)
    + [rec.linkStatus]
    + rec.reserved
  }

  // ---------------------------------------------------------------------------
  // Plant summary record

  /** Data for the whole plant; generic in the serial representation like `Inverter`. */
  datatype Plant<Serial> = Plant(
    dtu: Serial,
    pvPower: real,          // W
    todayProduction: int,   // Wh
    totalProduction: int,   // Wh
    alarmFlag: bool,
    inverters: seq<Inverter<Serial>>)

  /** A summary with the declared defaults: no power, no production, no alarm. */
  function NewPlant<S>(dtu: S, inverters: seq<Inverter<S>>): Plant<S> {
    Plant(dtu, 0.0, 0, 0, false, inverters)
  }

  /** An unsigned decimal written with `BeBytes` and read back with `Udec16` is unchanged. */
  lemma Udec16OfUnits(x: real, precision: nat)
    requires IsUdec16(x, precision)
    ensures Udec16(BeBytes(Units(x, precision), 2), precision) == x
  {
    BeUintOfBeBytes(Units(x, precision), 2);
  }

  /** A signed decimal written as its 16-bit pattern and read back with `Sdec16` is unchanged. */
  lemma Sdec16OfUnits(x: real, precision: nat)
    requires IsSdec16(x, precision)
    ensures Sdec16(BeBytes(FromInt16(Units(x, precision)), 2), precision) == x
  {
    BeUintOfBeBytes(FromInt16(Units(x, precision)), 2);
  }

  /** Where `Pack` puts each field: the offsets and widths the decoder reads. */
  lemma PackLayout(rec: InverterData)
    requires WellFormed(rec)
    ensures var buf := Pack(rec);
            var p := PvCurrentPrecision(rec.serialNumber);
            && buf[1..7] == SerialToBytes(rec.serialNumber)
            && buf[8..10] == BeBytes(Units(rec.pvVoltage, 1), 2)
            && buf[10..12] == BeBytes(Units(rec.pvCurrent, p), 2)
            && buf[12..14] == BeBytes(Units(rec.gridVoltage, 1), 2)
            && buf[14..16] == BeBytes(Units(rec.gridFrequency, 2), 2)
            && buf[16..18] == BeBytes(Units(rec.pvPower, 1), 2)
            && buf[18..20] == BeBytes(rec.todayProduction, 2)
            && buf[20..24] == BeBytes(rec.totalProduction, 4)
            && buf[24..26] == BeBytes(FromInt16(Units(rec.temperature, 1)), 2)
            && buf[26..28] == BeBytes(rec.operatingStatus, 2)
            && buf[28..30] == BeBytes(rec.alarmCode, 2)
            && buf[30..32] == BeBytes(rec.alarmCount, 2)
            && buf[FixedLength..] == rec.reserved
  {
    var p := PvCurrentPrecision(rec.serialNumber);
    var s0 := [rec.dataType] + SerialToBytes(rec.serialNumber) + [rec.portNumber];
    assert s0[1..7] == SerialToBytes(rec.serialNumber);
    var s1 := s0 + BeBytes(Units(rec.pvVoltage, 1), 2) + BeBytes(Units(rec.pvCurrent, p), 2);
    KeepsPrefix(s0, s1, 1, 7);
    var s2 := s1 + BeBytes(Units(rec.gridVoltage, 1), 2) + BeBytes(Units(rec.gridFrequency, 2), 2);
    KeepsPrefix(s1, s2, 1, 7);
    KeepsPrefix(s1, s2, 8, 10);
    KeepsPrefix(s1, s2, 10, 12);
    var s3 := s2 + BeBytes(Units(rec.pvPower, 1), 2) + BeBytes(rec.todayProduction, 2);
    KeepsPrefix(s2, s3, 1, 7);
    KeepsPrefix(s2, s3, 8, 10);
    KeepsPrefix(s2, s3, 10, 12);
    KeepsPrefix(s2, s3, 12, 14);
    KeepsPrefix(s2, s3, 14, 16);
    var s4 := s3 + BeBytes(rec.totalProduction, 4) + BeBytes(FromInt16(Units(rec.temperature, 1)), 2);
    var s5 := s4 + BeBytes(rec.operatingStatus, 2) + BeBytes(rec.alarmCode, 2);
    var s6 := s5 + BeBytes(rec.alarmCount, 2) + [rec.linkStatus];
    KeepsPrefix(s3, s6, 1, 7);
    KeepsPrefix(s3, s6, 8, 10);
    KeepsPrefix(s3, s6, 10, 12);
    KeepsPrefix(s3, s6, 12, 14);
    KeepsPrefix(s3, s6, 14, 16);
    KeepsPrefix(s3, s6, 16, 18);
    KeepsPrefix(s3, s6, 18, 20);
    KeepsPrefix(s4, s6, 20, 24);
    KeepsPrefix(s4, s6, 24, 26);
    KeepsPrefix(s5, s6, 26, 28);
    KeepsPrefix(s5, s6, 28, 30);
    var buf := Pack(rec);
    assert buf == s6 + rec.reserved;
    KeepsPrefix(s6, buf, 1, 7);
    KeepsPrefix(s6, buf, 8, 10);
    KeepsPrefix(s6, buf, 10, 12);
    KeepsPrefix(s6, buf, 12, 14);
    KeepsPrefix(s6, buf, 14, 16);
    KeepsPrefix(s6, buf, 16, 18);
    KeepsPrefix(s6, buf, 18, 20);
    KeepsPrefix(s6, buf, 20, 24);
    KeepsPrefix(s6, buf, 24, 26);
    KeepsPrefix(s6, buf, 26, 28);
    KeepsPrefix(s6, buf, 28, 30);
    KeepsPrefix(s6, buf, 30, 32);
  }

  /** Extending a sequence leaves every slice of its old part unchanged. */
  lemma KeepsPrefix(a: Bytes, b: Bytes, lo: nat, hi: nat)
    requires lo <= hi <= |a| <= |b| && a == b[..|a|]
    ensures b[lo..hi] == a[lo..hi]
  {
  }

  /** Decoding undoes `Pack`: every well-formed record is what its block decodes to. */
  lemma UnpackPack(rec: InverterData)
    requires WellFormed(rec)
    ensures Unpack(Pack(rec)) == Success(rec)
  {
    var p := PvCurrentPrecision(rec.serialNumber);
    PackLayout(rec);
    Udec16OfUnits(rec.pvVoltage, 1);
    Udec16OfUnits(rec.pvCurrent, p);
    Udec16OfUnits(rec.gridVoltage, 1);
    Udec16OfUnits(rec.gridFrequency, 2);
    Udec16OfUnits(rec.pvPower, 1);
    Sdec16OfUnits(rec.temperature, 1);
    BeUintOfBeBytes(rec.todayProduction, 2);
    BeUintOfBeBytes(rec.totalProduction, 4);
    BeUintOfBeBytes(rec.operatingStatus, 2);
    BeUintOfBeBytes(rec.alarmCode, 2);
    BeUintOfBeBytes(rec.alarmCount, 2);
  }

  /** Each field of a decoded block re-encodes to the bytes it was read from. */
  lemma PackFieldsOfUnpack(buf: Bytes)
    requires |buf| >= FixedLength
    ensures var rec := Unpack(buf).value;
            && SerialToBytes(rec.serialNumber) == buf[1..7]
            && BeBytes(Units(rec.pvVoltage, 1), 2) == buf[8..10]
            && BeBytes(Units(rec.pvCurrent, PvCurrentPrecision(rec.serialNumber)), 2) == buf[10..12]
            && BeBytes(Units(rec.gridVoltage, 1), 2) == buf[12..14]
            && BeBytes(Units(rec.gridFrequency, 2), 2) == buf[14..16]
            && BeBytes(Units(rec.pvPower, 1), 2) == buf[16..18]
            && BeBytes(rec.todayProduction, 2) == buf[18..20]
            && BeBytes(rec.totalProduction, 4) == buf[20..24]
            && BeBytes(FromInt16(Units(rec.temperature, 1)), 2) == buf[24..26]
            && BeBytes(rec.operatingStatus, 2) == buf[26..28]
            && BeBytes(rec.alarmCode, 2) == buf[28..30]
            && BeBytes(rec.alarmCount, 2) == buf[30..32]
  {
    var rec := Unpack(buf).value;
    var serial := rec.serialNumber;
    HexlifyInjective(SerialToBytes(serial), buf[1..7]);
    BeBytesOfBeUint(buf[8..10]);
    BeBytesOfBeUint(buf[10..12]);
    BeBytesOfBeUint(buf[12..14]);
    BeBytesOfBeUint(buf[14..16]);
    BeBytesOfBeUint(buf[16..18]);
    BeBytesOfBeUint(buf[18..20]);
    BeBytesOfBeUint(buf[20..24]);
    BeBytesOfBeUint(buf[24..26]);
    FromInt16OfToInt16(BeUint(buf[24..26]));
    BeBytesOfBeUint(buf[26..28]);
    BeBytesOfBeUint(buf[28..30]);
    BeBytesOfBeUint(buf[30..32]);
  }

  /** `Pack` undoes decoding: a block of at least 33 bytes is determined by its record,
      so the decoder loses nothing. */
  lemma PackUnpack(buf: Bytes)
    requires |buf| >= FixedLength
    ensures Pack(Unpack(buf).value) == buf
  {
    PackFieldsOfUnpack(buf);
    // Reassemble the block field by field, left to right, as `Pack` concatenates.
    assert buf[..1] == [buf[0]];
    assert buf[..7] == buf[..1] + buf[1..7];
    assert buf[..8] == buf[..7] + [buf[7]];
    assert buf[..10] == buf[..8] + buf[8..10];
    assert buf[..12] == buf[..10] + buf[10..12];
    assert buf[..14] == buf[..12] + buf[12..14];
    assert buf[..16] == buf[..14] + buf[14..16];
    assert buf[..18] == buf[..16] + buf[16..18];
    assert buf[..20] == buf[..18] + buf[18..20];
    assert buf[..24] == buf[..20] + buf[20..24];
    assert buf[..26] == buf[..24] + buf[24..26];
    assert buf[..28] == buf[..26] + buf[26..28];
    assert buf[..30] == buf[..28] + buf[28..30];
    assert buf[..32] == buf[..30] + buf[30..32];
    assert buf[..FixedLength] == buf[..32] + [buf[32]];
    assert buf == buf[..FixedLength] + buf[FixedLength..];
  }

  /** Decoding is injective: two blocks that decode to the same record are the same block. */
  lemma UnpackInjective(a: Bytes, b: Bytes)
    requires Unpack(a).Success? && Unpack(a) == Unpack(b)
    ensures a == b
  {
    PackUnpack(a);
    PackUnpack(b);
  }
}

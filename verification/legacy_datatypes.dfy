/** The first release's layouts: the same block, but the serial number stays ASCII
    bytes and `pv_current` is always read in tenths. */
module LegacyDatatypes {
  import opened Bytes
  import opened Hex
  import opened Faults
  import opened Datatypes

  /** ASCII code of the lowercase hex digit for a nibble (`'0'` is 0x30, `'a'` is 0x61). */
  function HexCode(n: int): (c: Byte)
    requires 0 <= n < 16
  {
    if n < 10 then 0x30 + n else 0x61 + (n - 10)
  }

  /** `hexlify` as it returns: a bytes value, two ASCII hex digits per byte. */
  function HexlifyBytes(b: Bytes): (s: Bytes)
    ensures |s| == 2 * |b|
  {
    if |b| == 0 then [] else [HexCode(b[0] / 16), HexCode(b[0] % 16)] + HexlifyBytes(b[1..])
  }

  /** The ASCII encoding of text whose characters all lie below 256. */
  function Ascii(s: string): (b: Bytes)
    requires forall k :: 0 <= k < |s| ==> s[k] as int < 0x100
    ensures |b| == |s|
    ensures forall k :: 0 <= k < |s| ==> b[k] == s[k] as int
  {
    if |s| == 0 then [] else [s[0] as int] + Ascii(s[1..])
  }

  /** The bytes serial is the ASCII encoding of the text serial of the current release. */
  lemma {:induction false} HexlifyBytesIsAscii(b: Bytes)
    ensures HexlifyBytes(b) == Ascii(Hexlify(b))
  {
    if |b| > 0 {
      HexlifyBytesIsAscii(b[1..]);
      var s := Hexlify(b);
      assert s[2..] == Hexlify(b[1..]);
      assert Ascii(s) == [s[0] as int, s[1] as int] + Ascii(s[2..]) by {
        assert Ascii(s)[2..] == Ascii(s[2..]);
      }
    }
  }

  /** A string's ASCII encoding is the encoding of another string exactly when the two
      strings are equal. */
  lemma AsciiMatches(s: string, t: string, b: Bytes)
    requires forall k :: 0 <= k < |s| ==> s[k] as int < 0x100
    requires |t| == |b| && forall k :: 0 <= k < |b| ==> b[k] == t[k] as int
    ensures Ascii(s) == b <==> s == t
  {
    var a := Ascii(s);
    if a == b {
      assert forall k :: 0 <= k < |s| ==> a[k] == b[k];
      assert s == t;
    }
    if s == t {
      assert a == b;
    }
  }

  /** `b'000000000000'`, the serial of an unmapped slot. */
  const NullMicroinverter: Bytes := [0x30, 0x30, 0x30, 0x30, 0x30, 0x30, 0x30, 0x30, 0x30, 0x30, 0x30, 0x30]

  /** Comparing bytes serials against the null serial is comparing the text serials. */
  lemma NullSerialsAgree(serial: string)
    requires IsSerial(serial)
    ensures Ascii(serial) == NullMicroinverter <==> serial == NullInverter
  {
    assert forall k :: 0 <= k < 12 ==> NullMicroinverter[k] == NullInverter[k] as int;
    AsciiMatches(serial, NullInverter, NullMicroinverter);
  }

  /** `serial_number_t` on its own buffer: the six-byte `BytesX` read, hex-encoded as bytes. */
  function LegacyUnpackSerial(buf: Bytes): (r: Result<Bytes>)
    ensures r.Success? <==> |buf| == SerialBytes
    ensures |buf| < SerialBytes ==> r == Failure(InsufficientBytes)
    ensures |buf| > SerialBytes ==> r == Failure(ExcessBytes)
  {
    if |buf| < SerialBytes then Failure(InsufficientBytes)
    else if |buf| > SerialBytes then Failure(ExcessBytes)
    else Success(HexlifyBytes(buf))
  }

  /** The two releases' serial readers fail alike, and on success the bytes result is
      the ASCII encoding of the text result. */
  lemma LegacyUnpackSerialAgrees(buf: Bytes)
    ensures LegacyUnpackSerial(buf).Failure? ==> UnpackSerial(buf) == Failure(LegacyUnpackSerial(buf).error)
    ensures UnpackSerial(buf).Success? ==> LegacyUnpackSerial(buf) == Success(Ascii(UnpackSerial(buf).value))
  {
    if |buf| == SerialBytes {
      HexlifyBytesIsAscii(buf);
    }
  }

  type LegacyInverterData = Inverter<Bytes>

  /** `MicroinverterData.unpack`: the same offsets and widths as the current record;
      `pv_current` uses the fixed `udec16p1` type. */
  function LegacyUnpack(buf: Bytes): (r: Result<LegacyInverterData>)
    ensures r.Success? <==> |buf| >= FixedLength
    ensures r.Failure? ==> r.error == InsufficientBytes
    ensures r.Success? ==> IsUdec16(r.value.pvCurrent, 1) && |r.value.serialNumber| == 12
  {
    if |buf| < FixedLength then Failure(InsufficientBytes)
    else
      Success(Inverter(
        dataType := buf[0],
        serialNumber := HexlifyBytes(buf[1..7]),
        portNumber := buf[7],
        pvVoltage := Udec16(buf[8..10], 1),
        pvCurrent := Udec16(buf[10..12], 1),
        gridVoltage := Udec16(buf[12..14], 1),
        gridFrequency := Udec16(buf[14..16], 2),
        pvPower := Udec16(buf[16..18], 1),
        todayProduction := BeUint(buf[18..20]),
        totalProduction := BeUint(buf[20..24]),
        temperature := Sdec16(buf[24..26], 1),
        operatingStatus := BeUint(buf[26..28]),
        alarmCode := BeUint(buf[28..30]),
        alarmCount := BeUint(buf[30..32]),
        linkStatus := buf[32],
        reserved := buf[FixedLength..]))
  }

  /** Every field other than the serial number and `pv_current` is equal. */
  predicate SameReadings<S, T>(a: Inverter<S>, b: Inverter<T>) {
    && a.dataType == b.dataType
    && a.portNumber == b.portNumber
    && a.pvVoltage == b.pvVoltage
    && a.gridVoltage == b.gridVoltage
    && a.gridFrequency == b.gridFrequency
    && a.pvPower == b.pvPower
    && a.todayProduction == b.todayProduction
    && a.totalProduction == b.totalProduction
    && a.temperature == b.temperature
    && a.operatingStatus == b.operatingStatus
    && a.alarmCode == b.alarmCode
    && a.alarmCount == b.alarmCount
    && a.linkStatus == b.linkStatus
    && a.reserved == b.reserved
  }

  /** A first-release record and a current record describe the same block: the serial
      is the ASCII form of the text serial, and `pv_current` is ten times larger unless
      the serial selects tenths in both. */
  predicate Corresponds(legacy: LegacyInverterData, current: InverterData)
    requires IsSerial(current.serialNumber)
  {
    && SameReadings(legacy, current)
    && legacy.serialNumber == Ascii(current.serialNumber)
    && legacy.pvCurrent == (if StartsWith10(current.serialNumber) then current.pvCurrent else 10.0 * current.pvCurrent)
  }

  /** Both releases accept and reject the same blocks, and agree field by field on what they accept. */
  lemma LegacyUnpackAgrees(buf: Bytes)
    ensures LegacyUnpack(buf).Success? <==> Unpack(buf).Success?
    ensures Unpack(buf).Success? ==> Corresponds(LegacyUnpack(buf).value, Unpack(buf).value)
  {
    if |buf| >= FixedLength {
      HexlifyBytesIsAscii(buf[1..7]);
      assert Scale(2) == 10.0 * Scale(1);
    }
  }

  /** For MI-series serials (starting "10") the two releases decode identical values. */
  lemma LegacyUnpackAgreesOnMiSeries(buf: Bytes)
    requires |buf| >= FixedLength && buf[1] == 0x10
    ensures SameReadings(LegacyUnpack(buf).value, Unpack(buf).value)
    ensures LegacyUnpack(buf).value.pvCurrent == Unpack(buf).value.pvCurrent
  {
    LegacyUnpackAgrees(buf);
    PvCurrentPrecisionOfBytes(buf[1..7]);
  }
}

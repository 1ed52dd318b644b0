/** The status block of the test's first slot, decoded field by field.
    Each group lemma pins a few fields; `TestBlockDecodes` assembles the record. */
module DecodeExamples {
  import opened Bytes
  import opened Hex
  import opened Faults
  import opened Datatypes
  /** Payload of slot 0: MI-series inverter 103332416355, linked, no alarm. */
  const TestBlock: Bytes := [0x0c, 0x10, 0x33, 0x32, 0x41, 0x63, 0x55, 0x01, 0x01, 0x5e, 0x00, 0x02, 0x09, 0x4d, 0x13, 0x88, 0x00, 0x66, 0x02, 0xef, 0x00, 0x01, 0x24, 0x47, 0x00, 0x2b, 0x00, 0x03, 0x00, 0x00, 0x00, 0x00, 0x01, 0x07, 0x00, 0x00, 0x00, 0x00, 0x00, 0x00]

  lemma TestBlockSerial(buf: Bytes)
    requires buf == TestBlock
    ensures Unpack(buf).Success? && Unpack(buf).value.serialNumber == "103332416355"
  {
    assert buf[1] == 0x10 && buf[2] == 0x33 && buf[3] == 0x32;
    assert buf[4] == 0x41 && buf[5] == 0x63 && buf[6] == 0x55;
    assert buf[1..7] == [0x10, 0x33, 0x32, 0x41, 0x63, 0x55];
    TestBlockSerialText(buf[1..7]);
  }

  /** The hex text of the test block's serial bytes, digit by digit. */
  lemma TestBlockSerialText(b: Bytes)
    requires b == [0x10, 0x33, 0x32, 0x41, 0x63, 0x55]
    ensures Hexlify(b) == "103332416355"
  {
    HexlifyAt(b);
    var s := Hexlify(b);
    assert s[0] == HexDigit(b[0] / 16) == '1' && s[1] == HexDigit(b[0] % 16) == '0';
    assert s[2] == HexDigit(b[1] / 16) == '3' && s[3] == HexDigit(b[1] % 16) == '3';
    assert s[4] == HexDigit(b[2] / 16) == '3' && s[5] == HexDigit(b[2] % 16) == '2';
    assert s[6] == HexDigit(b[3] / 16) == '4' && s[7] == HexDigit(b[3] % 16) == '1';
    assert s[8] == HexDigit(b[4] / 16) == '6' && s[9] == HexDigit(b[4] % 16) == '3';
    assert s[10] == HexDigit(b[5] / 16) == '5' && s[11] == HexDigit(b[5] % 16) == '5';
  }

  lemma TestBlockTags(buf: Bytes)
    requires buf == TestBlock
    ensures Unpack(buf).Success?
    ensures var r := Unpack(buf).value;
      r.dataType == 12 && r.portNumber == 1 && r.linkStatus == 1 && r.reserved == [7, 0, 0, 0, 0, 0, 0]
  {
    assert buf[0] == 0x0c;
    assert buf[7] == 0x01;
    assert buf[32] == 0x01;
    assert buf[33..] == [7, 0, 0, 0, 0, 0, 0];
  }

  lemma TestBlockVoltages(buf: Bytes)
    requires buf == TestBlock
    ensures Unpack(buf).Success? && Unpack(buf).value.pvVoltage == 35.0 && Unpack(buf).value.gridVoltage == 238.1
  {
    assert buf[8] == 0x01;
    assert buf[9] == 0x5e;
    BeUint16(buf[8..10]);
    assert buf[12] == 0x09;
    assert buf[13] == 0x4d;
    BeUint16(buf[12..14]);
    assert Scale(1) == 10.0 && Scale(2) == 100.0;
  }

  lemma TestBlockCurrentAndFrequency(buf: Bytes)
    requires buf == TestBlock
    ensures Unpack(buf).Success? && Unpack(buf).value.pvCurrent == 0.2 && Unpack(buf).value.gridFrequency == 50.0
  {
    assert buf[1] == 0x10;
    PvCurrentPrecisionOfBytes(buf[1..7]);
    assert buf[10] == 0x00;
    assert buf[11] == 0x02;
    BeUint16(buf[10..12]);
    assert buf[14] == 0x13;
    assert buf[15] == 0x88;
    BeUint16(buf[14..16]);
    assert Scale(1) == 10.0 && Scale(2) == 100.0;
  }

  lemma TestBlockPowerAndTemperature(buf: Bytes)
    requires buf == TestBlock
    ensures Unpack(buf).Success? && Unpack(buf).value.pvPower == 10.2 && Unpack(buf).value.temperature == 4.3
  {
    assert buf[16] == 0x00;
    assert buf[17] == 0x66;
    BeUint16(buf[16..18]);
    assert buf[24] == 0x00;
    assert buf[25] == 0x2b;
    BeUint16(buf[24..26]);
    assert Scale(1) == 10.0 && Scale(2) == 100.0;
  }

  lemma TestBlockProduction(buf: Bytes)
    requires buf == TestBlock
    ensures Unpack(buf).Success? && Unpack(buf).value.todayProduction == 751 && Unpack(buf).value.totalProduction == 74823
  {
    assert buf[18] == 0x02;
    assert buf[19] == 0xef;
    BeUint16(buf[18..20]);
    assert buf[20] == 0x00;
    assert buf[21] == 0x01;
    assert buf[22] == 0x24;
    assert buf[23] == 0x47;
    BeUint32(buf[20..24]);
  }

  lemma TestBlockStatus(buf: Bytes)
    requires buf == TestBlock
    ensures Unpack(buf).Success? && Unpack(buf).value.operatingStatus == 3 && Unpack(buf).value.alarmCode == 0 && Unpack(buf).value.alarmCount == 0
  {
    assert buf[26] == 0x00;
    assert buf[27] == 0x03;
    BeUint16(buf[26..28]);
    assert buf[28] == 0x00;
    assert buf[29] == 0x00;
    BeUint16(buf[28..30]);
    assert buf[30] == 0x00;
    assert buf[31] == 0x00;
    BeUint16(buf[30..32]);
  }

  /** The block decodes to 35 V, 0.2 A (tenths, because the serial starts "10"),
      238.1 V, 50 Hz, 10.2 W, 751 Wh today, 74823 Wh in total and 4.3 degrees C. */
  lemma TestBlockDecodes(buf: Bytes)
    requires buf == TestBlock
    ensures Unpack(buf) == Success(Inverter(
              dataType := 12, serialNumber := "103332416355", portNumber := 1,
              pvVoltage := 35.0, pvCurrent := 0.2, gridVoltage := 238.1, gridFrequency := 50.0,
              pvPower := 10.2, todayProduction := 751, totalProduction := 74823, temperature := 4.3,
              operatingStatus := 3, alarmCode := 0, alarmCount := 0, linkStatus := 1,
              reserved := [7, 0, 0, 0, 0, 0, 0]))
  {
    TestBlockSerial(buf);
    TestBlockTags(buf);
    TestBlockVoltages(buf);
    TestBlockCurrentAndFrequency(buf);
    TestBlockPowerAndTemperature(buf);
    TestBlockProduction(buf);
    TestBlockStatus(buf);
  }
}

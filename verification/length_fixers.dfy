/** The firmware-bug workaround: some DTUs send Modbus TCP response frames whose
    byte-count field (byte 8: after the 7-byte MBAP header and the function code)
    is wrong, so received frames get that byte overwritten with the number of
    bytes that really follow it. Three variants exist side by side. */
module LengthFixers {
  import opened Bytes
  import opened Faults

  /** Offset of the byte-count field in a received frame. */
  const SizeBytePosition := 8

  /** The byte-count field exists and equals the number of bytes after it. */
  predicate CountFieldMatches(frame: Bytes) {
    |frame| > SizeBytePosition && frame[SizeBytePosition] == |frame| - (SizeBytePosition + 1)
  }

  /** `b` and `a` agree everywhere except possibly at the byte-count field. */
  predicate SameOutsideCountField(a: Bytes, b: Bytes) {
    |a| == |b| && forall k :: 0 <= k < |a| && k != SizeBytePosition ==> a[k] == b[k]
  }

  /** The guarded fixer of the current framer: frames of 9 bytes or fewer pass
      through; longer frames get the count rewritten. The count is stored with
      `bytes(...)`, which rejects values above 255 instead of wrapping. */
  function FixDataLength(packet: Bytes): (r: Result<Bytes>)
    ensures |packet| <= 9 ==> r == Success(packet)
    ensures r.Failure? <==> |packet| > 9 + 255
    ensures r.Failure? ==> r.error == ByteOutOfRange
    ensures r.Success? ==> SameOutsideCountField(packet, r.value)
    ensures r.Success? && |packet| > 9 ==> CountFieldMatches(r.value)
  {
    if |packet| > 9 then
      var count := |packet| - 9;
      if count > 255 then Failure(ByteOutOfRange) else Success(packet[8 := count])
    else
      Success(packet)
  }

  /** The trace hook of the pymodbus-3 client: outgoing data is untouched; on
      incoming data the count is rewritten without a length guard, so a frame of
      8 bytes or fewer has no byte 8 to assign and raises. */
  function FixDataSize(sending: bool, data: Bytes): (r: Result<Bytes>)
    ensures sending ==> r == Success(data)
    ensures !sending && |data| <= SizeBytePosition ==> r == Failure(IndexOutOfRange)
    ensures !sending && |data| > SizeBytePosition + 1 + 255 ==> r == Failure(ByteOutOfRange)
    ensures !sending ==> (r.Success? <==> SizeBytePosition < |data| <= SizeBytePosition + 1 + 255)
    ensures !sending && r.Success? ==> SameOutsideCountField(data, r.value) && CountFieldMatches(r.value)
  {
    if sending then Success(data)
    else if |data| <= SizeBytePosition then Failure(IndexOutOfRange)
    else
      var count := |data| - (SizeBytePosition + 1);
      if count > 255 then Failure(ByteOutOfRange) else Success(data[SizeBytePosition := count])
  }

  /** The fixer of the first release: unguarded, applied to every received frame. */
  function LegacyFixDataLength(packet: Bytes): (r: Result<Bytes>)
    ensures |packet| < 9 ==> r == Failure(IndexOutOfRange)
    ensures r.Success? <==> 9 <= |packet| <= 9 + 255
    ensures r.Success? ==> SameOutsideCountField(packet, r.value) && CountFieldMatches(r.value)
  {
    if |packet| < 9 then Failure(IndexOutOfRange)
    else if |packet| - 9 > 255 then Failure(ByteOutOfRange)
    else Success(packet[8 := |packet| - 9])
  }

  /** A frame whose count is already right is a fixed point of the guarded fixer. */
  lemma FixDataLengthKeepsConsistentFrame(packet: Bytes)
    requires CountFieldMatches(packet)
    ensures FixDataLength(packet) == Success(packet)
  {
    if |packet| > 9 {
      assert packet[8 := |packet| - 9] == packet;
    }
  }

  /** Fixing twice is fixing once. */
  lemma FixDataLengthIdempotent(packet: Bytes)
    requires FixDataLength(packet).Success?
    ensures FixDataLength(FixDataLength(packet).value) == FixDataLength(packet)
  {
    var once := FixDataLength(packet).value;
    if |packet| > 9 {
      FixDataLengthKeepsConsistentFrame(once);
    }
  }

  /** Rewriting an incoming frame twice is rewriting it once. */
  lemma FixDataSizeIdempotent(data: Bytes)
    requires FixDataSize(false, data).Success?
    ensures FixDataSize(false, FixDataSize(false, data).value) == FixDataSize(false, data)
  {
    var once := FixDataSize(false, data).value;
    assert once[SizeBytePosition := |once| - (SizeBytePosition + 1)] == once;
  }

  /** On frames longer than 9 bytes the hook's receive side and the guarded fixer agree,
      including on the frames too long to store their count. */
  lemma ReceiveAgreesWithGuardedFixer(data: Bytes)
    requires |data| > 9
    ensures FixDataSize(false, data) == FixDataLength(data)
  {
  }

  /** At exactly 9 bytes they part: the hook zeroes the count field, the guarded fixer
      leaves the frame as it is; so they differ exactly when byte 8 is non-zero. */
  lemma ReceiveDiffersAtNineBytes(data: Bytes)
    requires |data| == 9
    ensures FixDataLength(data) == Success(data)
    ensures FixDataSize(false, data) == Success(data[8 := 0])
    ensures FixDataSize(false, data) == FixDataLength(data) <==> data[8] == 0
  {
    if data[8] == 0 {
      assert data[8 := 0] == data;
    } else {
      assert data[8 := 0][8] != data[8];
    }
  }

  /** The first release's fixer is the hook's receive side. */
  lemma LegacyFixerIsReceiveSide(packet: Bytes)
    ensures LegacyFixDataLength(packet) == FixDataSize(false, packet)
  {
  }

  /** The first release's fixer agrees with the guarded fixer on every frame longer than 9
      bytes, and raises on the short frames the guarded fixer passes through. */
  lemma LegacyFixerAgreesAboveNine(packet: Bytes)
    ensures |packet| > 9 ==> LegacyFixDataLength(packet) == FixDataLength(packet)
    ensures |packet| < 9 ==> LegacyFixDataLength(packet).Failure? && FixDataLength(packet) == Success(packet)
  {
  }

  /** A 9-byte all-zero frame is forwarded unchanged; a 10-byte one gets count 1. */
  lemma FramerExamples()
    ensures FixDataLength([0, 0, 0, 0, 0, 0, 0, 0, 0]) == Success([0, 0, 0, 0, 0, 0, 0, 0, 0])
    ensures FixDataLength([0, 0, 0, 0, 0, 0, 0, 0, 0, 0]) == Success([0, 0, 0, 0, 0, 0, 0, 0, 1, 0])
  {
    var frame: Bytes := [0, 0, 0, 0, 0, 0, 0, 0, 0, 0];
    assert frame[8 := 1] == [0, 0, 0, 0, 0, 0, 0, 0, 1, 0];
  }

  /** The 20-byte ASCII frame "12345678901234567890" comes back with byte 8 set to 0x0b
      when received, and untouched when sent. */
  lemma TraceHookExamples()
    ensures FixDataSize(false, [49, 50, 51, 52, 53, 54, 55, 56, 57, 48, 49, 50, 51, 52, 53, 54, 55, 56, 57, 48])
         == Success([49, 50, 51, 52, 53, 54, 55, 56, 0x0b, 48, 49, 50, 51, 52, 53, 54, 55, 56, 57, 48])
    ensures FixDataSize(true, [49, 50, 51, 52, 53, 54, 55, 56, 57, 48, 49, 50, 51, 52, 53, 54, 55, 56, 57, 48])
         == Success([49, 50, 51, 52, 53, 54, 55, 56, 57, 48, 49, 50, 51, 52, 53, 54, 55, 56, 57, 48])
  {
    var frame: Bytes := [49, 50, 51, 52, 53, 54, 55, 56, 57, 48, 49, 50, 51, 52, 53, 54, 55, 56, 57, 48];
    assert frame[8 := 0x0b] == [49, 50, 51, 52, 53, 54, 55, 56, 0x0b, 48, 49, 50, 51, 52, 53, 54, 55, 56, 57, 48];
  }
}

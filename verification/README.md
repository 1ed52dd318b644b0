# hoymiles_modbus in Dafny

A model of the decoding core of `hoymiles_modbus`, a client that reads a Hoymiles
DTU gateway over Modbus TCP and turns its register blocks into typed records. The
model covers five pieces of sequential logic, first for the current client
(`client.py`, `datatypes.py`, `_modbus_tcp_client.py`) and then for the first release
(`hoymiles_modbus.py`, `_datatype.py`). Agreement lemmas relate the two releases.

- **Length-byte fixers** (`length_fixers.dfy`). Some DTUs send response frames with a
  wrong byte-count field at offset 8. Three functions rewrite that byte to the
  number of bytes that follow it:
  - the guarded framer fixer;
  - the direction-aware trace hook;
  - the first release's unguarded fixer.

  None of them wraps the count modulo 256: a count above 255 is the `ValueError`
  that `bytes()` raises, and a frame with no byte 8 is the `IndexError`. Both are
  modelled as `Failure` results.
- **Record decoder** (`bytes.dfy`, `hex.dfy`, `datatypes.dfy`, `legacy_datatypes.dfy`).
  - The 33-byte fixed part of an inverter status block is read big-endian.
  - The 6-byte serial number is hex-encoded.
  - Fixed-point fields are exact rationals, `raw / 10^p`.
  - `pv_current` is read in tenths when the serial starts with "10" and in hundredths
    otherwise. The first release always reads it in tenths and keeps the serial as
    ASCII bytes.
  - `Pack` is a model-side encoder, used to state the round trip. The source's own
    `__pack__` raises.
- **Register walker** (`register_scan.dfy`, `client.dfy`, `legacy_client.dfy`).
  - The device is an oracle from a read request to a reply: a response, possibly
    flagged as a Modbus error, or a transport failure.
  - The scan reads 20 registers at `0x1000 + 40*i` for `i < 100`.
  - It stops before the first null serial and aborts the whole call on any fault.
  - The current client additionally refuses error responses and an empty first slot.
- **DTU serial cache** (`client.dfy`, `legacy_client.dfy`). `ReadDtu` returns the
  requests it issued, the answer and the new cache value. The client classes keep the
  cache in one mutable field.
- **Plant summary** (`aggregation.dfy`). A fold over the inverter list. It sums power
  and production over linked inverters and raises the alarm flag if any linked
  inverter reports an alarm code.

Every serial not starting with "10" selects hundredths for `pv_current`, the null
serial included, and no serial prefix raises. No fixer wraps the count byte modulo 256.

## Model

| member | source | states |
|---|---|---|
| LengthFixers.FixDataLength | hoymiles_modbus/client.py:33-37 | frames of at most 9 bytes pass unchanged; longer frames keep their length and every byte but byte 8, which becomes the count of bytes after it; the call fails exactly when that count exceeds 255 |
| LengthFixers.FixDataSize | hoymiles_modbus/_modbus_tcp_client.py:9-17 | outgoing data is returned unchanged; incoming data of 8 bytes or fewer fails with an index error, above 264 bytes with a byte-range error, otherwise only byte 8 changes and it equals the count after it |
| LengthFixers.LegacyFixDataLength | hoymiles_modbus/hoymiles_modbus.py:15-18 | frames under 9 bytes fail; frames of 9 to 264 bytes succeed with only byte 8 changed, to the count after it |
| LengthFixers.FixDataLengthKeepsConsistentFrame | hoymiles_modbus/client.py:35-37 | a frame whose count byte is already right is returned unchanged |
| LengthFixers.FixDataLengthIdempotent | hoymiles_modbus/client.py:33-37 | applying the guarded fixer twice equals applying it once |
| LengthFixers.FixDataSizeIdempotent | hoymiles_modbus/_modbus_tcp_client.py:13-16 | rewriting an incoming frame twice equals rewriting it once |
| LengthFixers.ReceiveAgreesWithGuardedFixer | hoymiles_modbus/_modbus_tcp_client.py:13-16 | on frames longer than 9 bytes the hook's receive side equals the guarded fixer, failures included |
| LengthFixers.ReceiveDiffersAtNineBytes | hoymiles_modbus/_modbus_tcp_client.py:15 | on a 9-byte frame the hook zeroes byte 8 while the guarded fixer keeps the frame; they agree iff byte 8 is already 0 |
| LengthFixers.LegacyFixerIsReceiveSide | hoymiles_modbus/hoymiles_modbus.py:15-18 | the first release's fixer equals the hook's receive side on every input |
| LengthFixers.LegacyFixerAgreesAboveNine | hoymiles_modbus/hoymiles_modbus.py:15-18 | the first release's fixer equals the guarded fixer above 9 bytes and fails below 9 bytes where the guarded one passes the frame through |
| LengthFixers.FramerExamples | tests/test_custom_framer.py:7-22 | a 9-byte zero frame is unchanged; a 10-byte zero frame gets count 1 |
| LengthFixers.TraceHookExamples | tests/test_packet_data_size_fixer.py:6-17 | the 20-byte frame "12345678901234567890" gets byte 8 = 0x0b when received and is untouched when sent |
| Bytes.BeUint | hoymiles_modbus/datatypes.py:84-86 | a big-endian field of n bytes denotes a number below 256^n |
| Bytes.BeUint16 | hoymiles_modbus/datatypes.py:84 | a 2-byte field is high byte times 256 plus low byte |
| Bytes.BeUint32 | hoymiles_modbus/datatypes.py:86 | a 4-byte field is its bytes in most-significant-first order |
| Bytes.BeUintOfBeBytes | hoymiles_modbus/datatypes.py:84-86 | reading back a written big-endian field gives the number again |
| Bytes.BeBytesOfBeUint | hoymiles_modbus/datatypes.py:84-86 | writing back a read big-endian field gives the bytes again |
| Bytes.ToInt16 | hoymiles_modbus/datatypes.py:43 | the signed reading lies in [-32768, 32767] and is congruent to the pattern modulo 65536 |
| Bytes.FromInt16 | hoymiles_modbus/datatypes.py:43 | the 16-bit pattern of a signed value reads back as that value |
| Bytes.FromInt16OfToInt16 | hoymiles_modbus/datatypes.py:43 | pattern, then signed reading, then pattern, is the identity |
| Bytes.Slice | hoymiles_modbus/client.py:107 | a slice with clamped bounds: its length and the element at each offset |
| Bytes.Drop | hoymiles_modbus/client.py:122 | dropping a prefix: its length and the element at each offset |
| Hex.Hexlify | hoymiles_modbus/datatypes.py:29-30 | the serial text is twice as long as its bytes and made only of lowercase hex digits |
| Hex.Unhexlify | hoymiles_modbus/datatypes.py:28-30 | the decoder succeeds exactly on even-length lowercase hex and halves the length |
| Hex.UnhexlifyHexlify | hoymiles_modbus/datatypes.py:28-30 | decoding the hex text of any bytes gives those bytes |
| Hex.HexlifyUnhexlify | hoymiles_modbus/datatypes.py:28-30 | encoding the decoded bytes of well-formed hex gives the text back |
| Hex.HexlifyInjective | hoymiles_modbus/datatypes.py:28-30 | distinct byte strings have distinct serial texts |
| Hex.StartsWith10Hexlify | hoymiles_modbus/datatypes.py:59-63 | the hex text starts with "10" iff the first byte is 0x10 |
| Hex.DigitValue | hoymiles_modbus/datatypes.py:29 | the decoded nibble is below 16 and re-encodes to the same digit |
| Hex.DigitValueOfHexDigit | hoymiles_modbus/datatypes.py:29 | decoding the digit of a nibble gives the nibble |
| Datatypes.UnitsOfDecimal | hoymiles_modbus/datatypes.py:42-44 | the stored integer is recovered from a decoded decimal |
| Datatypes.Udec16 | hoymiles_modbus/datatypes.py:42-44 | an unsigned decimal is the big-endian 16-bit value divided by 10^p, exactly |
| Datatypes.Sdec16 | hoymiles_modbus/datatypes.py:43 | a signed decimal is the two's-complement 16-bit value divided by 10^p, exactly |
| Datatypes.DecimalRanges | hoymiles_modbus/datatypes.py:42-44 | udec16p1 lies in [0, 6553.5], udec16p2 in [0, 655.35], sdec16p1 in [-3276.8, 3276.7] |
| Datatypes.DecimalExamples | hoymiles_modbus/datatypes.py:42-44 | raw 0x0228 at precision 1 is 55.2; raw 2 is 0.02 at precision 2 and 0.2 at precision 1 |
| Datatypes.UnpackSerial | hoymiles_modbus/datatypes.py:28-46 | exactly 6 bytes decode, to a 12-digit lowercase hex serial that decodes back to them; fewer bytes fail as insufficient, more as excess |
| Datatypes.SerialToBytes | hoymiles_modbus/datatypes.py:28-30 | every serial text is the hex text of 6 bytes |
| Datatypes.PvCurrentPrecision | hoymiles_modbus/datatypes.py:59-63 | precision 1 iff the serial starts with "10", else 2, never a failure |
| Datatypes.PvCurrentPrecisionOfBytes | hoymiles_modbus/datatypes.py:59-76 | for a decoded serial, raw first byte 0x10 selects tenths and anything else hundredths |
| Datatypes.Unpack | hoymiles_modbus/datatypes.py:66-98 | a block decodes iff it has at least 33 bytes; the record is well formed and `reserved` holds every byte after offset 32 |
| Datatypes.Pack | hoymiles_modbus/datatypes.py:66-98 | a well-formed record encodes to 33 bytes plus its reserved bytes |
| Datatypes.Udec16OfUnits | hoymiles_modbus/datatypes.py:42-44 | encoding an unsigned decimal and decoding it gives it back |
| Datatypes.Sdec16OfUnits | hoymiles_modbus/datatypes.py:43 | encoding a signed decimal and decoding it gives it back |
| Datatypes.UnpackPack | hoymiles_modbus/datatypes.py:66-98 | decoding the encoding of any well-formed record gives that record |
| Datatypes.PackFieldsOfUnpack | hoymiles_modbus/datatypes.py:69-98 | every decoded field re-encodes to exactly the bytes at its offset and width |
| Datatypes.PackUnpack | hoymiles_modbus/datatypes.py:66-98 | encoding the decoded record of a block of at least 33 bytes gives that block |
| Datatypes.UnpackInjective | hoymiles_modbus/datatypes.py:66-98 | two blocks with the same decoded record are the same block |
| DecodeExamples.TestBlockDecodes | tests/test_hoymiles_modbus.py:11-43 | the test's 40-byte block decodes to serial 103332416355, 35 V, 0.2 A, 238.1 V, 50 Hz, 10.2 W, 751 Wh, 74823 Wh, 4.3 degrees C, status 3, link 1, reserved [7,0,0,0,0,0,0] |
| DecodeExamples.TestBlockSerial | tests/test_hoymiles_modbus.py:16-26 | the test block's serial field is "103332416355" |
| DecodeExamples.TestBlockCurrentAndFrequency | tests/test_hoymiles_modbus.py:29-31 | its pv_current is 0.2 (tenths, MI serial) and its frequency 50 |
| Aggregation.LinkedOnly | hoymiles_modbus/client.py:135 | the filter keeps only inverters with a non-zero link status, never more than the input, and every linked inverter of the input appears in it |
| Aggregation.LinkedOnlySingleton | hoymiles_modbus/client.py:135 | a single inverter is kept iff it is linked; with the concatenation law this fixes the filter's order and repetitions |
| Aggregation.Fold | hoymiles_modbus/client.py:134-140 | running the loop adds the linked power and production sums to the running totals and sets the flag iff a linked inverter has an alarm |
| Aggregation.PlantData | hoymiles_modbus/client.py:133-141 | the summary keeps the DTU serial and the full inverter list in order; sums are over linked inverters only; the alarm flag is set iff some linked inverter has a non-zero alarm code |
| Aggregation.PlantDataOfNoInverters | hoymiles_modbus/datatypes.py:101-115 | with no inverters the summary has the declared defaults: zero power, zero production, no alarm |
| Aggregation.SumsOfConcat | hoymiles_modbus/client.py:134-138 | filtering and the three sums distribute over list concatenation |
| Aggregation.UnlinkedInverterIgnored | hoymiles_modbus/client.py:135 | inserting an unlinked inverter anywhere changes no sum and not the flag |
| Aggregation.UnlinkedAlarmIgnored | hoymiles_modbus/client.py:135-140 | an unlinked inverter anywhere in the list neither raises nor hides the alarm flag |
| Aggregation.TwoInverterPlant | tests/test_hoymiles_modbus.py:111-166 | two linked inverters give 1430 Wh today and 129151 Wh in total, and the flag follows their alarm codes |
| RegisterScan.ScanFrom | hoymiles_modbus/client.py:104-114 | the scan reads slots in order at `0x1000 + 40*i`, at most 100; every slot before the last one read holds an inverter; a success lists exactly those inverters and ends at slot 100 or at an end-of-list slot; a failure carries the fault of the last slot read |
| RegisterScan.ScanStopsAtEndOfList | hoymiles_modbus/client.py:111-113 | given n inverter slots then a null-serial slot, exactly those n records come back after n+1 reads, and nothing later is read |
| RegisterScan.ScanAbortsWholeCall | hoymiles_modbus/client.py:89-106 | a fault at the slot after n inverter slots fails the whole call, with no partial list, after n+1 reads |
| RegisterScan.ScanRunsToBound | hoymiles_modbus/client.py:104 | when all remaining slots hold inverters, all of them come back, one read each |
| RegisterScan.ScanSimulation | hoymiles_modbus/client.py:104-114 | a scan whose inverter and end-of-list slots are matched by a second classifier issues the same requests as the second scan and gets a slot-by-slot related list |
| RegisterScan.SlotAddressesBelowDtu | hoymiles_modbus/client.py:105 | every slot's 20 registers lie between 0x1000 and the DTU block at 0x2000 |
| Client.CheckReply | hoymiles_modbus/client.py:88-93 | a transport failure propagates, an error response fails, and anything else is accepted unchanged |
| Client.SlotPayload | hoymiles_modbus/client.py:107 | the payload is the encoding from byte 1 up to byte 40: empty for at most one byte, otherwise its length is the count after byte 0 capped at 40 and byte k is byte k+1 of the encoding |
| Client.ClassifySlot | hoymiles_modbus/client.py:106-113 | a slot is an inverter iff the reply is a non-error response that decodes to a non-null serial (slot 0 also needs a non-empty payload); end-of-list iff it decodes to the null serial; "not mapped yet" iff slot 0's payload is empty; any other non-error payload shorter than 33 bytes fails as insufficient bytes |
| Client.MicroinverterData | hoymiles_modbus/client.py:95-114 | at most 100 requests, to successive slots; each returned inverter is well formed, has a non-null serial and is what its slot's non-error response decodes to; every slot before the last one read held an inverter; a success either read all 100 slots or stopped one slot past the list at an end-of-list slot; a failure carries the fault of the last slot read |
| Client.EmptyFirstSlotNotMapped | hoymiles_modbus/client.py:108-109 | an empty payload at slot 0 fails the call with "not mapped yet" after one read |
| Client.NullFirstSlotNoInverters | hoymiles_modbus/client.py:111-112 | a null serial at slot 0 gives an empty list after one read |
| Client.ErrorResponseAbortsScan | hoymiles_modbus/client.py:91-92 | an error response after k inverter slots fails the call after k+1 reads |
| Client.ReadDtu | hoymiles_modbus/client.py:116-123 | with a cached serial, no request and the cache is returned; otherwise exactly one request to 0x2000, which succeeds iff the reply is a non-error response of 7 bytes, and then the serial is the hex of the 6 bytes after the first and fills the cache; a failure leaves the cache empty and is a transport fault, an error response, or insufficient or excess bytes as the reply is shorter or longer than 7 bytes |
| Client.DtuFixedAfterFirstRead | hoymiles_modbus/client.py:119-123 | after a successful read, later calls issue no request and return the same serial whatever the device answers |
| Client.DtuExample | tests/test_hoymiles_modbus.py:63-68 | the reply 06 11 d3 61 60 08 31 gives the serial "11d361600831" |
| Client.ReadPlant | hoymiles_modbus/client.py:125-141 | the call succeeds iff the scan and the DTU read both succeed, reading the inverters first; its summary is the linked-only fold of the scanned list with the DTU serial; a failed scan's fault, or else a failed DTU read's fault, is the call's fault |
| LegacyDatatypes.HexlifyBytes | hoymiles_modbus/_datatype.py:25-26 | the bytes serial is twice as long as the raw bytes |
| LegacyDatatypes.HexlifyBytesIsAscii | hoymiles_modbus/_datatype.py:25-26 | the bytes serial is the ASCII encoding of the current release's text serial |
| LegacyDatatypes.Ascii | hoymiles_modbus/_datatype.py:26 | ASCII encoding keeps the length and maps each character to its code |
| LegacyDatatypes.NullSerialsAgree | hoymiles_modbus/hoymiles_modbus.py:34 | a serial equals b'000000000000' as bytes iff it equals '000000000000' as text |
| LegacyDatatypes.LegacyUnpackSerial | hoymiles_modbus/_datatype.py:14-42 | exactly 6 bytes decode; fewer fail as insufficient, more as excess |
| LegacyDatatypes.LegacyUnpackSerialAgrees | hoymiles_modbus/_datatype.py:14-26 | both releases' serial readers fail alike, and a success here is the ASCII of the current text |
| LegacyDatatypes.LegacyUnpack | hoymiles_modbus/_datatype.py:46-64 | a block decodes iff it has at least 33 bytes; pv_current is always in tenths and the serial is 12 bytes |
| LegacyDatatypes.LegacyUnpackAgrees | hoymiles_modbus/_datatype.py:46-64 | both releases accept the same blocks; on success every reading agrees, the serial is the ASCII form, and pv_current is ten times larger unless the serial starts with "10" |
| LegacyDatatypes.LegacyUnpackAgreesOnMiSeries | hoymiles_modbus/_datatype.py:53 | for blocks whose first serial byte is 0x10 both releases decode identical readings, pv_current included |
| LegacyClient.LegacyClassifySlot | hoymiles_modbus/hoymiles_modbus.py:52-56 | any response is decoded, error flag or not; only a transport failure aborts before decoding; a short payload fails as insufficient; an inverter iff the bytes serial is not the null one; end of list iff the block decodes to the null bytes serial |
| LegacyClient.LegacyMicroinverterData | hoymiles_modbus/hoymiles_modbus.py:45-57 | at most 100 requests with unit 1, to successive slots; each returned record is what its slot decodes to and has a non-null serial; every slot before the last one read held an inverter; a success either read all 100 slots or stopped one slot past the list at an end-of-list slot; a failure carries the fault of the last slot read |
| LegacyClient.ClassifyAgrees | hoymiles_modbus/hoymiles_modbus.py:52-56 | every slot the current release accepts, the first release accepts with a corresponding record; every end-of-list slot is one for both |
| LegacyClient.LegacyScanAgrees | hoymiles_modbus/hoymiles_modbus.py:45-57 | whenever the current scan with unit 1 succeeds, the first release's scan issues the same requests and returns a corresponding list |
| LegacyClient.LegacyIgnoresErrorFlag | hoymiles_modbus/hoymiles_modbus.py:52-53 | an error response carrying a decodable block is refused by the current release and accepted by the first |
| LegacyClient.EmptyFirstSlotDiffers | hoymiles_modbus/hoymiles_modbus.py:52-53 | an empty first slot is "not mapped yet" for the current release and a decoding failure for the first |
| LegacyClient.LegacyReadDtu | hoymiles_modbus/hoymiles_modbus.py:59-66 | the device is read only while the bytes cache is empty; the read succeeds iff the reply is a response of 7 bytes, error flag or not, and then the serial is the ASCII hex of the 6 bytes after the first and fills the cache; a failure leaves the cache empty and is a transport fault, or insufficient or excess bytes as the reply is shorter or longer than 7 bytes |
| LegacyClient.LegacyDtuAgrees | hoymiles_modbus/hoymiles_modbus.py:59-66 | a first DTU read that succeeds in the current release succeeds in the first with the ASCII of the same serial |
| LegacyClient.SumsAgree | hoymiles_modbus/hoymiles_modbus.py:73-79 | lists that agree on link status, power, production and alarm give equal sums and flag |
| LegacyClient.LegacyReadPlant | hoymiles_modbus/hoymiles_modbus.py:68-80 | the call succeeds iff the scan and the DTU read succeed, inverters first; the summary is the linked-only fold; a failed scan's fault, or else a failed DTU read's fault, is the call's fault |
| LegacyClient.LegacyPlantAgrees | hoymiles_modbus/hoymiles_modbus.py:68-80 | from fresh clients, whenever the current plant read with unit 1 succeeds, the DTU serial is 12 lowercase hex digits and the first release issues the same requests and reports the same totals, the same flag, the ASCII DTU serial and a corresponding list |

## Left out

- The pymodbus transport is not part of this model. This covers `ModbusTcpClient`
  construction, the connect/close context manager, framer wiring and
  `processIncomingPacket` forwarding. Replies come from an abstract device function,
  and a raised transport exception is the single `TransportFailure` reply.
- `CommunicationParams` is left out. It holds floating-point timeouts and retry
  settings that affect only the transport.
- The PDU-level `_CustomDecoder` is not part of this model; its source is not
  available.
- plum's `Structure` and `member` dispatch are replaced by a direct field-by-field
  decoder with the same offsets and widths.
- `client.py:133` passes `microinverter_data=` to a `PlantData` whose list field is
  named `inverters` (`datatypes.py:115`), so the code as written raises `TypeError`.
  The model computes the evidently intended summary. The first release's field name
  `microinverter_data` matches its call.
- The test imports `MicroinverterData` from `datatypes` (`tests/test_hoymiles_modbus.py:8`).
  That name exists only in `_datatype.py`. This import mismatch is not modelled.
- `LegacyClient.LegacyScanAgrees`, `LegacyClient.LegacyDtuAgrees` and
  `LegacyClient.LegacyPlantAgrees` compare the releases only at unit id 1. That is the
  first release's fixed unit; the current release's other unit ids have no
  counterpart.
- `LegacyClient.LegacyClassifySlot` treats a transport failure as aborting the call,
  as the current release does. What an old pymodbus returned instead of raising is
  not part of this model.
- The client classes' `Dtu` and `PlantData` methods only thread the cache field
  through the pure functions `ReadDtu`/`ReadPlant` and their first-release
  counterparts. Their contracts refer to the field's old value.
- Decimals are exact rationals. Python `Decimal` arithmetic in the plant fold is exact
  at these magnitudes, so `real` addition is used.

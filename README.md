# Instrument-cluster telemetry ingestion, modelled in Dafny

This project models the frame ingestion core of a small vehicle instrument cluster:

- the serial reader's resynchronising frame parser, `TeensyReader._consume_buffer` in
  `src/io_teensy.py`, and the 16-bit CRC it checks frames with (`_crc_func`);
- the telemetry store `Telemetry` in `src/telemetry.py`: seven fields (rpm, speed, five
  indicators), each with a setter that is a no-op on an unchanged value and otherwise stores
  the value and emits a change signal; `updateFromFrame`, which splits bits 0-4 of the flags
  into the indicators and fires `firstFrameReceived` on the first frame only; and the flags
  expression of `demoTick`;
- the `FRAME_*` constants of `config.py`.

Files:

- `config.dfy`: module `Config`, the frame magic `0xA55A`, version 1 and `FRAME_LEN_BYTES = 14`.
- `little_endian.dfy`: module `LittleEndian`, unsigned 16-bit little-endian fields.
- `crc16.dfy`: module `Crc16`. It defines the bitwise form of the FCS-16 of RFC 1662
  Appendix C (CRC-16/X-25): the generator step of C.1 with reflected polynomial 0x8408, and
  the constants of C.2. It also defines crcmod's rule for turning `mkCrcFun` parameters into
  a starting register, and from it the function the reader actually builds (`SourceCrc`).
- `telemetry.dfy`: module `Telemetry`, in two parts.
  - A pure part: `Snapshot` of the fields, `AfterFrame` and `FrameEvents` for one
    `updateFromFrame` call, and `Replay` and `ReplayEvents` for a sequence of calls.
  - The class `Telemetry`. Its fields are updated in place by its setters and by
    `UpdateFromFrame`, each proved against the pure part.
- `io_teensy.dfy`: module `IoTeensy`, in three parts.
  - Pure definitions: unpacking `'<HBBHHHH'`, checking and converting one candidate
    (`Decode`), the whole consume loop as a function (`Scan`), and an encoder of
    well-formed frames used to state what the reader accepts.
  - The classes `ByteBuffer` (the `bytearray`) and `TeensyReader`.
  - `TeensyReader.ConsumeBuffer`, a `while` loop that shrinks the buffer in place. It is
    proved to leave exactly the scan's rest, and to drive the telemetry object through the
    replay of exactly the forwarded readings.

Signals are modelled as the sequence of events each call returns, in emission order: a setter
returns its zero or one signal, and `UpdateFromFrame` and `ConsumeBuffer` return the
concatenation of what they caused. "No notification" and "exactly once" are stated on those
sequences.

Two places where the code does not do what its constants evidently intend; the model
follows the code:

- **CRC.** The parameters the code passes to crcmod (polynomial 0x11021 reflected,
  `initCrc=0xFFFF`, `xorOut=0xFFFF`, src/io_teensy.py:9) are the catalogue parameters of
  CRC-16/X-25. But crcmod takes `initCrc` to be the CRC of the empty string. The register
  therefore starts at 0x0000 rather than at the X-25 preset 0xFFFF. `SourceCrc` models that
  code; `X25` is the intended checksum.
- **Frame length.** `FRAME_LEN_BYTES` is 14 (config.py:33), and the code cuts that many
  bytes per candidate and compares the frame's length byte with it. But `'<HBBHHHH'`
  unpacks exactly 12.
  `ConsumeBuffer` therefore takes the frame length and the checksum function as parameters.
  The configured pair is proved to forward nothing. The 12-byte length with `X25` is proved
  to deliver every frame of a stream of back-to-back well-formed frames, also after leading
  bytes at which the head does not match. Resynchronisation is by the two magic bytes only:
  a stray `5A A5` just ahead of a well-formed frame starts a candidate that takes the first
  ten bytes of that frame, and the frame is lost (`StrayHeadHidesFrame`).

Both discrepancies are listed under "Findings".

## Model

| member | source | states |
|---|---|---|
| LittleEndian.Le16 | src/io_teensy.py:68 | the u16 read from bytes `lo, hi` has `lo` as its low byte and `hi` as its high byte |
| LittleEndian.Le16OfBytes | src/io_teensy.py:68 | splitting a u16 into its two bytes and reading them back gives the value |
| Crc16.Crcmod | src/io_teensy.py:9 | a crcmod function returns `initCrc` on empty input (crcmod's definition of `initCrc`) |
| Crc16.X25AsCrcmod | src/io_teensy.py:9 | under crcmod's rule, CRC-16/X-25 is the parameter set initCrc 0x0000, xorOut 0xFFFF |
| Crc16.UpdateAppend | src/io_teensy.py:9 | the CRC register over `a + b` is the register over `a`, continued over `b` |
| Crc16.UpdateInjective | src/io_teensy.py:9 | two different registers stay different whatever bytes are fed to both |
| Crc16.X25CheckValue | src/io_teensy.py:9 | CRC-16/X-25 of "123456789" is the standard check value 0x906E |
| Crc16.SourceCrcCheckValue | src/io_teensy.py:9 | the CRC function the reader builds gives 0xDE76 on "123456789", not 0x906E |
| Crc16.SourceCrcNeverX25 | src/io_teensy.py:9 | the reader's CRC differs from CRC-16/X-25 on every input |
| Crc16.SingleByteErrorDetected | src/io_teensy.py:74-76 | changing any one byte of the data, in particular flipping one bit, changes the CRC-16/X-25 |
| Crc16.ComplementLeavesGoodFcs | src/io_teensy.py:74-76 | feeding the complemented register, low byte first, leaves the good FCS 0xF0B8 (RFC 1662 Appendix C.2, PPPGOODFCS16) |
| Crc16.OnlyComplementLeavesGoodFcs | src/io_teensy.py:74-76 | no other two trailer bytes leave the good FCS |
| Crc16.RegisterResidue | src/io_teensy.py:74-76 | two bytes leave the good FCS if and only if they are the complemented register, low byte first |
| Crc16.FcsResidue | src/io_teensy.py:74-76 | data plus trailer leaves the good FCS if and only if the trailer read little-endian equals the CRC of the data |
| IoTeensy.Unpack | src/io_teensy.py:67-70 | unpacking succeeds if and only if the candidate is exactly 12 bytes; the fields read back pack to the same bytes |
| IoTeensy.Pack | src/io_teensy.py:68 | a packed record is 12 bytes |
| IoTeensy.UnpackPack | src/io_teensy.py:68 | unpacking a packed record gives the record back |
| IoTeensy.Decode | src/io_teensy.py:67-79 | a candidate is accepted if and only if it is 12 bytes, starts 5A A5 01, has length byte FRAME_LEN, and has `crc` of its first 10 bytes as little-endian trailer; the forwarded rpm, flags and speed are the u16s at offsets 4, 8 and 6, with speed (vss/100)·0.036; the unpack error is exactly the wrong-size case |
| IoTeensy.NothingForwardedUnlessStructSize | src/io_teensy.py:58-70 | with any frame length other than 12, whatever the buffer and checksum, nothing is forwarded |
| IoTeensy.ConfiguredLengthForwardsNothing | src/io_teensy.py:56-70 | with FRAME_LEN_BYTES = 14, whatever the buffer and checksum, nothing is forwarded |
| IoTeensy.ConfiguredReaderIsSilent | src/io_teensy.py:56-79 | with FRAME_LEN_BYTES = 14, consuming any buffer leaves the telemetry state as it was and emits no signal |
| IoTeensy.DecodedInSuffix | src/io_teensy.py:65-66 | a frame found in a suffix of the buffer is a frame of the buffer |
| IoTeensy.ForwardedAreDecoded | src/io_teensy.py:58-79 | every forwarded reading is the decoding of some FRAME_LEN consecutive bytes of the buffer |
| IoTeensy.ScanSkip | src/io_teensy.py:60-62 | on a head mismatch the scan goes on from the buffer without its first byte |
| IoTeensy.ScanCut | src/io_teensy.py:65-79 | on a matching head the first FRAME_LEN bytes are cut off, forwarded first when they decode, and never looked at again |
| IoTeensy.GarbageSkipped | src/io_teensy.py:60-62 | leading bytes at each of which the head does not match (any byte but 0x5A, or a 0x5A not followed by 0xA5) are dropped without changing what the rest of the buffer yields |
| IoTeensy.EncodeFrame | src/io_teensy.py:68 | a frame built by the sender is 12 bytes and its first 10 bytes are the checksummed body |
| IoTeensy.DecodeEncodeFrame | src/io_teensy.py:67-79 | with frame length 12 and CRC-16/X-25 a frame built from a sample decodes to exactly that sample's reading |
| IoTeensy.SourceCrcRejectsEncodedFrame | src/io_teensy.py:74-76 | with the CRC function the reader builds, the same frame is rejected on its checksum |
| IoTeensy.AcceptedFrameHasGoodFcs | src/io_teensy.py:74-76 | an accepted frame passes the RFC 1662 receive check: the register over the whole frame ends at the good FCS |
| IoTeensy.ReadingsOf | src/io_teensy.py:78-79 | the expected readings of a sample stream are the samples' readings, one per sample, in order |
| IoTeensy.ScanEncodedStream | src/io_teensy.py:56-79 | with frame length 12 and CRC-16/X-25, a stream of well-formed frames is consumed completely and forwards every sample in order |
| IoTeensy.ResyncAfterGarbage | src/io_teensy.py:56-79 | with frame length 12 and CRC-16/X-25, after leading bytes at each of which the head does not match, one well-formed frame is consumed completely and forwarded |
| IoTeensy.StrayHeadHidesFrame | src/io_teensy.py:58-72 | a stray 5A A5 ahead of a well-formed frame takes the frame's first ten bytes into a rejected candidate: nothing is forwarded and the frame's last two bytes remain |
| IoTeensy.ReaderDeliversStream | src/io_teensy.py:56-79 | fed such a stream from its initial state, the telemetry object ends holding the last sample and fires firstFrameReceived exactly once |
| IoTeensy.SourceCrcForwardsNoEncodedFrame | src/io_teensy.py:56-79 | with the CRC function the reader builds, no frame of such a stream is forwarded |
| IoTeensy.CandidateReadings | src/io_teensy.py:67-79 | one candidate forwards at most one reading |
| IoTeensy.Step | src/io_teensy.py:58-66 | one loop iteration leaves a strictly shorter suffix of the buffer |
| IoTeensy.ScanByStep | src/io_teensy.py:58-79 | the scan is one iteration followed by the scan of what it leaves, with the forwarded readings in order |
| IoTeensy.ScanRest | src/io_teensy.py:58 | what the consume loop leaves is a suffix of the buffer shorter than FRAME_LEN |
| IoTeensy.ScanInvStep | src/io_teensy.py:58-79 | the consume loop's invariant (scan of the whole buffer = readings so far + scan of what is left) survives one iteration |
| IoTeensy.ByteBuffer.constructor | src/io_teensy.py:55 | a buffer holds the bytes it is created with |
| IoTeensy.TeensyReader.constructor | src/io_teensy.py:12-14 | the reader keeps the telemetry object it is given |
| IoTeensy.TeensyReader.ProcessCandidate | src/io_teensy.py:67-79 | a rejected candidate changes nothing and emits nothing; an accepted one updates the telemetry object exactly as one updateFromFrame with its reading, emitting that call's signals |
| IoTeensy.TeensyReader.ConsumeOne | src/io_teensy.py:60-79 | on a head mismatch exactly the first byte is removed, nothing else changes and nothing is emitted; otherwise exactly FRAME_LEN bytes are removed and the candidate is processed |
| IoTeensy.TeensyReader.ConsumeBuffer | src/io_teensy.py:55-79 | the buffer ends as a suffix of the old buffer shorter than FRAME_LEN (the scan's rest); a buffer shorter than FRAME_LEN is left untouched with nothing forwarded; the telemetry object ends in the replay of the forwarded readings and the emitted signals are exactly the replay's |
| Telemetry.Signal | src/telemetry.py:33-37 | a setter emits nothing exactly when the new value equals the current one, and otherwise exactly its one signal |
| Telemetry.DemoFlags | src/telemetry.py:138-141 | the demoTick flags are in 0..7, set exactly one of bits 0 and 1 (as `blink` says), set bit 2 if and only if rpm > 6000, and never set bits 3 or 4 |
| Telemetry.AfterFrameFields | src/telemetry.py:113-124 | after updateFromFrame rpm and speed are exactly the arguments, the indicators are bits 0-4 of the flags, and a frame has been seen |
| Telemetry.IndicatorBitsLow | src/telemetry.py:117-121 | the five indicator bits depend only on the flags modulo 32 |
| Telemetry.HighFlagBitsIgnored | src/telemetry.py:117-121 | flag bits above bit 4 change neither the new state nor the signals |
| Telemetry.SilentIffUnchanged | src/telemetry.py:113-124 | an update emits no signal if and only if it leaves the state unchanged |
| Telemetry.RepeatedFrameSilent | src/telemetry.py:113-124 | repeating an update with the same arguments emits nothing and changes nothing |
| Telemetry.DemoIndicators | src/telemetry.py:138-141 | with the demoTick flags the blinkers alternate with `blink`, the high beam follows rpm > 6000, and fog and park stay off |
| Telemetry.SettersNeverFirst | src/telemetry.py:115-121 | the seven setters never emit firstFrameReceived |
| Telemetry.FirstFrameSignalOnce | src/telemetry.py:122-124 | one update emits firstFrameReceived once if no frame was seen before, and not at all otherwise |
| Telemetry.FirstFrameExactlyOnce | src/telemetry.py:122-124 | over any sequence of updates from a state that has seen no frame, firstFrameReceived fires exactly once, during the first update, and the one-shot flag is set from then on |
| Telemetry.ReplayIsLast | src/telemetry.py:113-124 | after a non-empty sequence of updates the state is what the last update alone gives |
| Telemetry.ReplayOne | src/telemetry.py:113-124 | replaying a single update is that update |
| Telemetry.ReplayAppend | src/telemetry.py:113-124 | replaying two sequences one after the other is replaying their concatenation, state and signals |
| Telemetry.Telemetry.constructor | src/telemetry.py:17-26 | a new object has rpm 0, speed 0.0, every indicator off and no frame seen |
| Telemetry.Telemetry.SetRpm | src/telemetry.py:33-37 | rpm becomes `v`, no other field changes, and rpmChanged(v) is emitted exactly when `v` differs from the old rpm |
| Telemetry.Telemetry.SetSpeed | src/telemetry.py:45-49 | speed becomes `v`, no other field changes, and speedChanged(v) is emitted exactly when `v` differs |
| Telemetry.Telemetry.SetLeftBlink | src/telemetry.py:57-61 | leftBlink becomes `v`, no other field changes, and leftBlinkChanged(v) is emitted exactly when `v` differs |
| Telemetry.Telemetry.SetRightBlink | src/telemetry.py:69-73 | rightBlink becomes `v`, no other field changes, and rightBlinkChanged(v) is emitted exactly when `v` differs |
| Telemetry.Telemetry.SetHighBeam | src/telemetry.py:81-85 | highBeam becomes `v`, no other field changes, and highBeamChanged(v) is emitted exactly when `v` differs |
| Telemetry.Telemetry.SetFog | src/telemetry.py:93-97 | fog becomes `v`, no other field changes, and fogChanged(v) is emitted exactly when `v` differs |
| Telemetry.Telemetry.SetPark | src/telemetry.py:105-109 | park becomes `v`, no other field changes, and parkChanged(v) is emitted exactly when `v` differs |
| Telemetry.Telemetry.SetIndicators | src/telemetry.py:117-121 | the five indicators become bits 0-4 of the flags, rpm, speed and the one-shot flag are untouched, and the five setters' signals are emitted in order |
| Telemetry.Telemetry.UpdateFromFrame | src/telemetry.py:113-124 | the new state is AfterFrame of the old one and the emitted signals are the setters' in call order followed by firstFrameReceived when no frame had been seen |

## Left out

- Threading and I/O are not modelled: `TeensyReader.run`, `open_serial`, `stop_event`,
  serial reads and the fallback to demo mode (src/io_teensy.py:20-53). The bytes arrive
  through `ByteBuffer`'s constructor rather than from serial reads.
- The mutex of `Telemetry` is not modelled. `UpdateFromFrame` is taken to run as one
  sequential critical section.
- The Qt timers and globals are not modelled: `_start_demo_gui`, `_demo_loop` and `start`
  (src/io_teensy.py:81-133).
- The demo waveform of `demoTick` is not modelled; it uses float modulo and `int()` of
  floats (src/telemetry.py:129-136). Only its flags expression is modelled, as a function of
  `blink` and `rpm`.
- The crcmod library is not part of this model. Only its documented rule is modelled: the
  register starts at `initCrc ^ xorOut` and the result is XORed with `xorOut`. Its
  table-driven computation is taken to equal the bitwise one written here.
- `src/main.py`, the display and serial constants of `config.py`, the property getters and
  the Qt signal objects and connections are not modelled. Signals are the returned event
  sequences.
- Floating point is not modelled: speed is an exact `real`, so rounding of
  `(vss / 100.0) * 0.036` and NaN are out of scope. Only equality is used on it.
- The guard `if len(buf) < FRAME_LEN: return` (src/io_teensy.py:63-64) is unreachable:
  the loop condition already ensures the length. The model has no such branch.
- IoTeensy.TeensyReader.ConsumeBuffer requires a frame length of at least 1. With
  `FRAME_LEN` 0 the loop condition (src/io_teensy.py:58) always holds. An empty buffer then
  raises IndexError at `buf[0]` (line 60). A buffer whose head is `5A A5`, or a lone `5A`,
  loops forever: `del buf[:0]` (line 66) removes nothing and the empty candidate takes the
  `struct.error` branch (lines 68-70). Any other leading byte is dropped until one of those
  two cases is reached. None of this is modelled.
- There is no ghost log of all signals ever emitted. Each call's contract states the
  signals it returns, and `Replay`/`ReplayEvents` state them over a sequence of calls.
- A frame with length byte 0x0E carrying rpm 2500, vss 2000 and flags 0x0005 is never
  delivered with the configured constants: nothing is forwarded (see Findings). The same
  sample in a 12-byte frame is delivered, by `DecodeEncodeFrame` and
  `ReaderDeliversStream`.

## Findings

| source | as written | input that shows it | evidently intended | confidence | as-written member | corrected member |
|---|---|---|---|---|---|---|
| config.py:33 | `FRAME_LEN_BYTES = 14` while `'<HBBHHHH'` is 12 bytes, so every candidate raises `struct.error` (src/io_teensy.py:68-70) | any 14-byte candidate starting 5A A5, e.g. a correct 12-byte frame followed by two more bytes | a frame length of 12, the struct size, in both the cut and the length byte | high (proved; not executed) | IoTeensy.ConfiguredReaderIsSilent | IoTeensy.ReaderDeliversStream |
| src/io_teensy.py:9 | `mkCrcFun(0x11021, rev=True, initCrc=0xFFFF, xorOut=0xFFFF)` starts the register at 0x0000 under crcmod's convention, so it is not CRC-16/X-25 | "123456789": 0xDE76 instead of the X-25 check value 0x906E | CRC-16/X-25 (crcmod parameters initCrc=0x0000, xorOut=0xFFFF) | medium (relies on crcmod's documented initCrc rule; not executed) | Crc16.SourceCrcCheckValue | Crc16.X25CheckValue |

/** The serial reader of the cluster (src/io_teensy.py): the resynchronising frame parser that
    consumes a growing byte buffer in place and forwards every valid frame to the telemetry
    object. A frame is '<HBBHHHH': magic, version, length, rpm, vss (cm/s), flags and a
    checksum over everything before it, all little-endian. */
module IoTeensy {
  import opened LittleEndian
  import opened Crc16
  import Config
  import T = Telemetry

  /** struct.calcsize('<HBBHHHH'): five 16-bit fields and two bytes. */
  const StructSize: int := 12

  datatype Option<V> = None | Some(value: V)

  /** The seven fields of '<HBBHHHH'. */
  datatype Fields = Fields(
    magic: bv16, version: bv8, length: bv8, rpm: bv16, vss: bv16, flags: bv16, crc: bv16)

  /** struct.unpack('<HBBHHHH', frame): an error unless the candidate is exactly 12 bytes. */
  function Unpack(frame: seq<bv8>): (f: Option<Fields>)
    ensures f.Some? <==> |frame| == StructSize
    ensures f.Some? ==> Pack(f.value) == frame
  {
    if |frame| != StructSize then None
    else
      PackOfUnpacked(frame);
      Some(Fields(Le16(frame[0], frame[1]), frame[2], frame[3], Le16(frame[4], frame[5]),
        Le16(frame[6], frame[7]), Le16(frame[8], frame[9]), Le16(frame[10], frame[11])))
  }

  /** struct.pack('<HBBHHHH', ...). */
  function Pack(f: Fields): (frame: seq<bv8>)
    ensures |frame| == StructSize
  {
    [LowByte(f.magic), HighByte(f.magic), f.version, f.length, LowByte(f.rpm), HighByte(f.rpm),
     LowByte(f.vss), HighByte(f.vss), LowByte(f.flags), HighByte(f.flags),
     LowByte(f.crc), HighByte(f.crc)]
  }

  /** Packing the fields read from 12 bytes gives those bytes back. */
  lemma PackOfUnpacked(frame: seq<bv8>)
    requires |frame| == StructSize
    ensures Pack(Fields(Le16(frame[0], frame[1]), frame[2], frame[3], Le16(frame[4], frame[5]),
        Le16(frame[6], frame[7]), Le16(frame[8], frame[9]), Le16(frame[10], frame[11]))) == frame
  {
  }

  /** Packing a record and unpacking it gives the record back. */
  lemma UnpackPack(f: Fields)
    ensures Unpack(Pack(f)) == Some(f)
  {
    Le16OfBytes(f.magic);
    Le16OfBytes(f.rpm);
    Le16OfBytes(f.vss);
    Le16OfBytes(f.flags);
    Le16OfBytes(f.crc);
  }

  /** Why a candidate is dropped. */
  datatype Reject = UnpackError | BadHeader | BadLength | BadChecksum

  datatype Decoded = Accepted(reading: T.Reading) | Rejected(reason: Reject)

  /** (vss_cm_s / 100.0) * 0.036, in exact arithmetic. */
  function SpeedKmh(vss: bv16): real {
    (vss as int as real / 100.0) * 0.036
  }

  /** Whether the candidate passes every check of the reader: the little-endian magic, the
      version, the length byte, and `crc` of all but the last two bytes against the trailer. */
  predicate WellFormed(frame: seq<bv8>, frameLen: int, crc: seq<bv8> -> bv16) {
    |frame| == StructSize && frame[0] == 0x5A && frame[1] == 0xA5 && frame[2] == 0x01
    && frame[3] as int == frameLen && crc(frame[..10]) == Le16(frame[10], frame[11])
  }

  /** One candidate of `frameLen` bytes, checked in the reader's order and converted to the
      arguments of updateFromFrame; `crc` is the checksum function the reader was built with. */
  function Decode(frame: seq<bv8>, frameLen: int, crc: seq<bv8> -> bv16): (d: Decoded)
    ensures d.Accepted? <==> WellFormed(frame, frameLen, crc)
    ensures d.Accepted? ==> d.reading == T.Reading(Le16(frame[4], frame[5]) as int,
      SpeedKmh(Le16(frame[6], frame[7])), Le16(frame[8], frame[9]) as int)
    ensures d == Rejected(UnpackError) <==> |frame| != StructSize
  {
    match Unpack(frame)
    case None => Rejected(UnpackError)
    case Some(f) =>
      if f.magic as int != Config.FrameMagic || f.version as int != Config.FrameVersion then
        Rejected(BadHeader)
      else if f.length as int != frameLen then Rejected(BadLength)
      else if crc(frame[..|frame| - 2]) != f.crc then Rejected(BadChecksum)
      else Accepted(T.Reading(f.rpm as int, SpeedKmh(f.vss), f.flags as int))
  }

  // ---- The resynchronising scan ----

  /** The reader's head test: the first byte is not the low byte of the magic, or there is a
      second byte and it is not the high byte. */
  predicate HeadMismatch(buf: seq<bv8>)
    requires |buf| >= 1
  {
    buf[0] as int != Config.FrameMagic % 0x100
    || (|buf| >= 2 && buf[1] as int != (Config.FrameMagic / 0x100) % 0x100)
  }

  /** Whether `s` is what is left of `buf` once some bytes are removed from its front. */
  predicate IsSuffix(s: seq<bv8>, buf: seq<bv8>) {
    |s| <= |buf| && s == buf[|buf| - |s|..]
  }

  /** What one consume call leaves in the buffer and the readings it forwards, in order. */
  datatype ScanResult = ScanResult(rest: seq<bv8>, forwarded: seq<T.Reading>)

  /** The consume loop as a function of the buffer: drop one byte on a head mismatch, otherwise
      cut off `frameLen` bytes and forward them if they decode, until fewer than `frameLen`
      bytes remain. */
  function Scan(buf: seq<bv8>, frameLen: int, crc: seq<bv8> -> bv16): (r: ScanResult)
    requires frameLen >= 1
    decreases |buf|
  {
    if |buf| < frameLen then ScanResult(buf, [])
    else if HeadMismatch(buf) then Scan(buf[1..], frameLen, crc)
    else
      var next := Scan(buf[frameLen..], frameLen, crc);
      match Decode(buf[..frameLen], frameLen, crc)
      case Accepted(reading) => ScanResult(next.rest, [reading] + next.forwarded)
      case Rejected(_) => next
  }

  // ---- Properties of the scan ----

  /** No candidate can be unpacked unless FRAME_LEN is the struct size, so nothing is ever
      forwarded with any other length. */
  lemma {:induction false} NothingForwardedUnlessStructSize(buf: seq<bv8>, frameLen: int,
    crc: seq<bv8> -> bv16)
    requires frameLen >= 1 && frameLen != StructSize
    ensures Scan(buf, frameLen, crc).forwarded == []
    decreases |buf|
  {
    if |buf| >= frameLen {
      if HeadMismatch(buf) {
        NothingForwardedUnlessStructSize(buf[1..], frameLen, crc);
      } else {
        assert Decode(buf[..frameLen], frameLen, crc) == Rejected(UnpackError);
        NothingForwardedUnlessStructSize(buf[frameLen..], frameLen, crc);
      }
    }
  }

  /** With the configured FRAME_LEN_BYTES of 14 the reader forwards nothing, whatever arrives. */
  lemma ConfiguredLengthForwardsNothing(buf: seq<bv8>, crc: seq<bv8> -> bv16)
    ensures Scan(buf, Config.FrameLenBytes, crc).forwarded == []
  {
    NothingForwardedUnlessStructSize(buf, Config.FrameLenBytes, crc);
  }

  /** With the configured FRAME_LEN_BYTES, consuming any buffer leaves the telemetry object
      as it was and emits no signal. */
  lemma ConfiguredReaderIsSilent(s: T.Snapshot, buf: seq<bv8>, crc: seq<bv8> -> bv16)
    ensures T.Replay(s, Scan(buf, Config.FrameLenBytes, crc).forwarded) == s
    ensures T.ReplayEvents(s, Scan(buf, Config.FrameLenBytes, crc).forwarded) == []
  {
    ConfiguredLengthForwardsNothing(buf, crc);
  }

  /** The `frameLen` bytes at offset `i`. */
  function Candidate(buf: seq<bv8>, i: int, frameLen: int): seq<bv8>
    requires 0 <= i && frameLen >= 0 && i + frameLen <= |buf|
  {
    buf[i..i + frameLen]
  }

  /** Whether some `frameLen` consecutive bytes of `buf` decode to `x`. */
  ghost predicate DecodedSomewhere(buf: seq<bv8>, frameLen: int, crc: seq<bv8> -> bv16, x: T.Reading)
    requires frameLen >= 0
  {
    exists i :: 0 <= i <= |buf| - frameLen && Decode(Candidate(buf, i, frameLen), frameLen, crc) == Accepted(x)
  }

  lemma DecodedInSuffix(buf: seq<bv8>, k: int, frameLen: int, crc: seq<bv8> -> bv16, x: T.Reading)
    requires 0 <= k <= |buf| && frameLen >= 0 && DecodedSomewhere(buf[k..], frameLen, crc, x)
    ensures DecodedSomewhere(buf, frameLen, crc, x)
  {
    var j :| 0 <= j <= |buf[k..]| - frameLen
      && Decode(Candidate(buf[k..], j, frameLen), frameLen, crc) == Accepted(x);
    CandidateInSuffix(buf, k, j, frameLen);
  }

  lemma CandidateInSuffix(buf: seq<bv8>, k: int, j: int, frameLen: int)
    requires 0 <= k <= |buf| && 0 <= j && frameLen >= 0 && j + frameLen <= |buf| - k
    ensures Candidate(buf[k..], j, frameLen) == Candidate(buf, j + k, frameLen)
  {
  }

  /** Every forwarded reading is the decoding of `frameLen` consecutive bytes of the buffer. */
  lemma {:induction false} ForwardedAreDecoded(buf: seq<bv8>, frameLen: int, crc: seq<bv8> -> bv16)
    requires frameLen >= 1
    ensures forall x :: x in Scan(buf, frameLen, crc).forwarded ==> DecodedSomewhere(buf, frameLen, crc, x)
    decreases |buf|
  {
    if |buf| >= frameLen {
      var k := if HeadMismatch(buf) then 1 else frameLen;
      var fw := Scan(buf[k..], frameLen, crc).forwarded;
      ForwardedAreDecoded(buf[k..], frameLen, crc);
      forall x | x in fw {
        DecodedInSuffix(buf, k, frameLen, crc, x);
      }
      if HeadMismatch(buf) {
        ScanSkip(buf, frameLen, crc);
      } else {
        ScanCut(buf, frameLen, crc);
        var d := Decode(Candidate(buf, 0, frameLen), frameLen, crc);
        assert Candidate(buf, 0, frameLen) == buf[..frameLen];
        if d.Accepted? {
          assert DecodedSomewhere(buf, frameLen, crc, d.reading);
        }
      }
    }
  }

  /** One step of the scan on a head mismatch: the first byte is dropped. */
  lemma ScanSkip(buf: seq<bv8>, frameLen: int, crc: seq<bv8> -> bv16)
    requires frameLen >= 1 && |buf| >= frameLen && HeadMismatch(buf)
    ensures Scan(buf, frameLen, crc) == Scan(buf[1..], frameLen, crc)
  {
  }

  /** One step of the scan on a matching head: a candidate of `frameLen` bytes is cut off, and
      forwarded exactly when it decodes. */
  lemma ScanCut(buf: seq<bv8>, frameLen: int, crc: seq<bv8> -> bv16)
    requires frameLen >= 1 && |buf| >= frameLen && !HeadMismatch(buf)
    ensures Decode(buf[..frameLen], frameLen, crc).Accepted? ==>
      Scan(buf, frameLen, crc) == ScanResult(Scan(buf[frameLen..], frameLen, crc).rest,
        [Decode(buf[..frameLen], frameLen, crc).reading] + Scan(buf[frameLen..], frameLen, crc).forwarded)
    ensures Decode(buf[..frameLen], frameLen, crc).Rejected? ==>
      Scan(buf, frameLen, crc) == Scan(buf[frameLen..], frameLen, crc)
  {
  }

  /** Leading bytes at each of which the head does not match (any byte but 0x5A, or a 0x5A not
      followed by 0xA5) are dropped one by one without effect on what follows. */
  lemma {:induction false} GarbageSkipped(g: seq<bv8>, f: seq<bv8>, frameLen: int,
    crc: seq<bv8> -> bv16)
    requires frameLen >= 1 && |f| >= frameLen
    requires forall i :: 0 <= i < |g| ==> HeadMismatch((g + f)[i..])
    ensures Scan(g + f, frameLen, crc) == Scan(f, frameLen, crc)
    decreases |g|
  {
    if g != [] {
      assert (g + f)[0..] == g + f;
      assert (g + f)[1..] == g[1..] + f;
      ScanSkip(g + f, frameLen, crc);
      forall i | 0 <= i < |g[1..]|
        ensures HeadMismatch((g[1..] + f)[i..])
      {
        assert (g[1..] + f)[i..] == (g + f)[i + 1..];
      }
      GarbageSkipped(g[1..], f, frameLen, crc);
    } else {
      assert g + f == f;
    }
  }

  // ---- Frames as the sender builds them ----

  /** The values the sender puts in one frame. */
  datatype Sample = Sample(rpm: bv16, vss: bv16, flags: bv16)

  /** The arguments of updateFromFrame a sample should produce. */
  function ReadingOf(x: Sample): T.Reading {
    T.Reading(x.rpm as int, SpeedKmh(x.vss), x.flags as int)
  }

  /** The 10 bytes the checksum covers: magic, version 1, length 12, rpm, vss and flags. */
  function Body(x: Sample): (b: seq<bv8>)
    ensures |b| == 10
  {
    [0x5A, 0xA5, 0x01, 0x0C, LowByte(x.rpm), HighByte(x.rpm), LowByte(x.vss), HighByte(x.vss),
     LowByte(x.flags), HighByte(x.flags)]
  }

  /** A well-formed 12-byte frame carrying `x`, with the CRC-16/X-25 of its body as trailer. */
  function EncodeFrame(x: Sample): (frame: seq<bv8>)
    ensures |frame| == StructSize && frame[..10] == Body(x)
  {
    Body(x) + [LowByte(X25(Body(x))), HighByte(X25(Body(x)))]
  }

  /** The reader with a 12-byte frame length and the X-25 checksum decodes an encoded frame to
      exactly the sample's reading. */
  lemma DecodeEncodeFrame(x: Sample)
    ensures Decode(EncodeFrame(x), StructSize, X25) == Accepted(ReadingOf(x))
  {
    var frame := EncodeFrame(x);
    Le16OfBytes(X25(Body(x)));
    Le16OfBytes(x.rpm);
    Le16OfBytes(x.vss);
    Le16OfBytes(x.flags);
    assert frame[..10] == Body(x);
  }

  /** With the checksum function the reader actually builds, the same frame fails the checksum. */
  lemma SourceCrcRejectsEncodedFrame(x: Sample)
    ensures Decode(EncodeFrame(x), StructSize, SourceCrc) == Rejected(BadChecksum)
  {
    var frame := EncodeFrame(x);
    Le16OfBytes(X25(Body(x)));
    SourceCrcNeverX25(Body(x));
    assert frame[..10] == Body(x);
  }

  /** An accepted frame passes the receive check of RFC 1662: its CRC-16/X-25 register over the
      whole frame, trailer included, ends at the good FCS. */
  lemma AcceptedFrameHasGoodFcs(frame: seq<bv8>, frameLen: int)
    requires Decode(frame, frameLen, X25).Accepted?
    ensures Update(X25Preset, frame) == GoodFcs
  {
    assert frame == frame[..10] + [frame[10], frame[11]];
    FcsResidue(frame[..10], frame[10], frame[11]);
  }

  /** The frames of a sequence of samples, back to back. */
  function EncodeStream(xs: seq<Sample>): seq<bv8>
    decreases |xs|
  {
    if xs == [] then [] else EncodeFrame(xs[0]) + EncodeStream(xs[1..])
  }

  function ReadingsOf(xs: seq<Sample>): (rs: seq<T.Reading>)
    ensures |rs| == |xs| && forall k :: 0 <= k < |xs| ==> rs[k] == ReadingOf(xs[k])
    decreases |xs|
  {
    if xs == [] then [] else [ReadingOf(xs[0])] + ReadingsOf(xs[1..])
  }

  /** With a 12-byte frame length and the X-25 checksum, a stream of well-formed frames is
      consumed completely and forwards every sample, in order. */
  lemma {:induction false} ScanEncodedStream(xs: seq<Sample>)
    ensures Scan(EncodeStream(xs), StructSize, X25) == ScanResult([], ReadingsOf(xs))
    decreases |xs|
  {
    if xs != [] {
      var buf := EncodeStream(xs);
      var frame := EncodeFrame(xs[0]);
      assert buf[..StructSize] == frame;
      assert buf[StructSize..] == EncodeStream(xs[1..]);
      assert buf[0] == 0x5A && buf[1] == 0xA5;
      DecodeEncodeFrame(xs[0]);
      ScanCut(buf, StructSize, X25);
      ScanEncodedStream(xs[1..]);
    }
  }

  /** The reader resynchronises: after leading bytes at each of which the head does not match,
      one well-formed frame is consumed completely and forwarded. */
  lemma ResyncAfterGarbage(g: seq<bv8>, x: Sample)
    requires forall i :: 0 <= i < |g| ==> HeadMismatch((g + EncodeFrame(x))[i..])
    ensures Scan(g + EncodeFrame(x), StructSize, X25) == ScanResult([], [ReadingOf(x)])
  {
    GarbageSkipped(g, EncodeFrame(x), StructSize, X25);
    assert EncodeStream([x]) == EncodeFrame(x) + EncodeStream([]);
    ScanEncodedStream([x]);
  }

  /** Resynchronisation is by head only: a stray 5A A5 ahead of a well-formed frame starts a
      candidate that swallows the first ten bytes of the frame, and the frame is lost. */
  lemma StrayHeadHidesFrame(x: Sample)
    ensures Scan([0x5A, 0xA5] + EncodeFrame(x), StructSize, X25) == ScanResult(EncodeFrame(x)[10..], [])
  {
    var buf := [0x5A, 0xA5] + EncodeFrame(x);
    assert buf[..StructSize][2] == 0x5A;
    ScanCut(buf, StructSize, X25);
    assert buf[StructSize..] == EncodeFrame(x)[10..];
  }

  /** Fed such a stream from its initial state, the telemetry object ends holding the last
      sample and has fired firstFrameReceived exactly once. */
  lemma ReaderDeliversStream(xs: seq<Sample>)
    requires xs != []
    ensures T.Replay(T.Initial, Scan(EncodeStream(xs), StructSize, X25).forwarded)
      == T.AfterFrame(T.Initial, ReadingOf(xs[|xs| - 1]))
    ensures multiset(T.ReplayEvents(T.Initial, Scan(EncodeStream(xs), StructSize, X25).forwarded))[T.FirstFrameReceived] == 1
  {
    ScanEncodedStream(xs);
    T.ReplayIsLast(T.Initial, ReadingsOf(xs));
    T.FirstFrameExactlyOnce(T.Initial, ReadingsOf(xs));
  }

  /** With the checksum the reader builds, not one frame of such a stream is forwarded. */
  lemma {:induction false} SourceCrcForwardsNoEncodedFrame(xs: seq<Sample>)
    ensures Scan(EncodeStream(xs), StructSize, SourceCrc) == ScanResult([], [])
    decreases |xs|
  {
    if xs != [] {
      var buf := EncodeStream(xs);
      assert buf[..StructSize] == EncodeFrame(xs[0]);
      assert buf[StructSize..] == EncodeStream(xs[1..]);
      assert buf[0] == 0x5A && buf[1] == 0xA5;
      SourceCrcRejectsEncodedFrame(xs[0]);
      ScanCut(buf, StructSize, SourceCrc);
      SourceCrcForwardsNoEncodedFrame(xs[1..]);
    }
  }

  /** The readings one candidate forwards: its reading when it decodes, none otherwise. */
  function CandidateReadings(frame: seq<bv8>, frameLen: int, crc: seq<bv8> -> bv16): (rs: seq<T.Reading>)
    ensures |rs| <= 1
  {
    match Decode(frame, frameLen, crc)
    case Accepted(reading) => [reading]
    case Rejected(_) => []
  }

  /** One iteration of the consume loop on a buffer of at least `frameLen` bytes. */
  function Step(buf: seq<bv8>, frameLen: int, crc: seq<bv8> -> bv16): (r: ScanResult)
    requires frameLen >= 1 && |buf| >= frameLen
    ensures |r.rest| < |buf| && IsSuffix(r.rest, buf)
  {
    if HeadMismatch(buf) then ScanResult(buf[1..], [])
    else ScanResult(buf[frameLen..], CandidateReadings(buf[..frameLen], frameLen, crc))
  }

  /** The scan is one step followed by the scan of what the step leaves. */
  lemma ScanByStep(buf: seq<bv8>, frameLen: int, crc: seq<bv8> -> bv16)
    requires frameLen >= 1 && |buf| >= frameLen
    ensures Scan(buf, frameLen, crc) == ScanResult(Scan(Step(buf, frameLen, crc).rest, frameLen, crc).rest,
      Step(buf, frameLen, crc).forwarded + Scan(Step(buf, frameLen, crc).rest, frameLen, crc).forwarded)
  {
    if HeadMismatch(buf) {
      ScanSkip(buf, frameLen, crc);
      assert [] + Scan(buf[1..], frameLen, crc).forwarded == Scan(buf[1..], frameLen, crc).forwarded;
    } else {
      ScanCut(buf, frameLen, crc);
      if Decode(buf[..frameLen], frameLen, crc).Rejected? {
        assert [] + Scan(buf[frameLen..], frameLen, crc).forwarded == Scan(buf[frameLen..], frameLen, crc).forwarded;
      }
    }
  }

  /** A suffix of a suffix is a suffix. */
  lemma SuffixOfSuffix(a: seq<bv8>, b: seq<bv8>, c: seq<bv8>)
    requires IsSuffix(b, a) && IsSuffix(c, b)
    ensures IsSuffix(c, a)
  {
    assert forall i :: 0 <= i < |c| ==> c[i] == b[|b| - |c| + i] == a[|a| - |c| + i];
  }

  /** What the scan leaves is a suffix of the buffer shorter than one candidate: the bytes a
      frame may still be arriving into. */
  lemma {:induction false} ScanRest(buf: seq<bv8>, frameLen: int, crc: seq<bv8> -> bv16)
    requires frameLen >= 1
    ensures |Scan(buf, frameLen, crc).rest| < frameLen && IsSuffix(Scan(buf, frameLen, crc).rest, buf)
    decreases |buf|
  {
    if |buf| >= frameLen {
      var st := Step(buf, frameLen, crc);
      ScanByStep(buf, frameLen, crc);
      ScanRest(st.rest, frameLen, crc);
      SuffixOfSuffix(buf, st.rest, Scan(st.rest, frameLen, crc).rest);
    }
  }

  /** The loop invariant of the consume loop survives one iteration. */
  lemma ScanInvStep(total: ScanResult, forwarded: seq<T.Reading>, before: seq<bv8>, frameLen: int,
    crc: seq<bv8> -> bv16)
    requires frameLen >= 1 && |before| >= frameLen
    requires total == ScanResult(Scan(before, frameLen, crc).rest, forwarded + Scan(before, frameLen, crc).forwarded)
    ensures total == ScanResult(Scan(Step(before, frameLen, crc).rest, frameLen, crc).rest,
      (forwarded + Step(before, frameLen, crc).forwarded) + Scan(Step(before, frameLen, crc).rest, frameLen, crc).forwarded)
  {
    var st := Step(before, frameLen, crc);
    var next := Scan(st.rest, frameLen, crc);
    ScanByStep(before, frameLen, crc);
    assert forwarded + (st.forwarded + next.forwarded) == (forwarded + st.forwarded) + next.forwarded;
  }

  // ---- The reader object ----

  /** The growable byte buffer the reader thread fills and the consume loop shrinks in place. */
  class ByteBuffer {
    var bytes: seq<bv8>

    constructor (init: seq<bv8>)
      ensures bytes == init
    {
      bytes := init;
    }
  }

  /** The reader, reduced to what the consume loop uses: the telemetry object it updates. */
  class TeensyReader {
    const telemetry: T.Telemetry

    constructor (telemetry: T.Telemetry)
      ensures this.telemetry == telemetry
    {
      this.telemetry := telemetry;
    }

    /** Lines 67-79 of _consume_buffer: one candidate is unpacked and checked, and forwarded
        to the telemetry object when it passes. */
    method ProcessCandidate(frame: seq<bv8>, frameLen: int, crc: seq<bv8> -> bv16)
      returns (emitted: seq<T.Event>)
      modifies telemetry
      ensures Decode(frame, frameLen, crc).Rejected? ==>
        telemetry.State() == old(telemetry.State()) && emitted == []
      ensures Decode(frame, frameLen, crc).Accepted? ==>
        telemetry.State() == T.AfterFrame(old(telemetry.State()), Decode(frame, frameLen, crc).reading)
        && emitted == T.FrameEvents(old(telemetry.State()), Decode(frame, frameLen, crc).reading)
    {
      var fields := Unpack(frame);
      if fields.None? {
        return [];
      }
      var f := fields.value;
      if f.magic as int != Config.FrameMagic || f.version as int != Config.FrameVersion {
        return [];
      }
      if f.length as int != frameLen {
        return [];
      }
      if crc(frame[..|frame| - 2]) != f.crc {
        return [];
      }
      var speedKmh := SpeedKmh(f.vss);
      emitted := telemetry.UpdateFromFrame(f.rpm as int, speedKmh, f.flags as int);
    }

    /** One iteration of the consume loop: on a head mismatch exactly one byte goes from the
        front; otherwise exactly `frameLen` bytes are cut off as a candidate and processed. */
    method ConsumeOne(buf: ByteBuffer, frameLen: int, crc: seq<bv8> -> bv16)
      returns (emitted: seq<T.Event>)
      requires frameLen >= 1 && |buf.bytes| >= frameLen
      modifies buf, telemetry
      ensures HeadMismatch(old(buf.bytes)) ==>
        (buf.bytes == old(buf.bytes)[1..] && telemetry.State() == old(telemetry.State()) && emitted == [])
      ensures !HeadMismatch(old(buf.bytes)) ==> buf.bytes == old(buf.bytes)[frameLen..]
      ensures buf.bytes == Step(old(buf.bytes), frameLen, crc).rest
      ensures telemetry.State() == T.Replay(old(telemetry.State()), Step(old(buf.bytes), frameLen, crc).forwarded)
      ensures emitted == T.ReplayEvents(old(telemetry.State()), Step(old(buf.bytes), frameLen, crc).forwarded)
    {
      ghost var s := telemetry.State();
      if HeadMismatch(buf.bytes) {
        assert T.Replay(s, []) == s && T.ReplayEvents(s, []) == [];
        buf.bytes := buf.bytes[1..];
        return [];
      }
      var frame := buf.bytes[..frameLen];
      buf.bytes := buf.bytes[frameLen..];
      emitted := ProcessCandidate(frame, frameLen, crc);
      match Decode(frame, frameLen, crc)
      case Accepted(reading) => T.ReplayOne(s, reading);
      case Rejected(_) => assert T.Replay(s, []) == s && T.ReplayEvents(s, []) == [];
    }

    /** _consume_buffer with FRAME_LEN `frameLen` and checksum function `crc`: the buffer ends
        as the scan's rest, the telemetry object as the replay of the forwarded readings, and
        the signals emitted are the replay's. */
    method ConsumeBuffer(buf: ByteBuffer, frameLen: int, crc: seq<bv8> -> bv16)
      returns (emitted: seq<T.Event>)
      requires frameLen >= 1
      modifies buf, telemetry
      ensures buf.bytes == Scan(old(buf.bytes), frameLen, crc).rest
      ensures |buf.bytes| < frameLen && IsSuffix(buf.bytes, old(buf.bytes))
      ensures |old(buf.bytes)| < frameLen ==>
        buf.bytes == old(buf.bytes) && telemetry.State() == old(telemetry.State()) && emitted == []
      ensures telemetry.State()
        == T.Replay(old(telemetry.State()), Scan(old(buf.bytes), frameLen, crc).forwarded)
      ensures emitted == T.ReplayEvents(old(telemetry.State()), Scan(old(buf.bytes), frameLen, crc).forwarded)
    {
      ghost var s0 := telemetry.State();
      ScanRest(buf.bytes, frameLen, crc);
      ghost var total := Scan(buf.bytes, frameLen, crc);
      ghost var forwarded: seq<T.Reading> := [];
      emitted := [];
      while |buf.bytes| >= frameLen
        invariant total == ScanResult(Scan(buf.bytes, frameLen, crc).rest,
          forwarded + Scan(buf.bytes, frameLen, crc).forwarded)
        invariant telemetry.State() == T.Replay(s0, forwarded)
        invariant emitted == T.ReplayEvents(s0, forwarded)
        decreases |buf.bytes|
      {
        ghost var before := buf.bytes;
        var e := ConsumeOne(buf, frameLen, crc);
        ScanInvStep(total, forwarded, before, frameLen, crc);
        T.ReplayAppend(s0, forwarded, Step(before, frameLen, crc).forwarded);
        forwarded := forwarded + Step(before, frameLen, crc).forwarded;
        emitted := emitted + e;
      }
      assert Scan(buf.bytes, frameLen, crc) == ScanResult(buf.bytes, []);
      assert forwarded + [] == forwarded;
    }
  }
}

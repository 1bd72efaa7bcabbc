/** The telemetry store of the cluster (src/telemetry.py): seven gauge and indicator fields,
    each with a change signal, and a one-shot "first frame received" signal. The pure part
    (Snapshot, AfterFrame, FrameEvents, Replay) states what one or many frame updates do; the
    class Telemetry is the object the reader updates in place and is proved against it. */
module Telemetry {

  /** The signals the object emits, each carrying the new value. */
  datatype Event =
    | RpmChanged(rpm: int)
    | SpeedChanged(speed: real)
    | LeftBlinkChanged(leftBlink: bool)
    | RightBlinkChanged(rightBlink: bool)
    | HighBeamChanged(highBeam: bool)
    | FogChanged(fog: bool)
    | ParkChanged(park: bool)
    | FirstFrameReceived

  /** The values of the object's fields at one moment. */
  datatype Snapshot = Snapshot(
    rpm: int, speed: real,
    leftBlink: bool, rightBlink: bool, highBeam: bool, fog: bool, park: bool,
    gotFirst: bool)

  /** The arguments of one updateFromFrame call. */
  datatype Reading = Reading(rpm: int, speedKmh: real, flags: int)

  /** The state right after construction. */
  const Initial := Snapshot(0, 0.0, false, false, false, false, false, false)

  /** Whether `flags & mask` is non-zero, for a mask `1 << k`, on any integer: negative
      flags read in two's complement as Python does (Dafny's division by a positive number
      rounds down). */
  function FlagBit(flags: int, mask: nat): bool
    requires mask > 0
  {
    (flags / mask) % 2 == 1
  }

  /** The state after one updateFromFrame call. */
  function AfterFrame(s: Snapshot, r: Reading): Snapshot {
    Snapshot(r.rpm, r.speedKmh,
      FlagBit(r.flags, 1), FlagBit(r.flags, 2), FlagBit(r.flags, 4), FlagBit(r.flags, 8),
      FlagBit(r.flags, 16), true)
  }

  /** The signal a setter emits when asked to store `now` over `was`: `e`, unless the value
      is already the current one. */
  function Signal<T(==)>(was: T, now: T, e: Event): (sig: seq<Event>)
    ensures sig == [] <==> was == now
    ensures sig != [] ==> sig == [e]
  {
    if was == now then [] else [e]
  }

  /** The signals of the five indicator setters, which read bits 0-4 of `flags`. */
  function IndicatorEvents(s: Snapshot, flags: int): seq<Event> {
    Signal(s.leftBlink, FlagBit(flags, 1), LeftBlinkChanged(FlagBit(flags, 1)))
    + Signal(s.rightBlink, FlagBit(flags, 2), RightBlinkChanged(FlagBit(flags, 2)))
    + Signal(s.highBeam, FlagBit(flags, 4), HighBeamChanged(FlagBit(flags, 4)))
    + Signal(s.fog, FlagBit(flags, 8), FogChanged(FlagBit(flags, 8)))
    + Signal(s.park, FlagBit(flags, 16), ParkChanged(FlagBit(flags, 16)))
  }

  /** The signals of the seven setters of one updateFromFrame call, in the order they run:
      rpm, speed, then the five indicators. */
  function SetterEvents(s: Snapshot, r: Reading): seq<Event> {
    Signal(s.rpm, r.rpm, RpmChanged(r.rpm))
    + Signal(s.speed, r.speedKmh, SpeedChanged(r.speedKmh))
    + IndicatorEvents(s, r.flags)
  }

  /** All signals of one updateFromFrame call: the setters', then the one-shot signal. */
  function FrameEvents(s: Snapshot, r: Reading): seq<Event> {
    SetterEvents(s, r) + (if s.gotFirst then [] else [FirstFrameReceived])
  }

  /** The state after a sequence of updateFromFrame calls. */
  function Replay(s: Snapshot, rs: seq<Reading>): Snapshot
    decreases |rs|
  {
    if rs == [] then s else Replay(AfterFrame(s, rs[0]), rs[1..])
  }

  /** All signals of a sequence of updateFromFrame calls. */
  function ReplayEvents(s: Snapshot, rs: seq<Reading>): seq<Event>
    decreases |rs|
  {
    if rs == [] then [] else FrameEvents(s, rs[0]) + ReplayEvents(AfterFrame(s, rs[0]), rs[1..])
  }

  /** The flags demoTick passes: bit 0 while the blinker phase is on, bit 1 while it is off,
      bit 2 above 6000 rpm, `|` computed on 8-bit values as the operands are 0, 1, 2 or 4. */
  function DemoFlags(blink: bool, rpm: int): (f: int)
    ensures 0 <= f < 8
    ensures FlagBit(f, 1) == blink && FlagBit(f, 2) == !blink
    ensures FlagBit(f, 4) <==> rpm > 6000
    ensures !FlagBit(f, 8) && !FlagBit(f, 16)
  {
    var bits: bv8 := (if blink then 1 else 0) | ((if !blink then 1 else 0) << 1)
                     | (if rpm > 6000 then 1 << 2 else 0);
    bits as int
  }

  // ---- What one update does ----

  /** updateFromFrame stores rpm and speed as given and reads the indicators from bits 0-4. */
  lemma AfterFrameFields(s: Snapshot, r: Reading)
    ensures AfterFrame(s, r).rpm == r.rpm && AfterFrame(s, r).speed == r.speedKmh
    ensures AfterFrame(s, r).leftBlink == FlagBit(r.flags, 1)
    ensures AfterFrame(s, r).rightBlink == FlagBit(r.flags, 2)
    ensures AfterFrame(s, r).highBeam == FlagBit(r.flags, 4)
    ensures AfterFrame(s, r).fog == FlagBit(r.flags, 8)
    ensures AfterFrame(s, r).park == FlagBit(r.flags, 16)
    ensures AfterFrame(s, r).gotFirst
  {
  }

  /** Division of 32q + m by the indicator masks, for 0 <= m < 32. */
  lemma MaskQuotients(q: int, m: int)
    requires 0 <= m < 32
    ensures (32 * q + m) / 2 == 16 * q + m / 2
    ensures (32 * q + m) / 4 == 8 * q + m / 4
    ensures (32 * q + m) / 8 == 4 * q + m / 8
    ensures (32 * q + m) / 16 == 2 * q + m / 16
  {
  }

  /** Adding an even number keeps the parity. */
  lemma ParityShift(a: int, x: int)
    ensures (2 * a + x) % 2 == x % 2
  {
  }

  /** The five indicator bits depend only on the flags modulo 32. */
  lemma IndicatorBitsLow(f: int)
    ensures FlagBit(f, 1) == FlagBit(f % 32, 1) && FlagBit(f, 2) == FlagBit(f % 32, 2)
    ensures FlagBit(f, 4) == FlagBit(f % 32, 4) && FlagBit(f, 8) == FlagBit(f % 32, 8)
    ensures FlagBit(f, 16) == FlagBit(f % 32, 16)
  {
    var q, m := f / 32, f % 32;
    assert f == 32 * q + m;
    MaskQuotients(q, m);
    ParityShift(16 * q, m);
    ParityShift(8 * q, m / 2);
    ParityShift(4 * q, m / 4);
    ParityShift(2 * q, m / 8);
    ParityShift(q, m / 16);
  }

  /** Bits above bit 4 of the flags have no effect on the state or the signals. */
  lemma HighFlagBitsIgnored(s: Snapshot, rpm: int, speed: real, flags: int)
    ensures AfterFrame(s, Reading(rpm, speed, flags)) == AfterFrame(s, Reading(rpm, speed, flags % 32))
    ensures FrameEvents(s, Reading(rpm, speed, flags)) == FrameEvents(s, Reading(rpm, speed, flags % 32))
  {
    IndicatorBitsLow(flags);
  }

  /** An update emits no signal exactly when it changes nothing. */
  lemma SilentIffUnchanged(s: Snapshot, r: Reading)
    ensures FrameEvents(s, r) == [] <==> AfterFrame(s, r) == s
  {
    if FrameEvents(s, r) == [] {
      assert |FrameEvents(s, r)| == 0;
    }
  }

  /** A second update with the same arguments emits nothing and changes nothing. */
  lemma RepeatedFrameSilent(s: Snapshot, r: Reading)
    ensures FrameEvents(AfterFrame(s, r), r) == []
    ensures AfterFrame(AfterFrame(s, r), r) == AfterFrame(s, r)
  {
  }

  /** With the flags demoTick builds, the blinkers alternate, the high beam follows the
      6000 rpm threshold and fog and park stay off. */
  lemma DemoIndicators(s: Snapshot, blink: bool, rpm: int, speed: real)
    ensures AfterFrame(s, Reading(rpm, speed, DemoFlags(blink, rpm))).leftBlink == blink
    ensures AfterFrame(s, Reading(rpm, speed, DemoFlags(blink, rpm))).rightBlink == !blink
    ensures AfterFrame(s, Reading(rpm, speed, DemoFlags(blink, rpm))).highBeam == (rpm > 6000)
    ensures !AfterFrame(s, Reading(rpm, speed, DemoFlags(blink, rpm))).fog
    ensures !AfterFrame(s, Reading(rpm, speed, DemoFlags(blink, rpm))).park
  {
  }

  // ---- What a sequence of updates does ----

  /** Signals none of which is firstFrameReceived, one after another, hold none. */
  lemma NoFirstAmong(e1: seq<Event>, e2: seq<Event>, e3: seq<Event>, e4: seq<Event>,
    e5: seq<Event>, e6: seq<Event>, e7: seq<Event>)
    requires FirstFrameReceived !in e1 && FirstFrameReceived !in e2 && FirstFrameReceived !in e3
    requires FirstFrameReceived !in e4 && FirstFrameReceived !in e5 && FirstFrameReceived !in e6
    requires FirstFrameReceived !in e7
    ensures FirstFrameReceived !in e1 + e2 + e3 + e4 + e5 + e6 + e7
  {
  }

  /** No setter emits firstFrameReceived. */
  lemma SettersNeverFirst(s: Snapshot, r: Reading)
    ensures FirstFrameReceived !in SetterEvents(s, r)
  {
    var e1 := Signal(s.rpm, r.rpm, RpmChanged(r.rpm));
    var e2 := Signal(s.speed, r.speedKmh, SpeedChanged(r.speedKmh));
    var e3 := Signal(s.leftBlink, FlagBit(r.flags, 1), LeftBlinkChanged(FlagBit(r.flags, 1)));
    var e4 := Signal(s.rightBlink, FlagBit(r.flags, 2), RightBlinkChanged(FlagBit(r.flags, 2)));
    var e5 := Signal(s.highBeam, FlagBit(r.flags, 4), HighBeamChanged(FlagBit(r.flags, 4)));
    var e6 := Signal(s.fog, FlagBit(r.flags, 8), FogChanged(FlagBit(r.flags, 8)));
    var e7 := Signal(s.park, FlagBit(r.flags, 16), ParkChanged(FlagBit(r.flags, 16)));
    IndicatorEventsOf(s, r.flags, e3, e4, e5, e6, e7);
    SetterEventsOf(s, r, e1, e2, e3 + e4 + e5 + e6 + e7);
    NoFirstAmong(e1, e2, e3, e4, e5, e6, e7);
  }

  /** One update emits firstFrameReceived once if the object had not seen a frame, never
      otherwise. */
  lemma FirstFrameSignalOnce(s: Snapshot, r: Reading)
    ensures multiset(FrameEvents(s, r))[FirstFrameReceived] == if s.gotFirst then 0 else 1
  {
    SettersNeverFirst(s, r);
    var setters := SetterEvents(s, r);
    assert multiset(setters)[FirstFrameReceived] == 0;
    assert multiset(FrameEvents(s, r))
      == multiset(setters) + multiset(if s.gotFirst then [] else [FirstFrameReceived]);
  }

  /** firstFrameReceived fires exactly once over any non-empty sequence of updates from a
      state that has not seen a frame, and it fires during the first update. */
  lemma {:induction false} FirstFrameExactlyOnce(s: Snapshot, rs: seq<Reading>)
    ensures multiset(ReplayEvents(s, rs))[FirstFrameReceived]
         == if s.gotFirst || rs == [] then 0 else 1
    ensures Replay(s, rs).gotFirst == (s.gotFirst || rs != [])
    ensures !s.gotFirst && rs != [] ==> FirstFrameReceived in FrameEvents(s, rs[0])
    decreases |rs|
  {
    if rs != [] {
      FirstFrameSignalOnce(s, rs[0]);
      FirstFrameExactlyOnce(AfterFrame(s, rs[0]), rs[1..]);
      if !s.gotFirst {
        assert multiset(FrameEvents(s, rs[0]))[FirstFrameReceived] > 0;
      }
    }
  }

  /** After a non-empty sequence of updates the state is the one the last update alone gives:
      updateFromFrame overwrites every field. */
  lemma {:induction false} ReplayIsLast(s: Snapshot, rs: seq<Reading>)
    requires rs != []
    ensures Replay(s, rs) == AfterFrame(s, rs[|rs| - 1])
    decreases |rs|
  {
    if |rs| > 1 {
      ReplayIsLast(AfterFrame(s, rs[0]), rs[1..]);
      assert rs[1..][|rs| - 2] == rs[|rs| - 1];
    }
  }

  /** Replaying a single update is that update. */
  lemma ReplayOne(s: Snapshot, r: Reading)
    ensures Replay(s, [r]) == AfterFrame(s, r) && ReplayEvents(s, [r]) == FrameEvents(s, r)
  {
    assert [r][1..] == [];
  }

  /** Replaying two sequences one after the other is replaying their concatenation. */
  lemma {:induction false} ReplayAppend(s: Snapshot, a: seq<Reading>, b: seq<Reading>)
    ensures Replay(s, a + b) == Replay(Replay(s, a), b)
    ensures ReplayEvents(s, a + b) == ReplayEvents(s, a) + ReplayEvents(Replay(s, a), b)
    decreases |a|
  {
    if a == [] {
      assert a + b == b;
    } else {
      assert (a + b)[0] == a[0];
      assert (a + b)[1..] == a[1..] + b;
      ReplayAppend(AfterFrame(s, a[0]), a[1..], b);
    }
  }

  /** The rpm and speed signals followed by the indicator signals are SetterEvents. */
  lemma SetterEventsOf(s: Snapshot, r: Reading, e1: seq<Event>, e2: seq<Event>, ind: seq<Event>)
    requires e1 == Signal(s.rpm, r.rpm, RpmChanged(r.rpm))
    requires e2 == Signal(s.speed, r.speedKmh, SpeedChanged(r.speedKmh))
    requires ind == IndicatorEvents(s, r.flags)
    ensures e1 + e2 + ind == SetterEvents(s, r)
  {
  }

  /** The five indicator setters' signals, one after another, are IndicatorEvents. */
  lemma IndicatorEventsOf(s: Snapshot, flags: int, e3: seq<Event>, e4: seq<Event>, e5: seq<Event>,
    e6: seq<Event>, e7: seq<Event>)
    requires e3 == Signal(s.leftBlink, FlagBit(flags, 1), LeftBlinkChanged(FlagBit(flags, 1)))
    requires e4 == Signal(s.rightBlink, FlagBit(flags, 2), RightBlinkChanged(FlagBit(flags, 2)))
    requires e5 == Signal(s.highBeam, FlagBit(flags, 4), HighBeamChanged(FlagBit(flags, 4)))
    requires e6 == Signal(s.fog, FlagBit(flags, 8), FogChanged(FlagBit(flags, 8)))
    requires e7 == Signal(s.park, FlagBit(flags, 16), ParkChanged(FlagBit(flags, 16)))
    ensures e3 + e4 + e5 + e6 + e7 == IndicatorEvents(s, flags)
  {
  }

  /** The store object. Setters and updateFromFrame change its fields in place; each call
      returns the signals it emits, in emission order (the Qt signal connections are not part
      of this model). */
  class Telemetry {
    var rpm: int
    var speed: real
    var leftBlink: bool
    var rightBlink: bool
    var highBeam: bool
    var fog: bool
    var park: bool
    var gotFirst: bool

    /** The values of the fields. */
    function State(): Snapshot
      reads this
    {
      Snapshot(rpm, speed, leftBlink, rightBlink, highBeam, fog, park, gotFirst)
    }

    constructor ()
      ensures State() == Initial
    {
      rpm, speed := 0, 0.0;
      leftBlink, rightBlink, highBeam, fog, park := false, false, false, false, false;
      gotFirst := false;
    }

    method SetRpm(v: int) returns (emitted: seq<Event>)
      modifies this`rpm
      ensures rpm == v
      ensures speed == old(speed) && leftBlink == old(leftBlink) && rightBlink == old(rightBlink) && highBeam == old(highBeam)
        && fog == old(fog) && park == old(park) && gotFirst == old(gotFirst)
      ensures emitted == Signal(old(rpm), v, RpmChanged(v))
    {
      if v == rpm {
        return [];
      }
      rpm := v;
      emitted := [RpmChanged(v)];
    }

    method SetSpeed(v: real) returns (emitted: seq<Event>)
      modifies this`speed
      ensures speed == v
      ensures rpm == old(rpm) && leftBlink == old(leftBlink) && rightBlink == old(rightBlink) && highBeam == old(highBeam)
        && fog == old(fog) && park == old(park) && gotFirst == old(gotFirst)
      ensures emitted == Signal(old(speed), v, SpeedChanged(v))
    {
      if v == speed {
        return [];
      }
      speed := v;
      emitted := [SpeedChanged(v)];
    }

    method SetLeftBlink(v: bool) returns (emitted: seq<Event>)
      modifies this`leftBlink
      ensures leftBlink == v
      ensures rpm == old(rpm) && speed == old(speed) && rightBlink == old(rightBlink) && highBeam == old(highBeam)
        && fog == old(fog) && park == old(park) && gotFirst == old(gotFirst)
      ensures emitted == Signal(old(leftBlink), v, LeftBlinkChanged(v))
    {
      if v == leftBlink {
        return [];
      }
      leftBlink := v;
      emitted := [LeftBlinkChanged(v)];
    }

    method SetRightBlink(v: bool) returns (emitted: seq<Event>)
      modifies this`rightBlink
      ensures rightBlink == v
      ensures rpm == old(rpm) && speed == old(speed) && leftBlink == old(leftBlink) && highBeam == old(highBeam)
        && fog == old(fog) && park == old(park) && gotFirst == old(gotFirst)
      ensures emitted == Signal(old(rightBlink), v, RightBlinkChanged(v))
    {
      if v == rightBlink {
        return [];
      }
      rightBlink := v;
      emitted := [RightBlinkChanged(v)];
    }

    method SetHighBeam(v: bool) returns (emitted: seq<Event>)
      modifies this`highBeam
      ensures highBeam == v
      ensures rpm == old(rpm) && speed == old(speed) && leftBlink == old(leftBlink) && rightBlink == old(rightBlink)
        && fog == old(fog) && park == old(park) && gotFirst == old(gotFirst)
      ensures emitted == Signal(old(highBeam), v, HighBeamChanged(v))
    {
      if v == highBeam {
        return [];
      }
      highBeam := v;
      emitted := [HighBeamChanged(v)];
    }

    method SetFog(v: bool) returns (emitted: seq<Event>)
      modifies this`fog
      ensures fog == v
      ensures rpm == old(rpm) && speed == old(speed) && leftBlink == old(leftBlink) && rightBlink == old(rightBlink)
        && highBeam == old(highBeam) && park == old(park) && gotFirst == old(gotFirst)
      ensures emitted == Signal(old(fog), v, FogChanged(v))
    {
      if v == fog {
        return [];
      }
      fog := v;
      emitted := [FogChanged(v)];
    }

    method SetPark(v: bool) returns (emitted: seq<Event>)
      modifies this`park
      ensures park == v
      ensures rpm == old(rpm) && speed == old(speed) && leftBlink == old(leftBlink) && rightBlink == old(rightBlink)
        && highBeam == old(highBeam) && fog == old(fog) && gotFirst == old(gotFirst)
      ensures emitted == Signal(old(park), v, ParkChanged(v))
    {
      if v == park {
        return [];
      }
      park := v;
      emitted := [ParkChanged(v)];
    }

    /** The five indicator setters in turn, each fed one of bits 0-4 of `flags` (the middle
        part of updateFromFrame). */
    method SetIndicators(flags: int) returns (emitted: seq<Event>)
      modifies this`leftBlink, this`rightBlink, this`highBeam, this`fog, this`park
      ensures leftBlink == FlagBit(flags, 1) && rightBlink == FlagBit(flags, 2)
        && highBeam == FlagBit(flags, 4) && fog == FlagBit(flags, 8) && park == FlagBit(flags, 16)
      ensures rpm == old(rpm) && speed == old(speed) && gotFirst == old(gotFirst)
      ensures emitted == IndicatorEvents(old(State()), flags)
    {
      var e3 := SetLeftBlink(FlagBit(flags, 1));
      var e4 := SetRightBlink(FlagBit(flags, 2));
      var e5 := SetHighBeam(FlagBit(flags, 4));
      var e6 := SetFog(FlagBit(flags, 8));
      var e7 := SetPark(FlagBit(flags, 16));
      emitted := e3 + e4 + e5 + e6 + e7;
      IndicatorEventsOf(old(State()), flags, e3, e4, e5, e6, e7);
    }

    /** One frame's worth of updates, taken as a single critical section: the rpm and speed
        setters, the indicator setters, then the one-shot first-frame signal. */
    method UpdateFromFrame(rpm: int, speedKmh: real, flags: int) returns (emitted: seq<Event>)
      modifies this
      ensures State() == AfterFrame(old(State()), Reading(rpm, speedKmh, flags))
      ensures emitted == FrameEvents(old(State()), Reading(rpm, speedKmh, flags))
    {
      var e1 := SetRpm(rpm);
      var e2 := SetSpeed(speedKmh);
      var ind := SetIndicators(flags);
      SetterEventsOf(old(State()), Reading(rpm, speedKmh, flags), e1, e2, ind);
      var first: seq<Event> := [];
      if !gotFirst {
        gotFirst := true;
        first := [FirstFrameReceived];
      }
      emitted := e1 + e2 + ind + first;
    }
  }
}

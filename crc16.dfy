/** The 16-bit frame check sequence of the telemetry link: the reflected CRC with generator
    x^16 + x^12 + x^5 + 1, in the bitwise form of the FCS-16 of RFC 1662 Appendix C (the
    generator step of C.1, the constants of C.2; the CRC-16/X-25 parameter set: reflected
    polynomial 0x8408, register preset 0xFFFF, final complement 0xFFFF). The reader builds its
    CRC with crcmod.mkCrcFun; crcmod itself is not part of this model, only its documented rule
    for turning the parameters into a starting register. */
module Crc16 {
  import opened LittleEndian

  /** 0x1021 with its bits reversed, for the least-significant-bit-first register. */
  const ReflectedPoly: bv16 := 0x8408
  const X25Preset: bv16 := 0xFFFF
  const X25XorOut: bv16 := 0xFFFF
  /** The register value RFC 1662 calls a good final FCS (PPPGOODFCS16). */
  const GoodFcs: bv16 := 0xF0B8

  /** One shift of the register, feeding back the polynomial when a 1 is shifted out. */
  function ShiftStep(r: bv16): bv16 {
    if r & 1 == 1 then (r >> 1) ^ ReflectedPoly else r >> 1
  }

  function Shift4(r: bv16): bv16 {
    ShiftStep(ShiftStep(ShiftStep(ShiftStep(r))))
  }

  /** One byte into the register: XOR it into the low end, then eight shift steps. */
  function ByteStep(r: bv16, b: bv8): bv16 {
    Shift4(Shift4(r ^ (b as bv16)))
  }

  /** The register after feeding `data`, first byte first, into a register holding `r`. */
  function Update(r: bv16, data: seq<bv8>): bv16
    decreases |data|
  {
    if |data| == 0 then r else Update(ByteStep(r, data[0]), data[1..])
  }

  /** CRC-16/X-25 of `data`. */
  function X25(data: seq<bv8>): bv16 {
    Update(X25Preset, data) ^ X25XorOut
  }

  /** What a crcmod function built with parameters `initCrc`, `xorOut` returns: crcmod takes
      `initCrc` to be the CRC of the empty string, so its register starts at `initCrc ^ xorOut`. */
  function Crcmod(initCrc: bv16, xorOut: bv16, data: seq<bv8>): (c: bv16)
    ensures data == [] ==> c == initCrc
  {
    Update(initCrc ^ xorOut, data) ^ xorOut
  }

  /** The function the reader builds, mkCrcFun(0x11021, rev=True, initCrc=0xFFFF, xorOut=0xFFFF):
      its register starts at 0x0000, not at the X-25 preset. */
  function SourceCrc(data: seq<bv8>): bv16 {
    Crcmod(0xFFFF, 0xFFFF, data)
  }

  /** The parameter set that does give CRC-16/X-25 under crcmod's rule: initCrc 0x0000. */
  lemma X25AsCrcmod(data: seq<bv8>)
    ensures Crcmod(0x0000, 0xFFFF, data) == X25(data)
  {
  }

  // ---- The register, byte by byte ----

  lemma {:induction false} UpdateAppend(r: bv16, a: seq<bv8>, b: seq<bv8>)
    ensures Update(r, a + b) == Update(Update(r, a), b)
    decreases |a|
  {
    if |a| > 0 {
      assert (a + b)[0] == a[0];
      assert (a + b)[1..] == a[1..] + b;
      UpdateAppend(ByteStep(r, a[0]), a[1..], b);
    } else {
      assert a + b == b;
    }
  }

  lemma UpdatePair(r: bv16, a: bv8, b: bv8)
    ensures Update(r, [a, b]) == ByteStep(ByteStep(r, a), b)
  {
    assert [a, b][1..] == [b];
    assert [b][1..] == [];
    assert Update(ByteStep(r, a), [b]) == Update(ByteStep(ByteStep(r, a), b), []);
  }

  /** One unfolding of Update in the middle of a sequence. */
  lemma UpdateStep(r: bv16, d: seq<bv8>, k: nat)
    requires k < |d|
    ensures Update(r, d[k..]) == Update(ByteStep(r, d[k]), d[k + 1..])
  {
    assert d[k..][1..] == d[k + 1..];
  }

  lemma ShiftStepInjective(x: bv16, y: bv16)
    requires x != y
    ensures ShiftStep(x) != ShiftStep(y)
  {
  }

  lemma Shift4Injective(x: bv16, y: bv16)
    requires x != y
    ensures Shift4(x) != Shift4(y)
  {
    ShiftStepInjective(x, y);
    ShiftStepInjective(ShiftStep(x), ShiftStep(y));
    ShiftStepInjective(ShiftStep(ShiftStep(x)), ShiftStep(ShiftStep(y)));
    ShiftStepInjective(ShiftStep(ShiftStep(ShiftStep(x))), ShiftStep(ShiftStep(ShiftStep(y))));
  }

  /** Distinct registers stay distinct through a byte. */
  lemma ByteStepInjectiveInRegister(r1: bv16, r2: bv16, b: bv8)
    requires r1 != r2
    ensures ByteStep(r1, b) != ByteStep(r2, b)
  {
    var x1, x2 := r1 ^ (b as bv16), r2 ^ (b as bv16);
    Shift4Injective(x1, x2);
    Shift4Injective(Shift4(x1), Shift4(x2));
  }

  /** Distinct bytes give distinct registers. */
  lemma ByteStepInjectiveInByte(r: bv16, a: bv8, b: bv8)
    requires a != b
    ensures ByteStep(r, a) != ByteStep(r, b)
  {
    var x1, x2 := r ^ (a as bv16), r ^ (b as bv16);
    Shift4Injective(x1, x2);
    Shift4Injective(Shift4(x1), Shift4(x2));
  }

  /** Two registers that differ never meet again, whatever bytes follow. */
  lemma {:induction false} UpdateInjective(r1: bv16, r2: bv16, data: seq<bv8>)
    requires r1 != r2
    ensures Update(r1, data) != Update(r2, data)
    decreases |data|
  {
    if |data| > 0 {
      ByteStepInjectiveInRegister(r1, r2, data[0]);
      UpdateInjective(ByteStep(r1, data[0]), ByteStep(r2, data[0]), data[1..]);
    }
  }

  // ---- Properties of the checksum ----

  /** The CRC-16/X-25 check value: the CRC of the ASCII string "123456789" is 0x906E. */
  lemma X25CheckValue()
    ensures X25([0x31, 0x32, 0x33, 0x34, 0x35, 0x36, 0x37, 0x38, 0x39]) == 0x906E
  {
    var d: seq<bv8> := [0x31, 0x32, 0x33, 0x34, 0x35, 0x36, 0x37, 0x38, 0x39];
    UpdateStep(0xFFFF, d, 0);
    assert ByteStep(0xFFFF, 0x31) == 0x2F8D;
    UpdateStep(0x2F8D, d, 1);
    assert ByteStep(0x2F8D, 0x32) == 0x4D53;
    UpdateStep(0x4D53, d, 2);
    assert ByteStep(0x4D53, 0x33) == 0x634B;
    UpdateStep(0x634B, d, 3);
    assert ByteStep(0x634B, 0x34) == 0x8B13;
    UpdateStep(0x8B13, d, 4);
    assert ByteStep(0x8B13, 0x35) == 0x44BF;
    UpdateStep(0x44BF, d, 5);
    assert ByteStep(0x44BF, 0x36) == 0x198D;
    UpdateStep(0x198D, d, 6);
    assert ByteStep(0x198D, 0x37) == 0x1AC8;
    UpdateStep(0x1AC8, d, 7);
    assert ByteStep(0x1AC8, 0x38) == 0xF795;
    UpdateStep(0xF795, d, 8);
    assert ByteStep(0xF795, 0x39) == 0x6F91;
    assert d[9..] == [];
  }

  /** The function the reader builds gives 0xDE76 on "123456789", not the X-25 check value. */
  lemma SourceCrcCheckValue()
    ensures SourceCrc([0x31, 0x32, 0x33, 0x34, 0x35, 0x36, 0x37, 0x38, 0x39]) == 0xDE76
  {
    var d: seq<bv8> := [0x31, 0x32, 0x33, 0x34, 0x35, 0x36, 0x37, 0x38, 0x39];
    UpdateStep(0x0000, d, 0);
    assert ByteStep(0x0000, 0x31) == 0x200A;
    UpdateStep(0x200A, d, 1);
    assert ByteStep(0x200A, 0x32) == 0xBDEB;
    UpdateStep(0xBDEB, d, 2);
    assert ByteStep(0xBDEB, 0x33) == 0x5A78;
    UpdateStep(0x5A78, d, 3);
    assert ByteStep(0x5A78, 0x34) == 0x8832;
    UpdateStep(0x8832, d, 4);
    assert ByteStep(0x8832, 0x35) == 0x7437;
    UpdateStep(0x7437, d, 5);
    assert ByteStep(0x7437, 0x36) == 0x11FD;
    UpdateStep(0x11FD, d, 6);
    assert ByteStep(0x11FD, 0x37) == 0x6947;
    UpdateStep(0x6947, d, 7);
    assert ByteStep(0x6947, 0x38) == 0x8B19;
    UpdateStep(0x8B19, d, 8);
    assert ByteStep(0x8B19, 0x39) == 0x2189;
    assert d[9..] == [];
  }

  /** The reader's CRC and CRC-16/X-25 disagree on every input, the empty one included:
      the two registers start apart and never meet. */
  lemma SourceCrcNeverX25(data: seq<bv8>)
    ensures SourceCrc(data) != X25(data)
  {
    UpdateInjective(0x0000, X25Preset, data);
  }

  /** Any change confined to one byte (in particular any single flipped bit) changes the CRC. */
  lemma SingleByteErrorDetected(data: seq<bv8>, i: nat, b: bv8)
    requires i < |data| && b != data[i]
    ensures X25(data[i := b]) != X25(data)
  {
    var corrupt := data[i := b];
    var r := Update(X25Preset, data[..i]);
    assert data == data[..i] + [data[i]] + data[i + 1..];
    assert corrupt == data[..i] + [b] + data[i + 1..];
    UpdateAppend(X25Preset, data[..i] + [data[i]], data[i + 1..]);
    UpdateAppend(X25Preset, data[..i], [data[i]]);
    UpdateAppend(X25Preset, data[..i] + [b], data[i + 1..]);
    UpdateAppend(X25Preset, data[..i], [b]);
    assert [b][1..] == [] && [data[i]][1..] == [];
    ByteStepInjectiveInByte(r, data[i], b);
    UpdateInjective(ByteStep(r, data[i]), ByteStep(r, b), data[i + 1..]);
  }

  /** Whatever the register, feeding it its own complement, low byte first, leaves the good FCS. */
  lemma ComplementLeavesGoodFcs(r: bv16)
    ensures ByteStep(ByteStep(r, LowByte(r ^ X25XorOut)), HighByte(r ^ X25XorOut)) == GoodFcs
  {
  }

  /** No other pair of bytes leaves the good FCS. */
  lemma OnlyComplementLeavesGoodFcs(r: bv16, a: bv8, b: bv8)
    requires ByteStep(ByteStep(r, a), b) == GoodFcs
    ensures a == LowByte(r ^ X25XorOut) && b == HighByte(r ^ X25XorOut)
  {
  }

  /** Two bytes leave the good FCS exactly when they are the complemented register, low first. */
  lemma RegisterResidue(r: bv16, a: bv8, b: bv8)
    ensures ByteStep(ByteStep(r, a), b) == GoodFcs
        <==> a == LowByte(r ^ X25XorOut) && b == HighByte(r ^ X25XorOut)
  {
    ComplementLeavesGoodFcs(r);
    if ByteStep(ByteStep(r, a), b) == GoodFcs {
      OnlyComplementLeavesGoodFcs(r, a, b);
    }
  }

  /** The receive check of RFC 1662: data followed by its FCS, least significant byte first,
      leaves the register at the good FCS, and nothing else in the trailer does. */
  lemma FcsResidue(data: seq<bv8>, lo: bv8, hi: bv8)
    ensures Update(X25Preset, data + [lo, hi]) == GoodFcs <==> Le16(lo, hi) == X25(data)
  {
    UpdateAppend(X25Preset, data, [lo, hi]);
    UpdatePair(Update(X25Preset, data), lo, hi);
    RegisterResidue(Update(X25Preset, data), lo, hi);
    Le16OfBytes(X25(data));
  }
}

/** The CRC-16 of the Modbus RTU frames (app/src/modbus_rtu.c), and the algebra behind it:
    the register step is linear and injective over GF(2), so what the checksum can miss is
    decided by the error pattern alone. */
module Crc16 {
  import SR = ShiftRegister
  type Reg = SR.Reg

  const INIT: bv16 := 0xFFFF

  /** One turn of the inner loop: the register is shifted once. */
  function Shift(c: bv16): bv16 {
    if c & 1 == 1 then (c >> 1) ^ 0xA001 else c >> 1
  }

  function ShiftN(c: bv16, n: nat): bv16
    decreases n
  {
    if n == 0 then c else ShiftN(Shift(c), n - 1)
  }

  /** One turn of the outer loop: a byte is absorbed and the register shifted eight times. */
  function ByteStep(c: bv16, x: bv8): bv16 {
    ShiftN(c ^ (x as bv16), 8)
  }

  function CrcFrom(c: bv16, f: seq<bv8>): bv16
    decreases |f|
  {
    if f == [] then c else CrcFrom(ByteStep(c, f[0]), f[1..])
  }

  /** What the C function returns for a buffer: zero for an empty one. */
  function Crc(f: seq<bv8>): bv16 {
    if f == [] then 0 else CrcFrom(INIT, f)
  }

  /** The body of the outer loop: the byte is added, and the inner loop shifts eight times. */
  method AbsorbByte(c: bv16, x: bv8) returns (crc: bv16)
    ensures crc == ByteStep(c, x)
  {
    crc := c ^ (x as bv16);
    ghost var sum := crc;
    var j := 0;
    while j < 8
      invariant 0 <= j <= 8
      invariant ShiftN(crc, 8 - j) == ShiftN(sum, 8)
    {
      if crc & 1 == 1 {
        crc := (crc >> 1) ^ 0xA001;
      } else {
        crc := crc >> 1;
      }
      j := j + 1;
    }
  }

  method ComputeCrc(buf: array?<bv8>, len: int) returns (crc: bv16)
    requires buf != null && len > 0 ==> len <= buf.Length
    ensures crc == if buf == null || len <= 0 then 0 else Crc(buf[..len])
  {
    if buf == null || len <= 0 {
      return 0;
    }
    crc := INIT;
    var i := 0;
    while i < len
      invariant 0 <= i <= len
      invariant crc == CrcFrom(INIT, buf[..i])
    {
      CrcFromSnoc(INIT, buf[..i], buf[i]);
      assert buf[..i + 1] == buf[..i] + [buf[i]];
      crc := AbsorbByte(crc, buf[i]);
      i := i + 1;
    }
  }

  lemma CrcFromSnoc(c: bv16, f: seq<bv8>, x: bv8)
    ensures CrcFrom(c, f + [x]) == ByteStep(CrcFrom(c, f), x)
  {
    CrcFromConcat(c, f, [x]);
    assert [x][1..] == [];
  }

  lemma {:induction false} CrcFromConcat(c: bv16, f: seq<bv8>, g: seq<bv8>)
    ensures CrcFrom(c, f + g) == CrcFrom(CrcFrom(c, f), g)
    decreases |f|
  {
    if f == [] {
      assert f + g == g;
    } else {
      assert (f + g)[1..] == f[1..] + g;
      CrcFromConcat(ByteStep(c, f[0]), f[1..], g);
    }
  }

  /** The worked example of section 6.2.2 of MODBUS over Serial Line V1.02. */
  lemma StandardExample()
    ensures Crc([0x02, 0x07]) == 0x1241
  {
  }

  // ---------------------------------------------------------------------------------------
  // The word as a shift register
  // ---------------------------------------------------------------------------------------

  function Mask(i: nat): bv16
    requires i < 16
  {
    if i == 0 then 0x0001 else if i == 1 then 0x0002 else if i == 2 then 0x0004 else if i == 3 then 0x0008 else
    if i == 4 then 0x0010 else if i == 5 then 0x0020 else if i == 6 then 0x0040 else if i == 7 then 0x0080 else
    if i == 8 then 0x0100 else if i == 9 then 0x0200 else if i == 10 then 0x0400 else if i == 11 then 0x0800 else
    if i == 12 then 0x1000 else if i == 13 then 0x2000 else if i == 14 then 0x4000 else 0x8000
  }

  predicate Bit(c: bv16, i: nat)
    requires i < 16
  {
    c & Mask(i) != 0
  }

  function ToReg(c: bv16): (r: Reg)
    ensures forall i :: 0 <= i < 16 ==> r[i] == Bit(c, i)
  {
    seq(16, i requires 0 <= i < 16 => Bit(c, i))
  }

  lemma MaskNext(i: nat)
    requires i < 15
    ensures Mask(i) & 0x8000 == 0 && Mask(i) << 1 == Mask(i + 1)
  {
  }

  lemma MaskShifted(c: bv16, m: bv16)
    requires m & 0x8000 == 0
    ensures (c >> 1) & m == 0 <==> c & (m << 1) == 0
  {
  }

  lemma TopBitEmpty(c: bv16)
    ensures (c >> 1) & 0x8000 == 0
  {
  }

  lemma BitHalf(c: bv16, i: nat)
    requires i < 15
    ensures Bit(c >> 1, i) == Bit(c, i + 1)
  {
    MaskNext(i);
    MaskShifted(c, Mask(i));
  }

  lemma BitHalfTop(c: bv16)
    ensures !Bit(c >> 1, 15)
  {
    TopBitEmpty(c);
  }

  predicate XorAt(c: bv16, d: bv16, e: bv16, m: bv16) {
    (e & m != 0) == ((c & m != 0) != (d & m != 0))
  }

  predicate XorEverywhere(c: bv16, d: bv16, e: bv16) {
    XorAt(c, d, e, 0x0001) && XorAt(c, d, e, 0x0002) && XorAt(c, d, e, 0x0004) && XorAt(c, d, e, 0x0008) &&
    XorAt(c, d, e, 0x0010) && XorAt(c, d, e, 0x0020) && XorAt(c, d, e, 0x0040) && XorAt(c, d, e, 0x0080) &&
    XorAt(c, d, e, 0x0100) && XorAt(c, d, e, 0x0200) && XorAt(c, d, e, 0x0400) && XorAt(c, d, e, 0x0800) &&
    XorAt(c, d, e, 0x1000) && XorAt(c, d, e, 0x2000) && XorAt(c, d, e, 0x4000) && XorAt(c, d, e, 0x8000)
  }

  lemma XorBits(c: bv16, d: bv16)
    ensures ((c ^ d) & 0x0001 != 0) == ((c & 0x0001 != 0) != (d & 0x0001 != 0))
    ensures ((c ^ d) & 0x0002 != 0) == ((c & 0x0002 != 0) != (d & 0x0002 != 0))
    ensures ((c ^ d) & 0x0004 != 0) == ((c & 0x0004 != 0) != (d & 0x0004 != 0))
    ensures ((c ^ d) & 0x0008 != 0) == ((c & 0x0008 != 0) != (d & 0x0008 != 0))
    ensures ((c ^ d) & 0x0010 != 0) == ((c & 0x0010 != 0) != (d & 0x0010 != 0))
    ensures ((c ^ d) & 0x0020 != 0) == ((c & 0x0020 != 0) != (d & 0x0020 != 0))
    ensures ((c ^ d) & 0x0040 != 0) == ((c & 0x0040 != 0) != (d & 0x0040 != 0))
    ensures ((c ^ d) & 0x0080 != 0) == ((c & 0x0080 != 0) != (d & 0x0080 != 0))
    ensures ((c ^ d) & 0x0100 != 0) == ((c & 0x0100 != 0) != (d & 0x0100 != 0))
    ensures ((c ^ d) & 0x0200 != 0) == ((c & 0x0200 != 0) != (d & 0x0200 != 0))
    ensures ((c ^ d) & 0x0400 != 0) == ((c & 0x0400 != 0) != (d & 0x0400 != 0))
    ensures ((c ^ d) & 0x0800 != 0) == ((c & 0x0800 != 0) != (d & 0x0800 != 0))
    ensures ((c ^ d) & 0x1000 != 0) == ((c & 0x1000 != 0) != (d & 0x1000 != 0))
    ensures ((c ^ d) & 0x2000 != 0) == ((c & 0x2000 != 0) != (d & 0x2000 != 0))
    ensures ((c ^ d) & 0x4000 != 0) == ((c & 0x4000 != 0) != (d & 0x4000 != 0))
    ensures ((c ^ d) & 0x8000 != 0) == ((c & 0x8000 != 0) != (d & 0x8000 != 0))
  {
  }

  lemma XorEachBit(c: bv16, d: bv16)
    ensures XorEverywhere(c, d, c ^ d)
  {
    XorBits(c, d);
  }

  lemma BitOfXor(c: bv16, d: bv16, e: bv16, i: nat)
    requires i < 16 && XorEverywhere(c, d, e)
    ensures Bit(e, i) == (Bit(c, i) != Bit(d, i))
  {
    assert XorAt(c, d, e, Mask(i));
  }

  lemma BitXor(c: bv16, d: bv16, i: nat)
    requires i < 16
    ensures Bit(c ^ d, i) == (Bit(c, i) != Bit(d, i))
  {
    XorEachBit(c, d);
    BitOfXor(c, d, c ^ d, i);
  }

  lemma BitPoly(i: nat)
    requires i < 16
    ensures Bit(0xA001, i) == SR.Tap(i)
  {
  }

  lemma LowBit(c: bv16)
    ensures Bit(c, 0) == (c & 1 == 1)
  {
  }

  lemma ShiftAt(c: bv16, i: nat)
    requires i < 16
    ensures Bit(Shift(c), i) == ((i < 15 && Bit(c, i + 1)) != (Bit(c, 0) && SR.Tap(i)))
  {
    LowBit(c);
    if i < 15 {
      BitHalf(c, i);
    } else {
      BitHalfTop(c);
    }
    if c & 1 == 1 {
      BitXor(c >> 1, 0xA001, i);
      BitPoly(i);
    }
  }

  lemma ShiftIsRegister(c: bv16)
    ensures ToReg(Shift(c)) == SR.Shift(ToReg(c))
  {
    forall i | 0 <= i < 16
      ensures ToReg(Shift(c))[i] == SR.Shift(ToReg(c))[i]
    {
      ShiftAt(c, i);
    }
  }

  lemma XorIsRegister(c: bv16, d: bv16)
    ensures ToReg(c ^ d) == SR.Xor(ToReg(c), ToReg(d))
  {
    forall i | 0 <= i < 16
      ensures ToReg(c ^ d)[i] == (ToReg(c)[i] != ToReg(d)[i])
    {
      BitXor(c, d, i);
    }
  }

  lemma {:induction false} ShiftNIsRegister(c: bv16, n: nat)
    ensures ToReg(ShiftN(c, n)) == SR.ShiftN(ToReg(c), n)
    decreases n
  {
    if n > 0 {
      ShiftIsRegister(c);
      ShiftNIsRegister(Shift(c), n - 1);
    }
  }

  lemma Halve(c: bv16)
    requires c != 0
    ensures c >> 1 < c
    ensures c & 1 == 0 ==> c >> 1 != 0
  {
  }

  lemma {:induction false} SomeBit(c: bv16) returns (i: nat)
    requires c != 0
    ensures i < 16 && Bit(c, i)
    decreases c
  {
    Halve(c);
    LowBit(c);
    if c & 1 == 1 {
      i := 0;
    } else {
      assert c & 1 == 0;
      i := SomeBit(c >> 1);
      BitHalfTop(c);
      BitHalf(c, i);
      i := i + 1;
    }
  }

  lemma XorZero(c: bv16, d: bv16)
    requires c ^ d == 0
    ensures c == d
  {
  }

  lemma ToRegInjective(c: bv16, d: bv16)
    requires ToReg(c) == ToReg(d)
    ensures c == d
  {
    if c ^ d != 0 {
      var i := SomeBit(c ^ d);
      BitXor(c, d, i);
      assert false;
    } else {
      XorZero(c, d);
    }
  }

  // ---------------------------------------------------------------------------------------
  // Bytes as bits
  // ---------------------------------------------------------------------------------------

  function ByteBits(x: bv8): (bits: seq<bool>)
    ensures |bits| == 8
  {
    ToReg(x as bv16)[..8]
  }

  /** The bits of a frame in the order in which the line carries them: every byte least
      significant bit first. */
  function Bits(f: seq<bv8>): (bits: seq<bool>)
    ensures |bits| == 8 * |f|
    decreases |f|
  {
    if f == [] then [] else ByteBits(f[0]) + Bits(f[1..])
  }

  lemma HighBitEmpty(x: bv8, i: nat)
    requires 8 <= i < 16
    ensures !Bit(x as bv16, i)
  {
  }

  lemma ByteStepIsFeed(c: bv16, x: bv8)
    ensures ToReg(ByteStep(c, x)) == SR.Feed(ToReg(c), ByteBits(x))
  {
    var w := ToReg(x as bv16);
    ShiftNIsRegister(c ^ (x as bv16), 8);
    XorIsRegister(c, x as bv16);
    forall i | 8 <= i < 16
      ensures !w[i]
    {
      HighBitEmpty(x, i);
    }
    SR.AbsorbByte(ToReg(c), w);
  }

  /** The byte-wise C loop computes what the bit-serial register does. */
  lemma {:induction false} CrcIsFeed(c: bv16, f: seq<bv8>)
    ensures ToReg(CrcFrom(c, f)) == SR.Feed(ToReg(c), Bits(f))
    decreases |f|
  {
    if f != [] {
      ByteStepIsFeed(c, f[0]);
      CrcIsFeed(ByteStep(c, f[0]), f[1..]);
      SR.FeedConcat(ToReg(c), ByteBits(f[0]), Bits(f[1..]));
    }
  }
}

/** Modbus RTU frames for function 0x03, read holding registers (app/src/modbus_rtu.c). */
module ModbusFrame {
  import opened Options
  import opened Crc16
  import SR = ShiftRegister
  import Gf2Polynomial

  const READ_HOLDING: bv8 := 0x03
  const MAX_REGISTERS: bv16 := 125
  const RESPONSE_MIN := 5

  function High(w: bv16): bv8 { (w >> 8) as bv8 }

  function Low(w: bv16): bv8 { (w & 0xFF) as bv8 }

  function Word(high: bv8, low: bv8): bv16 { ((high as bv16) << 8) | (low as bv16) }

  lemma WordOfHalves(w: bv16)
    ensures Word(High(w), Low(w)) == w
  {
  }

  lemma WideByteValue(low: bv8)
    ensures Word(0, low) as int == low as int
  {
    assert Word(0, low) == low as bv16;
  }

  lemma PageAdded(high: bv8, low: bv8)
    requires high != 0
    ensures Word(high - 1, low) <= 0xFEFF && Word(high, low) == Word(high - 1, low) + 0x100
  {
  }

  lemma PageValue(w: bv16)
    requires w <= 0xFEFF
    ensures (w + 0x100) as int == w as int + 256
  {
  }

  lemma EightBitPredecessor(b: bv8)
    requires b != 0
    ensures (b - 1) as int == b as int - 1
  {
  }

  /** The two bytes of a word as a number, the high byte first. */
  lemma {:induction false} WordValue(high: bv8, low: bv8)
    ensures Word(high, low) as int == 256 * (high as int) + low as int
    decreases high as int
  {
    if high == 0 {
      WideByteValue(low);
    } else {
      EightBitPredecessor(high);
      WordValue(high - 1, low);
      PageAdded(high, low);
      PageValue(Word(high - 1, low));
    }
  }

  /** The i-th register of a response, as a number. */
  function RegisterAt(f: seq<bv8>, i: nat): int
    requires |f| >= 5 + 2 * i
  {
    256 * (f[3 + 2 * i] as int) + f[4 + 2 * i] as int
  }

  // ---------------------------------------------------------------------------------------
  // Responses
  // ---------------------------------------------------------------------------------------

  /** The last two bytes are the CRC of the bytes before them, low byte first. */
  predicate CrcMatches(f: seq<bv8>)
    requires |f| >= 2
  {
    Word(f[|f| - 1], f[|f| - 2]) == Crc(f[..|f| - 2])
  }

  function RegistersAt(f: seq<bv8>, n: nat): (regs: seq<bv16>)
    requires |f| >= 3 + 2 * n
    ensures |regs| == n
    ensures forall i :: 0 <= i < n ==> regs[i] == Word(f[3 + i * 2], f[4 + i * 2])
  {
    seq(n, i requires 0 <= i < n => Word(f[3 + i * 2], f[4 + i * 2]))
  }

  function Min(a: int, b: int): int { if a < b then a else b }

  /** The payload length of a well-formed response, or None where the C function returns -1. */
  function Check(f: seq<bv8>): Option<nat> {
    if |f| < RESPONSE_MIN then None
    else if f[1] & 0x80 != 0 then None
    else if f[1] != READ_HOLDING then None
    else if |f| != f[2] as int + 5 then None
    else if !CrcMatches(f) then None
    else Some(|f| - 5)
  }

  /** The registers the parser extracts, or None where the C function returns -1. */
  function Parse(f: seq<bv8>, maxValues: int): Option<seq<bv16>> {
    if maxValues <= 0 then None
    else
      match Check(f)
      case None => None
      case Some(byteCount) => Some(RegistersAt(f, Min(byteCount / 2, maxValues)))
  }

  method CheckFrame(buf: array<bv8>, len: int) returns (byteCount: int)
    requires len <= buf.Length
    ensures byteCount == if len >= 0 && Check(buf[..len]).Some? then Check(buf[..len]).value else -1
    ensures byteCount ==
      if len >= 5 && buf[1] == 0x03 && len == buf[2] as int + 5 && Residue(buf[..len]) == SR.ZERO then buf[2] as int
      else -1
  {
    if len >= 0 {
      CheckedExactly(buf[..len]);
    }
    if len < RESPONSE_MIN {
      return -1;
    }
    if buf[1] & 0x80 != 0 {
      return -1;
    }
    if buf[1] != READ_HOLDING {
      return -1;
    }
    byteCount := buf[2] as int;
    if len != byteCount + 5 {
      return -1;
    }
    var expected := ComputeCrc(buf, len - 2);
    assert buf[..len][..len - 2] == buf[..len - 2];
    var crc := Word(buf[len - 1], buf[len - 2]);
    if crc != expected {
      return -1;
    }
  }

  method ParseResponse(buf: array?<bv8>, len: int, values: array?<bv16>, maxValues: int) returns (count: int)
    requires buf != null ==> len <= buf.Length
    requires values != null ==> maxValues <= values.Length
    modifies values
    ensures buf == null || values == null || len < 0 ==> count == -1
    ensures buf != null && values != null && len >= 0 ==>
      match Parse(buf[..len], maxValues)
      case None => count == -1 && values[..] == old(values[..])
      case Some(regs) =>
        count == |regs| <= values.Length && values[..count] == regs && values[count..] == old(values[count..])
    ensures count == -1 <==>
      buf == null || values == null || maxValues <= 0 || len < 5 || buf[1] != 0x03 || len != buf[2] as int + 5 ||
      Residue(buf[..len]) != SR.ZERO
    ensures count != -1 ==>
      count == (if buf[2] as int / 2 < maxValues then buf[2] as int / 2 else maxValues) &&
      forall k :: 0 <= k < count ==> values[k] as int == RegisterAt(buf[..len], k)
  {
    if buf == null || values == null || maxValues <= 0 {
      return -1;
    }
    var byteCount := CheckFrame(buf, len);
    if byteCount < 0 {
      return -1;
    }
    var regCount := byteCount / 2;
    if regCount > maxValues {
      regCount := maxValues;
    }
    CopyRegisters(buf, values, regCount);
    RegistersRead(buf[..len], values[..regCount]);
    return regCount;
  }

  lemma RegistersRead(f: seq<bv8>, regs: seq<bv16>)
    requires |f| >= 5 + 2 * |regs|
    requires forall k :: 0 <= k < |regs| ==> regs[k] == Word(f[3 + k * 2], f[4 + k * 2])
    ensures regs == RegistersAt(f, |regs|)
    ensures forall k :: 0 <= k < |regs| ==> regs[k] as int == RegisterAt(f, k)
  {
    forall k | 0 <= k < |regs|
      ensures regs[k] as int == RegisterAt(f, k)
    {
      WordValue(f[3 + k * 2], f[4 + k * 2]);
    }
  }

  /** The parser's loop over the payload. */
  method CopyRegisters(buf: array<bv8>, values: array<bv16>, regCount: nat)
    requires buf.Length >= 3 + 2 * regCount && values.Length >= regCount
    modifies values
    ensures forall k :: 0 <= k < regCount ==> values[k] == Word(buf[3 + k * 2], buf[4 + k * 2])
    ensures values[regCount..] == old(values[regCount..])
  {
    var i := 0;
    while i < regCount
      invariant 0 <= i <= regCount
      invariant forall k :: 0 <= k < i ==> values[k] == Word(buf[3 + k * 2], buf[4 + k * 2])
      invariant forall k :: i <= k < values.Length ==> values[k] == old(values[k])
    {
      values[i] := Word(buf[3 + i * 2], buf[4 + i * 2]);
      i := i + 1;
    }
  }

  /** A length stored in an unsigned char: eight-bit counting wraps around. */
  function CountByte(n: nat): (b: bv8)
    ensures b as int == n % 256
  {
    if n == 0 then 0
    else
      var before := CountByte(n - 1);
      EightBitSuccessor(before);
      Successor(n, before as int);
      before + 1
  }

  lemma EightBitSuccessor(b: bv8)
    ensures (b + 1) as int == if b as int == 255 then 0 else b as int + 1
  {
  }

  lemma Successor(n: nat, x: int)
    requires n > 0 && x == (n - 1) % 256
    ensures n % 256 == if x == 255 then 0 else x + 1
  {
  }

  /** A response with the given count byte, up to the checksum. */
  function ResponseBody(count: bv8, regs: seq<bv16>): (body: seq<bv8>)
    ensures |body| == 3 + 2 * |regs|
    ensures body[0] == 0x01 && body[1] == READ_HOLDING && body[2] == count
    ensures forall k :: 0 <= k < |regs| ==> body[3 + k * 2] == High(regs[k]) && body[4 + k * 2] == Low(regs[k])
  {
    [0x01, READ_HOLDING, count] +
    seq(2 * |regs|, k requires 0 <= k < 2 * |regs| => if k % 2 == 0 then High(regs[k / 2]) else Low(regs[k / 2]))
  }

  function WithCrc(body: seq<bv8>): (f: seq<bv8>)
    ensures |f| == |body| + 2 && f[..|body|] == body
  {
    body + [Low(Crc(body)), High(Crc(body))]
  }

  function EncodeResponse(regs: seq<bv16>): seq<bv8> {
    WithCrc(ResponseBody(CountByte(|regs| * 2), regs))
  }

  /** A body is determined by its header and the halves of its registers. */
  lemma BodyUnique(bytes: seq<bv8>, count: bv8, regs: seq<bv16>)
    requires |bytes| == 3 + 2 * |regs|
    requires bytes[0] == 0x01 && bytes[1] == READ_HOLDING && bytes[2] == count
    requires forall k :: 0 <= k < |regs| ==> bytes[3 + k * 2] == High(regs[k]) && bytes[4 + k * 2] == Low(regs[k])
    ensures bytes == ResponseBody(count, regs)
  {
    var body := ResponseBody(count, regs);
    forall k | 0 <= k < |bytes|
      ensures bytes[k] == body[k]
    {
      if k >= 3 {
        var i := (k - 3) / 2;
        assert k == 3 + i * 2 || k == 4 + i * 2;
      }
    }
  }

  /** Both builders end alike: the checksum of what is there goes out low byte first. */
  method AppendCrc(buf: array<bv8>, len: nat)
    requires 0 < len && len + 2 <= buf.Length
    modifies buf
    ensures buf[..len + 2] == WithCrc(old(buf[..len]))
    ensures forall k :: len + 2 <= k < buf.Length ==> buf[k] == old(buf[k])
  {
    var crc := ComputeCrc(buf, len);
    buf[len] := Low(crc);
    buf[len + 1] := High(crc);
  }

  /** The encoder's loop over the registers. */
  method StoreRegisters(buf: array<bv8>, regs: array<bv16>, regCount: nat)
    requires regCount <= regs.Length && buf.Length >= 3 + 2 * regCount
    modifies buf
    ensures forall k :: 0 <= k < regCount ==> buf[3 + k * 2] == High(regs[k]) && buf[4 + k * 2] == Low(regs[k])
    ensures forall k :: 0 <= k < 3 || 3 + 2 * regCount <= k < buf.Length ==> buf[k] == old(buf[k])
  {
    var i := 0;
    while i < regCount
      invariant 0 <= i <= regCount
      invariant forall k :: 0 <= k < i ==> buf[3 + k * 2] == High(regs[k]) && buf[4 + k * 2] == Low(regs[k])
      invariant forall k :: 0 <= k < 3 || 3 + 2 * i <= k < buf.Length ==> buf[k] == old(buf[k])
    {
      buf[3 + i * 2] := High(regs[i]);
      buf[4 + i * 2] := Low(regs[i]);
      i := i + 1;
    }
  }

  /** The encoder up to the checksum. */
  method StoreBody(buf: array<bv8>, count: bv8, regs: array<bv16>, regCount: nat)
    requires regCount <= regs.Length && buf.Length >= 3 + 2 * regCount
    modifies buf
    ensures buf[..3 + 2 * regCount] == ResponseBody(count, regs[..regCount])
    ensures forall k :: 3 + 2 * regCount <= k < buf.Length ==> buf[k] == old(buf[k])
  {
    buf[0] := 0x01;
    buf[1] := READ_HOLDING;
    buf[2] := count;
    StoreRegisters(buf, regs, regCount);
    BodyUnique(buf[..3 + 2 * regCount], count, regs[..regCount]);
  }

  method BuildTestResponse(buf: array<bv8>, regs: array<bv16>, regCount: nat) returns (outLen: int)
    requires regCount <= regs.Length
    requires buf.Length >= 5 + 2 * regCount
    modifies buf
    ensures outLen == 5 + 2 * regCount
    ensures buf[..outLen] == WithCrc(ResponseBody(CountByte(regCount * 2), regs[..regCount]))
    ensures forall k :: outLen <= k < buf.Length ==> buf[k] == old(buf[k])
  {
    var byteCount := regCount * 2;
    StoreBody(buf, CountByte(byteCount), regs, regCount);
    ghost var body := buf[..3 + byteCount];
    assert body == ResponseBody(CountByte(byteCount), regs[..regCount]);
    AppendCrc(buf, 3 + byteCount);
    outLen := 5 + byteCount;
  }

  /** Encoding and then parsing returns the registers, cut to the room there is, exactly when
      their byte count fits the frame's count byte; beyond that the parser rejects the frame. */
  lemma ResponseRoundTrip(regs: seq<bv16>, maxValues: int)
    requires maxValues > 0
    ensures Parse(EncodeResponse(regs), maxValues) ==
      if |regs| <= 127 then Some(regs[..Min(|regs|, maxValues)]) else None
  {
    ParseEncoded(CountByte(|regs| * 2), regs, maxValues);
  }

  /** The parser takes back an encoded body exactly when the count byte tells the truth. */
  lemma ParseEncoded(count: bv8, regs: seq<bv16>, maxValues: int)
    requires maxValues > 0
    ensures Parse(WithCrc(ResponseBody(count, regs)), maxValues) ==
      if count as int == 2 * |regs| then Some(regs[..Min(|regs|, maxValues)]) else None
  {
    var f := WithCrc(ResponseBody(count, regs));
    CrcOfEncoded(ResponseBody(count, regs));
    HeaderOfEncoded(count, regs);
    CheckEncoded(f, count);
    if count as int == 2 * |regs| {
      EncodedRegisters(f, regs, Min(|regs|, maxValues));
    }
  }

  lemma HeaderOfEncoded(count: bv8, regs: seq<bv16>)
    ensures
      var f := WithCrc(ResponseBody(count, regs));
      f[0] == 0x01 && f[1] == READ_HOLDING && f[2] == count &&
      forall k :: 0 <= k < |regs| ==> f[3 + k * 2] == High(regs[k]) && f[4 + k * 2] == Low(regs[k])
  {
    var body := ResponseBody(count, regs);
    var f := WithCrc(body);
    assert forall k :: 0 <= k < |body| ==> f[k] == f[..|body|][k];
  }

  lemma CheckEncoded(f: seq<bv8>, count: bv8)
    requires |f| >= 5 && f[1] == READ_HOLDING && f[2] == count && CrcMatches(f)
    ensures Check(f) == if |f| == count as int + 5 then Some(|f| - 5) else None
  {
    assert READ_HOLDING & 0x80 == 0;
  }

  lemma EncodedRegisters(f: seq<bv8>, regs: seq<bv16>, n: nat)
    requires n <= |regs| && |f| == 5 + 2 * |regs|
    requires forall k :: 0 <= k < |regs| ==> f[3 + k * 2] == High(regs[k]) && f[4 + k * 2] == Low(regs[k])
    ensures RegistersAt(f, n) == regs[..n]
  {
    forall i | 0 <= i < n
      ensures RegistersAt(f, n)[i] == regs[i]
    {
      WordOfHalves(regs[i]);
    }
  }

  lemma CrcOfEncoded(body: seq<bv8>)
    ensures CrcMatches(WithCrc(body))
  {
    var f := WithCrc(body);
    WordOfHalves(Crc(body));
    assert f[..|f| - 2] == body;
  }

  // ---------------------------------------------------------------------------------------
  // Requests
  // ---------------------------------------------------------------------------------------

  function RequestBody(slave: bv8, start: bv16, quantity: bv16): seq<bv8> {
    [slave, READ_HOLDING, High(start), Low(start), High(quantity), Low(quantity)]
  }

  method BuildReadRequest(slave: bv8, start: bv16, quantity: bv16, buf: array?<bv8>, bufSize: int) returns (n: int)
    requires buf != null ==> bufSize <= buf.Length
    modifies buf
    ensures n == if buf == null || bufSize < 8 || quantity == 0 || quantity > 125 then -1 else 8
    ensures buf != null && n == -1 ==> buf[..] == old(buf[..])
    ensures n == 8 ==>
      buf[..8] == WithCrc(RequestBody(slave, start, quantity)) &&
      forall k :: 8 <= k < buf.Length ==> buf[k] == old(buf[k])
  {
    if buf == null || bufSize < 8 {
      return -1;
    }
    if quantity == 0 || quantity > MAX_REGISTERS {
      return -1;
    }
    buf[0] := slave;
    buf[1] := READ_HOLDING;
    buf[2] := High(start);
    buf[3] := Low(start);
    buf[4] := High(quantity);
    buf[5] := Low(quantity);
    assert buf[..6] == RequestBody(slave, start, quantity);
    AppendCrc(buf, 6);
    return 8;
  }

  datatype Request = Request(slave: bv8, start: bv16, quantity: bv16)

  /** How a slave reads a request: section 6.3 of the MODBUS Application Protocol V1.1b3, inside
      the frame of section 2.5.1.2 of MODBUS over Serial Line V1.02. */
  function ReadRequest(f: seq<bv8>): Option<Request> {
    if |f| != 8 || !CrcMatches(f) || f[1] != READ_HOLDING then None
    else
      var quantity := Word(f[4], f[5]);
      if 1 <= quantity <= MAX_REGISTERS then Some(Request(f[0], Word(f[2], f[3]), quantity)) else None
  }

  /** The request byte by byte, its numbers high byte first, and its checksum by what it does. */
  lemma RequestExactly(slave: bv8, start: bv16, quantity: bv16)
    ensures
      var f := WithCrc(RequestBody(slave, start, quantity));
      |f| == 8 && f[0] == slave && f[1] == 0x03 && 256 * (f[2] as int) + f[3] as int == start as int &&
      256 * (f[4] as int) + f[5] as int == quantity as int && Residue(f) == SR.ZERO
  {
    var body := RequestBody(slave, start, quantity);
    WordOfHalves(start);
    WordOfHalves(quantity);
    WordValue(High(start), Low(start));
    WordValue(High(quantity), Low(quantity));
    CrcOfEncoded(body);
    ZeroResidue(WithCrc(body));
  }

  /** And the encoder's response. */
  lemma ResponseExactly(regs: seq<bv16>)
    ensures
      var f := EncodeResponse(regs);
      |f| == 5 + 2 * |regs| && f[0] == 0x01 && f[1] == 0x03 && f[2] as int == 2 * |regs| % 256 &&
      (forall k :: 0 <= k < |regs| ==> RegisterAt(f, k) == regs[k] as int) && Residue(f) == SR.ZERO
  {
    var count, f := CountByte(|regs| * 2), EncodeResponse(regs);
    HeaderOfEncoded(count, regs);
    RegistersOfEncoded(f, regs);
    CrcOfEncoded(ResponseBody(count, regs));
    ZeroResidue(f);
  }

  lemma RegistersOfEncoded(f: seq<bv8>, regs: seq<bv16>)
    requires |f| == 5 + 2 * |regs|
    requires forall k :: 0 <= k < |regs| ==> f[3 + k * 2] == High(regs[k]) && f[4 + k * 2] == Low(regs[k])
    ensures forall k :: 0 <= k < |regs| ==> RegisterAt(f, k) == regs[k] as int
  {
    forall k | 0 <= k < |regs|
      ensures RegisterAt(f, k) == regs[k] as int
    {
      WordOfHalves(regs[k]);
      WordValue(High(regs[k]), Low(regs[k]));
      assert f[3 + k * 2] == High(regs[k]) && f[4 + k * 2] == Low(regs[k]);
    }
  }

  lemma RequestRoundTrip(slave: bv8, start: bv16, quantity: bv16)
    requires 1 <= quantity <= MAX_REGISTERS
    ensures ReadRequest(WithCrc(RequestBody(slave, start, quantity))) == Some(Request(slave, start, quantity))
  {
    CrcOfEncoded(RequestBody(slave, start, quantity));
    WordOfHalves(start);
    WordOfHalves(quantity);
  }

  // ---------------------------------------------------------------------------------------
  // What the checksum detects
  // ---------------------------------------------------------------------------------------

  lemma HighHalf(high: bv8, low: bv8, i: nat)
    requires i < 8
    ensures Bit(Word(high, low), i + 8) == Bit(high as bv16, i)
  {
  }

  lemma LowHalf(high: bv8, low: bv8, i: nat)
    requires i < 8
    ensures Bit(Word(high, low), i) == Bit(low as bv16, i)
  {
  }

  lemma WordBits(high: bv8, low: bv8)
    ensures ToReg(Word(high, low)) == ByteBits(low) + ByteBits(high)
  {
    var w := ToReg(Word(high, low));
    forall i | 0 <= i < 16
      ensures w[i] == (ByteBits(low) + ByteBits(high))[i]
    {
      if i < 8 {
        LowHalf(high, low, i);
      } else {
        HighHalf(high, low, i - 8);
      }
    }
  }

  lemma {:induction false} BitsConcat(f: seq<bv8>, g: seq<bv8>)
    ensures Bits(f + g) == Bits(f) + Bits(g)
    decreases |f|
  {
    if f == [] {
      assert f + g == g;
    } else {
      assert (f + g)[1..] == f[1..] + g;
      BitsConcat(f[1..], g);
    }
  }

  lemma InitIsOnes()
    ensures ToReg(INIT) == SR.ONES
  {
  }

  /** The register after the whole frame, checksum included. */
  function Residue(f: seq<bv8>): SR.Reg {
    SR.Feed(SR.ONES, Bits(f))
  }

  /** The CRC test succeeds exactly when the register over the whole frame ends at zero. */
  lemma ZeroResidue(f: seq<bv8>)
    requires |f| >= 3
    ensures CrcMatches(f) <==> Residue(f) == SR.ZERO
  {
    var body, low, high := f[..|f| - 2], f[|f| - 2], f[|f| - 1];
    var s, w := ToReg(Crc(body)), ToReg(Word(high, low));
    assert f == body + [low, high];
    assert Bits(f) == Bits(body) + w by {
      BitsConcat(body, [low, high]);
      WordBits(high, low);
      assert [low, high][1..] == [high] && [high][1..] == [];
    }
    InitIsOnes();
    CrcIsFeed(INIT, body);
    SR.FeedConcat(SR.ONES, Bits(body), w);
    SR.ClearsOnlyItself(s, w);
    if s == w {
      ToRegInjective(Crc(body), Word(high, low));
    }
  }

  /** What the header and checksum tests come to, whatever function code or length a frame claims. */
  lemma CheckedExactly(f: seq<bv8>)
    ensures Check(f) ==
      if |f| >= 5 && f[1] == 0x03 && |f| == f[2] as int + 5 && Residue(f) == SR.ZERO then Some(f[2] as int) else None
  {
    if |f| >= 5 {
      ZeroResidue(f);
      assert f[1] == 0x03 ==> f[1] & 0x80 == 0;
    }
  }

  /** Exactly which frames the parser accepts, and what it makes of them. */
  lemma AcceptedExactly(f: seq<bv8>, maxValues: int)
    requires maxValues > 0
    ensures Parse(f, maxValues).Some? <==>
      |f| >= 5 && f[1] == 0x03 && |f| == f[2] as int + 5 && Residue(f) == SR.ZERO
    ensures Parse(f, maxValues).Some? ==>
      var regs := Parse(f, maxValues).value;
      |regs| == (if f[2] as int / 2 < maxValues then f[2] as int / 2 else maxValues) &&
      forall k :: 0 <= k < |regs| ==> regs[k] as int == RegisterAt(f, k)
  {
    CheckedExactly(f);
    if Parse(f, maxValues).Some? {
      RegistersRead(f, Parse(f, maxValues).value);
    }
  }

  lemma AcceptedResidue(f: seq<bv8>, maxValues: int)
    requires Parse(f, maxValues).Some?
    ensures |f| >= 5 && Residue(f) == SR.ZERO
  {
    ZeroResidue(f);
  }

  /** What tells two frames apart, bit by bit in line order. */
  function ErrorPattern(f: seq<bv8>, g: seq<bv8>): seq<bool>
    requires |f| == |g|
  {
    SR.Xor(Bits(f), Bits(g))
  }

  lemma {:induction false} SomeBitDiffers(f: seq<bv8>, g: seq<bv8>) returns (i: nat)
    requires |f| == |g| && f != g
    ensures i < |Bits(f)| && ErrorPattern(f, g)[i]
    decreases |f|
  {
    if f[0] == g[0] {
      assert f == [f[0]] + f[1..] && g == [g[0]] + g[1..];
      var j := SomeBitDiffers(f[1..], g[1..]);
      i := j + 8;
    } else {
      var k := DifferentBytes(f[0], g[0]);
      i := k;
    }
  }

  lemma DifferentBytes(x: bv8, y: bv8) returns (k: nat)
    requires x != y
    ensures k < 8 && ByteBits(x)[k] != ByteBits(y)[k]
  {
    if forall i :: 0 <= i < 8 ==> ByteBits(x)[i] == ByteBits(y)[i] {
      SameByteBits(x, y);
      assert false;
    }
    k :| 0 <= k < 8 && ByteBits(x)[k] != ByteBits(y)[k];
  }

  lemma SameByteBits(x: bv8, y: bv8)
    requires ByteBits(x) == ByteBits(y)
    ensures x == y
  {
    var s, t := ToReg(x as bv16), ToReg(y as bv16);
    forall i | 0 <= i < 16
      ensures s[i] == t[i]
    {
      if i >= 8 {
        HighBitEmpty(x, i);
        HighBitEmpty(y, i);
      } else {
        assert ByteBits(x)[i] == ByteBits(y)[i];
      }
    }
    ToRegInjective(x as bv16, y as bv16);
    WideByte(x, y);
  }

  lemma WideByte(x: bv8, y: bv8)
    requires x as bv16 == y as bv16
    ensures x == y
  {
  }

  lemma ErrorResidue(f: seq<bv8>, g: seq<bv8>)
    requires |f| == |g|
    ensures SR.Feed(SR.ZERO, ErrorPattern(f, g)) == SR.Xor(Residue(f), Residue(g))
  {
    SR.FeedLinear(SR.ONES, SR.ONES, Bits(f), Bits(g));
    assert SR.Xor(SR.ONES, SR.ONES) == SR.ZERO;
  }

  /** A burst confined to sixteen consecutive bits, wherever it falls and whatever it does to the
      header, the payload or the checksum itself, is always detected. */
  lemma BurstDetected(f: seq<bv8>, g: seq<bv8>, maxValues: int, otherMax: int, p: int)
    requires Parse(f, maxValues).Some?
    requires |g| == |f| && g != f
    requires forall i :: 0 <= i < 8 * |f| && ErrorPattern(f, g)[i] ==> p <= i < p + 16
    ensures Parse(g, otherMax).None?
  {
    if Parse(g, otherMax).Some? {
      AcceptedResidue(f, maxValues);
      AcceptedResidue(g, otherMax);
      ErrorResidue(f, g);
      var e := ErrorPattern(f, g);
      assert SR.Feed(SR.ZERO, e) == SR.ZERO;
      var i := SomeBitDiffers(f, g);
      assert e[i];
      SR.BurstNotZero(e, p);
      assert false;
    }
  }

  /** Every accepted frame carries an even number of ones. */
  lemma AcceptedEven(f: seq<bv8>, maxValues: int)
    requires Parse(f, maxValues).Some?
    ensures !SR.Odd(Bits(f))
  {
    AcceptedResidue(f, maxValues);
    SR.FeedParity(SR.ONES, Bits(f));
    SR.OddZeros(SR.ZERO);
    SR.OnesEven();
  }

  /** Flipping any odd number of bits of an accepted frame makes the parser reject it. */
  lemma OddErrorDetected(f: seq<bv8>, g: seq<bv8>, maxValues: int, otherMax: int)
    requires Parse(f, maxValues).Some?
    requires |g| == |f| && SR.Odd(ErrorPattern(f, g))
    ensures Parse(g, otherMax).None?
  {
    AcceptedEven(f, maxValues);
    SR.XorParity(Bits(f), Bits(g));
    if Parse(g, otherMax).Some? {
      AcceptedEven(g, otherMax);
      assert false;
    }
  }

  /** For every non-empty message the CRC is the bit-reflected remainder of the message
      polynomial, preset with sixteen ones, modulo x^16 + x^15 + x^2 + 1. */
  lemma CrcIsRemainder(f: seq<bv8>)
    requires f != []
    ensures
      var dividend := Gf2Polynomial.Dividend(SR.ONES, Bits(f));
      var crc := Gf2Polynomial.RegPoly(ToReg(Crc(f)));
      Gf2Polynomial.IsRemainder(dividend, crc) &&
      forall r :: Gf2Polynomial.IsRemainder(dividend, r) ==> r == crc
  {
    InitIsOnes();
    CrcIsFeed(INIT, f);
    Gf2Polynomial.FeedIsRemainder(SR.ONES, Bits(f));
    var dividend := Gf2Polynomial.Dividend(SR.ONES, Bits(f));
    var crc := Gf2Polynomial.RegPoly(ToReg(Crc(f)));
    forall r | Gf2Polynomial.IsRemainder(dividend, r)
      ensures r == crc
    {
      Gf2Polynomial.RemainderUnique(dividend, r, crc);
    }
  }
}

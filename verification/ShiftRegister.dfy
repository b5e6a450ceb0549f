/** The shift register behind the Modbus CRC, as sixteen booleans indexed from the least
    significant bit. Over this form the register step is pointwise, so its algebra (linear,
    injective, parity preserving) needs no bit-vector arithmetic. */
module ShiftRegister {

  type Reg = s: seq<bool> | |s| == 16 witness seq(16, _ => false)

  function Filled(b: bool): (r: Reg)
    ensures forall i :: 0 <= i < 16 ==> r[i] == b
  {
    seq(16, _ => b)
  }

  const ZERO: Reg := Filled(false)
  const ONES: Reg := Filled(true)

  /** The bits of 0xA001. */
  predicate Tap(i: int) { i == 0 || i == 13 || i == 15 }

  function Xor(s: seq<bool>, t: seq<bool>): (r: seq<bool>)
    requires |s| == |t|
    ensures |r| == |s|
    ensures forall i :: 0 <= i < |s| ==> r[i] == (s[i] != t[i])
  {
    seq(|s|, i requires 0 <= i < |s| => s[i] != t[i])
  }

  function Shift(s: Reg): (r: Reg)
    ensures forall i :: 0 <= i < 16 ==> r[i] == ((i < 15 && s[i + 1]) != (s[0] && Tap(i)))
  {
    seq(16, i requires 0 <= i < 16 => (i < 15 && s[i + 1]) != (s[0] && Tap(i)))
  }

  function ShiftN(s: Reg, n: nat): Reg
    decreases n
  {
    if n == 0 then s else ShiftN(Shift(s), n - 1)
  }

  /** Feeding one bit: it is added to the bit about to be shifted out. */
  function BitStep(s: Reg, b: bool): Reg {
    Shift(s[0 := s[0] != b])
  }

  function Feed(s: Reg, bits: seq<bool>): Reg
    decreases |bits|
  {
    if bits == [] then s else Feed(BitStep(s, bits[0]), bits[1..])
  }

  lemma {:induction false} FeedConcat(s: Reg, a: seq<bool>, b: seq<bool>)
    ensures Feed(s, a + b) == Feed(Feed(s, a), b)
    decreases |a|
  {
    if a == [] {
      assert a + b == b;
    } else {
      assert (a + b)[1..] == a[1..] + b;
      FeedConcat(BitStep(s, a[0]), a[1..], b);
    }
  }

  // ---------------------------------------------------------------------------------------
  // Linearity and injectivity
  // ---------------------------------------------------------------------------------------

  lemma ShiftInjective(s: Reg, t: Reg)
    requires Shift(s) == Shift(t)
    ensures s == t
  {
    forall i | 0 <= i < 16
      ensures s[i] == t[i]
    {
      assert Shift(s)[15] == Shift(t)[15];
      if i > 0 {
        assert Shift(s)[i - 1] == Shift(t)[i - 1];
      }
    }
  }

  /** The register reached by xored inputs is the xor of the registers reached. */
  lemma {:induction false} FeedLinear(s: Reg, t: Reg, a: seq<bool>, b: seq<bool>)
    requires |a| == |b|
    ensures Feed(Xor(s, t), Xor(a, b)) == Xor(Feed(s, a), Feed(t, b))
    decreases |a|
  {
    if a != [] {
      assert Xor(a, b)[1..] == Xor(a[1..], b[1..]);
      assert BitStep(Xor(s, t), Xor(a, b)[0]) == Xor(BitStep(s, a[0]), BitStep(t, b[0]));
      FeedLinear(BitStep(s, a[0]), BitStep(t, b[0]), a[1..], b[1..]);
    }
  }

  /** No two registers are merged by feeding both the same bits. */
  lemma {:induction false} FeedInjective(s: Reg, t: Reg, bits: seq<bool>)
    requires Feed(s, bits) == Feed(t, bits)
    ensures s == t
    decreases |bits|
  {
    if bits != [] {
      var b := bits[0];
      FeedInjective(BitStep(s, b), BitStep(t, b), bits[1..]);
      var u, v := s[0 := s[0] != b], t[0 := t[0] != b];
      ShiftInjective(u, v);
      assert u[0] == v[0];
      assert forall i :: 0 < i < 16 ==> s[i] == u[i] && t[i] == v[i];
    }
  }

  lemma {:induction false} FeedZeros(bits: seq<bool>)
    requires forall i :: 0 <= i < |bits| ==> !bits[i]
    ensures Feed(ZERO, bits) == ZERO
    decreases |bits|
  {
    if bits != [] {
      assert BitStep(ZERO, bits[0]) == ZERO;
      FeedZeros(bits[1..]);
    }
  }

  /** Adding a whole word to the register before shifting it n times is feeding its n low bits
      one by one, with the rest of the word still waiting in the register. */
  lemma {:induction false} AbsorbWord(s: Reg, w: Reg, n: nat)
    requires n <= 16
    ensures ShiftN(Xor(s, w), n) == Xor(Feed(s, w[..n]), w[n..] + ZERO[..n])
    decreases n
  {
    if n == 0 {
      assert w[0..] + ZERO[..0] == w;
    } else {
      var v := w[1..] + [false];
      assert Shift(Xor(s, w)) == Xor(BitStep(s, w[0]), v);
      AbsorbWord(BitStep(s, w[0]), v, n - 1);
      assert w[..n][1..] == v[..n - 1];
      assert v[n - 1..] + ZERO[..n - 1] == w[n..] + ZERO[..n];
    }
  }

  lemma AbsorbByte(s: Reg, w: Reg)
    requires forall i :: 8 <= i < 16 ==> !w[i]
    ensures ShiftN(Xor(s, w), 8) == Feed(s, w[..8])
  {
    AbsorbWord(s, w, 8);
    assert w[8..] + ZERO[..8] == ZERO;
    assert Xor(Feed(s, w[..8]), ZERO) == Feed(s, w[..8]);
  }

  lemma {:induction false} ShiftNZero(s: Reg, n: nat)
    ensures ShiftN(s, n) == ZERO <==> s == ZERO
    decreases n
  {
    if n > 0 {
      ShiftNZero(Shift(s), n - 1);
      assert Shift(ZERO) == ZERO;
      if Shift(s) == ZERO {
        ShiftInjective(s, ZERO);
      }
    }
  }

  /** Feeding a register a word clears it exactly when the word is its own content. */
  lemma ClearsOnlyItself(s: Reg, w: Reg)
    ensures Feed(s, w) == ZERO <==> s == w
  {
    AbsorbWord(s, w, 16);
    assert w[..16] == w && w[16..] + ZERO[..16] == ZERO;
    assert Xor(Feed(s, w), ZERO) == Feed(s, w);
    ShiftNZero(Xor(s, w), 16);
    if Xor(s, w) == ZERO {
      forall i | 0 <= i < 16
        ensures s[i] == w[i]
      {
        assert !Xor(s, w)[i];
      }
    }
  }

  // ---------------------------------------------------------------------------------------
  // Bursts
  // ---------------------------------------------------------------------------------------

  /** A register that fewer than sixteen further bits can clear has its top bits clear: each of
      those bits can only cancel what reaches the low end. */
  lemma {:induction false} ClearedEarly(s: Reg, bits: seq<bool>)
    requires |bits| <= 15
    requires Feed(s, bits) == ZERO
    ensures forall i :: |bits| <= i < 16 ==> !s[i]
    decreases |bits|
  {
    if bits != [] {
      var next := BitStep(s, bits[0]);
      ClearedEarly(next, bits[1..]);
      assert !next[15];
      forall i | |bits| <= i < 16
        ensures !s[i]
      {
        assert !next[i - 1];
      }
    }
  }

  /** Fifteen bits and then zeros cannot clear a register whose top bit is set. */
  lemma TopBitSurvives(s: Reg, a: seq<bool>, zeros: seq<bool>)
    requires s[15] && |a| <= 15
    requires forall i :: 0 <= i < |zeros| ==> !zeros[i]
    ensures Feed(s, a + zeros) != ZERO
  {
    FeedConcat(s, a, zeros);
    if Feed(Feed(s, a), zeros) == ZERO {
      FeedZeros(zeros);
      FeedInjective(Feed(s, a), ZERO, zeros);
      ClearedEarly(s, a);
    }
  }

  /** The first error bit sets the top of the register, and at most fifteen more follow. */
  lemma BurstFromFirstOne(e: seq<bool>, end: int)
    requires end <= 15
    requires forall i :: 0 <= i < |e| && e[i] ==> i < end
    ensures Feed(BitStep(ZERO, true), e) != ZERO
  {
    var n := if |e| < 15 then |e| else 15;
    var a, zeros := e[..n], e[n..];
    assert e == a + zeros;
    TopBitSurvives(BitStep(ZERO, true), a, zeros);
  }

  /** A nonzero pattern whose ones lie within sixteen consecutive places never feeds to zero. */
  lemma {:induction false} BurstNotZero(e: seq<bool>, p: int)
    requires exists i :: 0 <= i < |e| && e[i]
    requires forall i :: 0 <= i < |e| && e[i] ==> p <= i < p + 16
    ensures Feed(ZERO, e) != ZERO
    decreases |e|
  {
    if !e[0] {
      assert BitStep(ZERO, e[0]) == ZERO;
      forall i | 0 <= i < |e[1..]| && e[1..][i]
        ensures p - 1 <= i < p + 15
      {
        assert e[i + 1];
      }
      var k :| 0 <= k < |e| && e[k];
      assert e[1..][k - 1];
      BurstNotZero(e[1..], p - 1);
    } else {
      BurstFromFirstOne(e[1..], p + 15);
    }
  }

  // ---------------------------------------------------------------------------------------
  // Parity
  // ---------------------------------------------------------------------------------------

  function CountOnes(bits: seq<bool>): nat
    decreases |bits|
  {
    if bits == [] then 0 else (if bits[0] then 1 else 0) + CountOnes(bits[1..])
  }

  predicate Odd(bits: seq<bool>) { CountOnes(bits) % 2 == 1 }

  lemma {:induction false} XorParity(a: seq<bool>, b: seq<bool>)
    requires |a| == |b|
    ensures Odd(Xor(a, b)) == (Odd(a) != Odd(b))
    decreases |a|
  {
    if a != [] {
      assert Xor(a, b)[1..] == Xor(a[1..], b[1..]);
      XorParity(a[1..], b[1..]);
    }
  }

  lemma {:induction false} OddConcat(a: seq<bool>, b: seq<bool>)
    ensures Odd(a + b) == (Odd(a) != Odd(b))
    decreases |a|
  {
    if a == [] {
      assert a + b == b;
    } else {
      assert (a + b)[1..] == a[1..] + b;
      OddConcat(a[1..], b);
    }
  }

  lemma {:induction false} OddZeros(bits: seq<bool>)
    requires forall i :: 0 <= i < |bits| ==> !bits[i]
    ensures !Odd(bits)
    decreases |bits|
  {
    if bits != [] {
      OddZeros(bits[1..]);
    }
  }

  /** Three taps: losing the low bit and adding the taps changes the number of ones evenly. */
  lemma ShiftParity(u: Reg)
    ensures Odd(Shift(u)) == Odd(u)
  {
    var moved := u[1..] + [false];
    assert u == [u[0]] + u[1..];
    OddConcat([u[0]], u[1..]);
    OddConcat(u[1..], [false]);
    if u[0] {
      var taps: Reg := seq(16, i => Tap(i));
      assert Shift(u) == Xor(moved, taps);
      XorParity(moved, taps);
      assert taps == [true] + (ZERO[..12] + [true, false, true]);
      OddConcat([true], ZERO[..12] + [true, false, true]);
      OddConcat(ZERO[..12], [true, false, true]);
      OddZeros(ZERO[..12]);
      assert CountOnes([true, false, true]) == 2 by {
        assert [true, false, true][1..] == [false, true];
      }
    } else {
      assert Shift(u) == moved;
    }
  }

  lemma BitStepParity(s: Reg, b: bool)
    ensures Odd(BitStep(s, b)) == (Odd(s) != b)
  {
    var u := s[0 := s[0] != b];
    ShiftParity(u);
    assert u == [s[0] != b] + s[1..] && s == [s[0]] + s[1..];
    OddConcat([s[0] != b], s[1..]);
    OddConcat([s[0]], s[1..]);
  }

  /** The register's parity counts the ones fed so far: a consequence of the generator being a
      multiple of x + 1. */
  lemma {:induction false} FeedParity(s: Reg, bits: seq<bool>)
    ensures Odd(Feed(s, bits)) == (Odd(s) != Odd(bits))
    decreases |bits|
  {
    if bits != [] {
      BitStepParity(s, bits[0]);
      FeedParity(BitStep(s, bits[0]), bits[1..]);
    }
  }

  lemma OnesEven()
    ensures !Odd(ONES)
  {
    assert ONES ==
      [true, true, true, true] + ([true, true, true, true] + ([true, true, true, true] + [true, true, true, true]));
    var q := [true, true, true, true];
    OddConcat(q, q);
    OddConcat(q, q + q);
    OddConcat(q, q + (q + q));
  }
}

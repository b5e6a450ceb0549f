/** What the Modbus CRC means: the remainder of a polynomial division over GF(2), as section
    6.2.2 of the MODBUS over Serial Line Specification and Implementation Guide V1.02 has it.
    A polynomial is the finite set of the exponents whose coefficient is one. */
module Gf2Polynomial {
  import opened ShiftRegister

  type Poly = set<nat>

  /** The coefficient of x^e. */
  predicate Coef(p: Poly, e: int) { e >= 0 && e in p }

  function Add(p: Poly, q: Poly): (r: Poly)
    ensures forall e: int {:trigger Coef(r, e)} :: Coef(r, e) == (Coef(p, e) != Coef(q, e))
  {
    (p - q) + (q - p)
  }

  /** p(x) * x^k */
  function Times(p: Poly, k: nat): (r: Poly)
    ensures forall e: int {:trigger Coef(r, e)} :: Coef(r, e) == Coef(p, e - k)
  {
    set e | e in p :: e + k
  }

  /** q(x) * (x^16 + x^15 + x^2 + 1) */
  function TimesGenerator(q: Poly): Poly {
    Add(Add(Times(q, 16), Times(q, 15)), Add(Times(q, 2), q))
  }

  /** r is what is left of p when the generator is divided out. */
  ghost predicate IsRemainder(p: Poly, r: Poly) {
    (forall e :: e in r ==> e < 16) && exists q: Poly :: Add(p, r) == TimesGenerator(q)
  }

  lemma SameCoefs(p: Poly, q: Poly)
    requires forall e: nat :: Coef(p, e) == Coef(q, e)
    ensures p == q
  {
    forall e: nat
      ensures e in p <==> e in q
    {
      assert Coef(p, e) == Coef(q, e);
    }
  }

  lemma {:induction false} Largest(q: Poly) returns (m: nat)
    requires q != {}
    ensures m in q && forall e :: e in q ==> e <= m
    decreases |q|
  {
    m :| m in q;
    if e :| e in q && e > m {
      var rest := q - {m};
      assert e in rest;
      var n := Largest(rest);
      forall x | x in q
        ensures x <= n
      {
        if x != m {
          assert x in rest;
        }
      }
      m := n;
    }
  }

  lemma GeneratorLinear(p: Poly, q: Poly, e: int)
    ensures Coef(TimesGenerator(Add(p, q)), e) == (Coef(TimesGenerator(p), e) != Coef(TimesGenerator(q), e))
  {
  }

  lemma GeneratorAt(p: Poly, e: int)
    ensures Coef(TimesGenerator(p), e) ==
      ((Coef(p, e - 16) != Coef(p, e - 15)) != (Coef(p, e - 2) != Coef(p, e)))
  {
  }

  /** A multiple of the generator without a coefficient at 16 or above is zero. */
  lemma SmallMultiple(d: Poly)
    requires forall e: int :: e >= 16 ==> !Coef(TimesGenerator(d), e)
    ensures d == {}
  {
    if d != {} {
      var m := Largest(d);
      GeneratorAt(d, m + 16);
    }
  }

  lemma DifferenceOfRemainders(p: Poly, r: Poly, s: Poly, q: Poly, t: Poly, e: int)
    requires Add(p, r) == TimesGenerator(q) && Add(p, s) == TimesGenerator(t)
    ensures Coef(TimesGenerator(Add(q, t)), e) == (Coef(r, e) != Coef(s, e))
  {
    GeneratorLinear(q, t, e);
    assert Coef(Add(p, r), e) == Coef(TimesGenerator(q), e);
    assert Coef(Add(p, s), e) == Coef(TimesGenerator(t), e);
  }

  /** Division leaves exactly one remainder, so IsRemainder names a value. */
  lemma RemainderUnique(p: Poly, r: Poly, s: Poly)
    requires IsRemainder(p, r) && IsRemainder(p, s)
    ensures r == s
  {
    var q: Poly :| Add(p, r) == TimesGenerator(q);
    var t: Poly :| Add(p, s) == TimesGenerator(t);
    var d := Add(q, t);
    forall e: int | e >= 16
      ensures !Coef(TimesGenerator(d), e)
    {
      DifferenceOfRemainders(p, r, s, q, t, e);
    }
    SmallMultiple(d);
    forall e: nat
      ensures Coef(r, e) == Coef(s, e)
    {
      DifferenceOfRemainders(p, r, s, q, t, e);
      GeneratorAt(d, e);
    }
    SameCoefs(r, s);
  }

  /** A register read as a polynomial, bit-reflected: its lowest bit is the coefficient of x^15. */
  function RegPoly(s: Reg): (p: Poly)
    ensures forall e: int {:trigger Coef(p, e)} :: Coef(p, e) == (0 <= e < 16 && s[15 - e])
  {
    MessagePoly(s)
  }

  /** A message as a polynomial: its first bit is the highest coefficient. */
  function MessagePoly(bits: seq<bool>): (p: Poly)
    ensures forall e: int {:trigger Coef(p, e)} :: Coef(p, e) == (0 <= e < |bits| && bits[|bits| - 1 - e])
  {
    set i | 0 <= i < |bits| && bits[i] :: |bits| - 1 - i
  }

  /** The polynomial divided: the message times x^16, with the register's initial content added
      to the sixteen places the message starts with. */
  function Dividend(init: Reg, bits: seq<bool>): Poly {
    Add(Times(RegPoly(init), |bits|), Times(MessagePoly(bits), 16))
  }

  /** Shifting multiplies by x and takes the generator away when x^16 appears. */
  lemma BitStepDivides(s: Reg, b: bool, e: int)
    ensures Coef(RegPoly(BitStep(s, b)), e) ==
      ((Coef(RegPoly(s), e - 1) != (e == 16 && b)) !=
       (s[0] != b && (e == 16 || e == 15 || e == 2 || e == 0)))
  {
  }

  /** Taking the first bit into the register changes the dividend by a multiple of the generator. */
  lemma FirstBit(s: Reg, bits: seq<bool>, e: int)
    requires bits != []
    ensures
      var n := |bits| - 1;
      Coef(Dividend(s, bits), e) ==
      (Coef(Dividend(BitStep(s, bits[0]), bits[1..]), e) !=
       (s[0] != bits[0] && (e == n + 16 || e == n + 15 || e == n + 2 || e == n)))
  {
    var n := |bits| - 1;
    BitStepDivides(s, bits[0], e - n);
    assert Coef(Times(MessagePoly(bits), 16), e) ==
      (Coef(Times(MessagePoly(bits[1..]), 16), e) != (e == n + 16 && bits[0]));
  }

  lemma {:induction false} Quotient(s: Reg, bits: seq<bool>) returns (q: Poly)
    ensures Add(Dividend(s, bits), RegPoly(Feed(s, bits))) == TimesGenerator(q)
    decreases |bits|
  {
    var r := RegPoly(Feed(s, bits));
    if bits == [] {
      q := {};
      SameCoefs(Add(Dividend(s, bits), r), TimesGenerator(q));
    } else {
      var b, rest, n := bits[0], bits[1..], |bits| - 1;
      var t := Quotient(BitStep(s, b), rest);
      var lead: Poly := if s[0] != b then {n} else {};
      q := Add(t, lead);
      forall e: nat
        ensures Coef(Add(Dividend(s, bits), r), e) == Coef(TimesGenerator(q), e)
      {
        assert Coef(Add(Dividend(BitStep(s, b), rest), r), e) == Coef(TimesGenerator(t), e);
        FirstBit(s, bits, e);
        GeneratorLinear(t, lead, e);
        GeneratorAt(lead, e);
      }
      SameCoefs(Add(Dividend(s, bits), r), TimesGenerator(q));
    }
  }

  /** Feeding a message through the register divides. */
  lemma FeedIsRemainder(s: Reg, bits: seq<bool>)
    ensures IsRemainder(Dividend(s, bits), RegPoly(Feed(s, bits)))
  {
    var r := RegPoly(Feed(s, bits));
    var q := Quotient(s, bits);
    assert forall e :: e in r ==> Coef(r, e);
  }
}

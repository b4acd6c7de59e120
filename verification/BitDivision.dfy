/**
 Bit-serial division over the two-element field by x^16 + x^12 + x^5 + 1, the
 generator of ITU-T V.41, section 2. The remainder sits in a sixteen-bit register
 with the coefficient of x^15 on top.

 Xor, Shift and the other one-line functions on registers are hidden in the
 inductive proofs, which need only their laws.
 */
module BitDivision {
  // Addition of polynomials over the two-element field.
  function Xor(a: bv16, b: bv16): bv16 { a ^ b }

  // Multiply the register by x; the coefficient that leaves at x^16 comes back
  // as x^12 + x^5 + 1.
  function Shift(c: bv16): bv16 {
    var t := c >> 15;
    (c << 1) ^ (t << 12) ^ (t << 5) ^ t
  }

  // A bit in the place of the leading coefficient.
  function Lead(bit: bv1): bv16 { (bit as bv16) << 15 }

  // One step of the division: the incoming bit is added to the coefficient that leaves.
  function Step(c: bv16, bit: bv1): bv16 {
    Shift(Xor(c, Lead(bit)))
  }

  // The register after a whole string of bits.
  function Divide(c: bv16, bits: seq<bv1>): bv16
    decreases |bits|
  {
    if |bits| == 0 then c else Divide(Step(c, bits[0]), bits[1..])
  }

  // The coefficient of x^15.
  function LeadBit(w: bv16): bv1 { (w >> 15) as bv1 }

  function Double(w: bv16): bv16 { w << 1 }

  // The n leading coefficients of w, from x^15 down.
  function LeadBits(w: bv16, n: nat): (r: seq<bv1>)
    ensures |r| == n
    decreases n
  {
    if n == 0 then [] else [LeadBit(w)] + LeadBits(Double(w), n - 1)
  }

  function High(b: bv8): bv16 { (b as bv16) << 8 }

  // The bits of a byte, most significant first.
  function ByteBits(b: bv8): (r: seq<bv1>)
    ensures |r| == 8
  {
    LeadBits(High(b), 8)
  }

  function Bits(bs: seq<bv8>): (r: seq<bv1>)
    ensures |r| == 8 * |bs|
  {
    if |bs| == 0 then [] else ByteBits(bs[0]) + Bits(bs[1..])
  }

  // n steps with no further input.
  function Shifts(n: nat, c: bv16): bv16
    decreases n
  {
    if n == 0 then c else Shifts(n - 1, Shift(c))
  }

  lemma {:induction false} BitsSplit(a: seq<bv8>, b: seq<bv8>)
    ensures Bits(a + b) == Bits(a) + Bits(b)
  {
    hide ByteBits;
    if |a| == 0 {
      assert a + b == b;
    } else {
      assert (a + b)[1..] == a[1..] + b;
      BitsSplit(a[1..], b);
    }
  }

  lemma BitsOne(b: bv8)
    ensures Bits([b]) == ByteBits(b)
  {
    hide ByteBits;
    assert Bits([b][1..]) == [];
  }

  lemma {:induction false} DivideSplit(c: bv16, p: seq<bv1>, q: seq<bv1>)
    ensures Divide(c, p + q) == Divide(Divide(c, p), q)
    decreases |p|
  {
    hide Step;
    if |p| == 0 {
      assert p + q == q;
    } else {
      assert (p + q)[1..] == p[1..] + q;
      DivideSplit(Step(c, p[0]), p[1..], q);
    }
  }

  // ----- the shift is linear over addition of polynomials -----

  lemma ShiftOfSum(a: bv16, b: bv16)
    ensures Shift(a ^ b) == Shift(a) ^ Shift(b)
  {}

  lemma ShiftLinear(a: bv16, b: bv16)
    ensures Shift(Xor(a, b)) == Xor(Shift(a), Shift(b))
  {
    hide Shift;
    ShiftOfSum(a, b);
  }

  lemma {:induction false} ShiftsLinear(n: nat, a: bv16, b: bv16)
    ensures Shifts(n, Xor(a, b)) == Xor(Shifts(n, a), Shifts(n, b))
    decreases n
  {
    hide Shift, Xor;
    if n > 0 {
      ShiftLinear(a, b);
      ShiftsLinear(n - 1, Shift(a), Shift(b));
    }
  }

  lemma ShiftNonzero(c: bv16)
    requires c != 0
    ensures Shift(c) != 0
  {}

  lemma {:induction false} ShiftsNonzero(n: nat, c: bv16)
    requires c != 0
    ensures Shifts(n, c) != 0
    decreases n
  {
    hide Shift;
    if n > 0 {
      ShiftNonzero(c);
      ShiftsNonzero(n - 1, Shift(c));
    }
  }

  lemma {:induction false} ShiftsZero(n: nat)
    ensures Shifts(n, 0) == 0
    decreases n
  {
    if n > 0 {
      assert Shift(0) == 0;
      ShiftsZero(n - 1);
    }
  }

  lemma XorComm(a: bv16, b: bv16)
    ensures Xor(a, b) == Xor(b, a)
  {}

  lemma XorAssoc(a: bv16, b: bv16, c: bv16)
    ensures Xor(a, Xor(b, c)) == Xor(Xor(a, b), c)
  {}

  lemma XorZero(c: bv16)
    ensures Xor(c, 0) == c && Xor(0, c) == c && Xor(c, c) == 0
  {}

  lemma XorEqual(a: bv16, b: bv16)
    requires Xor(a, b) == 0
    ensures a == b
  {}

  lemma DivideNone(c: bv16)
    ensures Divide(c, []) == c
  {}

  // ----- up to sixteen bits enter the register at once -----

  function Half(w: bv16): bv16 { w >> 1 }

  // The bits of p, moved to the top of a register.
  function Top(p: seq<bv1>): bv16 {
    if |p| == 0 then 0 else Xor(Lead(p[0]), Half(Top(p[1..])))
  }

  predicate ClearBeyond(w: bv16, k: nat)
    requires k < 16
  {
    w << (k as bv5) == 0
  }

  lemma ClearStep(bit: bv1, w: bv16, k: nat)
    requires k < 15 && ClearBeyond(w, k)
    ensures ClearBeyond(Xor(Lead(bit), Half(w)), k + 1)
  {
    assert (k + 1) as bv5 == (k as bv5) + 1;
  }

  lemma {:induction false} TopClear(p: seq<bv1>)
    requires |p| < 16
    ensures ClearBeyond(Top(p), |p|)
  {
    hide Xor, Lead, Half, ClearBeyond;
    if |p| == 0 {
      ClearZero();
    } else {
      TopClear(p[1..]);
      ClearStep(p[0], Top(p[1..]), |p[1..]|);
    }
  }

  lemma ClearZero()
    ensures ClearBeyond(0, 0)
  {}

  lemma ShiftUndoesHalf(w: bv16, k: nat)
    requires k < 16 && ClearBeyond(w, k)
    ensures Shift(Half(w)) == w
  {
    assert w & 1 == 0;
  }

  lemma {:induction false} DivideIsShifts(c: bv16, p: seq<bv1>)
    requires |p| <= 16
    ensures Divide(c, p) == Shifts(|p|, Xor(c, Top(p)))
    decreases |p|
  {
    hide Shift, Xor, Lead, Half, ClearBeyond;
    if |p| == 0 {
      XorZero(c);
    } else {
      var q := p[1..];
      DivideIsShifts(Step(c, p[0]), q);
      TopClear(q);
      ShiftUndoesHalf(Top(q), |q|);
      XorAssoc(c, Lead(p[0]), Half(Top(q)));
      ShiftLinear(Xor(c, Lead(p[0])), Half(Top(q)));
    }
  }

  lemma LeadAndRest(w: bv16)
    ensures Xor(Lead(LeadBit(w)), Half(Double(w))) == w
  {}

  lemma ClearDouble(w: bv16, n: nat)
    requires 0 < n < 16 && ClearBeyond(w, n)
    ensures ClearBeyond(Double(w), n - 1)
  {
    assert (n - 1) as bv5 == (n as bv5) - 1;
  }

  lemma {:induction false} TopOfLeadBits(w: bv16, n: nat)
    requires n < 16 && ClearBeyond(w, n)
    ensures Top(LeadBits(w, n)) == w
    decreases n
  {
    hide Xor, Lead, Half, Double, LeadBit, ClearBeyond;
    if n == 0 {
      OnlyZeroClear(w);
    } else {
      var rest := LeadBits(Double(w), n - 1);
      assert LeadBits(w, n)[1..] == rest;
      ClearDouble(w, n);
      TopOfLeadBits(Double(w), n - 1);
      LeadAndRest(w);
    }
  }

  lemma OnlyZeroClear(w: bv16)
    requires ClearBeyond(w, 0)
    ensures w == 0
  {}

  lemma TopOfByte(b: bv8)
    ensures Top(ByteBits(b)) == High(b)
  {
    hide Top, High, ClearBeyond, LeadBits;
    HighClear(b);
    TopOfLeadBits(High(b), 8);
  }

  lemma HighClear(b: bv8)
    ensures ClearBeyond(High(b), 8)
  {}
}

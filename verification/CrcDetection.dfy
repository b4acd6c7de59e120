/**
 What the checksum detects: every burst of at most sixteen bits and every odd number
 of flipped bits, in a frame of any length.
 */
module CrcDetection {
  import opened BitDivision
  import opened Crc16

  // ----- what the checksum detects -----

  function XorByte(a: bv8, b: bv8): bv8 { a ^ b }

  function XorBit(a: bv1, b: bv1): bv1 { a ^ b }

  // The pattern of flipped bits, laid over a frame of the same length.
  function Flip(frame: seq<bv8>, e: seq<bv8>): (r: seq<bv8>)
    requires |frame| == |e|
    ensures |r| == |frame|
  {
    seq(|frame|, i requires 0 <= i < |frame| => XorByte(frame[i], e[i]))
  }

  function XorBits(p: seq<bv1>, q: seq<bv1>): (r: seq<bv1>)
    requires |p| == |q|
    ensures |r| == |p|
  {
    seq(|p|, i requires 0 <= i < |p| => XorBit(p[i], q[i]))
  }

  lemma LeadBitOfXor(a: bv16, b: bv16)
    ensures LeadBit(Xor(a, b)) == XorBit(LeadBit(a), LeadBit(b))
  {}

  lemma DoubleOfXor(a: bv16, b: bv16)
    ensures Double(Xor(a, b)) == Xor(Double(a), Double(b))
  {}

  lemma {:induction false} LeadBitsOfXor(a: bv16, b: bv16, n: nat)
    ensures LeadBits(Xor(a, b), n) == XorBits(LeadBits(a, n), LeadBits(b, n))
    decreases n
  {
    hide Xor, XorBit, Double, LeadBit;
    if n > 0 {
      LeadBitOfXor(a, b);
      DoubleOfXor(a, b);
      LeadBitsOfXor(Double(a), Double(b), n - 1);
    }
  }

  lemma HighOfXor(a: bv8, b: bv8)
    ensures High(XorByte(a, b)) == Xor(High(a), High(b))
  {}

  lemma ByteBitsOfXor(a: bv8, b: bv8)
    ensures ByteBits(XorByte(a, b)) == XorBits(ByteBits(a), ByteBits(b))
  {
    hide LeadBits, XorBits, XorByte, Xor, High;
    HighOfXor(a, b);
    LeadBitsOfXor(High(a), High(b), 8);
  }

  lemma {:induction false} BitsOfFlip(frame: seq<bv8>, e: seq<bv8>)
    requires |frame| == |e|
    ensures Bits(Flip(frame, e)) == XorBits(Bits(frame), Bits(e))
  {
    hide ByteBits, XorBit, XorByte;
    if |frame| > 0 {
      assert Flip(frame, e)[1..] == Flip(frame[1..], e[1..]);
      BitsOfFlip(frame[1..], e[1..]);
      ByteBitsOfXor(frame[0], e[0]);
    }
  }

  lemma LeadOfXor(x: bv1, y: bv1)
    ensures Lead(XorBit(x, y)) == Xor(Lead(x), Lead(y))
  {}

  lemma XorSwap(a: bv16, b: bv16, c: bv16, d: bv16)
    ensures Xor(Xor(a, b), Xor(c, d)) == Xor(Xor(a, c), Xor(b, d))
  {
    hide Xor;
    XorAssoc(a, b, Xor(c, d));
    XorAssoc(b, c, d);
    XorComm(b, c);
    XorAssoc(c, b, d);
    XorAssoc(a, c, Xor(b, d));
  }

  lemma {:induction false} DivideLinear(a: bv16, b: bv16, p: seq<bv1>, q: seq<bv1>)
    requires |p| == |q|
    ensures Divide(Xor(a, b), XorBits(p, q)) == Xor(Divide(a, p), Divide(b, q))
    decreases |p|
  {
    hide Shift, Xor, Lead, XorBit;
    if |p| > 0 {
      var pq := XorBits(p, q);
      assert pq[1..] == XorBits(p[1..], q[1..]);
      LeadOfXor(p[0], q[0]);
      XorSwap(a, b, Lead(p[0]), Lead(q[0]));
      ShiftLinear(Xor(a, Lead(p[0])), Xor(b, Lead(q[0])));
      DivideLinear(Step(a, p[0]), Step(b, q[0]), p[1..], q[1..]);
    }
  }

  // A corrupted frame still passes exactly when the error pattern alone leaves no remainder.
  lemma UndetectedIff(frame: seq<bv8>, e: seq<bv8>)
    requires |frame| == |e| >= 2 && CrcOk(frame)
    ensures CrcOk(Flip(frame, e)) <==> Crc(e) == 0
  {
    hide Divide, Bits, CrcOk, Xor;
    CrcOkIffNoRemainder(frame);
    CrcOkIffNoRemainder(Flip(frame, e));
    BitsOfFlip(frame, e);
    XorZero(0);
    XorZero(Crc(e));
    DivideLinear(0, 0, Bits(frame), Bits(e));
  }

  // All flipped bits lie within sixteen consecutive ones, and there is at least one.
  ghost predicate Burst(bits: seq<bv1>, start: nat) {
    && (exists i :: 0 <= i < |bits| && bits[i] == 1)
    && (forall i :: 0 <= i < |bits| && bits[i] == 1 ==> start <= i < start + 16)
  }

  ghost predicate AllZero(bits: seq<bv1>) { forall i :: 0 <= i < |bits| ==> bits[i] == 0 }

  lemma {:induction false} DivideZeros(c: bv16, bits: seq<bv1>)
    requires AllZero(bits)
    ensures Divide(c, bits) == Shifts(|bits|, c)
    decreases |bits|
  {
    hide Shift, Xor, Lead;
    if |bits| > 0 {
      LeadZero();
      XorZero(c);
      DivideZeros(Step(c, bits[0]), bits[1..]);
    }
  }

  lemma LeadZero()
    ensures Lead(0) == 0
  {}

  lemma TopStepNonzero(bit: bv1, w: bv16, k: nat)
    requires k < 16 && ClearBeyond(w, k) && (bit == 1 || w != 0)
    ensures Xor(Lead(bit), Half(w)) != 0
  {
    assert w & 1 == 0;
  }

  lemma {:induction false} TopNonzero(p: seq<bv1>, i: nat)
    requires i < |p| <= 16 && p[i] == 1
    ensures Top(p) != 0
  {
    hide Xor, Lead, Half, ClearBeyond;
    TopClear(p[1..]);
    if i > 0 {
      TopNonzero(p[1..], i - 1);
    }
    TopStepNonzero(p[0], Top(p[1..]), |p[1..]|);
  }

  lemma WindowLeavesRemainder(before: seq<bv1>, window: seq<bv1>, after: seq<bv1>)
    requires AllZero(before) && AllZero(after) && |window| <= 16 && Top(window) != 0
    ensures Divide(0, before + (window + after)) != 0
  {
    hide Divide, Top, Shifts, Xor, AllZero;
    var c := Shifts(|window|, Top(window));
    DivideSplit(0, before, window + after);
    DivideSplit(0, window, after);
    DivideZeros(0, before);
    ShiftsZero(|before|);
    DivideIsShifts(0, window);
    XorZero(Top(window));
    ShiftsNonzero(|window|, Top(window));
    DivideZeros(c, after);
    ShiftsNonzero(|after|, c);
  }

  lemma BurstLeavesRemainder(bits: seq<bv1>, start: nat)
    requires Burst(bits, start)
    ensures Divide(0, bits) != 0
  {
    hide Divide, Top;
    var i :| 0 <= i < |bits| && bits[i] == 1;
    var stop := if start + 16 < |bits| then start + 16 else |bits|;
    var before, window, after := bits[..start], bits[start..stop], bits[stop..];
    assert bits == before + (window + after);
    forall k | 0 <= k < |bits| && (k < start || stop <= k) ensures bits[k] == 0 {
      NotOne(bits[k]);
    }
    TopNonzero(window, i - start);
    WindowLeavesRemainder(before, window, after);
  }

  lemma NotOne(bit: bv1)
    ensures bit == 0 || bit == 1
  {}

  // Every burst of at most sixteen bits is detected, in a frame of any length.
  lemma BurstDetected(frame: seq<bv8>, e: seq<bv8>, start: nat)
    requires |frame| == |e| >= 2 && CrcOk(frame)
    requires Burst(Bits(e), start)
    ensures !CrcOk(Flip(frame, e))
  {
    UndetectedIff(frame, e);
    BurstLeavesRemainder(Bits(e), start);
  }

  // ----- odd errors -----

  function Ones(bits: seq<bv1>): nat {
    if |bits| == 0 then 0 else (if bits[0] == 1 then 1 else 0) + Ones(bits[1..])
  }

  // The exclusive or of the n leading coefficients.
  function TopParity(w: bv16, n: nat): bv1
    decreases n
  {
    if n == 0 then 0 else XorBit(LeadBit(w), TopParity(Double(w), n - 1))
  }

  function Parity(w: bv16): bv1 { TopParity(w, 16) }

  lemma XorBitLaws(a: bv1, b: bv1, c: bv1, d: bv1)
    ensures XorBit(XorBit(a, b), XorBit(c, d)) == XorBit(XorBit(a, c), XorBit(b, d))
    ensures XorBit(a, 0) == a && XorBit(0, a) == a && XorBit(a, a) == 0
    ensures XorBit(XorBit(a, b), b) == a && XorBit(XorBit(a, b), a) == b
  {}

  lemma {:induction false} TopParityOfXor(a: bv16, b: bv16, n: nat)
    ensures TopParity(Xor(a, b), n) == XorBit(TopParity(a, n), TopParity(b, n))
    decreases n
  {
    hide Xor, XorBit, LeadBit, Double;
    if n == 0 {
      XorBitLaws(0, 0, 0, 0);
    } else {
      LeadBitOfXor(a, b);
      DoubleOfXor(a, b);
      TopParityOfXor(Double(a), Double(b), n - 1);
      XorBitLaws(LeadBit(a), LeadBit(b), TopParity(Double(a), n - 1), TopParity(Double(b), n - 1));
    }
  }

  lemma {:induction false} TopParityPastEnd(w: bv16, n: nat)
    requires n < 16 && ClearBeyond(w, n)
    ensures TopParity(w, n + 1) == TopParity(w, n)
    decreases n
  {
    hide XorBit, LeadBit, Double, ClearBeyond;
    if n == 0 {
      OnlyZeroClear(w);
      ZeroBits();
      XorBitLaws(0, 0, 0, 0);
    } else {
      ClearDouble(w, n);
      TopParityPastEnd(Double(w), n - 1);
    }
  }

  lemma ZeroBits()
    ensures LeadBit(0) == 0 && Double(0) == 0
  {}

  lemma DoubleClear(w: bv16)
    ensures ClearBeyond(Double(w), 15)
  {}

  lemma ParityOfDouble(w: bv16)
    ensures Parity(Double(w)) == XorBit(Parity(w), LeadBit(w))
  {
    hide XorBit, LeadBit, Double, ClearBeyond;
    DoubleClear(w);
    TopParityPastEnd(Double(w), 15);
    XorBitLaws(LeadBit(w), TopParity(Double(w), 15), 0, 0);
  }

  // What a shift adds for the coefficient that leaves.
  function Feedback(w: bv16): bv16 {
    var t := w >> 15;
    (t << 12) ^ (t << 5) ^ t
  }

  lemma ShiftParts(w: bv16)
    ensures Shift(w) == Xor(Double(w), Feedback(w))
  {}

  lemma FeedbackOne(w: bv16)
    requires LeadBit(w) == 1
    ensures Feedback(w) == 0x1021
  {}

  lemma FeedbackZero(w: bv16)
    requires LeadBit(w) == 0
    ensures Feedback(w) == 0
  {}

  // The generator has an even number of terms, so what comes back cancels what leaves.
  lemma ParityOfFeedback(w: bv16)
    ensures Parity(Feedback(w)) == LeadBit(w)
  {
    hide Feedback, LeadBit;
    NotOne(LeadBit(w));
    if LeadBit(w) == 1 {
      FeedbackOne(w);
      ParityOfGenerator();
    } else {
      FeedbackZero(w);
      ParityOfZero();
    }
  }

  lemma {:induction false} TopParityOfZero(n: nat)
    ensures TopParity(0, n) == 0
    decreases n
  {
    hide XorBit, LeadBit, Double;
    ZeroBits();
    XorBitLaws(0, 0, 0, 0);
    if n > 0 {
      TopParityOfZero(n - 1);
    }
  }

  // The three terms of the feedback: x^12, x^5 and 1.
  lemma ParityOfGenerator()
    ensures Parity(0x1021) == 1
  {
    assert TopParity(0x8000, 1) == 1;
    assert TopParity(0x0800, 5) == 1;
    assert TopParity(0x8400, 6) == 0;
    assert TopParity(0x1080, 9) == 0;
    assert TopParity(0x0210, 12) == 0;
    assert TopParity(0x8108, 13) == 1;
  }

  lemma ParityOfZero()
    ensures Parity(0) == 0 && Lead(0) == 0
  {
    TopParityOfZero(16);
  }

  lemma ParityOfOne()
    ensures Parity(0x8000) == 1 && Lead(1) == 0x8000
  {
    TopParityOfZero(15);
    assert Double(0x8000) == 0;
  }

  lemma ParityOfShift(w: bv16)
    ensures Parity(Shift(w)) == Parity(w)
  {
    hide Shift, Double, Feedback, XorBit, LeadBit, Xor, TopParity;
    ShiftParts(w);
    TopParityOfXor(Double(w), Feedback(w), 16);
    ParityOfDouble(w);
    ParityOfFeedback(w);
    XorBitLaws(Parity(w), LeadBit(w), 0, 0);
  }

  lemma ParityOfLead(bit: bv1)
    ensures Parity(Lead(bit)) == bit
  {
    hide Parity, Lead;
    NotOne(bit);
    if bit == 1 {
      ParityOfOne();
    } else {
      ParityOfZero();
    }
  }

  lemma ParityStep(c: bv16, bit: bv1)
    ensures Parity(Step(c, bit)) == XorBit(Parity(c), bit)
  {
    hide TopParity, Shift, XorBit, Lead, Xor;
    ParityOfShift(Xor(c, Lead(bit)));
    TopParityOfXor(c, Lead(bit), 16);
    ParityOfLead(bit);
  }

  // A step changes the parity of the register by exactly the incoming bit.
  lemma {:induction false} ParityOfDivide(c: bv16, bits: seq<bv1>)
    ensures Parity(Divide(c, bits)) == (if Ones(bits) % 2 == 1 then XorBit(Parity(c), 1) else Parity(c))
    decreases |bits|
  {
    hide Parity, Step, XorBit;
    if |bits| > 0 {
      var bit := bits[0];
      ParityOfDivide(Step(c, bit), bits[1..]);
      ParityStep(c, bit);
      XorBitLaws(Parity(c), 1, 0, 0);
      NotOne(bit);
    }
  }

  // The parity of the checksum is the parity of the data.
  lemma CrcParity(bs: seq<bv8>)
    ensures Parity(Crc(bs)) == 1 <==> Ones(Bits(bs)) % 2 == 1
  {
    hide Divide, Bits, Ones;
    ParityOfDivide(0, Bits(bs));
    ParityOfZero();
    XorBitLaws(1, 0, 0, 0);
    NotOne(Parity(Crc(bs)));
  }

  // Any odd number of flipped bits is detected.
  lemma OddErrorDetected(frame: seq<bv8>, e: seq<bv8>)
    requires |frame| == |e| >= 2 && CrcOk(frame)
    requires Ones(Bits(e)) % 2 == 1
    ensures !CrcOk(Flip(frame, e))
  {
    hide *;
    UndetectedIff(frame, e);
    CrcParity(e);
    ParityOfZero();
  }
}

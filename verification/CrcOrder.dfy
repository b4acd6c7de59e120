/**
 The order of x modulo the generator: x^n leaves the remainder 1 exactly for the
 multiples of 32767. Two flipped bits are undetected exactly at such a distance, which
 no frame is long enough for.

 A register is a polynomial of degree below 16, and acts on another by multiplication:
 Times. Powers of x multiply by adding exponents, so a power as high as 32768 is a
 matter of fifteen squarings. That 32767 is 7 * 31 * 151 does the rest.
 */
module CrcOrder {
  import opened BitDivision
  import opened Crc16
  import opened CrcDetection

  // ----- multiplication -----

  function One(k: nat): bv16
    requires k < 16
  {
    1 << (k as bv5)
  }

  function Odd(a: bv16): bool { a & 1 == 1 }

  // The polynomial in the n lowest coefficients of a, times v.
  function Times(a: bv16, v: bv16, n: nat): bv16
    decreases n
  {
    if n == 0 then 0 else Xor(if Odd(a) then v else 0, Times(Half(a), Shift(v), n - 1))
  }

  lemma HalfOfXor(a: bv16, b: bv16)
    ensures Half(Xor(a, b)) == Xor(Half(a), Half(b)) && (Odd(Xor(a, b)) <==> Odd(a) != Odd(b))
  {}

  lemma {:induction false} TimesLinear(a: bv16, b: bv16, v: bv16, n: nat)
    ensures Times(Xor(a, b), v, n) == Xor(Times(a, v, n), Times(b, v, n))
    decreases n
  {
    hide Xor, Half, Odd, Shift;
    XorZero(0); XorZero(v);
    if n > 0 {
      HalfOfXor(a, b);
      TimesLinear(Half(a), Half(b), Shift(v), n - 1);
      XorSwap(if Odd(a) then v else 0, Times(Half(a), Shift(v), n - 1), if Odd(b) then v
          else 0, Times(Half(b), Shift(v), n - 1));
    }
  }

  lemma ZeroParts()
    ensures !Odd(0) && Half(0) == 0
  {}

  lemma {:induction false} TimesZero(v: bv16, n: nat)
    ensures Times(0, v, n) == 0
    decreases n
  {
    hide Xor, Half, Odd, Shift;
    ZeroParts();
    XorZero(0);
    if n > 0 {
      TimesZero(Shift(v), n - 1);
    }
  }

  lemma OneParts(k: nat)
    requires k < 16
    ensures Odd(One(k)) <==> k == 0
    ensures Half(One(k)) == if k == 0 then 0 else One(k - 1)
  {
    if k > 0 {
      assert (k - 1) as bv5 == (k as bv5) - 1;
    }
  }

  // x^k times v.
  lemma {:induction false} TimesOne(k: nat, v: bv16, n: nat)
    requires k < n && k < 16
    ensures Times(One(k), v, n) == Shifts(k, v)
    decreases n
  {
    hide Xor, Half, Odd, Shift, One;
    OneParts(k);
    if k == 0 {
      TimesZero(Shift(v), n - 1);
      XorZero(v);
    } else {
      TimesOne(k - 1, Shift(v), n - 1);
      XorZero(Shifts(k, v));
    }
  }

  lemma {:induction false} ShiftsMore(n: nat, c: bv16)
    ensures Shifts(n + 1, c) == Shift(Shifts(n, c))
    decreases n
  {
    hide Shift;
    if n > 0 {
      ShiftsMore(n - 1, Shift(c));
    }
  }

  lemma {:induction false} ShiftsSum(m: nat, n: nat, c: bv16)
    ensures Shifts(m + n, c) == Shifts(m, Shifts(n, c))
    decreases n
  {
    hide Shift;
    if n > 0 {
      ShiftsSum(m, n - 1, Shift(c));
    }
  }

  // ----- the generator: x^16 = x^12 + x^5 + 1 -----

  lemma NextOne(k: nat)
    requires k < 16
    ensures Shift(One(k)) == if k < 15 then One(k + 1) else Xor(One(12), Xor(One(5), One(0)))
  {
    if k < 15 {
      assert (k + 1) as bv5 == (k as bv5) + 1;
    }
  }

  predicate Below(a: bv16, n: nat)
    requires n <= 16
  {
    a >> (n as bv5) == 0
  }

  // The leading one of n coefficients, and the rest.
  lemma TakeOff(a: bv16, n: nat)
    requires 0 < n <= 16 && Below(a, n)
    ensures Below(a, n - 1) || Below(Xor(a, One(n - 1)), n - 1)
  {
    assert (n - 1) as bv5 == (n as bv5) - 1;
  }

  lemma PutBack(a: bv16, b: bv16)
    ensures a == Xor(b, Xor(a, b))
  {}

  lemma BelowNone(a: bv16)
    requires Below(a, 0)
    ensures a == 0
  {}

  lemma BelowAll(a: bv16)
    ensures Below(a, 16)
  {}

  lemma {:induction false} OneIsPower(k: nat)
    requires k < 16
    ensures Shifts(k, 1) == One(k)
  {
    hide Shift, One;
    if k == 0 {
      OneIs();
    } else {
      OneIsPower(k - 1);
      ShiftsMore(k - 1, 1);
      NextOne(k - 1);
    }
  }

  lemma OneIs()
    ensures One(0) == 1
  {}

  // What is left of x^16 v.
  function Remainder(v: bv16): bv16 { Xor(Shifts(12, v), Xor(Shifts(5, v), v)) }

  lemma RemainderLinear(a: bv16, b: bv16)
    ensures Remainder(Xor(a, b)) == Xor(Remainder(a), Remainder(b))
  {
    hide Xor, Shifts;
    ShiftsLinear(12, a, b);
    ShiftsLinear(5, a, b);
    XorSwap(Shifts(5, a), Shifts(5, b), a, b);
    XorSwap(Shifts(12, a), Shifts(12, b), Xor(Shifts(5, a), a), Xor(Shifts(5, b), b));
  }

  lemma RemainderOne(k: nat)
    requires k < 16
    ensures Shifts(16, One(k)) == Remainder(One(k))
  {
    hide Xor, Shifts, Shift, One;
    OneIsPower(k); OneIsPower(15); OneIsPower(12); OneIsPower(5);
    OneIs();
    ShiftsMore(15, 1);
    NextOne(15);
    ShiftsSum(16, k, 1); ShiftsSum(k, 16, 1);
    ShiftsLinear(k, One(12), Xor(One(5), One(0)));
    ShiftsLinear(k, One(5), One(0));
    ShiftsSum(k, 12, 1); ShiftsSum(12, k, 1);
    ShiftsSum(k, 5, 1); ShiftsSum(5, k, 1);
  }

  lemma {:induction false} Reduction(v: bv16, n: nat)
    requires n <= 16 && Below(v, n)
    ensures Shifts(16, v) == Remainder(v)
    decreases n
  {
    hide Shifts, Xor, One, Below, Remainder;
    if n == 0 {
      BelowNone(v);
      RemainderOfZero();
    } else {
      TakeOff(v, n);
      if Below(v, n - 1) {
        Reduction(v, n - 1);
      } else {
        var b := One(n - 1);
        var rest := Xor(v, b);
        PutBack(v, b);
        Reduction(rest, n - 1);
        RemainderOne(n - 1);
        ShiftsLinear(16, b, rest);
        RemainderLinear(b, rest);
      }
    }
  }

  lemma RemainderOfZero()
    ensures Shifts(16, 0) == Remainder(0)
  {
    ShiftsZero(16); ShiftsZero(12); ShiftsZero(5);
  }

  lemma TimesNextOne(k: nat, v: bv16)
    requires k < 16
    ensures Times(Shift(One(k)), v, 16) == Shift(Times(One(k), v, 16))
  {
    hide Times, Shifts, Shift, Xor, One;
    TimesOne(k, v, 16);
    ShiftsMore(k, v);
    NextOne(k);
    if k < 15 {
      TimesOne(k + 1, v, 16);
    } else {
      TimesLinear(One(12), Xor(One(5), One(0)), v, 16);
      TimesLinear(One(5), One(0), v, 16);
      TimesOne(12, v, 16); TimesOne(5, v, 16); TimesOne(0, v, 16);
      BelowAll(v);
      Reduction(v, 16);
      NoShifts(v);
    }
  }

  lemma {:induction false} TimesNext(a: bv16, v: bv16, n: nat)
    requires n <= 16 && Below(a, n)
    ensures Times(Shift(a), v, 16) == Shift(Times(a, v, 16))
    decreases n
  {
    hide Times, Shift, Xor, One, Below;
    if n == 0 {
      BelowNone(a);
      TimesZero(v, 16);
      ShiftZero();
    } else {
      TakeOff(a, n);
      if Below(a, n - 1) {
        TimesNext(a, v, n - 1);
      } else {
        var b := One(n - 1);
        var rest := Xor(a, b);
        PutBack(a, b);
        TimesNext(rest, v, n - 1);
        TimesNextOne(n - 1, v);
        ShiftLinear(b, rest);
        TimesLinear(Shift(b), Shift(rest), v, 16);
        TimesLinear(b, rest, v, 16);
        ShiftLinear(Times(b, v, 16), Times(rest, v, 16));
      }
    }
  }

  lemma ShiftZero()
    ensures Shift(0) == 0
  {}

  // ----- powers of x -----

  function Power(n: nat): bv16 { Shifts(n, 1) }

  lemma {:induction false} TimesShifts(n: nat, a: bv16, v: bv16)
    ensures Times(Shifts(n, a), v, 16) == Shifts(n, Times(a, v, 16))
    decreases n
  {
    hide Times, Shift;
    if n > 0 {
      TimesShifts(n - 1, Shift(a), v);
      BelowAll(a);
      TimesNext(a, v, 16);
    }
  }

  lemma PowerSum(m: nat, n: nat)
    ensures Power(m + n) == Times(Power(m), Power(n), 16)
  {
    hide Times, Shifts;
    ShiftsSum(m, n, 1);
    TimesShifts(m, 1, Power(n));
    TimesOne(0, Power(n), 16);
    OneIs();
    NoShifts(Power(n));
  }

  lemma NoShifts(c: bv16)
    ensures Shifts(0, c) == c
  {}

  // ----- the powers that matter -----

  function Term(a: bv16, v: bv16): bv16 { if Odd(a) then v else 0 }

  function Half4(a: bv16): bv16 { Half(Half(Half(Half(a)))) }

  function Shift4(v: bv16): bv16 { Shift(Shift(Shift(Shift(v)))) }

  // Four coefficients at once.
  function Four(a: bv16, v: bv16, more: bv16): bv16 {
    Xor(Term(a, v), Xor(Term(Half(a), Shift(v)),
      Xor(Term(Half(Half(a)), Shift(Shift(v))), Xor(Term(Half(Half(Half(a))), Shift(Shift(Shift(v)))), more))))
  }

  function Product(a: bv16, v: bv16): bv16 {
    var a4, v4 := Half4(a), Shift4(v);
    var a8, v8 := Half4(a4), Shift4(v4);
    Four(a, v, Four(a4, v4, Four(a8, v8, Four(Half4(a8), Shift4(v8), 0))))
  }

  lemma TimesFour(a: bv16, v: bv16, n: nat)
    ensures Times(a, v, n + 4) == Four(a, v, Times(Half4(a), Shift4(v), n))
  {
    hide Xor, Half, Shift, Odd;
    assert Times(Half(Half(a)), Shift(Shift(v)), n + 2) ==
      Xor(Term(Half(Half(a)), Shift(Shift(v))), Times(Half(Half(Half(a))), Shift(Shift(Shift(v))), n + 1));
  }

  lemma TimesIsProduct(a: bv16, v: bv16)
    ensures Times(a, v, 16) == Product(a, v)
  {
    hide Four, Half4, Shift4, Times;
    var a4, v4 := Half4(a), Shift4(v);
    var a8, v8 := Half4(a4), Shift4(v4);
    TimesFour(a, v, 12);
    TimesFour(a4, v4, 8);
    TimesFour(a8, v8, 4);
    TimesFour(Half4(a8), Shift4(v8), 0);
    NoTimes(Half4(Half4(a8)), Shift4(Shift4(v8)));
  }

  lemma NoTimes(a: bv16, v: bv16)
    ensures Times(a, v, 0) == 0
  {}

  lemma Multiplied(m: nat, a: bv16, n: nat, b: bv16, c: bv16)
    requires Power(m) == a && Power(n) == b && Product(a, b) == c
    ensures Power(m + n) == c
  {
    hide Power, Product, Times;
    PowerSum(m, n);
    TimesIsProduct(a, b);
  }

  // Fifteen squarings, up to x^32768 = x.
  lemma Squares()
    ensures Power(1) == 0x0002
    ensures Power(8) == 0x0100
    ensures Power(16) == 0x1021
    ensures Power(32) == 0x3730
    ensures Power(64) == 0xb861
    ensures Power(128) == 0xaefc
    ensures Power(256) == 0x8e29
    ensures Power(512) == 0x13fc
    ensures Power(1024) == 0x36c4
    ensures Power(2048) == 0xfd50
    ensures Power(4096) == 0xaa9e
    ensures Power(8192) == 0x881c
    ensures Power(16384) == 0x4458
    ensures Power(32768) == 0x0002
  {
    hide Power;
    SmallPowers();
    Multiplied(8, 0x0100, 8, 0x0100, 0x1021);
    Multiplied(16, 0x1021, 16, 0x1021, 0x3730);
    Multiplied(32, 0x3730, 32, 0x3730, 0xb861);
    Multiplied(64, 0xb861, 64, 0xb861, 0xaefc);
    Multiplied(128, 0xaefc, 128, 0xaefc, 0x8e29);
    Multiplied(256, 0x8e29, 256, 0x8e29, 0x13fc);
    Multiplied(512, 0x13fc, 512, 0x13fc, 0x36c4);
    Multiplied(1024, 0x36c4, 1024, 0x36c4, 0xfd50);
    Multiplied(2048, 0xfd50, 2048, 0xfd50, 0xaa9e);
    Multiplied(4096, 0xaa9e, 4096, 0xaa9e, 0x881c);
    Multiplied(8192, 0x881c, 8192, 0x881c, 0x4458);
    Multiplied(16384, 0x4458, 16384, 0x4458, 0x0002);
  }

  lemma SmallPowers()
    ensures Power(1) == 0x0002 && Power(8) == 0x0100
  {}

  lemma Power217()
    ensures Power(217) == 0x48e3
  {
    hide Power;
    Squares();
    Multiplied(128, 0xaefc, 64, 0xb861, 0x650b);
    Multiplied(192, 0x650b, 16, 0x1021, 0x45b4);
    Multiplied(208, 0x45b4, 8, 0x0100, 0xac61);
    Multiplied(216, 0xac61, 1, 0x0002, 0x48e3);
  }

  lemma Power1057()
    ensures Power(1057) == 0xf2af
  {
    hide Power;
    Squares();
    Multiplied(1024, 0x36c4, 32, 0x3730, 0xf147);
    Multiplied(1056, 0xf147, 1, 0x0002, 0xf2af);
  }

  lemma Power4681()
    ensures Power(4681) == 0x2c42
  {
    hide Power;
    Squares();
    Multiplied(4096, 0xaa9e, 512, 0x13fc, 0x54a0);
    Multiplied(4608, 0x54a0, 64, 0xb861, 0x0106);
    Multiplied(4672, 0x0106, 8, 0x0100, 0x1621);
    Multiplied(4680, 0x1621, 1, 0x0002, 0x2c42);
  }

  // ----- the exponents that return to 1 -----

  predicate Returns(n: nat) { Power(n) == 1 }

  lemma ShiftsInjective(n: nat, a: bv16, b: bv16)
    requires Shifts(n, a) == Shifts(n, b)
    ensures a == b
  {
    hide Shifts, Xor;
    ShiftsLinear(n, a, b);
    XorZero(Shifts(n, a));
    if Xor(a, b) == 0 {
      XorEqual(a, b);
    } else {
      ShiftsNonzero(n, Xor(a, b));
    }
  }

  lemma WholeOrder()
    ensures Returns(32767)
  {
    hide Shifts;
    Squares();
    ShiftsMore(32767, 1);
    ShiftsMore(0, 1);
    NoShifts(1);
    ShiftInjective(Power(32767), 1);
  }

  lemma ShiftInjective(a: bv16, b: bv16)
    requires Shift(a) == Shift(b)
    ensures a == b
  {
    hide Shift, Xor;
    ShiftLinear(a, b);
    XorZero(Shift(a));
    if Xor(a, b) == 0 {
      XorEqual(a, b);
    } else {
      ShiftNonzero(Xor(a, b));
    }
  }

  lemma ReturnsSum(m: nat, n: nat)
    requires Returns(n)
    ensures Returns(m + n) <==> Returns(m)
  {
    hide Shifts;
    ShiftsSum(m, n, 1);
  }

  lemma {:induction false} ReturnsMultiple(k: nat, n: nat)
    requires Returns(n)
    ensures Returns(k * n)
    decreases k
  {
    hide Returns;
    if k == 0 {
      ReturnsNone();
    } else {
      ReturnsMultiple(k - 1, n);
      ReturnsSum((k - 1) * n, n);
      assert (k - 1) * n + n == k * n;
    }
  }

  lemma ReturnsNone()
    ensures Returns(0)
  {}

  function Gcd(a: nat, b: nat): nat
    decreases b
  {
    if b == 0 then a else Gcd(b, a % b)
  }

  ghost predicate Divides(g: nat, a: nat) { exists k: nat :: a == k * g }

  lemma {:induction false} GcdDivides(a: nat, b: nat)
    ensures Divides(Gcd(a, b), a) && Divides(Gcd(a, b), b)
    decreases b
  {
    if b == 0 {
      assert a == 1 * a && b == 0 * a;
    } else {
      GcdDivides(b, a % b);
      var g := Gcd(b, a % b);
      var k: nat :| b == k * g;
      var l: nat :| a % b == l * g;
      DividesSum(a / b, b, a % b, k, l, g);
      assert a == (a / b) * b + a % b;
    }
  }

  lemma DividesSum(q: nat, b: nat, r: nat, k: nat, l: nat, g: nat)
    requires b == k * g && r == l * g
    ensures Divides(g, q * b + r)
  {
    assert q * b + r == (q * k + l) * g;
  }

  // Euclid's algorithm, on multiples of s.
  lemma {:induction false} GcdReturns(s: nat, a: nat, b: nat)
    requires Returns(s * a) && Returns(s * b)
    ensures Returns(s * Gcd(a, b))
    decreases b
  {
    hide Returns;
    if b > 0 {
      var q, r := a / b, a % b;
      assert a == q * b + r;
      assert s * a == s * r + q * (s * b);
      ReturnsMultiple(q, s * b);
      ReturnsSum(s * r, q * (s * b));
      GcdReturns(s, b, r);
    }
  }

  lemma NoSmallFactor(k: nat, g: nat, p: nat)
    requires p == 7 || p == 31 || p == 151
    requires p == k * g && 2 <= k <= 12
    ensures g == 1
  {
    if k == 2 {} else if k == 3 {} else if k == 4 {} else if k == 5 {} else if k == 6 {} else if k == 7 {}
    else if k == 8 {} else if k == 9 {} else if k == 10 {} else if k == 11 {} else {}
  }

  lemma ProductAtLeast(k: nat, g: nat)
    requires k > 12 && g > 12
    ensures k * g >= 169
  {}

  lemma PrimeFactor(k: nat, g: nat, p: nat)
    requires p == 7 || p == 31 || p == 151
    requires p == k * g
    ensures g == 1 || g == p
  {
    if k > 12 && g > 12 {
      ProductAtLeast(k, g);
    } else if 2 <= k <= 12 {
      NoSmallFactor(k, g, p);
    } else if 2 <= g <= 12 {
      NoSmallFactor(g, k, p);
    }
  }

  lemma PrimeMultiple(l: nat, p: nat)
    requires p == 7 || p == 31 || p == 151
    ensures (l * p) % p == 0
  {
    if p == 7 {} else if p == 31 {} else {}
  }

  lemma GcdWithPrime(n: nat, p: nat)
    requires p == 7 || p == 31 || p == 151
    ensures Gcd(n, p) == 1 || n % p == 0
  {
    hide Gcd;
    GcdDivides(n, p);
    var g := Gcd(n, p);
    var k: nat :| p == k * g;
    PrimeFactor(k, g, p);
    var l: nat :| n == l * g;
    PrimeMultiple(l, p);
  }

  // An exponent that returns is a multiple of each of the prime factors of 32767.
  lemma ReturnsPrime(n: nat, p: nat, m: nat)
    requires (p == 7 && m == 4681) || (p == 31 && m == 1057) || (p == 151 && m == 217)
    requires Returns(n)
    ensures n % p == 0
  {
    hide Returns, Gcd;
    WholeOrder();
    ReturnsMultiple(m, n);
    GcdReturns(m, n, p);
    GcdWithPrime(n, p);
    NotReturned(m);
  }

  lemma NotReturned(m: nat)
    requires m == 217 || m == 1057 || m == 4681
    ensures !Returns(m)
  {
    hide Power;
    Power217();
    Power1057();
    Power4681();
  }

  lemma Combined(n: int, a: int, b: int, c: int)
    requires n == 7 * a && n == 31 * b && n == 151 * c
    ensures n == 32767 * (135 * c - 194 * (9 * b - 2 * a))
  {}

  lemma AllThree(n: nat)
    requires n % 7 == 0 && n % 31 == 0 && n % 151 == 0
    ensures n % 32767 == 0
  {
    var a, b, c := n / 7, n / 31, n / 151;
    Combined(n, a, b, c);
    Whole(135 * c - 194 * (9 * b - 2 * a));
  }

  lemma Whole(e: int)
    ensures (32767 * e) % 32767 == 0
  {}

  // The order of x is 32767.
  lemma OrderOfX(n: nat)
    ensures Returns(n) <==> n % 32767 == 0
  {
    hide Returns;
    if Returns(n) {
      ReturnsPrime(n, 7, 4681);
      ReturnsPrime(n, 31, 1057);
      ReturnsPrime(n, 151, 217);
      AllThree(n);
    }
    if n % 32767 == 0 {
      WholeOrder();
      ReturnsMultiple(n / 32767, 32767);
    }
  }

  // ----- two flipped bits -----

  // Exactly two ones, at i and j.
  ghost predicate TwoAt(bits: seq<bv1>, i: nat, j: nat) {
    i < j < |bits| && forall k :: 0 <= k < |bits| ==> (bits[k] == 1 <==> k == i || k == j)
  }

  lemma LeadOne()
    ensures Lead(1) == One(15) && Lead(0) == 0
  {}

  // A single bit, then zeros, then another bit.
  lemma DividePair(zeros: seq<bv1>)
    requires AllZero(zeros)
    ensures Divide(0, [1] + zeros + [1]) == Shift(Xor(Power(16 + |zeros|), Power(15)))
  {
    hide Divide, Shift, Shifts, Xor, Lead, One;
    var c := Power(16);
    DivideSplit(0, [1] + zeros, [1]);
    DivideSplit(0, [1], zeros);
    DivideOne(0);
    LeadOne();
    OneIsPower(15);
    XorZero(Lead(1));
    ShiftsMore(15, 1);
    DivideZeros(c, zeros);
    ShiftsSum(|zeros|, 16, 1);
    DivideOne(Shifts(|zeros|, c));
  }

  lemma DivideOne(c: bv16)
    ensures Divide(c, [1]) == Shift(Xor(c, Lead(1)))
  {
    hide Shift, Xor, Lead;
    assert [1][1..] == [];
  }

  // A pair at distance d leaves no remainder exactly when x^d returns to 1.
  lemma PairRemainder(d: nat)
    requires d > 0
    ensures Shift(Xor(Power(15 + d), Power(15))) == 0 <==> Returns(d)
  {
    hide Shift, Shifts, Xor;
    ShiftsSum(15, d, 1);
    ShiftZero();
    XorZero(Power(15));
    if Returns(d) {
    } else if Xor(Power(15 + d), Power(15)) == 0 {
      XorEqual(Power(15 + d), Power(15));
      ShiftsInjective(15, Power(d), 1);
    } else {
      ShiftNonzero(Xor(Power(15 + d), Power(15)));
    }
  }

  lemma TwoBitsRemainder(bits: seq<bv1>, i: nat, j: nat)
    requires TwoAt(bits, i, j)
    ensures Divide(0, bits) == 0 <==> (j - i) % 32767 == 0
  {
    hide Divide, Shift, Shifts, Xor, Power, Returns;
    var before, zeros, after := bits[..i], bits[i + 1..j], bits[j + 1..];
    var pair := [1] + zeros + [1];
    forall k | 0 <= k < |bits| && k != i && k != j ensures bits[k] == 0 {
      NotOne(bits[k]);
    }
    assert bits[i..j + 1] == pair;
    assert bits == before + (pair + after);
    DivideSplit(0, before, pair + after);
    DivideZeros(0, before);
    ShiftsZero(|before|);
    DivideSplit(0, pair, after);
    DividePair(zeros);
    var c := Divide(0, pair);
    DivideZeros(c, after);
    ShiftsZero(|after|);
    if c != 0 {
      ShiftsNonzero(|after|, c);
    }
    PairRemainder(j - i);
    OrderOfX(j - i);
  }

  // Two flipped bits go unnoticed exactly at a distance that is a multiple of 32767.
  lemma TwoBitIff(frame: seq<bv8>, e: seq<bv8>, i: nat, j: nat)
    requires |frame| == |e| >= 2 && CrcOk(frame)
    requires TwoAt(Bits(e), i, j)
    ensures CrcOk(Flip(frame, e)) <==> (j - i) % 32767 == 0
  {
    hide CrcOk, Bits, Divide;
    UndetectedIff(frame, e);
    TwoBitsRemainder(Bits(e), i, j);
  }

  lemma {:induction false} NoOnes(bits: seq<bv1>)
    requires Ones(bits) == 0
    ensures AllZero(bits)
  {
    if |bits| > 0 {
      NotOne(bits[0]);
      NoOnes(bits[1..]);
      assert forall k :: 1 <= k < |bits| ==> bits[k] == bits[1..][k - 1];
    }
  }

  lemma {:induction false} OneOne(bits: seq<bv1>) returns (j: nat)
    requires Ones(bits) == 1
    ensures j < |bits| && forall k :: 0 <= k < |bits| ==> (bits[k] == 1 <==> k == j)
  {
    assert forall k :: 1 <= k < |bits| ==> bits[k] == bits[1..][k - 1];
    if bits[0] == 1 {
      NoOnes(bits[1..]);
      j := 0;
    } else {
      j := OneOne(bits[1..]);
      j := j + 1;
    }
  }

  lemma {:induction false} TwoOnes(bits: seq<bv1>) returns (i: nat, j: nat)
    requires Ones(bits) == 2
    ensures TwoAt(bits, i, j)
  {
    assert forall k :: 1 <= k < |bits| ==> bits[k] == bits[1..][k - 1];
    if bits[0] == 1 {
      i := 0;
      j := OneOne(bits[1..]);
      j := j + 1;
    } else {
      i, j := TwoOnes(bits[1..]);
      i, j := i + 1, j + 1;
    }
  }

  // Up to three flipped bits, wherever they are, are detected in every frame that a
  // length byte can describe, and in much longer ones.
  lemma FewErrorsDetected(frame: seq<bv8>, e: seq<bv8>)
    requires 2 <= |frame| == |e| <= 4095 && CrcOk(frame)
    requires 1 <= Ones(Bits(e)) <= 3
    ensures !CrcOk(Flip(frame, e))
  {
    hide CrcOk, Bits, Ones;
    if Ones(Bits(e)) == 2 {
      var i, j := TwoOnes(Bits(e));
      TwoBitIff(frame, e, i, j);
    } else {
      OddErrorDetected(frame, e);
    }
  }
}

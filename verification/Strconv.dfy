/** The decimal numbers in control names and values: strconv.Itoa and strconv.Atoi. */
module Strconv {
  datatype Number = Parsed(n: int) | NotANumber

  const DIGITS := "0123456789"
  const MAX_INT := 0x7fff_ffff_ffff_ffff

  function Digits(n: nat): (s: string)
    ensures |s| > 0
  {
    if n < 10 then [DIGITS[n]] else Digits(n / 10) + [DIGITS[n % 10]]
  }

  function Itoa(n: int): string { if n < 0 then "-" + Digits(-n) else Digits(n) }

  predicate IsDigit(ch: char) { '0' <= ch <= '9' }

  function DigitValue(ch: char): nat
    requires IsDigit(ch)
  {
    ch as int - '0' as int
  }

  predicate AllDigits(s: string) { forall i :: 0 <= i < |s| ==> IsDigit(s[i]) }

  function ValueOf(s: string): nat
    requires AllDigits(s)
  {
    if |s| == 0 then 0 else 10 * ValueOf(s[..|s| - 1]) + DigitValue(s[|s| - 1])
  }

  // An optional sign, then at least one digit and nothing else, within 64 bits.
  function Atoi(s: string): Number {
    var signed := |s| > 0 && (s[0] == '-' || s[0] == '+');
    var digits := if signed then s[1..] else s;
    if |digits| == 0 || !AllDigits(digits) then NotANumber
    else
      var v: int := ValueOf(digits);
      var n := if signed && s[0] == '-' then -v else v;
      if -MAX_INT - 1 <= n <= MAX_INT then Parsed(n) else NotANumber
  }

  // strings.TrimPrefix.
  function TrimPrefix(s: string, prefix: string): string {
    if prefix <= s then s[|prefix|..] else s
  }

  lemma DigitOf(d: nat)
    requires d < 10
    ensures IsDigit(DIGITS[d]) && DigitValue(DIGITS[d]) == d
  {}

  lemma {:induction false} ValueOfDigits(n: nat)
    ensures AllDigits(Digits(n)) && ValueOf(Digits(n)) == n
  {
    hide IsDigit, DigitValue;
    if n < 10 {
      DigitOf(n);
      assert Digits(n)[..0] == "";
    } else {
      ValueOfDigits(n / 10);
      DigitOf(n % 10);
      assert Digits(n)[..|Digits(n)| - 1] == Digits(n / 10);
    }
  }

  // Parsing a formatted number gives it back, sign included.
  lemma AtoiItoa(n: int)
    requires -MAX_INT - 1 <= n <= MAX_INT
    ensures Atoi(Itoa(n)) == Parsed(n)
  {
    hide Digits;
    var m := if n < 0 then -n else n;
    ValueOfDigits(m);
    if n < 0 {
      assert Itoa(n)[1..] == Digits(m);
    } else {
      assert IsDigit(Digits(m)[0]);
    }
  }

  lemma DigitsInjective(m: nat, n: nat)
    requires Digits(m) == Digits(n)
    ensures m == n
  {
    ValueOfDigits(m);
    ValueOfDigits(n);
  }

  // ----- which strings are numbers -----

  function Zeros(k: nat): string { seq(k, _ => '0') }

  function Abs(n: int): nat { if n < 0 then -n else n }

  // A number as it may be written: a sign or none, zeros or none, and the number.
  ghost predicate Numeral(s: string, sign: string, k: nat, n: int) {
    && s == sign + (Zeros(k) + Digits(Abs(n)))
    && (if sign == "-" then n <= 0 else n >= 0 && (sign == "" || sign == "+"))
  }

  lemma {:induction false} ValueOfZeros(k: nat, v: nat)
    ensures AllDigits(Zeros(k) + Digits(v)) && ValueOf(Zeros(k) + Digits(v)) == v
    decreases v
  {
    hide IsDigit, DigitValue;
    var s := Zeros(k) + Digits(v);
    if v < 10 {
      DigitOf(v);
      DigitOf(0);
      NothingButZeros(k);
      assert s[..|s| - 1] == Zeros(k);
    } else {
      ValueOfZeros(k, v / 10);
      DigitOf(v % 10);
      assert s[..|s| - 1] == Zeros(k) + Digits(v / 10);
    }
  }

  lemma {:induction false} NothingButZeros(k: nat)
    ensures AllDigits(Zeros(k)) && ValueOf(Zeros(k)) == 0
  {
    if k > 0 {
      NothingButZeros(k - 1);
      assert Zeros(k)[..k - 1] == Zeros(k - 1);
    }
  }

  lemma DigitBack(ch: char)
    requires IsDigit(ch)
    ensures DigitValue(ch) < 10 && DIGITS[DigitValue(ch)] == ch
  {}

  lemma NextDigit(v: nat, d: nat)
    requires d < 10
    ensures Digits(10 * v + d) == if v == 0 then [DIGITS[d]] else Digits(v) + [DIGITS[d]]
  {
    var n := 10 * v + d;
    assert n / 10 == v && n % 10 == d;
  }

  // One more digit behind a number and its zeros.
  lemma OneMoreDigit(rest: string, k: nat, v: nat, ch: char) returns (k': nat)
    requires IsDigit(ch) && rest == Zeros(k) + Digits(v)
    ensures rest + [ch] == Zeros(k') + Digits(10 * v + DigitValue(ch))
  {
    hide IsDigit, DigitValue, Digits;
    DigitBack(ch);
    NextDigit(v, DigitValue(ch));
    k' := k;
    if v == 0 {
      NextDigit(0, 0);
      assert Zeros(k) + [DIGITS[0]] == Zeros(k + 1);
      k' := k + 1;
    } else {
      assert Zeros(k) + Digits(v) + [ch] == Zeros(k) + (Digits(v) + [ch]);
    }
  }

  // A string of digits is a number behind some zeros.
  lemma {:induction false} DigitsAre(s: string) returns (k: nat)
    requires |s| > 0 && AllDigits(s)
    ensures s == Zeros(k) + Digits(ValueOf(s))
  {
    hide IsDigit, DigitValue, Digits, Zeros;
    var rest, ch := s[..|s| - 1], s[|s| - 1];
    assert s == rest + [ch];
    if |rest| == 0 {
      DigitBack(ch);
      NextDigit(0, DigitValue(ch));
      NoZeros();
      k := 0;
    } else {
      k := DigitsAre(rest);
      k := OneMoreDigit(rest, k, ValueOf(rest), ch);
    }
  }

  lemma NoZeros()
    ensures Zeros(0) == ""
  {}

  lemma NumeralParses(s: string, sign: string, k: nat, n: int)
    requires Numeral(s, sign, k, n) && -MAX_INT - 1 <= n <= MAX_INT
    ensures Atoi(s) == Parsed(n)
  {
    hide Digits, Zeros;
    var digits := Zeros(k) + Digits(Abs(n));
    ValueOfZeros(k, Abs(n));
    if sign == "" {
      assert s == digits && IsDigit(digits[0]);
    } else {
      assert s[0] == sign[0] && s[1..] == digits;
    }
  }

  lemma ParsedIsNumeral(s: string) returns (sign: string, k: nat)
    requires Atoi(s).Parsed?
    ensures Numeral(s, sign, k, Atoi(s).n)
  {
    hide Digits, Zeros, DigitValue, ValueOf;
    var signed := |s| > 0 && (s[0] == '-' || s[0] == '+');
    sign := if signed then s[..1] else "";
    var digits := if signed then s[1..] else s;
    k := DigitsAre(digits);
    assert s == sign + digits;
  }

  // Exactly which strings are parsed, and as what.
  lemma AtoiIff(s: string, n: int)
    ensures Atoi(s) == Parsed(n) <==>
      -MAX_INT - 1 <= n <= MAX_INT && exists sign: string, k: nat :: Numeral(s, sign, k, n)
  {
    hide Numeral;
    if Atoi(s) == Parsed(n) {
      var sign, k := ParsedIsNumeral(s);
      InRange(s);
    }
    hide Atoi;
    if -MAX_INT - 1 <= n <= MAX_INT {
      forall sign: string, k: nat | Numeral(s, sign, k, n) ensures Atoi(s) == Parsed(n) {
        NumeralParses(s, sign, k, n);
      }
    }
  }

  lemma InRange(s: string)
    requires Atoi(s).Parsed?
    ensures -MAX_INT - 1 <= Atoi(s).n <= MAX_INT
  {}

  // A word is not a number.
  lemma WordIsNot(s: string)
    requires |s| > 0 && !IsDigit(s[0]) && s[0] != '-' && s[0] != '+'
    ensures Atoi(s) == NotANumber
  {}
}

/**
 putn and getn of csh (bin/csh/sh.set.c): 32-bit integers as decimal strings, which is how
 the expression evaluator passes its intermediate results.
 */
module CshNumbers {
  import opened Machine

  function Neg(n: int): (r: Int32) { Wrap(-n) }

  datatype Number = Num(n: Int32) | BadNum

  predicate Digit(c: char) { '0' <= c <= '9' }

  function DigitChar(d: int): (c: char)
    requires 0 <= d < 10
    ensures Digit(c) && c as int == '0' as int + d
  {
    ('0' as int + d) as char
  }

  /** putn1 */
  function Putn1(n: nat): (s: string)
    ensures |s| >= 1 && forall c <- s :: Digit(c)
  {
    if n > 9 then Putn1(n / 10) + [DigitChar(n % 10)] else [DigitChar(n % 10)]
  }

  /** putn, which writes the first digit of the most negative number by hand because that
      number has no positive counterpart. */
  function Putn(n: Int32): string {
    if n == -TWO31 then "-" + "2" + Putn1(147483648)
    else if n < 0 then "-" + Putn1(-n)
    else Putn1(n)
  }

  /** putn with its output pointer: the static buffer is filled from left to right. */
  method PutnBuffer(n0: Int32) returns (number: string)
    ensures number == Putn(n0)
  {
    hide Putn1;
    var n := n0;
    number := "";
    if n < 0 {
      n := Neg(n);
      number := number + "-";
    }
    if n == -TWO31 {
      number := number + "2";
      n := 147483648;
    }
    number := Putn1Buffer(number, n);
  }

  method Putn1Buffer(before: string, n: nat) returns (after: string)
    ensures after == before + Putn1(n)
    decreases n
  {
    after := before;
    if n > 9 {
      after := Putn1Buffer(after, n / 10);
    }
    after := after + [DigitChar(n % 10)];
  }

  /** The digit loop of getn: the value so far, and where it stops. */
  function Digits(n: Int32, s: string): (r: Number)
    decreases |s|
  {
    if s == [] then Num(n)
    else if Digit(s[0]) then Digits(Wrap(n * 10 + (s[0] as int - '0' as int)), s[1..])
    else BadNum
  }

  /** getn */
  function Getn(s: string): Number {
    var a := if |s| > 1 && s[0] == '+' then s[1..] else s;
    if a != [] && a[0] == '-' then
      if |a| < 2 || !Digit(a[1]) then BadNum
      else
        match Digits(0, a[1..])
        case Num(n) => Num(Neg(n))
        case BadNum => BadNum
    else Digits(0, a)
  }

  method GetnLoop(s: string) returns (r: Number)
    ensures r == Getn(s)
  {
    var cp, sign := 0, false;
    if |s| > 1 && s[0] == '+' {
      cp := 1;
    }
    ghost var a := s[cp..];
    if cp < |s| && s[cp] == '-' {
      sign := true;
      cp := cp + 1;
      if cp == |s| || !Digit(s[cp]) {
        return BadNum;
      }
    }
    assert s[cp..] == if sign then a[1..] else a;
    ghost var start := s[cp..];
    var n: Int32 := 0;
    while cp < |s| && Digit(s[cp])
      invariant 0 <= cp <= |s|
      invariant Digits(n, s[cp..]) == Digits(0, start)
    {
      assert s[cp..][0] == s[cp] && s[cp..][1..] == s[cp + 1..];
      n := Wrap(n * 10 + (s[cp] as int - '0' as int));
      cp := cp + 1;
    }
    if cp < |s| {
      return BadNum;
    }
    r := Num(if sign then Neg(n) else n);
  }

  function Pow10(n: nat): nat {
    if n == 0 then 1 else 10 * Pow10(n - 1)
  }

  /** Reading the digits of n after a number a, modulo 2^32. */
  lemma LastDigit(n: nat, tail: string)
    requires n > 9
    ensures Putn1(n) + tail == Putn1(n / 10) + ([DigitChar(n % 10)] + tail)
  {
  }

  lemma TenTimes(n: nat)
    requires n > 9
    ensures Pow10(|Putn1(n)|) == 10 * Pow10(|Putn1(n / 10)|)
  {
    LongerByOne(n);
    hide Putn1;
  }

  lemma {:induction false} DigitsOfPutn1(a: int, n: nat, tail: string)
    ensures Digits(Wrap(a), Putn1(n) + tail) == Digits(Wrap(a * Pow10(|Putn1(n)|) + n), tail)
    decreases n
  {
    if n > 9 {
      var q, d := n / 10, n % 10;
      LastDigit(n, tail);
      TenTimes(n);
      hide Putn1, Digits, Pow10, Wrap;
      var p := Pow10(|Putn1(q)|);
      DigitsOfPutn1(a, q, [DigitChar(d)] + tail);
      OneDigit(a * p + q, d, tail);
      Shifted(a, p, q, d);
      assert a * (10 * p) + (10 * q + d) == a * Pow10(|Putn1(n)|) + n;
    } else {
      hide Digits, Wrap;
      assert Putn1(n) + tail == [DigitChar(n)] + tail;
      assert Pow10(1) == 10;
      OneDigit(a, n, tail);
    }
  }

  lemma OneDigit(x: int, d: int, tail: string)
    requires 0 <= d < 10
    ensures Digits(Wrap(x), [DigitChar(d)] + tail) == Digits(Wrap(x * 10 + d), tail)
  {
    WrapStep(x, d);
    assert ([DigitChar(d)] + tail)[1..] == tail;
  }

  lemma Shifted(a: int, p: int, q: int, d: int)
    ensures (a * p + q) * 10 + d == a * (10 * p) + (10 * q + d)
  {
  }

  lemma ReadAll(a: int, n: nat)
    ensures Digits(Wrap(a), Putn1(n)) == Num(Wrap(a * Pow10(|Putn1(n)|) + n))
  {
    DigitsOfPutn1(a, n, []);
    var m := a * Pow10(|Putn1(n)|) + n;
    assert Digits(Wrap(m), []) == Num(Wrap(m));
    hide Putn1, Digits, Pow10, Wrap;
    assert Putn1(n) + [] == Putn1(n);
  }

  lemma PlainDigits(n: nat)
    ensures Digits(0, Putn1(n)) == Num(Wrap(n))
  {
    hide Putn1, Digits, Pow10;
    ReadAll(0, n);
  }

  /** Every 32-bit integer survives being printed and read back, the most negative one too. */
  lemma GetnPutn(n: Int32)
    ensures Getn(Putn(n)) == Num(n)
  {
    if n == -TWO31 {
      GetnLeast();
    } else if n < 0 {
      PlainDigits(-n);
      assert Putn(n)[1..] == Putn1(-n);
      assert Putn1(-n)[0] in Putn1(-n);
    } else {
      PlainDigits(n);
      assert Putn1(n)[0] in Putn1(n);
    }
  }

  lemma GetnLeast()
    ensures Getn(Putn(-TWO31)) == Num(-TWO31)
  {
    hide Putn1, Digits;
    var n: nat := 147483648;
    LeastDigits(n);
    var w := "2" + Putn1(n);
    assert Putn(-TWO31) == "-" + w;
    assert ("-" + w)[1..] == w;
  }

  lemma LeastDigits(n: nat)
    requires n == 147483648
    ensures Digits(0, "2" + Putn1(n)) == Num(-TWO31)
  {
    hide Putn1, Digits, Pow10;
    FirstTwo(Putn1(n));
    NineDigits(n);
    ReadAll(2, n);
  }

  lemma FirstTwo(s: string)
    ensures Digits(0, "2" + s) == Digits(Wrap(2), s)
  {
    assert ("2" + s)[1..] == s;
  }

  lemma LongerByOne(n: nat)
    requires n > 9
    ensures |Putn1(n)| == |Putn1(n / 10)| + 1
  {
  }

  lemma NineDigits(n: nat)
    requires n == 147483648
    ensures |Putn1(n)| == 9 && Pow10(9) == 1000000000
  {
    assert Pow10(3) == 1000 && Pow10(6) == 1000000 && |Putn1(1)| == 1;
    hide Putn1;
    LongerByOne(147483648);
    LongerByOne(14748364);
    LongerByOne(1474836);
    LongerByOne(147483);
    LongerByOne(14748);
    LongerByOne(1474);
    LongerByOne(147);
    LongerByOne(14);
  }

  /** Equal strings stand for equal numbers, and only they. */
  lemma PutnInjective(m: Int32, n: Int32)
    ensures Putn(m) == Putn(n) <==> m == n
  {
    GetnPutn(m);
    GetnPutn(n);
  }
}

/** The field GF(2^8) of FIPS 197 section 4.2, as src/aries/identity/keys.py tabulates it:
    exponentials and logarithms to the base 0x03, modulo the polynomial 0x11B.
    Bit i of a number is the coefficient of x^i. */
module Gf256 {
  import opened Bits

  // ---------------------------------------------------------------- reference arithmetic

  const MODULUS: nat := 0x11B

  function Digit(a: nat, b: nat): nat { if b % 2 == 1 then a else 0 }

  lemma DigitXor(a: nat, b: nat, c: nat)
    ensures Digit(a, Xor(b, c)) == Xor(Digit(a, b), Digit(a, c))
  {
    XorBit(b, c);
    assert Xor(b, c) % 2 == 1 <==> (b % 2 == 1) != (c % 2 == 1);
    XorZero(a);
    XorSelf(a);
    XorSelf(0);
  }

  /** The product of two polynomials over GF(2), not reduced. */
  function CarrylessProduct(a: nat, b: nat): nat
    decreases b
  {
    if b == 0 then 0 else Xor(Digit(a, b), 2 * CarrylessProduct(a, b / 2))
  }

  ghost predicate IsDivision(a: Byte, b: Byte, q: nat, r: Byte) {
    CarrylessProduct(a, b) == Xor(CarrylessProduct(MODULUS, q), r)
  }

  /** r is the remainder of the carry-less product of a and b on division by 0x11B. */
  ghost predicate IsProductModulo(a: Byte, b: Byte, r: Byte) {
    exists q: nat :: IsDivision(a, b, q, r)
  }

  lemma ProductBit(a: nat, b: nat)
    ensures CarrylessProduct(a, b) == Xor(Digit(a, b), 2 * CarrylessProduct(a, b / 2))
  {
    if b == 0 { XorZero(0); }
  }

  lemma {:induction false} ProductLinearLeft(a: nat, c: nat, b: nat)
    ensures CarrylessProduct(Xor(a, c), b) == Xor(CarrylessProduct(a, b), CarrylessProduct(c, b))
    decreases b
  {
    if b == 0 {
      XorZero(0);
    } else {
      ProductLinearLeft(a, c, b / 2);
      var p, q := CarrylessProduct(a, b / 2), CarrylessProduct(c, b / 2);
      XorDouble(p, q);
      XorSwap(Digit(a, b), 2 * p, Digit(c, b), 2 * q);
      XorZero(0);
    }
  }

  lemma {:induction false} ProductLinearRight(a: nat, b: nat, c: nat)
    ensures CarrylessProduct(a, Xor(b, c)) == Xor(CarrylessProduct(a, b), CarrylessProduct(a, c))
    decreases b + c
  {
    if b + c == 0 {
      XorZero(0);
    } else {
      ProductBit(a, b);
      ProductBit(a, c);
      ProductBit(a, Xor(b, c));
      XorBit(b, c);
      ProductLinearRight(a, b / 2, c / 2);
      var p, q := CarrylessProduct(a, b / 2), CarrylessProduct(a, c / 2);
      XorDouble(p, q);
      XorSwap(Digit(a, b), 2 * p, Digit(a, c), 2 * q);
      DigitXor(a, b, c);
    }
  }

  lemma {:induction false} ProductDouble(a: nat, b: nat)
    ensures CarrylessProduct(2 * a, b) == 2 * CarrylessProduct(a, b)
    decreases b
  {
    if b > 0 {
      ProductDouble(a, b / 2);
      XorDouble(Digit(a, b), 2 * CarrylessProduct(a, b / 2));
    }
  }

  lemma {:induction false} ModulusMultipleIsLong(q: nat)
    requires q > 0
    ensures CarrylessProduct(MODULUS, q) >= 256
  {
    BytePow();
    if q == 1 {
      XorZero(MODULUS);
    } else {
      ModulusMultipleIsLong(q / 2);
      XorHigh(9, Digit(MODULUS, q), 2 * CarrylessProduct(MODULUS, q / 2));
    }
  }

  lemma RemainderUnique(a: Byte, b: Byte, r: Byte, s: Byte)
    requires IsProductModulo(a, b, r) && IsProductModulo(a, b, s)
    ensures r == s
  {
    var q: nat :| IsDivision(a, b, q, r);
    var p: nat :| IsDivision(a, b, p, s);
    var u, v := CarrylessProduct(MODULUS, q), CarrylessProduct(MODULUS, p);
    ProductLinearRight(MODULUS, q, p);
    // u ^ r == v ^ s, so u ^ v == r ^ s
    XorSwap(u, r, v, s);
    XorSelf(Xor(u, r));
    XorNonZero(Xor(u, v), Xor(r, s));
    XorByte(r, s);
    if Xor(q, p) > 0 {
      ModulusMultipleIsLong(Xor(q, p));
    }
    XorNonZero(r, s);
  }

  // ---------------------------------------------------------------- powers of the generator

  /** One turn of the table loop: x times 0x03, reduced by 0x11B when bit 8 is set. */
  function Step(x: Byte): Byte {
    StepFits(x);
    Xor(Reduce(x), x)
  }

  lemma StepFits(x: Byte)
    ensures Xor(Reduce(x), x) < 256
  {
    BytePow();
    if 2 * x >= 0x100 {
      XorTop(8, 2 * x, 0x11B);
    }
    XorByte(Reduce(x), x);
  }

  function Iterate(n: nat, x: Byte): Byte {
    if n == 0 then x else Step(Iterate(n - 1, x))
  }

  /** 0x03 to the power n. */
  function Exp(n: nat): Byte { Iterate(n, 1) }

  lemma StepLinear(x: Byte, y: Byte)
    ensures Step(Add(x, y)) == Add(Step(x), Step(y))
  {
    var u, v := Reduce(x), Reduce(y);
    ReduceXor(x, y);
    XorSwap(u, x, v, y);
  }

  /** Twice x, reduced: the value XORed with x in Step. */
  function Reduce(x: Byte): nat { if 2 * x >= 0x100 then Xor(2 * x, 0x11B) else 2 * x }

  lemma ReduceXor(x: Byte, y: Byte)
    ensures Reduce(Add(x, y)) == Xor(Reduce(x), Reduce(y))
  {
    var a, b, c := 2 * x, 2 * y, 2 * Add(x, y);
    XorDouble(x, y);
    BytePow();
    if a >= 0x100 && b >= 0x100 {
      XorTop(8, a, b);
      XorSwap(a, 0x11B, b, 0x11B);
      XorSelf(0x11B);
      XorZero(c);
    } else if a >= 0x100 {
      XorComm(a, b);
      XorHigh(8, b, a);
      XorComm(Xor(a, 0x11B), b);
      XorAssoc(b, a, 0x11B);
    } else if b >= 0x100 {
      XorHigh(8, a, b);
      XorAssoc(a, b, 0x11B);
    } else {
      XorBound(8, a, b);
    }
  }

  lemma StepZero(x: Byte)
    requires Step(x) == 0
    ensures x == 0
  {
    var d := 2 * x;
    if d >= 0x100 {
      // the five set bits of 0x11B would be an even number
      XorNonZero(Xor(d, 0x11B), x);
      ParityXor(d, 0x11B);
    } else {
      XorNonZero(d, x);
    }
  }

  lemma StepInjective(x: Byte, y: Byte)
    requires Step(x) == Step(y)
    ensures x == y
  {
    StepLinear(x, y);
    XorNonZero(Step(x), Step(y));
    StepZero(Add(x, y));
    XorNonZero(x, y);
  }

  lemma {:induction false} IterateLinear(n: nat, x: Byte, y: Byte)
    ensures Iterate(n, Add(x, y)) == Add(Iterate(n, x), Iterate(n, y))
  {
    if n > 0 {
      IterateLinear(n - 1, x, y);
      StepLinear(Iterate(n - 1, x), Iterate(n - 1, y));
    }
  }

  lemma {:induction false} IterateAdd(m: nat, n: nat, x: Byte)
    ensures Iterate(m + n, x) == Iterate(m, Iterate(n, x))
  {
    if m > 0 { IterateAdd(m - 1, n, x); }
  }

  lemma {:induction false} IterateZero(n: nat, x: Byte)
    ensures Iterate(n, x) == 0 <==> x == 0
  {
    if n > 0 {
      IterateZero(n - 1, x);
      XorZero(0);
      if Iterate(n, x) == 0 { StepZero(Iterate(n - 1, x)); }
    }
  }

  lemma {:induction false} IterateInjective(n: nat, x: Byte, y: Byte)
    requires Iterate(n, x) == Iterate(n, y)
    ensures x == y
  {
    if n > 0 {
      StepInjective(Iterate(n - 1, x), Iterate(n - 1, y));
      IterateInjective(n - 1, x, y);
    }
  }

  // ---------------------------------------------------------------- the order of 0x03

  /** The numeral of nine binary digits, highest first. */
  function Nine(d8: bool, d7: bool, d6: bool, d5: bool, d4: bool, d3: bool, d2: bool, d1: bool, d0: bool): Binary {
    Bit(d0, Bit(d1, Bit(d2, Bit(d3, Bit(d4, Bit(d5, Bit(d6, Bit(d7, Bit(d8, End)))))))))
  }

  lemma PlusTwo(p: bool, q: bool, x: Binary, r: bool, s: bool, y: Binary, z: Binary)
    requires x.Plus(y) == z
    ensures Bit(p, Bit(q, x)).Plus(Bit(r, Bit(s, y))) == Bit(p != r, Bit(q != s, z))
  {
  }

  lemma PlusNine(a8: bool, a7: bool, a6: bool, a5: bool, a4: bool, a3: bool, a2: bool, a1: bool, a0: bool,
                 b8: bool, b7: bool, b6: bool, b5: bool, b4: bool, b3: bool, b2: bool, b1: bool, b0: bool)
    ensures Nine(a8, a7, a6, a5, a4, a3, a2, a1, a0).Plus(Nine(b8, b7, b6, b5, b4, b3, b2, b1, b0)) ==
            Nine(a8 != b8, a7 != b7, a6 != b6, a5 != b5, a4 != b4, a3 != b3, a2 != b2, a1 != b1, a0 != b0)
  {
    var x, y, z := Bit(a8, End), Bit(b8, End), Bit(a8 != b8, End);
    PlusTwo(a6, a7, x, b6, b7, y, z);
    x, y, z := Bit(a6, Bit(a7, x)), Bit(b6, Bit(b7, y)), Bit(a6 != b6, Bit(a7 != b7, z));
    PlusTwo(a4, a5, x, b4, b5, y, z);
    x, y, z := Bit(a4, Bit(a5, x)), Bit(b4, Bit(b5, y)), Bit(a4 != b4, Bit(a5 != b5, z));
    PlusTwo(a2, a3, x, b2, b3, y, z);
    x, y, z := Bit(a2, Bit(a3, x)), Bit(b2, Bit(b3, y)), Bit(a2 != b2, Bit(a3 != b3, z));
    PlusTwo(a0, a1, x, b0, b1, y, z);
  }

  /** XOR of nine-digit numerals, digit by digit. */
  lemma XorNine(a8: bool, a7: bool, a6: bool, a5: bool, a4: bool, a3: bool, a2: bool, a1: bool, a0: bool,
                b8: bool, b7: bool, b6: bool, b5: bool, b4: bool, b3: bool, b2: bool, b1: bool, b0: bool)
    ensures Xor(Nine(a8, a7, a6, a5, a4, a3, a2, a1, a0).Value(), Nine(b8, b7, b6, b5, b4, b3, b2, b1, b0).Value()) ==
            Nine(a8 != b8, a7 != b7, a6 != b6, a5 != b5, a4 != b4, a3 != b3, a2 != b2, a1 != b1, a0 != b0).Value()
  {
    PlusNine(a8, a7, a6, a5, a4, a3, a2, a1, a0, b8, b7, b6, b5, b4, b3, b2, b1, b0);
    XorBinary(Nine(a8, a7, a6, a5, a4, a3, a2, a1, a0), Nine(b8, b7, b6, b5, b4, b3, b2, b1, b0));
  }

  /** Appending a leading zero and dropping it: twice a byte, as nine digits. */
  lemma DoubleNine(b7: bool, b6: bool, b5: bool, b4: bool, b3: bool, b2: bool, b1: bool, b0: bool)
    ensures Nine(b7, b6, b5, b4, b3, b2, b1, b0, false).Value() == 2 * Nine(false, b7, b6, b5, b4, b3, b2, b1, b0).Value()
  {
    var m, n := Bit(b7, End), Bit(b7, Bit(false, End));
    assert Bit(false, End).Value() == 0;
    assert m.Value() == n.Value();
    m, n := Bit(b5, Bit(b6, m)), Bit(b5, Bit(b6, n));
    assert m.Value() == n.Value();
    m, n := Bit(b3, Bit(b4, m)), Bit(b3, Bit(b4, n));
    assert m.Value() == n.Value();
    m, n := Bit(b1, Bit(b2, m)), Bit(b1, Bit(b2, n));
    assert m.Value() == n.Value();
  }

  lemma PushRange(p: bool, x: Binary, half: nat, top: bool, zero: bool)
    requires x.Value() < 2 * half && (x.Value() >= half <==> top) && (x.Value() == 0 <==> zero)
    ensures var v := Bit(p, x).Value(); v < 4 * half && (v >= 2 * half <==> top) && (v == 0 <==> zero && !p) && (v == 1 <==> zero && p)
  {
  }

  lemma NineRange(d8: bool, d7: bool, d6: bool, d5: bool, d4: bool, d3: bool, d2: bool, d1: bool, d0: bool)
    ensures Nine(d8, d7, d6, d5, d4, d3, d2, d1, d0).Value() >= 256 <==> d8
    ensures Nine(d8, d7, d6, d5, d4, d3, d2, d1, d0).Value() == 1 <==>
            !d8 && !d7 && !d6 && !d5 && !d4 && !d3 && !d2 && !d1 && d0
  {
    var n, zero := Bit(d8, End), !d8;
    assert n.Value() == if d8 then 1 else 0;
    hide Binary.Value;
    PushRange(d7, n, 1, d8, zero);
    n, zero := Bit(d7, n), zero && !d7;
    PushRange(d6, n, 2, d8, zero);
    n, zero := Bit(d6, n), zero && !d6;
    PushRange(d5, n, 4, d8, zero);
    n, zero := Bit(d5, n), zero && !d5;
    PushRange(d4, n, 8, d8, zero);
    n, zero := Bit(d4, n), zero && !d4;
    PushRange(d3, n, 16, d8, zero);
    n, zero := Bit(d3, n), zero && !d3;
    PushRange(d2, n, 32, d8, zero);
    n, zero := Bit(d2, n), zero && !d2;
    PushRange(d1, n, 64, d8, zero);
    n, zero := Bit(d1, n), zero && !d1;
    PushRange(d0, n, 128, d8, zero);
  }

  lemma ModulusNine()
    ensures Nine(true, false, false, false, true, true, false, true, true).Value() == MODULUS
  {
    var n := Nine(true, false, false, false, true, true, false, true, true);
    assert n.rest.rest.rest.rest.rest.rest.rest.Value() == 2;
    assert n.rest.rest.rest.rest.rest.Value() == 8;
    assert n.rest.rest.rest.Value() == 35;
  }

  /** The eight coefficients of a field element, highest first. */
  datatype Bits8 = Bits8(b7: bool, b6: bool, b5: bool, b4: bool, b3: bool, b2: bool, b1: bool, b0: bool) {
    function Value(): Byte {
      NineRange(false, b7, b6, b5, b4, b3, b2, b1, b0);
      Nine(false, b7, b6, b5, b4, b3, b2, b1, b0).Value()
    }

    /** Step, on coefficients. */
    function Tripled(): Bits8 {
      Bits8(b7 != b6, b6 != b5, b5 != b4, (b4 != b7) != b3, (b3 != b7) != b2, b2 != b1, (b1 != b7) != b0, b7 != b0)
    }

    /** The square, on coefficients: x^i becomes x^(2i), reduced. */
    function Squared(): Bits8 {
      Bits8(b6 != b7, b3 != b5, b5 != b6, (b2 != b4) != b7, (b4 != b5) != (b6 != b7), b1 != b5, (b4 != b6) != b7,
            (b0 != b4) != b6)
    }
  }

  lemma StepBits(b7: bool, b6: bool, b5: bool, b4: bool, b3: bool, b2: bool, b1: bool, b0: bool)
    ensures Step(Bits8(b7, b6, b5, b4, b3, b2, b1, b0).Value()) ==
            Nine(false, b7 != b6, b6 != b5, b5 != b4, (b4 != b7) != b3, (b3 != b7) != b2, b2 != b1, (b1 != b7) != b0, b7 != b0).Value()
  {
    DoubleNine(b7, b6, b5, b4, b3, b2, b1, b0);
    NineRange(b7, b6, b5, b4, b3, b2, b1, b0, false);
    if b7 {
      ModulusNine();
      XorNine(b7, b6, b5, b4, b3, b2, b1, b0, false, true, false, false, false, true, true, false, true, true);
      XorNine(false, b6, b5, b4, !b3, !b2, b1, !b0, true, false, b7, b6, b5, b4, b3, b2, b1, b0);
    } else {
      XorNine(b7, b6, b5, b4, b3, b2, b1, b0, false, false, b7, b6, b5, b4, b3, b2, b1, b0);
    }
  }

  lemma StepBits8(b: Bits8)
    ensures Step(b.Value()) == b.Tripled().Value()
    ensures b.Value() == 1 <==> b == ONE
  {
    StepBits(b.b7, b.b6, b.b5, b.b4, b.b3, b.b2, b.b1, b.b0);
    NineRange(false, b.b7, b.b6, b.b5, b.b4, b.b3, b.b2, b.b1, b.b0);
  }

  const ONE := Bits8(false, false, false, false, false, false, false, true)

  function ExpBits(n: nat): Bits8 { if n == 0 then ONE else ExpBits(n - 1).Tripled() }

  lemma {:induction false} ExpBitsValue(n: nat)
    ensures ExpBits(n).Value() == Exp(n)
  {
    if n == 0 {
      StepBits8(ONE);
    } else {
      ExpBitsValue(n - 1);
      StepBits8(ExpBits(n - 1));
    }
  }

  lemma {:induction false} ExpSquare(n: nat)
    ensures ExpBits(2 * n) == ExpBits(n).Squared()
  {
    if n > 0 {
      ExpSquare(n - 1);
      SquareOfTriple(ExpBits(n - 1));
    }
  }

  lemma SquareOfTriple(b: Bits8)
    ensures b.Tripled().Squared() == b.Squared().Tripled().Tripled()
  {
  }

  /** Multiplying the exponent by 16 squares four times. */
  lemma Exp16(n: nat)
    ensures ExpBits(16 * n) == ExpBits(n).Squared().Squared().Squared().Squared()
  {
    ExpSquare(n);
    ExpSquare(2 * n);
    ExpSquare(4 * n);
    ExpSquare(8 * n);
  }

  lemma TripledInjective(b: Bits8, c: Bits8)
    requires b.Tripled() == c.Tripled()
    ensures b == c
  {
  }

  ghost predicate IsPeriod(n: nat) { ExpBits(n) == ONE }

  lemma PeriodExp(n: nat)
    ensures IsPeriod(n) <==> Exp(n) == 1
  {
    ExpBitsValue(n);
    StepBits8(ExpBits(n));
  }

  lemma SmallPowers()
    ensures ExpBits(1) == Bits8(false, false, false, false, false, false, true, true)
    ensures ExpBits(3) == Bits8(false, false, false, false, true, true, true, true)
    ensures ExpBits(5) == Bits8(false, false, true, true, false, false, true, true)
  {
  }

  lemma NoPeriod15()
    ensures !IsPeriod(15)
  {
    SmallPowers();
    Exp16(1);
  }

  lemma NoPeriod51()
    ensures !IsPeriod(51)
  {
    SmallPowers();
    Exp16(3);
    assert ExpBits(51) == ExpBits(48).Tripled().Tripled().Tripled();
  }

  lemma NoPeriod85()
    ensures !IsPeriod(85)
  {
    SmallPowers();
    Exp16(5);
    assert ExpBits(83) == ExpBits(80).Tripled().Tripled().Tripled();
    assert ExpBits(85) == ExpBits(83).Tripled().Tripled();
  }

  /** Squaring eight times is the identity on 0x03, so its order divides 255. */
  lemma Period255()
    ensures IsPeriod(255)
  {
    SmallPowers();
    Exp16(1);
    Exp16(16);
    assert ExpBits(256) == ExpBits(255).Tripled() && ExpBits(1) == ONE.Tripled();
    TripledInjective(ExpBits(255), ONE);
  }

  lemma PeriodDifference(m: nat, n: nat)
    requires IsPeriod(n)
    ensures IsPeriod(m + n) <==> IsPeriod(m)
  {
    PeriodExp(m);
    PeriodExp(n);
    PeriodExp(m + n);
    IterateAdd(m, n, 1);
  }

  lemma ModMinus(m: nat, n: nat)
    requires m >= n > 0
    ensures (m - n) % n == m % n
  {
    var q, r := m / n - 1, m % n;
    assert m - n == n * q + r;
    ModUnique(m - n, n, q);
  }

  lemma {:induction false} PeriodRemainder(m: nat, n: nat)
    requires IsPeriod(n) && n > 0
    ensures IsPeriod(m % n) <==> IsPeriod(m)
    decreases m
  {
    if m >= n {
      PeriodDifference(m - n, n);
      ModMinus(m, n);
      PeriodRemainder(m - n, n);
    }
  }

  /** 0x03 is primitive: no power of it below the 255th is 1. */
  lemma {:induction false} NoShortPeriod(n: nat)
    requires 0 < n < 255
    ensures !IsPeriod(n)
    decreases n
  {
    Period255();
    NoPeriod15();
    NoPeriod51();
    NoPeriod85();
    if IsPeriod(n) {
      PeriodRemainder(255, n);
      if 255 % n != 0 {
        NoShortPeriod(255 % n);
      } else {
        DivisorOf255(n);
        PeriodRemainder(15, n);
        PeriodRemainder(51, n);
        PeriodRemainder(85, n);
      }
    }
  }

  lemma DivisorOf255(n: nat)
    requires 0 < n < 255 && 255 % n == 0
    ensures 15 % n == 0 || 51 % n == 0 || 85 % n == 0
  {
    var m := 255 / n;
    assert n * m == 255;
    if m <= 16 {
      SmallFactor(m, n);
    } else {
      assert n <= 15;
      SmallFactor(n, m);
    }
  }

  lemma SmallFactor(n: nat, m: nat)
    requires n * m == 255 && 0 < n <= 16
    ensures n == 1 || n == 3 || n == 5 || n == 15
  {
  }
}

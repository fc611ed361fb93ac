/** Multiplication and inversion through logarithms, and the field laws they satisfy. */
module Gf256Field {
  import opened Bits
  import opened Gf256

  // ---------------------------------------------------------------- logarithms

  lemma ExpNonZero(n: nat)
    ensures Exp(n) != 0
  {
    IterateZero(n, 1);
  }

  lemma ExpInjective(i: nat, j: nat)
    requires i < 255 && j < 255 && Exp(i) == Exp(j)
    ensures i == j
  {
    if i < j {
      IterateAdd(i, j - i, 1);
      IterateInjective(i, 1, Exp(j - i));
      PeriodExp(j - i);
      NoShortPeriod(j - i);
    } else if j < i {
      ExpInjective(j, i);
    }
  }

  ghost function Powers(n: nat): set<int> { set i: nat | i < n :: Exp(i) as int }

  ghost function Range(n: nat): set<int> { set i | 1 <= i <= n && InRange(i, n) }

  ghost predicate InRange(i: int, n: nat) { 1 <= i <= n }

  lemma {:induction false} PowersSize(n: nat)
    requires n <= 255
    ensures |Powers(n)| == n
  {
    if n > 0 {
      PowersSize(n - 1);
      assert Powers(n) == Powers(n - 1) + {Exp(n - 1) as int};
      if Exp(n - 1) as int in Powers(n - 1) {
        var i: nat :| i < n - 1 && Exp(i) == Exp(n - 1);
        ExpInjective(i, n - 1);
      }
    }
  }

  lemma {:induction false} RangeSize(n: nat)
    requires n < 256
    ensures |Range(n)| == n
  {
    if n > 0 {
      RangeSize(n - 1);
      assert Range(n) == Range(n - 1) + {n};
    }
  }

  lemma SubsetFull(s: set<int>, t: set<int>)
    requires s <= t && |s| == |t|
    ensures s == t
  {
    assert t == s + (t - s);
  }

  /** Every non-zero element is a power of 0x03. */
  lemma ExpSurjective(a: Byte)
    requires a != 0
    ensures exists i: nat :: i < 255 && Exp(i) == a
  {
    PowersSize(255);
    RangeSize(255);
    forall x | x in Powers(255) ensures x in Range(255) {
      var i: nat :| i < 255 && Exp(i) == x;
      ExpNonZero(i);
    }
    SubsetFull(Powers(255), Range(255));
    assert a in Range(255);
    assert a in Powers(255);
  }

  /** The discrete logarithm to the base 0x03. */
  ghost function Log(a: Byte): (i: nat)
    requires a != 0
    ensures i < 255 && Exp(i) == a
  {
    ExpSurjective(a);
    var i: nat :| i < 255 && Exp(i) == a;
    i
  }

  lemma LogOfExp(i: nat)
    requires i < 255
    ensures Exp(i) != 0 && Log(Exp(i)) == i
  {
    ExpNonZero(i);
    ExpInjective(Log(Exp(i)), i);
  }

  lemma Period(n: nat)
    ensures Exp(n + 255) == Exp(n)
  {
    Period255();
    PeriodExp(255);
    IterateAdd(n, 255, 1);
  }

  // ---------------------------------------------------------------- multiplication

  ghost function Times(a: Byte, b: Byte): Byte {
    if a == 0 || b == 0 then 0 else Exp(Log(a) + Log(b))
  }

  ghost function Inverse(a: Byte): Byte
    requires a != 0
  {
    Exp(255 - Log(a))
  }

  lemma TimesIterate(a: Byte, b: Byte)
    requires a != 0
    ensures Times(a, b) == Iterate(Log(a), b)
  {
    IterateZero(Log(a), b);
    if b != 0 {
      IterateAdd(Log(a), Log(b), 1);
    }
  }

  lemma IterateLog(n: nat, c: Byte)
    ensures Exp(n) != 0 && Iterate(Log(Exp(n)), c) == Iterate(n, c)
  {
    ExpNonZero(n);
    var m := Log(Exp(n));
    if c == 0 {
      IterateZero(m, c);
      IterateZero(n, c);
    } else {
      var l := Log(c);
      IterateAdd(m, l, 1);
      IterateAdd(l, m, 1);
      IterateAdd(n, l, 1);
      IterateAdd(l, n, 1);
    }
  }

  lemma TimesComm(a: Byte, b: Byte)
    ensures Times(a, b) == Times(b, a)
  {
  }

  lemma TimesZero(a: Byte, b: Byte)
    ensures Times(a, b) == 0 <==> a == 0 || b == 0
  {
    if a != 0 && b != 0 { ExpNonZero(Log(a) + Log(b)); }
  }

  lemma TimesAssoc(a: Byte, b: Byte, c: Byte)
    ensures Times(Times(a, b), c) == Times(a, Times(b, c))
  {
    TimesZero(a, b);
    TimesZero(b, c);
    if a == 0 || b == 0 {
      assert Times(a, Times(b, c)) == 0;
    } else {
      var n := Log(a) + Log(b);
      TimesIterate(Exp(n), c);
      IterateLog(n, c);
      IterateAdd(Log(a), Log(b), c);
      TimesIterate(b, c);
      TimesIterate(a, Times(b, c));
    }
  }

  lemma TimesOne(a: Byte)
    ensures Times(a, 1) == a && Times(1, a) == a
  {
    LogOfExp(0);
    if a != 0 { TimesIterate(1, a); }
  }

  lemma TimesAdd(a: Byte, b: Byte, c: Byte)
    ensures Times(a, Add(b, c)) == Add(Times(a, b), Times(a, c))
    ensures Times(Add(b, c), a) == Add(Times(b, a), Times(c, a))
  {
    if a == 0 {
      XorZero(0);
    } else {
      TimesIterate(a, b);
      TimesIterate(a, c);
      TimesIterate(a, Add(b, c));
      IterateLinear(Log(a), b, c);
    }
    TimesComm(a, b);
    TimesComm(a, c);
    TimesComm(a, Add(b, c));
  }

  lemma TimesInverse(a: Byte)
    requires a != 0
    ensures Times(a, Inverse(a)) == 1 && Times(Inverse(a), a) == 1 && Inverse(a) != 0
  {
    ExpNonZero(255 - Log(a));
    TimesIterate(a, Inverse(a));
    IterateAdd(Log(a), 255 - Log(a), 1);
    Period255();
    PeriodExp(255);
    TimesComm(a, Inverse(a));
  }

  // ---------------------------------------------------------------- laws in the shape proofs use

  lemma AddZero(a: Byte)
    ensures Add(a, 0) == a && Add(0, a) == a && Add(a, a) == 0
  {
    XorZero(a);
    XorSelf(a);
  }

  lemma AddComm(a: Byte, b: Byte)
    ensures Add(a, b) == Add(b, a)
  {
    XorComm(a, b);
  }

  lemma AddAssoc(a: Byte, b: Byte, c: Byte)
    ensures Add(Add(a, b), c) == Add(a, Add(b, c))
  {
    XorAssoc(a, b, c);
  }

  lemma AddSwap(a: Byte, b: Byte, c: Byte, d: Byte)
    ensures Add(Add(a, b), Add(c, d)) == Add(Add(a, c), Add(b, d))
  {
    XorSwap(a, b, c, d);
  }

  lemma AddCancel(a: Byte, b: Byte)
    ensures Add(Add(a, b), b) == a && Add(b, Add(b, a)) == a && (Add(a, b) == 0 <==> a == b)
  {
    XorCancel(a, b);
    XorCancel(b, a);
    XorNonZero(a, b);
  }

  /** (a * b) * (c * d) == (a * c) * (b * d) */
  lemma TimesSwap(a: Byte, b: Byte, c: Byte, d: Byte)
    ensures Times(Times(a, b), Times(c, d)) == Times(Times(a, c), Times(b, d))
  {
    TimesAssoc(a, b, Times(c, d));
    TimesAssoc(b, c, d);
    TimesComm(b, c);
    TimesAssoc(c, b, d);
    TimesAssoc(a, c, Times(b, d));
  }

  /** (a * b) * c == (a * c) * b */
  lemma TimesMove(a: Byte, b: Byte, c: Byte)
    ensures Times(Times(a, b), c) == Times(Times(a, c), b)
  {
    TimesAssoc(a, b, c);
    TimesComm(b, c);
    TimesAssoc(a, c, b);
  }

  /** Dividing out d. */
  lemma TimesDivide(a: Byte, d: Byte)
    requires d != 0
    ensures Times(Times(a, d), Inverse(d)) == a && Times(Times(a, Inverse(d)), d) == a
  {
    TimesAssoc(a, d, Inverse(d));
    TimesAssoc(a, Inverse(d), d);
    TimesInverse(d);
    TimesOne(a);
  }

  // ---------------------------------------------------------------- agreement with the reference

  /** Three times x, not reduced. */
  ghost function Triple(x: nat): nat { Xor(2 * x, x) }

  lemma TripleXor(u: nat, v: nat)
    ensures Triple(Xor(u, v)) == Xor(Triple(u), Triple(v))
  {
    XorDouble(u, v);
    XorSwap(2 * u, 2 * v, u, v);
  }

  lemma StepIsTriple(x: Byte)
    ensures Step(x) == Xor(Triple(x), if 2 * x >= 0x100 then MODULUS else 0)
    ensures Triple(x) == Xor(Step(x), if 2 * x >= 0x100 then MODULUS else 0)
  {
    XorAssoc(2 * x, MODULUS, x);
    XorComm(MODULUS, x);
    XorAssoc(2 * x, x, MODULUS);
    XorCancel(Triple(x), MODULUS);
    XorZero(Triple(x));
    XorZero(Step(x));
  }

  lemma {:induction false} ProductTriple(a: nat, b: nat)
    ensures CarrylessProduct(Triple(a), b) == Triple(CarrylessProduct(a, b))
    ensures CarrylessProduct(a, Triple(b)) == Triple(CarrylessProduct(a, b))
  {
    ProductLinearLeft(2 * a, a, b);
    ProductDouble(a, b);
    ProductLinearRight(a, 2 * b, b);
    ProductBit(a, 2 * b);
    XorZero(2 * CarrylessProduct(a, b));
  }

  lemma ProductUnit(a: nat)
    ensures CarrylessProduct(a, 0) == 0 && CarrylessProduct(a, 1) == a
    ensures CarrylessProduct(0, a) == 0
  {
    XorZero(a);
    ProductBit(a, 1);
    ProductLinearLeft(0, 0, a);
    XorZero(0);
    XorSelf(CarrylessProduct(0, a));
  }

  lemma {:induction false} Regroup(t: nat, s: nat, g: nat, h: nat)
    ensures Xor(Xor(t, Xor(s, g)), h) == Xor(Xor(Xor(t, h), g), s)
  {
    XorComm(s, g);
    XorAssoc(t, g, s);
    XorAssoc(Xor(t, g), s, h);
    XorComm(s, h);
    XorAssoc(Xor(t, g), h, s);
    XorAssoc(t, g, h);
    XorComm(g, h);
    XorAssoc(t, h, g);
  }

  lemma ProductStep(a: Byte, b: Byte, r: Byte)
    requires IsProductModulo(a, b, r)
    ensures IsProductModulo(Step(a), b, Step(r))
  {
    var q: nat :| IsDivision(a, b, q, r);
    // the quotient, tripled, plus b when a is reduced, plus 1 when r is reduced
    var u, v := if 2 * a >= 0x100 then b else 0, if 2 * r >= 0x100 then 1 else 0;
    var m, g, h := CarrylessProduct(MODULUS, q), CarrylessProduct(MODULUS, v), CarrylessProduct(MODULUS, u);
    StepIsTriple(a);
    StepIsTriple(r);
    ProductUnit(MODULUS);
    ProductUnit(b);
    ProductLinearLeft(Triple(a), if 2 * a >= 0x100 then MODULUS else 0, b);
    ProductTriple(a, b);
    TripleXor(m, r);
    Regroup(Triple(m), Step(r), g, h);
    ProductTriple(MODULUS, q);
    ProductLinearRight(MODULUS, Triple(q), u);
    ProductLinearRight(MODULUS, Xor(Triple(q), u), v);
    assert IsDivision(Step(a), b, Xor(Xor(Triple(q), u), v), Step(r));
  }

  lemma {:induction false} ProductOfIterate(n: nat, b: Byte)
    ensures IsProductModulo(Exp(n), b, Iterate(n, b))
  {
    if n == 0 {
      ProductOne(b);
      ProductUnit(MODULUS);
      XorZero(b);
      assert IsDivision(1, b, 0, b);
    } else {
      ProductOfIterate(n - 1, b);
      ProductStep(Exp(n - 1), b, Iterate(n - 1, b));
    }
  }

  lemma {:induction false} ProductOne(b: nat)
    ensures CarrylessProduct(1, b) == b
  {
    if b > 0 {
      ProductOne(b / 2);
      XorPush(b % 2 == 1, 0, false, b / 2);
      XorZero(b / 2);
    }
  }

  /** Multiplication through the logarithms is polynomial multiplication modulo 0x11B. */
  lemma TimesIsProduct(a: Byte, b: Byte, r: Byte)
    ensures Times(a, b) == r <==> IsProductModulo(a, b, r)
  {
    if a == 0 {
      ProductUnit(b);
      ProductUnit(MODULUS);
      XorZero(0);
      assert IsDivision(a, b, 0, 0);
    } else {
      ProductOfIterate(Log(a), b);
      TimesIterate(a, b);
    }
    if IsProductModulo(a, b, r) {
      RemainderUnique(a, b, r, Times(a, b));
    }
  }
}

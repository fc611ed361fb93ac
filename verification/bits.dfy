/** Python's `^` on non-negative integers, bit by bit, and its laws. */
module Bits {

  type Byte = x: int | 0 <= x < 256

  function Pow2(k: nat): nat { if k == 0 then 1 else 2 * Pow2(k - 1) }

  function Xor(a: nat, b: nat): nat
    decreases a + b
  {
    if a == 0 && b == 0 then 0 else 2 * Xor(a / 2, b / 2) + (if a % 2 == b % 2 then 0 else 1)
  }

  /** Unfolds one bit, also at zero. */
  lemma XorBit(a: nat, b: nat)
    ensures Xor(a, b) / 2 == Xor(a / 2, b / 2) && Xor(a, b) % 2 == if a % 2 == b % 2 then 0 else 1
  {
  }

  lemma SameBits(m: nat, n: nat)
    requires m / 2 == n / 2 && m % 2 == n % 2
    ensures m == n
  {
  }

  lemma {:induction false} XorZero(a: nat)
    ensures Xor(a, 0) == a && Xor(0, a) == a
  {
    if a > 0 { XorZero(a / 2); }
  }

  lemma {:induction false} XorSelf(a: nat)
    ensures Xor(a, a) == 0
  {
    if a > 0 { XorSelf(a / 2); }
  }

  lemma {:induction false} XorComm(a: nat, b: nat)
    ensures Xor(a, b) == Xor(b, a)
    decreases a + b
  {
    if a + b > 0 { XorComm(a / 2, b / 2); }
  }

  lemma {:induction false} XorAssoc(a: nat, b: nat, c: nat)
    ensures Xor(Xor(a, b), c) == Xor(a, Xor(b, c))
    decreases a + b + c
  {
    if a + b + c > 0 {
      var u, v := Xor(a, b), Xor(b, c);
      XorBit(a, b);
      XorBit(b, c);
      XorBit(u, c);
      XorBit(a, v);
      XorAssoc(a / 2, b / 2, c / 2);
      SameBits(Xor(u, c), Xor(a, v));
    }
  }

  /** Shifts n left by one and sets the new lowest bit. */
  function Push(d: bool, n: nat): nat { 2 * n + (if d then 1 else 0) }

  lemma PushBits(d: bool, n: nat)
    ensures Push(d, n) / 2 == n && Push(d, n) % 2 == if d then 1 else 0
  {
  }

  lemma {:induction false} XorPush(p: bool, m: nat, q: bool, n: nat)
    ensures Xor(Push(p, m), Push(q, n)) == Push(p != q, Xor(m, n))
  {
    PushBits(p, m);
    PushBits(q, n);
    PushBits(p != q, Xor(m, n));
    XorBit(Push(p, m), Push(q, n));
    SameBits(Xor(Push(p, m), Push(q, n)), Push(p != q, Xor(m, n)));
  }

  /** Binary numerals, lowest digit first. */
  datatype Binary = End | Bit(low: bool, rest: Binary) {
    function Value(): nat { if End? then 0 else Push(low, rest.Value()) }

    function Plus(o: Binary): Binary {
      if End? then o else if o.End? then this else Bit(low != o.low, rest.Plus(o.rest))
    }
  }

  lemma {:induction false} XorBinary(p: Binary, q: Binary)
    ensures Xor(p.Value(), q.Value()) == p.Plus(q).Value()
  {
    if p.End? {
      XorZero(q.Value());
    } else if q.End? {
      XorZero(p.Value());
    } else {
      XorBinary(p.rest, q.rest);
      XorPush(p.low, p.rest.Value(), q.low, q.rest.Value());
    }
  }

  lemma XorDouble(a: nat, b: nat)
    ensures Xor(2 * a, 2 * b) == 2 * Xor(a, b)
  {
    XorPush(false, a, false, b);
  }

  /** Xor is its own inverse. */
  lemma {:induction false} XorCancel(a: nat, b: nat)
    ensures Xor(Xor(a, b), b) == a && Xor(a, Xor(a, b)) == b
  {
    XorAssoc(a, b, b);
    XorSelf(b);
    XorZero(a);
    XorAssoc(a, a, b);
    XorSelf(a);
    XorZero(b);
  }

  lemma XorNonZero(a: nat, b: nat)
    ensures Xor(a, b) == 0 <==> a == b
  {
    XorCancel(a, b);
    XorZero(b);
    XorSelf(a);
  }

  lemma {:induction false} XorSwap(a: nat, b: nat, c: nat, d: nat)
    ensures Xor(Xor(a, b), Xor(c, d)) == Xor(Xor(a, c), Xor(b, d))
  {
    XorAssoc(a, b, Xor(c, d));
    XorAssoc(b, c, d);
    XorComm(b, c);
    XorAssoc(c, b, d);
    XorAssoc(a, c, Xor(b, d));
  }

  lemma {:induction false} XorBound(k: nat, a: nat, b: nat)
    requires a < Pow2(k) && b < Pow2(k)
    ensures Xor(a, b) < Pow2(k)
  {
    if k > 0 { XorBound(k - 1, a / 2, b / 2); }
  }

  lemma XorHigh(k: nat, a: nat, b: nat)
    requires a < Pow2(k) <= b
    ensures Xor(a, b) >= Pow2(k)
  {
    if Xor(a, b) < Pow2(k) {
      XorBound(k, a, Xor(a, b));
      XorCancel(a, b);
    }
  }

  /** Equal top bits cancel. */
  lemma {:induction false} XorTop(k: nat, a: nat, b: nat)
    requires Pow2(k) <= a < 2 * Pow2(k) && Pow2(k) <= b < 2 * Pow2(k)
    ensures Xor(a, b) < Pow2(k)
  {
    if k == 0 {
      XorSelf(1);
    } else {
      XorTop(k - 1, a / 2, b / 2);
    }
  }

  lemma BytePow()
    ensures Pow2(8) == 256
  {
    assert Pow2(4) == 16;
  }

  lemma XorByte(a: Byte, b: Byte)
    ensures Xor(a, b) < 256
  {
    BytePow();
    XorBound(8, a, b);
  }

  /** The sum of two field elements. */
  function Add(a: Byte, b: Byte): Byte {
    XorByte(a, b);
    Xor(a, b)
  }

  /** True iff an odd number of bits are set. */
  function Parity(a: nat): bool {
    if a == 0 then false else (a % 2 == 1) != Parity(a / 2)
  }

  lemma {:induction false} ParityXor(a: nat, b: nat)
    ensures Parity(Xor(a, b)) == (Parity(a) != Parity(b))
    decreases a + b
  {
    if a + b > 0 {
      ParityXor(a / 2, b / 2);
    }
  }

  // ---------------------------------------------------------------- quotients and remainders

  lemma ModUnique(m: int, n: int, q: int)
    requires n > 0 && 0 <= m - n * q < n
    ensures m % n == m - n * q && m / n == q
  {
    var d := m / n - q;
    assert n * d == n * (m / n) - n * q;
    if d >= 1 {
      MulAtLeast(n, d);
    } else if d <= -1 {
      MulAtLeast(n, -d);
    }
  }

  lemma MulAtLeast(n: int, d: int)
    requires n > 0 && d >= 1
    ensures n * d >= n && n * -d <= -n
  {
  }
}

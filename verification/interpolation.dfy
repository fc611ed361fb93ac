/** Polynomials over GF(2^8): evaluation, division by a linear factor, interpolation. */
module Interpolation {
  import opened Bits
  import opened Gf256Field

  ghost predicate Distinct(xs: seq<Byte>) {
    forall i, j :: 0 <= i < j < |xs| ==> xs[i] != xs[j]
  }

  /** Horner's rule; coefficients lowest first. */
  ghost function Eval(c: seq<Byte>, x: Byte): Byte {
    if c == [] then 0 else Add(Times(Eval(c[1..], x), x), c[0])
  }

  ghost function Values(c: seq<Byte>, xs: seq<Byte>): (ys: seq<Byte>)
    ensures |ys| == |xs| && forall i :: 0 <= i < |xs| ==> ys[i] == Eval(c, xs[i])
  {
    if xs == [] then [] else [Eval(c, xs[0])] + Values(c, xs[1..])
  }

  // ---------------------------------------------------------------- division by x - a

  /** The quotient of c on division by x - a; the remainder is Eval(c, a). */
  ghost function Quotient(c: seq<Byte>, a: Byte): (q: seq<Byte>)
    ensures |q| == if c == [] then 0 else |c| - 1
  {
    if |c| <= 1 then [] else [Eval(c[1..], a)] + Quotient(c[1..], a)
  }

  /** The polynomial b + (x - a) * q. */
  ghost function Linear(b: Byte, a: Byte, q: seq<Byte>): (c: seq<Byte>)
    ensures |c| == |q| + 1
    decreases |q|
  {
    if q == [] then [b] else [Add(Times(q[0], a), b)] + Linear(q[0], a, q[1..])
  }

  lemma {:induction false} EvalLinear(b: Byte, a: Byte, q: seq<Byte>, x: Byte)
    ensures Eval(Linear(b, a, q), x) == Add(b, Times(Add(x, a), Eval(q, x)))
    decreases |q|
  {
    hide Times, Add;
    var c := Linear(b, a, q);
    if q == [] {
      assert c[1..] == [];
      TimesZero(0, x);
      TimesZero(Add(x, a), 0);
      AddZero(b);
    } else {
      var q0, e := q[0], Eval(q[1..], x);
      var d := Add(x, a);
      EvalLinear(q0, a, q[1..], x);
      assert c[1..] == Linear(q0, a, q[1..]);
      // (q0 + d * e) * x + (q0 * a + b)  ==  b + d * (e * x + q0)
      TimesAdd(x, q0, Times(d, e));
      TimesAssoc(d, e, x);
      TimesAdd(d, Times(e, x), q0);
      TimesComm(d, q0);
      TimesAdd(q0, x, a);
      Regroup4(Times(q0, x), Times(d, Times(e, x)), Times(q0, a), b);
    }
  }

  lemma Regroup4(p: Byte, q: Byte, r: Byte, s: Byte)
    ensures Add(Add(p, q), Add(r, s)) == Add(s, Add(q, Add(p, r)))
  {
    hide Times, Add;
    AddSwap(p, q, r, s);
    AddAssoc(Add(p, r), q, s);
    AddComm(Add(p, r), q);
    AddComm(Add(q, Add(p, r)), s);
  }

  lemma {:induction false} LinearQuotient(c: seq<Byte>, a: Byte)
    requires c != []
    ensures Linear(Eval(c, a), a, Quotient(c, a)) == c
  {
    hide Times, Add;
    if |c| == 1 {
      TimesZero(0, a);
      AddZero(c[0]);
    } else {
      var e := Eval(c[1..], a);
      LinearQuotient(c[1..], a);
      assert Quotient(c, a)[1..] == Quotient(c[1..], a);
      AddCancel(c[0], Times(e, a));
      AddComm(c[0], Times(e, a));
      assert c == [c[0]] + c[1..];
    }
  }

  lemma {:induction false} EvalQuotient(c: seq<Byte>, a: Byte, x: Byte)
    requires c != []
    ensures Eval(c, x) == Add(Eval(c, a), Times(Add(x, a), Eval(Quotient(c, a), x)))
  {
    hide Times, Add;
    LinearQuotient(c, a);
    EvalLinear(Eval(c, a), a, Quotient(c, a), x);
  }

  // ---------------------------------------------------------------- interpolation is unique

  /** The divided differences of (xs, ys) against the first point. */
  ghost function Differences(xs: seq<Byte>, ys: seq<Byte>): (zs: seq<Byte>)
    requires |xs| == |ys| > 0 && Distinct(xs)
    ensures |zs| == |xs| - 1
    ensures forall i :: 0 <= i < |zs| ==> zs[i] == Difference(xs, ys, i + 1)
  {
    seq(|xs| - 1, i requires 0 <= i < |xs| - 1 => Difference(xs, ys, i + 1))
  }

  ghost function Difference(xs: seq<Byte>, ys: seq<Byte>, i: nat): Byte
    requires |xs| == |ys| && Distinct(xs) && 0 < i < |xs|
  {
    Gap(xs, i, 0);
    Times(Add(ys[i], ys[0]), Inverse(Add(xs[i], xs[0])))
  }

  lemma Gap(xs: seq<Byte>, i: nat, j: nat)
    requires Distinct(xs) && i < |xs| && j < |xs| && i != j
    ensures Add(xs[i], xs[j]) != 0
  {
    hide Times, Add;
    AddCancel(xs[i], xs[j]);
    assert i < j || j < i;
  }

  /** The polynomial with |xs| coefficients through the points (xs, ys). */
  ghost function Interpolant(xs: seq<Byte>, ys: seq<Byte>): (c: seq<Byte>)
    requires |xs| == |ys| && Distinct(xs)
    ensures |c| == |xs|
    decreases |xs|
  {
    if xs == [] then [] else Linear(ys[0], xs[0], Interpolant(xs[1..], Differences(xs, ys)))
  }

  lemma {:induction false} InterpolantThrough(xs: seq<Byte>, ys: seq<Byte>, i: nat)
    requires |xs| == |ys| && Distinct(xs) && i < |xs|
    ensures Eval(Interpolant(xs, ys), xs[i]) == ys[i]
    decreases |xs|
  {
    hide Times, Add;
    var zs := Differences(xs, ys);
    var q := Interpolant(xs[1..], zs);
    var d := Add(xs[i], xs[0]);
    EvalLinear(ys[0], xs[0], q, xs[i]);
    if i == 0 {
      AddZero(xs[0]);
      TimesZero(0, Eval(q, xs[0]));
      AddZero(ys[0]);
    } else {
      Gap(xs, i, 0);
      InterpolantThrough(xs[1..], zs, i - 1);
      TimesDivide(Add(ys[i], ys[0]), d);
      TimesComm(d, zs[i - 1]);
      AddComm(ys[i], ys[0]);
      AddCancel(ys[i], ys[0]);
    }
  }

  lemma DifferenceIsQuotient(c: seq<Byte>, a: Byte, x: Byte)
    requires c != [] && Add(x, a) != 0
    ensures Times(Add(Eval(c, x), Eval(c, a)), Inverse(Add(x, a))) == Eval(Quotient(c, a), x)
  {
    hide Times, Add;
    var d, v := Add(x, a), Eval(Quotient(c, a), x);
    EvalQuotient(c, a, x);
    AddComm(Eval(c, a), Times(d, v));
    AddCancel(Times(d, v), Eval(c, a));
    TimesComm(d, v);
    TimesDivide(v, d);
  }

  /** A polynomial with |xs| coefficients is determined by its values at the points xs. */
  lemma {:induction false} InterpolantUnique(xs: seq<Byte>, c: seq<Byte>)
    requires |c| == |xs| && Distinct(xs)
    ensures Interpolant(xs, Values(c, xs)) == c
    decreases |xs|
  {
    hide Times, Add;
    if xs != [] {
      var q, ys := Quotient(c, xs[0]), Values(c, xs);
      var zs := Differences(xs, ys);
      forall i | 0 <= i < |zs|
        ensures zs[i] == Values(q, xs[1..])[i]
      {
        Gap(xs, i + 1, 0);
        DifferenceIsQuotient(c, xs[0], xs[i + 1]);
      }
      assert zs == Values(q, xs[1..]);
      InterpolantUnique(xs[1..], q);
      LinearQuotient(c, xs[0]);
    }
  }

  // ---------------------------------------------------------------- Lagrange's formula

  ghost function OverGap(xs: seq<Byte>, i: nat, j: nat): Byte
    requires Distinct(xs) && i < |xs| && j < |xs| && i != j
  {
    Gap(xs, i, j);
    Inverse(Add(xs[i], xs[j]))
  }

  /** The factor (t - xj) / (xi - xj); minus is plus here. */
  ghost function Factor(xs: seq<Byte>, i: nat, j: nat, t: Byte): Byte
    requires Distinct(xs) && i < |xs| && j < |xs| && i != j
  {
    Times(Add(xs[j], t), OverGap(xs, i, j))
  }

  /** The i-th basis polynomial at t over the first n points: the product of Factor(i, j) for j != i. */
  ghost function Basis(xs: seq<Byte>, i: nat, n: nat, t: Byte): Byte
    requires Distinct(xs) && i < |xs| && n <= |xs|
  {
    if n == 0 then 1
    else if n - 1 == i then Basis(xs, i, n - 1, t)
    else Times(Basis(xs, i, n - 1, t), Factor(xs, i, n - 1, t))
  }

  /** The first m terms of the interpolation formula over n points. */
  ghost function Lagrange(xs: seq<Byte>, ys: seq<Byte>, m: nat, n: nat, t: Byte): Byte
    requires Distinct(xs) && m <= n <= |xs| && |ys| == |xs|
  {
    if m == 0 then 0 else Add(Lagrange(xs, ys, m - 1, n, t), Times(ys[m - 1], Basis(xs, m - 1, n, t)))
  }

  /** Basis without its numerators. */
  ghost function Weight(xs: seq<Byte>, i: nat, n: nat): Byte
    requires Distinct(xs) && i < |xs| && n <= |xs|
  {
    if n == 0 then 1
    else if n - 1 == i then Weight(xs, i, n - 1)
    else Times(Weight(xs, i, n - 1), OverGap(xs, i, n - 1))
  }

  /** The product of (t - xj) for j < n. */
  ghost function Nodes(xs: seq<Byte>, n: nat, t: Byte): Byte
    requires n <= |xs|
  {
    if n == 0 then 1 else Times(Nodes(xs, n - 1, t), Add(xs[n - 1], t))
  }

  lemma {:induction false} BasisOutside(xs: seq<Byte>, i: nat, n: nat, t: Byte)
    requires Distinct(xs) && n <= i < |xs|
    ensures Basis(xs, i, n, t) == Times(Weight(xs, i, n), Nodes(xs, n, t))
  {
    hide Times, Add;
    TimesOne(1);
    if n > 0 {
      BasisOutside(xs, i, n - 1, t);
      var u, v := Add(xs[n - 1], t), OverGap(xs, i, n - 1);
      TimesComm(u, v);
      TimesSwap(Weight(xs, i, n - 1), Nodes(xs, n - 1, t), v, u);
    }
  }

  lemma {:induction false} BasisInside(xs: seq<Byte>, i: nat, n: nat, t: Byte)
    requires Distinct(xs) && i < n <= |xs|
    ensures Times(Basis(xs, i, n, t), Add(xs[i], t)) == Times(Weight(xs, i, n), Nodes(xs, n, t))
  {
    hide Times, Add;
    var u := Add(xs[n - 1], t);
    if n - 1 == i {
      BasisOutside(xs, i, i, t);
      TimesAssoc(Weight(xs, i, i), Nodes(xs, i, t), u);
    } else {
      BasisInside(xs, i, n - 1, t);
      var v := OverGap(xs, i, n - 1);
      TimesMove(Basis(xs, i, n - 1, t), Factor(xs, i, n - 1, t), Add(xs[i], t));
      TimesComm(u, v);
      TimesSwap(Weight(xs, i, n - 1), Nodes(xs, n - 1, t), v, u);
    }
  }

  lemma {:induction false} WeightOutside(xs: seq<Byte>, i: nat, n: nat)
    requires Distinct(xs) && n <= i < |xs|
    ensures Times(Weight(xs, i, n), Nodes(xs, n, xs[i])) == 1
  {
    hide Times, Add;
    TimesOne(1);
    if n > 0 {
      WeightOutside(xs, i, n - 1);
      Gap(xs, i, n - 1);
      AddComm(xs[i], xs[n - 1]);
      var d := Add(xs[i], xs[n - 1]);
      TimesInverse(d);
      TimesSwap(Weight(xs, i, n - 1), Inverse(d), Nodes(xs, n - 1, xs[i]), d);
    }
  }

  /** The basis polynomials over n points, summed up to m. */
  ghost function BasisSum(xs: seq<Byte>, m: nat, n: nat, t: Byte): Byte
    requires Distinct(xs) && m <= n <= |xs|
  {
    if m == 0 then 0 else Add(BasisSum(xs, m - 1, n, t), Basis(xs, m - 1, n, t))
  }

  /** The weights over the first n points divided by the gap to point n, summed up to m. */
  ghost function WeightSum(xs: seq<Byte>, m: nat, n: nat): Byte
    requires Distinct(xs) && m <= n < |xs|
  {
    if m == 0 then 0 else Add(WeightSum(xs, m - 1, n), Times(Weight(xs, m - 1, n), OverGap(xs, m - 1, n)))
  }

  /** One more point changes a basis value by the weight, the new gap and all the nodes. */
  lemma BasisGrows(xs: seq<Byte>, i: nat, n: nat, t: Byte)
    requires Distinct(xs) && i < n < |xs|
    ensures Basis(xs, i, n + 1, t) ==
            Add(Basis(xs, i, n, t), Times(Times(Weight(xs, i, n), OverGap(xs, i, n)), Nodes(xs, n, t)))
  {
    hide Times, Add;
    Gap(xs, i, n);
    var b, d, e := Basis(xs, i, n, t), Add(xs[i], xs[n]), Add(xs[i], t);
    // (xn - t) / d == 1 + (xi - t) / d
    AddSwap(xs[i], xs[n], xs[i], t);
    AddZero(xs[i]);
    AddZero(Add(xs[n], t));
    TimesAdd(Inverse(d), d, e);
    TimesInverse(d);
    TimesAdd(b, 1, Times(e, Inverse(d)));
    TimesOne(b);
    TimesAssoc(b, e, Inverse(d));
    BasisInside(xs, i, n, t);
    TimesMove(Weight(xs, i, n), Nodes(xs, n, t), Inverse(d));
  }

  lemma {:induction false} BasisSumGrows(xs: seq<Byte>, m: nat, n: nat, t: Byte)
    requires Distinct(xs) && m <= n < |xs|
    ensures BasisSum(xs, m, n + 1, t) == Add(BasisSum(xs, m, n, t), Times(WeightSum(xs, m, n), Nodes(xs, n, t)))
  {
    hide Times, Add;
    var w := Nodes(xs, n, t);
    if m == 0 {
      TimesZero(0, w);
      AddZero(0);
    } else {
      BasisSumGrows(xs, m - 1, n, t);
      BasisGrows(xs, m - 1, n, t);
      var g := Times(Weight(xs, m - 1, n), OverGap(xs, m - 1, n));
      TimesAdd(w, WeightSum(xs, m - 1, n), g);
      AddSwap(BasisSum(xs, m - 1, n, t), Times(WeightSum(xs, m - 1, n), w), Basis(xs, m - 1, n, t), Times(g, w));
    }
  }

  lemma BasisAtNext(xs: seq<Byte>, i: nat, n: nat)
    requires Distinct(xs) && i < n < |xs|
    ensures Basis(xs, i, n, xs[n]) == Times(Times(Weight(xs, i, n), OverGap(xs, i, n)), Nodes(xs, n, xs[n]))
  {
    hide Times, Add;
    Gap(xs, i, n);
    var d := Add(xs[i], xs[n]);
    BasisInside(xs, i, n, xs[n]);
    TimesDivide(Basis(xs, i, n, xs[n]), d);
    TimesMove(Weight(xs, i, n), Nodes(xs, n, xs[n]), Inverse(d));
  }

  /** At the new point itself the basis values are the weights over the gaps, times the nodes. */
  lemma {:induction false} BasisSumAtNext(xs: seq<Byte>, m: nat, n: nat)
    requires Distinct(xs) && m <= n < |xs|
    ensures BasisSum(xs, m, n, xs[n]) == Times(WeightSum(xs, m, n), Nodes(xs, n, xs[n]))
  {
    hide Times, Add;
    var w := Nodes(xs, n, xs[n]);
    if m == 0 {
      TimesZero(0, w);
    } else {
      BasisSumAtNext(xs, m - 1, n);
      BasisAtNext(xs, m - 1, n);
      TimesAdd(w, WeightSum(xs, m - 1, n), Times(Weight(xs, m - 1, n), OverGap(xs, m - 1, n)));
    }
  }

  /** The basis polynomials sum to 1 everywhere. */
  lemma {:induction false} BasisSumIsOne(xs: seq<Byte>, n: nat, t: Byte)
    requires Distinct(xs) && 1 <= n <= |xs|
    ensures BasisSum(xs, n, n, t) == 1
  {
    hide Times, Add;
    if n == 1 {
      AddZero(1);
      assert BasisSum(xs, 0, 1, t) == 0 && Basis(xs, 0, 1, t) == Basis(xs, 0, 0, t);
    } else {
      var k := n - 1;
      var v, w := WeightSum(xs, k, k), Nodes(xs, k, t);
      BasisSumIsOne(xs, k, t);
      BasisSumIsOne(xs, k, xs[k]);
      BasisSumGrows(xs, k, k, t);
      BasisSumAtNext(xs, k, k);
      BasisOutside(xs, k, k, t);
      WeightOutside(xs, k, k);
      SameInverse(Weight(xs, k, k), v, Nodes(xs, k, xs[k]));
      AddCancel(1, Times(v, w));
    }
  }

  lemma SameInverse(p: Byte, q: Byte, d: Byte)
    requires Times(p, d) == 1 && Times(q, d) == 1
    ensures p == q
  {
    hide Times, Add;
    TimesZero(p, d);
    TimesDivide(p, d);
    TimesDivide(q, d);
  }

  /** Interpolating the values of c peels off one point and divides c by its linear factor. */
  lemma {:induction false} LagrangePeel(xs: seq<Byte>, c: seq<Byte>, m: nat, n: nat, t: Byte)
    requires Distinct(xs) && m <= n < |xs| && c != []
    ensures Lagrange(xs, Values(c, xs), m, n + 1, t) ==
            Add(Times(Eval(c, xs[n]), BasisSum(xs, m, n + 1, t)),
                Times(Add(xs[n], t), Lagrange(xs, Values(Quotient(c, xs[n]), xs), m, n, t)))
  {
    hide Times, Add, Eval, Quotient, Basis, Values, Distinct;
    var e, u := Eval(c, xs[n]), Add(xs[n], t);
    var q := Quotient(c, xs[n]);
    if m == 0 {
      TimesZero(e, 0);
      TimesZero(u, 0);
      AddZero(0);
    } else {
      var i := m - 1;
      LagrangePeel(xs, c, i, n, t);
      LagrangeTerm(xs, c, i, n, t);
      var v, b := Eval(q, xs[i]), Basis(xs, i, n, t);
      var s, l := BasisSum(xs, i, n + 1, t), Lagrange(xs, Values(q, xs), i, n, t);
      Collect(e, s, Basis(xs, i, n + 1, t), u, l, Times(v, b));
    }
  }

  /** (e * s + u * l) + (e * b + u * w) == e * (s + b) + u * (l + w) */
  lemma Collect(e: Byte, s: Byte, b: Byte, u: Byte, l: Byte, w: Byte)
    ensures Add(Add(Times(e, s), Times(u, l)), Add(Times(e, b), Times(u, w))) ==
            Add(Times(e, Add(s, b)), Times(u, Add(l, w)))
  {
    hide Times, Add;
    TimesAdd(e, s, b);
    TimesAdd(u, l, w);
    AddSwap(Times(e, s), Times(u, l), Times(e, b), Times(u, w));
  }

  lemma LagrangeTerm(xs: seq<Byte>, c: seq<Byte>, i: nat, n: nat, t: Byte)
    requires Distinct(xs) && i < n < |xs| && c != []
    ensures Times(Eval(c, xs[i]), Basis(xs, i, n + 1, t)) ==
            Add(Times(Eval(c, xs[n]), Basis(xs, i, n + 1, t)),
                Times(Add(xs[n], t), Times(Eval(Quotient(c, xs[n]), xs[i]), Basis(xs, i, n, t))))
  {
    hide Times, Add;
    Gap(xs, i, n);
    var e, u, d := Eval(c, xs[n]), Add(xs[n], t), Add(xs[i], xs[n]);
    var v, b := Eval(Quotient(c, xs[n]), xs[i]), Basis(xs, i, n, t);
    EvalQuotient(c, xs[n], xs[i]);
    TimesAdd(Basis(xs, i, n + 1, t), e, Times(d, v));
    // (d * v) * (b * (u / d)) == u * (v * b)
    TimesComm(d, v);
    TimesComm(b, Times(u, Inverse(d)));
    TimesSwap(v, d, b, Times(u, Inverse(d)));
    TimesComm(d, Times(u, Inverse(d)));
    TimesDivide(u, d);
    TimesComm(Times(v, b), u);
  }

  /** Lagrange's formula over n points reproduces every polynomial of at most n coefficients. */
  lemma {:induction false} LagrangeExact(xs: seq<Byte>, c: seq<Byte>, n: nat, t: Byte)
    requires Distinct(xs) && |c| <= n <= |xs|
    ensures Lagrange(xs, Values(c, xs), n, n, t) == Eval(c, t)
    decreases |c|
  {
    hide Times, Add, Basis, Values, Distinct;
    if c == [] {
      LagrangeZero(xs, n, n, t);
    } else {
      var k := n - 1;
      var e, u, q := Eval(c, xs[k]), Add(xs[k], t), Quotient(c, xs[k]);
      var l := Lagrange(xs, Values(q, xs), k, k, t);
      LagrangeExact(xs, q, k, t);
      LagrangePeel(xs, c, k, k, t);
      // the last term is e * Basis(k), and the basis sums to one
      AddComm(Times(e, BasisSum(xs, k, n, t)), Times(u, l));
      AddAssoc(Times(u, l), Times(e, BasisSum(xs, k, n, t)), Times(e, Basis(xs, k, n, t)));
      TimesAdd(e, BasisSum(xs, k, n, t), Basis(xs, k, n, t));
      BasisSumIsOne(xs, n, t);
      TimesOne(e);
      AddComm(Times(u, l), e);
      EvalQuotient(c, xs[k], t);
      AddComm(t, xs[k]);
    }
  }

  lemma {:induction false} LagrangeZero(xs: seq<Byte>, m: nat, n: nat, t: Byte)
    requires Distinct(xs) && m <= n <= |xs|
    ensures Lagrange(xs, Values([], xs), m, n, t) == 0
  {
    hide Times, Add;
    if m > 0 {
      LagrangeZero(xs, m - 1, n, t);
      TimesZero(0, Basis(xs, m - 1, n, t));
      AddZero(0);
    }
  }
}

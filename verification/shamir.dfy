/** Shamir sharing over GF(2^8): src/aries/identity/keys.py lines 92-187. */
module Shamir {
  import opened Wrappers
  import opened Bits
  import opened Gf256
  import opened Gf256Field
  import opened Interpolation

  datatype Error = BadThreshold | TooManyShares | TooFewShares | EmptyShare | DuplicateX | InconsistentLength | ZeroDivision

  // ---------------------------------------------------------------- what the code computes

  /** The share with x-coordinate x: x itself, then the value at x of one polynomial per byte. */
  ghost function Share(secret: seq<Byte>, random: seq<seq<Byte>>, x: Byte): (share: seq<Byte>)
    requires |random| == |secret|
    ensures |share| == |secret| + 1 && share[0] == x
    ensures forall p :: 0 <= p < |secret| ==> share[p + 1] == Eval([secret[p]] + random[p], x)
  {
    [x] + seq(|secret|, p requires 0 <= p < |secret| => Eval([secret[p]] + random[p], x))
  }

  /** random holds k - 1 coefficients for each byte of the secret. */
  ghost predicate IsRandomFor(random: seq<seq<Byte>>, secret: seq<Byte>, k: int) {
    |random| == |secret| && forall p :: 0 <= p < |random| ==> |random[p]| == k - 1
  }

  ghost function Split(secret: seq<Byte>, random: seq<seq<Byte>>, n: nat): (shares: seq<seq<Byte>>)
    requires |random| == |secret| && n <= 255
    ensures |shares| == n && forall i :: 0 <= i < n ==> shares[i] == Share(secret, random, i + 1)
  {
    seq(n, i requires 0 <= i < n => Share(secret, random, i + 1))
  }

  ghost predicate NonEmpty(shares: seq<seq<Byte>>) { forall i :: 0 <= i < |shares| ==> shares[i] != [] }

  ghost predicate SameLength(shares: seq<seq<Byte>>) {
    forall i, j :: 0 <= i < |shares| && 0 <= j < |shares| ==> |shares[i]| == |shares[j]|
  }

  ghost function Column(shares: seq<seq<Byte>>, p: nat): (c: seq<Byte>)
    requires forall i :: 0 <= i < |shares| ==> p < |shares[i]|
    ensures |c| == |shares| && forall i :: 0 <= i < |shares| ==> c[i] == shares[i][p]
  {
    seq(|shares|, i requires 0 <= i < |shares| => shares[i][p])
  }

  /** The shares pass every check of shamir_reconstruct. */
  ghost predicate Acceptable(shares: seq<seq<Byte>>) {
    |shares| >= 2 && NonEmpty(shares) && Distinct(Column(shares, 0)) && SameLength(shares)
  }

  /** Byte p of the reconstruction. */
  ghost function Recovered(shares: seq<seq<Byte>>, p: nat): Byte
    requires Acceptable(shares) && p + 1 < |shares[0]|
  {
    Lagrange(Column(shares, 0), Column(shares, p + 1), |shares|, |shares|, 0)
  }

  /** The shares after the first pos bytes of the secret. */
  ghost function Partial(secret: seq<Byte>, random: seq<seq<Byte>>, n: nat, pos: nat): (shares: seq<seq<Byte>>)
    requires |random| == |secret| && n <= 255 && pos <= |secret|
    ensures |shares| == n && forall i :: 0 <= i < n ==> shares[i] == Share(secret, random, i + 1)[..pos + 1]
  {
    seq(n, i requires 0 <= i < n => Share(secret, random, i + 1)[..pos + 1])
  }

  lemma ShareGrows(secret: seq<Byte>, random: seq<seq<Byte>>, x: Byte, pos: nat)
    requires |random| == |secret| && pos < |secret|
    ensures Share(secret, random, x)[..pos + 2] ==
            Share(secret, random, x)[..pos + 1] + [Eval([secret[pos]] + random[pos], x)]
  {
    hide Eval;
  }

  lemma PartialDone(secret: seq<Byte>, random: seq<seq<Byte>>, n: nat)
    requires |random| == |secret| && n <= 255
    ensures Partial(secret, random, n, |secret|) == Split(secret, random, n)
  {
    hide Eval;
    var p, s := Partial(secret, random, n, |secret|), Split(secret, random, n);
    forall i | 0 <= i < n ensures p[i] == s[i] {
      assert s[i][..|secret| + 1] == s[i];
    }
  }

  lemma FactorAtZero(xs: seq<Byte>, i: nat, j: nat)
    requires Distinct(xs) && i < |xs| && j < |xs| && i != j
    ensures Add(xs[i], xs[j]) != 0
    ensures Factor(xs, i, j, 0) == Times(xs[j], Inverse(Add(xs[i], xs[j])))
  {
    hide Times, Add, Inverse;
    Gap(xs, i, j);
    AddZero(xs[j]);
  }

  // ---------------------------------------------------------------- the code

  /** The first power is 1, and each next one is the reduced double XORed with the last. */
  lemma TableStep(i: nat, x: Byte)
    requires i > 0 ==> x == Exp(i)
    ensures Exp(0) == 1
    ensures x == Exp(i) ==> Xor(if 2 * x >= 0x100 then Xor(2 * x, 0x11B) else 2 * x, x) == Exp(i + 1)
  {
    StepFits(x);
  }

  /** The module-level tables _GF256_EXP and _GF256_LOG. */
  class Tables {
    const exp: array<Byte>
    const log: array<nat>

    ghost predicate Valid()
      reads exp, log
    {
      exp.Length == 512 && log.Length == 256 &&
      (forall i :: 0 <= i < 512 ==> exp[i] == Exp(i)) &&
      (forall a: Byte :: a != 0 ==> log[a] == Log(a)) &&
      log[0] == 0
    }

    /** _init_gf256 */
    constructor ()
      ensures Valid() && fresh(exp) && fresh(log)
    {
      exp := new Byte[512](_ => 0);
      log := new nat[256](_ => 0);
      new;
      FillPowers();
      Extend();
    }

    /** The first loop of _init_gf256. */
    method FillPowers()
      requires exp.Length == 512 && log.Length == 256 && log[0] == 0
      modifies exp, log
      ensures forall j :: 0 <= j < 255 ==> exp[j] == Exp(j)
      ensures forall a: Byte :: a != 0 ==> log[a] == Log(a)
      ensures log[0] == 0
    {
      hide Exp, Xor, Log;
      var x: Byte := 1;
      TableStep(0, 1);
      for i := 0 to 255
        invariant x == Exp(i)
        invariant forall j :: 0 <= j < i ==> exp[j] == Exp(j)
        invariant forall a: Byte :: a != 0 && Log(a) < i ==> log[a] == Log(a)
        invariant log[0] == 0
      {
        LogOfExp(i);
        exp[i], log[x] := x, i;
        var b: nat := 2 * x;
        if b >= 0x100 {
          b := Xor(b, 0x11B);
        }
        TableStep(i, x);
        x := Xor(b, x);
      }
    }

    /** The second loop of _init_gf256: a second period, so that sums of two logarithms stay in range. */
    method Extend()
      requires exp.Length == 512
      requires forall j :: 0 <= j < 255 ==> exp[j] == Exp(j)
      modifies exp
      ensures forall j :: 0 <= j < 512 ==> exp[j] == Exp(j)
    {
      hide Exp;
      for i := 255 to 512
        invariant forall j :: 0 <= j < i ==> exp[j] == Exp(j)
      {
        Period(i - 255);
        exp[i] := exp[i - 255];
      }
    }

    /** _gf256_mul */
    function Mul(a: Byte, b: Byte): (r: Byte)
      requires Valid()
      reads exp, log
      ensures r == Times(a, b)
    {
      if a == 0 || b == 0 then 0 else exp[log[a] + log[b]]
    }

    /** _gf256_inv */
    function Inv(a: Byte): (r: Result<Byte, Error>)
      requires Valid()
      reads exp, log
      ensures r == if a == 0 then Err(ZeroDivision) else Ok(Inverse(a))
    {
      if a == 0 then Err(ZeroDivision) else Ok(exp[255 - log[a]])
    }

    /** shamir_split; random stands for the calls of secrets.randbelow. */
    method ShamirSplit(secret: seq<Byte>, n: int, k: int, random: seq<seq<Byte>>) returns (r: Result<seq<seq<Byte>>, Error>)
      requires Valid()
      requires IsRandomFor(random, secret, k) || k < 2
      ensures r.Err? ==> r.error == if k < 2 || n < k then BadThreshold else TooManyShares
      ensures r.Ok? <==> 2 <= k <= n <= 255
      ensures r.Ok? ==> r.value == Split(secret, random, n)
    {
      if k < 2 || n < k {
        return Err(BadThreshold);
      }
      if n > 255 {
        return Err(TooManyShares);
      }
      var shares: seq<seq<Byte>> := seq(n, i requires 0 <= i < n => [i + 1]);
      var pos := 0;
      while pos < |secret|
        invariant 0 <= pos <= |secret|
        invariant shares == Partial(secret, random, n, pos)
      {
        shares := AppendByte(secret, random, n, pos, shares);
        pos := pos + 1;
      }
      r := Ok(shares);
      PartialDone(secret, random, n);
    }

    /** The inner loop of shamir_split: one more byte on every share. */
    method AppendByte(secret: seq<Byte>, random: seq<seq<Byte>>, n: nat, pos: nat, before: seq<seq<Byte>>)
      returns (shares: seq<seq<Byte>>)
      requires Valid()
      requires |random| == |secret| && n <= 255 && pos < |secret| && before == Partial(secret, random, n, pos)
      ensures shares == Partial(secret, random, n, pos + 1)
    {
      hide Eval, Times, Add, Share, Valid, Mul;
      shares := before;
      var coeffs := [secret[pos]] + random[pos];
      var i := 0;
      while i < n
        invariant 0 <= i <= n && |shares| == n
        invariant forall m :: 0 <= m < i ==> shares[m] == Share(secret, random, m + 1)[..pos + 2]
        invariant forall m :: i <= m < n ==> shares[m] == before[m]
      {
        var y := EvalAt(coeffs, i + 1);
        ShareGrows(secret, random, i + 1, pos);
        shares := shares[i := shares[i] + [y]];
        i := i + 1;
      }
    }

    /** The Horner loop of shamir_split. */
    method EvalAt(coeffs: seq<Byte>, x: Byte) returns (y: Byte)
      requires Valid()
      ensures y == Eval(coeffs, x)
    {
      hide Times, Add, Valid, Mul;
      y := 0;
      var j := |coeffs|;
      while j > 0
        invariant 0 <= j <= |coeffs|
        invariant y == Eval(coeffs[j..], x)
      {
        j := j - 1;
        assert coeffs[j..][1..] == coeffs[j + 1..];
        y := Add(Mul(y, x), coeffs[j]);
      }
    }

    /** shamir_reconstruct */
    method ShamirReconstruct(shares: seq<seq<Byte>>) returns (r: Result<seq<Byte>, Error>)
      requires Valid()
      ensures r.Ok? <==> Acceptable(shares)
      ensures r.Ok? ==> |r.value| == |shares[0]| - 1 && forall p :: 0 <= p < |r.value| ==> r.value[p] == Recovered(shares, p)
      ensures r.Err? && r.error == TooFewShares <==> |shares| < 2
      ensures r.Err? && r.error == EmptyShare <==> |shares| >= 2 && !NonEmpty(shares)
      ensures r.Err? && r.error == DuplicateX <==>
              |shares| >= 2 && NonEmpty(shares) && !Distinct(Column(shares, 0))
      ensures r.Err? && r.error == InconsistentLength <==>
              |shares| >= 2 && NonEmpty(shares) && Distinct(Column(shares, 0)) && !SameLength(shares)
    {
      if |shares| < 2 {
        return Err(TooFewShares);
      }
      if exists i | 0 <= i < |shares| :: shares[i] == [] {
        return Err(EmptyShare);
      }
      var xs := seq(|shares|, i requires 0 <= i < |shares| => shares[i][0]);
      assert xs == Column(shares, 0);
      DistinctBySize(xs);
      if |Elements(xs)| != |shares| {
        return Err(DuplicateX);
      }
      var secretLen := |shares[0]| - 1;
      if exists i | 1 <= i < |shares| :: |shares[i]| - 1 != secretLen {
        return Err(InconsistentLength);
      }
      assert SameLength(shares);
      var out: seq<Byte> := [];
      while |out| < secretLen
        invariant |out| <= secretLen
        invariant forall p :: 0 <= p < |out| ==> out[p] == Recovered(shares, p)
      {
        var val := RecoverByte(shares, xs, |out|);
        out := out + [val];
      }
      r := Ok(out);
    }

    /** The interpolation loops of shamir_reconstruct, for one byte position. */
    method RecoverByte(shares: seq<seq<Byte>>, xs: seq<Byte>, pos: nat) returns (val: Byte)
      requires Valid()
      requires Acceptable(shares) && xs == Column(shares, 0) && pos + 1 < |shares[0]|
      ensures val == Recovered(shares, pos)
    {
      hide Times, Add, OverGap, Valid, Mul;
      ghost var ys := Column(shares, pos + 1);
      var n := |shares|;
      val := 0;
      var i := 0;
      while i < n
        invariant 0 <= i <= n
        invariant val == Lagrange(xs, ys, i, n, 0)
      {
        var basis := RecoverBasis(xs, i);
        val := Add(val, Mul(shares[i][pos + 1], basis));
        i := i + 1;
      }
    }

    /** The innermost loop: the i-th basis polynomial at 0. */
    method RecoverBasis(xs: seq<Byte>, i: nat) returns (basis: Byte)
      requires Valid()
      requires Distinct(xs) && i < |xs|
      ensures basis == Basis(xs, i, |xs|, 0)
    {
      hide Times, Add, Valid, Mul, Inv, Factor, Inverse, Distinct;
      basis := 1;
      var j := 0;
      while j < |xs|
        invariant 0 <= j <= |xs|
        invariant basis == Basis(xs, i, j, 0)
      {
        if i != j {
          FactorAtZero(xs, i, j);
          var inverse := Inv(Add(xs[i], xs[j]));
          basis := Mul(basis, Mul(xs[j], inverse.value));
        }
        j := j + 1;
      }
    }
  }

  function Elements(xs: seq<Byte>): set<Byte> { set x | x in xs }

  /** A list has no duplicates iff the set of its elements is as large as the list. */
  lemma {:induction false} DistinctBySize(xs: seq<Byte>)
    ensures |Elements(xs)| <= |xs|
    ensures |Elements(xs)| == |xs| <==> Distinct(xs)
  {
    if xs != [] {
      var init, last := xs[..|xs| - 1], xs[|xs| - 1];
      DistinctBySize(init);
      assert xs == init + [last];
      assert Elements(xs) == Elements(init) + {last};
      if last in init {
        var i :| 0 <= i < |init| && init[i] == last;
        assert xs[i] == xs[|xs| - 1];
        assert Elements(xs) == Elements(init);
        assert !Distinct(xs);
      } else {
        assert |Elements(xs)| == |Elements(init)| + 1;
        DistinctSnoc(init, last);
      }
    }
  }

  lemma DistinctSnoc(init: seq<Byte>, last: Byte)
    requires last !in init
    ensures Distinct(init + [last]) <==> Distinct(init)
  {
    var xs := init + [last];
    if Distinct(xs) {
      assert forall i, j :: 0 <= i < j < |init| ==> xs[i] == init[i] && xs[j] == init[j];
    }
  }

  // ---------------------------------------------------------------- the promises

  /** The shares of the given indices. */
  ghost function Pick(shares: seq<seq<Byte>>, picked: seq<nat>): (s: seq<seq<Byte>>)
    requires forall i :: 0 <= i < |picked| ==> picked[i] < |shares|
    ensures |s| == |picked| && forall i :: 0 <= i < |s| ==> s[i] == shares[picked[i]]
  {
    seq(|picked|, i requires 0 <= i < |picked| => shares[picked[i]])
  }

  ghost predicate IsChoice(picked: seq<nat>, n: nat) {
    (forall i :: 0 <= i < |picked| ==> picked[i] < n) && forall i, j :: 0 <= i < j < |picked| ==> picked[i] != picked[j]
  }

  lemma PickAcceptable(secret: seq<Byte>, random: seq<seq<Byte>>, n: nat, picked: seq<nat>)
    requires |random| == |secret| && n <= 255 && IsChoice(picked, n) && |picked| >= 2
    ensures Acceptable(Pick(Split(secret, random, n), picked))
  {
    hide Eval;
    var shares := Pick(Split(secret, random, n), picked);
    assert forall i :: 0 <= i < |shares| ==> shares[i] == Share(secret, random, picked[i] + 1);
    var xs := Column(shares, 0);
    assert forall i :: 0 <= i < |xs| ==> xs[i] == picked[i] + 1;
  }

  /** Any k or more different shares, in any order, give the secret back. */
  lemma {:induction false} ReconstructSplit(secret: seq<Byte>, random: seq<seq<Byte>>, n: nat, k: nat, picked: seq<nat>)
    requires 2 <= k <= n <= 255 && IsRandomFor(random, secret, k)
    requires IsChoice(picked, n) && |picked| >= k
    ensures var shares := Pick(Split(secret, random, n), picked);
            Acceptable(shares) && |shares[0]| == |secret| + 1 &&
            forall p :: 0 <= p < |secret| ==> Recovered(shares, p) == secret[p]
  {
    PickAcceptable(secret, random, n, picked);
    forall p | 0 <= p < |secret|
      ensures Recovered(Pick(Split(secret, random, n), picked), p) == secret[p]
    {
      RecoverOne(secret, random, n, picked, p);
    }
  }

  lemma RecoverOne(secret: seq<Byte>, random: seq<seq<Byte>>, n: nat, picked: seq<nat>, p: nat)
    requires |random| == |secret| && n <= 255 && p < |secret|
    requires IsChoice(picked, n) && |picked| >= 2 && |picked| >= |random[p]| + 1
    ensures var shares := Pick(Split(secret, random, n), picked);
            Acceptable(shares) && Recovered(shares, p) == secret[p]
  {
    hide Eval, Lagrange, Share, Split, Column, Pick, Values;
    PickAcceptable(secret, random, n, picked);
    var shares := Pick(Split(secret, random, n), picked);
    var xs, c := Column(shares, 0), [secret[p]] + random[p];
    forall i | 0 <= i < |shares| ensures Column(shares, p + 1)[i] == Values(c, xs)[i] {
      assert shares[i] == Share(secret, random, picked[i] + 1);
    }
    assert Column(shares, p + 1) == Values(c, xs);
    LagrangeExact(xs, c, |shares|, 0);
    EvalAtZero(c);
  }

  lemma EvalAtZero(c: seq<Byte>)
    requires c != []
    ensures Eval(c, 0) == c[0]
  {
    hide Times, Add;
    TimesZero(Eval(c[1..], 0), 0);
    AddZero(c[0]);
  }

  /** The shares at the x-coordinates xs. */
  ghost function SharesAt(secret: seq<Byte>, random: seq<seq<Byte>>, xs: seq<Byte>): (s: seq<seq<Byte>>)
    requires |random| == |secret|
    ensures |s| == |xs| && forall i :: 0 <= i < |xs| ==> s[i] == Share(secret, random, xs[i])
  {
    seq(|xs|, i requires 0 <= i < |xs| => Share(secret, random, xs[i]))
  }

  lemma ExplanationUnique(xs: seq<Byte>, ys: seq<Byte>, byte: Byte, r: seq<Byte>)
    requires |xs| == |ys| == |r| && Distinct(xs) && 0 !in xs
    requires Values([byte] + r, xs) == ys
    ensures Distinct([0] + xs) && Interpolant([0] + xs, [byte] + ys) == [byte] + r
  {
    hide Eval, Interpolant;
    var zs, ws, c := [0] + xs, [byte] + ys, [byte] + r;
    EvalAtZero(c);
    forall i | 0 <= i < |zs| ensures Values(c, zs)[i] == ws[i] {
      if i > 0 { assert zs[i] == xs[i - 1] && ws[i] == Values(c, xs)[i - 1]; }
    }
    assert Values(c, zs) == ws;
    InterpolantUnique(zs, c);
  }

  /** For one byte: k - 1 share values and any candidate byte leave exactly one choice of the coefficients. */
  lemma {:induction false} OneByteExplained(xs: seq<Byte>, ys: seq<Byte>, byte: Byte) returns (r: seq<Byte>)
    requires |xs| == |ys| && Distinct(xs) && 0 !in xs
    ensures |r| == |xs| && Values([byte] + r, xs) == ys
    ensures forall r' :: |r'| == |xs| && Values([byte] + r', xs) == ys ==> r' == r
  {
    hide Eval, Interpolant, Values;
    var zs, ws := [0] + xs, [byte] + ys;
    var c := Interpolant(zs, ws);
    InterpolantThrough(zs, ws, 0);
    EvalAtZero(c);
    r := c[1..];
    assert c == [byte] + r;
    forall i | 0 <= i < |xs| ensures Values(c, xs)[i] == ys[i] {
      InterpolantThrough(zs, ws, i + 1);
    }
    forall r' | |r'| == |xs| && Values([byte] + r', xs) == ys ensures r' == r {
      ExplanationUnique(xs, ys, byte, r');
    }
  }

  /** Fewer than k shares fix nothing: whatever shares of one secret are seen at k - 1 different
      non-zero x-coordinates, every other secret of that length has exactly one choice of random
      coefficients that produces the same shares. */
  lemma {:induction false} FewSharesFixNothing(seen: seq<seq<Byte>>, xs: seq<Byte>, candidate: seq<Byte>)
    returns (random: seq<seq<Byte>>)
    requires Distinct(xs) && 0 !in xs && |seen| == |xs|
    requires forall i :: 0 <= i < |xs| ==> |seen[i]| == |candidate| + 1 && seen[i][0] == xs[i]
    ensures IsRandomFor(random, candidate, |xs| + 1) && SharesAt(candidate, random, xs) == seen
    ensures forall other :: IsRandomFor(other, candidate, |xs| + 1) && SharesAt(candidate, other, xs) == seen ==>
              other == random
  {
    hide Eval, Share, Explains;
    random := [];
    for p := 0 to |candidate|
      invariant |random| == p
      invariant forall q :: 0 <= q < p ==> Explains(seen, xs, candidate[q], random[q], q)
      invariant forall q, r :: 0 <= q < p && Explains(seen, xs, candidate[q], r, q) ==> r == random[q]
    {
      var ys := Column(seen, p + 1);
      var r := OneByteExplained(xs, ys, candidate[p]);
      forall r' ensures Explains(seen, xs, candidate[p], r', p) ==> |r'| == |xs| && Values([candidate[p]] + r', xs) == ys {
        ExplainsValues(seen, xs, candidate[p], r', p);
      }
      ExplainsValues(seen, xs, candidate[p], r, p);
      random := random + [r];
    }
    ExplainedShares(seen, xs, candidate, random);
    forall other | IsRandomFor(other, candidate, |xs| + 1) && SharesAt(candidate, other, xs) == seen
      ensures other == random
    {
      forall p | 0 <= p < |candidate| ensures other[p] == random[p] {
        SharesExplained(seen, xs, candidate, other, p);
      }
    }
  }

  /** The coefficients r of byte number p produce the share values seen. */
  ghost predicate Explains(seen: seq<seq<Byte>>, xs: seq<Byte>, byte: Byte, r: seq<Byte>, p: nat) {
    |seen| == |xs| == |r| && (forall i :: 0 <= i < |xs| ==> p + 1 < |seen[i]|) &&
    forall i :: 0 <= i < |xs| ==> seen[i][p + 1] == Eval([byte] + r, xs[i])
  }

  lemma ExplainsValues(seen: seq<seq<Byte>>, xs: seq<Byte>, byte: Byte, r: seq<Byte>, p: nat)
    requires |seen| == |xs| && forall i :: 0 <= i < |xs| ==> p + 1 < |seen[i]|
    ensures Explains(seen, xs, byte, r, p) <==> |r| == |xs| && Values([byte] + r, xs) == Column(seen, p + 1)
  {
    hide Eval;
    var v, c := Values([byte] + r, xs), Column(seen, p + 1);
    if Explains(seen, xs, byte, r, p) {
      assert v == c;
    }
  }

  lemma SharesExplained(seen: seq<seq<Byte>>, xs: seq<Byte>, candidate: seq<Byte>, random: seq<seq<Byte>>, p: nat)
    requires |seen| == |xs| && IsRandomFor(random, candidate, |xs| + 1) && p < |candidate|
    requires SharesAt(candidate, random, xs) == seen
    ensures Explains(seen, xs, candidate[p], random[p], p)
  {
    hide Eval;
    assert forall i :: 0 <= i < |xs| ==> seen[i] == Share(candidate, random, xs[i]);
  }

  lemma ExplainedShares(seen: seq<seq<Byte>>, xs: seq<Byte>, candidate: seq<Byte>, random: seq<seq<Byte>>)
    requires |seen| == |xs| && |random| == |candidate|
    requires forall i :: 0 <= i < |xs| ==> |seen[i]| == |candidate| + 1 && seen[i][0] == xs[i]
    requires forall p :: 0 <= p < |candidate| ==> Explains(seen, xs, candidate[p], random[p], p)
    ensures IsRandomFor(random, candidate, |xs| + 1) && SharesAt(candidate, random, xs) == seen
  {
    hide Eval, Explains, Share;
    if candidate != [] { ExplainsLengths(seen, xs, candidate, random); }
    forall i | 0 <= i < |xs| ensures SharesAt(candidate, random, xs)[i] == seen[i] {
      ExplainedShare(seen, xs, candidate, random, i);
    }
  }

  lemma ExplainsLengths(seen: seq<seq<Byte>>, xs: seq<Byte>, candidate: seq<Byte>, random: seq<seq<Byte>>)
    requires |random| == |candidate|
    requires forall p :: 0 <= p < |candidate| ==> Explains(seen, xs, candidate[p], random[p], p)
    ensures IsRandomFor(random, candidate, |xs| + 1)
  {
    hide Eval;
  }

  lemma ExplainedShare(seen: seq<seq<Byte>>, xs: seq<Byte>, candidate: seq<Byte>, random: seq<seq<Byte>>, i: nat)
    requires |seen| == |xs| && |random| == |candidate| && i < |xs|
    requires |seen[i]| == |candidate| + 1 && seen[i][0] == xs[i]
    requires forall p :: 0 <= p < |candidate| ==> Explains(seen, xs, candidate[p], random[p], p)
    ensures Share(candidate, random, xs[i]) == seen[i]
  {
    hide Eval;
    var t := Share(candidate, random, xs[i]);
    forall m | 1 <= m < |t| ensures t[m] == seen[i][m] {
      assert t[m - 1 + 1] == Eval([candidate[m - 1]] + random[m - 1], xs[i]);
      assert Explains(seen, xs, candidate[m - 1], random[m - 1], m - 1);
    }
  }
}

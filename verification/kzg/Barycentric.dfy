/** Barycentric evaluation of a polynomial given by its values on the roots of unity. */
module Barycentric {
  import opened Prelude
  import opened Fields
  import opened Spaces
  import opened RootsOfUnity

  /** Evaluations, zero-padded to a power of two; the length before padding is kept in bytes. */
  datatype PolynomialEvalForm<+T> = PolynomialEvalForm(evaluations: seq<T>, lenUnderlyingBlobBytes: nat)

  function NewPolynomial<T>(K: Field<T>, evals: seq<T>): (r: Result<PolynomialEvalForm<T>, KzgError>)
    ensures r.Success? <==> |evals| <= MAINNET_SRS_G1_SIZE
  {
    if |evals| > MAINNET_SRS_G1_SIZE then
      Failure(GenericError("Input size exceeds maximum polynomial size"))
    else
      var padding := seq(NextPowerOfTwo(|evals|) - |evals|, _ => K.zero);
      Success(PolynomialEvalForm(evals + padding, |evals| * BYTES_PER_FIELD_ELEMENT))
  }

  // The interpolating polynomial

  /** `z^(n-1) + x*z^(n-2) + ... + x^(n-1)`, as coefficients of the powers of `z`. */
  function Geometric<T>(K: Field<T>, x: T, n: nat): (c: seq<T>)
    ensures |c| == n
  {
    if n == 0 then [] else [K.Pow(x, n - 1)] + Geometric(K, x, n - 1)
  }

  function Eval<T>(K: Field<T>, c: seq<T>, x: T): T {
    FieldSpace(K).Eval(c, x)
  }

  lemma EvalGeometric<T(!new)>(K: Field<T>, x: T, n: nat, z: T)
    requires n > 0
    ensures Eval(K, Geometric(K, x, n), z)
            == K.add(K.Pow(x, n - 1), K.mul(z, Eval(K, Geometric(K, x, n - 1), z)))
  {
    assert Geometric(K, x, n)[1..] == Geometric(K, x, n - 1);
  }

  lemma {:induction false} GeometricEval<T(!new)>(K: Field<T>, x: T, n: nat, z: T)
    requires IsField(K)
    ensures K.mul(K.Sub(z, x), Eval(K, Geometric(K, x, n), z)) == K.Sub(K.Pow(z, n), K.Pow(x, n))
  {
    var d := K.Sub(z, x);
    if n == 0 {
      MulZero(K, d);
      Laws1(K, K.one);
    } else {
      EvalGeometric(K, x, n, z);
      GeometricEval(K, x, n - 1, z);
      GeometricStep(K, x, z, K.Pow(x, n - 1), K.Pow(z, n - 1), Eval(K, Geometric(K, x, n - 1), z));
    }
  }

  lemma GeometricStep<T(!new)>(K: Field<T>, x: T, z: T, xp: T, zp: T, e: T)
    requires IsField(K)
    requires K.mul(K.Sub(z, x), e) == K.Sub(zp, xp)
    ensures K.mul(K.Sub(z, x), K.add(xp, K.mul(z, e))) == K.Sub(K.mul(z, zp), K.mul(x, xp))
  {
    var d := K.Sub(z, x);
    Laws3(K, d, xp, K.mul(z, e));
    MulSwap(K, d, z, e);
    MulSub(K, z, zp, xp);
    MulSub(K, xp, z, x);
    Laws2(K, K.mul(d, xp), K.mul(z, K.Sub(zp, xp)));
    SubChain(K, K.mul(z, zp), K.mul(z, xp), K.mul(x, xp));
  }

  lemma {:induction false} GeometricAtSelf<T(!new)>(K: Field<T>, x: T, n: nat)
    requires IsField(K) && n > 0
    ensures Eval(K, Geometric(K, x, n), x) == K.mul(K.FromNat(n), K.Pow(x, n - 1))
  {
    hide IsField;
    var p := K.Pow(x, n - 1);
    EvalGeometric(K, x, n, x);
    assert K.FromNat(n) == K.add(K.one, K.FromNat(n - 1));
    Laws3(K, K.one, K.FromNat(n - 1), p);
    Laws1(K, p);
    if n == 1 {
      assert K.FromNat(0) == K.zero && Eval(K, [], x) == K.zero;
      MulZero(K, x);
      MulZero(K, p);
    } else {
      GeometricAtSelf(K, x, n - 1);
      assert p == K.mul(x, K.Pow(x, n - 2));
      MulSwap(K, x, K.FromNat(n - 1), K.Pow(x, n - 2));
    }
  }

  /** `sum over i < m of f[i] * w^i * (z^n - 1)/(z - w^i)`, as coefficients. */
  function LagrangeSum<T>(K: Field<T>, w: T, f: seq<T>, m: nat): (c: seq<T>)
    requires m <= |f|
    ensures |c| == |f|
  {
    var S := FieldSpace(K);
    if m == 0 then
      seq(|f|, _ => K.zero)
    else
      var x := K.Pow(w, m - 1);
      AddSeq(S, LagrangeSum(K, w, f, m - 1),
             ScaleSeq(S, K.mul(f[m - 1], x), Geometric(K, x, |f|)))
  }

  lemma LagrangeStep<T(!new)>(K: Field<T>, w: T, f: seq<T>, m: nat, z: T)
    requires IsField(K) && 0 < m <= |f|
    ensures var x := K.Pow(w, m - 1);
            Eval(K, LagrangeSum(K, w, f, m), z)
            == K.add(Eval(K, LagrangeSum(K, w, f, m - 1), z),
                     K.mul(K.mul(f[m - 1], x), Eval(K, Geometric(K, x, |f|), z)))
  {
    var S, x := FieldSpace(K), K.Pow(w, m - 1);
    var a, g := K.mul(f[m - 1], x), Geometric(K, x, |f|);
    FieldIsSpace(K);
    EvalAdd(K, S, LagrangeSum(K, w, f, m - 1), ScaleSeq(S, a, g), z);
    EvalScale(K, S, a, g, z);
  }

  /** The polynomial of degree below `n` that takes the values `f` on the powers of `w`. */
  function Interpolant<T>(K: Field<T>, w: T, f: seq<T>): (c: seq<T>)
    requires K.inverse(K.FromNat(|f|)).Some?
    ensures |c| == |f|
  {
    ScaleSeq(FieldSpace(K), K.inverse(K.FromNat(|f|)).value, LagrangeSum(K, w, f, |f|))
  }

  /** At a root, the geometric sum of the same root is `n / x`, and of every other root zero. */
  lemma GeometricAtRoot<T(!new)>(K: Field<T>, w: T, n: nat, i: nat, j: nat)
    requires IsField(K) && HasOrder(K, w, n) && i < n && j < n
    ensures var x := K.Pow(w, j);
            K.mul(x, Eval(K, Geometric(K, x, n), K.Pow(w, i))) == if i == j then K.FromNat(n) else K.zero
  {
    hide HasOrder, IsField, Eval, Geometric;
    var x, z := K.Pow(w, j), K.Pow(w, i);
    var g := Eval(K, Geometric(K, x, n), z);
    PowOfRoot(K, w, n, i);
    PowOfRoot(K, w, n, j);
    if i == j {
      GeometricAtSelf(K, x, n);
      MulSwap(K, x, K.FromNat(n), K.Pow(x, n - 1));
      PowNext(K, x, n - 1);
      Laws2(K, x, K.Pow(x, n - 1));
      Laws1(K, K.FromNat(n));
    } else {
      GeometricEval(K, x, n, z);
      Laws1(K, K.one);
      RootsApart(K, w, n, i, j);
      SubLaws(K, z, x);
      NoZeroDivisors(K, K.Sub(z, x), g);
      MulZero(K, x);
    }
  }

  lemma RootsApart<T(!new)>(K: Field<T>, w: T, n: nat, i: nat, j: nat)
    requires IsField(K) && HasOrder(K, w, n) && i < n && j < n && i != j
    ensures K.Pow(w, i) != K.Pow(w, j)
  {
    hide HasOrder, IsField;
    RootsDistinct(K, w, n);
    assert Powers(K, w, n)[i] != Powers(K, w, n)[j];
  }

  lemma {:induction false} LagrangeAtRoot<T(!new)>(K: Field<T>, w: T, f: seq<T>, m: nat, i: nat)
    requires IsField(K) && HasOrder(K, w, |f|)
    requires m <= |f| && i < |f|
    ensures Eval(K, LagrangeSum(K, w, f, m), K.Pow(w, i))
            == if i < m then K.mul(f[i], K.FromNat(|f|)) else K.zero
  {
    hide *;
    var n, z := |f|, K.Pow(w, i);
    if m == 0 {
      LagrangeNothing(K, w, f, z);
    } else {
      var x, a := K.Pow(w, m - 1), f[m - 1];
      var g := Eval(K, Geometric(K, x, n), z);
      LagrangeAtRoot(K, w, f, m - 1, i);
      LagrangeStep(K, w, f, m, z);
      GeometricAtRoot(K, w, n, i, m - 1);
      Laws3(K, a, x, g);
      MulZero(K, a);
      Laws1(K, K.mul(a, K.FromNat(n)));
      Laws1(K, Eval(K, LagrangeSum(K, w, f, m - 1), z));
      Laws1(K, K.zero);
    }
  }

  lemma LagrangeNothing<T(!new)>(K: Field<T>, w: T, f: seq<T>, z: T)
    requires IsField(K)
    ensures Eval(K, LagrangeSum(K, w, f, 0), z) == K.zero
  {
    FieldIsSpace(K);
    EvalZero(K, FieldSpace(K), LagrangeSum(K, w, f, 0), z);
  }

  /** The interpolant takes the prescribed values, and no other polynomial of its degree does. */
  lemma InterpolantCorrect<T(!new)>(K: Field<T>, w: T, f: seq<T>, c: seq<T>)
    requires IsField(K) && HasOrder(K, w, |f|)
    requires K.inverse(K.FromNat(|f|)).Some?
    requires |c| == |f|
    ensures c == Interpolant(K, w, f)
            <==> forall i :: 0 <= i < |f| ==> Eval(K, c, K.Pow(w, i)) == f[i]
  {
    var S, n, p, nf := FieldSpace(K), |f|, Interpolant(K, w, f), K.FromNat(|f|);
    FieldIsSpace(K);
    forall i | 0 <= i < n
      ensures Eval(K, p, K.Pow(w, i)) == f[i]
    {
      var inv, z := K.inverse(nf).value, K.Pow(w, i);
      LagrangeAtRoot(K, w, f, n, i);
      EvalScale(K, S, inv, LagrangeSum(K, w, f, n), z);
      MulSwap(K, inv, f[i], nf);
      Laws1(K, nf);
      Laws2(K, inv, nf);
      Laws1(K, f[i]);
    }
    if forall i :: 0 <= i < n ==> Eval(K, c, K.Pow(w, i)) == f[i] {
      var xs := Powers(K, w, n);
      RootsDistinct(K, w, n);
      forall i | 0 <= i < n
        ensures S.Eval(c, xs[i]) == S.Eval(p, xs[i])
      {
        assert Eval(K, c, K.Pow(w, i)) == f[i];
      }
      Interpolation(K, S, c, p, xs);
    }
  }

  // The width is invertible

  lemma {:induction false} FromNatDouble<T(!new)>(K: Field<T>, n: nat)
    requires IsField(K)
    ensures K.FromNat(2 * n) == K.mul(K.add(K.one, K.one), K.FromNat(n))
  {
    var two := K.add(K.one, K.one);
    if n == 0 {
      MulZero(K, two);
    } else {
      var m := K.FromNat(n - 1);
      FromNatDouble(K, n - 1);
      assert K.FromNat(2 * n) == K.add(K.one, K.FromNat(2 * n - 1));
      assert K.FromNat(2 * n - 1) == K.add(K.one, K.FromNat(2 * (n - 1)));
      Laws3(K, two, K.one, m);
      Laws1(K, two);
      Laws3(K, K.one, K.one, K.mul(two, m));
    }
  }

  lemma {:induction false} PowerOfTwoNonzero<T(!new)>(K: Field<T>, k: nat)
    requires IsField(K) && K.add(K.one, K.one) != K.zero
    ensures K.FromNat(Exp2(k)) != K.zero
  {
    if k == 0 {
      assert K.FromNat(1) == K.add(K.one, K.FromNat(0));
      Laws1(K, K.one);
    } else {
      PowerOfTwoNonzero(K, k - 1);
      FromNatDouble(K, Exp2(k - 1));
      NoZeroDivisors(K, K.add(K.one, K.one), K.FromNat(Exp2(k - 1)));
    }
  }

  /** A root of order `2^k` makes `2^k` invertible: with `k > 0` the field has -1 distinct from 1. */
  lemma WidthInvertible<T(!new)>(K: Field<T>, w: T, k: nat)
    requires IsField(K) && HasOrder(K, w, Exp2(k))
    ensures K.inverse(K.FromNat(Exp2(k))).Some?
  {
    var c := K.FromNat(Exp2(k));
    Laws1(K, c);
    if k == 0 {
      assert K.FromNat(1) == K.add(K.one, K.FromNat(0));
      Laws1(K, K.one);
    } else {
      var h := Exp2(k - 1);
      var u := K.Pow(w, h);
      PowAdd(K, w, h, h);
      Laws1(K, K.one);
      if K.add(K.one, K.one) == K.zero {
        // then (u - 1) * (u - 1) == u*u - 1 == 0
        AddCancel(K, K.one, K.one, K.neg(K.one));
        var d := K.Sub(u, K.one);
        MulSub(K, d, u, K.one);
        MulSub(K, u, u, K.one);
        Laws1(K, d);
        Laws1(K, u);
        SubLaws(K, K.one, u);
        Laws2(K, u, K.one);
        NegMul(K, u, K.one);
        NegMul(K, K.one, u);
        Laws1(K, K.neg(u));
        SelfInverse(K, u);
        SubLaws(K, d, d);
        Laws2(K, K.one, K.neg(u));
        NoZeroDivisors(K, d, d);
        SubLaws(K, u, K.one);
      }
      PowerOfTwoNonzero(K, k);
    }
  }

  lemma SelfInverse<T(!new)>(K: Field<T>, a: T)
    requires IsField(K) && K.neg(K.one) == K.one
    ensures K.neg(a) == a
  {
    NegMul(K, K.one, a);
    Laws1(K, a);
    Laws1(K, K.neg(a));
  }

  // The algorithm

  /** What a call with a polynomial and a point must meet to be evaluated at all. */
  predicate Evaluable<T>(poly: PolynomialEvalForm<T>) {
    && 0 < poly.lenUnderlyingBlobBytes <= MAINNET_SRS_G1_SIZE * BYTES_PER_FIELD_ELEMENT
    && |poly.evaluations| == NextPowerOfTwo((poly.lenUnderlyingBlobBytes + 31) / 32)
  }

  function DomainRoot<T>(P: Setup<T>, poly: PolynomialEvalForm<T>): T
    requires |P.primitiveRoots| == 29 && Evaluable(poly)
  {
    SrsLog((poly.lenUnderlyingBlobBytes + 31) / 32);
    P.primitiveRoots[CeilLog2((poly.lenUnderlyingBlobBytes + 31) / 32)]
  }

  lemma DomainRootOrder<T(!new)>(P: Setup<T>, poly: PolynomialEvalForm<T>)
    requires IsSetup(P) && Evaluable(poly)
    ensures HasOrder(P.K, DomainRoot(P, poly), |poly.evaluations|)
    ensures P.K.inverse(P.K.FromNat(|poly.evaluations|)).Some?
    ensures Domain(P, (poly.lenUnderlyingBlobBytes + 31) / 32)
            == Powers(P.K, DomainRoot(P, poly), |poly.evaluations|)
  {
    hide IsField, HasOrder;
    SrsLog((poly.lenUnderlyingBlobBytes + 31) / 32);
    WidthInvertible(P.K, DomainRoot(P, poly), CeilLog2((poly.lenUnderlyingBlobBytes + 31) / 32));
  }

  /** The term of one root, in closed form: `(z^n - 1) / (z - x)` is the geometric sum. */
  lemma TermClosedForm<T(!new)>(K: Field<T>, x: T, n: nat, z: T, inv: T, a: T)
    requires IsField(K) && K.Pow(x, n) == K.one
    requires K.mul(K.Sub(z, x), inv) == K.one
    ensures K.mul(K.mul(a, inv), K.Sub(K.Pow(z, n), K.one))
            == K.mul(a, Eval(K, Geometric(K, x, n), z))
  {
    var d, g := K.Sub(z, x), Eval(K, Geometric(K, x, n), z);
    GeometricEval(K, x, n, z);
    Laws3(K, a, inv, K.mul(d, g));
    Laws3(K, inv, d, g);
    Laws2(K, inv, d);
    Laws1(K, g);
  }

  /** `iter().position(|d| d == z)`. */
  method Position<T(==)>(xs: seq<T>, z: T) returns (r: Option<nat>)
    ensures r == None <==> z !in xs
    ensures r.Some? ==> r.value < |xs| && xs[r.value] == z && z !in xs[..r.value]
  {
    for i := 0 to |xs|
      invariant z !in xs[..i]
    {
      if xs[i] == z {
        return Some(i);
      }
    }
    return None;
  }

  /** Off the domain: `sum of f[i] * w^i / (z - w^i)`, which times `z^n - 1` is the Lagrange sum at `z`. */
  method BarycentricSum<T(==,!new)>(K: Field<T>, ghost w: T, f: seq<T>, roots: seq<T>, z: T) returns (sum: T)
    requires IsField(K) && HasOrder(K, w, |f|) && roots == Powers(K, w, |f|)
    requires z !in roots
    ensures K.mul(sum, K.Sub(K.Pow(z, |f|), K.one)) == Eval(K, LagrangeSum(K, w, f, |f|), z)
  {
    sum := K.zero;
    ghost var q := K.Sub(K.Pow(z, |f|), K.one);
    MulZero(K, q);
    LagrangeNothing(K, w, f, z);
    for i := 0 to |f|
      invariant K.mul(sum, q) == Eval(K, LagrangeSum(K, w, f, i), z)
    {
      hide LagrangeSum, Eval, Geometric;
      var a := K.mul(f[i], roots[i]);
      var b := K.Sub(z, roots[i]);
      SubLaws(K, z, roots[i]);
      Laws1(K, b);
      if b == K.zero || K.inverse(b) == None {
        assert false;
      }
      var inv := K.inverse(b).value;
      PowOfRoot(K, w, |f|, i);
      TermClosedForm(K, roots[i], |f|, z, inv, a);
      LagrangeStep(K, w, f, i + 1, z);
      Laws3(K, sum, K.mul(a, inv), q);
      sum := K.add(sum, K.mul(a, inv));
    }
  }

  /** The value at `z` of the one polynomial of degree below the width that has the given
      evaluations on the domain, whether or not `z` lies in the domain. */
  method EvaluatePolynomialInEvaluationForm<T(==,!new)>(P: Setup<T>, poly: PolynomialEvalForm<T>, z: T)
    returns (r: Result<T, KzgError>)
    requires IsSetup(P)
    ensures r.Success? <==> Evaluable(poly)
    ensures r.Success? ==>
              && P.K.inverse(P.K.FromNat(|poly.evaluations|)).Some?
              && r.value == Eval(P.K, Interpolant(P.K, DomainRoot(P, poly), poly.evaluations), z)
  {
    var K := P.K;
    var rootsResult := CalculateRootsOfUnity(P, poly.lenUnderlyingBlobBytes);
    if rootsResult.Failure? {
      return Failure(rootsResult.error);
    }
    var roots := rootsResult.value;
    if |poly.evaluations| != |roots| {
      return Failure(InvalidInputLength);
    }
    hide LagrangeSum, DomainRoot, Eval, HasOrder, Domain, IsField;
    ghost var w := DomainRoot(P, poly);
    DomainRootOrder(P, poly);

    var width := |poly.evaluations|;
    if K.inverse(K.FromNat(width)) == None {
      assert false;
    }
    var inverseWidth := K.inverse(K.FromNat(width)).value;
    InterpolantCorrect(K, w, poly.evaluations, Interpolant(K, w, poly.evaluations));

    var idx := Position(roots, z);
    if idx.Some? {
      return Success(poly.evaluations[idx.value]);
    }

    var sum := BarycentricSum(K, w, poly.evaluations, roots, z);
    var rr := K.Sub(K.Pow(z, width), K.one);
    ScaledLagrange(K, w, poly.evaluations, z, K.mul(sum, rr));
    return Success(K.mul(K.mul(sum, rr), inverseWidth));
  }

  lemma ScaledLagrange<T(!new)>(K: Field<T>, w: T, f: seq<T>, z: T, s: T)
    requires IsField(K) && K.inverse(K.FromNat(|f|)).Some?
    requires s == Eval(K, LagrangeSum(K, w, f, |f|), z)
    ensures K.mul(s, K.inverse(K.FromNat(|f|)).value) == Eval(K, Interpolant(K, w, f), z)
  {
    var inverseWidth := K.inverse(K.FromNat(|f|)).value;
    FieldIsSpace(K);
    Laws2(K, inverseWidth, s);
    EvalScale(K, FieldSpace(K), inverseWidth, LagrangeSum(K, w, f, |f|), z);
  }

  /** Every blob of one field element up to the whole SRS is evaluable; the empty blob, whose padded
      form has one element but whose byte length is zero, is the one constructible polynomial that is not. */
  lemma NewPolynomialEvaluable<T>(K: Field<T>, evals: seq<T>)
    requires |evals| <= MAINNET_SRS_G1_SIZE
    ensures Evaluable(NewPolynomial(K, evals).value) <==> evals != []
  {
    assert (|evals| * 32 + 31) / 32 == |evals|;
  }
}

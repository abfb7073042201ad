/** The evaluation domain: expanding a primitive root of unity into all its powers. */
module RootsOfUnity {
  import opened Prelude
  import opened Fields
  import opened Spaces

  const BYTES_PER_FIELD_ELEMENT: nat := 32
  const MAINNET_SRS_G1_SIZE: nat := 268_435_456

  datatype KzgError =
    | InvalidInputLength
    | InvalidFieldElement
    | NotOnCurveError
    | InvalidDenominator
    | GenericError(message: string)

  /** `w` has multiplicative order exactly `n`. */
  ghost predicate HasOrder<T>(K: Field<T>, w: T, n: nat) {
    && n > 0
    && K.Pow(w, n) == K.one
    && forall i :: 0 < i < n ==> K.Pow(w, i) != K.one
  }

  /** The scalar field with its table of primitive `2^k`-th roots of unity, `k` from 0 to 28. */
  datatype Setup<!T(==)> = Setup(K: Field<T>, primitiveRoots: seq<T>)

  ghost predicate IsSetup<T(!new)>(P: Setup<T>) {
    && IsField(P.K)
    && |P.primitiveRoots| == 29
    && forall k :: 0 <= k < 29 ==> HasOrder(P.K, P.primitiveRoots[k], Exp2(k))
  }

  /** A table in which each entry is a square root of the one before, starting 1, -1. */
  ghost predicate SquareRootChain<T>(K: Field<T>, t: seq<T>) {
    && |t| > 1 && t[0] == K.one && t[1] != K.one
    && forall k :: 0 < k < |t| ==> K.mul(t[k], t[k]) == t[k - 1]
  }

  /** Entry `k` of such a table has order exactly `2^k`. */
  lemma {:induction false} ChainOrder<T(!new)>(K: Field<T>, t: seq<T>, k: nat)
    requires IsField(K) && SquareRootChain(K, t) && k < |t|
    ensures HasOrder(K, t[k], Exp2(k))
  {
    var w := t[k];
    assert K.Pow(w, 1) == K.mul(w, K.Pow(w, 0));
    Laws1(K, w);
    if k > 0 {
      var v, h := t[k - 1], Exp2(k - 1);
      ChainOrder(K, t, k - 1);
      assert K.Pow(w, 2) == K.mul(w, K.Pow(w, 1));
      PowPow(K, w, 2, h);
      forall i | 0 < i < 2 * h
        ensures K.Pow(w, i) != K.one
      {
        PowPow(K, w, 2, i);
        PowPow(K, w, i, 2);
        SquareOfOne(K, K.Pow(w, i));
        if i % 2 == 0 {
          PowPow(K, w, 2, i / 2);
        } else if k > 1 {
          // w^i == 1 would give v^i == 1 with i odd, so v would repeat below its order
          var j := if i < h then i else i - h;
          assert j > 0 by {
            assert h == 2 * Exp2(k - 2);
          }
          PowAdd(K, v, h, j);
          Laws1(K, K.Pow(v, j));
          assert K.Pow(v, i) == K.Pow(v, j);
        }
      }
    }
  }

  lemma SquareOfOne<T(!new)>(K: Field<T>, a: T)
    requires IsField(K)
    ensures a == K.one ==> K.Pow(a, 2) == K.one
  {
    PowOne(K, 2);
  }

  /** `[base^0, base^1, ..., base^(count-1)]`. */
  function Powers<T>(K: Field<T>, base: T, count: nat): (s: seq<T>)
    ensures |s| == count
  {
    seq(count, i requires 0 <= i < count => K.Pow(base, i))
  }

  lemma PowNext<T(!new)>(K: Field<T>, x: T, n: nat)
    requires IsField(K)
    ensures K.Pow(x, n + 1) == K.mul(K.Pow(x, n), x)
  {
    Laws2(K, x, K.Pow(x, n));
  }

  method ComputePowers<T(==,!new)>(K: Field<T>, base: T, count: nat) returns (powers: seq<T>)
    requires IsField(K)
    ensures powers == Powers(K, base, count)
  {
    powers := [];
    var current := K.one;
    for i := 0 to count
      invariant powers == Powers(K, base, i)
      invariant current == K.Pow(base, i)
    {
      powers := powers + [current];
      PowNext(K, base, i);
      current := K.mul(current, base);
    }
  }

  /** Multiplies by `root` until the first return to one, or until the iteration bound. */
  method ExpandRootOfUnity<T(==,!new)>(K: Field<T>, root: T) returns (roots: seq<T>)
    requires IsField(K)
    ensures 2 <= |roots| <= MAINNET_SRS_G1_SIZE + 2
    ensures roots == Powers(K, root, |roots|)
    ensures forall i :: 0 < i < |roots| - 1 ==> K.Pow(root, i) != K.one
    ensures |roots| == MAINNET_SRS_G1_SIZE + 2 || roots[|roots| - 1] == K.one
  {
    roots := [K.one, root];
    Laws1(K, root);
    assert K.Pow(root, 1) == K.mul(root, K.Pow(root, 0));
    var maxIter := MAINNET_SRS_G1_SIZE + 1;
    var i := 1;
    while i < maxIter
      invariant 1 <= i <= maxIter
      invariant |roots| == i + 1 && roots == Powers(K, root, i + 1)
      invariant forall j :: 0 < j < i ==> K.Pow(root, j) != K.one
    {
      var cur := roots[i];
      if cur == K.one {
        break;
      }
      PowNext(K, root, i);
      i := i + 1;
      roots := roots + [K.mul(cur, root)];
    }
  }

  /** Calculates the evaluation domain for a blob of the given length in bytes: for every length
      from one byte to the whole SRS, all powers of the root whose order is the padded length. */
  method CalculateRootsOfUnity<T(==,!new)>(P: Setup<T>, length: nat) returns (r: Result<seq<T>, KzgError>)
    requires IsSetup(P)
    ensures r.Success? <==> 0 < length <= MAINNET_SRS_G1_SIZE * BYTES_PER_FIELD_ELEMENT
    ensures r.Success? ==> r.value == Domain(P, (length + 31) / 32)
  {
    if length == 0 {
      return Failure(GenericError("Length of data after padding is 0"));
    }
    var nFieldElements := (length + BYTES_PER_FIELD_ELEMENT - 1) / BYTES_PER_FIELD_ELEMENT;
    if nFieldElements > MAINNET_SRS_G1_SIZE {
      return Failure(GenericError("Length exceeds SRS"));
    }
    var target := NextPowerOfTwo(nFieldElements);
    TrailingZerosOfPower(CeilLog2(nFieldElements));
    var log2 := TrailingZeros(target);
    SrsLog(nFieldElements);
    var root := P.primitiveRoots[log2];
    var roots := ExpandRootOfUnity(P.K, root);
    ExpansionLength(P.K, root, target, roots);
    var last := |roots| - 1;
    roots := roots[..last];
    assert roots == Powers(P.K, root, target);
    return Success(roots);
  }

  /** The domain of a blob of `n` field elements. */
  function Domain<T>(P: Setup<T>, n: nat): seq<T>
    requires |P.primitiveRoots| == 29 && n <= MAINNET_SRS_G1_SIZE
  {
    SrsLog(n);
    Powers(P.K, P.primitiveRoots[CeilLog2(n)], NextPowerOfTwo(n))
  }

  lemma SrsIsPower()
    ensures Exp2(28) == MAINNET_SRS_G1_SIZE
  {
    assert Exp2(7) == 128;
    hide Exp2;
    Exp2Sum(7, 7);
    Exp2Sum(14, 14);
  }

  lemma SrsLog(n: nat)
    requires n <= MAINNET_SRS_G1_SIZE
    ensures CeilLog2(n) <= 28 && NextPowerOfTwo(n) <= MAINNET_SRS_G1_SIZE
  {
    hide Exp2, CeilLog2;
    SrsIsPower();
    if CeilLog2(n) > 29 {
      Exp2Increasing(28, CeilLog2(n) - 1);
    }
    if CeilLog2(n) < 28 {
      Exp2Increasing(CeilLog2(n), 28);
    }
  }

  lemma {:induction false} Exp2Sum(j: nat, k: nat)
    ensures Exp2(j + k) == Exp2(j) * Exp2(k)
  {
    if j > 0 {
      Exp2Sum(j - 1, k);
      assert Exp2(j + k) == 2 * Exp2(j - 1 + k);
    }
  }

  /** The iteration bound never cuts the expansion short, and the last entry is the repeated one. */
  lemma ExpansionLength<T(!new)>(K: Field<T>, root: T, n: nat, roots: seq<T>)
    requires HasOrder(K, root, n) && n <= MAINNET_SRS_G1_SIZE
    requires |roots| >= 2 && roots == Powers(K, root, |roots|)
    requires forall i :: 0 < i < |roots| - 1 ==> K.Pow(root, i) != K.one
    requires |roots| == MAINNET_SRS_G1_SIZE + 2 || roots[|roots| - 1] == K.one
    ensures |roots| == n + 1
  {
    assert roots[|roots| - 1] == K.Pow(root, |roots| - 1);
  }

  /** The powers below the order are distinct. */
  lemma RootsDistinct<T(!new)>(K: Field<T>, w: T, n: nat)
    requires IsField(K) && HasOrder(K, w, n)
    ensures w != K.zero
    ensures Distinct(Powers(K, w, n))
  {
    if w == K.zero {
      MulZero(K, K.Pow(w, n - 1));
    }
    forall i, j | 0 <= i < j < n
      ensures K.Pow(w, i) != K.Pow(w, j)
    {
      PowAdd(K, w, i, j - i);
      PowNonzero(K, w, i);
      Laws1(K, K.Pow(w, i));
      if K.Pow(w, i) == K.Pow(w, j) {
        MulCancel(K, K.Pow(w, i), K.Pow(w, j - i), K.one);
      }
    }
  }

  lemma PowOfRoot<T(!new)>(K: Field<T>, w: T, n: nat, i: nat)
    requires IsField(K) && HasOrder(K, w, n)
    ensures K.Pow(K.Pow(w, i), n) == K.one
  {
    PowPow(K, w, i, n);
    PowPow(K, w, n, i);
    assert i * n == n * i;
    PowOne(K, i);
  }

  /** `X^n - 1`, as coefficients. */
  function UnitPolynomial<T>(K: Field<T>, n: nat): seq<T>
    requires n > 0
  {
    [K.neg(K.one)] + Monomial(K, n - 1)
  }

  function Monomial<T>(K: Field<T>, n: nat): (c: seq<T>)
    ensures |c| == n + 1
  {
    if n == 0 then [K.one] else [K.zero] + Monomial(K, n - 1)
  }

  lemma {:induction false} EvalMonomial<T(!new)>(K: Field<T>, n: nat, x: T)
    requires IsField(K)
    ensures FieldSpace(K).Eval(Monomial(K, n), x) == K.Pow(x, n)
  {
    if n == 0 {
      MulZero(K, x);
      Laws1(K, K.one);
    } else {
      assert Monomial(K, n)[1..] == Monomial(K, n - 1);
      EvalMonomial(K, n - 1, x);
      Laws1(K, K.Pow(x, n));
    }
  }

  /** The domain is exactly the set of solutions of `x^n == 1`. */
  lemma RootsComplete<T(!new)>(K: Field<T>, w: T, n: nat, x: T)
    requires IsField(K) && HasOrder(K, w, n)
    ensures x in Powers(K, w, n) <==> K.Pow(x, n) == K.one
  {
    var roots, S, c := Powers(K, w, n), FieldSpace(K), UnitPolynomial(K, n);
    RootsDistinct(K, w, n);
    if x in roots {
      var i :| 0 <= i < n && roots[i] == x;
      PowOfRoot(K, w, n, i);
    } else if K.Pow(x, n) == K.one {
      var xs := roots + [x];
      forall i | 0 <= i < |xs|
        ensures S.Eval(c, xs[i]) == S.zero
      {
        if i < n {
          PowOfRoot(K, w, n, i);
        }
        assert c[1..] == Monomial(K, n - 1);
        EvalMonomial(K, n - 1, xs[i]);
        Laws1(K, K.one);
      }
      FieldIsSpace(K);
      RootBound(K, S, c, xs);
      assert c[0] == S.zero;
      Laws1(K, K.one);
      Laws1(K, K.zero);
    }
  }
}

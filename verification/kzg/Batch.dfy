/** Batched verification of KZG openings by a random linear combination. */
module Batch {
  import opened Prelude
  import opened Fields
  import opened Spaces
  import opened RootsOfUnity
  import opened Barycentric
  import opened Transcript

  /** The pairing groups as spaces over the scalar field, their generators, and the point of the trusted setup. */
  datatype Pairing<!T, !G1, !G2, !GT> = Pairing(
    s1: Space<T, G1>,
    s2: Space<T, G2>,
    st: Space<T, GT>,
    g1: G1,
    g2: G2,
    e: (G1, G2) -> GT,
    tau: T)
  {
    function G2Tau(): G2 {
      s2.scale(tau, g2)
    }
  }

  ghost predicate AtPair<G1, G2>(a: G1, b: G2) { true }
  ghost predicate AtPairSum<G1, G2>(a: G1, b: G1, c: G2) { true }
  ghost predicate AtPairScale<T, G1, G2>(k: T, a: G1, b: G2) { true }

  /** Bilinear, and non-degenerate on the generator of G2. */
  ghost predicate IsPairing<T(!new), G1(!new), G2(!new), GT(!new)>(K: Field<T>, E: Pairing<T, G1, G2, GT>) {
    && IsSpace(K, E.s1) && IsSpace(K, E.s2) && IsSpace(K, E.st)
    && (forall a, b, c {:trigger AtPairSum(a, b, c)} ::
          E.e(E.s1.add(a, b), c) == E.st.add(E.e(a, c), E.e(b, c)))
    && (forall k, a, b {:trigger AtPairScale(k, a, b)} ::
          && E.e(E.s1.scale(k, a), b) == E.st.scale(k, E.e(a, b))
          && E.e(a, E.s2.scale(k, b)) == E.st.scale(k, E.e(a, b)))
    && (forall a {:trigger AtPair(a, E.g2)} :: E.e(a, E.g2) == E.st.zero ==> a == E.s1.zero)
  }

  lemma PairSum<T(!new), G1(!new), G2(!new), GT(!new)>(
      K: Field<T>, E: Pairing<T, G1, G2, GT>, a: G1, b: G1, c: G2)
    requires IsPairing(K, E)
    ensures E.e(E.s1.add(a, b), c) == E.st.add(E.e(a, c), E.e(b, c))
  {
    assert AtPairSum(a, b, c);
  }

  lemma PairScale<T(!new), G1(!new), G2(!new), GT(!new)>(
      K: Field<T>, E: Pairing<T, G1, G2, GT>, k: T, a: G1, b: G2)
    requires IsPairing(K, E)
    ensures E.e(E.s1.scale(k, a), b) == E.st.scale(k, E.e(a, b))
    ensures E.e(a, E.s2.scale(k, b)) == E.st.scale(k, E.e(a, b))
  {
    assert AtPairScale(k, a, b);
  }

  lemma PairZero<T(!new), G1(!new), G2(!new), GT(!new)>(K: Field<T>, E: Pairing<T, G1, G2, GT>, b: G2)
    requires IsField(K) && IsPairing(K, E)
    ensures E.e(E.s1.zero, b) == E.st.zero
  {
    ScaleZero(K, E.s1, K.zero, E.s1.zero);
    ScaleZero(K, E.st, K.zero, E.e(E.s1.zero, b));
    PairScale(K, E, K.zero, E.s1.zero, b);
  }

  lemma PairNeg<T(!new), G1(!new), G2(!new), GT(!new)>(K: Field<T>, E: Pairing<T, G1, G2, GT>, a: G1, b: G2)
    requires IsField(K) && IsPairing(K, E)
    ensures E.e(E.s1.neg(a), b) == E.st.neg(E.e(a, b))
  {
    PairSum(K, E, a, E.s1.neg(a), b);
    Group1(K, E.s1, a);
    PairZero(K, E, b);
    Group1(K, E.st, E.e(a, b));
    Cancel(K, E.st, E.e(a, b), E.e(E.s1.neg(a), b), E.st.neg(E.e(a, b)));
  }

  // Single openings

  /** `C - [y] + z * proof`. */
  function Shifted<T, G1, G2, GT>(E: Pairing<T, G1, G2, GT>, c: Claim<T, G1>): G1 {
    E.s1.add(E.s1.Sub(c.commitment, E.s1.scale(c.y, E.g1)), E.s1.scale(c.z, c.proof))
  }

  /** `e(proof, [tau])` against `e(C - [y] + z * proof, [1])`. */
  function Residual<T, G1, G2, GT>(E: Pairing<T, G1, G2, GT>, c: Claim<T, G1>): GT {
    E.st.Sub(E.e(c.proof, E.G2Tau()), E.e(Shifted(E, c), E.g2))
  }

  function Residuals<T, G1, G2, GT>(E: Pairing<T, G1, G2, GT>, claims: seq<Claim<T, G1>>): (s: seq<GT>)
    ensures |s| == |claims|
  {
    seq(|claims|, i requires 0 <= i < |claims| => Residual(E, claims[i]))
  }

  ghost predicate Opens<T, G1, G2, GT>(E: Pairing<T, G1, G2, GT>, c: Claim<T, G1>) {
    Residual(E, c) == E.st.zero
  }

  /** The pairing equation of one claim says `C - [y] == (tau - z) * proof` in G1. */
  lemma OpensInG1<T(!new), G1(!new), G2(!new), GT(!new)>(K: Field<T>, E: Pairing<T, G1, G2, GT>, c: Claim<T, G1>)
    requires IsField(K) && IsPairing(K, E)
    ensures Opens(E, c)
            <==> E.s1.Sub(c.commitment, E.s1.scale(c.y, E.g1)) == E.s1.scale(K.Sub(E.tau, c.z), c.proof)
  {
    var S := E.s1;
    var d, tp, zp := S.Sub(c.commitment, S.scale(c.y, E.g1)), S.scale(E.tau, c.proof), S.scale(c.z, c.proof);
    PairScale(K, E, E.tau, c.proof, E.g2);
    // e(tau * proof - shifted, g2) is the residual
    PairNeg(K, E, Shifted(E, c), E.g2);
    PairSum(K, E, tp, S.neg(Shifted(E, c)), E.g2);
    assert AtPair(S.Sub(tp, Shifted(E, c)), E.g2);
    PairZero(K, E, E.g2);
    SubZero(K, S, tp, Shifted(E, c));
    // tau * proof == (tau - z) * proof + z * proof
    SubLaws(K, E.tau, c.z);
    Scalars(K, S, K.Sub(E.tau, c.z), c.z, c.proof);
    var q := S.scale(K.Sub(E.tau, c.z), c.proof);
    if S.add(d, zp) == S.add(q, zp) {
      Group3(K, S, zp, d, d);
      Group3(K, S, zp, q, q);
      Group3(K, S, d, zp, zp);
      Group3(K, S, q, zp, zp);
      Cancel(K, S, zp, d, q);
    }
  }

  /** An honest prover's claim opens: the commitment is `[p(tau)]`, the value `p(z)`, and the
      proof `[q(tau)]` for the quotient `q` of `p` by `X - z`. */
  lemma HonestClaimOpens<T(!new), G1(!new), G2(!new), GT(!new)>(
      K: Field<T>, E: Pairing<T, G1, G2, GT>, p: seq<T>, z: T)
    requires IsField(K) && IsPairing(K, E)
    ensures var q := Quotient(FieldSpace(K), p, z);
            Opens(E, Claim(E.s1.scale(Eval(K, p, E.tau), E.g1), z, Eval(K, p, z), E.s1.scale(Eval(K, q, E.tau), E.g1)))
  {
    var S, q := E.s1, Quotient(FieldSpace(K), p, z);
    var py, qt, d := Eval(K, p, z), Eval(K, q, E.tau), K.Sub(E.tau, z);
    FieldIsSpace(K);
    Division(K, FieldSpace(K), p, z, E.tau);
    Scalars(K, S, py, K.mul(d, qt), E.g1);
    Scalars(K, S, d, qt, E.g1);
    var a, b := S.scale(py, E.g1), S.scale(d, S.scale(qt, E.g1));
    // (a + b) - a == b
    Group3(K, S, a, b, S.neg(a));
    Group3(K, S, b, a, S.neg(a));
    Group1(K, S, a);
    Group1(K, S, b);
    OpensInG1(K, E, Claim(E.s1.scale(Eval(K, p, E.tau), E.g1), z, py, S.scale(qt, E.g1)));
  }

  /** Multiplying by a nonzero scalar can be undone. */
  lemma ScaleInverse<T(!new), V(!new)>(K: Field<T>, S: Space<T, V>, d: T, inv: T, v: V, w: V)
    requires IsField(K) && IsSpace(K, S) && K.mul(d, inv) == K.one
    ensures v == S.scale(d, w) <==> S.scale(inv, v) == w
  {
    hide IsField, IsSpace;
    Laws2(K, d, inv);
    Scalars(K, S, inv, d, w);
    Scalars(K, S, d, inv, v);
    Group1(K, S, v);
    Group1(K, S, w);
  }

  /** `[p(tau)] - [y]`, divided by `tau - z`. */
  lemma QuotientInG1<T(!new), V(!new)>(K: Field<T>, S: Space<T, V>, p: seq<T>, tau: T, z: T, y: T, inv: T, g: V)
    requires IsField(K) && IsSpace(K, S) && K.mul(K.Sub(tau, z), inv) == K.one
    ensures S.scale(inv, S.Sub(S.scale(Eval(K, p, tau), g), S.scale(y, g)))
            == S.add(S.scale(K.mul(inv, K.Sub(Eval(K, p, z), y)), g),
                     S.scale(Eval(K, Quotient(FieldSpace(K), p, z), tau), g))
  {
    hide IsField, IsSpace, Quotient, Space.Eval;
    var d, at, q := K.Sub(tau, z), Eval(K, p, z), Eval(K, Quotient(FieldSpace(K), p, z), tau);
    var s := K.Sub(Eval(K, p, tau), y);
    FieldIsSpace(K);
    Division(K, FieldSpace(K), p, z, tau);
    // s == (at - y) + d * q
    Laws2(K, at, K.mul(d, q));
    Laws3(K, K.mul(d, q), at, K.neg(y));
    Laws2(K, K.mul(d, q), K.Sub(at, y));
    // inv * s == inv * (at - y) + q
    Laws3(K, inv, K.Sub(at, y), K.mul(d, q));
    Laws3(K, inv, d, q);
    Laws2(K, inv, d);
    Laws1(K, q);
    // the same in the group
    ScaleNeg(K, S, y, g);
    Scalars(K, S, Eval(K, p, tau), K.neg(y), g);
    Scalars(K, S, inv, s, g);
    Scalars(K, S, K.mul(inv, K.Sub(at, y)), q, g);
  }

  /** The one proof that opens the commitment `[p(tau)]` to `y` at `z`. Beside the honest quotient it contains
      `[(p(z) - y) / (tau - z)]`, which vanishes only for the true value. */
  function OpeningProof<T, G1, G2, GT>(K: Field<T>, E: Pairing<T, G1, G2, GT>, p: seq<T>, z: T, y: T): G1
    requires K.inverse(K.Sub(E.tau, z)).Some?
  {
    E.s1.add(
      E.s1.scale(K.mul(K.inverse(K.Sub(E.tau, z)).value, K.Sub(Eval(K, p, z), y)), E.g1),
      E.s1.scale(Eval(K, Quotient(FieldSpace(K), p, z), E.tau), E.g1))
  }

  /** Away from the secret point, a claim about a committed polynomial opens with exactly one proof. */
  lemma OpensExactly<T(!new), G1(!new), G2(!new), GT(!new)>(
      K: Field<T>, E: Pairing<T, G1, G2, GT>, p: seq<T>, z: T, y: T, proof: G1)
    requires IsField(K) && IsPairing(K, E) && K.inverse(K.Sub(E.tau, z)).Some?
    ensures Opens(E, Claim(E.s1.scale(Eval(K, p, E.tau), E.g1), z, y, proof))
            <==> proof == OpeningProof(K, E, p, z, y)
  {
    var d, c := K.Sub(E.tau, z), E.s1.scale(Eval(K, p, E.tau), E.g1);
    OpensInG1(K, E, Claim(c, z, y, proof));
    assert IsSpace(K, E.s1);
    hide IsField, IsPairing, IsSpace, Quotient, Space.Eval, Opens;
    var inv := K.inverse(d).value;
    Laws1(K, d);
    QuotientInG1(K, E.s1, p, E.tau, z, y, inv, E.g1);
    ScaleInverse(K, E.s1, d, inv, E.s1.Sub(c, E.s1.scale(y, E.g1)), proof);
  }

  // Linear combinations

  /** `sum of scalars[i] * points[i]`. */
  function Lincomb<T, V>(S: Space<T, V>, points: seq<V>, scalars: seq<T>): V
    requires |points| == |scalars|
  {
    if points == [] then S.zero
    else S.add(S.scale(scalars[0], points[0]), Lincomb(S, points[1..], scalars[1..]))
  }

  function G1Lincomb<T, V>(S: Space<T, V>, points: seq<V>, scalars: seq<T>): (r: Result<V, KzgError>)
    ensures r.Success? <==> |points| == |scalars|
    ensures r.Success? ==> r.value == Lincomb(S, points, scalars)
  {
    if |points| != |scalars| then
      Failure(GenericError("g1_lincomb: points and scalars have mismatched lengths"))
    else
      Success(Lincomb(S, points, scalars))
  }

  function ScaledPowers<T>(K: Field<T>, a: T, r: T, n: nat): (s: seq<T>)
    ensures |s| == n
  {
    seq(n, i requires 0 <= i < n => K.mul(a, K.Pow(r, i)))
  }

  /** Combining with the powers of `r` evaluates the polynomial whose coefficients are the points. */
  lemma {:induction false} LincombScaled<T(!new), V(!new)>(K: Field<T>, S: Space<T, V>, points: seq<V>, a: T, r: T)
    requires IsField(K) && IsSpace(K, S)
    ensures Lincomb(S, points, ScaledPowers(K, a, r, |points|)) == S.scale(a, S.Eval(points, r))
  {
    var n := |points|;
    if n == 0 {
      ScaleZero(K, S, a, S.zero);
    } else {
      var tail := points[1..];
      forall i | 0 <= i < n - 1
        ensures K.mul(a, K.Pow(r, i + 1)) == K.mul(K.mul(a, r), K.Pow(r, i))
      {
        Laws3(K, a, r, K.Pow(r, i));
      }
      assert ScaledPowers(K, a, r, n)[0] == K.mul(a, K.Pow(r, 0));
      assert ScaledPowers(K, a, r, n)[1..] == ScaledPowers(K, K.mul(a, r), r, n - 1);
      LincombScaled(K, S, tail, K.mul(a, r), r);
      Laws1(K, a);
      Scalars(K, S, a, r, S.Eval(tail, r));
      ScaleAdd(K, S, a, points[0], S.scale(r, S.Eval(tail, r)));
    }
  }

  lemma LincombPowers<T(!new), V(!new)>(K: Field<T>, S: Space<T, V>, points: seq<V>, r: T)
    requires IsField(K) && IsSpace(K, S)
    ensures Lincomb(S, points, Powers(K, r, |points|)) == S.Eval(points, r)
  {
    var n := |points|;
    forall i | 0 <= i < n
      ensures K.mul(K.one, K.Pow(r, i)) == K.Pow(r, i)
    {
      Laws1(K, K.Pow(r, i));
    }
    assert Powers(K, r, n) == ScaledPowers(K, K.one, r, n);
    LincombScaled(K, S, points, K.one, r);
    Group1(K, S, S.Eval(points, r));
  }

  /** A factor may move from the scalar to the point. */
  lemma {:induction false} LincombMoves<T(!new), V(!new)>(
      K: Field<T>, S: Space<T, V>, points: seq<V>, moved: seq<V>, scalars: seq<T>, factors: seq<T>, products: seq<T>)
    requires IsField(K) && IsSpace(K, S)
    requires |points| == |moved| == |scalars| == |factors| == |products|
    requires forall i :: 0 <= i < |points| ==>
               products[i] == K.mul(scalars[i], factors[i]) && moved[i] == S.scale(factors[i], points[i])
    ensures Lincomb(S, points, products) == Lincomb(S, moved, scalars)
  {
    if points != [] {
      Scalars(K, S, scalars[0], factors[0], points[0]);
      LincombMoves(K, S, points[1..], moved[1..], scalars[1..], factors[1..], products[1..]);
    }
  }

  /** The pairing passes through polynomial evaluation. */
  lemma {:induction false} PairEval<T(!new), G1(!new), G2(!new), GT(!new)>(
      K: Field<T>, E: Pairing<T, G1, G2, GT>, points: seq<G1>, values: seq<GT>, b: G2, r: T)
    requires IsField(K) && IsPairing(K, E)
    requires |points| == |values| && forall i :: 0 <= i < |points| ==> values[i] == E.e(points[i], b)
    ensures E.e(E.s1.Eval(points, r), b) == E.st.Eval(values, r)
  {
    if points == [] {
      PairZero(K, E, b);
    } else {
      var rest := E.s1.Eval(points[1..], r);
      PairEval(K, E, points[1..], values[1..], b, r);
      PairSum(K, E, points[0], E.s1.scale(r, rest), b);
      PairScale(K, E, r, rest, b);
    }
  }

  // The batch

  function Proofs<T, G1>(claims: seq<Claim<T, G1>>): (s: seq<G1>)
    ensures |s| == |claims|
  {
    seq(|claims|, i requires 0 <= i < |claims| => claims[i].proof)
  }

  /** The batch compares `e(sum r^i proof_i, [tau])` with `e(sum r^i shifted_i, [1])`: the difference
      is the polynomial in `r` whose coefficients are the residuals of the claims. */
  lemma BatchResidual<T(!new), G1(!new), G2(!new), GT(!new)>(
      K: Field<T>, E: Pairing<T, G1, G2, GT>, claims: seq<Claim<T, G1>>, shifted: seq<G1>, r: T)
    requires IsField(K) && IsPairing(K, E)
    requires |shifted| == |claims| && forall i :: 0 <= i < |claims| ==> shifted[i] == Shifted(E, claims[i])
    ensures E.st.add(E.e(E.s1.Eval(Proofs(claims), r), E.G2Tau()), E.e(E.s1.neg(E.s1.Eval(shifted, r)), E.g2))
            == E.st.Eval(Residuals(E, claims), r)
  {
    var n := |claims|;
    var left := seq(n, i requires 0 <= i < n => E.e(claims[i].proof, E.G2Tau()));
    var right := seq(n, i requires 0 <= i < n => E.st.neg(E.e(shifted[i], E.g2)));
    var negated := ScaleSeq(E.s1, K.neg(K.one), shifted);
    PairEval(K, E, Proofs(claims), left, E.G2Tau(), r);
    EvalScale(K, E.s1, K.neg(K.one), shifted, r);
    NegIsScale(K, E.s1, E.s1.Eval(shifted, r));
    forall i | 0 <= i < n
      ensures right[i] == E.e(negated[i], E.g2)
    {
      NegIsScale(K, E.s1, shifted[i]);
      PairNeg(K, E, shifted[i], E.g2);
    }
    PairEval(K, E, negated, right, E.g2, r);
    EvalAdd(K, E.st, left, right, r);
    assert AddSeq(E.st, left, right) == Residuals(E, claims);
  }

  lemma NegIsScale<T(!new), V(!new)>(K: Field<T>, S: Space<T, V>, v: V)
    requires IsField(K) && IsSpace(K, S)
    ensures S.scale(K.neg(K.one), v) == S.neg(v)
  {
    ScaleNeg(K, S, K.one, v);
    Group1(K, S, v);
  }

  /** The batched check, at challenge `r`. */
  ghost predicate BatchAccepts<T, G1, G2, GT>(E: Pairing<T, G1, G2, GT>, claims: seq<Claim<T, G1>>, r: T) {
    E.st.Eval(Residuals(E, claims), r) == E.st.zero
  }

  /** If every claim opens, every challenge accepts. */
  lemma BatchComplete<T(!new), G1(!new), G2(!new), GT(!new)>(
      K: Field<T>, E: Pairing<T, G1, G2, GT>, claims: seq<Claim<T, G1>>, r: T)
    requires IsField(K) && IsPairing(K, E)
    requires forall i :: 0 <= i < |claims| ==> Opens(E, claims[i])
    ensures BatchAccepts(E, claims, r)
  {
    assert AllZero(E.st, Residuals(E, claims));
    EvalZero(K, E.st, Residuals(E, claims), r);
  }

  /** If some claim does not open, fewer challenges accept than there are claims. */
  lemma BatchSound<T(!new), G1(!new), G2(!new), GT(!new)>(
      K: Field<T>, E: Pairing<T, G1, G2, GT>, claims: seq<Claim<T, G1>>, bad: nat, rs: seq<T>)
    requires IsField(K) && IsPairing(K, E)
    requires bad < |claims| && !Opens(E, claims[bad])
    requires Distinct(rs) && forall i :: 0 <= i < |rs| ==> BatchAccepts(E, claims, rs[i])
    ensures |rs| < |claims|
  {
    var d := Residuals(E, claims);
    if |rs| >= |claims| {
      forall i | 0 <= i < |rs|
        ensures E.st.Eval(d, rs[i]) == E.st.zero
      {
        assert BatchAccepts(E, claims, rs[i]);
      }
      assert d[bad] != E.st.zero;
      RootBound(K, E.st, d, rs);
    }
  }
}

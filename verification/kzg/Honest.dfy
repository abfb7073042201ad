/** What the prover writes, and when the verifier accepts it: exactly when no point of the batch is the identity. */
module Honest {
  import opened Prelude
  import opened Bytes
  import opened Fields
  import opened Spaces
  import opened RootsOfUnity
  import opened Barycentric
  import opened ScalarField
  import opened Transcript
  import opened Batch
  import opened BatchVerifier
  import opened Binding

  /** Coordinates are a bijection between the group and the curve, which takes the identity to infinity. */
  ghost predicate IsCurveGroup<G1(!new), G2, GT>(E: Pairing<Residue, G1, G2, GT>, O: Oracle<G1>) {
    && (forall g :: OnCurve(O.affine(g)) && O.point(O.affine(g)) == g)
    && (forall a :: OnCurve(a) ==> O.affine(O.point(a)) == a)
    && O.affine(E.s1.zero) == Infinity
  }

  // Writing points

  /** Infinity has no coordinates of its own; zeros are written. */
  function Coordinates(a: AffineG1): (nat, nat) {
    match a
    case Infinity => (0, 0)
    case Affine(x, y) => (x, y)
  }

  function WriteCommitment(a: AffineG1): Commitment.G1Point {
    hide Pow256;
    FieldFits();
    Commitment.G1Point(Coordinates(a).0, Coordinates(a).1)
  }

  /** Both coordinates, 32 bytes big-endian each. */
  function WriteProof(a: AffineG1): KzgProof {
    ToBytesBE(Coordinates(a).0, 32) + ToBytesBE(Coordinates(a).1, 32)
  }

  lemma FieldFits()
    ensures FQ_MODULUS < Pow256(32)
  {
    FieldBounds();
  }

  /** Coordinates are read back to the point they were written for, but for infinity, whose zeros are not on the
      curve. */
  lemma CoordinatesRead(a: AffineG1)
    requires OnCurve(a)
    ensures AffineFrom(Coordinates(a).0, Coordinates(a).1)
            == if a.Infinity? then Failure(NotOnCurveError) else Success(a)
  {
    hide OnCurve;
    OriginOff();
  }

  lemma OriginOff()
    ensures !OnCurve(Affine(0, 0))
  {
    assert Reduce(0, FQ_MODULUS) == 0 && Reduce(3, FQ_MODULUS) == 3;
  }

  lemma WrittenRead(a: AffineG1)
    requires OnCurve(a)
    ensures G1PointToAffine(WriteCommitment(a)) == if a.Infinity? then Failure(NotOnCurveError) else Success(a)
    ensures ProofBytesToAffine(WriteProof(a)) == if a.Infinity? then Failure(NotOnCurveError) else Success(a)
  {
    hide AffineFrom, OnCurve, Pow256, ToBytesBE, FromBytesBE;
    CoordinatesRead(a);
    FieldFits();
    var (x, y) := Coordinates(a);
    FromToBytes(x, 32);
    FromToBytes(y, 32);
    assert WriteProof(a)[..32] == ToBytesBE(x, 32) && WriteProof(a)[32..] == ToBytesBE(y, 32);
  }

  // The prover

  /** `[p(tau)]` for the polynomial of the blob. */
  ghost function HonestCommitment<G1, G2, GT>(
      P: Setup<Residue>, E: Pairing<Residue, G1, G2, GT>, blob: seq<byte>): G1
    requires IsSetup(P) && Parsable(blob) && blob != []
  {
    E.s1.scale(Eval(P.K, BlobCoefficients(P, blob), E.tau), E.g1)
  }

  /** `[q(tau)]` for the quotient at the blob's Fiat-Shamir point. */
  ghost function HonestProof<G1, G2, GT>(
      P: Setup<Residue>, E: Pairing<Residue, G1, G2, GT>, O: Oracle<G1>, blob: seq<byte>): G1
    requires IsSetup(P) && Parsable(blob) && blob != []
  {
    var z := BlobPoint(P, O, blob, HonestCommitment(P, E, blob)).0;
    E.s1.scale(Eval(P.K, Quotient(FieldSpace(P.K), BlobCoefficients(P, blob), z), E.tau), E.g1)
  }

  /** If the blob is one the verifier can read at all, commitment and proof are what the prover writes for it. */
  ghost predicate HonestEntry<G1, G2, GT>(
      P: Setup<Residue>, E: Pairing<Residue, G1, G2, GT>, O: Oracle<G1>,
      blob: seq<byte>, commitment: Commitment.G1Point, proof: KzgProof)
    requires IsSetup(P)
  {
    Parsable(blob) && blob != [] ==>
      && commitment == WriteCommitment(O.affine(HonestCommitment(P, E, blob)))
      && proof == WriteProof(O.affine(HonestProof(P, E, O, blob)))
  }

  /** The blob can be read, and neither of its points is the identity. */
  ghost predicate Provable<G1, G2, GT>(
      P: Setup<Residue>, E: Pairing<Residue, G1, G2, GT>, O: Oracle<G1>, blob: seq<byte>)
    requires IsSetup(P)
  {
    && Parsable(blob) && blob != []
    && HonestCommitment(P, E, blob) != E.s1.zero && HonestProof(P, E, O, blob) != E.s1.zero
  }

  lemma IdentityIsInfinity<G1(!new), G2(!new), GT(!new)>(E: Pairing<Residue, G1, G2, GT>, O: Oracle<G1>, g: G1)
    requires IsCurveGroup(E, O)
    ensures OnCurve(O.affine(g)) && O.point(O.affine(g)) == g
    ensures O.affine(g) == Infinity <==> g == E.s1.zero
  {
    hide OnCurve;
    assert O.point(O.affine(E.s1.zero)) == E.s1.zero;
  }

  /** What is read back from one honest entry. */
  lemma EntryRead<G1(!new), G2(!new), GT(!new)>(
      P: Setup<Residue>, E: Pairing<Residue, G1, G2, GT>, O: Oracle<G1>,
      blob: seq<byte>, commitment: Commitment.G1Point, proof: KzgProof)
    requires IsSetup(P) && IsCurveGroup(E, O) && Parsable(blob) && blob != []
    requires HonestEntry(P, E, O, blob, commitment, proof)
    ensures var c, p := G1PointToAffine(commitment), ProofBytesToAffine(proof);
            && (c.Success? <==> HonestCommitment(P, E, blob) != E.s1.zero)
            && (c.Success? ==> O.point(c.value) == HonestCommitment(P, E, blob))
            && (p.Success? <==> HonestProof(P, E, O, blob) != E.s1.zero)
            && (p.Success? ==> O.point(p.value) == HonestProof(P, E, O, blob))
  {
    hide IsSetup, IsCurveGroup, Parsable, HonestCommitment, HonestProof, WriteCommitment, WriteProof, OnCurve;
    hide G1PointToAffine, ProofBytesToAffine;
    var c, p := HonestCommitment(P, E, blob), HonestProof(P, E, O, blob);
    IdentityIsInfinity(E, O, c);
    IdentityIsInfinity(E, O, p);
    WrittenRead(O.affine(c));
    WrittenRead(O.affine(p));
  }

  /** An honest batch is accepted if and only if every blob can be read and no commitment and no proof of it is the
      identity, which has no coordinates that the verifier reads. */
  lemma HonestVerdict<G1(!new), G2(!new), GT(!new)>(
      P: Setup<Residue>, E: Pairing<Residue, G1, G2, GT>, O: Oracle<G1>, blobs: seq<seq<byte>>,
      commitments: seq<Commitment.G1Point>, proofs: seq<KzgProof>)
    requires IsSetup(P) && IsPairing(P.K, E) && IsCurveGroup(E, O)
    requires |blobs| == |commitments| == |proofs|
    requires forall i :: 0 <= i < |blobs| ==> HonestEntry(P, E, O, blobs[i], commitments[i], proofs[i])
    ensures Accepted(P, E, O, blobs, commitments, proofs)
            <==> forall i :: 0 <= i < |blobs| ==> Provable(P, E, O, blobs[i])
  {
    hide IsPairing, IsField, HasOrder, IsCurveGroup, Parsable, HonestEntry, HonestCommitment, HonestProof;
    hide G1PointToAffine, ProofBytesToAffine, BlobCoefficients, BlobPoint, BatchAccepts, BatchChallenge;
    forall i | 0 <= i < |blobs| && Parsable(blobs[i]) && blobs[i] != []
      ensures Provable(P, E, O, blobs[i])
              <==> G1PointToAffine(commitments[i]).Success? && ProofBytesToAffine(proofs[i]).Success?
    {
      EntryRead(P, E, O, blobs[i], commitments[i], proofs[i]);
    }
    if forall i :: 0 <= i < |blobs| ==> Provable(P, E, O, blobs[i]) {
      assert WellFormed(blobs, commitments, proofs);
      HonestAccepted(P, E, O, blobs, commitments, proofs);
    }
  }

  lemma HonestAccepted<G1(!new), G2(!new), GT(!new)>(
      P: Setup<Residue>, E: Pairing<Residue, G1, G2, GT>, O: Oracle<G1>, blobs: seq<seq<byte>>,
      commitments: seq<Commitment.G1Point>, proofs: seq<KzgProof>)
    requires IsSetup(P) && IsPairing(P.K, E) && IsCurveGroup(E, O) && WellFormed(blobs, commitments, proofs)
    requires forall i :: 0 <= i < |blobs| ==> HonestEntry(P, E, O, blobs[i], commitments[i], proofs[i])
    ensures Accepted(P, E, O, blobs, commitments, proofs)
  {
    hide IsPairing, IsField, HasOrder, IsCurveGroup, Parsable, HonestEntry, BlobCoefficients, BatchAccepts;
    hide G1PointToAffine, ProofBytesToAffine, BlobPoint, BatchChallenge;
    var cs, ps := Points(O, G1PointToAffine, commitments), Points(O, ProofBytesToAffine, proofs);
    forall i | 0 <= i < |blobs|
      ensures cs[i] == HonestCommitment(P, E, blobs[i]) && ps[i] == HonestProof(P, E, O, blobs[i])
    {
      EntryRead(P, E, O, blobs[i], commitments[i], proofs[i]);
    }
    var claims := BlobClaims(P, O, blobs, cs, ps);
    HonestBatchAccepted(P, E, O, blobs, cs, ps, BatchChallenge(O, claims, PaddedLengths(blobs)));
  }

  // Blobs that are never accepted

  /** `a + 0*x + 0*x^2 + ...`. */
  function Constant(K: Field<Residue>, a: Residue, n: nat): (c: seq<Residue>)
    requires n > 0
    ensures |c| == n
  {
    [a] + seq(n - 1, _ => K.zero)
  }

  lemma EvalConstant(K: Field<Residue>, a: Residue, n: nat, x: Residue)
    requires IsField(K) && n > 0
    ensures Eval(K, Constant(K, a, n), x) == a
  {
    hide IsField;
    var zeros := seq(n - 1, _ => K.zero);
    assert Constant(K, a, n)[1..] == zeros;
    FieldIsSpace(K);
    EvalZero(K, FieldSpace(K), zeros, x);
    MulZero(K, x);
    Laws1(K, a);
  }

  lemma {:induction false} QuotientOfConstant(K: Field<Residue>, c: seq<Residue>, z: Residue)
    requires IsField(K) && forall i :: 1 <= i < |c| ==> c[i] == K.zero
    ensures AllZero(FieldSpace(K), Quotient(FieldSpace(K), c, z))
  {
    hide IsField, Space.Eval;
    if |c| > 1 {
      FieldIsSpace(K);
      EvalZero(K, FieldSpace(K), c[1..], z);
      QuotientOfConstant(K, c[1..], z);
      var q := Quotient(FieldSpace(K), c, z);
      assert q[1..] == Quotient(FieldSpace(K), c[1..], z);
      assert forall i :: 1 <= i < |q| ==> q[i] == q[1..][i - 1];
    }
  }

  /** All evaluations of the blob, with those it is padded with, are `a`. */
  ghost predicate AllAre(K: Field<Residue>, blob: seq<byte>, a: Residue)
    requires Parsable(blob)
  {
    forall i :: 0 <= i < |BlobPolynomial(K, blob).evaluations| ==> BlobPolynomial(K, blob).evaluations[i] == a
  }

  lemma ConstantCoefficients(P: Setup<Residue>, blob: seq<byte>, a: Residue)
    requires IsSetup(P) && Parsable(blob) && blob != [] && AllAre(P.K, blob, a)
    ensures BlobCoefficients(P, blob) == Constant(P.K, a, |BlobCoefficients(P, blob)|)
  {
    hide IsField, HasOrder, LagrangeSum, Eval, BlobPolynomial, DomainRoot, NextPowerOfTwo, Constant;
    var poly := BlobPolynomial(P.K, blob);
    BlobEvaluable(P.K, blob);
    DomainRootOrder(P, poly);
    var w, n := DomainRoot(P, poly), |poly.evaluations|;
    var c := Constant(P.K, a, n);
    forall i | 0 <= i < n
      ensures Eval(P.K, c, P.K.Pow(w, i)) == poly.evaluations[i]
    {
      EvalConstant(P.K, a, n, P.K.Pow(w, i));
    }
    InterpolantCorrect(P.K, w, poly.evaluations, c);
  }

  /** The honest proof of a blob with one value throughout is the identity, and if the value is zero so is the
      commitment: honest batches with such a blob are refused. */
  lemma ConstantBlobHasIdentity<G1(!new), G2(!new), GT(!new)>(
      P: Setup<Residue>, E: Pairing<Residue, G1, G2, GT>, O: Oracle<G1>, blob: seq<byte>, a: Residue)
    requires IsSetup(P) && IsPairing(P.K, E) && Parsable(blob) && blob != [] && AllAre(P.K, blob, a)
    ensures HonestProof(P, E, O, blob) == E.s1.zero
    ensures a == P.K.zero ==> HonestCommitment(P, E, blob) == E.s1.zero
  {
    PairingSpaces(P.K, E);
    hide IsField, HasOrder, IsPairing, IsSpace, AllAre, BlobCoefficients, BlobPoint, Parsable, Space.Eval;
    var K, p := P.K, BlobCoefficients(P, blob);
    var z := BlobPoint(P, O, blob, HonestCommitment(P, E, blob)).0;
    var q := Quotient(FieldSpace(K), p, z);
    ConstantCoefficients(P, blob, a);
    FieldIsSpace(K);
    QuotientOfConstant(K, p, z);
    EvalZero(K, FieldSpace(K), q, E.tau);
    ScaleZero(K, E.s1, K.zero, E.g1);
    EvalConstant(K, a, |p|, E.tau);
  }

  lemma OneElement(K: Field<Residue>, blob: seq<byte>)
    requires Parsable(blob) && |blob| == 32
    ensures AllAre(K, blob, BlobData(blob)[0]) && |BlobPolynomial(K, blob).evaluations| == 1
  {
    hide NextPowerOfTwo, Flatten, Chunks;
    BlobLength(K, blob);
    PolynomialLength(K, blob);
    assert NextPowerOfTwo(1) == 1;
  }

  /** The failing input: a blob of one field element. Against the commitment to it the verifier accepts no proof at
      all, since the only one that opens is the identity. */
  lemma OneElementRefused<G1(!new), G2(!new), GT(!new)>(
      P: Setup<Residue>, E: Pairing<Residue, G1, G2, GT>, O: Oracle<G1>,
      blob: seq<byte>, commitment: Commitment.G1Point, proof: KzgProof)
    requires IsSetup(P) && IsPairing(P.K, E) && IsCurveGroup(E, O) && Parsable(blob) && |blob| == 32
    requires G1PointToAffine(commitment).Success?
             && O.point(G1PointToAffine(commitment).value) == HonestCommitment(P, E, blob)
    requires BlobPoint(P, O, blob, HonestCommitment(P, E, blob)).0 != E.tau
    ensures !Accepted(P, E, O, [blob], [commitment], [proof])
  {
    hide IsField, HasOrder, IsPairing, BlobCoefficients, BlobPoint, Parsable, G1PointToAffine, ProofBytesToAffine;
    hide OnCurve, BatchAccepts, BatchChallenge, AllAre, Opens;
    if Accepted(P, E, O, [blob], [commitment], [proof]) {
      assert Convertible(ProofBytesToAffine, [proof]) && ProofBytesToAffine([proof][0]).Success?;
      var c, pi := HonestCommitment(P, E, blob), O.point(ProofBytesToAffine(proof).value);
      var claim := BlobClaim(P, O, blob, c, pi);
      assert ClaimsOf(P, O, [blob], [commitment], [proof]) == [claim];
      SingleAccepts(P.K, E, claim, BatchChallenge(O, [claim], PaddedLengths([blob])));
      SingleProof(P, E, O, blob, pi);
      ProofIsFinite(proof);
    }
  }

  lemma ProofIsFinite(proof: KzgProof)
    requires ProofBytesToAffine(proof).Success?
    ensures ProofBytesToAffine(proof).value != Infinity
  {
  }

  lemma SingleAccepts<G1(!new), G2(!new), GT(!new)>(
      K: Field<Residue>, E: Pairing<Residue, G1, G2, GT>, claim: Claim<Residue, G1>, r: Residue)
    requires IsField(K) && IsPairing(K, E) && BatchAccepts(E, [claim], r)
    ensures Opens(E, claim)
  {
    assert IsSpace(K, E.st);
    hide IsField, IsSpace, IsPairing;
    var d := Residuals(E, [claim]);
    assert d[1..] == [] && d[0] == Residual(E, claim);
    assert E.st.Eval([], r) == E.st.zero;
    assert E.st.Eval(d, r) == E.st.add(d[0], E.st.scale(r, E.st.Eval(d[1..], r)));
    ScaleZero(K, E.st, r, E.st.zero);
    Group1(K, E.st, d[0]);
  }

  /** Whatever opens the claim about a one-element blob is the identity. */
  lemma SingleProof<G1(!new), G2(!new), GT(!new)>(
      P: Setup<Residue>, E: Pairing<Residue, G1, G2, GT>, O: Oracle<G1>, blob: seq<byte>, pi: G1)
    requires IsSetup(P) && IsPairing(P.K, E) && Parsable(blob) && |blob| == 32
    requires BlobPoint(P, O, blob, HonestCommitment(P, E, blob)).0 != E.tau
    requires Opens(E, BlobClaim(P, O, blob, HonestCommitment(P, E, blob), pi))
    ensures pi == E.s1.zero
  {
    hide IsField, HasOrder, IsPairing, BlobCoefficients, Parsable, AllAre, Opens, Quotient, Eval, BlobPolynomial;
    hide ChallengeTranscript;
    var K, p, c := P.K, BlobCoefficients(P, blob), HonestCommitment(P, E, blob);
    var z := BlobPoint(P, O, blob, c).0;
    var y := Eval(K, p, z);
    SubLaws(K, E.tau, z);
    Laws1(K, K.Sub(E.tau, z));
    OpensExactly(K, E, p, z, y, pi);
    OneElement(K, blob);
    ConstantBlobHasIdentity(P, E, O, blob, BlobData(blob)[0]);
    PairingSpaces(K, E);
    hide IsSpace;
    SubLaws(K, y, y);
    Laws1(K, y);
    var inv := K.inverse(K.Sub(E.tau, z)).value;
    MulZero(K, inv);
    ScaleZero(K, E.s1, K.zero, E.g1);
    Group1(K, E.s1, E.s1.zero);
  }
}

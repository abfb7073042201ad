/** The batch verifier: from blobs, commitments and proofs to the verdict. */
module BatchVerifier {
  import opened Prelude
  import opened Bytes
  import opened Fields
  import opened Spaces
  import opened RootsOfUnity
  import opened Barycentric
  import opened ScalarField
  import opened Transcript
  import opened Batch
  import Commitment

  /** Group elements in coordinates and back, and the hash into the scalar field. */
  datatype Oracle<!G1> = Oracle(affine: G1 -> AffineG1, point: AffineG1 -> G1, hash: seq<byte> -> Residue)

  /** A point of the curve is the group element it stands for. */
  ghost predicate IsOracle<G1(!new)>(O: Oracle<G1>) {
    forall a :: OnCurve(a) ==> O.affine(O.point(a)) == a
  }

  function AffineClaims<G1>(O: Oracle<G1>, claims: seq<Claim<Residue, G1>>): (s: seq<Claim<Residue, AffineG1>>)
    ensures |s| == |claims|
  {
    seq(|claims|, i requires 0 <= i < |claims| =>
      var c := claims[i];
      Claim(O.affine(c.commitment), c.z, c.y, O.affine(c.proof)))
  }

  /** The batch challenge of a list of claims about blobs of the given padded lengths. */
  function BatchChallenge<G1>(O: Oracle<G1>, claims: seq<Claim<Residue, G1>>, lengths: seq<nat>): Residue
  {
    O.hash(BatchTranscript(AffineClaims(O, claims), Cut(lengths, |claims|)))
  }

  function ZipClaims<T, G1>(commitments: seq<G1>, zs: seq<T>, ys: seq<T>, proofs: seq<G1>): (s: seq<Claim<T, G1>>)
    requires |commitments| == |zs| == |ys| == |proofs|
    ensures |s| == |commitments|
  {
    seq(|commitments|, i requires 0 <= i < |commitments| => Claim(commitments[i], zs[i], ys[i], proofs[i]))
  }

  method ComputeRPowers<G1(!new)>(K: Field<Residue>, O: Oracle<G1>, commitments: seq<G1>,
                                  zs: seq<Residue>, ys: seq<Residue>, proofs: seq<G1>, blobLengths: seq<nat>)
    returns (r: Result<seq<Residue>, KzgError>)
    requires IsField(K)
    requires |commitments| == |zs| == |ys| == |proofs|
    ensures var claims := ZipClaims(commitments, zs, ys, proofs);
            r == Success(Powers(K, BatchChallenge(O, claims, blobLengths), |commitments|))
  {
    var claims := AffineClaims(O, ZipClaims(commitments, zs, ys, proofs));
    var buf := ComputeBatchTranscript(claims, blobLengths);
    var powers := ComputePowers(K, O.hash(buf.value), |commitments|);
    return Success(powers);
  }

  predicate AllOnCurve<G1>(O: Oracle<G1>, points: seq<G1>) {
    forall i :: 0 <= i < |points| ==> OnCurve(O.affine(points[i]))
  }

  method ValidateAll<G1>(O: Oracle<G1>, points: seq<G1>) returns (r: Result<(), KzgError>)
    ensures r.Success? <==> AllOnCurve(O, points)
  {
    for i := 0 to |points|
      invariant forall j :: 0 <= j < i ==> OnCurve(O.affine(points[j]))
    {
      var valid := ValidateG1Point(O.affine(points[i]));
      if valid.Failure? {
        return Failure(valid.error);
      }
    }
    return Success(());
  }

  /** Decides the batched pairing equation at the batch challenge. */
  method VerifyKzgProofBatch<G1(==,!new), G2(!new), GT(==,!new)>(
      K: Field<Residue>, E: Pairing<Residue, G1, G2, GT>, O: Oracle<G1>, commitments: seq<G1>,
      zs: seq<Residue>, ys: seq<Residue>, proofs: seq<G1>, blobLengths: seq<nat>)
    returns (r: Result<bool, KzgError>)
    requires IsField(K) && IsPairing(K, E)
    // the sum of no points panics
    requires |commitments| == |zs| == |ys| == |proofs| ==> commitments != []
    ensures r.Success? <==>
              |commitments| == |zs| == |ys| == |proofs| && AllOnCurve(O, commitments) && AllOnCurve(O, proofs)
    ensures r.Success? ==>
              var claims := ZipClaims(commitments, zs, ys, proofs);
              r.value <==> BatchAccepts(E, claims, BatchChallenge(O, claims, blobLengths))
  {
    hide IsField, IsPairing, BatchAccepts, BatchChallenge, OnCurve, Lincomb, Powers;
    if !(|commitments| == |zs| && |zs| == |ys| && |ys| == |proofs|) {
      return Failure(GenericError("length's of the input are not the same"));
    }
    var valid := ValidateAll(O, commitments);
    if valid.Failure? {
      return Failure(valid.error);
    }
    valid := ValidateAll(O, proofs);
    if valid.Failure? {
      return Failure(valid.error);
    }
    var n := |commitments|;
    ghost var claims := ZipClaims(commitments, zs, ys, proofs);
    ghost var ch := BatchChallenge(O, claims, blobLengths);
    var powersResult := ComputeRPowers(K, O, commitments, zs, ys, proofs, blobLengths);
    var rPowers := powersResult.value;
    var proofLincomb := G1Lincomb(E.s1, proofs, rPowers).value;

    var cMinusY: seq<G1> := [];
    var rTimesZ: seq<Residue> := [];
    for i := 0 to n
      invariant |cMinusY| == |rTimesZ| == i
      invariant forall j :: 0 <= j < i ==>
        && cMinusY[j] == E.s1.Sub(commitments[j], E.s1.scale(ys[j], E.g1))
        && rTimesZ[j] == K.mul(rPowers[j], zs[j])
    {
      var ysEncrypted := E.s1.scale(ys[i], E.g1);
      var diff := E.s1.Sub(commitments[i], ysEncrypted);
      // the affine sentinel stands for the identity
      var diffAff := if diff == E.s1.zero then E.s1.zero else diff;
      cMinusY := cMinusY + [diffAff];
      rTimesZ := rTimesZ + [K.mul(rPowers[i], zs[i])];
    }

    var proofZLincomb := G1Lincomb(E.s1, proofs, rTimesZ).value;
    var cMinusYLincomb := G1Lincomb(E.s1, cMinusY, rPowers).value;
    var rhsG1 := E.s1.add(cMinusYLincomb, proofZLincomb);

    CombinationsAreEvaluations(K, E, claims, ch, proofs, zs, rTimesZ, cMinusY);
    var accepted := PairingsVerify(E, proofLincomb, E.G2Tau(), rhsG1, E.g2);
    return Success(accepted);
  }

  /** `e(a1, a2) == e(b1, b2)`, by one product of pairings. */
  function PairingsVerify<T, G1, G2, GT(==)>(E: Pairing<T, G1, G2, GT>, a1: G1, a2: G2, b1: G1, b2: G2): bool {
    E.st.add(E.e(a1, a2), E.e(E.s1.neg(b1), b2)) == E.st.zero
  }

  lemma PairingSpaces<T(!new), G1(!new), G2(!new), GT(!new)>(K: Field<T>, E: Pairing<T, G1, G2, GT>)
    requires IsPairing(K, E)
    ensures IsSpace(K, E.s1)
  {
  }

  lemma AcceptsIsZero<T, G1, G2, GT>(E: Pairing<T, G1, G2, GT>, claims: seq<Claim<T, G1>>, r: T)
    ensures BatchAccepts(E, claims, r) <==> E.st.Eval(Residuals(E, claims), r) == E.st.zero
  {
  }

  lemma CombinationsAreEvaluations<T(!new), G1(!new), G2(!new), GT(!new)>(
      K: Field<T>, E: Pairing<T, G1, G2, GT>, claims: seq<Claim<T, G1>>, r: T,
      proofs: seq<G1>, zs: seq<T>, rTimesZ: seq<T>, cMinusY: seq<G1>)
    requires IsField(K) && IsPairing(K, E)
    requires |claims| == |proofs| == |zs| == |rTimesZ| == |cMinusY|
    requires forall i :: 0 <= i < |claims| ==>
               && proofs[i] == claims[i].proof && zs[i] == claims[i].z
               && rTimesZ[i] == K.mul(Powers(K, r, |claims|)[i], zs[i])
               && cMinusY[i] == E.s1.Sub(claims[i].commitment, E.s1.scale(claims[i].y, E.g1))
    ensures var powers := Powers(K, r, |claims|);
            BatchAccepts(E, claims, r) <==>
            E.st.add(
              E.e(Lincomb(E.s1, proofs, powers), E.G2Tau()),
              E.e(E.s1.neg(E.s1.add(Lincomb(E.s1, cMinusY, powers), Lincomb(E.s1, proofs, rTimesZ))), E.g2))
            == E.st.zero
  {
    hide IsField, IsPairing, IsSpace, Space.Eval, Lincomb, Powers, BatchAccepts;
    PairingSpaces(K, E);
    AcceptsIsZero(E, claims, r);
    var S, n, powers := E.s1, |claims|, Powers(K, r, |claims|);
    var moved := seq(n, i requires 0 <= i < n => S.scale(zs[i], proofs[i]));
    var shifted := seq(n, i requires 0 <= i < n => Shifted(E, claims[i]));
    LincombPowers(K, S, proofs, r);
    LincombPowers(K, S, cMinusY, r);
    LincombMoves(K, S, proofs, moved, powers, zs, rTimesZ);
    LincombPowers(K, S, moved, r);
    EvalAdd(K, S, cMinusY, moved, r);
    assert AddSeq(S, cMinusY, moved) == shifted;
    assert proofs == Proofs(claims);
    BatchResidual(K, E, claims, shifted, r);
  }

  // From blobs

  ghost function BlobData(blob: seq<byte>): (data: seq<Residue>)
    requires IsEncoding(blob)
    ensures Flatten(Chunks(data)) == blob && |blob| == 32 * |data|
  {
    var data: seq<Residue> :| Flatten(Chunks(data)) == blob;
    ChunksLength(data);
    data
  }

  lemma BlobDataUnique(blob: seq<byte>, data: seq<Residue>)
    requires Flatten(Chunks(data)) == blob
    ensures IsEncoding(blob) && BlobData(blob) == data
  {
    ChunksLength(data);
    ChunksInjective(data, BlobData(blob));
  }

  /** Canonical field elements, no more than the SRS supports. */
  ghost predicate Parsable(blob: seq<byte>) {
    IsEncoding(blob) && |blob| <= 32 * MAINNET_SRS_G1_SIZE
  }

  ghost function BlobPolynomial(K: Field<Residue>, blob: seq<byte>): PolynomialEvalForm<Residue>
    requires Parsable(blob)
  {
    NewPolynomial(K, BlobData(blob)).value
  }

  lemma BlobEvaluable(K: Field<Residue>, blob: seq<byte>)
    requires Parsable(blob)
    ensures Evaluable(BlobPolynomial(K, blob)) <==> blob != []
  {
    NewPolynomialEvaluable(K, BlobData(blob));
  }

  lemma PolynomialLength(K: Field<Residue>, blob: seq<byte>)
    requires Parsable(blob)
    ensures |BlobPolynomial(K, blob).evaluations| == NextPowerOfTwo(|blob| / 32)
  {
    hide NextPowerOfTwo, Flatten, Chunks, IsEncoding;
    assert |blob| / 32 == |BlobData(blob)|;
  }

  /** The polynomial that takes the blob's elements, then zeros, on the domain. */
  ghost function BlobCoefficients(P: Setup<Residue>, blob: seq<byte>): seq<Residue>
    requires IsSetup(P) && Parsable(blob) && blob != []
  {
    BlobEvaluable(P.K, blob);
    DomainRootOrder(P, BlobPolynomial(P.K, blob));
    Interpolant(P.K, DomainRoot(P, BlobPolynomial(P.K, blob)), BlobPolynomial(P.K, blob).evaluations)
  }

  /** The Fiat-Shamir point of a blob, and the value of its polynomial there. */
  ghost function BlobPoint<G1>(P: Setup<Residue>, O: Oracle<G1>, blob: seq<byte>, c: G1): (Residue, Residue)
    requires IsSetup(P) && Parsable(blob) && blob != []
  {
    var z := O.hash(ChallengeTranscript(BlobPolynomial(P.K, blob).evaluations, O.affine(c)));
    (z, Eval(P.K, BlobCoefficients(P, blob), z))
  }

  /** What the verifier has to believe about one blob: that its polynomial, committed to by `c`,
      takes its value at the Fiat-Shamir point. */
  ghost function BlobClaim<G1>(P: Setup<Residue>, O: Oracle<G1>, blob: seq<byte>, c: G1, proof: G1): Claim<Residue, G1>
    requires IsSetup(P) && Parsable(blob) && blob != []
  {
    Claim(c, BlobPoint(P, O, blob, c).0, BlobPoint(P, O, blob, c).1, proof)
  }

  ghost predicate AllVerifiable(blobs: seq<seq<byte>>) {
    forall i :: 0 <= i < |blobs| ==> Parsable(blobs[i]) && blobs[i] != []
  }

  ghost function BlobClaims<G1>(P: Setup<Residue>, O: Oracle<G1>, blobs: seq<seq<byte>>, cs: seq<G1>, proofs: seq<G1>)
    : (s: seq<Claim<Residue, G1>>)
    requires IsSetup(P) && AllVerifiable(blobs) && |blobs| == |cs| == |proofs|
    ensures |s| == |blobs|
  {
    seq(|blobs|, i requires 0 <= i < |blobs| => BlobClaim(P, O, blobs[i], cs[i], proofs[i]))
  }

  ghost function PaddedLengths(blobs: seq<seq<byte>>): (s: seq<nat>)
    ensures |s| == |blobs|
  {
    seq(|blobs|, i requires 0 <= i < |blobs| => NextPowerOfTwo(|blobs[i]| / 32))
  }

  method ChallengeAndEvaluate<G1(!new)>(
      P: Setup<Residue>, O: Oracle<G1>, ghost blob: seq<byte>, poly: PolynomialEvalForm<Residue>, commitment: G1)
    returns (r: Result<(Residue, Residue), KzgError>)
    requires IsSetup(P)
    requires Parsable(blob) && poly == BlobPolynomial(P.K, blob)
    ensures r.Success? <==> blob != [] && OnCurve(O.affine(commitment))
    ensures r.Success? ==> r.value == BlobPoint(P, O, blob, commitment)
  {
    var z := ComputeChallenge(O.hash, poly.evaluations, O.affine(commitment));
    if z.Failure? {
      return Failure(z.error);
    }
    BlobEvaluable(P.K, blob);
    var y := EvaluatePolynomialInEvaluationForm(P, poly, z.value);
    if y.Failure? {
      return Failure(y.error);
    }
    return Success((z.value, y.value));
  }

  /** No blobs need no commitments, but any number of them will do. */
  method ComputeChallengesAndEvaluatePolynomial<G1(!new)>(
      P: Setup<Residue>, O: Oracle<G1>, ghost blobs: seq<seq<byte>>,
      polys: seq<PolynomialEvalForm<Residue>>, commitments: seq<G1>)
    returns (r: Result<(seq<Residue>, seq<Residue>), KzgError>)
    requires IsSetup(P)
    requires |blobs| == |polys|
    requires forall i :: 0 <= i < |blobs| ==> Parsable(blobs[i]) && polys[i] == BlobPolynomial(P.K, blobs[i])
    ensures r.Success? <==>
              polys == [] || (AllVerifiable(blobs) && |polys| == |commitments| && AllOnCurve(O, commitments))
    ensures r.Success? ==>
              && |r.value.0| == |r.value.1| == |blobs|
              && forall i :: 0 <= i < |blobs| ==>
                   (r.value.0[i], r.value.1[i]) == BlobPoint(P, O, blobs[i], commitments[i])
  {
    hide BlobPoint, BlobPolynomial, Parsable, IsSetup;
    if |polys| != |commitments| && polys != [] {
      return Failure(GenericError("length's of the input are not the same or is empty"));
    }
    var zs: seq<Residue>, ys: seq<Residue> := [], [];
    for i := 0 to |polys|
      invariant |zs| == |ys| == i
      invariant forall j :: 0 <= j < i ==> blobs[j] != [] && OnCurve(O.affine(commitments[j]))
      invariant forall j :: 0 <= j < i ==> (zs[j], ys[j]) == BlobPoint(P, O, blobs[j], commitments[j])
    {
      var zy := ChallengeAndEvaluate(P, O, blobs[i], polys[i], commitments[i]);
      if zy.Failure? {
        return Failure(zy.error);
      }
      zs, ys := zs + [zy.value.0], ys + [zy.value.1];
    }
    return Success((zs, ys));
  }

  method ParseBlobs(K: Field<Residue>, blobs: seq<seq<byte>>)
    returns (r: Result<seq<PolynomialEvalForm<Residue>>, KzgError>)
    ensures r.Success? <==> forall i :: 0 <= i < |blobs| ==> Parsable(blobs[i])
    ensures r.Success? ==>
              |r.value| == |blobs| && forall i :: 0 <= i < |blobs| ==> r.value[i] == BlobPolynomial(K, blobs[i])
  {
    var polys: seq<PolynomialEvalForm<Residue>> := [];
    for i := 0 to |blobs|
      invariant |polys| == i
      invariant forall j :: 0 <= j < i ==> Parsable(blobs[j]) && polys[j] == BlobPolynomial(K, blobs[j])
    {
      var data := ToFrArrayCanonical(blobs[i]);
      if data.Failure? {
        return Failure(data.error);
      }
      BlobDataUnique(blobs[i], data.value);
      var poly := NewPolynomial(K, data.value);
      if poly.Failure? {
        return Failure(poly.error);
      }
      polys := polys + [poly.value];
    }
    return Success(polys);
  }

  // Points in coordinates

  type KzgProof = p: seq<byte> | |p| == 64 witness Zeros(64)

  /** Coordinates are reduced, and must satisfy the curve equation. */
  function AffineFrom(x: nat, y: nat): (r: Result<AffineG1, KzgError>)
    ensures r.Success? ==> OnCurve(r.value)
  {
    var a := Affine(Reduce(x, FQ_MODULUS), Reduce(y, FQ_MODULUS));
    if OnCurve(a) then Success(a) else Failure(NotOnCurveError)
  }

  function G1PointToAffine(p: Commitment.G1Point): (r: Result<AffineG1, KzgError>)
    ensures r.Success? ==> OnCurve(r.value)
  {
    AffineFrom(p.x, p.y)
  }

  function ProofBytesToAffine(p: KzgProof): (r: Result<AffineG1, KzgError>)
    ensures r.Success? ==> OnCurve(r.value)
  {
    AffineFrom(FromBytesBE(p[..32]), FromBytesBE(p[32..]))
  }

  predicate Convertible<A>(convert: A -> Result<AffineG1, KzgError>, items: seq<A>) {
    forall i :: 0 <= i < |items| ==> convert(items[i]).Success?
  }

  function Points<A, G1>(O: Oracle<G1>, convert: A -> Result<AffineG1, KzgError>, items: seq<A>): (s: seq<G1>)
    requires Convertible(convert, items)
    ensures |s| == |items|
  {
    seq(|items|, i requires 0 <= i < |items| => O.point(convert(items[i]).value))
  }

  lemma PointsOnCurve<G1(!new)>(O: Oracle<G1>, commitments: seq<Commitment.G1Point>, proofs: seq<KzgProof>)
    requires IsOracle(O)
    requires Convertible(G1PointToAffine, commitments) && Convertible(ProofBytesToAffine, proofs)
    ensures AllOnCurve(O, Points(O, G1PointToAffine, commitments))
    ensures AllOnCurve(O, Points(O, ProofBytesToAffine, proofs))
  {
    hide OnCurve;
  }

  method CollectPoints<A, G1>(O: Oracle<G1>, convert: A -> Result<AffineG1, KzgError>, items: seq<A>)
    returns (r: Result<seq<G1>, KzgError>)
    ensures r.Success? <==> Convertible(convert, items)
    ensures r.Success? ==> r.value == Points(O, convert, items)
  {
    var points: seq<G1> := [];
    for i := 0 to |items|
      invariant |points| == i
      invariant forall j :: 0 <= j < i ==> convert(items[j]).Success? && points[j] == O.point(convert(items[j]).value)
    {
      var a := convert(items[i]);
      if a.Failure? {
        return Failure(a.error);
      }
      points := points + [O.point(a.value)];
    }
    return Success(points);
  }

  // The verdict

  /** Blobs of canonical elements, none empty, with as many commitments and proofs on the curve. */
  ghost predicate WellFormed(blobs: seq<seq<byte>>, commitments: seq<Commitment.G1Point>, proofs: seq<KzgProof>) {
    && AllVerifiable(blobs) && |commitments| == |proofs| == |blobs|
    && Convertible(G1PointToAffine, commitments) && Convertible(ProofBytesToAffine, proofs)
  }

  /** What the proofs have to show. */
  ghost function ClaimsOf<G1>(
      P: Setup<Residue>, O: Oracle<G1>,
      blobs: seq<seq<byte>>, commitments: seq<Commitment.G1Point>, proofs: seq<KzgProof>)
    : (s: seq<Claim<Residue, G1>>)
    requires IsSetup(P) && WellFormed(blobs, commitments, proofs)
    ensures |s| == |blobs|
  {
    BlobClaims(P, O, blobs, Points(O, G1PointToAffine, commitments), Points(O, ProofBytesToAffine, proofs))
  }

  /** The batched equation of those claims holds at the batch challenge. */
  ghost predicate Accepted<G1, G2, GT>(
      P: Setup<Residue>, E: Pairing<Residue, G1, G2, GT>, O: Oracle<G1>,
      blobs: seq<seq<byte>>, commitments: seq<Commitment.G1Point>, proofs: seq<KzgProof>)
    requires IsSetup(P)
  {
    && WellFormed(blobs, commitments, proofs)
    && var claims := ClaimsOf(P, O, blobs, commitments, proofs);
       BatchAccepts(E, claims, BatchChallenge(O, claims, PaddedLengths(blobs)))
  }

  /** The verdict on a batch of blobs. An empty batch is valid; an empty blob is an error. */
  method VerifyBlobKzgProofBatch<G1(==,!new), G2(!new), GT(==,!new)>(
      P: Setup<Residue>, E: Pairing<Residue, G1, G2, GT>, O: Oracle<G1>,
      blobs: seq<seq<byte>>, commitments: seq<Commitment.G1Point>, proofs: seq<KzgProof>)
    returns (r: Result<bool, KzgError>)
    requires IsSetup(P) && IsPairing(P.K, E) && IsOracle(O)
    ensures r.Success? <==> WellFormed(blobs, commitments, proofs)
    ensures r.Success? ==> (r.value <==> Accepted(P, E, O, blobs, commitments, proofs))
  {
    hide BlobPoint, BlobPolynomial, Parsable, BatchAccepts, BatchChallenge, Convertible, IsPairing, IsOracle;
    hide AllOnCurve, OnCurve, IsField, HasOrder, G1PointToAffine, ProofBytesToAffine;
    var parsed := ParseBlobs(P.K, blobs);
    if parsed.Failure? {
      return Failure(parsed.error);
    }
    var polys := parsed.value;
    var commitmentsAff := CollectPoints(O, G1PointToAffine, commitments);
    if commitmentsAff.Failure? {
      return Failure(commitmentsAff.error);
    }
    var proofsAff := CollectPoints(O, ProofBytesToAffine, proofs);
    if proofsAff.Failure? {
      return Failure(proofsAff.error);
    }
    var cs, ps := commitmentsAff.value, proofsAff.value;
    PointsOnCurve(O, commitments, proofs);
    if |cs| != |polys| || |ps| != |polys| {
      return Failure(GenericError("length's of the input are not the same"));
    }
    if polys == [] {
      ghost var none := BlobClaims(P, O, blobs, cs, ps);
      BatchComplete(P.K, E, none, BatchChallenge(O, none, PaddedLengths(blobs)));
      return Success(true);
    }
    var zsys := ComputeChallengesAndEvaluatePolynomial(P, O, blobs, polys, cs);
    if zsys.Failure? {
      return Failure(zsys.error);
    }
    var blobLengths := seq(|polys|, i requires 0 <= i < |polys| => |polys[i].evaluations|);
    forall i | 0 <= i < |polys|
      ensures blobLengths[i] == PaddedLengths(blobs)[i]
    {
      PolynomialLength(P.K, blobs[i]);
    }
    assert blobLengths == PaddedLengths(blobs);
    assert ZipClaims(cs, zsys.value.0, zsys.value.1, ps) == BlobClaims(P, O, blobs, cs, ps);
    r := VerifyKzgProofBatch(P.K, E, O, cs, zsys.value.0, zsys.value.1, ps, blobLengths);
  }

  /** Any error is a rejection. */
  method BatchVerify<G1(==,!new), G2(!new), GT(==,!new)>(
      P: Setup<Residue>, E: Pairing<Residue, G1, G2, GT>, O: Oracle<G1>,
      blobs: seq<seq<byte>>, commitments: seq<Commitment.G1Point>, proofs: seq<KzgProof>)
    returns (ok: bool)
    requires IsSetup(P) && IsPairing(P.K, E) && IsOracle(O)
    ensures ok <==> Accepted(P, E, O, blobs, commitments, proofs)
  {
    var r := VerifyBlobKzgProofBatch(P, E, O, blobs, commitments, proofs);
    return r.Success? && r.value;
  }

  // Soundness of the verdict

  function HashBut(hash: seq<byte> -> Residue, t: seq<byte>, r: Residue, s: seq<byte>): Residue {
    if s == t then r else hash(s)
  }

  /** The same oracle, but for the hash of one string. */
  function WithHash<G1>(O: Oracle<G1>, t: seq<byte>, r: Residue): Oracle<G1> {
    O.(hash := s => HashBut(O.hash, t, r, s))
  }

  /** The string whose hash is the batch challenge. */
  ghost function BatchInput<G1>(
      P: Setup<Residue>, O: Oracle<G1>,
      blobs: seq<seq<byte>>, commitments: seq<Commitment.G1Point>, proofs: seq<KzgProof>): seq<byte>
    requires IsSetup(P) && WellFormed(blobs, commitments, proofs)
  {
    BatchTranscript(AffineClaims(O, ClaimsOf(P, O, blobs, commitments, proofs)), PaddedLengths(blobs))
  }

  /** The hash of the batch transcript is the batch challenge and nothing else: the claims do not depend on it. */
  lemma ClaimsWithHash<G1(!new)>(
      P: Setup<Residue>, O: Oracle<G1>, blobs: seq<seq<byte>>,
      commitments: seq<Commitment.G1Point>, proofs: seq<KzgProof>, r: Residue)
    requires IsSetup(P) && WellFormed(blobs, commitments, proofs)
    ensures var O' := WithHash(O, BatchInput(P, O, blobs, commitments, proofs), r);
            var claims := ClaimsOf(P, O, blobs, commitments, proofs);
            && ClaimsOf(P, O', blobs, commitments, proofs) == claims
            && BatchChallenge(O', claims, PaddedLengths(blobs)) == r
  {
    hide IsSetup, BlobCoefficients, BlobPolynomial, Parsable, BatchTranscript, ChallengeTranscript, Convertible;
    var t := BatchInput(P, O, blobs, commitments, proofs);
    var O' := WithHash(O, t, r);
    var cs, ps := Points(O, G1PointToAffine, commitments), Points(O, ProofBytesToAffine, proofs);
    assert Points(O', G1PointToAffine, commitments) == cs && Points(O', ProofBytesToAffine, proofs) == ps;
    var claims := BlobClaims(P, O, blobs, cs, ps);
    forall i | 0 <= i < |blobs|
      ensures BlobClaim(P, O', blobs[i], cs[i], ps[i]) == claims[i]
    {
      TranscriptsApart(BlobPolynomial(P.K, blobs[i]).evaluations, O.affine(cs[i]),
                       AffineClaims(O, claims), PaddedLengths(blobs));
    }
    assert BlobClaims(P, O', blobs, cs, ps) == claims;
    assert AffineClaims(O', claims) == AffineClaims(O, claims);
  }

  /** If the claim about one blob does not open, then of the values the batch hash may take, fewer make the
      verifier accept than there are blobs. */
  lemma VerifierSound<G1(!new), G2(!new), GT(!new)>(
      P: Setup<Residue>, E: Pairing<Residue, G1, G2, GT>, O: Oracle<G1>, blobs: seq<seq<byte>>,
      commitments: seq<Commitment.G1Point>, proofs: seq<KzgProof>, bad: nat, rs: seq<Residue>)
    requires IsSetup(P) && IsPairing(P.K, E) && WellFormed(blobs, commitments, proofs)
    requires bad < |blobs| && !Opens(E, ClaimsOf(P, O, blobs, commitments, proofs)[bad])
    requires Distinct(rs)
    requires forall r :: r in rs ==>
               Accepted(P, E, WithHash(O, BatchInput(P, O, blobs, commitments, proofs), r), blobs, commitments, proofs)
    ensures |rs| < |blobs|
  {
    hide WellFormed, ClaimsOf, IsPairing, BatchChallenge, Opens, BatchAccepts, BatchInput;
    var claims := ClaimsOf(P, O, blobs, commitments, proofs);
    forall i | 0 <= i < |rs|
      ensures BatchAccepts(E, claims, rs[i])
    {
      assert rs[i] in rs;
      ClaimsWithHash(P, O, blobs, commitments, proofs, rs[i]);
    }
    BatchSound(P.K, E, claims, bad, rs);
  }

  /** Group elements that are the commitments and proofs of a prover satisfy the batched equation, whatever the
      challenge. Whether they have coordinates that the verifier reads is another matter. */
  lemma HonestBatchAccepted<G1(!new), G2(!new), GT(!new)>(
      P: Setup<Residue>, E: Pairing<Residue, G1, G2, GT>, O: Oracle<G1>,
      blobs: seq<seq<byte>>, commitments: seq<G1>, proofs: seq<G1>, r: Residue)
    requires IsSetup(P) && IsPairing(P.K, E)
    requires AllVerifiable(blobs) && |blobs| == |commitments| == |proofs|
    requires forall i :: 0 <= i < |blobs| ==>
               var p := BlobCoefficients(P, blobs[i]);
               var z := BlobClaim(P, O, blobs[i], commitments[i], proofs[i]).z;
               && commitments[i] == E.s1.scale(Eval(P.K, p, E.tau), E.g1)
               && proofs[i] == E.s1.scale(Eval(P.K, Quotient(FieldSpace(P.K), p, z), E.tau), E.g1)
    ensures BatchAccepts(E, BlobClaims(P, O, blobs, commitments, proofs), r)
  {
    var claims := BlobClaims(P, O, blobs, commitments, proofs);
    forall i | 0 <= i < |blobs|
      ensures Opens(E, claims[i])
    {
      HonestClaimOpens(P.K, E, BlobCoefficients(P, blobs[i]), claims[i].z);
    }
    BatchComplete(P.K, E, claims, r);
  }
}

/** What an accepted batch says about its blobs: each is the blob committed to, but for three named events. */
module Binding {
  import opened Prelude
  import opened Bytes
  import opened Fields
  import opened Spaces
  import opened RootsOfUnity
  import opened Barycentric
  import opened ScalarField
  import opened Transcript
  import opened Batch
  import opened BatchVerifier

  // The polynomial fixes the blob

  lemma EvaluationsFromCoefficients(P: Setup<Residue>, blob: seq<byte>, i: nat)
    requires IsSetup(P) && Parsable(blob) && blob != []
    requires i < |BlobPolynomial(P.K, blob).evaluations|
    ensures var poly := BlobPolynomial(P.K, blob);
            && Evaluable(poly)
            && poly.evaluations[i] == Eval(P.K, BlobCoefficients(P, blob), P.K.Pow(DomainRoot(P, poly), i))
  {
    hide IsField, HasOrder, LagrangeSum, Eval, BlobPolynomial, DomainRoot, NextPowerOfTwo;
    var poly := BlobPolynomial(P.K, blob);
    BlobEvaluable(P.K, blob);
    DomainRootOrder(P, poly);
    InterpolantCorrect(P.K, DomainRoot(P, poly), poly.evaluations, BlobCoefficients(P, blob));
  }

  lemma BlobLength(K: Field<Residue>, blob: seq<byte>)
    requires Parsable(blob)
    ensures var poly := BlobPolynomial(K, blob);
            && poly.lenUnderlyingBlobBytes == |blob|
            && |BlobData(blob)| <= |poly.evaluations| && poly.evaluations[..|BlobData(blob)|] == BlobData(blob)
  {
    hide NextPowerOfTwo, Flatten, Chunks;
  }

  lemma SameDomain(P: Setup<Residue>, p: PolynomialEvalForm<Residue>, q: PolynomialEvalForm<Residue>)
    requires |P.primitiveRoots| == 29 && Evaluable(p) && Evaluable(q)
    requires p.lenUnderlyingBlobBytes == q.lenUnderlyingBlobBytes
    ensures DomainRoot(P, p) == DomainRoot(P, q)
  {
  }

  /** Two blobs of one length with the same interpolating polynomial are the same. */
  lemma CoefficientsFixBlob(P: Setup<Residue>, blob: seq<byte>, other: seq<byte>)
    requires IsSetup(P) && Parsable(blob) && Parsable(other) && blob != [] && |blob| == |other|
    requires BlobCoefficients(P, blob) == BlobCoefficients(P, other)
    ensures blob == other
  {
    hide IsField, HasOrder, Eval, BlobCoefficients, BlobPolynomial, NextPowerOfTwo, BlobData, DomainRoot, Evaluable;
    hide IsEncoding;
    var p, q := BlobPolynomial(P.K, blob), BlobPolynomial(P.K, other);
    BlobLength(P.K, blob);
    BlobLength(P.K, other);
    PolynomialLength(P.K, blob);
    PolynomialLength(P.K, other);
    forall i | 0 <= i < |p.evaluations|
      ensures p.evaluations[i] == q.evaluations[i]
    {
      EvaluationsFromCoefficients(P, blob, i);
      EvaluationsFromCoefficients(P, other, i);
      SameDomain(P, p, q);
    }
    assert p.evaluations == q.evaluations;
    assert |BlobData(blob)| == |BlobData(other)|;
  }

  // The events

  /** `c` is `[p(tau)]`. */
  ghost predicate Commits<G1, G2, GT>(K: Field<Residue>, E: Pairing<Residue, G1, G2, GT>, c: G1, p: seq<Residue>) {
    c == E.s1.scale(Eval(K, p, E.tau), E.g1)
  }

  /** Different polynomials with the same value at the challenge. */
  ghost predicate Accident(K: Field<Residue>, p: seq<Residue>, q: seq<Residue>, z: Residue) {
    p != q && Eval(K, p, z) == Eval(K, q, z)
  }

  /** The proof is the one that opens the commitment to a false value. */
  ghost predicate Forged<G1, G2, GT>(
      K: Field<Residue>, E: Pairing<Residue, G1, G2, GT>, p: seq<Residue>, c: Claim<Residue, G1>)
  {
    && K.inverse(K.Sub(E.tau, c.z)).Some?
    && c.y != Eval(K, p, c.z)
    && c.proof == OpeningProof(K, E, p, c.z, c.y)
  }

  /** Fewer challenges than coefficients are accidents. */
  lemma AccidentsFew(K: Field<Residue>, p: seq<Residue>, q: seq<Residue>, zs: seq<Residue>)
    requires IsField(K) && |p| == |q| && Distinct(zs)
    requires forall z :: z in zs ==> Accident(K, p, q, z)
    ensures zs == [] || |zs| < |p|
  {
    if |zs| >= |p| && zs != [] {
      FieldIsSpace(K);
      assert Accident(K, p, q, zs[0]);
      forall i | 0 <= i < |zs|
        ensures FieldSpace(K).Eval(p, zs[i]) == FieldSpace(K).Eval(q, zs[i])
      {
        assert zs[i] in zs;
      }
      Interpolation(K, FieldSpace(K), p, q, zs);
    }
  }

  /** A forged proof and the polynomial give `[1 / (tau - z)]`, which takes the secret to compute. */
  lemma ForgedReveals<G1(!new), G2(!new), GT(!new)>(
      K: Field<Residue>, E: Pairing<Residue, G1, G2, GT>, p: seq<Residue>, c: Claim<Residue, G1>)
    requires IsField(K) && IsPairing(K, E) && Forged(K, E, p, c)
    ensures var q := Eval(K, Quotient(FieldSpace(K), p, c.z), E.tau);
            var d := K.inverse(K.Sub(Eval(K, p, c.z), c.y));
            && d.Some?
            && E.s1.scale(d.value, E.s1.Sub(c.proof, E.s1.scale(q, E.g1)))
               == E.s1.scale(K.inverse(K.Sub(E.tau, c.z)).value, E.g1)
  {
    assert IsSpace(K, E.s1);
    hide IsField, IsPairing, IsSpace, Quotient, Eval, Space.Eval;
    var S, at := E.s1, Eval(K, p, c.z);
    var e, inv := K.Sub(at, c.y), K.inverse(K.Sub(E.tau, c.z)).value;
    var a, b := S.scale(K.mul(inv, e), E.g1), S.scale(Eval(K, Quotient(FieldSpace(K), p, c.z), E.tau), E.g1);
    SubLaws(K, at, c.y);
    Laws1(K, e);
    var d := K.inverse(e).value;
    // (a + b) - b == a
    Group3(K, S, a, b, S.neg(b));
    Group1(K, S, b);
    Group1(K, S, a);
    // d * (inv * e) == inv
    Scalars(K, S, d, K.mul(inv, e), E.g1);
    MulSwap(K, d, inv, e);
    Laws2(K, d, e);
    Laws1(K, inv);
  }

  /** The claim about one blob escapes the commitment to another polynomial. */
  ghost predicate Escapes<G1, G2, GT>(
      K: Field<Residue>, E: Pairing<Residue, G1, G2, GT>, p: seq<Residue>, q: seq<Residue>, c: Claim<Residue, G1>)
  {
    c.z == E.tau || Forged(K, E, p, c) || Accident(K, p, q, c.z)
  }

  /** A claim about a blob that opens against the commitment of a polynomial is about that polynomial, unless the
      challenge is the secret, the opening is forged, or the challenge is an accident. */
  lemma OpeningBinds<G1(!new), G2(!new), GT(!new)>(
      P: Setup<Residue>, E: Pairing<Residue, G1, G2, GT>, O: Oracle<G1>,
      blob: seq<byte>, c: G1, proof: G1, p: seq<Residue>)
    requires IsSetup(P) && IsPairing(P.K, E) && Parsable(blob) && blob != []
    requires Commits(P.K, E, c, p) && Opens(E, BlobClaim(P, O, blob, c, proof))
    ensures p == BlobCoefficients(P, blob)
            || Escapes(P.K, E, p, BlobCoefficients(P, blob), BlobClaim(P, O, blob, c, proof))
  {
    hide BlobCoefficients, ChallengeTranscript, BlobPolynomial, Parsable, IsPairing, IsField, HasOrder, Opens, Eval;
    hide OpeningProof;
    var K, claim := P.K, BlobClaim(P, O, blob, c, proof);
    if claim.z != E.tau {
      SubLaws(K, E.tau, claim.z);
      Laws1(K, K.Sub(E.tau, claim.z));
      OpensExactly(K, E, p, claim.z, claim.y, proof);
    }
  }

  // A whole batch

  /** The batch hash hides a claim that does not open. */
  ghost predicate Exceptional<G1, G2, GT>(
      E: Pairing<Residue, G1, G2, GT>, claims: seq<Claim<Residue, G1>>, r: Residue)
  {
    BatchAccepts(E, claims, r) && exists i :: 0 <= i < |claims| && !Opens(E, claims[i])
  }

  /** Fewer batch hashes than claims are exceptional. */
  lemma ExceptionsFew<G1(!new), G2(!new), GT(!new)>(
      K: Field<Residue>, E: Pairing<Residue, G1, G2, GT>, claims: seq<Claim<Residue, G1>>, rs: seq<Residue>)
    requires IsField(K) && IsPairing(K, E) && Distinct(rs)
    requires forall r :: r in rs ==> Exceptional(E, claims, r)
    ensures rs == [] || |rs| < |claims|
  {
    hide IsField, IsPairing, BatchAccepts, Opens;
    if rs != [] {
      assert Exceptional(E, claims, rs[0]);
      var bad :| 0 <= bad < |claims| && !Opens(E, claims[bad]);
      forall i | 0 <= i < |rs|
        ensures BatchAccepts(E, claims, rs[i])
      {
        assert Exceptional(E, claims, rs[i]);
      }
      BatchSound(K, E, claims, bad, rs);
    }
  }

  /** `committed` is a blob of the given length, and the commitment is to its polynomial. */
  ghost predicate CommittedBlob<G1, G2, GT>(
      P: Setup<Residue>, E: Pairing<Residue, G1, G2, GT>, c: G1, n: nat, committed: seq<byte>)
    requires IsSetup(P)
  {
    && Parsable(committed) && committed != [] && |committed| == 32 * n
    && Commits(P.K, E, c, BlobCoefficients(P, committed))
  }

  /** Nothing went wrong in the batch: its hash is not exceptional, and no claim escapes its commitment. */
  ghost predicate Undisturbed<G1, G2, GT>(
      P: Setup<Residue>, E: Pairing<Residue, G1, G2, GT>, O: Oracle<G1>, blobs: seq<seq<byte>>,
      commitments: seq<Commitment.G1Point>, proofs: seq<KzgProof>, committed: seq<seq<byte>>)
    requires IsSetup(P) && WellFormed(blobs, commitments, proofs) && |committed| == |blobs|
  {
    var claims := ClaimsOf(P, O, blobs, commitments, proofs);
    && AllVerifiable(committed)
    && !Exceptional(E, claims, BatchChallenge(O, claims, PaddedLengths(blobs)))
    && forall i :: 0 <= i < |blobs| ==>
         !Escapes(P.K, E, BlobCoefficients(P, committed[i]), BlobCoefficients(P, blobs[i]), claims[i])
  }

  /** Every blob of an accepted and undisturbed batch is the blob its commitment is to. */
  lemma AcceptedBinds<G1(!new), G2(!new), GT(!new)>(
      P: Setup<Residue>, E: Pairing<Residue, G1, G2, GT>, O: Oracle<G1>, blobs: seq<seq<byte>>,
      commitments: seq<Commitment.G1Point>, proofs: seq<KzgProof>, committed: seq<seq<byte>>)
    requires IsSetup(P) && IsPairing(P.K, E) && Accepted(P, E, O, blobs, commitments, proofs)
    requires |committed| == |blobs|
    requires forall i :: 0 <= i < |blobs| ==>
               CommittedBlob(P, E, Points(O, G1PointToAffine, commitments)[i], |blobs[i]| / 32, committed[i])
    requires Undisturbed(P, E, O, blobs, commitments, proofs, committed)
    ensures blobs == committed
  {
    hide IsPairing, IsField, HasOrder, BlobCoefficients, BlobPoint, Opens, BatchAccepts, Escapes, Commits, Convertible;
    hide IsEncoding;
    var cs, ps := Points(O, G1PointToAffine, commitments), Points(O, ProofBytesToAffine, proofs);
    var claims := ClaimsOf(P, O, blobs, commitments, proofs);
    forall i | 0 <= i < |blobs|
      ensures blobs[i] == committed[i]
    {
      assert CommittedBlob(P, E, cs[i], |blobs[i]| / 32, committed[i]);
      assert Opens(E, claims[i]);
      assert claims[i] == BlobClaim(P, O, blobs[i], cs[i], ps[i]);
      OpeningBinds(P, E, O, blobs[i], cs[i], ps[i], BlobCoefficients(P, committed[i]));
      EncodingLength(blobs[i]);
      CoefficientsFixBlob(P, committed[i], blobs[i]);
    }
  }
}

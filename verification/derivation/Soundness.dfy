/** Replay soundness with the KZG verifier of this project behind the batch check. */
module Soundness {
  import opened Prelude
  import opened Bytes
  import opened ScalarField
  import opened RootsOfUnity
  import opened Batch
  import opened BatchVerifier
  import opened Binding
  import opened Commitment
  import opened Derivation
  import opened Runs
  import opened Providers

  /** The blobs the commitments of a witness are to. */
  function BoundBlobs(w: EigenDAWitness, bound: (G1Point, nat) -> seq<byte>): (s: seq<seq<byte>>)
    ensures |s| == |w.encodedPayloads|
  {
    seq(|w.encodedPayloads|, i requires 0 <= i < |w.encodedPayloads| =>
      bound(CommitmentPoints(w)[i], Codec.NumFieldElement(Blobs(w)[i])))
  }

  function KzgProofs(w: EigenDAWitness): seq<KzgProof> {
    IntoPreimage(w).1
  }

  /** If the batch verifier accepts the witness, then every commitment in it is to the bound blob of the length in
      question, and none of the named events happened. */
  ghost predicate Committed<G1, G2, GT>(
      P: Setup<Residue>, E: Pairing<Residue, G1, G2, GT>, O: Oracle<G1>,
      w: EigenDAWitness, bound: (G1Point, nat) -> seq<byte>)
    requires IsSetup(P)
  {
    Accepted(P, E, O, Blobs(w), CommitmentPoints(w), KzgProofs(w)) ==>
      && (forall i :: 0 <= i < |w.encodedPayloads| ==>
            CommittedBlob(P, E, Points(O, G1PointToAffine, CommitmentPoints(w))[i],
                          |Blobs(w)[i]| / 32, BoundBlobs(w, bound)[i]))
      && Undisturbed(P, E, O, Blobs(w), CommitmentPoints(w), KzgProofs(w), BoundBlobs(w, bound))
  }

  /** The batch verifier binds a witness's blobs to their commitments, but for the named events. */
  lemma VerifierBinds<G1(!new), G2(!new), GT(!new)>(
      P: Setup<Residue>, E: Pairing<Residue, G1, G2, GT>, O: Oracle<G1>,
      V: Verifiers, w: EigenDAWitness, bound: (G1Point, nat) -> seq<byte>)
    requires IsSetup(P) && IsPairing(P.K, E)
    requires V.batch(Blobs(w), CommitmentPoints(w), KzgProofs(w))
             <==> Accepted(P, E, O, Blobs(w), CommitmentPoints(w), KzgProofs(w))
    requires Committed(P, E, O, w, bound)
    ensures BatchBinding(V, w, bound)
  {
    hide IsSetup, IsPairing, CommittedBlob, Undisturbed, IntoPreimage;
    if V.batch(Blobs(w), CommitmentPoints(w), KzgProofs(w)) {
      var blobs, committed := Blobs(w), BoundBlobs(w, bound);
      AcceptedBinds(P, E, O, blobs, CommitmentPoints(w), KzgProofs(w), committed);
      assert forall i :: 0 <= i < |blobs| ==> blobs[i] == committed[i];
    }
  }

  /** For any witness: if its checks pass, the batch check being the verifier of this project, and the derivation
      over it reaches end of data, the outputs are those of the reference derivation. */
  lemma VerifiedReplaySound<G1(!new), G2(!new), GT(!new)>(
      P: Setup<Residue>, E: Pairing<Residue, G1, G2, GT>, O: Oracle<G1>,
      V: Verifiers, head: L1Head, w: EigenDAWitness, truth: Truth, bound: (G1Point, nat) -> seq<byte>,
      events: seq<EthEvent>, bn: nat, calls: nat)
    requires IsSetup(P) && IsPairing(P.K, E)
    requires V.batch(Blobs(w), CommitmentPoints(w), KzgProofs(w))
             <==> Accepted(P, E, O, Blobs(w), CommitmentPoints(w), KzgProofs(w))
    requires Committed(P, E, O, w, bound)
    requires CanoeSound(V, head, w.canoeProofBytes, truth) && TruthIsBound(truth, bound) && Accepts(V, head, w)
    requires var q := Queues(w.validities, WitnessEntries(w));
             ReachesEof(Run(Preloaded(), State(events, None, q), bn, calls).1)
    ensures var q := Queues(w.validities, WitnessEntries(w));
            Outputs(Run(Preloaded(), State(events, None, q), bn, calls).1) == FilterMap(truth, events, bn)
  {
    hide Run, Accepts, CanoeSound, BatchBinding, TruthIsBound, FilterMap, Committed, IsSetup, IsPairing;
    VerifierBinds(P, E, O, V, w, bound);
    ReplaySound(V, head, w, truth, bound, events, bn, calls);
  }
}

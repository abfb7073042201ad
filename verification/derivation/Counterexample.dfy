/** A concrete L1 block whose recording does not replay. */
module Counterexample {
  import opened Prelude
  import opened Bytes
  import opened Rlp
  import opened Commitment
  import opened Derivation
  import opened Runs
  import opened Providers
  import Replay
  import opened ScalarField
  import opened RootsOfUnity
  import opened Batch
  import opened BatchVerifier
  import opened Honest

  // How long an encoding can get

  lemma {:induction false} MinimalShort(n: nat)
    ensures |MinimalBE(n)| <= n
  {
    if n > 0 {
      MinimalShort(n / 256);
    }
  }

  lemma StringLength(b: seq<byte>)
    ensures |EncodeString(b)| <= 1 + 2 * |b|
  {
    MinimalShort(|b|);
  }

  lemma {:induction false} EncodeAllLength(items: seq<Item>, k: nat)
    requires forall i :: 0 <= i < |items| ==> |Encode(items[i])| <= k
    ensures |EncodeAll(items)| <= k * |items|
  {
    hide Encode;
    if items != [] {
      EncodeAllLength(items[1..], k);
      assert k * |items| == k + k * |items[1..]|;
    }
  }

  lemma ListLength(items: seq<Item>, k: nat)
    requires forall i :: 0 <= i < |items| ==> |Encode(items[i])| <= k
    ensures |Encode(List(items))| <= 1 + 2 * (k * |items|)
  {
    hide EncodeAll, MinimalBE;
    EncodeAllLength(items, k);
    MinimalShort(|EncodeAll(items)|);
  }

  // Two certificates that differ in their reference block number only

  const ORIGIN := G1Point(0, 0)
  const ORIGIN2 := G2Point(Fp2(0, 0), Fp2(0, 0))
  const NON_SIGNERS := NonSignerStakesAndSignature([], [], [], ORIGIN2, ORIGIN, [], [], [])

  /** Two field elements, with any KZG commitment. */
  function Info(point: G1Point): BlobInclusionInfo {
    var blob := BlobCommitment(point, ORIGIN2, ORIGIN2, 2);
    BlobInclusionInfo(BlobCertificate(BlobHeaderV2(0, [], blob, Zeros(32)), [], []), 0, [])
  }

  function Sample(point: G1Point, rbn: U32): AltDACommitment {
    AltDACommitment(1, 0, V3(BatchHeaderV2(Zeros(32), rbn), Info(point), NON_SIGNERS, []))
  }

  lemma NumLength(n: nat)
    requires n < 256
    ensures |Encode(Num(n))| <= 3
  {
    assert |MinimalBE(n)| <= 1;
    StringLength(MinimalBE(n));
  }

  lemma WideLength(n: U256)
    ensures |Encode(Num(n))| <= 65
  {
    hide EncodeString, MinimalBE, Pow256;
    MinimalWidth(n, 32);
    StringLength(MinimalBE(n));
  }

  lemma PointLength(p: G1Point)
    ensures |Encode(G1Item(p))| <= 261
  {
    hide Encode, Conforms, Pow256;
    WideLength(p.x);
    WideLength(p.y);
    ListLength([Num(p.x), Num(p.y)], 65);
  }

  lemma OriginLengths()
    ensures |Encode(G1Item(ORIGIN))| <= 13
    ensures |Encode(G2Item(ORIGIN2))| <= 53
  {
    NumLength(0);
    ListLength([Num(0), Num(0)], 3);
    ListLength([G1Item(ORIGIN), G1Item(ORIGIN)], 13);
  }

  lemma BytesLength()
    ensures |Encode(Str([]))| <= 1 && |Encode(Str(Zeros(32)))| <= 65 && |Encode(List([]))| <= 1
  {
    StringLength([]);
    StringLength(Zeros(32));
    ListLength([], 0);
  }

  lemma BlobHeaderLength(point: G1Point)
    ensures |Encode(BlobHeaderItem(Info(point).blobCertificate.blobHeader))| <= 16_713
  {
    hide Encode, G1Item, G2Item, Zeros, Conforms;
    PointLength(point);
    OriginLengths();
    NumLength(0);
    NumLength(2);
    BytesLength();
    var blob := BlobCommitment(point, ORIGIN2, ORIGIN2, 2);
    ListLength([G1Item(point), G2Item(ORIGIN2), G2Item(ORIGIN2), Num(2)], 261);
    ListLength([Num(0), Str([]), BlobCommitmentItem(blob), Str(Zeros(32))], 2089);
  }

  lemma InfoLength(point: G1Point)
    ensures |Encode(BlobInclusionItem(Info(point)))| <= 700_000
  {
    hide Encode, BlobHeaderItem, Zeros, Conforms;
    NumLength(0);
    BytesLength();
    BlobHeaderLength(point);
    var certificate := Info(point).blobCertificate;
    assert U32sItem([]) == List([]);
    ListLength([BlobHeaderItem(certificate.blobHeader), Str([]), U32sItem([])], 16_713);
    ListLength([BlobCertificateItem(certificate), Num(0), Str([])], 100_279);
  }

  lemma NonSignersLength()
    ensures |Encode(NonSignerItem(NON_SIGNERS))| <= 849
  {
    hide Encode, G1Item, G2Item, Zeros, Conforms;
    OriginLengths();
    BytesLength();
    var none := List([]);
    assert U32sItem([]) == none && G1sItem([]) == none && U32ssItem([]) == none;
    ListLength([none, none, none, G2Item(ORIGIN2), G1Item(ORIGIN), none, none, none], 53);
  }

  lemma SampleLength(point: G1Point, rbn: U32)
    requires rbn < 256
    ensures |ToRlpBytes(Sample(point, rbn))| < 6_000_000
  {
    hide Encode, BlobInclusionItem, NonSignerItem, Zeros, Conforms, Info;
    InfoLength(point);
    NonSignersLength();
    NumLength(rbn);
    BytesLength();
    var header := BatchHeaderV2(Zeros(32), rbn);
    ListLength([Str(Zeros(32)), Num(rbn)], 65);
    ListLength(
      [BatchHeaderItem(header), BlobInclusionItem(Info(point)), NonSignerItem(NON_SIGNERS), Str([])], 700_000);
  }

  /** The calldata that carries a sample. */
  function Calldata(point: G1Point, rbn: U32): seq<byte> {
    [ALTDA_DERIVATION_VERSION] + ToRlpBytes(Sample(point, rbn))
  }

  lemma CalldataParses(point: G1Point, rbn: U32)
    requires rbn < 256
    ensures Replay.ItemOf(Calldata(point, rbn)) == Replay.Cert(Sample(point, rbn))
  {
    hide TryFrom, CertItem, Sample;
    SampleLength(point, rbn);
    SampleKind(point, rbn);
    var bytes := ToRlpBytes(Sample(point, rbn));
    PrintParse(Sample(point, rbn), []);
    assert bytes + [] == bytes && Calldata(point, rbn)[1..] == bytes;
  }

  lemma SampleKind(point: G1Point, rbn: U32)
    ensures Sample(point, rbn).commitmentType == 1 && Sample(point, rbn).daLayerByte == 0
    ensures GetRbn(Sample(point, rbn)) == rbn && GetNumFieldElement(Sample(point, rbn)) == 2
    ensures GetKzgCommitment(Sample(point, rbn)) == point
    ensures forall bn :: Replay.Recent(Sample(point, rbn), bn)
  {
  }

  function Block(point: G1Point): seq<EthEvent> {
    [Data(Calldata(point, 1)), Data(Calldata(point, 2))]
  }

  /** Two valid certificates of two field elements in one block, with whatever commitment to a payload, and one
      failed payload fetch. The recording run ends well. Made into a witness with proofs that pass, its record is
      accepted by the preloaded provider, and the replay panics. */
  lemma RecordingDoesNotReplay(
      point: G1Point, bn: nat,
      proofs: seq<KzgProof>, canoe: Option<seq<byte>>, V: Verifiers, head: L1Head, w: EigenDAWitness)
    requires var start := State(Block(point), None, Replay.Blank(false));
             var r := Run(Recorder(Replay.Counted(Replay.FailsOnce())), start, bn, 2).0.provider;
             FromPreimage(EigenDAPreimage(r.validities, r.payloads), proofs, canoe) == Success(w)
    requires CanoePasses(V, head, w) && V.batch(Blobs(w), CommitmentPoints(w), proofs)
    ensures var start := State(Block(point), None, Replay.Blank(false));
            Run(Recorder(Replay.Counted(Replay.FailsOnce())), start, bn, 2).1 == [ProviderTemporary, Eof]
    ensures Accepts(V, head, w)
    ensures var q := Queues(w.validities, WitnessEntries(w));
            Run(Preloaded(), State(Block(point), None, q), bn, 1).1 == [Aborted]
  {
    hide Run, Recorder, Preloaded, Calldata, Sample, Replay.Recent, Replay.ItemOf, Replay.Counted, Replay.Blank;
    hide FromPreimage, IntoPreimage, Accepts, CanoePasses, Replay.FailsOnce;
    SampleKind(point, 1);
    SampleKind(point, 2);
    CalldataParses(point, 1);
    CalldataParses(point, 2);
    Replay.RetriedPayloadAborts(Calldata(point, 1), Calldata(point, 2), Sample(point, 1), Sample(point, 2), bn,
                                proofs, canoe, V, head, w);
  }

  // With the batch verifier of this project

  /** The payload of both certificates. */
  function Payload(): seq<byte> {
    [1] + Zeros(63)
  }

  lemma SamplePayload(point: G1Point, rbn: U32)
    ensures Replay.Undecodable(Sample(point, rbn)) == Payload()
  {
    hide Sample;
    SampleKind(point, rbn);
  }

  lemma WitnessOfSamples(
      point: G1Point, bn: nat, proofs: seq<KzgProof>, canoe: Option<seq<byte>>, w: EigenDAWitness)
    requires var start := State(Block(point), None, Replay.Blank(false));
             var r := Run(Recorder(Replay.Counted(Replay.FailsOnce())), start, bn, 2).0.provider;
             FromPreimage(EigenDAPreimage(r.validities, r.payloads), proofs, canoe) == Success(w)
    ensures Blobs(w) == [Payload(), Payload()] && CommitmentPoints(w) == [point, point] && IntoPreimage(w).1 == proofs
  {
    hide Run, Recorder, Preloaded, Calldata, Sample, Replay.Recent, Replay.ItemOf, Replay.Counted, Replay.Blank;
    hide FromPreimage, Replay.FailsOnce, Replay.Undecodable, GetKzgCommitment, Payload;
    var r := Run(Recorder(Replay.Counted(Replay.FailsOnce())), State(Block(point), None, Replay.Blank(false)), bn, 2)
             .0.provider;
    SampleKind(point, 1);
    SampleKind(point, 2);
    CalldataParses(point, 1);
    CalldataParses(point, 2);
    Replay.RetriedRecord(Calldata(point, 1), Calldata(point, 2), Sample(point, 1), Sample(point, 2), bn);
    SamplePayload(point, 1);
    SamplePayload(point, 2);
    WitnessRoundTrip(EigenDAPreimage(r.validities, r.payloads), proofs, canoe, w);
    var entries := IntoPreimage(w).0.encodedPayloads;
    assert entries == [(Sample(point, 1), Payload()), (Sample(point, 2), Payload())];
    assert |w.encodedPayloads| == 2 && entries[0].1 == Payload() && entries[1].1 == Payload();
    assert forall i :: 0 <= i < 2 ==> entries[i] == (w.encodedPayloads[i].0, w.encodedPayloads[i].1);
  }

  /** The same with commitments, proofs and verdict of the real thing: if neither point of the payload is the identity,
      the witness made of the record with the prover's proofs is accepted, and its replay panics. */
  lemma VerifiedRecordingDoesNotReplay<G1(!new), G2(!new), GT(!new)>(
      P: Setup<Residue>, E: Pairing<Residue, G1, G2, GT>, O: Oracle<G1>, point: G1Point, bn: nat,
      proof: KzgProof, canoe: Option<seq<byte>>, V: Verifiers, head: L1Head, w: EigenDAWitness)
    requires IsSetup(P) && IsPairing(P.K, E) && IsCurveGroup(E, O)
    requires Provable(P, E, O, Payload()) && HonestEntry(P, E, O, Payload(), point, proof)
    requires var start := State(Block(point), None, Replay.Blank(false));
             var r := Run(Recorder(Replay.Counted(Replay.FailsOnce())), start, bn, 2).0.provider;
             FromPreimage(EigenDAPreimage(r.validities, r.payloads), [proof, proof], canoe) == Success(w)
    requires CanoePasses(V, head, w)
    requires V.batch(Blobs(w), CommitmentPoints(w), [proof, proof])
             <==> Accepted(P, E, O, Blobs(w), CommitmentPoints(w), [proof, proof])
    ensures Accepts(V, head, w)
    ensures var q := Queues(w.validities, WitnessEntries(w));
            Run(Preloaded(), State(Block(point), None, q), bn, 1).1 == [Aborted]
  {
    hide Run, Recorder, Preloaded, Replay.Counted, Replay.Blank, FromPreimage, IntoPreimage, Accepts, CanoePasses;
    hide Replay.FailsOnce, IsSetup, IsPairing, IsCurveGroup, Provable, HonestEntry, Accepted, Payload, Block;
    hide Blobs, CommitmentPoints;
    WitnessOfSamples(point, bn, [proof, proof], canoe, w);
    HonestVerdict(P, E, O, [Payload(), Payload()], [point, point], [proof, proof]);
    RecordingDoesNotReplay(point, bn, [proof, proof], canoe, V, head, w);
  }
}

/** The rules of derivation in plain terms: every number written out, and no function of the machine in the statement
    but the one it is about. */
module Rules {
  import opened Prelude
  import opened Bytes
  import opened Rlp
  import opened Commitment
  import opened Derivation
  import opened Runs

  // Certificates

  /** What derivation reads from a certificate: the blob length, the reference block number and the KZG commitment,
      from the same fields in every version. */
  lemma FieldsRead(kind: byte, layer: byte, info: BlobInclusionInfo, batch: BatchHeaderV2,
                   nonSigner: NonSignerStakesAndSignature, quorums: seq<byte>, version: U16)
    ensures forall cert :: cert in [V2(info, batch, nonSigner, quorums), V3(batch, info, nonSigner, quorums),
                                    V4(batch, info, nonSigner, quorums, version)] ==>
              var c := AltDACommitment(kind, layer, cert);
              && GetNumFieldElement(c) == info.blobCertificate.blobHeader.commitment.length
              && GetRbn(c) == batch.referenceBlockNumber
              && GetKzgCommitment(c) == info.blobCertificate.blobHeader.commitment.commitment
  {
  }

  /** The three bytes in front of the certificate: type, layer, and 1, 2 or 3 for V2, V3 and V4. */
  lemma PrintHead(c: AltDACommitment)
    ensures ToRlpBytes(c)[..3]
            == [c.commitmentType, c.daLayerByte,
                match c.versionedCert
                case V2(_, _, _, _) => 1
                case V3(_, _, _, _) => 2
                case V4(_, _, _, _, _) => 3]
  {
    hide Encode, CertItem;
  }

  /** Which error a parse ends in, when the certificate itself is not reached. */
  lemma ParseErrors(value: seq<byte>)
    ensures TryFrom(value) == Failure(InsufficientData) <==> |value| < 4
    ensures TryFrom(value) == Failure(UnsupportedCommitmentType) <==> |value| >= 4 && value[0] != 1
    ensures TryFrom(value) == Failure(UnsupportedDaLayerType) <==> |value| >= 4 && value[0] == 1 && value[1] != 0
    ensures forall v: byte :: TryFrom(value) == Failure(UnsupportedCertVersionType(v))
                              <==> |value| >= 4 && value[0] == 1 && value[1] == 0 && value[2] == v && (v == 0 || v > 3)
  {
    if |value| >= 4 && value[2] in {1, 2, 3} {
      CertErrors(value[2], value[3..]);
    }
  }

  lemma CertErrors(version: byte, buf: seq<byte>)
    requires 1 <= version <= 3
    ensures DecodeCert(version, buf).Failure? ==> DecodeCert(version, buf) == Failure(InvalidRlpCert)
  {
    hide Decode, VersionSchema, ItemCert;
  }

  /** Calldata is a commitment exactly when, after its first byte, it starts with the print of one. */
  lemma CalldataExactly(data: seq<byte>, c: AltDACommitment)
    requires data != [] && |data| < MAX_SIZE
    ensures ParseCalldata(data) == Some(c)
            <==> c.commitmentType == 1 && c.daLayerByte == 0 && ToRlpBytes(c) <= data[1..]
  {
    TryFromIsInverse(data[1..], c);
    PrintLong(c);
    hide TryFrom, ToRlpBytes;
  }

  lemma PrintLong(c: AltDACommitment)
    ensures |ToRlpBytes(c)| >= 4
  {
    hide CertItem;
  }

  // Recency

  /** What the source does once the provider has answered, with the block number of the commitment's inclusion. An
      invalid certificate is discarded. Of the valid ones, a V4 certificate of offchain derivation version 0 is
      discarded, before any payload is fetched, exactly when it was included more than 14400 blocks after its reference
      block; V2 and V3 go on to the fetch; and a V4 certificate of another version is a critical error. */
  lemma SourceRule<S>(P: Provider<S>, s: S, c: AltDACommitment, bn: nat)
    ensures var (s', validity) := P.getValidity(s, c);
            && (validity == Got(false) ==> SourceNext(P, s, c, bn) == (s', Err(Discard)))
            && (validity == Got(true) ==>
                  SourceNext(P, s, c, bn)
                  == match c.versionedCert
                     case V2(_, _, _, _) => P.getEncodedPayload(s', c)
                     case V3(_, _, _, _) => P.getEncodedPayload(s', c)
                     case V4(batch, _, _, _, version) =>
                       if version != 0 then (s', Err(Critical))
                       else if bn > batch.referenceBlockNumber + 14400 then (s', Err(Discard))
                       else P.getEncodedPayload(s', c))
            && (validity == Abort ==> SourceNext(P, s, c, bn) == (s', Abort))
            && (validity.Err? ==> SourceNext(P, s, c, bn) == (s', Err(validity.kind)))
  {
  }

  /** The same of the reference: what a valid certificate with its payload yields at a block. */
  lemma CommitmentRule(truth: Truth, c: AltDACommitment, bn: nat)
    ensures var recent := match c.versionedCert
                          case V2(_, _, _, _) => true
                          case V3(_, _, _, _) => true
                          case V4(batch, _, _, _, version) =>
                            version == 0 && bn <= batch.referenceBlockNumber + 14400;
            forall p :: CommitmentOutput(truth, c, bn) == [p]
                        <==> truth.validity(c) && recent && Codec.Decode(truth.payload(c)) == Success(p)
    ensures |CommitmentOutput(truth, c, bn)| <= 1
  {
    hide Codec.Decode;
  }

  // Items

  /** What an L1 item yields: data that does not begin with the byte 1 itself; data that does, what the commitment it
      carries yields, and nothing if it carries none. */
  lemma ItemRule(truth: Truth, data: seq<byte>, bn: nat)
    ensures data == [] ==> ItemOutput(truth, data, bn) == []
    ensures data != [] && data[0] != 1 ==> ItemOutput(truth, data, bn) == [data]
    ensures data != [] && data[0] == 1 && |data| < MAX_SIZE ==>
              forall c: AltDACommitment :: c.commitmentType == 1 && c.daLayerByte == 0 && ToRlpBytes(c) <= data[1..] ==>
                ItemOutput(truth, data, bn) == CommitmentOutput(truth, c, bn)
    ensures data != [] && data[0] == 1 && |data| < MAX_SIZE
            && (forall c: AltDACommitment ::
                  c.commitmentType == 1 && c.daLayerByte == 0 ==> !(ToRlpBytes(c) <= data[1..]))
            ==> ItemOutput(truth, data, bn) == []
  {
    hide ParseCalldata, CommitmentOutput, ToRlpBytes;
    if data != [] && |data| < MAX_SIZE {
      forall c: AltDACommitment
        ensures ParseCalldata(data) == Some(c)
                <==> c.commitmentType == 1 && c.daLayerByte == 0 && ToRlpBytes(c) <= data[1..]
      {
        CalldataExactly(data, c);
      }
    }
  }

  // The codec

  /** The header of `len`: zero, version 0, the length in four bytes, and 26 zeros. */
  lemma HeaderBytes(e: seq<byte>, len: nat)
    requires |e| >= 32
    ensures Codec.DecodeHeader(e) == Success(len)
            <==> len < 0x1_0000_0000 && e[0] == 0 && e[1] == 0 && e[2..6] == ToBytesBE(len, 4) && e[6..32] == Zeros(26)
  {
    hide ToBytesBE;
    Codec.HeaderIsInverse(e, len);
    Codec.HeaderParts(len);
    if e[0] == 0 && e[1] == 0 && e[2..6] == ToBytesBE(len, 4) && e[6..32] == Zeros(26) {
      assert e[..32] == [e[0], e[1]] + e[2..6] + e[6..32];
    }
    SliceOfSlice(e, 0, 32, 2, 6);
    SliceOfSlice(e, 0, 32, 6, 32);
    assert e[0] == e[..32][0] && e[1] == e[..32][1];
  }

  /** Which error a length ends in. */
  lemma LengthErrors(e: seq<byte>)
    ensures |e| < 32 <==> Codec.CheckLenInvariant(e) == Failure(Codec.PayloadTooShortForHeader(|e|))
    ensures |e| >= 32 && |e| % 32 != 0
            <==> Codec.CheckLenInvariant(e) == Failure(Codec.InvalidLengthEncodedPayload(|e|))
    ensures |e| >= 32 && |e| % 32 == 0 && !IsPowerOfTwo(|e| / 32)
            <==> Codec.CheckLenInvariant(e) == Failure(Codec.InvalidPowerOfTwoLength(|e| / 32))
  {
    if |e| >= 32 {
      PowerOfTwoBits(|e| / 32);
    }
  }

  /** Where the payload is in its encoding: byte `i` in field element `1 + i / 31`, after that element's first byte,
      which is zero; and zeros behind it. */
  lemma EncodedBytes(p: seq<byte>, n: nat)
    requires n > 0 && |p| <= 31 * (n - 1)
    ensures var e := Codec.Encode(p, n);
            && |e| == 32 * n
            && (forall k :: 0 <= k < n ==> e[32 * k] == 0)
            && (forall i :: 0 <= i < |p| ==>
                  33 + 32 * (i / 31) + i % 31 < |e| && e[33 + 32 * (i / 31) + i % 31] == p[i])
            && (forall i :: |p| <= i < 31 * (n - 1) ==>
                  33 + 32 * (i / 31) + i % 31 < |e| && e[33 + 32 * (i / 31) + i % 31] == 0)
  {
    hide Codec.Pad;
    var x := p + Zeros(31 * (n - 1) - |p|);
    var e, body := Codec.Encode(p, n), Codec.Pad(x);
    Codec.HeaderParts(|p|);
    forall k | 0 <= k < n
      ensures e[32 * k] == 0
    {
      if k > 0 {
        PadAt(x, k - 1, 0);
        assert e[32 * k] == body[32 * (k - 1)];
      }
    }
    forall i | 0 <= i < |x|
      ensures 33 + 32 * (i / 31) + i % 31 < |e| && e[33 + 32 * (i / 31) + i % 31] == x[i]
    {
      PadAt(x, i / 31, i % 31);
      assert e[32 + (1 + 32 * (i / 31) + i % 31)] == body[1 + 32 * (i / 31) + i % 31];
    }
  }

  lemma {:induction false} PadAt(x: seq<byte>, k: nat, j: nat)
    requires |x| % 31 == 0 && 31 * k + j < |x| && j < 31
    ensures 1 + 32 * k + j < |Codec.Pad(x)|
    ensures Codec.Pad(x)[32 * k] == 0 && Codec.Pad(x)[1 + 32 * k + j] == x[31 * k + j]
    decreases k
  {
    hide Codec.Pad;
    Codec.PadFirst(x);
    var rest := Codec.Pad(x[31..]);
    var all := [0] + x[..31] + rest;
    if k > 0 {
      PadAt(x[31..], k - 1, j);
      assert all[32 + 32 * (k - 1)] == rest[32 * (k - 1)];
      assert all[32 + (1 + 32 * (k - 1) + j)] == rest[1 + 32 * (k - 1) + j];
    } else {
      assert all[0] == 0 && all[1 + j] == x[j];
    }
  }

  // RLP

  /** Examples: short strings and lists. */
  lemma RlpShort()
    ensures Encode(Str([100, 111, 103])) == [0x83, 100, 111, 103]
    ensures Encode(List([Str([99, 97, 116]), Str([100, 111, 103])])) == [0xc8, 0x83, 99, 97, 116, 0x83, 100, 111, 103]
    ensures Encode(Str([])) == [0x80] && Encode(List([])) == [0xc0] && Encode(Str([0x7f])) == [0x7f]
  {
    hide MinimalBE;
    var cat, dog := Str([99, 97, 116]), Str([100, 111, 103]);
    assert Encode(cat) == [0x83, 99, 97, 116] && Encode(dog) == [0x83, 100, 111, 103];
    Pair(cat, dog);
  }

  lemma Pair(i: Item, j: Item)
    ensures EncodeAll([i, j]) == Encode(i) + Encode(j)
    ensures EncodeAll([i]) == Encode(i)
  {
    hide Encode;
    EncodeAllCons([i, j]);
    EncodeAllCons([j]);
    EncodeAllCons([i]);
    assert [i, j][1..] == [j] && [j][1..] == [] && [i][1..] == [];
  }

  /** Examples: integers. */
  lemma RlpIntegers()
    ensures Encode(Num(0)) == [0x80] && Encode(Num(15)) == [0x0f] && Encode(Num(1024)) == [0x82, 4, 0]
  {
    assert MinimalBE(0) == [] && MinimalBE(15) == [15] && MinimalBE(4) == [4];
    assert MinimalBE(1024) == MinimalBE(4) + [0] == [4, 0];
  }

  lemma TwoLengths()
    ensures MinimalBE(56) == [56] && MinimalBE(58) == [58]
  {
  }

  /** Examples: the shortest string with a length of its own, and a list of it. */
  lemma RlpLong(long: seq<byte>)
    requires |long| == 56
    ensures Encode(Str(long)) == [0xb8, 56] + long
    ensures Encode(List([Str(long)])) == [0xf8, 58] + ([0xb8, 56] + long)
  {
    hide MinimalBE, EncodeAll;
    TwoLengths();
    Pair(Str(long), Str(long));
    assert [0xb8] + [56] == [0xb8, 56] && [0xf8] + [58] == [0xf8, 58];
  }

  /** The fields stand in the encoding in the order of their declaration. */
  lemma FieldOrder(n: NonSignerStakesAndSignature, h: BlobHeaderV2, b: BlobCommitment, p: G2Point)
    ensures NonSignerItem(n)
            == List([U32sItem(n.nonSignerQuorumBitmapIndices), G1sItem(n.nonSignerPubkeys), G1sItem(n.quorumApks),
                     G2Item(n.apkG2), G1Item(n.sigma), U32sItem(n.quorumApkIndices), U32sItem(n.totalStakeIndices),
                     U32ssItem(n.nonSignerStakeIndices)])
    ensures BlobCommitmentItem(b)
            == List([G1Item(b.commitment), G2Item(b.lengthCommitment), G2Item(b.lengthProof), Num(b.length)])
    ensures BlobHeaderItem(h)
            == List([Num(h.version), Str(h.quorumNumbers), BlobCommitmentItem(h.commitment), Str(h.paymentHeaderHash)])
    ensures G2Item(p) == List([List([Num(p.x.c0), Num(p.x.c1)]), List([Num(p.y.c0), Num(p.y.c1)])])
    ensures G1Item(b.commitment) == List([Num(b.commitment.x), Num(b.commitment.y)])
  {
    hide Conforms;
  }
}

/** DA certificates, and the commitment that carries one through L1 calldata. */
module Commitment {
  import opened Prelude
  import opened Bytes
  import opened Rlp

  type U16 = x: nat | x < Pow256(2)
  type U32 = x: nat | x < Pow256(4)
  type U256 = x: nat | x < Pow256(32)
  type Bytes32 = b: seq<byte> | |b| == 32 witness Zeros(32)

  datatype G1Point = G1Point(x: U256, y: U256)
  datatype Fp2 = Fp2(c0: U256, c1: U256)
  datatype G2Point = G2Point(x: Fp2, y: Fp2)
  datatype BlobCommitment = BlobCommitment(
    commitment: G1Point, lengthCommitment: G2Point, lengthProof: G2Point, length: U32)
  datatype BlobHeaderV2 = BlobHeaderV2(
    version: U16, quorumNumbers: seq<byte>, commitment: BlobCommitment, paymentHeaderHash: Bytes32)
  datatype BlobCertificate = BlobCertificate(
    blobHeader: BlobHeaderV2, signature: seq<byte>, relayKeys: seq<U32>)
  datatype BlobInclusionInfo = BlobInclusionInfo(
    blobCertificate: BlobCertificate, blobIndex: U32, inclusionProof: seq<byte>)
  datatype BatchHeaderV2 = BatchHeaderV2(batchRoot: Bytes32, referenceBlockNumber: U32)
  datatype NonSignerStakesAndSignature = NonSignerStakesAndSignature(
    nonSignerQuorumBitmapIndices: seq<U32>, nonSignerPubkeys: seq<G1Point>, quorumApks: seq<G1Point>,
    apkG2: G2Point, sigma: G1Point, quorumApkIndices: seq<U32>, totalStakeIndices: seq<U32>,
    nonSignerStakeIndices: seq<seq<U32>>)

  datatype VersionedCert =
    | V2(blobInclusionInfo: BlobInclusionInfo, batchHeaderV2: BatchHeaderV2,
         nonSignerStakesAndSignature: NonSignerStakesAndSignature, signedQuorumNumbers: seq<byte>)
    | V3(batchHeaderV2: BatchHeaderV2, blobInclusionInfo: BlobInclusionInfo,
         nonSignerStakesAndSignature: NonSignerStakesAndSignature, signedQuorumNumbers: seq<byte>)
    | V4(batchHeaderV2: BatchHeaderV2, blobInclusionInfo: BlobInclusionInfo,
         nonSignerStakesAndSignature: NonSignerStakesAndSignature, signedQuorumNumbers: seq<byte>,
         offchainDerivationVersion: U16)

  datatype AltDACommitment = AltDACommitment(commitmentType: byte, daLayerByte: byte, versionedCert: VersionedCert)

  // Shapes, in the field order of the derived encoders

  const U16_SCHEMA := Uint(2)
  const U32_SCHEMA := Uint(4)
  const U256_SCHEMA := Uint(32)
  const BYTES32_SCHEMA := Fixed(32)
  const G1_SCHEMA := Struct([U256_SCHEMA, U256_SCHEMA])
  const G2_SCHEMA := Struct([G1_SCHEMA, G1_SCHEMA])
  const BLOB_COMMITMENT_SCHEMA := Struct([G1_SCHEMA, G2_SCHEMA, G2_SCHEMA, U32_SCHEMA])
  const BLOB_HEADER_SCHEMA := Struct([U16_SCHEMA, Blob, BLOB_COMMITMENT_SCHEMA, BYTES32_SCHEMA])
  const BLOB_CERTIFICATE_SCHEMA := Struct([BLOB_HEADER_SCHEMA, Blob, ListOf(U32_SCHEMA)])
  const BLOB_INCLUSION_SCHEMA := Struct([BLOB_CERTIFICATE_SCHEMA, U32_SCHEMA, Blob])
  const BATCH_HEADER_SCHEMA := Struct([BYTES32_SCHEMA, U32_SCHEMA])
  const NON_SIGNER_SCHEMA := Struct([
    ListOf(U32_SCHEMA), ListOf(G1_SCHEMA), ListOf(G1_SCHEMA), G2_SCHEMA, G1_SCHEMA,
    ListOf(U32_SCHEMA), ListOf(U32_SCHEMA), ListOf(ListOf(U32_SCHEMA))])
  const V2_SCHEMA := Struct([BLOB_INCLUSION_SCHEMA, BATCH_HEADER_SCHEMA, NON_SIGNER_SCHEMA, Blob])
  const V3_SCHEMA := Struct([BATCH_HEADER_SCHEMA, BLOB_INCLUSION_SCHEMA, NON_SIGNER_SCHEMA, Blob])
  const V4_SCHEMA := Struct([BATCH_HEADER_SCHEMA, BLOB_INCLUSION_SCHEMA, NON_SIGNER_SCHEMA, Blob, U16_SCHEMA])

  // Conversions. Each pair is a bijection between the values and the items of the shape.

  function U16Item(x: U16): (i: Item)
    ensures Conforms(i, U16_SCHEMA)
  {
    Num(x)
  }

  function ItemU16(i: Item): (x: U16)
    requires Conforms(i, U16_SCHEMA)
    ensures U16Item(x) == i
  {
    i.value
  }

  function U256Item(x: U256): (i: Item)
    ensures Conforms(i, U256_SCHEMA)
  {
    Num(x)
  }

  function ItemU256(i: Item): (x: U256)
    requires Conforms(i, U256_SCHEMA)
    ensures U256Item(x) == i
  {
    i.value
  }

  function BytesItem(b: seq<byte>): (i: Item)
    ensures Conforms(i, Blob)
  {
    Str(b)
  }

  function ItemBytes(i: Item): (b: seq<byte>)
    requires Conforms(i, Blob)
    ensures BytesItem(b) == i
  {
    i.bytes
  }

  function Bytes32Item(b: Bytes32): (i: Item)
    ensures Conforms(i, BYTES32_SCHEMA)
  {
    Str(b)
  }

  function ItemBytes32(i: Item): (b: Bytes32)
    requires Conforms(i, BYTES32_SCHEMA)
    ensures Bytes32Item(b) == i
  {
    i.bytes
  }

  function U32Item(x: U32): (i: Item)
    ensures Conforms(i, U32_SCHEMA)
  {
    Num(x)
  }

  function ItemU32(i: Item): (x: U32)
    requires Conforms(i, U32_SCHEMA)
    ensures U32Item(x) == i
  {
    i.value
  }

  function U32sItem(xs: seq<U32>): (i: Item)
    ensures Conforms(i, ListOf(U32_SCHEMA))
  {
    List(seq(|xs|, k requires 0 <= k < |xs| => U32Item(xs[k])))
  }

  function ItemU32s(i: Item): (xs: seq<U32>)
    requires Conforms(i, ListOf(U32_SCHEMA))
    ensures U32sItem(xs) == i
  {
    seq(|i.items|, k requires 0 <= k < |i.items| => ItemU32(i.items[k]))
  }

  function U32ssItem(xs: seq<seq<U32>>): (i: Item)
    ensures Conforms(i, ListOf(ListOf(U32_SCHEMA)))
  {
    List(seq(|xs|, k requires 0 <= k < |xs| => U32sItem(xs[k])))
  }

  function ItemU32ss(i: Item): (xs: seq<seq<U32>>)
    requires Conforms(i, ListOf(ListOf(U32_SCHEMA)))
    ensures U32ssItem(xs) == i
  {
    seq(|i.items|, k requires 0 <= k < |i.items| => ItemU32s(i.items[k]))
  }

  function G1Item(p: G1Point): (i: Item)
    ensures Conforms(i, G1_SCHEMA)
  {
    hide Conforms;
    var i := List([U256Item(p.x), U256Item(p.y)]);
    OpenStruct(i, G1_SCHEMA.fields);
    i
  }

  function ItemG1(i: Item): (p: G1Point)
    requires Conforms(i, G1_SCHEMA)
    ensures G1Item(p) == i
  {
    hide Conforms, ItemU256, U256Item;
    OpenStruct(i, G1_SCHEMA.fields);
    assert Conforms(i.items[0], U256_SCHEMA) && Conforms(i.items[1], U256_SCHEMA);
    G1Point(ItemU256(i.items[0]), ItemU256(i.items[1]))
  }

  function G1sItem(xs: seq<G1Point>): (i: Item)
    ensures Conforms(i, ListOf(G1_SCHEMA))
  {
    List(seq(|xs|, k requires 0 <= k < |xs| => G1Item(xs[k])))
  }

  function ItemG1s(i: Item): (xs: seq<G1Point>)
    requires Conforms(i, ListOf(G1_SCHEMA))
    ensures G1sItem(xs) == i
  {
    seq(|i.items|, k requires 0 <= k < |i.items| => ItemG1(i.items[k]))
  }

  function G2Item(p: G2Point): (i: Item)
    ensures Conforms(i, G2_SCHEMA)
  {
    hide Conforms;
    var i := List([G1Item(G1Point(p.x.c0, p.x.c1)), G1Item(G1Point(p.y.c0, p.y.c1))]);
    OpenStruct(i, G2_SCHEMA.fields);
    i
  }

  function ItemG2(i: Item): (p: G2Point)
    requires Conforms(i, G2_SCHEMA)
    ensures G2Item(p) == i
  {
    hide Conforms, ItemG1, G1Item;
    OpenStruct(i, G2_SCHEMA.fields);
    assert Conforms(i.items[0], G1_SCHEMA) && Conforms(i.items[1], G1_SCHEMA);
    var x, y := ItemG1(i.items[0]), ItemG1(i.items[1]);
    G2Point(Fp2(x.x, x.y), Fp2(y.x, y.y))
  }

  function BlobCommitmentItem(c: BlobCommitment): (i: Item)
    ensures Conforms(i, BLOB_COMMITMENT_SCHEMA)
  {
    hide Conforms;
    var i := List([G1Item(c.commitment), G2Item(c.lengthCommitment), G2Item(c.lengthProof), U32Item(c.length)]);
    OpenStruct(i, BLOB_COMMITMENT_SCHEMA.fields);
    i
  }

  function ItemBlobCommitment(i: Item): (c: BlobCommitment)
    requires Conforms(i, BLOB_COMMITMENT_SCHEMA)
    ensures BlobCommitmentItem(c) == i
  {
    hide Conforms, ItemG1, ItemG2, ItemU32, G1Item, G2Item, U32Item;
    OpenStruct(i, BLOB_COMMITMENT_SCHEMA.fields);
    assert Conforms(i.items[0], G1_SCHEMA) && Conforms(i.items[1], G2_SCHEMA);
    assert Conforms(i.items[2], G2_SCHEMA) && Conforms(i.items[3], U32_SCHEMA);
    BlobCommitment(ItemG1(i.items[0]), ItemG2(i.items[1]), ItemG2(i.items[2]), ItemU32(i.items[3]))
  }

  function BlobHeaderItem(h: BlobHeaderV2): (i: Item)
    ensures Conforms(i, BLOB_HEADER_SCHEMA)
  {
    hide Conforms;
    var i := List([U16Item(h.version), BytesItem(h.quorumNumbers), BlobCommitmentItem(h.commitment),
                   Bytes32Item(h.paymentHeaderHash)]);
    OpenStruct(i, BLOB_HEADER_SCHEMA.fields);
    i
  }

  function ItemBlobHeader(i: Item): (h: BlobHeaderV2)
    requires Conforms(i, BLOB_HEADER_SCHEMA)
    ensures BlobHeaderItem(h) == i
  {
    hide Conforms, ItemBlobCommitment, ItemBytes, ItemBytes32, ItemU16;
    hide BlobCommitmentItem, BytesItem, Bytes32Item, U16Item;
    OpenStruct(i, BLOB_HEADER_SCHEMA.fields);
    assert Conforms(i.items[0], U16_SCHEMA) && Conforms(i.items[1], Blob);
    assert Conforms(i.items[2], BLOB_COMMITMENT_SCHEMA) && Conforms(i.items[3], BYTES32_SCHEMA);
    BlobHeaderV2(
      ItemU16(i.items[0]), ItemBytes(i.items[1]), ItemBlobCommitment(i.items[2]), ItemBytes32(i.items[3]))
  }

  function BlobCertificateItem(c: BlobCertificate): (i: Item)
    ensures Conforms(i, BLOB_CERTIFICATE_SCHEMA)
  {
    hide Conforms;
    var i := List([BlobHeaderItem(c.blobHeader), BytesItem(c.signature), U32sItem(c.relayKeys)]);
    OpenStruct(i, BLOB_CERTIFICATE_SCHEMA.fields);
    i
  }

  function ItemBlobCertificate(i: Item): (c: BlobCertificate)
    requires Conforms(i, BLOB_CERTIFICATE_SCHEMA)
    ensures BlobCertificateItem(c) == i
  {
    hide Conforms, ItemBlobHeader, ItemBytes, ItemU32s, BlobHeaderItem, BytesItem, U32sItem;
    OpenStruct(i, BLOB_CERTIFICATE_SCHEMA.fields);
    assert Conforms(i.items[0], BLOB_HEADER_SCHEMA) && Conforms(i.items[1], Blob);
    assert Conforms(i.items[2], ListOf(U32_SCHEMA));
    BlobCertificate(ItemBlobHeader(i.items[0]), ItemBytes(i.items[1]), ItemU32s(i.items[2]))
  }

  function BlobInclusionItem(b: BlobInclusionInfo): (i: Item)
    ensures Conforms(i, BLOB_INCLUSION_SCHEMA)
  {
    hide Conforms;
    var i := List([BlobCertificateItem(b.blobCertificate), U32Item(b.blobIndex), BytesItem(b.inclusionProof)]);
    OpenStruct(i, BLOB_INCLUSION_SCHEMA.fields);
    i
  }

  function ItemBlobInclusion(i: Item): (b: BlobInclusionInfo)
    requires Conforms(i, BLOB_INCLUSION_SCHEMA)
    ensures BlobInclusionItem(b) == i
  {
    hide Conforms, ItemBlobCertificate, ItemBytes, ItemU32, BlobCertificateItem, BytesItem, U32Item;
    OpenStruct(i, BLOB_INCLUSION_SCHEMA.fields);
    assert Conforms(i.items[0], BLOB_CERTIFICATE_SCHEMA) && Conforms(i.items[1], U32_SCHEMA);
    assert Conforms(i.items[2], Blob);
    BlobInclusionInfo(ItemBlobCertificate(i.items[0]), ItemU32(i.items[1]), ItemBytes(i.items[2]))
  }

  function BatchHeaderItem(h: BatchHeaderV2): (i: Item)
    ensures Conforms(i, BATCH_HEADER_SCHEMA)
  {
    hide Conforms;
    var i := List([Bytes32Item(h.batchRoot), U32Item(h.referenceBlockNumber)]);
    OpenStruct(i, BATCH_HEADER_SCHEMA.fields);
    i
  }

  function ItemBatchHeader(i: Item): (h: BatchHeaderV2)
    requires Conforms(i, BATCH_HEADER_SCHEMA)
    ensures BatchHeaderItem(h) == i
  {
    hide Conforms, ItemBytes32, ItemU32, Bytes32Item, U32Item;
    OpenStruct(i, BATCH_HEADER_SCHEMA.fields);
    assert Conforms(i.items[0], BYTES32_SCHEMA) && Conforms(i.items[1], U32_SCHEMA);
    BatchHeaderV2(ItemBytes32(i.items[0]), ItemU32(i.items[1]))
  }

  function NonSignerItem(n: NonSignerStakesAndSignature): (i: Item)
    ensures Conforms(i, NON_SIGNER_SCHEMA)
  {
    hide Conforms;
    var i := List([U32sItem(n.nonSignerQuorumBitmapIndices), G1sItem(n.nonSignerPubkeys), G1sItem(n.quorumApks),
          G2Item(n.apkG2), G1Item(n.sigma), U32sItem(n.quorumApkIndices), U32sItem(n.totalStakeIndices),
          U32ssItem(n.nonSignerStakeIndices)]);
    OpenStruct(i, NON_SIGNER_SCHEMA.fields);
    i
  }

  function ItemNonSigner(i: Item): (n: NonSignerStakesAndSignature)
    requires Conforms(i, NON_SIGNER_SCHEMA)
    ensures NonSignerItem(n) == i
  {
    hide Conforms, ItemG1, ItemG1s, ItemG2, ItemU32s, ItemU32ss, G1Item, G1sItem, G2Item, U32sItem, U32ssItem;
    OpenStruct(i, NON_SIGNER_SCHEMA.fields);
    var f := i.items;
    assert Conforms(f[0], ListOf(U32_SCHEMA)) && Conforms(f[1], ListOf(G1_SCHEMA));
    assert Conforms(f[2], ListOf(G1_SCHEMA)) && Conforms(f[3], G2_SCHEMA) && Conforms(f[4], G1_SCHEMA);
    assert Conforms(f[5], ListOf(U32_SCHEMA)) && Conforms(f[6], ListOf(U32_SCHEMA));
    assert Conforms(f[7], ListOf(ListOf(U32_SCHEMA)));
    NonSignerStakesAndSignature(
      ItemU32s(f[0]), ItemG1s(f[1]), ItemG1s(f[2]), ItemG2(f[3]), ItemG1(f[4]), ItemU32s(f[5]), ItemU32s(f[6]),
      ItemU32ss(f[7]))
  }

  function VersionByte(c: VersionedCert): byte {
    match c
    case V2(_, _, _, _) => 1
    case V3(_, _, _, _) => 2
    case V4(_, _, _, _, _) => 3
  }

  function VersionSchema(version: byte): Schema {
    if version == 1 then V2_SCHEMA else if version == 2 then V3_SCHEMA else V4_SCHEMA
  }

  function CertSchema(c: VersionedCert): Schema {
    VersionSchema(VersionByte(c))
  }

  function CertItem(c: VersionedCert): (i: Item)
    ensures Conforms(i, CertSchema(c))
  {
    hide Conforms, BatchHeaderItem, BlobInclusionItem, NonSignerItem, BytesItem, U16Item;
    var i := CertFields(c);
    OpenStruct(i, CertSchema(c).fields);
    i
  }

  function CertFields(c: VersionedCert): Item {
    match c
    case V2(info, header, nonSigner, quorums) =>
      List([BlobInclusionItem(info), BatchHeaderItem(header), NonSignerItem(nonSigner), BytesItem(quorums)])
    case V3(header, info, nonSigner, quorums) =>
      List([BatchHeaderItem(header), BlobInclusionItem(info), NonSignerItem(nonSigner), BytesItem(quorums)])
    case V4(header, info, nonSigner, quorums, version) =>
      List([BatchHeaderItem(header), BlobInclusionItem(info), NonSignerItem(nonSigner), BytesItem(quorums),
            U16Item(version)])
  }

  function ItemV2(i: Item): (c: VersionedCert)
    requires Conforms(i, V2_SCHEMA)
    ensures c.V2? && CertItem(c) == i
  {
    hide Conforms, ItemBatchHeader, ItemBlobInclusion, ItemBytes, ItemNonSigner;
    hide BatchHeaderItem, BlobInclusionItem, BytesItem, NonSignerItem;
    OpenStruct(i, V2_SCHEMA.fields);
    var f := i.items;
    assert Conforms(f[0], BLOB_INCLUSION_SCHEMA) && Conforms(f[1], BATCH_HEADER_SCHEMA);
    assert Conforms(f[2], NON_SIGNER_SCHEMA) && Conforms(f[3], Blob);
    V2(ItemBlobInclusion(f[0]), ItemBatchHeader(f[1]), ItemNonSigner(f[2]), ItemBytes(f[3]))
  }

  function ItemV3(i: Item): (c: VersionedCert)
    requires Conforms(i, V3_SCHEMA)
    ensures c.V3? && CertItem(c) == i
  {
    hide Conforms, ItemBatchHeader, ItemBlobInclusion, ItemBytes, ItemNonSigner;
    hide BatchHeaderItem, BlobInclusionItem, BytesItem, NonSignerItem;
    OpenStruct(i, V3_SCHEMA.fields);
    var f := i.items;
    assert Conforms(f[0], BATCH_HEADER_SCHEMA) && Conforms(f[1], BLOB_INCLUSION_SCHEMA);
    assert Conforms(f[2], NON_SIGNER_SCHEMA) && Conforms(f[3], Blob);
    V3(ItemBatchHeader(f[0]), ItemBlobInclusion(f[1]), ItemNonSigner(f[2]), ItemBytes(f[3]))
  }

  function ItemV4(i: Item): (c: VersionedCert)
    requires Conforms(i, V4_SCHEMA)
    ensures c.V4? && CertItem(c) == i
  {
    hide Conforms, ItemBatchHeader, ItemBlobInclusion, ItemBytes, ItemNonSigner, ItemU16;
    hide BatchHeaderItem, BlobInclusionItem, BytesItem, NonSignerItem, U16Item;
    OpenStruct(i, V4_SCHEMA.fields);
    var f := i.items;
    assert Conforms(f[0], BATCH_HEADER_SCHEMA) && Conforms(f[1], BLOB_INCLUSION_SCHEMA);
    assert Conforms(f[2], NON_SIGNER_SCHEMA) && Conforms(f[3], Blob) && Conforms(f[4], U16_SCHEMA);
    V4(ItemBatchHeader(f[0]), ItemBlobInclusion(f[1]), ItemNonSigner(f[2]), ItemBytes(f[3]), ItemU16(f[4]))
  }

  // No two values share an item

  lemma U32sInjective(a: seq<U32>, b: seq<U32>)
    requires U32sItem(a) == U32sItem(b)
    ensures a == b
  {
    assert |a| == |U32sItem(a).items| == |b|;
    forall k | 0 <= k < |a|
      ensures a[k] == b[k]
    {
      assert U32sItem(a).items[k] == U32sItem(b).items[k];
    }
  }

  lemma U32ssInjective(a: seq<seq<U32>>, b: seq<seq<U32>>)
    requires U32ssItem(a) == U32ssItem(b)
    ensures a == b
  {
    assert |a| == |U32ssItem(a).items| == |b|;
    forall k | 0 <= k < |a|
      ensures a[k] == b[k]
    {
      assert U32ssItem(a).items[k] == U32ssItem(b).items[k];
      U32sInjective(a[k], b[k]);
    }
  }

  lemma G1Injective(a: G1Point, b: G1Point)
    requires G1Item(a) == G1Item(b)
    ensures a == b
  {
    assert G1Item(a).items[0] == G1Item(b).items[0] && G1Item(a).items[1] == G1Item(b).items[1];
  }

  lemma G1sInjective(a: seq<G1Point>, b: seq<G1Point>)
    requires G1sItem(a) == G1sItem(b)
    ensures a == b
  {
    assert |a| == |G1sItem(a).items| == |b|;
    forall k | 0 <= k < |a|
      ensures a[k] == b[k]
    {
      assert G1sItem(a).items[k] == G1sItem(b).items[k];
      G1Injective(a[k], b[k]);
    }
  }

  lemma G2Injective(a: G2Point, b: G2Point)
    requires G2Item(a) == G2Item(b)
    ensures a == b
  {
    var i, j := G2Item(a).items, G2Item(b).items;
    assert i[0] == j[0] && i[1] == j[1];
    G1Injective(G1Point(a.x.c0, a.x.c1), G1Point(b.x.c0, b.x.c1));
    G1Injective(G1Point(a.y.c0, a.y.c1), G1Point(b.y.c0, b.y.c1));
  }

  lemma BlobInclusionInjective(a: BlobInclusionInfo, b: BlobInclusionInfo)
    requires BlobInclusionItem(a) == BlobInclusionItem(b)
    ensures a == b
  {
    hide Conforms, G1Item, G2Item, U32sItem;
    var i, j := BlobInclusionItem(a).items, BlobInclusionItem(b).items;
    assert i[0] == j[0] && i[1] == j[1] && i[2] == j[2];
    var ca, cb := a.blobCertificate, b.blobCertificate;
    i, j := BlobCertificateItem(ca).items, BlobCertificateItem(cb).items;
    assert i[0] == j[0] && i[1] == j[1] && i[2] == j[2];
    U32sInjective(ca.relayKeys, cb.relayKeys);
    var ha, hb := ca.blobHeader, cb.blobHeader;
    i, j := BlobHeaderItem(ha).items, BlobHeaderItem(hb).items;
    assert i[0] == j[0] && i[1] == j[1] && i[2] == j[2] && i[3] == j[3];
    i, j := BlobCommitmentItem(ha.commitment).items, BlobCommitmentItem(hb.commitment).items;
    assert i[0] == j[0] && i[1] == j[1] && i[2] == j[2] && i[3] == j[3];
    G1Injective(ha.commitment.commitment, hb.commitment.commitment);
    G2Injective(ha.commitment.lengthCommitment, hb.commitment.lengthCommitment);
    G2Injective(ha.commitment.lengthProof, hb.commitment.lengthProof);
  }

  lemma BatchHeaderInjective(a: BatchHeaderV2, b: BatchHeaderV2)
    requires BatchHeaderItem(a) == BatchHeaderItem(b)
    ensures a == b
  {
    var i, j := BatchHeaderItem(a).items, BatchHeaderItem(b).items;
    assert i[0] == j[0] && i[1] == j[1];
  }

  lemma NonSignerInjective(a: NonSignerStakesAndSignature, b: NonSignerStakesAndSignature)
    requires NonSignerItem(a) == NonSignerItem(b)
    ensures a == b
  {
    hide Conforms, G1Item, G2Item, U32sItem, G1sItem, U32ssItem;
    var i, j := NonSignerItem(a).items, NonSignerItem(b).items;
    assert i[0] == j[0] && i[1] == j[1] && i[2] == j[2] && i[3] == j[3];
    assert i[4] == j[4] && i[5] == j[5] && i[6] == j[6] && i[7] == j[7];
    U32sInjective(a.nonSignerQuorumBitmapIndices, b.nonSignerQuorumBitmapIndices);
    G1sInjective(a.nonSignerPubkeys, b.nonSignerPubkeys);
    G1sInjective(a.quorumApks, b.quorumApks);
    G2Injective(a.apkG2, b.apkG2);
    G1Injective(a.sigma, b.sigma);
    U32sInjective(a.quorumApkIndices, b.quorumApkIndices);
    U32sInjective(a.totalStakeIndices, b.totalStakeIndices);
    U32ssInjective(a.nonSignerStakeIndices, b.nonSignerStakeIndices);
  }

  lemma CertInjective(a: VersionedCert, b: VersionedCert)
    requires VersionByte(a) == VersionByte(b) && CertItem(a) == CertItem(b)
    ensures a == b
  {
    hide Conforms, BlobInclusionItem, BatchHeaderItem, NonSignerItem;
    var i, j := CertItem(a).items, CertItem(b).items;
    assert i[0] == j[0] && i[1] == j[1] && i[2] == j[2] && i[3] == j[3];
    if a.V4? {
      assert i[4] == j[4];
    }
    BlobInclusionInjective(a.blobInclusionInfo, b.blobInclusionInfo);
    BatchHeaderInjective(a.batchHeaderV2, b.batchHeaderV2);
    NonSignerInjective(a.nonSignerStakesAndSignature, b.nonSignerStakesAndSignature);
  }

  // The commitment

  datatype ParseError =
    | InsufficientData
    | UnsupportedCommitmentType
    | UnsupportedDaLayerType
    | UnsupportedCertVersionType(version: byte)
    | InvalidRlpCert

  function ItemCert(version: byte, i: Item): (c: VersionedCert)
    requires 1 <= version <= 3 && Conforms(i, VersionSchema(version))
    ensures VersionByte(c) == version && CertItem(c) == i
  {
    hide Conforms, CertItem, ItemV2, ItemV3, ItemV4;
    if version == 1 then ItemV2(i) else if version == 2 then ItemV3(i) else ItemV4(i)
  }

  function DecodeCert(version: byte, buf: seq<byte>): (r: Result<VersionedCert, ParseError>)
    requires 1 <= version <= 3
    ensures r.Success? ==> VersionByte(r.value) == version
  {
    hide Conforms, Decode, ItemCert, VersionSchema;
    var decoded := Decode(VersionSchema(version), buf);
    if decoded == None then
      Failure(InvalidRlpCert)
    else
      DecodeConforms(VersionSchema(version), buf);
      Success(ItemCert(version, decoded.value.0))
  }

  lemma DecodeCertIsInverse(version: byte, buf: seq<byte>, c: VersionedCert)
    requires 1 <= version <= 3 && |buf| < MAX_SIZE
    ensures DecodeCert(version, buf) == Success(c) <==> VersionByte(c) == version && Encode(CertItem(c)) <= buf
  {
    hide Conforms, Decode, Encode, ItemCert, VersionSchema, CertItem;
    var s, i := VersionSchema(version), CertItem(c);
    if DecodeCert(version, buf) == Success(c) {
      var (j, rest) := Decode(s, buf).value;
      DecodeConforms(s, buf);
      DecodeIsInverse(s, buf, j, rest);
      assert ItemCert(version, j) == c && j == i;
    }
    if VersionByte(c) == version && Encode(i) <= buf {
      var rest := buf[|Encode(i)|..];
      assert buf == Encode(i) + rest;
      DecodeIsInverse(s, buf, i, rest);
      CertInjective(c, ItemCert(version, i));
    }
  }

  function TryFrom(value: seq<byte>): Result<AltDACommitment, ParseError> {
    if |value| < 4 then
      Failure(InsufficientData)
    else if value[0] != 1 then
      Failure(UnsupportedCommitmentType)
    else if value[1] != 0 then
      Failure(UnsupportedDaLayerType)
    else if value[2] !in {1, 2, 3} then
      Failure(UnsupportedCertVersionType(value[2]))
    else
      match DecodeCert(value[2], value[3..])
      case Failure(e) => Failure(e)
      case Success(cert) => Success(AltDACommitment(value[0], value[1], cert))
  }

  function ToRlpBytes(c: AltDACommitment): seq<byte> {
    [c.commitmentType, c.daLayerByte, VersionByte(c.versionedCert)] + Encode(CertItem(c.versionedCert))
  }

  method PrintRlpBytes(c: AltDACommitment) returns (bytes: seq<byte>)
    ensures bytes == ToRlpBytes(c)
  {
    hide Encode, CertItem;
    bytes := [];
    bytes := bytes + [c.commitmentType];
    bytes := bytes + [c.daLayerByte];
    bytes := bytes + [VersionByte(c.versionedCert)];
    bytes := bytes + Encode(CertItem(c.versionedCert));
  }

  /** A parse succeeds, with `c`, exactly on the print of `c` followed by anything. */
  lemma TryFromIsInverse(value: seq<byte>, c: AltDACommitment)
    requires |value| < MAX_SIZE
    ensures TryFrom(value) == Success(c)
            <==> c.commitmentType == 1 && c.daLayerByte == 0 && ToRlpBytes(c) <= value
  {
    var cert := c.versionedCert;
    hide DecodeCert, Encode, CertItem;
    var head, e := [c.commitmentType, c.daLayerByte, VersionByte(cert)], Encode(CertItem(cert));
    if |value| >= 4 {
      var tail := value[3..];
      assert value == value[..3] + tail;
      if value[2] in {1, 2, 3} {
        DecodeCertIsInverse(value[2], tail, cert);
      }
      if value[..3] == head && e <= tail {
        assert value[0] == head[0] && value[1] == head[1] && value[2] == head[2];
        assert value == (head + e) + tail[|e|..];
      }
      if ToRlpBytes(c) <= value {
        assert value[0] == (head + e)[0] && value[1] == (head + e)[1] && value[2] == (head + e)[2];
        assert tail[..|e|] == (head + e)[3..];
      }
    }
  }

  /** Parsing what was printed gives the commitment back, whatever trails it. */
  lemma PrintParse(c: AltDACommitment, trailing: seq<byte>)
    requires c.commitmentType == 1 && c.daLayerByte == 0
    requires |ToRlpBytes(c) + trailing| < MAX_SIZE
    ensures TryFrom(ToRlpBytes(c) + trailing) == Success(c)
  {
    TryFromIsInverse(ToRlpBytes(c) + trailing, c);
  }

  /** Different commitments print differently, across all three certificate versions. */
  lemma PrintInjective(c: AltDACommitment, d: AltDACommitment)
    requires ToRlpBytes(c) == ToRlpBytes(d) && |ToRlpBytes(c)| < MAX_SIZE
    ensures c == d
  {
    var s, t := ToRlpBytes(c), ToRlpBytes(d);
    hide Encode, CertItem;
    assert s[0] == t[0] && s[1] == t[1] && s[2] == t[2];
    assert s[3..] == Encode(CertItem(c.versionedCert)) && t[3..] == Encode(CertItem(d.versionedCert));
    DecodeCertIsInverse(s[2], s[3..], c.versionedCert);
    DecodeCertIsInverse(s[2], s[3..], d.versionedCert);
  }

  // What derivation reads from a certificate

  function GetNumFieldElement(c: AltDACommitment): U32 {
    c.versionedCert.blobInclusionInfo.blobCertificate.blobHeader.commitment.length
  }

  function GetRbn(c: AltDACommitment): U32 {
    c.versionedCert.batchHeaderV2.referenceBlockNumber
  }

  function GetKzgCommitment(c: AltDACommitment): G1Point {
    c.versionedCert.blobInclusionInfo.blobCertificate.blobHeader.commitment.commitment
  }
}

/** The two Fiat-Shamir transcripts, and the point and scalar encodings they are built from. */
module Transcript {
  import opened Prelude
  import opened Bytes
  import opened RootsOfUnity
  import opened ScalarField

  // The order of the BN254 base field.
  const FQ_MODULUS: nat :=
    21888242871839275222246405745257275088696311157297823662689037894645226208583

  const SIZE_OF_G1_AFFINE_COMPRESSED: nat := 32

  // ASCII of "EIGENDA_FSBLOBVERIFY_V1_" and "EIGENDA_RCKZGBATCH___V1_".
  const FIAT_SHAMIR_PROTOCOL_DOMAIN: seq<byte> :=
    [69, 73, 71, 69, 78, 68, 65, 95, 70, 83, 66, 76, 79, 66, 86, 69, 82, 73, 70, 89, 95, 86, 49, 95]
  const RANDOM_CHALLENGE_KZG_BATCH_DOMAIN: seq<byte> :=
    [69, 73, 71, 69, 78, 68, 65, 95, 82, 67, 75, 90, 71, 66, 65, 84, 67, 72, 95, 95, 95, 86, 49, 95]

  type Coordinate = x: nat | x < FQ_MODULUS

  datatype AffineG1 = Infinity | Affine(x: Coordinate, y: Coordinate)

  predicate OnCurve(p: AffineG1) {
    p.Affine? ==> Reduce(p.y * p.y, FQ_MODULUS) == Reduce(p.x * p.x * p.x + 3, FQ_MODULUS)
  }

  // Encodings

  function UsizeToBytesBE(n: nat): (s: seq<byte>)
    ensures |s| == 8
  {
    ToBytesBE(n, 8)
  }

  /** The canonical value, 32 bytes little-endian. */
  function SerializeFrLE(x: Residue): (s: seq<byte>)
    ensures |s| == 32
  {
    Reverse(ToBytesBE(x, 32))
  }

  /** `y > -y`, comparing canonical values. */
  predicate FqIsNegative(y: Coordinate) {
    y > (if y == 0 then 0 else FQ_MODULUS - y)
  }

  /** `b | 0x80`. */
  function SetTopBit(b: byte): byte {
    if b < 128 then b + 128 else b
  }

  /** Compressed form: x little-endian, with the sign of y or the infinity flag in the top two bits. */
  function SerializeG1Compressed(p: AffineG1): (s: seq<byte>)
    ensures |s| == 32
  {
    match p
    case Infinity => Zeros(31) + [64]
    case Affine(x, y) =>
      var le := Reverse(ToBytesBE(x, 32));
      if FqIsNegative(y) then le[31 := SetTopBit(le[31])] else le
  }

  lemma CurveEquation(p: AffineG1)
    requires p.Affine? && OnCurve(p)
    ensures (p.y * p.y) % FQ_MODULUS == (p.x * p.x * p.x + 3) % FQ_MODULUS
  {
    hide Reduce;
    ReduceIsMod(p.y * p.y, FQ_MODULUS);
    ReduceIsMod(p.x * p.x * p.x + 3, FQ_MODULUS);
  }

  lemma FieldBounds()
    ensures FR_MODULUS < Pow256(32) && FQ_MODULUS < 64 * Pow256(31)
  {
    Pow256Values();
  }

  lemma Pow256Values()
    ensures Pow256(31) == 0x100_0000_0000_0000_0000_0000_0000_0000_0000_0000_0000_0000_0000_0000_0000_0000
    ensures Pow256(32) == 256 * Pow256(31)
  {
    assert Pow256(1) == 256 && Pow256(7) == 0x100_0000_0000_0000 && Pow256(8) == 0x1_0000_0000_0000_0000;
    hide Pow256;
    Pow256Sum(8, 8);
    Pow256Sum(8, 7);
    Pow256Sum(16, 15);
    Pow256Sum(1, 31);
  }

  lemma SerializeFrInjective(x: Residue, y: Residue)
    requires SerializeFrLE(x) == SerializeFrLE(y)
    ensures x == y
  {
    FieldBounds();
    ReverseInjective(ToBytesBE(x, 32), ToBytesBE(y, 32));
    ToBytesInjective(x, y, 32);
  }

  lemma {:induction false} LeadingByte(x: nat, n: nat, c: nat)
    requires n > 0 && c <= 256 && x < c * Pow256(n - 1)
    ensures ToBytesBE(x, n)[0] < c
  {
    if n > 1 {
      LeadingByte(x / 256, n - 1, c);
    }
  }

  /** The base field has order below 2^254, so both flag bits are free. */
  lemma TopByteFree(x: Coordinate)
    ensures Reverse(ToBytesBE(x, 32))[31] < 64
  {
    FieldBounds();
    LeadingByte(x, 32, 64);
  }

  /** In a field, equal squares have equal or opposite roots. */
  lemma EqualSquares(y: nat, z: nat, p: nat)
    requires IsPrime(p) && z < y < p
    requires (y * y) % p == (z * z) % p
    ensures y + z == p
  {
    DifferenceOfSquares(y, z, p);
    PrimeDivides(p, y - z, y + z);
    OnlyMultiple(y + z, p);
  }

  lemma DifferenceOfSquares(y: nat, z: nat, p: nat)
    requires p > 0 && (y * y) % p == (z * z) % p
    ensures ((y - z) * (y + z)) % p == 0
  {
    SameResidue(y * y, z * z, p);
    assert (y - z) * (y + z) == y * y - z * z;
  }

  lemma OnlyMultiple(s: nat, p: nat)
    requires 0 < s < 2 * p && s % p == 0
    ensures s == p
  {
    assert s == p * (s / p);
  }

  lemma SameResidue(a: nat, b: nat, p: nat)
    requires p > 0 && a % p == b % p
    ensures (a - b) % p == 0
  {
    var k := a / p - b / p;
    assert a - b == p * k;
    ModUnique(a - b, k, 0, p);
  }

  lemma CompressedFlag(p: AffineG1)
    ensures var top := SerializeG1Compressed(p)[31];
            && (p.Infinity? <==> 64 <= top < 128)
            && (p.Affine? ==> (top >= 128 <==> FqIsNegative(p.y)))
  {
    if p.Affine? {
      TopByteFree(p.x);
    }
  }

  lemma CompressedX(p: AffineG1, q: AffineG1)
    requires p.Affine? && q.Affine?
    requires SerializeG1Compressed(p) == SerializeG1Compressed(q)
    ensures p.x == q.x
  {
    var le, le' := Reverse(ToBytesBE(p.x, 32)), Reverse(ToBytesBE(q.x, 32));
    TopByteFree(p.x);
    TopByteFree(q.x);
    CompressedFlag(p);
    CompressedFlag(q);
    forall i | 0 <= i < 32
      ensures le[i] == le'[i]
    {
      assert SerializeG1Compressed(p)[i] == SerializeG1Compressed(q)[i];
    }
    ReverseInjective(ToBytesBE(p.x, 32), ToBytesBE(q.x, 32));
    FieldBounds();
    ToBytesInjective(p.x, q.x, 32);
  }

  /** No two points of the curve have the same compressed form. */
  lemma CompressionInjective(p: AffineG1, q: AffineG1)
    requires IsPrime(FQ_MODULUS)
    requires OnCurve(p) && OnCurve(q)
    requires SerializeG1Compressed(p) == SerializeG1Compressed(q)
    ensures p == q
  {
    CompressedFlag(p);
    CompressedFlag(q);
    if p.Affine? {
      CompressedX(p, q);
      CurveEquation(p);
      CurveEquation(q);
      if p.y > q.y {
        EqualSquares(p.y, q.y, FQ_MODULUS);
      } else if q.y > p.y {
        EqualSquares(q.y, p.y, FQ_MODULUS);
      }
    }
  }

  // The transcript of a single blob

  function ChunkBE(x: Residue): (s: seq<byte>)
    ensures |s| == 32
  {
    ToBytesBE(x, 32)
  }

  function Chunks(data: seq<Residue>): (c: seq<seq<byte>>)
    ensures |c| == |data|
  {
    seq(|data|, i requires 0 <= i < |data| => ChunkBE(data[i]))
  }

  lemma ChunksLength(data: seq<Residue>)
    ensures |Flatten(Chunks(data))| == 32 * |data|
  {
    FlattenLength(Chunks(data), 32);
  }

  lemma ChunksPrefix(data: seq<Residue>, i: nat)
    requires i < |data|
    ensures Chunks(data[..i + 1]) == Chunks(data[..i]) + [ChunkBE(data[i])]
    ensures Flatten(Chunks(data[..i + 1])) == Flatten(Chunks(data[..i])) + ChunkBE(data[i])
    ensures Flatten(Chunks(data[..i + 1])) <= Flatten(Chunks(data))
    decreases |data| - i
  {
    assert Chunks(data[..i + 1]) == Chunks(data[..i]) + [ChunkBE(data[i])];
    FlattenSnoc(Chunks(data[..i]), ChunkBE(data[i]));
    if i + 1 < |data| {
      ChunksPrefix(data, i + 1);
    } else {
      assert data[..i + 1] == data;
    }
  }

  /** Copies into the part of the buffer that is still zero; `done` is what the buffer holds so far. */
  method CopyNext(buf: array<byte>, offset: nat, data: seq<byte>, ghost done: seq<byte>)
    requires offset + |data| <= buf.Length
    requires |done| == offset && buf[..] == done + Zeros(buf.Length - offset)
    modifies buf
    ensures buf[..] == (done + data) + Zeros(buf.Length - offset - |data|)
  {
    CopyInto(buf, offset, data);
  }

  lemma ChunkSlice(data: seq<Residue>, i: nat)
    requires i < |data|
    ensures |Flatten(Chunks(data))| == 32 * |data|
    ensures Flatten(Chunks(data))[32 * i..32 * (i + 1)] == ChunkBE(data[i])
  {
    hide ChunkBE;
    ChunksLength(data);
    ChunksPrefix(data, i);
    ChunksLength(data[..i]);
    assert Flatten(Chunks(data))[..32 * (i + 1)] == Flatten(Chunks(data[..i])) + ChunkBE(data[i]);
  }

  lemma Extend(all: seq<byte>, i: nat, j: nat, v: seq<byte>)
    requires i <= j <= |all| && v == all[i..j]
    ensures all[..i] + v == all[..j]
  {
  }

  /** The elements as 32 big-endian bytes each, cut to at most `maxOutputSize` bytes. */
  method ToByteArray(data: seq<Residue>, maxOutputSize: nat) returns (out: array<byte>)
    ensures fresh(out) && |Flatten(Chunks(data))| == 32 * |data|
    ensures maxOutputSize >= 32 * |data| ==> out[..] == Flatten(Chunks(data))
    ensures maxOutputSize < 32 * |data| ==> out[..] == Flatten(Chunks(data))[..maxOutputSize]
  {
    hide Chunks, Flatten, ChunkBE;
    var n := |data|;
    ChunksLength(data);
    var dataSize := if n * 32 <= maxOutputSize then n * 32 else maxOutputSize;
    out := new byte[dataSize](_ => 0);
    ghost var all := Flatten(Chunks(data));
    assert out[..] == all[..0] + Zeros(dataSize);
    for i := 0 to n
      invariant i * 32 <= dataSize
      invariant out[..] == all[..i * 32] + Zeros(dataSize - i * 32)
    {
      var v := ChunkBE(data[i]);
      var start, end := i * 32, (i + 1) * 32;
      ChunkSlice(data, i);
      if end > maxOutputSize {
        var sliceEnd := if 32 <= maxOutputSize - start then 32 else maxOutputSize - start;
        CopyNext(out, start, v[..sliceEnd], all[..start]);
        Extend(all, start, maxOutputSize, v[..sliceEnd]);
        return;
      } else {
        var actualEnd := if end <= dataSize then end else dataSize;
        CopyNext(out, start, v[..actualEnd - start], all[..start]);
        Extend(all, start, end, v);
      }
    }
    assert all[..n * 32] == all;
  }

  ghost predicate IsEncoding(blob: seq<byte>) {
    exists data: seq<Residue> :: Flatten(Chunks(data)) == blob
  }

  lemma EncodingLength(blob: seq<byte>)
    requires IsEncoding(blob)
    ensures |blob| % 32 == 0
  {
    var data: seq<Residue> :| Flatten(Chunks(data)) == blob;
    ChunksLength(data);
  }

  lemma EncodingChunk(blob: seq<byte>, i: nat)
    requires IsEncoding(blob) && 32 * (i + 1) <= |blob|
    ensures FromBytesBE(blob[32 * i..32 * (i + 1)]) < FR_MODULUS
  {
    var data: seq<Residue> :| Flatten(Chunks(data)) == blob;
    ChunksLength(data);
    ChunkSlice(data, i);
    FieldBounds();
    FromToBytes(data[i], 32);
  }

  lemma CanonicalCheck(x: nat)
    ensures x % FR_MODULUS == x <==> x < FR_MODULUS
  {
  }

  lemma ChunksSnoc(data: seq<Residue>, chunk: seq<byte>)
    requires |chunk| == 32 && FromBytesBE(chunk) < FR_MODULUS
    ensures Flatten(Chunks(data + [FromBytesBE(chunk)])) == Flatten(Chunks(data)) + chunk
  {
    ToFromBytes(chunk);
    var d := data + [FromBytesBE(chunk)];
    assert d[..|data|] == data && d[..|data| + 1] == d;
    ChunksPrefix(d, |data|);
  }

  /** Splits a blob into field elements. Accepts exactly the blobs that are the big-endian encoding
      of a sequence of canonical elements, and returns that sequence. */
  method ToFrArrayCanonical(blob: seq<byte>) returns (r: Result<seq<Residue>, KzgError>)
    ensures r.Success? <==> IsEncoding(blob)
    ensures r.Success? ==> Flatten(Chunks(r.value)) == blob
    ensures r.Failure? ==>
              r.error == if |blob| % 32 != 0 then InvalidInputLength else InvalidFieldElement
  {
    if |blob| % BYTES_PER_FIELD_ELEMENT != 0 {
      assert !IsEncoding(blob) by {
        if IsEncoding(blob) {
          EncodingLength(blob);
        }
      }
      return Failure(InvalidInputLength);
    }
    var out: seq<Residue> := [];
    for i := 0 to |blob| / BYTES_PER_FIELD_ELEMENT
      invariant Flatten(Chunks(out)) == blob[..32 * i]
    {
      var chunk := blob[32 * i..32 * (i + 1)];
      var direct := FromBytesBE(chunk);
      var reduced := direct % FR_MODULUS;
      CanonicalCheck(direct);
      if reduced != direct {
        assert !IsEncoding(blob) by {
          if IsEncoding(blob) {
            EncodingChunk(blob, i);
          }
        }
        return Failure(InvalidFieldElement);
      }
      ChunksSnoc(out, chunk);
      out := out + [direct];
      assert blob[..32 * (i + 1)] == blob[..32 * i] + chunk;
    }
    assert blob[..32 * (|blob| / 32)] == blob;
    return Success(out);
  }

  /** Domain separator, number of evaluations, the evaluations, the compressed commitment. */
  function ChallengeTranscript(evals: seq<Residue>, commitment: AffineG1): seq<byte> {
    FIAT_SHAMIR_PROTOCOL_DOMAIN + UsizeToBytesBE(|evals|) + Flatten(Chunks(evals))
    + SerializeG1Compressed(commitment)
  }

  method ComputeChallengeInput(evals: seq<Residue>, commitment: AffineG1) returns (buf: array<byte>)
    ensures fresh(buf) && buf[..] == ChallengeTranscript(evals, commitment)
  {
    hide Chunks, Flatten, SerializeG1Compressed, UsizeToBytesBE;
    var challengeInputSize :=
      |FIAT_SHAMIR_PROTOCOL_DOMAIN| + 8 + |evals| * BYTES_PER_FIELD_ELEMENT + SIZE_OF_G1_AFFINE_COMPRESSED;
    buf := new byte[challengeInputSize](_ => 0);
    assert buf[..] == [] + Zeros(buf.Length);
    var offset := 0;
    var nFeBytes := UsizeToBytesBE(|evals|);
    var blobArray := ToByteArray(evals, |evals| * BYTES_PER_FIELD_ELEMENT);
    var blobBytes := blobArray[..];
    var commitBytes := SerializeG1Compressed(commitment);

    CopyNext(buf, offset, FIAT_SHAMIR_PROTOCOL_DOMAIN, []);
    ghost var done := [] + FIAT_SHAMIR_PROTOCOL_DOMAIN;
    offset := offset + |FIAT_SHAMIR_PROTOCOL_DOMAIN|;
    assert done == FIAT_SHAMIR_PROTOCOL_DOMAIN;

    CopyNext(buf, offset, nFeBytes, done);
    offset := offset + 8;
    done := done + nFeBytes;

    CopyNext(buf, offset, blobBytes, done);
    offset := offset + |blobBytes|;
    done := done + blobBytes;

    CopyNext(buf, offset, commitBytes, done);
    assert done + commitBytes == ChallengeTranscript(evals, commitment);
  }

  /** Accepts infinity and the points of the curve. */
  function ValidateG1Point(p: AffineG1): Result<(), KzgError> {
    if OnCurve(p) then Success(()) else Failure(NotOnCurveError)
  }

  method ComputeChallenge(hash: seq<byte> -> Residue, evals: seq<Residue>, commitment: AffineG1)
    returns (r: Result<Residue, KzgError>)
    ensures r == if OnCurve(commitment) then Success(hash(ChallengeTranscript(evals, commitment)))
                 else Failure(NotOnCurveError)
  {
    var valid := ValidateG1Point(commitment);
    if valid.Failure? {
      return Failure(valid.error);
    }
    var buf := ComputeChallengeInput(evals, commitment);
    return Success(hash(buf[..]));
  }

  /** The input to the challenge hash fixes every evaluation and the commitment. */
  lemma ChallengeTranscriptInjective(evals: seq<Residue>, c: AffineG1, evals': seq<Residue>, c': AffineG1)
    requires IsPrime(FQ_MODULUS) && OnCurve(c) && OnCurve(c')
    requires ChallengeTranscript(evals, c) == ChallengeTranscript(evals', c')
    ensures evals == evals' && c == c'
  {
    var t, t' := ChallengeTranscript(evals, c), ChallengeTranscript(evals', c');
    ChunksLength(evals);
    ChunksLength(evals');
    var n := |evals|;
    assert |t| == 64 + 32 * n && |t'| == 64 + 32 * |evals'|;
    assert t[32..32 + 32 * n] == Flatten(Chunks(evals)) && t'[32..32 + 32 * n] == Flatten(Chunks(evals'));
    assert t[32 + 32 * n..] == SerializeG1Compressed(c) && t'[32 + 32 * n..] == SerializeG1Compressed(c');
    CompressionInjective(c, c');
    ChunksInjective(evals, evals');
  }

  lemma ChunksInjective(evals: seq<Residue>, evals': seq<Residue>)
    requires |evals| == |evals'| && Flatten(Chunks(evals)) == Flatten(Chunks(evals'))
    ensures evals == evals'
  {
    FlattenInjective(Chunks(evals), Chunks(evals'), 32);
    forall i | 0 <= i < |evals|
      ensures evals[i] == evals'[i]
    {
      assert Chunks(evals)[i] == Chunks(evals')[i];
      FieldBounds();
      ToBytesInjective(evals[i], evals'[i], 32);
    }
  }

  // The transcript of a batch

  /** One opening claim: commitment, evaluation point, value, proof. */
  datatype Claim<+T, +G> = Claim(commitment: G, z: T, y: T, proof: G)

  function ClaimBytes(c: Claim<Residue, AffineG1>): (s: seq<byte>)
    ensures |s| == 128
  {
    SerializeG1Compressed(c.commitment) + SerializeFrLE(c.z) + SerializeFrLE(c.y) + SerializeG1Compressed(c.proof)
  }

  function ClaimChunks(claims: seq<Claim<Residue, AffineG1>>): (c: seq<seq<byte>>)
    ensures |c| == |claims|
  {
    seq(|claims|, i requires 0 <= i < |claims| => ClaimBytes(claims[i]))
  }

  function LengthChunks(lengths: seq<nat>): (c: seq<seq<byte>>)
    ensures |c| == |lengths|
  {
    seq(|lengths|, i requires 0 <= i < |lengths| => ToBytesBE(lengths[i], 8))
  }

  lemma LengthChunksSize(lengths: seq<nat>)
    ensures |Flatten(LengthChunks(lengths))| == 8 * |lengths|
  {
    FlattenLength(LengthChunks(lengths), 8);
  }

  /** The head of the buffer: the lengths are written last and, from two blobs on, over the count. */
  function BatchHead(n: nat, lengths: seq<nat>): (s: seq<byte>)
    requires |lengths| <= n
    ensures |s| == 40 + 8 * n
  {
    LengthChunksSize(lengths);
    Overwrite(
      Overwrite(
        Overwrite(Zeros(40 + 8 * n), 0, RANDOM_CHALLENGE_KZG_BATCH_DOMAIN), 32, UsizeToBytesBE(n)),
      24, Flatten(LengthChunks(lengths)))
  }

  function BatchTranscript(claims: seq<Claim<Residue, AffineG1>>, lengths: seq<nat>): seq<byte>
    requires |lengths| <= |claims|
  {
    BatchHead(|claims|, lengths) + Flatten(ClaimChunks(claims))
  }

  lemma OverwriteTwice(buf: seq<byte>, offset: nat, d: seq<byte>, e: seq<byte>)
    requires offset + |d| + |e| <= |buf|
    ensures Overwrite(Overwrite(buf, offset, d), offset + |d|, e) == Overwrite(buf, offset, d + e)
  {
  }

  lemma ClaimsPrefix(claims: seq<Claim<Residue, AffineG1>>, i: nat)
    requires i < |claims|
    ensures Flatten(ClaimChunks(claims[..i + 1])) == Flatten(ClaimChunks(claims[..i])) + ClaimBytes(claims[i])
    ensures |Flatten(ClaimChunks(claims[..i]))| == 128 * i
  {
    assert ClaimChunks(claims[..i + 1]) == ClaimChunks(claims[..i]) + [ClaimBytes(claims[i])];
    FlattenSnoc(ClaimChunks(claims[..i]), ClaimBytes(claims[i]));
    FlattenLength(ClaimChunks(claims[..i]), 128);
  }

  lemma OverwriteNothing(buf: seq<byte>, offset: nat)
    requires offset <= |buf|
    ensures Overwrite(buf, offset, []) == buf
  {
  }

  lemma OverwriteLeft(z: seq<byte>, w: seq<byte>, offset: nat, d: seq<byte>)
    requires offset + |d| <= |z|
    ensures Overwrite(z + w, offset, d) == Overwrite(z, offset, d) + w
  {
  }

  lemma BatchHeadInPlace(n: nat, lengths: seq<nat>)
    requires |lengths| <= n
    ensures |Flatten(LengthChunks(lengths))| == 8 * |lengths|
    ensures Overwrite(
              Overwrite(
                Overwrite(Zeros(40 + 136 * n), 0, RANDOM_CHALLENGE_KZG_BATCH_DOMAIN), 32, UsizeToBytesBE(n)),
              24, Flatten(LengthChunks(lengths)))
            == BatchHead(n, lengths) + Zeros(128 * n)
  {
    var z, w, flat := Zeros(40 + 8 * n), Zeros(128 * n), Flatten(LengthChunks(lengths));
    LengthChunksSize(lengths);
    assert Zeros(40 + 136 * n) == z + w;
    OverwriteLeft(z, w, 0, RANDOM_CHALLENGE_KZG_BATCH_DOMAIN);
    var z1 := Overwrite(z, 0, RANDOM_CHALLENGE_KZG_BATCH_DOMAIN);
    OverwriteLeft(z1, w, 32, UsizeToBytesBE(n));
    OverwriteLeft(Overwrite(z1, 32, UsizeToBytesBE(n)), w, 24, flat);
  }

  /** As many lengths as there are slots; zipping drops the others. */
  function Cut(lengths: seq<nat>, n: nat): (s: seq<nat>)
    ensures |s| <= n && s <= lengths && (|lengths| <= n ==> s == lengths) && (|lengths| >= n ==> |s| == n)
  {
    if |lengths| <= n then lengths else lengths[..n]
  }

  method WriteLengths(buf: array<byte>, lengths: seq<nat>)
    requires 24 + 8 * |lengths| <= buf.Length
    modifies buf
    ensures |Flatten(LengthChunks(lengths))| == 8 * |lengths|
    ensures buf[..] == Overwrite(old(buf[..]), 24, Flatten(LengthChunks(lengths)))
  {
    hide Overwrite, ToBytesBE, LengthChunks, Flatten;
    ghost var head := buf[..];
    LengthsWritten(lengths, 0);
    OverwriteNothing(head, 24);
    for j := 0 to |lengths|
      invariant |Flatten(LengthChunks(lengths[..j]))| == 8 * j
      invariant buf[..] == Overwrite(head, 24, Flatten(LengthChunks(lengths[..j])))
    {
      var chunk := ToBytesBE(lengths[j], 8);
      LengthsWritten(lengths, j);
      OverwriteTwice(head, 24, Flatten(LengthChunks(lengths[..j])), chunk);
      CopyInto(buf, 24 + 8 * j, chunk);
    }
    assert lengths[..|lengths|] == lengths;
  }

  lemma LengthsWritten(lengths: seq<nat>, j: nat)
    requires j <= |lengths|
    ensures j == 0 ==> Flatten(LengthChunks(lengths[..j])) == []
    ensures j < |lengths| ==>
              Flatten(LengthChunks(lengths[..j + 1]))
              == Flatten(LengthChunks(lengths[..j])) + ToBytesBE(lengths[j], 8)
  {
    hide ToBytesBE;
    if j < |lengths| {
      var chunk := ToBytesBE(lengths[j], 8);
      assert LengthChunks(lengths[..j + 1]) == LengthChunks(lengths[..j]) + [chunk];
      FlattenSnoc(LengthChunks(lengths[..j]), chunk);
    }
  }

  /** Domain separator, count, then the lengths over the count. */
  method WriteBatchHead(buf: array<byte>, n: nat, blobLengths: seq<nat>)
    requires buf.Length == 40 + 136 * n && buf[..] == Zeros(buf.Length)
    modifies buf
    ensures buf[..] == BatchHead(n, Cut(blobLengths, n)) + Zeros(128 * n)
  {
    hide Overwrite, ToBytesBE, BatchHead, Cut, Flatten, LengthChunks;
    var lengths := Cut(blobLengths, n);
    CopyInto(buf, 0, RANDOM_CHALLENGE_KZG_BATCH_DOMAIN);
    CopyInto(buf, 32, UsizeToBytesBE(n));
    WriteLengths(buf, lengths);
    BatchHeadInPlace(n, lengths);
  }

  method WriteClaim(buf: array<byte>, start: nat, c: Claim<Residue, AffineG1>, ghost done: seq<byte>)
    returns (offset: nat)
    requires start + 128 <= buf.Length
    requires |done| == start && buf[..] == done + Zeros(buf.Length - start)
    modifies buf
    ensures offset == start + 128
    ensures buf[..] == (done + ClaimBytes(c)) + Zeros(buf.Length - offset)
  {
    offset := start;
    var v := SerializeG1Compressed(c.commitment);
    CopyNext(buf, offset, v, done);
    offset := offset + BYTES_PER_FIELD_ELEMENT;
    ghost var d := done + v;

    v := SerializeFrLE(c.z);
    CopyNext(buf, offset, v, d);
    offset := offset + BYTES_PER_FIELD_ELEMENT;
    d := d + v;

    v := SerializeFrLE(c.y);
    CopyNext(buf, offset, v, d);
    offset := offset + BYTES_PER_FIELD_ELEMENT;
    d := d + v;

    v := SerializeG1Compressed(c.proof);
    CopyNext(buf, offset, v, d);
    offset := offset + BYTES_PER_FIELD_ELEMENT;
    assert d + v == done + ClaimBytes(c);
  }

  /** The buffer after `i` claims. */
  ghost function Written(head: seq<byte>, claims: seq<Claim<Residue, AffineG1>>, i: nat): seq<byte>
    requires i <= |claims|
  {
    head + Flatten(ClaimChunks(claims[..i]))
  }

  lemma WrittenStep(head: seq<byte>, claims: seq<Claim<Residue, AffineG1>>, i: nat)
    requires i < |claims|
    ensures Written(head, claims, i) + ClaimBytes(claims[i]) == Written(head, claims, i + 1)
    ensures |Written(head, claims, i)| == |head| + 128 * i
  {
    ClaimsPrefix(claims, i);
    var f := Flatten(ClaimChunks(claims[..i]));
    assert (head + f) + ClaimBytes(claims[i]) == head + (f + ClaimBytes(claims[i]));
  }

  method WriteClaims(buf: array<byte>, start: nat, claims: seq<Claim<Residue, AffineG1>>, ghost head: seq<byte>)
    returns (offset: nat)
    requires buf.Length == start + 128 * |claims|
    requires |head| == start && buf[..] == head + Zeros(buf.Length - start)
    modifies buf
    ensures offset == buf.Length
    ensures buf[..] == head + Flatten(ClaimChunks(claims))
  {
    offset := start;
    assert Written(head, claims, 0) == head;
    for i := 0 to |claims|
      invariant offset == start + 128 * i
      invariant buf[..] == Written(head, claims, i) + Zeros(buf.Length - offset)
    {
      WrittenStep(head, claims, i);
      offset := WriteClaim(buf, offset, claims[i], Written(head, claims, i));
    }
    assert claims[..|claims|] == claims;
    assert Written(head, claims, |claims|) + Zeros(0) == Written(head, claims, |claims|);
  }

  /** Fills the buffer hashed into the batch challenge. The final length check never fails. */
  method ComputeBatchTranscript(claims: seq<Claim<Residue, AffineG1>>, blobLengths: seq<nat>)
    returns (r: Result<seq<byte>, KzgError>)
    ensures r == Success(BatchTranscript(claims, Cut(blobLengths, |claims|)))
  {
    var n := |claims|;
    var initialDataLength := 40;
    var inputSize := initialDataLength
      + n * (BYTES_PER_FIELD_ELEMENT + 2 * BYTES_PER_FIELD_ELEMENT + BYTES_PER_FIELD_ELEMENT + 8);
    var buf := new byte[inputSize](_ => 0);
    assert buf[..] == Zeros(buf.Length);
    WriteBatchHead(buf, n, blobLengths);
    var offset := WriteClaims(buf, 40 + n * 8, claims, BatchHead(n, Cut(blobLengths, n)));
    if offset != inputSize {
      assert false;
    }
    return Success(buf[..]);
  }

  lemma ClaimBytesInjective(c: Claim<Residue, AffineG1>, d: Claim<Residue, AffineG1>)
    requires IsPrime(FQ_MODULUS)
    requires OnCurve(c.commitment) && OnCurve(c.proof) && OnCurve(d.commitment) && OnCurve(d.proof)
    requires ClaimBytes(c) == ClaimBytes(d)
    ensures c == d
  {
    var s, t := ClaimBytes(c), ClaimBytes(d);
    assert s[..32] == SerializeG1Compressed(c.commitment) && t[..32] == SerializeG1Compressed(d.commitment);
    assert s[32..64] == SerializeFrLE(c.z) && t[32..64] == SerializeFrLE(d.z);
    assert s[64..96] == SerializeFrLE(c.y) && t[64..96] == SerializeFrLE(d.y);
    assert s[96..] == SerializeG1Compressed(c.proof) && t[96..] == SerializeG1Compressed(d.proof);
    CompressionInjective(c.commitment, d.commitment);
    CompressionInjective(c.proof, d.proof);
    SerializeFrInjective(c.z, d.z);
    SerializeFrInjective(c.y, d.y);
  }

  ghost predicate ClaimsOnCurve(claims: seq<Claim<Residue, AffineG1>>) {
    forall i :: 0 <= i < |claims| ==> OnCurve(claims[i].commitment) && OnCurve(claims[i].proof)
  }

  ghost predicate AllU64(lengths: seq<nat>) {
    forall i :: 0 <= i < |lengths| ==> lengths[i] < 0x1_0000_0000_0000_0000
  }

  lemma LengthChunksInjective(a: seq<nat>, b: seq<nat>)
    requires |a| == |b| && AllU64(a) && AllU64(b)
    requires Flatten(LengthChunks(a)) == Flatten(LengthChunks(b))
    ensures a == b
  {
    FlattenInjective(LengthChunks(a), LengthChunks(b), 8);
    assert Pow256(8) == 0x1_0000_0000_0000_0000;
    forall i | 0 <= i < |a|
      ensures a[i] == b[i]
    {
      assert LengthChunks(a)[i] == LengthChunks(b)[i];
      ToBytesInjective(a[i], b[i], 8);
    }
  }

  lemma BatchTranscriptParts(c: seq<Claim<Residue, AffineG1>>, a: seq<nat>)
    requires |a| == |c|
    ensures var t, n := BatchTranscript(c, a), |c|;
            && |t| == 40 + 136 * n
            && t[24..24 + 8 * n] == Flatten(LengthChunks(a))
            && t[40 + 8 * n..] == Flatten(ClaimChunks(c))
  {
    FlattenLength(ClaimChunks(c), 128);
    LengthChunksSize(a);
    var h, n := BatchHead(|c|, a), |c|;
    assert h[24..24 + 8 * n] == Flatten(LengthChunks(a));
    assert BatchTranscript(c, a)[24..24 + 8 * n] == h[24..24 + 8 * n];
  }

  lemma ClaimChunksInjective(c: seq<Claim<Residue, AffineG1>>, d: seq<Claim<Residue, AffineG1>>)
    requires IsPrime(FQ_MODULUS) && ClaimsOnCurve(c) && ClaimsOnCurve(d)
    requires |c| == |d| && Flatten(ClaimChunks(c)) == Flatten(ClaimChunks(d))
    ensures c == d
  {
    FlattenInjective(ClaimChunks(c), ClaimChunks(d), 128);
    forall i | 0 <= i < |c|
      ensures c[i] == d[i]
    {
      assert ClaimChunks(c)[i] == ClaimChunks(d)[i];
      ClaimBytesInjective(c[i], d[i]);
    }
  }

  /** The input to the batch hash fixes the number of blobs, every padded length and every claim,
      although the count itself is overwritten from two blobs on. */
  lemma BatchTranscriptInjective(
      c: seq<Claim<Residue, AffineG1>>, a: seq<nat>, d: seq<Claim<Residue, AffineG1>>, b: seq<nat>)
    requires IsPrime(FQ_MODULUS) && ClaimsOnCurve(c) && ClaimsOnCurve(d)
    requires |a| == |c| && |b| == |d| && AllU64(a) && AllU64(b)
    requires BatchTranscript(c, a) == BatchTranscript(d, b)
    ensures c == d && a == b
  {
    BatchTranscriptParts(c, a);
    BatchTranscriptParts(d, b);
    LengthChunksInjective(a, b);
    ClaimChunksInjective(c, d);
  }

  /** The two domain separators keep the transcripts apart: no challenge of a blob is a batch challenge. */
  lemma TranscriptsApart(evals: seq<Residue>, c: AffineG1, claims: seq<Claim<Residue, AffineG1>>, lengths: seq<nat>)
    requires |lengths| <= |claims|
    ensures ChallengeTranscript(evals, c) != BatchTranscript(claims, lengths)
  {
    hide Flatten, Chunks, ClaimChunks, SerializeG1Compressed, LengthChunks;
    LengthChunksSize(lengths);
    assert BatchHead(|claims|, lengths)[8] == RANDOM_CHALLENGE_KZG_BATCH_DOMAIN[8];
    assert BatchTranscript(claims, lengths)[8] == RANDOM_CHALLENGE_KZG_BATCH_DOMAIN[8];
    assert ChallengeTranscript(evals, c)[8] == FIAT_SHAMIR_PROTOCOL_DOMAIN[8];
  }
}

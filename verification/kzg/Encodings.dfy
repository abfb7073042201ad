/** What the encodings mean, read off their bytes: nothing below is said by way of the functions that write them. */
module Encodings {
  import opened Prelude
  import opened Bytes
  import opened Fields
  import opened RootsOfUnity
  import opened Barycentric
  import opened ScalarField
  import opened Transcript
  import opened BatchVerifier
  import opened Binding

  // Constants

  /** The bytes of a string of ASCII characters. */
  function Ascii(s: string): (b: seq<byte>)
    requires forall i :: 0 <= i < |s| ==> s[i] < 128 as char
    ensures |b| == |s|
  {
    seq(|s|, i requires 0 <= i < |s| => s[i] as int)
  }

  const BLOB_SEPARATOR: seq<byte> := Ascii("EIGENDA_FSBLOBVERIFY_V1_")
  const BATCH_SEPARATOR: seq<byte> := Ascii("EIGENDA_RCKZGBATCH___V1_")

  lemma DomainSeparators()
    ensures FIAT_SHAMIR_PROTOCOL_DOMAIN == BLOB_SEPARATOR && RANDOM_CHALLENGE_KZG_BATCH_DOMAIN == BATCH_SEPARATOR
  {
  }

  // The parameter of the curve BN254.
  const BN_U: nat := 4965661367192848881

  /** The moduli are the values at the curve's parameter of the polynomials of its family. */
  lemma ModuliOfCurve()
    ensures var u2 := BN_U * BN_U;
            && FQ_MODULUS == 36 * (u2 * u2) + 36 * (u2 * BN_U) + 24 * u2 + 6 * BN_U + 1
            && FR_MODULUS == 36 * (u2 * u2) + 36 * (u2 * BN_U) + 18 * u2 + 6 * BN_U + 1
  {
  }

  /** The curve is `y^2 = x^3 + 3`. */
  lemma CurveExactly(x: Coordinate, y: Coordinate)
    ensures OnCurve(Affine(x, y)) <==> (y * y) % FQ_MODULUS == (x * x * x + 3) % FQ_MODULUS
  {
    hide Reduce;
    ReduceIsMod(y * y, FQ_MODULUS);
    ReduceIsMod(x * x * x + 3, FQ_MODULUS);
  }

  /** Coordinates beyond the field are taken modulo its order; then they must satisfy the equation. */
  lemma CoordinatesReduced(p: Commitment.G1Point)
    ensures var x, y := p.x % FQ_MODULUS, p.y % FQ_MODULUS;
            G1PointToAffine(p) == if OnCurve(Affine(x, y)) then Success(Affine(x, y)) else Failure(NotOnCurveError)
  {
    hide Reduce, OnCurve;
    ReduceIsMod(p.x, FQ_MODULUS);
    ReduceIsMod(p.y, FQ_MODULUS);
  }

  lemma ProofCoordinatesReduced(p: KzgProof)
    ensures var x, y := FromBytesBE(p[..32]) % FQ_MODULUS, FromBytesBE(p[32..]) % FQ_MODULUS;
            ProofBytesToAffine(p) == if OnCurve(Affine(x, y)) then Success(Affine(x, y)) else Failure(NotOnCurveError)
  {
    hide Reduce, OnCurve, FromBytesBE;
    ReduceIsMod(FromBytesBE(p[..32]), FQ_MODULUS);
    ReduceIsMod(FromBytesBE(p[32..]), FQ_MODULUS);
  }

  // Scalars and points

  lemma ReverseTwice(s: seq<byte>)
    ensures Reverse(Reverse(s)) == s
  {
  }

  /** Read backwards, the bytes of a scalar are its value. */
  lemma ScalarRead(x: Residue)
    ensures FromBytesBE(Reverse(SerializeFrLE(x))) == x
  {
    hide ToBytesBE, FromBytesBE, Pow256;
    FieldBounds();
    ReverseTwice(ToBytesBE(x, 32));
    FromToBytes(x, 32);
  }

  /** The compressed form of a point: infinity is the flag 64 and nothing else; of a finite point the top bit says
      whether y is in the upper half of the field, and without it the bytes read backwards are x. */
  lemma CompressedRead(p: AffineG1)
    ensures var out := SerializeG1Compressed(p);
            && (p.Infinity? ==> out == Zeros(31) + [64])
            && (p.Affine? ==>
                  && (out[31] >= 128 <==> 2 * p.y > FQ_MODULUS)
                  && FromBytesBE(Reverse(out[31 := out[31] % 128])) == p.x)
  {
    hide ToBytesBE, FromBytesBE, Pow256;
    if p.Affine? {
      var le := Reverse(ToBytesBE(p.x, 32));
      var out := SerializeG1Compressed(p);
      TopByteFree(p.x);
      FieldBounds();
      assert out[31 := out[31] % 128] == le;
      ReverseTwice(ToBytesBE(p.x, 32));
      Pow256Values();
      FromToBytes(p.x, 32);
    }
  }

  // The transcript of a single blob

  lemma FourParts(a: seq<byte>, b: seq<byte>, c: seq<byte>, d: seq<byte>)
    requires |a| == 24 && |b| == 8
    ensures var t := a + b + c + d;
            && |t| == 32 + |c| + |d|
            && t[..24] == a && t[24..32] == b && t[32..32 + |c|] == c && t[32 + |c|..] == d
  {
  }

  /** The 32 bytes of evaluation `i`. */
  predicate EvaluationBytes(t: seq<byte>, i: nat, x: Residue) {
    64 + 32 * i <= |t| && t[32 + 32 * i..64 + 32 * i] == ToBytesBE(x, 32)
  }

  /** Where everything is in the input of the single-blob challenge. */
  lemma ChallengeLayout(evals: seq<Residue>, c: AffineG1, t: seq<byte>)
    requires t == ChallengeTranscript(evals, c)
    ensures |t| == 64 + 32 * |evals|
    ensures t[..24] == BLOB_SEPARATOR && t[24..32] == ToBytesBE(|evals|, 8)
    ensures forall i :: 0 <= i < |evals| ==> EvaluationBytes(t, i, evals[i])
    ensures t[32 + 32 * |evals|..] == SerializeG1Compressed(c)
  {
    hide Flatten, Chunks, ToBytesBE, SerializeG1Compressed, Ascii, EvaluationBytes;
    DomainSeparators();
    ChunksLength(evals);
    var flat := Flatten(Chunks(evals));
    FourParts(FIAT_SHAMIR_PROTOCOL_DOMAIN, UsizeToBytesBE(|evals|), flat, SerializeG1Compressed(c));
    forall i | 0 <= i < |evals|
      ensures EvaluationBytes(t, i, evals[i])
    {
      EvaluationAt(evals, t, i);
    }
  }

  lemma EvaluationAt(evals: seq<Residue>, t: seq<byte>, i: nat)
    requires i < |evals| && 32 + 32 * |evals| <= |t|
    requires t[32..32 + 32 * |evals|] == Flatten(Chunks(evals))
    ensures EvaluationBytes(t, i, evals[i])
  {
    hide Flatten, Chunks, ToBytesBE;
    ChunkSlice(evals, i);
    SliceOfSlice(t, 32, 32 + 32 * |evals|, 32 * i, 32 * (i + 1));
  }

  // Blobs

  /** Element `i` of a blob, zero past its end. */
  function ElementOf(blob: seq<byte>, i: nat): nat {
    if 32 * (i + 1) <= |blob| then FromBytesBE(blob[32 * i..32 * (i + 1)]) else 0
  }

  lemma BlobElement(blob: seq<byte>, i: nat)
    requires IsEncoding(blob) && i < |BlobData(blob)|
    ensures BlobData(blob)[i] == FromBytesBE(blob[32 * i..32 * (i + 1)])
    ensures ToBytesBE(BlobData(blob)[i], 32) == blob[32 * i..32 * (i + 1)]
  {
    hide Flatten, Chunks, ToBytesBE, FromBytesBE, Pow256;
    ChunkSlice(BlobData(blob), i);
    FieldBounds();
    FromToBytes(BlobData(blob)[i], 32);
  }

  /** The evaluations the verifier works with: the blob's elements, then zeros. */
  lemma EvaluationsOfBlob(K: Field<Residue>, blob: seq<byte>)
    requires Parsable(blob)
    ensures var f := BlobPolynomial(K, blob).evaluations;
            && |f| == NextPowerOfTwo(|blob| / 32)
            && forall i :: 0 <= i < |f| ==> f[i] == if i < |blob| / 32 then ElementOf(blob, i) else K.zero
  {
    hide Flatten, Chunks, FromBytesBE, NextPowerOfTwo, IsEncoding;
    var f, n := BlobPolynomial(K, blob).evaluations, |BlobData(blob)|;
    assert |blob| / 32 == n;
    PolynomialLength(K, blob);
    forall i | 0 <= i < |f|
      ensures f[i] == if i < n then ElementOf(blob, i) else K.zero
    {
      if i < n {
        BlobElement(blob, i);
      }
    }
  }

  /** The root whose powers are the domain of a blob of `n` elements. */
  function BlobRoot(P: Setup<Residue>, n: nat): Residue
    requires |P.primitiveRoots| == 29 && n <= MAINNET_SRS_G1_SIZE
  {
    SrsLog(n);
    P.primitiveRoots[CeilLog2(n)]
  }

  /** The polynomial behind the verdict is the one of the padded length that takes the blob's elements, then zeros, on
      the powers of the root. */
  lemma CoefficientsExactly(P: Setup<Residue>, blob: seq<byte>, c: seq<Residue>)
    requires IsSetup(P) && Parsable(blob) && blob != []
    ensures c == BlobCoefficients(P, blob)
            <==> |c| == NextPowerOfTwo(|blob| / 32)
                 && forall i :: 0 <= i < |c| ==>
                      Eval(P.K, c, P.K.Pow(BlobRoot(P, |blob| / 32), i))
                      == if i < |blob| / 32 then ElementOf(blob, i) else P.K.zero
  {
    hide IsField, HasOrder, LagrangeSum, Eval, BlobPolynomial, NextPowerOfTwo, CeilLog2, IsEncoding, ElementOf;
    var poly, n := BlobPolynomial(P.K, blob), |blob| / 32;
    BlobEvaluable(P.K, blob);
    DomainRootOrder(P, poly);
    EvaluationsOfBlob(P.K, blob);
    SameRoot(P, blob);
    if |c| == NextPowerOfTwo(n) {
      InterpolantCorrect(P.K, DomainRoot(P, poly), poly.evaluations, c);
    }
  }

  lemma SameRoot(P: Setup<Residue>, blob: seq<byte>)
    requires |P.primitiveRoots| == 29 && Parsable(blob) && blob != []
    ensures Evaluable(BlobPolynomial(P.K, blob))
    ensures DomainRoot(P, BlobPolynomial(P.K, blob)) == BlobRoot(P, |blob| / 32)
  {
    hide NextPowerOfTwo, Flatten, Chunks, CeilLog2, IsEncoding;
    BlobEvaluable(P.K, blob);
    BlobLength(P.K, blob);
    assert (|blob| + 31) / 32 == |blob| / 32;
  }

  /** The same over the concrete field and table. */
  lemma CoefficientsOverFr(blob: seq<byte>, c: seq<Residue>)
    requires IsPrime(FR_MODULUS) && IsSetup(FrSetup()) && Parsable(blob) && blob != []
    ensures var K, k := FrField(), CeilLog2(|blob| / 32);
            && k < 29
            && (c == BlobCoefficients(FrSetup(), blob)
                <==> |c| == NextPowerOfTwo(|blob| / 32)
                     && forall i :: 0 <= i < |c| ==> Eval(K, c, K.Pow(TableEntry(k), i)) == ElementOf(blob, i))
  {
    hide IsSetup, Eval, NextPowerOfTwo, CeilLog2, IsEncoding, FromBytesBE, TableEntry, BlobCoefficients, IsPrime;
    CoefficientsExactly(FrSetup(), blob, c);
    SrsLog(|blob| / 32);
    assert BlobRoot(FrSetup(), |blob| / 32) == TableEntry(CeilLog2(|blob| / 32));
    EncodingLength(blob);
    assert FrSetup().K.zero == 0;
  }

  /** Domain, number of evaluations, the blob and zeros up to that number, the commitment. */
  function PaddedInput(blob: seq<byte>, n: nat, a: AffineG1): seq<byte>
    requires |blob| <= 32 * n
  {
    BLOB_SEPARATOR + ToBytesBE(n, 8) + blob + Zeros(32 * n - |blob|) + SerializeG1Compressed(a)
  }

  lemma BlobFits(blob: seq<byte>)
    requires |blob| % 32 == 0
    ensures |blob| <= 32 * NextPowerOfTwo(|blob| / 32)
  {
  }

  /** The input to the blob's challenge, in bytes: the blob itself stands in it, followed by zeros. */
  lemma BlobChallengeBytes<G1(!new)>(P: Setup<Residue>, O: Oracle<G1>, blob: seq<byte>, c: G1)
    requires IsSetup(P) && P.K.zero == 0 && Parsable(blob) && blob != []
    ensures |blob| <= 32 * NextPowerOfTwo(|blob| / 32)
    ensures BlobPoint(P, O, blob, c).0 == O.hash(PaddedInput(blob, NextPowerOfTwo(|blob| / 32), O.affine(c)))
  {
    hide IsField, HasOrder, Eval, BlobPolynomial, NextPowerOfTwo, BlobCoefficients, ChallengeTranscript, IsEncoding;
    hide PaddedInput;
    TranscriptOfBlob(P.K, blob, O.affine(c));
  }

  lemma TranscriptOfBlob(K: Field<Residue>, blob: seq<byte>, a: AffineG1)
    requires K.zero == 0 && Parsable(blob)
    ensures |blob| <= 32 * NextPowerOfTwo(|blob| / 32)
    ensures ChallengeTranscript(BlobPolynomial(K, blob).evaluations, a)
            == PaddedInput(blob, NextPowerOfTwo(|blob| / 32), a)
  {
    hide BlobPolynomial, NextPowerOfTwo, IsEncoding, Ascii, Flatten, Chunks, ToBytesBE, SerializeG1Compressed, Zeros;
    EncodingLength(blob);
    BlobFits(blob);
    var f := BlobPolynomial(K, blob).evaluations;
    DomainSeparators();
    PolynomialLength(K, blob);
    FlatEvaluations(K, blob);
    var head, pad, tail :=
      BLOB_SEPARATOR + ToBytesBE(|f|, 8), Zeros(32 * |f| - |blob|), SerializeG1Compressed(a);
    SumsAssociate(head, blob, pad, tail);
  }

  lemma SumsAssociate(a: seq<byte>, b: seq<byte>, c: seq<byte>, d: seq<byte>)
    ensures a + (b + c) + d == a + b + c + d
  {
  }

  lemma FlatEvaluations(K: Field<Residue>, blob: seq<byte>)
    requires K.zero == 0 && Parsable(blob)
    ensures var f := BlobPolynomial(K, blob).evaluations;
            && |blob| <= 32 * |f|
            && Flatten(Chunks(f)) == blob + Zeros(32 * |f| - |blob|)
  {
    hide NextPowerOfTwo, IsEncoding, Flatten, Chunks;
    var data, f := BlobData(blob), BlobPolynomial(K, blob).evaluations;
    var padding := f[|data|..];
    assert f == data + padding;
    ChunksOfSum(data, padding);
    ChunksOfZeros(padding);
  }

  lemma {:induction false} ChunksOfSum(a: seq<Residue>, b: seq<Residue>)
    ensures Flatten(Chunks(a + b)) == Flatten(Chunks(a)) + Flatten(Chunks(b))
  {
    hide Flatten, ChunkBE;
    if b == [] {
      assert a + b == a && Chunks(b) == [];
      FlattenNothing();
    } else {
      var front, last := b[..|b| - 1], b[|b| - 1];
      ChunksOfSum(a, front);
      assert Chunks(a + b) == Chunks(a + front) + [ChunkBE(last)] && Chunks(b) == Chunks(front) + [ChunkBE(last)];
      FlattenSnoc(Chunks(a + front), ChunkBE(last));
      FlattenSnoc(Chunks(front), ChunkBE(last));
    }
  }

  lemma FlattenNothing()
    ensures Flatten([]) == []
  {
  }

  lemma {:induction false} ChunksOfZeros(z: seq<Residue>)
    requires forall i :: 0 <= i < |z| ==> z[i] == 0
    ensures Flatten(Chunks(z)) == Zeros(32 * |z|)
  {
    hide Flatten, ChunkBE;
    if z == [] {
      assert Chunks(z) == [];
      FlattenNothing();
    } else {
      var front := z[..|z| - 1];
      ChunksOfZeros(front);
      assert Chunks(z) == Chunks(front) + [ChunkBE(0)];
      FlattenSnoc(Chunks(front), ChunkBE(0));
      ZeroChunk(32);
      ChunkOfZero();
    }
  }

  lemma ChunkOfZero()
    ensures ChunkBE(0) == ToBytesBE(0, 32)
  {
  }

  lemma {:induction false} ZeroChunk(n: nat)
    ensures ToBytesBE(0, n) == Zeros(n)
  {
    if n > 0 {
      ZeroChunk(n - 1);
    }
  }

  // The transcript of a batch

  /** The head of the batch buffer: the domain, the lengths, and what they leave of the count and of the zeros. */
  lemma BatchHeadLayout(n: nat, lengths: seq<nat>)
    requires |lengths| == n
    ensures BatchHead(n, lengths)
            == BATCH_SEPARATOR
               + if n == 0 then Zeros(8) + ToBytesBE(0, 8)
                 else if n == 1 then ToBytesBE(lengths[0], 8) + ToBytesBE(1, 8) + Zeros(8)
                 else Flatten(LengthChunks(lengths)) + Zeros(16)
  {
    hide Flatten, LengthChunks, Ascii, ToBytesBE, Zeros, Overwrite;
    DomainSeparators();
    LengthChunksSize(lengths);
    var d, c, flat := RANDOM_CHALLENGE_KZG_BATCH_DOMAIN, UsizeToBytesBE(n), Flatten(LengthChunks(lengths));
    CountWritten(n, d, c);
    var z := Zeros(8);
    if n == 0 {
      NoZeros();
      OverMiddle(d, [], z + c, []);
      assert d + [] + (z + c) == d + z + c + [] == d + (z + c) && flat == [];
    } else if n == 1 {
      OneLength(lengths);
      OverMiddle(d, z, c + z, flat);
      assert d + z + (c + z) == d + z + c + z && d + flat + (c + z) == d + (flat + c + z);
    } else {
      ZerosSplit(8 * n - 16, 16);
      OverMiddle(d, z + c + Zeros(8 * n - 16), Zeros(16), flat);
      assert d + (z + c + Zeros(8 * n - 16)) + Zeros(16) == d + z + c + (Zeros(8 * n - 16) + Zeros(16));
      assert d + flat + Zeros(16) == d + (flat + Zeros(16));
    }
  }

  lemma NoZeros()
    ensures Zeros(0) == []
  {
  }

  /** The count goes behind eight zeros. */
  lemma CountWritten(n: nat, d: seq<byte>, c: seq<byte>)
    requires |d| == 24 && |c| == 8
    ensures Overwrite(Overwrite(Zeros(40 + 8 * n), 0, d), 32, c) == d + Zeros(8) + c + Zeros(8 * n)
  {
    hide Zeros, Overwrite;
    ZerosSplit(24, 16 + 8 * n);
    ZerosSplit(16, 8 * n);
    ZerosSplit(8, 8);
    OverMiddle([], Zeros(24), Zeros(16 + 8 * n), d);
    OverMiddle(d + Zeros(8), Zeros(8), Zeros(8 * n), c);
    assert [] + Zeros(24) + Zeros(16 + 8 * n) == Zeros(40 + 8 * n);
    assert [] + d + Zeros(16 + 8 * n) == d + Zeros(8) + Zeros(8) + Zeros(8 * n);
  }

  /** Overwriting the middle. */
  lemma OverMiddle(a: seq<byte>, b: seq<byte>, c: seq<byte>, f: seq<byte>)
    requires |b| == |f|
    ensures Overwrite(a + b + c, |a|, f) == a + f + c
  {
    assert (a + b + c)[..|a|] == a && (a + b + c)[|a| + |f|..] == c;
  }

  lemma OneLength(lengths: seq<nat>)
    requires |lengths| == 1
    ensures Flatten(LengthChunks(lengths)) == ToBytesBE(lengths[0], 8)
  {
    hide ToBytesBE;
    assert LengthChunks(lengths) == [] + [ToBytesBE(lengths[0], 8)];
    FlattenSnoc([], ToBytesBE(lengths[0], 8));
  }

  /** The 128 bytes of blob `i`: commitment, point, value and proof. */
  predicate EntryBytes(t: seq<byte>, k: nat, c: AffineG1, z: Residue, y: Residue, p: AffineG1) {
    && k + 128 <= |t|
    && t[k..k + 32] == SerializeG1Compressed(c) && t[k + 32..k + 64] == SerializeFrLE(z)
    && t[k + 64..k + 96] == SerializeFrLE(y) && t[k + 96..k + 128] == SerializeG1Compressed(p)
  }

  lemma EntrySlices(t: seq<byte>, k: nat, claim: Claim<Residue, AffineG1>)
    requires k + 128 <= |t| && t[k..k + 128] == ClaimBytes(claim)
    ensures EntryBytes(t, k, claim.commitment, claim.z, claim.y, claim.proof)
  {
    hide ClaimBytes, SerializeG1Compressed, SerializeFrLE;
    ClaimLayout(claim);
    SliceOfSlice(t, k, k + 128, 0, 32);
    SliceOfSlice(t, k, k + 128, 32, 64);
    SliceOfSlice(t, k, k + 128, 64, 96);
    SliceOfSlice(t, k, k + 128, 96, 128);
  }

  /** Where everything is in the input of the batch challenge: the lengths from byte 24, then for every blob its
      commitment, point, value and proof, 32 bytes each. */
  lemma BatchLayout<G1(!new)>(
      O: Oracle<G1>, commitments: seq<G1>, zs: seq<Residue>, ys: seq<Residue>, proofs: seq<G1>, lengths: seq<nat>,
      t: seq<byte>)
    requires |commitments| == |zs| == |ys| == |proofs| == |lengths|
    requires t == BatchTranscript(AffineClaims(O, ZipClaims(commitments, zs, ys, proofs)), lengths)
    ensures BatchChallenge(O, ZipClaims(commitments, zs, ys, proofs), lengths) == O.hash(t)
    ensures var n := |commitments|;
            && |t| == 40 + 136 * n
            && t[..40 + 8 * n] == BatchHead(n, lengths)
            && forall i :: 0 <= i < n ==>
                 EntryBytes(t, 40 + 8 * n + 128 * i, O.affine(commitments[i]), zs[i], ys[i], O.affine(proofs[i]))
  {
    hide Flatten, ClaimChunks, BatchHead, LengthChunks, ClaimBytes, EntryBytes;
    var n, claims := |commitments|, AffineClaims(O, ZipClaims(commitments, zs, ys, proofs));
    BatchTranscriptParts(claims, lengths);
    var flat := Flatten(ClaimChunks(claims));
    assert t[40 + 8 * n..] == flat;
    forall i | 0 <= i < n
      ensures EntryBytes(t, 40 + 8 * n + 128 * i, O.affine(commitments[i]), zs[i], ys[i], O.affine(proofs[i]))
    {
      ClaimSlice(claims, i);
      SliceOfDrop(t, 40 + 8 * n, 128 * i, 128 * (i + 1));
      EntrySlices(t, 40 + 8 * n + 128 * i, claims[i]);
    }
  }

  lemma ClaimSlice(claims: seq<Claim<Residue, AffineG1>>, i: nat)
    requires i < |claims|
    ensures |Flatten(ClaimChunks(claims))| == 128 * |claims|
    ensures Flatten(ClaimChunks(claims))[128 * i..128 * (i + 1)] == ClaimBytes(claims[i])
  {
    hide ClaimBytes, Flatten;
    var chunks := ClaimChunks(claims);
    FlattenLength(chunks, 128);
    FlattenAt(chunks, i);
  }

  lemma {:induction false} FlattenAt(chunks: seq<seq<byte>>, i: nat)
    requires AllOfLength(chunks, 128) && i < |chunks|
    ensures |Flatten(chunks)| == 128 * |chunks|
    ensures Flatten(chunks)[128 * i..128 * (i + 1)] == chunks[i]
    decreases |chunks|
  {
    var front, last := chunks[..|chunks| - 1], chunks[|chunks| - 1];
    FlattenLength(chunks, 128);
    FlattenLength(front, 128);
    assert Flatten(chunks) == Flatten(front) + last;
    hide Flatten;
    if i < |front| {
      FlattenAt(front, i);
    }
  }

  lemma ClaimLayout(c: Claim<Residue, AffineG1>)
    ensures var b := ClaimBytes(c);
            && b[0..32] == SerializeG1Compressed(c.commitment) && b[32..64] == SerializeFrLE(c.z)
            && b[64..96] == SerializeFrLE(c.y) && b[96..128] == SerializeG1Compressed(c.proof)
  {
    hide SerializeG1Compressed, SerializeFrLE;
  }
}

# Verification of Hokulea's derivation and KZG batch verifier

Hokulea derives rollup bytes from EigenDA certificates found on Ethereum. The derivation runs twice: once while every
answer about a certificate is recorded, and once more in a zkVM over a witness made of the recording. This project
models the parts of it that hold the hard properties, and proves them.

- **KZG batch verifier** (`kzg/`). Fields, spaces over a field and polynomials with coefficients in a space (`Fields`,
  `Spaces`); the evaluation domain and its expansion (`RootsOfUnity`); barycentric evaluation (`Barycentric`); the
  concrete BN254 scalar field and its literal table of roots (`ScalarField`); the two Fiat-Shamir transcripts, written
  into byte buffers (`Transcript`); the random linear combination and the pairing check (`Batch`); the verifier from
  bytes to verdict (`BatchVerifier`); what an accepted batch says about its blobs (`Binding`); which batches of an
  honest prover are accepted (`Honest`); and what the encodings mean, read off their bytes (`Encodings`). G1, G2 and
  Gt are spaces over the scalar field with a bilinear, non-degenerate pairing; hashes are arbitrary functions.
- **Payload codec and commitments** (`derivation/Codec`, `Rlp`, `Commitment`). Payload encoding version 0; strict RLP
  (Appendix B of the Ethereum Yellow Paper) directed by the shapes of the derived encoders; the three-byte header and
  the three certificate versions.
- **Preimage address space** (`derivation/AddressSpace`). What the host writes for each hint and what the client reads
  back by recomputing the keys.
- **Derivation, recording and replay** (`derivation/Derivation`, `Runs`, `Providers`, `Soundness`, `Replay`,
  `Alignment`, `Acceptance`, `Counterexample`; `Rules` has the rules in numbers). The data source as classes updated
  in place, proved equal to a specification over states; whole runs of it over any provider; the oracle-backed
  provider, the recorder around it, the witness, and the preloaded provider that replays it.

A provider is a record of functions over a state of its own, so a theorem about every provider covers every schedule
of failures. A panic is the reply `Abort`.

## Findings

Four properties one would expect do not hold as stated; each is replaced by an exact condition.

- Replaying a recording is not always the recorded run again. The recorder keeps the validity of a certificate each
  time it is asked, and a payload fetch that fails makes the derivation ask again, so the record holds a surplus entry
  (`Counterexample` has concrete calldata). The replay uses the record up exactly if and only if no payload fetch
  failed after a successful validity query (`Replay.ReplayIffNoPayloadFailed`). With truthful answers it gets through
  with the same outputs, perhaps leaving entries behind, if and only if all certificates after the first failed fetch
  are the one it failed on, and panics otherwise (`Alignment.ReplayIffAligned`).
- Not every honest batch is accepted. The identity of G1 has no coordinates; the prover writes zeros for it, which are
  not on the curve, and the verifier refuses them. The proof of a blob with one value throughout, and so of every blob
  of one field element, is the identity, and so is the commitment to a blob of zeros (`Honest.OneElementRefused`,
  `Honest.ConstantBlobHasIdentity`). An honest batch of readable blobs is accepted if and only if no commitment and no
  proof in it is the identity (`Honest.HonestVerdict`).
- Not every polynomial that can be constructed can be evaluated. The empty blob is padded to one evaluation but keeps
  a byte length of zero, so evaluation fails. It is the only exception (`Barycentric.NewPolynomialEvaluable`).
- Re-printing a parsed commitment does not give the input back but a prefix of it, since bytes after the RLP list are
  ignored (`Commitment.TryFromIsInverse` gives both directions).

Where comments and code differ the code is followed. The comment on `into_preimage`
(crates/proof/src/eigenda_witness.rs:121-122) calls it the inverse of `from_preimage`; a witness with validities but
no canoe proof can be taken apart and not put together again, and `Providers.WitnessRoundTrip` says so. The batch
transcript is commented as count and lengths in separate places (crates/sp1-bn-verifier/src/batch.rs:124-129); the
lengths overwrite the count from two blobs on, which `Transcript.BatchTranscriptInjective` shows to be harmless.

## Hypotheses

- `IsPrime(FR_MODULUS)` and `IsPrime(FQ_MODULUS)`: the primality of the two BN254 moduli. They are hypotheses of the
  lemmas that need them and are not proved. Under the first, that the integers modulo it form a field and that the
  table entries have orders 2^0 to 2^28 is proved.
- `IsPairing`: the groups are spaces over the scalar field, and the pairing is bilinear and non-degenerate.
- `DistinctDigests`, `DistinctKeys`: keccak256 does not collide on the strings in play. (No map from all byte strings
  to 32 bytes is injective.)
- Inputs to RLP decoding are shorter than 2^64 bytes; digests are taken of commitments that print to less.
- `CanoeSound`, `BatchBinding`, `TruthIsBound`: the canoe verifier passes the proof in the witness only for lists of
  true claims against the head, the batch check passes the witness only if its blobs are bound to their commitments,
  and the true payload is the bound blob of the certificate's length. They are hypotheses of replay soundness, about
  the witness in hand. For the KZG verifier `Soundness.VerifierBinds` proves the second from `Committed`: the
  commitments are to the bound blobs, and none of four events happened, namely an exceptional batch hash, a challenge
  that is the secret, an accidental challenge and a forged proof. The first and third are counted
  (`Binding.ExceptionsFew`, `Binding.AccidentsFew`); the last gives [1 / (tau - z)] (`Binding.ForgedReveals`).
- `IsOracle`, `IsCurveGroup`: a point of the curve is the group element it stands for; where honest provers are
  concerned also the other way round, and infinity is the identity.
- `HonestEntry`: commitment and proof are what the prover writes for the blob.
- `HostIn`, `TrueHost`: the host serves hints about the block only; the proxy's answers, where there are any, are
  true. The true payload of a commitment of length zero is empty.
- `KeepsChannel`, `KnownVersions`: the channel to the host is not closed, and only certificates of a known offchain
  derivation version are answered valid; for the absence of critical errors only.
- `Faithful`, `Patient`, `AllSupported`: in the theorems about runs, that a provider's answers are true, that it fails
  finitely often, and that no valid certificate asks for an unknown derivation version.
- `SizesPayloads`: payloads have the length of their certificate, which is proved of the oracle-backed provider.
- `NeverDiscards`: a provider fails with a temporary or critical error, which is proved of the oracle-backed provider.

## Model

| member | source | states |
|---|---|---|
| Barycentric.EvaluatePolynomialInEvaluationForm | crates/sp1-bn-verifier/src/helpers.rs:255-293 | Succeeds exactly on polynomials whose byte length is 1 to 32·2^28 and whose padded length is the matching power of two; the value is P(z) for the interpolant P, whether z is a domain point (lookup) or not (barycentric sum); the missing inverse and zero denominator branches are unreachable. |
| Barycentric.InterpolantCorrect | crates/sp1-bn-verifier/src/helpers.rs:253-254 | A coefficient list of the width of the domain is the interpolant if and only if it takes the value f[i] at every w^i: existence and uniqueness of the polynomial of degree below n. |
| Barycentric.BarycentricSum | crates/sp1-bn-verifier/src/helpers.rs:279-289 | Off the domain, the accumulated sum times z^n - 1 is the Lagrange sum at z. |
| Barycentric.Position | crates/sp1-bn-verifier/src/helpers.rs:271 | The first index at which z occurs, or none exactly when z is not in the domain. |
| Barycentric.WidthInvertible | crates/sp1-bn-verifier/src/helpers.rs:266-269 | A root of order 2^k makes 2^k invertible in the field, so the width always has an inverse. |
| Barycentric.NewPolynomialEvaluable | crates/sp1-bn-verifier/src/helpers.rs:171-186 | Of the polynomials the constructor accepts, exactly the non-empty ones can be evaluated: padding gives the empty blob one evaluation while its byte length stays zero. |
| RootsOfUnity.ComputePowers | crates/sp1-bn-verifier/src/helpers.rs:37-45 | The powers base^0 .. base^(count-1). |
| RootsOfUnity.ExpandRootOfUnity | crates/sp1-bn-verifier/src/helpers.rs:319-332 | Successive powers up to the first return to one or the bound of 2^28 + 1 iterations; none before the last is one. |
| RootsOfUnity.ExpansionLength | crates/sp1-bn-verifier/src/helpers.rs:319-332 | For a root of order n up to 2^28 the bound never cuts the expansion short: it has exactly n + 1 entries. |
| RootsOfUnity.CalculateRootsOfUnity | crates/sp1-bn-verifier/src/helpers.rs:296-317 | Succeeds exactly for lengths of 1 to 32·2^28 bytes, and then gives all powers of the root whose order is the padded number of elements; the table lookup never fails. |
| RootsOfUnity.RootsDistinct | crates/sp1-bn-verifier/src/helpers.rs:312-316 | The powers below the order are pairwise distinct. |
| RootsOfUnity.RootsComplete | crates/sp1-bn-verifier/src/helpers.rs:312-316 | The domain is exactly the solution set of x^n = 1. |
| RootsOfUnity.ChainOrder | crates/sp1-bn-verifier/src/consts.rs:63-69 | In a table where each entry is a square root of the one before, starting 1, -1, entry k has order exactly 2^k. |
| ScalarField.TableChain | crates/sp1-bn-verifier/src/consts.rs:30-60 | Each of the 29 decimal literals squares to the one before it modulo the scalar field order. |
| ScalarField.FrSetupCorrect | crates/sp1-bn-verifier/src/consts.rs:28-70 | Integers modulo the scalar field order with the literal table form a field whose table entry k has order exactly 2^k. |
| ScalarField.FrIsField | crates/sp1-bn-verifier/src/consts.rs:62-69 | Integers modulo a prime scalar field order, with inverses by the extended Euclidean algorithm, satisfy all field laws. |
| Transcript.ToFrArrayCanonical | crates/sp1-bn-verifier/src/helpers.rs:142-159 | Accepts exactly the blobs that are the big-endian encoding of a sequence of canonical field elements, and returns that sequence; which error is returned otherwise. |
| Transcript.ToByteArray | crates/sp1-bn-verifier/src/helpers.rs:210-230 | The buffer is the concatenated 32-byte big-endian elements, cut to the requested size; it fills its region exactly. |
| Transcript.CompressionInjective | crates/sp1-bn-verifier/src/helpers.rs:99-122 | Two points of the curve with the same compressed form (x with the sign of y, or the infinity flag) are equal. |
| Transcript.SerializeFrInjective | crates/sp1-bn-verifier/src/helpers.rs:124-136 | Different scalars have different 32-byte little-endian forms. |
| Transcript.ComputeChallenge | crates/sp1-bn-verifier/src/helpers.rs:336-369 | The hash of the single-blob transcript, or the curve error exactly when the commitment is not on the curve. |
| Transcript.ComputeChallengeInput | crates/sp1-bn-verifier/src/helpers.rs:342-366 | The buffer written slice by slice is domain, count, evaluations and compressed commitment, filled exactly. |
| Transcript.ChallengeTranscriptInjective | crates/sp1-bn-verifier/src/helpers.rs:334-369 | Equal inputs to the single-blob challenge hash imply equal evaluations and equal curve points. |
| Transcript.WriteLengths | crates/sp1-bn-verifier/src/batch.rs:129-133 | The loop over the length slots writes the lengths one after the other from offset 24 and nothing else. |
| Transcript.WriteBatchHead | crates/sp1-bn-verifier/src/batch.rs:124-133 | The head of the batch buffer after the domain, the count at offset 32 and as many of the lengths as there are slots from offset 24; from two blobs on they overwrite the count. |
| Transcript.WriteClaims | crates/sp1-bn-verifier/src/batch.rs:135-156 | Every claim is written where it belongs and the final offset is the buffer length. |
| Transcript.ComputeBatchTranscript | crates/sp1-bn-verifier/src/batch.rs:110-162 | The batch buffer is the specified transcript for any number of lengths, and the final length error is never returned. |
| Transcript.BatchTranscriptInjective | crates/sp1-bn-verifier/src/batch.rs:119-160 | Equal batch buffers imply the same number of blobs, the same padded lengths and the same commitments, points, values and proofs, although the count is overwritten. |
| Transcript.TranscriptsApart | crates/sp1-bn-verifier/src/consts.rs:18-22 | No single-blob transcript is a batch transcript, whatever is in them: the domain separators differ. |
| Encodings.DomainSeparators | crates/sp1-bn-verifier/src/consts.rs:18-22 | The two domain separators are the ASCII bytes of their strings. |
| Encodings.CurveExactly | crates/sp1-bn-verifier/src/batch.rs:40-41 | A pair of coordinates is on the curve exactly when y^2 = x^3 + 3 modulo the base field order. |
| Encodings.CoordinatesReduced | crates/sp1-bn-verifier/src/batch.rs:32-42 | The coordinates of a commitment are taken modulo the base field order and then must be on the curve. |
| Encodings.ProofCoordinatesReduced | crates/sp1-bn-verifier/src/batch.rs:46-54 | The two halves of a proof, big-endian, likewise. |
| Encodings.ScalarRead | crates/sp1-bn-verifier/src/helpers.rs:128-136 | Read backwards, the bytes of a serialized scalar are its value. |
| Encodings.CompressedRead | crates/sp1-bn-verifier/src/helpers.rs:110-122 | Infinity is 31 zeros and 64; of a finite point the top bit is set exactly when 2y exceeds the base field order, and without it the bytes read backwards are x. |
| Encodings.ChallengeLayout | crates/sp1-bn-verifier/src/helpers.rs:342-366 | Every slice of the single-blob buffer by its offset: separator, count, each evaluation, commitment. |
| Encodings.BatchHeadLayout | crates/sp1-bn-verifier/src/batch.rs:121-133 | The head of the batch buffer in full: separator, lengths, and what they leave of the count (all of it for one blob, nothing from two on) and of the zeros. |
| Encodings.BatchLayout | crates/sp1-bn-verifier/src/batch.rs:132-160 | Every slice of the batch buffer by its offset: for blob i its commitment, z, y and proof; the challenge is the hash of that buffer. |
| Encodings.EvaluationsOfBlob | crates/sp1-bn-verifier/src/helpers.rs:142-186 | The evaluations of a blob are its 32-byte big-endian elements, then zeros, up to the next power of two. |
| Encodings.CoefficientsExactly | crates/sp1-bn-verifier/src/batch.rs:71-107 | The polynomial behind the verdict, both ways: the one with as many coefficients as the padded width that takes, on the powers of the table root of that width, the elements of the blob and then zero. |
| Encodings.CoefficientsOverFr | crates/sp1-bn-verifier/src/helpers.rs:255-317 | The same over the integers modulo the scalar field order and the literal table. |
| Encodings.BlobChallengeBytes | crates/sp1-bn-verifier/src/helpers.rs:336-369 | The challenge of a blob is the hash of the separator, the padded width, the bytes of the blob, zeros, and the compressed commitment. |
| Spaces.RootBound | crates/sp1-bn-verifier/src/batch.rs:189-219 | A polynomial over a field, with coefficients in any space over it, that has as many distinct roots as coefficients is zero. |
| Spaces.Division | crates/sp1-bn-verifier/src/batch.rs:7 | Synthetic division: c(x) = c(a) + (x - a)·q(x). |
| Batch.G1Lincomb | crates/sp1-bn-verifier/src/helpers.rs:60-67 | Fails exactly when the numbers of points and scalars differ; otherwise gives the sum of scalar times point. |
| Batch.OpensInG1 | crates/sp1-bn-verifier/src/batch.rs:7 | The pairing equation of one claim holds exactly when C - [y] = (tau - z)·proof. |
| Batch.OpensExactly | crates/sp1-bn-verifier/src/batch.rs:7 | At any challenge but the secret point, a claim about a committed polynomial p opens to y with exactly one proof: the honest quotient plus [(p(z) - y) / (tau - z)]. |
| Batch.HonestClaimOpens | crates/sp1-bn-verifier/src/batch.rs:7 | The commitment [p(tau)], value p(z) and quotient proof of an honest prover satisfy the equation. |
| Batch.BatchResidual | crates/sp1-bn-verifier/src/batch.rs:189-219 | The two sides of the batched pairing equation differ by the polynomial in r whose coefficients are the residuals of the single claims. |
| Batch.BatchComplete | crates/sp1-bn-verifier/src/batch.rs:186-219 | If every claim opens, every challenge r accepts. |
| Batch.BatchSound | crates/sp1-bn-verifier/src/batch.rs:186-219 | If one claim of n does not open, fewer than n challenges accept. |
| BatchVerifier.ComputeRPowers | crates/sp1-bn-verifier/src/batch.rs:110-164 | Never fails on lists of one length, with any number of blob lengths; returns the powers of the hash of the batch transcript. |
| BatchVerifier.ValidateAll | crates/sp1-bn-verifier/src/batch.rs:179-184 | Succeeds exactly when every point is on the curve. |
| BatchVerifier.VerifyKzgProofBatch | crates/sp1-bn-verifier/src/batch.rs:166-220 | Fails exactly on lists of different lengths or a point off the curve; otherwise the verdict is the batched equation at the batch challenge. |
| BatchVerifier.ComputeChallengesAndEvaluatePolynomial | crates/sp1-bn-verifier/src/helpers.rs:373-392 | No polynomials succeed with any commitments; otherwise succeeds exactly when there are as many commitments, all on the curve, and no blob is empty, with the Fiat-Shamir point of each blob and the value of its polynomial there. |
| BatchVerifier.ParseBlobs | crates/sp1-bn-verifier/src/batch.rs:76-78 | Succeeds exactly when every blob is canonical and within the SRS, with each padded polynomial. |
| BatchVerifier.CollectPoints | crates/sp1-bn-verifier/src/batch.rs:80-85 | Succeeds exactly when every item converts to a point of the curve, with those points in order. |
| BatchVerifier.VerifyBlobKzgProofBatch | crates/sp1-bn-verifier/src/batch.rs:71-107 | From blob bytes, commitment coordinates and proof bytes: errors exactly on a malformed or empty blob, coordinates off the curve or lists of different lengths; otherwise the verdict is the batched check of the claims that each blob, interpolated, takes its value at its Fiat-Shamir point. The empty batch is accepted. |
| BatchVerifier.BatchVerify | crates/sp1-bn-verifier/src/batch.rs:62-68 | True exactly when there is no error and the verdict is to accept. |
| BatchVerifier.HonestBatchAccepted | crates/sp1-bn-verifier/src/batch.rs:186-219 | Group elements that are the commitments and proofs of a prover satisfy the batched equation at every challenge. |
| Honest.WrittenRead | crates/compute-proof/src/kzg_proof.rs:58-79 | Coordinates written for a point of the curve are read back to it, as a commitment and as proof bytes, except for infinity, whose zeros the verifier refuses. |
| Honest.HonestVerdict | crates/sp1-bn-verifier/src/batch.rs:62-107 | For all batches with the commitments and proofs that the prover writes: the verifier accepts if and only if every blob can be read and no commitment and no proof is the identity. |
| Honest.ConstantBlobHasIdentity | crates/compute-proof/src/kzg_proof.rs:35-49 | The honest proof of a blob with one value throughout is the identity, and if that value is zero so is the commitment. |
| Honest.OneElementRefused | crates/sp1-bn-verifier/src/batch.rs:47-54 | The failing input: against the commitment to a blob of one field element the verifier accepts no proof at all. |
| BatchVerifier.VerifierSound | crates/sp1-bn-verifier/src/batch.rs:71-107 | If the claim about one blob does not open, then of the values the hash of the batch transcript may take, all else unchanged, fewer make the whole verifier accept than there are blobs. |
| Binding.CoefficientsFixBlob | crates/sp1-bn-verifier/src/helpers.rs:171-186 | Two blobs of one length with the same interpolating polynomial are the same bytes. |
| Binding.AccidentsFew | crates/sp1-bn-verifier/src/helpers.rs:253-254 | Two different polynomials of n coefficients agree at fewer than n challenges. |
| Binding.ForgedReveals | crates/sp1-bn-verifier/src/batch.rs:7 | A proof that opens a commitment to a false value gives [1 / (tau - z)]. |
| Binding.OpeningBinds | crates/sp1-bn-verifier/src/batch.rs:7 | A claim about a blob that opens against a commitment to p is about p, unless the challenge is the secret, the proof is the forged one, or the challenge is an accident. |
| Binding.ExceptionsFew | crates/sp1-bn-verifier/src/batch.rs:186-219 | Fewer batch hashes than claims hide a claim that does not open. |
| Binding.AcceptedBinds | crates/sp1-bn-verifier/src/batch.rs:62-107 | Every blob of an accepted batch in which none of those events happened is the blob its commitment is to. |
| Derivation.EthereumSource.Next | crates/eigenda/src/eigenda.rs:76 | Yields the items and errors of the block in order, then end of data. |
| Derivation.EigenDAPreimageSource.Next | crates/eigenda/src/eigenda_preimage.rs:31-60 | Validity, then the recency window of the certificate version, then recency, then the payload: the same provider calls, state and result as the specification. |
| Derivation.Round | crates/eigenda/src/eigenda.rs:75-161 | A round that recurses strictly decreases the items left plus one for a held commitment. |
| Runs.RoundsBounded | crates/eigenda/src/eigenda.rs:118-160 | One call does at most one round for each item left and for a held commitment, plus one. |
| Derivation.EigenDADataSource.Next | crates/eigenda/src/eigenda.rs:66-162 | The recursive method on its fields computes the specification, result and whole new state, and terminates; at end of data both sources are cleared. |
| Derivation.EigenDADataSource.Clear | crates/eigenda/src/eigenda.rs:164-167 | Drops the held commitment and the rest of the Ethereum source. |
| Runs.PendingInvariant | crates/eigenda/src/eigenda.rs:110-162 | After every call a commitment is held exactly when the call ended in a temporary or critical provider error, or a panic. |
| Runs.HeldUntilDone | crates/eigenda/src/eigenda.rs:75-116 | The Ethereum source is only read forward; a commitment held after a call that took no item is the one held before; at end of data nothing is left. |
| Runs.FailuresKeepEverything | crates/eigenda/src/eigenda.rs:110-144 | Through any number of calls in which the provider fails on the held commitment, every call reports the failure, no Ethereum item is taken and the commitment stays. |
| Runs.RunKeeps | crates/eigenda/src/eigenda.rs:66-162 | Over any run, failing or not, what dealing with single commitments keeps is kept, and a critical failure comes from a commitment that failed critically. |
| Rules.SourceRule | crates/eigenda/src/eigenda_preimage.rs:31-115 | For every provider, in numbers: invalid certificates are discarded; a valid V4 one of version 0 is discarded, before any payload fetch, exactly when its inclusion is more than 14400 blocks after its reference block; V2 and V3 go on to the fetch; other V4 versions are critical. |
| Rules.CommitmentRule | crates/eigenda/src/eigenda_preimage.rs:31-115 | The same of the reference derivation: a commitment yields p exactly when it is valid, recent in those numbers, and its payload decodes to p. |
| Rules.CalldataExactly | crates/eigenda/src/eigenda_preimage.rs:62-77 | Calldata is commitment c exactly when, after its first byte, it starts with the print of c, which has type 1 and layer 0. |
| Rules.ItemRule | crates/eigenda/src/eigenda.rs:87-107 | Empty items yield nothing, items that do not begin with 1 themselves, and the others what the commitment printed after that byte yields, or nothing if there is none. |
| Runs.RunConserves | crates/eigenda/src/eigenda.rs:66-162 | At every point of every run with truthful answers, outputs so far followed by those still expected are the filter-map of the L1 items. |
| Runs.RunIsFilterMap | crates/eigenda/src/eigenda.rs:66-162 | A run that reaches end of data, whatever the schedule of errors, returned exactly the filter-map: other data unchanged, bad items nothing, each good commitment its payload once, in order. |
| Runs.RunReachesEof | crates/eigenda/src/eigenda.rs:118-160 | With no critical error and finitely many temporary ones, one call per item, per failure and for a held commitment, plus one, reach end of data. |
| Providers.OracleEigenDAPreimageProviderWithPreimage.GetValidity | crates/witgen/src/witness_provider.rs:31-47 | Passes the answer through and records it when it is one. |
| Providers.OracleEigenDAPreimageProviderWithPreimage.GetEncodedPayload | crates/witgen/src/witness_provider.rs:49-64 | Passes the payload through and records it when there is one. |
| Providers.RecorderInvariant | crates/witgen/src/witness_provider.rs:31-64 | At every point of every run, failing or not, commitments recorded with payloads are a subsequence of those recorded valid, payloads have the length of their certificate, and there are no more payloads than validities. |
| Providers.OracleSizesPayloads | crates/proof/src/eigenda_provider.rs:75-100 | Payloads from the oracle provider have exactly the number of elements of the certificate. |
| Providers.FetchFromOneStore | crates/proof/src/eigenda_provider.rs:107-136 | If the host serves nothing in between, fetching element by element is the read of the whole payload from one store. |
| Providers.FetchTrue | crates/proof/src/eigenda_provider.rs:107-136 | Whatever the host serves between two elements, what is fetched is the beginning of the true payload. |
| Providers.OracleFaithful | crates/proof/src/eigenda_provider.rs:37-136 | Over a host that serves hints about the block in any order and number, before every read of the client, and answers them truthfully or not at all, whatever the client reads about a commitment of the block is true; missing data and lost channels are errors. |
| Providers.OracleAnswers | crates/proof/src/eigenda_provider.rs:37-136 | If the host serves the hint of the client about a valid and recent certificate, the client is told so and fetches the payload cut or padded to the length in the certificate. |
| Providers.HostedRunIsFilterMap | crates/proof/src/eigenda_provider.rs:37-136 | Host, key-value store, client and derivation together: a run that reaches end of data returned exactly the reference derivation of the block. |
| Providers.WitnessRoundTrip | crates/proof/src/eigenda_witness.rs:103-136 | Building a witness succeeds with w exactly when taking w apart gives the parts back and a canoe proof is present if there is a validity entry. |
| Providers.PreloadedEigenDAPreimageProvider.FromWitness | crates/proof/src/preloaded_eigenda_provider.rs:61-143 | Builds a provider exactly when every assertion holds, every verifier address is known and both proof checks pass; its queues are the witness entries, oldest first, after the reversal. |
| Providers.PreloadedEigenDAPreimageProvider.GetValidity | crates/proof/src/preloaded_eigenda_provider.rs:151-169 | Takes the oldest validity; panics if there is none or it is for another commitment. |
| Providers.PreloadedEigenDAPreimageProvider.GetEncodedPayload | crates/proof/src/preloaded_eigenda_provider.rs:171-189 | Takes the oldest payload; panics if there is none or it is for another commitment. |
| Providers.CanoeBinds | crates/proof/src/preloaded_eigenda_provider.rs:87-113 | What the canoe verifier is handed claims exactly the validities of the witness: if it passes only lists of true claims, the validities are true. |
| Providers.AcceptedIsTrue | crates/proof/src/preloaded_eigenda_provider.rs:76-132 | The entries of an accepted witness are all true of their commitments. |
| Soundness.VerifierBinds | crates/proof/src/preloaded_eigenda_provider.rs:118-124 | With the KZG verifier behind the batch check, a witness it accepts has its blobs bound to their commitments, but for the named events. |
| Soundness.VerifiedReplaySound | crates/proof/src/preloaded_eigenda_provider.rs:61-190 | Replay soundness with that verifier in the place of the hypothesis about the batch check. |
| Providers.ReplaySound | crates/proof/src/preloaded_eigenda_provider.rs:61-190 | For any witness: if its checks pass and the derivation over it reaches end of data, the outputs are those of the reference derivation of the L1 items. |
| Replay.RoundHandles | crates/eigenda/src/eigenda.rs:75-161 | For any provider, a round handles the first item still to be dealt with and drops it exactly when done with it. |
| Replay.RunInduction | crates/eigenda/src/eigenda.rs:66-162 | For any provider: a relation between states, items and outputs that extends by one item, or one more try of it, in front holds over every run to end of data without critical error or panic. |
| Replay.RunReplays | crates/proof/src/preloaded_eigenda_provider.rs:151-189 | A run over preloaded queues reaches end of data without panic or critical error exactly when the items replay one by one, with the same outputs and leftovers. |
| Replay.RunRecords | crates/witgen/src/witness_provider.rs:31-64 | A recording run to end of data records one validity per commitment plus one per failed payload fetch; if none failed, the record replays to the same outputs and is used up. |
| Replay.CountedRun | crates/witgen/src/witness_provider.rs:31-64 | Counting failed payload fetches, which the next rows speak of, changes neither results nor record of any run. |
| Replay.ReplayIffNoPayloadFailed | crates/proof/src/preloaded_eigenda_provider.rs:134-189 | Any recording run that reaches end of data without critical error replays exactly (same outputs, no panic, both queues empty) if and only if no payload fetch failed after its commitment was found valid. |
| Replay.RecordedWitnessReplays | crates/proof/src/preloaded_eigenda_provider.rs:61-143 | A witness made from such a record, its proofs passing, satisfies every assertion of the preloaded provider, and the same equivalence holds of its replay. |
| Replay.OracleNeverDiscards | crates/proof/src/errors.rs:13-29 | The oracle provider never fails with a discard. |
| Providers.ValidityClasses | crates/proof/src/errors.rs:13-29 | A validity query fails critically exactly on a closed channel; any other channel failure and a missing preimage are temporary; 0 and 1 are the answers, and anything else a panic. |
| Providers.PayloadClasses | crates/proof/src/errors.rs:13-29 | A payload fetch fails critically exactly when the turn it failed at closed the channel, and temporarily exactly when it failed otherwise or the element is missing or of the wrong size. |
| Replay.OracleRunNotCritical | crates/proof/src/errors.rs:13-29 | While the channel is not closed and only known versions are answered valid, no run over the oracle meets a critical error. |
| Replay.RecordedOracleReplays | crates/witgen/src/witness_provider.rs:31-64 | The same recorded over the oracle, with nothing assumed of the provider or the run: whatever the host does but close the channel. |
| Alignment.RunFollows | crates/witgen/src/witness_provider.rs:31-64 | A truthful recording run to end of data recorded each wanted payload once, in order, and each validity once and again after each failed fetch of its payload. |
| Alignment.ReplayAligned | crates/proof/src/preloaded_eigenda_provider.rs:151-189 | Such a record replays, to what the items are worth, exactly when the i-th validity is that of the i-th commitment of the block for every i. |
| Alignment.SlippedAligned | crates/proof/src/preloaded_eigenda_provider.rs:151-169 | That is so after a failed fetch exactly when every later commitment equals the one it failed on. |
| Alignment.ReplayIffAligned | crates/proof/src/preloaded_eigenda_provider.rs:134-189 | For every truthful recording run to end of data: the replay gets through with the same outputs, whatever is left in the queues, if and only if the validities are aligned with the block, which is so if and only if no fetch failed or all later commitments equal the one the first failed fetch was for; otherwise the replay panics. |
| Replay.RetriedPayloadAborts | crates/proof/src/preloaded_eigenda_provider.rs:151-169 | For all pairs of different recent commitments, the first payload fetch failing once: the recording run reaches end of data, the witness made of its record is accepted if its proofs pass, and the replay panics. |
| Counterexample.RecordingDoesNotReplay | crates/proof/src/preloaded_eigenda_provider.rs:151-169 | Concrete calldata: two V3 certificates of two field elements, with any KZG commitment, that differ in the reference block number; the witness made of the record is accepted if its proofs pass, and the replay panics. |
| Counterexample.VerifiedRecordingDoesNotReplay | crates/proof/src/preloaded_eigenda_provider.rs:118-169 | The same with the commitment and proofs that the prover writes and the batch verifier of this project, which accepts them. |
| Acceptance.StoredPayloadEncodes | bin/host/src/handler.rs:151-169 | A payload that passes the range check of the host, cut or padded to any length, is the encoding of field elements. |
| Acceptance.RecordedInRange | crates/witgen/src/witness_provider.rs:49-64 | At every point of every run, every payload recorded over the oracle is such an encoding, whatever the host does. |
| Acceptance.WitnessVerdict | crates/proof/src/preloaded_eigenda_provider.rs:118-124 | For such payloads, with honest commitments and proofs, the batch verifier accepts exactly those of 1 to 2^28 field elements none of whose points is the identity. |
| Acceptance.RecordedWitnessAccepted | crates/proof/src/preloaded_eigenda_provider.rs:61-143 | From host to verdict: the witness made of what was recorded over the oracle in any number of calls, with honest commitments and proofs, is accepted by the preloaded provider exactly when its canoe proof passes and its payloads are of that kind. |
| Codec.LenInvariant | crates/eigenda/src/eigenda_data.rs:51-80 | The length check accepts exactly 32·2^k bytes. |
| Rules.LengthErrors | crates/eigenda/src/eigenda_data.rs:51-80 | Which of the three errors a length ends in. |
| Prelude.PowerOfTwoBits | crates/eigenda/src/eigenda_data.rs:199-202 | n & (n - 1) = 0 with n not zero means n is a power of two. |
| Codec.ReadHeader | crates/eigenda/src/eigenda_data.rs:84-121 | The loop over the header agrees with its specification, with the same error for the same byte. |
| Codec.HeaderIsInverse | crates/eigenda/src/eigenda_data.rs:84-121 | The header decodes to len exactly when it is the header of len, below 2^32. |
| Rules.HeaderBytes | crates/eigenda/src/eigenda_data.rs:84-121 | The header decodes to len exactly when its bytes are 0, 0, the length in four bytes below 2^32, and 26 zeros. |
| Codec.CheckAndRemoveZeroPadding | crates/eigenda/src/eigenda_data.rs:174-196 | The loop agrees with its specification, errors included. |
| Codec.StripIsInverse | crates/eigenda/src/eigenda_data.rs:174-196 | Removing the padding succeeds with x exactly on the padding of x. |
| Codec.DecodeEncodedPayload | crates/eigenda/src/eigenda_data.rs:158-168 | The method with its loops agrees with the specification on every input, errors included. |
| Codec.DecodeCanonical | crates/eigenda/src/eigenda_data.rs:123-168 | decode(e) is p if and only if p is shorter than 2^32 bytes and e is its version-0 encoding zero-extended to a power of two of field elements. |
| Codec.DecodeInjective | crates/eigenda/src/eigenda_data.rs:154-168 | Accepted strings of one length with the same payload are equal. |
| Codec.RoundTrip | crates/eigenda/src/eigenda_data.rs:224-250 | Every payload below 2^32 bytes survives encoding into any sufficient power of two of field elements and decoding. |
| Codec.EncodeExtends | crates/eigenda/src/eigenda_data.rs:224-250 | Encoding into more field elements only appends zeros. |
| Rules.EncodedBytes | crates/eigenda/src/eigenda_data.rs:211-250 | Where every byte of the payload is in its encoding, with a zero in front of every 31 and zeros behind. |
| Rlp.HeaderIsInverse | crates/eigenda-cert/src/altda_commitment.rs:74-90 | Strict RLP headers: decoding succeeds exactly on minimal headers followed by the announced bytes. |
| Rlp.DecodeIsInverse | crates/eigenda-cert/src/altda_commitment.rs:72-90 | Decoding against a shape succeeds with i and rest exactly when i has the shape and the input is the encoding of i followed by rest. |
| Rlp.EncodeInjective | crates/eigenda-cert/src/altda_commitment.rs:218-242 | Values of one shape with the same encoding are equal. |
| Rules.RlpShort | crates/eigenda-cert/src/altda_commitment.rs:215-242 | The defining examples of RLP: short strings, a list, the empty ones, a single byte. |
| Rules.RlpLong | crates/eigenda-cert/src/altda_commitment.rs:215-242 | The shortest string and list with a length of their own. |
| Rules.FieldOrder | crates/eigenda-cert/src/lib.rs:24-168 | The fields stand in the encoding in the order of their declaration. |
| Commitment.CertInjective | crates/eigenda-cert/src/lib.rs:24-168 | Certificates of one version with the same RLP items are equal, field by field in the derived order. |
| Commitment.TryFromIsInverse | crates/eigenda-cert/src/altda_commitment.rs:51-104 | Parsing succeeds with c if and only if c has type 1 and layer 0 and its print is a prefix of the input. |
| Rules.PrintHead | crates/eigenda-cert/src/altda_commitment.rs:218-242 | The bytes in front of the certificate: type, layer, and 1, 2 or 3 for V2, V3 and V4. |
| Rules.ParseErrors | crates/eigenda-cert/src/altda_commitment.rs:53-97 | Which error an input ends in before its certificate is reached. |
| Rules.FieldsRead | crates/eigenda-cert/src/altda_commitment.rs:131-213 | Length, reference block number and KZG commitment are read from the same fields in V2, V3 and V4. |
| Commitment.PrintParse | crates/eigenda-cert/src/altda_commitment.rs:215-242 | Parsing what was printed gives the commitment back, whatever trails it. |
| Commitment.PrintInjective | crates/eigenda-cert/src/altda_commitment.rs:215-242 | Different commitments print differently, across V2, V3 and V4. |
| Commitment.PrintRlpBytes | crates/eigenda-cert/src/altda_commitment.rs:218-242 | The growing vector is type, layer, version byte and the certificate's RLP. |
| AddressSpace.MakeDigestTemplate | crates/eigenda-cert/src/altda_commitment.rs:124-129 | 32 digest bytes and 48 zeros. |
| AddressSpace.AddressesDistinct | crates/eigenda-cert/src/altda_commitment.rs:106-129 | Validity and element addresses of all commitments and all 64-bit indices are pairwise distinct. |
| AddressSpace.KeysDistinct | bin/host/src/handler.rs:120-139 | Keys are equal exactly for the same purpose of the same commitment. |
| AddressSpace.ElementKey | bin/host/src/handler.rs:172-181 | Overwriting the last 8 bytes of the reused buffer gives the key of that element and leaves the rest for the next. |
| AddressSpace.StoreCertValidity | bin/host/src/handler.rs:120-139 | One entry: the validity byte at the validity key. |
| AddressSpace.StoreEncodedPayload | bin/host/src/handler.rs:142-191 | Aborts on a bad length, errors on an element out of range, both before any write; otherwise stores exactly the certificate's number of elements, cut or padded with zeros. |
| AddressSpace.OutcomeExactly | bin/host/src/handler.rs:148-166 | Storing succeeds exactly for a non-empty payload of whole elements of which the mask 0b1110_0000 finds nothing in the first bytes; the host panics exactly on the first two. |
| AddressSpace.FetchEigendaHint | bin/host/src/handler.rs:61-117 | Effect on the store and outcome for every hint and every answer of the proxy. |
| AddressSpace.GetValidity | crates/proof/src/eigenda_provider.rs:37-73 | Sends the hint and then reads the validity byte; a failed write is that error, missing an error, malformed a panic. |
| AddressSpace.FetchEncodedPayload | crates/proof/src/eigenda_provider.rs:107-136 | Fills the buffer with the elements read under the recomputed keys, or reports a failure exactly when one is missing or has the wrong size. |
| AddressSpace.GetEncodedPayload | crates/proof/src/eigenda_provider.rs:75-100 | Sends the hint and then reads the elements of the certificate's length, in order; a failed write is that error. |
| AddressSpace.HintWriter.Write | crates/proof/src/eigenda_provider.rs:44-47 | Every write is sent, in order, and some fail. |
| AddressSpace.HostClientAgree | bin/host/src/handler.rs:61-191 | After any sequence of hints the client reads for each commitment exactly what was last recorded about it, whatever was stored for others. |
| AddressSpace.Provenance | bin/host/src/handler.rs:142-191 | Every element in the store was put there by a hint about its own commitment. |
| AddressSpace.ClientReadsItsPayload | crates/proof/src/eigenda_provider.rs:75-136 | After its own hint for a valid and recent certificate, followed by hints about others, the client reads true and the payload cut or padded to the certificate's length. |

## Left out

- `validate_g1_point` is modelled as its comment says, as membership of the curve; the curve has no other subgroup.
- The arkworks backend, and the internals of SHA-256, keccak256, Montgomery arithmetic, multi-scalar multiplication
  and the pairing: functions with the laws the proofs use. `Fr::pow` takes the exponent as an integer.
- The affine sentinel for a zero difference is taken to be the identity of G1, as its comment says.
- Probability: the bounds are on the number of challenges, not on the chance of hitting one.
- The trusted setup: that the G2 constant is a multiple of the generator by the secret is the definition of `tau`.
- BatchVerifier.VerifyKzgProofBatch: leaves out empty lists of the same length, on which the sum of no points panics;
  its caller returns before.
- The Ethereum source is a finite list of items and errors of one block, ending in end of data; its `clear` empties
  it.
- The kona pipeline and executor, HTTP and proxy calls, hint strings, the zkVM guests.
- The prover's library is not part of this model: its commitment and proof are taken to be [p(tau)] and [q(tau)].
- Soundness.VerifierBinds: computational hardness and probability are not modelled, so the four events are hypotheses.
- Recorded lists behind a mutex: the recorder is used by one derivation at a time.
- Conversion of certificates to Solidity types, and the rkyv and serde forms.
- Error messages, apart from the numbers in codec errors; for derivation only discard, temporary and critical.
- The commitment types and layers other than 1 and 0 are printed but never parsed, as in the code.
- Host memory and 64-bit wrap-around of lengths: buffers and counts are unbounded where the code uses `usize`.
- Codec.RoundTrip: the reference encoder extends the one in the code's tests, which rounds up to 32 bytes only, to a
  power of two of field elements, since the decoder accepts nothing else.

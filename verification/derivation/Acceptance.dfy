/** When the batch verifier accepts what was recorded: the host's range check makes every payload readable, so only
    its length and the identity can stand in the way. */
module Acceptance {
  import opened Prelude
  import opened Bytes
  import opened ScalarField
  import opened RootsOfUnity
  import opened Transcript
  import opened Batch
  import opened BatchVerifier
  import opened Honest
  import opened Commitment
  import opened Derivation
  import opened Runs
  import opened Providers
  import opened Replay

  // Payloads in range are encodings of field elements

  /** The top three bits of every element are clear. */
  predicate InRange(payload: seq<byte>) {
    |payload| % 32 == 0 && forall i :: 0 <= i < |payload| / 32 ==> payload[32 * i] < 32
  }

  lemma {:induction false} LeadBound(s: seq<byte>)
    requires s != []
    ensures FromBytesBE(s) < (s[0] + 1) * Pow256(|s| - 1)
  {
    var t, last := s[..|s| - 1], s[|s| - 1];
    if t == [] {
      assert FromBytesBE(t) == 0 && Pow256(0) == 1;
    } else {
      LeadBound(t);
      assert t[0] == s[0] && Pow256(|s| - 1) == 256 * Pow256(|s| - 2);
      hide Pow256;
      var lead: nat := s[0] as nat + 1;
      MulAssociates(lead, 256, Pow256(|s| - 2));
      MulAssociates(256, lead, Pow256(|s| - 2));
    }
  }

  lemma LowElement(chunk: seq<byte>)
    requires |chunk| == 32 && chunk[0] < 32
    ensures FromBytesBE(chunk) < FR_MODULUS
  {
    hide FromBytesBE, Pow256;
    LeadBound(chunk);
    Pow256Values();
    MulAtMost(chunk[0] + 1, 32, Pow256(31));
  }

  lemma MulAtMost(a: nat, b: nat, c: nat)
    requires a <= b
    ensures a * c <= b * c
  {
  }

  /** A payload that passes the host's range check is the encoding of field elements. */
  lemma {:induction false} InRangeEncodes(payload: seq<byte>)
    requires InRange(payload)
    ensures IsEncoding(payload)
  {
    hide Flatten, Chunks, FromBytesBE;
    var n := |payload| / 32;
    if n == 0 {
      NoElements();
      assert payload == [];
    } else {
      var front, chunk := payload[..32 * (n - 1)], payload[32 * (n - 1)..];
      assert forall i :: 0 <= i < n - 1 ==> front[32 * i] == payload[32 * i];
      InRangeEncodes(front);
      var data: seq<Residue> :| Flatten(Chunks(data)) == front;
      assert chunk[0] == payload[32 * (n - 1)];
      LowElement(chunk);
      ChunksSnoc(data, chunk);
      assert front + chunk == payload;
    }
  }

  lemma NoElements()
    ensures Flatten(Chunks([])) == []
  {
  }

  /** A payload the host stores, cut or padded to any length, is the encoding of field elements. */
  lemma StoredPayloadEncodes(payload: seq<byte>, n: nat)
    requires AddressSpace.PayloadOutcome(payload) == AddressSpace.Done
    ensures IsEncoding(AddressSpace.Fit(payload, n))
  {
    var fitted := AddressSpace.Fit(payload, n);
    forall i | 0 <= i < n
      ensures fitted[32 * i] < 32
    {
      if 32 * i < |payload| {
        assert fitted[32 * i] == payload[32 * i];
      }
    }
    InRangeEncodes(fitted);
  }

  // What is recorded over the oracle is in range

  ghost predicate HintsIn(hints: seq<AddressSpace.Hint>, cs: set<AltDACommitment>) {
    forall i :: 0 <= i < |hints| && TryFrom(hints[i].bytes).Success? ==> TryFrom(hints[i].bytes).value in cs
  }

  /** The host serves hints about the block only. */
  ghost predicate HostIn(host: nat -> Turn, cs: set<AltDACommitment>) {
    forall n :: host(n).Serve? ==> HintsIn(host(n).hints, cs)
  }

  lemma ServedIn(host: nat -> Turn, s: Session, cs: set<AltDACommitment>)
    requires HostIn(host, cs) && HintsIn(s.hints, cs)
    ensures HintsIn(Served(host, s).hints, cs)
  {
    hide TryFrom;
  }

  lemma ElementLow<Key>(
      H: AddressSpace.Hashes<Key>, hints: seq<AddressSpace.Hint>, cs: set<AltDACommitment>, c: AltDACommitment, i: nat)
    requires AddressSpace.DistinctDigests(H, cs) && AddressSpace.DistinctKeys(H, cs) && c in cs
    requires HintsIn(hints, cs) && i < GetNumFieldElement(c)
    ensures var v := AddressSpace.ReadElement(H, AddressSpace.RunHints(H, hints), c, i);
            v.Answer? ==> v.value[0] < 32
  {
    hide TryFrom, AddressSpace.DistinctDigests, AddressSpace.DistinctKeys, GetNumFieldElement;
    hide AddressSpace.RunHints, AddressSpace.SlotKey, AddressSpace.StoredFrom;
    var m, k := AddressSpace.RunHints(H, hints), AddressSpace.SlotKey(H, AddressSpace.Element(c, i));
    if AddressSpace.ReadElement(H, m, c, i).Answer? {
      AddressSpace.ShortEnough(c);
      AddressSpace.Provenance(H, cs, hints, c, i);
      var h :| h in hints && AddressSpace.StoredFrom(h, c, i, m[k]);
      StoredLow(h, c, i, m[k]);
    }
  }

  lemma StoredLow(h: AddressSpace.Hint, c: AltDACommitment, i: nat, v: seq<byte>)
    requires AddressSpace.StoredFrom(h, c, i, v)
    ensures |v| == 32 && v[0] < 32
  {
    hide TryFrom, GetNumFieldElement;
  }

  lemma {:induction false} FetchInRange<Key>(
      H: AddressSpace.Hashes<Key>, host: nat -> Turn, cs: set<AltDACommitment>, s: Session, c: AltDACommitment, n: nat)
    requires AddressSpace.DistinctDigests(H, cs) && AddressSpace.DistinctKeys(H, cs) && c in cs
    requires HostIn(host, cs) && HintsIn(s.hints, cs) && n <= GetNumFieldElement(c)
    ensures var (s', r) := FetchEach(H, host, s, c, n);
            HintsIn(s'.hints, cs) && (r.Answer? ==> InRange(r.value))
  {
    hide AddressSpace.DistinctDigests, AddressSpace.DistinctKeys, AddressSpace.RunHints, GetNumFieldElement;
    hide HintsIn, HostIn, AddressSpace.ReadElement, InRange;
    if n > 0 {
      FetchInRange(H, host, cs, s, c, n - 1);
      var (s1, front) := FetchEach(H, host, s, c, n - 1);
      if front.Answer? {
        var s2 := Served(host, s1);
        ServedIn(host, s1, cs);
        ElementLow(H, s2.hints, cs, c, n - 1);
        var element := AddressSpace.ReadElement(H, AddressSpace.RunHints(H, s2.hints), c, n - 1);
        if element.Answer? {
          InRangeMore(front.value, element.value);
        }
      }
    } else {
      NothingInRange();
    }
  }

  lemma InRangeMore(front: seq<byte>, v: seq<byte>)
    requires InRange(front) && |v| == 32 && v[0] < 32
    ensures InRange(front + v)
  {
    var all := front + v;
    forall i | 0 <= i < |all| / 32
      ensures all[32 * i] < 32
    {
      if i < |front| / 32 {
        assert all[32 * i] == front[32 * i];
      } else {
        assert 32 * i == |front| && all[32 * i] == v[0];
      }
    }
  }

  lemma NothingInRange()
    ensures InRange([])
  {
  }

  ghost predicate AllInRange(payloads: seq<PayloadEntry>) {
    forall i :: 0 <= i < |payloads| ==> InRange(payloads[i].1)
  }

  ghost predicate InOrder(r: Record<Session>, cs: set<AltDACommitment>) {
    HintsIn(r.inner.0.hints, cs) && AllInRange(r.payloads)
  }

  lemma SourceInOrder<Key>(
      H: AddressSpace.Hashes<Key>, host: nat -> Turn, cs: set<AltDACommitment>, a: Record<Session>,
      c: AltDACommitment, bn: nat)
    requires AddressSpace.DistinctDigests(H, cs) && AddressSpace.DistinctKeys(H, cs) && HostIn(host, cs)
    requires InOrder(a, cs) && c in cs
    ensures InOrder(SourceNext(Recorder(Counted(OracleProvider(H, host))), a, c, bn).0, cs)
  {
    hide AddressSpace.DistinctDigests, AddressSpace.DistinctKeys, AddressSpace.RunHints, GetNumFieldElement, GetRbn;
    hide HintsIn, HostIn, AddressSpace.ReadValidity, InRange, FetchEach, Served, IsRecent;
    var s := a.inner.0;
    ServedIn(host, s, cs);
    var s1 := Served(host, s);
    ServedIn(host, s1, cs);
    FetchInRange(H, host, cs, Served(host, s1), c, GetNumFieldElement(c));
  }

  /** Every payload recorded over the oracle is in range, at every point of every run and whatever the host does. */
  lemma RecordedInRange<Key>(
      H: AddressSpace.Hashes<Key>, host: nat -> Turn, cs: set<AltDACommitment>,
      events: seq<EthEvent>, bn: nat, calls: nat)
    requires AddressSpace.DistinctDigests(H, cs) && AddressSpace.DistinctKeys(H, cs) && HostIn(host, cs)
    requires Within(State(events, None, Blank(Session([], 0))), cs)
    ensures var R := Recorder(Counted(OracleProvider(H, host)));
            AllInRange(Run(R, State(events, None, Blank(Session([], 0))), bn, calls).0.provider.payloads)
  {
    hide AddressSpace.DistinctDigests, AddressSpace.DistinctKeys, HostIn, InOrder, Run, SourceNext;
    hide OracleProvider, Recorder, Counted, About;
    var R := Recorder(Counted(OracleProvider(H, host)));
    var st := State(events, None, Blank(Session([], 0)));
    var inv, asked := (a: Record<Session>) => InOrder(a, cs), (c: AltDACommitment) => c in cs;
    forall a: Record<Session>, c: AltDACommitment | inv(a) && asked(c)
      ensures inv(SourceNext(R, a, c, bn).0)
    {
      SourceInOrder(H, host, cs, a, c, bn);
    }
    BlankInOrder(cs);
    RunKeeps(R, inv, asked, st, bn, calls);
    InOrderPayloads(Run(R, st, bn, calls).0.provider, cs);
  }

  lemma BlankInOrder(cs: set<AltDACommitment>)
    ensures InOrder(Blank(Session([], 0)), cs)
  {
  }

  lemma InOrderPayloads(r: Record<Session>, cs: set<AltDACommitment>)
    requires InOrder(r, cs)
    ensures AllInRange(r.payloads)
  {
  }

  // When the verifier accepts the witness

  /** A readable blob one of whose points is the identity. */
  ghost predicate HasIdentity<G1, G2, GT>(
      P: Setup<Residue>, E: Pairing<Residue, G1, G2, GT>, O: Oracle<G1>, blob: seq<byte>)
    requires IsSetup(P)
  {
    && Parsable(blob) && blob != []
    && (HonestCommitment(P, E, blob) == E.s1.zero || HonestProof(P, E, O, blob) == E.s1.zero)
  }

  /** Every payload has 1 to 2^28 field elements, and no identity among its points. */
  ghost predicate AllProvable<G1, G2, GT>(
      P: Setup<Residue>, E: Pairing<Residue, G1, G2, GT>, O: Oracle<G1>, payloads: seq<PayloadEntry>)
    requires IsSetup(P)
  {
    forall i :: 0 <= i < |payloads| ==>
      && 1 <= GetNumFieldElement(payloads[i].0) <= MAINNET_SRS_G1_SIZE
      && !HasIdentity(P, E, O, payloads[i].1)
  }

  /** A payload of the certificate's length that is in range can be proved exactly when its length is one the SRS
      supports and none of its points is the identity. */
  lemma ProvableExactly<G1(!new), G2(!new), GT(!new)>(
      P: Setup<Residue>, E: Pairing<Residue, G1, G2, GT>, O: Oracle<G1>, blob: seq<byte>, n: nat)
    requires IsSetup(P) && InRange(blob) && |blob| == 32 * n
    ensures Provable(P, E, O, blob) <==> 1 <= n <= MAINNET_SRS_G1_SIZE && !HasIdentity(P, E, O, blob)
  {
    hide IsSetup, InRange, IsEncoding, HonestCommitment, HonestProof;
    InRangeEncodes(blob);
  }

  lemma EntryParts(w: EigenDAWitness, i: nat)
    requires i < |w.encodedPayloads|
    ensures Blobs(w)[i] == WitnessEntries(w)[i].1 && |WitnessEntries(w)| == |w.encodedPayloads|
    ensures CommitmentPoints(w)[i] == GetKzgCommitment(WitnessEntries(w)[i].0)
  {
  }

  /** For honest commitments and proofs to payloads in range, the batch verifier accepts exactly what is provable. */
  lemma WitnessVerdict<G1(!new), G2(!new), GT(!new)>(
      P: Setup<Residue>, E: Pairing<Residue, G1, G2, GT>, O: Oracle<G1>, w: EigenDAWitness)
    requires IsSetup(P) && IsPairing(P.K, E) && IsCurveGroup(E, O)
    requires RightSizes(WitnessEntries(w)) && AllInRange(WitnessEntries(w))
    requires forall i :: 0 <= i < |w.encodedPayloads| ==>
               HonestEntry(P, E, O, Blobs(w)[i], CommitmentPoints(w)[i], IntoPreimage(w).1[i])
    ensures Accepted(P, E, O, Blobs(w), CommitmentPoints(w), IntoPreimage(w).1)
            <==> AllProvable(P, E, O, WitnessEntries(w))
  {
    hide IsSetup, IsPairing, IsCurveGroup, HonestEntry, Provable, HasIdentity, InRange, GetNumFieldElement;
    hide GetKzgCommitment, Accepted;
    var entries := WitnessEntries(w);
    HonestVerdict(P, E, O, Blobs(w), CommitmentPoints(w), IntoPreimage(w).1);
    forall i | 0 <= i < |entries|
      ensures Provable(P, E, O, Blobs(w)[i])
              <==> 1 <= GetNumFieldElement(entries[i].0) <= MAINNET_SRS_G1_SIZE && !HasIdentity(P, E, O, entries[i].1)
    {
      EntryParts(w, i);
      InRangeWhole(entries[i].1);
      ProvableExactly(P, E, O, entries[i].1, GetNumFieldElement(entries[i].0));
    }
  }

  lemma InRangeWhole(payload: seq<byte>)
    requires InRange(payload)
    ensures |payload| == 32 * Codec.NumFieldElement(payload)
  {
  }

  /** The witness is made of what was recorded over the oracle in some number of calls, whatever they ended in. */
  ghost predicate RecordedOver<Key>(
      H: AddressSpace.Hashes<Key>, host: nat -> Turn, events: seq<EthEvent>, bn: nat, calls: nat,
      proofs: seq<KzgProof>, canoe: Option<seq<byte>>, w: EigenDAWitness)
  {
    var R := Recorder(Counted(OracleProvider(H, host)));
    var r := Run(R, State(events, None, Blank(Session([], 0))), bn, calls).0.provider;
    FromPreimage(EigenDAPreimage(r.validities, r.payloads), proofs, canoe) == Success(w)
  }

  /** The whole way from the host to the verdict. A run recorded over the oracle, whatever the host does, made into a
      witness with the prover's proofs, for certificates that carry the prover's commitments: the preloaded provider
      accepts it exactly when its canoe proof passes, every payload has 1 to 2^28 field elements, and none of the
      points is the identity. */
  lemma RecordedWitnessAccepted<Key(!new), G1(!new), G2(!new), GT(!new)>(
      P: Setup<Residue>, E: Pairing<Residue, G1, G2, GT>, O: Oracle<G1>,
      H: AddressSpace.Hashes<Key>, host: nat -> Turn, cs: set<AltDACommitment>,
      events: seq<EthEvent>, bn: nat, calls: nat,
      proofs: seq<KzgProof>, canoe: Option<seq<byte>>, V: Verifiers, head: L1Head, w: EigenDAWitness)
    requires IsSetup(P) && IsPairing(P.K, E) && IsCurveGroup(E, O)
    requires AddressSpace.DistinctDigests(H, cs) && AddressSpace.DistinctKeys(H, cs) && HostIn(host, cs)
    requires Within(State(events, None, Blank(Session([], 0))), cs)
    requires RecordedOver(H, host, events, bn, calls, proofs, canoe, w)
    requires forall i :: 0 <= i < |w.encodedPayloads| ==>
               HonestEntry(P, E, O, Blobs(w)[i], CommitmentPoints(w)[i], IntoPreimage(w).1[i])
    requires V.batch(Blobs(w), CommitmentPoints(w), IntoPreimage(w).1)
             <==> Accepted(P, E, O, Blobs(w), CommitmentPoints(w), IntoPreimage(w).1)
    ensures Accepts(V, head, w)
            <==> (w.validities != [] ==> CanoePasses(V, head, w)) && AllProvable(P, E, O, WitnessEntries(w))
  {
    hide IsSetup, IsPairing, IsCurveGroup, AddressSpace.DistinctDigests, AddressSpace.DistinctKeys, HostIn, Within;
    hide Run, ReachesEof, Recorder, Counted, OracleProvider, Blank, FromPreimage, HonestEntry, Accepted, AllProvable;
    hide SizesPayloads, IsSubsequence, CanoePasses, AllInRange, RightSizes, IntoPreimage, Blobs, CommitmentPoints;
    var R := Recorder(Counted(OracleProvider(H, host)));
    var r := Run(R, State(events, None, Blank(Session([], 0))), bn, calls).0.provider;
    WitnessRoundTrip(EigenDAPreimage(r.validities, r.payloads), proofs, canoe, w);
    TakenApart(w);
    RecordedInRange(H, host, cs, events, bn, calls);
    OracleSizesPayloads(H, host);
    CountedSizesPayloads(OracleProvider(H, host));
    BlankIs();
    RecorderInvariant(Counted(OracleProvider(H, host)), events, (Session([], 0), Tally(0, [])), bn, calls);
    WitnessVerdict(P, E, O, w);
  }

  lemma BlankIs()
    ensures Blank(Session([], 0)) == Recording((Session([], 0), Tally(0, [])), [], [])
  {
  }
}

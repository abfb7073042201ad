/** The three providers of the proving pipeline: the oracle-backed one, the recorder around it, and the
    preloaded one that replays a witness. */
module Providers {
  import opened Prelude
  import opened Bytes
  import opened Commitment
  import opened Derivation
  import opened Runs
  import AddressSpace
  import BatchVerifier

  type ValidityEntry = (AltDACommitment, bool)
  type PayloadEntry = (AltDACommitment, seq<byte>)

  // Recording

  /** A wrapped provider's state with what has been recorded so far. */
  datatype Recording<!S> = Recording(inner: S, validities: seq<ValidityEntry>, payloads: seq<PayloadEntry>)

  function RecordValidity<S>(P: Provider<S>, r: Recording<S>, c: AltDACommitment): (Recording<S>, Reply<bool>) {
    var (s', reply) := P.getValidity(r.inner, c);
    (if reply.Got? then Recording(s', r.validities + [(c, reply.value)], r.payloads)
     else r.(inner := s'),
     reply)
  }

  function RecordPayload<S>(P: Provider<S>, r: Recording<S>, c: AltDACommitment): (Recording<S>, Reply<seq<byte>>) {
    var (s', reply) := P.getEncodedPayload(r.inner, c);
    (if reply.Got? then Recording(s', r.validities, r.payloads + [(c, reply.value)])
     else r.(inner := s'),
     reply)
  }

  function Recorder<S>(P: Provider<S>): Provider<Recording<S>> {
    Provider((r, c) => RecordValidity(P, r, c), (r, c) => RecordPayload(P, r, c))
  }

  class OracleEigenDAPreimageProviderWithPreimage<!S> {
    const provider: Provider<S>
    var inner: S
    var validities: seq<ValidityEntry>
    var encodedPayloads: seq<PayloadEntry>

    constructor (provider: Provider<S>, inner: S)
      ensures this.provider == provider && Abstract() == Recording(inner, [], [])
    {
      this.provider, this.inner, validities, encodedPayloads := provider, inner, [], [];
    }

    ghost function Abstract(): Recording<S>
      reads this
    {
      Recording(inner, validities, encodedPayloads)
    }

    method GetValidity(c: AltDACommitment) returns (reply: Reply<bool>)
      modifies this
      ensures (Abstract(), reply) == Recorder(provider).getValidity(old(Abstract()), c)
    {
      var answer := provider.getValidity(inner, c);
      inner, reply := answer.0, answer.1;
      if reply.Got? {
        validities := validities + [(c, reply.value)];
      }
    }

    method GetEncodedPayload(c: AltDACommitment) returns (reply: Reply<seq<byte>>)
      modifies this
      ensures (Abstract(), reply) == Recorder(provider).getEncodedPayload(old(Abstract()), c)
    {
      var answer := provider.getEncodedPayload(inner, c);
      inner, reply := answer.0, answer.1;
      if reply.Got? {
        encodedPayloads := encodedPayloads + [(c, reply.value)];
      }
    }
  }

  // What is recorded, at every point of every run

  /** `a` is obtained from `b` by leaving elements out. */
  ghost predicate IsSubsequence<T>(a: seq<T>, b: seq<T>) {
    a == []
    || (b != [] && a[|a| - 1] == b[|b| - 1] && IsSubsequence(a[..|a| - 1], b[..|b| - 1]))
    || (b != [] && IsSubsequence(a, b[..|b| - 1]))
  }

  lemma SubsequenceSnoc<T>(a: seq<T>, b: seq<T>, x: T)
    requires IsSubsequence(a, b)
    ensures IsSubsequence(a, b + [x]) && IsSubsequence(a + [x], b + [x])
  {
    assert (b + [x])[..|b|] == b && (a + [x])[..|a|] == a;
  }

  lemma {:induction false} SubsequenceShorter<T>(a: seq<T>, b: seq<T>)
    requires IsSubsequence(a, b)
    ensures |a| <= |b|
    decreases |b|
  {
    if a != [] {
      if a[|a| - 1] == b[|b| - 1] && IsSubsequence(a[..|a| - 1], b[..|b| - 1]) {
        SubsequenceShorter(a[..|a| - 1], b[..|b| - 1]);
      } else {
        SubsequenceShorter(a, b[..|b| - 1]);
      }
    }
  }

  /** The commitments recorded as valid, in order. */
  function ValidOnes(validities: seq<ValidityEntry>): seq<AltDACommitment> {
    if validities == [] then []
    else
      var front, e := ValidOnes(validities[..|validities| - 1]), validities[|validities| - 1];
      if e.1 then front + [e.0] else front
  }

  lemma {:induction false} ValidOnesFewer(validities: seq<ValidityEntry>)
    ensures |ValidOnes(validities)| <= |validities|
  {
    if validities != [] {
      ValidOnesFewer(validities[..|validities| - 1]);
    }
  }

  /** The commitments that entries are about. */
  function Keys<T>(entries: seq<(AltDACommitment, T)>): (s: seq<AltDACommitment>)
    ensures |s| == |entries|
  {
    seq(|entries|, i requires 0 <= i < |entries| => entries[i].0)
  }

  ghost predicate RightSizes(payloads: seq<PayloadEntry>) {
    forall i :: 0 <= i < |payloads| ==> Codec.NumFieldElement(payloads[i].1) == GetNumFieldElement(payloads[i].0)
  }

  /** Payloads come with as many field elements as their commitment says. */
  ghost predicate SizesPayloads<S(!new)>(P: Provider<S>) {
    forall s, c :: var reply := P.getEncodedPayload(s, c).1;
                   reply.Got? ==> Codec.NumFieldElement(reply.value) == GetNumFieldElement(c)
  }

  ghost predicate WellRecorded<S>(r: Recording<S>) {
    IsSubsequence(Keys(r.payloads), ValidOnes(r.validities)) && RightSizes(r.payloads)
  }

  lemma RecordedSource<S(!new)>(P: Provider<S>, r: Recording<S>, c: AltDACommitment, bn: nat)
    requires SizesPayloads(P) && WellRecorded(r)
    ensures WellRecorded(SourceNext(Recorder(P), r, c, bn).0)
  {
    hide GetNumFieldElement, GetRbn, RecencyWindow;
    var (r1, v) := RecordValidity(P, r, c);
    if v.Got? {
      assert r1.validities[..|r.validities|] == r.validities;
      SubsequenceSnoc(Keys(r.payloads), ValidOnes(r.validities), c);
      assert WellRecorded(r1);
      if v.value {
        var (r2, p) := RecordPayload(P, r1, c);
        if p.Got? {
          assert Keys(r2.payloads) == Keys(r.payloads) + [c];
          assert ValidOnes(r1.validities) == ValidOnes(r.validities) + [c];
        }
        assert WellRecorded(r2);
      }
    }
  }

  lemma RecordedRun<S(!new)>(P: Provider<S>, st: State<Recording<S>>, bn: nat, calls: nat)
    requires SizesPayloads(P) && WellRecorded(st.provider)
    ensures WellRecorded(Run(Recorder(P), st, bn, calls).0.provider)
  {
    hide SourceNext, WellRecorded, SizesPayloads, Recorder, Run;
    var inv, all := (r: Recording<S>) => WellRecorded(r), (c: AltDACommitment) => true;
    forall r: Recording<S>, c: AltDACommitment | inv(r)
      ensures inv(SourceNext(Recorder(P), r, c, bn).0)
    {
      RecordedSource(P, r, c, bn);
    }
    RunKeeps(Recorder(P), inv, all, st, bn, calls);
  }

  /** After any number of calls, failing or not: payloads are recorded only for commitments recorded valid,
      in the same order, and both entry checks of the preloaded provider hold of the record. */
  lemma RecorderInvariant<S(!new)>(P: Provider<S>, events: seq<EthEvent>, s: S, bn: nat, calls: nat)
    requires SizesPayloads(P)
    ensures var r := Run(Recorder(P), State(events, None, Recording(s, [], [])), bn, calls).0.provider;
            && IsSubsequence(Keys(r.payloads), ValidOnes(r.validities))
            && |r.payloads| <= |r.validities|
            && RightSizes(r.payloads)
  {
    hide Run, Recorder, SizesPayloads, IsSubsequence;
    var st := State(events, None, Recording(s, [], []));
    EmptyRecord(s);
    RecordedRun(P, st, bn, calls);
    var r := Run(Recorder(P), st, bn, calls).0.provider;
    SubsequenceShorter(Keys(r.payloads), ValidOnes(r.validities));
    ValidOnesFewer(r.validities);
  }

  lemma EmptyRecord<S>(s: S)
    ensures WellRecorded(Recording(s, [], []))
  {
  }

  // The oracle-backed provider

  function AsReply<T>(r: AddressSpace.ClientResult<T>): Reply<T> {
    match r
    case Answer(value) => Got(value)
    case PreimageError(IOError) => Err(Critical)
    case PreimageError(OtherError) => Err(Temporary)
    case ClientPanic => Abort
  }

  /** What the host does before it answers: serves hints, in any number, or loses the channel. */
  datatype Turn = Serve(hints: seq<AddressSpace.Hint>) | Lose(error: AddressSpace.OracleError)

  /** All hints the host has served, and the number of turns it had. */
  datatype Session = Session(hints: seq<AddressSpace.Hint>, turns: nat)

  function Served(host: nat -> Turn, s: Session): Session {
    var turn := host(s.turns);
    Session(if turn.Serve? then s.hints + turn.hints else s.hints, s.turns + 1)
  }

  function AnswerOf<T>(turn: Turn, read: AddressSpace.ClientResult<T>): AddressSpace.ClientResult<T> {
    if turn.Lose? then AddressSpace.PreimageError(turn.error) else read
  }

  /** Element by element, the host having a turn before each, up to the first failure. */
  function FetchEach<Key>(H: AddressSpace.Hashes<Key>, host: nat -> Turn, s: Session, c: AltDACommitment, n: nat)
    : (r: (Session, AddressSpace.ClientResult<seq<byte>>))
    ensures r.1.Answer? ==> |r.1.value| == 32 * n
  {
    if n == 0 then (s, AddressSpace.Answer([]))
    else
      var (s1, front) := FetchEach(H, host, s, c, n - 1);
      if !front.Answer? then (s1, front)
      else
        var s2 := Served(host, s1);
        var element := AddressSpace.ReadElement(H, AddressSpace.RunHints(H, s2.hints), c, n - 1);
        match AnswerOf(host(s1.turns), element)
        case Answer(v) => (s2, AddressSpace.Answer(front.value + v))
        case PreimageError(e) => (s2, AddressSpace.PreimageError(e))
        case ClientPanic => (s2, AddressSpace.ClientPanic)
  }

  function OracleValidity<Key>(H: AddressSpace.Hashes<Key>, host: nat -> Turn, s: Session, c: AltDACommitment)
    : (Session, Reply<bool>)
  {
    var s' := Served(host, s);
    (s', AsReply(AnswerOf(host(s.turns), AddressSpace.ReadValidity(H, AddressSpace.RunHints(H, s'.hints), c))))
  }

  /** A turn for the hint, then the elements. */
  function OraclePayload<Key>(H: AddressSpace.Hashes<Key>, host: nat -> Turn, s: Session, c: AltDACommitment)
    : (Session, Reply<seq<byte>>)
  {
    var s0 := Served(host, s);
    if host(s.turns).Lose? then (s0, AsReply(AddressSpace.PreimageError(host(s.turns).error)))
    else
      var (s', payload) := FetchEach(H, host, s0, c, GetNumFieldElement(c));
      (s', AsReply(payload))
  }

  /** Reads from the store that the host has filled so far. */
  function OracleProvider<Key>(H: AddressSpace.Hashes<Key>, host: nat -> Turn): Provider<Session> {
    Provider((s, c) => OracleValidity(H, host, s, c), (s, c) => OraclePayload(H, host, s, c))
  }

  lemma OracleSizesPayloads<Key(!new)>(H: AddressSpace.Hashes<Key>, host: nat -> Turn)
    ensures SizesPayloads(OracleProvider(H, host))
  {
    hide FetchEach, GetNumFieldElement, AddressSpace.RunHints, AddressSpace.ReadValidity;
  }

  /** No 32 bytes are stored for element `i`. */
  ghost predicate Missing<Key>(H: AddressSpace.Hashes<Key>, hints: seq<AddressSpace.Hint>, c: AltDACommitment, i: nat) {
    var m, k := AddressSpace.RunHints(H, hints), AddressSpace.SlotKey(H, AddressSpace.Element(c, i));
    k !in m || |m[k]| != 32
  }

  /** The classes of `get_validity`'s failures: a closed channel is critical, any other failure and a missing preimage
      temporary, a malformed one a panic. */
  lemma ValidityClasses<Key>(H: AddressSpace.Hashes<Key>, host: nat -> Turn, s: Session, c: AltDACommitment)
    ensures var (s', reply) := OracleProvider(H, host).getValidity(s, c);
            var m, k := AddressSpace.RunHints(H, s'.hints), AddressSpace.SlotKey(H, AddressSpace.Validity(c));
            && s'.turns == s.turns + 1
            && reply == match host(s.turns)
                        case Lose(IOError) => Err(Critical)
                        case Lose(OtherError) => Err(Temporary)
                        case Serve(_) =>
                          if k !in m then Err(Temporary)
                          else if m[k] == [0] then Got(false)
                          else if m[k] == [1] then Got(true)
                          else Abort
  {
    hide AddressSpace.RunHints, AddressSpace.SlotKey;
    var s' := Served(host, s);
    var m, k := AddressSpace.RunHints(H, s'.hints), AddressSpace.SlotKey(H, AddressSpace.Validity(c));
    if k in m && |m[k]| == 1 {
      assert m[k] == [m[k][0]];
    }
  }

  lemma {:induction false} FetchClasses<Key>(
      H: AddressSpace.Hashes<Key>, host: nat -> Turn, s: Session, c: AltDACommitment, n: nat)
    ensures var (s', r) := FetchEach(H, host, s, c, n);
            && s.turns <= s'.turns <= s.turns + n
            && (r.Answer? ==> s'.turns == s.turns + n && forall j :: s.turns <= j < s'.turns ==> host(j).Serve?)
            && (r.Answer? && n > 0 ==> !Missing(H, s'.hints, c, n - 1))
            && (!r.Answer? ==>
                  && s.turns < s'.turns
                  && var last := host(s'.turns - 1);
                     && (r == AddressSpace.PreimageError(AddressSpace.IOError)
                         <==> last == Lose(AddressSpace.IOError))
                     && (r == AddressSpace.PreimageError(AddressSpace.OtherError)
                         <==> last == Lose(AddressSpace.OtherError)
                              || (last.Serve? && Missing(H, s'.hints, c, s'.turns - 1 - s.turns)))
                     && r.PreimageError?)
  {
    hide AddressSpace.RunHints, AddressSpace.SlotKey;
    if n > 0 {
      FetchClasses(H, host, s, c, n - 1);
      var (s1, front) := FetchEach(H, host, s, c, n - 1);
      if front.Answer? {
        assert s1.turns == s.turns + (n - 1);
      }
    }
  }

  /** The classes of `get_encoded_payload`'s failures. The host's turn at which it failed says which: a closed channel
      is critical, any other failure or a missing element temporary. Without failure there are as many turns as
      elements, and one for the hint. */
  lemma PayloadClasses<Key>(H: AddressSpace.Hashes<Key>, host: nat -> Turn, s: Session, c: AltDACommitment)
    ensures var (s', reply) := OracleProvider(H, host).getEncodedPayload(s, c);
            && s.turns < s'.turns <= s.turns + 1 + GetNumFieldElement(c)
            && var last := host(s'.turns - 1);
               && (reply == Err(Critical) <==> last == Lose(AddressSpace.IOError))
               && (reply == Err(Temporary) <==>
                     last == Lose(AddressSpace.OtherError)
                     || (last.Serve? && s.turns + 1 < s'.turns && Missing(H, s'.hints, c, s'.turns - 2 - s.turns)))
               && (reply.Got? ==> s'.turns == s.turns + 1 + GetNumFieldElement(c)
                                  && forall j :: s.turns <= j < s'.turns ==> host(j).Serve?)
               && (reply.Got? || reply == Err(Critical) || reply == Err(Temporary))
  {
    hide FetchEach, Missing, GetNumFieldElement, AddressSpace.RunHints;
    FetchClasses(H, host, Served(host, s), c, GetNumFieldElement(c));
  }

  /** The channel to the host is never closed. */
  ghost predicate KeepsChannel(host: nat -> Turn) {
    forall n :: host(n) != Lose(AddressSpace.IOError)
  }

  /** Only certificates of a known offchain derivation version are ever answered valid. */
  ghost predicate KnownVersions<Key>(H: AddressSpace.Hashes<Key>, host: nat -> Turn, cs: set<AltDACommitment>) {
    forall s, c :: c in cs && OracleProvider(H, host).getValidity(s, c).1 == Got(true) ==>
      c.versionedCert.V4? ==> c.versionedCert.offchainDerivationVersion == 0
  }

  lemma OracleNotCritical<Key(!new)>(
      H: AddressSpace.Hashes<Key>, host: nat -> Turn, cs: set<AltDACommitment>, s: Session, c: AltDACommitment, bn: nat)
    requires KeepsChannel(host) && KnownVersions(H, host, cs) && c in cs
    ensures SourceNext(OracleProvider(H, host), s, c, bn).1 != Err(Critical)
  {
    hide OracleValidity, OraclePayload, GetRbn, IsRecent, Missing, GetNumFieldElement, AddressSpace.RunHints;
    hide AddressSpace.SlotKey;
    ValidityClasses(H, host, s, c);
    PayloadClasses(H, host, OracleProvider(H, host).getValidity(s, c).0, c);
  }

  /** If the host serves nothing between the elements, they are read from one store. */
  lemma {:induction false} FetchFromOneStore<Key>(
      H: AddressSpace.Hashes<Key>, host: nat -> Turn, s: Session, c: AltDACommitment, n: nat)
    requires forall k :: s.turns <= k < s.turns + n ==> host(k) == Serve([])
    ensures var (s', r) := FetchEach(H, host, s, c, n);
            && r == AddressSpace.ReadElements(H, AddressSpace.RunHints(H, s.hints), c, n)
            && s'.hints == s.hints && (r.Answer? ==> s'.turns == s.turns + n)
  {
    hide AddressSpace.RunHints, AddressSpace.SlotKey;
    if n > 0 {
      FetchFromOneStore(H, host, s, c, n - 1);
      var (s1, front) := FetchEach(H, host, s, c, n - 1);
      if front.Answer? {
        assert host(s1.turns) == Serve([]) && s1.hints + [] == s1.hints;
      }
    }
  }

  /** A hint about a commitment of the block, answered truthfully or not at all. */
  ghost predicate TrueHint(h: AddressSpace.Hint, truth: Truth, cs: set<AltDACommitment>) {
    match TryFrom(h.bytes)
    case Failure(_) => true
    case Success(c) =>
      && c in cs
      && (h.response.Some? ==>
            var stage := h.response.value;
            && stage.isValidCert == truth.validity(c)
            && (stage.isValidCert && stage.passRecencyCheck
                && AddressSpace.PayloadOutcome(stage.encodedPayload) == AddressSpace.Done ==>
                  AddressSpace.Fit(stage.encodedPayload, GetNumFieldElement(c)) == truth.payload(c)))
  }

  ghost predicate TrueHints(hints: seq<AddressSpace.Hint>, truth: Truth, cs: set<AltDACommitment>) {
    forall i :: 0 <= i < |hints| ==> TrueHint(hints[i], truth, cs)
  }

  ghost predicate TrueHost(host: nat -> Turn, truth: Truth, cs: set<AltDACommitment>) {
    forall n :: host(n).Serve? ==> TrueHints(host(n).hints, truth, cs)
  }

  lemma {:induction false} TrueRecord(
      hints: seq<AddressSpace.Hint>, truth: Truth, cs: set<AltDACommitment>, c: AltDACommitment)
    requires TrueHints(hints, truth, cs)
    ensures var r := AddressSpace.LastRecord(hints, c);
            r.Some? ==> r.value.valid == truth.validity(c)
                        && (r.value.payload.Some? ==> r.value.payload.value == truth.payload(c))
  {
    hide TryFrom, GetNumFieldElement, AddressSpace.PayloadOutcome, AddressSpace.Fit;
    if hints != [] {
      assert TrueHint(hints[|hints| - 1], truth, cs);
      TrueRecord(hints[..|hints| - 1], truth, cs, c);
    }
  }

  lemma HintsWithin(hints: seq<AddressSpace.Hint>, truth: Truth, cs: set<AltDACommitment>)
    requires TrueHints(hints, truth, cs)
    ensures forall i :: 0 <= i < |hints| && TryFrom(hints[i].bytes).Success? ==> TryFrom(hints[i].bytes).value in cs
  {
    hide TryFrom;
    forall i | 0 <= i < |hints| && TryFrom(hints[i].bytes).Success?
      ensures TryFrom(hints[i].bytes).value in cs
    {
      assert TrueHint(hints[i], truth, cs);
    }
  }

  /** An element that can be read is the element of the true payload. */
  lemma ElementTrue<Key>(
      H: AddressSpace.Hashes<Key>, hints: seq<AddressSpace.Hint>, truth: Truth, cs: set<AltDACommitment>,
      c: AltDACommitment, i: nat)
    requires AddressSpace.DistinctDigests(H, cs) && AddressSpace.DistinctKeys(H, cs) && c in cs
    requires TrueHints(hints, truth, cs) && i < GetNumFieldElement(c)
    ensures var v := AddressSpace.ReadElement(H, AddressSpace.RunHints(H, hints), c, i);
            v.Answer? ==> |truth.payload(c)| == 32 * GetNumFieldElement(c)
                          && v.value == truth.payload(c)[32 * i..32 * (i + 1)]
  {
    hide TryFrom, AddressSpace.DistinctDigests, AddressSpace.DistinctKeys, AddressSpace.PayloadOutcome;
    hide AddressSpace.RunHints, AddressSpace.SlotKey, AddressSpace.Fit, AddressSpace.ElementBytes, GetNumFieldElement;
    var m, k := AddressSpace.RunHints(H, hints), AddressSpace.SlotKey(H, AddressSpace.Element(c, i));
    if AddressSpace.ReadElement(H, m, c, i).Answer? {
      HintsWithin(hints, truth, cs);
      AddressSpace.ShortEnough(c);
      AddressSpace.Provenance(H, cs, hints, c, i);
      var h :| h in hints && AddressSpace.StoredFrom(h, c, i, m[k]);
      var j :| 0 <= j < |hints| && hints[j] == h;
      assert TrueHint(hints[j], truth, cs);
      AddressSpace.PayloadShape(h.response.value.encodedPayload);
      AddressSpace.FitElement(h.response.value.encodedPayload, GetNumFieldElement(c), i);
    }
  }

  lemma ServedTrue(host: nat -> Turn, s: Session, truth: Truth, cs: set<AltDACommitment>)
    requires TrueHost(host, truth, cs) && TrueHints(s.hints, truth, cs)
    ensures TrueHints(Served(host, s).hints, truth, cs)
  {
    hide TrueHint;
  }

  /** What is fetched, whatever the host serves in between, is the beginning of the true payload. */
  lemma {:induction false} FetchTrue<Key>(
      H: AddressSpace.Hashes<Key>, host: nat -> Turn, truth: Truth, cs: set<AltDACommitment>,
      s: Session, c: AltDACommitment, n: nat)
    requires AddressSpace.DistinctDigests(H, cs) && AddressSpace.DistinctKeys(H, cs) && c in cs
    requires TrueHost(host, truth, cs) && TrueHints(s.hints, truth, cs) && n <= GetNumFieldElement(c)
    ensures var (s', r) := FetchEach(H, host, s, c, n);
            && TrueHints(s'.hints, truth, cs) && r != AddressSpace.ClientPanic
            && (r.Answer? && n > 0 ==> |truth.payload(c)| == 32 * GetNumFieldElement(c)
                                       && r.value == truth.payload(c)[..32 * n])
  {
    hide AddressSpace.DistinctDigests, AddressSpace.DistinctKeys, AddressSpace.RunHints, GetNumFieldElement;
    hide TrueHints, TrueHost, AddressSpace.ReadElement;
    if n > 0 {
      FetchTrue(H, host, truth, cs, s, c, n - 1);
      var (s1, front) := FetchEach(H, host, s, c, n - 1);
      if front.Answer? {
        var s2 := Served(host, s1);
        ServedTrue(host, s1, truth, cs);
        ElementTrue(H, s2.hints, truth, cs, c, n - 1);
        if n > 1 && |truth.payload(c)| == 32 * GetNumFieldElement(c) {
          var p := truth.payload(c);
          assert p[..32 * (n - 1)] + p[32 * (n - 1)..32 * n] == p[..32 * n];
        }
      }
    }
  }

  /** The host may serve hints about any commitments of the block, in any order and number, and fail at any
      time: what the client reads about a commitment of the block is true. */
  lemma OracleFaithful<Key(!new)>(
      H: AddressSpace.Hashes<Key>, host: nat -> Turn, truth: Truth, cs: set<AltDACommitment>)
    requires AddressSpace.DistinctDigests(H, cs) && AddressSpace.DistinctKeys(H, cs)
    requires TrueHost(host, truth, cs)
    requires forall c :: c in cs && GetNumFieldElement(c) == 0 ==> truth.payload(c) == []
    ensures Faithful(Restricted(OracleProvider(H, host), cs), truth, (s: Session) => TrueHints(s.hints, truth, cs))
  {
    hide TrueHint, TryFrom, GetNumFieldElement, AddressSpace.RunHints, FetchEach, AddressSpace.LastRecord;
    hide AddressSpace.ReadValidity, AddressSpace.DistinctDigests, AddressSpace.DistinctKeys;
    var inv := (s: Session) => TrueHints(s.hints, truth, cs);
    var P := Restricted(OracleProvider(H, host), cs);
    forall s: Session, c: AltDACommitment | inv(s)
      ensures FaithfulAt(P, truth, inv, s, c)
    {
      if c in cs {
        var s' := Served(host, s);
        ServedTrue(host, s, truth, cs);
        HintsWithin(s'.hints, truth, cs);
        AddressSpace.HostClientAgree(H, cs, s'.hints, c);
        TrueRecord(s'.hints, truth, cs, c);
        FetchTrue(H, host, truth, cs, s', c, GetNumFieldElement(c));
        FetchNothing(H, host, s', c);
        assert truth.payload(c)[..|truth.payload(c)|] == truth.payload(c);
      }
    }
  }

  lemma FetchNothing<Key>(H: AddressSpace.Hashes<Key>, host: nat -> Turn, s: Session, c: AltDACommitment)
    ensures FetchEach(H, host, s, c, 0) == (s, AddressSpace.Answer([]))
  {
  }

  /** Host, client and derivation together: a run over a truthful host that reaches end of data, however often
      reads failed, returned the reference derivation of the block. */
  lemma HostedRunIsFilterMap<Key(!new)>(
      H: AddressSpace.Hashes<Key>, host: nat -> Turn, truth: Truth, cs: set<AltDACommitment>,
      events: seq<EthEvent>, bn: nat, calls: nat)
    requires AddressSpace.DistinctDigests(H, cs) && AddressSpace.DistinctKeys(H, cs)
    requires TrueHost(host, truth, cs)
    requires forall c :: c in cs && GetNumFieldElement(c) == 0 ==> truth.payload(c) == []
    requires Within(State(events, None, Session([], 0)), cs)
    requires ReachesEof(Run(OracleProvider(H, host), State(events, None, Session([], 0)), bn, calls).1)
    ensures Outputs(Run(OracleProvider(H, host), State(events, None, Session([], 0)), bn, calls).1)
            == FilterMap(truth, events, bn)
  {
    hide Run, Within, Faithful, FilterMap, TrueHost, OracleProvider, Restricted, GetNumFieldElement, ReachesEof;
    hide AddressSpace.DistinctDigests, AddressSpace.DistinctKeys;
    OracleFaithful(H, host, truth, cs);
    RestrictedRun(OracleProvider(H, host), cs, State(events, None, Session([], 0)), bn, calls);
    RunIsFilterMap(Restricted(OracleProvider(H, host), cs), truth, (s: Session) => TrueHints(s.hints, truth, cs),
                   events, Session([], 0), bn, calls);
  }

  // The witness

  datatype EigenDAPreimage = EigenDAPreimage(validities: seq<ValidityEntry>, encodedPayloads: seq<PayloadEntry>)

  type KzgProof = BatchVerifier.KzgProof

  datatype EigenDAWitness = EigenDAWitness(
    validities: seq<ValidityEntry>,
    encodedPayloads: seq<(AltDACommitment, seq<byte>, KzgProof)>,
    canoeProofBytes: Option<seq<byte>>)

  datatype WitnessError = MissingCanoeProof | MismatchKzgProof

  /** Zips, so surplus payloads or proofs are dropped. */
  function FromPreimageUnchecked(preimage: EigenDAPreimage, proofs: seq<KzgProof>, canoe: Option<seq<byte>>)
    : EigenDAWitness
  {
    var n := if |proofs| <= |preimage.encodedPayloads| then |proofs| else |preimage.encodedPayloads|;
    EigenDAWitness(
      preimage.validities,
      seq(n, i requires 0 <= i < n => (preimage.encodedPayloads[i].0, preimage.encodedPayloads[i].1, proofs[i])),
      canoe)
  }

  function FromPreimage(preimage: EigenDAPreimage, proofs: seq<KzgProof>, canoe: Option<seq<byte>>)
    : Result<EigenDAWitness, WitnessError>
  {
    if preimage.validities != [] && canoe == None then Failure(MissingCanoeProof)
    else if |proofs| != |preimage.encodedPayloads| then Failure(MismatchKzgProof)
    else Success(FromPreimageUnchecked(preimage, proofs, canoe))
  }

  function IntoPreimage(w: EigenDAWitness): (EigenDAPreimage, seq<KzgProof>, Option<seq<byte>>) {
    var n := |w.encodedPayloads|;
    (EigenDAPreimage(
       w.validities,
       seq(n, i requires 0 <= i < n => (w.encodedPayloads[i].0, w.encodedPayloads[i].1))),
     seq(n, i requires 0 <= i < n => w.encodedPayloads[i].2),
     w.canoeProofBytes)
  }

  /** Taking a witness apart inverts putting it together, both ways. */
  lemma WitnessRoundTrip(preimage: EigenDAPreimage, proofs: seq<KzgProof>, canoe: Option<seq<byte>>, w: EigenDAWitness)
    ensures FromPreimage(preimage, proofs, canoe) == Success(w)
            <==> IntoPreimage(w) == (preimage, proofs, canoe) && (w.validities != [] ==> w.canoeProofBytes.Some?)
  {
    var n := |w.encodedPayloads|;
    if FromPreimage(preimage, proofs, canoe) == Success(w) {
      assert IntoPreimage(w).0.encodedPayloads == preimage.encodedPayloads;
      assert IntoPreimage(w).1 == proofs;
    }
    if IntoPreimage(w) == (preimage, proofs, canoe) {
      forall i | 0 <= i < n
        ensures preimage.encodedPayloads[i] == (w.encodedPayloads[i].0, w.encodedPayloads[i].1)
        ensures proofs[i] == w.encodedPayloads[i].2
      {
        assert IntoPreimage(w).0.encodedPayloads[i] == (w.encodedPayloads[i].0, w.encodedPayloads[i].1);
        assert IntoPreimage(w).1[i] == w.encodedPayloads[i].2;
      }
      assert FromPreimageUnchecked(preimage, proofs, canoe).encodedPayloads == w.encodedPayloads;
    }
  }

  // Replaying

  /** The queues a preloaded provider answers from, oldest first. */
  datatype Queues = Queues(validities: seq<ValidityEntry>, payloads: seq<PayloadEntry>)

  function PopValidity(q: Queues, c: AltDACommitment): (Queues, Reply<bool>) {
    if q.validities == [] then (q, Abort)
    else
      var (stored, validity) := q.validities[0];
      (q.(validities := q.validities[1..]), if stored == c then Got(validity) else Abort)
  }

  function PopPayload(q: Queues, c: AltDACommitment): (Queues, Reply<seq<byte>>) {
    if q.payloads == [] then (q, Abort)
    else
      var (stored, payload) := q.payloads[0];
      (q.(payloads := q.payloads[1..]), if stored == c then Got(payload) else Abort)
  }

  function Preloaded(): Provider<Queues> {
    Provider((q, c) => PopValidity(q, c), (q, c) => PopPayload(q, c))
  }

  type Address = a: seq<byte> | |a| == 20 witness Zeros(20)

  /** The L1 block against which certificates are checked. */
  datatype L1Head = L1Head(blockHash: Bytes32, blockNumber: nat, blockTimestamp: nat, chainId: nat)

  datatype CertValidity = CertValidity(claimedValidity: bool, l1Head: L1Head, verifierAddress: Address)

  /** The address of the certificate verifier on a chain, and the two proof checks, whatever is behind them. */
  datatype Verifiers = Verifiers(
    fetchAddress: (nat, VersionedCert) -> Option<Address>,
    canoe: (seq<(AltDACommitment, CertValidity)>, Option<seq<byte>>) -> bool,
    batch: (seq<seq<byte>>, seq<G1Point>, seq<KzgProof>) -> bool)

  predicate AddressesKnown(V: Verifiers, head: L1Head, vs: seq<ValidityEntry>) {
    forall i :: 0 <= i < |vs| ==> V.fetchAddress(head.chainId, vs[i].0.versionedCert).Some?
  }

  /** What the canoe proof has to show. */
  function CertValidities(V: Verifiers, head: L1Head, vs: seq<ValidityEntry>): (s: seq<(AltDACommitment, CertValidity)>)
    requires AddressesKnown(V, head, vs)
    ensures |s| == |vs|
  {
    seq(|vs|, i requires 0 <= i < |vs| =>
      (vs[i].0, CertValidity(vs[i].1, head, V.fetchAddress(head.chainId, vs[i].0.versionedCert).value)))
  }

  function Blobs(w: EigenDAWitness): seq<seq<byte>> {
    seq(|w.encodedPayloads|, i requires 0 <= i < |w.encodedPayloads| => w.encodedPayloads[i].1)
  }

  function CommitmentPoints(w: EigenDAWitness): seq<G1Point> {
    seq(|w.encodedPayloads|, i requires 0 <= i < |w.encodedPayloads| => GetKzgCommitment(w.encodedPayloads[i].0))
  }

  function WitnessEntries(w: EigenDAWitness): seq<PayloadEntry> {
    IntoPreimage(w).0.encodedPayloads
  }

  predicate CanoePasses(V: Verifiers, head: L1Head, w: EigenDAWitness) {
    AddressesKnown(V, head, w.validities)
    && V.canoe(CertValidities(V, head, w.validities), w.canoeProofBytes)
  }

  /** All of `from_witness`'s assertions. */
  ghost predicate Accepts(V: Verifiers, head: L1Head, w: EigenDAWitness) {
    && |w.validities| >= |w.encodedPayloads|
    && RightSizes(WitnessEntries(w))
    && (w.validities != [] ==> CanoePasses(V, head, w))
    && V.batch(Blobs(w), CommitmentPoints(w), IntoPreimage(w).1)
  }

  class PreloadedEigenDAPreimageProvider {
    // popped from the end, so the oldest entries are last
    var validityEntries: seq<ValidityEntry>
    var encodedPayloadEntries: seq<PayloadEntry>

    constructor (validityEntries: seq<ValidityEntry>, encodedPayloadEntries: seq<PayloadEntry>)
      ensures this.validityEntries == validityEntries && this.encodedPayloadEntries == encodedPayloadEntries
    {
      this.validityEntries, this.encodedPayloadEntries := validityEntries, encodedPayloadEntries;
    }

    ghost function Abstract(): Queues
      reads this
    {
      Queues(Reverse(validityEntries), Reverse(encodedPayloadEntries))
    }

    /** Null when an assertion fails or an address is unknown. */
    static method FromWitness(w: EigenDAWitness, head: L1Head, V: Verifiers)
      returns (p: PreloadedEigenDAPreimageProvider?)
      ensures p != null <==> Accepts(V, head, w)
      ensures p != null ==> fresh(p) && p.Abstract() == Queues(w.validities, WitnessEntries(w))
    {
      if |w.validities| < |w.encodedPayloads| {
        return null;
      }
      for i := 0 to |w.encodedPayloads|
        invariant forall j :: 0 <= j < i ==>
          Codec.NumFieldElement(w.encodedPayloads[j].1) == GetNumFieldElement(w.encodedPayloads[j].0)
      {
        if Codec.NumFieldElement(w.encodedPayloads[i].1) != GetNumFieldElement(w.encodedPayloads[i].0) {
          assert WitnessEntries(w)[i] == (w.encodedPayloads[i].0, w.encodedPayloads[i].1);
          return null;
        }
      }
      if w.validities != [] {
        var certValidities: seq<(AltDACommitment, CertValidity)> := [];
        for i := 0 to |w.validities|
          invariant AddressesKnown(V, head, w.validities[..i])
          invariant certValidities == CertValidities(V, head, w.validities[..i])
        {
          var (commitment, claimedValidity) := w.validities[i];
          var verifierAddress := V.fetchAddress(head.chainId, commitment.versionedCert);
          if verifierAddress == None {
            return null;
          }
          certValidities := certValidities + [(commitment, CertValidity(claimedValidity, head, verifierAddress.value))];
        }
        assert w.validities[..|w.validities|] == w.validities;
        if !V.canoe(certValidities, w.canoeProofBytes) {
          return null;
        }
      }
      var (preimage, proofs, _) := IntoPreimage(w);
      if !V.batch(Blobs(w), CommitmentPoints(w), proofs) {
        return null;
      }
      p := new PreloadedEigenDAPreimageProvider(Reverse(w.validities), Reverse(preimage.encodedPayloads));
      assert Reverse(Reverse(w.validities)) == w.validities;
      assert Reverse(Reverse(preimage.encodedPayloads)) == preimage.encodedPayloads;
    }

    method GetValidity(c: AltDACommitment) returns (reply: Reply<bool>)
      modifies this
      ensures (Abstract(), reply) == Preloaded().getValidity(old(Abstract()), c)
    {
      if validityEntries == [] {
        return Abort;
      }
      var n := |validityEntries| - 1;
      var (stored, validity) := validityEntries[n];
      assert Reverse(validityEntries[..n]) == Reverse(validityEntries)[1..];
      validityEntries := validityEntries[..n];
      reply := if stored == c then Got(validity) else Abort;
    }

    method GetEncodedPayload(c: AltDACommitment) returns (reply: Reply<seq<byte>>)
      modifies this
      ensures (Abstract(), reply) == Preloaded().getEncodedPayload(old(Abstract()), c)
    {
      if encodedPayloadEntries == [] {
        return Abort;
      }
      var n := |encodedPayloadEntries| - 1;
      var (stored, payload) := encodedPayloadEntries[n];
      assert Reverse(encodedPayloadEntries[..n]) == Reverse(encodedPayloadEntries)[1..];
      encodedPayloadEntries := encodedPayloadEntries[..n];
      reply := if stored == c then Got(payload) else Abort;
    }
  }

  // A witness that passes its checks can only replay the truth

  /** What the canoe verifier has to promise of a proof: if it passes for a list of claims against the head, each with
      the address of its certificate's verifier, then every claim is true. */
  ghost predicate CanoeSound(V: Verifiers, head: L1Head, proof: Option<seq<byte>>, truth: Truth) {
    forall claims: seq<(AltDACommitment, CertValidity)> ::
      V.canoe(claims, proof)
      && (forall i :: 0 <= i < |claims| ==>
            && claims[i].1.l1Head == head
            && V.fetchAddress(head.chainId, claims[i].0.versionedCert) == Some(claims[i].1.verifierAddress))
      ==> forall i :: 0 <= i < |claims| ==> claims[i].1.claimedValidity == truth.validity(claims[i].0)
  }

  /** So a witness whose canoe check passes has true validities. */
  lemma CanoeBinds(V: Verifiers, head: L1Head, w: EigenDAWitness, truth: Truth)
    requires CanoeSound(V, head, w.canoeProofBytes, truth) && CanoePasses(V, head, w)
    ensures TrueValidities(w.validities, truth)
  {
    var claims := CertValidities(V, head, w.validities);
    forall i | 0 <= i < |w.validities|
      ensures w.validities[i].1 == truth.validity(w.validities[i].0)
    {
      assert claims[i].1.claimedValidity == truth.validity(claims[i].0);
    }
  }

  /** The batch check passes the witness only if its blobs are bound to their commitments: `bound` gives the one
      blob of each length. */
  ghost predicate BatchBinding(V: Verifiers, w: EigenDAWitness, bound: (G1Point, nat) -> seq<byte>) {
    V.batch(Blobs(w), CommitmentPoints(w), IntoPreimage(w).1) ==> AllBound(Blobs(w), CommitmentPoints(w), bound)
  }

  ghost predicate AllBound(blobs: seq<seq<byte>>, points: seq<G1Point>, bound: (G1Point, nat) -> seq<byte>) {
    |blobs| == |points|
    && forall i :: 0 <= i < |blobs| ==> blobs[i] == bound(points[i], Codec.NumFieldElement(blobs[i]))
  }

  /** The true payload of a commitment is the blob bound to its point, of the length in its certificate. */
  ghost predicate TruthIsBound(truth: Truth, bound: (G1Point, nat) -> seq<byte>) {
    forall c: AltDACommitment :: truth.payload(c) == bound(GetKzgCommitment(c), GetNumFieldElement(c))
  }

  ghost predicate TrueValidities(vs: seq<ValidityEntry>, truth: Truth) {
    forall i :: 0 <= i < |vs| ==> vs[i].1 == truth.validity(vs[i].0)
  }

  predicate TruePayload(e: PayloadEntry, truth: Truth) {
    e.1 == truth.payload(e.0)
  }

  ghost predicate TrueQueues(q: Queues, truth: Truth) {
    TrueValidities(q.validities, truth)
    && forall i :: 0 <= i < |q.payloads| ==> TruePayload(q.payloads[i], truth)
  }

  lemma PreloadedFaithful(truth: Truth)
    ensures Faithful(Preloaded(), truth, (q: Queues) => TrueQueues(q, truth))
  {
    var inv := (q: Queues) => TrueQueues(q, truth);
    forall q: Queues, c: AltDACommitment | inv(q)
      ensures FaithfulAt(Preloaded(), truth, inv, q, c)
    {
    }
  }

  lemma AcceptedIsTrue(
      V: Verifiers, head: L1Head, w: EigenDAWitness, truth: Truth, bound: (G1Point, nat) -> seq<byte>)
    requires CanoeSound(V, head, w.canoeProofBytes, truth) && BatchBinding(V, w, bound) && TruthIsBound(truth, bound)
    requires Accepts(V, head, w)
    ensures TrueQueues(Queues(w.validities, WitnessEntries(w)), truth)
  {
    hide GetKzgCommitment, GetNumFieldElement;
    var entries := WitnessEntries(w);
    if w.validities != [] {
      CanoeBinds(V, head, w, truth);
    }
    assert AllBound(Blobs(w), CommitmentPoints(w), bound);
    forall i | 0 <= i < |entries|
      ensures TruePayload(entries[i], truth)
    {
      assert Blobs(w)[i] == entries[i].1 && CommitmentPoints(w)[i] == GetKzgCommitment(entries[i].0);
    }
  }

  /** Replay soundness, for every witness an adversary may supply: if the checks pass and the derivation over
      the witness reaches end of data, it returned the reference derivation of the L1 items. */
  lemma ReplaySound(
      V: Verifiers, head: L1Head, w: EigenDAWitness, truth: Truth, bound: (G1Point, nat) -> seq<byte>,
      events: seq<EthEvent>, bn: nat, calls: nat)
    requires CanoeSound(V, head, w.canoeProofBytes, truth) && BatchBinding(V, w, bound) && TruthIsBound(truth, bound)
    requires Accepts(V, head, w)
    requires var q := Queues(w.validities, WitnessEntries(w));
             ReachesEof(Run(Preloaded(), State(events, None, q), bn, calls).1)
    ensures var q := Queues(w.validities, WitnessEntries(w));
            Outputs(Run(Preloaded(), State(events, None, q), bn, calls).1) == FilterMap(truth, events, bn)
  {
    hide Run, Accepts, CanoeSound, BatchBinding, TruthIsBound, TrueQueues, Faithful, FilterMap;
    AcceptedIsTrue(V, head, w, truth, bound);
    PreloadedFaithful(truth);
    RunIsFilterMap(Preloaded(), truth, (q: Queues) => TrueQueues(q, truth), events,
                   Queues(w.validities, WitnessEntries(w)), bn, calls);
  }

  // The client gets its answer

  /** If the host serves the client's hint first, with the proxy's answer about a valid and recent certificate, the
      client is told that the certificate is valid, and then, nothing else being served, fetches the payload cut or
      padded to the certificate's length. */
  lemma OracleAnswers<Key>(
      H: AddressSpace.Hashes<Key>, host: nat -> Turn, cs: set<AltDACommitment>, s: Session,
      c: AltDACommitment, stage: AddressSpace.DerivationStage)
    requires AddressSpace.DistinctDigests(H, cs) && AddressSpace.DistinctKeys(H, cs) && c in cs
    requires c.commitmentType == 1 && c.daLayerByte == 0
    requires stage.isValidCert && stage.passRecencyCheck
             && AddressSpace.PayloadOutcome(stage.encodedPayload) == AddressSpace.Done
    requires forall h :: h in s.hints && TryFrom(h.bytes).Success? ==> TryFrom(h.bytes).value in cs
    requires host(s.turns) == Serve([AddressSpace.Hint(ToRlpBytes(c), Some(stage))])
    requires forall k :: s.turns < k <= s.turns + 1 + GetNumFieldElement(c) ==> host(k) == Serve([])
    ensures var P := OracleProvider(H, host);
            var (s', validity) := P.getValidity(s, c);
            && validity == Got(true)
            && P.getEncodedPayload(s', c).1
               == Got(AddressSpace.Fit(stage.encodedPayload, GetNumFieldElement(c)))
  {
    hide AddressSpace.DistinctDigests, AddressSpace.DistinctKeys, TryFrom, ToRlpBytes, AddressSpace.PayloadOutcome;
    hide AddressSpace.RunHints, FetchEach, AddressSpace.Fit, GetNumFieldElement, AddressSpace.ReadValidity;
    hide AddressSpace.ReadElements;
    var mine := AddressSpace.Hint(ToRlpBytes(c), Some(stage));
    var s1 := Served(host, s);
    var s2 := Served(host, s1);
    assert s1.hints == s.hints + [mine] + [] && s2.hints == s1.hints + [] == s1.hints;
    assert s.hints + [] == s.hints;
    AddressSpace.ClientReadsItsPayload(H, cs, s.hints, [], c, stage);
    FetchFromOneStore(H, host, s2, c, GetNumFieldElement(c));
  }
}

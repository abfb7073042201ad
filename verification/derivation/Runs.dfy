/** Whole runs of the derivation: what is held between calls, and what comes out. */
module Runs {
  import opened Prelude
  import opened Bytes
  import opened Commitment
  import opened Derivation

  // One call

  /** The rounds of one call: its own and those of its recursions. */
  function Rounds<S>(P: Provider<S>, st: State<S>, bn: nat): nat
    decreases st.Measure()
  {
    match Round(P, st, bn)
    case (_, Stop(_)) => 1
    case (st', Continue) => 1 + Rounds(P, st', bn)
  }

  /** One call does at most one round for each item left and one for a held commitment, and the last. */
  lemma {:induction false} RoundsBounded<S>(P: Provider<S>, st: State<S>, bn: nat)
    ensures Rounds(P, st, bn) <= st.Measure() + 1
    decreases st.Measure()
  {
    hide Round;
    var (st', o) := Round(P, st, bn);
    if o.Continue? {
      RoundsBounded(P, st', bn);
    }
  }

  // What every call keeps, whatever the provider does

  /** After a call a commitment is held exactly when the provider failed on it (or aborted). */
  lemma {:induction false} PendingInvariant<S>(P: Provider<S>, st: State<S>, bn: nat)
    ensures var (st', r) := DeriveNext(P, st, bn);
            st'.pending.Some? <==> r.ProviderTemporary? || r.ProviderCritical? || r.Aborted?
    decreases st.Measure()
  {
    hide ParseCalldata, SourceNext, Codec.Decode;
    var (st1, o) := Round(P, st, bn);
    if o.Continue? {
      PendingInvariant(P, st1, bn);
    }
  }

  /** `later` is what remains of `events` after some were taken from the front. */
  ghost predicate Remains(later: seq<EthEvent>, events: seq<EthEvent>) {
    |later| <= |events| && later == events[|events| - |later|..]
  }

  lemma RemainsTransitive(a: seq<EthEvent>, b: seq<EthEvent>, c: seq<EthEvent>)
    requires Remains(a, b) && Remains(b, c)
    ensures Remains(a, c)
  {
  }

  lemma RoundReadsForward<S>(P: Provider<S>, st: State<S>, bn: nat)
    ensures var (st', o) := Round(P, st, bn);
            && Remains(st'.events, st.events) && |st'.events| <= |st.events|
            && (st'.pending.Some? && |st'.events| == |st.events| ==> st'.pending == st.pending)
            && (o == Stop(Eof) ==> st'.events == [] && st'.pending == None)
            && (o.Continue? ==> st'.pending == None && st'.Measure() < st.Measure())
  {
    hide ParseCalldata, SourceNext, Codec.Decode;
  }

  /** The Ethereum source is only ever read forward; a commitment still held after a call that took
      no item is the one that was held before; and at the end both sources are empty. */
  lemma {:induction false} HeldUntilDone<S>(P: Provider<S>, st: State<S>, bn: nat)
    ensures var (st', r) := DeriveNext(P, st, bn);
            && Remains(st'.events, st.events) && |st'.events| <= |st.events|
            && (st'.pending.Some? && |st'.events| == |st.events| ==> st'.pending == st.pending)
            && (r.Eof? ==> st'.events == [] && st'.pending == None)
    decreases st.Measure()
  {
    RoundReadsForward(P, st, bn);
    hide Round, Remains;
    var (st1, o) := Round(P, st, bn);
    if o.Continue? {
      HeldUntilDone(P, st1, bn);
      RemainsTransitive(DeriveNext(P, st1, bn).0.events, st1.events, st.events);
    }
  }

  /** A failing provider changes nothing but its own state in one call. */
  lemma FailureKeepsState<S>(P: Provider<S>, st: State<S>, bn: nat)
    requires st.pending.Some?
    requires Fails(SourceNext(P, st.provider, st.pending.value, bn).1)
    ensures var (s', reply) := SourceNext(P, st.provider, st.pending.value, bn);
            DeriveNext(P, st, bn)
            == (st.(provider := s'), if reply == Err(Temporary) then ProviderTemporary else ProviderCritical)
  {
  }

  predicate Fails<T>(reply: Reply<T>) {
    reply == Err(Temporary) || reply == Err(Critical)
  }

  // Runs

  /** Up to `calls` calls, ending early at end of data or abort. */
  function Run<S>(P: Provider<S>, st: State<S>, bn: nat, calls: nat): (State<S>, seq<PipelineResult>)
    decreases calls
  {
    if calls == 0 then (st, [])
    else
      var (st1, r) := DeriveNext(P, st, bn);
      if r.Eof? || r.Aborted? then (st1, [r])
      else
        var (st2, rs) := Run(P, st1, bn, calls - 1);
        (st2, [r] + rs)
  }

  /** The provider fails on the commitment `n` times in a row. */
  ghost predicate KeepsFailing<S>(P: Provider<S>, s: S, c: AltDACommitment, bn: nat, n: nat) {
    n == 0
    || (var (s', reply) := SourceNext(P, s, c, bn);
        Fails(reply) && KeepsFailing(P, s', c, bn, n - 1))
  }

  /** However often the provider fails on the held commitment, no item is taken and the commitment stays:
      as many calls as there are failures report a failure each and change nothing but the provider. */
  lemma {:induction false} FailuresKeepEverything<S>(P: Provider<S>, st: State<S>, bn: nat, n: nat)
    requires st.pending.Some? && KeepsFailing(P, st.provider, st.pending.value, bn, n)
    ensures var (st', rs) := Run(P, st, bn, n);
            && st'.events == st.events && st'.pending == st.pending
            && |rs| == n && forall i :: 0 <= i < n ==> rs[i].ProviderTemporary? || rs[i].ProviderCritical?
    decreases n
  {
    hide SourceNext, DeriveNext;
    if n > 0 {
      FailureKeepsState(P, st, bn);
      FailuresKeepEverything(P, DeriveNext(P, st, bn).0, bn, n - 1);
    }
  }

  function OutputOf(r: PipelineResult): seq<seq<byte>> {
    if r.Item? then [r.bytes] else []
  }

  /** The successful results, in order. */
  function Outputs(rs: seq<PipelineResult>): seq<seq<byte>> {
    if rs == [] then [] else OutputOf(rs[0]) + Outputs(rs[1..])
  }

  predicate ReachesEof(rs: seq<PipelineResult>) {
    rs != [] && rs[|rs| - 1].Eof?
  }

  // The reference: what each L1 item is worth

  /** What is true of commitments: which are valid, and the payload each is bound to. */
  datatype Truth = Truth(validity: AltDACommitment -> bool, payload: AltDACommitment -> seq<byte>)

  /** The payload a commitment yields, if it is valid, recent and decodable. */
  function CommitmentOutput(truth: Truth, c: AltDACommitment, bn: nat): seq<seq<byte>> {
    match RecencyWindow(c.versionedCert)
    case Failure(_) => []
    case Success(window) =>
      if !truth.validity(c) || !IsRecent(bn, GetRbn(c), window) then []
      else
        match Codec.Decode(truth.payload(c))
        case Success(payload) => [payload]
        case Failure(_) => []
  }

  /** Data not meant for alternative DA passes unchanged; empty and unparsable items vanish. */
  function ItemOutput(truth: Truth, data: seq<byte>, bn: nat): seq<seq<byte>> {
    if data == [] then []
    else if data[0] != ALTDA_DERIVATION_VERSION then [data]
    else
      match ParseCalldata(data)
      case None => []
      case Some(c) => CommitmentOutput(truth, c, bn)
  }

  function EventOutput(truth: Truth, e: EthEvent, bn: nat): seq<seq<byte>> {
    match e
    case Data(data) => ItemOutput(truth, data, bn)
    case EthError(_) => []
  }

  function FilterMap(truth: Truth, events: seq<EthEvent>, bn: nat): seq<seq<byte>> {
    if events == [] then [] else EventOutput(truth, events[0], bn) + FilterMap(truth, events[1..], bn)
  }

  /** What is still to come out of a state. */
  function Expected<S>(truth: Truth, st: State<S>, bn: nat): seq<seq<byte>> {
    (if st.pending.Some? then CommitmentOutput(truth, st.pending.value, bn) else [])
    + FilterMap(truth, st.events, bn)
  }

  /** While `inv` holds the provider answers truthfully, fails, or aborts; it never discards by itself. */
  ghost predicate Faithful<S(!new)>(P: Provider<S>, truth: Truth, inv: S -> bool) {
    forall s, c :: inv(s) ==> FaithfulAt(P, truth, inv, s, c)
  }

  ghost predicate FaithfulAt<S>(P: Provider<S>, truth: Truth, inv: S -> bool, s: S, c: AltDACommitment) {
    && inv(P.getValidity(s, c).0)
    && Honest(P.getValidity(s, c).1, truth.validity(c))
    && (truth.validity(c) ==>
          inv(P.getEncodedPayload(s, c).0) && Honest(P.getEncodedPayload(s, c).1, truth.payload(c)))
  }

  ghost predicate Honest<T>(r: Reply<T>, value: T) {
    r == Got(value) || r == Err(Temporary) || r == Err(Critical) || r == Abort
  }

  /** A faithful provider makes the source yield the commitment's true payload, discard it for good reason,
      or fail. */
  lemma SourceFaithful<S(!new)>(P: Provider<S>, truth: Truth, inv: S -> bool, s: S, c: AltDACommitment, bn: nat)
    requires Faithful(P, truth, inv) && inv(s)
    ensures var (s', r) := SourceNext(P, s, c, bn);
            && inv(s')
            && (r.Got? ==> r.value == truth.payload(c) && truth.validity(c)
                           && RecencyWindow(c.versionedCert).Success?
                           && IsRecent(bn, GetRbn(c), RecencyWindow(c.versionedCert).value))
            && (r == Err(Discard) ==> CommitmentOutput(truth, c, bn) == [])
  {
    hide Codec.Decode, GetRbn;
    assert FaithfulAt(P, truth, inv, s, c);
    var s' := P.getValidity(s, c).0;
    assert FaithfulAt(P, truth, inv, s', c);
  }

  lemma FetchConserves<S(!new)>(
      P: Provider<S>, truth: Truth, inv: S -> bool, events: seq<EthEvent>, c: AltDACommitment, s: S, bn: nat)
    requires Faithful(P, truth, inv) && inv(s)
    ensures var (st', o) := Fetch(P, events, c, s, bn);
            && inv(st'.provider)
            && (if o.Stop? then OutputOf(o.result) else []) + Expected(truth, st', bn)
               == CommitmentOutput(truth, c, bn) + FilterMap(truth, events, bn)
  {
    hide Codec.Decode, GetRbn, SourceNext, FilterMap, Faithful, RecencyWindow, IsRecent;
    SourceFaithful(P, truth, inv, s, c, bn);
    var F, r := FilterMap(truth, events, bn), SourceNext(P, s, c, bn).1;
    assert [] + F == F;
    if r.Got? {
      assert CommitmentOutput(truth, c, bn)
          == match Codec.Decode(r.value) case Success(p) => [p] case Failure(_) => [];
    } else if r == Err(Discard) {
      assert CommitmentOutput(truth, c, bn) == [];
    }
    hide CommitmentOutput;
    assert [] + (CommitmentOutput(truth, c, bn) + F) == CommitmentOutput(truth, c, bn) + F;
  }

  /** One round moves output from what is expected to what is returned. */
  lemma RoundConserves<S(!new)>(P: Provider<S>, truth: Truth, inv: S -> bool, st: State<S>, bn: nat)
    requires Faithful(P, truth, inv) && inv(st.provider)
    ensures var (st', o) := Round(P, st, bn);
            && inv(st'.provider)
            && (if o.Stop? then OutputOf(o.result) else []) + Expected(truth, st', bn) == Expected(truth, st, bn)
  {
    hide ParseCalldata, CommitmentOutput, Fetch, Faithful;
    if st.pending.Some? {
      FetchConserves(P, truth, inv, st.events, st.pending.value, st.provider, bn);
    } else if st.events != [] && st.events[0].Data? && st.events[0].data != []
              && st.events[0].data[0] == ALTDA_DERIVATION_VERSION
              && ParseCalldata(st.events[0].data).Some? {
      FetchConserves(P, truth, inv, st.events[1..], ParseCalldata(st.events[0].data).value, st.provider, bn);
    }
  }

  lemma {:induction false} NextConserves<S(!new)>(P: Provider<S>, truth: Truth, inv: S -> bool, st: State<S>, bn: nat)
    requires Faithful(P, truth, inv) && inv(st.provider)
    ensures var (st', r) := DeriveNext(P, st, bn);
            && inv(st'.provider)
            && OutputOf(r) + Expected(truth, st', bn) == Expected(truth, st, bn)
    decreases st.Measure()
  {
    RoundConserves(P, truth, inv, st, bn);
    hide Round, Expected, Faithful;
    var (st1, o) := Round(P, st, bn);
    if o.Continue? {
      RoundMeasure(P, st, bn);
      NextConserves(P, truth, inv, st1, bn);
      assert [] + Expected(truth, st1, bn) == Expected(truth, st1, bn);
    }
  }

  lemma RoundMeasure<S>(P: Provider<S>, st: State<S>, bn: nat)
    requires Round(P, st, bn).1.Continue?
    ensures Round(P, st, bn).0.Measure() < st.Measure()
  {
  }

  /** At every point of every run, what came out followed by what is still expected is the filter-map of
      the L1 items: nothing is lost, duplicated or reordered, however often the provider fails. */
  lemma {:induction false} RunConserves<S(!new)>(
      P: Provider<S>, truth: Truth, inv: S -> bool, st: State<S>, bn: nat, calls: nat)
    requires Faithful(P, truth, inv) && inv(st.provider)
    ensures var (st', rs) := Run(P, st, bn, calls);
            && inv(st'.provider)
            && Outputs(rs) + Expected(truth, st', bn) == Expected(truth, st, bn)
    decreases calls
  {
    hide DeriveNext, Expected, Faithful;
    if calls > 0 {
      var (st1, r) := DeriveNext(P, st, bn);
      NextConserves(P, truth, inv, st, bn);
      if r.Eof? || r.Aborted? {
        assert Outputs([r]) == OutputOf(r);
      } else {
        RunConserves(P, truth, inv, st1, bn, calls - 1);
        var (st2, rs) := Run(P, st1, bn, calls - 1);
        assert ([r] + rs)[1..] == rs;
        assert (OutputOf(r) + Outputs(rs)) + Expected(truth, st2, bn)
            == OutputOf(r) + (Outputs(rs) + Expected(truth, st2, bn));
      }
    } else {
      assert [] + Expected(truth, st, bn) == Expected(truth, st, bn);
    }
  }

  /** One call, then the rest: end of data is reached now or by the rest. */
  lemma RunStep<S>(P: Provider<S>, st: State<S>, bn: nat, calls: nat)
    requires calls > 0
    ensures var (st1, r) := DeriveNext(P, st, bn);
            && (r.Eof? ==> Run(P, st, bn, calls) == (st1, [r]) && ReachesEof(Run(P, st, bn, calls).1))
            && (r.Aborted? ==> Run(P, st, bn, calls) == (st1, [r]) && !ReachesEof(Run(P, st, bn, calls).1))
            && (!r.Eof? && !r.Aborted? ==>
                  && Run(P, st, bn, calls).0 == Run(P, st1, bn, calls - 1).0
                  && Run(P, st, bn, calls).1 == [r] + Run(P, st1, bn, calls - 1).1
                  && (ReachesEof(Run(P, st, bn, calls).1) <==> ReachesEof(Run(P, st1, bn, calls - 1).1)))
  {
    hide DeriveNext;
    var (st1, r) := DeriveNext(P, st, bn);
    if !r.Eof? {
      LastResult(r, Run(P, st1, bn, calls - 1).1);
    }
  }

  lemma LastResult(r: PipelineResult, rs: seq<PipelineResult>)
    requires !r.Eof?
    ensures ReachesEof([r] + rs) <==> ReachesEof(rs)
  {
  }

  lemma EofClears<S>(P: Provider<S>, st: State<S>, bn: nat)
    requires DeriveNext(P, st, bn).1.Eof?
    ensures DeriveNext(P, st, bn).0.events == [] && DeriveNext(P, st, bn).0.pending == None
  {
    HeldUntilDone(P, st, bn);
  }

  lemma EofTakesACall<S>(P: Provider<S>, st: State<S>, bn: nat, calls: nat)
    requires ReachesEof(Run(P, st, bn, calls).1)
    ensures calls > 0
  {
  }

  lemma {:induction false} EofEmpties<S>(P: Provider<S>, st: State<S>, bn: nat, calls: nat)
    requires ReachesEof(Run(P, st, bn, calls).1)
    ensures var st' := Run(P, st, bn, calls).0;
            st'.events == [] && st'.pending == None
    decreases calls
  {
    hide DeriveNext, Run, ReachesEof;
    EofTakesACall(P, st, bn, calls);
    RunStep(P, st, bn, calls);
    var (st1, r) := DeriveNext(P, st, bn);
    if r.Eof? {
      EofClears(P, st, bn);
    } else {
      EofEmpties(P, st1, bn, calls - 1);
    }
  }

  /** A run that reaches end of data has returned exactly the reference derivation of its L1 items. */
  lemma RunIsFilterMap<S(!new)>(
      P: Provider<S>, truth: Truth, inv: S -> bool, events: seq<EthEvent>, s: S, bn: nat, calls: nat)
    requires Faithful(P, truth, inv) && inv(s)
    requires ReachesEof(Run(P, State(events, None, s), bn, calls).1)
    ensures Outputs(Run(P, State(events, None, s), bn, calls).1) == FilterMap(truth, events, bn)
  {
    var st := State(events, None, s);
    RunConserves(P, truth, inv, st, bn, calls);
    EofEmpties(P, st, bn, calls);
    hide Run;
    var (st', rs) := Run(P, st, bn, calls);
    assert Expected(truth, st', bn) == [] && Outputs(rs) + [] == Outputs(rs);
    assert [] + FilterMap(truth, events, bn) == FilterMap(truth, events, bn);
  }

  // Every run gets there

  /** No critical failure and no abort, and only finitely many temporary failures: each uses up some budget. */
  ghost predicate Patient<S(!new)>(P: Provider<S>, inv: S -> bool, budget: S -> nat) {
    forall s, c :: inv(s) ==> PatientAt(P, budget, s, c)
  }

  ghost predicate PatientAt<S>(P: Provider<S>, budget: S -> nat, s: S, c: AltDACommitment) {
    && Pays(P.getValidity(s, c).1, budget(s), budget(P.getValidity(s, c).0))
    && Pays(P.getEncodedPayload(s, c).1, budget(s), budget(P.getEncodedPayload(s, c).0))
  }

  ghost predicate Pays<T>(r: Reply<T>, before: nat, after: nat) {
    (r.Got? && after <= before) || (r == Err(Temporary) && after < before)
  }

  /** No valid certificate asks for an offchain derivation version this code does not know. */
  ghost predicate Supported(truth: Truth, c: AltDACommitment) {
    truth.validity(c) ==> RecencyWindow(c.versionedCert).Success?
  }

  ghost predicate AllSupported<S>(truth: Truth, st: State<S>) {
    && (st.pending.Some? ==> Supported(truth, st.pending.value))
    && forall i :: 0 <= i < |st.events| && st.events[i].Data? && ParseCalldata(st.events[i].data).Some? ==>
         Supported(truth, ParseCalldata(st.events[i].data).value)
  }

  lemma SourceProgress<S(!new)>(
      P: Provider<S>, truth: Truth, inv: S -> bool, budget: S -> nat, s: S, c: AltDACommitment, bn: nat)
    requires Faithful(P, truth, inv) && Patient(P, inv, budget) && inv(s) && Supported(truth, c)
    ensures var (s', r) := SourceNext(P, s, c, bn);
            Pays(r, budget(s), budget(s')) || (r == Err(Discard) && budget(s') <= budget(s))
  {
    hide GetRbn;
    assert FaithfulAt(P, truth, inv, s, c) && PatientAt(P, budget, s, c);
    var s' := P.getValidity(s, c).0;
    assert PatientAt(P, budget, s', c);
  }

  lemma RoundProgress<S(!new)>(
      P: Provider<S>, truth: Truth, inv: S -> bool, budget: S -> nat, st: State<S>, bn: nat)
    requires Faithful(P, truth, inv) && Patient(P, inv, budget) && inv(st.provider) && AllSupported(truth, st)
    ensures var (st', o) := Round(P, st, bn);
            && AllSupported(truth, st')
            && budget(st'.provider) <= budget(st.provider)
            && o != Stop(Aborted)
            && (o != Stop(Eof) ==>
                  st'.Measure() + budget(st'.provider) < st.Measure() + budget(st.provider))
  {
    hide ParseCalldata, SourceNext, Codec.Decode, Supported, Faithful, Patient;
    if st.pending.Some? {
      SourceProgress(P, truth, inv, budget, st.provider, st.pending.value, bn);
    } else if st.events != [] && st.events[0].Data? && ParseCalldata(st.events[0].data).Some? {
      SourceProgress(P, truth, inv, budget, st.provider, ParseCalldata(st.events[0].data).value, bn);
    }
    if st.events != [] {
      assert forall i :: 0 <= i < |st.events| - 1 ==> st.events[1..][i] == st.events[i + 1];
    }
  }

  lemma {:induction false} NextProgress<S(!new)>(
      P: Provider<S>, truth: Truth, inv: S -> bool, budget: S -> nat, st: State<S>, bn: nat)
    requires Faithful(P, truth, inv) && Patient(P, inv, budget) && inv(st.provider) && AllSupported(truth, st)
    ensures var (st', r) := DeriveNext(P, st, bn);
            && inv(st'.provider) && AllSupported(truth, st')
            && r != Aborted
            && (r != Eof ==> st'.Measure() + budget(st'.provider) < st.Measure() + budget(st.provider))
    decreases st.Measure()
  {
    RoundConserves(P, truth, inv, st, bn);
    RoundProgress(P, truth, inv, budget, st, bn);
    hide Round, Expected, Faithful, Patient, AllSupported;
    var (st1, o) := Round(P, st, bn);
    if o.Continue? {
      RoundMeasure(P, st, bn);
      NextProgress(P, truth, inv, budget, st1, bn);
    }
  }

  /** Whatever the schedule of temporary failures, enough calls reach end of data: one per item, one for a
      held commitment, one per failure, and the last. */
  lemma {:induction false} RunReachesEof<S(!new)>(
      P: Provider<S>, truth: Truth, inv: S -> bool, budget: S -> nat, st: State<S>, bn: nat, calls: nat)
    requires Faithful(P, truth, inv) && Patient(P, inv, budget) && inv(st.provider) && AllSupported(truth, st)
    requires calls > st.Measure() + budget(st.provider)
    ensures ReachesEof(Run(P, st, bn, calls).1)
    decreases calls
  {
    hide DeriveNext, Faithful, Patient, AllSupported, Run, ReachesEof;
    NextProgress(P, truth, inv, budget, st, bn);
    RunStep(P, st, bn, calls);
    var (st1, r) := DeriveNext(P, st, bn);
    if !r.Eof? {
      RunReachesEof(P, truth, inv, budget, st1, bn, calls - 1);
    }
  }

  // What dealing with one commitment keeps, runs keep

  /** Whatever the source does with a commitment asked about keeps `inv`. */
  ghost predicate SourceKeeps<S(!new)>(P: Provider<S>, inv: S -> bool, asked: AltDACommitment -> bool, bn: nat) {
    forall s, c :: inv(s) && asked(c) ==> inv(SourceNext(P, s, c, bn).0)
  }

  ghost predicate About<S>(st: State<S>, asked: AltDACommitment -> bool) {
    && (st.pending.Some? ==> asked(st.pending.value))
    && forall i :: 0 <= i < |st.events| && st.events[i].Data? && ParseCalldata(st.events[i].data).Some? ==>
         asked(ParseCalldata(st.events[i].data).value)
  }

  lemma RoundKeeps<S(!new)>(P: Provider<S>, inv: S -> bool, asked: AltDACommitment -> bool, st: State<S>, bn: nat)
    requires SourceKeeps(P, inv, asked, bn) && About(st, asked) && inv(st.provider)
    ensures var (st', o) := Round(P, st, bn);
            && inv(st'.provider) && About(st', asked)
            && (o == Stop(ProviderCritical) ==>
                  exists s, c :: inv(s) && asked(c) && SourceNext(P, s, c, bn).1 == Err(Critical))
  {
    hide ParseCalldata, SourceNext, Codec.Decode;
    if st.events != [] {
      assert forall i :: 0 <= i < |st.events| - 1 ==> st.events[1..][i] == st.events[i + 1];
    }
  }

  lemma {:induction false} NextKeeps<S(!new)>(
      P: Provider<S>, inv: S -> bool, asked: AltDACommitment -> bool, st: State<S>, bn: nat)
    requires SourceKeeps(P, inv, asked, bn) && About(st, asked) && inv(st.provider)
    ensures var (st', r) := DeriveNext(P, st, bn);
            && inv(st'.provider) && About(st', asked)
            && (r.ProviderCritical? ==>
                  exists s, c :: inv(s) && asked(c) && SourceNext(P, s, c, bn).1 == Err(Critical))
    decreases st.Measure()
  {
    hide Round, About, SourceKeeps, SourceNext;
    RoundKeeps(P, inv, asked, st, bn);
    var (st1, o) := Round(P, st, bn);
    if o.Continue? {
      NextKeeps(P, inv, asked, st1, bn);
    }
  }

  /** Over any run, failing or not, an invariant of dealing with single commitments is kept, and a critical failure
      means that some commitment failed critically while it held. */
  lemma {:induction false} RunKeeps<S(!new)>(
      P: Provider<S>, inv: S -> bool, asked: AltDACommitment -> bool, st: State<S>, bn: nat, calls: nat)
    requires SourceKeeps(P, inv, asked, bn) && About(st, asked) && inv(st.provider)
    ensures var (st', rs) := Run(P, st, bn, calls);
            && inv(st'.provider)
            && (ProviderCritical in rs ==>
                  exists s, c :: inv(s) && asked(c) && SourceNext(P, s, c, bn).1 == Err(Critical))
    decreases calls
  {
    hide DeriveNext, About, SourceKeeps, SourceNext;
    if calls > 0 {
      NextKeeps(P, inv, asked, st, bn);
      var (st1, r) := DeriveNext(P, st, bn);
      if !r.Eof? && !r.Aborted? {
        RunKeeps(P, inv, asked, st1, bn, calls - 1);
      }
    }
  }

  // Only the commitments of the block matter

  /** `P`, asked about nothing outside `cs`. */
  function Restricted<S>(P: Provider<S>, cs: set<AltDACommitment>): Provider<S> {
    Provider(
      (s, c) => if c in cs then P.getValidity(s, c) else (s, Abort),
      (s, c) => if c in cs then P.getEncodedPayload(s, c) else (s, Abort))
  }

  ghost predicate Within<S>(st: State<S>, cs: set<AltDACommitment>) {
    About(st, (c: AltDACommitment) => c in cs)
  }

  lemma RestrictedSource<S>(P: Provider<S>, cs: set<AltDACommitment>, s: S, c: AltDACommitment, bn: nat)
    requires c in cs
    ensures SourceNext(Restricted(P, cs), s, c, bn) == SourceNext(P, s, c, bn)
  {
    hide GetRbn;
  }

  lemma RestrictedRound<S>(P: Provider<S>, cs: set<AltDACommitment>, st: State<S>, bn: nat)
    requires Within(st, cs)
    ensures Round(Restricted(P, cs), st, bn) == Round(P, st, bn)
    ensures Within(Round(P, st, bn).0, cs)
  {
    hide ParseCalldata, SourceNext, Codec.Decode, Restricted;
    if st.pending.Some? {
      RestrictedSource(P, cs, st.provider, st.pending.value, bn);
    } else if st.events != [] && st.events[0].Data? && ParseCalldata(st.events[0].data).Some? {
      RestrictedSource(P, cs, st.provider, ParseCalldata(st.events[0].data).value, bn);
    }
    if st.events != [] {
      assert forall i :: 0 <= i < |st.events| - 1 ==> st.events[1..][i] == st.events[i + 1];
    }
  }

  lemma {:induction false} RestrictedNext<S>(P: Provider<S>, cs: set<AltDACommitment>, st: State<S>, bn: nat)
    requires Within(st, cs)
    ensures DeriveNext(Restricted(P, cs), st, bn) == DeriveNext(P, st, bn)
    ensures Within(DeriveNext(P, st, bn).0, cs)
    decreases st.Measure()
  {
    hide Round, Restricted, Within;
    RestrictedRound(P, cs, st, bn);
    var (st1, o) := Round(P, st, bn);
    if o.Continue? {
      RestrictedNext(P, cs, st1, bn);
    }
  }

  /** A run over items within `cs` does not depend on what the provider would say about anything else. */
  lemma {:induction false} RestrictedRun<S>(P: Provider<S>, cs: set<AltDACommitment>, st: State<S>, bn: nat, calls: nat)
    requires Within(st, cs)
    ensures Run(Restricted(P, cs), st, bn, calls) == Run(P, st, bn, calls)
    decreases calls
  {
    hide DeriveNext, Restricted, Within;
    if calls > 0 {
      RestrictedNext(P, cs, st, bn);
      var (st1, r) := DeriveNext(P, st, bn);
      if !r.Eof? && !r.Aborted? {
        RestrictedRun(P, cs, st1, bn, calls - 1);
      }
    }
  }
}

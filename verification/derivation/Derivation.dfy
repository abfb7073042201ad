/** The derivation state machine: L1 items in, rollup payloads out, with one commitment held across failures. */
module Derivation {
  import opened Prelude
  import opened Bytes
  import opened Commitment
  import Codec

  const ALTDA_DERIVATION_VERSION: byte := 1

  datatype ErrorKind = Discard | Temporary | Critical

  /** A provider's answer; `Abort` is a panic, after which nothing runs. */
  datatype Reply<+T> = Got(value: T) | Err(kind: ErrorKind) | Abort

  /** A preimage provider with state `S`. */
  datatype Provider<!S> = Provider(
    getValidity: (S, AltDACommitment) -> (S, Reply<bool>),
    getEncodedPayload: (S, AltDACommitment) -> (S, Reply<seq<byte>>))

  // One commitment

  /** Zero disables the check; an unknown offchain derivation version is critical. */
  function RecencyWindow(c: VersionedCert): Result<nat, ErrorKind> {
    match c
    case V2(_, _, _, _) => Success(0)
    case V3(_, _, _, _) => Success(0)
    case V4(_, _, _, _, version) => if version == 0 then Success(14400) else Failure(Critical)
  }

  predicate IsRecent(l1InclusionBn: nat, rbn: nat, window: nat) {
    window == 0 || l1InclusionBn <= rbn + window
  }

  /** Validity, then recency, then the payload. */
  function SourceNext<S>(P: Provider<S>, s: S, c: AltDACommitment, l1InclusionBn: nat): (S, Reply<seq<byte>>) {
    match P.getValidity(s, c)
    case (s', Abort) => (s', Abort)
    case (s', Err(kind)) => (s', Err(kind))
    case (s', Got(valid)) =>
      if !valid then (s', Err(Discard))
      else
        match RecencyWindow(c.versionedCert)
        case Failure(kind) => (s', Err(kind))
        case Success(window) =>
          if !IsRecent(l1InclusionBn, GetRbn(c), window) then (s', Err(Discard))
          else P.getEncodedPayload(s', c)
  }

  function ParseCalldata(data: seq<byte>): Option<AltDACommitment> {
    if |data| <= 2 then None
    else
      match TryFrom(data[1..])
      case Success(c) => Some(c)
      case Failure(_) => None
  }

  // The data source

  /** What the Ethereum source yields before its end: an item or an error. */
  datatype EthEvent = Data(data: seq<byte>) | EthError(kind: ErrorKind)

  datatype PipelineResult =
    | Item(bytes: seq<byte>)
    | NotEnoughData
    | ProviderTemporary
    | ProviderCritical
    | EthFailed(kind: ErrorKind)
    | Eof
    | Aborted

  datatype State<!S> = State(events: seq<EthEvent>, pending: Option<AltDACommitment>, provider: S) {
    /** Items left, counting the one held. */
    function Measure(): nat {
      |events| + if pending.Some? then 1 else 0
    }
  }

  datatype RoundResult = Stop(result: PipelineResult) | Continue

  function Fetch<S>(P: Provider<S>, events: seq<EthEvent>, c: AltDACommitment, s: S, l1InclusionBn: nat)
    : (State<S>, RoundResult)
  {
    match SourceNext(P, s, c, l1InclusionBn)
    case (s', Abort) => (State(events, Some(c), s'), Stop(Aborted))
    case (s', Err(Temporary)) => (State(events, Some(c), s'), Stop(ProviderTemporary))
    case (s', Err(Critical)) => (State(events, Some(c), s'), Stop(ProviderCritical))
    case (s', Err(Discard)) => (State(events, None, s'), Continue)
    case (s', Got(e)) =>
      (State(events, None, s'),
       match Codec.Decode(e)
       case Success(payload) => Stop(Item(payload))
       case Failure(_) => Continue)
  }

  /** One pass through `next`, up to its return or its recursive call. */
  function Round<S>(P: Provider<S>, st: State<S>, l1InclusionBn: nat): (r: (State<S>, RoundResult))
    ensures r.1.Continue? ==> r.0.Measure() < st.Measure()
  {
    hide ParseCalldata, SourceNext, Codec.Decode;
    if st.pending.Some? then
      Fetch(P, st.events, st.pending.value, st.provider, l1InclusionBn)
    else if st.events == [] then
      (st, Stop(Eof))
    else
      var rest := State(st.events[1..], None, st.provider);
      match st.events[0]
      case EthError(kind) => (rest, Stop(EthFailed(kind)))
      case Data(data) =>
        if data == [] then (rest, Stop(NotEnoughData))
        else if data[0] != ALTDA_DERIVATION_VERSION then (rest, Stop(Item(data)))
        else
          match ParseCalldata(data)
          case None => (rest, Stop(NotEnoughData))
          case Some(c) => Fetch(P, rest.events, c, st.provider, l1InclusionBn)
  }

  /** `next`: rounds until one returns. Each recursion follows the end of a commitment, so it terminates. */
  function DeriveNext<S>(P: Provider<S>, st: State<S>, l1InclusionBn: nat): (State<S>, PipelineResult)
    decreases st.Measure()
  {
    match Round(P, st, l1InclusionBn)
    case (st', Stop(result)) => (st', result)
    case (st', Continue) => DeriveNext(P, st', l1InclusionBn)
  }

  // The same, in place

  class EthereumSource {
    var events: seq<EthEvent>

    constructor (events: seq<EthEvent>)
      ensures this.events == events
    {
      this.events := events;
    }

    method Next() returns (r: Result<seq<byte>, PipelineResult>)
      modifies this
      ensures old(events) == [] ==> events == [] && r == Failure(Eof)
      ensures old(events) != [] ==>
                && events == old(events)[1..]
                && r == match old(events)[0]
                        case Data(data) => Success(data)
                        case EthError(kind) => Failure(EthFailed(kind))
    {
      if events == [] {
        return Failure(Eof);
      }
      match events[0] {
        case Data(data) => r := Success(data);
        case EthError(kind) => r := Failure(EthFailed(kind));
      }
      events := events[1..];
    }

    method Clear()
      modifies this
      ensures events == []
    {
      events := [];
    }
  }

  class EigenDAPreimageSource<!S> {
    const fetcher: Provider<S>
    var state: S

    constructor (fetcher: Provider<S>, state: S)
      ensures this.fetcher == fetcher && this.state == state
    {
      this.fetcher, this.state := fetcher, state;
    }

    method Next(c: AltDACommitment, l1InclusionBn: nat) returns (r: Reply<seq<byte>>)
      modifies this
      ensures (state, r) == SourceNext(fetcher, old(state), c, l1InclusionBn)
    {
      var validity := fetcher.getValidity(state, c);
      state := validity.0;
      match validity.1 {
        case Got(true) =>
        case Got(false) => return Err(Discard);
        case Err(kind) => return Err(kind);
        case Abort => return Abort;
      }
      var window := RecencyWindow(c.versionedCert);
      if window.Failure? {
        return Err(window.error);
      }
      if !IsRecent(l1InclusionBn, GetRbn(c), window.value) {
        return Err(Discard);
      }
      var payload := fetcher.getEncodedPayload(state, c);
      state := payload.0;
      return payload.1;
    }
  }

  class EigenDADataSource<!S> {
    const ethereumSource: EthereumSource
    const eigendaSource: EigenDAPreimageSource<S>
    var altdaCommitment: Option<AltDACommitment>

    constructor (ethereumSource: EthereumSource, eigendaSource: EigenDAPreimageSource<S>)
      ensures this.ethereumSource == ethereumSource && this.eigendaSource == eigendaSource
      ensures altdaCommitment == None
    {
      this.ethereumSource, this.eigendaSource, altdaCommitment := ethereumSource, eigendaSource, None;
    }

    ghost function Abstract(): State<S>
      reads this, ethereumSource, eigendaSource
    {
      State(ethereumSource.events, altdaCommitment, eigendaSource.state)
    }

    method Next(l1InclusionBn: nat) returns (r: PipelineResult)
      modifies this, ethereumSource, eigendaSource
      ensures (Abstract(), r) == DeriveNext(eigendaSource.fetcher, old(Abstract()), l1InclusionBn)
      decreases Abstract().Measure()
    {
      hide ParseCalldata, SourceNext;
      if altdaCommitment == None {
        var localData := ethereumSource.Next();
        if localData.Failure? {
          if localData.error == Eof {
            Clear();
          }
          return localData.error;
        }
        var data := localData.value;
        if data == [] {
          return NotEnoughData;
        }
        if data[0] != ALTDA_DERIVATION_VERSION {
          return Item(data);
        }
        var parsed := ParseCalldata(data);
        if parsed == None {
          return NotEnoughData;
        }
        altdaCommitment := parsed;
      }
      var c := altdaCommitment.value;
      var fetched := eigendaSource.Next(c, l1InclusionBn);
      match fetched {
        case Abort =>
          return Aborted;
        case Err(Temporary) =>
          return ProviderTemporary;
        case Err(Critical) =>
          return ProviderCritical;
        case Err(Discard) =>
          altdaCommitment := None;
          r := Next(l1InclusionBn);
        case Got(encodedPayload) =>
          var payload := Codec.DecodeEncodedPayload(encodedPayload);
          altdaCommitment := None;
          if payload.Success? {
            return Item(payload.value);
          }
          r := Next(l1InclusionBn);
      }
    }

    method Clear()
      modifies this, ethereumSource
      ensures altdaCommitment == None && ethereumSource.events == []
    {
      altdaCommitment := None;
      ethereumSource.Clear();
    }
  }
}

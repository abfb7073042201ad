/** The preimage address space: where the host puts what the client reads back. */
module AddressSpace {
  import opened Prelude
  import opened Bytes
  import opened Rlp
  import opened Commitment

  const RESERVED_EIGENDA_API_BYTE_INDEX: nat := 32
  const RESERVED_EIGENDA_API_BYTE_FOR_VALIDITY: byte := 1

  /** keccak256 of a commitment, and the global generic key of an 80-byte address. */
  datatype Hashes<!Key(==)> = Hashes(digest: seq<byte> -> Bytes32, key: seq<byte> -> Key)

  // Addresses

  function DigestTemplate<Key>(H: Hashes<Key>, c: AltDACommitment): (t: seq<byte>)
    ensures |t| == 80
  {
    H.digest(ToRlpBytes(c)) + Zeros(48)
  }

  method MakeDigestTemplate<Key>(H: Hashes<Key>, c: AltDACommitment) returns (t: array<byte>)
    ensures fresh(t) && t.Length == 80 && t[..] == DigestTemplate(H, c)
  {
    t := new byte[80](_ => 0);
    var bytes := PrintRlpBytes(c);
    CopyInto(t, 0, H.digest(bytes));
  }

  function ValidityAddress<Key>(H: Hashes<Key>, c: AltDACommitment): (a: seq<byte>)
    ensures |a| == 80
  {
    DigestTemplate(H, c)[RESERVED_EIGENDA_API_BYTE_INDEX := RESERVED_EIGENDA_API_BYTE_FOR_VALIDITY]
  }

  function ElementAddress<Key>(H: Hashes<Key>, c: AltDACommitment, i: nat): (a: seq<byte>)
    ensures |a| == 80
  {
    DigestTemplate(H, c)[..72] + ToBytesBE(i, 8)
  }

  lemma AddressParts<Key>(H: Hashes<Key>, c: AltDACommitment, i: nat)
    ensures ValidityAddress(H, c)[..32] == ElementAddress(H, c, i)[..32] == H.digest(ToRlpBytes(c))
    ensures ValidityAddress(H, c)[32] == 1 && ElementAddress(H, c, i)[32] == 0
    ensures ElementAddress(H, c, i)[72..] == ToBytesBE(i, 8)
  {
    hide ToBytesBE, ToRlpBytes;
    var d, t := H.digest(ToRlpBytes(c)), DigestTemplate(H, c);
    assert t[..32] == d && t[32] == 0;
    assert ElementAddress(H, c, i)[..32] == t[..72][..32] == t[..32];
    assert ElementAddress(H, c, i)[32] == t[..72][32];
  }

  /** Commitments whose printed forms fit in memory and do not collide. */
  ghost predicate DistinctDigests<Key>(H: Hashes<Key>, cs: set<AltDACommitment>) {
    && (forall c :: c in cs ==> |ToRlpBytes(c)| < MAX_SIZE)
    && forall c, d :: c in cs && d in cs && H.digest(ToRlpBytes(c)) == H.digest(ToRlpBytes(d))
                      ==> ToRlpBytes(c) == ToRlpBytes(d)
  }

  /** What an address is for. */
  datatype Slot = Validity(c: AltDACommitment) | Element(c: AltDACommitment, index: nat)

  ghost predicate SlotOf(s: Slot, cs: set<AltDACommitment>) {
    s.c in cs && (s.Element? ==> s.index < MAX_SIZE)
  }

  function Address<Key>(H: Hashes<Key>, s: Slot): seq<byte> {
    match s
    case Validity(c) => ValidityAddress(H, c)
    case Element(c, i) => ElementAddress(H, c, i)
  }

  /** Every commitment has one validity address and 2^64 element addresses, and none is shared. */
  lemma AddressesDistinct<Key>(H: Hashes<Key>, cs: set<AltDACommitment>, s: Slot, t: Slot)
    requires DistinctDigests(H, cs) && SlotOf(s, cs) && SlotOf(t, cs)
    requires Address(H, s) == Address(H, t)
    ensures s == t
  {
    hide ToRlpBytes, ValidityAddress, ElementAddress;
    AddressParts(H, s.c, if s.Element? then s.index else 0);
    AddressParts(H, t.c, if t.Element? then t.index else 0);
    PrintInjective(s.c, t.c);
    if s.Element? && t.Element? {
      assert Pow256(8) == MAX_SIZE;
      ToBytesInjective(s.index, t.index, 8);
    }
  }

  /** No two addresses of these commitments collide as keys. */
  ghost predicate DistinctKeys<Key>(H: Hashes<Key>, cs: set<AltDACommitment>) {
    forall s, t :: SlotOf(s, cs) && SlotOf(t, cs) && H.key(Address(H, s)) == H.key(Address(H, t))
                   ==> Address(H, s) == Address(H, t)
  }

  function SlotKey<Key>(H: Hashes<Key>, s: Slot): Key {
    H.key(Address(H, s))
  }

  /** Writes the index into the last eight bytes of the address buffer and hashes it. */
  method ElementKey<Key>(H: Hashes<Key>, buffer: array<byte>, ghost c: AltDACommitment, i: nat) returns (k: Key)
    requires buffer.Length == 80 && buffer[..72] == DigestTemplate(H, c)[..72]
    modifies buffer
    ensures buffer[..72] == DigestTemplate(H, c)[..72]
    ensures k == SlotKey(H, Element(c, i))
  {
    hide DigestTemplate, ToBytesBE;
    CopyInto(buffer, 72, ToBytesBE(i, 8));
    assert buffer[..] == buffer[..72] + buffer[72..] == ElementAddress(H, c, i);
    k := H.key(buffer[..]);
  }

  lemma KeysDistinct<Key>(H: Hashes<Key>, cs: set<AltDACommitment>, s: Slot, t: Slot)
    requires DistinctDigests(H, cs) && DistinctKeys(H, cs) && SlotOf(s, cs) && SlotOf(t, cs)
    ensures SlotKey(H, s) == SlotKey(H, t) <==> s == t
  {
    if SlotKey(H, s) == SlotKey(H, t) {
      AddressesDistinct(H, cs, s, t);
    }
  }

  // The host

  class KeyValueStore<Key(==)> {
    var entries: map<Key, seq<byte>>

    constructor ()
      ensures entries == map[]
    {
      entries := map[];
    }

    method Set(key: Key, value: seq<byte>)
      modifies this
      ensures entries == old(entries)[key := value]
    {
      entries := entries[key := value];
    }
  }

  /** The proxy's answer about a commitment. */
  datatype DerivationStage = DerivationStage(isValidCert: bool, passRecencyCheck: bool, encodedPayload: seq<byte>)

  datatype HostOutcome = Done | HintError | Panicked

  function ValidityByte(valid: bool): seq<byte> {
    if valid then [1] else [0]
  }

  /** Field element `i` of the payload; zeros past its end. */
  function ElementBytes(payload: seq<byte>, i: nat): (s: seq<byte>)
    requires |payload| % 32 == 0
    ensures |s| == 32
  {
    if i < |payload| / 32 then payload[32 * i..32 * (i + 1)] else Zeros(32)
  }

  function StoreValidity<Key>(H: Hashes<Key>, m: map<Key, seq<byte>>, c: AltDACommitment, valid: bool)
    : map<Key, seq<byte>>
  {
    m[SlotKey(H, Validity(c)) := ValidityByte(valid)]
  }

  function StoreElements<Key>(H: Hashes<Key>, m: map<Key, seq<byte>>, c: AltDACommitment, payload: seq<byte>, n: nat)
    : map<Key, seq<byte>>
    requires |payload| % 32 == 0
  {
    if n == 0 then m
    else StoreElements(H, m, c, payload, n - 1)[SlotKey(H, Element(c, n - 1)) := ElementBytes(payload, n - 1)]
  }

  /** The conservative host check: the top three bits of every element are clear. */
  predicate ElementsInRange(payload: seq<byte>)
    requires |payload| % 32 == 0
  {
    forall i :: 0 <= i < |payload| / 32 ==> payload[32 * i] < 32
  }

  method StoreCertValidity<Key>(H: Hashes<Key>, kv: KeyValueStore<Key>, c: AltDACommitment, isValid: bool)
    modifies kv
    ensures kv.entries == StoreValidity(H, old(kv.entries), c, isValid)
  {
    var validityAddress := MakeDigestTemplate(H, c);
    validityAddress[RESERVED_EIGENDA_API_BYTE_INDEX] := RESERVED_EIGENDA_API_BYTE_FOR_VALIDITY;
    assert validityAddress[..] == ValidityAddress(H, c);
    kv.Set(H.key(validityAddress[..]), ValidityByte(isValid));
  }

  method CheckElements(payload: seq<byte>) returns (ok: bool)
    requires |payload| % 32 == 0
    ensures ok == ElementsInRange(payload)
  {
    for j := 0 to |payload| / 32
      invariant forall i :: 0 <= i < j ==> payload[32 * i] < 32
    {
      if payload[32 * j] >= 32 {
        return false;
      }
    }
    return true;
  }

  method StoreEncodedPayload<Key>(H: Hashes<Key>, kv: KeyValueStore<Key>, c: AltDACommitment, encodedPayload: seq<byte>)
    returns (outcome: HostOutcome)
    modifies kv
    ensures outcome == PayloadOutcome(encodedPayload)
    ensures kv.entries ==
            if outcome == Done then StoreElements(H, old(kv.entries), c, encodedPayload, GetNumFieldElement(c))
            else old(kv.entries)
  {
    hide DigestTemplate, ElementsInRange, GetNumFieldElement, SlotKey;
    var blobLengthFe := GetNumFieldElement(c);
    if !(|encodedPayload| % 32 == 0 && encodedPayload != []) {
      return Panicked;
    }
    var inRange := CheckElements(encodedPayload);
    if !inRange {
      return HintError;
    }
    var fetchNumElement := |encodedPayload| / 32;
    var fieldElementKey := MakeDigestTemplate(H, c);
    for i := 0 to blobLengthFe
      invariant fieldElementKey.Length == 80 && fieldElementKey[..72] == DigestTemplate(H, c)[..72]
      invariant kv.entries == StoreElements(H, old(kv.entries), c, encodedPayload, i)
    {
      var key := ElementKey(H, fieldElementKey, c, i);
      if i < fetchNumElement {
        kv.Set(key, encodedPayload[32 * i..32 * (i + 1)]);
      } else {
        kv.Set(key, Zeros(32));
      }
    }
    return Done;
  }

  /** How storing a payload ends: a malformed length aborts the host, an element out of range is an error. */
  function PayloadOutcome(payload: seq<byte>): HostOutcome {
    if |payload| % 32 != 0 || payload == [] then Panicked
    else if !ElementsInRange(payload) then HintError
    else Done
  }

  /** What one hint does to the store. */
  function HintEffect<Key>(H: Hashes<Key>, m: map<Key, seq<byte>>, bytes: seq<byte>, response: Option<DerivationStage>)
    : map<Key, seq<byte>>
  {
    match (TryFrom(bytes), response)
    case (Success(c), Some(stage)) =>
      var m' := StoreValidity(H, m, c, stage.isValidCert);
      if stage.isValidCert && stage.passRecencyCheck && PayloadOutcome(stage.encodedPayload) == Done then
        StoreElements(H, m', c, stage.encodedPayload, GetNumFieldElement(c))
      else m'
    case _ => m
  }

  method FetchEigendaHint<Key>(
      H: Hashes<Key>, kv: KeyValueStore<Key>, bytes: seq<byte>, response: Option<DerivationStage>)
    returns (outcome: HostOutcome)
    modifies kv
    ensures kv.entries == HintEffect(H, old(kv.entries), bytes, response)
    ensures outcome == match (TryFrom(bytes), response)
                       case (Success(_), Some(stage)) =>
                         if stage.isValidCert && stage.passRecencyCheck then PayloadOutcome(stage.encodedPayload)
                         else Done
                       case _ => HintError
  {
    hide TryFrom, PayloadOutcome, SlotKey;
    var parsed := TryFrom(bytes);
    if parsed.Failure? {
      return HintError;
    }
    if response.None? {
      return HintError;
    }
    var stage := response.value;
    StoreCertValidity(H, kv, parsed.value, stage.isValidCert);
    if !stage.isValidCert {
      return Done;
    }
    if !stage.passRecencyCheck {
      return Done;
    }
    outcome := StoreEncodedPayload(H, kv, parsed.value, stage.encodedPayload);
  }

  // The client

  /** How the preimage channel fails. */
  datatype OracleError = IOError | OtherError

  datatype ClientResult<+T> = Answer(value: T) | PreimageError(error: OracleError) | ClientPanic

  /** The client's end of the hint channel: every write is sent, and some fail. */
  class HintWriter {
    const failure: nat -> Option<OracleError>
    var sent: seq<seq<byte>>

    constructor (failure: nat -> Option<OracleError>)
      ensures this.failure == failure && sent == []
    {
      this.failure, sent := failure, [];
    }

    method Write(bytes: seq<byte>) returns (r: Option<OracleError>)
      modifies this
      ensures sent == old(sent) + [bytes] && r == failure(|old(sent)|)
    {
      r := failure(|sent|);
      sent := sent + [bytes];
    }
  }

  function ReadValidity<Key>(H: Hashes<Key>, m: map<Key, seq<byte>>, c: AltDACommitment): ClientResult<bool> {
    var k := SlotKey(H, Validity(c));
    if k !in m then PreimageError(OtherError)
    else if |m[k]| != 1 || m[k][0] > 1 then ClientPanic
    else Answer(m[k][0] == 1)
  }

  /** The hint goes out before the read. */
  method GetValidity<Key>(H: Hashes<Key>, kv: KeyValueStore<Key>, hints: HintWriter, c: AltDACommitment)
    returns (r: ClientResult<bool>)
    modifies hints
    ensures hints.sent == old(hints.sent) + [ToRlpBytes(c)]
    ensures r == match hints.failure(|old(hints.sent)|)
                 case Some(e) => PreimageError(e)
                 case None => ReadValidity(H, kv.entries, c)
  {
    hide ToRlpBytes;
    var bytes := PrintRlpBytes(c);
    var failed := hints.Write(bytes);
    if failed.Some? {
      return PreimageError(failed.value);
    }
    var addressTemplate := MakeDigestTemplate(H, c);
    addressTemplate[RESERVED_EIGENDA_API_BYTE_INDEX] := RESERVED_EIGENDA_API_BYTE_FOR_VALIDITY;
    assert addressTemplate[..] == ValidityAddress(H, c);
    var key := H.key(addressTemplate[..]);
    if key !in kv.entries {
      return PreimageError(OtherError);
    }
    var validity := kv.entries[key];
    if validity == [] || |validity| != 1 {
      return ClientPanic;
    }
    if validity[0] == 0 {
      return Answer(false);
    } else if validity[0] == 1 {
      return Answer(true);
    }
    return ClientPanic;
  }

  method CopyElement(out: array<byte>, i: nat, element: seq<byte>)
    requires 32 * (i + 1) <= out.Length && |element| == 32
    modifies out
    ensures out[..32 * (i + 1)] == old(out[..32 * i]) + element
  {
    CopyInto(out, 32 * i, element);
  }

  /** One element; an absent or wrongly sized preimage is an error. */
  function ReadElement<Key>(H: Hashes<Key>, m: map<Key, seq<byte>>, c: AltDACommitment, i: nat)
    : (r: ClientResult<seq<byte>>)
    ensures r == PreimageError(OtherError) || (r.Answer? && |r.value| == 32)
  {
    var k := SlotKey(H, Element(c, i));
    if k !in m || |m[k]| != 32 then PreimageError(OtherError) else Answer(m[k])
  }

  /** The first `n` elements; an absent or wrongly sized preimage is an error. */
  function ReadElements<Key>(H: Hashes<Key>, m: map<Key, seq<byte>>, c: AltDACommitment, n: nat)
    : (r: ClientResult<seq<byte>>)
    ensures r.Answer? ==> |r.value| == 32 * n
  {
    if n == 0 then Answer([])
    else
      var front, element := ReadElements(H, m, c, n - 1), ReadElement(H, m, c, n - 1);
      if !front.Answer? || !element.Answer? then PreimageError(OtherError)
      else Answer(front.value + element.value)
  }

  /** Reads element by element into the payload buffer. */
  method FetchEncodedPayload<Key>(
      H: Hashes<Key>, kv: KeyValueStore<Key>, c: AltDACommitment,
      fieldElementKey: array<byte>, blobLength: nat, encodedPayload: array<byte>)
    returns (failed: bool)
    requires fieldElementKey != encodedPayload && encodedPayload.Length == 32 * blobLength
    requires fieldElementKey[..] == DigestTemplate(H, c)
    modifies fieldElementKey, encodedPayload
    ensures ReadElements(H, kv.entries, c, blobLength)
            == if failed then PreimageError(OtherError) else Answer(encodedPayload[..])
  {
    hide DigestTemplate, SlotKey;
    ghost var m := kv.entries;
    for i := 0 to blobLength
      invariant fieldElementKey.Length == 80 && fieldElementKey[..72] == DigestTemplate(H, c)[..72]
      invariant kv.entries == m
      invariant ReadElements(H, m, c, i) == Answer(encodedPayload[..32 * i])
    {
      var key := ElementKey(H, fieldElementKey, c, i);
      if key !in kv.entries || |kv.entries[key]| != 32 {
        ReadFails(H, m, c, i, blobLength);
        return true;
      }
      CopyElement(encodedPayload, i, kv.entries[key]);
    }
    assert encodedPayload[..] == encodedPayload[..32 * blobLength];
    return false;
  }

  method GetEncodedPayload<Key>(H: Hashes<Key>, kv: KeyValueStore<Key>, hints: HintWriter, c: AltDACommitment)
    returns (r: ClientResult<seq<byte>>)
    modifies hints
    ensures hints.sent == old(hints.sent) + [ToRlpBytes(c)]
    ensures r == match hints.failure(|old(hints.sent)|)
                 case Some(e) => PreimageError(e)
                 case None => ReadElements(H, kv.entries, c, GetNumFieldElement(c))
  {
    hide DigestTemplate, GetNumFieldElement, ReadElements, ToRlpBytes;
    var bytes := PrintRlpBytes(c);
    var broken := hints.Write(bytes);
    if broken.Some? {
      return PreimageError(broken.value);
    }
    var blobLengthFe := GetNumFieldElement(c);
    var encodedPayload := new byte[blobLengthFe * 32](_ => 0);
    var fieldElementKey := MakeDigestTemplate(H, c);
    var failed := FetchEncodedPayload(H, kv, c, fieldElementKey, blobLengthFe, encodedPayload);
    return if failed then PreimageError(OtherError) else Answer(encodedPayload[..]);
  }

  lemma {:induction false} ReadFails<Key>(H: Hashes<Key>, m: map<Key, seq<byte>>, c: AltDACommitment, i: nat, n: nat)
    requires i < n
    requires var k := SlotKey(H, Element(c, i)); k !in m || |m[k]| != 32
    ensures ReadElements(H, m, c, n) == PreimageError(OtherError)
    decreases n
  {
    hide SlotKey;
    if i < n - 1 {
      ReadFails(H, m, c, i, n - 1);
    }
  }

  // Agreement over any sequence of hints

  /** What the host last recorded about a commitment: validity, and the payload in the cert's length. */
  datatype Stored = Stored(valid: bool, payload: Option<seq<byte>>)

  /** The payload cut or zero-padded to `n` field elements. */
  function Fit(payload: seq<byte>, n: nat): (s: seq<byte>)
    ensures |s| == 32 * n
  {
    if 32 * n <= |payload| then payload[..32 * n] else payload + Zeros(32 * n - |payload|)
  }

  datatype Hint = Hint(bytes: seq<byte>, response: Option<DerivationStage>)

  function RecordOf(prev: Option<Stored>, stage: DerivationStage, n: nat): Stored {
    Stored(
      stage.isValidCert,
      if stage.isValidCert && stage.passRecencyCheck && PayloadOutcome(stage.encodedPayload) == Done then
        Some(Fit(stage.encodedPayload, n))
      else if prev.Some? then prev.value.payload else None)
  }

  /** The record of `c` after a run of hints, without any key-value store. */
  function LastRecord(hints: seq<Hint>, c: AltDACommitment): Option<Stored> {
    if hints == [] then None
    else
      var front, h := LastRecord(hints[..|hints| - 1], c), hints[|hints| - 1];
      if TryFrom(h.bytes) == Success(c) && h.response.Some? then
        Some(RecordOf(front, h.response.value, GetNumFieldElement(c)))
      else front
  }

  function RunHints<Key>(H: Hashes<Key>, hints: seq<Hint>): map<Key, seq<byte>> {
    if hints == [] then map[]
    else
      var h := hints[|hints| - 1];
      HintEffect(H, RunHints(H, hints[..|hints| - 1]), h.bytes, h.response)
  }

  /** The client's two reads give back a record. */
  ghost predicate Reads<Key>(H: Hashes<Key>, m: map<Key, seq<byte>>, c: AltDACommitment, r: Option<Stored>) {
    && ReadValidity(H, m, c) == (if r.Some? then Answer(r.value.valid) else PreimageError(OtherError))
    && ReadElements(H, m, c, GetNumFieldElement(c))
       == if r.Some? && r.value.payload.Some? then Answer(r.value.payload.value)
          else if GetNumFieldElement(c) == 0 then Answer([])
          else PreimageError(OtherError)
  }

  ghost predicate SameAt<Key>(m: map<Key, seq<byte>>, m': map<Key, seq<byte>>, k: Key) {
    (k in m <==> k in m') && (k in m ==> m[k] == m'[k])
  }

  lemma {:induction false} ReadElementsFrame<Key>(
      H: Hashes<Key>, m: map<Key, seq<byte>>, m': map<Key, seq<byte>>, c: AltDACommitment, n: nat)
    requires forall i :: 0 <= i < n ==> SameAt(m, m', SlotKey(H, Element(c, i)))
    ensures ReadElements(H, m, c, n) == ReadElements(H, m', c, n)
  {
    hide SlotKey;
    if n > 0 {
      ReadElementsFrame(H, m, m', c, n - 1);
      assert SameAt(m, m', SlotKey(H, Element(c, n - 1)));
    }
  }

  lemma {:induction false} StoreElementsFrame<Key>(
      H: Hashes<Key>, m: map<Key, seq<byte>>, c: AltDACommitment, payload: seq<byte>, n: nat, k: Key)
    requires |payload| % 32 == 0
    requires forall i :: 0 <= i < n ==> k != SlotKey(H, Element(c, i))
    ensures SameAt(m, StoreElements(H, m, c, payload, n), k)
  {
    hide SlotKey;
    if n > 0 {
      StoreElementsFrame(H, m, c, payload, n - 1, k);
      assert k != SlotKey(H, Element(c, n - 1));
    }
  }

  lemma FitNext(payload: seq<byte>, n: nat)
    requires |payload| % 32 == 0 && n > 0
    ensures Fit(payload, n) == Fit(payload, n - 1) + ElementBytes(payload, n - 1)
  {
    if 32 * n <= |payload| {
      assert payload[..32 * n] == payload[..32 * (n - 1)] + payload[32 * (n - 1)..32 * n];
    } else if 32 * (n - 1) <= |payload| {
      assert 32 * (n - 1) == |payload|;
    }
  }

  lemma StoreOneMore<Key>(H: Hashes<Key>, m: map<Key, seq<byte>>, c: AltDACommitment, payload: seq<byte>, n: nat)
    requires |payload| % 32 == 0 && n > 0
    ensures StoreElements(H, m, c, payload, n)
            == StoreElements(H, m, c, payload, n - 1)[SlotKey(H, Element(c, n - 1)) := ElementBytes(payload, n - 1)]
  {
  }

  lemma ReadOneMore<Key>(H: Hashes<Key>, m: map<Key, seq<byte>>, c: AltDACommitment, n: nat, front: seq<byte>)
    requires n > 0 && ReadElements(H, m, c, n - 1) == Answer(front)
    requires var k := SlotKey(H, Element(c, n - 1)); k in m && |m[k]| == 32
    ensures ReadElements(H, m, c, n) == Answer(front + m[SlotKey(H, Element(c, n - 1))])
  {
  }

  lemma ReadNone<Key>(H: Hashes<Key>, m: map<Key, seq<byte>>, c: AltDACommitment)
    ensures ReadElements(H, m, c, 0) == Answer([])
  {
  }

  lemma {:induction false} StoreThenRead<Key>(
      H: Hashes<Key>, cs: set<AltDACommitment>, m: map<Key, seq<byte>>, c: AltDACommitment, payload: seq<byte>, n: nat)
    requires DistinctDigests(H, cs) && DistinctKeys(H, cs) && c in cs
    requires |payload| % 32 == 0 && n <= MAX_SIZE
    ensures ReadElements(H, StoreElements(H, m, c, payload, n), c, n) == Answer(Fit(payload, n))
  {
    hide DistinctDigests, DistinctKeys, SlotKey, ElementBytes, Fit, ReadElements, StoreElements;
    if n > 0 {
      StoreOneMore(H, m, c, payload, n);
      var before, after := StoreElements(H, m, c, payload, n - 1), StoreElements(H, m, c, payload, n);
      StoreThenRead(H, cs, m, c, payload, n - 1);
      forall i | 0 <= i < n - 1
        ensures SameAt(before, after, SlotKey(H, Element(c, i)))
      {
        KeysDistinct(H, cs, Element(c, i), Element(c, n - 1));
      }
      ReadElementsFrame(H, before, after, c, n - 1);
      ReadOneMore(H, after, c, n, Fit(payload, n - 1));
      FitNext(payload, n);
    } else {
      FitEmpty(payload);
      ReadNone(H, StoreElements(H, m, c, payload, 0), c);
    }
  }

  lemma FitEmpty(payload: seq<byte>)
    ensures Fit(payload, 0) == []
  {
  }

  /** A hint about one commitment leaves what is read about another. */
  lemma OtherCommitment<Key>(
      H: Hashes<Key>, cs: set<AltDACommitment>, m: map<Key, seq<byte>>, h: Hint, c: AltDACommitment, r: Option<Stored>)
    requires DistinctDigests(H, cs) && DistinctKeys(H, cs) && c in cs
    requires TryFrom(h.bytes).Success? ==> TryFrom(h.bytes).value in cs && TryFrom(h.bytes).value != c
    requires Reads(H, m, c, r)
    ensures Reads(H, HintEffect(H, m, h.bytes, h.response), c, r)
  {
    hide DistinctDigests, DistinctKeys, SlotKey, TryFrom;
    if TryFrom(h.bytes).Success? && h.response.Some? {
      var d, stage, n := TryFrom(h.bytes).value, h.response.value, GetNumFieldElement(c);
      var m', m'' := StoreValidity(H, m, d, stage.isValidCert), HintEffect(H, m, h.bytes, h.response);
      forall s: Slot | s.c == c && SlotOf(s, cs)
        ensures SameAt(m, m'', SlotKey(H, s))
      {
        FrameOfHint(H, cs, m, d, stage, s);
      }
      forall i | 0 <= i < n
        ensures SameAt(m, m'', SlotKey(H, Element(c, i)))
      {
        ElementIndex(c, i);
        assert SlotOf(Element(c, i), cs);
      }
      ReadElementsFrame(H, m, m'', c, n);
      assert SlotOf(Validity(c), cs);
    }
  }

  lemma ElementIndex(c: AltDACommitment, i: nat)
    requires i < GetNumFieldElement(c)
    ensures i < MAX_SIZE
  {
    assert Pow256(4) < MAX_SIZE;
  }

  lemma FrameOfHint<Key>(
      H: Hashes<Key>, cs: set<AltDACommitment>, m: map<Key, seq<byte>>,
      d: AltDACommitment, stage: DerivationStage, s: Slot)
    requires DistinctDigests(H, cs) && DistinctKeys(H, cs)
    requires d in cs && SlotOf(s, cs) && s.c != d
    ensures var m' := StoreValidity(H, m, d, stage.isValidCert);
            && SameAt(m, m', SlotKey(H, s))
            && (PayloadOutcome(stage.encodedPayload) == Done ==>
                  SameAt(m, StoreElements(H, m', d, stage.encodedPayload, GetNumFieldElement(d)), SlotKey(H, s)))
  {
    hide DistinctDigests, DistinctKeys, SlotKey;
    var m', n := StoreValidity(H, m, d, stage.isValidCert), GetNumFieldElement(d);
    KeysDistinct(H, cs, s, Validity(d));
    if PayloadOutcome(stage.encodedPayload) == Done {
      forall i | 0 <= i < n
        ensures SlotKey(H, s) != SlotKey(H, Element(d, i))
      {
        ElementIndex(d, i);
        KeysDistinct(H, cs, s, Element(d, i));
      }
      StoreElementsFrame(H, m', d, stage.encodedPayload, n, SlotKey(H, s));
    }
  }

  /** A hint about a commitment updates what is read about it. */
  lemma SameCommitment<Key>(
      H: Hashes<Key>, cs: set<AltDACommitment>, m: map<Key, seq<byte>>, h: Hint, c: AltDACommitment, r: Option<Stored>)
    requires DistinctDigests(H, cs) && DistinctKeys(H, cs) && c in cs
    requires TryFrom(h.bytes) == Success(c) && h.response.Some?
    requires Reads(H, m, c, r)
    ensures Reads(H, HintEffect(H, m, h.bytes, h.response), c,
                  Some(RecordOf(r, h.response.value, GetNumFieldElement(c))))
  {
    hide DistinctDigests, DistinctKeys, SlotKey, TryFrom, PayloadOutcome, Fit;
    var stage, n := h.response.value, GetNumFieldElement(c);
    var m' := StoreValidity(H, m, c, stage.isValidCert);
    var v := SlotKey(H, Validity(c));
    forall i | 0 <= i < n
      ensures SlotKey(H, Element(c, i)) != v && SameAt(m, m', SlotKey(H, Element(c, i)))
    {
      ElementIndex(c, i);
      KeysDistinct(H, cs, Element(c, i), Validity(c));
    }
    ReadElementsFrame(H, m, m', c, n);
    if stage.isValidCert && stage.passRecencyCheck && PayloadOutcome(stage.encodedPayload) == Done {
      PayloadShape(stage.encodedPayload);
      StoreElementsFrame(H, m', c, stage.encodedPayload, n, v);
      assert Pow256(4) < MAX_SIZE;
      StoreThenRead(H, cs, m', c, stage.encodedPayload, n);
    }
  }

  lemma PayloadShape(payload: seq<byte>)
    requires PayloadOutcome(payload) == Done
    ensures |payload| % 32 == 0
  {
  }

  /** After any sequence of hints, whatever commitments they are about and however the proxy answers,
      the client reads for each commitment exactly what was last recorded about it. */
  lemma {:induction false} HostClientAgree<Key>(
      H: Hashes<Key>, cs: set<AltDACommitment>, hints: seq<Hint>, c: AltDACommitment)
    requires DistinctDigests(H, cs) && DistinctKeys(H, cs) && c in cs
    requires forall i :: 0 <= i < |hints| && TryFrom(hints[i].bytes).Success? ==> TryFrom(hints[i].bytes).value in cs
    ensures Reads(H, RunHints(H, hints), c, LastRecord(hints, c))
  {
    hide DistinctDigests, DistinctKeys, TryFrom, HintEffect, RecordOf;
    if hints == [] {
      ReadsNothing(H, c);
    } else {
      var front, h := hints[..|hints| - 1], hints[|hints| - 1];
      HostClientAgree(H, cs, front, c);
      if TryFrom(h.bytes) == Success(c) {
        if h.response.Some? {
          SameCommitment(H, cs, RunHints(H, front), h, c, LastRecord(front, c));
        } else {
          NoResponse(H, RunHints(H, front), h);
        }
      } else {
        OtherCommitment(H, cs, RunHints(H, front), h, c, LastRecord(front, c));
      }
    }
  }

  lemma ReadsNothing<Key>(H: Hashes<Key>, c: AltDACommitment)
    ensures Reads(H, map[], c, None)
  {
  }

  lemma NoResponse<Key>(H: Hashes<Key>, m: map<Key, seq<byte>>, h: Hint)
    requires h.response == None
    ensures HintEffect(H, m, h.bytes, h.response) == m
  {
  }

  lemma ParsesBack<Key>(H: Hashes<Key>, cs: set<AltDACommitment>, c: AltDACommitment)
    requires DistinctDigests(H, cs) && c in cs && c.commitmentType == 1 && c.daLayerByte == 0
    ensures TryFrom(ToRlpBytes(c)) == Success(c)
  {
    hide TryFrom, ToRlpBytes;
    assert ToRlpBytes(c) + [] == ToRlpBytes(c);
    PrintParse(c, []);
  }

  /** The client's own hint, answered for a valid and recent certificate and followed only by hints
      about other commitments: the client reads `true` and the payload, in the cert's length. */
  lemma ClientReadsItsPayload<Key>(
      H: Hashes<Key>, cs: set<AltDACommitment>, before: seq<Hint>, after: seq<Hint>,
      c: AltDACommitment, stage: DerivationStage)
    requires DistinctDigests(H, cs) && DistinctKeys(H, cs) && c in cs
    requires c.commitmentType == 1 && c.daLayerByte == 0
    requires stage.isValidCert && stage.passRecencyCheck && PayloadOutcome(stage.encodedPayload) == Done
    requires forall h :: h in before + after && TryFrom(h.bytes).Success? ==> TryFrom(h.bytes).value in cs
    requires forall h :: h in after ==> TryFrom(h.bytes) != Success(c)
    ensures var hints := before + [Hint(ToRlpBytes(c), Some(stage))] + after;
            Reads(H, RunHints(H, hints), c, Some(Stored(true, Some(Fit(stage.encodedPayload, GetNumFieldElement(c))))))
  {
    hide TryFrom, RunHints, Reads, Fit, PayloadOutcome, DistinctKeys, DistinctDigests, ToRlpBytes;
    var mine := Hint(ToRlpBytes(c), Some(stage));
    var hints := before + [mine] + after;
    ParsesBack(H, cs, c);
    forall i | 0 <= i < |hints| && TryFrom(hints[i].bytes).Success?
      ensures TryFrom(hints[i].bytes).value in cs
    {
      assert hints[i] == mine || hints[i] in before + after;
    }
    HostClientAgree(H, cs, hints, c);
    LaterHints(before + [mine], after, c);
    assert (before + [mine])[..|before|] == before;
  }

  lemma {:induction false} LaterHints(front: seq<Hint>, after: seq<Hint>, c: AltDACommitment)
    requires forall h :: h in after ==> TryFrom(h.bytes) != Success(c)
    ensures LastRecord(front + after, c) == LastRecord(front, c)
  {
    hide TryFrom, RecordOf;
    if after == [] {
      assert front + after == front;
    } else {
      var init := after[..|after| - 1];
      LaterHints(front, init, c);
      assert (front + after)[..|front + after| - 1] == front + init;
      assert (front + after)[|front + after| - 1] in after;
    }
  }

  // Where an element comes from

  /** The hint stored `v` as element `i` of `c`. */
  predicate StoredFrom(h: Hint, c: AltDACommitment, i: nat, v: seq<byte>) {
    && TryFrom(h.bytes) == Success(c) && h.response.Some?
    && var stage := h.response.value;
       && stage.isValidCert && stage.passRecencyCheck && PayloadOutcome(stage.encodedPayload) == Done
       && i < GetNumFieldElement(c) && v == ElementBytes(stage.encodedPayload, i)
  }

  lemma {:induction false} StoreElementsAt<Key>(
      H: Hashes<Key>, cs: set<AltDACommitment>, m: map<Key, seq<byte>>, c: AltDACommitment, payload: seq<byte>,
      n: nat, i: nat)
    requires DistinctDigests(H, cs) && DistinctKeys(H, cs) && c in cs
    requires |payload| % 32 == 0 && n <= MAX_SIZE && i < MAX_SIZE
    ensures var m', k := StoreElements(H, m, c, payload, n), SlotKey(H, Element(c, i));
            if i < n then k in m' && m'[k] == ElementBytes(payload, i) else SameAt(m, m', k)
  {
    hide DistinctDigests, DistinctKeys, SlotKey, ElementBytes;
    if n > 0 {
      StoreElementsAt(H, cs, m, c, payload, n - 1, i);
      KeysDistinct(H, cs, Element(c, i), Element(c, n - 1));
    }
  }

  /** What one hint does to one element: stores it, or leaves it alone. */
  lemma ElementAfterHint<Key>(
      H: Hashes<Key>, cs: set<AltDACommitment>, m: map<Key, seq<byte>>, h: Hint, c: AltDACommitment, i: nat)
    requires DistinctDigests(H, cs) && DistinctKeys(H, cs) && c in cs && i < MAX_SIZE
    requires TryFrom(h.bytes).Success? ==> TryFrom(h.bytes).value in cs
    ensures var m', k := HintEffect(H, m, h.bytes, h.response), SlotKey(H, Element(c, i));
            SameAt(m, m', k) || (k in m' && StoredFrom(h, c, i, m'[k]))
  {
    hide DistinctDigests, DistinctKeys, SlotKey, TryFrom, PayloadOutcome, ElementBytes, StoreElements;
    if TryFrom(h.bytes).Success? && h.response.Some? {
      var d, stage := TryFrom(h.bytes).value, h.response.value;
      var m' := StoreValidity(H, m, d, stage.isValidCert);
      if d != c {
        FrameOfHint(H, cs, m, d, stage, Element(c, i));
      } else {
        KeysDistinct(H, cs, Element(c, i), Validity(c));
        if PayloadOutcome(stage.encodedPayload) == Done {
          PayloadShape(stage.encodedPayload);
          ShortEnough(c);
          StoreElementsAt(H, cs, m', c, stage.encodedPayload, GetNumFieldElement(c), i);
        }
      }
    }
  }

  lemma ShortEnough(c: AltDACommitment)
    ensures GetNumFieldElement(c) < MAX_SIZE
  {
    assert Pow256(4) < MAX_SIZE;
  }

  /** Every element in the store was put there by a hint about its own commitment. */
  lemma {:induction false} Provenance<Key>(
      H: Hashes<Key>, cs: set<AltDACommitment>, hints: seq<Hint>, c: AltDACommitment, i: nat)
    requires DistinctDigests(H, cs) && DistinctKeys(H, cs) && c in cs && i < MAX_SIZE
    requires forall j :: 0 <= j < |hints| && TryFrom(hints[j].bytes).Success? ==> TryFrom(hints[j].bytes).value in cs
    ensures var m, k := RunHints(H, hints), SlotKey(H, Element(c, i));
            k in m ==> exists h :: h in hints && StoredFrom(h, c, i, m[k])
  {
    hide DistinctDigests, DistinctKeys, SlotKey, TryFrom, HintEffect, StoredFrom;
    if hints != [] {
      var front, h := hints[..|hints| - 1], hints[|hints| - 1];
      Provenance(H, cs, front, c, i);
      ElementAfterHint(H, cs, RunHints(H, front), h, c, i);
      assert h in hints;
    }
  }

  lemma FitElement(payload: seq<byte>, n: nat, i: nat)
    requires |payload| % 32 == 0 && i < n
    ensures Fit(payload, n)[32 * i..32 * (i + 1)] == ElementBytes(payload, i)
  {
    if i < |payload| / 32 {
      assert 32 * (i + 1) <= |payload|;
    } else {
      assert 32 * i >= |payload|;
    }
  }

  // The range check

  lemma {:induction false} ShiftedMask(a: nat, m: nat)
    ensures BitAnd(a, 2 * m) == 2 * BitAnd(a / 2, m)
  {
    assert (2 * m) / 2 == m && (2 * m) % 2 == 0;
  }

  lemma LowMask(a: nat)
    requires a < 8
    ensures BitAnd(a, 7) == a
  {
    assert BitAnd(a / 4, 1) == a / 4;
    assert BitAnd(a / 2, 3) == a / 2;
  }

  /** The mask `0b1110_0000` finds the bytes from 32 on. */
  lemma TopBitsClear(b: byte)
    ensures BitAnd(b, 224) == 0 <==> b < 32
  {
    hide BitAnd;
    ShiftedMask(b, 112);
    ShiftedMask(b / 2, 56);
    ShiftedMask(b / 4, 28);
    ShiftedMask(b / 8, 14);
    ShiftedMask(b / 16, 7);
    LowMask(b / 32);
    assert b / 2 / 2 == b / 4 && b / 4 / 2 == b / 8 && b / 8 / 2 == b / 16 && b / 16 / 2 == b / 32;
  }

  /** How storing a payload ends, by its bytes: it is stored exactly when it is not empty, consists of whole elements,
      and the mask `0b1110_0000` of the first byte of each is zero; the host panics exactly on the first two. */
  lemma OutcomeExactly(payload: seq<byte>)
    ensures PayloadOutcome(payload) == Panicked <==> payload == [] || |payload| % 32 != 0
    ensures PayloadOutcome(payload) == Done
            <==> payload != [] && |payload| % 32 == 0
                 && forall i :: 0 <= i < |payload| / 32 ==> BitAnd(payload[32 * i], 224) == 0
  {
    hide BitAnd;
    if |payload| % 32 == 0 {
      forall i | 0 <= i < |payload| / 32
        ensures BitAnd(payload[32 * i], 224) == 0 <==> payload[32 * i] < 32
      {
        TopBitsClear(payload[32 * i]);
      }
    }
  }
}

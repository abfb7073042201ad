/** EigenDA payload encoding version 0: a header element, then 31 payload bytes per field element. */
module Codec {
  import opened Prelude
  import opened Bytes

  const PAYLOAD_ENCODING_VERSION_0: byte := 0
  const BYTES_PER_FIELD_ELEMENT: nat := 32
  const ENCODED_PAYLOAD_HEADER_LEN_BYTES: nat := 32

  datatype DecodingError =
    | InvalidLengthEncodedPayload(len: nat)
    | InvalidPowerOfTwoLength(numFieldElements: nat)
    | InvalidHeaderFirstByte(first: byte)
    | PayloadTooShortForHeader(actual: nat)
    | UnknownEncodingVersion(version: byte)
    | DecodedPayloadBodyTooShort(bodyLen: nat, claimed: nat)
    | InvalidFirstByteFieldElementPadding(padding: byte)
    | InvalidEncodedPayloadBodyPadding(padding: byte)
    | InvalidEncodedPayloadHeaderPadding(padding: byte)

  function NumFieldElement(e: seq<byte>): nat {
    |e| / BYTES_PER_FIELD_ELEMENT
  }

  /** Whether a number is a power of two, by its bits. */
  predicate IsPowerOfTwoBits(n: nat) {
    n != 0 && BitAnd(n, n - 1) == 0
  }

  function CheckLenInvariant(e: seq<byte>): Result<(), DecodingError> {
    if |e| < ENCODED_PAYLOAD_HEADER_LEN_BYTES then
      Failure(PayloadTooShortForHeader(|e|))
    else if |e| % BYTES_PER_FIELD_ELEMENT != 0 then
      Failure(InvalidLengthEncodedPayload(|e|))
    else if !IsPowerOfTwoBits(|e| / BYTES_PER_FIELD_ELEMENT) then
      Failure(InvalidPowerOfTwoLength(|e| / BYTES_PER_FIELD_ELEMENT))
    else
      Success(())
  }

  /** Accepted lengths: a power of two of field elements. */
  lemma LenInvariant(e: seq<byte>)
    ensures CheckLenInvariant(e).Success? <==> exists k: nat :: |e| == 32 * Exp2(k)
  {
    var n := |e| / 32;
    if n > 0 {
      PowerOfTwoBits(n);
    }
    if CheckLenInvariant(e).Success? {
      var k: nat :| n == Exp2(k);
      assert |e| == 32 * Exp2(k);
    }
    if k: nat :| |e| == 32 * Exp2(k) {
      assert n == Exp2(k);
    }
  }

  // Scanning padding

  function FirstNonzero(s: seq<byte>): (r: Option<byte>)
    ensures r == None <==> s == Zeros(|s|)
  {
    if s == [] then None
    else if s[0] != 0 then
      assert s[0] != Zeros(|s|)[0];
      Some(s[0])
    else
      assert s == [0] + s[1..];
      assert s == Zeros(|s|) ==> s[1..] == Zeros(|s| - 1);
      FirstNonzero(s[1..])
  }

  method ScanPadding(s: seq<byte>) returns (r: Option<byte>)
    ensures r == FirstNonzero(s)
  {
    for i := 0 to |s|
      invariant FirstNonzero(s) == FirstNonzero(s[i..])
    {
      if s[i] != 0 {
        return Some(s[i]);
      }
    }
    return None;
  }

  // The header

  function DecodeHeader(e: seq<byte>): Result<nat, DecodingError> {
    if |e| < ENCODED_PAYLOAD_HEADER_LEN_BYTES then
      Failure(PayloadTooShortForHeader(|e|))
    else if e[0] != 0 then
      Failure(InvalidHeaderFirstByte(e[0]))
    else if e[1] != PAYLOAD_ENCODING_VERSION_0 then
      Failure(UnknownEncodingVersion(e[1]))
    else
      match FirstNonzero(e[6..ENCODED_PAYLOAD_HEADER_LEN_BYTES])
      case Some(b) => Failure(InvalidEncodedPayloadHeaderPadding(b))
      case None => Success(FromBytesBE(e[2..6]))
  }

  method ReadHeader(e: seq<byte>) returns (r: Result<nat, DecodingError>)
    ensures r == DecodeHeader(e)
  {
    if |e| < ENCODED_PAYLOAD_HEADER_LEN_BYTES {
      return Failure(PayloadTooShortForHeader(|e|));
    }
    if e[0] != 0 {
      return Failure(InvalidHeaderFirstByte(e[0]));
    }
    if e[1] != PAYLOAD_ENCODING_VERSION_0 {
      return Failure(UnknownEncodingVersion(e[1]));
    }
    var payloadLength := FromBytesBE(e[2..6]);
    var bad := ScanPadding(e[6..ENCODED_PAYLOAD_HEADER_LEN_BYTES]);
    if bad.Some? {
      return Failure(InvalidEncodedPayloadHeaderPadding(bad.value));
    }
    return Success(payloadLength);
  }

  // The body

  /** Removes the zero byte in front of every 31 bytes. */
  function StripPadding(body: seq<byte>): (r: Result<seq<byte>, DecodingError>)
    requires |body| % 32 == 0
  {
    if body == [] then
      Success([])
    else if body[0] != 0 then
      Failure(InvalidFirstByteFieldElementPadding(body[0]))
    else
      match StripPadding(body[32..])
      case Failure(err) => Failure(err)
      case Success(rest) => Success(body[1..32] + rest)
  }

  /** Puts a zero byte in front of every 31 bytes. */
  function Pad(x: seq<byte>): (s: seq<byte>)
    requires |x| % 31 == 0
    ensures 31 * |s| == 32 * |x|
  {
    if x == [] then [] else [0] + x[..31] + Pad(x[31..])
  }

  lemma ChunkIs(body: seq<byte>, head: seq<byte>, tail: seq<byte>)
    requires |body| >= 32 && |head| == 31
    ensures body == [0] + head + tail <==> body[0] == 0 && body[1..32] == head && body[32..] == tail
  {
    assert body == [body[0]] + body[1..32] + body[32..];
  }

  lemma JoinIs(x: seq<byte>, head: seq<byte>, tail: seq<byte>)
    requires |x| >= |head|
    ensures x == head + tail <==> x[..|head|] == head && x[|head|..] == tail
  {
    assert x == x[..|head|] + x[|head|..];
  }

  lemma {:induction false} StripLength(body: seq<byte>)
    requires |body| % 32 == 0 && StripPadding(body).Success?
    ensures 32 * |StripPadding(body).value| == 31 * |body|
  {
    if body != [] {
      StripLength(body[32..]);
    }
  }

  ghost function Prepend(front: seq<byte>, r: Result<seq<byte>, DecodingError>): Result<seq<byte>, DecodingError> {
    match r
    case Failure(err) => Failure(err)
    case Success(rest) => Success(front + rest)
  }

  lemma StripFirst(body: seq<byte>)
    requires |body| % 32 == 0 && body != []
    ensures StripPadding(body)
            == if body[0] != 0 then Failure(InvalidFirstByteFieldElementPadding(body[0]))
               else Prepend(body[1..32], StripPadding(body[32..]))
  {
  }

  lemma StripNothing()
    ensures StripPadding([]) == Success([])
  {
  }

  lemma PadFirst(x: seq<byte>)
    requires |x| % 31 == 0 && x != []
    ensures Pad(x) == [0] + x[..31] + Pad(x[31..])
  {
  }

  /** Stripping inverts padding, and accepts nothing else. */
  lemma {:induction false} StripIsInverse(body: seq<byte>, x: seq<byte>)
    requires |body| % 32 == 0
    ensures StripPadding(body) == Success(x) <==> |x| % 31 == 0 && body == Pad(x)
  {
    hide StripPadding, Pad;
    if body == [] {
      StripNothing();
    } else {
      StripFirst(body);
      if StripPadding(body).Success? {
        StripLength(body);
      }
      if |x| >= 31 {
        var stripped := StripPadding(body[32..]);
        StripIsInverse(body[32..], x[31..]);
        if |x| % 31 == 0 {
          PadFirst(x);
          ChunkIs(body, x[..31], Pad(x[31..]));
        }
        if stripped.Success? {
          JoinIs(x, body[1..32], stripped.value);
        }
      }
    }
  }

  lemma PrependTwice(front: seq<byte>, next: seq<byte>, r: Result<seq<byte>, DecodingError>)
    ensures Prepend(front, Prepend(next, r)) == Prepend(front + next, r)
    ensures Prepend([], r) == r
  {
    if r.Success? {
      assert front + (next + r.value) == (front + next) + r.value && [] + r.value == r.value;
    }
  }

  lemma StripStep(body: seq<byte>, i: nat)
    requires |body| % 32 == 0 && 32 * (i + 1) <= |body|
    ensures StripPadding(body[32 * i..])
            == if body[32 * i] != 0 then Failure(InvalidFirstByteFieldElementPadding(body[32 * i]))
               else Prepend(body[32 * i..32 * (i + 1)][1..32], StripPadding(body[32 * (i + 1)..]))
  {
    SliceOfDrop(body, 32 * i, 32, 32);
    SliceOfDrop(body, 32 * i, 1, 32);
    SliceOfSlice(body, 32 * i, 32 * (i + 1), 1, 32);
    assert 32 * i + 32 == 32 * (i + 1);
  }

  method CheckAndRemoveZeroPadding(body: seq<byte>) returns (r: Result<seq<byte>, DecodingError>)
    ensures r == if |body| % 32 != 0 then Failure(InvalidLengthEncodedPayload(|body|)) else StripPadding(body)
  {
    if |body| % BYTES_PER_FIELD_ELEMENT != 0 {
      return Failure(InvalidLengthEncodedPayload(|body|));
    }
    var decodedBody: seq<byte> := [];
    ghost var goal := StripPadding(body);
    assert body[32 * 0..] == body;
    PrependTwice([], [], goal);
    for i := 0 to |body| / BYTES_PER_FIELD_ELEMENT
      invariant goal == Prepend(decodedBody, StripPadding(body[32 * i..]))
    {
      hide StripPadding;
      var chunk := body[32 * i..32 * (i + 1)];
      StripStep(body, i);
      if chunk[0] != 0 {
        return Failure(InvalidFirstByteFieldElementPadding(chunk[0]));
      }
      PrependTwice(decodedBody, chunk[1..32], StripPadding(body[32 * (i + 1)..]));
      decodedBody := decodedBody + chunk[1..32];
    }
    assert decodedBody + [] == decodedBody;
    return Success(decodedBody);
  }

  function DecodePayload(e: seq<byte>, payloadLen: nat): Result<seq<byte>, DecodingError>
    requires |e| >= 32 && |e| % 32 == 0
  {
    match StripPadding(e[32..])
    case Failure(err) => Failure(err)
    case Success(decodedBody) =>
      if |decodedBody| < payloadLen then
        Failure(DecodedPayloadBodyTooShort(|decodedBody|, payloadLen))
      else
        match FirstNonzero(decodedBody[payloadLen..])
        case Some(b) => Failure(InvalidEncodedPayloadBodyPadding(b))
        case None => Success(decodedBody[..payloadLen])
  }

  function Decode(e: seq<byte>): Result<seq<byte>, DecodingError> {
    match CheckLenInvariant(e)
    case Failure(err) => Failure(err)
    case Success(_) =>
      match DecodeHeader(e)
      case Failure(err) => Failure(err)
      case Success(payloadLen) => DecodePayload(e, payloadLen)
  }

  method DecodeEncodedPayload(e: seq<byte>) returns (r: Result<seq<byte>, DecodingError>)
    ensures r == Decode(e)
  {
    hide FirstNonzero, StripPadding, DecodeHeader, IsPowerOfTwoBits;
    var len := CheckLenInvariant(e);
    if len.Failure? {
      return Failure(len.error);
    }
    var header := ReadHeader(e);
    if header.Failure? {
      return Failure(header.error);
    }
    var payloadLen := header.value;
    var body := CheckAndRemoveZeroPadding(e[ENCODED_PAYLOAD_HEADER_LEN_BYTES..]);
    if body.Failure? {
      return Failure(body.error);
    }
    var decodedBody := body.value;
    if |decodedBody| < payloadLen {
      return Failure(DecodedPayloadBodyTooShort(|decodedBody|, payloadLen));
    }
    var bad := ScanPadding(decodedBody[payloadLen..]);
    if bad.Some? {
      return Failure(InvalidEncodedPayloadBodyPadding(bad.value));
    }
    return Success(decodedBody[..payloadLen]);
  }

  // The reference encoder

  function Header(len: nat): (s: seq<byte>)
    ensures |s| == 32
  {
    [0, PAYLOAD_ENCODING_VERSION_0] + ToBytesBE(len, 4) + Zeros(26)
  }

  /** The version-0 encoding of `p`, zero-extended to `n` field elements. */
  function Encode(p: seq<byte>, n: nat): (e: seq<byte>)
    requires n > 0 && |p| <= 31 * (n - 1)
    ensures |e| == 32 * n
  {
    Header(|p|) + Pad(p + Zeros(31 * (n - 1) - |p|))
  }

  lemma HeaderParts(len: nat)
    ensures Header(len)[0] == 0 && Header(len)[1] == PAYLOAD_ENCODING_VERSION_0
    ensures Header(len)[2..6] == ToBytesBE(len, 4) && Header(len)[6..32] == Zeros(26)
  {
    hide ToBytesBE;
  }

  lemma HeaderIsInverse(e: seq<byte>, len: nat)
    requires |e| >= 32
    ensures DecodeHeader(e) == Success(len) <==> len < 0x1_0000_0000 && e[..32] == Header(len)
  {
    assert Pow256(4) == 0x1_0000_0000;
    if DecodeHeader(e) == Success(len) {
      FromBytesBound(e[2..6]);
      ToFromBytes(e[2..6]);
      assert e[..32] == [e[0], e[1]] + e[2..6] + e[6..32];
    }
    if len < 0x1_0000_0000 && e[..32] == Header(len) {
      FromToBytes(len, 4);
      SliceOfSlice(e, 0, 32, 2, 6);
      SliceOfSlice(e, 0, 32, 6, 32);
      HeaderParts(len);
      assert e[0] == e[..32][0] && e[1] == e[..32][1];
    }
  }

  /** What is left after the payload is zero exactly when the body is the payload followed by zeros. */
  lemma BodyIsInverse(body: seq<byte>, p: seq<byte>)
    ensures |p| <= |body| && FirstNonzero(body[|p|..]) == None && body[..|p|] == p
            <==> |p| <= |body| && body == p + Zeros(|body| - |p|)
  {
    if |p| <= |body| {
      assert body == body[..|p|] + body[|p|..];
    }
  }

  /** `e` decodes to `p` exactly when `e` is the encoding of `p`, a payload whose length fits 32 bits,
      zero-extended to a power of two of field elements. */
  lemma DecodeCanonical(e: seq<byte>, p: seq<byte>)
    ensures Decode(e) == Success(p)
            <==> |p| < 0x1_0000_0000
                 && exists k: nat :: |p| <= 31 * (Exp2(k) - 1) && e == Encode(p, Exp2(k))
  {
    LenInvariant(e);
    if CheckLenInvariant(e).Success? {
      var k: nat :| |e| == 32 * Exp2(k);
      CanonicalAt(e, p, k);
      forall j: nat | |p| <= 31 * (Exp2(j) - 1) && e == Encode(p, Exp2(j))
        ensures j == k
      {
        Exp2Injective(j, k);
      }
    } else {
      forall j: nat | |p| <= 31 * (Exp2(j) - 1)
        ensures e != Encode(p, Exp2(j))
      {
        assert |Encode(p, Exp2(j))| == 32 * Exp2(j);
      }
    }
  }

  lemma CanonicalAt(e: seq<byte>, p: seq<byte>, k: nat)
    requires |e| == 32 * Exp2(k)
    ensures Decode(e) == Success(p)
            <==> |p| < 0x1_0000_0000 && |p| <= 31 * (Exp2(k) - 1) && e == Encode(p, Exp2(k))
  {
    hide Pad, Header, FirstNonzero, StripPadding, CheckLenInvariant, DecodeHeader, Exp2;
    LenInvariant(e);
    var n := Exp2(k);
    var body := e[32..];
    assert e == e[..32] + body;
    HeaderIsInverse(e, |p|);
    if Decode(e) == Success(p) {
      var stripped := StripPadding(body).value;
      StripIsInverse(body, stripped);
      BodyIsInverse(stripped, p);
    }
    if |p| < 0x1_0000_0000 && |p| <= 31 * (n - 1) && e == Encode(p, n) {
      var stripped := p + Zeros(31 * (n - 1) - |p|);
      assert e[..32] == Header(|p|) && body == Pad(stripped);
      StripIsInverse(body, stripped);
      BodyIsInverse(stripped, p);
    }
  }

  /** Encoding and decoding is lossless, whatever the padded size. */
  lemma RoundTrip(p: seq<byte>, k: nat)
    requires |p| < 0x1_0000_0000 && |p| <= 31 * (Exp2(k) - 1)
    ensures Decode(Encode(p, Exp2(k))) == Success(p)
  {
    DecodeCanonical(Encode(p, Exp2(k)), p);
  }

  /** No two accepted strings of the same length carry the same payload. */
  lemma DecodeInjective(e: seq<byte>, f: seq<byte>)
    requires |e| == |f| && Decode(e).Success? && Decode(e) == Decode(f)
    ensures e == f
  {
    var p := Decode(e).value;
    DecodeCanonical(e, p);
    DecodeCanonical(f, p);
    var j: nat :| |p| <= 31 * (Exp2(j) - 1) && e == Encode(p, Exp2(j));
    var k: nat :| |p| <= 31 * (Exp2(k) - 1) && f == Encode(p, Exp2(k));
    assert Exp2(j) == Exp2(k);
  }

  lemma OneZero()
    ensures Zeros(1) == [0] && Pad([]) == [] && Zeros(0) == []
  {
  }

  lemma {:induction false} PadOfZeros(m: nat)
    ensures (31 * m) % 31 == 0 && Pad(Zeros(31 * m)) == Zeros(32 * m)
  {
    if m > 0 {
      hide Zeros, Pad;
      PadOfZeros(m - 1);
      assert 31 * m == 31 + 31 * (m - 1);
      ZerosSplit(31, 31 * (m - 1));
      PadFirst(Zeros(31 * m));
      OneZero();
      ZerosSplit(1, 31);
      ZerosSplit(32, 32 * (m - 1));
    }
  }

  lemma {:induction false} PadConcat(x: seq<byte>, y: seq<byte>)
    requires |x| % 31 == 0 && |y| % 31 == 0
    ensures Pad(x + y) == Pad(x) + Pad(y)
  {
    if x == [] {
      assert x + y == y;
    } else {
      PadConcat(x[31..], y);
      SliceOfSum(x, y, 31);
    }
  }

  /** Encoding into more field elements only adds zeros. */
  lemma EncodeExtends(p: seq<byte>, m: nat, n: nat)
    requires 0 < m <= n && |p| <= 31 * (m - 1)
    ensures Encode(p, n) == Encode(p, m) + Zeros(32 * (n - m))
  {
    var x := p + Zeros(31 * (m - 1) - |p|);
    PadOfZeros(n - m);
    PadConcat(x, Zeros(31 * (n - m)));
    assert x + Zeros(31 * (n - m)) == p + Zeros(31 * (n - 1) - |p|);
  }
}

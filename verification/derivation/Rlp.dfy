/** Recursive length prefix encoding (Appendix B of the Ethereum Yellow Paper), decoded strictly:
    minimal lengths, no leading zeros in integers, every list consumed exactly. */
module Rlp {
  import opened Prelude
  import opened Bytes

  /** The shape a derived decoder expects: integers of bounded width, byte arrays of fixed length,
      byte strings, lists of one shape, and structs as lists of their fields. */
  datatype Schema =
    | Uint(width: nat)
    | Fixed(len: nat)
    | Blob
    | ListOf(elem: Schema)
    | Struct(fields: seq<Schema>)

  datatype Item =
    | Num(value: nat)
    | Str(bytes: seq<byte>)
    | List(items: seq<Item>)

  ghost predicate Conforms(i: Item, s: Schema)
    decreases i
  {
    match s
    case Uint(width) => i.Num? && i.value < Pow256(width)
    case Fixed(len) => i.Str? && |i.bytes| == len
    case Blob => i.Str?
    case ListOf(elem) => i.List? && forall k :: 0 <= k < |i.items| ==> Conforms(i.items[k], elem)
    case Struct(fields) =>
      i.List? && |i.items| == |fields| && forall k :: 0 <= k < |fields| ==> Conforms(i.items[k], fields[k])
  }

  // Minimal big-endian integers

  function MinimalBE(n: nat): seq<byte> {
    if n == 0 then [] else MinimalBE(n / 256) + [n % 256]
  }

  ghost predicate NoLeadingZero(s: seq<byte>) {
    s != [] ==> s[0] != 0
  }

  lemma {:induction false} MinimalOf(n: nat)
    ensures FromBytesBE(MinimalBE(n)) == n && NoLeadingZero(MinimalBE(n))
  {
    if n > 0 {
      MinimalOf(n / 256);
      assert MinimalBE(n)[..|MinimalBE(n)| - 1] == MinimalBE(n / 256);
      if n < 256 {
        assert MinimalBE(n / 256) == [];
      } else {
        assert MinimalBE(n)[0] == MinimalBE(n / 256)[0];
      }
    }
  }

  lemma DivMod256(q: nat, r: byte)
    ensures (q * 256 + r) / 256 == q && (q * 256 + r) % 256 == r
  {
  }

  lemma PrefixKeepsLead(s: seq<byte>)
    requires s != [] && NoLeadingZero(s)
    ensures NoLeadingZero(s[..|s| - 1])
  {
  }

  lemma {:induction false} MinimalUnique(s: seq<byte>)
    requires NoLeadingZero(s)
    ensures MinimalBE(FromBytesBE(s)) == s
    ensures s != [] ==> FromBytesBE(s) > 0
  {
    if s != [] {
      var t, last := s[..|s| - 1], s[|s| - 1];
      PrefixKeepsLead(s);
      MinimalUnique(t);
      assert t == [] ==> last == s[0] && last != 0;
      hide NoLeadingZero;
      var n := FromBytesBE(s);
      DivMod256(FromBytesBE(t), last);
      assert n / 256 == FromBytesBE(t) && n % 256 == last && n > 0;
      assert s == t + [last];
    }
  }

  lemma {:induction false} MinimalWidth(n: nat, w: nat)
    ensures |MinimalBE(n)| <= w <==> n < Pow256(w)
  {
    if n > 0 && w > 0 {
      MinimalWidth(n / 256, w - 1);
    }
  }

  // Headers

  const MAX_SIZE: nat := 0x1_0000_0000_0000_0000

  /** The prefix of a string (base 0x80) or list (base 0xc0) of `n` payload bytes; `n` fits 64 bits,
      so the length takes at most eight bytes and the sum never wraps. */
  function LengthPrefix(base: nat, n: nat): seq<byte> {
    if n <= 55 then [(base + n) % 256]
    else [(base + 55 + |MinimalBE(n)|) % 256] + MinimalBE(n)
  }

  function EncodeString(b: seq<byte>): seq<byte> {
    if |b| == 1 && b[0] < 0x80 then b else LengthPrefix(0x80, |b|) + b
  }

  function EncodeList(payload: seq<byte>): seq<byte> {
    LengthPrefix(0xc0, |payload|) + payload
  }

  function EncodePayload(list: bool, payload: seq<byte>): seq<byte> {
    if list then EncodeList(payload) else EncodeString(payload)
  }

  /** A decoded header with the bytes it announces and what follows them. */
  datatype Header = Header(list: bool, payload: seq<byte>, rest: seq<byte>)

  function SplitPayload(list: bool, buf: seq<byte>, n: nat): (h: Option<Header>)
    ensures h.Some? ==> h.value.payload + h.value.rest == buf
    ensures h.Some? ==> |h.value.payload| == n && h.value.list == list
  {
    if |buf| < n then None else Some(Header(list, buf[..n], buf[n..]))
  }

  /** A length of its own `lenOfLen` bytes, which must not be zero-led or small enough for the short form. */
  function SplitLong(list: bool, lenOfLen: nat, tail: seq<byte>): (h: Option<Header>)
    ensures h.Some? ==> |h.value.rest| <= |tail| && |h.value.payload| <= |tail| && h.value.list == list
  {
    if |tail| < lenOfLen || lenOfLen == 0 || tail[0] == 0 then None
    else
      var n := FromBytesBE(tail[..lenOfLen]);
      if n < 56 then None else SplitPayload(list, tail[lenOfLen..], n)
  }

  function DecodeHeader(buf: seq<byte>): (h: Option<Header>)
    ensures h.Some? ==> |h.value.rest| < |buf| && |h.value.payload| <= |buf|
  {
    if buf == [] then None
    else
      var b, tail := buf[0], buf[1..];
      if b < 0x80 then
        Some(Header(false, buf[..1], tail))
      else if b <= 0xb7 then
        if b == 0x81 && tail != [] && tail[0] < 0x80 then None else SplitPayload(false, tail, b - 0x80)
      else if b <= 0xbf then
        SplitLong(false, b - 0xb7, tail)
      else if b <= 0xf7 then
        SplitPayload(true, tail, b - 0xc0)
      else
        SplitLong(true, b - 0xf7, tail)
  }

  /** A header decodes from exactly the bytes that encode it. */
  lemma HeaderIsInverse(buf: seq<byte>, list: bool, payload: seq<byte>, rest: seq<byte>)
    requires |buf| < MAX_SIZE
    ensures DecodeHeader(buf) == Some(Header(list, payload, rest)) <==> buf == EncodePayload(list, payload) + rest
  {
    if DecodeHeader(buf) == Some(Header(list, payload, rest)) {
      DecodedHeaderEncodes(buf, list, payload, rest);
    }
    if buf == EncodePayload(list, payload) + rest {
      EncodedHeaderDecodes(buf, list, payload, rest);
    }
  }

  lemma Concat(a: seq<byte>, b: seq<byte>, c: seq<byte>)
    ensures a + (b + c) == (a + b) + c
  {
  }

  lemma SplitPayloadIsInverse(list: bool, tail: seq<byte>, n: nat, payload: seq<byte>, rest: seq<byte>)
    ensures SplitPayload(list, tail, n) == Some(Header(list, payload, rest))
            <==> |payload| == n && tail == payload + rest
  {
    if tail == payload + rest && |payload| == n {
      SliceOfSum(payload, rest, n);
      assert payload[n..] + rest == rest && payload[..n] == payload;
    }
  }

  lemma SplitLongIsInverse(list: bool, lenOfLen: nat, tail: seq<byte>, payload: seq<byte>, rest: seq<byte>)
    requires lenOfLen > 0
    ensures SplitLong(list, lenOfLen, tail) == Some(Header(list, payload, rest))
            <==> |payload| > 55 && |MinimalBE(|payload|)| == lenOfLen && tail == MinimalBE(|payload|) + (payload + rest)
  {
    var len := MinimalBE(|payload|);
    MinimalOf(|payload|);
    hide MinimalBE, FromBytesBE, SplitPayload;
    if lenOfLen <= |tail| {
      var l, t := tail[..lenOfLen], tail[lenOfLen..];
      assert tail == l + t && (tail[0] == l[0]);
      SplitPayloadIsInverse(list, t, FromBytesBE(l), payload, rest);
      if NoLeadingZero(l) {
        MinimalUnique(l);
      }
      if tail == len + (payload + rest) && |len| == lenOfLen {
        SliceOfSum(len, payload + rest, lenOfLen);
        assert l == len && len[lenOfLen..] + (payload + rest) == payload + rest;
      }
    }
  }

  lemma DecodedHeaderEncodes(buf: seq<byte>, list: bool, payload: seq<byte>, rest: seq<byte>)
    requires |buf| < MAX_SIZE
    requires DecodeHeader(buf) == Some(Header(list, payload, rest))
    ensures buf == EncodePayload(list, payload) + rest
  {
    hide MinimalBE, FromBytesBE, SplitPayload, SplitLong;
    var b := buf[0];
    if b < 0x80 {
      assert buf == payload + rest;
    } else if b <= 0xb7 || 0xc0 <= b <= 0xf7 {
      DecodedShortEncodes(buf, list, payload, rest);
    } else {
      DecodedLongEncodes(buf, list, payload, rest);
    }
  }

  lemma DecodedShortEncodes(buf: seq<byte>, list: bool, payload: seq<byte>, rest: seq<byte>)
    requires DecodeHeader(buf) == Some(Header(list, payload, rest))
    requires 0x80 <= buf[0] <= 0xb7 || 0xc0 <= buf[0] <= 0xf7
    ensures buf == EncodePayload(list, payload) + rest
  {
    hide MinimalBE, FromBytesBE, SplitPayload, SplitLong;
    var b, tail := buf[0], buf[1..];
    assert buf == [b] + tail;
    SplitPayloadIsInverse(list, tail, b - if list then 0xc0 else 0x80, payload, rest);
    Concat([b], payload, rest);
    if b == 0x81 {
      assert tail[0] == payload[0];
    }
  }

  lemma DecodedLongEncodes(buf: seq<byte>, list: bool, payload: seq<byte>, rest: seq<byte>)
    requires |buf| < MAX_SIZE
    requires DecodeHeader(buf) == Some(Header(list, payload, rest))
    requires 0xb8 <= buf[0] < 0xc0 || 0xf8 <= buf[0]
    ensures buf == EncodePayload(list, payload) + rest
  {
    hide MinimalBE, FromBytesBE, SplitPayload, SplitLong;
    var b, tail, len := buf[0], buf[1..], MinimalBE(|payload|);
    assert buf == [b] + tail;
    SplitLongIsInverse(list, b - (if list then 0xc0 else 0x80) - 55, tail, payload, rest);
    Concat([b], len, payload + rest);
    Concat([b] + len, payload, rest);
  }

  lemma EncodedHeaderDecodes(buf: seq<byte>, list: bool, payload: seq<byte>, rest: seq<byte>)
    requires |buf| < MAX_SIZE
    requires buf == EncodePayload(list, payload) + rest
    ensures DecodeHeader(buf) == Some(Header(list, payload, rest))
  {
    hide MinimalBE, FromBytesBE, SplitPayload, SplitLong;
    var n, base := |payload|, if list then 0xc0 else 0x80;
    if !list && n == 1 && payload[0] < 0x80 {
      assert buf[..1] == payload && buf[1..] == rest;
    } else if n <= 55 {
      ShortHeaderDecodes(buf, list, payload, rest);
    } else {
      LongHeaderDecodes(buf, list, payload, rest);
    }
  }

  lemma ShortHeaderDecodes(buf: seq<byte>, list: bool, payload: seq<byte>, rest: seq<byte>)
    requires |payload| <= 55 && (!list && |payload| == 1 ==> payload[0] >= 0x80)
    requires buf == (LengthPrefix(if list then 0xc0 else 0x80, |payload|) + payload) + rest
    ensures DecodeHeader(buf) == Some(Header(list, payload, rest))
  {
    var n, base := |payload|, if list then 0xc0 else 0x80;
    hide MinimalBE, FromBytesBE, SplitPayload, SplitLong;
    assert LengthPrefix(base, n) == [base + n];
    hide LengthPrefix;
    Concat([base + n], payload, rest);
    assert buf[1..] == payload + rest;
    SplitPayloadIsInverse(list, buf[1..], n, payload, rest);
    if n == 1 {
      assert buf[1..][0] == payload[0];
    }
  }

  lemma LongHeaderDecodes(buf: seq<byte>, list: bool, payload: seq<byte>, rest: seq<byte>)
    requires |buf| < MAX_SIZE && |payload| > 55
    requires buf == (LengthPrefix(if list then 0xc0 else 0x80, |payload|) + payload) + rest
    ensures DecodeHeader(buf) == Some(Header(list, payload, rest))
  {
    var n, base := |payload|, if list then 0xc0 else 0x80;
    var len := MinimalBE(n);
    assert Pow256(8) == MAX_SIZE;
    MinimalWidth(n, 8);
    MinimalOf(n);
    hide MinimalBE, FromBytesBE, Pow256, SplitPayload, SplitLong;
    var b: byte := base + 55 + |len|;
    assert LengthPrefix(base, n) == [b] + len;
    hide LengthPrefix;
    Concat([b] + len, payload, rest);
    Concat([b], len, payload + rest);
    assert buf == [b] + (len + (payload + rest));
    assert buf[1..] == len + (payload + rest);
    SplitLongIsInverse(list, |len|, buf[1..], payload, rest);
  }

  // Items

  function Encode(i: Item): (e: seq<byte>)
    ensures |e| > 0
    decreases i
  {
    match i
    case Num(n) => EncodeString(MinimalBE(n))
    case Str(b) => EncodeString(b)
    case List(items) => EncodeList(EncodeAll(items))
  }

  function EncodeAll(items: seq<Item>): seq<byte>
    decreases items
  {
    if items == [] then [] else Encode(items[0]) + EncodeAll(items[1..])
  }

  type Decoded = Option<(Item, seq<byte>)>

  /** Decodes one value of the given shape from the front of `buf`. */
  function Decode(s: Schema, buf: seq<byte>): (r: Decoded)
    ensures r.Some? ==> |r.value.1| < |buf|
    decreases s, 0, 0
  {
    match DecodeHeader(buf)
    case None => None
    case Some(h) =>
      match s
      case Uint(width) =>
        if h.list || |h.payload| > width || (h.payload != [] && h.payload[0] == 0) then None
        else Some((Num(FromBytesBE(h.payload)), h.rest))
      case Fixed(len) =>
        if h.list || |h.payload| != len then None else Some((Str(h.payload), h.rest))
      case Blob =>
        if h.list then None else Some((Str(h.payload), h.rest))
      case ListOf(elem) =>
        if !h.list then None
        else
          var items := DecodeEach(elem, h.payload);
          if items == None then None else Some((List(items.value), h.rest))
      case Struct(fields) =>
        if !h.list then None
        else
          var items := DecodeFields(fields, h.payload);
          if items == None then None else Some((List(items.value), h.rest))
  }

  /** Values of one shape until the payload is used up. */
  function DecodeEach(elem: Schema, payload: seq<byte>): Option<seq<Item>>
    decreases elem, 1, |payload|
  {
    if payload == [] then Some([])
    else
      match Decode(elem, payload)
      case None => None
      case Some((i, rest)) =>
        var items := DecodeEach(elem, rest);
        if items == None then None else Some([i] + items.value)
  }

  /** The fields in order; nothing may be left over. */
  function DecodeFields(fields: seq<Schema>, payload: seq<byte>): Option<seq<Item>>
    decreases fields, 0, 0
  {
    if fields == [] then
      if payload == [] then Some([]) else None
    else
      match Decode(fields[0], payload)
      case None => None
      case Some((i, rest)) =>
        var items := DecodeFields(fields[1..], rest);
        if items == None then None else Some([i] + items.value)
  }

  /** Decoding accepts exactly the encodings of values of the expected shape, and returns the value. */
  lemma {:induction false} DecodeIsInverse(s: Schema, buf: seq<byte>, i: Item, rest: seq<byte>)
    requires |buf| < MAX_SIZE
    ensures Decode(s, buf) == Some((i, rest)) <==> Conforms(i, s) && buf == Encode(i) + rest
    decreases s, 0, 0
  {
    if Decode(s, buf) == Some((i, rest)) {
      var h := DecodeHeader(buf).value;
      HeaderIsInverse(buf, h.list, h.payload, h.rest);
      match s
      case Uint(width) =>
        MinimalUnique(h.payload);
        MinimalWidth(i.value, width);
      case Fixed(len) =>
      case Blob =>
      case ListOf(elem) => EachIsInverse(elem, h.payload, i.items);
      case Struct(fields) => FieldsAreInverse(fields, h.payload, i.items);
    }
    if Conforms(i, s) && buf == Encode(i) + rest {
      match s
      case Uint(width) =>
        HeaderIsInverse(buf, false, MinimalBE(i.value), rest);
        MinimalOf(i.value);
        MinimalWidth(i.value, width);
      case Fixed(len) => HeaderIsInverse(buf, false, i.bytes, rest);
      case Blob => HeaderIsInverse(buf, false, i.bytes, rest);
      case ListOf(elem) =>
        HeaderIsInverse(buf, true, EncodeAll(i.items), rest);
        EachIsInverse(elem, EncodeAll(i.items), i.items);
      case Struct(fields) =>
        HeaderIsInverse(buf, true, EncodeAll(i.items), rest);
        FieldsAreInverse(fields, EncodeAll(i.items), i.items);
    }
  }

  ghost predicate ConformEach(items: seq<Item>, elem: Schema) {
    forall k :: 0 <= k < |items| ==> Conforms(items[k], elem)
  }

  ghost predicate ConformFields(items: seq<Item>, fields: seq<Schema>) {
    |items| == |fields| && forall k :: 0 <= k < |fields| ==> Conforms(items[k], fields[k])
  }

  /** What conforming to a struct shape gives, field by field. */
  lemma OpenStruct(i: Item, fields: seq<Schema>)
    ensures Conforms(i, Struct(fields)) <==> i.List? && ConformFields(i.items, fields)
  {
  }

  lemma ConformSplit(items: seq<Item>, elem: Schema, fields: seq<Schema>)
    requires items != []
    ensures ConformEach(items, elem) <==> Conforms(items[0], elem) && ConformEach(items[1..], elem)
    ensures ConformFields(items, fields)
            <==> fields != [] && Conforms(items[0], fields[0]) && ConformFields(items[1..], fields[1..])
  {
    hide Conforms;
    var more := items[1..];
    assert forall k :: 1 <= k < |items| ==> items[k] == more[k - 1];
    assert forall k :: 0 <= k < |more| ==> more[k] == items[k + 1];
    if fields != [] {
      var later := fields[1..];
      assert forall k :: 1 <= k < |fields| ==> fields[k] == later[k - 1];
      assert forall k :: 0 <= k < |later| ==> later[k] == fields[k + 1];
    }
  }

  lemma ConformEmpty(elem: Schema, fields: seq<Schema>)
    ensures ConformEach([], elem)
    ensures ConformFields([], fields) <==> fields == []
  {
  }

  lemma EncodeAllCons(items: seq<Item>)
    requires items != []
    ensures EncodeAll(items) == Encode(items[0]) + EncodeAll(items[1..])
  {
  }

  lemma {:induction false} EachIsInverse(elem: Schema, payload: seq<byte>, items: seq<Item>)
    requires |payload| < MAX_SIZE
    ensures DecodeEach(elem, payload) == Some(items) <==> ConformEach(items, elem) && payload == EncodeAll(items)
    decreases elem, 1, |payload|
  {
    hide Conforms, Decode, Encode, ConformEach, ConformFields;
    ConformEmpty(elem, []);
    if items != [] {
      EncodeAllCons(items);
    }
    if payload != [] && items != [] {
      var i, more := items[0], items[1..];
      assert [i] + more == items;
      ConformSplit(items, elem, []);
      if DecodeEach(elem, payload) == Some(items) {
        var rest := Decode(elem, payload).value.1;
        DecodeIsInverse(elem, payload, i, rest);
        EachIsInverse(elem, rest, more);
      }
      if ConformEach(items, elem) && payload == EncodeAll(items) {
        DecodeIsInverse(elem, payload, i, EncodeAll(more));
        EachIsInverse(elem, EncodeAll(more), more);
      }
    }
  }

  lemma {:induction false} FieldsAreInverse(fields: seq<Schema>, payload: seq<byte>, items: seq<Item>)
    requires |payload| < MAX_SIZE
    ensures DecodeFields(fields, payload) == Some(items)
            <==> ConformFields(items, fields) && payload == EncodeAll(items)
    decreases fields, 0, 0
  {
    hide Conforms, Decode, Encode, ConformEach, ConformFields;
    if items == [] {
      ConformEmpty(Blob, fields);
    } else if fields != [] {
      var i, more, s, later := items[0], items[1..], fields[0], fields[1..];
      ConformSplit(items, s, fields);
      EncodeAllCons(items);
      if DecodeFields(fields, payload) == Some(items) {
        var rest := Decode(s, payload).value.1;
        DecodeIsInverse(s, payload, i, rest);
        FieldsAreInverse(later, rest, more);
      }
      if ConformFields(items, fields) && payload == EncodeAll(items) {
        DecodeIsInverse(s, payload, i, EncodeAll(more));
        FieldsAreInverse(later, EncodeAll(more), more);
        assert DecodeFields(later, EncodeAll(more)) == Some(more);
        assert [i] + more == items;
      }
    } else {
      assert !ConformFields(items, fields) by {
        ConformSplit(items, Blob, fields);
      }
    }
  }

  /** Values of one shape have different encodings. */
  lemma EncodeInjective(s: Schema, i: Item, j: Item)
    requires Conforms(i, s) && Conforms(j, s)
    requires Encode(i) == Encode(j) && |Encode(i)| < MAX_SIZE
    ensures i == j
  {
    assert Encode(i) == Encode(i) + [] && Encode(j) == Encode(j) + [];
    DecodeIsInverse(s, Encode(i), i, []);
    DecodeIsInverse(s, Encode(i), j, []);
  }

  // Whatever decodes has the expected shape

  lemma {:induction false} Pow256Grows(j: nat, k: nat)
    requires j <= k
    ensures Pow256(j) <= Pow256(k)
  {
    if j < k {
      Pow256Grows(j, k - 1);
    }
  }

  lemma {:induction false} DecodeConforms(s: Schema, buf: seq<byte>)
    requires Decode(s, buf).Some?
    ensures Conforms(Decode(s, buf).value.0, s)
    decreases s, 0, 0
  {
    var h := DecodeHeader(buf).value;
    match s
    case Uint(width) =>
      FromBytesBound(h.payload);
      Pow256Grows(|h.payload|, width);
    case Fixed(len) =>
    case Blob =>
    case ListOf(elem) => EachConforms(elem, h.payload);
    case Struct(fields) => FieldsConform(fields, h.payload);
  }

  lemma {:induction false} EachConforms(elem: Schema, payload: seq<byte>)
    requires DecodeEach(elem, payload).Some?
    ensures ConformEach(DecodeEach(elem, payload).value, elem)
    decreases elem, 1, |payload|
  {
    hide Conforms, Decode;
    if payload != [] {
      DecodeConforms(elem, payload);
      EachConforms(elem, Decode(elem, payload).value.1);
    }
  }

  lemma {:induction false} FieldsConform(fields: seq<Schema>, payload: seq<byte>)
    requires DecodeFields(fields, payload).Some?
    ensures ConformFields(DecodeFields(fields, payload).value, fields)
    decreases fields, 0, 0
  {
    hide Conforms, Decode;
    if fields != [] {
      DecodeConforms(fields[0], payload);
      FieldsConform(fields[1..], Decode(fields[0], payload).value.1);
    }
  }
}

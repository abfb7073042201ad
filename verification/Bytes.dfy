/** Byte strings: fixed-width big-endian integers, flattening, overwriting a region. */
module Bytes {

  type byte = b: nat | b < 256

  lemma SliceOfSlice(s: seq<byte>, i: nat, j: nat, k: nat, l: nat)
    requires i <= j <= |s| && k <= l <= j - i
    ensures s[i..j][k..l] == s[i + k..i + l]
  {
    forall m | 0 <= m < l - k
      ensures s[i..j][k..l][m] == s[i + k..i + l][m]
    {
    }
  }

  lemma SliceOfDrop(s: seq<byte>, i: nat, k: nat, l: nat)
    requires i <= |s| && k <= l <= |s| - i
    ensures s[i..][k..l] == s[i + k..i + l] && s[i..][k..] == s[i + k..]
  {
    forall m | 0 <= m < l - k
      ensures s[i..][k..l][m] == s[i + k..i + l][m]
    {
    }
  }

  lemma SliceOfSum(x: seq<byte>, y: seq<byte>, k: nat)
    requires k <= |x|
    ensures (x + y)[k..] == x[k..] + y && (x + y)[..k] == x[..k]
  {
  }

  function Zeros(n: nat): (s: seq<byte>)
    ensures |s| == n
  {
    seq(n, _ => 0)
  }

  lemma ZerosSplit(m: nat, n: nat)
    ensures Zeros(m + n) == Zeros(m) + Zeros(n)
    ensures Zeros(m + n)[..m] == Zeros(m) && Zeros(m + n)[m..] == Zeros(n)
  {
  }

  function Pow256(n: nat): (p: nat)
    ensures p >= 1
  {
    if n == 0 then 1 else 256 * Pow256(n - 1)
  }

  lemma MulAssociates(a: nat, b: nat, c: nat)
    ensures (a * b) * c == a * (b * c)
  {
  }

  lemma {:induction false} Pow256Sum(j: nat, k: nat)
    ensures Pow256(j + k) == Pow256(j) * Pow256(k)
  {
    if j > 0 {
      Pow256Sum(j - 1, k);
      assert Pow256(j) == 256 * Pow256(j - 1) && Pow256(j + k) == 256 * Pow256(j - 1 + k);
      hide Pow256;
      MulAssociates(256, Pow256(j - 1), Pow256(k));
    }
  }

  /** The `n` low-order bytes of `x`, most significant first. */
  function ToBytesBE(x: nat, n: nat): (s: seq<byte>)
    ensures |s| == n
  {
    if n == 0 then [] else ToBytesBE(x / 256, n - 1) + [x % 256]
  }

  function FromBytesBE(s: seq<byte>): nat {
    if s == [] then 0 else FromBytesBE(s[..|s| - 1]) * 256 + s[|s| - 1]
  }

  lemma {:induction false} FromBytesBound(s: seq<byte>)
    ensures FromBytesBE(s) < Pow256(|s|)
  {
    if s != [] {
      FromBytesBound(s[..|s| - 1]);
    }
  }

  lemma {:induction false} FromToBytes(x: nat, n: nat)
    requires x < Pow256(n)
    ensures FromBytesBE(ToBytesBE(x, n)) == x
  {
    if n > 0 {
      FromToBytes(x / 256, n - 1);
      assert ToBytesBE(x, n)[..n - 1] == ToBytesBE(x / 256, n - 1);
    }
  }

  lemma {:induction false} ToFromBytes(s: seq<byte>)
    ensures ToBytesBE(FromBytesBE(s), |s|) == s
  {
    if s != [] {
      ToFromBytes(s[..|s| - 1]);
    }
  }

  lemma ToBytesInjective(x: nat, y: nat, n: nat)
    requires x < Pow256(n) && y < Pow256(n)
    requires ToBytesBE(x, n) == ToBytesBE(y, n)
    ensures x == y
  {
    FromToBytes(x, n);
    FromToBytes(y, n);
  }

  function Reverse<T>(s: seq<T>): (r: seq<T>)
    ensures |r| == |s|
    ensures forall i :: 0 <= i < |s| ==> r[i] == s[|s| - 1 - i]
  {
    seq(|s|, i requires 0 <= i < |s| => s[|s| - 1 - i])
  }

  lemma ReverseInjective(s: seq<byte>, t: seq<byte>)
    requires Reverse(s) == Reverse(t)
    ensures s == t
  {
    assert |s| == |Reverse(s)| == |t|;
    forall i | 0 <= i < |s|
      ensures s[i] == t[i]
    {
      assert Reverse(s)[|s| - 1 - i] == Reverse(t)[|s| - 1 - i];
    }
  }

  /** All the chunks, one after the other. */
  function Flatten(chunks: seq<seq<byte>>): seq<byte> {
    if chunks == [] then [] else Flatten(chunks[..|chunks| - 1]) + chunks[|chunks| - 1]
  }

  ghost predicate AllOfLength(chunks: seq<seq<byte>>, w: nat) {
    forall i :: 0 <= i < |chunks| ==> |chunks[i]| == w
  }

  lemma {:induction false} FlattenLength(chunks: seq<seq<byte>>, w: nat)
    requires AllOfLength(chunks, w)
    ensures |Flatten(chunks)| == |chunks| * w
  {
    if chunks != [] {
      FlattenLength(chunks[..|chunks| - 1], w);
      assert (|chunks| - 1) * w + w == |chunks| * w;
    }
  }

  /** Chunks of a known width can be cut out again. */
  lemma {:induction false} FlattenInjective(c: seq<seq<byte>>, d: seq<seq<byte>>, w: nat)
    requires AllOfLength(c, w) && AllOfLength(d, w)
    requires |c| == |d| && Flatten(c) == Flatten(d)
    ensures c == d
  {
    if c != [] {
      var n := |c| - 1;
      FlattenLength(c[..n], w);
      FlattenLength(d[..n], w);
      var k := |Flatten(c[..n])|;
      assert Flatten(c)[..k] == Flatten(c[..n]) && Flatten(d)[..k] == Flatten(d[..n]);
      assert Flatten(c)[k..] == c[n] && Flatten(d)[k..] == d[n];
      FlattenInjective(c[..n], d[..n], w);
      assert c == c[..n] + [c[n]] && d == d[..n] + [d[n]];
    }
  }

  lemma FlattenSnoc(chunks: seq<seq<byte>>, chunk: seq<byte>)
    ensures Flatten(chunks + [chunk]) == Flatten(chunks) + chunk
  {
    assert (chunks + [chunk])[..|chunks|] == chunks;
  }

  /** `buf` with the bytes at `offset` replaced by `data`. */
  function Overwrite(buf: seq<byte>, offset: nat, data: seq<byte>): (r: seq<byte>)
    requires offset + |data| <= |buf|
    ensures |r| == |buf|
  {
    buf[..offset] + data + buf[offset + |data|..]
  }

  /** `buf[offset..offset + data.len()].copy_from_slice(data)`. */
  method CopyInto(buf: array<byte>, offset: nat, data: seq<byte>)
    requires offset + |data| <= buf.Length
    modifies buf
    ensures buf[..] == Overwrite(old(buf[..]), offset, data)
  {
    for i := 0 to |data|
      invariant forall k :: 0 <= k < buf.Length ==>
        buf[k] == if offset <= k < offset + i then data[k - offset] else old(buf[k])
    {
      buf[offset + i] := data[i];
    }
  }
}

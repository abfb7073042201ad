/** Groups of prime order `r`, seen as vector spaces over `Fr`: what G1, G2 and Gt are to the verifier.
    Polynomials with coefficients in such a space, and the bound on their roots. */
module Spaces {
  import opened Fields

  datatype Space<!T, !V> = Space(zero: V, add: (V, V) -> V, neg: V -> V, scale: (T, V) -> V) {
    function Sub(v: V, w: V): V {
      add(v, neg(w))
    }

    /** `c[0] + x*c[1] + x^2*c[2] + ...`, by Horner's rule. */
    function Eval(c: seq<V>, x: T): V {
      if c == [] then zero else add(c[0], scale(x, Eval(c[1..], x)))
    }
  }

  ghost predicate AtScale<T, V>(a: T, v: V, w: V) { true }
  ghost predicate AtScalars<T, V>(a: T, b: T, v: V) { true }

  ghost predicate IsSpace<T(!new), V(!new)>(K: Field<T>, S: Space<T, V>) {
    && (forall v {:trigger At1(v)} ::
          S.add(v, S.zero) == v && S.add(v, S.neg(v)) == S.zero && S.scale(K.one, v) == v)
    && (forall v, w {:trigger At2(v, w)} :: S.add(v, w) == S.add(w, v))
    && (forall u, v, w {:trigger At3(u, v, w)} :: S.add(S.add(u, v), w) == S.add(u, S.add(v, w)))
    && (forall a, v, w {:trigger AtScale(a, v, w)} ::
          S.scale(a, S.add(v, w)) == S.add(S.scale(a, v), S.scale(a, w)))
    && (forall a, b, v {:trigger AtScalars(a, b, v)} ::
          && S.scale(K.add(a, b), v) == S.add(S.scale(a, v), S.scale(b, v))
          && S.scale(K.mul(a, b), v) == S.scale(a, S.scale(b, v)))
  }

  /** A field is a space over itself. */
  function FieldSpace<T>(K: Field<T>): Space<T, T> {
    Space(K.zero, K.add, K.neg, K.mul)
  }

  lemma FieldIsSpace<T(!new)>(K: Field<T>)
    requires IsField(K)
    ensures IsSpace(K, FieldSpace(K))
  {
    var S := FieldSpace(K);
    forall v
      ensures S.add(v, S.zero) == v && S.add(v, S.neg(v)) == S.zero && S.scale(K.one, v) == v
    {
      Laws1(K, v);
    }
    forall v, w
      ensures S.add(v, w) == S.add(w, v)
    {
      Laws2(K, v, w);
    }
    forall u, v, w
      ensures S.add(S.add(u, v), w) == S.add(u, S.add(v, w))
    {
      Laws3(K, u, v, w);
    }
    forall a, v, w
      ensures S.scale(a, S.add(v, w)) == S.add(S.scale(a, v), S.scale(a, w))
    {
      Laws3(K, a, v, w);
    }
    forall a, b, v
      ensures S.scale(K.add(a, b), v) == S.add(S.scale(a, v), S.scale(b, v))
      ensures S.scale(K.mul(a, b), v) == S.scale(a, S.scale(b, v))
    {
      Laws3(K, a, b, v);
    }
  }

  lemma Group1<T(!new), V(!new)>(K: Field<T>, S: Space<T, V>, v: V)
    requires IsSpace(K, S)
    ensures S.add(v, S.zero) == v == S.add(S.zero, v)
    ensures S.add(v, S.neg(v)) == S.zero == S.add(S.neg(v), v)
    ensures S.scale(K.one, v) == v
  {
    assert At1(v) && At2(v, S.zero) && At2(v, S.neg(v));
  }

  lemma Group3<T(!new), V(!new)>(K: Field<T>, S: Space<T, V>, u: V, v: V, w: V)
    requires IsSpace(K, S)
    ensures S.add(S.add(u, v), w) == S.add(u, S.add(v, w))
    ensures S.add(u, v) == S.add(v, u)
  {
    assert At3(u, v, w) && At2(u, v);
  }

  lemma ScaleAdd<T(!new), V(!new)>(K: Field<T>, S: Space<T, V>, a: T, v: V, w: V)
    requires IsSpace(K, S)
    ensures S.scale(a, S.add(v, w)) == S.add(S.scale(a, v), S.scale(a, w))
  {
    assert AtScale(a, v, w);
  }

  lemma Scalars<T(!new), V(!new)>(K: Field<T>, S: Space<T, V>, a: T, b: T, v: V)
    requires IsSpace(K, S)
    ensures S.scale(K.add(a, b), v) == S.add(S.scale(a, v), S.scale(b, v))
    ensures S.scale(K.mul(a, b), v) == S.scale(a, S.scale(b, v))
  {
    assert AtScalars(a, b, v);
  }

  lemma Cancel<T(!new), V(!new)>(K: Field<T>, S: Space<T, V>, u: V, v: V, w: V)
    requires IsSpace(K, S)
    requires S.add(u, v) == S.add(u, w)
    ensures v == w
  {
    Group3(K, S, S.neg(u), u, v);
    Group3(K, S, S.neg(u), u, w);
    Group1(K, S, u);
    Group1(K, S, v);
    Group1(K, S, w);
  }

  lemma SubZero<T(!new), V(!new)>(K: Field<T>, S: Space<T, V>, v: V, w: V)
    requires IsSpace(K, S)
    ensures S.Sub(v, w) == S.zero <==> v == w
    ensures S.add(S.Sub(v, w), w) == v
  {
    Group3(K, S, v, S.neg(w), w);
    Group1(K, S, v);
    Group1(K, S, w);
  }

  /** `(u + v) + (w + z) == (u + w) + (v + z)`. */
  lemma Exchange<T(!new), V(!new)>(K: Field<T>, S: Space<T, V>, u: V, v: V, w: V, z: V)
    requires IsSpace(K, S)
    ensures S.add(S.add(u, v), S.add(w, z)) == S.add(S.add(u, w), S.add(v, z))
  {
    Group3(K, S, u, v, S.add(w, z));
    Group3(K, S, v, w, z);
    Group3(K, S, w, v, z);
    Group3(K, S, u, w, S.add(v, z));
  }

  lemma ScaleZero<T(!new), V(!new)>(K: Field<T>, S: Space<T, V>, a: T, v: V)
    requires IsField(K) && IsSpace(K, S)
    ensures S.scale(a, S.zero) == S.zero == S.scale(K.zero, v)
  {
    Group1(K, S, S.zero);
    ScaleAdd(K, S, a, S.zero, S.zero);
    Group1(K, S, S.scale(a, S.zero));
    Cancel(K, S, S.scale(a, S.zero), S.scale(a, S.zero), S.zero);
    Laws1(K, K.zero);
    Scalars(K, S, K.zero, K.zero, v);
    Group1(K, S, S.scale(K.zero, v));
    Cancel(K, S, S.scale(K.zero, v), S.scale(K.zero, v), S.zero);
  }

  lemma ScaleNeg<T(!new), V(!new)>(K: Field<T>, S: Space<T, V>, a: T, v: V)
    requires IsField(K) && IsSpace(K, S)
    ensures S.scale(a, S.neg(v)) == S.neg(S.scale(a, v)) == S.scale(K.neg(a), v)
  {
    ScaleAdd(K, S, a, v, S.neg(v));
    Scalars(K, S, a, K.neg(a), v);
    Laws1(K, a);
    Group1(K, S, v);
    ScaleZero(K, S, a, v);
    Group1(K, S, S.scale(a, v));
    Cancel(K, S, S.scale(a, v), S.scale(a, S.neg(v)), S.neg(S.scale(a, v)));
    Cancel(K, S, S.scale(a, v), S.scale(K.neg(a), v), S.neg(S.scale(a, v)));
  }

  /** The order is prime, so a product vanishes only with one of its factors. */
  lemma NoTorsion<T(!new), V(!new)>(K: Field<T>, S: Space<T, V>, a: T, v: V)
    requires IsField(K) && IsSpace(K, S)
    ensures S.scale(a, v) == S.zero <==> a == K.zero || v == S.zero
  {
    ScaleZero(K, S, a, v);
    if a != K.zero && S.scale(a, v) == S.zero {
      Laws1(K, a);
      var i := K.inverse(a).value;
      Laws2(K, i, a);
      Scalars(K, S, i, a, v);
      Group1(K, S, v);
      ScaleZero(K, S, i, v);
    }
  }

  // Roots of polynomials

  ghost predicate AllZero<T, V>(S: Space<T, V>, c: seq<V>) {
    forall i :: 0 <= i < |c| ==> c[i] == S.zero
  }

  predicate Distinct<T(==)>(xs: seq<T>) {
    forall i, j :: 0 <= i < j < |xs| ==> xs[i] != xs[j]
  }

  /** Quotient of the polynomial `c` by `X - a`. */
  function Quotient<T, V>(S: Space<T, V>, c: seq<V>, a: T): (q: seq<V>)
    ensures |q| == if c == [] then 0 else |c| - 1
  {
    if |c| <= 1 then [] else [S.Eval(c[1..], a)] + Quotient(S, c[1..], a)
  }

  /** Synthetic division: `c(x) == c(a) + (x - a) * q(x)`. */
  lemma {:induction false} Division<T(!new), V(!new)>(K: Field<T>, S: Space<T, V>, c: seq<V>, a: T, x: T)
    requires IsField(K) && IsSpace(K, S)
    ensures S.Eval(c, x) == S.add(S.Eval(c, a), S.scale(K.Sub(x, a), S.Eval(Quotient(S, c, a), x)))
  {
    var d := K.Sub(x, a);
    if |c| <= 1 {
      ScaleZero(K, S, d, S.zero);
      Group1(K, S, S.Eval(c, a));
      if |c| == 1 {
        ScaleZero(K, S, x, S.zero);
        ScaleZero(K, S, a, S.zero);
      }
    } else {
      var rest := c[1..];
      var at, q := S.Eval(rest, a), S.Eval(Quotient(S, rest, a), x);
      assert Quotient(S, c, a)[1..] == Quotient(S, rest, a);
      Division(K, S, rest, a, x);
      // x*rest(x) == x*at + x*(d*q) == (a*at + d*at) + d*(x*q)
      ScaleAdd(K, S, x, at, S.scale(d, q));
      SubLaws(K, x, a);
      Laws2(K, d, a);
      Scalars(K, S, a, d, at);
      Scalars(K, S, x, d, q);
      Scalars(K, S, d, x, q);
      Laws2(K, x, d);
      Group3(K, S, S.scale(a, at), S.scale(d, at), S.scale(d, S.scale(x, q)));
      ScaleAdd(K, S, d, at, S.scale(x, q));
      Group3(K, S, c[0], S.scale(a, at), S.scale(d, S.add(at, S.scale(x, q))));
    }
  }

  lemma {:induction false} QuotientZero<T(!new), V(!new)>(K: Field<T>, S: Space<T, V>, c: seq<V>, a: T)
    requires IsField(K) && IsSpace(K, S)
    requires S.Eval(c, a) == S.zero && AllZero(S, Quotient(S, c, a))
    ensures AllZero(S, c)
  {
    if c != [] {
      ScaleZero(K, S, a, S.zero);
      Group1(K, S, c[0]);
      if |c| > 1 {
        var q := Quotient(S, c, a);
        assert q[0] == S.zero;
        assert q[1..] == Quotient(S, c[1..], a);
        forall i | 0 <= i < |c| - 2
          ensures Quotient(S, c[1..], a)[i] == S.zero
        {
          assert q[i + 1] == S.zero;
        }
        QuotientZero(K, S, c[1..], a);
        assert forall i :: 1 <= i < |c| ==> c[i] == c[1..][i - 1];
      } else {
        assert S.Eval(c[1..], a) == S.zero;
      }
    }
  }

  /** A polynomial with as many distinct roots as coefficients is the zero polynomial. */
  lemma {:induction false} RootBound<T(!new), V(!new)>(K: Field<T>, S: Space<T, V>, c: seq<V>, xs: seq<T>)
    requires IsField(K) && IsSpace(K, S)
    requires Distinct(xs) && |c| <= |xs|
    requires forall i :: 0 <= i < |xs| ==> S.Eval(c, xs[i]) == S.zero
    ensures AllZero(S, c)
    decreases |c|
  {
    if c != [] {
      var a, q, rest := xs[0], Quotient(S, c, xs[0]), xs[1..];
      forall i | 0 <= i < |rest|
        ensures S.Eval(q, rest[i]) == S.zero
      {
        var x := rest[i];
        assert x == xs[i + 1] && x != a;
        Division(K, S, c, a, x);
        Group1(K, S, S.scale(K.Sub(x, a), S.Eval(q, x)));
        SubLaws(K, x, a);
        NoTorsion(K, S, K.Sub(x, a), S.Eval(q, x));
      }
      RootBound(K, S, q, rest);
      QuotientZero(K, S, c, a);
    }
  }

  lemma {:induction false} EvalZero<T(!new), V(!new)>(K: Field<T>, S: Space<T, V>, c: seq<V>, x: T)
    requires IsField(K) && IsSpace(K, S)
    requires AllZero(S, c)
    ensures S.Eval(c, x) == S.zero
  {
    if c != [] {
      EvalZero(K, S, c[1..], x);
      ScaleZero(K, S, x, S.zero);
      Group1(K, S, S.zero);
    }
  }

  // Linear combinations of coefficient sequences

  function AddSeq<T, V>(S: Space<T, V>, c: seq<V>, d: seq<V>): (s: seq<V>)
    requires |c| == |d|
    ensures |s| == |c|
  {
    seq(|c|, i requires 0 <= i < |c| => S.add(c[i], d[i]))
  }

  lemma {:induction false} EvalAdd<T(!new), V(!new)>(K: Field<T>, S: Space<T, V>, c: seq<V>, d: seq<V>, x: T)
    requires IsField(K) && IsSpace(K, S)
    requires |c| == |d|
    ensures S.Eval(AddSeq(S, c, d), x) == S.add(S.Eval(c, x), S.Eval(d, x))
  {
    if c == [] {
      Group1(K, S, S.zero);
    } else {
      assert AddSeq(S, c, d)[1..] == AddSeq(S, c[1..], d[1..]);
      EvalAdd(K, S, c[1..], d[1..], x);
      ScaleAdd(K, S, x, S.Eval(c[1..], x), S.Eval(d[1..], x));
      Exchange(K, S, c[0], d[0], S.scale(x, S.Eval(c[1..], x)), S.scale(x, S.Eval(d[1..], x)));
    }
  }

  function ScaleSeq<T, V>(S: Space<T, V>, a: T, c: seq<V>): (s: seq<V>)
    ensures |s| == |c|
  {
    seq(|c|, i requires 0 <= i < |c| => S.scale(a, c[i]))
  }

  lemma {:induction false} EvalScale<T(!new), V(!new)>(K: Field<T>, S: Space<T, V>, a: T, c: seq<V>, x: T)
    requires IsField(K) && IsSpace(K, S)
    ensures S.Eval(ScaleSeq(S, a, c), x) == S.scale(a, S.Eval(c, x))
  {
    if c == [] {
      ScaleZero(K, S, a, S.zero);
    } else {
      var e := S.Eval(c[1..], x);
      assert ScaleSeq(S, a, c)[1..] == ScaleSeq(S, a, c[1..]);
      EvalScale(K, S, a, c[1..], x);
      Scalars(K, S, x, a, e);
      Scalars(K, S, a, x, e);
      Laws2(K, x, a);
      ScaleAdd(K, S, a, c[0], S.scale(x, e));
    }
  }

  /** Two coefficient sequences of the same length that agree at that many points are the same. */
  lemma Interpolation<T(!new), V(!new)>(K: Field<T>, S: Space<T, V>, c: seq<V>, d: seq<V>, xs: seq<T>)
    requires IsField(K) && IsSpace(K, S)
    requires Distinct(xs) && |c| == |d| <= |xs|
    requires forall i :: 0 <= i < |xs| ==> S.Eval(c, xs[i]) == S.Eval(d, xs[i])
    ensures c == d
  {
    var n := ScaleSeq(S, K.neg(K.one), d);
    var e := AddSeq(S, c, n);
    forall x | x in xs
      ensures S.Eval(e, x) == S.zero
    {
      EvalAdd(K, S, c, n, x);
      EvalScale(K, S, K.neg(K.one), d, x);
      ScaleNeg(K, S, K.one, S.Eval(d, x));
      Group1(K, S, S.Eval(d, x));
    }
    RootBound(K, S, e, xs);
    forall i | 0 <= i < |c|
      ensures c[i] == d[i]
    {
      assert e[i] == S.zero;
      ScaleNeg(K, S, K.one, d[i]);
      Group1(K, S, d[i]);
      SubZero(K, S, c[i], d[i]);
    }
  }
}

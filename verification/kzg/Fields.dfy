/** The scalar field `Fr`, as the operations substrate-bn offers on it.
    The verifier is generic in the element type: everything below holds in every field. */
module Fields {

  import opened Prelude

  /** `inverse` is `None` exactly on zero. */
  datatype Field<!T(==)> = Field(
    zero: T,
    one: T,
    add: (T, T) -> T,
    neg: T -> T,
    mul: (T, T) -> T,
    inverse: T -> Option<T>)
  {
    function Sub(a: T, b: T): T {
      add(a, neg(b))
    }

    /** `x.pow(n)`. */
    function Pow(x: T, n: nat): T {
      if n == 0 then one else mul(x, Pow(x, n - 1))
    }

    /** The element that a small integer denotes. */
    function FromNat(n: nat): T {
      if n == 0 then zero else add(one, FromNat(n - 1))
    }
  }

  // The laws below are instantiated by name only: each is triggered by a marker that no
  // other definition mentions, so the solver never runs the ring axioms on its own.
  ghost predicate At1<T>(a: T) { true }
  ghost predicate At2<T>(a: T, b: T) { true }
  ghost predicate At3<T>(a: T, b: T, c: T) { true }

  ghost predicate IsField<T(!new)>(K: Field<T>) {
    K.zero != K.one && UnaryLaws(K) && BinaryLaws(K) && TernaryLaws(K)
  }

  ghost predicate UnaryLaws<T(!new)>(K: Field<T>) {
    forall a {:trigger At1(a)} ::
      && K.add(a, K.zero) == a
      && K.add(a, K.neg(a)) == K.zero
      && K.mul(a, K.one) == a
      && (a == K.zero <==> K.inverse(a) == None)
      && (a != K.zero ==> K.mul(a, K.inverse(a).value) == K.one)
  }

  ghost predicate BinaryLaws<T(!new)>(K: Field<T>) {
    forall a, b {:trigger At2(a, b)} ::
      K.add(a, b) == K.add(b, a) && K.mul(a, b) == K.mul(b, a)
  }

  ghost predicate TernaryLaws<T(!new)>(K: Field<T>) {
    forall a, b, c {:trigger At3(a, b, c)} ::
      && K.add(K.add(a, b), c) == K.add(a, K.add(b, c))
      && K.mul(K.mul(a, b), c) == K.mul(a, K.mul(b, c))
      && K.mul(a, K.add(b, c)) == K.add(K.mul(a, b), K.mul(a, c))
  }

  lemma Laws1<T(!new)>(K: Field<T>, a: T)
    requires IsField(K)
    ensures K.add(a, K.zero) == a == K.add(K.zero, a)
    ensures K.add(a, K.neg(a)) == K.zero == K.add(K.neg(a), a)
    ensures K.mul(a, K.one) == a == K.mul(K.one, a)
    ensures a == K.zero <==> K.inverse(a) == None
    ensures a != K.zero ==> K.mul(a, K.inverse(a).value) == K.one
  {
    assert At1(a);
    assert At2(a, K.zero) && At2(a, K.neg(a)) && At2(a, K.one);
  }

  lemma Laws2<T(!new)>(K: Field<T>, a: T, b: T)
    requires IsField(K)
    ensures K.add(a, b) == K.add(b, a)
    ensures K.mul(a, b) == K.mul(b, a)
  {
    assert At2(a, b);
  }

  lemma Laws3<T(!new)>(K: Field<T>, a: T, b: T, c: T)
    requires IsField(K)
    ensures K.add(K.add(a, b), c) == K.add(a, K.add(b, c))
    ensures K.mul(K.mul(a, b), c) == K.mul(a, K.mul(b, c))
    ensures K.mul(a, K.add(b, c)) == K.add(K.mul(a, b), K.mul(a, c))
    ensures K.mul(K.add(a, b), c) == K.add(K.mul(a, c), K.mul(b, c))
  {
    assert At3(a, b, c) && At3(c, a, b);
    assert At2(K.add(a, b), c) && At2(a, c) && At2(b, c);
  }

  lemma AddCancel<T(!new)>(K: Field<T>, a: T, b: T, c: T)
    requires IsField(K)
    requires K.add(a, b) == K.add(a, c)
    ensures b == c
  {
    Laws3(K, K.neg(a), a, b);
    Laws3(K, K.neg(a), a, c);
    Laws1(K, a);
    Laws1(K, b);
    Laws1(K, c);
  }

  lemma MulZero<T(!new)>(K: Field<T>, a: T)
    requires IsField(K)
    ensures K.mul(a, K.zero) == K.zero == K.mul(K.zero, a)
  {
    Laws1(K, K.zero);
    Laws3(K, a, K.zero, K.zero);
    Laws1(K, K.mul(a, K.zero));
    AddCancel(K, K.mul(a, K.zero), K.mul(a, K.zero), K.zero);
    Laws2(K, a, K.zero);
  }

  lemma NegMul<T(!new)>(K: Field<T>, a: T, b: T)
    requires IsField(K)
    ensures K.mul(a, K.neg(b)) == K.neg(K.mul(a, b)) == K.mul(K.neg(a), b)
  {
    Laws3(K, a, b, K.neg(b));
    Laws3(K, a, K.neg(a), b);
    Laws1(K, a);
    Laws1(K, b);
    MulZero(K, a);
    MulZero(K, b);
    Laws1(K, K.mul(a, b));
    AddCancel(K, K.mul(a, b), K.mul(a, K.neg(b)), K.neg(K.mul(a, b)));
    AddCancel(K, K.mul(a, b), K.mul(K.neg(a), b), K.neg(K.mul(a, b)));
  }

  lemma MulSub<T(!new)>(K: Field<T>, a: T, b: T, c: T)
    requires IsField(K)
    ensures K.mul(a, K.Sub(b, c)) == K.Sub(K.mul(a, b), K.mul(a, c))
    ensures K.mul(K.Sub(b, c), a) == K.Sub(K.mul(b, a), K.mul(c, a))
  {
    Laws3(K, a, b, K.neg(c));
    Laws3(K, b, K.neg(c), a);
    NegMul(K, a, c);
    NegMul(K, c, a);
  }

  /** `a - b` and `b` add up to `a`; the difference is zero exactly when the two are equal. */
  lemma SubLaws<T(!new)>(K: Field<T>, a: T, b: T)
    requires IsField(K)
    ensures K.add(K.Sub(a, b), b) == a
    ensures K.Sub(a, b) == K.zero <==> a == b
  {
    Laws3(K, a, K.neg(b), b);
    Laws1(K, a);
    Laws1(K, b);
  }

  /** `(a - b) + (b - c) == a - c`. */
  lemma SubChain<T(!new)>(K: Field<T>, a: T, b: T, c: T)
    requires IsField(K)
    ensures K.add(K.Sub(a, b), K.Sub(b, c)) == K.Sub(a, c)
  {
    Laws3(K, K.Sub(a, b), b, K.neg(c));
    SubLaws(K, a, b);
  }

  lemma NoZeroDivisors<T(!new)>(K: Field<T>, a: T, b: T)
    requires IsField(K)
    ensures K.mul(a, b) == K.zero <==> a == K.zero || b == K.zero
  {
    MulZero(K, a);
    MulZero(K, b);
    if a != K.zero && K.mul(a, b) == K.zero {
      Laws1(K, a);
      var i := K.inverse(a).value;
      Laws3(K, i, a, b);
      Laws2(K, i, a);
      MulZero(K, i);
      Laws1(K, b);
    }
  }

  /** `a * (b * c) == b * (a * c)`. */
  lemma MulSwap<T(!new)>(K: Field<T>, a: T, b: T, c: T)
    requires IsField(K)
    ensures K.mul(a, K.mul(b, c)) == K.mul(b, K.mul(a, c))
  {
    Laws3(K, a, b, c);
    Laws3(K, b, a, c);
    Laws2(K, a, b);
  }

  lemma MulCancel<T(!new)>(K: Field<T>, a: T, b: T, c: T)
    requires IsField(K)
    requires a != K.zero
    requires K.mul(a, b) == K.mul(a, c)
    ensures b == c
  {
    MulSub(K, a, b, c);
    SubLaws(K, K.mul(a, b), K.mul(a, c));
    NoZeroDivisors(K, a, K.Sub(b, c));
    SubLaws(K, b, c);
  }

  // Powers

  lemma {:induction false} PowAdd<T(!new)>(K: Field<T>, x: T, m: nat, n: nat)
    requires IsField(K)
    ensures K.Pow(x, m + n) == K.mul(K.Pow(x, m), K.Pow(x, n))
  {
    if m == 0 {
      Laws1(K, K.Pow(x, n));
    } else {
      PowAdd(K, x, m - 1, n);
      Laws3(K, x, K.Pow(x, m - 1), K.Pow(x, n));
    }
  }

  lemma {:induction false} PowOne<T(!new)>(K: Field<T>, n: nat)
    requires IsField(K)
    ensures K.Pow(K.one, n) == K.one
  {
    if n > 0 {
      PowOne(K, n - 1);
      Laws1(K, K.one);
    }
  }

  lemma {:induction false} PowNonzero<T(!new)>(K: Field<T>, x: T, n: nat)
    requires IsField(K)
    requires x != K.zero
    ensures K.Pow(x, n) != K.zero
  {
    if n > 0 {
      PowNonzero(K, x, n - 1);
      NoZeroDivisors(K, x, K.Pow(x, n - 1));
    }
  }

  lemma {:induction false} PowPow<T(!new)>(K: Field<T>, x: T, m: nat, n: nat)
    requires IsField(K)
    ensures K.Pow(K.Pow(x, m), n) == K.Pow(x, m * n)
  {
    if n > 0 {
      PowPow(K, x, m, n - 1);
      assert m * n == m + m * (n - 1);
      PowAdd(K, x, m, m * (n - 1));
    }
  }
}

/** Outcome types shared by the other modules, and powers of two. */
module Prelude {

  datatype Option<+T> = None | Some(value: T)

  datatype Result<+R, +E> = Success(value: R) | Failure(error: E)

  function Exp2(k: nat): (p: nat)
    ensures p >= 1
  {
    if k == 0 then 1 else 2 * Exp2(k - 1)
  }

  ghost predicate IsPowerOfTwo(n: nat) {
    exists k: nat :: n == Exp2(k)
  }

  lemma {:induction false} Exp2Increasing(j: nat, k: nat)
    requires j < k
    ensures 2 * Exp2(j) <= Exp2(k)
  {
    if j < k - 1 {
      Exp2Increasing(j, k - 1);
    }
  }

  lemma Exp2Injective(j: nat, k: nat)
    requires Exp2(j) == Exp2(k)
    ensures j == k
  {
    if j < k {
      Exp2Increasing(j, k);
    } else if k < j {
      Exp2Increasing(k, j);
    }
  }

  /** The least `k` with `n <= 2^k`. */
  function CeilLog2(n: nat): (k: nat)
    ensures n <= Exp2(k)
    ensures k > 0 ==> Exp2(k - 1) < n
  {
    if n <= 1 then 0 else 1 + CeilLog2((n + 1) / 2)
  }

  /** `usize::next_power_of_two`: the least power of two that is at least `n`; 1 for zero. */
  function NextPowerOfTwo(n: nat): (p: nat)
    ensures n <= p && IsPowerOfTwo(p)
    ensures p == 1 || p < 2 * n
  {
    Exp2(CeilLog2(n))
  }

  /** `n.trailing_zeros()`. */
  function TrailingZeros(n: nat): nat
    requires n > 0
  {
    if n % 2 == 1 then 0 else 1 + TrailingZeros(n / 2)
  }

  lemma {:induction false} TrailingZerosOfPower(k: nat)
    ensures TrailingZeros(Exp2(k)) == k
  {
    if k > 0 {
      TrailingZerosOfPower(k - 1);
    }
  }

  /** `a & b`. */
  function BitAnd(a: nat, b: nat): nat {
    if a == 0 || b == 0 then 0 else 2 * BitAnd(a / 2, b / 2) + if a % 2 == 1 && b % 2 == 1 then 1 else 0
  }

  lemma {:induction false} BitAndSelf(a: nat)
    ensures BitAnd(a, a) == a
  {
    if a > 0 {
      BitAndSelf(a / 2);
    }
  }

  /** The test `n != 0 && n & (n - 1) == 0` finds exactly the powers of two. */
  lemma {:induction false} PowerOfTwoBits(n: nat)
    requires n > 0
    ensures BitAnd(n, n - 1) == 0 <==> IsPowerOfTwo(n)
  {
    if n == 1 {
      assert n == Exp2(0);
    } else if n % 2 == 1 {
      assert (n - 1) / 2 == n / 2;
      BitAndSelf(n / 2);
      forall k: nat
        ensures n != Exp2(k)
      {
      }
    } else {
      assert (n - 1) / 2 == n / 2 - 1;
      PowerOfTwoBits(n / 2);
      if IsPowerOfTwo(n / 2) {
        var k: nat :| n / 2 == Exp2(k);
        assert n == Exp2(k + 1);
      }
      if IsPowerOfTwo(n) {
        var k: nat :| n == Exp2(k);
        assert k > 0 && n / 2 == Exp2(k - 1);
      }
    }
  }
}

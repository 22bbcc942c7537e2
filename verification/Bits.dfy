/** Powers of two and the few bit operations on non-negative machine integers that the sources use. */
module Bits {

  function Pow2(n: nat): (r: nat)
    ensures r >= 1
  {
    if n == 0 then 1 else 2 * Pow2(n - 1)
  }

  lemma {:induction false} Pow2Add(m: nat, n: nat)
    ensures Pow2(m + n) == Pow2(m) * Pow2(n)
  {
    if m == 0 {
    } else {
      Pow2Add(m - 1, n);
      assert Pow2(m + n) == 2 * Pow2(m - 1 + n);
      assert (2 * Pow2(m - 1)) * Pow2(n) == 2 * (Pow2(m - 1) * Pow2(n));
    }
  }

  lemma {:induction false} Pow2Mono(m: nat, n: nat)
    ensures m <= n ==> Pow2(m) <= Pow2(n)
    ensures m < n ==> 2 * Pow2(m) <= Pow2(n)
  {
    if m >= n {
    } else {
      Pow2Mono(m, n - 1);
    }
  }

  /** `a | b`, bit by bit. */
  function BitOr(a: nat, b: nat): nat {
    if a == 0 && b == 0 then 0
    else (if a % 2 == 1 || b % 2 == 1 then 1 else 0) + 2 * BitOr(a / 2, b / 2)
  }

  /** Or-ing a bit above all bits of `b` is adding it. */
  lemma {:induction false} BitOrAbove(n: nat, b: nat)
    requires b < Pow2(n)
    ensures BitOr(Pow2(n), b) == Pow2(n) + b
    ensures BitOr(0, b) == b
  {
    if n == 0 {
      assert BitOr(0, 0) == 0;
    } else {
      BitOrAbove(n - 1, b / 2);
    }
  }

  /** `i ^ 1`: the other end of the switch that wire `i` enters. */
  function Flip(i: nat): (r: nat)
    ensures r / 2 == i / 2 && r != i
  {
    if i % 2 == 0 then i + 1 else i - 1
  }

  lemma FlipFlip(i: nat)
    ensures Flip(Flip(i)) == i
  {
  }

  /** `int(ceil(log2(v)))`. */
  function CeilLog2(v: nat): (n: nat)
    requires v >= 1
    ensures v <= Pow2(n)
    ensures v >= 2 ==> n >= 1 && Pow2(n - 1) < v
  {
    if v == 1 then 0 else 1 + CeilLog2((v + 1) / 2)
  }
}

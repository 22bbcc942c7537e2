/** Numbers from signed digits, least significant first. */
module Numerals {
  import opened Bits

  function Number(f: seq<int>, base: int): int {
    if f == [] then 0 else f[0] + base * Number(f[1..], base)
  }

  function PowerOf(base: int, n: nat): int {
    if n == 0 then 1 else base * PowerOf(base, n - 1)
  }

  lemma {:induction false} NumberAppend(f: seq<int>, x: int, base: int)
    ensures Number(f + [x], base) == Number(f, base) + PowerOf(base, |f|) * x
  {
    if f == [] {
      assert (f + [x])[1..] == [];
      assert Number([], base) == 0;
    } else {
      NumberAppend(f[1..], x, base);
      assert (f + [x])[1..] == f[1..] + [x];
      assert base * (PowerOf(base, |f| - 1) * x) == (base * PowerOf(base, |f| - 1)) * x;
    }
  }

  /** A digit and what is left over it. */
  lemma NumberStep(f: seq<int>, x: int, base: int, left: int)
    ensures Number(f + [x], base) + PowerOf(base, |f| + 1) * left ==
        Number(f, base) + PowerOf(base, |f|) * (x + base * left)
  {
    NumberAppend(f, x, base);
    assert PowerOf(base, |f|) * (x + base * left) == PowerOf(base, |f|) * x + (PowerOf(base, |f|) * base) * left;
  }

  lemma {:induction false} NumberConcat(f: seq<int>, h: seq<int>, base: int)
    ensures Number(f + h, base) == Number(f, base) + PowerOf(base, |f|) * Number(h, base)
  {
    if f == [] {
      assert f + h == h;
    } else {
      NumberConcat(f[1..], h, base);
      assert (f + h)[1..] == f[1..] + h;
      assert base * (PowerOf(base, |f| - 1) * Number(h, base)) == (base * PowerOf(base, |f| - 1)) * Number(h, base);
    }
  }

  /** The digits from index i on, and the next one down. */
  lemma NumberDown(f: seq<int>, i: nat, base: int)
    requires i < |f|
    ensures Number(f[i..], base) == f[i] + base * Number(f[i + 1..], base)
  {
    assert f[i..][1..] == f[i + 1..];
  }

  lemma {:induction false} PowerOfTwo(n: nat)
    ensures PowerOf(2, n) == Pow2(n)
  {
    if n == 0 {
    } else {
      PowerOfTwo(n - 1);
    }
  }
}

/**
 * The matching polynomial of a bin: monic, with the bin's items as its roots, and so 0 at an item
 * modulo a prime exactly when the bin holds that item.
 */
module MatchingPolynomial {
  import opened Division
  import opened PlaintextPowers
  import opened Primes
  import opened Residues

  /** The polynomial with these coefficients, in ascending order, at `x`. */
  function At(polyn: seq<nat>, x: nat): nat {
    if polyn == [] then 0
    else
      var n := |polyn| - 1;
      At(polyn[..n], x) + polyn[n] * Exp(x, n)
  }

  /** (x - a) for every root a, multiplied. */
  function Factors(roots: seq<nat>, x: int): int {
    if roots == [] then 1 else Factors(roots[..|roots| - 1], x) * (x - roots[|roots| - 1])
  }

  /** Coefficient `i` of the product with x + n. */
  function Shifted(polyn: seq<nat>, n: nat, i: nat): nat {
    (if i < |polyn| then polyn[i] * n else 0) + if 0 < i <= |polyn| then polyn[i - 1] else 0
  }

  function Product(polyn: seq<nat>, n: nat): (r: seq<nat>)
    ensures |r| == |polyn| + 1
  {
    seq(|polyn| + 1, i requires 0 <= i <= |polyn| => Shifted(polyn, n, i))
  }

  lemma AtNext(polyn: seq<nat>, x: nat, j: nat)
    requires j < |polyn|
    ensures At(polyn[..j + 1], x) == At(polyn[..j], x) + polyn[j] * Exp(x, j)
  {
    assert polyn[..j + 1][..j] == polyn[..j];
  }

  lemma ExpNext(x: nat, j: nat, c: nat)
    ensures x * (c * Exp(x, j)) == c * Exp(x, j + 1)
  {
    ProductAssoc(x, c, Exp(x, j));
    ProductAssoc(c, x, Exp(x, j));
    Commutes(x, c);
  }

  /** One more term: c is the value so far, b the one before, q and p their next coefficients at powers f and e. */
  lemma TermAdds(n: nat, x: nat, b: nat, p: nat, q: nat, e: nat, f: nat)
    requires x * (q * f) == q * e
    ensures n * (b + q * f) + x * b + (p * n + q) * e == n * (b + q * f + p * e) + x * (b + q * f)
  {
    Spreads(e, p * n, q);
    Spreads(n, b + q * f, p * e);
    Spreads(x, b, q * f);
    ProductAssoc(n, p, e);
    Commutes(n, p);
    Commutes(e, p * n);
    Commutes(e, q);
    Commutes(b + q * f + p * e, n);
    Commutes(b + q * f, x);
  }

  /** The product's first terms, summed. */
  lemma {:induction false} ProductUpTo(polyn: seq<nat>, n: nat, x: nat, j: nat)
    requires j <= |polyn|
    ensures At(Product(polyn, n)[..j], x) ==
        n * At(polyn[..j], x) + x * At(polyn[..if j == 0 then 0 else j - 1], x)
  {
    hide Exp, At;
    AtEmpty(polyn[..0], x);
    AtEmpty(Product(polyn, n)[..0], x);
    if j == 0 {
    } else {
      ProductUpTo(polyn, n, x, j - 1);
      AtNext(Product(polyn, n), x, j - 1);
      AtNext(polyn, x, j - 1);
      if j == 1 {
        TermAdds(n, x, 0, polyn[0], 0, Exp(x, 0), 0);
      } else {
        AtNext(polyn, x, j - 2);
        ExpNext(x, j - 2, polyn[j - 2]);
        TermAdds(n, x, At(polyn[..j - 2], x), polyn[j - 1], polyn[j - 2], Exp(x, j - 1), Exp(x, j - 2));
      }
    }
  }

  lemma ProductIs(polyn: seq<nat>, n: nat, x: nat)
    ensures At(Product(polyn, n), x) == At(polyn, x) * (x + n)
  {
    hide Exp, At, Product;
    var k := |polyn|;
    ProductUpTo(polyn, n, x, k);
    AtNext(Product(polyn, n), x, k);
    assert polyn[..k] == polyn && Product(polyn, n)[..k + 1] == Product(polyn, n);
    LastCoefficient(polyn, n);
    if k > 0 {
      AtNext(polyn, x, k - 1);
      ExpNext(x, k - 1, polyn[k - 1]);
      Spreads(x, At(polyn[..k - 1], x), polyn[k - 1] * Exp(x, k - 1));
    } else {
      AtEmpty(polyn, x);
    }
    Spreads(At(polyn, x), x, n);
    Commutes(At(polyn, x), n);
    Commutes(At(polyn, x), x);
    Commutes(At(polyn, x), x + n);
  }

  lemma LastCoefficient(polyn: seq<nat>, n: nat)
    ensures Product(polyn, n)[|polyn|] == if polyn == [] then 0 else polyn[|polyn| - 1]
  {
  }

  lemma AtEmpty(polyn: seq<nat>, x: nat)
    ensures polyn == [] ==> At(polyn, x) == 0
  {
  }

  /** Coefficients that are congruent give congruent values. */
  lemma {:induction false} AtSame(a: seq<nat>, b: seq<nat>, x: nat, m: nat)
    requires m > 0 && |a| == |b| && forall i :: 0 <= i < |a| ==> Same(a[i], b[i], m)
    ensures Same(At(a, x), At(b, x), m)
  {
    hide Exp, Same;
    if a == [] {
      SameBy(0, 0, m, 0);
    } else {
      var n := |a| - 1;
      AtSame(a[..n], b[..n], x, m);
      SameBy(Exp(x, n), Exp(x, n), m, 0);
      SameMul(a[n], b[n], Exp(x, n), Exp(x, n), m);
      SameAdd(At(a[..n], x), At(b[..n], x), a[n] * Exp(x, n), b[n] * Exp(x, n), m);
    }
  }

  /** `polyn_mul_monic_monomial_inplace`: from right to left, so that no copy is needed. */
  method MulMonicMonomial(polyn: seq<nat>, a: nat, modulus: nat) returns (out: seq<nat>)
    requires a < modulus
    ensures |out| == |polyn| + 1 && forall i :: 0 <= i < |out| ==> out[i] < modulus
    ensures forall x: nat :: Same(At(out, x), At(polyn, x) * (x - a), modulus)
  {
    hide At;
    var negA := if a == 0 then 0 else modulus - a;
    out := polyn + [0];
    var i := |out| - 1;
    while i > 0
      invariant 0 <= i < |out| == |polyn| + 1
      invariant forall j :: 0 <= j <= i ==> out[j] == (polyn + [0])[j]
      invariant forall j :: i < j < |out| ==> out[j] == Shifted(polyn, negA, j) % modulus
    {
      out := out[i := (out[i] * negA + out[i - 1]) % modulus];
      i := i - 1;
    }
    out := out[0 := (out[0] * negA) % modulus];
    forall x: nat
      ensures Same(At(out, x), At(polyn, x) * (x - a), modulus)
    {
      MonomialValue(polyn, out, a, negA, x, modulus);
    }
  }

  lemma MonomialValue(polyn: seq<nat>, out: seq<nat>, a: nat, negA: nat, x: nat, modulus: nat)
    requires a < modulus && negA == if a == 0 then 0 else modulus - a
    requires |out| == |polyn| + 1 && forall i :: 0 <= i < |out| ==> out[i] == Shifted(polyn, negA, i) % modulus
    ensures Same(At(out, x), At(polyn, x) * (x - a), modulus)
  {
    hide At, Same, Shifted;
    forall i | 0 <= i < |out|
      ensures Same(out[i], Product(polyn, negA)[i], modulus)
    {
      ModSame(Shifted(polyn, negA, i), modulus);
    }
    AtSame(out, Product(polyn, negA), x, modulus);
    ProductIs(polyn, negA, x);
    SameBy(x + negA, x - a, modulus, if a == 0 then 0 else 1);
    SameBy(At(polyn, x), At(polyn, x), modulus, 0);
    SameMul(At(polyn, x), At(polyn, x), x + negA, x - a, modulus);
    SameTrans(At(out, x), At(polyn, x) * (x + negA), At(polyn, x) * (x - a), modulus);
  }

  datatype WithRoots = ZeroModulus | Monic(coeffs: seq<nat>)

  /** `polyn_with_roots`: the monic polynomial with the given roots. */
  method PolynWithRoots(roots: seq<nat>, modulus: nat) returns (r: WithRoots)
    requires modulus > 0 ==> forall i :: 0 <= i < |roots| ==> roots[i] < modulus
    ensures r.ZeroModulus? <==> modulus == 0
    ensures modulus > 0 ==>
        |r.coeffs| == |roots| + 1 && forall x: nat :: Same(At(r.coeffs, x), Factors(roots, x), modulus)
    ensures modulus > 1 ==> forall i :: 0 <= i < |r.coeffs| ==> r.coeffs[i] < modulus
  {
    hide At, Factors, Same;
    if modulus == 0 {
      return ZeroModulus;
    }
    var polyn: seq<nat> := [1];
    forall x: nat
      ensures Same(At(polyn, x), Factors(roots[..0], x), modulus)
    {
      OneIsEmptyProduct(x, modulus);
    }
    for k := 0 to |roots|
      invariant |polyn| == k + 1
      invariant modulus > 1 ==> forall i :: 0 <= i < |polyn| ==> polyn[i] < modulus
      invariant forall x: nat :: Same(At(polyn, x), Factors(roots[..k], x), modulus)
    {
      var next := MulMonicMonomial(polyn, roots[k], modulus);
      forall x: nat
        ensures Same(At(next, x), Factors(roots[..k + 1], x), modulus)
      {
        OneMoreRoot(polyn, next, roots, k, x, modulus);
      }
      polyn := next;
    }
    assert roots[..|roots|] == roots;
    return Monic(polyn);
  }

  lemma OneIsEmptyProduct(x: nat, m: nat)
    requires m > 0
    ensures Same(At([1], x), Factors([], x), m)
  {
    assert At([1], x) == At([], x) + 1 * Exp(x, 0);
    SameBy(1, 1, m, 0);
  }

  lemma OneMoreRoot(polyn: seq<nat>, next: seq<nat>, roots: seq<nat>, k: nat, x: nat, m: nat)
    requires m > 0 && k < |roots| && Same(At(polyn, x), Factors(roots[..k], x), m)
    requires Same(At(next, x), At(polyn, x) * (x - roots[k]), m)
    ensures Same(At(next, x), Factors(roots[..k + 1], x), m)
  {
    hide At, Same;
    assert roots[..k + 1][..k] == roots[..k];
    var d := x - roots[k];
    SameBy(d, d, m, 0);
    SameMul(At(polyn, x), Factors(roots[..k], x), d, d, m);
    SameTrans(At(next, x), At(polyn, x) * d, Factors(roots[..k], x) * d, m);
  }

  lemma Apart(x: nat, r: nat, m: nat)
    requires x < m && r < m && Same(x - r, 0, m)
    ensures x == r
  {
    var k :| x - r - 0 == m * k;
    MulBound(k, m);
  }

  /** The product of the factors is 0 modulo a prime exactly at the roots. */
  lemma {:induction false} RootIff(roots: seq<nat>, x: nat, m: nat)
    requires Prime(m) && x < m && forall i :: 0 <= i < |roots| ==> roots[i] < m
    ensures Same(Factors(roots, x), 0, m) <==> x in roots
  {
    hide Prime, Same;
    if roots == [] {
      OneIsNotZero(m);
    } else {
      var n := |roots| - 1;
      var rest, last := Factors(roots[..n], x), x - roots[n];
      RootIff(roots[..n], x, m);
      assert x in roots <==> x in roots[..n] || x == roots[n];
      if Same(rest * last, 0, m) {
        ZeroProduct(m, rest, last);
        if Same(last, 0, m) {
          Apart(x, roots[n], m);
        }
      }
      if x in roots {
        SameBy(rest, rest, m, 0);
        SameBy(last, last, m, 0);
        if x == roots[n] {
          SameBy(rest * last, 0, m, 0);
        } else {
          SameMul(rest, 0, last, last, m);
        }
      }
    }
  }

  lemma OneIsNotZero(m: nat)
    requires Prime(m)
    ensures !Same(1, 0, m)
  {
    if Same(1, 0, m) {
      SameZero(1, m);
      Remainder(m, 0, 1);
    }
  }

  /** The matching polynomial is 0 exactly at the bin's items. */
  lemma MatchIff(polyn: seq<nat>, roots: seq<nat>, x: nat, m: nat)
    requires Prime(m) && x < m && forall i :: 0 <= i < |roots| ==> roots[i] < m
    requires Same(At(polyn, x), Factors(roots, x), m)
    ensures At(polyn, x) % m == 0 <==> x in roots
  {
    hide Prime, Same, At, Factors;
    var value := At(polyn, x);
    PrimePositive(m);
    RootIff(roots, x, m);
    IntSame(value, m);
    if x in roots {
      SameTrans(value, Factors(roots, x), 0, m);
      SameZero(value, m);
    }
    if value % m == 0 {
      SameSym(value, Factors(roots, x), m);
      SameSym(0, value, m);
      SameTrans(Factors(roots, x), value, 0, m);
    }
  }
}

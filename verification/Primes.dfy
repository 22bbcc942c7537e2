/** Prime numbers: a product is divisible only if a factor is. */
module Primes {
  import opened Division
  import opened Residues

  predicate Divides(d: nat, n: nat) {
    d > 0 && n % d == 0
  }

  ghost predicate Prime(p: nat) {
    p > 1 && forall d: nat :: Divides(d, p) ==> d == 1 || d == p
  }

  /** The least positive number, from `d` up to `p`, whose product with `b` is a multiple of `p`. */
  function LeastFrom(p: nat, b: nat, d: nat): (r: nat)
    requires 0 < d <= p && (p * b) % p == 0
    ensures d <= r <= p && (r * b) % p == 0
    ensures forall e: nat :: d <= e < r ==> (e * b) % p != 0
    decreases p - d
  {
    if (d * b) % p == 0 then d else LeastFrom(p, b, d + 1)
  }

  /** It divides every other such number. */
  lemma LeastDivides(p: nat, b: nat, least: nat, e: nat)
    requires p > 0 && least > 0 && (least * b) % p == 0 && (e * b) % p == 0
    requires forall d: nat :: 1 <= d < least ==> (d * b) % p != 0
    ensures Divides(least, e)
  {
    var q, r := e / least, e % least;
    RemainderBelow(e, least);
    RemainderBelow(least * b, p);
    var k := least * b / p;
    TimesMultiple(q, r, b, least);
    assert (q * b) * least == q * (least * b) by {
      ProductAssoc(q, b, least);
      Commutes(b, least);
    }
    ProductAssoc(q, k, p);
    DropMultiple(q * k, r * b, p);
  }

  lemma MultipleOf(p: nat, b: nat)
    requires p > 0
    ensures (p * b) % p == 0
  {
    Commutes(p, b);
    Remainder(p, b, 0);
  }

  /** Euclid's lemma. */
  lemma DividesFactor(p: nat, a: nat, b: nat)
    requires Prime(p) && (a * b) % p == 0
    ensures a % p == 0 || b % p == 0
  {
    MultipleOf(p, b);
    var least := LeastFrom(p, b, 1);
    LeastDivides(p, b, least, p);
    LeastDivides(p, b, least, a);
  }

  /** The same for integers, in terms of congruence. */
  lemma ZeroProduct(p: nat, a: int, b: int)
    requires Prime(p) && Same(a * b, 0, p)
    ensures Same(a, 0, p) || Same(b, 0, p)
  {
    hide Prime, Same;
    PrimePositive(p);
    IntSame(a, p);
    IntSame(b, p);
    var x, y := a % p, b % p;
    SameMul(x, a, y, b, p);
    SameTrans(x * y, a * b, 0, p);
    SameZero(x * y, p);
    DividesFactor(p, x, y);
    SameBack(a, p);
    SameBack(b, p);
  }

  lemma PrimePositive(p: nat)
    requires Prime(p)
    ensures p > 1
  {
  }

  lemma IntSame(a: int, p: nat)
    requires p > 0
    ensures 0 <= a % p < p && Same(a % p, a, p)
  {
    SameBy(a % p, a, p, -(a / p));
  }

  lemma SameZero(n: nat, p: nat)
    requires p > 0 && Same(n, 0, p)
    ensures n % p == 0
  {
    SameSym(n, 0, p);
    SameReduced(0, n, p);
  }

  lemma SameBack(a: int, p: nat)
    requires p > 0
    ensures (a % p) % p == 0 ==> Same(a, 0, p)
  {
    IntSame(a, p);
    if (a % p) % p == 0 {
      Remainder(p, 0, a % p);
      SameSym(0, a, p);
    }
  }

  lemma SameSym(a: int, b: int, m: nat)
    requires m > 0 && Same(a, b, m)
    ensures Same(b, a, m)
  {
    var k :| a - b == m * k;
    SameBy(b, a, m, -k);
  }
}

/** Natural numbers modulo a number. */
module Residues {
  import opened Division

  /** Two numbers that leave the same remainder. */
  ghost predicate Same(a: int, b: int, m: nat)
    requires m > 0
  {
    exists k: int :: a - b == m * k
  }

  lemma SameBy(a: int, b: int, m: nat, k: int)
    requires m > 0 && a - b == m * k
    ensures Same(a, b, m)
  {
  }

  lemma ModSame(a: nat, m: nat)
    requires m > 0
    ensures Same(a % m, a, m)
  {
    SameBy(a % m, a, m, -(a / m));
  }

  lemma SameTrans(a: int, b: int, c: int, m: nat)
    requires m > 0 && Same(a, b, m) && Same(b, c, m)
    ensures Same(a, c, m)
  {
    var j :| a - b == m * j;
    var k :| b - c == m * k;
    assert m * (j + k) == m * j + m * k;
    SameBy(a, c, m, j + k);
  }

  lemma Scaled(d: int, m: nat, k: int, c: int)
    requires d == m * k
    ensures d * c == m * (k * c)
  {
  }

  lemma SameMul(a: int, b: int, c: int, d: int, m: nat)
    requires m > 0 && Same(a, b, m) && Same(c, d, m)
    ensures Same(a * c, b * d, m)
  {
    var j :| a - b == m * j;
    var k :| c - d == m * k;
    Scaled(a - b, m, j, c);
    Scaled(c - d, m, k, b);
    assert (a - b) * c == a * c - b * c && (c - d) * b == b * c - b * d;
    SameBy(a * c, b * c, m, j * c);
    SameBy(b * c, b * d, m, k * b);
    SameTrans(a * c, b * c, b * d, m);
  }

  lemma SameReduced(a: nat, b: nat, m: nat)
    requires m > 0 && Same(a, b, m) && a < m
    ensures a == b % m
  {
    var k :| a - b == m * k;
    assert b == m * (b / m) + b % m;
    var d := k + b / m;
    assert m * d == m * k + m * (b / m);
    assert m * d == a - b % m;
    MulBound(d, m);
  }

  lemma MulBound(d: int, m: nat)
    requires m > 0
    ensures d >= 1 ==> m * d >= m
    ensures d <= -1 ==> m * d + m <= 0
  {
  }

  lemma SameAdd(a: int, b: int, c: int, d: int, m: nat)
    requires m > 0 && Same(a, b, m) && Same(c, d, m)
    ensures Same(a + c, b + d, m)
  {
    var j :| a - b == m * j;
    var k :| c - d == m * k;
    Spreads(m, j, k);
    Commutes(m, j + k);
    SameBy(a + c, b + d, m, j + k);
  }

  /** Multiples of the modulus can be dropped. */
  lemma DropMultiple(k: nat, c: nat, m: nat)
    requires m > 0
    ensures (k * m + c) % m == c % m
  {
    var q := c / m;
    RemainderBelow(c, m);
    assert (k + q) * m == k * m + q * m;
    Remainder(m, k + q, c % m);
  }

  lemma AddReduced(a: nat, b: nat, m: nat)
    requires m > 0
    ensures (a % m + b) % m == (a + b) % m
  {
    RemainderBelow(a, m);
    DropMultiple(a / m, a % m + b, m);
  }

  lemma ReducedOnce(a: nat, m: nat)
    requires m > 0
    ensures (a % m) % m == a % m
  {
    AddReduced(a, 0, m);
  }

  lemma TimesMultiple(q: nat, r: nat, b: nat, m: nat)
    ensures (q * m + r) * b == (q * b) * m + r * b
  {
  }

  lemma MulReduced(a: nat, b: nat, m: nat)
    requires m > 0
    ensures ((a % m) * b) % m == (a * b) % m
  {
    RemainderBelow(a, m);
    TimesMultiple(a / m, a % m, b, m);
    DropMultiple((a / m) * b, (a % m) * b, m);
  }

  lemma Commutes(a: int, b: int)
    ensures a * b == b * a
  {
  }

  lemma Spreads(a: int, b: int, c: int)
    ensures (b + c) * a == a * b + a * c
  {
  }

  lemma Sums(a: nat, b: nat, c: nat, m: nat)
    requires a < m
    ensures ((a + b) % m + c) % m == (a + (b + c) % m) % m && (0 % m + a) % m == a
  {
    AddReduced(a + b, c, m);
    AddReduced(b + c, a, m);
    AddReduced(0, a, m);
    Remainder(m, 0, a);
  }

  lemma Products(a: nat, b: nat, c: nat, m: nat)
    requires m > 0
    ensures (a * b) % m == (b * a) % m && (((a * b) % m) * c) % m == (a * ((b * c) % m)) % m
  {
    MulReduced(a * b, c, m);
    MulReduced(b * c, a, m);
    ProductAssoc(a, b, c);
    Commutes(a, (b * c) % m);
    Commutes(a, b * c);
    Commutes(a, b);
  }

  lemma Units(a: nat, m: nat)
    requires a < m
    ensures ((1 % m) * a) % m == a && (a * (0 % m)) % m == 0 % m
  {
    MulReduced(1, a, m);
    Remainder(m, 0, a);
  }

  lemma Distributed(a: nat, b: nat, c: nat, m: nat)
    requires m > 0
    ensures (a * ((b + c) % m)) % m == ((a * b) % m + (a * c) % m) % m
  {
    MulReduced(b + c, a, m);
    Commutes(a, (b + c) % m);
    Spreads(a, b, c);
    AddReduced(a * b, (a * c) % m, m);
    AddReduced(a * c, a * b, m);
  }
}

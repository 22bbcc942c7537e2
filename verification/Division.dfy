/** Quotients, remainders and multiples of natural numbers. */
module Division {

  lemma MulMono(a: int, b: int, c: nat)
    ensures a <= b ==> a * c <= b * c
  {
  }

  lemma TimesOrder(a: int, b: int, c: nat)
    requires c > 0
    ensures a < b <==> a * c < b * c
  {
    if a < b {
      MulMono(a + 1, b, c);
    } else {
      MulMono(b, a, c);
    }
  }

  lemma ProductAssoc(a: int, b: int, c: int)
    ensures (a * b) * c == a * (b * c)
  {
  }

  lemma LastMultiple(first: nat, degree: nat)
    requires first > 0
    ensures (degree / first) * first <= degree < (degree / first) * first + first
  {
  }

  lemma Remainder(first: nat, k: nat, r: nat)
    requires r < first
    ensures (k * first + r) % first == r && (k * first + r) / first == k
  {
    var n := k * first + r;
    assert n == first * (n / first) + n % first;
    var d := n / first - k;
    assert first * d == r - n % first;
    MulMono(1, d, first);
    MulMono(d, -1, first);
  }

  lemma RemainderBelow(n: nat, d: nat)
    requires d > 0
    ensures n == (n / d) * d + n % d
  {
  }

  lemma OffsetRemainder(first: nat, at: nat, j: nat)
    requires j < first && at % first == 0
    ensures (at + j) % first == j
  {
    RemainderBelow(at, first);
    Remainder(first, at / first, j);
  }
}

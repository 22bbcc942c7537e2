/** An abstract commutative ring, in which encrypted slots live, and sums and powers in it. */
module Rings {

  datatype Ring<!T> = Ring(zero: T, one: T, add: (T, T) -> T, mul: (T, T) -> T)

  ghost predicate Lawful<T(!new)>(r: Ring<T>) {
    && (forall a, b :: r.add(a, b) == r.add(b, a))
    && (forall a, b, c :: r.add(r.add(a, b), c) == r.add(a, r.add(b, c)))
    && (forall a :: r.add(r.zero, a) == a)
    && (forall a, b :: r.mul(a, b) == r.mul(b, a))
    && (forall a, b, c :: r.mul(r.mul(a, b), c) == r.mul(a, r.mul(b, c)))
    && (forall a :: r.mul(r.one, a) == a)
    && (forall a, b, c :: r.mul(a, r.add(b, c)) == r.add(r.mul(a, b), r.mul(a, c)))
    && (forall a :: r.mul(a, r.zero) == r.zero)
  }

  lemma Add0<T(!new)>(r: Ring<T>, a: T)
    requires Lawful(r)
    ensures r.add(r.zero, a) == a && r.add(a, r.zero) == a
  {
    assert r.add(r.zero, a) == r.add(a, r.zero);
  }

  lemma AddComm<T(!new)>(r: Ring<T>, a: T, b: T)
    requires Lawful(r)
    ensures r.add(a, b) == r.add(b, a)
  {
  }

  lemma AddAssoc<T(!new)>(r: Ring<T>, a: T, b: T, c: T)
    requires Lawful(r)
    ensures r.add(r.add(a, b), c) == r.add(a, r.add(b, c))
  {
  }

  lemma MulComm<T(!new)>(r: Ring<T>, a: T, b: T)
    requires Lawful(r)
    ensures r.mul(a, b) == r.mul(b, a)
  {
  }

  lemma MulAssoc<T(!new)>(r: Ring<T>, a: T, b: T, c: T)
    requires Lawful(r)
    ensures r.mul(r.mul(a, b), c) == r.mul(a, r.mul(b, c))
  {
  }

  lemma Mul1<T(!new)>(r: Ring<T>, a: T)
    requires Lawful(r)
    ensures r.mul(r.one, a) == a && r.mul(a, r.one) == a && r.mul(r.zero, a) == r.zero
  {
    assert r.mul(r.one, a) == r.mul(a, r.one) && r.mul(r.zero, a) == r.mul(a, r.zero);
  }

  lemma Distributes<T(!new)>(r: Ring<T>, a: T, b: T, c: T)
    requires Lawful(r)
    ensures r.mul(a, r.add(b, c)) == r.add(r.mul(a, b), r.mul(a, c))
    ensures r.mul(r.add(b, c), a) == r.add(r.mul(b, a), r.mul(c, a))
  {
    assert r.mul(r.add(b, c), a) == r.mul(a, r.add(b, c)) && r.mul(a, b) == r.mul(b, a) && r.mul(a, c) == r.mul(c, a);
  }

  function Power<T>(r: Ring<T>, x: T, n: nat): T {
    if n == 0 then r.one else r.mul(x, Power(r, x, n - 1))
  }

  lemma {:induction false} PowerAdd<T(!new)>(r: Ring<T>, x: T, m: nat, n: nat)
    requires Lawful(r)
    ensures Power(r, x, m + n) == r.mul(Power(r, x, m), Power(r, x, n))
  {
    hide Lawful;
    if m == 0 {
      Mul1(r, Power(r, x, n));
    } else {
      PowerAdd(r, x, m - 1, n);
      MulAssoc(r, x, Power(r, x, m - 1), Power(r, x, n));
    }
  }

  /** a[from] x^from + ... + a[upto-1] x^(upto-1) */
  function Terms<T>(r: Ring<T>, a: seq<T>, x: T, from: nat, upto: nat): T
    requires from <= upto <= |a|
    decreases upto
  {
    if from == upto then r.zero else r.add(Terms(r, a, x, from, upto - 1), r.mul(Power(r, x, upto - 1), a[upto - 1]))
  }

  /** The polynomial with coefficients `a` at `x`. */
  function Poly<T>(r: Ring<T>, a: seq<T>, x: T): T {
    Terms(r, a, x, 0, |a|)
  }

  lemma {:induction false} TermsSplit<T(!new)>(r: Ring<T>, a: seq<T>, x: T, from: nat, mid: nat, upto: nat)
    requires Lawful(r) && from <= mid <= upto <= |a|
    ensures Terms(r, a, x, from, upto) == r.add(Terms(r, a, x, from, mid), Terms(r, a, x, mid, upto))
    decreases upto
  {
    hide Lawful;
    if mid == upto {
      Add0(r, Terms(r, a, x, from, upto));
    } else {
      TermsSplit(r, a, x, from, mid, upto - 1);
      AddAssoc(r, Terms(r, a, x, from, mid), Terms(r, a, x, mid, upto - 1), r.mul(Power(r, x, upto - 1), a[upto - 1]));
    }
  }

  /** a[at] x^1 + ... : the terms at+1 .. at+count of the polynomial, divided by x^at. */
  function Inner<T>(r: Ring<T>, a: seq<T>, x: T, at: nat, count: nat): T
    requires at + count < |a|
    decreases count
  {
    if count == 0 then r.zero else r.add(Inner(r, a, x, at, count - 1), r.mul(Power(r, x, count), a[at + count]))
  }

  lemma {:induction false} InnerTerms<T(!new)>(r: Ring<T>, a: seq<T>, x: T, at: nat, count: nat)
    requires Lawful(r) && at + count < |a|
    ensures r.mul(Inner(r, a, x, at, count), Power(r, x, at)) == Terms(r, a, x, at + 1, at + 1 + count)
    decreases count
  {
    hide Lawful;
    var p := Power(r, x, at);
    if count == 0 {
      Mul1(r, p);
    } else {
      InnerTerms(r, a, x, at, count - 1);
      var i, q, c := Inner(r, a, x, at, count - 1), Power(r, x, count), a[at + count];
      Distributes(r, p, i, r.mul(q, c));
      PowerAdd(r, x, at, count);
      MulComm(r, r.mul(q, c), p);
      MulAssoc(r, p, q, c);
    }
  }
}

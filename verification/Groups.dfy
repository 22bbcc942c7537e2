/** An abstract abelian group, standing for the curve points, and integer multiples in it. */
module Groups {

  import opened Words

  datatype Group<!T> = Group(zero: T, add: (T, T) -> T, neg: T -> T)

  ghost predicate Lawful<T(!new)>(g: Group<T>) {
    && (forall a, b :: g.add(a, b) == g.add(b, a))
    && (forall a, b, c :: g.add(g.add(a, b), c) == g.add(a, g.add(b, c)))
    && (forall a :: g.add(g.zero, a) == a)
    && (forall a :: g.add(a, g.neg(a)) == g.zero)
  }

  lemma Comm<T(!new)>(g: Group<T>, a: T, b: T)
    requires Lawful(g)
    ensures g.add(a, b) == g.add(b, a)
  {
  }

  lemma Assoc<T(!new)>(g: Group<T>, a: T, b: T, c: T)
    requires Lawful(g)
    ensures g.add(g.add(a, b), c) == g.add(a, g.add(b, c))
  {
  }

  lemma Zero<T(!new)>(g: Group<T>, a: T)
    requires Lawful(g)
    ensures g.add(g.zero, a) == a && g.add(a, g.zero) == a
  {
    assert g.add(a, g.zero) == g.add(g.zero, a);
  }

  lemma Inverse<T(!new)>(g: Group<T>, a: T)
    requires Lawful(g)
    ensures g.add(a, g.neg(a)) == g.zero && g.add(g.neg(a), a) == g.zero
  {
    assert g.add(g.neg(a), a) == g.add(a, g.neg(a));
  }

  lemma OneInverse<T(!new)>(g: Group<T>, a: T, b: T)
    requires Lawful(g) && g.add(a, b) == g.zero
    ensures b == g.neg(a)
  {
    hide Lawful;
    Inverse(g, a);
    Assoc(g, g.neg(a), a, b);
    Zero(g, b);
    Zero(g, g.neg(a));
  }

  /** (a + b) + (c + d) == (a + c) + (b + d) */
  lemma Swap<T(!new)>(g: Group<T>, a: T, b: T, c: T, d: T)
    requires Lawful(g)
    ensures g.add(g.add(a, b), g.add(c, d)) == g.add(g.add(a, c), g.add(b, d))
  {
    hide Lawful;
    Assoc(g, a, b, g.add(c, d));
    Assoc(g, b, c, d);
    Comm(g, b, c);
    Assoc(g, c, b, d);
    Assoc(g, a, c, g.add(b, d));
  }

  /** n P */
  ghost function Mul<T>(g: Group<T>, n: int, p: T): T
    decreases if n < 0 then -n else n
  {
    if n == 0 then g.zero
    else if n > 0 then g.add(p, Mul(g, n - 1, p))
    else g.add(g.neg(p), Mul(g, n + 1, p))
  }

  lemma MulNext<T(!new)>(g: Group<T>, n: int, p: T)
    requires Lawful(g)
    ensures Mul(g, n + 1, p) == g.add(p, Mul(g, n, p))
  {
    hide Lawful;
    if n < 0 {
      Assoc(g, p, g.neg(p), Mul(g, n + 1, p));
      Inverse(g, p);
      Zero(g, Mul(g, n + 1, p));
    }
  }

  lemma {:induction false} MulAdd<T(!new)>(g: Group<T>, m: int, n: int, p: T)
    requires Lawful(g)
    ensures Mul(g, m + n, p) == g.add(Mul(g, m, p), Mul(g, n, p))
    decreases if m < 0 then -m else m
  {
    hide Lawful;
    if m == 0 {
      Zero(g, Mul(g, n, p));
    } else if m > 0 {
      MulAdd(g, m - 1, n, p);
      MulNext(g, m - 1 + n, p);
      Assoc(g, p, Mul(g, m - 1, p), Mul(g, n, p));
    } else {
      MulAdd(g, m + 1, n, p);
      MulNext(g, m + n, p);
      Assoc(g, g.neg(p), Mul(g, m + 1, p), Mul(g, n, p));
      Assoc(g, g.neg(p), p, Mul(g, m + n, p));
      Inverse(g, p);
      Zero(g, Mul(g, m + n, p));
    }
  }

  lemma MulNeg<T(!new)>(g: Group<T>, n: int, p: T)
    requires Lawful(g)
    ensures Mul(g, -n, p) == g.neg(Mul(g, n, p))
  {
    hide Lawful;
    MulAdd(g, n, -n, p);
    OneInverse(g, Mul(g, n, p), Mul(g, -n, p));
  }

  lemma MulOne<T(!new)>(g: Group<T>, p: T)
    requires Lawful(g)
    ensures Mul(g, 1, p) == p
  {
    hide Lawful;
    Zero(g, p);
  }

  lemma {:induction false} MulOfZero<T(!new)>(g: Group<T>, m: int)
    requires Lawful(g)
    ensures Mul(g, m, g.zero) == g.zero
    decreases if m < 0 then -m else m
  {
    hide Lawful;
    if m == 0 {
    } else {
      MulOfZero(g, if m > 0 then m - 1 else m + 1);
      Zero(g, g.zero);
      Inverse(g, g.zero);
      Zero(g, g.neg(g.zero));
    }
  }

  lemma {:induction false} MulMul<T(!new)>(g: Group<T>, m: int, n: int, p: T)
    requires Lawful(g)
    ensures Mul(g, m, Mul(g, n, p)) == Mul(g, m * n, p)
    decreases if m < 0 then -m else m
  {
    hide Lawful;
    var q := Mul(g, n, p);
    if m == 0 {
    } else if m > 0 {
      MulMul(g, m - 1, n, p);
      MulAdd(g, n, (m - 1) * n, p);
      assert n + (m - 1) * n == m * n;
    } else {
      MulMul(g, m + 1, n, p);
      MulNeg(g, n, p);
      MulAdd(g, -n, (m + 1) * n, p);
      assert -n + (m + 1) * n == m * n;
    }
  }

  /** `n` times the point is neutral. */
  ghost predicate Annihilates<T>(g: Group<T>, n: int, p: T) {
    Mul(g, n, p) == g.zero
  }

  /** Multiples of a point depend only on the factor modulo a number that annihilates it. */
  lemma MulReduced<T(!new)>(g: Group<T>, order: int, q: int, n: int, p: T)
    requires Lawful(g) && Annihilates(g, order, p)
    ensures Mul(g, order * q + n, p) == Mul(g, n, p)
  {
    hide Lawful, Mul;
    MulAdd(g, order * q, n, p);
    MulMul(g, q, order, p);
    assert q * order == order * q;
    MulOfZero(g, q);
    Zero(g, Mul(g, n, p));
  }

  /** Multiples of a point have its order. */
  lemma MultipleAnnihilated<T(!new)>(g: Group<T>, order: int, n: int, p: T)
    requires Lawful(g) && Annihilates(g, order, p)
    ensures Annihilates(g, order, Mul(g, n, p))
  {
    hide Lawful, Mul;
    MulMul(g, order, n, p);
    MulMul(g, n, order, p);
    assert order * n == n * order;
    MulOfZero(g, n);
  }

  /** A sum of multiples of four points. */
  ghost function Four<T>(g: Group<T>, n: seq<int>, p: seq<T>): T
    requires |n| == 4 && |p| == 4
  {
    g.add(g.add(Mul(g, n[0], p[0]), Mul(g, n[1], p[1])), g.add(Mul(g, n[2], p[2]), Mul(g, n[3], p[3])))
  }

  lemma FourAdd<T(!new)>(g: Group<T>, m: seq<int>, n: seq<int>, p: seq<T>)
    requires Lawful(g) && |m| == 4 && |n| == 4 && |p| == 4
    ensures g.add(Four(g, m, p), Four(g, n, p)) == Four(g, [m[0] + n[0], m[1] + n[1], m[2] + n[2], m[3] + n[3]], p)
  {
    hide Lawful, Mul;
    MulAdd(g, m[0], n[0], p[0]);
    MulAdd(g, m[1], n[1], p[1]);
    MulAdd(g, m[2], n[2], p[2]);
    MulAdd(g, m[3], n[3], p[3]);
    var a, b, c, d := Mul(g, m[0], p[0]), Mul(g, m[1], p[1]), Mul(g, m[2], p[2]), Mul(g, m[3], p[3]);
    var a', b', c', d' := Mul(g, n[0], p[0]), Mul(g, n[1], p[1]), Mul(g, n[2], p[2]), Mul(g, n[3], p[3]);
    Swap(g, g.add(a, b), g.add(c, d), g.add(a', b'), g.add(c', d'));
    Swap(g, a, b, a', b');
    Swap(g, c, d, c', d');
  }

  lemma FourNeg<T(!new)>(g: Group<T>, n: seq<int>, p: seq<T>)
    requires Lawful(g) && |n| == 4 && |p| == 4
    ensures g.neg(Four(g, n, p)) == Four(g, [-n[0], -n[1], -n[2], -n[3]], p)
  {
    hide Lawful;
    FourAdd(g, n, [-n[0], -n[1], -n[2], -n[3]], p);
    FourZero(g, p);
    OneInverse(g, Four(g, n, p), Four(g, [-n[0], -n[1], -n[2], -n[3]], p));
  }

  lemma FourZero<T(!new)>(g: Group<T>, p: seq<T>)
    requires Lawful(g) && |p| == 4
    ensures Four(g, [0, 0, 0, 0], p) == g.zero
  {
    hide Lawful;
    Zero(g, g.zero);
  }

  /** Doubling, as the code does it. */
  function Double<T>(g: Group<T>, p: T): T {
    g.add(p, p)
  }

  /** A signed entry of a table. */
  function Signed<T>(g: Group<T>, positive: bool, p: T): T {
    if positive then p else g.neg(p)
  }

  /** `table_lookup_1x8` */
  function Lookup<T>(g: Group<T>, table: seq<T>, digit: nat, mask: nat): T
    requires digit < |table|
  {
    Signed(g, mask == ALL_ONES, table[digit])
  }
}

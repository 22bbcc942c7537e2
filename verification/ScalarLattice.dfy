/**
 * The lattice behind the scalar decomposition: four short vectors, each of which the eigenvalues of
 * the endomorphisms send to a multiple of the group order, and the rounding that finds a point of the
 * lattice near a given scalar.
 */
module ScalarLattice {
  import opened Division
  import opened Words

  /** Order of the points that the code multiplies. */
  const ORDER: nat := 0x29cbc14e5e0a72f05397829cbc14e5dfbd004dfe0f79992fb2540ec7768ce7
  /** On points of this order the endomorphisms phi and psi are multiplication by these numbers. */
  const LPHI: nat := 0x6d9069dc876c883c18f03c13d737624874f0b5e4daa9bcdf0e63ce8997864
  const LPSI: nat := 0x18c475353519268c4c2510ab53b51ecb3688ca09ef0e885dc7f2b7cdfd2a88

  // The offset vector, the basis vectors and the rounded multipliers.
  const C1: int := 0x72482C5251A4559C
  const C2: int := 0x59F95B0ADD276F6C
  const C3: int := 0x7DD2D17C4625FA78
  const C4: int := 0x6BC57DEF56CE8877
  const B11: int := 0x0906FF27E0A0A196
  const B12: int := 0x1363E862C22A2DA0
  const B13: int := 0x07426031ECC8030F
  const B14: int := 0x084F739986B9E651
  const B21: int := 0x1D495BEA84FCC2D4
  const B24: int := 0x25DBC5BC8DD167D0
  const B31: int := 0x17ABAD1D231F0302
  const B32: int := 0x02C4211AE388DA51
  const B33: int := 0x2E4D21C98927C49F
  const B34: int := 0x0A9E6F44C02ECD97
  const B41: int := 0x136E340A9108C83F
  const B42: int := 0x3122DF2DC3E0FF32
  const B43: int := 0x068A49F02AA8A9B5
  const B44: int := 0x18D5087896DE0AEA
  const ELL1: seq<nat> := [0x259686E09D1A7D4F, 0xF75682ACE6A6BD66, 0xFC5BB5C5EA2BE5DF, 0x07]
  const ELL2: seq<nat> := [0xD1BA1D84DD627AFB, 0x2BD235580F468D8D, 0x8FD4B04CAA6C0F8A, 0x03]
  const ELL3: seq<nat> := [0x9B291A33678C203C, 0xC42BD6C965DCA902, 0xD038BF8D0BFFBAF6, 0x00]
  const ELL4: seq<nat> := [0x12E5666B77E7FDC0, 0x81CBDC3714983D82, 0x1B073877A22D8410, 0x03]

  // The scalar's coordinates in the basis are these numbers over the order: cofactors of the basis.
  const COFACTOR1: int := 0x14dc5d488cd6a6eac67135940ccd74dea06602cea4d40bf
  const COFACTOR2: int := 0x94dece6a8ec346749970afe494c799b5dae57581019541
  const COFACTOR3: int := 0x21fed0e801f581ca3f5ff94573e5550f5adb35a1432677
  const COFACTOR4: int := 0x81ccef18c1a963edcc0c62a5ba3833d3b3a64ddeb13905

  // What the multipliers miss of 2^256 times these numbers, scaled by the order.
  const ERROR1: int := 0x11548ea7cf8cc42bfdcca44ce8f40edbbfffb99f88826decbd52886ad84649
  const ERROR2: int := -0xfa08daded9990ecc05ec3d5ca1db81db56fe594f101a112520552942fc383
  const ERROR3: int := -0x31687efce60cdb470c1009fd8a60594004a20518cf37c6870240f6f4619dc
  const ERROR4: int := 0xca22265880544f1888f40bada3d10a98180963c61e6ec9e33ac3b479af840

  /** A four-word scalar times a rounded multiplier, without the upper half of the scalar's words. */
  ghost function Rounded(v: nat, ell: nat): nat {
    v * ell / WORD4
  }

  /** How far a rounded coordinate, scaled by the order, is from the scalar's own coordinate. */
  ghost function Miss(v: nat, cofactor: int, a: int): int {
    v * cofactor - ORDER * a
  }

  lemma MissIs(v: nat, ell: nat, cofactor: int, e: int, a: int)
    requires ORDER * ell == WORD4 * cofactor + e
    ensures WORD4 * Miss(v, cofactor, a) == ORDER * (v * ell - WORD4 * a) - v * e
  {
    ProductAssoc(WORD4, v, cofactor);
    ProductAssoc(v, WORD4, cofactor);
    ProductAssoc(v, ORDER, ell);
    ProductAssoc(ORDER, v, ell);
    assert v * (WORD4 * cofactor + e) == v * (WORD4 * cofactor) + v * e;
    assert v * WORD4 == WORD4 * v && v * ORDER == ORDER * v;
  }

  lemma MissBounds(v: nat, ell: nat, cofactor: int, e: int)
    requires v < WORD4 && ORDER * ell == WORD4 * cofactor + e
    ensures e >= 0 ==> -e <= Miss(v, cofactor, Rounded(v, ell)) <= ORDER
    ensures e <= 0 ==> 0 <= Miss(v, cofactor, Rounded(v, ell)) <= ORDER - e
  {
    hide Miss;
    MissIs(v, ell, cofactor, e, Rounded(v, ell));
    RemainderBelow(v * ell, WORD4);
    MissWithin(Miss(v, cofactor, Rounded(v, ell)), v * ell % WORD4, v, e);
  }

  lemma MissWithin(d: int, r: nat, v: nat, e: int)
    requires v < WORD4 && r < WORD4 && WORD4 * d == ORDER * r - v * e
    ensures e >= 0 ==> -e <= d <= ORDER
    ensures e <= 0 ==> 0 <= d <= ORDER - e
  {
    var q := v * e;
    ProductWithin(v, e);
    MissBetween(d, r, q, e);
  }

  lemma ProductWithin(v: nat, e: int)
    requires v < WORD4
    ensures e >= 0 ==> 0 <= v * e <= WORD4 * e
    ensures e <= 0 ==> WORD4 * e <= v * e <= 0
  {
    if e >= 0 {
      MulMono(v, WORD4, e);
      MulMono(0, v, e);
    } else {
      MulMono(v, WORD4, -e);
      MulMono(0, v, -e);
      assert v * -e == -(v * e);
    }
  }

  lemma MissBetween(d: int, r: nat, q: int, e: int)
    requires r < WORD4 && WORD4 * d == ORDER * r - q
    requires e >= 0 ==> 0 <= q <= WORD4 * e
    requires e <= 0 ==> WORD4 * e <= q <= 0
    ensures e >= 0 ==> -e <= d <= ORDER
    ensures e <= 0 ==> 0 <= d <= ORDER - e
  {
  }

  /** A sum of four products. */
  ghost function Dot(a: seq<int>, b: seq<int>): int
    requires |a| == 4 && |b| == 4
  {
    a[0] * b[0] + a[1] * b[1] + a[2] * b[2] + a[3] * b[3]
  }

  // The basis vectors, one coordinate of all four at a time.
  const ROW1: seq<int> := [B11, B21, B31, B41]
  const ROW2: seq<int> := [-B12, -1, B32, B42]
  const ROW3: seq<int> := [B13, 1, -B33, -B43]
  const ROW4: seq<int> := [-B14, B24, B34, -B44]
  const COFACTORS: seq<int> := [COFACTOR1, COFACTOR2, COFACTOR3, COFACTOR4]

  /** The scalar less its rounded coordinates, plus the offset, moved by the last basis vector or not. */
  ghost function Near(v: nat, a: seq<int>, m: nat): (r: seq<int>)
    requires |a| == 4
    ensures |r| == 4
  {
    [v - Dot(a, ROW1) + (C1 + m * B41), -Dot(a, ROW2) + (C2 + m * B42),
     -Dot(a, ROW3) + (C3 - m * B43), -Dot(a, ROW4) + (C4 - m * B44)]
  }

  ghost function Coordinates(v: nat): (r: seq<nat>)
    ensures |r| == 4
  {
    [Rounded(v, Value(ELL1)), Rounded(v, Value(ELL2)), Rounded(v, Value(ELL3)), Rounded(v, Value(ELL4))]
  }

  /** The cofactors times the basis: the order along the scalar, nothing along the rest. */
  lemma Cofactors()
    ensures Dot(COFACTORS, ROW1) == ORDER
    ensures Dot(COFACTORS, ROW2) == Dot(COFACTORS, ROW3) == Dot(COFACTORS, ROW4) == 0
  {
  }

  ghost function Misses(v: nat, a: seq<int>): (r: seq<int>)
    requires |a| == 4
    ensures |r| == 4
  {
    [Miss(v, COFACTOR1, a[0]), Miss(v, COFACTOR2, a[1]), Miss(v, COFACTOR3, a[2]), Miss(v, COFACTOR4, a[3])]
  }

  lemma MissTimes(v: nat, cofactor: int, a: int, b: int)
    ensures Miss(v, cofactor, a) * b == v * (cofactor * b) - ORDER * (a * b)
  {
    ProductAssoc(v, cofactor, b);
    ProductAssoc(ORDER, a, b);
    assert (v * cofactor - ORDER * a) * b == (v * cofactor) * b - (ORDER * a) * b;
  }

  /** Misses along one coordinate of the basis vectors. */
  lemma MissesAlong(v: nat, a: seq<int>, row: seq<int>)
    requires |a| == 4 && |row| == 4
    ensures Dot(Misses(v, a), row) == v * Dot(COFACTORS, row) - ORDER * Dot(a, row)
  {
    hide Miss;
    MissTimes(v, COFACTOR1, a[0], row[0]);
    MissTimes(v, COFACTOR2, a[1], row[1]);
    MissTimes(v, COFACTOR3, a[2], row[2]);
    MissTimes(v, COFACTOR4, a[3], row[3]);
    TimesSum4(v, COFACTOR1 * row[0], COFACTOR2 * row[1], COFACTOR3 * row[2], COFACTOR4 * row[3]);
    TimesSum4(ORDER, a[0] * row[0], a[1] * row[1], a[2] * row[2], a[3] * row[3]);
  }

  lemma TimesSum4(x: int, a: int, b: int, c: int, d: int)
    ensures x * (a + b + c + d) == x * a + x * b + x * c + x * d
  {
  }

  /** Scaled by the order, what is left of the scalar is the offset and the misses along the basis. */
  lemma NearByMisses(v: nat, a: seq<int>, m: nat)
    requires |a| == 4
    ensures ORDER * Near(v, a, m)[0] == Dot(Misses(v, a), ROW1) + ORDER * (C1 + m * B41)
    ensures ORDER * Near(v, a, m)[1] == Dot(Misses(v, a), ROW2) + ORDER * (C2 + m * B42)
    ensures ORDER * Near(v, a, m)[2] == Dot(Misses(v, a), ROW3) + ORDER * (C3 - m * B43)
    ensures ORDER * Near(v, a, m)[3] == Dot(Misses(v, a), ROW4) + ORDER * (C4 - m * B44)
  {
    hide Dot, Misses;
    Cofactors();
    MissesAlong(v, a, ROW1);
    MissesAlong(v, a, ROW2);
    MissesAlong(v, a, ROW3);
    MissesAlong(v, a, ROW4);
  }

  /** Where the misses lie. */
  ghost predicate Bounded(d: seq<int>)
    requires |d| == 4
  {
    -ERROR1 <= d[0] <= ORDER && 0 <= d[1] <= ORDER - ERROR2 && 0 <= d[2] <= ORDER - ERROR3 && -ERROR4 <= d[3] <= ORDER
  }

  lemma MissesBounded(v: nat)
    requires v < WORD4
    ensures Bounded(Misses(v, Coordinates(v)))
  {
    hide Miss, Rounded;
    MissBounds(v, Value(ELL1), COFACTOR1, ERROR1);
    MissBounds(v, Value(ELL2), COFACTOR2, ERROR2);
    MissBounds(v, Value(ELL3), COFACTOR3, ERROR3);
    MissBounds(v, Value(ELL4), COFACTOR4, ERROR4);
  }

  /** Whatever the misses, the four combinations stay inside a word. */
  lemma NearInWord(d: seq<int>, m: nat, x: int, row: seq<int>, offset: int)
    requires |d| == 4 && |row| == 4 && Bounded(d) && m <= 1
    requires ORDER * x == Dot(d, row) + ORDER * offset
    requires (row == ROW1 && offset == C1 + m * B41) || (row == ROW2 && offset == C2 + m * B42) ||
      (row == ROW3 && offset == C3 - m * B43) || (row == ROW4 && offset == C4 - m * B44)
    ensures 0 <= x < WORD
  {
  }

  /** The combinations of a four-word scalar are four words, before any reduction. */
  lemma NearFits(v: nat, m: nat)
    requires v < WORD4 && m <= 1
    ensures forall j :: 0 <= j < 4 ==> 0 <= Near(v, Coordinates(v), m)[j] < WORD
  {
    hide Dot, Misses, Bounded, Coordinates;
    var a := Coordinates(v);
    var d, x := Misses(v, a), Near(v, a, m);
    MissesBounded(v);
    NearByMisses(v, a, m);
    NearInWord(d, m, x[0], ROW1, C1 + m * B41);
    NearInWord(d, m, x[1], ROW2, C2 + m * B42);
    NearInWord(d, m, x[2], ROW3, C3 - m * B43);
    NearInWord(d, m, x[3], ROW4, C4 - m * B44);
  }

  /** What phi, psi and both together multiply a point with. */
  const EIGEN: seq<int> := [1, LPHI, LPSI, LPHI * LPSI]

  const VECTOR1: seq<int> := [B11, -B12, B13, -B14]
  const VECTOR2: seq<int> := [B21, -1, 1, B24]
  const VECTOR3: seq<int> := [B31, B32, -B33, B34]
  const VECTOR4: seq<int> := [B41, B42, -B43, -B44]
  const OFFSET: seq<int> := [C1, C2, C3, C4]

  /** The basis vectors and the offset stand for multiples of the order. */
  lemma LatticeVectors()
    ensures Dot(VECTOR1, EIGEN) % ORDER == Dot(VECTOR2, EIGEN) % ORDER == Dot(VECTOR3, EIGEN) % ORDER == 0
    ensures Dot(VECTOR4, EIGEN) % ORDER == Dot(OFFSET, EIGEN) % ORDER == 0
  {
  }

  function Plus(x: seq<int>, y: seq<int>): (r: seq<int>)
    requires |x| == 4 && |y| == 4
    ensures |r| == 4
  {
    [x[0] + y[0], x[1] + y[1], x[2] + y[2], x[3] + y[3]]
  }

  function Scaled(c: int, x: seq<int>): (r: seq<int>)
    requires |x| == 4
    ensures |r| == 4
  {
    [c * x[0], c * x[1], c * x[2], c * x[3]]
  }

  lemma DotPlus(x: seq<int>, y: seq<int>, e: seq<int>)
    requires |x| == 4 && |y| == 4 && |e| == 4
    ensures Dot(Plus(x, y), e) == Dot(x, e) + Dot(y, e)
  {
    Spread(x[0], y[0], e[0]);
    Spread(x[1], y[1], e[1]);
    Spread(x[2], y[2], e[2]);
    Spread(x[3], y[3], e[3]);
  }

  lemma Spread(a: int, b: int, c: int)
    ensures (a + b) * c == a * c + b * c
  {
  }

  lemma DotScaled(c: int, x: seq<int>, e: seq<int>)
    requires |x| == 4 && |e| == 4
    ensures Dot(Scaled(c, x), e) == c * Dot(x, e)
  {
    ProductAssoc(c, x[0], e[0]);
    ProductAssoc(c, x[1], e[1]);
    ProductAssoc(c, x[2], e[2]);
    ProductAssoc(c, x[3], e[3]);
    TimesSum4(c, x[0] * e[0], x[1] * e[1], x[2] * e[2], x[3] * e[3]);
  }

  /** A difference of multiples of the basis vectors. */
  ghost function Steps(a: seq<int>, m: nat): (r: seq<int>)
    requires |a| == 4
    ensures |r| == 4
  {
    Plus(Plus(Scaled(-a[0], VECTOR1), Scaled(-a[1], VECTOR2)), Plus(Scaled(-a[2], VECTOR3), Scaled(m - a[3], VECTOR4)))
  }

  lemma NearBySteps(v: nat, a: seq<int>, m: nat)
    requires |a| == 4
    ensures Near(v, a, m) == Plus([v, 0, 0, 0], Plus(Steps(a, m), OFFSET))
  {
  }

  /** A multiple of the order. */
  ghost predicate Vanishes(x: int) {
    exists q: int :: x == ORDER * q
  }

  lemma VanishesBy(x: int)
    requires x % ORDER == 0
    ensures Vanishes(x)
  {
    assert x == ORDER * (x / ORDER);
  }

  lemma VanishesPlus(x: int, y: int)
    requires Vanishes(x) && Vanishes(y)
    ensures Vanishes(x + y)
  {
    var p, q :| x == ORDER * p && y == ORDER * q;
    assert x + y == ORDER * (p + q);
  }

  lemma VanishesTimes(c: int, x: int)
    requires Vanishes(x)
    ensures Vanishes(c * x)
  {
    var q :| x == ORDER * q;
    assert c * (ORDER * q) == ORDER * (c * q);
  }

  lemma StepsVanish(a: seq<int>, m: nat)
    requires |a| == 4
    ensures Vanishes(Dot(Steps(a, m), EIGEN))
  {
    hide Dot, Vanishes, Plus, Scaled;
    LatticeVectors();
    VanishesBy(Dot(VECTOR1, EIGEN));
    VanishesBy(Dot(VECTOR2, EIGEN));
    VanishesBy(Dot(VECTOR3, EIGEN));
    VanishesBy(Dot(VECTOR4, EIGEN));
    var x1, x2 := Scaled(-a[0], VECTOR1), Scaled(-a[1], VECTOR2);
    var x3, x4 := Scaled(-a[2], VECTOR3), Scaled(m - a[3], VECTOR4);
    DotScaled(-a[0], VECTOR1, EIGEN);
    DotScaled(-a[1], VECTOR2, EIGEN);
    DotScaled(-a[2], VECTOR3, EIGEN);
    DotScaled(m - a[3], VECTOR4, EIGEN);
    VanishesTimes(-a[0], Dot(VECTOR1, EIGEN));
    VanishesTimes(-a[1], Dot(VECTOR2, EIGEN));
    VanishesTimes(-a[2], Dot(VECTOR3, EIGEN));
    VanishesTimes(m - a[3], Dot(VECTOR4, EIGEN));
    DotPlus(x1, x2, EIGEN);
    DotPlus(x3, x4, EIGEN);
    DotPlus(Plus(x1, x2), Plus(x3, x4), EIGEN);
    VanishesPlus(Dot(x1, EIGEN), Dot(x2, EIGEN));
    VanishesPlus(Dot(x3, EIGEN), Dot(x4, EIGEN));
    VanishesPlus(Dot(Plus(x1, x2), EIGEN), Dot(Plus(x3, x4), EIGEN));
  }

  /** Whatever lattice point is taken off, the combinations stand for the scalar. */
  lemma NearStandsFor(v: nat, a: seq<int>, m: nat)
    requires |a| == 4
    ensures Vanishes(Dot(Near(v, a, m), EIGEN) - v)
  {
    hide Dot, Vanishes, Plus, Steps;
    NearBySteps(v, a, m);
    StepsVanish(a, m);
    LatticeVectors();
    VanishesBy(Dot(OFFSET, EIGEN));
    DotPlus(Steps(a, m), OFFSET, EIGEN);
    DotPlus([v, 0, 0, 0], Plus(Steps(a, m), OFFSET), EIGEN);
    VanishesPlus(Dot(Steps(a, m), EIGEN), Dot(OFFSET, EIGEN));
    DotScalar(v);
  }

  lemma DotScalar(v: nat)
    ensures Dot([v, 0, 0, 0], EIGEN) == v
  {
  }

  /** Numbers that differ by a multiple of the order leave the same remainder. */
  lemma SameRemainder(x: nat, y: nat)
    requires Vanishes(x - y)
    ensures x % ORDER == y % ORDER
  {
    var q :| x - y == ORDER * q;
    RemainderBelow(y, ORDER);
    var k := y / ORDER + q;
    assert x == k * ORDER + y % ORDER;
    assert k >= 0 by {
      MulMono(k, -1, ORDER);
    }
    Remainder(ORDER, k, y % ORDER);
  }
}

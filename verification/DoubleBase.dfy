/**
 * Double scalar multiplication for signature verification: windowed non-adjacent forms of eight
 * 64-bit sub-scalars, and one loop that doubles once and adds up to eight table entries per bit.
 */
module DoubleBase {
  import opened Bits
  import opened Division
  import opened Groups
  import opened Numerals
  import opened ScalarLattice
  import opened Words
  import Endomorphism

  /** `WQ_DOUBLEBASE` and `WP_DOUBLEBASE` */
  const WQ: nat := 4
  const WP: nat := 8

  /** Every digit is 0, or odd and below 2^(w-1) in size with zeros for the next w-1 digits. */
  ghost predicate NonAdjacent(digits: seq<int>, w: nat)
    requires w >= 1
  {
    forall i :: 0 <= i < |digits| && digits[i] != 0 ==> OddDigit(digits[i], w) && ZerosAfter(digits, i, w)
  }

  ghost predicate OddDigit(d: int, w: nat)
    requires w >= 1
  {
    d % 2 == 1 && -(Pow2(w - 1) as int) < d < Pow2(w - 1)
  }

  ghost predicate ZerosAfter(digits: seq<int>, i: int, w: nat) {
    forall j :: 0 <= i < j < i + w && j < |digits| ==> digits[j] == 0
  }

  /** The digit taken off an odd number, and what is left: it fits into w bits less. */
  lemma DigitOff(k: nat, w: nat, m: nat)
    requires (w == WQ || w == WP) && k % 2 == 1 && k <= Pow2(m)
    ensures var low := k % Pow2(w);
      var d := if low > Pow2(w - 1) - 1 then low - (Pow2(w) as int) else low;
      var rest := k / Pow2(w) + (if d < 0 then 1 else 0);
      && OddDigit(d, w) && k == d + Pow2(w) * rest
      && (rest != 0 ==> m >= w && rest <= Pow2(m - w))
  {
    hide Pow2;
    Widths(w);
    var low, q := k % Pow2(w), k / Pow2(w);
    RemainderBelow(k, Pow2(w));
    RemainderBelow(low, 2);
    RemainderBelow(k, 2);
    Pow2Mono(m, w - 1);
    if m >= w {
      Pow2Add(w, m - w);
      Quotient(k, Pow2(w), Pow2(m - w));
    }
  }

  lemma Widths(w: nat)
    requires w == WQ || w == WP
    ensures Pow2(w) == (if w == WQ then 16 else 256) && Pow2(w - 1) == (if w == WQ then 8 else 128)
  {
  }

  lemma Quotient(k: nat, p: nat, q: nat)
    requires k % 2 == 1 && p > 0 && p % 2 == 0 && k <= p * q
    ensures k / p < q
  {
    RemainderBelow(k, p);
    MulMono(q, k / p, p);
    RemainderBelow(p, 2);
    assert p * q == 2 * ((p / 2) * q);
    Remainder(2, (p / 2) * q, 0);
  }

  /** Between two digits: what has been written, and what is left of the scalar. */
  ghost predicate Between(digits: seq<int>, index: nat, k: nat, w: nat, scalar: nat)
    requires w >= 1
  {
    && index <= |digits| == 65 && NonAdjacent(digits, w)
    && (forall i :: index <= i < 65 ==> digits[i] == 0)
    && (k != 0 ==> index <= 64 && k <= Pow2(64 - index) && forall i :: 0 <= i < index && digits[i] != 0 ==>
      i + w <= index)
    && Number(digits[..index], 2) + PowerOf(2, index) * k == scalar
  }

  lemma {:induction false} NumberZeros(f: seq<int>)
    requires forall i :: 0 <= i < |f| ==> f[i] == 0
    ensures Number(f, 2) == 0
  {
    if f == [] {
    } else {
      NumberZeros(f[1..]);
    }
  }

  lemma Ends(digits: seq<int>, index: nat, w: nat, scalar: nat)
    requires w >= 1 && Between(digits, index, 0, w, scalar)
    ensures Number(digits, 2) == scalar && NonAdjacent(digits, w)
  {
    hide Number, NonAdjacent;
    NumberZeros(digits[index..]);
    NumberConcat(digits[..index], digits[index..], 2);
    assert digits == digits[..index] + digits[index..];
  }

  lemma Begins(digits: seq<int>, w: nat, scalar: nat)
    requires w >= 1 && |digits| == 65 && scalar < WORD && forall i :: 0 <= i < 65 ==> digits[i] == 0
    ensures Between(digits, 0, scalar, w, scalar)
  {
    hide Pow2;
    Pow2Literals();
    assert digits[..0] == [] && Number([], 2) == 0 && PowerOf(2, 0) == 1;
  }

  /** An even number: a zero digit. */
  lemma EvenStep(digits: seq<int>, index: nat, k: nat, w: nat, scalar: nat)
    requires w >= 1 && k != 0 && k % 2 == 0 && Between(digits, index, k, w, scalar)
    ensures index < 64 && Between(digits[index := 0], index + 1, k / 2, w, scalar)
  {
    hide Pow2, Number, PowerOf, NonAdjacent;
    RemainderBelow(k, 2);
    Pow2Small();
    if index < 64 {
      Pow2Step(63 - index);
    }
    assert index < 64;
    assert digits[index := 0] == digits && digits[..index + 1] == digits[..index] + [0];
    NumberStep(digits[..index], 0, 2, k / 2);
  }

  /** An odd number: a digit, and w - 1 zeros unless nothing is left. */
  lemma OddStep(digits: seq<int>, index: nat, k: nat, w: nat, scalar: nat, d: int, rest: nat)
    requires (w == WQ || w == WP) && k != 0 && Between(digits, index, k, w, scalar) && index <= 64
    requires OddDigit(d, w) && k == d + Pow2(w) * rest
    requires (rest != 0 ==> 64 - index >= w && rest <= Pow2(64 - index - w))
    ensures Between(digits[index := d], if rest == 0 then index + 1 else index + w, rest, w, scalar)
  {
    var digits' := digits[index := d];
    OddKeeps(digits, index, k, w, d);
    OddNumber(digits, index, k, w, scalar, d, rest);
  }

  lemma OddKeeps(digits: seq<int>, index: nat, k: nat, w: nat, d: int)
    requires w >= 1 && |digits| == 65 && index <= 64 && NonAdjacent(digits, w) && OddDigit(d, w)
    requires forall i :: index <= i < 65 ==> digits[i] == 0
    requires forall i :: 0 <= i < index && digits[i] != 0 ==> i + w <= index
    ensures NonAdjacent(digits[index := d], w)
  {
    hide OddDigit;
    var digits' := digits[index := d];
    forall i | 0 <= i < 65 && digits'[i] != 0
      ensures OddDigit(digits'[i], w) && ZerosAfter(digits', i, w)
    {
      if i < index {
        assert digits[i] != 0;
      }
    }
  }

  lemma OddNumber(digits: seq<int>, index: nat, k: nat, w: nat, scalar: nat, d: int, rest: nat)
    requires (w == WQ || w == WP) && |digits| == 65 && index <= 64 && forall i :: index <= i < 65 ==> digits[i] == 0
    requires Number(digits[..index], 2) + PowerOf(2, index) * k == scalar && k == d + Pow2(w) * rest
    requires rest != 0 ==> index + w <= 64
    ensures var end := if rest == 0 then index + 1 else index + w;
      Number(digits[index := d][..end], 2) + PowerOf(2, end) * rest == scalar
  {
    hide Number, PowerOf, Pow2;
    var digits' := digits[index := d];
    Pow2Step(w - 1);
    var left := Pow2(w - 1) * rest;
    assert k == d + 2 * left;
    NumberStep(digits[..index], d, 2, left);
    assert digits'[..index + 1] == digits[..index] + [d];
    if rest != 0 {
      var zeros := digits'[index + 1..index + w];
      NumberZeros(zeros);
      NumberConcat(digits'[..index + 1], zeros, 2);
      assert digits'[..index + w] == digits'[..index + 1] + zeros;
      PowerOfTwo(index + 1);
      PowerOfTwo(index + w);
      Pow2Add(index + 1, w - 1);
      assert (Pow2(index + 1) * Pow2(w - 1)) * rest == Pow2(index + 1) * left;
      assert PowerOf(2, index + 1) * Number(zeros, 2) == 0;
    }
  }

  /** Takes a signed digit off an odd number. */
  method TakeDigit(k: nat, w: nat, ghost m: nat) returns (digit: int, rest: nat)
    requires (w == WQ || w == WP) && k % 2 == 1 && k <= Pow2(m)
    ensures OddDigit(digit, w) && k == digit + Pow2(w) * rest && rest < k
    ensures rest != 0 ==> m >= w && rest <= Pow2(m - w)
  {
    hide Pow2, OddDigit;
    var val1, val2 := Pow2(w - 1) - 1, Pow2(w);
    DigitOff(k, w, m);
    Widths(w);
    RemainderBelow(k, val2);
    digit := k % val2;
    rest := k / val2;
    if digit > val1 {
      digit := digit - val2;
    }
    if digit < 0 {
      rest := rest + 1;
    }
  }

  /** The zeros after a digit. */
  method WriteZeros(digits: array<int>, from: nat, w: nat) returns (index: nat)
    requires w >= 1 && from + w - 1 < digits.Length && forall i :: from < i < digits.Length ==> digits[i] == 0
    modifies digits
    ensures index == from + w - 1 && digits[..] == old(digits[..])
  {
    index := from;
    for i := 0 to w - 1
      invariant index == from + i && digits[..] == old(digits[..])
    {
      index := index + 1;
      digits[index] := 0;
    }
  }

  lemma BetweenMeans(digits: seq<int>, index: nat, k: nat, w: nat, scalar: nat)
    requires w >= 1 && k != 0 && Between(digits, index, k, w, scalar)
    ensures index <= 64 && k <= Pow2(64 - index) && |digits| == 65 && forall i :: index <= i < 65 ==> digits[i] == 0
  {
  }

  /**
   * `wNAF_recode`. The digits sum back to the scalar, each is 0 or odd and below 2^(w-1) in size, any
   * w in a row hold at most one that is not 0, and none is written beyond index 64.
   */
  method WNafRecode(scalar: nat, w: nat, digits: array<int>)
    requires scalar < WORD && (w == WQ || w == WP) && digits.Length == 65 && forall i :: 0 <= i < 65 ==> digits[i] == 0
    modifies digits
    ensures Number(digits[..], 2) == scalar && NonAdjacent(digits[..], w)
  {
    hide Pow2, Number, PowerOf, NonAdjacent, OddDigit, Between;
    var index: nat := 0;
    var k := scalar;
    Begins(digits[..], w, scalar);
    while k != 0
      invariant Between(digits[..], index, k, w, scalar)
      decreases k
    {
      ghost var ds := digits[..];
      BetweenMeans(ds, index, k, w, scalar);
      if k % 2 == 0 {
        EvenStep(ds, index, k, w, scalar);
        k := k / 2;
        digits[index] := 0;
        assert digits[..] == ds[index := 0];
      } else {
        var digit, rest := TakeDigit(k, w, 64 - index);
        OddStep(ds, index, k, w, scalar, digit, rest);
        k := rest;
        digits[index] := digit;
        assert digits[..] == ds[index := digit];
        if k != 0 {
          index := WriteZeros(digits, index, w);
        }
      }
      index := index + 1;
    }
    Ends(digits[..], index, w, scalar);
  }

  /** A sum of multiples of any number of points. */
  ghost function Sum<T>(g: Group<T>, n: seq<int>, p: seq<T>): T
    requires |n| == |p|
  {
    if n == [] then g.zero else g.add(Mul(g, n[0], p[0]), Sum(g, n[1..], p[1..]))
  }

  lemma {:induction false} SumPut<T(!new)>(g: Group<T>, n: seq<int>, p: seq<T>, j: nat, d: int)
    requires Groups.Lawful(g) && |n| == |p| && j < |n|
    ensures g.add(Sum(g, n, p), Mul(g, d, p[j])) == Sum(g, n[j := n[j] + d], p)
  {
    hide Lawful, Mul;
    var first, rest, more := Mul(g, n[0], p[0]), Sum(g, n[1..], p[1..]), Mul(g, d, p[j]);
    Assoc(g, first, rest, more);
    if j == 0 {
      MulAdd(g, n[0], d, p[0]);
      Comm(g, rest, more);
      Assoc(g, first, more, rest);
      assert n[0 := n[0] + d][1..] == n[1..];
    } else {
      SumPut(g, n[1..], p[1..], j - 1, d);
      assert n[j := n[j] + d][1..] == n[1..][j - 1 := n[j] + d];
    }
  }

  function Doubled(n: seq<int>): (r: seq<int>)
    ensures |r| == |n|
  {
    seq(|n|, j requires 0 <= j < |n| => 2 * n[j])
  }

  lemma {:induction false} SumDouble<T(!new)>(g: Group<T>, n: seq<int>, p: seq<T>)
    requires Groups.Lawful(g) && |n| == |p|
    ensures g.add(Sum(g, n, p), Sum(g, n, p)) == Sum(g, Doubled(n), p)
  {
    hide Lawful, Mul;
    if n == [] {
      Zero(g, g.zero);
    } else {
      SumDouble(g, n[1..], p[1..]);
      Swap(g, Mul(g, n[0], p[0]), Sum(g, n[1..], p[1..]), Mul(g, n[0], p[0]), Sum(g, n[1..], p[1..]));
      MulAdd(g, n[0], n[0], p[0]);
      assert Doubled(n)[1..] == Doubled(n[1..]);
    }
  }

  lemma {:induction false} SumZero<T(!new)>(g: Group<T>, n: seq<int>, p: seq<T>)
    requires Groups.Lawful(g) && |n| == |p| && forall j :: 0 <= j < |n| ==> n[j] == 0
    ensures Sum(g, n, p) == g.zero
  {
    hide Lawful;
    if n == [] {
    } else {
      SumZero(g, n[1..], p[1..]);
      Zero(g, g.zero);
    }
  }

  /** Odd multiples of a point. */
  ghost predicate OddMultiples<T>(g: Group<T>, table: seq<T>, p: T) {
    forall u :: 0 <= u < |table| ==> table[u] == Mul(g, 2 * u + 1, p)
  }

  /** `ecc_precomp_double` */
  method EccPrecompDouble<T(!new)>(g: Group<T>, p: T, npoints: nat) returns (table: seq<T>)
    requires Groups.Lawful(g) && npoints >= 1
    ensures |table| == npoints && OddMultiples(g, table, p)
  {
    hide Lawful, Mul;
    MulOne(g, p);
    MulAdd(g, 1, 1, p);
    table := [p];
    var pp := Double(g, p);
    for i := 1 to npoints
      invariant |table| == i && OddMultiples(g, table, p)
    {
      MulAdd(g, 2 * (i - 1) + 1, 2, p);
      table := table + [g.add(table[i - 1], pp)];
    }
  }

  /** Adds the table entry that one digit stands for. */
  method AddDigit<T(!new)>(g: Group<T>, table: seq<T>, d: int, t: T, ghost w: nat, ghost p: T) returns (r: T)
    requires Groups.Lawful(g) && OddMultiples(g, table, p) && w >= 2 && |table| == Pow2(w - 2)
    requires (d == 0 || OddDigit(d, w))
    ensures r == g.add(t, Mul(g, d, p))
  {
    hide Lawful, Mul, Pow2;
    Pow2Step(w - 2);
    r := t;
    if d < 0 {
      var position := (-d) / 2;
      RemainderBelow(-d, 2);
      OppositeParity(d);
      MulNeg(g, -d, p);
      r := g.add(t, g.neg(table[position]));
    } else if d > 0 {
      var position := d / 2;
      RemainderBelow(d, 2);
      r := g.add(t, table[position]);
    } else {
      Zero(g, t);
      MulNone(g, p);
    }
  }

  lemma OppositeParity(d: int)
    ensures d % 2 == 1 ==> (-d) % 2 == 1
  {
  }

  lemma MulNone<T(!new)>(g: Group<T>, p: T)
    ensures Mul(g, 0, p) == g.zero
  {
  }

  /** One recoded sub-scalar: its digits, the table for them, and its width. */
  datatype Track<T> = Track(digits: seq<int>, table: seq<T>, w: nat)

  ghost predicate TrackFor<T>(g: Group<T>, track: Track<T>, scalar: nat, p: T) {
    && track.w >= 2 && |track.digits| == 65 && NonAdjacent(track.digits, track.w) && Number(track.digits, 2) == scalar
    && OddMultiples(g, track.table, p) && |track.table| == Pow2(track.w - 2)
  }

  /** What the digits from index i on stand for, track by track. */
  ghost function Above<T>(tracks: seq<Track<T>>, i: nat): (r: seq<int>)
    requires forall j :: 0 <= j < |tracks| ==> i <= |tracks[j].digits|
    ensures |r| == |tracks|
  {
    seq(|tracks|, j requires 0 <= j < |tracks| => Number(tracks[j].digits[i..], 2))
  }

  lemma AboveDown<T>(tracks: seq<Track<T>>, i: nat, j: nat)
    requires (forall k :: 0 <= k < |tracks| ==> i < |tracks[k].digits|) && j < |tracks|
    ensures Above(tracks, i)[j] == Doubled(Above(tracks, i + 1))[j] + tracks[j].digits[i]
  {
    hide Number;
    NumberDown(tracks[j].digits, i, 2);
  }

  /** One round of the loop: a doubling, then every track's digit at bit i. */
  method Round<T(!new)>(g: Group<T>, tracks: seq<Track<T>>, i: nat, t: T, ghost scalars: seq<nat>,
          ghost p: seq<T>) returns (r: T)
    requires Groups.Lawful(g) && |tracks| == |p| == |scalars| && i < 65
    requires forall j :: 0 <= j < |tracks| ==> TrackFor(g, tracks[j], scalars[j], p[j]) && |tracks[j].digits| == 65
    requires t == Sum(g, Above(tracks, i + 1), p)
    ensures r == Sum(g, Above(tracks, i), p)
  {
    hide Lawful, Sum, Number, Pow2, OddMultiples, OddDigit, Above;
    SumDouble(g, Above(tracks, i + 1), p);
    r := Double(g, t);
    ghost var n := Doubled(Above(tracks, i + 1));
    for j := 0 to |tracks|
      invariant |n| == |p| && r == Sum(g, n, p)
      invariant forall k :: 0 <= k < j ==> n[k] == Above(tracks, i)[k]
      invariant forall k :: j <= k < |tracks| ==> n[k] == Doubled(Above(tracks, i + 1))[k]
    {
      assert TrackFor(g, tracks[j], scalars[j], p[j]);
      AboveDown(tracks, i, j);
      var d := tracks[j].digits[i];
      SumPut(g, n, p, j, d);
      r := AddDigit(g, tracks[j].table, d, r, tracks[j].w, p[j]);
      n := n[j := n[j] + d];
    }
    assert n == Above(tracks, i);
  }

  /** Recodes one sub-scalar. */
  method MakeTrack<T(!new)>(g: Group<T>, scalar: nat, w: nat, table: seq<T>, ghost p: T) returns (track: Track<T>)
    requires scalar < WORD && (w == WQ || w == WP) && OddMultiples(g, table, p) && |table| == Pow2(w - 2)
    ensures TrackFor(g, track, scalar, p) && |track.digits| == 65
  {
    hide NonAdjacent, OddMultiples, Number, Pow2;
    var digits := new int[65](_ => 0);
    WNafRecode(scalar, w, digits);
    track := Track(digits[..], table, w);
  }

  /** The loop from bit 64 down, over any number of tracks. */
  method Interleaved<T(!new)>(g: Group<T>, tracks: seq<Track<T>>, ghost scalars: seq<nat>, ghost p: seq<T>)
          returns (r: T)
    requires Groups.Lawful(g) && |tracks| == |p| == |scalars|
    requires forall j :: 0 <= j < |tracks| ==> TrackFor(g, tracks[j], scalars[j], p[j]) && |tracks[j].digits| == 65
    ensures r == Sum(g, Ints(scalars), p)
  {
    hide Lawful, Sum, Number, TrackFor;
    r := g.zero;
    AboveTop(tracks);
    SumZero(g, Above(tracks, 65), p);
    var i: int := 64;
    while i >= 0
      invariant -1 <= i <= 64 && r == Sum(g, Above(tracks, i + 1), p)
    {
      r := Round(g, tracks, i, r, scalars, p);
      i := i - 1;
    }
    AboveBottom(g, tracks, scalars, p);
  }

  function Ints(s: seq<nat>): (r: seq<int>)
    ensures |r| == |s| && forall i :: 0 <= i < |s| ==> r[i] == s[i]
  {
    seq(|s|, i requires 0 <= i < |s| => s[i])
  }

  lemma AboveTop<T>(tracks: seq<Track<T>>)
    requires forall j :: 0 <= j < |tracks| ==> |tracks[j].digits| == 65
    ensures forall j :: 0 <= j < |tracks| ==> Above(tracks, 65)[j] == 0
  {
    forall j | 0 <= j < |tracks|
      ensures Number(tracks[j].digits[65..], 2) == 0
    {
      assert tracks[j].digits[65..] == [];
    }
  }

  lemma AboveBottom<T>(g: Group<T>, tracks: seq<Track<T>>, scalars: seq<nat>, p: seq<T>)
    requires |tracks| == |p| == |scalars|
    requires forall j :: 0 <= j < |tracks| ==> TrackFor(g, tracks[j], scalars[j], p[j]) && |tracks[j].digits| == 65
    ensures Above(tracks, 0) == Ints(scalars)
  {
    hide Number, NonAdjacent, OddMultiples, Pow2;
    forall j | 0 <= j < |tracks|
      ensures Above(tracks, 0)[j] == scalars[j]
    {
      assert TrackFor(g, tracks[j], scalars[j], p[j]);
      assert tracks[j].digits[0..] == tracks[j].digits;
    }
  }

  /** `DOUBLE_SCALAR_TABLE`: 64 odd multiples each of G, phi(G), psi(G) and psi(phi(G)). */
  ghost predicate FixedTable<T>(g: Group<T>, table: seq<T>, points: seq<T>) {
    |table| == 256 && |points| == 4 && forall j :: 0 <= j < 4 ==> OddMultiples(g, table[64 * j..64 * j + 64], points[j])
  }

  lemma FixedPart<T>(g: Group<T>, table: seq<T>, points: seq<T>, j: nat)
    requires FixedTable(g, table, points) && j < 4
    ensures |table[64 * j..64 * j + 64]| == 64 == Pow2(6) && OddMultiples(g, table[64 * j..64 * j + 64], points[j])
  {
  }

  /** The tracks of four sub-scalars with one table each. */
  method MakeTracks<T(!new)>(g: Group<T>, scalars: seq<nat>, w: nat, tables: seq<seq<T>>, ghost points: seq<T>)
          returns (tracks: seq<Track<T>>)
    requires FourWords(scalars) && (w == WQ || w == WP) && |tables| == |points| == 4
    requires forall j :: 0 <= j < 4 ==> OddMultiples(g, tables[j], points[j]) && |tables[j]| == Pow2(w - 2)
    ensures |tracks| == 4 && forall j :: 0 <= j < 4 ==>
        TrackFor(g, tracks[j], scalars[j], points[j]) && |tracks[j].digits| == 65
  {
    hide TrackFor, OddMultiples, Pow2;
    tracks := [];
    for j := 0 to 4
      invariant |tracks| == j
      invariant forall i :: 0 <= i < j ==> TrackFor(g, tracks[i], scalars[i], points[i]) && |tracks[i].digits| == 65
    {
      var track := MakeTrack(g, scalars[j], w, tables[j], points[j]);
      tracks := tracks + [track];
    }
  }

  lemma SumOfFour<T(!new)>(g: Group<T>, n: seq<int>, p: seq<T>)
    requires Groups.Lawful(g) && |n| == |p| && |n| >= 4
    ensures Sum(g, n, p) == g.add(Four(g, n[..4], p[..4]), Sum(g, n[4..], p[4..]))
  {
    hide Lawful, Mul;
    var a, b, c, d := Mul(g, n[0], p[0]), Mul(g, n[1], p[1]), Mul(g, n[2], p[2]), Mul(g, n[3], p[3]);
    var rest := Sum(g, n[4..], p[4..]);
    SumHead(g, n, p, 0);
    SumHead(g, n, p, 1);
    SumHead(g, n, p, 2);
    SumHead(g, n, p, 3);
    Assoc(g, g.add(a, b), g.add(c, d), rest);
    Assoc(g, c, d, rest);
    Assoc(g, a, b, g.add(c, g.add(d, rest)));
  }

  lemma SumHead<T>(g: Group<T>, n: seq<int>, p: seq<T>, i: nat)
    requires |n| == |p| && i < |n|
    ensures Sum(g, n[i..], p[i..]) == g.add(Mul(g, n[i], p[i]), Sum(g, n[i + 1..], p[i + 1..]))
    ensures i == 0 ==> n[0..] == n && p[0..] == p
  {
    hide Mul;
    assert n[i..][1..] == n[i + 1..] && p[i..][1..] == p[i + 1..];
  }

  /** Eight points: two sums of four. */
  lemma SumOfEight<T(!new)>(g: Group<T>, a: seq<nat>, b: seq<nat>, p: seq<T>, q: seq<T>)
    requires Groups.Lawful(g) && |a| == |b| == |p| == |q| == 4
    ensures Sum(g, Ints(a + b), p + q) ==
        g.add(Four(g, [a[0], a[1], a[2], a[3]], p), Four(g, [b[0], b[1], b[2], b[3]], q))
  {
    hide Lawful, Mul, Four;
    var n, points := Ints(a + b), p + q;
    SumOfFour(g, n, points);
    SumOfFour(g, n[4..], points[4..]);
    assert n[..4] == [a[0], a[1], a[2], a[3]] && points[..4] == p;
    assert n[4..][..4] == [b[0], b[1], b[2], b[3]] && points[4..][..4] == q;
    assert n[4..][4..] == [] && points[4..][4..] == [];
    Zero(g, Four(g, n[4..][..4], q));
  }

  /** Both points have the curve's order, and the fixed table is that of the images of the first. */
  ghost predicate OnCurve<T(!new)>(g: Group<T>, phi: T -> T, psi: T -> T, p: T, q: T, base: seq<T>) {
    && Endomorphism.EigenMaps(g, phi, psi, ORDER) && Annihilates(g, ORDER, p) && Annihilates(g, ORDER, q)
    && base == [p, phi(p), psi(p), psi(phi(p))]
  }

  /**
   * `ecc_mul_double`. The result is the sum of the eight sub-scalars times their points: those of l
   * times Q and its images, those of k times G and its images. On points of the curve's order that is
   * k G + l Q.
   */
  method EccMulDouble<T(!new)>(g: Group<T>, fixed: seq<T>, k: seq<nat>, l: seq<nat>, q: T, phi: T -> T, psi: T -> T,
          ghost base: seq<T>)
      returns (r: T)
    requires Groups.Lawful(g) && FixedTable(g, fixed, base) && FourWords(k) && FourWords(l)
    ensures forall a: seq<nat>, b: seq<nat> ::
      |a| == 4 && |b| == 4 && Endomorphism.Decomposed(l, a, Endomorphism.Moved(l)) &&
        Endomorphism.Decomposed(k, b, Endomorphism.Moved(k)) ==>
        r == Sum(g, Ints(a + b), [q, phi(q), psi(q), psi(phi(q))] + base)
    ensures forall p :: OnCurve(g, phi, psi, p, q, base) ==>
        r == g.add(Mul(g, Value(k), p), Mul(g, Value(l), q))
  {
    hide Lawful, Sum, TrackFor, OddMultiples, Pow2, FixedTable, Endomorphism.Decomposed, Endomorphism.Moved,
      OnCurve, Endomorphism.Represents, Mul, Value;
    FixedSizes(g, fixed, base);
    FourIs();
    var ls := Endomorphism.Decompose(l);
    var ks := Endomorphism.Decompose(k);
    var q2, q3 := phi(q), psi(q);
    var q4 := psi(q2);
    var table1 := EccPrecompDouble(g, q, 4);
    var table2 := EccPrecompDouble(g, q2, 4);
    var table3 := EccPrecompDouble(g, q3, 4);
    var table4 := EccPrecompDouble(g, q4, 4);
    ghost var own := [q, q2, q3, q4];
    var lTracks := MakeTracks(g, ls, WQ, [table1, table2, table3, table4], own);
    FixedPart(g, fixed, base, 0);
    FixedPart(g, fixed, base, 1);
    FixedPart(g, fixed, base, 2);
    FixedPart(g, fixed, base, 3);
    var kTracks := MakeTracks(g, ks, WP, [fixed[..64], fixed[64..128], fixed[128..192], fixed[192..256]], base);
    r := Interleaved(g, lTracks + kTracks, ls + ks, own + base);
    forall p | OnCurve(g, phi, psi, p, q, base)
      ensures r == g.add(Mul(g, Value(k), p), Mul(g, Value(l), q))
    {
      TwoMultiples(g, phi, psi, p, q, ls, ks, Value(l), Value(k), base);
    }
    forall a: seq<nat>, b: seq<nat> | |a| == 4 && |b| == 4 && Endomorphism.Decomposed(l, a, Endomorphism.Moved(l)) &&
      Endomorphism.Decomposed(k, b, Endomorphism.Moved(k))
      ensures a + b == ls + ks
    {
      Endomorphism.DecomposedOnce(l, a, ls);
      Endomorphism.DecomposedOnce(k, b, ks);
    }
  }

  lemma TwoMultiples<T(!new)>(g: Group<T>, phi: T -> T, psi: T -> T, p: T, q: T, ls: seq<nat>, ks: seq<nat>,
          l: nat, k: nat, base: seq<T>)
    requires Groups.Lawful(g) && OnCurve(g, phi, psi, p, q, base)
    requires Endomorphism.Represents(ls, l) && Endomorphism.Represents(ks, k)
    ensures |ls| == |ks| == |base| == 4
    ensures Sum(g, Ints(ls + ks), [q, phi(q), psi(q), psi(phi(q))] + base) == g.add(Mul(g, k, p), Mul(g, l, q))
  {
    hide Lawful, Mul, Annihilates, Endomorphism.EigenMaps, Sum, Four;
    SumOfEight(g, ls, ks, [q, phi(q), psi(q), psi(phi(q))], base);
    Endomorphism.RepresentedMultiple(g, phi, psi, q, ls, l);
    Endomorphism.RepresentedMultiple(g, phi, psi, p, ks, k);
    Comm(g, Mul(g, l, q), Mul(g, k, p));
  }

  lemma FourIs()
    ensures Pow2(2) == 4
  {
  }

  lemma FixedSizes<T>(g: Group<T>, table: seq<T>, points: seq<T>)
    requires FixedTable(g, table, points)
    ensures |table| == 256 && |points| == 4
  {
  }
}

/**
 * Variable-base scalar multiplication with endomorphisms: four 64-bit sub-scalars, recoded together
 * into 65 signed table indices, and the double-and-add loop over them.
 */
module Endomorphism {
  import opened Bits
  import opened Division
  import opened Groups
  import opened Numerals
  import opened ScalarLattice
  import opened TruncatedProduct
  import opened Words

  /** The rounded coordinate of the scalar along one basis vector. */
  ghost function Coordinate(k: seq<nat>, ell: seq<nat>): nat
    requires |k| == 4 && |ell| == 4
  {
    (Value(k) * Value(ell) / WORD4) % WORD
  }

  /** The sub-scalars are the lattice combinations, mod 2^64; `m` moves them by the last basis vector. */
  ghost predicate Decomposed(k: seq<nat>, scalars: seq<nat>, m: nat)
    requires |k| == 4 && |scalars| == 4
  {
    var a1, a2, a3, a4 := Coordinate(k, ELL1), Coordinate(k, ELL2), Coordinate(k, ELL3), Coordinate(k, ELL4);
    && scalars[0] == (k[0] - a1 * B11 - a2 * B21 - a3 * B31 - a4 * B41 + C1 + m * B41) % WORD
    && scalars[1] == (a1 * B12 + a2 - a3 * B32 - a4 * B42 + C2 + m * B42) % WORD
    && scalars[2] == (a3 * B33 - a1 * B13 - a2 + a4 * B43 + C3 - m * B43) % WORD
    && scalars[3] == (a1 * B14 - a2 * B24 - a3 * B34 + a4 * B44 + C4 - m * B44) % WORD
  }

  /** The last basis vector is added when the first combination is even without it. */
  ghost function Moved(k: seq<nat>): nat
    requires |k| == 4
  {
    var a1, a2, a3, a4 := Coordinate(k, ELL1), Coordinate(k, ELL2), Coordinate(k, ELL3), Coordinate(k, ELL4);
    if ((k[0] - a1 * B11 - a2 * B21 - a3 * B31 - a4 * B41 + C1) % WORD) % 2 == 0 then 1 else 0
  }

  /** `decompose`. The first sub-scalar is always odd, which the recoding needs. */
  method Decompose(k: seq<nat>) returns (scalars: seq<nat>)
    requires FourWords(k)
    ensures FourWords(scalars) && scalars[0] % 2 == 1
    ensures Decomposed(k, scalars, Moved(k))
    ensures Represents(scalars, Value(k))
  {
    hide Value, Coordinate, Fits, Represents;
    var a1, lost1 := MulTruncate(k, ELL1);
    var a2, lost2 := MulTruncate(k, ELL2);
    var a3, lost3 := MulTruncate(k, ELL3);
    var a4, lost4 := MulTruncate(k, ELL4);
    CoordinateIs(k);
    var temp := (k[0] - a1 * B11 - a2 * B21 - a3 * B31 - a4 * B41 + C1) % WORD;
    var even: nat := if temp % 2 == 0 then 1 else 0;
    scalars := [(temp + even * B41) % WORD,
                (a1 * B12 + a2 - a3 * B32 - a4 * B42 + C2 + even * B42) % WORD,
                (a3 * B33 - a1 * B13 - a2 + a4 * B43 + C3 - even * B43) % WORD,
                (a1 * B14 - a2 * B24 - a3 * B34 + a4 * B44 + C4 - even * B44) % WORD];
    AddMod(k[0] - a1 * B11 - a2 * B21 - a3 * B31 - a4 * B41 + C1, even * B41);
    MadeOdd(temp, even);
    DecomposedRepresents(k, scalars);
  }

  /** The sub-scalars, times what the endomorphisms multiply with, are the scalar modulo the order. */
  ghost predicate Represents(scalars: seq<nat>, v: nat) {
    |scalars| == 4 && Dot(scalars, EIGEN) % ORDER == v % ORDER
  }

  /** Reducing coordinates modulo 2^64 changes their combination by a multiple of 2^64. */
  lemma RowReduces(x: int, q: seq<int>, r: seq<int>, row: seq<int>)
    requires |q| == 4 && |r| == 4 && |row| == 4
    requires x == Dot(Plus(Scaled(WORD, q), r), row)
    ensures x == Dot(r, row) + WORD * Dot(q, row)
  {
    hide Dot, Plus, Scaled;
    DotPlus(Scaled(WORD, q), r, row);
    DotScaled(WORD, q, row);
  }

  ghost function Quotients(a: seq<int>): (q: seq<int>)
    requires |a| == 4
    ensures |q| == 4
  {
    [a[0] / WORD, a[1] / WORD, a[2] / WORD, a[3] / WORD]
  }

  ghost function Remainders(a: seq<int>): (r: seq<int>)
    requires |a| == 4
    ensures |r| == 4 && Plus(Scaled(WORD, Quotients(a)), r) == a
  {
    [a[0] % WORD, a[1] % WORD, a[2] % WORD, a[3] % WORD]
  }

  /** A combination of reduced coordinates is that of the coordinates, less a multiple of 2^64. */
  lemma Reduces(k: seq<nat>, s: seq<nat>, m: nat)
    requires FourWords(k) && m <= 1 && |s| == 4 && Decomposed(k, s, m)
    ensures s == Near(Value(k), Coordinates(Value(k)), m)
  {
    hide Value, Rounded, Dot, Quotients, Plus, Scaled, Coordinates, Decomposed;
    var v := Value(k);
    var a := Coordinates(v);
    var near, q, r := Near(v, a, m), Quotients(a), Remainders(a);
    var upper := UpperWords(k);
    NearFits(v, m);
    RowReduces(Dot(a, ROW1), q, r, ROW1);
    RowReduces(Dot(a, ROW2), q, r, ROW2);
    RowReduces(Dot(a, ROW3), q, r, ROW3);
    RowReduces(Dot(a, ROW4), q, r, ROW4);
    DecomposedRows(k, s, m, r);
    ModUnique(k[0] - Dot(r, ROW1) + (C1 + m * B41), Dot(q, ROW1) - upper, near[0]);
    ModUnique(-Dot(r, ROW2) + (C2 + m * B42), Dot(q, ROW2), near[1]);
    ModUnique(-Dot(r, ROW3) + (C3 - m * B43), Dot(q, ROW3), near[2]);
    ModUnique(-Dot(r, ROW4) + (C4 - m * B44), Dot(q, ROW4), near[3]);
  }

  /** The sub-scalars in terms of the basis. */
  lemma DecomposedRows(k: seq<nat>, s: seq<nat>, m: nat, r: seq<int>)
    requires |k| == 4 && |s| == 4 && Decomposed(k, s, m) && r == Remainders(Coordinates(Value(k)))
    ensures s[0] == (k[0] - Dot(r, ROW1) + (C1 + m * B41)) % WORD && s[1] == (-Dot(r, ROW2) + (C2 + m * B42)) % WORD
    ensures s[2] == (-Dot(r, ROW3) + (C3 - m * B43)) % WORD && s[3] == (-Dot(r, ROW4) + (C4 - m * B44)) % WORD
  {
    hide Dot, Value, Quotients, Plus, Scaled;
    RowIs(r);
  }

  lemma UpperWords(k: seq<nat>) returns (upper: nat)
    requires FourWords(k)
    ensures Value(k) == k[0] + WORD * upper && Value(k) < WORD4
  {
    upper := k[1] + WORD * k[2] + WORD2 * k[3];
  }

  lemma RowIs(a: seq<int>)
    requires |a| == 4
    ensures Dot(a, ROW1) == a[0] * B11 + a[1] * B21 + a[2] * B31 + a[3] * B41
    ensures -Dot(a, ROW2) == a[0] * B12 + a[1] - a[2] * B32 - a[3] * B42
    ensures -Dot(a, ROW3) == a[2] * B33 - a[0] * B13 - a[1] + a[3] * B43
    ensures -Dot(a, ROW4) == a[0] * B14 - a[1] * B24 - a[2] * B34 + a[3] * B44
  {
  }

  /** The decomposition represents its scalar, for every scalar of four words. */
  lemma DecomposedRepresents(k: seq<nat>, scalars: seq<nat>)
    requires FourWords(k) && |scalars| == 4 && Decomposed(k, scalars, Moved(k))
    ensures Represents(scalars, Value(k))
  {
    hide Value, Dot, Decomposed, Near, Coordinates, Vanishes;
    var v, m := Value(k), Moved(k);
    Reduces(k, scalars, m);
    NearStandsFor(v, Coordinates(v), m);
    DotWords(scalars);
    SameRemainder(Dot(scalars, EIGEN), v);
  }

  lemma DotWords(s: seq<nat>)
    requires |s| == 4
    ensures Dot(s, EIGEN) >= 0
  {
  }

  /** A decomposition determines its sub-scalars. */
  lemma DecomposedOnce(k: seq<nat>, a: seq<nat>, b: seq<nat>)
    requires |k| == 4 && |a| == 4 && |b| == 4 && Decomposed(k, a, Moved(k)) && Decomposed(k, b, Moved(k))
    ensures a == b
  {
    hide Coordinate, Moved;
  }

  lemma CoordinateIs(k: seq<nat>)
    requires |k| == 4
    ensures Coordinate(k, ELL1) == (Value(k) * Value(ELL1) / WORD4) % WORD
    ensures Coordinate(k, ELL2) == (Value(k) * Value(ELL2) / WORD4) % WORD
    ensures Coordinate(k, ELL3) == (Value(k) * Value(ELL3) / WORD4) % WORD
    ensures Coordinate(k, ELL4) == (Value(k) * Value(ELL4) / WORD4) % WORD
  {
    hide Value;
  }

  /** The four coordinates are computed without losing a carry, whatever the scalar. */
  lemma CoordinatesFit(k: seq<nat>)
    requires FourWords(k)
    ensures Fits(k, ELL1) && Fits(k, ELL2) && Fits(k, ELL3) && Fits(k, ELL4)
  {
    hide Fits, Two;
    AllFitIff(ELL1);
    AllFitIff(ELL2);
    AllFitIff(ELL3);
    AllFitIff(ELL4);
  }

  lemma AddMod(a: int, b: nat)
    ensures (a % WORD + b) % WORD == (a + b) % WORD
  {
    var q := a / WORD;
    assert a == WORD * q + a % WORD;
    var r, p := (a % WORD + b) % WORD, (a % WORD + b) / WORD;
    assert a + b == WORD * (q + p) + r;
    ModUnique(a + b, q + p, r);
  }

  lemma ModUnique(a: int, q: int, r: nat)
    requires a == WORD * q + r && r < WORD
    ensures a % WORD == r
  {
  }

  lemma MadeOdd(temp: nat, even: nat)
    requires even == if temp % 2 == 0 then 1 else 0
    ensures ((temp + even * B41) % WORD) % 2 == 1
  {
    var x := temp + even * B41;
    assert x % 2 == 1;
    RemainderBelow(x, WORD);
    RemainderBelow(x % WORD, 2);
    RemainderBelow(x, 2);
    Remainder(2, (x / WORD) * 0x8000_0000_0000_0000 + (x % WORD) / 2, (x % WORD) % 2);
  }

  /** The sign that a mask stands for. */
  function Sign(mask: nat): int {
    if mask == ALL_ONES then 1 else -1
  }

  /** The signs as digits of the first sub-scalar. */
  function SignRow(masks: seq<nat>): (r: seq<int>)
    ensures |r| == |masks|
  {
    seq(|masks|, i requires 0 <= i < |masks| => Sign(masks[i]))
  }

  /** The signed bits of one of the other sub-scalars: bit `div` of every table index. */
  function BitRow(digits: seq<nat>, masks: seq<nat>, div: nat): (r: seq<int>)
    requires |digits| == |masks| && div > 0
    ensures |r| == |digits|
  {
    seq(|digits|, i requires 0 <= i < |digits| => Sign(masks[i]) * (digits[i] / div % 2))
  }

  /** `(bit0 | bit) ^ bit0` */
  function Carry(bit0: nat, bit: nat): nat
    requires bit0 <= 1 && bit <= 1
  {
    if bit0 == 0 && bit == 1 then 1 else 0
  }

  function MaskOf(bit0: nat): nat
    requires bit0 <= 1
  {
    if bit0 == 1 then ALL_ONES else 0
  }

  /** One bit off a sub-scalar under the common sign; the rest is half as large. */
  lemma BitOff(s: nat, bit0: nat, m: nat)
    requires bit0 <= 1 && m >= 1 && s <= Pow2(m)
    ensures var s' := s / 2 + Carry(bit0, s % 2);
      s' <= Pow2(m - 1) && s == Sign(MaskOf(bit0)) * (s % 2) + 2 * s'
  {
    hide Pow2;
    Pow2Step(m - 1);
    RemainderBelow(s, 2);
  }

  /** One sign off the first sub-scalar. */
  lemma SignOff(s: nat, m: nat)
    requires m >= 1 && s < Pow2(m)
    ensures var h := s / 2;
      h < Pow2(m - 1) && 1 + 2 * h == Sign(MaskOf(h % 2)) + 2 * (1 + 2 * (h / 2))
  {
    hide Pow2;
    Pow2Step(m - 1);
    RemainderBelow(s / 2, 2);
    RemainderBelow(s, 2);
  }

  /** The digits so far: masks, table indices, and the four rows of signed bits they stand for. */
  ghost predicate Recoded(digits: seq<nat>, masks: seq<nat>, t: seq<seq<int>>, n: nat) {
    && |t| == 4 && |t[0]| == |t[1]| == |t[2]| == |t[3]| == n && n <= |digits| && n <= |masks|
    && forall j :: 0 <= j < n ==> RecodedAt(digits, masks, t, j)
  }

  ghost predicate RecodedAt(digits: seq<nat>, masks: seq<nat>, t: seq<seq<int>>, j: nat)
    requires j < |digits| && j < |masks| && |t| == 4 && j < |t[0]| && j < |t[1]| && j < |t[2]| && j < |t[3]|
  {
    && (masks[j] == 0 || masks[j] == ALL_ONES) && digits[j] <= 7
    && t[0][j] == Sign(masks[j]) && t[1][j] == Sign(masks[j]) * (digits[j] / 1 % 2)
    && t[2][j] == Sign(masks[j]) * (digits[j] / 2 % 2) && t[3][j] == Sign(masks[j]) * (digits[j] / 4 % 2)
  }

  function Extended(t: seq<seq<int>>, sign: int, b1: nat, b2: nat, b3: nat): seq<seq<int>>
    requires |t| == 4
  {
    [t[0] + [sign], t[1] + [sign * b1], t[2] + [sign * b2], t[3] + [sign * b3]]
  }

  lemma RecodedNext(digits: seq<nat>, masks: seq<nat>, t: seq<seq<int>>, n: nat, mask: nat, b1: nat, b2: nat, b3: nat)
    requires Recoded(digits, masks, t, n) && n < |digits| && n < |masks|
    requires (mask == 0 || mask == ALL_ONES) && b1 <= 1 && b2 <= 1 && b3 <= 1
    ensures Recoded(digits[n := b1 + 2 * b2 + 4 * b3], masks[n := mask], Extended(t, Sign(mask), b1, b2, b3), n + 1)
  {
    var digit := b1 + 2 * b2 + 4 * b3;
    var digits', masks', t' := digits[n := digit], masks[n := mask], Extended(t, Sign(mask), b1, b2, b3);
    assert digit / 1 % 2 == b1 && digit / 2 % 2 == b2 && digit / 4 % 2 == b3;
    forall j | 0 <= j < n + 1
      ensures RecodedAt(digits', masks', t', j)
    {
      if j < n {
        assert RecodedAt(digits, masks, t, j);
      }
    }
  }

  lemma RecodedRows(digits: seq<nat>, masks: seq<nat>, t: seq<seq<int>>)
    requires |digits| == |masks| && Recoded(digits, masks, t, |digits|)
    ensures SignRow(masks) == t[0] && BitRow(digits, masks, 1) == t[1] && BitRow(digits, masks, 2) == t[2]
    ensures BitRow(digits, masks, 4) == t[3]
    ensures forall j :: 0 <= j < |digits| ==> digits[j] <= 7 && (masks[j] == 0 || masks[j] == ALL_ONES)
  {
    forall j | 0 <= j < |digits|
      ensures SignRow(masks)[j] == t[0][j] && BitRow(digits, masks, 1)[j] == t[1][j]
      ensures BitRow(digits, masks, 2)[j] == t[2][j] && BitRow(digits, masks, 4)[j] == t[3][j]
      ensures digits[j] <= 7 && (masks[j] == 0 || masks[j] == ALL_ONES)
    {
      assert RecodedAt(digits, masks, t, j);
    }
  }

  /** What the rows and what is left add up to. */
  ghost predicate Sums(t: seq<seq<int>>, s: seq<nat>, a: seq<nat>, n: nat)
    requires |t| == 4 && |s| == 4 && |a| == 4
  {
    && Number(t[0], 2) + PowerOf(2, n) * (1 + 2 * (s[0] / 2)) == a[0]
    && forall r :: 1 <= r <= 3 ==> Number(t[r], 2) + PowerOf(2, n) * s[r] == a[r]
  }

  ghost predicate Small(s: seq<nat>, m: nat) {
    |s| == 4 && s[0] < Pow2(m) && s[1] <= Pow2(m) && s[2] <= Pow2(m) && s[3] <= Pow2(m)
  }

  /** The sub-scalars after one round. */
  function Rest(s: seq<nat>): (r: seq<nat>)
    requires |s| == 4
    ensures |r| == 4
  {
    var bit0 := s[0] / 2 % 2;
    [s[0] / 2, s[1] / 2 + Carry(bit0, s[1] % 2), s[2] / 2 + Carry(bit0, s[2] % 2), s[3] / 2 + Carry(bit0, s[3] % 2)]
  }

  lemma Round(t: seq<seq<int>>, s: seq<nat>, a: seq<nat>, n: nat, m: nat)
    requires |t| == 4 && |a| == 4 && m >= 1 && Small(s, m) && Sums(t, s, a, n)
    requires |t[0]| == |t[1]| == |t[2]| == |t[3]| == n
    ensures Small(Rest(s), m - 1)
    ensures Sums(Extended(t, Sign(MaskOf(s[0] / 2 % 2)), s[1] % 2, s[2] % 2, s[3] % 2), Rest(s), a, n + 1)
  {
    hide Pow2, Number, PowerOf, MaskOf, Sign, Carry;
    var bit0 := s[0] / 2 % 2;
    var sign := Sign(MaskOf(bit0));
    SignOff(s[0], m);
    NumberStep(t[0], sign, 2, 1 + 2 * (s[0] / 2 / 2));
    forall r | 1 <= r <= 3
      ensures Rest(s)[r] <= Pow2(m - 1)
      ensures Number(t[r] + [sign * (s[r] % 2)], 2) + PowerOf(2, n + 1) * Rest(s)[r] == a[r]
    {
      BitOff(s[r], bit0, m);
      NumberStep(t[r], sign * (s[r] % 2), 2, Rest(s)[r]);
    }
  }

  /** One round of the recoding, on the sub-scalars in place. */
  method RecodeRound(scalars: array<nat>) returns (digit: nat, mask: nat)
    requires scalars.Length == 4
    modifies scalars
    ensures scalars[..] == Rest(old(scalars[..]))
    ensures digit == old(scalars[1] % 2 + 2 * (scalars[2] % 2) + 4 * (scalars[3] % 2))
    ensures mask == MaskOf(old(scalars[0] / 2 % 2))
  {
    scalars[0] := scalars[0] / 2;
    var bit0 := scalars[0] % 2;
    mask := MaskOf(bit0);
    var bit := scalars[1] % 2;
    scalars[1] := scalars[1] / 2 + Carry(bit0, bit);
    digit := bit;
    bit := scalars[2] % 2;
    scalars[2] := scalars[2] / 2 + Carry(bit0, bit);
    digit := digit + 2 * bit;
    bit := scalars[3] % 2;
    scalars[3] := scalars[3] / 2 + Carry(bit0, bit);
    digit := digit + 4 * bit;
  }

  lemma RoundsBegin(s: seq<nat>)
    requires FourWords(s) && s[0] % 2 == 1
    ensures Small(s, 64) && Sums([[], [], [], []], s, s, 0)
  {
    hide Pow2;
    Pow2Literals();
    RemainderBelow(s[0], 2);
    assert Number([], 2) == 0 && PowerOf(2, 0) == 1;
  }

  lemma RoundsEnd(t: seq<seq<int>>, s: seq<nat>, a: seq<nat>)
    requires |t| == 4 && |a| == 4 && Small(s, 0) && Sums(t, s, a, 64)
    requires |t[0]| == |t[1]| == |t[2]| == |t[3]| == 64
    ensures s[1] <= 1 && s[2] <= 1 && s[3] <= 1
    ensures forall r :: 0 <= r < 4 ==> Number(Extended(t, 1, s[1], s[2], s[3])[r], 2) == a[r]
  {
    hide Pow2, Number, PowerOf;
    Pow2Small();
    NumberAppend(t[0], 1, 2);
    forall r | 1 <= r <= 3
      ensures Number(t[r] + [1 * s[r]], 2) == a[r]
    {
      NumberAppend(t[r], s[r], 2);
    }
  }

  /**
   * `recode`. For any four 64-bit sub-scalars, the first one odd: 65 table indices below 8 with
   * signs, which give back all four sub-scalars at once.
   */
  method Recode(scalars: array<nat>, digits: array<nat>, signMasks: array<nat>)
    requires scalars.Length == 4 && digits.Length == signMasks.Length == 65 && scalars != digits
    requires scalars != signMasks && digits != signMasks
    requires FourWords(scalars[..]) && scalars[0] % 2 == 1
    modifies scalars, digits, signMasks
    ensures forall j :: 0 <= j < 65 ==> digits[j] <= 7 && (signMasks[j] == 0 || signMasks[j] == ALL_ONES)
    ensures Number(SignRow(signMasks[..]), 2) == old(scalars[0])
    ensures Number(BitRow(digits[..], signMasks[..], 1), 2) == old(scalars[1])
    ensures Number(BitRow(digits[..], signMasks[..], 2), 2) == old(scalars[2])
    ensures Number(BitRow(digits[..], signMasks[..], 4), 2) == old(scalars[3])
  {
    hide Pow2, Number, PowerOf, Recoded, Sums, Small, Rest, Sign, FourWords, SignRow, BitRow;
    ghost var a := scalars[..];
    ghost var t: seq<seq<int>> := [[], [], [], []];
    RoundsBegin(a);
    RecodedNone(digits[..]);
    signMasks[64] := ALL_ONES;
    for i := 0 to 64
      invariant |t| == 4 && |t[0]| == |t[1]| == |t[2]| == |t[3]| == i
      invariant Recoded(digits[..], signMasks[..], t, i) && signMasks[64] == ALL_ONES
      invariant Small(scalars[..], 64 - i) && Sums(t, scalars[..], a, i)
    {
      ghost var s, ds, ms := scalars[..], digits[..], signMasks[..];
      Round(t, s, a, i, 64 - i);
      var digit, mask := RecodeRound(scalars);
      signMasks[i] := mask;
      digits[i] := digit;
      RecodedNext(ds, ms, t, i, mask, s[1] % 2, s[2] % 2, s[3] % 2);
      assert digits[..] == ds[i := digit] && signMasks[..] == ms[i := mask];
      t := Extended(t, Sign(mask), s[1] % 2, s[2] % 2, s[3] % 2);
    }
    ghost var s, ds, ms := scalars[..], digits[..], signMasks[..];
    RoundsEnd(t, s, a);
    digits[64] := scalars[1] + 2 * scalars[2] + 4 * scalars[3];
    RecodedNext(ds, ms, t, 64, ALL_ONES, s[1], s[2], s[3]);
    assert digits[..] == ds[64 := digits[64]] && signMasks[..] == ms[64 := ALL_ONES];
    SignOne();
    RecodedRows(digits[..], signMasks[..], Extended(t, 1, s[1], s[2], s[3]));
  }

  lemma RecodedNone(digits: seq<nat>)
    ensures forall ms: seq<nat> {:trigger Recoded(digits, ms, [[], [], [], []], 0)} ::
        Recoded(digits, ms, [[], [], [], []], 0)
  {
  }

  lemma SignOne()
    ensures Sign(ALL_ONES) == 1
  {
  }

  /** What table index d stands for, as multiples of P, phi(P), psi(P) and psi(phi(P)). */
  function Entry(d: nat): (r: seq<int>)
    ensures |r| == 4
  {
    [1, d / 1 % 2, d / 2 % 2, d / 4 % 2]
  }

  lemma Units<T(!new)>(g: Group<T>, p: seq<T>)
    requires Groups.Lawful(g) && |p| == 4
    ensures Four(g, [1, 0, 0, 0], p) == p[0] && Four(g, [0, 1, 0, 0], p) == p[1]
    ensures Four(g, [0, 0, 1, 0], p) == p[2] && Four(g, [0, 0, 0, 1], p) == p[3]
  {
    hide Lawful, Mul;
    forall x: T
      ensures Mul(g, 0, x) == g.zero && Mul(g, 1, x) == x && g.add(x, g.zero) == x && g.add(g.zero, x) == x
    {
      MulOne(g, x);
      MulZero(g, x);
      Zero(g, x);
    }
  }

  lemma MulZero<T(!new)>(g: Group<T>, x: T)
    ensures Mul(g, 0, x) == g.zero
  {
  }

  lemma EntryPlus<T(!new)>(g: Group<T>, p: seq<T>, d: nat, r: nat, unit: seq<int>)
    requires Groups.Lawful(g) && |p| == 4 && d < 8
    requires (r == 1 && unit == [0, 1, 0, 0] && d == 0) || (r == 2 && unit == [0, 0, 1, 0] && d < 2) ||
        (r == 4 && unit == [0, 0, 0, 1] && d < 4)
    ensures g.add(Four(g, Entry(d), p), Four(g, unit, p)) == Four(g, Entry(d + r), p)
  {
    hide Lawful, Mul, Four;
    FourAdd(g, Entry(d), unit, p);
    var sum := [Entry(d)[0] + unit[0], Entry(d)[1] + unit[1], Entry(d)[2] + unit[2], Entry(d)[3] + unit[3]];
    assert sum == Entry(d + r);
  }

  /** `ecc_precomp`. */
  method EccPrecomp<T(!new)>(g: Group<T>, p: T, phi: T -> T, psi: T -> T) returns (table: seq<T>)
    requires Groups.Lawful(g)
    ensures |table| == 8 && forall d :: 0 <= d < 8 ==> table[d] == Four(g, Entry(d), [p, phi(p), psi(p), psi(phi(p))])
  {
    hide Lawful, Mul, Four;
    var q := phi(p);
    var s := psi(q);
    var r := psi(p);
    ghost var points := [p, q, r, s];
    Units(g, points);
    assert Entry(0) == [1, 0, 0, 0];
    EntryPlus(g, points, 0, 1, [0, 1, 0, 0]);
    EntryPlus(g, points, 0, 2, [0, 0, 1, 0]);
    EntryPlus(g, points, 1, 2, [0, 0, 1, 0]);
    EntryPlus(g, points, 0, 4, [0, 0, 0, 1]);
    EntryPlus(g, points, 1, 4, [0, 0, 0, 1]);
    EntryPlus(g, points, 2, 4, [0, 0, 0, 1]);
    EntryPlus(g, points, 3, 4, [0, 0, 0, 1]);
    var t0 := p;
    var t1 := g.add(t0, q);
    var t2 := g.add(t0, r);
    var t3 := g.add(t1, r);
    table := [t0, t1, t2, t3, g.add(t0, s), g.add(t1, s), g.add(t2, s), g.add(t3, s)];
  }

  /** The four numbers that the digits from index i on stand for. */
  ghost function Tails(digits: seq<nat>, masks: seq<nat>, i: nat): (r: seq<int>)
    requires |digits| == |masks| && i <= |digits|
    ensures |r| == 4
  {
    [Number(SignRow(masks)[i..], 2), Number(BitRow(digits, masks, 1)[i..], 2),
     Number(BitRow(digits, masks, 2)[i..], 2), Number(BitRow(digits, masks, 4)[i..], 2)]
  }

  lemma TailsDown(digits: seq<nat>, masks: seq<nat>, i: nat)
    requires |digits| == |masks| && i < |digits|
    ensures var a, b, e, s := Tails(digits, masks, i), Tails(digits, masks, i + 1), Entry(digits[i]), Sign(masks[i]);
      a == [s * e[0] + 2 * b[0], s * e[1] + 2 * b[1], s * e[2] + 2 * b[2], s * e[3] + 2 * b[3]]
  {
    hide Number, Sign;
    NumberDown(SignRow(masks), i, 2);
    NumberDown(BitRow(digits, masks, 1), i, 2);
    NumberDown(BitRow(digits, masks, 2), i, 2);
    NumberDown(BitRow(digits, masks, 4), i, 2);
  }

  lemma LookupIsFour<T(!new)>(g: Group<T>, table: seq<T>, digit: nat, mask: nat, p: seq<T>)
    requires Groups.Lawful(g) && |p| == 4 && digit < |table| && table[digit] == Four(g, Entry(digit), p)
    ensures var e, s := Entry(digit), Sign(mask);
      Lookup(g, table, digit, mask) == Four(g, [s * e[0], s * e[1], s * e[2], s * e[3]], p)
  {
    hide Lawful, Four;
    var e, s := Entry(digit), Sign(mask);
    FourNeg(g, e, p);
    assert mask == ALL_ONES ==> [s * e[0], s * e[1], s * e[2], s * e[3]] == e;
    assert mask != ALL_ONES ==> [s * e[0], s * e[1], s * e[2], s * e[3]] == [-e[0], -e[1], -e[2], -e[3]];
  }

  lemma DoubleAdd<T(!new)>(g: Group<T>, b: seq<int>, e: seq<int>, p: seq<T>)
    requires Groups.Lawful(g) && |p| == 4 && |b| == 4 && |e| == 4
    ensures g.add(Double(g, Four(g, b, p)), Four(g, e, p)) ==
        Four(g, [e[0] + 2 * b[0], e[1] + 2 * b[1], e[2] + 2 * b[2], e[3] + 2 * b[3]], p)
  {
    hide Lawful, Four;
    FourAdd(g, b, b, p);
    var bb := [b[0] + b[0], b[1] + b[1], b[2] + b[2], b[3] + b[3]];
    FourAdd(g, bb, e, p);
    assert [bb[0] + e[0], bb[1] + e[1], bb[2] + e[2], bb[3] + e[3]] ==
      [e[0] + 2 * b[0], e[1] + 2 * b[1], e[2] + 2 * b[2], e[3] + 2 * b[3]];
  }

  /** Double-and-add over the recoded digits, from the highest down. */
  method DoubleAndAdd<T(!new)>(g: Group<T>, table: seq<T>, digits: array<nat>, signMasks: array<nat>,
          ghost p: seq<T>) returns (r: T)
    requires Groups.Lawful(g) && |p| == 4 && digits.Length == signMasks.Length == 65
    requires |table| == 8 && forall d :: 0 <= d < 8 ==> table[d] == Four(g, Entry(d), p)
    requires forall j :: 0 <= j < 65 ==> digits[j] <= 7
    ensures r == Four(g, Tails(digits[..], signMasks[..], 0), p)
  {
    hide Lawful, Mul, Four, Tails, Lookup, Entry, Sign;
    ghost var ds, ms := digits[..], signMasks[..];
    r := Lookup(g, table, digits[64], signMasks[64]);
    LookupIsFour(g, table, ds[64], ms[64], p);
    TailsDown(ds, ms, 64);
    TailsNone(ds, ms);
    var i: nat := 64;
    while i > 0
      invariant 0 <= i <= 64 && r == Four(g, Tails(ds, ms, i), p)
    {
      i := i - 1;
      var s := Lookup(g, table, digits[i], signMasks[i]);
      LookupIsFour(g, table, ds[i], ms[i], p);
      TailsDown(ds, ms, i);
      Next(g, Tails(ds, ms, i + 1), Entry(ds[i]), Sign(ms[i]), p);
      r := Double(g, r);
      r := g.add(r, s);
    }
  }

  /** On the points of the order, phi and psi are multiplication by their eigenvalues. */
  ghost predicate EigenMaps<T(!new)>(g: Group<T>, phi: T -> T, psi: T -> T, order: int) {
    forall x :: Annihilates(g, order, x) ==> phi(x) == Mul(g, LPHI, x) && psi(x) == Mul(g, LPSI, x)
  }

  /** Multiples of a point and its images are a multiple of the point. */
  lemma ImagesAre<T(!new)>(g: Group<T>, phi: T -> T, psi: T -> T, p: T, n: seq<int>)
    requires Groups.Lawful(g) && EigenMaps(g, phi, psi, ORDER) && Annihilates(g, ORDER, p) && |n| == 4
    ensures Four(g, n, [p, phi(p), psi(p), psi(phi(p))]) == Mul(g, Dot(n, EIGEN), p)
  {
    hide Lawful, Mul, Annihilates;
    MultipleAnnihilated(g, ORDER, LPHI, p);
    MulMul(g, LPSI, LPHI, p);
    assert LPSI * LPHI == LPHI * LPSI;
    MulMul(g, n[1], LPHI, p);
    MulMul(g, n[2], LPSI, p);
    MulMul(g, n[3], LPHI * LPSI, p);
    MulAdd(g, n[0], n[1] * LPHI, p);
    MulAdd(g, n[2] * LPSI, n[3] * (LPHI * LPSI), p);
    MulAdd(g, n[0] + n[1] * LPHI, n[2] * LPSI + n[3] * (LPHI * LPSI), p);
  }

  /** Sub-scalars that represent a scalar give its multiple of the point. */
  lemma RepresentedMultiple<T(!new)>(g: Group<T>, phi: T -> T, psi: T -> T, p: T, s: seq<nat>, v: nat)
    requires Groups.Lawful(g) && EigenMaps(g, phi, psi, ORDER) && Annihilates(g, ORDER, p) && Represents(s, v)
    ensures Four(g, [s[0], s[1], s[2], s[3]], [p, phi(p), psi(p), psi(phi(p))]) == Mul(g, v, p)
  {
    hide Lawful, Mul, Annihilates, Dot, Four;
    ImagesAre(g, phi, psi, p, s);
    assert [s[0], s[1], s[2], s[3]] == s;
    var d := Dot(s, EIGEN);
    DotWords(s);
    RemainderBelow(d, ORDER);
    RemainderBelow(v, ORDER);
    MulReduced(g, ORDER, d / ORDER, d % ORDER, p);
    MulReduced(g, ORDER, v / ORDER, v % ORDER, p);
  }

  /**
   * `ecc_mul`: a0 P + a1 phi(P) + a2 psi(P) + a3 psi(phi(P)) for the decomposed scalar. On a point of the
   * curve's order that is k P.
   */
  method EccMul<T(!new)>(g: Group<T>, p: T, phi: T -> T, psi: T -> T, k: seq<nat>) returns (r: T)
    requires Groups.Lawful(g) && FourWords(k)
    ensures forall a: seq<nat> :: |a| == 4 && Decomposed(k, a, Moved(k)) ==>
      r == Four(g, [a[0], a[1], a[2], a[3]], [p, phi(p), psi(p), psi(phi(p))])
    ensures EigenMaps(g, phi, psi, ORDER) && Annihilates(g, ORDER, p) ==> r == Mul(g, Value(k), p)
  {
    hide Lawful, Mul, Four, Number, SignRow, BitRow, Tails, Entry, Decomposed, Moved, EigenMaps, Annihilates,
      Represents, Value;
    var subScalars := Decompose(k);
    var scalars := new nat[4](i requires 0 <= i < 4 => subScalars[i]);
    assert scalars[..] == subScalars;
    var digits, signMasks := new nat[65](_ => 0), new nat[65](_ => 0);
    Recode(scalars, digits, signMasks);
    var table := EccPrecomp(g, p, phi, psi);
    TailsAll(digits[..], signMasks[..]);
    r := DoubleAndAdd(g, table, digits, signMasks, [p, phi(p), psi(p), psi(phi(p))]);
    if EigenMaps(g, phi, psi, ORDER) && Annihilates(g, ORDER, p) {
      RepresentedMultiple(g, phi, psi, p, subScalars, Value(k));
    }
    forall a: seq<nat> | |a| == 4 && Decomposed(k, a, Moved(k))
      ensures a == subScalars
    {
      DecomposedOnce(k, a, subScalars);
    }
  }

  lemma Next<T(!new)>(g: Group<T>, b: seq<int>, e: seq<int>, s: int, p: seq<T>)
    requires Groups.Lawful(g) && |p| == 4 && |b| == 4 && |e| == 4
    ensures g.add(Double(g, Four(g, b, p)), Four(g, [s * e[0], s * e[1], s * e[2], s * e[3]], p)) ==
      Four(g, [s * e[0] + 2 * b[0], s * e[1] + 2 * b[1], s * e[2] + 2 * b[2], s * e[3] + 2 * b[3]], p)
  {
    hide Lawful, Four;
    DoubleAdd(g, b, [s * e[0], s * e[1], s * e[2], s * e[3]], p);
  }

  lemma TailsNone(digits: seq<nat>, masks: seq<nat>)
    requires |digits| == |masks| == 65
    ensures Tails(digits, masks, 65) == [0, 0, 0, 0]
  {
    assert SignRow(masks)[65..] == [] && BitRow(digits, masks, 1)[65..] == [] &&
      BitRow(digits, masks, 2)[65..] == [] && BitRow(digits, masks, 4)[65..] == [];
  }

  lemma TailsAll(digits: seq<nat>, masks: seq<nat>)
    requires |digits| == |masks|
    ensures Tails(digits, masks, 0) == [Number(SignRow(masks), 2), Number(BitRow(digits, masks, 1), 2),
        Number(BitRow(digits, masks, 2), 2), Number(BitRow(digits, masks, 4), 2)]
  {
    hide Number;
    assert SignRow(masks)[0..] == SignRow(masks) && BitRow(digits, masks, 1)[0..] == BitRow(digits, masks, 1);
    assert BitRow(digits, masks, 2)[0..] == BitRow(digits, masks, 2) &&
      BitRow(digits, masks, 4)[0..] == BitRow(digits, masks, 4);
  }
}

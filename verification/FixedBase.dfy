/**
 * Fixed-base scalar multiplication: the modified LSB-set recoding of an odd scalar into a row of
 * signs and four rows of bits, and the comb that reads one column of the rows at a time.
 */
module FixedBase {
  import opened Bits
  import opened Division
  import opened Numerals
  import opened Words

  /** `W_FIXEDBASE`, `V_FIXEDBASE`, `E_FIXEDBASE`, `D_FIXEDBASE`, `L_FIXEDBASE` */
  const W: nat := 5
  const V: nat := 5
  const E: nat := 10
  const D: nat := 50
  const L: nat := 250

  /** The sign row: 0 is plus, -1 is minus. */
  function Sign(digit: nat): int {
    if digit == 0 then 1 else -1
  }

  /** `(0 - sign) & digit` in 32 bits, for a one-bit digit. */
  function NegativeAnd(sign: nat, digit: nat): nat
    requires sign <= ALL_ONES && digit <= 1
  {
    if ((ALL_ONES + 1 - sign) % (ALL_ONES + 1)) % 2 == 1 && digit == 1 then 1 else 0
  }

  /** The digits up to index i as signed integers: the sign of a column times its bit; the sign row counts as ones. */
  ghost predicate Recoded(digits: seq<nat>, terms: seq<int>) {
    && |terms| <= |digits| && D <= |digits|
    && (forall c :: 0 <= c < D && c < |terms| ==>
      (digits[c] == 0 || digits[c] == ALL_ONES) && terms[c] == Sign(digits[c]))
    && forall i :: D <= i < |terms| ==> digits[i] <= 1 && terms[i] == Sign(digits[i % D]) * digits[i]
  }

  /** What may be left in the scalar before digit i. */
  ghost predicate Bound(s: nat, i: nat) {
    if i <= 247 then s <= Pow2(247 - i) else if i < L then s <= 1 else s == 0
  }

  lemma BoundNext(s: nat, i: nat, sign: nat)
    requires Bound(s, i) && D <= i < L && (sign == 0 || sign == ALL_ONES) && (i == L - 1 ==> sign == 0)
    ensures var digit := s % 2;
      var s' := s / 2 + NegativeAnd(sign, digit);
      Bound(s', i + 1) && s == Sign(sign) * digit + 2 * s'
  {
    RemainderBelow(s, 2);
    if i < 247 {
      Pow2Step(246 - i);
    }
    if i == 247 {
      assert Pow2(0) == 1;
    }
  }

  lemma RecodedSign(digits: seq<nat>, terms: seq<int>, sign: nat)
    requires Recoded(digits, terms) && |terms| < D && (sign == 0 || sign == ALL_ONES)
    ensures Recoded(digits[|terms| := sign], terms + [Sign(sign)])
  {
  }

  lemma RecodedBit(digits: seq<nat>, terms: seq<int>, bit: nat)
    requires Recoded(digits, terms) && D <= |terms| < |digits| && bit <= 1
    ensures Recoded(digits[|terms| := bit], terms + [Sign(digits[|terms| % D]) * bit])
    ensures digits[|terms| % D] == 0 || digits[|terms| % D] == ALL_ONES
  {
    var i := |terms|;
    var digits', terms' := digits[i := bit], terms + [Sign(digits[i % D]) * bit];
    assert i % D < D;
    forall j | D <= j < |terms'|
      ensures digits'[j] <= 1 && terms'[j] == Sign(digits'[j % D]) * digits'[j]
    {
      assert j % D < D;
    }
  }

  lemma LowBit(w: seq<nat>)
    requires FourWords(w)
    ensures Value(w) % 2 == w[0] % 2
  {
    var rest := 0x8000_0000_0000_0000 * w[1] + 0x8000_0000_0000_0000 * WORD * w[2] +
      0x8000_0000_0000_0000 * WORD2 * w[3];
    RemainderBelow(w[0], 2);
    Remainder(2, w[0] / 2 + rest, w[0] % 2);
  }

  /** The first row: bit i+1 of the scalar decides the sign of column i. */
  method SignRow(scalar: array<nat>, digits: array<nat>) returns (ghost terms: seq<int>)
    requires scalar.Length == 4 && FourWords(scalar[..]) && digits.Length >= L && scalar != digits
    requires Value(scalar[..]) % 2 == 1 && Value(scalar[..]) < Pow2(247)
    modifies scalar, digits
    ensures FourWords(scalar[..]) && Bound(Value(scalar[..]), D)
    ensures |terms| == D && Recoded(digits[..], terms) && digits[D - 1] == 0
    ensures Number(terms, 2) + PowerOf(2, D) * Value(scalar[..]) == old(Value(scalar[..]))
  {
    hide Pow2, Value, Number, PowerOf, FourWords, Recoded, Bound;
    ghost var k := Value(scalar[..]);
    digits[D - 1] := 0;
    terms := [];
    FirstHalf(k, digits[..]);
    ShiftRight(scalar, 1);
    for i := 0 to D - 1
      invariant FourWords(scalar[..]) && Value(scalar[..]) < Pow2(246 - i)
      invariant |terms| == i && Recoded(digits[..], terms) && digits[D - 1] == 0
      invariant Number(terms, 2) + PowerOf(2, i) * (1 + 2 * Value(scalar[..])) == k
    {
      ghost var s, ds := Value(scalar[..]), digits[..];
      LowBit(scalar[..]);
      WordCount(scalar[..]);
      var sign := (scalar[0] % 2 + ALL_ONES) % (ALL_ONES + 1);
      digits[i] := sign;
      assert digits[..] == ds[i := sign];
      RecodedSign(ds, terms, sign);
      ShiftRight(scalar, 1);
      HalfBound(s, 246 - i);
      SignOfBit(s, sign);
      NumberStep(terms, Sign(sign), 2, 1 + 2 * Value(scalar[..]));
      terms := terms + [Sign(sign)];
    }
    RecodedSign(digits[..], terms, 0);
    assert digits[..] == digits[..][D - 1 := 0];
    NumberStep(terms, 1, 2, Value(scalar[..]));
    terms := terms + [1];
    BoundStart(Value(scalar[..]));
  }

  lemma WordCount(w: seq<nat>)
    requires FourWords(w)
    ensures |w| == 4 && w[0] < WORD
  {
  }

  lemma FirstHalf(k: nat, digits: seq<nat>)
    requires k % 2 == 1 && k < Pow2(247) && |digits| >= D
    ensures k / Pow2(1) < Pow2(246) && Number([], 2) + PowerOf(2, 0) * (1 + 2 * (k / Pow2(1))) == k
    ensures Recoded(digits, [])
  {
    hide Pow2;
    Pow2Small();
    Pow2Step(246);
    RemainderBelow(k, 2);
    assert Number([], 2) == 0 && PowerOf(2, 0) == 1;
  }

  lemma HalfBound(s: nat, m: nat)
    requires s < Pow2(m) && m >= 1
    ensures s / Pow2(1) < Pow2(m - 1) && Pow2(1) == 2
  {
    hide Pow2;
    Pow2Small();
    Pow2Step(m - 1);
  }

  lemma SignOfBit(s: nat, sign: nat)
    requires sign == (s % 2 + ALL_ONES) % (ALL_ONES + 1)
    ensures sign == 0 || sign == ALL_ONES
    ensures Sign(sign) + 2 * (1 + 2 * (s / 2)) == 1 + 2 * s
  {
    RemainderBelow(s, 2);
  }

  lemma BoundStart(s: nat)
    requires s < Pow2(197)
    ensures Bound(s, D)
  {
    hide Pow2;
  }

  /**
   * `mLSB_set_recode`. Every odd scalar below 2^247 is the sum, over the 50 columns, of a sign times
   * the column's five digits; the carry that the rows hand on ends at 0.
   */
  method MLsbSetRecode(scalar: array<nat>, digits: array<nat>) returns (ghost terms: seq<int>)
    requires scalar.Length == 4 && FourWords(scalar[..]) && digits.Length >= L && scalar != digits
    requires Value(scalar[..]) % 2 == 1 && Value(scalar[..]) < Pow2(247)
    modifies scalar, digits
    ensures |terms| == L && Recoded(digits[..], terms) && Number(terms, 2) == old(Value(scalar[..]))
    ensures FourWords(scalar[..]) && Value(scalar[..]) == 0
  {
    hide Pow2, Value, Number, PowerOf, FourWords, Recoded, Bound, NegativeAnd;
    ghost var k := Value(scalar[..]);
    terms := SignRow(scalar, digits);
    for i := D to L
      invariant FourWords(scalar[..]) && Bound(Value(scalar[..]), i)
      invariant |terms| == i && Recoded(digits[..], terms) && digits[D - 1] == 0
      invariant Number(terms, 2) + PowerOf(2, i) * Value(scalar[..]) == k
    {
      ghost var s, ds := Value(scalar[..]), digits[..];
      LowBit(scalar[..]);
      WordCount(scalar[..]);
      ValueBound(scalar[..]);
      var bit := scalar[0] % 2;
      Column(i);
      RecodedBit(ds, terms, bit);
      digits[i] := bit;
      assert digits[..] == ds[i := bit];
      ShiftRight(scalar, 1);
      BoundNext(s, i, digits[i - (i / D) * D]);
      var temp := NegativeAnd(digits[i - (i / D) * D], digits[i]);
      HalfFits(s, temp);
      assert digits[i - (i / D) * D] == ds[i % D];
      AddBit(scalar, temp);
      NumberStep(terms, Sign(ds[i % D]) * bit, 2, Value(scalar[..]));
      terms := terms + [Sign(ds[i % D]) * bit];
    }
    Nothing(Value(scalar[..]), PowerOf(2, L));
  }

  lemma Column(i: nat)
    requires D <= i < L
    ensures i - (i / D) * D == i % D < D && (i == L - 1 ==> i % D == D - 1)
  {
    RemainderBelow(i, D);
  }

  lemma HalfFits(s: nat, temp: nat)
    requires s < WORD4 && temp <= 1
    ensures Pow2(1) == 2 && s / Pow2(1) + temp < WORD4
  {
    hide Pow2;
    Pow2Small();
  }

  lemma Nothing(s: nat, p: int)
    requires Bound(s, L)
    ensures s == 0 && p * s == 0
  {
  }
}

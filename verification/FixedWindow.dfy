/**
 * Variable-base scalar multiplication without endomorphisms: a 246-bit scalar as 63 signed odd
 * digits to base 16, and the quadruple-double-and-add loop over them.
 */
module FixedWindow {
  import opened Bits
  import opened Division
  import opened Groups
  import opened Numerals
  import opened Words

  /** `t_VARBASE`: windows besides the last digit. */
  const WINDOWS: nat := 62

  /** The value of a table index under a sign mask. */
  function Odd(digit: nat, mask: nat): int {
    if mask == ALL_ONES then 2 * digit + 1 else -(2 * digit + 1)
  }

  /** The first `n` recoded digits as integers. */
  function Terms(digits: seq<nat>, masks: seq<nat>, n: nat): (r: seq<int>)
    requires n <= |digits| && n <= |masks|
    ensures |r| == n && forall i :: 0 <= i < n ==> r[i] == Odd(digits[i], masks[i])
  {
    seq(n, i requires 0 <= i < n => Odd(digits[i], masks[i]))
  }

  /** `~((unsigned int)(x >> 63))` for a word read as a signed number. */
  function SignMask(x: nat): nat {
    if x < 0x8000_0000_0000_0000 then ALL_ONES else 0
  }

  /** `is_digit_lessthan_ct` */
  function LessThan(x: nat, y: nat): nat {
    if x < y then 1 else 0
  }

  /** Subtracts a window's signed digit from the scalar, with the borrow handed from word to word. */
  method SubtractDigit(scalar: array<nat>, temp: int)
    requires scalar.Length == 4 && FourWords(scalar[..]) && temp == (scalar[0] % 32) as int - 16
    modifies scalar
    ensures FourWords(scalar[..]) && Value(scalar[..]) == old(Value(scalar[..])) - temp
  {
    var res := (scalar[0] - temp) % WORD;
    var borrow := if temp < 0 then 0 else LessThan(scalar[0], temp);
    scalar[0] := res;
    for j := 1 to 4
      invariant borrow == 0 && FourWords(scalar[..])
      invariant scalar[0] == old(scalar[0]) - temp && scalar[1..] == old(scalar[1..])
    {
      res := scalar[j];
      scalar[j] := (res - borrow) % WORD;
      borrow := LessThan(res, borrow);
    }
  }

  /** One window: what is left is odd again, and four bits shorter. */
  lemma Window(s: nat)
    requires s % 2 == 1
    ensures var temp := (s % 32) as int - 16;
      && temp % 2 == 1 && -15 <= temp <= 15 && s - temp >= 0
      && s == temp + 16 * ((s - temp) / 16) && ((s - temp) / 16) % 2 == 1 && (s - temp) / 16 == 2 * (s / 32) + 1
  {
    var q, r := s / 32, s % 32;
    RemainderBelow(s, 32);
    RemainderBelow(r, 2);
    Remainder(2, 16 * q + r / 2, r % 2);
    Remainder(16, 2 * q + 1, 0);
    Remainder(2, q, 1);
  }

  lemma Shrinks(s: nat, m: nat)
    requires s < Pow2(m) && m >= 5
    ensures 2 * (s / 32) + 1 < Pow2(m - 4)
  {
    RemainderBelow(s, 32);
    assert Pow2(m) == 2 * Pow2(m - 1) && Pow2(m - 1) == 2 * Pow2(m - 2) && Pow2(m - 2) == 2 * Pow2(m - 3);
    assert Pow2(m - 3) == 2 * Pow2(m - 4) && Pow2(m - 4) == 2 * Pow2(m - 5);
  }

  /** What is still in the scalar before window `i`. */
  ghost predicate Left(s: nat, i: nat) {
    s % 2 == 1 && if i < WINDOWS then s < Pow2(247 - 4 * i) else s == 1
  }

  lemma LeftNext(s: nat, i: nat)
    requires Left(s, i) && i < WINDOWS
    ensures Left(2 * (s / 32) + 1, i + 1)
  {
    hide Pow2;
    Remainder(2, s / 32, 1);
    if i < WINDOWS - 1 {
      Shrinks(s, 247 - 4 * i);
    } else {
      Pow2Small();
    }
  }

  /** The recoded digits so far: table indices and sign masks, and the odd integers they stand for. */
  ghost predicate Recoded(digits: seq<nat>, masks: seq<nat>, terms: seq<int>) {
    && |terms| <= |digits| && |terms| <= |masks|
    && forall j :: 0 <= j < |terms| ==>
      digits[j] <= 7 && (masks[j] == 0 || masks[j] == ALL_ONES) && terms[j] == Odd(digits[j], masks[j])
  }

  lemma RecodedNext(digits: seq<nat>, masks: seq<nat>, terms: seq<int>, digit: nat, mask: nat)
    requires Recoded(digits, masks, terms) && |terms| < |digits| && |terms| < |masks|
    requires digit <= 7 && (mask == 0 || mask == ALL_ONES)
    ensures Recoded(digits[|terms| := digit], masks[|terms| := mask], terms + [Odd(digit, mask)])
  {
  }

  lemma RecodedAll(digits: seq<nat>, masks: seq<nat>, terms: seq<int>)
    requires Recoded(digits, masks, terms)
    ensures Terms(digits, masks, |terms|) == terms
    ensures forall j :: 0 <= j < |terms| ==> digits[j] <= 7 && (masks[j] == 0 || masks[j] == ALL_ONES)
  {
  }

  /** One window: takes a signed odd digit off the scalar and shifts it down. */
  method RecodeWindow(scalar: array<nat>, ghost i: nat) returns (digit: nat, mask: nat)
    requires scalar.Length == 4 && FourWords(scalar[..]) && i < WINDOWS && Left(Value(scalar[..]), i)
    modifies scalar
    ensures FourWords(scalar[..]) && Left(Value(scalar[..]), i + 1)
    ensures digit <= 7 && (mask == 0 || mask == ALL_ONES)
    ensures old(Value(scalar[..])) == Odd(digit, mask) + 16 * Value(scalar[..])
  {
    hide Pow2, Value, Left;
    ghost var s := Value(scalar[..]);
    LowWord(scalar[..]);
    LeftOdd(s, i);
    Window(s);
    LeftNext(s, i);
    Pow2Small();
    var temp := (scalar[0] % 32) as int - 16;
    mask := if temp >= 0 then ALL_ONES else 0;
    digit := (if temp >= 0 then temp else -temp) / 2;
    SubtractDigit(scalar, temp);
    ShiftRight(scalar, 4);
  }

  /** `fixed_window_recode`. */
  method FixedWindowRecode(scalar: array<nat>, digits: array<nat>, signMasks: array<nat>)
    requires scalar.Length == 4 && digits.Length == signMasks.Length == WINDOWS + 1 && digits != signMasks
    requires scalar != digits && scalar != signMasks
    requires FourWords(scalar[..]) && Value(scalar[..]) % 2 == 1 && Value(scalar[..]) < Pow2(247)
    modifies scalar, digits, signMasks
    ensures forall i :: 0 <= i <= WINDOWS ==> digits[i] <= 7 && (signMasks[i] == 0 || signMasks[i] == ALL_ONES)
    ensures Number(Terms(digits[..], signMasks[..], WINDOWS + 1), 16) == old(Value(scalar[..]))
    ensures FourWords(scalar[..]) && Value(scalar[..]) == 1
  {
    hide Pow2, Number, PowerOf, Value, Terms, Left, Recoded, FourWords, Odd;
    ghost var k := Value(scalar[..]);
    ghost var terms: seq<int> := [];
    Begin(k, digits[..], signMasks[..]);
    for i := 0 to WINDOWS
      invariant FourWords(scalar[..]) && Left(Value(scalar[..]), i)
      invariant |terms| == i && Recoded(digits[..], signMasks[..], terms)
      invariant Number(terms, 16) + PowerOf(16, i) * Value(scalar[..]) == k
    {
      ghost var ds, ms := digits[..], signMasks[..];
      var digit, mask := RecodeWindow(scalar, i);
      signMasks[i] := mask;
      digits[i] := digit;
      RecodedNext(ds, ms, terms, digit, mask);
      assert digits[..] == ds[i := digit] && signMasks[..] == ms[i := mask];
      NumberStep(terms, Odd(digit, mask), 16, Value(scalar[..]));
      terms := terms + [Odd(digit, mask)];
    }
    ghost var ds, ms := digits[..], signMasks[..];
    LastWord(scalar[..]);
    signMasks[WINDOWS] := SignMask(scalar[0]);
    digits[WINDOWS] := scalar[0] / 2;
    RecodedNext(ds, ms, terms, 0, ALL_ONES);
    assert digits[..] == ds[WINDOWS := 0] && signMasks[..] == ms[WINDOWS := ALL_ONES];
    NumberAppend(terms, Odd(0, ALL_ONES), 16);
    RecodedAll(digits[..], signMasks[..], terms + [Odd(0, ALL_ONES)]);
  }

  lemma Begin(k: nat, digits: seq<nat>, masks: seq<nat>)
    requires k % 2 == 1 && k < Pow2(247)
    ensures Left(k, 0) && Recoded(digits, masks, []) && Number([], 16) + PowerOf(16, 0) * k == k
  {
    hide Pow2;
    assert Number([], 16) == 0 && PowerOf(16, 0) == 1;
  }

  lemma LowWord(w: seq<nat>)
    requires FourWords(w)
    ensures Value(w) % 32 == w[0] % 32 && Value(w) % 2 == w[0] % 2
  {
    var rest := 0x0800_0000_0000_0000 * w[1] + 0x0800_0000_0000_0000 * WORD * w[2] +
      0x0800_0000_0000_0000 * WORD2 * w[3];
    RemainderBelow(w[0], 32);
    Remainder(32, w[0] / 32 + rest, w[0] % 32);
    RemainderBelow(w[0], 2);
    Remainder(2, w[0] / 2 + 16 * rest, w[0] % 2);
  }

  lemma LeftOdd(s: nat, i: nat)
    requires Left(s, i)
    ensures s % 2 == 1
  {
  }

  lemma LastWord(w: seq<nat>)
    requires FourWords(w) && Left(Value(w), WINDOWS)
    ensures |w| == 4 && w[0] == 1 && Value(w) == 1 && Odd(0, ALL_ONES) == 1
  {
  }

  /** `ecc_precomp`: the odd multiples P, 3P, ..., 15P. */
  method EccPrecomp<T(!new)>(g: Group<T>, p: T) returns (table: seq<T>)
    requires Lawful(g)
    ensures |table| == 8 && forall i :: 0 <= i < 8 ==> table[i] == Mul(g, 2 * i + 1, p)
  {
    hide Lawful, Mul;
    MulOne(g, p);
    MulAdd(g, 1, 1, p);
    table := [p];
    var p2 := Double(g, p);
    for i := 1 to 8
      invariant |table| == i && forall j :: 0 <= j < i ==> table[j] == Mul(g, 2 * j + 1, p)
    {
      MulAdd(g, 2, 2 * (i - 1) + 1, p);
      table := table + [g.add(p2, table[i - 1])];
    }
  }

  lemma LookupIsMultiple<T(!new)>(g: Group<T>, table: seq<T>, digit: nat, mask: nat, p: T)
    requires Lawful(g) && digit < |table| && table[digit] == Mul(g, 2 * digit + 1, p)
    ensures Lookup(g, table, digit, mask) == Mul(g, Odd(digit, mask), p)
  {
    hide Lawful, Mul;
    MulNeg(g, 2 * digit + 1, p);
  }

  lemma Quadruple<T(!new)>(g: Group<T>, n: int, t: int, p: T)
    requires Lawful(g)
    ensures g.add(Double(g, Double(g, Double(g, Double(g, Mul(g, n, p))))), Mul(g, t, p)) == Mul(g, t + 16 * n, p)
  {
    hide Lawful, Mul;
    MulAdd(g, n, n, p);
    MulAdd(g, 2 * n, 2 * n, p);
    MulAdd(g, 4 * n, 4 * n, p);
    MulAdd(g, 8 * n, 8 * n, p);
    MulAdd(g, 16 * n, t, p);
  }

  /** Four doublings and one addition take in the next digit. */
  lemma TakesDigit<T(!new)>(g: Group<T>, terms: seq<int>, i: nat, p: T)
    requires Lawful(g) && i < |terms|
    ensures g.add(Double(g, Double(g, Double(g, Double(g, Mul(g, Number(terms[i + 1..], 16), p))))),
        Mul(g, terms[i], p))
      == Mul(g, Number(terms[i..], 16), p)
  {
    hide Lawful, Mul, Number, Double;
    NumberDown(terms, i, 16);
    Quadruple(g, Number(terms[i + 1..], 16), terms[i], p);
  }

  /** The table entry that a digit names. */
  lemma EntryIs<T(!new)>(g: Group<T>, table: seq<T>, digits: seq<nat>, masks: seq<nat>, i: nat, p: T)
    requires Lawful(g) && |table| == 8 && forall j :: 0 <= j < 8 ==> table[j] == Mul(g, 2 * j + 1, p)
    requires i < |digits| && i < |masks| && digits[i] <= 7
    ensures Lookup(g, table, digits[i], masks[i]) == Mul(g, Odd(digits[i], masks[i]), p)
  {
    hide Lawful, Mul, Odd, Lookup;
    LookupIsMultiple(g, table, digits[i], masks[i], p);
  }

  /** The multiplication loop of `ecc_mul`, for a scalar already reduced and made odd: the result is k P. */
  method EccMul<T(!new)>(g: Group<T>, p: T, k: array<nat>) returns (r: T)
    requires Lawful(g) && k.Length == 4 && FourWords(k[..]) && Value(k[..]) % 2 == 1 && Value(k[..]) < Pow2(247)
    modifies k
    ensures r == Mul(g, old(Value(k[..])), p)
  {
    hide Lawful, Mul, Number, Pow2, Value, Odd, Lookup, Double;
    var digits, signMasks := new nat[WINDOWS + 1](_ => 0), new nat[WINDOWS + 1](_ => 0);
    ghost var scalar := Value(k[..]);
    var table := EccPrecomp(g, p);
    FixedWindowRecode(k, digits, signMasks);
    ghost var terms := Terms(digits[..], signMasks[..], WINDOWS + 1);
    EntryIs(g, table, digits[..], signMasks[..], WINDOWS, p);
    NumberDown(terms, WINDOWS, 16);
    NumberNone(terms, 16);
    r := Lookup(g, table, digits[WINDOWS], signMasks[WINDOWS]);
    var i: nat := WINDOWS;
    while i > 0
      invariant 0 <= i <= WINDOWS && r == Mul(g, Number(terms[i..], 16), p)
      modifies {}
    {
      i := i - 1;
      EntryIs(g, table, digits[..], signMasks[..], i, p);
      TakesDigit(g, terms, i, p);
      r := Double(g, r);
      var s := Lookup(g, table, digits[i], signMasks[i]);
      r := Double(g, r);
      r := Double(g, r);
      r := Double(g, r);
      r := g.add(r, s);
    }
    assert terms[0..] == terms;
  }

  lemma NumberNone(f: seq<int>, base: int)
    ensures f[|f|..] == [] && Number(f[|f|..], base) == 0
  {
  }
}

/**
 * Evaluation of a bin's polynomial on the encrypted powers of the query: term by term, and by
 * Paterson and Stockmeyer's method, which reads only a few of the powers.
 */
module PolynomialEval {
  import opened Division
  import opened Rings
  import opened Ciphertexts

  function Values<T>(coeffs: seq<Plaintext<T>>): (a: seq<T>)
    ensures |a| == |coeffs|
  {
    seq(|coeffs|, i requires 0 <= i < |coeffs| => coeffs[i].value)
  }

  /** A filled slot in the given form, holding the power `p` of `x`. */
  ghost predicate Holds<T>(r: Ring<T>, powers: seq<Slot<T>>, x: T, p: nat) {
    p < |powers| && powers[p].Filled? && powers[p].c.value == Power(r, x, p)
  }

  predicate Formed<T>(s: Slot<T>, ntt: bool, level: nat) {
    s.Filled? && s.c.ntt == ntt && s.c.level == level
  }

  predicate PlainFormed<T>(p: Plaintext<T>, level: nat) {
    p.ntt && p.level == level
  }

  /** When plain evaluation meets only operands that match. */
  predicate EvalReady<T>(powers: seq<Slot<T>>, coeffs: seq<Plaintext<T>>, random: Plaintext<T>)
    requires |coeffs| > 0 && |powers| >= |coeffs| && |powers| >= 2
  {
    && powers[1].Filled? && !coeffs[0].ntt && !random.ntt
    && forall d :: 1 <= d < |coeffs| ==> TermReady(powers, coeffs, d)
  }

  predicate TermReady<T>(powers: seq<Slot<T>>, coeffs: seq<Plaintext<T>>, d: nat)
    requires d < |coeffs| <= |powers| && |powers| >= 2 && powers[1].Filled?
  {
    Formed(powers[d], true, powers[1].c.level) && PlainFormed(coeffs[d], powers[1].c.level)
  }

  /**
   * `eval`. It succeeds exactly when every operand matches, and then the result is the polynomial
   * at `x` plus the random term.
   */
  method Eval<T(!new)>(r: Ring<T>, powers: seq<Slot<T>>, coeffs: seq<Plaintext<T>>, random: Plaintext<T>, ghost x: T)
      returns (out: Outcome<Ciphertext<T>>)
    requires Lawful(r) && |coeffs| > 0
    ensures |powers| < |coeffs| || |powers| < 2 ==> out == Fail(NotEnoughPowers)
    ensures |powers| >= |coeffs| && |powers| >= 2 ==> (out.Ok? <==> EvalReady(powers, coeffs, random))
    ensures |powers| >= |coeffs| && |powers| >= 2 && out.Fail? ==> out.error == Mismatch || out.error == EmptySlot
    ensures out.Ok? && (forall d :: 1 <= d < |coeffs| ==> Holds(r, powers, x, d)) ==>
      out.value == Ciphertext(r.add(Poly(r, Values(coeffs), x), random.value), false, 0)
  {
    hide Lawful, Power, Holds;
    if |powers| < (if |coeffs| < 2 then 2 else |coeffs|) {
      return Fail(NotEnoughPowers);
    }
    ghost var a := Values(coeffs);
    var first :- Read(powers[1]);
    var result := Ciphertext(r.zero, true, first.level);
    for deg := 1 to |coeffs|
      invariant result.ntt && result.level == first.level
      invariant forall d :: 1 <= d < deg ==> TermReady(powers, coeffs, d)
      invariant (forall d :: 1 <= d < deg ==> Holds(r, powers, x, d)) ==> result.value == Terms(r, a, x, 1, deg)
    {
      if Holds(r, powers, x, deg) {
        HoldsMeans(r, powers, x, deg);
      }
      ghost var ready := TermReady(powers, coeffs, deg);
      var power :- Read(powers[deg]);
      var temp :- MultiplyPlain(r, power, coeffs[deg]);
      result :- AddTo(r, result, temp);
    }
    PolyConstant(r, a, x);
    result := FromNtt(result).Extract();
    result :- AddPlain(r, result, coeffs[0]);
    result :- AddPlain(r, result, random);
    while result.level != 0
      invariant !result.ntt
      invariant (forall d :: 1 <= d < |coeffs| ==> Holds(r, powers, x, d)) ==>
          result.value == r.add(Poly(r, a, x), random.value)
      decreases result.level
    {
      result := ModSwitchTo(result, result.level - 1).Extract();
    }
    return Ok(result);
  }

  lemma HoldsMeans<T>(r: Ring<T>, powers: seq<Slot<T>>, x: T, p: nat)
    requires Holds(r, powers, x, p)
    ensures p < |powers| && powers[p].Filled? && powers[p].c.value == Power(r, x, p)
  {
  }

  /** Terms from the first on, plus the constant, are the polynomial. */
  lemma PolyConstant<T(!new)>(r: Ring<T>, a: seq<T>, x: T)
    requires Lawful(r) && |a| > 0
    ensures r.add(Terms(r, a, x, 1, |a|), a[0]) == Poly(r, a, x)
  {
    hide Lawful;
    TermsSplit(r, a, x, 0, 1, |a|);
    var rest := Terms(r, a, x, 1, |a|);
    assert Terms(r, a, x, 0, 1) == r.add(r.zero, r.mul(r.one, a[0]));
    Mul1(r, a[0]);
    Add0(r, a[0]);
    AddComm(r, rest, a[0]);
  }

  /**
   * What Paterson and Stockmeyer's method reads: the low powers and the multiples of `low + 1`,
   * each in the form it is kept in.
   */
  predicate PatstockReady<T>(powers: seq<Slot<T>>, coeffs: seq<Plaintext<T>>, random: Plaintext<T>, low: nat,
          lowLevel: nat, highLevel: nat) {
    && |coeffs| > 0 && !random.ntt && highLevel <= lowLevel
    && (forall k {:trigger coeffs[k]} :: 0 <= k < |coeffs| ==>
        if k % (low + 1) == 0 then !coeffs[k].ntt else PlainFormed(coeffs[k], lowLevel))
    && (forall k :: 1 <= k <= low && k < |powers| ==> Formed(powers[k], true, lowLevel))
    && forall k :: low < k < |coeffs| && k < |powers| && k % (low + 1) == 0 ==> Formed(powers[k], false, highLevel)
  }

  /** The powers it reads are powers of `x`. */
  ghost predicate HoldsRead<T>(r: Ring<T>, powers: seq<Slot<T>>, x: T, low: nat, degree: nat) {
    forall p :: (1 <= p <= low || (low < p <= degree && p % (low + 1) == 0)) ==> Holds(r, powers, x, p)
  }

  lemma BlockIndex(i: nat, j: nat, high: nat, degree: nat)
    requires high > 0 && j < high && i <= degree / high && (i < degree / high || j <= degree % high)
    ensures i * high + j <= degree && (i * high + j) % high == j
    ensures i >= 1 ==> i * high >= high
  {
    Remainder(high, i, j);
    RemainderBelow(degree, high);
    MulMono(i, degree / high, high);
    MulMono(i + 1, degree / high, high);
    MulMono(1, i, high);
    assert (i + 1) * high == i * high + high;
  }

  /** Where block `i` ends. */
  function BlockEnd(i: nat, high: nat, size: nat): nat {
    if (i + 1) * high < size then (i + 1) * high else size
  }

  /** The terms of blocks 1 to i without their first ones. */
  ghost function Blocks<T>(r: Ring<T>, a: seq<T>, x: T, high: nat, i: nat): T
    requires i == 0 || i * high < |a|
    requires high > 0
  {
    if i == 0 then r.zero
    else
      MulMono(i - 1, i, high);
      assert (i + 1) * high == i * high + high;
      r.add(Blocks(r, a, x, high, i - 1), Terms(r, a, x, i * high + 1, BlockEnd(i, high, |a|)))
  }

  /** The first terms of blocks 1 to i. */
  ghost function Firsts<T>(r: Ring<T>, a: seq<T>, x: T, high: nat, i: nat): T
    requires i == 0 || i * high < |a|
  {
    if i == 0 then r.zero
    else
      MulMono(i - 1, i, high);
      r.add(Firsts(r, a, x, high, i - 1), r.mul(Power(r, x, i * high), a[i * high]))
  }

  /** Regrouping: first block, rests of the other blocks, firsts of the other blocks. */
  lemma {:induction false} Regrouped<T(!new)>(r: Ring<T>, a: seq<T>, x: T, high: nat, i: nat)
    requires Lawful(r) && high >= 1 && high <= |a| && (i == 0 || i * high < |a|)
    ensures 1 <= BlockEnd(i, high, |a|) <= |a|
    ensures Terms(r, a, x, 1, BlockEnd(i, high, |a|)) ==
      r.add(r.add(Blocks(r, a, x, high, i), Terms(r, a, x, 1, high)), Firsts(r, a, x, high, i))
  {
    hide Lawful, Power;
    var base := Terms(r, a, x, 1, high);
    if i == 0 {
      Add0(r, base);
    } else {
      MulMono(i - 1, i, high);
      MulMono(1, i, high);
      assert (i + 1) * high == i * high + high && (i - 1 + 1) * high == i * high;
      Regrouped(r, a, x, high, i - 1);
      var end, at := BlockEnd(i, high, |a|), i * high;
      var blocks, firsts := Blocks(r, a, x, high, i - 1), Firsts(r, a, x, high, i - 1);
      var rest, one := Terms(r, a, x, at + 1, end), r.mul(Power(r, x, at), a[at]);
      TermsSplit(r, a, x, 1, at + 1, end);
      assert Terms(r, a, x, 1, at + 1) == r.add(r.add(r.add(blocks, base), firsts), one);
      RegroupStep(r, blocks, base, firsts, one, rest);
    }
  }

  lemma RegroupStep<T(!new)>(r: Ring<T>, blocks: T, base: T, firsts: T, one: T, rest: T)
    requires Lawful(r)
    ensures r.add(r.add(r.add(r.add(blocks, base), firsts), one), rest) ==
        r.add(r.add(r.add(blocks, rest), base), r.add(firsts, one))
  {
    hide Lawful;
    AddAssoc(r, r.add(blocks, base), firsts, one);
    var f := r.add(firsts, one);
    AddAssoc(r, r.add(blocks, base), f, rest);
    AddComm(r, f, rest);
    AddAssoc(r, r.add(blocks, base), rest, f);
    AddAssoc(r, blocks, base, rest);
    AddComm(r, base, rest);
    AddAssoc(r, blocks, rest, base);
  }

  /** All blocks and the constant are the polynomial. */
  lemma PatstockTotal<T(!new)>(r: Ring<T>, a: seq<T>, x: T, high: nat)
    requires Lawful(r) && high >= 1 && high < |a|
    ensures var i := (|a| - 1) / high;
      && i * high < |a|
      && r.add(r.add(r.add(Blocks(r, a, x, high, i), Terms(r, a, x, 1, high)), Firsts(r, a, x, high, i)), a[0]) ==
        Poly(r, a, x)
  {
    hide Lawful, Blocks, Firsts, Terms, Power;
    var i := (|a| - 1) / high;
    LastMultiple(high, |a| - 1);
    assert (i + 1) * high == i * high + high;
    Regrouped(r, a, x, high, i);
    PolyConstant(r, a, x);
  }

  ghost predicate BlockFormed<T>(powers: seq<Slot<T>>, coeffs: seq<Plaintext<T>>, at: nat, count: nat, level: nat)
    requires at + count < |coeffs| && count < |powers|
  {
    forall j :: 1 <= j <= count ==> PairFormed(powers, coeffs, at, j, level)
  }

  /** Power j and the coefficient it is multiplied with. */
  ghost predicate PairFormed<T>(powers: seq<Slot<T>>, coeffs: seq<Plaintext<T>>, at: nat, j: nat, level: nat)
    requires at + j < |coeffs| && j < |powers|
  {
    Formed(powers[j], true, level) && PlainFormed(coeffs[at + j], level)
  }

  ghost predicate BlockHolds<T>(r: Ring<T>, powers: seq<Slot<T>>, x: T, count: nat) {
    forall j :: 1 <= j <= count ==> Holds(r, powers, x, j)
  }

  lemma BlockAt<T>(r: Ring<T>, powers: seq<Slot<T>>, coeffs: seq<Plaintext<T>>, x: T, at: nat, count: nat, level: nat,
          j: nat)
    requires at + count < |coeffs| && count < |powers| && 1 <= j <= count
    ensures BlockFormed(powers, coeffs, at, count, level) ==>
        Formed(powers[j], true, level) && PlainFormed(coeffs[at + j], level)
    ensures BlockHolds(r, powers, x, count) ==> powers[j].Filled? && powers[j].c.value == Power(r, x, j)
  {
    hide Power;
    assert BlockHolds(r, powers, x, count) ==> Holds(r, powers, x, j);
    assert BlockFormed(powers, coeffs, at, count, level) ==> PairFormed(powers, coeffs, at, j, level);
  }

  /** One inner polynomial without its free term: a[at+1] x + ... + a[at+count] x^count, still in NTT form. */
  method InnerPolynomial<T(!new)>(r: Ring<T>, powers: seq<Slot<T>>, coeffs: seq<Plaintext<T>>, at: nat, count: nat,
          ghost level: nat, ghost x: T)
      returns (out: Outcome<Ciphertext<T>>)
    requires count >= 1 && at + count < |coeffs| && count < |powers| && Lawful(r)
    ensures BlockFormed(powers, coeffs, at, count, level) ==> out.Ok? && out.value.ntt && out.value.level == level
    ensures out.Ok? && BlockHolds(r, powers, x, count) ==> out.value.value == Inner(r, Values(coeffs), x, at, count)
  {
    hide Lawful, Power, Holds, BlockFormed, BlockHolds;
    ghost var a := Values(coeffs);
    ghost var formed, holds := BlockFormed(powers, coeffs, at, count, level), BlockHolds(r, powers, x, count);
    var sum := Ciphertext(r.zero, true, 0);
    for j := 1 to count + 1
      invariant formed && j > 1 ==> sum.ntt && sum.level == level
      invariant holds ==> sum.value == Inner(r, a, x, at, j - 1)
    {
      BlockAt(r, powers, coeffs, x, at, count, level, j);
      var power :- Read(powers[j]);
      var temp :- MultiplyPlain(r, power, coeffs[at + j]);
      if j == 1 {
        Add0(r, temp.value);
        sum := temp;
      } else {
        sum :- AddTo(r, sum, temp);
      }
    }
    return Ok(sum);
  }

  /** What the evaluator is given when everything is in place. */
  ghost predicate Good<T>(r: Ring<T>, powers: seq<Slot<T>>, coeffs: seq<Plaintext<T>>, random: Plaintext<T>,
                          low: nat, lowLevel: nat, highLevel: nat, x: T) {
    && |powers| >= |coeffs| && PatstockReady(powers, coeffs, random, low, lowLevel, highLevel)
    && HoldsRead(r, powers, x, low, |coeffs| - 1)
  }

  /** A low power, and a coefficient that it may meet. */
  lemma GoodAt<T>(r: Ring<T>, powers: seq<Slot<T>>, coeffs: seq<Plaintext<T>>, random: Plaintext<T>,
                  low: nat, lowLevel: nat, highLevel: nat, x: T, j: nat, k: nat)
    requires Good(r, powers, coeffs, random, low, lowLevel, highLevel, x)
    requires 1 <= j <= low && j < |powers| && k < |coeffs| && k % (low + 1) == j
    ensures Formed(powers[j], true, lowLevel) && PlainFormed(coeffs[k], lowLevel) && Holds(r, powers, x, j)
  {
    hide Holds, Formed, PlainFormed;
    assert coeffs[k] == coeffs[k] && powers[j] == powers[j];
  }

  lemma GoodLow<T>(r: Ring<T>, powers: seq<Slot<T>>, coeffs: seq<Plaintext<T>>, random: Plaintext<T>,
                   low: nat, lowLevel: nat, highLevel: nat, x: T, at: nat, count: nat)
    requires Good(r, powers, coeffs, random, low, lowLevel, highLevel, x)
    requires count <= low && count < |powers| && at + count < |coeffs| && at % (low + 1) == 0
    ensures BlockFormed(powers, coeffs, at, count, lowLevel) && BlockHolds(r, powers, x, count)
  {
    hide Holds, Formed, PlainFormed, Good;
    forall j | 1 <= j <= count
      ensures PairFormed(powers, coeffs, at, j, lowLevel) && Holds(r, powers, x, j)
    {
      OffsetRemainder(low + 1, at, j);
      GoodAt(r, powers, coeffs, random, low, lowLevel, highLevel, x, j, at + j);
    }
  }

  lemma GoodHigh<T>(r: Ring<T>, powers: seq<Slot<T>>, coeffs: seq<Plaintext<T>>, random: Plaintext<T>,
                    low: nat, lowLevel: nat, highLevel: nat, x: T, p: nat)
    requires Good(r, powers, coeffs, random, low, lowLevel, highLevel, x)
    requires low < p < |coeffs| && p < |powers| && p % (low + 1) == 0
    ensures Formed(powers[p], false, highLevel) && Holds(r, powers, x, p) && !coeffs[p].ntt
    ensures powers[p].Filled? && powers[p].c == Ciphertext(Power(r, x, p), false, highLevel)
  {
    hide Power;
    assert coeffs[p] == coeffs[p] && powers[p] == powers[p];
    assert Holds(r, powers, x, p);
  }

  /** Adds one block: inner polynomial times its high power. */
  method AddBlock<T(!new)>(r: Ring<T>, powers: seq<Slot<T>>, coeffs: seq<Plaintext<T>>, low: nat, highLevel: nat,
                           at: nat, count: nat, result: Ciphertext<T>, ghost random: Plaintext<T>, ghost lowLevel: nat,
                             ghost x: T)
      returns (out: Outcome<Ciphertext<T>>)
    requires Lawful(r) && 1 <= count <= low && low < at && at % (low + 1) == 0 && at + count < |coeffs| <= |powers|
    ensures Good(r, powers, coeffs, random, low, lowLevel, highLevel, x) && !result.ntt && result.level == highLevel ==>
      out == Ok(Ciphertext(r.add(result.value, Terms(r, Values(coeffs), x, at + 1, at + 1 + count)), false, highLevel))
  {
    hide Lawful, Power, Good, Inner, Terms, Formed, PlainFormed, Holds, BlockFormed, BlockHolds;
    ghost var good := Good(r, powers, coeffs, random, low, lowLevel, highLevel, x);
    if good {
      GoodLow(r, powers, coeffs, random, low, lowLevel, highLevel, x, at, count);
      GoodHigh(r, powers, coeffs, random, low, lowLevel, highLevel, x, at);
      GoodLevels(r, powers, coeffs, random, low, lowLevel, highLevel, x);
      InnerTerms(r, Values(coeffs), x, at, count);
    }
    var tempIn :- InnerPolynomial(r, powers, coeffs, at, count, lowLevel, x);
    tempIn :- FromNtt(tempIn);
    tempIn :- ModSwitchTo(tempIn, highLevel);
    var power :- Read(powers[at]);
    tempIn :- Multiply(r, tempIn, power);
    out := AddTo(r, result, tempIn);
  }

  lemma GoodLevels<T>(r: Ring<T>, powers: seq<Slot<T>>, coeffs: seq<Plaintext<T>>, random: Plaintext<T>,
                      low: nat, lowLevel: nat, highLevel: nat, x: T)
    requires Good(r, powers, coeffs, random, low, lowLevel, highLevel, x)
    ensures highLevel <= lowLevel && !random.ntt && !coeffs[0].ntt
  {
    assert coeffs[0] == coeffs[0];
  }

  /** Adds the first block, term by term. */
  method AddLowTerms<T(!new)>(r: Ring<T>, powers: seq<Slot<T>>, coeffs: seq<Plaintext<T>>, low: nat, highLevel: nat,
                              start: Ciphertext<T>, ghost random: Plaintext<T>, ghost lowLevel: nat, ghost x: T)
      returns (out: Outcome<Ciphertext<T>>)
    requires Lawful(r) && low + 1 < |coeffs| <= |powers|
    ensures Good(r, powers, coeffs, random, low, lowLevel, highLevel, x) && !start.ntt && start.level == highLevel ==>
      out == Ok(Ciphertext(r.add(start.value, Terms(r, Values(coeffs), x, 1, low + 1)), false, highLevel))
  {
    hide Lawful, Power, Good, BlockFormed, BlockHolds;
    ghost var good := Good(r, powers, coeffs, random, low, lowLevel, highLevel, x) && !start.ntt &&
      start.level == highLevel;
    ghost var a := Values(coeffs);
    if good {
      GoodLow(r, powers, coeffs, random, low, lowLevel, highLevel, x, 0, low);
      GoodLevels(r, powers, coeffs, random, low, lowLevel, highLevel, x);
    }
    Add0(r, start.value);
    var result := start;
    for j := 1 to low + 1
      invariant good ==> result == Ciphertext(r.add(start.value, Terms(r, a, x, 1, j)), false, highLevel)
    {
      BlockAt(r, powers, coeffs, x, 0, low, lowLevel, j);
      AddAssoc(r, start.value, Terms(r, a, x, 1, j), r.mul(Power(r, x, j), a[j]));
      var power :- Read(powers[j]);
      var temp :- MultiplyPlain(r, power, coeffs[j]);
      temp :- FromNtt(temp);
      temp :- ModSwitchTo(temp, highLevel);
      result :- AddTo(r, result, temp);
    }
    return Ok(result);
  }

  /** Adds the first terms of the other blocks. */
  method AddHighTerms<T(!new)>(r: Ring<T>, powers: seq<Slot<T>>, coeffs: seq<Plaintext<T>>, low: nat, highLevel: nat,
                               start: Ciphertext<T>, ghost random: Plaintext<T>, ghost lowLevel: nat, ghost x: T)
      returns (out: Outcome<Ciphertext<T>>)
    requires Lawful(r) && low >= 1 && low + 1 < |coeffs| <= |powers|
    ensures var count := (|coeffs| - 1) / (low + 1);
      && count * (low + 1) < |coeffs|
      && (Good(r, powers, coeffs, random, low, lowLevel, highLevel, x) && !start.ntt && start.level == highLevel ==>
          out == Ok(Ciphertext(r.add(start.value, Firsts(r, Values(coeffs), x, low + 1, count)), false, highLevel)))
  {
    hide Lawful, Power, Good;
    ghost var good := Good(r, powers, coeffs, random, low, lowLevel, highLevel, x) && !start.ntt &&
      start.level == highLevel;
    ghost var a := Values(coeffs);
    var high, degree := low + 1, |coeffs| - 1;
    LastMultiple(high, degree);
    Add0(r, start.value);
    var result := start;
    for i := 1 to degree / high + 1
      invariant (i - 1) * high < |a|
      invariant good ==> result == Ciphertext(r.add(start.value, Firsts(r, a, x, high, i - 1)), false, highLevel)
    {
      BlockIndex(i, 0, high, degree);
      if good {
        GoodHigh(r, powers, coeffs, random, low, lowLevel, highLevel, x, i * high);
      }
      AddAssoc(r, start.value, Firsts(r, a, x, high, i - 1), r.mul(Power(r, x, i * high), a[i * high]));
      var power :- Read(powers[i * high]);
      var temp :- MultiplyPlain(r, power, coeffs[i * high]);
      temp :- ModSwitchTo(temp, highLevel);
      result :- AddTo(r, result, temp);
    }
    return Ok(result);
  }

  /** Adds the rests of all blocks but the first, each times its high power. */
  method AddBlocks<T(!new)>(r: Ring<T>, powers: seq<Slot<T>>, coeffs: seq<Plaintext<T>>, low: nat, highLevel: nat,
                            ghost random: Plaintext<T>, ghost lowLevel: nat, ghost x: T)
      returns (out: Outcome<Ciphertext<T>>)
    requires Lawful(r) && low >= 1 && low + 1 < |coeffs| <= |powers|
    ensures var count := (|coeffs| - 1) / (low + 1);
      && count * (low + 1) < |coeffs|
      && (Good(r, powers, coeffs, random, low, lowLevel, highLevel, x) ==>
          out == Ok(Ciphertext(Blocks(r, Values(coeffs), x, low + 1, count), false, highLevel)))
  {
    hide Lawful, Power, Good, Terms;
    ghost var good := Good(r, powers, coeffs, random, low, lowLevel, highLevel, x);
    ghost var a := Values(coeffs);
    var high, degree := low + 1, |coeffs| - 1;
    var count := degree / high;
    LastMultiple(high, degree);
    MulMono(1, count, high);
    var result := Ciphertext(r.zero, false, highLevel);
    for i := 1 to count
      invariant i <= count && (i - 1) * high < |a|
      invariant good ==> result == Ciphertext(Blocks(r, a, x, high, i - 1), false, highLevel)
    {
      BlockIndex(i, high - 1, high, degree);
      BlockIndex(i, 0, high, degree);
      assert (i + 1) * high == i * high + high;
      result :- AddBlock(r, powers, coeffs, low, highLevel, i * high, high - 1, result, random, lowLevel, x);
    }
    var rest := degree % high;
    BlockIndex(count, rest, high, degree);
    BlockIndex(count, 0, high, degree);
    RemainderBelow(degree, high);
    assert (count + 1) * high == count * high + high;
    if rest > 0 {
      result :- AddBlock(r, powers, coeffs, low, highLevel, count * high, rest, result, random, lowLevel, x);
    } else {
      NoTerms(r, a, x, count * high + 1);
      Add0(r, result.value);
    }
    return Ok(result);
  }

  lemma NoTerms<T>(r: Ring<T>, a: seq<T>, x: T, at: nat)
    requires at <= |a|
    ensures Terms(r, a, x, at, at) == r.zero
  {
  }

  /**
   * `eval_patstock`. Whatever the coefficients are, the result is that of `eval`: the polynomial at
   * `x` plus the random term, at the lowest level and out of NTT form.
   */
  method EvalPatstock<T(!new)>(r: Ring<T>, powers: seq<Slot<T>>, coeffs: seq<Plaintext<T>>, low: nat, highLevel: nat,
                               random: Plaintext<T>, ghost lowLevel: nat, ghost x: T)
      returns (out: Outcome<Ciphertext<T>>)
    requires Lawful(r) && |coeffs| > 0
    ensures |powers| < |coeffs| || |powers| < 2 ==> out == Fail(NotEnoughPowers)
    ensures |powers| >= |coeffs| && |powers| >= 2 && (low <= 1 || low >= |coeffs| - 1) ==> out == Fail(BadLowDegree)
    ensures |powers| >= |coeffs| && 1 < low < |coeffs| - 1 ==>
      Good(r, powers, coeffs, random, low, lowLevel, highLevel, x) ==>
      out == Ok(Ciphertext(r.add(Poly(r, Values(coeffs), x), random.value), false, 0))
  {
    hide Lawful, Power, Good, Terms, Blocks, Firsts, Poly;
    if |powers| < (if |coeffs| < 2 then 2 else |coeffs|) {
      return Fail(NotEnoughPowers);
    }
    var degree := |coeffs| - 1;
    if low <= 1 || low >= degree {
      return Fail(BadLowDegree);
    }
    ghost var good := Good(r, powers, coeffs, random, low, lowLevel, highLevel, x);
    if good {
      GoodLevels(r, powers, coeffs, random, low, lowLevel, highLevel, x);
    }
    PatstockTotal(r, Values(coeffs), x, low + 1);
    var result :- AddBlocks(r, powers, coeffs, low, highLevel, random, lowLevel, x);
    result :- AddLowTerms(r, powers, coeffs, low, highLevel, result, random, lowLevel, x);
    result :- AddHighTerms(r, powers, coeffs, low, highLevel, result, random, lowLevel, x);
    result :- AddPlain(r, result, coeffs[0]);
    result :- AddPlain(r, result, random);
    while result.level != 0
      invariant !result.ntt
      invariant good ==> result.value == r.add(Poly(r, Values(coeffs), x), random.value)
      decreases result.level
    {
      result := ModSwitchTo(result, result.level - 1).Extract();
    }
    return Ok(result);
  }
}

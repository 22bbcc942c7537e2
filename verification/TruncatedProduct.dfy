/** The upper part of a 256-bit product, on 128-bit accumulators, as the scalar decomposition uses it. */
module TruncatedProduct {
  import opened Division
  import opened Words

  /** One 64-bit word times another. */
  function Times(a: nat, b: nat): nat {
    a * b
  }

  lemma TimesBound(a: nat, b: nat)
    requires a < WORD && b < WORD
    ensures Times(a, b) <= WORD2 - 2 * WORD + 1
  {
    MulMono(a, WORD - 1, b);
    MulMono(b, WORD - 1, WORD - 1);
  }

  /** One column: the words that come in, the upper halves and the carry that go on. */
  lemma ColumnCarry(a: nat, b: nat, c: nat, d: nat)
    ensures a / WORD + b / WORD + c / WORD + d / WORD + (a % WORD + b % WORD + c % WORD + d % WORD) / WORD ==
        (a + b + c + d) / WORD
  {
    RemainderBelow(a, WORD);
    RemainderBelow(b, WORD);
    RemainderBelow(c, WORD);
    RemainderBelow(d, WORD);
  }

  /** Four columns of the product, carried. */
  ghost function Carried(x0: nat, x1: nat, x2: nat, x3: nat): nat {
    (((x0 / WORD + x1) / WORD + x2) / WORD + x3) / WORD
  }

  lemma CarriedIs(x0: nat, x1: nat, x2: nat, x3: nat)
    ensures Carried(x0, x1, x2, x3) == (x0 + WORD * x1 + WORD2 * x2 + WORD3 * x3) / WORD4
  {
    DivideTwice(x0, x1, WORD);
    DivideTwice(x0 + WORD * x1, x2, WORD2);
    DivideTwice(x0 + WORD * x1 + WORD2 * x2, x3, WORD3);
  }

  lemma DivideTwice(a: nat, b: nat, m: nat)
    requires m == WORD || m == WORD2 || m == WORD3
    ensures (a / m + b) / WORD == (a + m * b) / (m * WORD)
  {
    var q, r := (a / m + b) / WORD, (a / m + b) % WORD;
    RemainderBelow(a, m);
    RemainderBelow(a / m + b, WORD);
    Remainder(m * WORD, q, m * r + a % m);
  }

  /** A four-word number times one word. */
  lemma TimesWord(s: seq<nat>, c: nat)
    requires |s| == 4
    ensures Value(s) * c == Times(s[0], c) + WORD * Times(s[1], c) + WORD2 * Times(s[2], c) + WORD3 * Times(s[3], c)
  {
    assert (WORD * s[1]) * c == WORD * (s[1] * c);
    assert (WORD2 * s[2]) * c == WORD2 * (s[2] * c);
    assert (WORD3 * s[3]) * c == WORD3 * (s[3] * c);
  }

  lemma TimesSum(v: nat, c: seq<nat>)
    requires |c| == 4
    ensures v * Value(c) == v * c[0] + WORD * (v * c[1]) + WORD2 * (v * c[2]) + WORD3 * (v * c[3])
  {
    assert v * (WORD * c[1]) == WORD * (v * c[1]);
    assert v * (WORD2 * c[2]) == WORD2 * (v * c[2]);
    assert v * (WORD3 * c[3]) == WORD3 * (v * c[3]);
  }

  /** The product by columns. */
  lemma ProductColumns(s: seq<nat>, c: seq<nat>)
    requires |s| == 4 && |c| == 4
    ensures var x0, x1 := Times(s[0], c[0]), Times(s[1], c[0]) + Times(s[0], c[1]);
      var x2 := Times(s[2], c[0]) + Times(s[0], c[2]) + Times(s[1], c[1]);
      var x3 := Times(s[0], c[3]) + Times(s[3], c[0]) + Times(s[1], c[2]) + Times(s[2], c[1]);
      var x4 := Times(s[1], c[3]) + Times(s[3], c[1]) + Times(s[2], c[2]);
      var rest := Times(s[2], c[3]) + Times(s[3], c[2]) + WORD * Times(s[3], c[3]);
      Value(s) * Value(c) == x0 + WORD * x1 + WORD2 * x2 + WORD3 * x3 + WORD4 * (x4 + WORD * rest)
  {
    hide Times, Value;
    TimesSum(Value(s), c);
    TimesWord(s, c[0]);
    TimesWord(s, c[1]);
    TimesWord(s, c[2]);
    TimesWord(s, c[3]);
  }

  lemma UpperWord(low: nat, x4: nat, rest: nat)
    ensures ((low + WORD4 * (x4 + WORD * rest)) / WORD4) % WORD == (low / WORD4 + x4) % WORD
  {
    RemainderBelow(low, WORD4);
    Remainder(WORD4, low / WORD4 + x4 + WORD * rest, low % WORD4);
    var q := (low / WORD4 + x4) / WORD;
    RemainderBelow(low / WORD4 + x4, WORD);
    Remainder(WORD, q + rest, (low / WORD4 + x4) % WORD);
  }

  /** `tt1` for the next column: upper halves, and the carry out of the lower halves. */
  function NextColumn(t: nat, a: nat, b: nat, c: nat): nat {
    var carry := (t % WORD + a % WORD + b % WORD + c % WORD) / WORD;
    (t / WORD + a / WORD + b / WORD + c / WORD + carry) % WORD2
  }

  /** The accumulator does not overflow before the step, nor after it. */
  lemma NextColumnIs(t: nat, a: nat, b: nat, c: nat)
    requires t + a + b + c < 4 * WORD2
    ensures NextColumn(t, a, b, c) == (t + a + b + c) / WORD
  {
    ColumnCarry(t, a, b, c);
    QuotientBelow(t + a + b + c, 4 * WORD);
  }

  lemma QuotientBelow(a: nat, k: nat)
    ensures a < k * WORD ==> a / WORD < k
  {
    RemainderBelow(a, WORD);
  }

  lemma FirstColumns(x00: nat, x10: nat, x01: nat)
    requires x00 <= WORD2 - 2 * WORD + 1 && x10 <= WORD2 - 2 * WORD + 1 && x01 <= WORD2 - 2 * WORD + 1
    ensures NextColumn((x10 + x00 / WORD) % WORD2, x01, 0, 0) == (x00 / WORD + (x10 + x01)) / WORD <= 2 * WORD - 3
  {
    hide NextColumn;
    QuotientBelow(x00, WORD - 1);
    NextColumnIs(x10 + x00 / WORD, x01, 0, 0);
    QuotientBelow(x00 / WORD + (x10 + x01), 2 * WORD - 2);
  }

  lemma SecondColumn(one: nat, x20: nat, x02: nat, x11: nat)
    requires one <= 2 * WORD - 3
    requires x20 <= WORD2 - 2 * WORD + 1 && x02 <= WORD2 - 2 * WORD + 1 && x11 <= WORD2 - 2 * WORD + 1
    ensures NextColumn((one + x20) % WORD2, x02, x11, 0) == (one + (x20 + x02 + x11)) / WORD <= 3 * WORD - 4
  {
    hide NextColumn;
    NextColumnIs(one + x20, x02, x11, 0);
    QuotientBelow(one + (x20 + x02 + x11), 3 * WORD - 3);
  }

  /** The one sum that may overflow: what is lost is a multiple of 2^128, which the lowest word never sees. */
  lemma ThirdColumn(two: nat, x03: nat, x30: nat, x12: nat, x21: nat, x4: nat)
    requires two <= 3 * WORD - 4 && x03 <= WORD2 - 2 * WORD + 1
    requires x30 <= WORD2 - 2 * WORD + 1 && x12 <= WORD2 - 2 * WORD + 1 && x21 <= WORD2 - 2 * WORD + 1
    ensures (NextColumn((two + x03) % WORD2, x30, x12, x21) + x4) % WORD ==
        ((two + (x03 + x30 + x12 + x21)) / WORD + x4) % WORD
  {
    hide NextColumn;
    var t, rest := two + x03, x30 + x12 + x21;
    NextColumnIs(t % WORD2, x30, x12, x21);
    if t >= WORD2 {
      assert t % WORD2 == t - WORD2;
      LosesAWord(t - WORD2 + rest, x4);
    }
  }

  lemma LosesAWord(a: nat, x4: nat)
    ensures ((a + WORD2) / WORD + x4) % WORD == (a / WORD + x4) % WORD
  {
    RemainderBelow(a, WORD);
    Remainder(WORD, a / WORD + WORD, a % WORD);
    var b := a / WORD + x4;
    RemainderBelow(b, WORD);
    Remainder(WORD, b / WORD + 1, b % WORD);
  }

  lemma ThreeColumns(x00: nat, x10: nat, x01: nat, x20: nat, x02: nat, x11: nat, x03: nat, x30: nat, x12: nat,
          x21: nat, x4: nat)
    requires x00 <= WORD2 - 2 * WORD + 1 && x10 <= WORD2 - 2 * WORD + 1 && x01 <= WORD2 - 2 * WORD + 1
    requires x20 <= WORD2 - 2 * WORD + 1 && x02 <= WORD2 - 2 * WORD + 1 && x11 <= WORD2 - 2 * WORD + 1
    requires x30 <= WORD2 - 2 * WORD + 1 && x12 <= WORD2 - 2 * WORD + 1 && x21 <= WORD2 - 2 * WORD + 1
    requires x03 <= WORD2 - 2 * WORD + 1
    ensures var one := NextColumn((x10 + x00 / WORD) % WORD2, x01, 0, 0);
      var two := NextColumn((one + x20) % WORD2, x02, x11, 0);
      var three := NextColumn((two + x03) % WORD2, x30, x12, x21);
      ((three + x4) % WORD2) % WORD == (Carried(x00, x10 + x01, x20 + x02 + x11, x03 + x30 + x12 + x21) + x4) % WORD
  {
    hide NextColumn;
    FirstColumns(x00, x10, x01);
    var one := (x00 / WORD + (x10 + x01)) / WORD;
    SecondColumn(one, x20, x02, x11);
    var two := (one + (x20 + x02 + x11)) / WORD;
    ThirdColumn(two, x03, x30, x12, x21, x4);
    LowWordOf(NextColumn((two + x03) % WORD2, x30, x12, x21) + x4);
  }

  lemma LowWordOf(x: nat)
    ensures (x % WORD2) % WORD == x % WORD
  {
    RemainderBelow(x, WORD2);
    RemainderBelow(x % WORD2, WORD);
    Remainder(WORD, (x / WORD2) * WORD + (x % WORD2) / WORD, (x % WORD2) % WORD);
  }

  /** The columns, carried in 128-bit words, give the wanted word of the product. */
  lemma Accumulated(s: seq<nat>, c: seq<nat>)
    requires FourWords(s) && FourWords(c)
    ensures var one := NextColumn((Times(s[1], c[0]) + Times(s[0], c[0]) / WORD) % WORD2, Times(s[0], c[1]), 0, 0);
      var two := NextColumn((one + Times(s[2], c[0])) % WORD2, Times(s[0], c[2]), Times(s[1], c[1]), 0);
      var three := NextColumn((two + Times(s[0], c[3])) % WORD2, Times(s[3], c[0]), Times(s[1], c[2]),
        Times(s[2], c[1]));
      ((three + (Times(s[1], c[3]) + Times(s[3], c[1]) + Times(s[2], c[2]))) % WORD2) % WORD ==
        (Value(s) * Value(c) / WORD4) % WORD
  {
    hide Times, Value, NextColumn, Carried;
    AllBounds(s, c);
    ThreeColumns(Times(s[0], c[0]), Times(s[1], c[0]), Times(s[0], c[1]), Times(s[2], c[0]), Times(s[0], c[2]),
      Times(s[1], c[1]),
      Times(s[0], c[3]), Times(s[3], c[0]), Times(s[1], c[2]), Times(s[2], c[1]),
      Times(s[1], c[3]) + Times(s[3], c[1]) + Times(s[2], c[2]));
    ProductWord(s, c);
  }

  lemma ProductWord(s: seq<nat>, c: seq<nat>)
    requires |s| == 4 && |c| == 4
    ensures (Value(s) * Value(c) / WORD4) % WORD ==
      (Carried(Times(s[0], c[0]), Times(s[1], c[0]) + Times(s[0], c[1]),
        Times(s[2], c[0]) + Times(s[0], c[2]) + Times(s[1], c[1]),
         Times(s[0], c[3]) + Times(s[3], c[0]) + Times(s[1], c[2]) + Times(s[2], c[1]))
       + (Times(s[1], c[3]) + Times(s[3], c[1]) + Times(s[2], c[2]))) % WORD
  {
    hide Times, Value, Carried;
    var x0, x1, x2 := Times(s[0], c[0]), Times(s[1], c[0]) + Times(s[0], c[1]),
      Times(s[2], c[0]) + Times(s[0], c[2]) + Times(s[1], c[1]);
    var x3 := Times(s[0], c[3]) + Times(s[3], c[0]) + Times(s[1], c[2]) + Times(s[2], c[1]);
    ProductColumns(s, c);
    WordOfColumns(Value(s) * Value(c), x0, x1, x2, x3, Times(s[1], c[3]) + Times(s[3], c[1]) + Times(s[2], c[2]),
      Times(s[2], c[3]) + Times(s[3], c[2]) + WORD * Times(s[3], c[3]));
  }

  lemma WordOfColumns(v: nat, x0: nat, x1: nat, x2: nat, x3: nat, x4: nat, rest: nat)
    requires v == x0 + WORD * x1 + WORD2 * x2 + WORD3 * x3 + WORD4 * (x4 + WORD * rest)
    ensures (v / WORD4) % WORD == (Carried(x0, x1, x2, x3) + x4) % WORD
  {
    hide Carried;
    CarriedIs(x0, x1, x2, x3);
    UpperWord(x0 + WORD * x1 + WORD2 * x2 + WORD3 * x3, x4, rest);
  }

  lemma AllBounds(s: seq<nat>, c: seq<nat>)
    requires FourWords(s) && FourWords(c)
    ensures forall i, j :: 0 <= i < 4 && 0 <= j < 4 ==> Times(s[i], c[j]) <= WORD2 - 2 * WORD + 1
  {
    forall i, j | 0 <= i < 4 && 0 <= j < 4
      ensures Times(s[i], c[j]) <= WORD2 - 2 * WORD + 1
    {
      TimesBound(s[i], c[j]);
    }
  }

  /** The carry into the fourth column. */
  ghost function Two(s: seq<nat>, c: seq<nat>): nat
    requires |s| == 4 && |c| == 4
  {
    ((Times(s[0], c[0]) / WORD + (Times(s[1], c[0]) + Times(s[0], c[1]))) / WORD
     + (Times(s[2], c[0]) + Times(s[0], c[2]) + Times(s[1], c[1]))) / WORD
  }

  /** The first product of the fourth column can be added to the carry in 128 bits. */
  ghost predicate Fits(s: seq<nat>, c: seq<nat>)
    requires |s| == 4 && |c| == 4
  {
    Two(s, c) + Times(s[0], c[3]) < WORD2
  }

  /** The carry is what the accumulator holds when the fourth column begins. */
  lemma AccumulatorIsTwo(s: seq<nat>, c: seq<nat>)
    requires FourWords(s) && FourWords(c)
    ensures var one := NextColumn((Times(s[1], c[0]) + Times(s[0], c[0]) / WORD) % WORD2, Times(s[0], c[1]), 0, 0);
      NextColumn((one + Times(s[2], c[0])) % WORD2, Times(s[0], c[2]), Times(s[1], c[1]), 0) ==
        Two(s, c) <= 3 * WORD - 4
  {
    hide Times, NextColumn;
    AllBounds(s, c);
    FirstColumns(Times(s[0], c[0]), Times(s[1], c[0]), Times(s[0], c[1]));
    var one := (Times(s[0], c[0]) / WORD + (Times(s[1], c[0]) + Times(s[0], c[1]))) / WORD;
    SecondColumn(one, Times(s[2], c[0]), Times(s[0], c[2]), Times(s[1], c[1]));
  }

  /** The largest four-word number. */
  const ONES: seq<nat> := [WORD - 1, WORD - 1, WORD - 1, WORD - 1]

  /** With all bits of both factors set the sum overflows. */
  lemma CarryLost()
    ensures FourWords(ONES) && !Fits(ONES, ONES)
  {
  }

  lemma DivideMono(a: nat, b: nat)
    ensures a <= b ==> a / WORD <= b / WORD
  {
  }

  /** No first factor gives more than the largest one does. */
  lemma TwoMono(s: seq<nat>, c: seq<nat>)
    requires FourWords(s) && FourWords(c)
    ensures Two(s, c) <= Two(ONES, c) && Times(s[0], c[3]) <= Times(ONES[0], c[3])
  {
    hide Times;
    forall i, j | 0 <= i < 4 && 0 <= j < 4
      ensures Times(s[i], c[j]) <= Times(ONES[i], c[j])
    {
      TimesMono(s[i], c[j]);
    }
    var x0, y0 := Times(s[0], c[0]), Times(ONES[0], c[0]);
    var x1, y1 := x0 / WORD + (Times(s[1], c[0]) + Times(s[0], c[1])),
      y0 / WORD + (Times(ONES[1], c[0]) + Times(ONES[0], c[1]));
    DivideMono(x0, y0);
    DivideMono(x1, y1);
    DivideMono(x1 / WORD + (Times(s[2], c[0]) + Times(s[0], c[2]) + Times(s[1], c[1])),
      y1 / WORD + (Times(ONES[2], c[0]) + Times(ONES[0], c[2]) + Times(ONES[1], c[1])));
  }

  lemma TimesMono(a: nat, b: nat)
    requires a < WORD
    ensures Times(a, b) <= Times(WORD - 1, b)
  {
    MulMono(a, WORD - 1, b);
  }

  /** The sum fits for the largest first factor exactly when the top word has a 0 bit or the carry is small. */
  lemma OnesFitIff(c: seq<nat>)
    requires FourWords(c)
    ensures Fits(ONES, c) <==> c[3] <= WORD - 2 || Two(ONES, c) <= 2 * WORD - 2
  {
    AccumulatorIsTwo(ONES, c);
    if c[3] <= WORD - 2 {
      MulMono(c[3], WORD - 2, WORD - 1);
    }
  }

  /**
   * No first factor makes the sum overflow if and only if the second factor's top word is not all
   * ones or its other words carry little.
   */
  lemma AllFitIff(c: seq<nat>)
    requires FourWords(c)
    ensures (forall s: seq<nat> :: FourWords(s) ==> Fits(s, c)) <==> c[3] <= WORD - 2 || Two(ONES, c) <= 2 * WORD - 2
  {
    hide Two, Times;
    OnesFitIff(c);
    forall s: seq<nat> | FourWords(s) && Fits(ONES, c)
      ensures Fits(s, c)
    {
      TwoMono(s, c);
    }
  }

  /**
   * `mul_truncate`, for all factors: the lowest word of the upper half of the product, whether or
   * not a carry is `lost`.
   */
  method MulTruncate(s: seq<nat>, c: seq<nat>) returns (out: nat, ghost lost: bool)
    requires FourWords(s) && FourWords(c)
    ensures out == (Value(s) * Value(c) / WORD4) % WORD
    ensures lost <==> !Fits(s, c)
  {
    hide Times, Value, NextColumn, Two;
    Accumulated(s, c);
    AccumulatorIsTwo(s, c);
    var tt2 := Times(s[0], c[0]);
    var tt1 := (Times(s[1], c[0]) + tt2 / WORD) % WORD2;
    tt2 := Times(s[0], c[1]);
    tt1 := NextColumn(tt1, tt2, 0, 0);
    tt1 := (tt1 + Times(s[2], c[0])) % WORD2;
    tt2 := Times(s[0], c[2]);
    var tt3 := Times(s[1], c[1]);
    tt1 := NextColumn(tt1, tt2, tt3, 0);
    lost := tt1 + Times(s[0], c[3]) >= WORD2;
    tt1 := (tt1 + Times(s[0], c[3])) % WORD2;
    tt2 := Times(s[3], c[0]);
    tt3 := Times(s[1], c[2]);
    var tt4 := Times(s[2], c[1]);
    tt1 := NextColumn(tt1, tt2, tt3, tt4);
    tt1 := (tt1 + (Times(s[1], c[3]) + Times(s[3], c[1]) + Times(s[2], c[2]))) % WORD2;
    out := tt1 % WORD;
  }
}

/**
 * Inversion modulo the curve order as exponentiation: a sliding window over a 256-bit exponent that
 * is shifted out of four words at the top. Elements are multiplied in an abstract commutative ring.
 */
module SlidingWindow {
  import opened Bits
  import opened Division
  import opened Rings
  import opened Words

  /** `k_EXPON` */
  const WINDOW: nat := 5

  lemma PowerDouble<T(!new)>(r: Ring<T>, a: T, n: nat)
    requires Rings.Lawful(r)
    ensures r.mul(Power(r, a, n), Power(r, a, n)) == Power(r, a, 2 * n)
  {
    hide Lawful, Power;
    PowerAdd(r, a, n, n);
  }

  /** The odd powers a, a^3, ..., a^31. */
  method OddPowers<T(!new)>(r: Ring<T>, a: T) returns (table: seq<T>)
    requires Rings.Lawful(r)
    ensures |table| == 16 && forall j :: 0 <= j < 16 ==> table[j] == Power(r, a, 2 * j + 1)
  {
    hide Lawful, Power;
    PowerOne(r, a);
    PowerDouble(r, a, 1);
    table := [a];
    var inputA := r.mul(a, a);
    for j := 0 to 15
      invariant |table| == j + 1 && forall k :: 0 <= k <= j ==> table[k] == Power(r, a, 2 * k + 1)
    {
      PowerAdd(r, a, 2 * j + 1, 2);
      table := table + [r.mul(table[j], inputA)];
    }
  }

  lemma PowerOne<T(!new)>(r: Ring<T>, a: T)
    requires Rings.Lawful(r)
    ensures Power(r, a, 1) == a
  {
    hide Lawful;
    Mul1(r, a);
  }

  /**
   * The exponent m with its top bits taken off: h is what has been taken, the lowest i bits of m are
   * still to come and stand at the top of the four words, whose value is v.
   */
  ghost predicate Taken(m: nat, h: nat, i: nat, v: nat) {
    i <= 256 && h * Pow2(i) <= m < h * Pow2(i) + Pow2(i) && v == (m - h * Pow2(i)) * Pow2(256 - i)
  }

  lemma Pow2Top()
    ensures Pow2(256) == WORD4 && Pow2(251) == 0x0800_0000_0000_0000 * WORD3
  {
    hide Pow2;
    Pow2Literals();
    Pow2Add(64, 64);
    Pow2Add(128, 64);
    Pow2Add(192, 64);
    Pow2Add(192, 59);
  }

  /** Taking c bits, with value t, off the top. */
  lemma Advance(m: nat, h: nat, i: nat, v: nat, c: nat, t: nat, v': nat)
    requires Taken(m, h, i, v) && 1 <= c <= i && v * Pow2(c) == t * WORD4 + v' && v' < WORD4
    ensures Taken(m, h * Pow2(c) + t, i - c, v')
  {
    hide Pow2;
    Pow2Top();
    Pow2Add(i - c, c);
    Pow2Add(256 - i, c);
    Pow2Add(i - c, 256 - (i - c));
    AdvanceBy(m, h, v, Pow2(i), Pow2(256 - i), Pow2(i - c), Pow2(256 - (i - c)), Pow2(c), t, v');
  }

  lemma AdvanceBy(m: nat, h: nat, v: nat, p: nat, q: nat, p': nat, q': nat, c: nat, t: nat, v': nat)
    requires p == p' * c && q' == q * c && p' * q' == WORD4 && p' > 0 && q' > 0
    requires h * p <= m < h * p + p && v == (m - h * p) * q && v * c == t * WORD4 + v' && v' < WORD4
    ensures (h * c + t) * p' <= m < (h * c + t) * p' + p' && v' == (m - (h * c + t) * p') * q'
  {
    var rest := m - h * p;
    ProductAssoc(rest, q, c);
    ProductAssoc(h, c, p');
    assert (h * c + t) * p' == (h * c) * p' + t * p';
    Smaller(rest, t, p', q', v');
  }

  lemma Smaller(rest: nat, t: nat, p: nat, q: nat, v': nat)
    requires p > 0 && q > 0 && p * q == WORD4 && rest * q == t * WORD4 + v' && v' < WORD4
    ensures t * p <= rest < t * p + p && v' == (rest - t * p) * q
  {
    var x := rest - t * p;
    ProductAssoc(t, p, q);
    assert x * q == rest * q - (t * p) * q;
    MulMono(x, -1, q);
    MulMono(p, x, q);
  }

  /** The top five bits and the top c bits of four words. */
  lemma TopBits(w: seq<nat>, c: nat)
    requires FourWords(w) && 1 <= c <= WINDOW
    ensures w[3] / Pow2(59) < 32 && w[3] / Pow2(59) == Value(w) / Pow2(251)
    ensures w[3] / Pow2(64 - c) == (w[3] / Pow2(59)) / Pow2(5 - c)
  {
    hide Pow2;
    Pow2Top();
    Pow2Literals();
    Pow2Add(59, 5 - c);
    var low := (w[3] % Pow2(59)) * WORD3 + WORD2 * w[2] + WORD * w[1] + w[0];
    RemainderBelow(w[3], Pow2(59));
    Remainder(Pow2(251), w[3] / Pow2(59), low);
    DivideParts(w[3], Pow2(59), Pow2(5 - c));
  }

  lemma DivideParts(x: nat, p: nat, q: nat)
    requires p > 0 && q > 0
    ensures p * q > 0 && x / (p * q) == (x / p) / q
  {
    var a, b := x / p, x / p / q;
    var r := a % q;
    RemainderBelow(x, p);
    RemainderBelow(a, q);
    ProductAssoc(b, q, p);
    assert a * p == (b * q) * p + r * p;
    MulMono(r + 1, q, p);
    assert (r + 1) * p == r * p + p;
    MulMono(1, p, q);
    Remainder(p * q, b, r * p + x % p);
  }

  /** No more bits are taken than are left, because the bits shifted in are zeros and a window ends in a one. */
  lemma WindowFits(m: nat, h: nat, i: nat, v: nat, c: nat, t: nat)
    requires Taken(m, h, i, v) && c <= WINDOW && t % 2 == 1 && v / Pow2(251) == t * Pow2(5 - c)
    ensures c <= i
  {
    if i < c {
      PastTheEnd(m, h, i, v, c, t);
    }
  }

  lemma PastTheEnd(m: nat, h: nat, i: nat, v: nat, c: nat, t: nat)
    requires Taken(m, h, i, v) && i < c <= WINDOW && v / Pow2(251) == t * Pow2(5 - c)
    ensures t % 2 == 0
  {
    hide Pow2;
    var rest := m - h * Pow2(i);
    Pow2Add(5 - i, 251);
    Pow2Add(c - i, 5 - c);
    Pow2Step(c - i - 1);
    ProductAssoc(rest, Pow2(5 - i), Pow2(251));
    Remainder(Pow2(251), rest * Pow2(5 - i), 0);
    ProductAssoc(rest, Pow2(c - i), Pow2(5 - c));
    SameFactor(t, rest * Pow2(c - i), Pow2(5 - c));
    ProductAssoc(rest, Pow2(c - i - 1), 2);
    Remainder(2, rest * Pow2(c - i - 1), 0);
  }

  lemma SameFactor(a: nat, b: nat, p: nat)
    requires p > 0 && a * p == b * p
    ensures a == b
  {
    MulMono(a + 1, b, p);
    MulMono(b + 1, a, p);
  }

  /** Shifts left by one and returns the bit that falls out, word by word. */
  method ShiftOut(a: array<nat>) returns (bit: nat)
    requires a.Length == 4 && FourWords(a[..])
    modifies a
    ensures bit <= 1 && FourWords(a[..]) && 2 * old(Value(a[..])) == bit * WORD4 + Value(a[..])
  {
    ghost var w := a[..];
    var temp := 0;
    bit := 0;
    for j := 0 to 4
      invariant temp == bit == if j == 0 then 0 else w[j - 1] / TOP
      invariant forall k :: j <= k < 4 ==> a[k] == w[k]
      invariant forall k :: 0 <= k < j ==> a[k] == Shifted(w, k)
    {
      bit := a[j] / TOP;
      a[j] := (2 * a[j]) % WORD + temp;
      temp := bit;
    }
    assert a[..] == [Shifted(w, 0), Shifted(w, 1), Shifted(w, 2), Shifted(w, 3)];
    OutIs(w, a[..]);
  }

  const TOP: nat := 0x8000_0000_0000_0000

  /** Word k after the shift: its own bits, and the one from the word below. */
  ghost function Shifted(w: seq<nat>, k: nat): nat
    requires |w| == 4 && k < 4
  {
    (2 * w[k]) % WORD + (if k == 0 then 0 else w[k - 1] / TOP)
  }

  lemma TwiceWord(x: nat)
    requires x < WORD
    ensures x / TOP <= 1 && (2 * x) % WORD + WORD * (x / TOP) == 2 * x && (2 * x) % WORD <= WORD - 2
  {
    RemainderBelow(x, TOP);
    Remainder(WORD, x / TOP, 2 * (x % TOP));
  }

  lemma OutIs(w: seq<nat>, r: seq<nat>)
    requires FourWords(w) && |r| == 4
    requires r == [Shifted(w, 0), Shifted(w, 1), Shifted(w, 2), Shifted(w, 3)]
    ensures w[3] / TOP <= 1 && FourWords(r) && 2 * Value(w) == (w[3] / TOP) * WORD4 + Value(r)
  {
    TwiceWord(w[0]);
    TwiceWord(w[1]);
    TwiceWord(w[2]);
    TwiceWord(w[3]);
  }

  lemma TopBit(w: seq<nat>)
    requires FourWords(w)
    ensures w[3] / TOP <= 1 && w[3] / TOP == w[3] / Pow2(63) && (w[3] / TOP == 1 <==> w[3] / Pow2(59) >= 16)
  {
    hide Pow2;
    Pow2Literals();
  }

  lemma TakenStart(m: nat, i: nat, v: nat)
    requires i <= 256 && m * Pow2(256 - i) == WORD4 + v && v < WORD4
    ensures Taken(m, 1, i, v)
  {
    hide Pow2;
    Pow2Top();
    Pow2Add(i, 256 - i);
    Smaller(m, 1, Pow2(i), Pow2(256 - i), v);
  }

  /** Shifts the exponent left until its first bit falls out. */
  method SkipZeros(modulus2: array<nat>) returns (i: nat)
    requires modulus2.Length == 4 && FourWords(modulus2[..]) && Value(modulus2[..]) != 0
    modifies modulus2
    ensures FourWords(modulus2[..]) && i < 256 && Taken(old(Value(modulus2[..])), 1, i, Value(modulus2[..]))
  {
    hide Pow2, Value, FourWords, Taken;
    ghost var m := Value(modulus2[..]);
    var bit := 0;
    i := 256;
    Pow2Small();
    while bit != 1
      invariant bit <= 1 && i <= 256 && FourWords(modulus2[..]) && (bit == 1 ==> i < 256)
      invariant m * Pow2(256 - i) == bit * WORD4 + Value(modulus2[..])
      decreases 1 - bit, i
    {
      StillThere(m, i, modulus2[..]);
      Pow2Step(256 - i);
      ProductAssoc(m, Pow2(256 - i), 2);
      i := i - 1;
      bit := ShiftOut(modulus2);
    }
    ValueBound(modulus2[..]);
    TakenStart(m, i, Value(modulus2[..]));
  }

  lemma StillThere(m: nat, i: nat, w: seq<nat>)
    requires m != 0 && i <= 256 && FourWords(w) && m * Pow2(256 - i) == Value(w)
    ensures i > 0
  {
    hide Pow2;
    Pow2Top();
    ValueBound(w);
    MulMono(1, m, WORD4);
  }

  /** Strips the zeros at the end of a window. */
  method Strip(top: nat) returns (temp: nat, count: nat)
    requires 16 <= top < 32
    ensures temp % 2 == 1 && 1 <= count <= WINDOW && top == temp * Pow2(5 - count)
    ensures temp == top / Pow2(5 - count) && temp < 32
  {
    count := WINDOW;
    temp := top;
    Pow2Small();
    while temp % 2 == 0
      invariant 0 < temp < 32 && 1 <= count <= WINDOW && top == temp * Pow2(5 - count)
      decreases temp
    {
      RemainderBelow(temp, 2);
      Pow2Step(5 - count);
      ProductAssoc(temp / 2, 2, Pow2(5 - count));
      temp := temp / 2;
      count := count - 1;
    }
    Remainder(Pow2(5 - count), temp, 0);
  }

  /** The window's squarings. */
  method Squarings<T(!new)>(r: Ring<T>, a: T, mc0: T, count: nat, ghost h: nat) returns (mc: T)
    requires Rings.Lawful(r) && mc0 == Power(r, a, h)
    ensures mc == Power(r, a, h * Pow2(count))
  {
    hide Lawful, Power, Pow2;
    Pow2Small();
    mc := mc0;
    for j := 0 to count
      invariant mc == Power(r, a, h * Pow2(j))
    {
      PowerDouble(r, a, h * Pow2(j));
      Pow2Step(j);
      ProductAssoc(h, Pow2(j), 2);
      mc := r.mul(mc, mc);
    }
  }

  lemma NothingLeft(m: nat, h: nat, v: nat)
    requires Taken(m, h, 0, v)
    ensures m == h && v == 0
  {
    hide Pow2;
    Pow2Small();
  }

  /** A zero bit: one squaring. */
  method ZeroBit<T(!new)>(r: Ring<T>, a: T, modulus2: array<nat>, mc0: T, ghost i: nat, ghost m: nat,
          ghost h: nat) returns (mc: T)
    requires Rings.Lawful(r) && modulus2.Length == 4 && FourWords(modulus2[..]) && modulus2[3] / TOP == 0
    requires i > 0 && Taken(m, h, i, Value(modulus2[..])) && mc0 == Power(r, a, h)
    modifies modulus2
    ensures FourWords(modulus2[..]) && Taken(m, 2 * h, i - 1, Value(modulus2[..])) && mc == Power(r, a, 2 * h)
  {
    hide Lawful, Power, Pow2, Value, FourWords, Taken;
    ghost var v := Value(modulus2[..]);
    TopBit(modulus2[..]);
    Pow2Small();
    PowerDouble(r, a, h);
    mc := r.mul(mc0, mc0);
    ShiftLeft(modulus2, 1);
    ValueBound(modulus2[..]);
    Advance(m, h, i, v, 1, 0, Value(modulus2[..]));
  }

  /** A window: as many squarings as it has bits, and one multiplication. */
  method TakeWindow<T(!new)>(r: Ring<T>, a: T, table: seq<T>, modulus2: array<nat>, mc0: T, ghost i: nat, ghost m: nat,
          ghost h0: nat) returns (mc: T, count: nat, ghost h: nat)
    requires Rings.Lawful(r) && |table| == 16 && forall j :: 0 <= j < 16 ==> table[j] == Power(r, a, 2 * j + 1)
    requires modulus2.Length == 4 && FourWords(modulus2[..]) && 16 <= TopFive(modulus2[3]) < 32
    requires i > 0 && Taken(m, h0, i, Value(modulus2[..])) && mc0 == Power(r, a, h0)
    modifies modulus2
    ensures 1 <= count <= i && FourWords(modulus2[..]) && Taken(m, h, i - count, Value(modulus2[..]))
    ensures mc == Power(r, a, h)
  {
    hide Lawful, Power, Pow2, Value, FourWords, Taken, TopFive;
    ghost var w := modulus2[..];
    var temp: nat;
    temp, count := Strip(TopFive(modulus2[3]));
    h := h0 * Pow2(count) + temp;
    mc := Squarings(r, a, mc0, count, h0);
    OddIndex(temp);
    PowerAdd(r, a, h0 * Pow2(count), temp);
    mc := r.mul(mc, table[(temp - 1) / 2]);
    ShiftLeft(modulus2, count);
    Cut(w, modulus2[..], m, h0, i, temp, count);
  }

  lemma OddIndex(temp: nat)
    requires temp % 2 == 1 && temp < 32
    ensures 0 <= (temp - 1) / 2 < 16 && 2 * ((temp - 1) / 2) + 1 == temp
  {
    RemainderBelow(temp, 2);
  }

  /** The window that a turn of the loop has taken off. */
  lemma Cut(w: seq<nat>, w': seq<nat>, m: nat, h: nat, i: nat, temp: nat, count: nat)
    requires FourWords(w) && FourWords(w') && Taken(m, h, i, Value(w)) && 1 <= count <= WINDOW
    requires temp % 2 == 1 && TopFive(w[3]) == temp * Pow2(5 - count) && temp == TopFive(w[3]) / Pow2(5 - count)
    requires Value(w) * Pow2(count) == (w[3] / Pow2(64 - count)) * WORD4 + Value(w')
    ensures count <= i && Taken(m, h * Pow2(count) + temp, i - count, Value(w'))
  {
    hide Pow2, Value, Taken;
    TopBits(w, count);
    WindowFits(m, h, i, Value(w), count, temp);
    ValueBound(w');
    Advance(m, h, i, Value(w), count, temp, Value(w'));
  }

  /**
   * `Montgomery_inversion_mod_order`, for any exponent m that is not 0: the loop ends with a^m and with
   * no bit left; a window never takes more bits than there are.
   */
  method SlidingWindowPower<T(!new)>(r: Ring<T>, a: T, modulus2: array<nat>) returns (mc: T)
    requires Rings.Lawful(r) && modulus2.Length == 4 && FourWords(modulus2[..]) && Value(modulus2[..]) != 0
    modifies modulus2
    ensures mc == Power(r, a, old(Value(modulus2[..])))
    ensures Value(modulus2[..]) == 0
  {
    hide Lawful, Power, Pow2, Value, FourWords, Taken;
    ghost var m := Value(modulus2[..]);
    var table := OddPowers(r, a);
    var i := SkipZeros(modulus2);
    mc := a;
    PowerOne(r, a);
    ghost var h := 1;
    while i > 0
      invariant FourWords(modulus2[..]) && Taken(m, h, i, Value(modulus2[..])) && mc == Power(r, a, h)
    {
      ThreeWordsAbove(modulus2[..]);
      TopBit(modulus2[..]);
      TopBits(modulus2[..], 1);
      if modulus2[3] / TOP == 0 {
        mc := ZeroBit(r, a, modulus2, mc, i, m, h);
        i, h := i - 1, 2 * h;
      } else {
        var count;
        mc, count, h := TakeWindow(r, a, table, modulus2, mc, i, m, h);
        i := i - count;
      }
    }
    NothingLeft(m, h, Value(modulus2[..]));
  }

  /** `(x & mask2) >> 59`: the window's five bits. */
  function TopFive(x: nat): nat {
    hide Pow2;
    x / Pow2(59)
  }

  lemma ThreeWordsAbove(w: seq<nat>)
    requires FourWords(w)
    ensures |w| == 4
  {
  }
}

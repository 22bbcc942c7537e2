/** 64-bit words and numbers of four words, as the scalar arithmetic of the curve code handles them. */
module Words {
  import opened Bits
  import opened Division

  const WORD: nat := 0x1_0000_0000_0000_0000
  const WORD2: nat := 0x1_0000_0000_0000_0000_0000_0000_0000_0000
  const WORD3: nat := 0x1_0000_0000_0000_0000_0000_0000_0000_0000_0000_0000_0000_0000
  const WORD4: nat := 0x1_0000_0000_0000_0000_0000_0000_0000_0000_0000_0000_0000_0000_0000_0000_0000_0000

  /** `(unsigned int)-1` */
  const ALL_ONES: nat := 0xFFFF_FFFF

  /** `a ^ b`, bit by bit. */
  function BitXor(a: nat, b: nat): nat {
    if a == 0 && b == 0 then 0
    else (if a % 2 != b % 2 then 1 else 0) + 2 * BitXor(a / 2, b / 2)
  }

  /** Numbers without a common bit: xor is addition. */
  lemma {:induction false} XorAbove(n: nat, a: nat, b: nat)
    requires a < Pow2(n)
    ensures BitXor(a, Pow2(n) * b) == a + Pow2(n) * b
  {
    hide BitXor;
    if n == 0 {
      XorZero(b);
    } else {
      XorAbove(n - 1, a / 2, b);
      assert Pow2(n) * b == 2 * (Pow2(n - 1) * b);
      XorEven(a, Pow2(n - 1) * b);
    }
  }

  lemma XorEven(a: nat, t: nat)
    ensures BitXor(a, 2 * t) == a % 2 + 2 * BitXor(a / 2, t)
  {
  }

  lemma {:induction false} XorZero(b: nat)
    ensures BitXor(0, b) == b
  {
    if b == 0 {
    } else {
      XorZero(b / 2);
    }
  }

  /** A four-word number. */
  predicate FourWords(w: seq<nat>) {
    |w| == 4 && w[0] < WORD && w[1] < WORD && w[2] < WORD && w[3] < WORD
  }

  function Value(w: seq<nat>): nat
    requires |w| == 4
  {
    w[0] + WORD * w[1] + WORD2 * w[2] + WORD3 * w[3]
  }

  lemma ValueBound(w: seq<nat>)
    requires FourWords(w)
    ensures Value(w) < WORD4
  {
  }

  /** `SHIFTR(high, low, s, out, 64)`: `(low >> s) ^ (high << (64 - s))` in 64 bits. */
  function ShiftedRight(high: nat, low: nat, s: nat): nat
    requires s <= 64
  {
    hide BitXor, Pow2;
    BitXor(low / Pow2(s), (high * Pow2(64 - s)) % WORD)
  }

  /** `SHIFTL(high, low, s, out, 64)`: `(high << s) ^ (low >> (64 - s))` in 64 bits. */
  function ShiftedLeft(high: nat, low: nat, s: nat): nat
    requires s <= 64
  {
    hide BitXor, Pow2;
    BitXor((high * Pow2(s)) % WORD, low / Pow2(64 - s))
  }

  lemma Pow2Step(n: nat)
    ensures Pow2(n + 1) == 2 * Pow2(n)
  {
  }

  lemma Pow2Small()
    ensures Pow2(0) == 1 && Pow2(1) == 2 && Pow2(2) == 4 && Pow2(3) == 8 && Pow2(4) == 16 && Pow2(5) == 32
    ensures Pow2(8) == 256
  {
  }

  lemma Pow2Literals()
    ensures Pow2(10) == 0x400 && Pow2(20) == 0x10_0000 && Pow2(30) == 0x4000_0000 && Pow2(40) == 0x100_0000_0000
    ensures Pow2(50) == 0x4_0000_0000_0000
    ensures Pow2(59) == 0x0800_0000_0000_0000 && Pow2(60) == 0x1000_0000_0000_0000 && Pow2(61) == 0x2000_0000_0000_0000
    ensures Pow2(62) == 0x4000_0000_0000_0000 && Pow2(63) == 0x8000_0000_0000_0000 && Pow2(64) == WORD
  {
    hide Pow2;
    Pow2Small();
    Pow2Add(5, 5);
    Pow2Add(10, 10);
    Pow2Add(20, 10);
    Pow2Add(20, 20);
    Pow2Add(40, 10);
    Pow2Add(4, 5);
    Pow2Add(50, 9);
    Pow2Step(59);
    Pow2Step(60);
    Pow2Step(61);
    Pow2Step(62);
    Pow2Step(63);
  }

  lemma ShiftFactors(s: nat)
    requires 1 <= s <= 5
    ensures Pow2(s) == if s == 1 then 2 else if s == 2 then 4 else if s == 3 then 8 else if s == 4 then 16 else 32
    ensures Pow2(64 - s) == if s == 1 then 0x8000_0000_0000_0000 else if s == 2 then 0x4000_0000_0000_0000
      else if s == 3 then 0x2000_0000_0000_0000 else if s == 4 then 0x1000_0000_0000_0000 else 0x0800_0000_0000_0000
  {
    hide Pow2;
    Pow2Small();
    Pow2Literals();
  }

  /** Multiplying by q keeps the low bits that fit. */
  lemma LowBitsUp(x: nat, p: nat, q: nat)
    requires p > 0 && q > 0 && p * q == WORD
    ensures (x * q) % WORD == (x % p) * q < WORD
  {
    var h, l := x / p, x % p;
    RemainderBelow(x, p);
    assert x * q == (h * p) * q + l * q;
    assert (h * p) * q == h * (p * q);
    MulMono(l + 1, p, q);
    assert (l + 1) * q == l * q + q;
    Remainder(WORD, h, l * q);
  }

  lemma HighBitsDown(x: nat, p: nat, q: nat)
    requires p > 0 && q > 0 && p * q == WORD && x < WORD
    ensures x / p < q
  {
    RemainderBelow(x, p);
    MulMono(q, x / p, p);
  }

  lemma SumFits(a: nat, b: nat, p: nat, q: nat)
    requires a < p && b < q && p * q == WORD
    ensures b * p + a < WORD
  {
    MulMono(b + 1, q, p);
    assert (b + 1) * p == b * p + p;
  }

  /** Shifting right across two words is adding the bits that come down from the upper one. */
  lemma ShiftedRightIs(high: nat, low: nat, s: nat)
    requires 1 <= s <= 5 && high < WORD && low < WORD
    ensures ShiftedRight(high, low, s) == low / Pow2(s) + (high % Pow2(s)) * Pow2(64 - s) < WORD
  {
    hide Pow2, BitXor;
    ShiftFactors(s);
    var p, q := Pow2(s), Pow2(64 - s);
    LowBitsUp(high, p, q);
    HighBitsDown(low, p, q);
    SumFits(low / p, high % p, q, p);
    XorAbove(64 - s, low / p, high % p);
  }

  lemma ShiftedLeftIs(high: nat, low: nat, s: nat)
    requires 1 <= s <= 5 && high < WORD && low < WORD
    ensures ShiftedLeft(high, low, s) == (high % Pow2(64 - s)) * Pow2(s) + low / Pow2(64 - s) < WORD
  {
    hide Pow2, BitXor;
    ShiftFactors(s);
    var p, q := Pow2(s), Pow2(64 - s);
    LowBitsUp(high, q, p);
    HighBitsDown(low, q, p);
    SumFits(low / q, high % q, p, q);
    XorComm((high * p) % WORD, low / q);
    XorAbove(s, low / q, high % q);
  }

  lemma {:induction false} XorComm(a: nat, b: nat)
    ensures BitXor(a, b) == BitXor(b, a)
  {
    if a == 0 && b == 0 {
    } else {
      XorComm(a / 2, b / 2);
    }
  }

  /** Four words shifted right together. */
  lemma RightIsDivision(w: seq<nat>, r: seq<nat>, s: nat)
    requires FourWords(w) && 1 <= s <= 5 && |r| == 4
    requires forall j :: 0 <= j < 3 ==> r[j] == ShiftedRight(w[j + 1], w[j], s)
    requires r[3] == w[3] / Pow2(s)
    ensures FourWords(r) && Value(r) == Value(w) / Pow2(s)
    ensures Value(w) % Pow2(s) == w[0] % Pow2(s)
  {
    hide Pow2, ShiftedRight;
    ShiftFactors(s);
    ShiftedRightIs(w[1], w[0], s);
    ShiftedRightIs(w[2], w[1], s);
    ShiftedRightIs(w[3], w[2], s);
    assert r[0] == ShiftedRight(w[0 + 1], w[0], s) && r[1] == ShiftedRight(w[1 + 1], w[1], s) &&
      r[2] == ShiftedRight(w[2 + 1], w[2], s);
  }

  /** Four words shifted left together; what leaves the top word is lost. */
  lemma LeftIsProduct(w: seq<nat>, r: seq<nat>, s: nat)
    requires FourWords(w) && 1 <= s <= 5 && |r| == 4
    requires r[0] == (w[0] * Pow2(s)) % WORD
    requires forall j :: 1 <= j < 4 ==> r[j] == ShiftedLeft(w[j], w[j - 1], s)
    ensures FourWords(r) && Value(w) * Pow2(s) == (w[3] / Pow2(64 - s)) * WORD4 + Value(r)
  {
    hide Pow2, ShiftedLeft;
    ShiftFactors(s);
    LowBitsUp(w[0], Pow2(64 - s), Pow2(s));
    ShiftedLeftIs(w[1], w[0], s);
    ShiftedLeftIs(w[2], w[1], s);
    ShiftedLeftIs(w[3], w[2], s);
    assert r[1] == ShiftedLeft(w[1], w[1 - 1], s) && r[2] == ShiftedLeft(w[2], w[2 - 1], s) &&
      r[3] == ShiftedLeft(w[3], w[3 - 1], s);
  }

  /** Shifts four words right in place. */
  method ShiftRight(a: array<nat>, s: nat)
    requires a.Length == 4 && FourWords(a[..]) && 1 <= s <= 5
    modifies a
    ensures FourWords(a[..]) && Value(a[..]) == old(Value(a[..])) / Pow2(s)
  {
    hide Pow2, ShiftedRight;
    ghost var w := a[..];
    for j := 0 to 3
      invariant forall k :: j <= k < 4 ==> a[k] == w[k]
      invariant forall k :: 0 <= k < j ==> a[k] == ShiftedRight(w[k + 1], w[k], s)
    {
      a[j] := ShiftedRight(a[j + 1], a[j], s);
    }
    a[3] := a[3] / Pow2(s);
    RightIsDivision(w, a[..], s);
  }

  /** Shifts four words left in place. */
  method ShiftLeft(a: array<nat>, s: nat)
    requires a.Length == 4 && FourWords(a[..]) && 1 <= s <= 5
    modifies a
    ensures FourWords(a[..])
    ensures old(Value(a[..])) * Pow2(s) == (old(a[3]) / Pow2(64 - s)) * WORD4 + Value(a[..])
  {
    hide Pow2, ShiftedLeft;
    ghost var w := a[..];
    var j := 3;
    while j > 0
      invariant 0 <= j <= 3
      invariant forall k :: 0 <= k <= j ==> a[k] == w[k]
      invariant forall k :: j < k < 4 ==> a[k] == ShiftedLeft(w[k], w[k - 1], s)
    {
      a[j] := ShiftedLeft(a[j], a[j - 1], s);
      j := j - 1;
    }
    a[0] := (a[0] * Pow2(s)) % WORD;
    LeftIsProduct(w, a[..], s);
  }

  /** The weight of word `j`. */
  function Place(j: nat): nat {
    if j == 0 then 1 else if j == 1 then WORD else if j == 2 then WORD2 else if j == 3 then WORD3 else WORD4
  }

  lemma CarryStep(w: seq<nat>, j: nat, carry: nat)
    requires FourWords(w) && j < 4 && carry <= 1
    ensures var x := (w[j] + carry) % WORD;
      && FourWords(w[j := x])
      && Value(w[j := x]) + Place(j + 1) * (if carry == 1 && x == 0 then 1 else 0) == Value(w) + Place(j) * carry
  {
  }

  /** Adds a bit to a four-word number, carry by carry. */
  method AddBit(a: array<nat>, bit: nat)
    requires a.Length == 4 && FourWords(a[..]) && bit <= 1 && Value(a[..]) + bit < WORD4
    modifies a
    ensures FourWords(a[..]) && Value(a[..]) == old(Value(a[..])) + bit
  {
    hide FourWords, Value, Place;
    ghost var before := a[..];
    CarryStep(a[..], 0, bit);
    a[0] := (a[0] + bit) % WORD;
    assert a[..] == before[0 := a[0]];
    var carry := if bit == 1 && a[0] == 0 then 1 else 0;
    PlaceEnds();
    for j := 1 to 4
      invariant carry <= 1 && FourWords(a[..])
      invariant Value(a[..]) + Place(j) * carry == Value(before) + bit
    {
      ghost var w := a[..];
      CarryStep(w, j, carry);
      a[j] := (a[j] + carry) % WORD;
      assert a[..] == w[j := a[j]];
      carry := if carry == 1 && a[j] == 0 then 1 else 0;
    }
  }

  lemma PlaceEnds()
    ensures Place(0) == 1 && Place(4) == WORD4
  {
  }
}

/** The comb over the recoded rows: a table lookup for every column, ten doublings in all. */
module FixedBaseComb {
  import opened Bits
  import opened Division
  import opened FixedBase
  import opened Groups
  import opened Numerals
  import opened Words

  /** 2^50, the weight of one row over the one before. */
  const ROW: int := 0x4_0000_0000_0000
  /** 2^10, the weight of one block of columns over the one before. */
  const BLOCK: int := 0x400

  /** The table index of column c: the bits of the four rows, the highest row first. */
  function Index(digits: seq<nat>, c: nat): nat
    requires c < D && |digits| >= L
  {
    digits[D + c] + 2 * (digits[2 * D + c] + 2 * (digits[3 * D + c] + 2 * digits[4 * D + c]))
  }

  /** What table entry u stands for. */
  function Entry(u: nat): int {
    1 + ROW * (u % 2 + ROW * (u / 2 % 2 + ROW * (u / 4 % 2 + ROW * (u / 8 % 2))))
  }

  /** The signed value of every column. */
  ghost function Columns(digits: seq<nat>): (r: seq<int>)
    requires |digits| >= L
    ensures |r| == D
  {
    seq(D, c requires 0 <= c < D => Sign(digits[c]) * Entry(Index(digits, c)))
  }

  lemma IndexBits(d1: nat, d2: nat, d3: nat, d4: nat)
    requires d1 <= 1 && d2 <= 1 && d3 <= 1 && d4 <= 1
    ensures var u := d1 + 2 * (d2 + 2 * (d3 + 2 * d4));
      u < 16 && u % 2 == d1 && u / 2 % 2 == d2 && u / 4 % 2 == d3 && u / 8 % 2 == d4
  {
  }

  ghost function Combined(a: seq<int>, b: seq<int>, k: int): (r: seq<int>)
    requires |a| == |b|
    ensures |r| == |a|
  {
    seq(|a|, i requires 0 <= i < |a| => a[i] + k * b[i])
  }

  lemma {:induction false} NumberLinear(a: seq<int>, b: seq<int>, k: int, base: int)
    requires |a| == |b|
    ensures Number(Combined(a, b, k), base) == Number(a, base) + k * Number(b, base)
  {
    hide Number;
    NumberFirst(a, base);
    NumberFirst(b, base);
    NumberFirst(Combined(a, b, k), base);
    if a == [] {
    } else {
      NumberLinear(a[1..], b[1..], k, base);
      assert Combined(a, b, k)[1..] == Combined(a[1..], b[1..], k);
      Factor(a[0], b[0], k, base, Number(a[1..], base), Number(b[1..], base));
    }
  }

  lemma NumberFirst(f: seq<int>, base: int)
    ensures Number(f, base) == if f == [] then 0 else f[0] + base * Number(f[1..], base)
  {
  }

  lemma Factor(a: int, b: int, k: int, base: int, x: int, y: int)
    ensures a + k * b + base * (x + k * y) == (a + base * x) + k * (b + base * y)
  {
    assert base * (k * y) == k * (base * y);
  }

  /** The sign row and the bit rows, read by columns. */
  lemma ColumnsAreRows(digits: seq<nat>, terms: seq<int>, r3: seq<int>, r2: seq<int>, r1: seq<int>)
    requires |terms| == L && |digits| >= L && Recoded(digits, terms)
    requires r3 == Combined(terms[3 * D..4 * D], terms[4 * D..], ROW)
    requires r2 == Combined(terms[2 * D..3 * D], r3, ROW)
    requires r1 == Combined(terms[D..2 * D], r2, ROW)
    ensures Columns(digits) == Combined(terms[..D], r1, ROW)
  {
    hide Entry, Recoded, Sign, Index;
    var all := Combined(terms[..D], r1, ROW);
    forall c: nat | c < D
      ensures Columns(digits)[c] == all[c]
    {
      ColumnDigits(digits, terms, c);
      var s := Sign(digits[c]);
      RowsAt(terms, r3, r2, r1, c, s, digits[D + c], digits[2 * D + c], digits[3 * D + c], digits[4 * D + c]);
      SignedEntry(digits, c);
    }
  }

  lemma RowsAt(terms: seq<int>, r3: seq<int>, r2: seq<int>, r1: seq<int>, c: nat, s: int, d1: int, d2: int, d3: int,
          d4: int)
    requires |terms| == L && c < D
    requires r3 == Combined(terms[3 * D..4 * D], terms[4 * D..], ROW)
    requires r2 == Combined(terms[2 * D..3 * D], r3, ROW)
    requires r1 == Combined(terms[D..2 * D], r2, ROW)
    requires terms[c] == s && terms[D + c] == s * d1 && terms[2 * D + c] == s * d2 && terms[3 * D + c] == s * d3
    requires terms[4 * D + c] == s * d4
    ensures Combined(terms[..D], r1, ROW)[c] == s + ROW * (s * d1 + ROW * (s * d2 + ROW * (s * d3 + ROW * (s * d4))))
  {
  }

  lemma SignedEntry(digits: seq<nat>, c: nat)
    requires |digits| >= L && c < D
    requires digits[D + c] <= 1 && digits[2 * D + c] <= 1 && digits[3 * D + c] <= 1 && digits[4 * D + c] <= 1
    ensures var s := Sign(digits[c]);
      Columns(digits)[c] == s + ROW * (s * digits[D + c] +
        ROW * (s * digits[2 * D + c] + ROW * (s * digits[3 * D + c] + ROW * (s * digits[4 * D + c]))))
  {
    EntryIs(Sign(digits[c]), digits[D + c], digits[2 * D + c], digits[3 * D + c], digits[4 * D + c]);
  }

  lemma ColumnDigits(digits: seq<nat>, terms: seq<int>, c: nat)
    requires |terms| == L && |digits| >= L && Recoded(digits, terms) && c < D
    ensures terms[c] == Sign(digits[c])
    ensures digits[D + c] <= 1 && terms[D + c] == Sign(digits[c]) * digits[D + c]
    ensures digits[2 * D + c] <= 1 && terms[2 * D + c] == Sign(digits[c]) * digits[2 * D + c]
    ensures digits[3 * D + c] <= 1 && terms[3 * D + c] == Sign(digits[c]) * digits[3 * D + c]
    ensures digits[4 * D + c] <= 1 && terms[4 * D + c] == Sign(digits[c]) * digits[4 * D + c]
  {
    Remainder(D, 1, c);
    Remainder(D, 2, c);
    Remainder(D, 3, c);
    Remainder(D, 4, c);
  }

  lemma EntryIs(s: int, d1: nat, d2: nat, d3: nat, d4: nat)
    requires d1 <= 1 && d2 <= 1 && d3 <= 1 && d4 <= 1 && (s == 1 || s == -1)
    ensures s * Entry(d1 + 2 * (d2 + 2 * (d3 + 2 * d4))) ==
        s + ROW * (s * d1 + ROW * (s * d2 + ROW * (s * d3 + ROW * (s * d4))))
  {
    IndexBits(d1, d2, d3, d4);
  }

  /** The columns add up to the scalar. */
  lemma ColumnsNumber(digits: seq<nat>, terms: seq<int>)
    requires |terms| == L && |digits| >= L && Recoded(digits, terms)
    ensures Number(Columns(digits), 2) == Number(terms, 2)
  {
    hide Number, Recoded, Columns, Combined;
    var t0, t1, t2, t3, t4 := terms[..D], terms[D..2 * D], terms[2 * D..3 * D], terms[3 * D..4 * D], terms[4 * D..];
    assert terms[3 * D..] == t3 + t4;
    assert terms[2 * D..] == t2 + terms[3 * D..];
    assert terms[D..] == t1 + terms[2 * D..];
    assert terms == t0 + terms[D..];
    RowWeight();
    NumberConcat(t3, t4, 2);
    NumberConcat(t2, t3 + t4, 2);
    NumberConcat(t1, t2 + (t3 + t4), 2);
    NumberConcat(t0, t1 + (t2 + (t3 + t4)), 2);
    var r3 := Combined(t3, t4, ROW);
    var r2 := Combined(t2, r3, ROW);
    var r1 := Combined(t1, r2, ROW);
    NumberLinear(t3, t4, ROW, 2);
    NumberLinear(t2, r3, ROW, 2);
    NumberLinear(t1, r2, ROW, 2);
    NumberLinear(t0, r1, ROW, 2);
    ColumnsAreRows(digits, terms, r3, r2, r1);
  }

  lemma RowWeight()
    ensures PowerOf(2, D) == ROW && PowerOf(2, E) == BLOCK
  {
    hide Pow2, PowerOf;
    PowerOfTwo(50);
    PowerOfTwo(10);
    Pow2Literals();
  }

  /** The comb's value at doubling step ii: what the columns ii.. of every block add up to. */
  ghost function Step(f: seq<int>, ii: nat): int
    requires |f| == D && ii <= E
    decreases E - ii
  {
    if ii == E then 0 else 2 * Step(f, ii + 1) + Across(f, ii, V)
  }

  /** Column ii of the last `j` blocks, each with its block's weight. */
  ghost function Across(f: seq<int>, ii: nat, j: nat): int
    requires |f| == D && ii < E && j <= V
  {
    if j == 0 then 0 else Across(f, ii, j - 1) + BlockWeight(V - j) * f[(V - j) * E + ii]
  }

  function BlockWeight(b: nat): int {
    PowerOf(BLOCK, b)
  }

  lemma AcrossIs(f: seq<int>, ii: nat)
    requires |f| == D && ii < E
    ensures Across(f, ii, V) == f[ii] + BLOCK * (f[10 + ii] +
        BLOCK * (f[20 + ii] + BLOCK * (f[30 + ii] + BLOCK * f[40 + ii])))
  {
    assert BlockWeight(0) == 1 && BlockWeight(1) == BLOCK && BlockWeight(2) == BLOCK * BLOCK;
    assert BlockWeight(3) == BLOCK * BLOCK * BLOCK && BlockWeight(4) == BLOCK * BLOCK * BLOCK * BLOCK;
    assert Across(f, ii, 1) == BlockWeight(4) * f[40 + ii];
    assert Across(f, ii, 2) == Across(f, ii, 1) + BlockWeight(3) * f[30 + ii];
    assert Across(f, ii, 3) == Across(f, ii, 2) + BlockWeight(2) * f[20 + ii];
    assert Across(f, ii, 4) == Across(f, ii, 3) + BlockWeight(1) * f[10 + ii];
    assert Across(f, ii, 5) == Across(f, ii, 4) + BlockWeight(0) * f[ii];
  }

  /** The blocks from column ii on, each as a number. */
  ghost function Tails(f: seq<int>, ii: nat): int
    requires |f| == D && ii <= E
  {
    Number(f[ii..10], 2) + BLOCK * (Number(f[10 + ii..20], 2) + BLOCK * (Number(f[20 + ii..30], 2)
      + BLOCK * (Number(f[30 + ii..40], 2) + BLOCK * Number(f[40 + ii..50], 2))))
  }

  lemma TailsNext(f: seq<int>, ii: nat)
    requires |f| == D && ii < E
    ensures Tails(f, ii) == 2 * Tails(f, ii + 1) + Across(f, ii, V)
  {
    hide Number, Across;
    SliceFirst(f, ii, 10);
    SliceFirst(f, 10 + ii, 20);
    SliceFirst(f, 20 + ii, 30);
    SliceFirst(f, 30 + ii, 40);
    SliceFirst(f, 40 + ii, 50);
    AcrossIs(f, ii);
  }

  lemma SliceFirst(f: seq<int>, from: nat, end: nat)
    requires from < end <= |f|
    ensures Number(f[from..end], 2) == f[from] + 2 * Number(f[from + 1..end], 2)
  {
    assert f[from..end][1..] == f[from + 1..end];
  }

  lemma {:induction false} StepIsTails(f: seq<int>, ii: nat)
    requires |f| == D && ii <= E
    ensures Step(f, ii) == Tails(f, ii)
    decreases E - ii
  {
    if ii < E {
      hide Tails, Across;
      StepIsTails(f, ii + 1);
      TailsNext(f, ii);
    } else {
      assert f[10..10] == f[20..20] == f[30..30] == f[40..40] == f[50..50] == [];
    }
  }

  /** The comb reaches the number that the columns stand for. */
  lemma StepIsNumber(f: seq<int>)
    requires |f| == D
    ensures Step(f, 0) == Number(f, 2)
  {
    StepIsTails(f, 0);
    hide Number, Step;
    RowWeight();
    var b0, b1, b2, b3, b4 := f[0..10], f[10..20], f[20..30], f[30..40], f[40..50];
    assert f[40..] == b4;
    assert f[30..] == b3 + b4;
    assert f[20..] == b2 + f[30..];
    assert f[10..] == b1 + f[20..];
    assert f == b0 + f[10..];
    NumberConcat(b3, b4, 2);
    NumberConcat(b2, b3 + b4, 2);
    NumberConcat(b1, b2 + (b3 + b4), 2);
    NumberConcat(b0, b1 + (b2 + (b3 + b4)), 2);
  }

  /** The table: entry u of block b is 2^(10 b) times what u stands for. */
  ghost predicate TableOf<T(!new)>(g: Group<T>, table: seq<T>, p: T) {
    && |table| == V * 16
    && forall b: nat, u: nat :: b < V && u < 16 ==> table[b * 16 + u] == Mul(g, BlockWeight(b) * Entry(u), p)
  }

  /** Reads the table index of column c, from the highest row down. */
  method ExtractDigit(digits: array<nat>, c: nat) returns (digit: nat)
    requires digits.Length >= L && c < D
    ensures digit == Index(digits[..], c)
  {
    digit := digits[W * D - D + c];
    var i: int := (W - 1) * D - D + c;
    ghost var row := 3;
    while i >= D + c
      invariant 0 <= row <= 3 && i == row * D + c
      invariant digit == if row == 3 then digits[4 * D + c]
        else if row == 2 then digits[3 * D + c] + 2 * digits[4 * D + c]
        else if row == 1 then digits[2 * D + c] + 2 * (digits[3 * D + c] + 2 * digits[4 * D + c])
        else Index(digits[..], c)
    {
      digit := 2 * digit + digits[i];
      i := i - D;
      row := row - 1;
    }
  }

  /** The signed table entry of column (block, ii). */
  method LookupColumn<T(!new)>(g: Group<T>, table: seq<T>, digits: array<nat>, block: nat, ii: nat, ghost p: T,
          ghost terms: seq<int>) returns (s: T)
    requires Groups.Lawful(g) && TableOf(g, table, p) && block < V && ii < E
    requires digits.Length >= L && |terms| == L && Recoded(digits[..], terms)
    ensures block * E + ii < D && s == Mul(g, BlockWeight(block) * Columns(digits[..])[block * E + ii], p)
  {
    hide Lawful, Mul, Entry, BlockWeight, Recoded;
    var c := block * E + ii;
    ColumnDigits(digits[..], terms, c);
    var digit := ExtractDigit(digits, c);
    IndexBits(digits[D + c], digits[2 * D + c], digits[3 * D + c], digits[4 * D + c]);
    s := Signed(g, digits[c] == 0, table[block * 16 + digit]);
    SignedMul(g, BlockWeight(block), Entry(digit), digits[c], p);
  }

  lemma SignedMul<T(!new)>(g: Group<T>, w: int, e: int, sign: nat, p: T)
    requires Groups.Lawful(g)
    ensures Signed(g, sign == 0, Mul(g, w * e, p)) == Mul(g, w * (Sign(sign) * e), p)
  {
    hide Lawful, Mul;
    MulNeg(g, w * e, p);
    assert w * (-1 * e) == -(w * e);
  }

  lemma MulSum<T(!new)>(g: Group<T>, m: int, n: int, p: T)
    requires Groups.Lawful(g)
    ensures g.add(Mul(g, m, p), Mul(g, n, p)) == Mul(g, m + n, p)
  {
    hide Lawful, Mul;
    MulAdd(g, m, n, p);
  }

  /** The first lookups: the last column of every block, from the last block down. */
  method FirstColumns<T(!new)>(g: Group<T>, table: seq<T>, digits: array<nat>, ghost p: T,
          ghost terms: seq<int>) returns (r: T)
    requires Groups.Lawful(g) && TableOf(g, table, p) && digits.Length >= L && |terms| == L
    requires Recoded(digits[..], terms)
    ensures r == Mul(g, Step(Columns(digits[..]), E - 1), p)
  {
    hide Lawful, Mul, TableOf, Recoded, Columns, BlockWeight;
    ghost var f := Columns(digits[..]);
    r := LookupColumn(g, table, digits, V - 1, E - 1, p, terms);
    for j := 0 to V - 1
      invariant r == Mul(g, Across(f, E - 1, j + 1), p)
    {
      var s := LookupColumn(g, table, digits, V - j - 2, E - 1, p, terms);
      MulSum(g, Across(f, E - 1, j + 1), BlockWeight(V - j - 2) * f[(V - j - 2) * E + E - 1], p);
      r := g.add(r, s);
    }
  }

  /** One doubling and the lookups after it. */
  method NextColumns<T(!new)>(g: Group<T>, table: seq<T>, digits: array<nat>, ii: nat, r0: T, ghost p: T,
          ghost terms: seq<int>) returns (r: T)
    requires Groups.Lawful(g) && TableOf(g, table, p) && digits.Length >= L && |terms| == L
    requires Recoded(digits[..], terms)
    requires ii < E && r0 == Mul(g, Step(Columns(digits[..]), ii + 1), p)
    ensures r == Mul(g, Step(Columns(digits[..]), ii), p)
  {
    hide Lawful, Mul, TableOf, Recoded, Columns, BlockWeight;
    ghost var f := Columns(digits[..]);
    MulSum(g, Step(f, ii + 1), Step(f, ii + 1), p);
    r := Double(g, r0);
    for j := 0 to V
      invariant r == Mul(g, 2 * Step(f, ii + 1) + Across(f, ii, j), p)
    {
      var s := LookupColumn(g, table, digits, V - j - 1, ii, p, terms);
      MulSum(g, 2 * Step(f, ii + 1) + Across(f, ii, j), BlockWeight(V - j - 1) * f[(V - j - 1) * E + ii], p);
      r := g.add(r, s);
    }
  }

  /** The loops of `ecc_mul_fixed`, for a scalar already reduced and made odd: the result is k G. */
  method EccMulFixed<T(!new)>(g: Group<T>, table: seq<T>, k: array<nat>, ghost p: T) returns (r: T)
    requires Groups.Lawful(g) && TableOf(g, table, p) && k.Length == 4 && FourWords(k[..])
    requires Value(k[..]) % 2 == 1 && Value(k[..]) < Pow2(247)
    modifies k
    ensures r == Mul(g, old(Value(k[..])), p)
  {
    hide Lawful, Mul, Value, FourWords, Pow2, Number, TableOf, Recoded, Columns, BlockWeight, Step, Across;
    var digits := new nat[L + W * V - 4](_ => 0);
    ghost var terms := MLsbSetRecode(k, digits);
    ghost var recoded := digits[..];
    ColumnsNumber(recoded, terms);
    StepIsNumber(Columns(recoded));
    r := FirstColumns(g, table, digits, p, terms);
    var ii: int := E - 2;
    while ii >= 0
      invariant -1 <= ii <= E - 2
      invariant digits[..] == recoded && r == Mul(g, Step(Columns(recoded), ii + 1), p)
      modifies {}
    {
      r := NextColumns(g, table, digits, ii, r, p, terms);
      ii := ii - 1;
    }
  }
}

/**
 * What a generalised Benes network computes: the plain-data meaning of a grid of switches, for any
 * number of wires, and the part of the grid it depends on.
 */
module BenesNetwork {
  import opened Bits

  /** One switch: 0 is straight, 1 is crossed. */
  type Bit = b: int | 0 <= b <= 1
  /** `switched[level][index]`. */
  type Grid = seq<seq<Bit>>

  /** The size of every (sub-)network: at most 2^n wires, at least 2^(n-1), at least two. */
  predicate Fits(n: nat, values: nat) {
    n >= 1 && values >= 2 && Pow2(n - 1) <= values <= Pow2(n)
  }

  /** The box of cells [lvl, lvl+2n-1) x [idx, idx+values/2) that a sub-network owns. */
  predicate InBox(l: nat, c: nat, n: nat, lvl: nat, idx: nat, values: nat) {
    lvl <= l < lvl + 2 * n - 1 && idx <= c < idx + values / 2
  }

  predicate Room(g: Grid, n: nat, lvl: nat, idx: nat, values: nat) {
    && Fits(n, values)
    && lvl + 2 * n - 1 <= |g|
    && forall l :: lvl <= l < lvl + 2 * n - 1 ==> idx + values / 2 <= |g[l]|
  }

  /** Both halves of a network fit where the recursion puts them. */
  lemma SubRoom(g: Grid, n: nat, lvl: nat, idx: nat, values: nat)
    requires Room(g, n, lvl, idx, values) && values >= 4
    ensures n >= 2
    ensures Room(g, n - 1, lvl + 1, idx, values / 2)
    ensures Room(g, n - 1, lvl + 1, idx + values / 4, (values + 1) / 2)
    ensures lvl + 2 * n - 2 < |g| && idx + values / 2 <= |g[lvl]| && idx + values / 2 <= |g[lvl + 2 * n - 2]|
  {
    SubFits(n, values);
  }

  lemma SubFits(n: nat, values: nat)
    requires Fits(n, values) && values >= 4
    ensures n >= 2 && Fits(n - 1, values / 2) && Fits(n - 1, (values + 1) / 2)
  {
    assert Pow2(0) == 1 && Pow2(1) == 2;
    assert n >= 2;
    assert Pow2(n) == 2 * Pow2(n - 1) && Pow2(n - 1) == 2 * Pow2(n - 2);
  }

  /**
   * Layout. The two halves and the two outer levels own pairwise disjoint sets of cells, all
   * inside the box of the whole, so no switch cell is shared.
   */
  lemma BoxesDisjoint(l: nat, c: nat, n: nat, lvl: nat, idx: nat, values: nat)
    requires Fits(n, values) && values >= 4
    ensures n >= 2
    ensures !(InBox(l, c, n - 1, lvl + 1, idx, values / 2)
              && InBox(l, c, n - 1, lvl + 1, idx + values / 4, (values + 1) / 2))
    ensures InBox(l, c, n - 1, lvl + 1, idx, values / 2)
            || InBox(l, c, n - 1, lvl + 1, idx + values / 4, (values + 1) / 2)
            ==> lvl < l < lvl + 2 * n - 2 && InBox(l, c, n, lvl, idx, values)
  {
    SubFits(n, values);
  }

  /** The top-level call runs in exactly the grid that `initialize` allocates. */
  lemma TopFits(values: nat)
    requires values >= 2
    ensures Fits(CeilLog2(values), values)
  {
  }

  /** `((i & 1) << (n - 1)) | (i >> 1)`. */
  function Shuffle(i: nat, n: nat): nat
    requires n >= 1
  {
    BitOr((i % 2) * Pow2(n - 1), i / 2)
  }

  /** `(i | j) ^ s` for an even `i` and bits `j` and `s`. */
  function Wire(i: nat, j: Bit, s: Bit): nat {
    if j == s then i else i + 1
  }

  /**
   * The comparison `shuffle((i | j) ^ s, n) < values / 2` sends wire `i | j` to the lower half
   * exactly when `j == s`.
   */
  lemma ShuffleSide(i: nat, j: Bit, s: Bit, n: nat, values: nat)
    requires i % 2 == 0 && i + 1 < values && Fits(n, values)
    ensures Shuffle(Wire(i, j, s), n) < values / 2 <==> j == s
    ensures j == s ==> Shuffle(Wire(i, j, s), n) == i / 2
  {
    hide BitOr;
    BitOrAbove(n - 1, i / 2);
    assert Pow2(n) == 2 * Pow2(n - 1);
    var w := Wire(i, j, s);
    assert w / 2 == i / 2;
    assert w % 2 == (if j == s then 0 else 1);
    assert (w % 2) * Pow2(n - 1) == if j == s then 0 else Pow2(n - 1);
  }

  /** Wires entering the lower half after the input level: one of each pair. */
  function Lower<T>(g: Grid, lvl: nat, idx: nat, src: seq<T>): (r: seq<T>)
    requires lvl < |g| && idx + |src| / 2 <= |g[lvl]|
    ensures |r| == |src| / 2
  {
    seq(|src| / 2, k requires 0 <= k < |src| / 2 => src[2 * k + g[lvl][idx + k]])
  }

  /** Wires entering the upper half: the other of each pair, then the unpaired last wire. */
  function Upper<T>(g: Grid, lvl: nat, idx: nat, src: seq<T>): (r: seq<T>)
    requires lvl < |g| && idx + |src| / 2 <= |g[lvl]|
    ensures |r| == (|src| + 1) / 2
  {
    seq((|src| + 1) / 2, k requires 0 <= k < (|src| + 1) / 2 =>
      if k < |src| / 2 then src[2 * k + 1 - g[lvl][idx + k]] else src[|src| - 1])
  }

  /** The output level: wire `i` comes from the lower half exactly when its parity equals its switch. */
  function Join<T>(g: Grid, l: nat, idx: nat, bottom: seq<T>, top: seq<T>): (r: seq<T>)
    requires |bottom| <= |top| <= |bottom| + 1
    requires l < |g| && idx + |bottom| <= |g[l]|
    ensures |r| == |bottom| + |top|
  {
    seq(|bottom| + |top|, i requires 0 <= i < |bottom| + |top| =>
      if i / 2 < |bottom| && i % 2 == g[l][idx + i / 2] then bottom[i / 2] else top[i / 2])
  }

  /** Crosses wires `p` and `p+1` when the switch is set. */
  function Cross<T>(s: Bit, p: nat, src: seq<T>): (r: seq<T>)
    requires p + 1 < |src|
    ensures |r| == |src|
  {
    if s == 1 then src[p := src[p + 1]][p + 1 := src[p]] else src
  }

  /** The level that holds the single switch of a two-wire network. */
  function MiddleLevel(n: nat, lvl: nat): nat {
    if n == 1 then lvl else lvl + 1
  }

  /** The network's action on plain data. */
  function Eval<T>(g: Grid, n: nat, lvl: nat, idx: nat, src: seq<T>): (r: seq<T>)
    requires Room(g, n, lvl, idx, |src|)
    ensures |r| == |src|
    decreases |src|
  {
    if |src| == 2 then
      assert n <= 2 by { TwoWires(n); }
      Cross(g[MiddleLevel(n, lvl)][idx], 0, src)
    else if |src| == 3 then
      assert n == 2 by { ThreeWires(n); }
      Cross(g[lvl + 2][idx], 0, Cross(g[lvl + 1][idx], 1, Cross(g[lvl][idx], 0, src)))
    else
      SubRoom(g, n, lvl, idx, |src|);
      var bottom := Eval(g, n - 1, lvl + 1, idx, Lower(g, lvl, idx, src));
      var top := Eval(g, n - 1, lvl + 1, idx + |src| / 4, Upper(g, lvl, idx, src));
      Join(g, lvl + 2 * n - 2, idx, bottom, top)
  }

  lemma TwoWires(n: nat)
    requires Fits(n, 2)
    ensures n <= 2
  {
    Pow2Mono(1, n - 1);
    assert Pow2(1) == 2;
  }

  lemma ThreeWires(n: nat)
    requires Fits(n, 3)
    ensures n == 2
  {
    Pow2Mono(1, n - 1);
    assert Pow2(1) == 2;
  }

  /** The cells of a box that hold a switch; a box may have a few spare ones. */
  predicate Used(l: nat, c: nat, n: nat, lvl: nat, idx: nat, values: nat)
    requires Fits(n, values)
    decreases values
  {
    if values == 2 then
      l == MiddleLevel(n, lvl) && c == idx
    else if values == 3 then
      lvl <= l < lvl + 3 && c == idx
    else
      SubFits(n, values);
      || ((l == lvl || l == lvl + 2 * n - 2) && idx <= c < idx + values / 2)
      || Used(l, c, n - 1, lvl + 1, idx, values / 2)
      || Used(l, c, n - 1, lvl + 1, idx + values / 4, (values + 1) / 2)
  }

  lemma {:induction false} UsedInBox(l: nat, c: nat, n: nat, lvl: nat, idx: nat, values: nat)
    requires Fits(n, values) && Used(l, c, n, lvl, idx, values)
    ensures InBox(l, c, n, lvl, idx, values)
    decreases values
  {
    if values == 2 {
      TwoWires(n);
    } else if values == 3 {
      ThreeWires(n);
    } else {
      BoxesDisjoint(l, c, n, lvl, idx, values);
      SubFits(n, values);
      if Used(l, c, n - 1, lvl + 1, idx, values / 2) {
        UsedInBox(l, c, n - 1, lvl + 1, idx, values / 2);
      }
      if Used(l, c, n - 1, lvl + 1, idx + values / 4, (values + 1) / 2) {
        UsedInBox(l, c, n - 1, lvl + 1, idx + values / 4, (values + 1) / 2);
      }
    }
  }

  /** No switch is shared between the two halves and the two outer levels. */
  lemma UsedApart(l: nat, c: nat, n: nat, lvl: nat, idx: nat, values: nat)
    requires Fits(n, values) && values >= 4
    ensures n >= 2 && Fits(n - 1, values / 2) && Fits(n - 1, (values + 1) / 2)
    ensures !(Used(l, c, n - 1, lvl + 1, idx, values / 2)
              && Used(l, c, n - 1, lvl + 1, idx + values / 4, (values + 1) / 2))
    ensures Used(l, c, n - 1, lvl + 1, idx, values / 2)
            || Used(l, c, n - 1, lvl + 1, idx + values / 4, (values + 1) / 2)
            ==> lvl < l < lvl + 2 * n - 2
  {
    hide Used;
    SubFits(n, values);
    BoxesDisjoint(l, c, n, lvl, idx, values);
    if Used(l, c, n - 1, lvl + 1, idx, values / 2) {
      UsedInBox(l, c, n - 1, lvl + 1, idx, values / 2);
    }
    if Used(l, c, n - 1, lvl + 1, idx + values / 4, (values + 1) / 2) {
      UsedInBox(l, c, n - 1, lvl + 1, idx + values / 4, (values + 1) / 2);
    }
  }

  /** Two grids that agree on a sub-network's box. */
  ghost predicate AgreeOnBox(g: Grid, h: Grid, n: nat, lvl: nat, idx: nat, values: nat)
    requires Room(g, n, lvl, idx, values) && Room(h, n, lvl, idx, values)
  {
    forall l: nat, c: nat :: InBox(l, c, n, lvl, idx, values) ==> g[l][c] == h[l][c]
  }

  lemma AgreeOuter<T>(g: Grid, h: Grid, n: nat, lvl: nat, idx: nat, src: seq<T>, bottom: seq<T>, top: seq<T>)
    requires |src| >= 4 && |bottom| == |src| / 2 && |top| == (|src| + 1) / 2
    requires Room(g, n, lvl, idx, |src|) && Room(h, n, lvl, idx, |src|)
    requires AgreeOnBox(g, h, n, lvl, idx, |src|)
    ensures Lower(g, lvl, idx, src) == Lower(h, lvl, idx, src)
    ensures Upper(g, lvl, idx, src) == Upper(h, lvl, idx, src)
    ensures Join(g, lvl + 2 * n - 2, idx, bottom, top) == Join(h, lvl + 2 * n - 2, idx, bottom, top)
  {
    forall c: nat | idx <= c < idx + |src| / 2
      ensures g[lvl][c] == h[lvl][c] && g[lvl + 2 * n - 2][c] == h[lvl + 2 * n - 2][c]
    {
      assert InBox(lvl, c, n, lvl, idx, |src|) && InBox(lvl + 2 * n - 2, c, n, lvl, idx, |src|);
    }
  }

  lemma AgreeHalves(g: Grid, h: Grid, n: nat, lvl: nat, idx: nat, values: nat)
    requires values >= 4
    requires Room(g, n, lvl, idx, values) && Room(h, n, lvl, idx, values)
    requires AgreeOnBox(g, h, n, lvl, idx, values)
    ensures n >= 2
    ensures Room(g, n - 1, lvl + 1, idx, values / 2) && Room(h, n - 1, lvl + 1, idx, values / 2)
    ensures Room(g, n - 1, lvl + 1, idx + values / 4, (values + 1) / 2)
    ensures Room(h, n - 1, lvl + 1, idx + values / 4, (values + 1) / 2)
    ensures AgreeOnBox(g, h, n - 1, lvl + 1, idx, values / 2)
    ensures AgreeOnBox(g, h, n - 1, lvl + 1, idx + values / 4, (values + 1) / 2)
  {
    SubRoom(g, n, lvl, idx, values);
    SubRoom(h, n, lvl, idx, values);
    forall l: nat, c: nat
      ensures InBox(l, c, n - 1, lvl + 1, idx, values / 2) ==> InBox(l, c, n, lvl, idx, values)
      ensures InBox(l, c, n - 1, lvl + 1, idx + values / 4, (values + 1) / 2) ==> InBox(l, c, n, lvl, idx, values)
    {
      BoxesDisjoint(l, c, n, lvl, idx, values);
    }
  }

  lemma EvalLocalSmall<T>(g: Grid, h: Grid, n: nat, lvl: nat, idx: nat, src: seq<T>)
    requires |src| <= 3
    requires Room(g, n, lvl, idx, |src|) && Room(h, n, lvl, idx, |src|)
    requires AgreeOnBox(g, h, n, lvl, idx, |src|)
    ensures Eval(g, n, lvl, idx, src) == Eval(h, n, lvl, idx, src)
  {
    if |src| == 2 {
      TwoWires(n);
      assert InBox(MiddleLevel(n, lvl), idx, n, lvl, idx, 2);
    } else {
      ThreeWires(n);
      assert InBox(lvl, idx, n, lvl, idx, 3) && InBox(lvl + 1, idx, n, lvl, idx, 3) &&
        InBox(lvl + 2, idx, n, lvl, idx, 3);
    }
  }

  lemma EvalUnfold<T>(g: Grid, n: nat, lvl: nat, idx: nat, src: seq<T>)
    requires Room(g, n, lvl, idx, |src|) && |src| >= 4
    ensures n >= 2
    ensures lvl + 1 < |g| && idx + |src| / 2 <= |g[lvl]|
    ensures Room(g, n - 1, lvl + 1, idx, |src| / 2) && Room(g, n - 1, lvl + 1, idx + |src| / 4, (|src| + 1) / 2)
    ensures Eval(g, n, lvl, idx, src) ==
      Join(g, lvl + 2 * n - 2, idx,
        Eval(g, n - 1, lvl + 1, idx, Lower(g, lvl, idx, src)),
        Eval(g, n - 1, lvl + 1, idx + |src| / 4, Upper(g, lvl, idx, src)))
  {
    SubRoom(g, n, lvl, idx, |src|);
  }

  /** Locality: the network reads no cell outside its own box. */
  lemma {:induction false} EvalLocal<T>(g: Grid, h: Grid, n: nat, lvl: nat, idx: nat, src: seq<T>)
    requires Room(g, n, lvl, idx, |src|) && Room(h, n, lvl, idx, |src|)
    requires AgreeOnBox(g, h, n, lvl, idx, |src|)
    ensures Eval(g, n, lvl, idx, src) == Eval(h, n, lvl, idx, src)
    decreases |src|
  {
    hide Eval;
    if |src| <= 3 {
      EvalLocalSmall(g, h, n, lvl, idx, src);
    } else {
      AgreeHalves(g, h, n, lvl, idx, |src|);
      var low, upp := Lower(g, lvl, idx, src), Upper(g, lvl, idx, src);
      EvalLocal(g, h, n - 1, lvl + 1, idx, low);
      EvalLocal(g, h, n - 1, lvl + 1, idx + |src| / 4, upp);
      var bottom, top := Eval(g, n - 1, lvl + 1, idx, low), Eval(g, n - 1, lvl + 1, idx + |src| / 4, upp);
      AgreeOuter(g, h, n, lvl, idx, src, bottom, top);
      EvalUnfold(g, n, lvl, idx, src);
      EvalUnfold(h, n, lvl, idx, src);
    }
  }

  function Map<T, U>(f: T -> U, s: seq<T>): (r: seq<U>)
    ensures |r| == |s| && forall i :: 0 <= i < |s| ==> r[i] == f(s[i])
  {
    seq(|s|, i requires 0 <= i < |s| => f(s[i]))
  }

  lemma JoinMap<T, U>(g: Grid, l: nat, idx: nat, f: T -> U, bottom: seq<T>, top: seq<T>)
    requires |bottom| <= |top| <= |bottom| + 1 && l < |g| && idx + |bottom| <= |g[l]|
    ensures Join(g, l, idx, Map(f, bottom), Map(f, top)) == Map(f, Join(g, l, idx, bottom, top))
  {
  }

  lemma EvalMapSmall<T, U>(g: Grid, n: nat, lvl: nat, idx: nat, f: T -> U, src: seq<T>)
    requires Room(g, n, lvl, idx, |src|) && |src| <= 3
    ensures Eval(g, n, lvl, idx, Map(f, src)) == Map(f, Eval(g, n, lvl, idx, src))
  {
    if |src| == 3 {
      ThreeWires(n);
      CrossMap(g[lvl][idx], 0, f, src);
      var once := Cross(g[lvl][idx], 0, src);
      CrossMap(g[lvl + 1][idx], 1, f, once);
      CrossMap(g[lvl + 2][idx], 0, f, Cross(g[lvl + 1][idx], 1, once));
    } else {
      TwoWires(n);
      CrossMap(g[MiddleLevel(n, lvl)][idx], 0, f, src);
    }
  }

  lemma CrossMap<T, U>(s: Bit, p: nat, f: T -> U, src: seq<T>)
    requires p + 1 < |src|
    ensures Cross(s, p, Map(f, src)) == Map(f, Cross(s, p, src))
  {
  }

  /** Naturality: the switches alone decide where a wire goes, whatever it carries. */
  lemma {:induction false} EvalMap<T, U>(g: Grid, n: nat, lvl: nat, idx: nat, f: T -> U, src: seq<T>)
    requires Room(g, n, lvl, idx, |src|)
    ensures Eval(g, n, lvl, idx, Map(f, src)) == Map(f, Eval(g, n, lvl, idx, src))
    decreases |src|
  {
    hide Eval;
    if |src| <= 3 {
      EvalMapSmall(g, n, lvl, idx, f, src);
    } else {
      EvalUnfold(g, n, lvl, idx, src);
      EvalUnfold(g, n, lvl, idx, Map(f, src));
      assert Lower(g, lvl, idx, Map(f, src)) == Map(f, Lower(g, lvl, idx, src));
      assert Upper(g, lvl, idx, Map(f, src)) == Map(f, Upper(g, lvl, idx, src));
      EvalMap(g, n - 1, lvl + 1, idx, f, Lower(g, lvl, idx, src));
      EvalMap(g, n - 1, lvl + 1, idx + |src| / 4, f, Upper(g, lvl, idx, src));
      JoinMap(g, lvl + 2 * n - 2, idx, f,
        Eval(g, n - 1, lvl + 1, idx, Lower(g, lvl, idx, src)),
        Eval(g, n - 1, lvl + 1, idx + |src| / 4, Upper(g, lvl, idx, src)));
    }
  }
}

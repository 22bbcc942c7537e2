/** The `Benes` class: routing a permutation into the switches, and running the network in place. */
module BenesRouting {
  import opened Arrays
  import opened Bits
  import opened BenesNetwork
  import opened BenesColouring
  import opened BenesSplit
  import opened FlatTables
  import opened MaskedNetwork

  function Put(g: Grid, l: nat, c: nat, b: Bit): (h: Grid)
    requires l < |g| && c < |g[l]|
    ensures |h| == |g| && |h[l]| == |g[l]|
  {
    var row: seq<Bit> := g[l];
    var updated: seq<Bit> := row[c := b];
    g[l := updated]
  }

  /** Same rows and row lengths. */
  ghost predicate SameShape(g: Grid, h: Grid) {
    |g| == |h| && forall l {:trigger g[l]} {:trigger h[l]} :: 0 <= l < |g| ==> |g[l]| == |h[l]|
  }

  /** `h` differs from `g` at most inside the sub-network's box. */
  ghost predicate OnlyBox(g: Grid, h: Grid, n: nat, lvl: nat, idx: nat, values: nat) {
    && SameShape(g, h)
    && forall l: nat, c: nat {:trigger h[l][c]} ::
         l < |g| && c < |g[l]| && !InBox(l, c, n, lvl, idx, values) ==> h[l][c] == g[l][c]
  }

  /** `h` differs from `g` at most in cells idx.. of one level. */
  ghost predicate OnlyRow(g: Grid, h: Grid, row: nat, idx: nat, count: nat) {
    && SameShape(g, h)
    && forall l: nat, c: nat {:trigger h[l][c]} ::
         l < |g| && c < |g[l]| && !(l == row && idx <= c < idx + count) ==> h[l][c] == g[l][c]
  }

  /** Switches idx.. of one level are the colours at the even positions of `e`. */
  ghost predicate RowIs(g: Grid, row: nat, idx: nat, count: nat, e: seq<int>)
    requires 2 * count <= |e| + 1
  {
    row < |g| && idx + count <= |g[row]| && forall k {:trigger e[2 * k]} :: 0 <= k < count ==>
      g[row][idx + k] == e[2 * k]
  }

  lemma PrefixStored(xs: seq<int>, goal: seq<int>, k: nat)
    requires k < |xs| == |goal| && xs[..k] == goal[..k]
    ensures xs[k := goal[k]][..k + 1] == goal[..k + 1]
  {
  }

  lemma PairAt(dest: seq<int>, f: seq<int>, k: nat)
    requires |dest| == |f| && PairColoured(f) && 2 * k + 1 < |f|
    ensures LowOf(dest, f)[k] == if f[2 * k] == 0 then dest[2 * k] else dest[2 * k + 1]
    ensures UppOf(dest, f)[k] == if f[2 * k] == 0 then dest[2 * k + 1] else dest[2 * k]
  {
  }

  lemma NothingPut(g: Grid, row: nat, idx: nat, e: seq<int>)
    requires row < |g| && idx <= |g[row]|
    ensures OnlyRow(g, g, row, idx, 0) && RowIs(g, row, idx, 0, e)
  {
  }

  lemma PutNext(g0: Grid, g: Grid, row: nat, idx: nat, count: nat, e: seq<int>)
    requires OnlyRow(g0, g, row, idx, count) && 2 * count < |e| && 0 <= e[2 * count] <= 1
    requires RowIs(g, row, idx, count, e) && idx + count < |g[row]|
    ensures var h := Put(g, row, idx + count, e[2 * count]);
      SameShape(g0, h) && OnlyRow(g0, h, row, idx, count + 1) && RowIs(h, row, idx, count + 1, e)
  {
    var h := Put(g, row, idx + count, e[2 * count]);
    forall k | 0 <= k < count + 1
      ensures h[row][idx + k] == e[2 * k]
    {
      assert k < count ==> g[row][idx + k] == e[2 * k];
    }
  }

  lemma LevelsFromRows(g: Grid, row: nat, idx: nat, xs: seq<int>, e: seq<int>, low: seq<int>, upp: seq<int>)
    requires |xs| == |e| && PairColoured(e) && SplitBy(xs, e, low, upp)
    requires RowIs(g, row, idx, |xs| / 2, e)
    ensures Lower(g, row, idx, xs) == low && Upper(g, row, idx, xs) == upp
    ensures Join(g, row, idx, low, upp) == xs
  {
    forall k | 0 <= k < |xs| / 2
      ensures g[row][idx + k] == e[2 * k]
      ensures low[k] == xs[2 * k + e[2 * k]] && upp[k] == xs[2 * k + 1 - e[2 * k]]
    {
    }
  }

  /** A row outside a changed box, or other than a changed row, is kept. */
  lemma RowKept(g: Grid, h: Grid, row: nat, idx: nat, count: nat, e: seq<int>)
    requires 2 * count <= |e| + 1 && RowIs(g, row, idx, count, e)
    requires SameShape(g, h) && forall c :: idx <= c < idx + count ==> h[row][c] == g[row][c]
    ensures RowIs(h, row, idx, count, e)
  {
    forall k | 0 <= k < count
      ensures h[row][idx + k] == e[2 * k]
    {
      assert g[row][idx + k] == e[2 * k];
    }
  }

  /** The four stages of one recursion change only the box of the whole. */
  lemma StagesStayInBox(g0: Grid, gA: Grid, gB: Grid, gC: Grid, gD: Grid, n: nat, lvl: nat, idx: nat, values: nat)
    requires values >= 4 && Room(g0, n, lvl, idx, values)
    requires OnlyRow(g0, gA, lvl, idx, values / 2)
    requires OnlyRow(gA, gB, lvl + 2 * n - 2, idx, values / 2)
    requires n >= 2 && OnlyBox(gB, gC, n - 1, lvl + 1, idx, values / 2)
    requires OnlyBox(gC, gD, n - 1, lvl + 1, idx + values / 4, (values + 1) / 2)
    ensures OnlyBox(g0, gD, n, lvl, idx, values)
  {
    forall l: nat, c: nat | l < |g0| && c < |g0[l]| && !InBox(l, c, n, lvl, idx, values)
      ensures gD[l][c] == g0[l][c]
    {
      BoxesDisjoint(l, c, n, lvl, idx, values);
      assert gD[l][c] == gC[l][c] && gC[l][c] == gB[l][c] && gB[l][c] == gA[l][c] && gA[l][c] == g0[l][c];
    }
  }

  /** Once both halves are routed, the whole network performs the permutation. */
  lemma StagesRoute(gA: Grid, gB: Grid, gC: Grid, gD: Grid, n: nat, lvl: nat, idx: nat,
                    src: seq<int>, e: seq<int>, b1: seq<int>, t1: seq<int>,
                    dest: seq<int>, f: seq<int>, b2: seq<int>, t2: seq<int>)
    requires |src| == |dest| == |e| == |f| >= 4 && n >= 2
    requires Fits(n, |src|) && Room(gC, n, lvl, idx, |src|) && Room(gD, n, lvl, idx, |src|)
    requires PairColoured(e) && SplitBy(src, e, b1, t1) && RowIs(gA, lvl, idx, |src| / 2, e)
    requires PairColoured(f) && SplitBy(dest, f, b2, t2) && RowIs(gB, lvl + 2 * n - 2, idx, |src| / 2, f)
    requires OnlyRow(gA, gB, lvl + 2 * n - 2, idx, |src| / 2)
    requires OnlyBox(gB, gC, n - 1, lvl + 1, idx, |src| / 2)
    requires OnlyBox(gC, gD, n - 1, lvl + 1, idx + |src| / 4, (|src| + 1) / 2)
    requires Room(gC, n - 1, lvl + 1, idx, |b1|) && Eval(gC, n - 1, lvl + 1, idx, b1) == b2
    requires Room(gD, n - 1, lvl + 1, idx + |src| / 4, |t1|) && Eval(gD, n - 1, lvl + 1, idx + |src| / 4, t1) == t2
    ensures Eval(gD, n, lvl, idx, src) == dest
  {
    hide Eval, Lower, Upper, Join, Room, AgreeOnBox, OnlyBox, OnlyRow, RowIs, PairColoured, LowOf, UppOf;
    RowsSurvive(gA, gB, gC, gD, n, lvl, idx, e, f);
    LevelsFromRows(gD, lvl, idx, src, e, b1, t1);
    LevelsFromRows(gD, lvl + 2 * n - 2, idx, dest, f, b2, t2);
    SubRoom(gD, n, lvl, idx, |src|);
    LowerBoxKept(gC, gD, n, lvl, idx, |src|);
    EvalLocal(gC, gD, n - 1, lvl + 1, idx, b1);
    EvalUnfold(gD, n, lvl, idx, src);
  }

  lemma LowerBoxKept(gC: Grid, gD: Grid, n: nat, lvl: nat, idx: nat, values: nat)
    requires values >= 4 && Room(gC, n, lvl, idx, values) && Room(gD, n, lvl, idx, values)
    requires n >= 2 && OnlyBox(gC, gD, n - 1, lvl + 1, idx + values / 4, (values + 1) / 2)
    requires Room(gC, n - 1, lvl + 1, idx, values / 2) && Room(gD, n - 1, lvl + 1, idx, values / 2)
    ensures AgreeOnBox(gC, gD, n - 1, lvl + 1, idx, values / 2)
  {
    forall l: nat, c: nat | InBox(l, c, n - 1, lvl + 1, idx, values / 2)
      ensures gC[l][c] == gD[l][c]
    {
      BoxesDisjoint(l, c, n, lvl, idx, values);
      assert gD[l][c] == gC[l][c];
    }
  }

  lemma RowsSurvive(gA: Grid, gB: Grid, gC: Grid, gD: Grid, n: nat, lvl: nat, idx: nat, e: seq<int>, f: seq<int>)
    requires |e| == |f| >= 4 && n >= 2 && Fits(n, |e|)
    requires RowIs(gA, lvl, idx, |e| / 2, e) && RowIs(gB, lvl + 2 * n - 2, idx, |e| / 2, f)
    requires OnlyRow(gA, gB, lvl + 2 * n - 2, idx, |e| / 2)
    requires OnlyBox(gB, gC, n - 1, lvl + 1, idx, |e| / 2)
    requires OnlyBox(gC, gD, n - 1, lvl + 1, idx + |e| / 4, (|e| + 1) / 2)
    ensures RowIs(gD, lvl, idx, |e| / 2, e) && RowIs(gD, lvl + 2 * n - 2, idx, |e| / 2, f)
  {
    RowKept(gA, gB, lvl, idx, |e| / 2, e);
    RowKept(gB, gC, lvl, idx, |e| / 2, e);
    RowKept(gC, gD, lvl, idx, |e| / 2, e);
    RowKept(gB, gC, lvl + 2 * n - 2, idx, |e| / 2, f);
    RowKept(gC, gD, lvl + 2 * n - 2, idx, |e| / 2, f);
  }

  lemma RoomFits(g: Grid, n: nat, lvl: nat, idx: nat, values: nat)
    requires Room(g, n, lvl, idx, values)
    ensures Fits(n, values)
  {
  }

  lemma RoomKept(g: Grid, h: Grid, n: nat, lvl: nat, idx: nat, values: nat)
    requires Room(g, n, lvl, idx, values) && SameShape(g, h)
    ensures Room(h, n, lvl, idx, values)
  {
  }

  lemma OnlyKeepsShape(g: Grid, h: Grid, n: nat, lvl: nat, idx: nat, values: nat, row: nat, count: nat)
    ensures OnlyRow(g, h, row, idx, count) ==> SameShape(g, h)
    ensures OnlyBox(g, h, n, lvl, idx, values) ==> SameShape(g, h)
  {
  }

  /** A proper colouring of the wires, read along the inputs and along the outputs. */
  lemma ProperColours(c: seq<int>, p: seq<int>, iv: seq<int>) returns (e: seq<int>, f: seq<int>)
    requires Inverse(p, iv) && Proper(c, p)
    ensures e == c[..|p|] && PairColoured(e)
    ensures |f| == |p| && PairColoured(f)
    ensures forall j :: 0 <= j < |p| ==> 0 <= p[j] < |p| && c[p[j]] == f[j]
  {
    e, f := c[..|p|], seq(|p|, j requires 0 <= j < |p| => c[p[j]]);
    forall k | 0 <= k < |p| / 2
      ensures e[2 * k + 1] == 1 - e[2 * k] && f[2 * k + 1] == 1 - f[2 * k]
    {
      assert Flip(2 * k) == 2 * k + 1;
    }
  }

  lemma HalvesRouted(c: seq<int>, src: seq<int>, e: seq<int>, b1: seq<int>, t1: seq<int>,
                     dest: seq<int>, f: seq<int>, b2: seq<int>, t2: seq<int>, p: seq<int>, iv: seq<int>, bound: nat)
    requires Permutes(src, dest) && Inverse(p, iv) && |src| == |e| == |f| == |p| <= |c| && e == c[..|p|]
    requires PairColoured(e) && SplitBy(src, e, b1, t1)
    requires PairColoured(f) && SplitBy(dest, f, b2, t2)
    requires forall j :: 0 <= j < |p| ==> 0 <= p[j] < |p| && src[p[j]] == dest[j] && c[p[j]] == f[j]
    requires forall i :: 0 <= i < |src| ==> 0 <= src[i] < bound
    ensures Permutes(b1, b2) && Permutes(t1, t2)
    ensures forall i :: 0 <= i < |b1| ==> 0 <= b1[i] < bound
    ensures forall i :: 0 <= i < |t1| ==> 0 <= t1[i] < bound
  {
    HalvesPermute(src, e, b1, t1, dest, f, b2, t2, p, iv);
    forall i | 0 <= i < |b1|
      ensures 0 <= b1[i] < bound
    {
      var j := LowFrom(src, e, b1, t1, i);
    }
    forall i | 0 <= i < |t1|
      ensures 0 <= t1[i] < bound
    {
      var j := UppFrom(src, e, b1, t1, i);
    }
  }

  /** Positions of distinct labels determine a permutation and its inverse. */
  lemma PositionsInverse(src: seq<int>, dest: seq<int>, p: seq<int>, iv: seq<int>)
    requires Permutes(src, dest) && |p| == |iv| == |src|
    requires forall j :: 0 <= j < |p| ==> 0 <= p[j] < |p| && src[p[j]] == dest[j] && iv[p[j]] == j
    ensures Inverse(p, iv)
  {
    forall v | 0 <= v < |p|
      ensures 0 <= iv[v] < |p| && p[iv[v]] == v
    {
      assert src[v] in dest;
      var j :| 0 <= j < |p| && dest[j] == src[v];
      assert p[j] == v;
    }
  }

  lemma PositionsDistinct(src: seq<int>, dest: seq<int>, p: seq<int>)
    requires Distinct(dest) && |p| <= |dest|
    requires forall j :: 0 <= j < |p| ==> 0 <= p[j] < |src| && src[p[j]] == dest[j]
    ensures Distinct(p)
  {
  }

  lemma PairApplied(row: seq<Pair>, idx: nat, input: seq<Block>, k: nat)
    requires idx + |input| / 2 <= |row| && k < |input| / 2
    ensures var entered := ApplyLevel(row, idx, input);
      entered[2 * k] == Xor(input[2 * k], row[idx + k].a) && entered[2 * k + 1] == Xor(input[2 * k + 1], row[idx + k].b)
  {
    hide Xor;
  }

  lemma PairEnters(g: Grid, ot: PairGrid, lvl: nat, idx: nat, input: seq<Block>, k: nat)
    requires lvl < |g| && lvl < |ot| && idx + |input| / 2 <= |g[lvl]| && idx + |input| / 2 <= |ot[lvl]|
    requires k < |input| / 2
    ensures var entered := ApplyLevel(ot[lvl], idx, input);
      && entered[2 * k] == Xor(input[2 * k], ot[lvl][idx + k].a)
      && entered[2 * k + 1] == Xor(input[2 * k + 1], ot[lvl][idx + k].b)
      && Lower(g, lvl, idx, entered)[k] == entered[2 * k + g[lvl][idx + k]]
      && Upper(g, lvl, idx, entered)[k] == entered[2 * k + 1 - g[lvl][idx + k]]
  {
    hide Xor, ApplyLevel;
    PairApplied(ot[lvl], idx, input, k);
  }

  lemma UnpairedEnters(g: Grid, ot: PairGrid, lvl: nat, idx: nat, input: seq<Block>)
    requires lvl < |g| && lvl < |ot| && idx + |input| / 2 <= |g[lvl]| && idx + |input| / 2 <= |ot[lvl]|
    requires |input| % 2 == 1
    ensures Upper(g, lvl, idx, ApplyLevel(ot[lvl], idx, input))[|input| / 2] == input[|input| - 1]
  {
  }

  lemma PairLeaves(g: Grid, ot: PairGrid, l: nat, idx: nat, bottom: seq<Block>, top: seq<Block>, k: nat)
    requires |bottom| <= |top| <= |bottom| + 1 && l < |g| && l < |ot| && k < |bottom|
    requires idx + |bottom| <= |g[l]| && idx + |bottom| <= |ot[l]|
    ensures var out, s, t := Leave(g, ot, l, idx, bottom, top), g[l][idx + k], ot[l][idx + k];
      && out[2 * k] == Xor(if s == 0 then bottom[k] else top[k], if s == 0 then t.a else t.b)
      && out[2 * k + 1] == Xor(if s == 1 then bottom[k] else top[k], if s == 0 then t.b else t.a)
  {
  }

  lemma LastLeaves(g: Grid, ot: PairGrid, l: nat, idx: nat, bottom: seq<Block>, top: seq<Block>)
    requires |top| == |bottom| + 1 && l < |g| && l < |ot|
    requires idx + |bottom| <= |g[l]| && idx + |bottom| <= |ot[l]|
    ensures Leave(g, ot, l, idx, bottom, top)[2 * |bottom|] == top[|bottom|]
  {
  }

  lemma MaskedSmallIs(g: Grid, ot: PairGrid, n: nat, lvl: nat, idx: nat, src: seq<Block>)
    requires Room(g, n, lvl, idx, |src|) && PairRoom(ot, n, lvl, idx, |src|) && |src| <= 3
    ensures MaskedEval(g, ot, n, lvl, idx, src) == MaskedSmall(g, ot, n, lvl, idx, src)
  {
  }

  class Benes {
    var perm: seq<int>
    var invPerm: seq<int>
    var switched: Grid
    var path: seq<int>

    /** `initialize`: `path` gets int(1.27 * values) entries, never fewer than `values`. */
    constructor (values: nat, levels: nat)
      ensures |perm| == |invPerm| == values && |path| == 127 * values / 100 >= values
      ensures forall x :: x in perm || x in invPerm || x in path ==> x == 0
      ensures |switched| == levels
      ensures forall l :: 0 <= l < levels ==> switched[l] == seq(values / 2, _ => 0)
    {
      path := seq(127 * values / 100, _ => 0);
      perm := seq(values, _ => 0);
      invPerm := seq(values, _ => 0);
      switched := seq(levels, _ => seq(values / 2, _ => 0));
    }

    /** The arrays hold the permutation of `values` wires and its inverse. */
    ghost predicate Wired(values: nat)
      reads this
    {
      values <= |perm| == |invPerm| && values <= |path| && Inverse(perm[..values], invPerm[..values])
    }

    /**
     * The explicit-stack search. It may be entered at an uncoloured wire of a closed colouring, or
     * next to the end of the open chain (`s`, `sigma`, `head` say which). It terminates, reads only
     * inside the network, and leaves a closed colouring that keeps every colour already given.
     */
    method Dfs(idx: int, route: int, ghost values: nat, ghost s: int, ghost sigma: int, ghost head: Head)
      requires Wired(values)
      requires Frontier(path, perm[..values], invPerm[..values], s, sigma, false, head)
      requires StackOf(path, perm[..values], invPerm[..values], s, sigma, false, head) == [(idx, route)]
      modifies this`path
      ensures |path| == |old(path)|
      ensures Closed(path, perm[..values], invPerm[..values])
      ensures forall v :: 0 <= v < values && old(path)[v] >= 0 ==> path[v] == old(path)[v]
      ensures 0 <= idx < values && path[idx] == route
    {
      hide Frontier, StackOf, Closed, Inverse;
      ghost var p, iv := perm[..values], invPerm[..values];
      ghost var at, base := head, false;
      ghost var first := true;
      var st := [(idx, route)];
      while st != []
        invariant |path| == |old(path)|
        invariant Frontier(path, p, iv, s, sigma, base, at)
        invariant st == StackOf(path, p, iv, s, sigma, base, at)
        invariant forall v :: 0 <= v < values && old(path)[v] >= 0 ==> path[v] == old(path)[v]
        invariant if first then st == [(idx, route)] else 0 <= idx < values && 0 <= route <= 1 && path[idx] == route
        decreases Uncoloured(path, values), |st|
      {
        base, at := Step(path, p, iv, s, sigma, base, at);
        first := false;
        var pr := st[|st| - 1];
        st := st[..|st| - 1];
        path := path[pr.0 := pr.1];
        if path[Flip(pr.0)] < 0 {
          st := st + [(Flip(pr.0), 1 - pr.1)];
        }
        var next := perm[Flip(invPerm[pr.0])];
        if path[next] < 0 {
          st := st + [(next, 1 - pr.1)];
        }
      }
      FinishIsClosed(path, p, iv, s, sigma, base, at);
    }

    /** `inv_perm[xs[i]] = i`. */
    method FillInverse(xs: seq<int>)
      requires Distinct(xs)
      requires forall i :: 0 <= i < |xs| ==> 0 <= xs[i] < |invPerm|
      modifies this`invPerm
      ensures |invPerm| == |old(invPerm)|
      ensures forall i :: 0 <= i < |xs| ==> invPerm[xs[i]] == i
    {
      for i := 0 to |xs|
        invariant |invPerm| == |old(invPerm)|
        invariant forall j :: 0 <= j < i ==> invPerm[xs[j]] == j
      {
        invPerm := invPerm[xs[i] := i];
      }
    }

    /** The three loops that turn the labels into a permutation of positions. */
    method SetPermutation(src: seq<int>, dest: seq<int>)
      requires Permutes(src, dest)
      requires |src| <= |perm| == |invPerm| && |src| <= |path|
      requires forall i :: 0 <= i < |src| ==> 0 <= src[i] < |invPerm|
      modifies this`perm, this`invPerm
      ensures |perm| == |old(perm)| && |invPerm| == |old(invPerm)|
      ensures Wired(|src|)
      ensures forall i :: 0 <= i < |src| ==> 0 <= perm[i] < |src| && src[perm[i]] == dest[i]
    {
      FillInverse(src);
      ghost var positions := invPerm;
      for i := 0 to |src|
        invariant |perm| == |old(perm)| && invPerm == positions
        invariant forall j :: 0 <= j < i ==> 0 <= perm[j] < |src| && src[perm[j]] == dest[j]
      {
        ghost var k :| 0 <= k < |src| && src[k] == dest[i];
        assert positions[src[k]] == k;
        perm := perm[i := invPerm[dest[i]]];
      }
      PositionsDistinct(src, dest, perm[..|src|]);
      FillInverse(perm[..|src|]);
      PositionsInverse(src, dest, perm[..|src|], invPerm[..|src|]);
    }

    /** The colouring stage: first the open chain of an odd network, then every component not yet reached. */
    method Colour(values: nat)
      requires values >= 2 && Wired(values)
      modifies this`path
      ensures |path| == |old(path)|
      ensures Proper(path, perm[..values])
    {
      hide Closed, Proper, Frontier, StackOf, Colours;
      ghost var p, iv := perm[..values], invPerm[..values];
      path := seq(|path|, _ => -1);
      if values % 2 == 1 {
        path := path[values - 1 := 1];
        path := path[perm[values - 1] := 1];
        ChainStart(path, p, iv);
        if perm[values - 1] != values - 1 {
          var idx := perm[Flip(invPerm[values - 1])];
          Dfs(idx, 0, values, p[values - 1], 1, OutEdge(values - 1));
        }
      } else {
        EvenStart(path, p, iv);
      }
      for i := 0 to values
        invariant |path| == |old(path)|
        invariant Closed(path, p, iv)
        invariant forall v :: 0 <= v < i ==> path[v] >= 0
      {
        if path[i] < 0 {
          FreshStart(path, p, iv, i);
          Dfs(i, 0, values, i, 0, Start);
        }
      }
      ClosedIsProper(path, p, iv);
    }

    /** The input level: sets its switches from the colours and deals the wires to the two halves. */
    method RouteInputs(n: nat, lvl: nat, idx: nat, src: seq<int>, ghost e: seq<int>)
            returns (bottom1: seq<int>, top1: seq<int>)
      requires |src| >= 4 && Room(switched, n, lvl, idx, |src|)
      requires |src| <= |path| && e == path[..|src|] && PairColoured(e)
      modifies this`switched
      ensures OnlyRow(old(switched), switched, lvl, idx, |src| / 2)
      ensures RowIs(switched, lvl, idx, |src| / 2, e)
      ensures SplitBy(src, e, bottom1, top1)
    {
      hide OnlyRow, RowIs, LowOf, UppOf;
      ghost var low, upp := LowOf(src, e), UppOf(src, e);
      var values := |src|;
      bottom1, top1 := [], [];
      var i := 0;
      ghost var k := 0;
      NothingPut(switched, lvl, idx, e);
      while i < values - 1
        invariant i == 2 * k && i <= values
        invariant SameShape(old(switched), switched)
        invariant OnlyRow(old(switched), switched, lvl, idx, k)
        invariant RowIs(switched, lvl, idx, k, e)
        invariant bottom1 == low[..k]
        invariant top1 == upp[..k]
      {
        assert i / 2 == k && path[i] == e[2 * k];
        assert low[k] == src[i + path[i]] && upp[k] == src[i + 1 - path[i]];
        PutNext(old(switched), switched, lvl, idx, k, e);
        switched := Put(switched, lvl, idx + i / 2, path[i]);
        bottom1, top1 := PushPair(src, i, path[i], n, bottom1, top1);
        i, k := i + 2, k + 1;
      }
      if values % 2 == 1 {
        top1 := top1 + [src[values - 1]];
      }
    }

    /** The output level: sets its switches from the colours and gives each half its own destinations. */
    method RouteOutputs(n: nat, lvl: nat, idx: nat, src: seq<int>, dest: seq<int>, ghost f: seq<int>)
            returns (bottom2: seq<int>, top2: seq<int>)
      requires |src| == |dest| == |f| >= 4 && Room(switched, n, lvl, idx, |src|)
      requires |src| <= |perm| && |src| <= |path| && PairColoured(f)
      requires forall j :: 0 <= j < |src| ==> 0 <= perm[j] < |src| && path[perm[j]] == f[j] && src[perm[j]] == dest[j]
      modifies this`switched
      ensures OnlyRow(old(switched), switched, lvl + 2 * n - 2, idx, |src| / 2)
      ensures RowIs(switched, lvl + 2 * n - 2, idx, |src| / 2, f)
      ensures SplitBy(dest, f, bottom2, top2)
    {
      hide OnlyRow, RowIs, LowOf, UppOf;
      ghost var low, upp := LowOf(dest, f), UppOf(dest, f);
      var values, levels := |src|, 2 * n - 1;
      bottom2, top2 := seq(values / 2, _ => 0), seq((values + 1) / 2, _ => 0);
      var i := 0;
      ghost var k := 0;
      NothingPut(switched, lvl + levels - 1, idx, f);
      while i < values - 1
        invariant i == 2 * k && i <= values
        invariant SameShape(old(switched), switched)
        invariant OnlyRow(old(switched), switched, lvl + levels - 1, idx, k)
        invariant RowIs(switched, lvl + levels - 1, idx, k, f)
        invariant |bottom2| == values / 2 && |top2| == (values + 1) / 2
        invariant bottom2[..k] == low[..k]
        invariant top2[..k] == upp[..k]
      {
        assert i / 2 == k && path[perm[i]] == f[2 * k];
        PairAt(dest, f, k);
        PutNext(old(switched), switched, lvl + levels - 1, idx, k, f);
        switched := Put(switched, lvl + levels - 1, idx + i / 2, path[perm[i]]);
        PrefixStored(bottom2, low, k);
        PrefixStored(top2, upp, k);
        bottom2, top2 := StorePair(i, path[perm[i]], n, src[perm[i]], src[perm[i + 1]], bottom2, top2);
        i, k := i + 2, k + 1;
      }
      if values % 2 == 1 {
        top2 := top2[(values + 1) / 2 - 1 := dest[values - 1]];
      }
    }

    /** The two-wire network: its one switch sits on the middle level. */
    method RouteTwo(n: nat, lvl: nat, idx: nat, src: seq<int>, dest: seq<int>)
      requires |src| == 2 && Room(switched, n, lvl, idx, 2) && Permutes(src, dest)
      modifies this`switched
      ensures OnlyBox(old(switched), switched, n, lvl, idx, 2)
      ensures Eval(switched, n, lvl, idx, src) == dest
    {
      TwoWires(n);
      var crossed: Bit := if src[0] != dest[0] then 1 else 0;
      assert InBox(MiddleLevel(n, lvl), idx, n, lvl, idx, 2);
      if n == 1 {
        switched := Put(switched, lvl, idx, crossed);
      } else {
        switched := Put(switched, lvl + 1, idx, crossed);
      }
    }

    /** The three-wire network, by the place of the first label. */
    method RouteThree(n: nat, lvl: nat, idx: nat, src: seq<int>, dest: seq<int>)
      requires |src| == 3 && Room(switched, n, lvl, idx, 3) && Permutes(src, dest)
      modifies this`switched
      ensures OnlyBox(old(switched), switched, n, lvl, idx, 3)
      ensures Eval(switched, n, lvl, idx, src) == dest
    {
      ThreeWires(n);
      assert InBox(lvl, idx, n, lvl, idx, 3) && InBox(lvl + 1, idx, n, lvl, idx, 3) &&
        InBox(lvl + 2, idx, n, lvl, idx, 3);
      assert src[0] in dest && src[1] in dest && src[2] in dest;
      if src[0] == dest[0] {
        SetThree(lvl, idx, 0, if src[1] == dest[1] then 0 else 1, 0);
      }
      if src[0] == dest[1] {
        SetThree(lvl, idx, 0, if src[1] == dest[0] then 0 else 1, 1);
      }
      if src[0] == dest[2] {
        SetThree(lvl, idx, 1, 1, if src[1] == dest[0] then 0 else 1);
      }
    }

    method SetThree(lvl: nat, idx: nat, first: Bit, second: Bit, third: Bit)
      requires lvl + 2 < |switched| && forall l :: lvl <= l <= lvl + 2 ==> idx < |switched[l]|
      modifies this`switched
      ensures SameShape(old(switched), switched)
      ensures switched[lvl][idx] == first && switched[lvl + 1][idx] == second && switched[lvl + 2][idx] == third
      ensures forall l: nat, c: nat {:trigger switched[l][c]} ::
        l < |switched| && c < |switched[l]| && !(lvl <= l <= lvl + 2 && c == idx) ==>
          switched[l][c] == old(switched)[l][c]
    {
      switched := Put(switched, lvl, idx, first);
      switched := Put(switched, lvl + 1, idx, second);
      switched := Put(switched, lvl + 2, idx, third);
    }

    /** `gen_benes_route`: for every size and every permutation, the switches it writes carry it out. */
    method GenBenesRoute(n: nat, lvl: nat, idx: nat, src: seq<int>, dest: seq<int>)
      requires Room(switched, n, lvl, idx, |src|) && Permutes(src, dest)
      requires |src| <= |perm| == |invPerm| && |src| <= |path|
      requires forall i :: 0 <= i < |src| ==> 0 <= src[i] < |invPerm|
      modifies this
      ensures |perm| == |old(perm)| && |invPerm| == |old(invPerm)| && |path| == |old(path)|
      ensures OnlyBox(old(switched), switched, n, lvl, idx, |src|)
      ensures Eval(switched, n, lvl, idx, src) == dest
      decreases |src|
    {
      hide Eval, Inverse, Proper, PairColoured, OnlyBox, OnlyRow, RowIs, LowOf, UppOf, Distinct, Room;
      var values := |src|;
      RoomFits(switched, n, lvl, idx, values);
      if values == 2 {
        RouteTwo(n, lvl, idx, src, dest);
        return;
      }
      if values == 3 {
        RouteThree(n, lvl, idx, src, dest);
        return;
      }
      SetPermutation(src, dest);
      ghost var p, iv := perm[..values], invPerm[..values];
      Colour(values);
      ghost var e, f := ProperColours(path, p, iv);
      ghost var g0 := switched;
      var bottom1, top1 := RouteInputs(n, lvl, idx, src, e);
      ghost var gA := switched;
      OnlyKeepsShape(g0, gA, n, lvl, idx, values, lvl, values / 2);
      RoomKept(g0, gA, n, lvl, idx, values);
      var bottom2, top2 := RouteOutputs(n, lvl, idx, src, dest, f);
      ghost var gB := switched;
      OnlyKeepsShape(gA, gB, n, lvl, idx, values, lvl + 2 * n - 2, values / 2);
      RoomKept(gA, gB, n, lvl, idx, values);
      SubRoom(gB, n, lvl, idx, values);
      HalvesRouted(path, src, e, bottom1, top1, dest, f, bottom2, top2, p, iv, |invPerm|);
      GenBenesRoute(n - 1, lvl + 1, idx, bottom1, bottom2);
      ghost var gC := switched;
      OnlyKeepsShape(gB, gC, n - 1, lvl + 1, idx, values / 2, 0, 0);
      RoomKept(gB, gC, n, lvl, idx, values);
      SubRoom(gC, n, lvl, idx, values);
      GenBenesRoute(n - 1, lvl + 1, idx + values / 4, top1, top2);
      OnlyKeepsShape(gC, switched, n - 1, lvl + 1, idx + values / 4, (values + 1) / 2, 0, 0);
      RoomKept(gC, switched, n, lvl, idx, values);
      SubRoom(switched, n, lvl, idx, values);
      StagesStayInBox(g0, gA, gB, gC, switched, n, lvl, idx, values);
      StagesRoute(gA, gB, gC, switched, n, lvl, idx, src, e, bottom1, top1, dest, f, bottom2, top2);
    }

    /** The input level of evaluation: deals the wires to the two halves. */
    method Deal<T>(n: nat, lvl: nat, idx: nat, src: seq<T>) returns (bottom1: seq<T>, top1: seq<T>)
      requires |src| >= 4 && Room(switched, n, lvl, idx, |src|)
      ensures bottom1 == Lower(switched, lvl, idx, src)
      ensures top1 == Upper(switched, lvl, idx, src)
    {
      ghost var low, upp := Lower(switched, lvl, idx, src), Upper(switched, lvl, idx, src);
      bottom1, top1 := [], [];
      var i := 0;
      ghost var k := 0;
      while i < |src| - 1
        invariant i == 2 * k && i <= |src|
        invariant bottom1 == low[..k] && top1 == upp[..k]
      {
        assert i / 2 == k;
        bottom1, top1 := PushPair(src, i, switched[lvl][idx + i / 2], n, bottom1, top1);
        i, k := i + 2, k + 1;
      }
      if |src| % 2 == 1 {
        top1 := top1 + [src[|src| - 1]];
      }
    }

    /** The output level of evaluation: takes the wires back from the two halves. */
    method Collect<T>(n: nat, l: nat, idx: nat, bottom1: seq<T>, top1: seq<T>, src: array<T>)
      requires src.Length == |bottom1| + |top1| && |bottom1| <= |top1| <= |bottom1| + 1
      requires Fits(n, src.Length) && l < |switched| && idx + |bottom1| <= |switched[l]|
      modifies src
      ensures src[..] == Join(switched, l, idx, bottom1, top1)
    {
      ghost var out := Join(switched, l, idx, bottom1, top1);
      var i := 0;
      ghost var k := 0;
      while i < src.Length - 1
        invariant i == 2 * k && i <= src.Length
        invariant forall j :: 0 <= j < i ==> src[j] == out[j]
      {
        assert i / 2 == k && (i + 1) / 2 == k;
        src[i], src[i + 1] := TakePair(i, switched[l][idx + i / 2], n, bottom1, top1);
        i, k := i + 2, k + 1;
      }
      if src.Length % 2 == 1 {
        src[src.Length - 1] := top1[(src.Length + 1) / 2 - 1];
      }
    }

    method SwapIf<T>(l: nat, idx: nat, p: nat, src: array<T>)
      requires l < |switched| && idx < |switched[l]| && p + 1 < src.Length
      modifies src
      ensures src[..] == Cross(switched[l][idx], p, old(src[..]))
    {
      if switched[l][idx] == 1 {
        src[p], src[p + 1] := src[p + 1], src[p];
      }
    }

    /** `gen_benes_eval`: runs the network on plain data, in place. */
    method GenBenesEval<T>(n: nat, lvl: nat, idx: nat, src: array<T>)
      requires Room(switched, n, lvl, idx, src.Length)
      modifies src
      ensures src[..] == Eval(switched, n, lvl, idx, old(src[..]))
      decreases src.Length
    {
      hide Eval, Lower, Upper, Join;
      ghost var input := src[..];
      if src.Length == 2 || src.Length == 3 {
        EvalSmall(n, lvl, idx, src);
        return;
      }
      SubRoom(switched, n, lvl, idx, src.Length);
      var bottom1, top1 := Deal(n, lvl, idx, src[..]);
      var bottom := ArrayOf(bottom1);
      GenBenesEval(n - 1, lvl + 1, idx, bottom);
      var top := ArrayOf(top1);
      GenBenesEval(n - 1, lvl + 1, idx + src.Length / 4, top);
      Collect(n, lvl + 2 * n - 2, idx, bottom[..], top[..], src);
      EvalUnfold(switched, n, lvl, idx, input);
    }

    /** Routing and then evaluating in place: data named by the labels `src` end in the order of `dest`. */
    method RouteAndEval<T>(n: nat, src: seq<int>, dest: seq<int>, ghost f: int -> T, data: array<T>)
      requires Room(switched, n, 0, 0, |src|) && Permutes(src, dest)
      requires |src| <= |perm| == |invPerm| && |src| <= |path|
      requires forall i :: 0 <= i < |src| ==> 0 <= src[i] < |invPerm|
      requires data[..] == Map(f, src)
      modifies this, data
      ensures data[..] == Map(f, dest)
    {
      hide Eval, OnlyBox, Room, Permutes;
      ghost var before := switched;
      GenBenesRoute(n, 0, 0, src, dest);
      OnlyKeepsShape(before, switched, n, 0, 0, |src|, 0, 0);
      RoomKept(before, switched, n, 0, 0, |src|);
      EvalMap(switched, n, 0, 0, f, src);
      assert data[..] == Map(f, src);
      GenBenesEval(n, 0, 0, data);
    }

    /** The two- and three-wire networks on plain data. */
    method EvalSmall<T>(n: nat, lvl: nat, idx: nat, src: array<T>)
      requires Room(switched, n, lvl, idx, src.Length) && src.Length <= 3
      modifies src
      ensures src[..] == Eval(switched, n, lvl, idx, old(src[..]))
    {
      if src.Length == 2 {
        TwoWires(n);
        SwapIf(if n == 1 then lvl else lvl + 1, idx, 0, src);
      } else {
        ThreeWires(n);
        SwapIf(lvl, idx, 0, src);
        SwapIf(lvl + 1, idx, 1, src);
        SwapIf(lvl + 2, idx, 0, src);
      }
    }

    method ApplyPair(t: Pair, p: nat, src: array<Block>)
      requires p + 1 < src.Length
      modifies src
      ensures src[..] == Apply(t, p, old(src[..]))
    {
      src[p] := Xor(src[p], t.a);
      src[p + 1] := Xor(src[p + 1], t.b);
    }

    /** The input level on masked data: applies each pair, then deals its two wires. */
    method DealMasked(n: nat, lvl: nat, idx: nat, src: array<Block>, ot: PairGrid)
            returns (bottom1: seq<Block>, top1: seq<Block>)
      requires src.Length >= 4 && Room(switched, n, lvl, idx, src.Length) && PairRoom(ot, n, lvl, idx, src.Length)
      modifies src
      ensures bottom1 == EnterLower(switched, ot, lvl, idx, old(src[..]))
      ensures top1 == EnterUpper(switched, ot, lvl, idx, old(src[..]))
    {
      hide ApplyLevel, Lower, Upper, Xor;
      ghost var input, entered := src[..], ApplyLevel(ot[lvl], idx, src[..]);
      ghost var low, upp := Lower(switched, lvl, idx, entered), Upper(switched, lvl, idx, entered);
      bottom1, top1 := [], [];
      var i := 0;
      ghost var k := 0;
      while i < src.Length - 1
        invariant i == 2 * k && i <= src.Length
        invariant forall j :: 0 <= j < src.Length ==> src[j] == if j < i then entered[j] else input[j]
        invariant bottom1 == low[..k] && top1 == upp[..k]
      {
        assert i / 2 == k;
        PairEnters(switched, ot, lvl, idx, input, k);
        ApplyPair(ot[lvl][idx + i / 2], i, src);
        bottom1, top1 := PushPair(src[..], i, switched[lvl][idx + i / 2], n, bottom1, top1);
        i, k := i + 2, k + 1;
      }
      if src.Length % 2 == 1 {
        UnpairedEnters(switched, ot, lvl, idx, input);
        top1 := top1 + [src[src.Length - 1]];
      }
    }

    /**
     * The output level on masked data: takes each pair of wires back, then applies the pair, its
     * halves exchanged by the switch.
     */
    method CollectMasked(n: nat, l: nat, idx: nat, bottom1: seq<Block>, top1: seq<Block>, src: array<Block>,
            ot: PairGrid)
      requires src.Length == |bottom1| + |top1| && |bottom1| <= |top1| <= |bottom1| + 1
      requires Fits(n, src.Length) && l < |switched| && idx + |bottom1| <= |switched[l]|
      requires l < |ot| && idx + |bottom1| <= |ot[l]|
      modifies src
      ensures src[..] == Leave(switched, ot, l, idx, bottom1, top1)
    {
      hide Leave, Xor;
      ghost var out := Leave(switched, ot, l, idx, bottom1, top1);
      var i := 0;
      ghost var k := 0;
      while i < src.Length - 1
        invariant i == 2 * k && i <= src.Length
        invariant forall j :: 0 <= j < i ==> src[j] == out[j]
      {
        assert i / 2 == k && (i + 1) / 2 == k;
        PairLeaves(switched, ot, l, idx, bottom1, top1, k);
        var s, t := switched[l][idx + i / 2], ot[l][idx + i / 2];
        src[i], src[i + 1] := TakePair(i, s, n, bottom1, top1);
        src[i] := Xor(src[i], if s == 0 then t.a else t.b);
        src[i + 1] := Xor(src[i + 1], if s == 0 then t.b else t.a);
        i, k := i + 2, k + 1;
      }
      if src.Length % 2 == 1 {
        LastLeaves(switched, ot, l, idx, bottom1, top1);
        src[src.Length - 1] := top1[(src.Length + 1) / 2 - 1];
      }
    }

    /** `return_gen_benes_switches`: the switches of all levels as one flat vector. */
    method ReturnGenBenesSwitches(values: nat) returns (switches: seq<Bit>)
      requires values >= 2 && |switched| == 2 * CeilLog2(values) - 1
      requires forall l :: 0 <= l < |switched| ==> |switched[l]| == values / 2
      ensures |switches| == Cells(|switched|, values / 2)
      ensures Rows(switches, |switched|, values / 2) == switched
      ensures RowByRow(switches, switched, values / 2)
    {
      hide Rows, RowByRow;
      var n := CeilLog2(values);
      var levels := 2 * n - 1;
      switches := seq(levels * (values / 2), _ => 0);
      for j := 0 to levels
        invariant |switches| == Cells(levels, values / 2)
        invariant forall l :: 0 <= l < j ==> Rows(switches, levels, values / 2)[l] == switched[l]
      {
        for i := 0 to values / 2
          invariant |switches| == Cells(levels, values / 2)
          invariant forall l :: 0 <= l < j ==> Rows(switches, levels, values / 2)[l] == switched[l]
          invariant Rows(switches, levels, values / 2)[j][..i] == switched[j][..i]
        {
          CellIndex(j, i, levels, values / 2);
          RowsPut(switches, levels, values / 2, j, i, switched[j][i]);
          ghost var before := Rows(switches, levels, values / 2)[j];
          switches := switches[j * (values / 2) + i := switched[j][i]];
          assert before[i := switched[j][i]][..i + 1] == before[..i] + [switched[j][i]];
          assert switched[j][..i + 1] == switched[j][..i] + [switched[j][i]];
        }
        ghost var row := Rows(switches, levels, values / 2)[j];
        assert row == row[..values / 2] && switched[j] == switched[j][..values / 2];
      }
      FlatIs(switches, switched, values / 2);
    }

    /** The two- and three-wire networks on masked data. */
    method MaskedEvalSmall(n: nat, lvl: nat, idx: nat, src: array<Block>, ot: PairGrid)
      requires Room(switched, n, lvl, idx, src.Length) && PairRoom(ot, n, lvl, idx, src.Length) && src.Length <= 3
      modifies src
      ensures src[..] == MaskedSmall(switched, ot, n, lvl, idx, old(src[..]))
    {
      if src.Length == 2 {
        TwoWires(n);
        var l := if n == 1 then lvl else lvl + 1;
        ApplyPair(ot[l][idx], 0, src);
        SwapIf(l, idx, 0, src);
      } else {
        ThreeWires(n);
        ApplyPair(ot[lvl][idx], 0, src);
        SwapIf(lvl, idx, 0, src);
        ApplyPair(ot[lvl + 1][idx], 1, src);
        SwapIf(lvl + 1, idx, 1, src);
        ApplyPair(ot[lvl + 2][idx], 0, src);
        SwapIf(lvl + 2, idx, 0, src);
      }
    }

    /** `gen_benes_masked_evaluate`: runs the network on masked data, in place. */
    method GenBenesMaskedEvaluate(n: nat, lvl: nat, idx: nat, src: array<Block>, ot: PairGrid)
      requires Room(switched, n, lvl, idx, src.Length) && PairRoom(ot, n, lvl, idx, src.Length)
      modifies src
      ensures src[..] == MaskedEval(switched, ot, n, lvl, idx, old(src[..]))
      decreases src.Length
    {
      hide MaskedEval, MaskedSmall, EnterLower, EnterUpper, Leave;
      ghost var input := src[..];
      if src.Length == 2 || src.Length == 3 {
        MaskedEvalSmall(n, lvl, idx, src, ot);
        MaskedSmallIs(switched, ot, n, lvl, idx, input);
        return;
      }
      SubRoom(switched, n, lvl, idx, src.Length);
      SubPairRoom(ot, n, lvl, idx, src.Length);
      var bottom1, top1 := DealMasked(n, lvl, idx, src, ot);
      var bottom := ArrayOf(bottom1);
      GenBenesMaskedEvaluate(n - 1, lvl + 1, idx, bottom, ot);
      var top := ArrayOf(top1);
      GenBenesMaskedEvaluate(n - 1, lvl + 1, idx + src.Length / 4, top, ot);
      CollectMasked(n, lvl + 2 * n - 2, idx, bottom[..], top[..], src, ot);
      MaskedHalvesAre(switched, ot, n, lvl, idx, input);
      MaskedUnfold(switched, ot, n, lvl, idx, input);
    }
  }

  /**
   * The inner loop of the input level: of wires i and i+1, the one whose `shuffle` falls below
   * values/2 goes to the lower half.
   */
  method PushPair<T>(src: seq<T>, i: nat, s: Bit, n: nat, bottom: seq<T>, top: seq<T>)
          returns (bottom': seq<T>, top': seq<T>)
    requires i % 2 == 0 && i + 1 < |src| && Fits(n, |src|)
    ensures bottom' == bottom + [src[i + s]]
    ensures top' == top + [src[i + 1 - s]]
  {
    bottom', top' := bottom, top;
    for j := 0 to 2
      invariant bottom' == bottom + if j > s then [src[i + s]] else []
      invariant top' == top + if j > 1 - s then [src[i + 1 - s]] else []
    {
      ShuffleSide(i, j, s, n, |src|);
      var x := Shuffle(Wire(i, j, s), n);
      if x < |src| / 2 {
        bottom' := bottom' + [src[i + j]];
      } else {
        top' := top' + [src[i + j]];
      }
    }
  }

  /** The inner loop of the output level in routing: labels `a` and `b` leave on wires i and i+1. */
  method StorePair(i: nat, s: Bit, n: nat, a: int, b: int, bottom: seq<int>, top: seq<int>)
          returns (bottom': seq<int>, top': seq<int>)
    requires |bottom| <= |top| <= |bottom| + 1
    requires i % 2 == 0 && i + 1 < |bottom| + |top| && Fits(n, |bottom| + |top|)
    ensures bottom' == bottom[i / 2 := if s == 0 then a else b]
    ensures top' == top[i / 2 := if s == 0 then b else a]
  {
    bottom', top' := bottom, top;
    for j := 0 to 2
      invariant bottom' == if j > s then bottom[i / 2 := if s == 0 then a else b] else bottom
      invariant top' == if j > 1 - s then top[i / 2 := if s == 0 then b else a] else top
    {
      ShuffleSide(i, j, s, n, |bottom| + |top|);
      var x := Shuffle(Wire(i, j, s), n);
      if x < (|bottom| + |top|) / 2 {
        bottom' := bottom'[x := if j == 0 then a else b];
      } else {
        top' := top'[i / 2 := if j == 0 then a else b];
      }
    }
  }

  /** The inner loop of the output level in evaluation: what leaves on wires i and i+1. */
  method TakePair<T>(i: nat, s: Bit, n: nat, bottom: seq<T>, top: seq<T>) returns (a: T, b: T)
    requires |bottom| <= |top| <= |bottom| + 1
    requires i % 2 == 0 && i + 1 < |bottom| + |top| && Fits(n, |bottom| + |top|)
    ensures a == if s == 0 then bottom[i / 2] else top[i / 2]
    ensures b == if s == 1 then bottom[i / 2] else top[i / 2]
  {
    a, b := top[i / 2], top[i / 2];
    for j := 0 to 2
      invariant j > 0 ==> a == if s == 0 then bottom[i / 2] else top[i / 2]
      invariant j > 1 ==> b == if s == 1 then bottom[i / 2] else top[i / 2]
    {
      ShuffleSide(i, j, s, n, |bottom| + |top|);
      var x := Shuffle(Wire(i, j, s), n);
      var leaving := if x < (|bottom| + |top|) / 2 then bottom[x] else top[i / 2];
      if j == 0 {
        a := leaving;
      } else {
        b := leaving;
      }
    }
  }
}

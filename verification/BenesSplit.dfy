/**
 * A pair-colouring splits a list of labels into two halves, and splits a permutation of it into
 * permutations of the halves.
 */
module BenesSplit {

  ghost predicate Distinct(xs: seq<int>) {
    forall i, j :: 0 <= i < j < |xs| ==> xs[i] != xs[j]
  }

  /** `dest` lists the distinct labels of `src` in another order. */
  ghost predicate Permutes(src: seq<int>, dest: seq<int>) {
    && |src| == |dest|
    && Distinct(src) && Distinct(dest)
    && (forall i :: 0 <= i < |src| ==> src[i] in dest)
    && (forall i :: 0 <= i < |dest| ==> dest[i] in src)
  }

  /** Colours that differ across every pair; the unpaired last position of an odd list has colour 1. */
  ghost predicate PairColoured(e: seq<int>) {
    && (forall v :: 0 <= v < |e| ==> 0 <= e[v] <= 1)
    && (forall k :: 0 <= k < |e| / 2 ==> e[2 * k + 1] == 1 - e[2 * k])
    && (|e| % 2 == 1 ==> e[|e| - 1] == 1)
  }

  /** The position of colour 0 of every pair. */
  ghost function LowOf(xs: seq<int>, e: seq<int>): (low: seq<int>)
    requires |xs| == |e| && PairColoured(e)
    ensures |low| == |xs| / 2
    ensures forall k {:trigger low[k]} :: 0 <= k < |xs| / 2 ==> low[k] == xs[2 * k + e[2 * k]]
  {
    seq(|xs| / 2, k requires 0 <= k < |xs| / 2 => xs[2 * k + e[2 * k]])
  }

  /** The other position of every pair, and the unpaired last. */
  ghost function UppOf(xs: seq<int>, e: seq<int>): (upp: seq<int>)
    requires |xs| == |e| && PairColoured(e)
    ensures |upp| == (|xs| + 1) / 2
    ensures forall k {:trigger upp[k]} :: 0 <= k < |xs| / 2 ==> upp[k] == xs[2 * k + 1 - e[2 * k]]
    ensures |xs| % 2 == 1 ==> upp[|xs| / 2] == xs[|xs| - 1]
  {
    seq((|xs| + 1) / 2, k requires 0 <= k < (|xs| + 1) / 2 =>
      if k < |xs| / 2 then xs[2 * k + 1 - e[2 * k]] else xs[|xs| - 1])
  }

  ghost predicate SplitBy(xs: seq<int>, e: seq<int>, low: seq<int>, upp: seq<int>)
    requires |xs| == |e| && PairColoured(e)
  {
    low == LowOf(xs, e) && upp == UppOf(xs, e)
  }

  lemma SplitAt(xs: seq<int>, e: seq<int>, low: seq<int>, upp: seq<int>, j: int)
    requires |xs| == |e| && PairColoured(e) && SplitBy(xs, e, low, upp)
    requires 0 <= j < |xs|
    ensures e[j] == 0 ==> j / 2 < |low| && low[j / 2] == xs[j]
    ensures e[j] == 1 ==> j / 2 < |upp| && upp[j / 2] == xs[j]
  {
    var k := j / 2;
    if k < |xs| / 2 {
      assert e[2 * k + 1] == 1 - e[2 * k];
      assert j == 2 * k || j == 2 * k + 1;
    }
  }

  lemma LowFrom(xs: seq<int>, e: seq<int>, low: seq<int>, upp: seq<int>, k: int) returns (j: int)
    requires |xs| == |e| && PairColoured(e) && SplitBy(xs, e, low, upp)
    requires 0 <= k < |low|
    ensures 0 <= j < |xs| && j / 2 == k && e[j] == 0 && low[k] == xs[j]
  {
    j := 2 * k + e[2 * k];
    assert e[2 * k + 1] == 1 - e[2 * k];
  }

  lemma UppFrom(xs: seq<int>, e: seq<int>, low: seq<int>, upp: seq<int>, k: int) returns (j: int)
    requires |xs| == |e| && PairColoured(e) && SplitBy(xs, e, low, upp)
    requires 0 <= k < |upp|
    ensures 0 <= j < |xs| && j / 2 == k && e[j] == 1 && upp[k] == xs[j]
  {
    if k < |xs| / 2 {
      j := 2 * k + 1 - e[2 * k];
      assert e[2 * k + 1] == 1 - e[2 * k];
    } else {
      j := |xs| - 1;
    }
  }

  lemma HalvesDistinct(xs: seq<int>, e: seq<int>, low: seq<int>, upp: seq<int>)
    requires |xs| == |e| && PairColoured(e) && SplitBy(xs, e, low, upp)
    requires Distinct(xs)
    ensures Distinct(low) && Distinct(upp)
  {
    forall k, m | 0 <= k < m < |low|
      ensures low[k] != low[m]
    {
      var i := LowFrom(xs, e, low, upp, k);
      var j := LowFrom(xs, e, low, upp, m);
    }
    forall k, m | 0 <= k < m < |upp|
      ensures upp[k] != upp[m]
    {
      var i := UppFrom(xs, e, low, upp, k);
      var j := UppFrom(xs, e, low, upp, m);
    }
  }

  /**
   * Every label of one list's half is in the same half of the other list, when `q` says where the
   * labels went and colours follow the labels.
   */
  lemma HalvesWithin(xs: seq<int>, e: seq<int>, low: seq<int>, upp: seq<int>,
                     ys: seq<int>, f: seq<int>, low': seq<int>, upp': seq<int>, q: seq<int>)
    requires |xs| == |e| == |ys| == |f| == |q|
    requires PairColoured(e) && SplitBy(xs, e, low, upp)
    requires PairColoured(f) && SplitBy(ys, f, low', upp')
    requires forall i :: 0 <= i < |xs| ==> 0 <= q[i] < |xs| && ys[q[i]] == xs[i] && f[q[i]] == e[i]
    ensures forall k :: 0 <= k < |low| ==> low[k] in low'
    ensures forall k :: 0 <= k < |upp| ==> upp[k] in upp'
  {
    forall k | 0 <= k < |low|
      ensures low[k] in low'
    {
      var i := LowFrom(xs, e, low, upp, k);
      SplitAt(ys, f, low', upp', q[i]);
    }
    forall k | 0 <= k < |upp|
      ensures upp[k] in upp'
    {
      var i := UppFrom(xs, e, low, upp, k);
      SplitAt(ys, f, low', upp', q[i]);
    }
  }

  /** The two halves of the sources are permuted into the two halves of the destinations. */
  lemma HalvesPermute(src: seq<int>, e: seq<int>, b1: seq<int>, t1: seq<int>,
                      dest: seq<int>, f: seq<int>, b2: seq<int>, t2: seq<int>, p: seq<int>, iv: seq<int>)
    requires Permutes(src, dest)
    requires |src| == |e| == |f| == |p| == |iv|
    requires PairColoured(e) && SplitBy(src, e, b1, t1)
    requires PairColoured(f) && SplitBy(dest, f, b2, t2)
    requires forall j :: 0 <= j < |p| ==> 0 <= p[j] < |p| && dest[j] == src[p[j]] && f[j] == e[p[j]]
    requires forall v :: 0 <= v < |p| ==> 0 <= iv[v] < |p| && p[iv[v]] == v
    ensures Permutes(b1, b2) && Permutes(t1, t2)
  {
    HalvesDistinct(src, e, b1, t1);
    HalvesDistinct(dest, f, b2, t2);
    HalvesWithin(src, e, b1, t1, dest, f, b2, t2, iv);
    HalvesWithin(dest, f, b2, t2, src, e, b1, t1, p);
  }
}

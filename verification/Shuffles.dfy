/**
 * The random permutation that one party draws: from the last position down, each position is
 * exchanged with one that is not above it. Every permutation can be drawn, and in exactly one way.
 */
module Shuffles {
  import opened BenesSplit

  function Identity(size: nat): (r: seq<int>)
    ensures |r| == size && forall i :: 0 <= i < size ==> r[i] == i
  {
    seq(size, i => i)
  }

  function Swapped(d: seq<int>, i: nat, j: nat): (r: seq<int>)
    requires i < |d| && j < |d|
    ensures |r| == |d|
  {
    d[i := d[j]][j := d[i]]
  }

  /** What the draws for positions `i` down to 1 make of `d`. */
  function ShuffledFrom(d: seq<int>, draws: seq<nat>, i: nat): (r: seq<int>)
    requires i < |d| == |draws|
    ensures |r| == |d|
    decreases i
  {
    if i == 0 then d else ShuffledFrom(Swapped(d, i, draws[i] % (i + 1)), draws, i - 1)
  }

  /** The permutation that the draws give. */
  function Shuffled(size: nat, draws: seq<nat>): (r: seq<int>)
    requires |draws| == size
    ensures |r| == size
  {
    if size == 0 then [] else ShuffledFrom(Identity(size), draws, size - 1)
  }

  /** Draws as small as they need to be. */
  predicate Reduced(draws: seq<nat>) {
    forall i :: 0 <= i < |draws| ==> draws[i] <= i
  }

  lemma SwapPermutes(src: seq<int>, dest: seq<int>, i: nat, j: nat)
    requires Permutes(src, dest) && i < |dest| && j < |dest|
    ensures Permutes(src, Swapped(dest, i, j))
  {
    var d := Swapped(dest, i, j);
    forall k | 0 <= k < |src|
      ensures src[k] in d
    {
      assert src[k] in dest;
      var q :| 0 <= q < |dest| && dest[q] == src[k];
      assert d[if q == i then j else if q == j then i else q] == src[k];
    }
  }

  lemma SwapDistinct(d: seq<int>, i: nat, j: nat)
    requires Distinct(d) && i < |d| && j < |d|
    ensures Distinct(Swapped(d, i, j))
  {
  }

  lemma {:induction false} ShuffledFromPermutes(src: seq<int>, d: seq<int>, draws: seq<nat>, i: nat)
    requires i < |d| == |draws| && Permutes(src, d)
    ensures Permutes(src, ShuffledFrom(d, draws, i))
    decreases i
  {
    hide Permutes;
    if i == 0 {
    } else {
      SwapPermutes(src, d, i, draws[i] % (i + 1));
      ShuffledFromPermutes(src, Swapped(d, i, draws[i] % (i + 1)), draws, i - 1);
    }
  }

  /** Positions above the one in turn are settled. */
  lemma {:induction false} Settled(d: seq<int>, draws: seq<nat>, i: nat)
    requires i < |d| == |draws|
    ensures forall j :: i < j < |d| ==> ShuffledFrom(d, draws, i)[j] == d[j]
    ensures i > 0 ==> ShuffledFrom(d, draws, i)[i] == d[draws[i] % (i + 1)]
    decreases i
  {
    if i == 0 {
    } else {
      Settled(Swapped(d, i, draws[i] % (i + 1)), draws, i - 1);
    }
  }

  /** Draws that give the same permutation leave the same remainders. */
  lemma {:induction false} SameDraws(d: seq<int>, a: seq<nat>, b: seq<nat>, i: nat)
    requires i < |d| == |a| == |b| && Distinct(d) && ShuffledFrom(d, a, i) == ShuffledFrom(d, b, i)
    ensures forall j :: 0 < j <= i ==> a[j] % (j + 1) == b[j] % (j + 1)
    decreases i
  {
    if i == 0 {
    } else {
      Settled(d, a, i);
      Settled(d, b, i);
      var loc := a[i] % (i + 1);
      assert loc == b[i] % (i + 1);
      SwapDistinct(d, i, loc);
      SameDraws(Swapped(d, i, loc), a, b, i - 1);
    }
  }

  /** The label wanted at position `i` is not above it yet. */
  lemma Located(d: seq<int>, target: seq<int>, i: nat) returns (loc: nat)
    requires i < |d| && Permutes(d, target) && forall j :: i < j < |d| ==> d[j] == target[j]
    ensures loc <= i && d[loc] == target[i]
  {
    assert target[i] in d;
    loc :| loc < |d| && d[loc] == target[i];
  }

  /** Every permutation that agrees with `d` above position `i` can be drawn from there. */
  lemma {:induction false} CanDraw(d: seq<int>, target: seq<int>, i: nat) returns (draws: seq<nat>)
    requires i < |d| && Permutes(d, target) && forall j :: i < j < |d| ==> d[j] == target[j]
    ensures |draws| == |d| && Reduced(draws) && ShuffledFrom(d, draws, i) == target
    decreases i
  {
    hide Permutes;
    SameLength(d, target);
    var loc := Located(d, target, i);
    if i == 0 {
      draws := seq(|d|, _ => 0);
      assert d == target;
    } else {
      var next := Swapped(d, i, loc);
      PermutesBack(d, target, i, loc);
      var rest := CanDraw(next, target, i - 1);
      draws := rest[i := loc];
      OnlyBelow(next, rest, draws, i - 1);
      SmallRemainder(loc, i + 1);
    }
  }

  lemma SameLength(d: seq<int>, target: seq<int>)
    requires Permutes(d, target)
    ensures |d| == |target|
  {
  }

  lemma PermutesBack(d: seq<int>, target: seq<int>, i: nat, j: nat)
    requires Permutes(d, target) && i < |d| && j < |d|
    ensures Permutes(Swapped(d, i, j), target)
  {
    SwapPermutes(target, d, i, j);
  }

  lemma {:induction false} OnlyBelow(d: seq<int>, a: seq<nat>, b: seq<nat>, i: nat)
    requires i < |d| == |a| == |b| && forall j :: 0 <= j <= i ==> a[j] == b[j]
    ensures ShuffledFrom(d, a, i) == ShuffledFrom(d, b, i)
    decreases i
  {
    if i == 0 {
    } else {
      OnlyBelow(Swapped(d, i, a[i] % (i + 1)), a, b, i - 1);
    }
  }

  lemma PermutesSelf(size: nat)
    ensures Permutes(Identity(size), Identity(size))
  {
  }

  /** Whatever is drawn is a permutation. */
  lemma ShuffledPermutes(size: nat, draws: seq<nat>)
    requires |draws| == size
    ensures Permutes(Identity(size), Shuffled(size, draws))
  {
    hide Permutes;
    PermutesSelf(size);
    if size > 0 {
      ShuffledFromPermutes(Identity(size), Identity(size), draws, size - 1);
    }
  }

  /** What each draw does: the highest position gets the label it names, and drawing oneself changes nothing. */
  lemma DrawsName(size: nat, draws: seq<nat>)
    requires |draws| == size
    ensures size > 0 ==> Shuffled(size, draws)[size - 1] == draws[size - 1] % size
    ensures (forall i :: 0 <= i < size ==> draws[i] == i) ==> Shuffled(size, draws) == Identity(size)
  {
    if size > 0 {
      Settled(Identity(size), draws, size - 1);
      if size == 1 {
        assert draws[0] % 1 == 0;
      }
      if forall i :: 0 <= i < size ==> draws[i] == i {
        NothingMoves(Identity(size), draws, size - 1);
      }
    }
  }

  lemma {:induction false} NothingMoves(d: seq<int>, draws: seq<nat>, i: nat)
    requires i < |d| == |draws| && forall j :: 0 <= j < |d| ==> draws[j] == j
    ensures ShuffledFrom(d, draws, i) == d
    decreases i
  {
    if i == 0 {
    } else {
      SmallRemainder(i, i + 1);
      assert Swapped(d, i, i) == d;
      NothingMoves(d, draws, i - 1);
    }
  }

  /** Every permutation can be drawn. */
  lemma EveryPermutation(size: nat, dest: seq<int>) returns (draws: seq<nat>)
    requires Permutes(Identity(size), dest)
    ensures |draws| == size && Reduced(draws) && Shuffled(size, draws) == dest
  {
    if size == 0 {
      draws := [];
    } else {
      draws := CanDraw(Identity(size), dest, size - 1);
    }
  }

  /** Different draws give different permutations. */
  lemma OnlyOneWay(size: nat, a: seq<nat>, b: seq<nat>)
    requires |a| == |b| == size && Reduced(a) && Reduced(b)
    ensures Shuffled(size, a) == Shuffled(size, b) <==> a == b
  {
    if size > 0 && Shuffled(size, a) == Shuffled(size, b) {
      PermutesSelf(size);
      SameDraws(Identity(size), a, b, size - 1);
      forall j | 0 <= j < size
        ensures a[j] == b[j]
      {
        SmallRemainder(a[j], j + 1);
        SmallRemainder(b[j], j + 1);
      }
    }
  }

  lemma SmallRemainder(a: nat, n: nat)
    ensures a < n ==> a % n == a
  {
  }
}

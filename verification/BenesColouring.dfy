/**
 * The two-colouring behind the routing. Wires are joined in pairs at the inputs (v and v^1) and in
 * pairs at the outputs (p[j] and p[j^1]); a colouring that differs across every pair tells which
 * half of the network each wire goes through. This module states what one iteration of the
 * explicit-stack search keeps, and why the search never meets a wire of the wrong colour.
 */
module BenesColouring {
  import opened Bits

  /** `p` is the permutation being routed and `iv` its inverse. */
  ghost predicate Inverse(p: seq<int>, iv: seq<int>) {
    && |p| == |iv|
    && (forall j :: 0 <= j < |p| ==> 0 <= p[j] < |p| && iv[p[j]] == j)
    && (forall v :: 0 <= v < |p| ==> 0 <= iv[v] < |p| && p[iv[v]] == v)
  }

  /** Every wire has an input partner, except the last one of an odd network. */
  ghost predicate HasIn(p: seq<int>, v: int) {
    0 <= v < |p| && Flip(v) < |p|
  }

  /** Every wire has an output partner, except the one that leaves last from an odd network. */
  ghost predicate HasOut(p: seq<int>, iv: seq<int>, v: int)
    requires Inverse(p, iv)
  {
    0 <= v < |p| && Flip(iv[v]) < |p|
  }

  ghost function OutOf(p: seq<int>, iv: seq<int>, v: int): (w: int)
    requires Inverse(p, iv) && HasOut(p, iv, v)
    ensures 0 <= w < |p| && w != v && HasOut(p, iv, w) && p[Flip(iv[w])] == v
  {
    FlipFlip(iv[v]);
    p[Flip(iv[v])]
  }

  ghost predicate InDone(c: seq<int>, p: seq<int>, v: int)
    requires |p| <= |c| && 0 <= v < |p|
  {
    HasIn(p, v) ==> c[Flip(v)] == 1 - c[v]
  }

  ghost predicate OutDone(c: seq<int>, p: seq<int>, iv: seq<int>, v: int)
    requires Inverse(p, iv) && |p| <= |c| && 0 <= v < |p|
  {
    HasOut(p, iv, v) ==> c[OutOf(p, iv, v)] == 1 - c[v]
  }

  /** Colours are 0 and 1, with -1 for not coloured; both ends of the open chain of an odd network have colour 1. */
  ghost predicate Colours(c: seq<int>, p: seq<int>, iv: seq<int>) {
    && Inverse(p, iv)
    && |p| <= |c|
    && (forall v :: 0 <= v < |p| ==> -1 <= c[v] <= 1)
    && (|p| % 2 == 1 ==> c[|p| - 1] == 1 && c[p[|p| - 1]] == 1)
  }

  /** A coloured wire has both its partners coloured, with the other colour. */
  ghost predicate Closed(c: seq<int>, p: seq<int>, iv: seq<int>) {
    && Colours(c, p, iv)
    && (forall v {:trigger InDone(c, p, v)} :: 0 <= v < |p| && c[v] >= 0 ==> InDone(c, p, v))
    && (forall v {:trigger OutDone(c, p, iv, v)} :: 0 <= v < |p| && c[v] >= 0 ==> OutDone(c, p, iv, v))
  }

  /** The colouring that routing needs. */
  ghost predicate Proper(c: seq<int>, p: seq<int>) {
    && |p| <= |c|
    && (forall v :: 0 <= v < |p| ==> 0 <= p[v] < |p| && 0 <= c[v] <= 1)
    && (forall v {:trigger Flip(v)} :: 0 <= v < |p| && Flip(v) < |p| ==> c[Flip(v)] == 1 - c[v])
    && (forall j {:trigger Flip(j)} :: 0 <= j < |p| && Flip(j) < |p| ==> c[p[Flip(j)]] == 1 - c[p[j]])
    && (|p| % 2 == 1 ==> c[|p| - 1] == 1 && c[p[|p| - 1]] == 1)
  }

  lemma ClosedIsProper(c: seq<int>, p: seq<int>, iv: seq<int>)
    requires Closed(c, p, iv)
    requires forall v :: 0 <= v < |p| ==> c[v] >= 0
    ensures Proper(c, p)
  {
    forall j | 0 <= j < |p| && Flip(j) < |p|
      ensures c[p[Flip(j)]] == 1 - c[p[j]]
    {
      assert OutDone(c, p, iv, p[j]);
    }
    forall v | 0 <= v < |p| && Flip(v) < |p|
      ensures c[Flip(v)] == 1 - c[v]
    {
      assert InDone(c, p, v);
    }
  }

  /**
   * Where the walk of one search stands: not begun, about to cross an output pair, about to cross
   * an input pair, or at its end.
   */
  datatype Head = Start | OutEdge(h: int) | InEdge(h: int) | Idle

  /**
   * What holds at every test of the search loop. The walk began at `s`, whose input pair is the one
   * left open behind it; it crosses output pairs from colour `sigma` and input pairs into colour
   * `sigma`, so the two ends agree when they meet. `base` says the partner of `s` is still at the
   * bottom of the stack.
   */
  ghost predicate Frontier(c: seq<int>, p: seq<int>, iv: seq<int>, s: int, sigma: int, base: bool, head: Head) {
    && Colours(c, p, iv)
    && 0 <= s < |p| && 0 <= sigma <= 1
    && if head.Start? then
         c[s] < 0 && sigma == 0 && !base && Closed(c, p, iv)
       else
         && c[s] == sigma && HasIn(p, s)
         && (base ==> HasOut(p, iv, Flip(s)))
         && (forall v {:trigger InDone(c, p, v)} :: 0 <= v < |p| && c[v] >= 0 ==>
              InDone(c, p, v) || v == s || head == InEdge(v))
         && (forall v {:trigger OutDone(c, p, iv, v)} :: 0 <= v < |p| && c[v] >= 0 ==>
              OutDone(c, p, iv, v) || head == OutEdge(v))
         && (head.OutEdge? ==> HasOut(p, iv, head.h) && c[head.h] == sigma && c[OutOf(p, iv, head.h)] < 0)
         && (head.InEdge? ==> HasIn(p, head.h) && c[head.h] == 1 - sigma && c[Flip(head.h)] < 0)
         && (head.Idle? ==> InDone(c, p, s))
  }

  /** The stack that goes with a frontier, top last. */
  ghost function StackOf(c: seq<int>, p: seq<int>, iv: seq<int>, s: int, sigma: int, base: bool,
                         head: Head): seq<(int, int)>
    requires Frontier(c, p, iv, s, sigma, base, head)
  {
    (if base then [(Flip(s), 1 - sigma)] else []) +
    match head
    case Start => [(s, 0)]
    case OutEdge(h) => [(OutOf(p, iv, h), 1 - sigma)]
    case InEdge(h) => [(Flip(h), sigma)]
    case Idle => []
  }

  /** What one iteration pushes after colouring wire `v`. */
  ghost function Pushed(c: seq<int>, p: seq<int>, iv: seq<int>, v: int): seq<(int, int)>
    requires Inverse(p, iv) && |p| <= |c| && HasIn(p, v) && HasOut(p, iv, v)
  {
    (if c[Flip(v)] < 0 then [(Flip(v), 1 - c[v])] else []) +
    (if c[OutOf(p, iv, v)] < 0 then [(OutOf(p, iv, v), 1 - c[v])] else [])
  }

  /** An uncoloured wire has both partners: the search cannot step outside the network. */
  lemma UncolouredHasBoth(c: seq<int>, p: seq<int>, iv: seq<int>, v: int)
    requires Colours(c, p, iv) && 0 <= v < |p| && c[v] < 0
    ensures HasIn(p, v) && HasOut(p, iv, v)
  {
  }

  /** Colouring a new wire `v` disturbs no wire that already had its partners coloured. */
  lemma ColouringKeeps(c: seq<int>, p: seq<int>, iv: seq<int>, v: int, colour: int, u: int)
    requires Colours(c, p, iv) && 0 <= v < |p| && c[v] < 0 && 0 <= colour <= 1
    requires 0 <= u < |p| && c[u] >= 0
    ensures InDone(c, p, u) ==> InDone(c[v := colour], p, u)
    ensures OutDone(c, p, iv, u) ==> OutDone(c[v := colour], p, iv, u)
  {
  }

  lemma ColouringKeepsAll(c: seq<int>, p: seq<int>, iv: seq<int>, v: int, colour: int, s: int, head: Head)
    requires Colours(c, p, iv) && 0 <= v < |p| && c[v] < 0 && 0 <= colour <= 1
    requires forall u {:trigger InDone(c, p, u)} :: 0 <= u < |p| && c[u] >= 0 ==>
        InDone(c, p, u) || u == s || head == InEdge(u)
    requires forall u {:trigger OutDone(c, p, iv, u)} :: 0 <= u < |p| && c[u] >= 0 ==>
        OutDone(c, p, iv, u) || head == OutEdge(u)
    ensures var d := c[v := colour];
      && Colours(d, p, iv)
      && (forall u {:trigger InDone(d, p, u)} :: 0 <= u < |p| && u != v && d[u] >= 0 ==>
        InDone(d, p, u) || u == s || head == InEdge(u))
      && (forall u {:trigger OutDone(d, p, iv, u)} :: 0 <= u < |p| && u != v && d[u] >= 0 ==>
        OutDone(d, p, iv, u) || head == OutEdge(u))
  {
    var d := c[v := colour];
    forall u | 0 <= u < |p| && u != v && d[u] >= 0
      ensures InDone(d, p, u) || u == s || head == InEdge(u)
      ensures OutDone(d, p, iv, u) || head == OutEdge(u)
    {
      ColouringKeeps(c, p, iv, v, colour, u);
      assert InDone(c, p, u) || u == s || head == InEdge(u);
      assert OutDone(c, p, iv, u) || head == OutEdge(u);
    }
  }

  lemma StepStart(c: seq<int>, p: seq<int>, iv: seq<int>, s: int)
    requires Frontier(c, p, iv, s, 0, false, Start)
    ensures HasIn(p, s) && HasOut(p, iv, s)
    ensures Frontier(c[s := 0], p, iv, s, 0, true, OutEdge(s))
    ensures Pushed(c[s := 0], p, iv, s) == StackOf(c[s := 0], p, iv, s, 0, true, OutEdge(s))
  {
    UncolouredHasBoth(c, p, iv, s);
    FlipFlip(s);
    var z, w := Flip(s), OutOf(p, iv, s);
    assert c[z] < 0 by {
      assert InDone(c, p, z) || c[z] < 0;
    }
    assert c[w] < 0 by {
      assert OutDone(c, p, iv, w) || c[w] < 0;
    }
    UncolouredHasBoth(c, p, iv, z);
    ColouringKeepsAll(c, p, iv, s, 0, s, Idle);
  }

  lemma StepOut(c: seq<int>, p: seq<int>, iv: seq<int>, s: int, sigma: int, base: bool, h: int) returns (head: Head)
    requires Frontier(c, p, iv, s, sigma, base, OutEdge(h))
    ensures var v := OutOf(p, iv, h); var d := c[v := 1 - sigma];
      && HasIn(p, v) && Frontier(d, p, iv, s, sigma, base, head) && !head.Start?
      && StackOf(d, p, iv, s, sigma, base, head) == (if base then [(Flip(s), 1 - sigma)] else []) + Pushed(d, p, iv, v)
  {
    var v := OutOf(p, iv, h);
    UncolouredHasBoth(c, p, iv, v);
    FlipFlip(v);
    var d := c[v := 1 - sigma];
    ColouringKeepsAll(c, p, iv, v, 1 - sigma, s, OutEdge(h));
    assert OutDone(d, p, iv, h) && OutDone(d, p, iv, v);
    if c[Flip(v)] < 0 {
      head := InEdge(v);
    } else {
      head := Idle;
      assert Flip(v) == s by {
        assert !InDone(c, p, Flip(v));
      }
      assert InDone(d, p, v) && InDone(d, p, s);
    }
    assert Pushed(d, p, iv, v) == if c[Flip(v)] < 0 then [(Flip(v), sigma)] else [];
  }

  lemma StepIn(c: seq<int>, p: seq<int>, iv: seq<int>, s: int, sigma: int, base: bool, h: int)
    requires Frontier(c, p, iv, s, sigma, base, InEdge(h))
    ensures var v := Flip(h); var d := c[v := sigma];
      && HasIn(p, v) && HasOut(p, iv, v) && Frontier(d, p, iv, s, sigma, base, OutEdge(v))
      && StackOf(d, p, iv, s, sigma, base, OutEdge(v)) ==
        (if base then [(Flip(s), 1 - sigma)] else []) + Pushed(d, p, iv, v)
  {
    var v := Flip(h);
    UncolouredHasBoth(c, p, iv, v);
    FlipFlip(h);
    var d := c[v := sigma];
    var w := OutOf(p, iv, v);
    assert c[w] < 0 by {
      assert OutDone(c, p, iv, w) || c[w] < 0;
    }
    ColouringKeepsAll(c, p, iv, v, sigma, s, InEdge(h));
    assert InDone(d, p, h) && InDone(d, p, v);
  }

  /** Popping the partner of `s` a second time changes nothing and pushes nothing. */
  lemma StepIdle(c: seq<int>, p: seq<int>, iv: seq<int>, s: int, sigma: int)
    requires Frontier(c, p, iv, s, sigma, true, Idle)
    ensures var v := Flip(s);
      && HasIn(p, v) && HasOut(p, iv, v) && c[v] == 1 - sigma
      && Pushed(c, p, iv, v) == [] && Frontier(c, p, iv, s, sigma, false, Idle)
  {
    FlipFlip(s);
    assert OutDone(c, p, iv, Flip(s));
  }

  /** The wires still to be coloured; they bound the length of every search. */
  ghost function Uncoloured(c: seq<int>, n: nat): set<int>
    requires n <= |c|
  {
    set v | 0 <= v < n && c[v] < 0
  }

  lemma FewerUncoloured(c: seq<int>, n: nat, v: int, colour: int)
    requires 0 <= v < n <= |c| && c[v] < 0 <= colour
    ensures Uncoloured(c[v := colour], n) < Uncoloured(c, n)
  {
    assert v in Uncoloured(c, n) && v !in Uncoloured(c[v := colour], n);
  }

  /**
   * One iteration of the search, whatever is on top of the stack: the popped wire has both
   * partners, so nothing is read outside the network, the invariant holds again for the stack that
   * the two conditional pushes leave, and either a wire is newly coloured or the wire already has
   * that colour and nothing is pushed.
   */
  lemma Step(c: seq<int>, p: seq<int>, iv: seq<int>, s: int, sigma: int, base: bool, head: Head)
          returns (base': bool, head': Head)
    requires Frontier(c, p, iv, s, sigma, base, head)
    requires StackOf(c, p, iv, s, sigma, base, head) != []
    ensures var st := StackOf(c, p, iv, s, sigma, base, head);
      var (v, colour) := st[|st| - 1];
      && HasIn(p, v) && HasOut(p, iv, v) && 0 <= colour <= 1
      && (c[v] >= 0 ==> c[v] == colour)
      && Frontier(c[v := colour], p, iv, s, sigma, base', head')
      && StackOf(c[v := colour], p, iv, s, sigma, base', head') == st[..|st| - 1] + Pushed(c[v := colour], p, iv, v)
      && (if c[v] < 0 then Uncoloured(c[v := colour], |p|) < Uncoloured(c, |p|)
          else c[v := colour] == c && Pushed(c, p, iv, v) == [])
  {
    hide Uncoloured;
    var st := StackOf(c, p, iv, s, sigma, base, head);
    var (v, colour) := st[|st| - 1];
    var d := c[v := colour];
    base', head' := base, Idle;
    match head {
      case Start =>
        StepStart(c, p, iv, s);
        base', head' := true, OutEdge(s);
      case OutEdge(h) =>
        head' := StepOut(c, p, iv, s, sigma, base, h);
      case InEdge(h) =>
        StepIn(c, p, iv, s, sigma, base, h);
        head' := OutEdge(v);
      case Idle =>
        StepIdle(c, p, iv, s, sigma);
        base' := false;
        assert d == c;
    }
    if c[v] < 0 {
      FewerUncoloured(c, |p|, v, colour);
    }
  }

  /** The first search of an odd network starts next to one end of the open chain. */
  lemma ChainStart(c: seq<int>, p: seq<int>, iv: seq<int>)
    requires Inverse(p, iv) && |p| <= |c| && |p| % 2 == 1 && |p| >= 3
    requires forall v :: 0 <= v < |p| ==> c[v] == if v == |p| - 1 || v == p[|p| - 1] then 1 else -1
    ensures p[|p| - 1] == |p| - 1 ==> Closed(c, p, iv)
    ensures p[|p| - 1] != |p| - 1 ==>
      && HasOut(p, iv, |p| - 1)
      && Frontier(c, p, iv, p[|p| - 1], 1, false, OutEdge(|p| - 1))
      && StackOf(c, p, iv, p[|p| - 1], 1, false, OutEdge(|p| - 1)) == [(OutOf(p, iv, |p| - 1), 0)]
  {
    var last := |p| - 1;
    assert Colours(c, p, iv);
    if p[last] != last {
      assert HasOut(p, iv, last);
      assert !HasOut(p, iv, p[last]);
      var w := OutOf(p, iv, last);
      assert w != p[last];
    }
  }

  /** Every later search starts at a wire not yet reached. */
  lemma FreshStart(c: seq<int>, p: seq<int>, iv: seq<int>, u: int)
    requires Closed(c, p, iv) && 0 <= u < |p| && c[u] < 0
    ensures Frontier(c, p, iv, u, 0, false, Start)
    ensures StackOf(c, p, iv, u, 0, false, Start) == [(u, 0)]
  {
  }

  lemma EvenStart(c: seq<int>, p: seq<int>, iv: seq<int>)
    requires Inverse(p, iv) && |p| <= |c| && |p| % 2 == 0
    requires forall v :: 0 <= v < |p| ==> c[v] == -1
    ensures Closed(c, p, iv)
  {
  }

  lemma FinishIsClosed(c: seq<int>, p: seq<int>, iv: seq<int>, s: int, sigma: int, base: bool, head: Head)
    requires Frontier(c, p, iv, s, sigma, base, head)
    requires StackOf(c, p, iv, s, sigma, base, head) == []
    ensures Closed(c, p, iv)
  {
  }
}

/**
 * Plans for computing powers of a query: which two lower powers each power is multiplied from,
 * and how deep the resulting circuit is.
 */
module PowersPlan {

  /** One node of the plan. Both parents 0: the power is given. */
  datatype PowersNode = PowersNode(power: nat, depth: nat, p1: nat, p2: nat) {
    predicate IsSource() {
      p1 == 0 && p2 == 0
    }
  }

  /** A `std::set` of powers, in iteration order. */
  predicate Ascending(s: seq<nat>) {
    forall i, j :: 0 <= i < j < |s| ==> s[i] < s[j]
  }

  /** The checks that `configure` makes. */
  predicate Acceptable(source: seq<nat>, target: seq<nat>) {
    && 0 !in source && 1 in source
    && 0 !in target && 1 in target
    && forall s :: s in source ==> s in target
  }

  /** `s1` is a possible first parent of `p`. */
  predicate Splits(target: seq<nat>, p: nat, s1: nat) {
    s1 in target && s1 < p && p - s1 in target
  }

  ghost predicate Decomposable(source: seq<nat>, target: seq<nat>) {
    forall p: nat :: p in target && p !in source ==> exists s1 :: Splits(target, p, s1)
  }

  function Max(a: nat, b: nat): nat {
    if a < b then b else a
  }

  /** Depth of `p` when made from `s1` and the rest. */
  function DepthVia(nodes: map<nat, PowersNode>, p: nat, s1: nat): nat
    requires s1 < p && s1 in nodes && p - s1 in nodes
  {
    Max(nodes[s1].depth, nodes[p - s1].depth) + 1
  }

  /** The node of a non-source power is the best choice among the powers before it. */
  ghost predicate Best(nodes: map<nat, PowersNode>, target: seq<nat>, p: nat)
    requires 0 !in target && p in nodes && forall s :: s in target && s < p ==> s in nodes
  {
    var node := nodes[p];
    && node.power == p && node.depth <= p - 1 && node.p1 + node.p2 == p && node.p1 > 0 && node.p2 > 0
    && (forall s1: nat :: Splits(target, p, s1) ==> node.depth <= DepthVia(nodes, p, s1))
    && (if exists s1: nat :: Splits(target, p, s1) then
         Splits(target, p, node.p1) && node.depth == DepthVia(nodes, p, node.p1)
       else
         node == PowersNode(p, p - 1, p - 1, 1))
    && Earliest(nodes, target, p, node.depth, node.p1)
  }

  /** Of several best choices the first guess is kept, else the smallest first parent is taken. */
  ghost predicate Earliest(nodes: map<nat, PowersNode>, target: seq<nat>, p: nat, depth: nat, p1: nat)
    requires 0 !in target && forall s :: s in target && s < p ==> s in nodes
  {
    if depth == p - 1 then p1 == p - 1
    else forall s1: nat :: Splits(target, p, s1) && depth == DepthVia(nodes, p, s1) ==> p1 <= s1
  }

  /** What `configure` leaves for the powers below `bound`. */
  ghost predicate PlannedBelow(nodes: map<nat, PowersNode>, source: seq<nat>, target: seq<nat>, bound: nat) {
    && 0 !in target
    && (forall p :: p in source ==> p in nodes && nodes[p] == PowersNode(p, 0, 0, 0))
    && (forall p :: p in target && p < bound ==> p in nodes)
    && forall p :: p in target && p < bound && p !in source ==> Best(nodes, target, p)
  }

  /** An arbitrary choice of parents for every power that is not given. */
  type Choice = map<nat, (nat, nat)>

  ghost predicate Valid(choice: Choice, source: seq<nat>, target: seq<nat>) {
    forall p: nat :: p in target && p !in source ==>
      && p in choice && choice[p].0 + choice[p].1 == p
      && choice[p].0 in target && choice[p].1 in target && 0 < choice[p].0 < p && 0 < choice[p].1 < p
  }

  /** Depth of the circuit for `p` under a choice of parents. */
  ghost function Depth(choice: Choice, source: seq<nat>, target: seq<nat>, p: nat): nat
    requires Valid(choice, source, target) && p in target
    decreases p
  {
    if p in source then 0
    else Max(Depth(choice, source, target, choice[p].0), Depth(choice, source, target, choice[p].1)) + 1
  }

  /** The parents recorded in the nodes. */
  ghost function Recorded(nodes: map<nat, PowersNode>): Choice {
    map p | p in nodes :: (nodes[p].p1, nodes[p].p2)
  }

  /** The finished plan. */
  ghost predicate Planned(nodes: map<nat, PowersNode>, source: seq<nat>, target: seq<nat>) {
    forall bound :: PlannedBelow(nodes, source, target, bound)
  }

  /** Every power that is not given has two targets as parents, which add up to it. */
  ghost predicate Usable(nodes: map<nat, PowersNode>, source: seq<nat>, target: seq<nat>) {
    forall p: nat :: p in target && p !in source ==>
      p in nodes && nodes[p].p1 in target && nodes[p].p2 in target && nodes[p].p1 + nodes[p].p2 == p
  }

  lemma PlannedMeans(nodes: map<nat, PowersNode>, source: seq<nat>, target: seq<nat>, p: nat)
    requires Acceptable(source, target) && Planned(nodes, source, target) && p in target
    ensures p in nodes && nodes[p].power == p
    ensures p in source ==> nodes[p] == PowersNode(p, 0, 0, 0)
    ensures p !in source ==> (forall s :: s in target && s < p ==> s in nodes) && Best(nodes, target, p)
  {
    assert PlannedBelow(nodes, source, target, p + 1);
  }

  /** A plan can be carried out exactly when every power that is not given is a sum of two targets. */
  lemma UsableIff(nodes: map<nat, PowersNode>, source: seq<nat>, target: seq<nat>)
    requires Acceptable(source, target) && Planned(nodes, source, target)
    ensures Usable(nodes, source, target) <==> Decomposable(source, target)
  {
    forall p: nat | p in target && p !in source
      ensures (p in nodes && nodes[p].p1 in target && nodes[p].p2 in target && nodes[p].p1 + nodes[p].p2 == p)
        <==> exists s1 :: Splits(target, p, s1)
    {
      PlannedMeans(nodes, source, target, p);
      if nodes[p].p1 in target && nodes[p].p2 in target {
        assert Splits(target, p, nodes[p].p1);
      }
    }
  }

  /** The recorded parents are a choice, and the recorded depths are the depths it gives. */
  lemma {:induction false} RecordedDepth(nodes: map<nat, PowersNode>, source: seq<nat>, target: seq<nat>, p: nat)
    requires Acceptable(source, target) && Planned(nodes, source, target) && Usable(nodes, source, target)
    requires p in target
    ensures Valid(Recorded(nodes), source, target)
    ensures p in nodes && nodes[p].depth == Depth(Recorded(nodes), source, target, p)
    decreases p
  {
    forall q: nat | q in target && q !in source
      ensures q in nodes && nodes[q].p1 > 0 && nodes[q].p2 > 0
    {
      PlannedMeans(nodes, source, target, q);
    }
    PlannedMeans(nodes, source, target, p);
    if p !in source {
      var node := nodes[p];
      assert Splits(target, p, node.p1);
      RecordedDepth(nodes, source, target, node.p1);
      RecordedDepth(nodes, source, target, node.p2);
    }
  }

  lemma AtMostVia(nodes: map<nat, PowersNode>, target: seq<nat>, p: nat, s1: nat)
    requires 0 !in target && p in nodes && (forall s :: s in target && s < p ==> s in nodes) && Best(nodes, target, p)
    requires s1 in target && 0 < s1 < p && p - s1 in target
    ensures s1 in nodes && p - s1 in nodes && nodes[p].depth <= Max(nodes[s1].depth, nodes[p - s1].depth) + 1
  {
    assert Splits(target, p, s1);
  }

  /** Depth-optimality: no choice of parents gives any power a smaller depth. */
  lemma {:induction false} NoChoiceIsShallower(nodes: map<nat, PowersNode>, source: seq<nat>, target: seq<nat>,
          choice: Choice, p: nat)
    requires Acceptable(source, target) && Planned(nodes, source, target)
    requires Valid(choice, source, target) && p in target
    ensures p in nodes && nodes[p].depth <= Depth(choice, source, target, p)
    decreases p
  {
    hide Planned, Best;
    PlannedMeans(nodes, source, target, p);
    if p in source {
      assert Depth(choice, source, target, p) == 0;
    } else {
      var s1, s2 := choice[p].0, choice[p].1;
      AtMostVia(nodes, target, p, s1);
      NoChoiceIsShallower(nodes, source, target, choice, s1);
      NoChoiceIsShallower(nodes, source, target, choice, s2);
    }
  }

  /**
   * `configure` accepts targets it has no way to reach: with source {1} and targets {1, 5}, 5 is
   * left with parents 4 and 1.
   */
  lemma UnreachableTargetAccepted(nodes: map<nat, PowersNode>)
    requires Planned(nodes, [1], [1, 5])
    ensures Acceptable([1], [1, 5]) && !Decomposable([1], [1, 5])
    ensures 5 in nodes && nodes[5] == PowersNode(5, 4, 4, 1) && !Usable(nodes, [1], [1, 5])
  {
    var source, target: seq<nat> := [1], [1, 5];
    PlannedMeans(nodes, source, target, 5);
    forall s1: nat
      ensures !Splits(target, 5, s1)
    {
    }
    assert 5 in target && 5 !in source;
    UsableIff(nodes, source, target);
  }

  lemma SameVia(a: map<nat, PowersNode>, b: map<nat, PowersNode>, p: nat, s1: nat)
    requires s1 < p && s1 in a && p - s1 in a && s1 in b && p - s1 in b
    requires a[s1] == b[s1] && a[p - s1] == b[p - s1]
    ensures DepthVia(a, p, s1) == DepthVia(b, p, s1)
  {
  }

  /** The two best choices for a power are the same when all lower nodes are. */
  lemma SameBest(a: map<nat, PowersNode>, b: map<nat, PowersNode>, target: seq<nat>, p: nat)
    requires 0 !in target && p in a && p in b
    requires forall s :: s in target && s < p ==> s in a && s in b && a[s] == b[s]
    requires Best(a, target, p) && Best(b, target, p)
    ensures a[p] == b[p]
  {
    hide DepthVia;
    forall s1: nat | Splits(target, p, s1)
      ensures 0 < s1 < p && s1 in a && p - s1 in a && s1 in b && p - s1 in b
      ensures DepthVia(a, p, s1) == DepthVia(b, p, s1)
    {
      SameVia(a, b, p, s1);
    }
    if exists s1: nat :: Splits(target, p, s1) {
      assert Splits(target, p, a[p].p1) && Splits(target, p, b[p].p1);
    }
  }

  /** The plan is determined by its sources and targets, ties included. */
  lemma {:induction false} OnePlan(a: map<nat, PowersNode>, b: map<nat, PowersNode>, source: seq<nat>,
          target: seq<nat>, p: nat)
    requires Acceptable(source, target) && Planned(a, source, target) && Planned(b, source, target) && p in target
    ensures p in a && p in b && a[p] == b[p]
    decreases p
  {
    hide Planned, Best, Acceptable;
    PlannedMeans(a, source, target, p);
    PlannedMeans(b, source, target, p);
    if p in source {
    } else {
      forall s | s in target && s < p
        ensures s in a && s in b && a[s] == b[s]
      {
        OnePlan(a, b, source, target, s);
      }
      NoZero(source, target);
      SameBest(a, b, target, p);
    }
  }

  lemma NoZero(source: seq<nat>, target: seq<nat>)
    requires Acceptable(source, target)
    ensures 0 !in target
  {
  }
}

/** The class that builds a plan, and the set of powers that the protocol asks it for. */
module PowersDags {
  import opened Division
  import opened PowersPlan

  /** The logic errors thrown on an unconfigured object. */
  datatype Result<T> = NotConfigured | Success(value: T)

  class PowersDag {
    var nodes: map<nat, PowersNode>
    var configured: bool
    var targetPowers: seq<nat>
    var depth: nat
    var sourceCount: nat

    constructor ()
      ensures !configured && nodes == map[] && targetPowers == [] && depth == 0 && sourceCount == 0
    {
      nodes, configured, targetPowers, depth, sourceCount := map[], false, [], 0, 0;
    }

    /** `reset`: forgets everything but the nodes. */
    method Reset()
      modifies this
      ensures nodes == old(nodes) && !configured && targetPowers == [] && depth == 0 && sourceCount == 0
    {
      targetPowers, depth, sourceCount, configured := [], 0, 0, false;
    }

    /** `configure`. */
    method Configure(source: seq<nat>, target: seq<nat>) returns (ok: bool)
      requires Ascending(source) && Ascending(target)
      modifies this
      ensures ok <==> Acceptable(source, target)
      ensures configured <==> ok
      ensures !ok ==> nodes == old(nodes) && targetPowers == []
      ensures ok ==> targetPowers == target && sourceCount == |source| && Planned(nodes, source, target)
      ensures ok ==> Deepest(nodes, target, depth)
      ensures ok ==> SameOutside(old(nodes), nodes, target)
    {
      hide PlannedBelow, Best, Planned, Deepest, Given, SameOutside, Ascending;
      Reset();
      SameAsBefore(nodes, target);
      GivenNone(nodes);
      if 0 in source || 1 !in source {
        return false;
      }
      if 0 in target || 1 !in target {
        return false;
      }
      if exists s :: s in source && s !in target {
        return false;
      }
      for i := 0 to |source|
        invariant !configured && targetPowers == []
        invariant Given(nodes, source[..i])
        invariant SameOutside(old(nodes), nodes, target)
      {
        GivenNext(nodes, source, i);
        OutsidePut(old(nodes), nodes, target, source[i], PowersNode(source[i], 0, 0, 0));
        nodes := nodes[source[i] := PowersNode(source[i], 0, 0, 0)];
      }
      assert source[..|source|] == source && target[..0] == [];
      GivenBelow(nodes, source, target);
      var currDepth := 0;
      for i := 0 to |target|
        invariant !configured && targetPowers == []
        invariant PlannedBelow(nodes, source, target, Before(target, i))
        invariant Deepest(nodes, target[..i], currDepth)
        invariant SameOutside(old(nodes), nodes, target)
      {
        var currPower := target[i];
        if currPower in source {
          SourceDone(nodes, source, target, i, currDepth);
          continue;
        }
        var node := OptimalNode(source, target, currPower);
        NodeDone(nodes, source, target, i, currDepth, node);
        OutsidePut(old(nodes), nodes, target, currPower, node);
        nodes := nodes[currPower := node];
        currDepth := Max(currDepth, node.depth);
      }
      configured, targetPowers, depth, sourceCount := true, target, currDepth, |source|;
      BelowEnd(nodes, source, target);
      assert target[..|target|] == target;
      return true;
    }

    /** The best two parents for `currPower`, all lower powers being planned. */
    method OptimalNode(source: seq<nat>, target: seq<nat>, currPower: nat) returns (node: PowersNode)
      requires Ascending(target) && Acceptable(source, target) && currPower in target && currPower !in source
      requires PlannedBelow(nodes, source, target, currPower)
      ensures Best(nodes[currPower := node], target, currPower)
    {
      hide PlannedBelow, Best, EarliestSoFar, Earliest;
      PlannedLower(nodes, source, target, currPower);
      EarliestStart(nodes, target, currPower);
      ghost var upto := |target|;
      var optimalDepth: nat, optimalS1: nat, optimalS2: nat := currPower - 1, currPower - 1, 1;
      for i := 0 to |target|
        invariant optimalDepth <= currPower - 1 && optimalS1 + optimalS2 == currPower && optimalS1 > 0 && optimalS2 > 0
        invariant if Chosen(nodes, target, currPower, optimalDepth, optimalS1) then true
                  else (optimalDepth, optimalS1, optimalS2) == (currPower - 1, currPower - 1, 1)
        invariant upto == |target| && EarliestSoFar(nodes, target, currPower, i, optimalDepth, optimalS1)
      {
        var s1 := target[i];
        if s1 >= currPower {
          upto := i;
          break;
        }
        EarliestNext(nodes, target, currPower, i, optimalDepth, optimalS1);
        var s2 := currPower - s1;
        if s2 !in target {
          continue;
        }
        var depth := Max(nodes[s1].depth, nodes[s2].depth) + 1;
        if depth < optimalDepth {
          optimalDepth, optimalS1, optimalS2 := depth, s1, s2;
        }
      }
      EarliestEnd(nodes, target, currPower, upto, optimalDepth, optimalS1);
      node := PowersNode(currPower, optimalDepth, optimalS1, optimalS2);
      BestFound(nodes, source, target, currPower, node);
    }

    /** `source_nodes`: every node without parents, in no particular order. */
    method SourceNodes() returns (result: Result<seq<PowersNode>>)
      ensures result.NotConfigured? <==> !configured
      ensures configured ==>
          forall node :: node in result.value <==> exists p :: p in nodes && nodes[p] == node && node.IsSource()
    {
      if !configured {
        return NotConfigured;
      }
      var found: seq<PowersNode> := [];
      var todo := nodes.Keys;
      while todo != {}
        invariant todo <= nodes.Keys
        invariant forall node :: node in found <==>
            exists p :: p in nodes && p !in todo && nodes[p] == node && node.IsSource()
        decreases |todo|
      {
        var p :| p in todo;
        if nodes[p].p1 == 0 && nodes[p].p2 == 0 {
          found := found + [nodes[p]];
        }
        todo := todo - {p};
      }
      return Success(found);
    }
  }

  function Before(target: seq<nat>, i: nat): nat
    requires i <= |target|
  {
    if i < |target| then target[i] else if i == 0 then 0 else target[i - 1] + 1
  }

  ghost predicate Deepest(nodes: map<nat, PowersNode>, powers: seq<nat>, depth: nat) {
    && (forall p :: p in powers ==> p in nodes && nodes[p].depth <= depth)
    && (depth == 0 || exists p :: p in powers && p in nodes && nodes[p].depth == depth)
  }

  /** The given powers have their nodes. */
  ghost predicate Given(nodes: map<nat, PowersNode>, powers: seq<nat>) {
    forall p :: p in powers ==> p in nodes && nodes[p] == PowersNode(p, 0, 0, 0)
  }

  ghost predicate SameOutside(before: map<nat, PowersNode>, nodes: map<nat, PowersNode>, target: seq<nat>) {
    forall p :: p !in target ==> (p in nodes <==> p in before) && (p in nodes ==> nodes[p] == before[p])
  }

  lemma SameAsBefore(nodes: map<nat, PowersNode>, target: seq<nat>)
    ensures SameOutside(nodes, nodes, target)
  {
  }

  lemma OutsidePut(before: map<nat, PowersNode>, nodes: map<nat, PowersNode>, target: seq<nat>, p: nat,
          node: PowersNode)
    requires SameOutside(before, nodes, target) && p in target
    ensures SameOutside(before, nodes[p := node], target)
  {
  }

  lemma GivenNone(nodes: map<nat, PowersNode>)
    ensures Given(nodes, [])
  {
  }

  lemma GivenNext(nodes: map<nat, PowersNode>, source: seq<nat>, i: nat)
    requires i < |source| && Given(nodes, source[..i])
    ensures Given(nodes[source[i] := PowersNode(source[i], 0, 0, 0)], source[..i + 1])
  {
  }

  lemma GivenBelow(nodes: map<nat, PowersNode>, source: seq<nat>, target: seq<nat>)
    requires Ascending(target) && 0 !in target && Given(nodes, source)
    ensures PlannedBelow(nodes, source, target, Before(target, 0)) && Deepest(nodes, [], 0)
  {
  }

  ghost predicate Chosen(nodes: map<nat, PowersNode>, target: seq<nat>, p: nat, depth: nat, s1: nat) {
    Splits(target, p, s1) && s1 in nodes && p - s1 in nodes && s1 < p && depth == DepthVia(nodes, p, s1)
  }

  /** Among the first `i` targets: nothing beats the choice, and of equal ones it is the first. */
  ghost predicate EarliestSoFar(nodes: map<nat, PowersNode>, target: seq<nat>, p: nat, i: nat, depth: nat, p1: nat)
    requires 0 !in target && i <= |target| && forall s :: s in target && s < p ==> s in nodes
  {
    && depth <= p - 1 && (depth == p - 1 ==> p1 == p - 1)
    && (depth < p - 1 ==> p1 in target[..i])
    && forall s1: nat :: s1 in target[..i] && Splits(target, p, s1) ==>
        depth <= DepthVia(nodes, p, s1) && (depth == DepthVia(nodes, p, s1) < p - 1 ==> p1 <= s1)
  }

  lemma EarliestStart(nodes: map<nat, PowersNode>, target: seq<nat>, p: nat)
    requires p > 0 && 0 !in target && forall s :: s in target && s < p ==> s in nodes
    ensures EarliestSoFar(nodes, target, p, 0, p - 1, p - 1)
  {
  }

  lemma EarliestNext(nodes: map<nat, PowersNode>, target: seq<nat>, p: nat, i: nat, depth: nat, p1: nat)
    requires Ascending(target) && 0 !in target && i < |target| && forall s :: s in target && s < p ==> s in nodes
    requires target[i] < p && EarliestSoFar(nodes, target, p, i, depth, p1)
    ensures var s1 := target[i];
      if p - s1 in target && s1 in nodes && p - s1 in nodes && DepthVia(nodes, p, s1) < depth then
        EarliestSoFar(nodes, target, p, i + 1, DepthVia(nodes, p, s1), s1)
      else EarliestSoFar(nodes, target, p, i + 1, depth, p1)
  {
    hide DepthVia;
    assert target[..i + 1] == target[..i] + [target[i]];
    assert target[i] in target;
  }

  lemma EarliestEnd(nodes: map<nat, PowersNode>, target: seq<nat>, p: nat, i: nat, depth: nat, p1: nat)
    requires Ascending(target) && 0 !in target && i <= |target| && forall s :: s in target && s < p ==> s in nodes
    requires i < |target| ==> target[i] >= p
    requires EarliestSoFar(nodes, target, p, i, depth, p1)
    ensures Earliest(nodes, target, p, depth, p1)
    ensures forall s1: nat :: s1 in nodes && p - s1 in nodes && Splits(target, p, s1) ==>
        depth <= DepthVia(nodes, p, s1)
  {
    hide DepthVia;
    forall s1: nat | Splits(target, p, s1)
      ensures s1 in target[..i]
    {
      var j :| 0 <= j < |target| && target[j] == s1;
      assert j < i;
    }
  }

  lemma PlannedLower(nodes: map<nat, PowersNode>, source: seq<nat>, target: seq<nat>, p: nat)
    requires Acceptable(source, target) && PlannedBelow(nodes, source, target, p)
    ensures forall s :: s in target && s < p ==> s > 0 && s in nodes && nodes[s].depth <= s - 1
    ensures 1 in target && p in target && p !in source ==> p >= 2 && 1 in nodes && nodes[1].depth == 0
  {
  }

  /** The best of all splits is found, and the unchecked first guess is only kept where it is sound. */
  lemma BestFound(nodes: map<nat, PowersNode>, source: seq<nat>, target: seq<nat>, p: nat, node: PowersNode)
    requires Acceptable(source, target) && PlannedBelow(nodes, source, target, p) && p in target && p !in source
    requires node.power == p && node.depth <= p - 1 && node.p1 + node.p2 == p && node.p1 > 0 && node.p2 > 0
    requires Chosen(nodes, target, p, node.depth, node.p1) || node == PowersNode(p, p - 1, p - 1, 1)
    requires forall s1: nat :: s1 in nodes && p - s1 in nodes && Splits(target, p, s1) ==>
        node.depth <= DepthVia(nodes, p, s1)
    requires 0 !in target && (forall s :: s in target && s < p ==> s in nodes) &&
        Earliest(nodes, target, p, node.depth, node.p1)
    ensures forall s :: s in target && s < p ==> s in nodes
    ensures Best(nodes[p := node], target, p)
  {
    PlannedLower(nodes, source, target, p);
    hide PlannedBelow, Best, Splits, Chosen, DepthVia, Acceptable, Earliest;
    forall s1: nat | Splits(target, p, s1)
      ensures Chosen(nodes, target, p, node.depth, node.p1)
    {
      SplitParts(target, p, s1);
      SeedSound(nodes, target, p, s1, node);
    }
    BestPut(nodes, target, p, node);
  }

  lemma SplitParts(target: seq<nat>, p: nat, s1: nat)
    requires 0 !in target && Splits(target, p, s1)
    ensures s1 in target && 0 < s1 < p && 0 < p - s1 < p && p - s1 in target
  {
  }

  lemma BestPut(nodes: map<nat, PowersNode>, target: seq<nat>, p: nat, node: PowersNode)
    requires 0 !in target && forall s :: s in target && s < p ==> s in nodes
    requires node.power == p && node.depth <= p - 1 && node.p1 + node.p2 == p && node.p1 > 0 && node.p2 > 0
    requires forall s1: nat :: s1 in nodes && p - s1 in nodes && Splits(target, p, s1) ==>
        node.depth <= DepthVia(nodes, p, s1)
    requires (exists s1: nat :: Splits(target, p, s1)) ==> Chosen(nodes, target, p, node.depth, node.p1)
    requires (exists s1: nat :: Splits(target, p, s1)) || node == PowersNode(p, p - 1, p - 1, 1)
    requires Earliest(nodes, target, p, node.depth, node.p1)
    ensures Best(nodes[p := node], target, p)
  {
    EarliestKept(nodes, target, p, p, node.depth, node.p1, node);
  }

  /** Which choice comes first depends on lower nodes alone. */
  lemma EarliestKept(nodes: map<nat, PowersNode>, target: seq<nat>, p: nat, q: nat, depth: nat, p1: nat,
          node: PowersNode)
    requires 0 !in target && q >= p && (forall s :: s in target && s < p ==> s in nodes)
    requires Earliest(nodes, target, p, depth, p1)
    ensures Earliest(nodes[q := node], target, p, depth, p1)
  {
    forall s1: nat | Splits(target, p, s1)
      ensures s1 < p && s1 in nodes && p - s1 in nodes && DepthVia(nodes[q := node], p, s1) == DepthVia(nodes, p, s1)
    {
    }
  }

  /** If a split exists at all and none beats the first guess, then the first guess is such a split. */
  lemma SeedSound(nodes: map<nat, PowersNode>, target: seq<nat>, p: nat, s1: nat, node: PowersNode)
    requires 0 !in target && 1 in target && 1 in nodes && nodes[1].depth == 0
    requires forall s :: s in target && s < p ==> s > 0 && s in nodes && nodes[s].depth <= s - 1
    requires Splits(target, p, s1) && node.depth <= DepthVia(nodes, p, s1)
    requires Chosen(nodes, target, p, node.depth, node.p1) || node == PowersNode(p, p - 1, p - 1, 1)
    ensures Chosen(nodes, target, p, node.depth, node.p1)
  {
    var s2 := p - s1;
    assert nodes[s1].depth <= s1 - 1 && nodes[s2].depth <= s2 - 1;
  }

  lemma BestKept(nodes: map<nat, PowersNode>, target: seq<nat>, p: nat, q: nat, node: PowersNode)
    requires 0 !in target && q in target && p < q && p in nodes && (forall s :: s in target && s < p ==> s in nodes)
    requires Best(nodes, target, p)
    ensures Best(nodes[q := node], target, p)
  {
    hide Earliest;
    EarliestKept(nodes, target, p, q, nodes[p].depth, nodes[p].p1, node);
  }

  lemma SourceDone(nodes: map<nat, PowersNode>, source: seq<nat>, target: seq<nat>, i: nat, depth: nat)
    requires Ascending(target) && i < |target| && target[i] in source
    requires PlannedBelow(nodes, source, target, target[i]) && Deepest(nodes, target[..i], depth)
    ensures PlannedBelow(nodes, source, target, Before(target, i + 1)) && Deepest(nodes, target[..i + 1], depth)
  {
    hide Best;
    assert target[..i + 1] == target[..i] + [target[i]];
    forall p | p in target && p < Before(target, i + 1)
      ensures p < target[i] || p == target[i]
    {
    }
  }

  lemma NodeDone(nodes: map<nat, PowersNode>, source: seq<nat>, target: seq<nat>, i: nat, depth: nat, node: PowersNode)
    requires Ascending(target) && Acceptable(source, target) && i < |target| && target[i] !in source
    requires PlannedBelow(nodes, source, target, target[i]) && Deepest(nodes, target[..i], depth)
    requires Best(nodes[target[i] := node], target, target[i])
    ensures var nodes' := nodes[target[i] := node];
      PlannedBelow(nodes', source, target, Before(target, i + 1)) &&
        Deepest(nodes', target[..i + 1], Max(depth, node.depth))
  {
    hide Best;
    assert target[..i + 1] == target[..i] + [target[i]];
    var nodes' := nodes[target[i] := node];
    forall p | p in target && p < Before(target, i + 1)
      ensures p < target[i] || p == target[i]
    {
    }
    forall p | p in target && p < Before(target, i + 1) && p !in source
      ensures p in nodes' && (forall s :: s in target && s < p ==> s in nodes') && Best(nodes', target, p)
    {
      if p < target[i] {
        BestKept(nodes, target, p, target[i], node);
      }
    }
    if depth >= node.depth && depth > 0 {
      var p :| p in target[..i] && p in nodes && nodes[p].depth == depth;
      assert p in target[..i + 1] && p in nodes' && nodes'[p].depth == depth;
    } else {
      assert target[i] in target[..i + 1];
    }
  }

  lemma BelowEnd(nodes: map<nat, PowersNode>, source: seq<nat>, target: seq<nat>)
    requires Ascending(target) && PlannedBelow(nodes, source, target, Before(target, |target|))
    ensures Planned(nodes, source, target)
  {
    forall p | p in target
      ensures p < Before(target, |target|)
    {
    }
  }

  /**
   * The powers of the source nodes: the sources just configured and whatever source nodes an
   * earlier plan left outside the target.
   */
  ghost function SourcePowers(nodes: map<nat, PowersNode>): set<nat> {
    set p | p in nodes && nodes[p].IsSource()
  }

  /**
   * `source_nodes` reports exactly the given powers if and only if no earlier plan left a source
   * node outside the new target.
   */
  lemma SourceNodesAreSources(before: map<nat, PowersNode>, nodes: map<nat, PowersNode>, source: seq<nat>,
          target: seq<nat>)
    requires Acceptable(source, target) && Planned(nodes, source, target) && SameOutside(before, nodes, target)
    ensures SourcePowers(nodes) == (set p | p in source) <==> forall p :: p in before && p !in target ==>
        !before[p].IsSource()
  {
    hide Planned;
    forall p | p in target
      ensures p in nodes && (nodes[p].IsSource() <==> p in source)
    {
      PlannedMeans(nodes, source, target, p);
    }
    if forall p :: p in before && p !in target ==> !before[p].IsSource() {
      assert forall p :: p in SourcePowers(nodes) ==> p in target;
      assert SourcePowers(nodes) == set p | p in source;
    } else {
      var p :| p in before && p !in target && before[p].IsSource();
      assert p in SourcePowers(nodes) && p !in source;
    }
  }

  /** After an earlier plan with source 3, a plan for targets 1 and 2 still reports 3 as a source. */
  lemma StaleSourceReported(nodes: map<nat, PowersNode>)
    requires Planned(nodes, [1], [1, 2]) && SameOutside(map[1 := PowersNode(1, 0, 0, 0), 3 := PowersNode(3, 0, 0, 0)],
        nodes, [1, 2])
    ensures 3 in SourcePowers(nodes) && SourcePowers(nodes) != (set p | p in [1])
  {
    hide Planned;
    assert 3 !in [1, 2] && 3 !in [1];
  }

  /** The powers that evaluation reads: all up to the degree, or the low ones and the multiples of `low + 1`. */
  predicate Needed(low: nat, degree: nat, p: nat) {
    if low == 0 then 1 <= p <= degree
    else 1 <= p <= low || (low < p <= degree && p % (low + 1) == 0)
  }

  lemma AscendingAppend(s: seq<nat>, x: nat)
    requires Ascending(s) && forall p :: p in s ==> p < x
    ensures Ascending(s + [x])
  {
    assert forall i :: 0 <= i < |s| ==> s[i] in s;
  }

  datatype PowersSet = InvalidArgument | Powers(powers: seq<nat>)

  /** `create_powers_set`. */
  method CreatePowersSet(psLowDegree: nat, targetDegree: nat) returns (r: PowersSet)
    ensures r.InvalidArgument? <==> psLowDegree > targetDegree || targetDegree == 0
    ensures r.Powers? ==>
        Ascending(r.powers) && forall p: nat :: p in r.powers <==> Needed(psLowDegree, targetDegree, p)
  {
    if psLowDegree > targetDegree {
      return InvalidArgument;
    }
    if targetDegree == 0 {
      return InvalidArgument;
    }
    var result: seq<nat> := [];
    if psLowDegree != 0 {
      var power := 1;
      while power <= psLowDegree
        invariant 1 <= power <= psLowDegree + 1
        invariant Ascending(result) && forall p: nat :: p in result <==> 1 <= p < power
      {
        AscendingAppend(result, power);
        result := result + [power];
        power := power + 1;
      }
      var first := psLowDegree + 1;
      var last := (targetDegree / first) * first;
      power := first;
      ghost var k := 1;
      LastMultiple(first, targetDegree);
      while power <= last
        invariant power == k * first && k >= 1 && last == (targetDegree / first) * first && power - first <= last
        invariant power >= first
        invariant Ascending(result)
        invariant forall p: nat :: p in result <==> 1 <= p <= psLowDegree || (first <= p < power && p % first == 0)
      {
        NextMultiple(first, k);
        AscendingAppend(result, power);
        result := result + [power];
        power := power + first;
        k := k + 1;
      }
      AllMultiples(first, k, targetDegree);
    } else {
      var power := 1;
      while power <= targetDegree
        invariant 1 <= power <= targetDegree + 1
        invariant Ascending(result) && forall p: nat :: p in result <==> 1 <= p < power
      {
        AscendingAppend(result, power);
        result := result + [power];
        power := power + 1;
      }
    }
    return Powers(result);
  }

  /** Between two neighbouring multiples there is no other. */
  lemma NextMultiple(first: nat, k: nat)
    requires first > 0
    ensures (k + 1) * first == k * first + first && (k * first) % first == 0
    ensures forall p: nat :: k * first < p < k * first + first ==> p % first != 0
  {
    assert (k + 1) * first == k * first + first;
    Remainder(first, k, 0);
    forall p: nat | k * first < p < k * first + first
      ensures p % first != 0
    {
      Remainder(first, k, p - k * first);
    }
  }

  lemma MultipleFits(q: nat, last: nat, k: nat, first: nat, degree: nat)
    requires first > 0 && last * first <= degree < last * first + first
    requires k * first - first <= last * first < k * first
    ensures q * first <= degree <==> q * first < k * first
  {
    assert (last + 1) * first == last * first + first;
    TimesOrder(last, k, first);
    TimesOrder(last + 1, k, first);
    TimesOrder(last, q, first);
    MulMono(k, q, first);
  }

  lemma AllMultiples(first: nat, k: nat, degree: nat)
    requires first > 0 && k * first - first <= (degree / first) * first < k * first
    ensures forall p: nat :: p % first == 0 ==> (p <= degree <==> p < k * first)
  {
    LastMultiple(first, degree);
    var last := degree / first;
    forall p: nat | p % first == 0
      ensures p <= degree <==> p < k * first
    {
      RemainderBelow(p, first);
      MultipleFits(p / first, last, k, first, degree);
    }
  }

  /** What `initialize` demands of the query powers. */
  predicate QueryPowersAccepted(source: seq<nat>, low: nat, degree: nat) {
    && degree > 0 && low <= degree
    && 0 !in source && 1 in source
    && forall p :: p in source ==> p <= degree && (p > low ==> p % (low + 1) == 0)
  }

  /** Every parameter set that `initialize` accepts gives `configure` a target it can plan completely. */
  lemma ParametersPlan(source: seq<nat>, low: nat, degree: nat, target: seq<nat>)
    requires QueryPowersAccepted(source, low, degree) && forall p: nat :: p in target <==> Needed(low, degree, p)
    ensures Acceptable(source, target) && Decomposable(source, target)
  {
    forall p: nat | p in target && p !in source
      ensures exists s1 :: Splits(target, p, s1)
    {
      if low != 0 && p > low + 1 {
        var q := p - (low + 1);
        MultipleBefore(low + 1, p);
        assert Needed(low, degree, q) && Needed(low, degree, low + 1);
        assert Splits(target, p, q);
      } else {
        assert Needed(low, degree, p - 1) && Needed(low, degree, 1);
        assert Splits(target, p, p - 1);
      }
    }
  }

  lemma MultipleBefore(first: nat, p: nat)
    requires first > 0 && p > first && p % first == 0
    ensures p - first >= first && (p - first) % first == 0 && first % first == 0
  {
    var k := p / first;
    assert p == k * first;
    MulMono(k, 1, first);
    assert p - first == (k - 1) * first;
    Remainder(first, k - 1, 0);
    MulMono(1, k - 1, first);
  }
}

/**
 * The answer for one bin bundle, slot by slot: where the query's value is in the bin, the result is
 * the random value that was added, and elsewhere it is another value.
 */
module BundleAnswer {
  import opened BundleResult
  import opened Ciphertexts
  import opened Division
  import opened InsertDispatch
  import opened MatchingPolynomial
  import opened PlaintextPowers
  import opened Placement
  import opened PolynomialEval
  import opened Primes
  import opened Residues
  import opened Rings
  import opened SlotVectors

  /** A polynomial of `n` coefficients, with zeros at the end. */
  function Padded(p: seq<nat>, n: nat): (r: seq<nat>)
    ensures |r| == n
  {
    seq(n, i requires 0 <= i < n => if i < |p| then p[i] else 0)
  }

  lemma {:induction false} PaddedAt(p: seq<nat>, n: nat, x: nat)
    requires |p| <= n
    ensures At(Padded(p, n), x) == At(p, x)
    decreases n
  {
    hide Exp;
    if n == |p| {
      assert Padded(p, n) == p;
    } else {
      PaddedAt(p, n - 1, x);
      assert Padded(p, n)[..n - 1] == Padded(p, n - 1);
    }
  }

  lemma {:induction false} NoLonger(polyns: seq<seq<nat>>, k: nat)
    requires k < |polyns|
    ensures |polyns[k]| <= Longest(polyns)
    decreases |polyns|
  {
    if k < |polyns| - 1 {
      NoLonger(polyns[..|polyns| - 1], k);
    }
  }

  lemma OneTerm(sum: nat, e: nat, c: nat, m: nat)
    requires m > 0
    ensures (sum % m + ((e % m) * (c % m)) % m) % m == (sum + c * e) % m
  {
    MulReduced(e, c % m, m);
    Commutes(e, c % m);
    MulReduced(c, e, m);
    AddReduced(sum, (c * e) % m, m);
    AddReduced(c * e, sum, m);
  }

  /** One slot of the polynomial over vectors is the polynomial of that slot's bin. */
  lemma {:induction false} TermsAtSlot(polyns: seq<seq<nat>>, a: seq<Slots>, x: Slots, k: nat, n: nat)
    requires k < |polyns| && k < SLOTS && n <= |a| && forall i :: 0 <= i < |a| ==> a[i] == Encode(Column(polyns, i))
    ensures Terms(SlotRing(), a, x, 0, n)[k] == At(Padded(polyns[k], n), x[k]) % MODULUS
  {
    hide Exp, Power, Column;
    if n == 0 {
    } else {
      TermsAtSlot(polyns, a, x, k, n - 1);
      var p := Padded(polyns[k], n);
      assert p[..n - 1] == Padded(polyns[k], n - 1);
      SlotPower(x, n - 1, k);
      ColumnAt(polyns, n - 1, k);
      OneTerm(At(p[..n - 1], x[k]), Exp(x[k], n - 1), p[n - 1], MODULUS);
    }
  }

  lemma ColumnAt(polyns: seq<seq<nat>>, i: nat, k: nat)
    requires k < |polyns| && k < SLOTS
    ensures Encode(Column(polyns, i))[k] == (if i < |polyns[k]| then polyns[k][i] else 0) % MODULUS
  {
  }

  /** The bins' polynomials. */
  ghost predicate Matching(bins: Bins, polyns: seq<seq<nat>>) {
    && |polyns| == |bins|
    && forall k :: 0 <= k < |bins| ==> MatchingAt(bins[k], polyns[k])
  }

  ghost predicate MatchingAt(bin: seq<Felt>, polyn: seq<nat>) {
    |polyn| == |bin| + 1 && forall x: nat :: Same(At(polyn, x), Factors(bin, x), MODULUS)
  }

  ghost predicate Reduced(bins: Bins) {
    forall k :: 0 <= k < |bins| ==> ReducedBin(bins[k])
  }

  ghost predicate ReducedBin(bin: seq<Felt>) {
    forall i :: 0 <= i < |bin| ==> bin[i] < MODULUS
  }

  /** `regen_polyns`: the matching polynomial of every bin. */
  method RegenPolyns(bins: Bins) returns (polyns: seq<seq<nat>>)
    requires Reduced(bins)
    ensures Matching(bins, polyns)
  {
    hide At, Factors, Same;
    polyns := [];
    for k := 0 to |bins|
      invariant |polyns| == k && forall j :: 0 <= j < k ==> MatchingAt(bins[j], polyns[j])
    {
      assert ReducedBin(bins[k]);
      var one := PolynWithRoots(bins[k], MODULUS);
      polyns := polyns + [one.coeffs];
    }
  }

  lemma {:induction false} LongerThan(polyns: seq<seq<nat>>, n: nat)
    ensures Longest(polyns) > n <==> exists k :: 0 <= k < |polyns| && |polyns[k]| > n
  {
    if polyns == [] {
    } else {
      var last := |polyns| - 1;
      LongerThan(polyns[..last], n);
      if k :| 0 <= k < |polyns| && |polyns[k]| > n {
        assert k == last || |polyns[..last][k]| > n;
      }
    }
  }

  /** Does any bin hold two items or more? */
  ghost predicate Crowded(bins: Bins) {
    exists k :: 0 <= k < |bins| && |bins[k]| >= 2
  }

  lemma CrowdedIs(bins: Bins, polyns: seq<seq<nat>>)
    requires Matching(bins, polyns)
    ensures Longest(polyns) > 2 <==> Crowded(bins)
  {
    hide At, Factors, Same;
    LongerThan(polyns, 2);
    assert forall k :: 0 <= k < |bins| ==> MatchingAt(bins[k], polyns[k]);
  }

  /** A bundle as insertion leaves it, on a plaintext's slots. */
  ghost predicate Stands(bins: Bins, maxItems: nat) {
    && |bins| <= SLOTS && Reduced(bins)
    && forall k :: 0 <= k < |bins| ==> |bins[k]| <= Bound(maxItems)
  }

  /** The result is the random value exactly where the query's value is in the bin. */
  ghost predicate Matches(bins: Bins, x: Slots, random: Slots, result: Slots) {
    forall k :: 0 <= k < |bins| && k < SLOTS ==> (result[k] == random[k] <==> x[k] in bins[k])
  }

  lemma SumIsRandom(value: nat, random: nat, m: nat)
    requires value < m && random < m
    ensures (value + random) % m == random <==> value == 0
  {
    Remainder(m, 0, random);
    if value + random < m {
      Remainder(m, 0, value + random);
    } else {
      Remainder(m, 1, value + random - m);
    }
  }

  lemma ResultMatches(bins: Bins, polyns: seq<seq<nat>>, a: seq<Slots>, x: Slots, random: Slots, result: Slots)
    requires Prime(MODULUS) && Matching(bins, polyns) && Reduced(bins) && Longest(polyns) <= |a|
    requires forall i :: 0 <= i < |a| ==> a[i] == Encode(Column(polyns, i))
    requires result == Add(Poly(SlotRing(), a, x), random)
    ensures Matches(bins, x, random, result)
  {
    hide Prime, Same, At, Factors, Column, Longest, Terms, SlotRing;
    forall k | 0 <= k < |bins| && k < SLOTS
      ensures result[k] == random[k] <==> x[k] in bins[k]
    {
      NoLonger(polyns, k);
      TermsAtSlot(polyns, a, x, k, |a|);
      PaddedAt(polyns[k], |a|, x[k]);
      assert MatchingAt(bins[k], polyns[k]) && ReducedBin(bins[k]);
      MatchIff(polyns[k], bins[k], x[k], MODULUS);
      SumIsRandom(At(polyns[k], x[k]) % MODULUS, random[k], MODULUS);
    }
  }

  /**
   * From a bundle's bins to its answer. With a low degree other than 1, or no bin of two items, it
   * succeeds, and the result differs from the random values exactly in the slots whose bin does not
   * hold the query's value. There are always enough powers: the check for them never fails.
   */
  method Answer(bins: Bins, powers: seq<Slot<Slots>>, random: Plaintext<Slots>, low: nat, maxItems: nat, top: nat,
          ghost x: Slots)
      returns (out: Outcome<Ciphertext<Slots>>)
    requires Prime(MODULUS) && Stands(bins, maxItems) && low <= maxItems && maxItems >= 1 && !random.ntt
    requires Prepared(SlotRing(), powers, low, maxItems, top, x)
    ensures out.Ok? <==> !(low == 1 && Crowded(bins))
    ensures out.Ok? ==> Matches(bins, x, random.value, out.value.value) && !out.value.ntt && out.value.level == 0
    ensures out != Fail(NotEnoughPowers) && out != Fail(BadLowDegree)
  {
    hide *;
    BundleStands(bins, maxItems);
    var polyns := RegenPolyns(bins);
    PolynsFit(bins, polyns, maxItems);
    var coeffs := BatchCoefficients(polyns, low, top, Encode);
    BatchedIs(polyns, coeffs, low, top);
    SlotsLawful();
    CrowdedIs(bins, polyns);
    out := ProcessBinBundleCache(SlotRing(), powers, coeffs, random, low, maxItems, top, x);
    if out.Ok? {
      RingAdds(Poly(SlotRing(), Values(coeffs), x), random.value);
      ResultMatches(bins, polyns, Values(coeffs), x, random.value, out.value.value);
    }
  }

  lemma BundleStands(bins: Bins, maxItems: nat)
    requires Stands(bins, maxItems)
    ensures |bins| <= SLOTS && Reduced(bins)
  {
  }

  lemma PolynsFit(bins: Bins, polyns: seq<seq<nat>>, maxItems: nat)
    requires Stands(bins, maxItems) && Matching(bins, polyns) && maxItems >= 1
    ensures Longest(polyns) <= maxItems + 1
  {
    hide At, Factors, Same, Reduced, Bound;
    assert forall k :: 0 <= k < |bins| ==> MatchingAt(bins[k], polyns[k]);
    EnoughPowers(bins, polyns, maxItems);
  }

  lemma BatchedIs(polyns: seq<seq<nat>>, coeffs: seq<Plaintext<Slots>>, low: nat, top: nat)
    requires |coeffs| == if Longest(polyns) == 0 then 1 else Longest(polyns)
    requires forall i :: 0 <= i < |coeffs| ==>
      coeffs[i] == Plaintext(Encode(Column(polyns, i)), CoefficientNtt(low, i), Chain(top, if low != 0 then 2 else 1))
    ensures Batched(coeffs, low, top)
    ensures forall i :: 0 <= i < |coeffs| ==> Values(coeffs)[i] == Encode(Column(polyns, i))
  {
    hide Encode, Column, Longest, CoefficientNtt, Chain;
  }

  lemma RingAdds(a: Slots, b: Slots)
    ensures SlotRing().add(a, b) == Add(a, b)
  {
  }
}

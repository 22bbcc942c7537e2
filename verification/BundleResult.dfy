/**
 * From the powers of the query to the result for one bin bundle: the forms in which powers and
 * coefficients are kept, and the choice of the evaluation method.
 */
module BundleResult {
  import opened Rings
  import opened Ciphertexts
  import opened PolynomialEval
  import opened PowersDags

  /** Coefficient `i` of every bin, 0 where the bin's polynomial is shorter. */
  function Column(polyns: seq<seq<nat>>, i: nat): (r: seq<nat>)
    ensures |r| == |polyns|
  {
    seq(|polyns|, k requires 0 <= k < |polyns| => if i < |polyns[k]| then polyns[k][i] else 0)
  }

  function Longest(polyns: seq<seq<nat>>): nat {
    if polyns == [] then 0
    else if |polyns[|polyns| - 1]| > Longest(polyns[..|polyns| - 1]) then |polyns[|polyns| - 1]|
    else Longest(polyns[..|polyns| - 1])
  }

  /** The form in which the coefficient of degree `i` is kept. */
  predicate CoefficientNtt(low: nat, i: nat) {
    (low == 0 && i != 0) || (low != 0 && i % (low + 1) != 0)
  }

  /** The constructor of `BatchedPlaintextPolyn`: one plaintext for each degree, over all bins. */
  method BatchCoefficients<T>(polyns: seq<seq<nat>>, low: nat, top: nat, encode: seq<nat> -> T)
          returns (coeffs: seq<Plaintext<T>>)
    ensures |coeffs| == if Longest(polyns) == 0 then 1 else Longest(polyns)
    ensures forall i :: 0 <= i < |coeffs| ==>
      coeffs[i] == Plaintext(encode(Column(polyns, i)), CoefficientNtt(low, i), Chain(top, if low != 0 then 2 else 1))
  {
    var maxDeg: nat := 0;
    for k := 0 to |polyns|
      invariant maxDeg + 1 == if Longest(polyns[..k]) == 0 then 1 else Longest(polyns[..k])
    {
      assert polyns[..k + 1][..k] == polyns[..k];
      maxDeg := (if |polyns[k]| > maxDeg + 1 then |polyns[k]| else maxDeg + 1) - 1;
    }
    assert polyns[..|polyns|] == polyns;
    var level := Chain(top, if low != 0 then 2 else 1);
    coeffs := [];
    for i := 0 to maxDeg + 1
      invariant |coeffs| == i
      invariant forall j :: 0 <= j < i ==>
        coeffs[j] == Plaintext(encode(Column(polyns, j)), CoefficientNtt(low, j), level)
    {
      var column: seq<nat> := [];
      for k := 0 to |polyns|
        invariant column == Column(polyns, i)[..k]
      {
        var coeff := 0;
        if i < |polyns[k]| {
          coeff := polyns[k][i];
        }
        column := column + [coeff];
      }
      assert column == Column(polyns, i);
      var ntt := (low == 0 && i != 0) || (low != 0 && i % (low + 1) != 0);
      coeffs := coeffs + [Plaintext(encode(column), ntt, level)];
    }
  }

  /** The form in which a power is kept: at low powers one level further up the chain, and in NTT form. */
  function KeptPower<T>(value: T, p: nat, low: nat, top: nat): Slot<T> {
    if low == 0 then Filled(Ciphertext(value, true, Chain(top, 1)))
    else if p <= low then Filled(Ciphertext(value, true, Chain(top, 2)))
    else Filled(Ciphertext(value, false, Chain(top, 1)))
  }

  /** The second half of `ComputePowers`: every computed power is brought into the form that evaluation reads. */
  method TransformPowers<T>(targets: seq<nat>, values: map<nat, T>, size: nat, low: nat, top: nat)
          returns (powers: seq<Slot<T>>)
    requires forall p :: p in targets ==> p in values && p < size
    ensures |powers| == size
    ensures forall p: nat :: p < size ==> powers[p] == if p in targets then KeptPower(values[p], p, low, top) else Empty
  {
    powers := seq(size, _ => Empty);
    for i := 0 to |targets|
      invariant |powers| == size
      invariant forall p: nat :: p < size ==> powers[p] == if p in targets[..i]
          then KeptPower(values[p], p, low, top) else Empty
    {
      var power: nat := targets[i];
      var computed := Ciphertext(values[power], false, top);
      if low == 0 {
        var switched := ModSwitchTo(computed, Chain(top, 1)).Extract();
        powers := powers[power := Filled(ToNtt(switched).Extract())];
      } else if power <= low {
        var switched := ModSwitchTo(computed, Chain(top, 2)).Extract();
        powers := powers[power := Filled(ToNtt(switched).Extract())];
      } else {
        powers := powers[power := Filled(ModSwitchTo(computed, Chain(top, 1)).Extract())];
      }
    }
  }

  /** Powers of `x` for one bundle index, as `ComputePowers` leaves them, for bins of at most `maxItems` items. */
  ghost predicate Prepared<T>(r: Ring<T>, powers: seq<Slot<T>>, low: nat, maxItems: nat, top: nat, x: T) {
    && |powers| == maxItems + 1
    && forall p: nat :: p < |powers| ==>
        powers[p] == if Needed(low, maxItems, p) then KeptPower(Power(r, x, p), p, low, top) else Empty
  }

  /** Coefficients as the constructor leaves them. */
  ghost predicate Batched<T>(coeffs: seq<Plaintext<T>>, low: nat, top: nat) {
    && |coeffs| > 0
    && forall i :: 0 <= i < |coeffs| ==>
      coeffs[i].ntt == CoefficientNtt(low, i) && coeffs[i].level == Chain(top, if low != 0 then 2 else 1)
  }

  /** With Paterson-Stockmeyer, everything that is read has the right form. */
  lemma PatstockIsGood<T(!new)>(r: Ring<T>, powers: seq<Slot<T>>, coeffs: seq<Plaintext<T>>, random: Plaintext<T>,
                                low: nat, maxItems: nat, top: nat, x: T)
    requires Prepared(r, powers, low, maxItems, top, x) && Batched(coeffs, low, top) && !random.ntt
    requires 1 < low < |coeffs| - 1 && |coeffs| <= maxItems + 1
    ensures Good(r, powers, coeffs, random, low, Chain(top, 2), Chain(top, 1), x)
  {
    hide Power;
    forall p: nat | p < |powers| && Needed(low, maxItems, p)
      ensures Holds(r, powers, x, p)
      ensures p <= low ==> Formed(powers[p], true, Chain(top, 2))
      ensures p > low ==> Formed(powers[p], false, Chain(top, 1))
    {
    }
    hide Holds, Formed;
    assert PatstockReady(powers, coeffs, random, low, Chain(top, 2), Chain(top, 1));
    assert HoldsRead(r, powers, x, low, |coeffs| - 1);
  }

  /** Without it, the forms fit unless the low degree is 1 and there is a term of degree 2 or more. */
  lemma PlainReadyIff<T(!new)>(r: Ring<T>, powers: seq<Slot<T>>, coeffs: seq<Plaintext<T>>, random: Plaintext<T>,
                               low: nat, maxItems: nat, top: nat, x: T)
    requires Prepared(r, powers, low, maxItems, top, x) && Batched(coeffs, low, top) && !random.ntt
    requires low <= maxItems && maxItems >= 1 && |coeffs| <= maxItems + 1 && !(1 < low < |coeffs| - 1)
    ensures EvalReady(powers, coeffs, random) <==> !(low == 1 && |coeffs| > 2)
    ensures !(low == 1 && |coeffs| > 2) ==> forall d :: 1 <= d < |coeffs| ==> Holds(r, powers, x, d)
  {
    hide Power;
    assert Needed(low, maxItems, 1);
    if low == 1 && |coeffs| > 2 {
      assert CoefficientNtt(low, 2) == false;
      assert !TermReady(powers, coeffs, 2);
    } else {
      forall d | 1 <= d < |coeffs|
        ensures TermReady(powers, coeffs, d) && Holds(r, powers, x, d)
      {
        assert Needed(low, maxItems, d) && CoefficientNtt(low, d);
      }
    }
  }

  /**
   * `ProcessBinBundleCache`: evaluates a bin bundle's polynomial. It succeeds if and only if the low
   * degree is not 1 or the polynomial has degree at most 1; then it is the polynomial plus the
   * random term, and there were always enough powers.
   */
  method ProcessBinBundleCache<T(!new)>(r: Ring<T>, powers: seq<Slot<T>>, coeffs: seq<Plaintext<T>>,
          random: Plaintext<T>,
                                        low: nat, maxItems: nat, top: nat, ghost x: T)
      returns (out: Outcome<Ciphertext<T>>)
    requires Lawful(r) && Prepared(r, powers, low, maxItems, top, x) && Batched(coeffs, low, top) && !random.ntt
    requires low <= maxItems && maxItems >= 1 && |coeffs| <= maxItems + 1
    ensures out.Ok? <==> !(low == 1 && |coeffs| > 2)
    ensures out.Ok? ==> out.value == Ciphertext(r.add(Poly(r, Values(coeffs), x), random.value), false, 0)
    ensures out != Fail(NotEnoughPowers) && out != Fail(BadLowDegree)
  {
    hide Lawful, Prepared, Good, Power, Poly;
    PreparedSize(r, powers, low, maxItems, top, x);
    var degree := |coeffs| - 1;
    var usingPs := low > 1 && low < degree;
    if usingPs {
      PatstockIsGood(r, powers, coeffs, random, low, maxItems, top, x);
      out := EvalPatstock(r, powers, coeffs, low, Chain(top, 1), random, Chain(top, 2), x);
    } else {
      PlainReadyIff(r, powers, coeffs, random, low, maxItems, top, x);
      out := Eval(r, powers, coeffs, random, x);
    }
  }

  lemma PreparedSize<T>(r: Ring<T>, powers: seq<Slot<T>>, low: nat, maxItems: nat, top: nat, x: T)
    requires Prepared(r, powers, low, maxItems, top, x)
    ensures |powers| == maxItems + 1
  {
  }
}

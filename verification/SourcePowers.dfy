/** What the querying party sends: the powers of its items that the plan does not compute, encoded in slots. */
module SourcePowers {
  import opened PlaintextPowers
  import opened PowersPlan
  import opened Rings
  import opened SlotVectors

  datatype Computed = ZeroPower | Computed(powers: map<nat, seq<nat>>)

  /** The encoded powers are the powers of the encoded items. */
  ghost predicate Answers(powers: map<nat, seq<nat>>, values: seq<nat>, p: nat) {
    p in powers && |powers[p]| == |values| && Encode(powers[p]) == Power(SlotRing(), Encode(values), p)
  }

  /** `compute_powers`: every source of the plan gives one power of the whole vector. */
  method ComputePowers(values: seq<nat>, sources: seq<PowersNode>) returns (r: Computed)
    ensures r.ZeroPower? <==> exists s :: s in sources && s.power == 0
    ensures r.Computed? ==> forall s :: s in sources ==> Answers(r.powers, values, s.power)
    ensures r.Computed? ==> forall p :: p in r.powers ==> exists s :: s in sources && s.power == p
  {
    hide Answers, Exp;
    var powers: map<nat, seq<nat>> := map[];
    for k := 0 to |sources|
      invariant forall j :: 0 <= j < k ==> sources[j].power != 0 && Answers(powers, values, sources[j].power)
      invariant forall p :: p in powers ==> exists s :: s in sources && s.power == p
    {
      var power := sources[k].power;
      var copy := new nat[|values|](i requires 0 <= i < |values| => values[i]);
      assert copy[..] == values;
      var one := ExponentiateArray(copy, power, MODULUS);
      if one.ZeroExponent? {
        assert sources[k] in sources;
        return ZeroPower;
      }
      ghost var before := powers;
      powers := powers[power := one.result];
      OnePower(before, powers, values, one.result, power);
      forall j | 0 <= j < k
        ensures Answers(powers, values, sources[j].power)
      {
        OtherPower(before, powers, values, one.result, power, sources[j].power);
      }
    }
    return Computed(powers);
  }

  lemma OnePower(before: map<nat, seq<nat>>, powers: map<nat, seq<nat>>, values: seq<nat>, result: seq<nat>, power: nat)
    requires power > 0 && powers == before[power := result] && |result| == |values|
    requires forall i :: 0 <= i < |values| ==> result[i] == Exp(values[i], power) % MODULUS
    ensures Answers(powers, values, power)
  {
    hide Exp, Power;
    PowerOfEncoded(values, result, power);
  }

  lemma OtherPower(before: map<nat, seq<nat>>, powers: map<nat, seq<nat>>, values: seq<nat>, result: seq<nat>,
          power: nat, p: nat)
    requires powers == before[power := result] && Answers(before, values, p) && Answers(powers, values, power)
    ensures Answers(powers, values, p)
  {
    hide Power;
  }
}

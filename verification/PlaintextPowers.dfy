/** The source powers that the querying party encrypts: square-and-multiply on every slot at once. */
module PlaintextPowers {
  import opened Residues

  function Exp(b: nat, e: nat): nat {
    if e == 0 then 1 else b * Exp(b, e - 1)
  }

  /** `square_array`. */
  method SquareArray(a: array<nat>, modulus: nat)
    requires modulus > 0
    modifies a
    ensures forall i :: 0 <= i < a.Length ==> a[i] == (old(a[i]) * old(a[i])) % modulus
  {
    for i := 0 to a.Length
      invariant forall j :: 0 <= j < i ==> a[j] == (old(a[j]) * old(a[j])) % modulus
      invariant forall j :: i <= j < a.Length ==> a[j] == old(a[j])
    {
      a[i] := (a[i] * a[i]) % modulus;
    }
  }

  /** `multiply_array(values, result, result)`. */
  method MultiplyInto(values: array<nat>, result: array<nat>, modulus: nat)
    requires modulus > 0 && values != result && values.Length == result.Length
    modifies result
    ensures forall i :: 0 <= i < result.Length ==> result[i] == (values[i] * old(result[i])) % modulus
  {
    for i := 0 to result.Length
      invariant forall j :: 0 <= j < i ==> result[j] == (values[j] * old(result[j])) % modulus
      invariant forall j :: i <= j < result.Length ==> result[j] == old(result[j])
    {
      result[i] := (values[i] * result[i]) % modulus;
    }
  }

  datatype Powered = ZeroExponent | Powered(result: seq<nat>)

  /** What is still to be multiplied in brings the result to the power wanted. */
  ghost predicate OnTheWay(result: nat, value: nat, e: nat, base: nat, exponent: nat, modulus: nat)
    requires modulus > 0
  {
    Same(result * Exp(value, e), Exp(base, exponent), modulus)
  }

  lemma TakeOne(result: nat, value: nat, e: nat)
    requires e > 0
    ensures (value * result) * Exp(value, e - 1) == result * Exp(value, e)
  {
    var rest := Exp(value, e - 1);
    assert (value * result) * rest == result * (value * rest);
  }

  lemma Halve(result: nat, value: nat, e: nat, base: nat, exponent: nat, modulus: nat)
    requires modulus > 0 && e > 0 && OnTheWay(result, value, e, base, exponent, modulus)
    ensures OnTheWay(if e % 2 == 1 then (value * result) % modulus
        else result, (value * value) % modulus, e / 2, base, exponent, modulus)
  {
    hide Same, Exp;
    var square, h := (value * value) % modulus, e / 2;
    var times := if e % 2 == 1 then (value * result) % modulus else result;
    ModSame(value * value, modulus);
    ExpSame(square, value * value, h, modulus);
    ExpSquare(value, h);
    var exact := if e % 2 == 1 then value * result else result;
    ModSame(exact, modulus);
    SameBy(result, result, modulus, 0);
    SameMul(times, exact, Exp(square, h), Exp(value * value, h), modulus);
    if e % 2 == 1 {
      TakeOne(result, value, e);
    }
    SameTrans(times * Exp(square, h), result * Exp(value, e), Exp(base, exponent), modulus);
  }

  lemma {:induction false} ExpSame(a: nat, b: nat, e: nat, m: nat)
    requires m > 0 && Same(a, b, m)
    ensures Same(Exp(a, e), Exp(b, e), m)
  {
    if e == 0 {
      SameBy(1, 1, m, 0);
    } else {
      ExpSame(a, b, e - 1, m);
      SameMul(a, b, Exp(a, e - 1), Exp(b, e - 1), m);
    }
  }

  lemma {:induction false} ExpSquare(b: nat, h: nat)
    ensures Exp(b * b, h) == Exp(b, 2 * h)
  {
    if h == 0 {
    } else {
      ExpSquare(b, h - 1);
      assert Exp(b, 2 * h) == b * (b * Exp(b, 2 * h - 2));
      assert b * (b * Exp(b, 2 * h - 2)) == (b * b) * Exp(b, 2 * h - 2);
    }
  }

  /** `exponentiate_array`: every slot to the given power, modulo the plain modulus. */
  method ExponentiateArray(values: array<nat>, exponent: nat, modulus: nat) returns (r: Powered)
    requires modulus > 0
    modifies values
    ensures r.ZeroExponent? <==> exponent == 0
    ensures exponent > 0 ==>
      && |r.result| == values.Length
      && forall i :: 0 <= i < values.Length ==> r.result[i] == Exp(old(values[i]), exponent) % modulus
  {
    hide Exp, Same, OnTheWay;
    if exponent == 0 {
      return ZeroExponent;
    }
    var result := new nat[values.Length](_ => 1);
    var e := exponent;
    forall i | 0 <= i < values.Length
      ensures OnTheWay(result[i], values[i], e, old(values[i]), exponent, modulus)
    {
      Begin(values[i], e, modulus);
    }
    while e != 0
      invariant e > 0 || forall i :: 0 <= i < values.Length ==> result[i] < modulus
      invariant forall i :: 0 <= i < values.Length ==>
          OnTheWay(result[i], values[i], e, old(values[i]), exponent, modulus)
    {
      forall i | 0 <= i < values.Length
        ensures OnTheWay(if e % 2 == 1 then (values[i] * result[i]) % modulus
            else result[i], (values[i] * values[i]) % modulus, e / 2, old(values[i]), exponent, modulus)
      {
        Halve(result[i], values[i], e, old(values[i]), exponent, modulus);
      }
      if e % 2 == 1 {
        MultiplyInto(values, result, modulus);
      }
      SquareArray(values, modulus);
      e := e / 2;
    }
    forall i | 0 <= i < values.Length
      ensures result[i] == Exp(old(values[i]), exponent) % modulus
    {
      Arrived(result[i], values[i], old(values[i]), exponent, modulus);
    }
    return Powered.Powered(result[..]);
  }

  lemma Begin(value: nat, e: nat, modulus: nat)
    requires modulus > 0
    ensures OnTheWay(1, value, e, value, e, modulus)
  {
    SameBy(1 * Exp(value, e), Exp(value, e), modulus, 0);
  }

  lemma Arrived(result: nat, value: nat, base: nat, exponent: nat, modulus: nat)
    requires modulus > 0 && result < modulus && OnTheWay(result, value, 0, base, exponent, modulus)
    ensures result == Exp(base, exponent) % modulus
  {
    SameReduced(result, Exp(base, exponent), modulus);
  }
}

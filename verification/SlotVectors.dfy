/**
 * Vectors of slots, which is what one ciphertext of a query holds. The plain modulus and the number
 * of slots are those of the encryption parameters; nothing is said about them here.
 */
module SlotVectors {
  import opened Division
  import opened PlaintextPowers
  import opened Residues
  import opened Rings

  type Positive = n: nat | n > 0 witness 1

  /** The plain modulus. */
  const MODULUS: Positive
  /** Slots of one plaintext. */
  const SLOTS: nat

  ghost predicate IsSlots(v: seq<nat>) {
    |v| == SLOTS && forall i :: 0 <= i < SLOTS ==> v[i] < MODULUS
  }

  type Slots = v: seq<nat> | IsSlots(v) ghost witness Constant(0)

  function Constant(c: nat): (r: seq<nat>)
    ensures IsSlots(r)
  {
    seq(SLOTS, _ => c % MODULUS)
  }

  function Add(a: Slots, b: Slots): Slots {
    seq(SLOTS, i requires 0 <= i < SLOTS => (a[i] + b[i]) % MODULUS)
  }

  function Mul(a: Slots, b: Slots): Slots {
    seq(SLOTS, i requires 0 <= i < SLOTS => (a[i] * b[i]) % MODULUS)
  }

  /** Slots are added and multiplied one by one. */
  function SlotRing(): Ring<Slots> {
    Ring<Slots>.Ring(Constant(0), Constant(1), Add, Mul)
  }

  lemma SlotAdd(a: Slots, b: Slots, c: Slots)
    ensures Add(a, b) == Add(b, a) && Add(Add(a, b), c) == Add(a, Add(b, c)) && Add(Constant(0), a) == a
  {
    forall i | 0 <= i < SLOTS
      ensures Add(a, b)[i] == Add(b, a)[i] && Add(Add(a, b), c)[i] == Add(a, Add(b, c))[i]
      ensures Add(Constant(0), a)[i] == a[i]
    {
      Sums(a[i], b[i], c[i], MODULUS);
    }
  }

  lemma SlotMul(a: Slots, b: Slots, c: Slots)
    ensures Mul(a, b) == Mul(b, a) && Mul(Mul(a, b), c) == Mul(a, Mul(b, c)) && Mul(Constant(1), a) == a
    ensures Mul(a, Constant(0)) == Constant(0)
  {
    forall i | 0 <= i < SLOTS
      ensures Mul(a, b)[i] == Mul(b, a)[i] && Mul(Mul(a, b), c)[i] == Mul(a, Mul(b, c))[i]
    {
      Products(a[i], b[i], c[i], MODULUS);
    }
    forall i | 0 <= i < SLOTS
      ensures Mul(Constant(1), a)[i] == a[i] && Mul(a, Constant(0))[i] == Constant(0)[i]
    {
      Units(a[i], MODULUS);
    }
  }

  lemma SlotDistributes(a: Slots, b: Slots, c: Slots)
    ensures Mul(a, Add(b, c)) == Add(Mul(a, b), Mul(a, c))
  {
    forall i | 0 <= i < SLOTS
      ensures Mul(a, Add(b, c))[i] == Add(Mul(a, b), Mul(a, c))[i]
    {
      Distributed(a[i], b[i], c[i], MODULUS);
    }
  }

  /** Slot vectors are a commutative ring, so all that is proved of encrypted values holds of them. */
  lemma SlotsLawful()
    ensures Lawful(SlotRing())
  {
    hide Add, Mul, Constant;
    var r := SlotRing();
    forall a: Slots, b: Slots, c: Slots
      ensures r.add(r.add(a, b), c) == r.add(a, r.add(b, c)) && r.mul(r.mul(a, b), c) == r.mul(a, r.mul(b, c))
      ensures r.mul(a, r.add(b, c)) == r.add(r.mul(a, b), r.mul(a, c))
    {
      SlotAdd(a, b, c);
      SlotMul(a, b, c);
      SlotDistributes(a, b, c);
    }
    forall a: Slots, b: Slots
      ensures r.add(a, b) == r.add(b, a) && r.mul(a, b) == r.mul(b, a)
    {
      SlotAdd(a, b, a);
      SlotMul(a, b, a);
    }
    forall a: Slots
      ensures r.add(r.zero, a) == a && r.mul(r.one, a) == a && r.mul(a, r.zero) == r.zero
    {
      SlotAdd(a, a, a);
      SlotMul(a, a, a);
    }
  }

  /** A power of a vector is the power of every slot. */
  lemma {:induction false} SlotPower(x: Slots, p: nat, i: nat)
    requires i < SLOTS
    ensures Power(SlotRing(), x, p)[i] == Exp(x[i], p) % MODULUS
  {
    if p == 0 {
    } else {
      SlotPower(x, p - 1, i);
      MulReduced(Exp(x[i], p - 1), x[i], MODULUS);
      var e := Exp(x[i], p - 1);
      assert x[i] * (e % MODULUS) == (e % MODULUS) * x[i] && x[i] * e == e * x[i];
    }
  }

  /** The batch encoder: values in the first slots, 0 in the others. */
  function Encode(v: seq<nat>): (r: Slots)
    ensures forall i :: 0 <= i < SLOTS ==> r[i] == if i < |v| then v[i] % MODULUS else 0
  {
    seq(SLOTS, i requires 0 <= i < SLOTS => if i < |v| then v[i] % MODULUS else 0)
  }

  /** Encoding a vector of powers gives the power of the encoded vector. */
  lemma PowerOfEncoded(v: seq<nat>, w: seq<nat>, p: nat)
    requires p > 0 && |w| == |v| && forall i :: 0 <= i < |v| ==> w[i] == Exp(v[i], p) % MODULUS
    ensures Encode(w) == Power(SlotRing(), Encode(v), p)
  {
    hide Exp, Power;
    var x := Encode(v);
    forall i | 0 <= i < SLOTS
      ensures Encode(w)[i] == Power(SlotRing(), x, p)[i]
    {
      SlotPower(x, p, i);
      if i < |v| {
        ExpReduced(v[i], p, MODULUS);
        ReducedOnce(Exp(v[i], p), MODULUS);
      } else {
        ExpZero(p);
      }
    }
  }

  lemma ExpReduced(b: nat, p: nat, m: nat)
    requires m > 0
    ensures Exp(b % m, p) % m == Exp(b, p) % m
  {
    ModSame(b, m);
    ExpSame(b % m, b, p, m);
    var x, y := Exp(b % m, p), Exp(b, p);
    ModSame(x, m);
    SameTrans(x % m, x, y, m);
    SameReduced(x % m, y, m);
  }

  lemma ExpZero(p: nat)
    requires p > 0
    ensures Exp(0, p) % MODULUS == 0
  {
    assert Exp(0, p) == 0 * Exp(0, p - 1);
    Remainder(MODULUS, 0, 0);
  }
}

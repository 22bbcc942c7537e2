/**
 * Ciphertexts and plaintexts as the evaluator sees them: a ring value, whether it is in NTT form,
 * and how many primes of the modulus chain are left. Operations refuse operands whose form or
 * level does not match.
 */
module Ciphertexts {
  import opened Rings

  datatype Error = NotEnoughPowers | BadLowDegree | Mismatch | EmptySlot

  datatype Outcome<T> = Ok(value: T) | Fail(error: Error) {
    predicate IsFailure() {
      Fail?
    }
    function PropagateFailure<U>(): Outcome<U>
      requires Fail?
    {
      Outcome<U>.Fail(error)
    }
    function Extract(): T
      requires Ok?
    {
      value
    }
  }

  datatype Ciphertext<T> = Ciphertext(value: T, ntt: bool, level: nat)
  /** The level of a plaintext matters only in NTT form. */
  datatype Plaintext<T> = Plaintext(value: T, ntt: bool, level: nat)
  /** An entry of the vector of powers; only some are filled. */
  datatype Slot<T> = Empty | Filled(c: Ciphertext<T>)

  /** The level that chain index `idx` stands for when the first data level is `top`. */
  function Chain(top: nat, idx: nat): nat {
    if top < idx then top else idx
  }

  function Read<T>(s: Slot<T>): Outcome<Ciphertext<T>> {
    match s
    case Empty => Fail(EmptySlot)
    case Filled(c) => Ok(c)
  }

  function MultiplyPlain<T>(r: Ring<T>, c: Ciphertext<T>, p: Plaintext<T>): Outcome<Ciphertext<T>> {
    if c.ntt != p.ntt || (c.ntt && c.level != p.level) then Fail(Mismatch)
    else Ok(c.(value := r.mul(c.value, p.value)))
  }

  function AddTo<T>(r: Ring<T>, c: Ciphertext<T>, d: Ciphertext<T>): Outcome<Ciphertext<T>> {
    if c.ntt != d.ntt || c.level != d.level then Fail(Mismatch)
    else Ok(c.(value := r.add(c.value, d.value)))
  }

  function Multiply<T>(r: Ring<T>, c: Ciphertext<T>, d: Ciphertext<T>): Outcome<Ciphertext<T>> {
    if c.ntt || d.ntt || c.level != d.level then Fail(Mismatch)
    else Ok(c.(value := r.mul(c.value, d.value)))
  }

  function AddPlain<T>(r: Ring<T>, c: Ciphertext<T>, p: Plaintext<T>): Outcome<Ciphertext<T>> {
    if c.ntt || p.ntt then Fail(Mismatch)
    else Ok(c.(value := r.add(c.value, p.value)))
  }

  function FromNtt<T>(c: Ciphertext<T>): Outcome<Ciphertext<T>> {
    if c.ntt then Ok(c.(ntt := false)) else Fail(Mismatch)
  }

  function ToNtt<T>(c: Ciphertext<T>): Outcome<Ciphertext<T>> {
    if c.ntt then Fail(Mismatch) else Ok(c.(ntt := true))
  }

  /** Only ciphertexts out of NTT form can go down the chain, and none goes up. */
  function ModSwitchTo<T>(c: Ciphertext<T>, level: nat): Outcome<Ciphertext<T>> {
    if c.level == level then Ok(c)
    else if c.ntt || c.level < level then Fail(Mismatch)
    else Ok(c.(level := level))
  }
}

/** Stock types, comparisons and the product facts the other modules share. */
module Basics {

  datatype Option<T> = None | Some(value: T)

  datatype Result<T, E> = Ok(value: T) | Err(error: E)

  function Min(a: nat, b: nat): nat { if a <= b then a else b }

  function Max(a: nat, b: nat): nat { if a >= b then a else b }

  function Abs(x: real): real { if x < 0.0 then -x else x }

  function Pow2(k: nat): (p: nat)
    ensures p >= 1
  {
    if k == 0 then 1 else 2 * Pow2(k - 1)
  }

  lemma ProductMonotone(a: nat, b: nat, c: nat)
    requires a <= b
    ensures a * c <= b * c
  {
  }

  lemma ProductStrict(a: nat, b: nat, c: nat)
    requires a < b && c > 0
    ensures a * c < b * c
  {
  }

  lemma ProductSuccessor(i: nat, width: nat)
    ensures (i + 1) * width == i * width + width
  {
  }

  lemma RealProductMonotone(x: real, y: real, u: real)
    requires 0.0 <= x <= y && 0.0 <= u
    ensures 0.0 <= x * u <= y * u
  {
  }

  lemma RealProductStrict(f: real, x: real, y: real)
    requires f > 0.0 && x < y
    ensures f * x < f * y
  {
  }

  /** Fractions of one whole are ordered like their numerators. */
  lemma QuotientMonotone(a: real, b: real, total: real)
    requires a <= b && total > 0.0
    ensures a / total <= b / total
  {
  }
}

/** Option and Result, shared by every model in this project. */
module Wrappers {

  datatype Option<+T> = None | Some(value: T)

  datatype Result<+T, +E> = Ok(value: T) | Err(error: E)

  function Min(a: nat, b: nat): nat { if a <= b then a else b }

  function Max(a: nat, b: nat): nat { if a <= b then b else a }

  lemma MulMonotone(k: nat, a: nat, b: nat)
    requires a <= b
    ensures k * a <= k * b && k * (a + 1) == k * a + k
  {
    assert k * b - k * a == k * (b - a);
  }

  /** A set with one more element, or with none. */
  lemma OneMore<T>(a: set<T>, b: set<T>, x: T, more: bool)
    requires x !in a && forall y :: y in b <==> y in a || (more && y == x)
    ensures |b| == |a| + if more then 1 else 0
  {
    assert b == if more then a + {x} else a;
  }
}

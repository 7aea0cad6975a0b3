/** Definitions shared by several modules. */
module Common {

  /** Returning normally, or the exception thrown. */
  datatype Result<+T, +E> = Pass(value: T) | Fail(error: E) {
    predicate IsFailure() { Fail? }
    function PropagateFailure(): Result<T, E> requires Fail? { this }
  }

  /** A value, or a failure that carries nothing. */
  datatype Attempt<+T> = Done(value: T) | Failed

  function Min(x: nat, y: nat): (m: nat)
    ensures m <= x && m <= y && (m == x || m == y)
  {
    if x <= y then x else y
  }

  function Max(x: int, y: int): (m: int)
    ensures m >= x && m >= y && (m == x || m == y)
  {
    if x >= y then x else y
  }

  ghost predicate Distinct<T>(q: seq<T>) {
    forall i, j | 0 <= i < j < |q| :: q[i] != q[j]
  }

  lemma {:induction false} SubsetSize<T>(a: set<T>, b: set<T>)
    requires a <= b
    ensures |a| <= |b|
  {
    if x :| x in a {
      SubsetSize(a - {x}, b - {x});
    }
  }

  lemma Associative<T>(a: seq<T>, b: seq<T>, c: seq<T>)
    ensures a + (b + c) == (a + b) + c
  {
  }
}

/** Laws about the payload type's own equality, hash code and rendering.

    `Option<T>` delegates all three to `T` (`_value.Equals`,
    `EqualityComparer<T>.Default.GetHashCode`, the payload's `ToString`), so the
    model takes them as function parameters and states its laws under the
    assumptions below. */
module Payload {

  /** Every payload is equal to itself. */
  ghost predicate Reflexive<T(!new)>(eq: (T, T) -> bool) {
    forall x :: eq(x, x)
  }

  ghost predicate Symmetric<T(!new)>(eq: (T, T) -> bool) {
    forall x, y :: eq(x, y) ==> eq(y, x)
  }

  ghost predicate Transitive<T(!new)>(eq: (T, T) -> bool) {
    forall x, y, z :: eq(x, y) && eq(y, z) ==> eq(x, z)
  }

  ghost predicate Equivalence<T(!new)>(eq: (T, T) -> bool) {
    Reflexive(eq) && Symmetric(eq) && Transitive(eq)
  }

  /** The .NET hashing contract: payloads that `eq` identifies hash alike. */
  ghost predicate HashAgrees<T(!new)>(eq: (T, T) -> bool, hash: T -> bv32) {
    forall x, y :: eq(x, y) ==> hash(x) == hash(y)
  }

  /** Distinct payloads render differently. */
  ghost predicate Injective<T(!new), U>(f: T -> U) {
    forall x, y :: f(x) == f(y) ==> x == y
  }
}

/** Laws of `Option<T>`: queries, the eliminator, the functor laws of `Map`,
    structural equality, hash consistency and rendering. */
module OptionLaws {
  import opened Payload
  import opened Options

  // ---------------------------------------------------------------- queries

  /** The two queries never disagree, and each constructor fixes them. */
  lemma QueriesExclusive<T>(o: Option<T>, v: T)
    ensures IsNone(o) <==> !IsSome(o)
    ensures IsSome(Some(v)) && !IsNone(Some(v))
    ensures IsNone(Option<T>.None) && !IsSome(Option<T>.None)
  {
  }

  // -------------------------------------------------------------- elimination

  /** `Match` hands the payload to the `Some` branch and calls the `None`
      branch otherwise. */
  lemma MatchSelectsBranch<T, R>(v: T, none: () -> R, some: T -> R)
    ensures Match(Some(v), none, some) == some(v)
    ensures Match(None, none, some) == none()
  {
  }

  /** Only the active branch decides the result: swapping the other branch
      for any function leaves it unchanged. */
  lemma MatchIgnoresInactiveBranch<T, R>(o: Option<T>, none1: () -> R, none2: () -> R, some1: T -> R, some2: T -> R)
    ensures IsSome(o) ==> Match(o, none1, some1) == Match(o, none2, some1)
    ensures IsNone(o) ==> Match(o, none1, some1) == Match(o, none1, some2)
  {
  }

  /** `Match` is the universal eliminator: the queries and `Map` are
      instances of it, and matching with the constructors rebuilds `o`. */
  lemma MatchIsUniversal<T, R>(o: Option<T>, f: T -> R)
    ensures Match(o, () => false, _ => true) == IsSome(o)
    ensures Match(o, () => None, v => Some(f(v))) == Map(o, f)
    ensures Match(o, () => None, v => Some(v)) == o
  {
  }

  /** Matching on a mapped Option is matching on the original with `f`
      folded into the `Some` branch. */
  lemma MatchMapFusion<T, U, R>(o: Option<T>, f: T -> U, none: () -> R, some: U -> R)
    ensures Match(Map(o, f), none, some) == Match(o, none, v => some(f(v)))
  {
  }

  /** Which branch of the `Action` form fired. */
  datatype Branch = NoneFired | SomeFired

  /** The `Action` form runs exactly one branch: with branches that log their
      name, exactly one entry is added, naming the active variant. */
  lemma MatchActionRunsOneBranch<T>(o: Option<T>, log: seq<Branch>)
    ensures MatchAction(o, w => w + [NoneFired], (v, w) => w + [SomeFired], log)
         == log + [if IsSome(o) then SomeFired else NoneFired]
  {
  }

  // --------------------------------------------------------------------- map

  /** `Map` applies `f` to a payload and never to an absent one. */
  lemma MapCases<T, R>(v: T, f: T -> R)
    ensures Map(Some(v), f) == Some(f(v))
    ensures Map(None, f) == None
  {
  }

  /** Functor identity law. */
  lemma MapIdentity<T>(o: Option<T>)
    ensures Map(o, x => x) == o
  {
  }

  /** Functor composition law. */
  lemma MapComposition<T, U, R>(o: Option<T>, f: T -> U, g: U -> R)
    ensures Map(Map(o, f), g) == Map(o, x => g(f(x)))
  {
  }

  /** `Map` respects equality: a function that keeps `eqT`-equal payloads
      `eqR`-equal maps equal Options to equal Options. */
  lemma MapPreservesEquals<T(!new), R>(a: Option<T>, b: Option<T>, f: T -> R, eqT: (T, T) -> bool, eqR: (R, R) -> bool)
    requires forall x, y :: eqT(x, y) ==> eqR(f(x), f(y))
    ensures Equals(a, b, eqT) ==> Equals(Map(a, f), Map(b, f), eqR)
  {
  }

  // ---------------------------------------------------------------- equality

  /** Two Options are equal exactly when both are None, or both are Some
      with `eq`-equal payloads; a Some never equals a None. */
  lemma EqualsCases<T>(a: Option<T>, b: Option<T>, x: T, eq: (T, T) -> bool)
    ensures Equals(a, b, eq) <==>
      (IsNone(a) && IsNone(b)) || (IsSome(a) && IsSome(b) && eq(a.value, b.value))
    ensures !Equals(Some(x), None, eq) && !Equals(None, Some(x), eq)
  {
  }

  /** With the payload type's own `==` as `eq`, Option equality is equality
      of the values. */
  lemma EqualsIsStructural<T>(a: Option<T>, b: Option<T>)
    ensures Equals(a, b, (x, y) => x == y) <==> a == b
  {
  }

  lemma EqualsReflexive<T(!new)>(o: Option<T>, eq: (T, T) -> bool)
    requires Reflexive(eq)
    ensures Equals(o, o, eq)
  {
  }

  lemma EqualsSymmetric<T(!new)>(a: Option<T>, b: Option<T>, eq: (T, T) -> bool)
    requires Symmetric(eq)
    ensures Equals(a, b, eq) ==> Equals(b, a, eq)
  {
  }

  lemma EqualsTransitive<T(!new)>(a: Option<T>, b: Option<T>, c: Option<T>, eq: (T, T) -> bool)
    requires Transitive(eq)
    ensures Equals(a, b, eq) && Equals(b, c, eq) ==> Equals(a, c, eq)
  {
  }

  /** Comparing with the bare `None` marker is comparing with the None
      variant, whatever the payload equality is. */
  lemma EqualsNoneAgrees<T>(o: Option<T>, eq: (T, T) -> bool)
    ensures EqualsNone(o) <==> IsNone(o)
    ensures EqualsNone(o) <==> Equals(o, None, eq)
  {
  }

  /** `==` is `Equals`, and `!=` is its negation. */
  lemma OperatorsAgree<T>(a: Option<T>, b: Option<T>, eq: (T, T) -> bool)
    ensures OpEq(a, b, eq) <==> Equals(a, b, eq)
    ensures OpNe(a, b, eq) <==> !OpEq(a, b, eq)
  {
  }

  // -------------------------------------------------------------------- hash

  /** Equal Options have equal hash codes, provided the payload hash agrees
      with the payload equality. */
  lemma HashConsistent<T(!new)>(a: Option<T>, b: Option<T>, eq: (T, T) -> bool, hash: T -> bv32, dflt: T)
    requires HashAgrees(eq, hash)
    ensures Equals(a, b, eq) ==> GetHashCode(a, hash, dflt) == GetHashCode(b, hash, dflt)
  {
  }

  /** The flag's hash lands in the lowest bit, so a Some and the None hash
      differently whenever the payload hash and the hash of `default(T)`
      have the same lowest bit (in particular when they are equal). */
  lemma HashSeparatesVariants<T>(v: T, hash: T -> bv32, dflt: T)
    requires hash(v) & 1 == hash(dflt) & 1
    ensures GetHashCode(Some(v), hash, dflt) != GetHashCode(None, hash, dflt)
  {
  }

  // --------------------------------------------------------------- rendering

  /** The rendering tells the variants apart and, when the payload rendering
      is injective, determines the Option. */
  lemma ToStringInjective<T(!new)>(a: Option<T>, b: Option<T>, show: T -> string)
    requires Injective(show)
    ensures ToString(a, show) == ToString(b, show) ==> a == b
  {
    if ToString(a, show) == ToString(b, show) && IsSome(a) && IsSome(b) {
      var r := ToString(a, show);
      assert show(a.value) == r[5..|r| - 1];
      assert show(b.value) == r[5..|r| - 1];
    }
  }
}

/** The C# class `Option<T>` at the level of its two private fields.

    The class stores a payload field `_value` and a flag `_isSome`; `_isNone`
    is derived. Each method below follows the class's own code, and its
    contract says it implements the sum-type operation of module `Options`
    on the abstract view `Abs`. */
module OptionClass {
  import opened Options

  /** The fields `_value` and `_isSome`. */
  datatype Fields<T> = Fields(value: T, isSome: bool)

  /** Class invariant: an object built without a payload keeps `dflt`, the
      zero value `default(T)` the runtime gives to an unassigned field. */
  ghost predicate Valid<T>(o: Fields<T>, dflt: T) {
    o.isSome || o.value == dflt
  }

  /** The Option an object stands for. */
  function Abs<T>(o: Fields<T>): Option<T> {
    if o.isSome then Some(o.value) else None
  }

  /** The private constructor `Option(T value)`, reached through the
      implicit conversion from the `Some<T>` marker. */
  function FromValue<T>(v: T): (r: Fields<T>)
    ensures Abs(r) == Some(v)
  {
    Fields(v, true)
  }

  /** The public constructor `Option()`, reached through the implicit
      conversion from the `None` marker: `_value` keeps `default(T)`. */
  function Empty<T>(dflt: T): (r: Fields<T>)
    ensures Abs(r) == None
    ensures Valid(r, dflt)
  {
    Fields(dflt, false)
  }

  function IsSomeField<T>(o: Fields<T>): (b: bool)
    ensures b <==> IsSome(Abs(o))
  {
    o.isSome
  }

  function IsNoneField<T>(o: Fields<T>): (b: bool)
    ensures b <==> IsNone(Abs(o))
    ensures b <==> !IsSomeField(o)
  {
    !o.isSome
  }

  /** `Match<R>(Func<R> None, Func<T, R> Some)`. */
  function MatchField<T, R>(o: Fields<T>, none: () -> R, some: T -> R): (r: R)
    ensures r == Match(Abs(o), none, some)
  {
    if o.isSome then some(o.value) else none()
  }

  /** `Map<R>(Func<T, R> func)`; `dfltR` is `default(R)`, kept by the
      result when it is built from the `None` marker. */
  function MapField<T, R>(o: Fields<T>, f: T -> R, dfltR: R): (r: Fields<R>)
    ensures Abs(r) == Map(Abs(o), f)
    ensures Valid(r, dfltR)
  {
    if o.isSome then FromValue(f(o.value)) else Empty(dfltR)
  }

  /** `Equals(Option<T> other)`: the flags agree, and either there is no
      payload or the payloads are `eq`-equal. */
  function EqualsField<T>(a: Fields<T>, b: Fields<T>, eq: (T, T) -> bool): (r: bool)
    ensures r == Equals(Abs(a), Abs(b), eq)
  {
    a.isSome == b.isSome && (!a.isSome || eq(a.value, b.value))
  }

  /** `Equals(None none)`. */
  function EqualsNoneField<T>(o: Fields<T>): (r: bool)
    ensures r == EqualsNone(Abs(o))
  {
    !o.isSome
  }

  /** Operator `==`. */
  function OpEqField<T>(a: Fields<T>, b: Fields<T>, eq: (T, T) -> bool): (r: bool)
    ensures r == OpEq(Abs(a), Abs(b), eq)
  {
    EqualsField(a, b, eq)
  }

  /** Operator `!=`. */
  function OpNeField<T>(a: Fields<T>, b: Fields<T>, eq: (T, T) -> bool): (r: bool)
    ensures r == OpNe(Abs(a), Abs(b), eq)
  {
    !EqualsField(a, b, eq)
  }

  /** `GetHashCode`, hashing whatever the payload field holds. */
  function GetHashCodeField<T>(o: Fields<T>, hash: T -> bv32): bv32 {
    CombineHash(hash(o.value), o.isSome)
  }

  /** `ToString`. */
  function ToStringField<T>(o: Fields<T>, show: T -> string): (r: string)
    ensures r == ToString(Abs(o), show)
  {
    if o.isSome then "Some(" + show(o.value) + ")" else "None"
  }

  /** On valid objects the field-level hash is the hash of the abstract
      Option: a None object hashes `default(T)`. */
  lemma HashFieldRefines<T>(o: Fields<T>, hash: T -> bv32, dflt: T)
    requires Valid(o, dflt)
    ensures GetHashCodeField(o, hash) == GetHashCode(Abs(o), hash, dflt)
  {
  }

  /** All None objects hash identically, because their payload field holds
      `default(T)`. */
  lemma NoneObjectsHashAlike<T>(a: Fields<T>, b: Fields<T>, hash: T -> bv32, dflt: T)
    requires Valid(a, dflt) && Valid(b, dflt)
    requires !a.isSome && !b.isSome
    ensures GetHashCodeField(a, hash) == GetHashCodeField(b, hash)
  {
  }
}

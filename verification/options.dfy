/** The optional-value container `Option<T>` of FunctionalWay, as a sum type.

    The C# class fakes a sum type with a payload field and a presence flag,
    plus two marker classes (`Some<T>`, `None`) and implicit conversions; here
    the two variants are the datatype's constructors. The field-level view of
    the class is in module `OptionClass`, which is proved to agree with this one. */
module Options {

  /** Exactly one variant is active; an Option never changes once built. */
  datatype Option<T> = None | Some(value: T)

  /** `IsSome`: the Option carries a payload. */
  predicate IsSome<T>(o: Option<T>) {
    o.Some?
  }

  /** `IsNone`: derived from `IsSome`, never stored on its own. */
  predicate IsNone<T>(o: Option<T>) {
    !IsSome(o)
  }

  /** The canonical eliminator `Match(None, Some)`: runs the branch of the
      active variant, handing the payload to the `Some` branch. */
  function Match<T, R>(o: Option<T>, none: () -> R, some: T -> R): R {
    match o
    case Some(v) => some(v)
    case None => none()
  }

  /** The `Action` form of `Match`. Its branches are run for their effects,
      modelled as transformers of a world state `w`; the unit result is dropped. */
  function MatchAction<T, W>(o: Option<T>, none: W -> W, some: (T, W) -> W, w: W): W {
    Match(o, () => none(w), v => some(v, w))
  }

  /** `Map`: applies `f` to the payload, if there is one. */
  function Map<T, R>(o: Option<T>, f: T -> R): (r: Option<R>)
    ensures IsSome(r) <==> IsSome(o)
  {
    match o
    case Some(v) => Some(f(v))
    case None => None
  }

  /** `Equals(Option<T>)`: structural equality, payloads compared with the
      payload type's own equality `eq`. */
  function Equals<T>(a: Option<T>, b: Option<T>, eq: (T, T) -> bool): (r: bool)
    ensures r ==> (IsSome(a) <==> IsSome(b))
  {
    match (a, b)
    case (None, None) => true
    case (Some(x), Some(y)) => eq(x, y)
    case _ => false
  }

  /** `Equals(None)`: comparison with the bare `None` marker, whatever `T` is. */
  predicate EqualsNone<T>(o: Option<T>) {
    IsNone(o)
  }

  /** Operator `==`. */
  predicate OpEq<T>(a: Option<T>, b: Option<T>, eq: (T, T) -> bool) {
    Equals(a, b, eq)
  }

  /** Operator `!=`. */
  predicate OpNe<T>(a: Option<T>, b: Option<T>, eq: (T, T) -> bool) {
    !Equals(a, b, eq)
  }

  /** `bool.GetHashCode()` in .NET: 1 for true, 0 for false. */
  function BoolHash(b: bool): bv32 {
    if b then 1 else 0
  }

  /** The payload field of the class: the payload, or `dflt` (the value
      `default(T)` the field keeps when no payload was given). */
  function Stored<T>(o: Option<T>, dflt: T): T {
    match o
    case Some(v) => v
    case None => dflt
  }

  /** `GetHashCode`: the payload field's hash times 397, xor the flag's hash,
      in unchecked 32-bit arithmetic. `hash` stands for
      `EqualityComparer<T>.Default.GetHashCode`. */
  function GetHashCode<T>(o: Option<T>, hash: T -> bv32, dflt: T): bv32 {
    CombineHash(hash(Stored(o, dflt)), IsSome(o))
  }

  /** The hash formula of `GetHashCode`, on the payload's hash and the flag. */
  function CombineHash(payloadHash: bv32, isSome: bool): bv32 {
    (payloadHash * 397) ^ BoolHash(isSome)
  }

  /** `ToString`: `Some(<payload>)` or the token `None`; `show` is the
      payload's own rendering. */
  function ToString<T>(o: Option<T>, show: T -> string): (r: string)
    ensures r == "None" <==> IsNone(o)
  {
    match o
    case Some(v) => "Some(" + show(v) + ")"
    case None => "None"
  }
}

# Option<T> of FunctionalWay, in Dafny

FunctionalWay's `Option<T>` is an immutable optional value: either `Some`
holding one payload or `None` holding nothing. Callers take it apart with
`Match`, transform it with `Map`, and compare it structurally. `==` and `!=`
are overloaded, and a comparison with the bare `None` marker asks whether the
Option is empty, whatever `T` is. The type also has a hash code and a
diagnostic `ToString`.

The project has four modules:

- `Options` (options.dfy): the abstract sum type `Option<T> = None | Some(value)`
  and its operations. The C# marker classes `Some<T>` and `None` and their
  implicit conversions become the two constructors.
- `OptionClass` (option_class.dfy): the C# class at the level of its private
  fields. It stores `_value` and `_isSome`, and `_isNone` is derived. Each method
  follows the class's code, and its contract says it computes the `Options`
  operation on the abstract view `Abs`. The class invariant `Valid` says that
  an object built without a payload keeps `default(T)` in `_value`. The hash
  code depends on this.
- `OptionLaws` (option_laws.dfy): the laws relating the operations. They cover
  the queries, the eliminator, the functor laws of `Map`, equality as an
  equivalence, hash consistency and the rendering.
- `OptionScenarios` (option_tests.dfy): the repository's test scenarios as lemmas.

The payload type's own equality, hash and rendering are outside this type.
They are the parameters `eq`, `hash` and `show`. Module `Payload` (payload.dfy)
names the assumptions the laws make about them. Hash codes are 32-bit words
(`bv32`), so the unchecked `* 397` wraps around as it does in .NET.
`bool.GetHashCode()` is 1 for true and 0 for false.

## Model

| member | source | states |
|---|---|---|
| Options.Map | src/FunctionalWay/Options/Option.cs:66-68 | the mapped Option has a payload exactly when the source has one |
| Options.Equals | src/FunctionalWay/Options/Option.cs:74-78 | Options that compare equal are both Some or both None |
| Options.ToString | src/FunctionalWay/Options/Option.cs:99 | the rendering is the token `None` exactly for the None variant; a Some never renders as `None` |
| OptionClass.FromValue | src/FunctionalWay/Options/Option.cs:25-29 | the private constructor, which the conversion from the `Some<T>` marker uses (line 71), builds an object standing for `Some(v)` |
| OptionClass.Empty | src/FunctionalWay/Options/Option.cs:34-37 | the public constructor, which the conversion from the `None` marker uses (line 72), builds an object standing for None that keeps `default(T)` in its payload field |
| OptionClass.IsSomeField | src/FunctionalWay/Options/Option.cs:31 | the stored flag answers `IsSome` of the Option the object stands for |
| OptionClass.IsNoneField | src/FunctionalWay/Options/Option.cs:23-32 | `IsNone`, derived from the flag, answers `IsNone` of the abstract Option and is the negation of `IsSome` |
| OptionClass.MatchField | src/FunctionalWay/Options/Option.cs:39-42 | the flag-driven conditional returns what the abstract `Match` returns |
| OptionClass.MapField | src/FunctionalWay/Options/Option.cs:66-69 | the class's `Map` stands for the abstract `Map` of the source, and its result keeps the class invariant |
| OptionClass.EqualsField | src/FunctionalWay/Options/Option.cs:74-78 | "flags agree and (no payload or payloads equal)" is exactly the abstract structural equality |
| OptionClass.EqualsNoneField | src/FunctionalWay/Options/Option.cs:80 | `Equals(None)` on the object is the abstract comparison with the None marker |
| OptionClass.OpEqField | src/FunctionalWay/Options/Option.cs:96 | `==` on objects is `==` on the Options they stand for |
| OptionClass.OpNeField | src/FunctionalWay/Options/Option.cs:97 | `!=` on objects is `!=` on the Options they stand for |
| OptionClass.ToStringField | src/FunctionalWay/Options/Option.cs:99 | the object's rendering is the abstract rendering |
| OptionClass.HashFieldRefines | src/FunctionalWay/Options/Option.cs:87-93 | on an object keeping the class invariant, hashing the payload field gives the hash of the abstract Option, with `default(T)` hashed for None |
| OptionClass.NoneObjectsHashAlike | src/FunctionalWay/Options/Option.cs:87-93 | all None objects have the same hash code, because they keep `default(T)` in the payload field |
| OptionLaws.QueriesExclusive | src/FunctionalWay/Options/Option.cs:22-37 | `IsNone` is always the negation of `IsSome`; an Option built from a value is `IsSome`, one built without is `IsNone` |
| OptionLaws.MatchSelectsBranch | src/FunctionalWay/Options/Option.cs:39-42 | `Match` on `Some(v)` returns the Some branch applied to `v`, and on None returns the None branch's result |
| OptionLaws.MatchIgnoresInactiveBranch | src/FunctionalWay/Options/Option.cs:39-42 | only the active branch decides the result: replacing the other branch changes nothing |
| OptionLaws.MatchIsUniversal | src/FunctionalWay/Options/Option.cs:66-68 | `IsSome` and `Map` are instances of `Match`, and matching with the two constructors rebuilds the Option |
| OptionLaws.MatchMapFusion | src/FunctionalWay/Options/Option.cs:66-68 | matching a mapped Option is matching the original with the function folded into the Some branch |
| OptionLaws.MatchActionRunsOneBranch | src/FunctionalWay/Options/Option.cs:44-45 | the `Action` form runs exactly one branch, the one of the active variant (shown with branches that log their name) |
| OptionLaws.MapCases | src/FunctionalWay/Options/Option.cs:66-68 | `Map(f)` turns `Some(v)` into `Some(f(v))` and None into None |
| OptionLaws.MapIdentity | src/FunctionalWay/Options/Option.cs:66-68 | functor identity: mapping the identity returns the Option unchanged |
| OptionLaws.MapComposition | src/FunctionalWay/Options/Option.cs:66-68 | functor composition: mapping `f` and then `g` is mapping their composite |
| OptionLaws.MapPreservesEquals | src/FunctionalWay/Options/Option.cs:66-78 | a function that respects the payload equalities maps equal Options to equal Options |
| OptionLaws.EqualsCases | src/FunctionalWay/Options/Option.cs:74-78 | equal iff both None, or both Some with `eq`-equal payloads; a Some never equals a None, in either order |
| OptionLaws.EqualsIsStructural | src/FunctionalWay/Options/Option.cs:74-78 | with value equality on payloads, Option equality is equality of the values |
| OptionLaws.EqualsReflexive | src/FunctionalWay/Options/Option.cs:74-78 | reflexive payload equality makes Option equality reflexive |
| OptionLaws.EqualsSymmetric | src/FunctionalWay/Options/Option.cs:74-78 | symmetric payload equality makes Option equality symmetric |
| OptionLaws.EqualsTransitive | src/FunctionalWay/Options/Option.cs:74-78 | transitive payload equality makes Option equality transitive |
| OptionLaws.EqualsNoneAgrees | src/FunctionalWay/Options/Option.cs:80 | comparing with the bare None marker holds iff the Option is None, and agrees with comparing to the None variant under any payload equality |
| OptionLaws.OperatorsAgree | src/FunctionalWay/Options/Option.cs:96-97 | `==` agrees with `Equals(Option)` and `!=` is exactly its negation |
| OptionLaws.HashConsistent | src/FunctionalWay/Options/Option.cs:87-93 | if the payload hash agrees with the payload equality, equal Options have equal hash codes |
| OptionLaws.HashSeparatesVariants | src/FunctionalWay/Options/Option.cs:91 | the flag's hash lands in the lowest bit, so `Some(v)` and None hash differently when the hashes of `v` and of `default(T)` share their lowest bit |
| OptionLaws.ToStringInjective | src/FunctionalWay/Options/Option.cs:99 | if the payload rendering is injective, so is the Option rendering |
| OptionScenarios.GreetPicksBranch | src/FunctionalWay.Tests/OptionTests.cs:10-28 | `Greet(Some("John"))` is "hello, John" and `Greet(None)` is "sorry, who?" |
| OptionScenarios.NoNameIsNone | src/FunctionalWay.Tests/OptionTests.cs:30-40 | the Option without a name equals the None marker and the None variant, and the `Action` form runs only its None branch |
| OptionScenarios.SomeComparesPayload | src/FunctionalWay.Tests/OptionTests.cs:54-58 | `Some(20)` equals `Some(20)`, and `Some(20)` differs from `Some(21)` |
| OptionScenarios.RenderingExample | src/FunctionalWay/Options/Option.cs:99 | a string payload "John" renders as `Some(John)`, and the Option without a name renders as `None` |

## Left out

- The asynchronous `Match<R>(Func<R>, Func<T, Task<R>>)` and `MatchAsync` (Option.cs:47-64) are left out. Their only logic beyond awaiting a task is the branch selection of `Match`, which is modelled.
- The `Action` form of `Match` (Option.cs:44-45) returns `Unit`. It adapts its actions through a `ToFunc` helper that is not part of this model. The model keeps the effects: each action is a transformer of a world state, and the unit result is dropped.
- `Equals(object)` (Option.cs:82-85) is left out. It casts its argument unchecked (Option.cs:84), so a non-Option argument throws `InvalidCastException`. The .NET `Object.Equals` contract says an implementation should not throw and should return `false` for an argument of another type; the code does not do that, and .NET runtime exceptions are not modelled.
- Null is not modelled; in the model every Option, marker and function argument exists. The null failures left out are:
  - the payload dereference in `_value.Equals` (Option.cs:77);
  - a null receiver of `==`/`!=` (Option.cs:96-97);
  - a null right operand of `==`, `!=` or `Equals(Option<T>)`, which fails at `other._isSome` (Option.cs:76);
  - a null `Match` branch (Option.cs:41);
  - a null `func` passed to `Map` (Option.cs:68);
  - a null `Some<T>` marker in the conversion (Option.cs:71).
- The payload type's `Equals`, `EqualityComparer<T>.Default.GetHashCode` and `ToString` are foreign. They are the parameters `eq`, `hash` and `show`, and `dflt` stands for `default(T)`.
- The factory class `F` (`F.Some`, `F.None`) is not part of this model. The datatype constructors take its place.
- The marker classes `Some<T>` and `None` (Option.cs:8-17) are not separate types. Their conversions (Option.cs:71-72) are `OptionClass.FromValue` and `OptionClass.Empty`.
- The test harness (xUnit, `Console.Write`) and the commented-out asynchronous test (OptionTests.cs:42-52) are left out.

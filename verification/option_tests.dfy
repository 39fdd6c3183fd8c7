/** The scenarios of the repository's test suite, as lemmas about the model. */
module OptionScenarios {
  import opened Options

  /** The test suite's `Greet`: greets a name when there is one. */
  function Greet(name: Option<string>): string {
    Match(name, () => "sorry, who?", n => "hello, " + n)
  }

  /** The test suite's `GetName`: a name, or nothing. */
  function GetName(isReal: bool): Option<string> {
    if isReal then Some("Name") else None
  }

  /** `Match_should_call_appropriate_func`. */
  lemma GreetPicksBranch()
    ensures Greet(Some("John")) == "hello, John"
    ensures Greet(None) == "sorry, who?"
  {
  }

  /** `Match_should_handle_action`: the result without a name equals the
      bare `None` marker and the None variant; the `Action` form then runs
      only the `None` branch, here writing "Nothing" to a console model. */
  lemma NoNameIsNone()
    ensures EqualsNone(GetName(false))
    ensures Equals(GetName(false), None, (x: string, y: string) => x == y)
    ensures MatchAction(GetName(false), w => w + "Nothing", (n, w) => w + n, "") == "Nothing"
  {
  }

  /** `Should_compare_cointained_value`, with the payload compared by value.
      The lemma assumes the factory's `Some` yields an Option: if it yielded
      the `Some<T>` marker, the test would compare two marker objects by
      reference and never reach the Option's equality. The `Some(21)` cases
      are an extra negative case that the test does not assert. */
  lemma SomeComparesPayload()
    ensures Equals(Some(20), Some(20), (x: int, y: int) => x == y)
    ensures !Equals(Some(20), Some(21), (x: int, y: int) => x == y)
    ensures OpNe(Some(20), Some(21), (x: int, y: int) => x == y)
  {
  }

  /** A string payload renders as itself inside `Some(...)`. */
  lemma RenderingExample()
    ensures ToString(Some("John"), s => s) == "Some(John)"
    ensures ToString(GetName(false), s => s) == "None"
  {
  }
}

/** The match record that every matcher produces and every formatter consumes. */
module Match {

  /**
   * A match: `index` is the 1-based character index of the match within its line,
   * `line` the 1-based line number, `value` the pattern (for the literal matcher; with case
   * ignored it can differ from the text at `index`) and `context` the whole line.
   * A datatype value never changes once built, as the record's get-only properties promise.
   */
  datatype GrepMatch = GrepMatch(index: int, line: int, value: string, context: string)

  /** The record's value really sits at its 1-based index within its context. */
  predicate Anchored(m: GrepMatch)
  {
    1 <= m.index && m.index - 1 + |m.value| <= |m.context| &&
    m.context[m.index - 1 .. m.index - 1 + |m.value|] == m.value
  }

  /**
   * Building a record performs no validation: the four arguments are stored as given,
   * and a record whose index lies outside its context is as constructible as any other.
   */
  lemma ConstructorStoresArguments(index: int, line: int, value: string, context: string)
    ensures var m := GrepMatch(index, line, value, context);
      m.index == index && m.line == line && m.value == value && m.context == context
    ensures !Anchored(GrepMatch(0, line, value, context))
    ensures !Anchored(GrepMatch(|context| + 2, line, value, context))
  {
  }
}

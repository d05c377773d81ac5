/** Outcomes of the lexer, the decoders and the grammar: a value, or the first
    error found, with the character offset at which it was found. */
module Results {

  /** The error kinds of a STEP physical-file read. `Unsupported` marks input
      that is well formed in ISO 10303-21 but lies outside this model (the
      `\X\`, `\S\` and `\P` string escapes, binary padding other than 0). */
  datatype Error =
    | LexError(pos: nat, what: string)
    | DecodeError(pos: nat, what: string)
    | SyntaxError(pos: nat, expected: string)
    | Unsupported(pos: nat, what: string)

  datatype Option<+T> = None | Some(value: T)

  /** Failure-compatible, so that `:-` propagates the first error. */
  datatype Result<+T> = Success(value: T) | Failure(error: Error) {
    predicate IsFailure() { Failure? }
    function PropagateFailure<U>(): Result<U> requires Failure? { Failure(error) }
    function Extract(): T requires Success? { value }
  }

  /** A list result whose value is written as its first element in front of
      the rest is that list. */
  lemma SplitFirst<T>(r: Result<(seq<T>, nat)>, xs: seq<T>, e: nat)
    requires xs != [] && r == Success(([xs[0]] + xs[1..], e))
    ensures r == Success((xs, e))
  {
    assert [xs[0]] + xs[1..] == xs;
  }
}

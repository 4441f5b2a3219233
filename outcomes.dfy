/** The ways one utterance's duration extraction can stop, and the result type
    that carries either a duration vector or one of them. */
module Outcomes {

  /** Each constructor stands for one exception or failed assertion of the
      per-utterance block. */
  datatype Error =
    | ReductionFactorZero   // ceil(mel length / 0) cannot be turned into an int
    | EmptyColumn           // max() of a column of a matrix with no rows
    | InsufficientCoverage  // scaled durations sum to less than the mel length
    | NegativeEdge          // trimming left the first or the last duration negative
    | LengthMismatch        // fewer durations than input characters

  datatype Result<+T> = Success(value: T) | Failure(error: Error)
}

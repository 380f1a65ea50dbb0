/** Error kinds raised by the modelled code, and a result type carrying them. */
module Outcomes {

  /** The reasons the modelled operations stop instead of returning a value. */
  datatype Failure =
    | NoPtmGiven              // IllegalArgumentException: "No PTM given for PhosphoRS calculation."
    | PtmNotFound             // IllegalArgumentException: the given PTMs are not variable matches of the peptide
    | TooFewSites             // IllegalArgumentException: fewer potential sites than PTMs
    | ProbabilityOutOfRange   // checkProbabilityRange: a probability outside [0, 1]
    | DivisionByZero          // 1.0 / P with P == 0 (Java would produce Infinity)
    | NonPositiveNormaliser   // IllegalArgumentException: "PhosphoRS probability <= 0."
    | SiteNotScored           // IllegalArgumentException: a possible site received no score
    | EmptySpectrum           // IllegalArgumentException: peaks extracted from an empty spectrum
    | AllPeaksFiltered        // IllegalArgumentException: "All peaks removed by filtering."
    | FileNotFound(name: string)
    | NullReference           // NullPointerException: a method called on a null Integer field

  datatype Result<T> = Ok(value: T) | Err(error: Failure) {
    predicate IsFailure() { Err? }
    function PropagateFailure<U>(): Result<U>
      requires Err?
    {
      Err(error)
    }
    function Extract(): T
      requires Ok?
    {
      value
    }
  }

  datatype Option<T> = None | Some(value: T)
}

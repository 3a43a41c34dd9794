/** Failure-compatible Option and Result, and the errors the analysis can raise. */
module Wrappers {

  datatype Option<+T> = None | Some(value: T) {
    predicate IsFailure() { None? }

    function PropagateFailure<U>(): Option<U>
      requires None?
    {
      None
    }

    function Extract(): T
      requires Some?
    {
      value
    }
  }

  datatype Result<+R, +E> = Success(value: R) | Failure(error: E) {
    predicate IsFailure() { Failure? }

    function PropagateFailure<U>(): Result<U, E>
      requires Failure?
    {
      Failure(error)
    }

    function Extract(): R
      requires Success?
    {
      value
    }
  }

  /** The exceptions the analysis raises, one constructor per cause. */
  datatype Error =
    /** A requested unit type is not in the registry (KeyError, or the
        registry's own assertion, which lists every offending name). */
    | UnknownUnitTypes(names: set<string>)
    /** A layer of the run has no sort or encode entry (KeyError). */
    | MissingLayer(layer: string)
    /** The layer's position is past the end of the configured unit counts (IndexError). */
    | MissingUnitCount(layer: string)
    /** The layer's configured unit count is zero (ZeroDivisionError). */
    | ZeroUnitCount(layer: string)
    /** The frequency map was asked for with no layers (the final stacking
        refers to a loop variable that was never bound). */
    | NoLayers
}

/** Result and Option types standing for Python's exceptions and `None` results. */
module Wrappers {

  datatype Option<+T> = None | Some(value: T)

  datatype Result<+T, +E> = Ok(value: T) | Err(error: E) {
    predicate IsFailure() { Err? }

    function PropagateFailure<U>(): Result<U, E>
      requires Err?
    {
      Err(error)
    }

    function Extract(): T
      requires Ok?
    {
      value
    }
  }
}

/** The exceptions raised while a compiler artifact is turned into a contract description. */
module Errors {

  datatype Error =
    /** `ValueError` from Python's `int(text, base)` */
    | InvalidLiteral(text: string, base: int)
    /** `ValueError('Unsupported evm base sort type: ...')` */
    | UnsupportedBaseSort(typeLabel: string)
    /** `ValueError('Unsupported range predicate type: ...')` */
    | UnsupportedRangePredicate(typeLabel: string)
    /** `KeyError` when a signature has no entry in `methodIdentifiers` */
    | MissingSelector(signature: string)
    /** `ValueError` when `'C.t'.split('.')` does not give exactly two parts */
    | BadClaimId(text: string)
    /** `ValueError('Found multiple methods with name ...')` */
    | MultipleMethods(name: string)
}

/** Failure-carrying results for the operations of the toolkit's data pipeline.
    Each Python exception the modelled code raises becomes one `Error`
    alternative; an operation that can raise returns a `Result`. */
module Outcomes {

  datatype Option<+T> = None | Some(value: T)

  /** The exceptions raised by the modelled code. */
  datatype Error =
    /** `IndexError` when `copy_nums` runs past the end of a number mask
        alphabet; the message names the alphabet's size and the generate
        list. */
    | NumbersShort(available: nat, generateList: seq<string>)
    /** `IndexError` when `copy_nums` runs past the end of the letter mask
        alphabet; the message names `copy_nums`. */
    | AlphabetShort(copyNums: nat)
    /** `IndexError` from `word[0]` on an empty equation token. */
    | EmptyToken
    /** `NotImplementedError` for an unsupported option value. */
    | NotImplementedError(option: string)
    /** `ValueError`: an unknown split name, `max()` of an empty list,
        or `list.index` of an absent element. */
    | ValueError(what: string)
    /** `KeyError` on a missing dictionary key. */
    | KeyError(key: string)
    /** `SyntaxError`: a command-line argument repeated with another value. */
    | SyntaxError(arg: string)
    /** `TypeError`: a configuration key that is not a string. */
    | TypeError
    /** `ZeroDivisionError`: a batch size of zero. */
    | ZeroDivisionError

  datatype Result<+T> = Success(value: T) | Failure(error: Error) {
    predicate IsFailure() {
      Failure?
    }

    function PropagateFailure<U>(): Result<U>
      requires Failure?
    {
      Failure(error)
    }

    function Extract(): T
      requires Success?
    {
      value
    }
  }
}

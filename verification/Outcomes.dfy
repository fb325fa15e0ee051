// How a contract call ends (src/types/error.rs).

module Outcomes {

  datatype ContractError =
    | Std
    | Unauthorized
    | InvalidChannelOrdering
    | InvalidHostPort
    | InvalidControllerPort
    | InvalidVersion(expected: string, actual: string)
    | InvalidAddress
    | UnsupportedTxType(txType: string)
    | InvalidConnection
    | UnknownDataType(what: string)
    | ActiveChannelAlreadySet
    | InvalidChannelInContractState
    | IcaInfoNotSet

  /** A result, a contract error, or a panic, which aborts the call. */
  datatype Outcome<+T> = Ok(value: T) | Err(error: ContractError) | Abort {

    predicate IsFailure() {
      !Ok?
    }

    function PropagateFailure<U>(): Outcome<U>
      requires !Ok?
    {
      match this
      case Err(e) => Outcome.Err(e)
      case Abort => Outcome.Abort
    }

    /** The ending alone, without the result. */
    function Ending(): Outcome<()> {
      match this
      case Ok(_) => Outcome.Ok(())
      case Err(e) => Outcome.Err(e)
      case Abort => Outcome.Abort
    }

    function Extract(): T
      requires Ok?
    {
      value
    }
  }
}

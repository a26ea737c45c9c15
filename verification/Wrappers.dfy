/** Failure-compatible results, and the errors the modelled instructions can raise. */
module Wrappers {

  /** Rust's Option, usable with `:-` where the source writes `?`. */
  datatype Option<+T> = None | Some(value: T) {
    predicate IsFailure() {
      None?
    }

    function PropagateFailure<U>(): Option<U>
      requires None?
    {
      None
    }

    function Extract(): T
      requires Some?
    {
      value
    }

    /** The source's `ok_or_else(math_error!())`. */
    function OrMathError(): Result<T> {
      match this
      case Some(v) => Ok(v)
      case None => Err(MathError)
    }
  }

  /** The MarginfiError (and DriftMocksError) variants raised by the modelled code, plus Panic for the source's panics. */
  datatype Error =
    | MathError
    | BankAssetCapacityExceeded
    | BankLiabilityCapacityExceeded
    | IllegalUtilizationRatio
    | OperationRepayOnly
    | OperationDepositOnly
    | OperationWithdrawOnly
    | OperationBorrowOnly
    | NoAssetFound
    | NoLiabilityFound
    | IllegalBalanceState
    | BankAccountNotFound
    | BalanceNotBadDebt
    | AccountNotBankrupt
    | TransferFailed
    | AccountBorrowFailed
    | ZeroLiquidationAmount
    | OverliquidationAttempt
    | NotAllowedInCPI
    | InvalidConfig
    | BadEmodeConfig
    | PauseLimitExceeded
    | DailyWithdrawalLimitExceeded
    | StartNotFirst
    | StartRepeats
    | EndNotLast
    | ForbiddenIx
    | Panic

  /** Rust's Result over those errors. */
  datatype Result<+T> = Ok(value: T) | Err(error: Error) {
    predicate IsFailure() {
      Err?
    }

    function PropagateFailure<U>(): Result<U>
      requires Err?
    {
      Err(error)
    }

    function Extract(): T
      requires Ok?
    {
      value
    }
  }

  /** The source's `check!`: an error unless the condition holds. */
  function Check(condition: bool, error: Error): Result<()> {
    if condition then Ok(()) else Err(error)
  }
}

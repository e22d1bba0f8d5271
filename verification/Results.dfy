/** Optional values, and outcomes of calls that either succeed or revert. */
module Results {

  datatype Option<+T> = None | Some(value: T)

  /** Why a call reverted. */
  datatype Error =
    | Paused
    | Unauthorized
    | InvalidAmount
    | InsufficientDepositorBalance
    | InsufficientPoolLiquidity
    | InsufficientCollateral
    | WouldUndercollateralize
    | NothingToRepay
    | SelfLiquidation
    | NotLiquidatable
    | NoPriceSource
    | InvalidPrice
    | PoolShort
    | PayerShort
    | Overflow

  datatype Result<+T> = Ok(value: T) | Err(error: Error) {
    predicate IsFailure() {
      Err?
    }

    function PropagateFailure<U>(): Result<U>
      requires Err?
    {
      Err(error)
    }

    function Extract(): T
      requires Ok?
    {
      value
    }
  }
}

/** The error values that cross the core's boundaries. Go returns them as `error`
    interfaces and callers tell them apart by type (`errors.As`); here they are one
    tagged union. */
module Errors {
  import opened Ids
  import opened OrderNumber
  import opened AccrualSource

  /** The payload of a field conflict (`Data()`), which tells the HTTP layer what clashed. */
  datatype ConflictData = NumberData(number: Number) | UserData(user: UserId) | OrderData(id: OrderId)

  datatype Error =
    | FieldConflict(data: ConflictData)                        // internal.ErrFieldConflict, postgres errFieldConflict
    | SourceFailed(cause: AccrualError)                        // an accrual-client error, possibly wrapped
    | WithdrawRefused(current: real, withdraw: real, orderAcc: real)   // errWithdraw
    | Parse(numError: NumError)                                // a stored number that does not parse
    | Storage                                                  // any other database error
}

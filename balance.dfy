/** `order.Balance` (internal/model/order/balance.go): a read-only triple. The fields
    `current` and `withdrawn` are the accessors `Current()` and `Withdraw()`; the type
    has no mutators (the adders in the source are commented out). */
module OrderBalance {
  import opened Ids
  import opened OrderAccrual

  datatype Balance = Balance(userId: UserId, current: Accrual, withdrawn: Accrual)

  /** `NewBalance`: stores its arguments as given. */
  function NewBalance(userId: UserId, current: Accrual, withdrawn: Accrual): Balance {
    Balance(userId, current, withdrawn)
  }
}

/** The read side of service/order/getting.go: a user's orders, withdrawals and
    balance, each one `OrdersByStatuses` query. */
module OrderService {
  import opened Wrappers
  import opened Ids
  import opened OrderStatus
  import opened OrderEntity
  import opened OrderBalance
  import opened Errors
  import opened OrderStore
  import opened SaveService

  /** The statuses `GetOrders` lists: every order status except withdrawal. */
  const OrderStatuses: seq<Status> := [StatusNew, StatusProcessing, StatusInvalid, StatusProcessed]

  /** The status `Withdrawals` lists. */
  const WithdrawStatuses: seq<Status> := [StatusWithdraw]

  /** `orderService.GetOrders`; the wrapped error is the store's. */
  method GetOrders(store: Store, userId: UserId, fault: Fault) returns (r: Result<seq<Order>, Error>)
    ensures r == ByStatuses(store.State(), userId, OrderStatuses, fault)
  {
    r := store.OrdersByStatuses(userId, OrderStatuses, fault);
    if r.Failure? {
      return Failure(r.error);
    }
  }

  /** `orderService.Withdrawals`. */
  method Withdrawals(store: Store, userId: UserId, fault: Fault) returns (r: Result<seq<Order>, Error>)
    ensures r == ByStatuses(store.State(), userId, WithdrawStatuses, fault)
  {
    r := store.OrdersByStatuses(userId, WithdrawStatuses, fault);
  }

  /** What `orderService.Balance` returns. */
  function BalanceResult(t: Tables, userId: UserId, fault: Fault): Result<Balance, Error> {
    match ByStatuses(t, userId, BalanceStatuses, fault)
    case Failure(e) => Failure(e)
    case Success(orders) => Success(BalanceOf(userId, orders))
  }

  /** `orderService.Balance`. */
  method Balance(store: Store, userId: UserId, fault: Fault) returns (r: Result<Balance, Error>)
    ensures r == BalanceResult(store.State(), userId, fault)
  {
    var orders := store.OrdersByStatuses(userId, BalanceStatuses, fault);
    if orders.Failure? {
      return Failure(orders.error);
    }
    var b := GetBalance(userId, orders.value);
    r := Success(b);
  }

  /** `GetOrders` lists exactly the user's stored orders whose status is one of the
      four order statuses (never a withdrawal), oldest first, one order per joined record. */
  lemma GetOrdersExact(t: Tables, userId: UserId)
    requires TablesValid(t)
    ensures ByStatuses(t, userId, OrderStatuses, NoFault).Success?
    ensures Selects(t, userId, OrderStatuses, ByStatuses(t, userId, OrderStatuses, NoFault).value)
  {
    ByStatusesExact(t, userId, OrderStatuses);
  }

  /** `Withdrawals` lists exactly the user's stored withdrawals, oldest first, one per
      joined record; their rows are the ones whose status text is `withdrawal`. */
  lemma WithdrawalsExact(t: Tables, userId: UserId)
    requires TablesValid(t)
    ensures ByStatuses(t, userId, WithdrawStatuses, NoFault).Success?
    ensures Selects(t, userId, WithdrawStatuses, ByStatuses(t, userId, WithdrawStatuses, NoFault).value)
    ensures Texts(WithdrawStatuses) == ["withdrawal"]
  {
    ByStatusesExact(t, userId, WithdrawStatuses);
  }

  /** The balance `Balance` reports is the one `Withdraw` checks a request against:
      a request is refused exactly when it is not below the reported
      `current - withdrawn`. */
  lemma BalanceIsWhatWithdrawChecks(t: Tables, o: Order, readFault: Fault, saveFault: Fault)
    requires o.info.accrual.Some? && Named(o.info.status)
    requires BalanceResult(t, o.userId, readFault).Success?
    ensures var b := BalanceResult(t, o.userId, readFault).value;
      (WithdrawOutcome(t, o, readFault, saveFault).1 == Some(Refusal(b, o.info.accrual.value)))
        <==> b.current - b.withdrawn <= o.info.accrual.value
  {
    var b := BalanceResult(t, o.userId, readFault).value;
    WithdrawRefusesIff(t, o, readFault, saveFault);
    if b.current - b.withdrawn > o.info.accrual.value {
      SaveOutcomeErrors(t, o, saveFault);
    }
  }
}

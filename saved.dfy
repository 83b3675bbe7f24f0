/** The save service of service/order/saved.go: registering an order number for a
    user (`LoadOrder`), the balance fold over a user's orders (`getBalance`) and
    withdrawing points (`Withdraw`). The Luhn check it calls is module `Luhn`. */
module SaveService {
  import opened Wrappers
  import opened Ids
  import opened OrderStatus
  import opened OrderAccrual
  import opened OrderNumber
  import opened OrderInfo
  import opened OrderEntity
  import opened OrderBalance
  import opened Luhn
  import opened AccrualSource
  import opened Errors
  import opened OrderStore

  // ----- getBalance -----

  /** The two accumulators of `getBalance`: `procAcc` and `withAcc`. */
  datatype Totals = Totals(processed: Accrual, withdrawn: Accrual)

  /** One turn of the `getBalance` loop. A withdrawal adds to `withAcc`; a processed
      order sets `procAcc` to `withAcc` plus its accrual, dropping what `procAcc` held. */
  function Step(acc: Totals, o: Order): Totals {
    if o.info.status == StatusWithdraw then acc.(withdrawn := Add(acc.withdrawn, o.info.accrual))
    else if o.info.status == StatusProcessed then acc.(processed := Add(acc.withdrawn, o.info.accrual))
    else acc
  }

  /** The loop over `orders`, from two zero accumulators. */
  function Fold(orders: seq<Order>): Totals {
    if orders == [] then Totals(0, 0) else Step(Fold(orders[..|orders| - 1]), orders[|orders| - 1])
  }

  /** `getBalance`: `current` is `procAcc - withAcc` in `uint64` arithmetic. */
  function BalanceOf(userId: UserId, orders: seq<Order>): Balance {
    var t := Fold(orders);
    NewBalance(userId, (t.processed - t.withdrawn) % Modulus, t.withdrawn)
  }

  /** `getBalance` as the loop it is. */
  method GetBalance(userId: UserId, orders: seq<Order>) returns (b: Balance)
    ensures b == BalanceOf(userId, orders)
  {
    var procAcc: Accrual := 0;
    var withAcc: Accrual := 0;
    for i := 0 to |orders|
      invariant Fold(orders[..i]) == Totals(procAcc, withAcc)
    {
      assert orders[..i + 1][..i] == orders[..i];
      var oi := orders[i].info;
      if oi.status == StatusWithdraw {
        withAcc := Add(withAcc, oi.accrual);
      } else if oi.status == StatusProcessed {
        procAcc := Add(withAcc, oi.accrual);
      }
    }
    assert orders[..|orders|] == orders;
    b := NewBalance(userId, (procAcc - withAcc) % Modulus, withAcc);
  }

  /** The accruals of the withdrawals among `orders`, in order. */
  function WithdrawnAccruals(orders: seq<Order>): (accs: seq<Option<Accrual>>)
    ensures |accs| <= |orders|
  {
    if orders == [] then []
    else
      var o := orders[|orders| - 1];
      WithdrawnAccruals(orders[..|orders| - 1]) + (if o.info.status == StatusWithdraw then [o.info.accrual] else [])
  }

  lemma SumAppendOne(accs: seq<Option<Accrual>>, x: Option<Accrual>)
    ensures Sum(accs + [x]) == Add(Sum(accs), x)
  {
    assert (accs + [x])[..|accs|] == accs;
  }

  /** `withAcc` ends as the `uint64` sum of every withdrawal's accrual. */
  lemma {:induction false} WithdrawnIsSum(orders: seq<Order>)
    ensures Fold(orders).withdrawn == Sum(WithdrawnAccruals(orders))
  {
    if orders != [] {
      var n := |orders| - 1;
      WithdrawnIsSum(orders[..n]);
      if orders[n].info.status == StatusWithdraw {
        SumAppendOne(WithdrawnAccruals(orders[..n]), orders[n].info.accrual);
      } else {
        assert WithdrawnAccruals(orders) == WithdrawnAccruals(orders[..n]);
      }
    }
  }

  /** With no processed order, `procAcc` stays 0. */
  lemma {:induction false} NoProcessedNoCredit(orders: seq<Order>)
    requires forall i :: 0 <= i < |orders| ==> orders[i].info.status != StatusProcessed
    ensures Fold(orders).processed == 0
  {
    if orders != [] {
      NoProcessedNoCredit(orders[..|orders| - 1]);
    }
  }

  /** `procAcc` ends as the accrual of the last processed order plus the withdrawals
      before it; earlier processed orders do not count. */
  lemma {:induction false} ProcessedIsLastOnly(before: seq<Order>, p: Order, after: seq<Order>)
    requires p.info.status == StatusProcessed
    requires forall i :: 0 <= i < |after| ==> after[i].info.status != StatusProcessed
    ensures Fold(before + [p] + after).processed == Add(Sum(WithdrawnAccruals(before)), p.info.accrual)
    decreases |after|
  {
    if after == [] {
      var s := before + [p];
      assert before + [p] + after == s;
      assert s[..|s| - 1] == before;
      WithdrawnIsSum(before);
    } else {
      var s := before + [p] + after;
      var n := |after| - 1;
      assert s[..|s| - 1] == before + [p] + after[..n];
      ProcessedIsLastOnly(before, p, after[..n]);
    }
  }

  /** Orders with a status other than withdrawal and processed leave the balance alone. */
  lemma {:induction false} OtherStatusesIgnored(orders: seq<Order>, o: Order)
    requires o.info.status != StatusWithdraw && o.info.status != StatusProcessed
    ensures Fold(orders + [o]) == Fold(orders)
  {
    assert (orders + [o])[..|orders|] == orders;
  }

  function Processed(accrual: Accrual, at: Time): Order {
    Order(OrderId(1), UserId(1), Info(0, StatusProcessed, Some(accrual), at))
  }

  function Withdrawal(accrual: Accrual, at: Time): Order {
    Order(OrderId(2), UserId(1), Info(0, StatusWithdraw, Some(accrual), at))
  }

  /** Two processed orders of 5.00 and 3.00 points leave a current balance of 3.00,
      not 8.00: `procAcc` is reassigned rather than accumulated. */
  lemma TwoProcessedKeepLast()
    ensures BalanceOf(UserId(1), [Processed(500, 1), Processed(300, 2)]).current == 300
  {
    var s := [Processed(500, 1), Processed(300, 2)];
    assert s[..1] == [Processed(500, 1)];
    assert [Processed(500, 1)][..0] == [];
  }

  /** A withdrawal of 1.00 before a processed order of 5.00 leaves a current balance of
      5.00: the withdrawal is added into `procAcc` and then subtracted again. */
  lemma WithdrawalBeforeProcessedCancels()
    ensures BalanceOf(UserId(1), [Withdrawal(100, 1), Processed(500, 2)]) == Balance(UserId(1), 500, 100)
  {
    var s := [Withdrawal(100, 1), Processed(500, 2)];
    assert s[..1] == [Withdrawal(100, 1)];
    assert [Withdrawal(100, 1)][..0] == [];
  }

  /** A processed order of 5.00 and then a withdrawal of 4.00 leave too little for a
      request of 2.00; the first order alone, as a balance read that breaks off after
      one row returns it, leaves enough. */
  lemma CutReadHidesWithdrawal()
    ensures var b := BalanceOf(UserId(1), [Processed(500, 1), Withdrawal(400, 2)]);
      b.current - b.withdrawn <= 200
    ensures var b := BalanceOf(UserId(1), [Processed(500, 1)]);
      b.current - b.withdrawn > 200
  {
    var s := [Processed(500, 1), Withdrawal(400, 2)];
    assert s[..1] == [Processed(500, 1)];
    assert [Processed(500, 1)][..0] == [];
  }

  /** A user with only a withdrawal of 5.00 has a current balance that wraps below zero. */
  lemma LoneWithdrawalWraps()
    ensures BalanceOf(UserId(1), [Withdrawal(500, 1)]).current == Modulus - 500
  {
    assert [Withdrawal(500, 1)][..0] == [];
  }

  // ----- LoadOrder -----

  /** The tables and the error after `LoadOrder(userId, number)`, when the accrual
      system answers `answer`, `NewID` yields `freshId` and the clock reads `now`. */
  function LoadOutcome(t: Tables, answer: Exchange, userId: UserId, number: Number, freshId: OrderId, now: Time, fault: Fault): (Tables, Option<Error>) {
    if !ValidNumber(ToInt(number)) then (t, Some(FieldConflict(NumberData(number))))
    else
      match Classify(number, answer, RequestRetryAfter, now)
      case Failure(e) => (t, Some(SourceFailed(e)))
      case Success(info) => SaveOutcome(t, New(freshId, userId, info), fault)
  }

  /** `saveService.LoadOrder`: the Luhn check, then one request to the accrual system,
      then `SaveOrder`. */
  method LoadOrder(store: Store, source: Source, userId: UserId, number: Number, freshId: OrderId, now: Time, fault: Fault)
    returns (err: Option<Error>)
    requires store.Valid()
    modifies store, source`requested
    ensures store.Valid()
    ensures (store.State(), err) == LoadOutcome(old(store.State()), source.answer(number), userId, number, freshId, now, fault)
    ensures source.requested == old(source.requested) + (if ValidNumber(ToInt(number)) then [number] else [])
  {
    var valid := IsValidNumber(ToInt(number));
    if !valid {
      return Some(FieldConflict(NumberData(number)));
    }
    var info := source.Load(number, now);
    if info.Failure? {
      return Some(SourceFailed(info.error));
    }
    err := store.SaveOrder(New(freshId, userId, info.value), fault);
  }

  /** A number that fails the Luhn check is refused before anything is asked or stored. */
  lemma LoadRejectsInvalid(t: Tables, answer: Exchange, userId: UserId, number: Number, freshId: OrderId, now: Time, fault: Fault)
    requires !ValidNumber(ToInt(number))
    ensures LoadOutcome(t, answer, userId, number, freshId, now, fault) == (t, Some(FieldConflict(NumberData(number))))
  {
  }

  /** A valid new number that the accrual system does not know (204) is stored as a
      new order of the user, status `NEW`, no accrual, uploaded now. */
  lemma LoadUnknownNumber(t: Tables, userId: UserId, number: Number, freshId: OrderId, now: Time, body: Option<Body>, retry: string)
    requires TablesValid(t) && ValidNumber(ToInt(number))
    requires forall i :: 0 <= i < |t.orders| ==> t.orders[i].num != ToInt(number) && t.orders[i].id != freshId
    ensures var (t', err) := LoadOutcome(t, Reply(204, body, retry), userId, number, freshId, now, NoFault);
      && err == None
      && t'.orders == t.orders + [OrderRow(freshId, userId, ToInt(number), "NEW", now)]
      && t'.sums == t.sums
  {
    var o := New(freshId, userId, Info(number, StatusNew, None, now));
    NoContentReply(number, body, RequestRetryAfter, now);
    SaveNewNumber(t, o);
  }

  /** Loading a number the same user already has, under a new ID, reports a conflict
      on the new ID and stores nothing: the HTTP layer answers "already uploaded". */
  lemma LoadAgainBySameUser(t: Tables, answer: Exchange, userId: UserId, number: Number, freshId: OrderId, now: Time, fault: Fault, i: nat)
    requires TablesValid(t) && ValidNumber(ToInt(number)) && fault != FaultAt(0)
    requires Classify(number, answer, RequestRetryAfter, now).Success?
    requires i < |t.orders| && t.orders[i].num == ToInt(number) && t.orders[i].userId == userId && t.orders[i].id != freshId
    ensures LoadOutcome(t, answer, userId, number, freshId, now, fault) == (t, Some(FieldConflict(OrderData(freshId))))
  {
    var info := Classify(number, answer, RequestRetryAfter, now).value;
    SaveNumberOfSameUser(t, New(freshId, userId, info), fault, i);
  }

  /** Loading a number another user already has reports a conflict on the caller and
      stores nothing. */
  lemma LoadNumberOfOtherUser(t: Tables, answer: Exchange, userId: UserId, number: Number, freshId: OrderId, now: Time, fault: Fault, i: nat)
    requires TablesValid(t) && ValidNumber(ToInt(number)) && fault != FaultAt(0)
    requires Classify(number, answer, RequestRetryAfter, now).Success?
    requires i < |t.orders| && t.orders[i].num == ToInt(number) && t.orders[i].userId != userId
    ensures LoadOutcome(t, answer, userId, number, freshId, now, fault) == (t, Some(FieldConflict(UserData(userId))))
  {
    var info := Classify(number, answer, RequestRetryAfter, now).value;
    SaveNumberOfOtherUser(t, New(freshId, userId, info), fault, i);
  }

  /** Whatever happens, the tables stay valid, and an error leaves them as they were. */
  lemma LoadKeepsValid(t: Tables, answer: Exchange, userId: UserId, number: Number, freshId: OrderId, now: Time, fault: Fault)
    requires TablesValid(t)
    ensures TablesValid(LoadOutcome(t, answer, userId, number, freshId, now, fault).0)
    ensures LoadOutcome(t, answer, userId, number, freshId, now, fault).1.Some? ==>
              LoadOutcome(t, answer, userId, number, freshId, now, fault).0 == t
  {
    if ValidNumber(ToInt(number)) {
      var c := Classify(number, answer, RequestRetryAfter, now);
      if c.Success? {
        SaveKeepsValid(t, New(freshId, userId, c.value), fault);
      }
    }
  }

  // ----- Withdraw -----

  /** The statuses `Withdraw` and `Balance` read. */
  const BalanceStatuses: seq<Status> := [StatusWithdraw, StatusProcessed]

  /** The refusal test of `Withdraw`, on the `ToFloat` values as Go compares them. */
  predicate Refused(b: Balance, acc: Accrual) {
    ToFloat(b.current) - ToFloat(b.withdrawn) <= ToFloat(acc)
  }

  /** The same test in hundredths: the request is refused unless it is strictly less
      than `current - withdrawn`. */
  lemma RefusedInHundredths(b: Balance, acc: Accrual)
    ensures Refused(b, acc) <==> b.current - b.withdrawn <= acc
  {
    assert ToFloat(b.current) * 100.0 == b.current as real;
    assert ToFloat(b.withdrawn) * 100.0 == b.withdrawn as real;
    assert ToFloat(acc) * 100.0 == acc as real;
    assert (ToFloat(b.current) - ToFloat(b.withdrawn)) * 100.0 == (b.current - b.withdrawn) as real;
  }

  /** `errWithdraw.IsSuccessful`. */
  predicate IsSuccessful(current: real, withdraw: real, orderAcc: real) {
    current - withdraw <= orderAcc
  }

  /** The error `Withdraw` returns for a refused request. */
  function Refusal(b: Balance, acc: Accrual): (e: Error)
    ensures e.WithdrawRefused?
  {
    WithdrawRefused(ToFloat(b.current), ToFloat(b.withdrawn), ToFloat(acc))
  }

  /** The tables and the error after `Withdraw(o)`: `readFault` is for the balance
      query, `saveFault` for `SaveOrder`. */
  function WithdrawOutcome(t: Tables, o: Order, readFault: Fault, saveFault: Fault): (Tables, Option<Error>)
    requires o.info.accrual.Some? && Named(o.info.status)
  {
    match ByStatuses(t, o.userId, BalanceStatuses, readFault)
    case Failure(e) => (t, Some(e))
    case Success(orders) =>
      var b := BalanceOf(o.userId, orders);
      if Refused(b, o.info.accrual.value) then (t, Some(Refusal(b, o.info.accrual.value)))
      else SaveOutcome(t, o, saveFault)
  }

  /** `saveService.Withdraw`. The order's accrual must be set: `ToFloat` on a nil
      `*Accrual` panics. */
  method Withdraw(store: Store, o: Order, readFault: Fault, saveFault: Fault) returns (err: Option<Error>)
    requires store.Valid() && o.info.accrual.Some? && Named(o.info.status)
    modifies store
    ensures store.Valid()
    ensures (store.State(), err) == WithdrawOutcome(old(store.State()), o, readFault, saveFault)
  {
    var orders := store.OrdersByStatuses(o.userId, BalanceStatuses, readFault);
    if orders.Failure? {
      return Some(orders.error);
    }
    var orderAcc := o.info.accrual.value;
    var balance := GetBalance(o.userId, orders.value);
    if ToFloat(balance.current) - ToFloat(balance.withdrawn) <= ToFloat(orderAcc) {
      return Some(Refusal(balance, orderAcc));
    }
    err := store.SaveOrder(o, saveFault);
  }

  /** Every refusal `Withdraw` returns reports itself as successful. */
  lemma RefusalIsSuccessful(t: Tables, o: Order, readFault: Fault, saveFault: Fault)
    requires o.info.accrual.Some? && Named(o.info.status)
    requires WithdrawOutcome(t, o, readFault, saveFault).1.Some?
    requires WithdrawOutcome(t, o, readFault, saveFault).1.value.WithdrawRefused?
    ensures var e := WithdrawOutcome(t, o, readFault, saveFault).1.value;
      IsSuccessful(e.current, e.withdraw, e.orderAcc)
  {
    var q := ByStatuses(t, o.userId, BalanceStatuses, readFault);
    ByStatusesErrors(t, o.userId, BalanceStatuses, readFault);
    if q.Success? && !Refused(BalanceOf(o.userId, q.value), o.info.accrual.value) {
      SaveOutcomeErrors(t, o, saveFault);
    }
  }

  /** `SaveOrder` reports only storage failures and field conflicts. */
  lemma SaveOutcomeErrors(t: Tables, o: Order, fault: Fault)
    requires Named(o.info.status)
    ensures var err := SaveOutcome(t, o, fault).1;
      err.Some? ==> err.value.Storage? || err.value.FieldConflict?
  {
  }

  /** A failed balance read is returned as it is, before any check or save; and
      whenever `Withdraw` reports an error the tables are as they were. */
  lemma WithdrawErrors(t: Tables, o: Order, readFault: Fault, saveFault: Fault)
    requires o.info.accrual.Some? && Named(o.info.status)
    ensures ByStatuses(t, o.userId, BalanceStatuses, readFault).Failure? ==>
              WithdrawOutcome(t, o, readFault, saveFault) == (t, Some(ByStatuses(t, o.userId, BalanceStatuses, readFault).error))
    ensures WithdrawOutcome(t, o, readFault, saveFault).1.Some? ==> WithdrawOutcome(t, o, readFault, saveFault).0 == t
  {
    SaveAllOrNothing(t, o, saveFault);
  }

  /** With the balance read, `Withdraw` refuses exactly when the request is not below
      `current - withdrawn`; a refusal stores nothing, and otherwise the withdrawal is
      saved as an order. */
  lemma WithdrawRefusesIff(t: Tables, o: Order, readFault: Fault, saveFault: Fault)
    requires o.info.accrual.Some? && Named(o.info.status)
    requires ByStatuses(t, o.userId, BalanceStatuses, readFault).Success?
    ensures var b := BalanceOf(o.userId, ByStatuses(t, o.userId, BalanceStatuses, readFault).value);
      && (b.current - b.withdrawn <= o.info.accrual.value ==>
            WithdrawOutcome(t, o, readFault, saveFault) == (t, Some(Refusal(b, o.info.accrual.value))))
      && (b.current - b.withdrawn > o.info.accrual.value ==>
            WithdrawOutcome(t, o, readFault, saveFault) == SaveOutcome(t, o, saveFault))
  {
    var b := BalanceOf(o.userId, ByStatuses(t, o.userId, BalanceStatuses, readFault).value);
    RefusedInHundredths(b, o.info.accrual.value);
  }

  /** The balance `Withdraw` checks against is computed from exactly the user's stored
      withdrawals and processed orders, oldest first, one order per joined record. */
  lemma WithdrawReadsOwnOrders(t: Tables, o: Order)
    requires TablesValid(t) && o.info.accrual.Some? && Named(o.info.status)
    ensures ByStatuses(t, o.userId, BalanceStatuses, NoFault).Success?
    ensures Selects(t, o.userId, BalanceStatuses, ByStatuses(t, o.userId, BalanceStatuses, NoFault).value)
  {
    ByStatusesExact(t, o.userId, BalanceStatuses);
  }

  /** When the balance read breaks off after `n` rows, `Withdraw` goes on with the
      first `n` of the user's orders as if they were all of them: it refuses or saves
      by the balance of that prefix, so a withdrawal it did not read no longer counts
      against the request. */
  lemma WithdrawOnCutRead(t: Tables, o: Order, n: nat, saveFault: Fault)
    requires TablesValid(t) && o.info.accrual.Some? && Named(o.info.status)
    ensures ByStatuses(t, o.userId, BalanceStatuses, NoFault).Success?
    ensures var full := ByStatuses(t, o.userId, BalanceStatuses, NoFault).value;
      var b := BalanceOf(o.userId, if n < |full| then full[..n] else full);
      && (b.current - b.withdrawn <= o.info.accrual.value ==>
            WithdrawOutcome(t, o, RowsEndAt(n), saveFault) == (t, Some(Refusal(b, o.info.accrual.value))))
      && (b.current - b.withdrawn > o.info.accrual.value ==>
            WithdrawOutcome(t, o, RowsEndAt(n), saveFault) == SaveOutcome(t, o, saveFault))
  {
    ByStatusesCut(t, o.userId, BalanceStatuses, n);
    WithdrawRefusesIff(t, o, RowsEndAt(n), saveFault);
  }
}

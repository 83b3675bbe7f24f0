/** The update service of service/order/update.go: one pass of the background job
    (`run`) reads every order still `NEW` or `PROCESSING`, asks the accrual system
    about each (`getUpdates`) and writes the changed ones back in one transaction. */
module UpdateService {
  import opened Wrappers
  import opened Ids
  import opened OrderStatus
  import opened OrderNumber
  import opened OrderInfo
  import opened OrderEntity
  import opened AccrualSource
  import opened Errors
  import opened OrderStore

  /** The statuses `run` asks the store for. */
  const PendingStatuses: seq<Status> := [StatusNew, StatusProcessing]

  /** The accrual system as `getUpdates` sees it: the reply to the request for `number`
      made at turn `i` of the loop. Like every reply `Repo.Load` builds, a successful
      one carries a status `String` can print. */
  type Asker = ask: (Number, nat) -> Result<Info, AccrualError>
    | forall number: Number, i: nat :: ask(number, i).Success? ==> Named(ask(number, i).value.status)
    witness (number: Number, i: nat) => Failure(Failed(Transport))

  /** The replies of the accrual system whose reply to each number is `answer`, when the
      request at turn `i` is made at clock reading `clock(i)`. */
  function Replies(answer: Number -> Exchange, clock: nat -> Time): Asker {
    assert forall number: Number, i: nat :: Classify(number, answer(number), RequestRetryAfter, clock(i)).Success? ==>
             Named(Classify(number, answer(number), RequestRetryAfter, clock(i)).value.status);
    (number: Number, i: nat) => Classify(number, answer(number), RequestRetryAfter, clock(i))
  }

  /** The reply `getUpdates` gets for the i-th order. */
  function Reply(ask: Asker, orders: seq<Order>, i: nat): Result<Info, AccrualError>
    requires i < |orders|
  {
    ask(orders[i].info.number, i)
  }

  /** The first `n` turns of the `getUpdates` loop: the orders appended so far (each
      order whose new status prints differently, with the new info), or the error of
      the first failed request. Two named statuses print differently exactly when they
      differ (`StringInjective`), so the test is stated on the statuses. */
  function ChangesUpTo(ask: Asker, orders: seq<Order>, n: nat): (r: Result<seq<Order>, AccrualError>)
    requires AllNamed(orders) && n <= |orders|
    ensures r.Success? ==> AllNamed(r.value) && |r.value| <= n
  {
    if n == 0 then Success([])
    else
      var init := ChangesUpTo(ask, orders, n - 1);
      if init.Failure? then init
      else
        match Reply(ask, orders, n - 1)
        case Failure(e) => Failure(e)
        case Success(oi) =>
          if oi.status == orders[n - 1].info.status then init
          else Success(init.value + [orders[n - 1].UpdateInfo(oi)])
  }

  /** The orders `getUpdates` appends after its pre-sized prefix. */
  function Changes(ask: Asker, orders: seq<Order>): (r: Result<seq<Order>, AccrualError>)
    requires AllNamed(orders)
    ensures r.Success? ==> AllNamed(r.value) && |r.value| <= |orders|
  {
    ChangesUpTo(ask, orders, |orders|)
  }

  /** The numbers the first `n` turns send to the accrual system: every order's, up to
      and including the first failed request. */
  function QueriedUpTo(ask: Asker, orders: seq<Order>, n: nat): (q: seq<Number>)
    requires AllNamed(orders) && n <= |orders|
    ensures |q| <= n
  {
    if n == 0 then []
    else if ChangesUpTo(ask, orders, n - 1).Failure? then QueriedUpTo(ask, orders, n - 1)
    else QueriedUpTo(ask, orders, n - 1) + [orders[n - 1].info.number]
  }

  /** The numbers `getUpdates` sends to the accrual system. */
  function Queried(ask: Asker, orders: seq<Order>): (q: seq<Number>)
    requires AllNamed(orders)
    ensures |q| <= |orders|
  {
    QueriedUpTo(ask, orders, |orders|)
  }

  /** What `getUpdates` returns: `make([]order.Order, len(orders))` zero values, then the
      changes. */
  function Updates(ask: Asker, orders: seq<Order>): (r: Result<seq<Order>, AccrualError>)
    requires AllNamed(orders)
    ensures r.Success? ==> AllNamed(r.value)
  {
    match Changes(ask, orders)
    case Failure(e) => Failure(e)
    case Success(c) => Success(Zeros(|orders|) + c)
  }

  /** Once the requests have failed within the first `i` turns, later turns change
      neither the outcome nor what is asked. */
  lemma {:induction false} ChangesPrefixFailure(ask: Asker, orders: seq<Order>, i: nat, n: nat)
    requires AllNamed(orders) && i <= n <= |orders|
    requires ChangesUpTo(ask, orders, i).Failure?
    ensures ChangesUpTo(ask, orders, n) == ChangesUpTo(ask, orders, i)
    ensures QueriedUpTo(ask, orders, n) == QueriedUpTo(ask, orders, i)
  {
    if i < n {
      ChangesPrefixFailure(ask, orders, i, n - 1);
    }
  }

  /** When the first `n` requests succeed, the first `n` numbers are asked for, once
      each, in order. */
  lemma {:induction false} QueriedAll(ask: Asker, orders: seq<Order>, n: nat)
    requires AllNamed(orders) && n <= |orders| && ChangesUpTo(ask, orders, n).Success?
    ensures |QueriedUpTo(ask, orders, n)| == n
    ensures forall k :: 0 <= k < n ==> QueriedUpTo(ask, orders, n)[k] == orders[k].info.number
  {
    if n > 0 {
      QueriedAll(ask, orders, n - 1);
    }
  }

  /** The first failed request ends `getUpdates` with its error: the orders up to and
      including it were asked about, in order, and none after it. */
  lemma FirstFailureEnds(ask: Asker, orders: seq<Order>, i: nat)
    requires AllNamed(orders) && i < |orders|
    requires ChangesUpTo(ask, orders, i).Success? && Reply(ask, orders, i).Failure?
    ensures Updates(ask, orders) == Failure(Reply(ask, orders, i).error)
    ensures |Queried(ask, orders)| == i + 1
    ensures forall k :: 0 <= k <= i ==> Queried(ask, orders)[k] == orders[k].info.number
  {
    ChangesPrefixFailure(ask, orders, i + 1, |orders|);
    QueriedAll(ask, orders, i);
  }

  /** One successful turn of the `getUpdates` loop: the number is asked for, and the
      order is appended, with its new info, exactly when the status prints differently. */
  lemma TurnSucceeds(ask: Asker, orders: seq<Order>, i: nat)
    requires AllNamed(orders) && i < |orders| && ChangesUpTo(ask, orders, i).Success?
    requires Reply(ask, orders, i).Success?
    ensures QueriedUpTo(ask, orders, i + 1) == QueriedUpTo(ask, orders, i) + [orders[i].info.number]
    ensures var oi := Reply(ask, orders, i).value;
      ChangesUpTo(ask, orders, i + 1) ==
        if oi.status == orders[i].info.status then ChangesUpTo(ask, orders, i)
        else Success(ChangesUpTo(ask, orders, i).value + [orders[i].UpdateInfo(oi)])
  {
  }

  /** A failed turn of the `getUpdates` loop: the number is asked for, and `getUpdates`
      ends with that request's error. */
  lemma TurnFails(ask: Asker, orders: seq<Order>, i: nat)
    requires AllNamed(orders) && i < |orders| && ChangesUpTo(ask, orders, i).Success?
    requires Reply(ask, orders, i).Failure?
    ensures Updates(ask, orders) == Failure(Reply(ask, orders, i).error)
    ensures Queried(ask, orders) == QueriedUpTo(ask, orders, i) + [orders[i].info.number]
  {
    var e, asked := Reply(ask, orders, i).error, QueriedUpTo(ask, orders, i) + [orders[i].info.number];
    assert ChangesUpTo(ask, orders, i + 1) == Failure(e) && QueriedUpTo(ask, orders, i + 1) == asked;
    ChangesPrefixFailure(ask, orders, i + 1, |orders|);
  }

  /** The accrual system, with answers `answer` and clock readings `clock`, replies to
      the request of turn `i` as `ask` says. */
  predicate AnswersAs(answer: Number -> Exchange, clock: nat -> Time, ask: Asker, orders: seq<Order>, i: nat)
    requires i < |orders|
  {
    Reply(ask, orders, i) == Classify(orders[i].info.number, answer(orders[i].info.number), RequestRetryAfter, clock(i))
  }

  /** The request of turn `i` of the `getUpdates` loop: `accRepo.Load` of the order's
      number, at the turn's clock reading. */
  method Request(source: Source, orders: seq<Order>, i: nat, clock: nat -> Time, ghost ask: Asker) returns (oi: Result<Info, AccrualError>)
    requires i < |orders| && AnswersAs(source.answer, clock, ask, orders, i)
    modifies source`requested
    ensures oi == Reply(ask, orders, i)
    ensures source.requested == old(source.requested) + [orders[i].info.number]
  {
    oi := source.Load(orders[i].info.number, clock(i));
  }

  /** `getUpdates`. `clock(i)` is the time `NewInfo` reads during the i-th request, and
      `ask` is the accrual system as the requests see it. */
  method GetUpdates(source: Source, orders: seq<Order>, clock: nat -> Time, ghost ask: Asker) returns (r: Result<seq<Order>, AccrualError>)
    requires AllNamed(orders)
    requires forall i :: 0 <= i < |orders| ==> AnswersAs(source.answer, clock, ask, orders, i)
    modifies source`requested
    ensures r == Updates(ask, orders)
    ensures source.requested == old(source.requested) + Queried(ask, orders)
  {
    var resOrders := Zeros(|orders|);
    ghost var changes: seq<Order> := [];
    for i := 0 to |orders|
      invariant ChangesUpTo(ask, orders, i) == Success(changes)
      invariant resOrders == Zeros(|orders|) + changes
      invariant source.requested == old(source.requested) + QueriedUpTo(ask, orders, i)
    {
      var ordr := orders[i];
      var oi := Request(source, orders, i, clock, ask);
      if oi.Failure? {
        TurnFails(ask, orders, i);
        return Failure(oi.error);
      }
      TurnSucceeds(ask, orders, i);
      var differs := PrintsDifferently(oi.value.status, ordr.info.status);
      if differs {
        ordr := ordr.UpdateInfo(oi.value);
        resOrders := resOrders + [ordr];
        changes := changes + [ordr];
      }
    }
    r := Success(resOrders);
  }

  /** When the first `n` turns succeed, every one of their requests succeeded. */
  lemma {:induction false} RepliesSucceed(ask: Asker, orders: seq<Order>, n: nat)
    requires AllNamed(orders) && n <= |orders| && ChangesUpTo(ask, orders, n).Success?
    ensures forall i :: 0 <= i < n ==> Reply(ask, orders, i).Success?
  {
    if n > 0 {
      RepliesSucceed(ask, orders, n - 1);
    }
  }

  /** The reply of order `i`, when it succeeded, carries a status other than the stored one. */
  predicate NewStatus(ask: Asker, orders: seq<Order>, i: nat)
    requires i < |orders|
  {
    Reply(ask, orders, i).Success? && Reply(ask, orders, i).value.status != orders[i].info.status
  }

  /** Each change of the first `n` turns is one of those orders, with its ID and user,
      carrying the info of its reply, whose status differs from the stored one. */
  lemma {:induction false} ChangesSound(ask: Asker, orders: seq<Order>, n: nat)
    requires AllNamed(orders) && n <= |orders| && ChangesUpTo(ask, orders, n).Success?
    ensures forall c :: c in ChangesUpTo(ask, orders, n).value ==>
              exists i :: 0 <= i < n && NewStatus(ask, orders, i)
                && c == orders[i].UpdateInfo(Reply(ask, orders, i).value)
  {
    if n > 0 {
      ChangesSound(ask, orders, n - 1);
      var oi := Reply(ask, orders, n - 1).value;
      if oi.status != orders[n - 1].info.status {
        assert NewStatus(ask, orders, n - 1);
      }
    }
  }

  /** Every one of the first `n` orders whose reply carries a different status is among
      the changes. */
  lemma {:induction false} ChangesComplete(ask: Asker, orders: seq<Order>, n: nat)
    requires AllNamed(orders) && n <= |orders| && ChangesUpTo(ask, orders, n).Success?
    ensures forall i :: 0 <= i < n && NewStatus(ask, orders, i) ==>
              orders[i].UpdateInfo(Reply(ask, orders, i).value) in ChangesUpTo(ask, orders, n).value
  {
    if n > 0 {
      ChangesComplete(ask, orders, n - 1);
    }
  }

  /** An order stored as `NEW` that the accrual system reports as registered has no
      new status (`correctStatus` reads registered as `NEW`), so by `ChangesSound` it
      is not written back. */
  lemma RegisteredIsNotAChange(answer: Number -> Exchange, clock: nat -> Time, orders: seq<Order>, i: nat)
    requires i < |orders| && orders[i].info.status == StatusNew
    requires answer(orders[i].info.number).Reply? && answer(orders[i].info.number).code == 200
    requires answer(orders[i].info.number).body.Some?
    requires answer(orders[i].info.number).body.value.status == "REGISTERED"
    ensures !NewStatus(Replies(answer, clock), orders, i)
  {
    OkReply(orders[i].info.number, answer(orders[i].info.number).body.value, RequestRetryAfter, clock(i));
    ParseString(StatusRegistered);
  }

  // ----- run -----

  /** Every order a batch query returns has a status `String` can print. */
  lemma BatchNamed(t: Tables, statuses: seq<Status>, fault: Fault)
    requires forall i :: 0 <= i < |statuses| ==> Named(statuses[i])
    ensures Batch(t, statuses, fault).Success? ==> AllNamed(Batch(t, statuses, fault).value)
  {
    if Batch(t, statuses, fault).Success? {
      var recs := Delivered(Where(Joined(t.orders, t.sums), None, Texts(statuses)), fault);
      ScanValues(recs, RecordToOrder);
      forall k | 0 <= k < |recs|
        ensures Named(Scan(recs, RecordToOrder).value[k].info.status)
      {
        RecordToOrderSpec(recs[k]);
      }
    }
  }

  /** The tables and the error after `run`: `batchFault` is for `OrdersBatch`,
      `updateFault` for `OrdersUpdate`. */
  function RunOutcome(t: Tables, ask: Asker, batchFault: Fault, updateFault: Fault): (Tables, Option<Error>) {
    BatchNamed(t, PendingStatuses, batchFault);
    match Batch(t, PendingStatuses, batchFault)
    case Failure(e) => (t, Some(e))
    case Success(orders) =>
      if orders == [] then (t, None)
      else
        match Updates(ask, orders)
        case Failure(e) => (t, Some(SourceFailed(e)))
        case Success(res) => UpdateOutcome(t, res, updateFault)
  }

  /** The numbers `run` sends to the accrual system. */
  function RunQueried(t: Tables, ask: Asker, batchFault: Fault): seq<Number> {
    BatchNamed(t, PendingStatuses, batchFault);
    match Batch(t, PendingStatuses, batchFault)
    case Failure(_) => []
    case Success(orders) => Queried(ask, orders)
  }

  /** `uService.run`. */
  method Run(store: Store, source: Source, clock: nat -> Time, batchFault: Fault, updateFault: Fault) returns (err: Option<Error>)
    requires store.Valid()
    modifies store, source`requested
    ensures store.Valid()
    ensures (store.State(), err) == RunOutcome(old(store.State()), Replies(source.answer, clock), batchFault, updateFault)
    ensures source.requested == old(source.requested) + RunQueried(old(store.State()), Replies(source.answer, clock), batchFault)
  {
    BatchNamed(store.State(), PendingStatuses, batchFault);
    var orders := store.OrdersBatch(PendingStatuses, batchFault);
    if orders.Failure? {
      return Some(orders.error);
    }
    if |orders.value| == 0 {
      return None;
    }
    var resOrders := GetUpdates(source, orders.value, clock, Replies(source.answer, clock));
    if resOrders.Failure? {
      return Some(SourceFailed(resOrders.error));
    }
    err := store.OrdersUpdate(resOrders.value, updateFault);
  }

  /** With no pending order, `run` asks nothing and changes nothing. */
  lemma RunWithoutPending(t: Tables, ask: Asker, updateFault: Fault)
    requires Batch(t, PendingStatuses, NoFault) == Success([])
    ensures RunOutcome(t, ask, NoFault, updateFault) == (t, None)
    ensures RunQueried(t, ask, NoFault) == []
  {
  }

  /** `run` keeps the tables valid and leaves them as they were when it fails. */
  lemma RunKeepsValid(t: Tables, ask: Asker, batchFault: Fault, updateFault: Fault)
    requires TablesValid(t)
    ensures TablesValid(RunOutcome(t, ask, batchFault, updateFault).0)
    ensures RunOutcome(t, ask, batchFault, updateFault).1.Some? ==>
              RunOutcome(t, ask, batchFault, updateFault).0 == t
  {
    BatchNamed(t, PendingStatuses, batchFault);
    var b := Batch(t, PendingStatuses, batchFault);
    if b.Success? && b.value != [] {
      var u := Updates(ask, b.value);
      if u.Success? {
        UpdateKeepsValid(t, u.value);
      }
    }
  }

  /** `run` never adds an amount row: an order stored while NEW or PROCESSING, which
      has none, keeps having none after the accrual system reports it PROCESSED with
      points, so every later read gives it a nil accrual and the balance never
      credits those points. */
  lemma RunAddsNoAmount(t: Tables, ask: Asker, batchFault: Fault, updateFault: Fault, id: OrderId)
    requires SumsOf(id, t.sums) == []
    ensures SumsOf(id, RunOutcome(t, ask, batchFault, updateFault).0.sums) == []
  {
    BatchNamed(t, PendingStatuses, batchFault);
    var b := Batch(t, PendingStatuses, batchFault);
    if b.Success? && b.value != [] {
      var u := Updates(ask, b.value);
      if u.Success? {
        UpdateAddsNoAmount(t, u.value, id);
      }
    }
  }

  /** When every request succeeds and nothing fails in the store, `run` applies exactly
      the changes: the zero-value orders in front of them touch no row, as long as no
      stored order has the nil ID. */
  lemma RunAppliesChanges(t: Tables, ask: Asker, orders: seq<Order>)
    requires TablesValid(t)
    requires forall i :: 0 <= i < |t.orders| ==> t.orders[i].id != NilOrderId
    requires Batch(t, PendingStatuses, NoFault) == Success(orders) && AllNamed(orders)
    requires Changes(ask, orders).Success?
    ensures RunOutcome(t, ask, NoFault, NoFault) == (ApplyAll(t, Changes(ask, orders).value), None)
  {
    var c := Changes(ask, orders).value;
    ZeroPrefixNoop(t, |orders|, c);
    if orders == [] {
      assert c == [];
    }
  }

  /** `run` asks the accrual system only about orders stored as `NEW` or `PROCESSING`. */
  lemma {:induction false} QueriedFromOrders(ask: Asker, orders: seq<Order>, n: nat)
    requires AllNamed(orders) && n <= |orders|
    ensures forall q :: q in QueriedUpTo(ask, orders, n) ==> exists i :: 0 <= i < n && orders[i].info.number == q
  {
    if n > 0 {
      QueriedFromOrders(ask, orders, n - 1);
    }
  }

  lemma RunQueriesOnlyPending(t: Tables, ask: Asker)
    requires TablesValid(t)
    ensures Batch(t, PendingStatuses, NoFault).Success?
    ensures forall q :: q in RunQueried(t, ask, NoFault) ==>
              exists o :: o in Batch(t, PendingStatuses, NoFault).value && o.info.number == q
                && (o.info.status == StatusNew || o.info.status == StatusProcessing)
  {
    BatchNamed(t, PendingStatuses, NoFault);
    assert Batch(t, PendingStatuses, NoFault).Success?
      && forall o :: o in Batch(t, PendingStatuses, NoFault).value ==> o.info.status in PendingStatuses by {
      BatchExact(t, PendingStatuses);
    }
    var orders := Batch(t, PendingStatuses, NoFault).value;
    QueriedFromOrders(ask, orders, |orders|);
    forall q | q in RunQueried(t, ask, NoFault)
      ensures exists o :: o in orders && o.info.number == q
                && (o.info.status == StatusNew || o.info.status == StatusProcessing)
    {
      var i :| 0 <= i < |orders| && orders[i].info.number == q;
      assert orders[i] in orders;
    }
  }
}

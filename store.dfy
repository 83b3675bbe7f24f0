/** The order tables of repository/postgres/postgres.go, kept in memory: `ordr` (one
    row per order, `num` unique, `o_id` the primary key) and `o_sum` (the amount of an
    order that has one). What the SQL engine does (upsert, join, filter, sort) is
    written as functions on the tables; what the Go code does around it (the checks
    after `RETURNING`, the statement loops, commit and rollback) is in the methods. */
module OrderStore {
  import opened Wrappers
  import opened Ids
  import opened OrderStatus
  import opened OrderAccrual
  import opened OrderNumber
  import opened OrderInfo
  import opened OrderEntity
  import opened Errors

  /** A row of `ordr`: `num` is the `bigint` column, `status` the printed status. */
  datatype OrderRow = OrderRow(id: OrderId, userId: UserId, num: Int64, status: string, upload: Time)

  /** A row of `o_sum`: the `double precision` amount of order `id`. */
  datatype SumRow = SumRow(id: OrderId, acc: Amount)

  datatype Tables = Tables(orders: seq<OrderRow>, sums: seq<SumRow>)

  /** `orderDB`: one row of `ordr LEFT OUTER JOIN o_sum`, scanned; the `bigint` number
      is scanned into a string. */
  datatype Record = Record(orderId: OrderId, userId: UserId, number: string, status: string, acc: Option<Amount>, date: Time)

  /** A database failure (lost connection, failed commit, ...): `FaultAt(k)` makes the
      k-th statement a call issues report an error; `RowsEndAt(n)` makes the row
      iteration of a query stop after `n` rows (`rows.Next()` returns false on the
      error, and no `rows.Err()` is read after the loop); `NoFault` lets every statement
      succeed. Statements that return no rows ignore `RowsEndAt`. */
  datatype Fault = NoFault | FaultAt(statement: nat) | RowsEndAt(rows: nat)

  // ----- table invariants -----

  /** `UNIQUE(num)`, `PRIMARY KEY (o_id)`, and every status written by `Status.String`. */
  predicate RowsValid(rows: seq<OrderRow>) {
    && (forall i, j :: 0 <= i < j < |rows| ==> rows[i].num != rows[j].num && rows[i].id != rows[j].id)
    && (forall i :: 0 <= i < |rows| ==> rows[i].status in Names())
  }

  predicate HasOrder(rows: seq<OrderRow>, id: OrderId) {
    exists i :: 0 <= i < |rows| && rows[i].id == id
  }

  /** The row invariants plus `o_sum.o_id REFERENCES ordr(o_id)`. */
  predicate TablesValid(t: Tables) {
    RowsValid(t.orders) && forall k :: 0 <= k < |t.sums| ==> HasOrder(t.orders, t.sums[k].id)
  }

  // ----- SaveOrder -----

  /** The row that `INSERT INTO ordr` writes for `o`. */
  function NewRow(o: Order): OrderRow
    requires Named(o.info.status)
  {
    OrderRow(o.id, o.userId, ToInt(o.info.number), OrderStatus.String(o.info.status), o.info.uploaded)
  }

  /** The index of the row whose `num` is `num`, if there is one. */
  function FindNum(rows: seq<OrderRow>, num: Int64): (r: Option<nat>)
    ensures r.Some? ==> r.value < |rows| && rows[r.value].num == num
    ensures r.None? ==> forall i :: 0 <= i < |rows| ==> rows[i].num != num
  {
    if rows == [] then None
    else if rows[|rows| - 1].num == num then Some(|rows| - 1)
    else FindNum(rows[..|rows| - 1], num)
  }

  /** The tables and the error after `SaveOrder(o)`. Step 0 is opening the transaction
      and the upsert `INSERT ... ON CONFLICT(num) DO UPDATE ... RETURNING`, step 1 the
      `o_sum` insert, step 2 the commit. Any error leaves the tables as they were. */
  function SaveOutcome(t: Tables, o: Order, fault: Fault): (Tables, Option<Error>)
    requires Named(o.info.status)
  {
    var row := NewRow(o);
    var existing := FindNum(t.orders, row.num);
    if fault == FaultAt(0) then (t, Some(Storage))
    else if existing.None? && HasOrder(t.orders, o.id) then (t, Some(Storage))   // primary key violation
    else
      var returned := if existing.Some? then t.orders[existing.value] else row;
      var orders := if existing.Some? then t.orders else t.orders + [row];
      if returned.userId != o.userId then (t, Some(FieldConflict(UserData(o.userId))))
      else if returned.id != o.id then (t, Some(FieldConflict(OrderData(o.id))))
      else if o.info.accrual.None? then
        if fault == FaultAt(2) then (t, Some(Storage)) else (Tables(orders, t.sums), None)
      else if fault == FaultAt(1) || fault == FaultAt(2) then (t, Some(Storage))
      else (Tables(orders, t.sums + [SumRow(o.id, ToFloat(o.info.accrual.value))]), None)
  }

  /** `SaveOrder` keeps the tables' invariants, number uniqueness among them. */
  lemma SaveKeepsValid(t: Tables, o: Order, fault: Fault)
    requires TablesValid(t) && Named(o.info.status)
    ensures TablesValid(SaveOutcome(t, o, fault).0)
  {
    var (t', err) := SaveOutcome(t, o, fault);
    if err.None? && FindNum(t.orders, ToInt(o.info.number)).None? {
      var rows := t'.orders;
      assert rows == t.orders + [NewRow(o)];
      forall k | 0 <= k < |t'.sums|
        ensures HasOrder(rows, t'.sums[k].id)
      {
        if k < |t.sums| {
          var i :| 0 <= i < |t.orders| && t.orders[i].id == t.sums[k].id;
          assert rows[i].id == t'.sums[k].id;
        } else {
          assert rows[|rows| - 1].id == t'.sums[k].id;
        }
      }
    } else if err.None? {
      var i := FindNum(t.orders, ToInt(o.info.number)).value;
      assert t.orders[i].id == o.id;
      forall k | 0 <= k < |t'.sums|
        ensures HasOrder(t'.orders, t'.sums[k].id)
      {
        if k == |t.sums| {
          assert t'.orders[i].id == t'.sums[k].id;
        }
      }
    }
  }

  /** A failed `SaveOrder` changes nothing: the transaction is rolled back. */
  lemma SaveAllOrNothing(t: Tables, o: Order, fault: Fault)
    requires Named(o.info.status)
    ensures SaveOutcome(t, o, fault).1.Some? ==> SaveOutcome(t, o, fault).0 == t
  {
  }

  /** A new number (and a new order ID) inserts exactly one order row, plus an amount
      row exactly when the order has an accrual. */
  lemma SaveNewNumber(t: Tables, o: Order)
    requires TablesValid(t) && Named(o.info.status)
    requires forall i :: 0 <= i < |t.orders| ==> t.orders[i].num != ToInt(o.info.number) && t.orders[i].id != o.id
    ensures SaveOutcome(t, o, NoFault).1 == None
    ensures SaveOutcome(t, o, NoFault).0.orders == t.orders + [NewRow(o)]
    ensures SaveOutcome(t, o, NoFault).0.sums
         == t.sums + (if o.info.accrual.Some? then [SumRow(o.id, ToFloat(o.info.accrual.value))] else [])
  {
  }

  /** A number already stored for another user: the conflict carries the caller's user
      ID and nothing changes. The user is checked before the order ID. */
  lemma SaveNumberOfOtherUser(t: Tables, o: Order, fault: Fault, i: nat)
    requires Named(o.info.status) && RowsValid(t.orders) && fault != FaultAt(0)
    requires i < |t.orders| && t.orders[i].num == ToInt(o.info.number) && t.orders[i].userId != o.userId
    ensures SaveOutcome(t, o, fault) == (t, Some(FieldConflict(UserData(o.userId))))
  {
    assert FindNum(t.orders, ToInt(o.info.number)) == Some(i);
  }

  /** A number already stored for the same user under another order ID: the conflict
      carries the new order's ID and nothing changes. */
  lemma SaveNumberOfSameUser(t: Tables, o: Order, fault: Fault, i: nat)
    requires Named(o.info.status) && RowsValid(t.orders) && fault != FaultAt(0)
    requires i < |t.orders| && t.orders[i].num == ToInt(o.info.number)
    requires t.orders[i].userId == o.userId && t.orders[i].id != o.id
    ensures SaveOutcome(t, o, fault) == (t, Some(FieldConflict(OrderData(o.id))))
  {
    assert FindNum(t.orders, ToInt(o.info.number)) == Some(i);
  }

  // ----- the join and the queries -----

  /** The amounts of the `o_sum` rows of order `id`, in table order. */
  function SumsOf(id: OrderId, sums: seq<SumRow>): (accs: seq<Amount>)
    ensures forall a :: a in accs ==> exists k :: 0 <= k < |sums| && sums[k].id == id && sums[k].acc == a
  {
    if sums == [] then []
    else SumsOf(id, sums[..|sums| - 1]) + (if sums[|sums| - 1].id == id then [sums[|sums| - 1].acc] else [])
  }

  function RecordOf(r: OrderRow, acc: Option<Amount>): Record {
    Record(r.id, r.userId, Itoa(r.num), r.status, acc, r.upload)
  }

  /** The joined rows of one order row: one per amount row, or one with a null amount. */
  function RowJoin(r: OrderRow, sums: seq<SumRow>): (recs: seq<Record>)
    ensures |recs| == if SumsOf(r.id, sums) == [] then 1 else |SumsOf(r.id, sums)|
    ensures forall rec :: rec in recs ==> rec == RecordOf(r, rec.acc)
    ensures forall rec :: rec in recs ==> (rec.acc.None? <==> SumsOf(r.id, sums) == [])
    ensures forall rec :: rec in recs && rec.acc.Some? ==> rec.acc.value in SumsOf(r.id, sums)
  {
    var accs := SumsOf(r.id, sums);
    if accs == [] then [RecordOf(r, None)]
    else seq(|accs|, k requires 0 <= k < |accs| => RecordOf(r, Some(accs[k])))
  }

  /** Each amount of an order row gives one of its joined records. */
  lemma RowJoinAmount(r: OrderRow, sums: seq<SumRow>, a: Amount)
    requires a in SumsOf(r.id, sums)
    ensures RecordOf(r, Some(a)) in RowJoin(r, sums)
  {
    var accs := SumsOf(r.id, sums);
    var k :| 0 <= k < |accs| && accs[k] == a;
    assert RowJoin(r, sums)[k] == RecordOf(r, Some(a));
  }

  /** `ordr LEFT OUTER JOIN o_sum USING (o_id)`. */
  function Joined(orders: seq<OrderRow>, sums: seq<SumRow>): (recs: seq<Record>)
    ensures |recs| >= |orders|
  {
    if orders == [] then []
    else Joined(orders[..|orders| - 1], sums) + RowJoin(orders[|orders| - 1], sums)
  }

  /** Every joined record comes from an order row; its amount is null exactly when that
      row has no `o_sum` row, and is otherwise one of the row's amounts. */
  lemma {:induction false} JoinedFromRow(orders: seq<OrderRow>, sums: seq<SumRow>, rec: Record)
    requires rec in Joined(orders, sums)
    ensures exists i :: 0 <= i < |orders| && rec == RecordOf(orders[i], rec.acc)
              && (rec.acc.None? <==> SumsOf(orders[i].id, sums) == [])
              && (rec.acc.Some? ==> rec.acc.value in SumsOf(orders[i].id, sums))
  {
    var n := |orders| - 1;
    if rec in Joined(orders[..n], sums) {
      JoinedFromRow(orders[..n], sums, rec);
      var i :| 0 <= i < n && rec == RecordOf(orders[..n][i], rec.acc)
                 && (rec.acc.None? <==> SumsOf(orders[..n][i].id, sums) == [])
                 && (rec.acc.Some? ==> rec.acc.value in SumsOf(orders[..n][i].id, sums));
      assert orders[..n][i] == orders[i];
    } else {
      assert rec in RowJoin(orders[n], sums);
    }
  }

  /** A record of the join of the first rows, or of the last row, is in the join. */
  lemma InJoined(orders: seq<OrderRow>, sums: seq<SumRow>, rec: Record)
    requires orders != []
    requires rec in Joined(orders[..|orders| - 1], sums) || rec in RowJoin(orders[|orders| - 1], sums)
    ensures rec in Joined(orders, sums)
  {
  }

  /** Every record of an order row's own join is in the join of the table. */
  lemma {:induction false} RowJoinInJoined(orders: seq<OrderRow>, sums: seq<SumRow>, i: nat, rec: Record)
    requires i < |orders| && rec in RowJoin(orders[i], sums)
    ensures rec in Joined(orders, sums)
  {
    var n := |orders| - 1;
    if i < n {
      assert orders[..n][i] == orders[i];
      RowJoinInJoined(orders[..n], sums, i, rec);
      InJoined(orders, sums, rec);
    } else {
      assert i == n && rec in RowJoin(orders[n], sums);
      InJoined(orders, sums, rec);
    }
  }

  /** An order row with no `o_sum` row appears in the join with a null amount. */
  lemma EveryRowJoined(orders: seq<OrderRow>, sums: seq<SumRow>, i: nat)
    requires i < |orders| && SumsOf(orders[i].id, sums) == []
    ensures RecordOf(orders[i], None) in Joined(orders, sums)
  {
    assert RowJoin(orders[i], sums) == [RecordOf(orders[i], None)];
    RowJoinInJoined(orders, sums, i, RecordOf(orders[i], None));
  }

  /** For each amount of an order row, the join has a record of that row with it. */
  lemma EveryAmountJoined(orders: seq<OrderRow>, sums: seq<SumRow>, i: nat, a: Amount)
    requires i < |orders| && a in SumsOf(orders[i].id, sums)
    ensures RecordOf(orders[i], Some(a)) in Joined(orders, sums)
  {
    RowJoinAmount(orders[i], sums, a);
    RowJoinInJoined(orders, sums, i, RecordOf(orders[i], Some(a)));
  }

  /** The records of order `id`, in their order. */
  function OfOrder(recs: seq<Record>, id: OrderId): (r: seq<Record>)
    ensures |r| <= |recs|
    ensures forall k :: 0 <= k < |r| ==> r[k].orderId == id
  {
    if recs == [] then []
    else OfOrder(recs[..|recs| - 1], id) + (if recs[|recs| - 1].orderId == id then [recs[|recs| - 1]] else [])
  }

  lemma {:induction false} OfOrderAppend(a: seq<Record>, b: seq<Record>, id: OrderId)
    ensures OfOrder(a + b, id) == OfOrder(a, id) + OfOrder(b, id)
    decreases |b|
  {
    if b == [] {
      assert a + b == a;
    } else {
      var n := |b| - 1;
      assert (a + b)[..|a + b| - 1] == a + b[..n];
      OfOrderAppend(a, b[..n], id);
    }
  }

  lemma {:induction false} OfOrderAll(recs: seq<Record>, id: OrderId)
    requires forall k :: 0 <= k < |recs| ==> recs[k].orderId == id
    ensures OfOrder(recs, id) == recs
  {
    if recs != [] {
      var n := |recs| - 1;
      var init, last := recs[..n], recs[n];
      assert last.orderId == id;
      assert forall k :: 0 <= k < n ==> init[k] == recs[k];
      OfOrderAll(init, id);
      calc {
        OfOrder(recs, id);
        OfOrder(init, id) + [last];
        init + [last];
        { SplitLast(recs); }
        recs;
      }
    }
  }

  lemma SplitLast(s: seq<Record>)
    requires s != []
    ensures s[..|s| - 1] + [s[|s| - 1]] == s
  {}

  lemma {:induction false} OfOrderNone(recs: seq<Record>, id: OrderId)
    requires forall rec :: rec in recs ==> rec.orderId != id
    ensures OfOrder(recs, id) == []
  {
    if recs != [] {
      var n := |recs| - 1;
      var init := recs[..n];
      assert forall rec :: rec in init ==> rec in recs;
      OfOrderNone(init, id);
      assert recs[n] in recs;
    }
  }

  /** No record of the join of the earlier rows belongs to the last row's order. */
  lemma LastRowNotEarlier(orders: seq<OrderRow>, sums: seq<SumRow>)
    requires orders != []
    requires forall p :: 0 <= p < |orders| - 1 ==> orders[p].id != orders[|orders| - 1].id
    ensures OfOrder(Joined(orders[..|orders| - 1], sums), orders[|orders| - 1].id) == []
  {
    var init, id := orders[..|orders| - 1], orders[|orders| - 1].id;
    forall rec | rec in Joined(init, sums)
      ensures rec.orderId != id
    {
      JoinedFromRow(init, sums, rec);
    }
    OfOrderNone(Joined(init, sums), id);
  }

  /** With distinct order IDs, the joined records of an order are exactly those of its
      row, in table order: one per amount row, so a row with k amount rows appears k
      times, or a single one with a null amount. */
  lemma {:induction false} JoinedPerRow(orders: seq<OrderRow>, sums: seq<SumRow>, i: nat)
    requires i < |orders|
    requires forall p, q :: 0 <= p < q < |orders| ==> orders[p].id != orders[q].id
    ensures OfOrder(Joined(orders, sums), orders[i].id) == RowJoin(orders[i], sums)
    decreases |orders|, 1
  {
    if i < |orders| - 1 {
      EarlierRowJoined(orders, sums, i);
    } else {
      var init, last := orders[..i], orders[i];
      OfOrderAppend(Joined(init, sums), RowJoin(last, sums), last.id);
      LastRowNotEarlier(orders, sums);
      OfOrderAll(RowJoin(last, sums), last.id);
    }
  }

  /** The step of `JoinedPerRow` for a row before the last: the last row adds no
      record of its order. */
  lemma {:induction false} EarlierRowJoined(orders: seq<OrderRow>, sums: seq<SumRow>, i: nat)
    requires i < |orders| - 1
    requires forall p, q :: 0 <= p < q < |orders| ==> orders[p].id != orders[q].id
    ensures OfOrder(Joined(orders, sums), orders[i].id) == RowJoin(orders[i], sums)
    decreases |orders|, 0
  {
    var n := |orders| - 1;
    var init, id := orders[..n], orders[i].id;
    var earlier, last := Joined(init, sums), RowJoin(orders[n], sums);
    assert init[i] == orders[i];
    JoinedPerRow(init, sums, i);
    OfOrderNone(last, id);
    OfOrderAppend(earlier, last, id);
    calc {
      OfOrder(Joined(orders, sums), id);
      OfOrder(earlier + last, id);
      OfOrder(earlier, id) + OfOrder(last, id);
      RowJoin(orders[i], sums) + [];
      { AppendNothing(RowJoin(orders[i], sums)); }
      RowJoin(orders[i], sums);
    }
  }

  lemma AppendNothing(s: seq<Record>)
    ensures s + [] == s
  {
  }

  /** How many times the join lists each order of valid tables: once per `o_sum` row of
      the order (`o_sum` has no key, so that can be more than once), or once with a null
      amount when it has none. */
  lemma JoinedMultiplicity(t: Tables, i: nat)
    requires TablesValid(t) && i < |t.orders|
    ensures var n := |SumsOf(t.orders[i].id, t.sums)|;
      |OfOrder(Joined(t.orders, t.sums), t.orders[i].id)| == if n == 0 then 1 else n
    ensures forall rec :: rec in OfOrder(Joined(t.orders, t.sums), t.orders[i].id) ==> rec == RecordOf(t.orders[i], rec.acc)
  {
    JoinedPerRow(t.orders, t.sums, i);
  }

  /** `status = ANY($names)`, and `user_id = $user` when a user is given. */
  predicate Matches(rec: Record, user: Option<UserId>, names: seq<string>) {
    (user.None? || rec.userId == user.value) && rec.status in names
  }

  /** The `WHERE` clause. */
  function Where(recs: seq<Record>, user: Option<UserId>, names: seq<string>): (r: seq<Record>)
    ensures forall rec :: rec in r <==> rec in recs && Matches(rec, user, names)
  {
    if recs == [] then []
    else
      var init := Where(recs[..|recs| - 1], user, names);
      var last := recs[|recs| - 1];
      assert recs == recs[..|recs| - 1] + [last];
      if Matches(last, user, names) then init + [last] else init
  }

  predicate UploadOrdered(recs: seq<Record>) {
    forall i, j :: 0 <= i < j < |recs| ==> recs[i].date <= recs[j].date
  }

  /** Places `x` after every element of `s` uploaded no later than it. */
  function Insert(x: Record, s: seq<Record>): seq<Record> {
    if s == [] then [x]
    else if s[|s| - 1].date <= x.date then s + [x]
    else Insert(x, s[..|s| - 1]) + [s[|s| - 1]]
  }

  /** Inserting adds exactly `x`. */
  lemma {:induction false} InsertAdds(x: Record, s: seq<Record>)
    ensures multiset(Insert(x, s)) == multiset(s) + multiset{x}
  {
    if s != [] && s[|s| - 1].date > x.date {
      var init, last := s[..|s| - 1], s[|s| - 1];
      assert s == init + [last];
      InsertAdds(x, init);
    }
  }

  /** Inserting below a bound stays below it. */
  lemma {:induction false} InsertBounded(x: Record, s: seq<Record>, bound: Time)
    requires x.date <= bound && forall i :: 0 <= i < |s| ==> s[i].date <= bound
    ensures forall i :: 0 <= i < |Insert(x, s)| ==> Insert(x, s)[i].date <= bound
  {
    if s != [] && s[|s| - 1].date > x.date {
      InsertBounded(x, s[..|s| - 1], bound);
    }
  }

  /** Inserting into an ordered sequence keeps it ordered. */
  lemma {:induction false} InsertOrdered(x: Record, s: seq<Record>)
    requires UploadOrdered(s)
    ensures UploadOrdered(Insert(x, s))
  {
    if s != [] && s[|s| - 1].date > x.date {
      var init, last := s[..|s| - 1], s[|s| - 1];
      InsertOrdered(x, init);
      InsertBounded(x, init, last.date);
    }
  }

  /** `ORDER BY upload`; rows uploaded at the same time keep their table order. */
  function SortByUpload(recs: seq<Record>): (r: seq<Record>)
    ensures multiset(r) == multiset(recs)
    ensures UploadOrdered(r)
  {
    if recs == [] then []
    else
      var init, last := recs[..|recs| - 1], recs[|recs| - 1];
      assert recs == init + [last];
      InsertAdds(last, SortByUpload(init));
      InsertOrdered(last, SortByUpload(init));
      Insert(last, SortByUpload(init))
  }

  /** `orderDB.order`: only the number text can fail to parse (the varchar IDs are
      modelled by the ID values they hold). */
  function RecordToOrder(rec: Record): Result<Order, Error> {
    match ParseInfo(rec.number, rec.status, rec.acc, rec.date)
    case Failure(e) => Failure(Parse(e))
    case Success(info) => Success(New(rec.orderId, rec.userId, info))
  }

  /** A record converts exactly when its number text parses; the order keeps the
      record's IDs and takes its info from `ParseInfo`. */
  lemma RecordToOrderSpec(rec: Record)
    ensures RecordToOrder(rec).Failure? <==> ParseNumber(rec.number).Failure?
    ensures RecordToOrder(rec).Success? ==>
      && RecordToOrder(rec).value.id == rec.orderId && RecordToOrder(rec).value.userId == rec.userId
      && ParseInfo(rec.number, rec.status, rec.acc, rec.date) == Success(RecordToOrder(rec).value.info)
  {
  }

  /** `os` is the scan of `recs`: one order per record, its conversion, in record order. */
  predicate ScannedFrom(os: seq<Order>, recs: seq<Record>) {
    |os| == |recs| && forall k :: 0 <= k < |recs| ==> RecordToOrder(recs[k]) == Success(os[k])
  }

  /** The scan loop of `ordersRowsScan` and `OrdersBatch`: stops at the first record
      that does not convert. */
  function Scan(recs: seq<Record>, conv: Record -> Result<Order, Error>): Result<seq<Order>, Error> {
    if recs == [] then Success([])
    else
      var init := Scan(recs[..|recs| - 1], conv);
      if init.Failure? then init
      else
        match conv(recs[|recs| - 1])
        case Failure(e) => Failure(e)
        case Success(o) => Success(init.value + [o])
  }

  /** A successful scan yields the converted records, in record order. */
  lemma {:induction false} ScanValues(recs: seq<Record>, conv: Record -> Result<Order, Error>)
    requires Scan(recs, conv).Success?
    ensures |Scan(recs, conv).value| == |recs|
    ensures forall k :: 0 <= k < |recs| ==> conv(recs[k]) == Success(Scan(recs, conv).value[k])
  {
    if recs != [] {
      var n := |recs| - 1;
      ScanValues(recs[..n], conv);
      var init := Scan(recs[..n], conv).value;
      assert Scan(recs, conv).value == init + [conv(recs[n]).value];
      forall k | 0 <= k < |recs|
        ensures conv(recs[k]) == Success(Scan(recs, conv).value[k])
      {
        if k < n {
          assert recs[..n][k] == recs[k];
        }
      }
    }
  }

  /** Scanning succeeds when every record converts. */
  lemma {:induction false} ScanSucceeds(recs: seq<Record>, conv: Record -> Result<Order, Error>)
    requires forall k :: 0 <= k < |recs| ==> conv(recs[k]).Success?
    ensures Scan(recs, conv).Success?
  {
    if recs != [] {
      var n := |recs| - 1;
      assert forall k :: 0 <= k < n ==> recs[..n][k] == recs[k];
      ScanSucceeds(recs[..n], conv);
    }
  }

  /** A failed scan reports the error of a record that does not convert. */
  lemma {:induction false} ScanFails(recs: seq<Record>, conv: Record -> Result<Order, Error>)
    requires Scan(recs, conv).Failure?
    ensures exists k :: 0 <= k < |recs| && conv(recs[k]) == Failure(Scan(recs, conv).error)
  {
    var n := |recs| - 1;
    if Scan(recs[..n], conv).Failure? {
      ScanFails(recs[..n], conv);
      var k :| 0 <= k < n && conv(recs[..n][k]) == Failure(Scan(recs[..n], conv).error);
      assert recs[..n][k] == recs[k];
    } else {
      assert conv(recs[n]) == Failure(Scan(recs, conv).error);
    }
  }

  /** Once a prefix fails to scan, the whole does, with the same error. */
  lemma {:induction false} ScanPrefixFailure(recs: seq<Record>, i: nat, conv: Record -> Result<Order, Error>)
    requires i <= |recs| && Scan(recs[..i], conv).Failure?
    ensures Scan(recs, conv) == Scan(recs[..i], conv)
    decreases |recs| - i
  {
    if i < |recs| {
      assert recs[..i + 1][..i] == recs[..i];
      ScanPrefixFailure(recs, i + 1, conv);
    } else {
      assert recs[..i] == recs;
    }
  }

  /** The scan of a prefix of records that all convert is the prefix of their scan. */
  lemma {:induction false} ScanPrefixSuccess(recs: seq<Record>, m: nat, conv: Record -> Result<Order, Error>)
    requires m <= |recs| && Scan(recs, conv).Success?
    ensures |Scan(recs, conv).value| == |recs|
    ensures Scan(recs[..m], conv).Success? && Scan(recs[..m], conv).value == Scan(recs, conv).value[..m]
    decreases |recs| - m
  {
    ScanValues(recs, conv);
    if m == |recs| {
      assert recs[..m] == recs;
    } else {
      ScanPrefixSuccess(recs, m + 1, conv);
      var p := recs[..m + 1];
      assert p[..m] == recs[..m];
      assert Scan(p, conv).value == Scan(p[..m], conv).value + [conv(p[m]).value];
      assert Scan(recs, conv).value[..m + 1][..m] == Scan(recs, conv).value[..m];
    }
  }

  /** The printed statuses passed as the `ANY` array. */
  function Texts(statuses: seq<Status>): (names: seq<string>)
    requires forall i :: 0 <= i < |statuses| ==> Named(statuses[i])
    ensures |names| == |statuses|
  {
    seq(|statuses|, i requires 0 <= i < |statuses| => OrderStatus.String(statuses[i]))
  }

  /** The rows of a result set that `rows.Next()` hands out: all of them, or the first
      `n` when the iteration breaks off there. */
  function Delivered(recs: seq<Record>, fault: Fault): (r: seq<Record>)
    ensures r <= recs
    ensures |r| == if fault.RowsEndAt? && fault.rows < |recs| then fault.rows else |recs|
  {
    if fault.RowsEndAt? && fault.rows < |recs| then recs[..fault.rows] else recs
  }

  /** `OrdersByStatuses(user, statuses)`: statement 0 is the query. */
  function ByStatuses(t: Tables, user: UserId, statuses: seq<Status>, fault: Fault): Result<seq<Order>, Error>
    requires forall i :: 0 <= i < |statuses| ==> Named(statuses[i])
  {
    if fault == FaultAt(0) then Failure(Storage)
    else Scan(Delivered(SortByUpload(Where(Joined(t.orders, t.sums), Some(user), Texts(statuses))), fault), RecordToOrder)
  }

  /** `OrdersBatch(statuses)`: every user's rows; the query has no `ORDER BY`, and the
      model returns them in table order. */
  function Batch(t: Tables, statuses: seq<Status>, fault: Fault): Result<seq<Order>, Error>
    requires forall i :: 0 <= i < |statuses| ==> Named(statuses[i])
  {
    if fault == FaultAt(0) then Failure(Storage)
    else Scan(Delivered(Where(Joined(t.orders, t.sums), None, Texts(statuses)), fault), RecordToOrder)
  }

  /** Every joined record of valid tables converts: its number is the `Itoa` of a `bigint`. */
  lemma JoinedConverts(t: Tables, rec: Record)
    requires TablesValid(t) && rec in Joined(t.orders, t.sums)
    ensures RecordToOrder(rec).Success?
    ensures RecordToOrder(rec).value.userId == rec.userId
    ensures RecordToOrder(rec).value.info.status == ParseStatus(rec.status)
  {
    JoinedFromRow(t.orders, t.sums, rec);
    var i :| 0 <= i < |t.orders| && rec == RecordOf(t.orders[i], rec.acc);
    AtoiOfItoa(t.orders[i].num);
    RecordToOrderSpec(rec);
  }

  /** A printed named status parses back to a member of the list it was printed from. */
  lemma ParsedTextIn(statuses: seq<Status>, text: string)
    requires forall i :: 0 <= i < |statuses| ==> Named(statuses[i])
    requires text in Texts(statuses)
    ensures ParseStatus(text) in statuses
  {
    var i :| 0 <= i < |statuses| && Texts(statuses)[i] == text;
    ParseString(statuses[i]);
  }

  /** A joined record that passes the filter converts to an order that passes it too. */
  lemma MatchingConverts(t: Tables, rec: Record, user: Option<UserId>, statuses: seq<Status>)
    requires TablesValid(t) && forall i :: 0 <= i < |statuses| ==> Named(statuses[i])
    requires rec in Joined(t.orders, t.sums) && Matches(rec, user, Texts(statuses))
    ensures RecordToOrder(rec).Success?
    ensures user.None? || RecordToOrder(rec).value.userId == user.value
    ensures RecordToOrder(rec).value.info.status in statuses
  {
    JoinedConverts(t, rec);
    ParsedTextIn(statuses, rec.status);
  }

  lemma SameMembers(a: seq<Record>, b: seq<Record>)
    requires multiset(a) == multiset(b)
    ensures forall x :: x in a <==> x in b
  {
    forall x ensures x in a <==> x in multiset(a) {}
    forall x ensures x in b <==> x in multiset(b) {}
  }

  /** What a query returns on valid tables with no fault: it succeeds, every order it
      returns passes the filter, and every joined record that passes it is returned. */
  lemma QueryExact(t: Tables, recs: seq<Record>, user: Option<UserId>, statuses: seq<Status>)
    requires TablesValid(t) && forall i :: 0 <= i < |statuses| ==> Named(statuses[i])
    requires multiset(recs) == multiset(Where(Joined(t.orders, t.sums), user, Texts(statuses)))
    ensures Scan(recs, RecordToOrder).Success? && |Scan(recs, RecordToOrder).value| == |recs|
    ensures forall k :: 0 <= k < |recs| ==> RecordToOrder(recs[k]) == Success(Scan(recs, RecordToOrder).value[k])
    ensures forall o :: o in Scan(recs, RecordToOrder).value ==>
              (user.None? || o.userId == user.value) && o.info.status in statuses
    ensures forall rec :: rec in Joined(t.orders, t.sums) && Matches(rec, user, Texts(statuses)) ==>
              RecordToOrder(rec).Success? && RecordToOrder(rec).value in Scan(recs, RecordToOrder).value
  {
    SameMembers(recs, Where(Joined(t.orders, t.sums), user, Texts(statuses)));
    forall k | 0 <= k < |recs|
      ensures RecordToOrder(recs[k]).Success?
    {
      assert recs[k] in recs;
      MatchingConverts(t, recs[k], user, statuses);
    }
    ScanSucceeds(recs, RecordToOrder);
    ScanValues(recs, RecordToOrder);
    var os := Scan(recs, RecordToOrder).value;
    forall o | o in os
      ensures (user.None? || o.userId == user.value) && o.info.status in statuses
    {
      var k :| 0 <= k < |os| && os[k] == o;
      assert recs[k] in recs;
      MatchingConverts(t, recs[k], user, statuses);
    }
    forall rec | rec in Joined(t.orders, t.sums) && Matches(rec, user, Texts(statuses))
      ensures RecordToOrder(rec).Success? && RecordToOrder(rec).value in os
    {
      var k :| 0 <= k < |recs| && recs[k] == rec;
      assert os[k] == RecordToOrder(rec).value;
    }
  }

  /** A query fails only with a storage error or a stored number that does not parse. */
  lemma ByStatusesErrors(t: Tables, user: UserId, statuses: seq<Status>, fault: Fault)
    requires forall i :: 0 <= i < |statuses| ==> Named(statuses[i])
    ensures var r := ByStatuses(t, user, statuses, fault);
      r.Failure? ==> r.error.Storage? || r.error.Parse?
  {
    if fault != FaultAt(0) {
      var recs := Delivered(SortByUpload(Where(Joined(t.orders, t.sums), Some(user), Texts(statuses))), fault);
      if Scan(recs, RecordToOrder).Failure? {
        ScanFails(recs, RecordToOrder);
      }
    }
  }

  /** When the row iteration breaks off after `n` rows, `OrdersByStatuses` still
      succeeds, with the first `n` orders of the complete answer: the caller cannot
      tell a cut-short list from a complete one. */
  lemma ByStatusesCut(t: Tables, user: UserId, statuses: seq<Status>, n: nat)
    requires TablesValid(t) && forall i :: 0 <= i < |statuses| ==> Named(statuses[i])
    ensures ByStatuses(t, user, statuses, NoFault).Success?
    ensures ByStatuses(t, user, statuses, RowsEndAt(n)).Success?
    ensures var full := ByStatuses(t, user, statuses, NoFault).value;
      ByStatuses(t, user, statuses, RowsEndAt(n)).value == if n < |full| then full[..n] else full
  {
    var matching := Where(Joined(t.orders, t.sums), Some(user), Texts(statuses));
    var recs := SortByUpload(matching);
    forall k | 0 <= k < |recs|
      ensures RecordToOrder(recs[k]).Success?
    {
      assert recs[k] in multiset(matching);
      MatchingConverts(t, recs[k], Some(user), statuses);
    }
    ScanSucceeds(recs, RecordToOrder);
    ScanValues(recs, RecordToOrder);
    assert Delivered(recs, NoFault) == recs;
    if n < |recs| {
      ScanPrefixSuccess(recs, n, RecordToOrder);
    }
  }

  /** The same for `OrdersBatch`. */
  lemma BatchCut(t: Tables, statuses: seq<Status>, n: nat)
    requires TablesValid(t) && forall i :: 0 <= i < |statuses| ==> Named(statuses[i])
    ensures Batch(t, statuses, NoFault).Success?
    ensures Batch(t, statuses, RowsEndAt(n)).Success?
    ensures var full := Batch(t, statuses, NoFault).value;
      Batch(t, statuses, RowsEndAt(n)).value == if n < |full| then full[..n] else full
  {
    var recs := Where(Joined(t.orders, t.sums), None, Texts(statuses));
    forall k | 0 <= k < |recs|
      ensures RecordToOrder(recs[k]).Success?
    {
      assert recs[k] in recs;
      MatchingConverts(t, recs[k], None, statuses);
    }
    ScanSucceeds(recs, RecordToOrder);
    ScanValues(recs, RecordToOrder);
    assert Delivered(recs, NoFault) == recs;
    if n < |recs| {
      ScanPrefixSuccess(recs, n, RecordToOrder);
    }
  }

  /** `os` is exactly the given user's orders whose status is in the list, oldest
      first: the scan of a permutation of the matching joined records (so each record
      gives one order and nothing else is returned), each order of that user with a
      listed status, every matching record's order present. */
  ghost predicate Selects(t: Tables, user: UserId, statuses: seq<Status>, os: seq<Order>)
    requires forall i :: 0 <= i < |statuses| ==> Named(statuses[i])
  {
    && (exists recs :: multiset(recs) == multiset(Where(Joined(t.orders, t.sums), Some(user), Texts(statuses)))
                       && ScannedFrom(os, recs))
    && (forall o :: o in os ==> o.userId == user && o.info.status in statuses)
    && (forall rec :: rec in Joined(t.orders, t.sums) && rec.userId == user && rec.status in Texts(statuses) ==>
          RecordToOrder(rec).Success? && RecordToOrder(rec).value in os)
    && (forall i, j :: 0 <= i < j < |os| ==> os[i].info.uploaded <= os[j].info.uploaded)
  }

  /** `OrdersByStatuses` returns exactly the given user's orders whose status is in the
      list, ordered by upload time. */
  lemma ByStatusesExact(t: Tables, user: UserId, statuses: seq<Status>)
    requires TablesValid(t) && forall i :: 0 <= i < |statuses| ==> Named(statuses[i])
    ensures ByStatuses(t, user, statuses, NoFault).Success?
    ensures Selects(t, user, statuses, ByStatuses(t, user, statuses, NoFault).value)
  {
    var recs := SortByUpload(Where(Joined(t.orders, t.sums), Some(user), Texts(statuses)));
    QueryExact(t, recs, Some(user), statuses);
    var os := Scan(recs, RecordToOrder).value;
    assert ScannedFrom(os, recs);
    forall i, j | 0 <= i < j < |os|
      ensures os[i].info.uploaded <= os[j].info.uploaded
    {
      RecordToOrderSpec(recs[i]);
      RecordToOrderSpec(recs[j]);
    }
  }

  /** `OrdersBatch` returns exactly the orders, of every user, whose status is in the list. */
  lemma BatchExact(t: Tables, statuses: seq<Status>)
    requires TablesValid(t) && forall i :: 0 <= i < |statuses| ==> Named(statuses[i])
    ensures Batch(t, statuses, NoFault).Success?
    ensures var os := Batch(t, statuses, NoFault).value;
      && ScannedFrom(os, Where(Joined(t.orders, t.sums), None, Texts(statuses)))
      && (forall o :: o in os ==> o.info.status in statuses)
      && (forall rec :: rec in Joined(t.orders, t.sums) && rec.status in Texts(statuses) ==>
            RecordToOrder(rec).Success? && RecordToOrder(rec).value in os)
  {
    QueryExact(t, Where(Joined(t.orders, t.sums), None, Texts(statuses)), None, statuses);
  }

  /** `o` is what the store reads back for order row `r`: its IDs, number, parsed
      status and upload time, and an accrual that is nil exactly when the row has no
      amount and is otherwise one of its amounts truncated to hundredths. */
  predicate StoredAs(o: Order, r: OrderRow, sums: seq<SumRow>) {
    && o.id == r.id && o.userId == r.userId && o.info.number == FromInt(r.num)
    && o.info.status == ParseStatus(r.status) && o.info.uploaded == r.upload
    && (o.info.accrual.None? <==> SumsOf(r.id, sums) == [])
    && (o.info.accrual.Some? ==> exists a :: a in SumsOf(r.id, sums) && o.info.accrual == ParseAccrual(Some(a)))
  }

  /** A joined record of valid tables converts to what is stored for its order row. */
  lemma RecordStored(t: Tables, rec: Record)
    requires TablesValid(t) && rec in Joined(t.orders, t.sums)
    ensures RecordToOrder(rec).Success?
    ensures exists i :: 0 <= i < |t.orders| && StoredAs(RecordToOrder(rec).value, t.orders[i], t.sums)
  {
    JoinedFromRow(t.orders, t.sums, rec);
    var i :| 0 <= i < |t.orders| && rec == RecordOf(t.orders[i], rec.acc)
             && (rec.acc.None? <==> SumsOf(t.orders[i].id, t.sums) == [])
             && (rec.acc.Some? ==> rec.acc.value in SumsOf(t.orders[i].id, t.sums));
    AtoiOfItoa(t.orders[i].num);
    RecordToOrderSpec(rec);
    var o := RecordToOrder(rec).value;
    if o.info.accrual.Some? {
      assert rec.acc.value in SumsOf(t.orders[i].id, t.sums) && o.info.accrual == ParseAccrual(Some(rec.acc.value));
    }
    assert StoredAs(o, t.orders[i], t.sums);
  }

  /** Every order `OrdersByStatuses` returns is what is stored for one of the user's
      order rows, amount included. */
  lemma ByStatusesStored(t: Tables, user: UserId, statuses: seq<Status>, o: Order)
    requires TablesValid(t) && forall i :: 0 <= i < |statuses| ==> Named(statuses[i])
    requires ByStatuses(t, user, statuses, NoFault).Success? && o in ByStatuses(t, user, statuses, NoFault).value
    ensures exists i :: 0 <= i < |t.orders| && t.orders[i].userId == user && StoredAs(o, t.orders[i], t.sums)
  {
    var recs := SortByUpload(Where(Joined(t.orders, t.sums), Some(user), Texts(statuses)));
    QueryExact(t, recs, Some(user), statuses);
    var os := Scan(recs, RecordToOrder).value;
    var k :| 0 <= k < |os| && os[k] == o;
    assert recs[k] in multiset(recs);
    assert recs[k] in Where(Joined(t.orders, t.sums), Some(user), Texts(statuses));
    RecordStored(t, recs[k]);
  }

  /** An order whose row has no amount row is read back with a nil accrual. */
  lemma NoAmountReadsNil(t: Tables, user: UserId, statuses: seq<Status>, o: Order)
    requires TablesValid(t) && forall i :: 0 <= i < |statuses| ==> Named(statuses[i])
    requires ByStatuses(t, user, statuses, NoFault).Success? && o in ByStatuses(t, user, statuses, NoFault).value
    requires SumsOf(o.id, t.sums) == []
    ensures o.info.accrual.None?
  {
    ByStatusesStored(t, user, statuses, o);
  }

  // ----- OrdersUpdate -----

  /** `UPDATE ordr SET status=$2, upload=$3 WHERE o_id = $1` for one order. */
  function SetRows(rows: seq<OrderRow>, o: Order): (r: seq<OrderRow>)
    requires Named(o.info.status)
    ensures |r| == |rows|
  {
    seq(|rows|, i requires 0 <= i < |rows| =>
      if rows[i].id == o.id then rows[i].(status := OrderStatus.String(o.info.status), upload := o.info.uploaded)
      else rows[i])
  }

  /** `UPDATE o_sum SET acc=$2 WHERE o_id = $1`: rewrites existing amount rows only. */
  function SetSums(sums: seq<SumRow>, id: OrderId, acc: Amount): (r: seq<SumRow>)
    ensures |r| == |sums|
  {
    seq(|sums|, k requires 0 <= k < |sums| => if sums[k].id == id then sums[k].(acc := acc) else sums[k])
  }

  /** The statements `OrdersUpdate` issues for one order: the amount update only for a
      non-nil accrual. */
  function ApplyOne(t: Tables, o: Order): Tables
    requires Named(o.info.status)
  {
    Tables(SetRows(t.orders, o),
           if o.info.accrual.Some? then SetSums(t.sums, o.id, ToFloat(o.info.accrual.value)) else t.sums)
  }

  predicate AllNamed(batch: seq<Order>) {
    forall i :: 0 <= i < |batch| ==> Named(batch[i].info.status)
  }

  /** The updates of the whole batch, in order. */
  function ApplyAll(t: Tables, batch: seq<Order>): (r: Tables)
    requires AllNamed(batch)
    ensures |r.orders| == |t.orders| && |r.sums| == |t.sums|
  {
    if batch == [] then t else ApplyOne(ApplyAll(t, batch[..|batch| - 1]), batch[|batch| - 1])
  }

  /** Whether a fault hits a step `OrdersUpdate` takes. Step 0 is opening the transaction
      and preparing both statements; step `2i+1` is the status update of `batch[i]`,
      step `2i+2` its amount update (taken only when its accrual is non-nil); step
      `2|batch|+1` is the commit. */
  predicate UpdateFails(batch: seq<Order>, fault: Fault) {
    && fault.FaultAt?
    && var k := fault.statement;
      || k == 0
      || k == 2 * |batch| + 1
      || (0 < k && (k - 1) / 2 < |batch| && ((k - 1) % 2 == 0 || batch[(k - 1) / 2].info.accrual.Some?))
  }

  /** The tables and the error after `OrdersUpdate(batch)`: all or nothing. */
  function UpdateOutcome(t: Tables, batch: seq<Order>, fault: Fault): (Tables, Option<Error>)
    requires AllNamed(batch)
  {
    if UpdateFails(batch, fault) then (t, Some(Storage)) else (ApplyAll(t, batch), None)
  }

  /** Updates change only status, upload and existing amounts: no row appears or
      disappears, and IDs, owners and numbers stay. */
  lemma {:induction false} ApplyAllShape(t: Tables, batch: seq<Order>)
    requires AllNamed(batch)
    ensures var t' := ApplyAll(t, batch);
      && |t'.orders| == |t.orders| && |t'.sums| == |t.sums|
      && (forall i :: 0 <= i < |t.orders| ==>
            t'.orders[i].id == t.orders[i].id && t'.orders[i].userId == t.orders[i].userId && t'.orders[i].num == t.orders[i].num
            && (t.orders[i].status in Names() ==> t'.orders[i].status in Names()))
      && (forall k :: 0 <= k < |t.sums| ==> t'.sums[k].id == t.sums[k].id)
  {
    if batch != [] {
      ApplyAllShape(t, batch[..|batch| - 1]);
    }
  }

  lemma UpdateKeepsValid(t: Tables, batch: seq<Order>)
    requires TablesValid(t) && AllNamed(batch)
    ensures TablesValid(ApplyAll(t, batch))
  {
    var t' := ApplyAll(t, batch);
    ApplyAllShape(t, batch);
    forall k | 0 <= k < |t'.sums|
      ensures HasOrder(t'.orders, t'.sums[k].id)
    {
      assert HasOrder(t.orders, t.sums[k].id);
      var i :| 0 <= i < |t.orders| && t.orders[i].id == t.sums[k].id;
      assert t'.orders[i].id == t'.sums[k].id;
    }
  }

  /** A row whose order is not in the batch is left as it was. */
  lemma {:induction false} UpdateUntouched(t: Tables, batch: seq<Order>, i: nat)
    requires AllNamed(batch) && i < |t.orders|
    requires forall j :: 0 <= j < |batch| ==> batch[j].id != t.orders[i].id
    ensures ApplyAll(t, batch).orders[i] == t.orders[i]
  {
    ApplyAllShape(t, batch);
    if batch != [] {
      UpdateUntouched(t, batch[..|batch| - 1], i);
    }
  }

  /** A row gets the status and upload time of the last order in the batch with its ID. */
  lemma {:induction false} UpdateLastWins(t: Tables, batch: seq<Order>, i: nat, j: nat)
    requires AllNamed(batch) && i < |t.orders| && j < |batch| && batch[j].id == t.orders[i].id
    requires forall k :: j < k < |batch| ==> batch[k].id != t.orders[i].id
    ensures && ApplyAll(t, batch).orders[i].status == OrderStatus.String(batch[j].info.status)
      && ApplyAll(t, batch).orders[i].upload == batch[j].info.uploaded
  {
    ApplyAllShape(t, batch);
    var n := |batch| - 1;
    if j < n {
      UpdateLastWins(t, batch[..n], i, j);
      ApplyAllShape(t, batch[..n]);
    } else {
      ApplyAllShape(t, batch[..n]);
    }
  }

  /** An amount row is rewritten only by an order of the batch with its ID and a
      non-nil accrual; without one it keeps its amount. */
  lemma {:induction false} UpdateSumUntouched(t: Tables, batch: seq<Order>, k: nat)
    requires AllNamed(batch) && k < |t.sums|
    requires forall j :: 0 <= j < |batch| && batch[j].id == t.sums[k].id ==> batch[j].info.accrual.None?
    ensures ApplyAll(t, batch).sums[k] == t.sums[k]
  {
    ApplyAllShape(t, batch);
    if batch != [] {
      UpdateSumUntouched(t, batch[..|batch| - 1], k);
      ApplyAllShape(t, batch[..|batch| - 1]);
    }
  }

  /** An amount row holds the accrual of the last order of the batch with its ID and a
      non-nil accrual, as the decimal it is stored as. */
  lemma {:induction false} UpdateSumLastWins(t: Tables, batch: seq<Order>, k: nat, j: nat)
    requires AllNamed(batch) && k < |t.sums| && j < |batch|
    requires batch[j].id == t.sums[k].id && batch[j].info.accrual.Some?
    requires forall m :: j < m < |batch| && batch[m].id == t.sums[k].id ==> batch[m].info.accrual.None?
    ensures ApplyAll(t, batch).sums[k] == t.sums[k].(acc := ToFloat(batch[j].info.accrual.value))
  {
    var n := |batch| - 1;
    ApplyAllShape(t, batch[..n]);
    if j < n {
      UpdateSumLastWins(t, batch[..n], k, j);
    }
  }

  /** An order has no amount exactly when no `o_sum` row carries its ID. */
  lemma {:induction false} NoSums(id: OrderId, sums: seq<SumRow>)
    ensures SumsOf(id, sums) == [] <==> forall k :: 0 <= k < |sums| ==> sums[k].id != id
  {
    if sums != [] {
      NoSums(id, sums[..|sums| - 1]);
      assert forall k :: 0 <= k < |sums| - 1 ==> sums[..|sums| - 1][k] == sums[k];
    }
  }

  /** `OrdersUpdate` only rewrites amount rows and never inserts one: an order that had
      no amount row still has none, whatever accrual the batch gives it. */
  lemma UpdateAddsNoAmount(t: Tables, batch: seq<Order>, id: OrderId)
    requires AllNamed(batch) && SumsOf(id, t.sums) == []
    ensures SumsOf(id, ApplyAll(t, batch).sums) == []
  {
    ApplyAllShape(t, batch);
    NoSums(id, t.sums);
    NoSums(id, ApplyAll(t, batch).sums);
  }

  /** The zero-value order (nil ID, nil accrual) touches nothing when no row has the nil ID. */
  lemma ZeroOrderNoop(t: Tables)
    requires forall i :: 0 <= i < |t.orders| ==> t.orders[i].id != NilOrderId
    ensures ApplyOne(t, ZeroOrder) == t
  {
    assert SetRows(t.orders, ZeroOrder) == t.orders;
  }

  lemma {:induction false} ApplyAllAppend(t: Tables, a: seq<Order>, b: seq<Order>)
    requires AllNamed(a) && AllNamed(b)
    ensures AllNamed(a + b)
    ensures ApplyAll(t, a + b) == ApplyAll(ApplyAll(t, a), b)
    decreases |b|
  {
    if b == [] {
      assert a + b == a;
    } else {
      var n := |b| - 1;
      assert (a + b)[..|a + b| - 1] == a + b[..n];
      ApplyAllAppend(t, a, b[..n]);
    }
  }

  /** `n` zero-value orders. */
  function Zeros(n: nat): (zs: seq<Order>)
    ensures |zs| == n && AllNamed(zs)
  {
    seq(n, _ => ZeroOrder)
  }

  /** A prefix of zero-value orders changes nothing when no row has the nil ID. */
  lemma {:induction false} ZerosNoop(t: Tables, n: nat)
    requires forall i :: 0 <= i < |t.orders| ==> t.orders[i].id != NilOrderId
    ensures ApplyAll(t, Zeros(n)) == t
  {
    if n > 0 {
      assert Zeros(n)[..n - 1] == Zeros(n - 1);
      ZerosNoop(t, n - 1);
      ZeroOrderNoop(t);
    }
  }

  lemma ZeroPrefixNoop(t: Tables, n: nat, batch: seq<Order>)
    requires AllNamed(batch)
    requires forall i :: 0 <= i < |t.orders| ==> t.orders[i].id != NilOrderId
    ensures AllNamed(Zeros(n) + batch)
    ensures ApplyAll(t, Zeros(n) + batch) == ApplyAll(t, batch)
  {
    ApplyAllAppend(t, Zeros(n), batch);
    ZerosNoop(t, n);
  }

  // ----- the repository object -----

  /** `Postgres`: the two tables. */
  class Store {
    var orders: seq<OrderRow>
    var sums: seq<SumRow>

    function State(): Tables
      reads this
    {
      Tables(orders, sums)
    }

    ghost predicate Valid()
      reads this
    {
      TablesValid(State())
    }

    /** Empty tables, as `createTable` leaves a new database. */
    constructor ()
      ensures Valid() && orders == [] && sums == []
    {
      orders, sums := [], [];
    }

    /** `SaveOrder`. */
    method SaveOrder(o: Order, fault: Fault) returns (err: Option<Error>)
      requires Valid() && Named(o.info.status)
      modifies this
      ensures Valid()
      ensures (State(), err) == SaveOutcome(old(State()), o, fault)
    {
      SaveKeepsValid(State(), o, fault);
      if fault == FaultAt(0) {
        return Some(Storage);
      }
      // INSERT ... ON CONFLICT(num) DO UPDATE SET num=EXCLUDED.num RETURNING o_id, user_id, num
      var row := NewRow(o);
      var existing := FindNum(orders, row.num);
      var txOrders := orders;
      var returned := row;
      if existing.Some? {
        returned := orders[existing.value];
      } else if HasOrder(orders, o.id) {
        return Some(Storage);
      } else {
        txOrders := orders + [row];
      }
      if returned.userId != o.userId {
        return Some(FieldConflict(UserData(o.userId)));
      }
      if returned.id != o.id {
        return Some(FieldConflict(OrderData(o.id)));
      }
      var txSums := sums;
      if o.info.accrual.Some? {
        // INSERT INTO o_sum(o_id, acc)
        if fault == FaultAt(1) {
          return Some(Storage);
        }
        txSums := sums + [SumRow(o.id, ToFloat(o.info.accrual.value))];
      }
      if fault == FaultAt(2) {
        return Some(Storage);
      }
      orders, sums := txOrders, txSums;
      return None;
    }

    /** The `for i := range statuses` loop that fills `pqArr`. */
    static method StatusTexts(statuses: seq<Status>) returns (names: seq<string>)
      requires forall i :: 0 <= i < |statuses| ==> Named(statuses[i])
      ensures names == Texts(statuses)
    {
      var pqArr := new string[|statuses|];
      for i := 0 to |statuses|
        invariant forall k :: 0 <= k < i ==> pqArr[k] == OrderStatus.String(statuses[k])
      {
        pqArr[i] := OrderStatus.String(statuses[i]);
      }
      names := pqArr[..];
    }

    /** The `for rows.Next()` loop: converts each record, stopping at the first failure. */
    static method ScanRows(recs: seq<Record>) returns (r: Result<seq<Order>, Error>)
      ensures r == Scan(recs, RecordToOrder)
    {
      var os: seq<Order> := [];
      for i := 0 to |recs|
        invariant Scan(recs[..i], RecordToOrder) == Success(os)
      {
        assert recs[..i + 1][..i] == recs[..i];
        var o := RecordToOrder(recs[i]);
        if o.Failure? {
          ScanPrefixFailure(recs, i + 1, RecordToOrder);
          return Failure(o.error);
        }
        os := os + [o.value];
      }
      assert recs[..|recs|] == recs;
      r := Success(os);
    }

    /** `OrdersByStatuses`. */
    method OrdersByStatuses(user: UserId, statuses: seq<Status>, fault: Fault) returns (r: Result<seq<Order>, Error>)
      requires forall i :: 0 <= i < |statuses| ==> Named(statuses[i])
      ensures r == ByStatuses(State(), user, statuses, fault)
    {
      var names := StatusTexts(statuses);
      if fault == FaultAt(0) {
        return Failure(Storage);
      }
      var rows := SortByUpload(Where(Joined(orders, sums), Some(user), names));
      r := ScanRows(Delivered(rows, fault));
    }

    /** `OrdersBatch`. */
    method OrdersBatch(statuses: seq<Status>, fault: Fault) returns (r: Result<seq<Order>, Error>)
      requires forall i :: 0 <= i < |statuses| ==> Named(statuses[i])
      ensures r == Batch(State(), statuses, fault)
    {
      var names := StatusTexts(statuses);
      if fault == FaultAt(0) {
        return Failure(Storage);
      }
      var rows := Where(Joined(orders, sums), None, names);
      r := ScanRows(Delivered(rows, fault));
    }

    /** `OrdersUpdate`: one transaction over the whole batch. */
    method OrdersUpdate(batch: seq<Order>, fault: Fault) returns (err: Option<Error>)
      requires Valid() && AllNamed(batch)
      modifies this
      ensures Valid()
      ensures (State(), err) == UpdateOutcome(old(State()), batch, fault)
    {
      if fault == FaultAt(0) {
        return Some(Storage);
      }
      var tx := State();
      for i := 0 to |batch|
        invariant tx == ApplyAll(State(), batch[..i])
        invariant forall k :: 0 < k <= 2 * i ==> fault != FaultAt(k) || (k % 2 == 0 && batch[(k - 1) / 2].info.accrual.None?)
      {
        assert batch[..i + 1][..i] == batch[..i];
        var o := batch[i];
        if fault == FaultAt(2 * i + 1) {
          return Some(Storage);
        }
        tx := tx.(orders := SetRows(tx.orders, o));
        if o.info.accrual.Some? {
          if fault == FaultAt(2 * i + 2) {
            return Some(Storage);
          }
          tx := tx.(sums := SetSums(tx.sums, o.id, ToFloat(o.info.accrual.value)));
        }
      }
      if fault == FaultAt(2 * |batch| + 1) {
        return Some(Storage);
      }
      assert batch[..|batch|] == batch;
      UpdateKeepsValid(State(), batch);
      orders, sums := tx.orders, tx.sums;
      return None;
    }
  }
}

# Gophermart order accounting, modelled in Dafny

This project models the order-accounting core of the Gophermart loyalty service
(`internal/gophermart/app`). A user uploads an order number. The number must pass the
Luhn check. The service asks the external accrual system about it and stores the
order. A background pass keeps polling the accrual system for orders still `NEW` or
`PROCESSING` and writes back those whose status changed. A user can list their orders
and withdrawals, read their balance, and withdraw points against it.

The modules follow the source:

| module | file | models |
|---|---|---|
| `OrderStatus` | status.dfy | `model/order/status.go`: the status enum, its name table, `ParseStatus`, `String` |
| `OrderAccrual` | accrual.dfy | `model/order/accrual.go`: `Accrual` as a `uint64` count of hundredths, `NewAccrual`, `ParseAccrual`, `Add`, `ToFloat` |
| `OrderNumber` | number.dfy | `model/order/number.go`: `ParseNumber` as `strconv.Atoi` plus the `int` to `uint64` conversion, `String` as `strconv.Itoa(int(n))` |
| `OrderInfo` | info.dfy | `model/order/info.go`: `Info`, `ParseInfo`, `NewInfo`, `Info.new` |
| `OrderEntity` | order.dfy | `model/order/order.go`: `Order`, `New`, `UpdateInfo` |
| `OrderBalance` | balance.dfy | `model/order/balance.go`: `Balance`, `NewBalance` |
| `Luhn` | luhn.dfy | `ValidNumber` and `checksum` from `service/order/saved.go` |
| `AccrualSource` | accrual_source.dfy | `repository/accrual/accrual.go`: `correctStatus` and the reply classification of `Repo.Load` |
| `OrderStore` | store.dfy | `repository/postgres/postgres.go`: the `ordr` and `o_sum` tables in memory, `SaveOrder`, `OrdersByStatuses`, `OrdersBatch`, `OrdersUpdate`, `orderDB.order` |
| `SaveService` | saved.dfy | `service/order/saved.go`: `getBalance`, `LoadOrder`, `Withdraw`, `errWithdraw.IsSuccessful` |
| `UpdateService` | update.dfy | `service/order/update.go`: `getUpdates` and `run` |
| `OrderService` | getting.dfy | `service/order/getting.go`: `GetOrders`, `Withdrawals`, `Balance` |
| `Errors`, `Ids`, `Wrappers` | errors.dfy, ids.dfy, wrappers.dfy | error values, opaque order and user IDs, `Option` and `Result` |

How the outside world is modelled:

- **Store.** The store is a class with two sequence fields: the order rows and the amount rows. Each SQL statement is written as a function on the tables. The Go code around the statements is written as the class's methods. That covers the checks after `RETURNING`, the loops, and commit or rollback. Each method is proved equal to an outcome function, and the lemmas are about those functions.
- **Database failures.** Any database failure is a `Fault` parameter. `FaultAt(k)` makes step `k` of the call fail. `RowsEndAt(n)` makes the row iteration of a query stop after `n` rows. Neither scan loop reads `rows.Err()` afterwards, so that query still succeeds, with the rows read so far.
- **Accrual system.** It is a class holding the reply it gives for each number. It also keeps a ghost log of the numbers it was asked for, so "no request was made" can be stated.
- **Clock and IDs.** The clock reading and the fresh order ID are parameters.
- **Integers and floats.**
  - Integers are unbounded. The `uint64` wrap of `Accrual.Add`, of `procAcc - withAcc` and of `Number(n)` is written out.
  - Go truncates `%` and `/` towards zero, and Dafny does not. `ValidNumber` therefore uses explicit truncating division and remainder. The `checksum` loop uses Dafny's `%` and `/`, which agree with Go's there because the loop runs only while the number is positive.
  - Floats (`ToFloat`, the JSON accrual, the `o_sum` amount) are exact real numbers. `NewAccrual` truncates `x*100`.

The balance fold reproduces the source as written:

- `procAcc` is set from `withAcc` rather than accumulated (saved.go:72).
- `current` is an unsigned difference that wraps (saved.go:76).
- `Withdraw` subtracts `withdrawn` from that `current` a second time (saved.go:94).

Lemmas `TwoProcessedKeepLast`, `WithdrawalBeforeProcessedCancels` and `LoneWithdrawalWraps` show what these defects give on concrete inputs.

Two more behaviours of the store are reproduced as written:

- `OrdersUpdate` rewrites amount rows with `UPDATE` and never inserts one (postgres.go:348-351). An order stored while `NEW` or `PROCESSING` has no amount row, so the points it gets when it turns `PROCESSED` are never stored or credited (`UpdateAddsNoAmount`, `RunAddsNoAmount`, `NoAmountReadsNil`).
- `o_sum` has no key (postgres.go:115-118), and saving the same order again adds another amount row. The join then lists that order once per amount row (`JoinedMultiplicity`), and every query returns it that many times.

## Model

| member | source | states |
|---|---|---|
| Luhn.Checksum | internal/gophermart/app/service/order/saved.go:109-126 | the digit loop returns a value in 0..9: for a positive input the Luhn sum of its decimal digits (the rightmost doubled, then every second one, 9 cast out) modulo 10, and 0 otherwise |
| Luhn.ValidNumber | internal/gophermart/app/service/order/saved.go:105-107 | the specification of the check: `checksum(number/10) + number%10` divisible by 10, with Go's truncating operators; it has no contract of its own, and `IsValidNumber` and `ValidNumberIsLuhn` state what it decides |
| Luhn.IsValidNumber | internal/gophermart/app/service/order/saved.go:105-107 | calling `checksum` on `number/10` and adding the last digit, both with Go's truncating operators, decides `ValidNumber` |
| Luhn.ValidNumberIsLuhn | internal/gophermart/app/service/order/saved.go:105-126 | for a non-negative number, `ValidNumber` holds iff the standard Luhn total of its decimal digits is divisible by 10 |
| Luhn.TextSumIsWeightedSum | internal/gophermart/app/service/order/saved.go:109-126 | the arithmetic digit loop computes the same sum as the Luhn sum over the decimal text |
| Luhn.ZeroIsValid | internal/gophermart/app/service/order/saved.go:105-126 | 0 passes the check |
| Luhn.CheckDigitUnique | internal/gophermart/app/service/order/saved.go:105-107 | for any prefix, exactly one last digit makes the number valid |
| Luhn.NegativeValidIffMultipleOf10 | internal/gophermart/app/service/order/saved.go:105-126 | a negative number (a `Number` of 2^63 or more cast to `int`) is valid iff it is a multiple of 10, since `checksum` of a negative value is 0 |
| OrderStatus.Names | internal/gophermart/app/internal/model/order/status.go:15-25 | the name table has one entry per status 0..6 |
| OrderStatus.String | internal/gophermart/app/internal/model/order/status.go:37 | the table entry of a status 0..6, whose precondition stands for Go's panic on an index past the table; it has no contract of its own, and `ParseString` and `StringInjective` state its meaning |
| OrderStatus.Find | internal/gophermart/app/internal/model/order/status.go:28-34 | the search returns the first index whose name matches, or `StatusNew` when none does |
| OrderStatus.ParseStatus | internal/gophermart/app/internal/model/order/status.go:27-35 | the result is always printable; a known name parses to the status printed as that name; an unknown string parses to `StatusNew`, not `StatusNotSupport` |
| OrderStatus.NamesDistinct | internal/gophermart/app/internal/model/order/status.go:15-25 | the seven names are pairwise different |
| OrderStatus.ParseString | internal/gophermart/app/internal/model/order/status.go:27-37 | `ParseStatus(String(s)) == s` for every status 0..6, so `"REGISTERED"` parses to `StatusRegistered` |
| OrderStatus.StringInjective | internal/gophermart/app/internal/model/order/status.go:37 | two printable statuses print the same iff they are equal |
| OrderStatus.PrintsDifferently | internal/gophermart/app/service/order/update.go:108 | the printed-name test of `getUpdates` reports a difference exactly when the statuses differ |
| OrderAccrual.ToFloat | internal/gophermart/app/internal/model/order/accrual.go:27 | the amount times 100 is the count of hundredths |
| OrderAccrual.NewAccrual | internal/gophermart/app/internal/model/order/accrual.go:5-8 | the result is the amount truncated to hundredths |
| OrderAccrual.ParseAccrual | internal/gophermart/app/internal/model/order/accrual.go:10-17 | nil stays nil, and a non-nil amount gives a non-nil accrual truncated to hundredths |
| OrderAccrual.Add | internal/gophermart/app/internal/model/order/accrual.go:19-25 | adding nil changes nothing; adding a value is exact when it fits and congruent modulo 2^64 always |
| OrderAccrual.NewAccrualOfToFloat | internal/gophermart/app/internal/model/order/accrual.go:5-8 | `NewAccrual(ToFloat(a)) == a` |
| OrderAccrual.SumIsExactModulo | internal/gophermart/app/internal/model/order/accrual.go:19-25 | folding `Add` over a list gives the exact total, with nil counted as 0, reduced modulo 2^64 |
| OrderAccrual.SumPermutation | internal/gophermart/app/internal/model/order/accrual.go:19-25 | folding `Add` gives the same total whatever the order of the accruals |
| OrderNumber.ParseNumberSpec | internal/gophermart/app/internal/model/order/number.go:7-14 | parsing succeeds iff the text is an optional sign followed by digits whose value fits in `int64`, and the number is that value modulo 2^64 |
| OrderNumber.ParseNumber | internal/gophermart/app/internal/model/order/number.go:7-14 | `Atoi` followed by the `uint64` conversion; it has no contract of its own, and `ParseNumberSpec` and `ParseNumberOfString` state what it accepts and returns |
| OrderNumber.String | internal/gophermart/app/internal/model/order/number.go:16 | `Itoa` of the number cast to `int`; it has no contract of its own, and `ParseNumberOfString` and `StringOfParseNumber` state its round trips with `ParseNumber` |
| OrderNumber.ParseNumberOfString | internal/gophermart/app/internal/model/order/number.go:7-16 | `ParseNumber(String(n)) == n` for every `uint64`, including those printed negative |
| OrderNumber.AtoiOfItoa | internal/gophermart/app/internal/model/order/number.go:8-16 | `Atoi(Itoa(i)) == i` for every `int64` |
| OrderNumber.StringOfParseNumber | internal/gophermart/app/internal/model/order/number.go:7-16 | a digit string with no sign and no leading zero, below 2^63, parses and prints back unchanged |
| OrderNumber.RejectsLetter | internal/gophermart/app/internal/model/order/number.go:8-11 | `"a23"` is an error |
| OrderNumber.NegativeWraps | internal/gophermart/app/internal/model/order/number.go:8-13 | `"-1"` is accepted and becomes 2^64-1 |
| OrderInfo.ParseInfo | internal/gophermart/app/internal/model/order/info.go:12-24 | it fails iff the number text fails to parse, with that error; otherwise the fields are `ParseNumber`, `ParseStatus`, `ParseAccrual` of the inputs and the date |
| OrderInfo.Info.Renew | internal/gophermart/app/internal/model/order/info.go:35-42 | `i.new(x)` is `x`, whatever `i` is, and never fails |
| OrderInfo.ParseInfoOfPrinted | internal/gophermart/app/internal/model/order/info.go:12-24 | an `Info` written the way the store writes it reads back unchanged |
| OrderEntity.UpdateInfoIdempotent | internal/gophermart/app/internal/model/order/order.go:19-28 | updating with the same info twice is updating once |
| OrderEntity.Order.UpdateInfo | internal/gophermart/app/internal/model/order/order.go:19-28 | the order gets the new info and keeps its ID and user ID |
| AccrualSource.CorrectStatus | internal/gophermart/app/repository/accrual/accrual.go:42-47 | registered becomes `NEW`, every other status is kept, and the result is never registered |
| AccrualSource.CorrectStatusIdempotent | internal/gophermart/app/repository/accrual/accrual.go:42-47 | applying it twice is applying it once |
| AccrualSource.Classify | internal/gophermart/app/repository/accrual/accrual.go:65-108 | a reply gives an `Info` iff it is 200 with a decoded body or 204; that `Info` has the requested number, the clock time and a printable status that is never registered |
| AccrualSource.OkReply | internal/gophermart/app/repository/accrual/accrual.go:66-76 | 200 gives the requested number, `correctStatus(ParseStatus(status))` and `ParseAccrual(accrual)`; the body's `order` field is ignored |
| AccrualSource.NoContentReply | internal/gophermart/app/repository/accrual/accrual.go:78-83 | 204 gives `NEW` with no accrual and no error |
| AccrualSource.TooManyRequestsAlwaysWaits8 | internal/gophermart/app/repository/accrual/accrual.go:85-98 | because `Retry-After` is read from the outgoing request, which never has it, 429 always gives a retryable error after 8 |
| AccrualSource.TooManyRequestsWithHeader | internal/gophermart/app/repository/accrual/accrual.go:86-98 | were the header set, an integer value would be the wait and any other value a non-retryable error |
| AccrualSource.OtherReplies | internal/gophermart/app/repository/accrual/accrual.go:100-107 | 500 gives a retryable error after 8; any other code a non-retryable error |
| AccrualSource.Source.Load | internal/gophermart/app/repository/accrual/accrual.go:49-109 | one request is logged for the number, and the result is the classification of the reply |
| OrderStore.FindNum | internal/gophermart/app/repository/postgres/postgres.go:197-200 | the conflict lookup finds the row holding the number, or reports that none does |
| OrderStore.SaveKeepsValid | internal/gophermart/app/repository/postgres/postgres.go:193-261 | `SaveOrder` keeps numbers unique, order IDs unique, statuses printable and every amount row tied to an order |
| OrderStore.SaveAllOrNothing | internal/gophermart/app/repository/postgres/postgres.go:212-261 | an error rolls everything back |
| OrderStore.SaveNewNumber | internal/gophermart/app/repository/postgres/postgres.go:193-261 | a new number inserts exactly one order row, adds an amount row iff the accrual is non-nil, and reports no error |
| OrderStore.SaveNumberOfOtherUser | internal/gophermart/app/repository/postgres/postgres.go:218-238 | a number held by another user gives a conflict carrying the caller's user ID and changes nothing |
| OrderStore.SaveNumberOfSameUser | internal/gophermart/app/repository/postgres/postgres.go:218-244 | a number held by the same user under another ID gives a conflict carrying the new order ID and changes nothing; the user is checked first |
| OrderStore.Store.SaveOrder | internal/gophermart/app/repository/postgres/postgres.go:193-261 | the tables and error are the outcome function's, and the tables stay valid |
| OrderStore.Joined | internal/gophermart/app/repository/postgres/postgres.go:317-319 | the left join gives at least one record per order row; how many and which is stated by `JoinedPerRow`, `JoinedMultiplicity`, `JoinedFromRow`, `EveryRowJoined` and `EveryAmountJoined` |
| OrderStore.JoinedPerRow | internal/gophermart/app/repository/postgres/postgres.go:317-319 | with distinct order IDs, the joined records of an order are exactly those of its row: one per `o_sum` row of the order, with that amount, or a single one with a null amount |
| OrderStore.JoinedMultiplicity | internal/gophermart/app/repository/postgres/postgres.go:115-118 | `o_sum` has no key, so in valid tables an order with k amount rows appears in the join k times, and an order with none appears once; every one of those records carries the order row's fields |
| OrderStore.JoinedFromRow | internal/gophermart/app/repository/postgres/postgres.go:317-319 | every joined record carries an order row's fields; its amount is null exactly when that row has no `o_sum` row, and is otherwise one of the row's amounts |
| OrderStore.EveryRowJoined | internal/gophermart/app/repository/postgres/postgres.go:317-319 | an order row with no `o_sum` row appears in the join with a null amount |
| OrderStore.RowJoinAmount | internal/gophermart/app/repository/postgres/postgres.go:317-319 | each amount of an order row gives a joined record of that row with that amount |
| OrderStore.RowJoinInJoined | internal/gophermart/app/repository/postgres/postgres.go:317-319 | every record that one order row's left join gives is a record of the table join |
| OrderStore.EveryAmountJoined | internal/gophermart/app/repository/postgres/postgres.go:317-319 | for each of an order row's amounts, the join has a record of that row with that amount |
| OrderStore.Where | internal/gophermart/app/repository/postgres/postgres.go:320-321 | a record is kept iff it is in the input, belongs to the given user when one is given, and has a status in the list |
| OrderStore.SortByUpload | internal/gophermart/app/repository/postgres/postgres.go:322 | `ORDER BY upload` gives a permutation of the rows ordered by upload time |
| OrderStore.RecordToOrderSpec | internal/gophermart/app/repository/postgres/postgres.go:25-49 | a scanned row converts iff its number text parses; the order keeps the row's IDs and takes its info from `ParseInfo` |
| OrderStore.RecordToOrder | internal/gophermart/app/repository/postgres/postgres.go:25-49 | the conversion of one scanned row; it has no contract of its own, and `RecordToOrderSpec`, `JoinedConverts` and `RecordStored` state what it yields |
| OrderStore.ScanValues | internal/gophermart/app/repository/postgres/postgres.go:263-289 | a successful scan yields one order per row, the row's conversion, in row order |
| OrderStore.ScanSucceeds | internal/gophermart/app/repository/postgres/postgres.go:263-289 | the scan succeeds when every row converts |
| OrderStore.ScanFails | internal/gophermart/app/repository/postgres/postgres.go:280-283 | a failed scan reports the error of a row that does not convert |
| OrderStore.Store.ScanRows | internal/gophermart/app/repository/postgres/postgres.go:263-289 | the row loop stops at the first row that does not convert and otherwise returns the scan |
| OrderStore.Store.StatusTexts | internal/gophermart/app/repository/postgres/postgres.go:325-328 | the array passed to `ANY` holds each status's printed name |
| OrderStore.JoinedConverts | internal/gophermart/app/repository/postgres/postgres.go:25-49 | every row of valid tables converts, keeping its user and its status |
| OrderStore.ByStatusesErrors | internal/gophermart/app/repository/postgres/postgres.go:330-338 | a query fails only with a database error or a stored number that does not parse |
| OrderStore.ByStatusesExact | internal/gophermart/app/repository/postgres/postgres.go:315-339 | the query succeeds; its result is the scan of a permutation of the user's matching joined records (one order per record, nothing else), each with that user and a listed status, every matching record's order present, ordered by upload time |
| OrderStore.BatchExact | internal/gophermart/app/repository/postgres/postgres.go:401-448 | the query succeeds; its result is the scan of the matching joined records of every user, one order per record in table order, each with a listed status, every matching record's order present |
| OrderStore.RecordStored | internal/gophermart/app/repository/postgres/postgres.go:25-49 | a joined record of valid tables converts to what is stored for one order row: its IDs, number, parsed status, upload time, and an accrual that is nil exactly when the row has no amount and is otherwise one of its amounts truncated to hundredths |
| OrderStore.ByStatusesStored | internal/gophermart/app/repository/postgres/postgres.go:315-339 | every order the query returns is what is stored for one of the user's order rows, amount included |
| OrderStore.Delivered | internal/gophermart/app/repository/postgres/postgres.go:268-288 | the rows the loop receives are a prefix of the result set: all of it, or the first `n` rows when the iteration breaks off after `n` |
| OrderStore.ByStatusesCut | internal/gophermart/app/repository/postgres/postgres.go:268-288 | when the iteration breaks off after `n` rows, the query still succeeds, with the first `n` orders of the complete answer |
| OrderStore.BatchCut | internal/gophermart/app/repository/postgres/postgres.go:427-447 | the same for the batch query: success with the first `n` orders of the complete answer |
| OrderStore.Store.OrdersByStatuses | internal/gophermart/app/repository/postgres/postgres.go:315-339 | the result is the filtered, sorted, scanned join, as far as the rows were delivered |
| OrderStore.Store.OrdersBatch | internal/gophermart/app/repository/postgres/postgres.go:401-448 | the result is the filtered, scanned join, as far as the rows were delivered |
| OrderStore.NoAmountReadsNil | internal/gophermart/app/repository/postgres/postgres.go:315-339 | an order whose row has no amount row is read back with a nil accrual |
| OrderStore.ApplyAllShape | internal/gophermart/app/repository/postgres/postgres.go:342-398 | the updates add and remove no row, never create an amount row, and keep IDs, owners and numbers |
| OrderStore.UpdateKeepsValid | internal/gophermart/app/repository/postgres/postgres.go:342-398 | the updates keep the tables valid |
| OrderStore.UpdateUntouched | internal/gophermart/app/repository/postgres/postgres.go:343-346 | a row whose order is not in the batch is unchanged |
| OrderStore.UpdateLastWins | internal/gophermart/app/repository/postgres/postgres.go:370-381 | a row gets the status and upload time of the last batch entry with its ID |
| OrderStore.UpdateSumUntouched | internal/gophermart/app/repository/postgres/postgres.go:383-394 | an amount row changes only for a batch entry with its ID and a non-nil accrual |
| OrderStore.UpdateSumLastWins | internal/gophermart/app/repository/postgres/postgres.go:383-394 | an amount row ends holding the accrual, as a decimal, of the last batch entry with its ID and a non-nil accrual, and nothing else in the row changes |
| OrderStore.UpdateAddsNoAmount | internal/gophermart/app/repository/postgres/postgres.go:348-351 | the amount statement is an `UPDATE`, so an order without an amount row still has none after the batch, whatever accrual it carries |
| OrderStore.ZeroPrefixNoop | internal/gophermart/app/repository/postgres/postgres.go:370-395 | zero-value orders in front of a batch change nothing when no row has the nil ID |
| OrderStore.Store.OrdersUpdate | internal/gophermart/app/repository/postgres/postgres.go:342-398 | all updates are applied in order, or none when any step fails, and the tables stay valid |
| SaveService.GetBalance | internal/gophermart/app/service/order/saved.go:60-79 | the loop computes the balance fold |
| SaveService.BalanceOf | internal/gophermart/app/service/order/saved.go:60-79 | the balance the fold gives; it has no contract of its own, and `GetBalance`, `WithdrawnIsSum`, `ProcessedIsLastOnly` and `NoProcessedNoCredit` state its meaning |
| SaveService.WithdrawnIsSum | internal/gophermart/app/service/order/saved.go:69-70 | the withdrawn total is the `uint64` sum of the withdrawals' accruals, nil counted as 0 |
| SaveService.ProcessedIsLastOnly | internal/gophermart/app/service/order/saved.go:71-72 | `procAcc` ends as the last processed order's accrual plus the withdrawals before it; earlier processed orders are dropped |
| SaveService.NoProcessedNoCredit | internal/gophermart/app/service/order/saved.go:61-74 | without a processed order `procAcc` stays 0 |
| SaveService.OtherStatusesIgnored | internal/gophermart/app/service/order/saved.go:68-73 | orders of any other status leave both totals alone |
| SaveService.TwoProcessedKeepLast | internal/gophermart/app/service/order/saved.go:71-72 | processed orders of 5.00 and 3.00 give a current balance of 3.00 |
| SaveService.WithdrawalBeforeProcessedCancels | internal/gophermart/app/service/order/saved.go:70-76 | a 1.00 withdrawal then a 5.00 processed order give current 5.00 and withdrawn 1.00 |
| SaveService.CutReadHidesWithdrawal | internal/gophermart/app/service/order/saved.go:82-94 | a processed 5.00 then a 4.00 withdrawal refuse a 2.00 request, while the first order alone, as a read cut after one row returns it, lets it through |
| SaveService.WithdrawOnCutRead | internal/gophermart/app/service/order/saved.go:82-100 | when the balance read breaks off after `n` rows, `Withdraw` refuses or saves by the balance of the first `n` of the user's orders, as if they were all of them |
| SaveService.LoneWithdrawalWraps | internal/gophermart/app/service/order/saved.go:76 | a lone 5.00 withdrawal makes the current balance wrap to 2^64-500 hundredths |
| SaveService.LoadOrder | internal/gophermart/app/service/order/saved.go:45-58 | the tables and error are the outcome function's; the accrual system is asked once iff the number passes the Luhn check |
| SaveService.LoadRejectsInvalid | internal/gophermart/app/service/order/saved.go:46-48 | a number failing the Luhn check gives a number conflict and stores nothing |
| SaveService.LoadUnknownNumber | internal/gophermart/app/service/order/saved.go:50-57 | a valid new number unknown to the accrual system is stored for the user as `NEW`, uploaded now, with no amount |
| SaveService.LoadAgainBySameUser | internal/gophermart/app/service/order/saved.go:55-57 | uploading a number the user already has gives a conflict on the new order ID and stores nothing |
| SaveService.LoadNumberOfOtherUser | internal/gophermart/app/service/order/saved.go:55-57 | uploading another user's number gives a conflict on the caller and stores nothing |
| SaveService.LoadKeepsValid | internal/gophermart/app/service/order/saved.go:45-58 | the tables stay valid, and any error, the accrual system's included, leaves them unchanged |
| SaveService.RefusedInHundredths | internal/gophermart/app/service/order/saved.go:93-94 | the float comparison equals `current - withdrawn <= requested` in hundredths |
| SaveService.IsSuccessful | internal/gophermart/app/service/order/saved.go:28-30 | `current - withdraw <= orderAcc` on the refusal's three amounts; it has no contract of its own, and `RefusalIsSuccessful` states that every refusal satisfies it |
| SaveService.Withdraw | internal/gophermart/app/service/order/saved.go:81-103 | the tables and error are the outcome function's, and the tables stay valid |
| SaveService.WithdrawErrors | internal/gophermart/app/service/order/saved.go:84-87 | a failed balance read is returned before any check or save, and every error leaves the tables unchanged |
| SaveService.WithdrawRefusesIff | internal/gophermart/app/service/order/saved.go:89-102 | the request is refused, saving nothing, iff `current - withdrawn <= requested`, so an equal amount is refused; otherwise the order itself is saved |
| SaveService.RefusalIsSuccessful | internal/gophermart/app/service/order/saved.go:94-100 | every refusal `Withdraw` returns has `IsSuccessful() == true` |
| SaveService.SaveOutcomeErrors | internal/gophermart/app/repository/postgres/postgres.go:193-261 | `SaveOrder` reports only database errors and field conflicts |
| SaveService.WithdrawReadsOwnOrders | internal/gophermart/app/service/order/saved.go:82-84 | the balance is computed from exactly the user's stored withdrawals and processed orders: every joined record of such a row is read, one order per record (an order with k amount rows counts k times), nothing else, oldest first |
| UpdateService.Changes | internal/gophermart/app/service/order/update.go:102-118 | the changed orders have printable statuses and are no more than the orders |
| UpdateService.ChangesSound | internal/gophermart/app/service/order/update.go:108-117 | every changed order is a batch order with its ID and user, its info replaced by its reply's, whose status differs |
| UpdateService.ChangesComplete | internal/gophermart/app/service/order/update.go:108-117 | every batch order whose reply has another status is among the changes |
| UpdateService.RepliesSucceed | internal/gophermart/app/service/order/update.go:103-106 | when the changes are computed, every request succeeded |
| UpdateService.ChangesPrefixFailure | internal/gophermart/app/service/order/update.go:103-106 | after the first failed request nothing more is asked and the error is the result |
| UpdateService.FirstFailureEnds | internal/gophermart/app/service/order/update.go:102-106 | the first failed request's error is the result; it and the orders before it were asked about, and none after it |
| UpdateService.QueriedAll | internal/gophermart/app/service/order/update.go:102-103 | when the first n requests succeed, the first n orders' numbers are asked for, once each, in order |
| UpdateService.RegisteredIsNotAChange | internal/gophermart/app/service/order/update.go:108-111 | a `NEW` order the accrual system reports as registered has no new status |
| UpdateService.Updates | internal/gophermart/app/service/order/update.go:101-117 | every order of the result, `len(orders)` zero values then the changes, has a printable status |
| UpdateService.GetUpdates | internal/gophermart/app/service/order/update.go:100-121 | the result is the zero values followed by the changes in input order, and the log records exactly the numbers asked for |
| UpdateService.BatchNamed | internal/gophermart/app/repository/postgres/postgres.go:439-444 | every order a batch query returns has a printable status |
| UpdateService.Run | internal/gophermart/app/service/order/update.go:71-97 | the tables, error and requests are the outcome function's |
| UpdateService.RunWithoutPending | internal/gophermart/app/service/order/update.go:82-85 | with no pending order nothing is asked, nothing changes and no error is returned |
| UpdateService.RunKeepsValid | internal/gophermart/app/service/order/update.go:71-97 | the tables stay valid, and any error, from the store or the accrual system, leaves them unchanged |
| UpdateService.RunAddsNoAmount | internal/gophermart/app/service/order/update.go:87-96 | `run` never gives an order without an amount row one, so an order stored while `NEW` or `PROCESSING` is never credited the points it later gets |
| UpdateService.RunAppliesChanges | internal/gophermart/app/service/order/update.go:87-96 | with every step succeeding, the tables end as the changes applied, the zero-value prefix touching nothing |
| UpdateService.QueriedFromOrders | internal/gophermart/app/service/order/update.go:102-103 | every number asked for is a batch order's |
| UpdateService.RunQueriesOnlyPending | internal/gophermart/app/service/order/update.go:72-77 | the accrual system is asked only about orders stored as `NEW` or `PROCESSING` |
| OrderService.GetOrders | internal/gophermart/app/service/order/getting.go:24-38 | the result is the store's query for `NEW`, `PROCESSING`, `INVALID` and `PROCESSED`, or its error |
| OrderService.GetOrdersExact | internal/gophermart/app/service/order/getting.go:24-38 | exactly the user's stored orders whose status is `NEW`, `PROCESSING`, `INVALID` or `PROCESSED` (never a withdrawal, never `REGISTERED`), one order per joined record (an order with k amount rows is listed k times), oldest first |
| OrderService.Withdrawals | internal/gophermart/app/service/order/getting.go:40-43 | the result is the store's query for withdrawals, or its error |
| OrderService.WithdrawalsExact | internal/gophermart/app/service/order/getting.go:40-43 | exactly the user's stored rows whose status text is `withdrawal`, one order per joined record, oldest first |
| OrderService.Balance | internal/gophermart/app/service/order/getting.go:45-53 | the result is `getBalance` of the user's withdrawals and processed orders, or the query's error |
| OrderService.BalanceIsWhatWithdrawChecks | internal/gophermart/app/service/order/getting.go:45-53 | a withdrawal is refused iff it is not below the reported `current - withdrawn` |

## Left out

- HTTP handlers, middleware, routing, authentication, hashing, the fake accrual server and `main` are not part of this model. They are request plumbing around the core.
- Scheduling: `uService.Start`/`Stop` (update.go:42-69) is a goroutine racing a timer against a channel, so it is concurrency and wall-clock time. `run` is modelled as one pass. The retry branch at update.go:53-57 can never fire. The accrual client's retryable error has `Retry() int` (accrual.go:22), but update.go:14 asks for `Retry() int64`, so `errors.As` never matches.
- IDs: `order.ID` and `user.ID` are opaque values compared by equality. Parsing the uuid strings of `orderDB.order` (postgres.go:38-46) therefore cannot fail here. Only the number text can.
- The `auser` table, `SaveUser`, `UserByLogin`, and the foreign key from `ordr` to `auser` are not modelled.
- SQL transport: a lost connection, a failed prepare or a failed statement is a `FaultAt` a numbered step and gives a storage error. A failure while the rows of a query are being read is `RowsEndAt(n)`. Neither `ordersRowsScan` (postgres.go:268-288) nor the `OrdersBatch` loop (postgres.go:427-447) reads `rows.Err()` after the loop, so the call returns the rows read so far as a success (`ByStatusesCut`, `BatchCut`). For `Withdraw`, a cut-short read can leave out withdrawals and let a request through (`WithdrawOnCutRead`, `CutReadHidesWithdrawal`). A `rows.Scan` type error cannot arise from the modelled tables, since every row written carries an upload time.
- Timestamps: `upload` is a `TIMESTAMP` column (postgres.go:110), which keeps microseconds and no time zone. The model stores `Time` exactly, so `RecordStored`, `ByStatusesStored` and `ParseInfoOfPrinted` return the exact time written, whereas the database returns it rounded to the microsecond and without its zone.
- AccrualSource.Source.answer: a fixed reply per number, so the accrual system cannot answer the same number differently over time (PROCESSING, then PROCESSED). One `run` pass asks each number once (`QueriedAll`), so nothing within a pass depends on it. A later pass with a different answer is a call with a different `Source`.
- Ties: `ORDER BY upload` leaves rows with equal upload times in an unspecified order. The model keeps table order. `OrdersBatch` has no `ORDER BY`, so the model returns table order.
- Floating point: `NewAccrual`, `ToFloat`, the JSON accrual, the `o_sum` amount and the comparison at saved.go:94 use exact reals. This agrees with Go only for amounts that float64 represents exactly. In Go, 29 hundredths become 0.29, which times 100 is 28.999999999999996, which truncates to 28. So `NewAccrualOfToFloat` and `ParseInfoOfPrinted` hold only in this exact-real model, not for Go's floats.
- Amount range: `Amount` admits only decimals from 0 up to, but not including, 2^64 hundredths. Go's JSON decoder also accepts negative and oversized accruals and withdrawal sums, and their conversion to `uint64` is implementation-defined. Those inputs are not modelled.
- Concurrency: every operation runs atomically, one at a time. In the source, `Withdraw` reads the balance and saves the withdrawal in two separate transactions (saved.go:82-100). Two concurrent withdrawals can therefore both pass the balance check. The model does not capture that interleaving, nor a `run` pass interleaved with a `LoadOrder`.
- OrderEntity.Order.UpdateInfo: Go's pointer-receiver update applies to the loop's copy of the order. `getUpdates` holds orders by value, so the update is a function returning the new order. The `nil` error it always returns is left out.
- Accessors: the getters of `Info`, `Order` and `Balance` are the datatypes' field selectors. `NewInfo`, `New` and `NewBalance` are plain constructors.
- Error texts: `fmt.Errorf` wrapping and messages are left out. An error is its kind and payload.
- Time: `time.Now()` in `NewInfo` is the `now` or `clock(i)` parameter. `order.NewID()` is the `freshId` parameter.

/** `order.Info` (internal/model/order/info.go): the value part of an order. */
module OrderInfo {
  import opened Wrappers
  import opened Ids
  import opened OrderStatus
  import opened OrderAccrual
  import opened OrderNumber

  /** The fields `Accrual()`, `Status()`, `Number()` and `Date()` are the accessors. */
  datatype Info = Info(number: Number, status: Status, accrual: Option<Accrual>, uploaded: Time) {

    /** `Info.new`: a copy of `newInfo` that shares nothing with the receiver; its
        error result is always nil, so the model returns the copy alone. */
    function Renew(newInfo: Info): (r: Info)
      ensures r == newInfo
    {
      Info(newInfo.number, newInfo.status, newInfo.accrual, newInfo.uploaded)
    }
  }

  /** The zero value of `Info`. */
  const ZeroInfo: Info := Info(0, StatusNotSupport, None, ZeroTime)

  /** `NewInfo`; the clock reading `time.Now()` is the parameter `now`. */
  function NewInfo(number: Number, status: Status, acc: Option<Accrual>, now: Time): Info {
    Info(number, status, acc, now)
  }

  /** `ParseInfo`: builds an `Info` from the text columns of a database row; only the
      number can fail to parse. */
  function ParseInfo(numberStr: string, statusStr: string, acc: Option<Amount>, date: Time): (r: Result<Info, NumError>)
    ensures r.Failure? <==> ParseNumber(numberStr).Failure?
    ensures r.Failure? ==> r.error == ParseNumber(numberStr).error
    ensures r.Success? ==> r.value.number == ParseNumber(numberStr).value
    ensures r.Success? ==> r.value.status == ParseStatus(statusStr) && Named(r.value.status)
    ensures r.Success? ==> r.value.accrual == ParseAccrual(acc) && r.value.uploaded == date
  {
    var number :- ParseNumber(numberStr);
    Success(Info(number, ParseStatus(statusStr), ParseAccrual(acc), date))
  }

  /** The decimal amount an optional accrual is stored as. */
  function AmountOf(accr: Option<Accrual>): Option<Amount> {
    match accr
    case None => None
    case Some(a) => Some(ToFloat(a))
  }

  /** An `Info` printed the way the store writes it reads back unchanged. */
  lemma ParseInfoOfPrinted(i: Info)
    requires Named(i.status)
    ensures ParseInfo(OrderNumber.String(i.number), OrderStatus.String(i.status), AmountOf(i.accrual), i.uploaded) == Success(i)
  {
    ParseNumberOfString(i.number);
    ParseString(i.status);
    if i.accrual.Some? {
      NewAccrualOfToFloat(i.accrual.value);
    }
  }
}

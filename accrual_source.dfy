/** The accrual-system client of repository/accrual/accrual.go. The HTTP exchange is
    abstracted to what the client inspects: whether a reply came back, its status code
    and its decoded JSON body. */
module AccrualSource {
  import opened Wrappers
  import opened Ids
  import opened OrderStatus
  import opened OrderAccrual
  import opened OrderNumber
  import opened OrderInfo

  /** `defaultRetryAfter`, in seconds. */
  const DefaultRetryAfter: Int64 := 8

  /** The `Retry-After` header of the request the client sends: `NewRequestWithContext`
      sets no headers, so it is always absent (empty). */
  const RequestRetryAfter: string := ""

  /** The JSON body of a 200 reply (`resp`). */
  datatype Body = Body(order: string, status: string, accrual: Option<Amount>)

  /** One exchange with the accrual system. */
  datatype Exchange =
    | Unsent                                  // building or sending the request failed
    | Reply(code: int, body: Option<Body>, retryAfter: string)
      // `body` is None when it does not decode as `resp`; `retryAfter` is the reply's header

  datatype Reason = Transport | Decode | BadRetryAfter(text: string) | UnhandledCode(code: int)

  /** The client's errors: `errRetryable` carries the seconds to wait; the rest are plain. */
  datatype AccrualError = Retryable(after: Int64) | Failed(reason: Reason)

  /** `correctStatus`: the accrual system's REGISTERED means the same as NEW here. */
  function CorrectStatus(s: Status): (r: Status)
    ensures r != StatusRegistered
    ensures s == StatusRegistered ==> r == StatusNew
    ensures s != StatusRegistered ==> r == s
  {
    if s == StatusRegistered then StatusNew else s
  }

  lemma CorrectStatusIdempotent(s: Status)
    ensures CorrectStatus(CorrectStatus(s)) == CorrectStatus(s)
  {
  }

  /** The `switch res.StatusCode` of `Repo.Load` (and the errors before it);
      `requestRetryAfter` is the header the code reads and `now` the clock reading of `NewInfo`. */
  function Classify(number: Number, ex: Exchange, requestRetryAfter: string, now: Time): (r: Result<Info, AccrualError>)
    ensures r.Success? ==> r.value.number == number && r.value.uploaded == now
    ensures r.Success? ==> Named(r.value.status) && r.value.status != StatusRegistered
    ensures r.Success? <==> ex.Reply? && ((ex.code == 200 && ex.body.Some?) || ex.code == 204)
  {
    match ex
    case Unsent => Failure(Failed(Transport))
    case Reply(code, body, _) =>
      if code == 200 then
        match body
        case None => Failure(Failed(Decode))
        case Some(b) => Success(NewInfo(number, CorrectStatus(ParseStatus(b.status)), ParseAccrual(b.accrual), now))
      else if code == 204 then
        Success(NewInfo(number, StatusNew, None, now))
      else if code == 429 then
        if requestRetryAfter == "" then Failure(Retryable(DefaultRetryAfter))
        else match Atoi(requestRetryAfter)
          case Success(after) => Failure(Retryable(after))
          case Failure(_) => Failure(Failed(BadRetryAfter(requestRetryAfter)))
      else if code == 500 then
        Failure(Retryable(DefaultRetryAfter))
      else
        Failure(Failed(UnhandledCode(code)))
  }

  /** A 200 reply gives the requested number, the normalised parsed status and the
      converted accrual; the body's own `order` field plays no part. */
  lemma OkReply(number: Number, b: Body, header: string, now: Time)
    ensures Classify(number, Reply(200, Some(b), header), RequestRetryAfter, now)
         == Success(Info(number, CorrectStatus(ParseStatus(b.status)), ParseAccrual(b.accrual), now))
    ensures forall other: string ::
      Classify(number, Reply(200, Some(b.(order := other)), header), RequestRetryAfter, now)
        == Classify(number, Reply(200, Some(b), header), RequestRetryAfter, now)
  {
  }

  /** 204: the order is not registered with the accrual system; that is not an error. */
  lemma NoContentReply(number: Number, body: Option<Body>, header: string, now: Time)
    ensures Classify(number, Reply(204, body, header), RequestRetryAfter, now) == Success(Info(number, StatusNew, None, now))
  {
  }

  /** 429 as `Load` runs it: the header it reads is the request's, which is empty, so
      the wait is always 8 seconds whatever the reply's own `Retry-After` says. */
  lemma TooManyRequestsAlwaysWaits8(number: Number, body: Option<Body>, header: string, now: Time)
    ensures Classify(number, Reply(429, body, header), RequestRetryAfter, now) == Failure(Retryable(8))
  {
  }

  /** 429 with a `Retry-After` value present: an integer is the wait (even a negative
      one), anything else is a plain, non-retryable error. */
  lemma TooManyRequestsWithHeader(number: Number, ex: Exchange, value: string, now: Time)
    requires ex.Reply? && ex.code == 429 && value != ""
    ensures Atoi(value).Success? ==> Classify(number, ex, value, now) == Failure(Retryable(Atoi(value).value))
    ensures Atoi(value).Failure? ==> Classify(number, ex, value, now).error.Failed?
  {
  }

  /** 500 is retryable after 8 seconds; any code other than 200, 204, 429 and 500 is a
      plain error. */
  lemma OtherReplies(number: Number, ex: Exchange, now: Time)
    requires ex.Reply? && ex.code != 200 && ex.code != 204 && ex.code != 429
    ensures ex.code == 500 ==> Classify(number, ex, RequestRetryAfter, now) == Failure(Retryable(8))
    ensures ex.code != 500 ==> Classify(number, ex, RequestRetryAfter, now) == Failure(Failed(UnhandledCode(ex.code)))
  {
  }

  /** `Repo`: the accrual system it talks to, and (ghost) the numbers it has been asked for. */
  class Source {
    /** What the accrual system replies, per order number, at the time of the call. */
    const answer: Number -> Exchange
    /** Every number passed to `Load`, in call order. */
    ghost var requested: seq<Number>

    constructor (answer: Number -> Exchange)
      ensures this.answer == answer && requested == []
    {
      this.answer := answer;
      requested := [];
    }

    /** `Repo.Load`: one request for `number`; `now` is the clock reading taken by `NewInfo`. */
    method Load(number: Number, now: Time) returns (r: Result<Info, AccrualError>)
      modifies this`requested
      ensures requested == old(requested) + [number]
      ensures r == Classify(number, answer(number), RequestRetryAfter, now)
    {
      requested := requested + [number];
      r := Classify(number, answer(number), RequestRetryAfter, now);
    }
  }
}

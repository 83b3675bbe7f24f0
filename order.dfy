/** `order.Order` (internal/model/order/order.go). Go keeps orders by value (slices of
    structs, `range` copies); `UpdateInfo` has a pointer receiver only to overwrite the
    caller's copy, so it is modelled as a function returning the updated value. */
module OrderEntity {
  import opened Ids
  import opened OrderInfo

  /** The fields `id`, `userId` and `info` are the accessors `ID()`, `UserID()` and `Info()`. */
  datatype Order = Order(id: OrderId, userId: UserId, info: Info) {

    /** `UpdateInfo`: replaces the whole `Info` and keeps the identity fields; its error
        result is always nil because `Info.new` never fails. */
    function UpdateInfo(newInfo: Info): (o: Order)
      ensures o.info == newInfo
      ensures o.id == id && o.userId == userId
    {
      Order(id, userId, info.Renew(newInfo))
    }
  }

  /** `New`. */
  function New(id: OrderId, userId: UserId, info: Info): Order {
    Order(id, userId, info)
  }

  /** The zero value of `Order`: what `make([]order.Order, n)` fills a slice with. */
  const ZeroOrder: Order := Order(NilOrderId, NilUserId, ZeroInfo)

  /** Replacing the `Info` twice with the same value is the same as replacing it once. */
  lemma UpdateInfoIdempotent(o: Order, x: Info)
    ensures o.UpdateInfo(x).UpdateInfo(x) == o.UpdateInfo(x)
  {
  }
}

/** Opaque identities. `order.ID` and `user.ID` are UUIDs; the core only ever compares
    them, so they are modelled as values with equality. The all-zero UUID (`uuid.Nil`)
    is the Go zero value of both types. */
module Ids {

  datatype OrderId = OrderId(uuid: nat)

  datatype UserId = UserId(uuid: nat)

  /** The zero value of `order.ID` (the nil UUID). */
  const NilOrderId: OrderId := OrderId(0)

  /** The zero value of `user.ID` (the nil UUID). */
  const NilUserId: UserId := UserId(0)

  /** A timestamp (`time.Time`), as a count of ticks; only compared and copied. */
  type Time = int

  /** The zero value of `time.Time`. */
  const ZeroTime: Time := 0
}

/** Topics and envelopes shared by the loyalty handlers, the saga and the event bus. */
module Events {
  import opened LoyaltyAggregates

  datatype Topic =
    | OrderCompleted
    | LoyaltyCredited
    | LoyaltyCreditFailed
    | FulfillmentReady
    | OrderFailed
    | StockReserved
    | OtherTopic(name: string)

  function TopicName(t: Topic): string {
    match t
    case OrderCompleted => "orders.order.completed"
    case LoyaltyCredited => "loyalty.account.credited"
    case LoyaltyCreditFailed => "loyalty.account.credit_failed"
    case FulfillmentReady => "orders.fulfillment.ready"
    case OrderFailed => "orders.order.failed"
    case StockReserved => "inventory.stock.reserved"
    case OtherTopic(name) => name
  }

  /** A float64 amount; NaN and the infinities are NotFinite. */
  datatype Amount = Finite(value: real) | NotFinite

  datatype Payload =
    | OrderPayload(orderId: string, customerId: string, total: Amount)
    | CreditedPayload(credited: Credited)
    | CreditFailedPayload(failedCustomerId: string, failedOrderId: string)
    | OtherPayload

  datatype Envelope = Envelope(
    eventId: string, correlationId: string, causationId: string, topic: Topic, payload: Payload)
}

/** The order model: requests, references, venue events and venue snapshots. */
module Domain {
  import opened Prelude

  /** Any status name outside the seven known ones is `Unknown`. */
  datatype Status =
    | Pending
    | Open
    | PartiallyFilled
    | Filled
    | Canceled
    | Rejected
    | Expired
    | Unknown(name: string)

  datatype Side = Buy | Sell | UnsupportedSide(name: string)

  datatype Kind = Limit | Market | UnsupportedKind(name: string)

  datatype Source = Local | Ack | Stream | Reconcile

  datatype Instrument = Instrument(venue: string, base: string, quote: string, symbol: string)

  datatype Request = Request(
    clientOrderId: string,
    bot: string,
    instrument: Instrument,
    side: Side,
    kind: Kind,
    price: Decimal,
    qty: Decimal)

  datatype Ref = Ref(instrument: Instrument, clientOrderId: string, venueOrderId: string)

  /** A change a venue reports. `filledQty` is cumulative. */
  datatype Event = Event(
    ref: Ref,
    status: Status,
    filledQty: Decimal,
    fillPrice: Decimal,
    venueFillId: string,
    fee: Decimal,
    feeCurrency: string,
    reason: string,
    at: Instant)

  /** A venue's current view of one order. */
  datatype Snapshot = Snapshot(
    ref: Ref,
    status: Status,
    filledQty: Decimal,
    avgFillPrice: Decimal,
    updatedAt: Instant)

  /** The tuple that owns inventory: lots never cross it. */
  datatype Inventory = Inventory(bot: string, venue: string, base: string, quote: string)
}

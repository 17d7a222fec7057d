/**
 * The store-independent receipt model shared by every store backend
 * (ir/src/lib.rs). All entities are plain values.
 */
module Ir {
  /** A point in time without a time zone. The parser only passes it through, so it stays opaque. */
  datatype NaiveDateTime = NaiveDateTime(stamp: int)

  /** `id` is the ISO 4217 code, `symbol` the user-facing symbol. */
  datatype Currency = Currency(id: string, symbol: string)

  datatype Store = Store(id: string, name: string)

  datatype Discount = Discount(amount: real)

  /** One receipt line: `unitPrice` is the price per one unit of `quantity` (a count, or kilograms when `isWeight`). */
  datatype ReceiptItem = ReceiptItem(
    unitPrice: real,
    quantity: real,
    isWeight: bool,
    name: string,
    barcode: string,
    discounts: seq<Discount>)

  datatype ReceiptDetailed = ReceiptDetailed(
    id: string,
    items: seq<ReceiptItem>,
    date: NaiveDateTime,
    currency: Currency,
    store: Store)
}

/** The quote that travels from the market data source through the caches to the order book. */
module Quotes {
  import opened Common

  type Symbol = string

  // Prices and the percentage are exact reals; the timestamp counts microseconds since the Epoch.
  datatype Quote = Quote(
    symbol: Symbol,
    price: real,
    open: real,
    high: real,
    low: real,
    volume: Volume,
    changePct: real,
    source: string,
    timestamp: Int64
  ) {
    predicate IsValid() {
      && symbol != ""
      && price > 0.0
      && (high == 0.0 || high >= low)
      && (open == 0.0 || open > 0.0)
    }
  }
}

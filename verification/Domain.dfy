/** Domain values written to PostgreSQL, and their validation. Timestamps are nanoseconds since the Epoch in the
    clock's int64, decimals are raw counts of 10^-8. */
module Domain {
  import opened Common

  datatype Quote = Quote(
    symbol: string, source: string, timestamp: Int64,
    price: Int64, open: Int64, high: Int64, low: Int64, volume: Int64, changePct: Option<Int64>)

  datatype TradeSide = Bid | Ask | Unknown

  datatype Tick = Tick(
    symbol: string, source: string, timestamp: Int64,
    tradeId: Option<string>, price: Int64, size: Int64, side: TradeSide)

  datatype Snapshot = Snapshot(
    symbol: string, source: string, snapshotTime: Int64,
    bestBid: Int64, bestAsk: Int64, imbalance: Int64, totalBidVolume: Int64, totalAskVolume: Int64)

  // What PostgreSQL makes of a JSON text: it refuses it, as no JSON in the database's encoding or too large for the
  // index of the table's key; it reads something else than an object; or it reads an object, whose jsonb value
  // `normal` is equal for texts that differ only in spelling.
  datatype JsonReading = Unreadable | NotAnObject | Object(normal: string)

  // A JSON text with the server's reading of what arrives of it.
  datatype JsonText = JsonText(text: string, reading: JsonReading)

  datatype TechnicalIndicator = TechnicalIndicator(
    symbol: string, source: string, indicatorName: string, timestamp: Int64, value: Int64, parameters: JsonText)

  predicate UpperIdentifier(value: string, extra: set<char>) {
    && value != ""
    && forall i :: 0 <= i < |value| ==> 'A' <= value[i] <= 'Z' || '0' <= value[i] <= '9' || value[i] in extra
  }

  predicate ValidNames(symbol: string, source: string) {
    && |symbol| <= 16 && UpperIdentifier(symbol, {'.', '_', ':', '/', '-'})
    && |source| <= 20 && UpperIdentifier(source, {'_', '-'})
  }

  predicate ValidQuote(q: Quote) {
    && ValidNames(q.symbol, q.source)
    && q.price >= 0 && q.open >= 0 && q.high >= 0 && q.low >= 0
    && q.high >= q.low
    && q.volume >= 0
  }

  predicate ValidTick(t: Tick) {
    && ValidNames(t.symbol, t.source)
    && t.price > 0 && t.size > 0
    && (t.tradeId.Some? ==> 1 <= |t.tradeId.value| <= 64)
  }

  predicate ValidSnapshot(s: Snapshot) {
    && ValidNames(s.symbol, s.source)
    && s.bestBid > 0 && s.bestAsk > 0
    && s.bestAsk >= s.bestBid
    && -100_000_000 <= s.imbalance <= 100_000_000
    && s.totalBidVolume >= 0 && s.totalAskVolume >= 0
  }

  predicate ValidIndicator(i: TechnicalIndicator) {
    && ValidNames(i.symbol, i.source)
    && |i.indicatorName| <= 32 && UpperIdentifier(i.indicatorName, {'_'})
    && i.parameters.text != ""
  }
}

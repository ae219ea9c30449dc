/** The two persist callbacks: from cached quotes and derived books to domain values and one-row batches. */
module Persistence {
  import opened Common
  import opened Digits
  import opened FixedText
  import opened OrderBook
  import opened BookBuilder
  import opened Database
  import opened Repository
  import Q = Quotes
  import D = Domain
  import TS = Timestamp

  // A default timestamp means "now". Quote timestamps are microseconds, domain timestamps nanoseconds.
  function DomainTimestamp(micros: Int64, now: Int64): Int64 {
    if micros == 0 then now else TS.Clock(micros * 1000)
  }

  // ---- Quotes ----

  function DomainQuote(q: Q.Quote, now: Int64): (r: Result<D.Quote, Error>)
    ensures r.Err? ==> r.error == OutOfRange
  {
    var prices := [q.price, q.open, q.high, q.low, q.changePct];
    if (forall x :: x in prices ==> FitsInt64(SignedUnits(x, 8))) && FitsInt64(q.volume * 100_000_000) then
      Ok(D.Quote(q.symbol, q.source, DomainTimestamp(q.timestamp, now), SignedUnits(q.price, 8), SignedUnits(q.open, 8),
                 SignedUnits(q.high, 8), SignedUnits(q.low, 8), q.volume * 100_000_000,
                 Some(SignedUnits(q.changePct, 8))))
    else Err(OutOfRange)
  }

  method ConvertQuote(q: Q.Quote, now: Int64) returns (r: Result<D.Quote, Error>)
    ensures r == DomainQuote(q, now)
  {
    hide DecimalFrom, DecimalFromVolume, SignedUnits;
    DecimalFromExactly(q.price);
    DecimalFromExactly(q.open);
    DecimalFromExactly(q.high);
    DecimalFromExactly(q.low);
    DecimalFromVolumeExactly(q.volume);
    DecimalFromExactly(q.changePct);
    assert forall x :: x in [q.price, q.open, q.high, q.low, q.changePct] ==>
             x == q.price || x == q.open || x == q.high || x == q.low || x == q.changePct;
    var price := DecimalFrom(q.price);
    if price.Err? { return Err(price.error); }
    var open := DecimalFrom(q.open);
    if open.Err? { return Err(open.error); }
    var high := DecimalFrom(q.high);
    if high.Err? { return Err(high.error); }
    var low := DecimalFrom(q.low);
    if low.Err? { return Err(low.error); }
    var volume := DecimalFromVolume(q.volume);
    if volume.Err? { return Err(volume.error); }
    var change := DecimalFrom(q.changePct);
    if change.Err? { return Err(change.error); }
    return Ok(D.Quote(q.symbol, q.source, DomainTimestamp(q.timestamp, now), price.value, open.value, high.value,
                      low.value, volume.value, Some(change.value)));
  }

  // The key of the row a statement denotes is among the rows.
  predicate KeyStored(rows: seq<Row>, s: Statement) {
    RowOf(s).Some? && KeyOf(RowOf(s).value).Some? && HasKey(rows, KeyOf(RowOf(s).value).value)
  }

  // The server takes the statement's row, unless its key is present already.
  predicate Accepts(t: Tables, s: Statement) {
    RowOf(s).Some? && s.symbol in t.instruments && s.source in t.sources
  }

  predicate Grown(before: Tables, after: Tables) {
    after == before.(rows := after.rows) && before.rows <= after.rows
  }

  // The tables after an insert the server carries out.
  function Inserted(t: Tables, statement: Option<Statement>): Option<Tables> {
    if statement.Some? && Execute(t, statement.value).Ok? then Some(Execute(t, statement.value).value.0) else None
  }

  // What a persist callback does to the committed tables, given the statement its value becomes if it converts
  // and validates. It never reports false: it returns true with the row's key stored, or throws.
  ghost predicate OneRowOutcome(before: Tables, seen: Tables, after: Tables, statement: Option<Statement>, ready: bool,
                                script: Script, r: Result<bool, Error>) {
    && (after == before || Inserted(seen, statement) == Some(after))
    && (r.Ok? ==> r.value && Inserted(seen, statement) == Some(after) && KeyStored(after.rows, statement.value))
    && (r.Err? && !script.commit.Unreported() ==> after == before)
    && (Inserted(seen, statement).Some? && ready && FaultFree(script, 1) ==> r.Ok?)
    && (seen == before ==> Grown(before, after))
  }

  function QuoteToStore(q: Q.Quote, now: Int64): Option<Statement> {
    var converted := DomainQuote(q, now);
    if converted.Ok? && D.ValidQuote(converted.value) then Some(QuoteStatement(converted.value)) else None
  }

  // The exception that ends an attempt to store a quote.
  function QuoteFailure(q: Q.Quote, now: Int64): Error {
    if DomainQuote(q, now).Err? then OutOfRange
    else if QuoteToStore(q, now).None? then InvalidArgument
    else DatabaseError
  }

  method PersistQuote(repository: PostgresMarketDataRepository, q: Q.Quote, now: Int64, script: Script)
    returns (r: Result<bool, Error>)
    modifies repository.connection
    ensures var c := repository.connection;
            && OneRowOutcome(old(c.committed), old(c.View()), c.committed, QuoteToStore(q, now),
                             old(c.open) && !old(c.session).Aborted?, script, r)
            && (r.Err? ==> r.error == QuoteFailure(q, now))
            && (r.Ok? ==> c.open && c.session == Idle)
            && NoBlockLeft(old(c.session), c.session, script) && (old(c.open) && Lossless(script, 1) ==> c.open)
  {
    hide RowOf, DomainQuote, Execute, KeyStored, D.ValidQuote, BatchOutcome, OneRowOutcome;
    var stored := ConvertQuote(q, now);
    if stored.Err? {
      NothingToStore(repository.connection.committed, repository.connection.View(), script);
      return Err(stored.error);
    }
    var batch := [stored.value];
    assert stored.value in batch;
    var summary := repository.InsertQuotes(batch, script);
    OneQuote(batch);
    ghost var c := repository.connection;
    BatchOfOne(old(c.committed), old(c.View()), c.committed, QuoteStatement(stored.value), D.ValidQuote(stored.value),
               old(c.open) && !old(c.session).Aborted?, script, summary);
    return if summary.Err? then Err(summary.error)
           else Ok(summary.value.inserted == 1 || summary.value.Duplicates() == 1);
  }

  lemma OneQuote(batch: seq<D.Quote>)
    requires |batch| == 1
    ensures QuoteStatements(batch) == [QuoteStatement(batch[0])]
  {
    hide QuoteStatement;
  }

  lemma OneSnapshot(batch: seq<D.Snapshot>)
    requires |batch| == 1
    ensures SnapshotStatements(batch) == [SnapshotStatement(batch[0])]
  {
    hide SnapshotStatement;
  }

  // A committed one-row batch counts one insert or one duplicate, and leaves its key stored.
  lemma OneRowStored(t: Tables, s: Statement)
    requires !s.InsertTick?
    ensures ExecuteAll(t, [s]) == Execute(t, s)
    ensures Execute(t, s).Ok? ==>
              var (after, inserted) := Execute(t, s).value;
              && inserted <= 1
              && (inserted == 1 || InsertSummary(1, inserted).Duplicates() == 1)
              && KeyStored(after.rows, s) && Grown(t, after)
  {
    hide RowOf;
    ExecuteOne(t, s);
    if Execute(t, s).Ok? {
      StatementRow(s);
      var row := RowOf(s).value;
      HasKeyConcat(t.rows, [row], KeyOf(row).value);
      assert KeyOf([row][0]) == KeyOf(row);
    }
  }

  lemma InsertedIsStored(t: Tables, statement: Option<Statement>)
    requires Inserted(t, statement).Some? && !statement.value.InsertTick?
    ensures KeyStored(Inserted(t, statement).value.rows, statement.value) && Grown(t, Inserted(t, statement).value)
  {
    hide RowOf;
    OneRowStored(t, statement.value);
  }

  // What the callback makes of its one-row batch.
  function Reported(summary: Result<InsertSummary, Error>): Result<bool, Error> {
    if summary.Err? then Err(summary.error) else Ok(summary.value.inserted == 1 || summary.value.Duplicates() == 1)
  }

  lemma BatchOfOne(before: Tables, seen: Tables, after: Tables, s: Statement, valid: bool, ready: bool, script: Script,
                   summary: Result<InsertSummary, Error>)
    requires BatchOutcome(before, seen, after, [s], valid, ready, script, summary) && !s.InsertTick?
    ensures OneRowOutcome(before, seen, after, if valid then Some(s) else None, ready, script, Reported(summary))
    ensures summary.Err? ==> summary.error == if valid then DatabaseError else InvalidArgument
  {
    hide KeyStored, Execute;
    OneRowStored(seen, s);
  }

  lemma NothingToStore(before: Tables, seen: Tables, script: Script)
    ensures forall ready, e :: OneRowOutcome(before, seen, before, None, ready, script, Err(e))
  {
  }

  // A present key stays present.
  lemma StaysStored(before: Tables, after: Tables, s: Statement)
    requires Grown(before, after) && KeyStored(before.rows, s)
    ensures KeyStored(after.rows, s)
  {
    hide RowOf;
    var rest := after.rows[|before.rows|..];
    assert after.rows == before.rows + rest;
    HasKeyConcat(before.rows, rest, KeyOf(RowOf(s).value).value);
  }

  lemma AcceptsMore(before: Tables, after: Tables, s: Statement)
    requires Grown(before, after)
    ensures Accepts(before, s) ==> Accepts(after, s)
  {
    hide RowOf;
  }

  lemma AcceptedIsExecuted(t: Tables, s: Statement)
    requires Accepts(t, s)
    ensures Execute(t, s).Ok?
  {
    hide ReadNumeric, ReadInstant;
  }

  lemma ExecuteOne(t: Tables, s: Statement)
    ensures ExecuteAll(t, [s]) == Execute(t, s)
  {
    hide Execute;
    assert [s][..0] == [];
    assert ExecuteAll(t, []) == Ok((t, 0));
  }

  lemma StatementRow(s: Statement)
    requires RowOf(s).Some? && !s.InsertTick?
    ensures !RowOf(s).value.TickRow? && KeyOf(RowOf(s).value).Some?
  {
    hide ReadNumeric, ReadInstant;
  }

  // ---- Snapshots ----

  // OrderBook::snapshot of a derived book, in microseconds.
  datatype BookSnapshot = BookSnapshot(
    symbol: string, bestBid: real, bestAsk: real, imbalance: real, totalBidVolume: Volume, totalAskVolume: Volume,
    snapshotTime: Int64)

  function BestPrice(side: seq<Level>): real {
    if side == [] then 0.0 else side[0].price
  }

  function SnapshotOf(symbol: string, bids: seq<Level>, asks: seq<Level>, at: Int64): BookSnapshot {
    BookSnapshot(symbol, BestPrice(bids), BestPrice(asks), Ratio(Wrapped(SumVolumes(bids)), Wrapped(SumVolumes(asks))),
                 Wrapped(SumVolumes(bids)), Wrapped(SumVolumes(asks)), at)
  }

  function DomainSnapshot(s: BookSnapshot, source: string, now: Int64): (r: Result<D.Snapshot, Error>)
    ensures r.Err? ==> r.error == OutOfRange
  {
    if && FitsInt64(SignedUnits(s.bestBid, 8)) && FitsInt64(SignedUnits(s.bestAsk, 8))
       && FitsInt64(SignedUnits(s.imbalance, 8))
       && FitsInt64(s.totalBidVolume * 100_000_000) && FitsInt64(s.totalAskVolume * 100_000_000)
    then
      Ok(D.Snapshot(s.symbol, source, DomainTimestamp(s.snapshotTime, now), SignedUnits(s.bestBid, 8),
                    SignedUnits(s.bestAsk, 8), SignedUnits(s.imbalance, 8), s.totalBidVolume * 100_000_000,
                    s.totalAskVolume * 100_000_000))
    else Err(OutOfRange)
  }

  method ConvertSnapshot(s: BookSnapshot, source: string, now: Int64) returns (r: Result<D.Snapshot, Error>)
    ensures r == DomainSnapshot(s, source, now)
  {
    hide DecimalFrom, DecimalFromVolume, SignedUnits;
    DecimalFromExactly(s.bestBid);
    DecimalFromExactly(s.bestAsk);
    DecimalFromExactly(s.imbalance);
    DecimalFromVolumeExactly(s.totalBidVolume);
    DecimalFromVolumeExactly(s.totalAskVolume);
    var bestBid := DecimalFrom(s.bestBid);
    if bestBid.Err? { return Err(bestBid.error); }
    var bestAsk := DecimalFrom(s.bestAsk);
    if bestAsk.Err? { return Err(bestAsk.error); }
    var imbalance := DecimalFrom(s.imbalance);
    if imbalance.Err? { return Err(imbalance.error); }
    var bidVolume := DecimalFromVolume(s.totalBidVolume);
    if bidVolume.Err? { return Err(bidVolume.error); }
    var askVolume := DecimalFromVolume(s.totalAskVolume);
    if askVolume.Err? { return Err(askVolume.error); }
    return Ok(D.Snapshot(s.symbol, source, DomainTimestamp(s.snapshotTime, now), bestBid.value, bestAsk.value,
                         imbalance.value, bidVolume.value, askVolume.value));
  }

  function SnapshotToStore(s: BookSnapshot, source: string, now: Int64): Option<Statement> {
    var converted := DomainSnapshot(s, source, now);
    if converted.Ok? && D.ValidSnapshot(converted.value) then Some(SnapshotStatement(converted.value)) else None
  }

  function SnapshotFailure(s: BookSnapshot, source: string, now: Int64): Error {
    if DomainSnapshot(s, source, now).Err? then OutOfRange
    else if SnapshotToStore(s, source, now).None? then InvalidArgument
    else DatabaseError
  }

  method PersistSnapshot(repository: PostgresMarketDataRepository, s: BookSnapshot, source: string, now: Int64,
                         script: Script)
    returns (r: Result<bool, Error>)
    modifies repository.connection
    ensures var c := repository.connection;
            && OneRowOutcome(old(c.committed), old(c.View()), c.committed, SnapshotToStore(s, source, now),
                             old(c.open) && !old(c.session).Aborted?, script, r)
            && (r.Err? ==> r.error == SnapshotFailure(s, source, now))
            && (r.Ok? ==> c.open && c.session == Idle)
            && NoBlockLeft(old(c.session), c.session, script) && (old(c.open) && Lossless(script, 1) ==> c.open)
  {
    hide RowOf, DomainSnapshot, Execute, KeyStored, D.ValidSnapshot, BatchOutcome, OneRowOutcome;
    var stored := ConvertSnapshot(s, source, now);
    if stored.Err? {
      NothingToStore(repository.connection.committed, repository.connection.View(), script);
      return Err(stored.error);
    }
    var batch := [stored.value];
    assert stored.value in batch;
    var summary := repository.InsertOrderBookSnapshots(batch, script);
    OneSnapshot(batch);
    ghost var c := repository.connection;
    BatchOfOne(old(c.committed), old(c.View()), c.committed, SnapshotStatement(stored.value),
               D.ValidSnapshot(stored.value), old(c.open) && !old(c.session).Aborted?, script, summary);
    return if summary.Err? then Err(summary.error)
           else Ok(summary.value.inserted == 1 || summary.value.Duplicates() == 1);
  }

  // ---- Main result: which derived books can be persisted ----

  function DerivedSnapshot(symbol: string, price: real, volume: Volume, at: Int64): BookSnapshot {
    SnapshotOf(symbol, BidLevels(price, volume, LEVELS), AskLevels(price, volume, LEVELS), at)
  }

  // A derived book can be stored exactly when the names are valid, the volume reaches ten, the price less one tick
  // still rounds to a positive decimal, and the best ask and the ask volume convert. A thinner or cheaper quote
  // makes the callback throw, although the quote itself has been persisted by then.
  lemma DerivedSnapshotValid(symbol: string, source: string, price: real, volume: Volume, at: Int64, now: Int64)
    ensures SnapshotToStore(DerivedSnapshot(symbol, price, volume, at), source, now).Some? <==>
              && D.ValidNames(symbol, source) && volume >= 10 && SignedUnits(price - 0.01, 8) >= 1
              && FitsInt64(SignedUnits(price + 0.01, 8)) && FitsInt64(FullVolume(volume, LEVELS) * 100_000_000)
  {
    hide D.ValidNames, SignedUnits, Ratio, FullVolume, BidLevels, AskLevels;
    var bids, asks := BidLevels(price, volume, LEVELS), AskLevels(price, volume, LEVELS);
    UnitsMonotone(price - 0.01, 0.0);
    UnitsOfWhole();
    BestDerivedBid(price, volume, LEVELS);
    if volume >= 10 && price > 0.01 {
      BestDerivedAsk(price, volume, LEVELS);
      FullAsks(price, volume, LEVELS);
      TotalsFit(price, volume);
      SideSums(price, volume, LEVELS);
      DerivedImbalance(price, volume);
      var imbalance := Ratio(Wrapped(SumVolumes(bids)), Wrapped(SumVolumes(asks)));
      UnitsMonotone(-1.0, imbalance);
      UnitsMonotone(imbalance, 0.0);
      UnitsMonotone(price - 0.01, price + 0.01);
    }
  }

  // Corollary: whatever the price, only a quote of ten units or more, priced above one tick, yields a book that
  // validates.
  lemma PersistableBook(symbol: string, source: string, price: real, volume: Volume, at: Int64, now: Int64)
    requires SnapshotToStore(DerivedSnapshot(symbol, price, volume, at), source, now).Some?
    ensures volume >= 10 && price > 0.01 && SignedUnits(price - 0.01, 8) >= 1
  {
    DerivedSnapshotValid(symbol, source, price, volume, at, now);
    UnitsMonotone(price - 0.01, 0.0);
    UnitsOfWhole();
  }

  // A quote of nine units, stored without its snapshot.
  lemma ThinQuote(now: Int64)
    ensures var q := Q.Quote("AAPL", 100.0, 0.0, 0.0, 0.0, 9, 0.0, "ALPHA_VANTAGE", 1);
            && q.IsValid() && QuoteToStore(q, now).Some?
            && forall at :: SnapshotToStore(DerivedSnapshot(q.symbol, q.price, q.volume, at), q.source, now) == None
  {
    hide SignedUnits, SnapshotToStore;
    HundredUnits();
    UnitsOfWhole();
    assert D.ValidNames("AAPL", "ALPHA_VANTAGE");
    forall at: Int64
      ensures SnapshotToStore(DerivedSnapshot("AAPL", 100.0, 9, at), "ALPHA_VANTAGE", now) == None
    {
      DerivedSnapshotValid("AAPL", "ALPHA_VANTAGE", 100.0, 9, at, now);
    }
  }

  lemma HundredUnits()
    ensures SignedUnits(100.0, 8) == 10_000_000_000
  {
    ScaledEight(100.0);
  }

  lemma AcceptedIsInserted(t: Tables, statement: Option<Statement>)
    requires statement.Some? && Accepts(t, statement.value)
    ensures Inserted(t, statement).Some?
  {
    hide RowOf;
    AcceptedIsExecuted(t, statement.value);
  }

  // A quote that is stored has valid names, and its volume converts.
  lemma ConvertedQuote(q: Q.Quote, now: Int64)
    requires QuoteToStore(q, now).Some?
    ensures D.ValidNames(q.symbol, q.source) && FitsInt64(q.volume * 100_000_000)
  {
    hide SignedUnits;
  }

  // The instant of a row, in microseconds: that of the quote or snapshot, as far as the clock holds it, or the current
  // time for the default zero.
  function StoredMicros(micros: Int64, now: Int64): int {
    DomainTimestamp(micros, now) / 1000
  }

  lemma StoredMicrosAre(micros: Int64, now: Int64)
    ensures micros == 0 ==> StoredMicros(micros, now) == now / 1000
    ensures micros != 0 && FitsInt64(micros * 1000) ==> StoredMicros(micros, now) == micros
  {
  }

  // Which quotes are stored, and the row that is then written: every column from the quote's own field, the prices as
  // their nearest count of 10^-8.
  lemma QuoteRowStored(q: Q.Quote, now: Int64)
    ensures QuoteToStore(q, now).Some? <==>
            && D.ValidNames(q.symbol, q.source) && FitsInt64(q.volume * 100_000_000)
            && 0 <= SignedUnits(q.price, 8) <= INT64_MAX && 0 <= SignedUnits(q.open, 8) <= INT64_MAX
            && 0 <= SignedUnits(q.low, 8) <= SignedUnits(q.high, 8) <= INT64_MAX
            && FitsInt64(SignedUnits(q.changePct, 8))
    ensures QuoteToStore(q, now).Some? ==>
              RowOf(QuoteToStore(q, now).value) ==
              Some(QuoteRow(q.symbol, q.source, StoredMicros(q.timestamp, now), SignedUnits(q.price, 8),
                            SignedUnits(q.open, 8), SignedUnits(q.high, 8), SignedUnits(q.low, 8),
                            q.volume * 100_000_000, Some(SignedUnits(q.changePct, 8))))
    ensures QuoteFailure(q, now) == DatabaseError <==> QuoteToStore(q, now).Some?
    ensures QuoteFailure(q, now) == OutOfRange <==>
            || !FitsInt64(SignedUnits(q.price, 8)) || !FitsInt64(SignedUnits(q.open, 8))
            || !FitsInt64(SignedUnits(q.high, 8)) || !FitsInt64(SignedUnits(q.low, 8))
            || !FitsInt64(SignedUnits(q.changePct, 8)) || !FitsInt64(q.volume * 100_000_000)
  {
    hide RowOf, SignedUnits, QuoteStatement, D.ValidNames;
    assert forall x :: x in [q.price, q.open, q.high, q.low, q.changePct] <==>
             x == q.price || x == q.open || x == q.high || x == q.low || x == q.changePct;
    if QuoteToStore(q, now).Some? {
      ValidQuoteMeetsSchema(DomainQuote(q, now).value);
    }
  }

  // The same for a snapshot.
  lemma SnapshotRowStored(s: BookSnapshot, source: string, now: Int64)
    ensures SnapshotToStore(s, source, now).Some? <==>
            && D.ValidNames(s.symbol, source)
            && 0 < SignedUnits(s.bestBid, 8) <= SignedUnits(s.bestAsk, 8) <= INT64_MAX
            && -100_000_000 <= SignedUnits(s.imbalance, 8) <= 100_000_000
            && FitsInt64(s.totalBidVolume * 100_000_000) && FitsInt64(s.totalAskVolume * 100_000_000)
    ensures SnapshotToStore(s, source, now).Some? ==>
              RowOf(SnapshotToStore(s, source, now).value) ==
              Some(SnapshotRow(s.symbol, source, StoredMicros(s.snapshotTime, now), SignedUnits(s.bestBid, 8),
                               SignedUnits(s.bestAsk, 8), SignedUnits(s.imbalance, 8), s.totalBidVolume * 100_000_000,
                               s.totalAskVolume * 100_000_000))
    ensures SnapshotFailure(s, source, now) == DatabaseError <==> SnapshotToStore(s, source, now).Some?
    ensures SnapshotFailure(s, source, now) == OutOfRange <==>
            || !FitsInt64(SignedUnits(s.bestBid, 8)) || !FitsInt64(SignedUnits(s.bestAsk, 8))
            || !FitsInt64(SignedUnits(s.imbalance, 8))
            || !FitsInt64(s.totalBidVolume * 100_000_000) || !FitsInt64(s.totalAskVolume * 100_000_000)
  {
    hide RowOf, SignedUnits, SnapshotStatement, D.ValidNames;
    if SnapshotToStore(s, source, now).Some? {
      ValidSnapshotMeetsSchema(DomainSnapshot(s, source, now).value);
    }
  }

  // The row written for a derived book: one tick on either side of the price, and all five parts of a tenth of the
  // volume on the ask side; on the bid side too, in balance, when the price exceeds five ticks.
  lemma DerivedRow(symbol: string, source: string, price: real, volume: Volume, at: Int64, now: Int64)
    requires SnapshotToStore(DerivedSnapshot(symbol, price, volume, at), source, now).Some?
    ensures var row := RowOf(SnapshotToStore(DerivedSnapshot(symbol, price, volume, at), source, now).value);
            var t := volume / 10;
            && row.Some? && row.value.SnapshotRow? && row.value.symbol == symbol && row.value.source == source
            && row.value.micros == StoredMicros(at, now)
            && row.value.bestBid == SignedUnits(price - 0.01, 8) && row.value.bestAsk == SignedUnits(price + 0.01, 8)
            && row.value.totalAskVolume == (t + t / 2 + t / 3 + t / 4 + t / 5) * 100_000_000
            && row.value.totalBidVolume <= row.value.totalAskVolume && row.value.imbalance <= 0
            && (price > 0.05 ==> row.value.totalBidVolume == row.value.totalAskVolume && row.value.imbalance == 0)
  {
    hide RowOf, SignedUnits, SnapshotToStore, Ratio, BidLevels, AskLevels;
    PersistableBook(symbol, source, price, volume, at, now);
    SnapshotRowStored(DerivedSnapshot(symbol, price, volume, at), source, now);
    BestDerivedBid(price, volume, LEVELS);
    BestDerivedAsk(price, volume, LEVELS);
    DerivedTotals(price, volume);
    DerivedImbalance(price, volume);
    UnitsOfWhole();
    UnitsMonotone(Ratio(Wrapped(SumVolumes(BidLevels(price, volume, LEVELS))),
                        Wrapped(SumVolumes(AskLevels(price, volume, LEVELS)))), 0.0);
  }

  lemma DerivedTotals(price: real, volume: Volume)
    requires price > 0.01
    ensures var t, bids, asks := volume / 10, Wrapped(SumVolumes(BidLevels(price, volume, LEVELS))),
                                 Wrapped(SumVolumes(AskLevels(price, volume, LEVELS)));
            && asks == t + t / 2 + t / 3 + t / 4 + t / 5
            && bids <= asks && (price > 0.05 ==> bids == asks)
  {
    hide BidLevels, AskLevels, FullVolume;
    FullVolumeFits(volume);
    TotalsFit(price, volume);
    FullAsks(price, volume, LEVELS);
    SideSums(price, volume, LEVELS);
  }

  lemma StatementKinds(q: Q.Quote, s: BookSnapshot, source: string, now: Int64)
    ensures QuoteToStore(q, now).Some? ==> QuoteToStore(q, now).value.InsertQuote?
    ensures SnapshotToStore(s, source, now).Some? ==> SnapshotToStore(s, source, now).value.InsertSnapshot?
  {
  }

  // The server takes a converted and validated value exactly when its instrument and its source are known.
  lemma QuoteIsAccepted(t: Tables, q: Q.Quote, now: Int64)
    requires QuoteToStore(q, now).Some?
    ensures Accepts(t, QuoteToStore(q, now).value) <==> q.symbol in t.instruments && q.source in t.sources
  {
    hide RowOf, SignedUnits;
    ValidQuoteMeetsSchema(DomainQuote(q, now).value);
  }

  lemma SnapshotIsAccepted(t: Tables, s: BookSnapshot, source: string, now: Int64)
    requires SnapshotToStore(s, source, now).Some?
    ensures Accepts(t, SnapshotToStore(s, source, now).value) <==> s.symbol in t.instruments && source in t.sources
  {
    hide RowOf, SignedUnits;
    ValidSnapshotMeetsSchema(DomainSnapshot(s, source, now).value);
  }

  lemma UnitsMonotone(x: real, y: real)
    ensures x <= y ==> SignedUnits(x, 8) <= SignedUnits(y, 8)
  {
    hide Pow10;
    assert Pow10(8) == 100_000_000 by { Pow10Table(); }
    ScaledEight(x);
    ScaledEight(y);
  }

  lemma ScaledEight(x: real)
    ensures ScaledUp(Absolute(x), 8) == Absolute(x) * 100_000_000.0
  {
    Pow10Table();
  }

  lemma UnitsOfWhole()
    ensures SignedUnits(-1.0, 8) == -100_000_000 && SignedUnits(0.0, 8) == 0 && SignedUnits(0.01, 8) == 1_000_000
  {
    ScaledEight(-1.0);
    ScaledEight(0.0);
    ScaledEight(0.01);
  }
}

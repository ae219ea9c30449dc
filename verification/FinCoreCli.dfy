/** The interactive command line's fetch pipeline: Redis, the market data client, the derived book, Redis
    again, PostgreSQL, and the session statistics. */
module FinCoreCli {
  import opened Common
  import opened Quotes
  import opened SessionStats
  import opened OrderBook
  import opened BookBuilder
  import opened AlphaVantage
  import opened RedisStore
  import Database
  import Digits
  import FixedText
  import Repository
  import Persistence
  import QF = QuoteFlow
  import TS = Timestamp

  // What the services do during one fetch, and the durations that get measured.
  datatype FetchScript = FetchScript(
    call: QF.Call,
    bookWrite: CommandRun,
    bookAt: int,
    now: Int64,
    snapshotAt: Int64,
    quoteDb: Repository.Script,
    snapshotDb: Repository.Script,
    readUs: int,
    apiUs: int,
    storeUs: int,
    buildUs: int,
    bookUs: int,
    totalUs: int,
    process: ProcessDelta
  )

  // ---- Reference: what one fetch does, read off the two cache tiers ----

  function NewMetrics(symbol: Symbol): Metrics {
    Metrics(symbol, false, false, false, false, false, None, None, None, None, None, 0, ProcessDelta(0, 0, 0, 0))
  }

  predicate Hit(out: QF.Outcome) {
    out.served.Some? && out.served.value.origin.FromRedis?
  }

  // The client's answer, if it was consulted and did not throw.
  function Answer(cfg: QF.Config, w: QF.World, symbol: Symbol, s: FetchScript): Option<Lookup> {
    var answer := Get(w.client, cfg.clientTtl, symbol, s.call.clientAt, s.call.fetch, s.call.fetchedAt);
    if s.call.read.ReadThrows? || Hit(QF.FetchSymbol(cfg, w, symbol, s.call)) || answer.result.Err? then None
    else Some(answer)
  }

  // What the search for a quote comes to.
  function Found(cfg: QF.Config, w: QF.World, symbol: Symbol, s: FetchScript): Result<Option<Quote>, Error> {
    var out := QF.FetchSymbol(cfg, w, symbol, s.call);
    if out.served.Some? then Ok(Some(out.served.value.quote))
    else if Answer(cfg, w, symbol, s).None? || s.call.cachedThrows then Err(ServiceError)
    else Ok(None)
  }

  // The measurements when the search is over.
  function Searched(cfg: QF.Config, w: QF.World, symbol: Symbol, s: FetchScript): Metrics {
    var answer := Answer(cfg, w, symbol, s);
    NewMetrics(symbol).(
      redisReadUs := if s.call.read.ReadThrows? then None else Some(s.readUs),
      redisCacheHit := Hit(QF.FetchSymbol(cfg, w, symbol, s.call)),
      apiUs := if answer.Some? then Some(s.apiUs) else None,
      apiCached := answer.Some? && !s.call.cachedThrows && answer.value.cached)
  }

  // The quote the book is built from: the one found, unless its Redis write threw.
  function Built(cfg: QF.Config, w: QF.World, symbol: Symbol, s: FetchScript): Option<Quote> {
    var out := QF.FetchSymbol(cfg, w, symbol, s.call);
    if out.served.Some? && (Hit(out) || s.call.store.Outcome(4).Ok?) then Some(out.served.value.quote) else None
  }

  // How the book's Redis write ends.
  function BookOutcome(q: Quote, s: FetchScript): Result<bool, Error> {
    s.bookWrite.Outcome(BookCommands(Bids(q), Asks(q)))
  }

  function Bids(q: Quote): seq<Level> {
    BidLevels(q.price, q.volume, LEVELS)
  }

  function Asks(q: Quote): seq<Level> {
    AskLevels(q.price, q.volume, LEVELS)
  }

  // The measurements when the book has been built.
  function Stored(m: Metrics, s: FetchScript): Metrics {
    if m.redisCacheHit then m.(redisQuoteStored := true, bookBuildUs := Some(s.buildUs))
    else m.(redisQuoteStored := s.call.store.done >= 4, redisQuoteUs := Some(s.storeUs), bookBuildUs := Some(s.buildUs))
  }

  // The measurements when everything has been written; the caller learns `success`.
  function Written(m: Metrics, q: Quote, s: FetchScript, success: bool): Metrics {
    if BookOutcome(q, s).Ok? then
      m.(redisBookStored := BookOutcome(q, s).value, redisBookUs := Some(s.bookUs), success := success)
    else m
  }

  // The record of a fetch.
  function Recorded(cfg: QF.Config, w: QF.World, symbol: Symbol, s: FetchScript, success: bool): Metrics {
    var found := Searched(cfg, w, symbol, s);
    var m := match Built(cfg, w, symbol, s)
             case None => found
             case Some(q) => Written(Stored(found, s), q, s, success);
    m.(totalUs := s.totalUs, process := s.process)
  }

  // The order-book keys of Redis after the fetch.
  function BooksAfter(before: BookHashes, built: Option<Quote>, symbol: Symbol, s: FetchScript): BookHashes {
    match built
    case None => before
    case Some(q) => WrittenBooks(before, symbol, AscendingCopy(Bids(q)), Asks(q), s.bookAt, s.bookWrite.done)
  }

  // The quote history grows by the quote's entry, as far as its commands got, and only when the quote did not
  // come from Redis.
  ghost predicate HistoriesAfter(before: map<Symbol, seq<string>>, after: map<Symbol, seq<string>>, symbol: Symbol,
                                 pushed: Option<Quote>, s: FetchScript) {
    forall t: Symbol :: HistoryOf(after, t) ==
      if t == symbol && pushed.Some? then
        StoredHistory(HistoryOf(before, t), HistoryEntry(pushed.value), s.call.store.done)
      else HistoryOf(before, t)
  }

  function PushedQuote(out: QF.Outcome): Option<Quote> {
    if out.served.Some? && !Hit(out) then Some(out.served.value.quote) else None
  }

  function QuoteInsert(q: Quote, s: FetchScript): Option<Database.Statement> {
    Persistence.QuoteToStore(q, s.now)
  }

  function SnapshotInsert(symbol: Symbol, q: Quote, s: FetchScript): Option<Database.Statement> {
    Persistence.SnapshotToStore(Persistence.DerivedSnapshot(symbol, q.price, q.volume, s.snapshotAt), q.source, s.now)
  }

  // The repository's database: what is committed, what the next statement sees, whether it can run, and whether no
  // block is open.
  datatype DbState = DbState(committed: Database.Tables, seen: Database.Tables, ready: bool, idle: bool)

  predicate Tidy(s: FetchScript) {
    Repository.Tidy(s.quoteDb) && Repository.Tidy(s.snapshotDb)
  }

  predicate Lossless(s: FetchScript) {
    Repository.Lossless(s.quoteDb, 1) && Repository.Lossless(s.snapshotDb, 1)
  }

  // No block is left open, and the connection is kept if no command loses it.
  predicate SessionKept(before: DbState, after: DbState, s: FetchScript) {
    && (before.idle && Tidy(s) ==> after.idle)
    && (before.idle && before.ready && Tidy(s) && Lossless(s) ==> after.ready)
  }

  predicate Undisturbed(before: DbState, s: FetchScript) {
    && before.seen == before.committed && before.ready
    && Repository.FaultFree(s.quoteDb, 1) && Repository.FaultFree(s.snapshotDb, 1)
  }

  predicate Accepted(t: Database.Tables, statement: Option<Database.Statement>) {
    statement.Some? && Persistence.Accepts(t, statement.value)
  }

  // The two PostgreSQL writes, each a transaction of its own: both rows are stored, or an exception ends the
  // fetch, possibly between the two. Nothing undoes the first when the second throws.
  predicate BothOutcome(before: DbState, after: Database.Tables, quote: Option<Database.Statement>,
                        snapshot: Option<Database.Statement>, s: FetchScript, stored: bool) {
    && (before.seen == before.committed ==> Persistence.Grown(before.committed, after))
    && match Persistence.Inserted(before.seen, quote)
       case None => !stored && after == before.committed
       case Some(first) =>
         var both := Persistence.Inserted(first, snapshot);
         && (after == before.committed || after == first || both == Some(after))
         && (FirstCommits(before, s) ==> after == first || both == Some(after))
         && (stored ==> both == Some(after))
         && (!stored && !s.snapshotDb.commit.Unreported() ==> after == before.committed || after == first)
         && (FirstCommits(before, s) && both.Some? && Repository.FaultFree(s.snapshotDb, 1) ==> stored)
  }

  predicate FirstCommits(before: DbState, s: FetchScript) {
    before.ready && Repository.FaultFree(s.quoteDb, 1)
  }

  // PostgreSQL is reached only with a built book whose Redis write did not throw; without a repository nothing
  // can throw there.
  predicate DatabaseAfter(before: Option<DbState>, after: Option<DbState>, built: Option<Quote>, symbol: Symbol,
                          s: FetchScript, stored: bool) {
    var reached := built.Some? && BookOutcome(built.value, s).Ok?;
    match (before, after)
    case (None, None) => reached ==> stored
    case (Some(b), Some(a)) =>
      if reached then
        var q := built.value;
        && SessionKept(b, a, s)
        && BothOutcome(b, a.committed, QuoteInsert(q, s), SnapshotInsert(symbol, q, s), s, stored)
      else a == b
    case _ => false
  }

  // The exceptions the PostgreSQL stage can end in: that of the quote, or, once the quote is stored, that of the
  // snapshot.
  predicate StageFailure(symbol: Symbol, q: Quote, s: FetchScript, e: Error) {
    || e == Persistence.QuoteFailure(q, s.now)
    || (QuoteInsert(q, s).Some? && e == SnapshotFailure(symbol, q, s))
  }

  function SnapshotFailure(symbol: Symbol, q: Quote, s: FetchScript): Error {
    Persistence.SnapshotFailure(Persistence.DerivedSnapshot(symbol, q.price, q.volume, s.snapshotAt), q.source, s.now)
  }

  // The caller's result: what ended the search, the exception of a Redis write, or, once PostgreSQL has
  // answered, whether both Redis writes were complete.
  predicate ResultAfter(cfg: QF.Config, w: QF.World, symbol: Symbol, s: FetchScript, r: Result<bool, Error>) {
    match Built(cfg, w, symbol, s)
    case None =>
      r == (match Found(cfg, w, symbol, s)
            case Err(e) => Err(e)
            case Ok(found) => if found.None? then Ok(false) else Err(ServiceError))
    case Some(q) =>
      if BookOutcome(q, s).Err? then r == Err(ServiceError)
      else
        && (r.Ok? ==> r.value == (Stored(Searched(cfg, w, symbol, s), s).redisQuoteStored && BookOutcome(q, s).value))
        && (r.Err? ==> StageFailure(symbol, q, s, r.error))
  }

  predicate Derived(bids: seq<Level>, asks: seq<Level>, q: Quote) {
    bids == Bids(q) && asks == Asks(q)
  }

  // The copy of a side into a map with the default order.
  function AscendingCopy(side: seq<Level>): seq<Level> {
    seq(|side|, i requires 0 <= i < |side| => side[|side| - 1 - i])
  }

  class FinCoreCli {
    const client: AlphaVantageClient
    const redis: RedisClient
    const repository: Repository.PostgresMarketDataRepository?
    const stats: SessionStats
    const symbols: seq<Symbol>
    const books: map<Symbol, OrderBook>
    var booksWithData: set<Symbol>

    // The quote each book with data was last built from.
    ghost var lastBuilt: map<Symbol, Quote>

    ghost predicate Valid()
      reads this, stats, books.Values
    {
      && (forall s :: s in symbols ==> s in books && TS.Upper(s) == s)
      && (forall s :: s in books ==> s in symbols)
      && BooksValid()
      && stats.Valid() && AllFetches(stats.log)
    }

    // A symbol has book data exactly when a quote was built for it, and then its book is the one that quote
    // yields.
    ghost predicate BooksValid()
      reads `booksWithData, `lastBuilt, books.Values
    {
      && (forall s, t :: s in books && t in books && s != t ==> books[s] != books[t])
      && (forall s :: s in books ==> books[s].Valid())
      && booksWithData == lastBuilt.Keys && booksWithData <= books.Keys
      && (forall s :: s in booksWithData ==> Derived(books[s].bids, books[s].asks, lastBuilt[s]))
    }

    function World(): QF.World
      reads client, redis
    {
      QF.World(client.cache, redis.hashes, 0)
    }

    function Config(): QF.Config {
      QF.Config(client.cacheTtl, redis.quoteTtl)
    }

    function Connections(): set<Database.PgConnection> {
      if repository == null then {} else {repository.connection}
    }

    function Db(): (db: Option<DbState>)
      reads Connections()
      ensures db.Some? && db.value.idle ==> db.value.seen == db.value.committed
    {
      if repository == null then None
      else
        var c := repository.connection;
        Some(DbState(c.committed, c.View(), c.open && !c.session.Aborted?, c.session.Idle?))
    }

    constructor (client: AlphaVantageClient, redis: RedisClient, repository: Repository.PostgresMarketDataRepository?,
                 names: seq<string>)
      ensures Valid() && stats.log == [] && lastBuilt == map[] && fresh(stats) && fresh(books.Values)
      ensures this.client == client && this.redis == redis && this.repository == repository
      ensures |symbols| == |names| && forall i :: 0 <= i < |names| ==> symbols[i] == TS.Upper(names[i])
      ensures forall s :: s in books ==> s in symbols && books[s].bids == [] && books[s].asks == []
    {
      hide TS.Upper, CountersOf, SeriesOf, UserCpuUs, SystemCpuUs, PeakRss, LastRss, LastRecorded, Bids, Asks;
      this.client, this.redis, this.repository := client, redis, repository;
      var upper, b := MakeBooks(names);
      symbols := upper;
      books := b;
      stats := new SessionStats();
      booksWithData := {};
      lastBuilt := map[];
    }

    // Construction as a whole: a book cannot be made for an empty name.
    static method Create(client: AlphaVantageClient, redis: RedisClient,
                         repository: Repository.PostgresMarketDataRepository?, names: seq<string>)
      returns (r: Result<FinCoreCli, Error>)
      ensures r.Err? <==> "" in names
      ensures r.Err? ==> r.error == InvalidArgument
      ensures r.Ok? ==>
                && fresh(r.value) && r.value.Valid() && r.value.stats.log == [] && r.value.lastBuilt == map[]
                && |r.value.symbols| == |names|
                && (forall i :: 0 <= i < |names| ==> r.value.symbols[i] == TS.Upper(names[i]))
                && forall s :: s in r.value.books ==>
                     s in r.value.symbols && r.value.books[s].bids == [] && r.value.books[s].asks == []
    {
      if "" in names {
        return Err(InvalidArgument);
      }
      var cli := new FinCoreCli(client, redis, repository, names);
      return Ok(cli);
    }

    // The loop over the configured names: a book per distinct symbol.
    static method MakeBooks(names: seq<string>) returns (upper: seq<Symbol>, b: map<Symbol, OrderBook>)
      ensures |upper| == |names|
      ensures forall i :: 0 <= i < |names| ==> upper[i] == TS.Upper(names[i]) == TS.Upper(upper[i]) && upper[i] in b
      ensures fresh(b.Values) && forall s :: s in b ==> b[s].Valid()
      ensures forall s :: s in b ==> s in upper && b[s].bids == [] && b[s].asks == []
      ensures forall s, t :: s in b && t in b && s != t ==> b[s] != b[t]
    {
      hide TS.Upper;
      upper, b := [], map[];
      for i := 0 to |names|
        invariant |upper| == i
        invariant forall j :: 0 <= j < i ==> upper[j] == TS.Upper(names[j]) == TS.Upper(upper[j]) && upper[j] in b
        invariant fresh(b.Values) && forall s :: s in b ==> b[s].Valid()
        invariant forall s :: s in b ==> s in upper && b[s].bids == [] && b[s].asks == []
        invariant forall s, t :: s in b && t in b && s != t ==> b[s] != b[t]
      {
        var symbol := TS.Upper(names[i]);
        TS.UpperTwice(names[i]);
        upper := upper + [symbol];
        if symbol !in b {
          var book := new OrderBook(symbol);
          assert forall s :: s in b ==> b[s] in b.Values && b[s] != book;
          b := b[symbol := book];
        }
      }
    }

    // The Redis read and, on a miss, the client.
    method ObtainQuote(symbol: Symbol, s: FetchScript) returns (found: Result<Option<Quote>, Error>, m: Metrics)
      modifies client
      ensures var cfg, w := Config(), old(World());
              && found == Found(cfg, w, symbol, s) && m == Searched(cfg, w, symbol, s)
              && client.cache == QF.FetchSymbol(cfg, w, symbol, s.call).world.client
    {
      hide ReadFields, StoredHashes;
      m := NewMetrics(symbol);
      if s.call.read.ReadThrows? {
        return Err(ServiceError), m;
      }
      var quote := redis.GetQuote(symbol, s.call.readAt, s.call.read.ReadError?);
      m := m.(redisReadUs := Some(s.readUs), redisCacheHit := quote.Some?);
      if quote.None? {
        var answer := client.GetQuote(symbol, s.call.clientAt, s.call.fetch, s.call.fetchedAt);
        if answer.Err? {
          return Err(answer.error), m;
        }
        m := m.(apiUs := Some(s.apiUs));
        if s.call.cachedThrows {
          return Err(ServiceError), m;
        }
        m := m.(apiCached := client.lastWasCached);
        quote := answer.value;
      }
      return Ok(quote), m;
    }

    // The quote's Redis write, unless it was a Redis hit, and the book.
    method StoreAndBuild(symbol: Symbol, quote: Quote, s: FetchScript, before: Metrics)
      returns (thrown: Option<Error>, m: Metrics)
      requires BooksValid() && symbol in books
      modifies redis`hashes, redis`histories, `booksWithData, `lastBuilt, books.Values
      ensures BooksValid()
      ensures thrown == if before.redisCacheHit || s.call.store.Outcome(4).Ok? then None else Some(ServiceError)
      ensures thrown.None? ==>
                && m == Stored(before, s) && lastBuilt == old(lastBuilt)[symbol := quote]
                && Derived(books[symbol].bids, books[symbol].asks, quote)
      ensures thrown.Some? ==> m == before && lastBuilt == old(lastBuilt)
      ensures redis.hashes ==
              if before.redisCacheHit then old(redis.hashes)
              else StoredHashes(old(redis.hashes), symbol, quote, s.call.storeAt, redis.quoteTtl, s.call.store.done)
      ensures HistoriesAfter(old(redis.histories), redis.histories, symbol,
                             if before.redisCacheHit then None else Some(quote), s)
    {
      hide StoredHashes, HmSet, StoredHistory;
      m := before;
      if m.redisCacheHit {
        m := m.(redisQuoteStored := true);
      } else {
        var stored := redis.StoreQuote(symbol, quote, s.call.storeAt, s.call.store);
        if stored.Err? {
          return Some(stored.error), m;
        }
        m := m.(redisQuoteStored := stored.value, redisQuoteUs := Some(s.storeUs));
      }
      BuildBook(symbol, quote);
      assert symbol in booksWithData;
      m := m.(bookBuildUs := Some(s.buildUs));
      return None, m;
    }

    method BuildBook(symbol: Symbol, quote: Quote)
      requires BooksValid() && symbol in books
      modifies `booksWithData, `lastBuilt, books.Values
      ensures BooksValid() && lastBuilt == old(lastBuilt)[symbol := quote]
    {
      var book := books[symbol];
      assert book in books.Values;
      PopulateBookFromQuote(book, quote.price, quote.volume);
      assert forall t :: t in books && t != symbol ==> books[t] in books.Values && books[t] != book;
      booksWithData := booksWithData + {symbol};
      lastBuilt := lastBuilt[symbol := quote];
    }

    // The book's Redis write and the PostgreSQL writes.
    method WriteOut(symbol: Symbol, quote: Quote, s: FetchScript, before: Metrics)
      returns (thrown: Option<Error>, m: Metrics)
      requires symbol in books && Derived(books[symbol].bids, books[symbol].asks, quote) && !before.success
      modifies redis`books, Connections()
      ensures redis.books == BooksAfter(old(redis.books), Some(quote), symbol, s)
      ensures m == Written(before, quote, s, m.success)
      ensures BookOutcome(quote, s).Err? ==> thrown == Some(ServiceError) && !m.success
      ensures BookOutcome(quote, s).Ok? ==>
                m.success == (thrown.None? && before.redisQuoteStored && BookOutcome(quote, s).value)
      ensures BookOutcome(quote, s).Ok? && thrown.Some? ==> StageFailure(symbol, quote, s, thrown.value)
      ensures DatabaseAfter(old(Db()), Db(), Some(quote), symbol, s, thrown.None?)
    {
      hide WrittenBooks, BothOutcome, BidLevels, AskLevels, Persistence.SnapshotToStore, Persistence.QuoteToStore;
      m := before;
      var bids, asks := books[symbol].bids, books[symbol].asks;
      var stored := redis.UpdateOrderBook(symbol, AscendingCopy(bids), asks, s.bookAt, s.bookWrite);
      if stored.Err? {
        return Some(stored.error), m;
      }
      m := m.(redisBookStored := stored.value, redisBookUs := Some(s.bookUs));
      var snapshot := Persistence.SnapshotOf(symbol, bids, asks, s.snapshotAt);
      var quoteStored, snapshotStored;
      thrown, quoteStored, snapshotStored := Persist(quote, snapshot, s);
      if thrown.Some? {
        return thrown, m;
      }
      m := m.(success := m.redisQuoteStored && m.redisBookStored && quoteStored && snapshotStored);
      return None, m;
    }

    // The PostgreSQL callbacks; without a repository both count as stored.
    method Persist(quote: Quote, snapshot: Persistence.BookSnapshot, s: FetchScript)
      returns (thrown: Option<Error>, quoteStored: bool, snapshotStored: bool)
      modifies Connections()
      ensures thrown.None? ==> quoteStored && snapshotStored
      ensures repository == null ==> thrown.None?
      ensures thrown.Some? ==>
                || thrown.value == Persistence.QuoteFailure(quote, s.now)
                || (Persistence.QuoteToStore(quote, s.now).Some?
                    && thrown.value == Persistence.SnapshotFailure(snapshot, quote.source, s.now))
      ensures repository != null ==>
                BothOutcome(old(Db()).value, repository.connection.committed, Persistence.QuoteToStore(quote, s.now),
                            Persistence.SnapshotToStore(snapshot, quote.source, s.now), s, thrown.None?)
      ensures repository != null ==> SessionKept(old(Db()).value, Db().value, s)
    {
      hide Persistence.KeyStored, Database.Execute, Persistence.Inserted;
      hide Persistence.QuoteToStore, Persistence.SnapshotToStore;
      MissingIsNotInserted();
      quoteStored, snapshotStored := true, true;
      if repository != null {
        var persisted := Persistence.PersistQuote(repository, quote, s.now, s.quoteDb);
        if persisted.Err? {
          return Some(persisted.error), quoteStored, snapshotStored;
        }
        quoteStored := persisted.value;
        persisted := Persistence.PersistSnapshot(repository, snapshot, quote.source, s.now, s.snapshotDb);
        if persisted.Err? {
          return Some(persisted.error), quoteStored, snapshotStored;
        }
        snapshotStored := persisted.value;
      }
      return None, quoteStored, snapshotStored;
    }

    // The state the fetch leaves in the cache tiers, the books and the order-book keys.
    ghost predicate Effects(cfg: QF.Config, w: QF.World, symbol: Symbol, s: FetchScript,
                            builtBefore: map<Symbol, Quote>, booksBefore: BookHashes,
                            historiesBefore: map<Symbol, seq<string>>)
      reads `lastBuilt, client, redis
    {
      var out, built := QF.FetchSymbol(cfg, w, symbol, s.call), Built(cfg, w, symbol, s);
      && client.cache == out.world.client && redis.hashes == out.world.hashes
      && HistoriesAfter(historiesBefore, redis.histories, symbol, PushedQuote(out), s)
      && lastBuilt == (if built.Some? then builtBefore[symbol := built.value] else builtBefore)
      && redis.books == BooksAfter(booksBefore, built, symbol, s)
    }

    // What the stages after the search are told to build: the quote, unless its Redis write throws.
    function ToBuild(quote: Quote, hit: bool, s: FetchScript): Option<Quote> {
      if hit || s.call.store.Outcome(4).Ok? then Some(quote) else None
    }

    // The stages after a quote has been found.
    method UseQuote(symbol: Symbol, quote: Quote, s: FetchScript, before: Metrics)
      returns (r: Result<bool, Error>, m: Metrics)
      requires BooksValid() && symbol in books && !before.success
      modifies redis, `booksWithData, `lastBuilt, books.Values, Connections()
      ensures BooksValid()
      ensures redis.hashes ==
              if before.redisCacheHit then old(redis.hashes)
              else StoredHashes(old(redis.hashes), symbol, quote, s.call.storeAt, redis.quoteTtl, s.call.store.done)
      ensures var built := ToBuild(quote, before.redisCacheHit, s);
              && lastBuilt == (if built.Some? then old(lastBuilt)[symbol := quote] else old(lastBuilt))
              && redis.books == BooksAfter(old(redis.books), built, symbol, s)
              && HistoriesAfter(old(redis.histories), redis.histories, symbol,
                                if before.redisCacheHit then None else Some(quote), s)
              && m == (if built.Some? then Written(Stored(before, s), quote, s, r == Ok(true)) else before)
              && (built.None? || BookOutcome(quote, s).Err? ==> r == Err(ServiceError))
              && (built.Some? && BookOutcome(quote, s).Ok? && r.Ok? ==>
                    r.value == (Stored(before, s).redisQuoteStored && BookOutcome(quote, s).value))
              && (built.Some? && BookOutcome(quote, s).Ok? && r.Err? ==> StageFailure(symbol, quote, s, r.error))
              && DatabaseAfter(old(Db()), Db(), built, symbol, s, r.Ok?)
    {
      hide StageFailure;
      hide StoredHashes, BooksAfter, HistoriesAfter, BookOutcome, DatabaseAfter, BooksValid, Derived, Written;
      var thrown;
      thrown, m := StoreAndBuild(symbol, quote, s, before);
      if thrown.Some? {
        Unreached(redis.books, Db(), symbol, s);
        return Err(thrown.value), m;
      }
      thrown, m := WriteOut(symbol, quote, s, m);
      return if thrown.Some? then Err(thrown.value) else Ok(m.success), m;
    }

    // The try block, with the measurements it leaves.
    method RunStages(symbol: Symbol, s: FetchScript) returns (r: Result<bool, Error>, m: Metrics)
      requires BooksValid() && symbol in books
      modifies `booksWithData, `lastBuilt, books.Values, client, redis, Connections()
      ensures BooksValid()
      ensures var cfg, w := Config(), old(World());
              && m.(totalUs := s.totalUs, process := s.process) == Recorded(cfg, w, symbol, s, r == Ok(true))
              && Effects(cfg, w, symbol, s, old(lastBuilt), old(redis.books), old(redis.histories))
              && ResultAfter(cfg, w, symbol, s, r)
              && DatabaseAfter(old(Db()), Db(), Built(cfg, w, symbol, s), symbol, s, r.Ok?)
    {
      hide QF.FetchSymbol, StoredHashes, BooksAfter, HistoriesAfter, BookOutcome, DatabaseAfter, BooksValid, Written;
      TierFacts(Config(), World(), symbol, s.call);
      Unreached(redis.books, Db(), symbol, s);
      NothingPushed(redis.histories, symbol, s);
      var found;
      found, m := ObtainQuote(symbol, s);
      if found.Err? {
        return Err(found.error), m;
      }
      if found.value.None? {
        return Ok(false), m;
      }
      r, m := UseQuote(symbol, found.value.value, s, m);
    }

    // One fetch, whatever the services do: an unknown symbol changes nothing; a configured one gets exactly one
    // record, and both cache tiers, the book, the order-book keys and the database change as specified.
    method FetchSymbol(raw: string, s: FetchScript) returns (r: Result<bool, Error>)
      requires Valid()
      modifies `booksWithData, `lastBuilt, books.Values, client, redis, stats, Connections()
      ensures Valid()
      ensures var symbol := TS.Upper(raw);
              symbol !in books ==>
                && r == Err(InvalidArgument) && stats.log == old(stats.log) && lastBuilt == old(lastBuilt)
                && World() == old(World()) && redis.books == old(redis.books)
                && redis.histories == old(redis.histories) && Db() == old(Db())
      ensures var symbol, cfg, w := TS.Upper(raw), Config(), old(World());
              symbol in books ==>
                && |stats.log| == |old(stats.log)| + 1
                && stats.log[|old(stats.log)|].symbol == symbol
                && stats.log[|old(stats.log)|].success == (r == Ok(true))
                && stats.log == old(stats.log) + [Recorded(cfg, w, symbol, s, r == Ok(true))]
                && Effects(cfg, w, symbol, s, old(lastBuilt), old(redis.books), old(redis.histories))
                && ResultAfter(cfg, w, symbol, s, r)
                && DatabaseAfter(old(Db()), Db(), Built(cfg, w, symbol, s), symbol, s, r.Ok?)
    {
      hide Recorded, Effects, ResultAfter, DatabaseAfter, BooksValid, TS.Upper, FetchShaped, AllFetches;
      hide CountersOf, SeriesOf, UserCpuUs, SystemCpuUs, PeakRss, LastRss, LastRecorded;
      var symbol := TS.Upper(raw);
      if symbol !in books {
        return Err(InvalidArgument);
      }
      var m;
      r, m := RunStages(symbol, s);
      RecordIsShaped(Config(), old(World()), symbol, s, r);
      m := Finish(m, s);
    }

    // The closing lines of every way out: total time, process figures, one record.
    method Finish(before: Metrics, s: FetchScript) returns (m: Metrics)
      requires stats.Valid() && AllFetches(stats.log)
      requires FetchShaped(before.(totalUs := s.totalUs, process := s.process))
      modifies stats
      ensures stats.Valid() && AllFetches(stats.log)
      ensures m == before.(totalUs := s.totalUs, process := s.process) && stats.log == old(stats.log) + [m]
    {
      hide FetchShaped, AllFetches, CountersOf, SeriesOf, UserCpuUs, SystemCpuUs, PeakRss, LastRss;
      m := before.(totalUs := s.totalUs, process := s.process);
      OneMoreFetch(stats.log, m);
      stats.Record(m);
    }

    // The "stats reset" command.
    method ResetStats()
      requires Valid()
      modifies stats
      ensures Valid() && stats.log == [] && stats.counters == CountersOf([])
    {
      stats.Reset();
    }

    // The "book" command: a snapshot only of a book with data, which is the book of its last built quote.
    method HandleBook(raw: string, at: Int64) returns (r: Result<Option<Persistence.BookSnapshot>, Error>)
      requires Valid()
      ensures var symbol := TS.Upper(raw);
              r == if symbol !in books then Err(InvalidArgument)
                   else if symbol !in lastBuilt then Ok(None)
                   else
                     var q := lastBuilt[symbol];
                     Ok(Some(Persistence.DerivedSnapshot(symbol, q.price, q.volume, at)))
    {
      var symbol := TS.Upper(raw);
      if symbol !in books {
        return Err(InvalidArgument);
      }
      if symbol !in booksWithData {
        return Ok(None);
      }
      return Ok(Some(Persistence.SnapshotOf(symbol, books[symbol].bids, books[symbol].asks, at)));
    }
  }

  // ---- Main results ----

  // A fetch and a look at the book take the symbol in any casing: what is configured is found however it is spelled,
  // always as the same symbol, and nothing else is.
  lemma AnyCasing(cli: FinCoreCli, raw: string)
    requires cli.Valid()
    ensures TS.Upper(raw) in cli.books <==> exists s :: s in cli.symbols && TS.SameButCase(raw, s)
    ensures forall s :: s in cli.symbols && TS.SameButCase(raw, s) ==> TS.Upper(raw) == s
    ensures forall other :: TS.SameButCase(raw, other) ==> TS.Upper(other) == TS.Upper(raw)
  {
    hide TS.Upper, TS.SameButCase;
    forall other
      ensures TS.Upper(raw) == TS.Upper(other) <==> TS.SameButCase(raw, other)
    {
      TS.UpperForgetsCase(raw, other);
    }
  }

  // Without a built book neither the order-book keys nor the database change.
  lemma Unreached(books: BookHashes, db: Option<DbState>, symbol: Symbol, s: FetchScript)
    ensures BooksAfter(books, None, symbol, s) == books
    ensures forall stored :: DatabaseAfter(db, db, None, symbol, s, stored)
  {
  }

  lemma NothingPushed(histories: map<Symbol, seq<string>>, symbol: Symbol, s: FetchScript)
    ensures HistoriesAfter(histories, histories, symbol, None, s)
  {
  }

  // What the pipeline needs to know of the two cache tiers.
  lemma TierFacts(cfg: QF.Config, w: QF.World, symbol: Symbol, call: QF.Call)
    ensures var out, answer := QF.FetchSymbol(cfg, w, symbol, call),
                               Get(w.client, cfg.clientTtl, symbol, call.clientAt, call.fetch, call.fetchedAt);
            && (Hit(out) ==> !call.read.ReadThrows?)
            && (out.served.Some? && !Hit(out) ==> !call.read.ReadThrows? && answer.result.Ok? && !call.cachedThrows)
            && out.world.hashes ==
               if out.served.Some? && !Hit(out)
               then StoredHashes(w.hashes, symbol, out.served.value.quote, call.storeAt, cfg.redisTtl, call.store.done)
               else w.hashes
  {
    hide ReadFields, StoredHashes;
  }

  // Whatever the services do, the record has the shape the conservation laws need.
  lemma RecordIsShaped(cfg: QF.Config, w: QF.World, symbol: Symbol, s: FetchScript, r: Result<bool, Error>)
    requires ResultAfter(cfg, w, symbol, s, r)
    ensures var m := Recorded(cfg, w, symbol, s, r == Ok(true));
            FetchShaped(m) && m.symbol == symbol && m.success == (r == Ok(true))
  {
    hide QF.FetchSymbol, Recorded, ResultAfter, Bids, Asks;
    TierFacts(cfg, w, symbol, s.call);
    RecordInNumbers(cfg, w, symbol, s, r == Ok(true));
    if r == Ok(true) {
      SuccessWrites(cfg, w, symbol, s, r);
    }
  }

  lemma SuccessWrites(cfg: QF.Config, w: QF.World, symbol: Symbol, s: FetchScript, r: Result<bool, Error>)
    requires ResultAfter(cfg, w, symbol, s, r) && r == Ok(true)
    ensures Built(cfg, w, symbol, s).Some? && BookOutcome(Built(cfg, w, symbol, s).value, s) == Ok(true)
  {
    hide QF.FetchSymbol, Answer, Searched, BookOutcome, Stored;
  }

  // How a fetch ends, by what each service did in turn.
  lemma FetchEnds(cfg: QF.Config, w: QF.World, symbol: Symbol, s: FetchScript, r: Result<bool, Error>)
    requires ResultAfter(cfg, w, symbol, s, r) && symbol != ""
    ensures var out := QF.FetchSymbol(cfg, w, symbol, s.call);
            var hit := out.served.Some? && out.served.value.origin.FromRedis?;
            var cached := symbol in w.client && s.call.clientAt < w.client[symbol].fetchedAt + cfg.clientTtl;
            && (s.call.read.ReadThrows? ==> r == Err(ServiceError))
            && (!s.call.read.ReadThrows? && !hit && !cached && s.call.fetch.Throws? ==> r == Err(ServiceError))
            && (!s.call.read.ReadThrows? && !hit && s.call.cachedThrows ==> r == Err(ServiceError))
            && (!s.call.read.ReadThrows? && !hit && !s.call.cachedThrows && !cached ==>
                  (s.call.fetch.NoBody? || s.call.fetch.Unparsable? ==> r == Ok(false)))
    ensures var out := QF.FetchSymbol(cfg, w, symbol, s.call);
            out.served.Some? ==>
              var q, hit := out.served.value.quote, out.served.value.origin.FromRedis?;
              var commands := 3 + |Bids(q)| + |Asks(q)|;
              && (!hit && s.call.store.done < 4 && s.call.store.escapes ==> r == Err(ServiceError))
              && (hit || s.call.store.done >= 4 || !s.call.store.escapes ==>
                    && Built(cfg, w, symbol, s) == Some(q)
                    && (s.bookWrite.done < commands && s.bookWrite.escapes ==> r == Err(ServiceError))
                    && (s.bookWrite.done >= commands || !s.bookWrite.escapes ==>
                          (r.Err? ==> StageFailure(symbol, q, s, r.error)))
                    && (r.Ok? ==> r.value == ((hit || s.call.store.done >= 4) && s.bookWrite.done >= commands)))
  {
    hide ReadFields, StoredHashes, Bids, Asks, StageFailure;
  }

  // The rows a fetch writes to PostgreSQL: the quote under its own instant, the book under that of its snapshot and the
  // quote's source.
  lemma FetchedRows(symbol: Symbol, q: Quote, s: FetchScript)
    ensures QuoteInsert(q, s).Some? ==>
              var row := Database.RowOf(QuoteInsert(q, s).value);
              && row.Some? && row.value.QuoteRow? && row.value.symbol == q.symbol && row.value.source == q.source
              && row.value.price == FixedText.SignedUnits(q.price, 8)
              && row.value.micros == (if q.timestamp == 0 then s.now / 1000 else TS.Clock(q.timestamp * 1000) / 1000)
    ensures SnapshotInsert(symbol, q, s).Some? ==>
              var row := Database.RowOf(SnapshotInsert(symbol, q, s).value);
              && row.Some? && row.value.SnapshotRow? && row.value.symbol == symbol && row.value.source == q.source
              && row.value.bestBid == FixedText.SignedUnits(q.price - 0.01, 8)
              && row.value.bestAsk == FixedText.SignedUnits(q.price + 0.01, 8)
              && row.value.micros == (if s.snapshotAt == 0 then s.now / 1000 else TS.Clock(s.snapshotAt * 1000) / 1000)
  {
    hide Database.RowOf, FixedText.SignedUnits, Persistence.QuoteToStore, Persistence.SnapshotToStore, TS.Clock;
    hide Persistence.DerivedSnapshot;
    Persistence.QuoteRowStored(q, s.now);
    if SnapshotInsert(symbol, q, s).Some? {
      Persistence.DerivedRow(symbol, q.source, q.price, q.volume, s.snapshotAt, s.now);
    }
  }

  // What the record of a fetch says, measurement by measurement: which stages were timed, with which duration, and
  // what became of them.
  lemma RecordInNumbers(cfg: QF.Config, w: QF.World, symbol: Symbol, s: FetchScript, success: bool)
    ensures var m, out, built := Recorded(cfg, w, symbol, s, success), QF.FetchSymbol(cfg, w, symbol, s.call),
                                 Built(cfg, w, symbol, s);
            var hit := out.served.Some? && out.served.value.origin.FromRedis?;
            && m.symbol == symbol && m.totalUs == s.totalUs && m.process == s.process
            && m.redisReadUs == (if s.call.read.ReadThrows? then None else Some(s.readUs)) && m.redisCacheHit == hit
            && (m.apiUs.Some? ==> m.apiUs == Some(s.apiUs) && !s.call.read.ReadThrows? && !hit)
            && (out.served.Some? && !hit ==> m.apiUs.Some?) && (hit ==> built.Some?)
            && (out.answers != [] ==> m.apiUs.Some? && !m.apiCached)
            && (m.apiCached <==> out.served.Some? && out.served.value.origin.FromClientCache?)
            && m.redisQuoteUs == (if built.Some? && !hit then Some(s.storeUs) else None)
            && m.redisQuoteStored == (built.Some? && (hit || s.call.store.done >= 4))
            && m.bookBuildUs == (if built.Some? then Some(s.buildUs) else None)
            && m.redisBookUs == (if built.Some? && BookOutcome(built.value, s).Ok? then Some(s.bookUs) else None)
            && m.redisBookStored
               == (built.Some? && s.bookWrite.done >= 3 + |Bids(built.value)| + |Asks(built.value)|)
            && (m.success <==> built.Some? && BookOutcome(built.value, s).Ok? && success)
  {
    hide QF.FetchSymbol, Answer, Bids, Asks;
    SearchInNumbers(cfg, w, symbol, s);
  }

  lemma SearchInNumbers(cfg: QF.Config, w: QF.World, symbol: Symbol, s: FetchScript)
    ensures var answer, out := Answer(cfg, w, symbol, s), QF.FetchSymbol(cfg, w, symbol, s.call);
            && (out.served.Some? && !out.served.value.origin.FromRedis? ==> answer.Some?)
            && (answer.Some? ==> !s.call.read.ReadThrows? && !Hit(out))
            && (out.answers != [] ==> answer.Some? && !answer.value.cached)
            && (answer.Some? && !s.call.cachedThrows && answer.value.cached
                <==> out.served.Some? && out.served.value.origin.FromClientCache?)
  {
    hide ReadFields, StoredHashes;
  }

  // In every reachable state of the command line the printed statistics obey the conservation laws.
  lemma SessionLaws(cli: FinCoreCli)
    requires cli.Valid()
    ensures var c, s := cli.stats.counters, cli.stats.series;
            && c.attempts == c.successes + c.failures == |s.total|
            && c.apiCacheHits + c.apiCacheMisses <= c.redisCacheMisses
            && c.redisQuoteSuccesses + c.redisQuoteFailures <= c.apiCacheHits + c.apiCacheMisses
            && |s.bookBuild| == c.redisCacheHits + c.redisQuoteSuccesses + c.redisQuoteFailures
            && c.successes <= c.redisBookSuccesses
            && |s.api| == c.apiCacheHits + c.apiCacheMisses
            && |s.apiCached| == c.apiCacheHits && |s.apiExternal| == c.apiCacheMisses
            && |s.redisRead| == c.redisCacheHits + c.redisCacheMisses
            && |s.redisQuote| == c.redisQuoteSuccesses + c.redisQuoteFailures
            && |s.redisBook| == c.redisBookSuccesses + c.redisBookFailures <= |s.bookBuild|
            && Interleaves(s.api, s.apiCached, s.apiExternal)
  {
    SeriesLengths(cli.stats.log);
    Conservation(cli.stats.log);
    ApiSamplesInterleave(cli.stats.log);
  }

  // A completed book write leaves each side's hash with exactly the derived levels, every price printed apart.
  lemma BooksMirrored(before: BookHashes, q: Quote, symbol: Symbol, s: FetchScript)
    requires BookOutcome(q, s) == Ok(true)
    ensures var after := BooksAfter(before, Some(q), symbol, s);
            && symbol in after.bids && Mirrors(after.bids[symbol], Bids(q))
            && symbol in after.asks && Mirrors(after.asks[symbol], Asks(q))
            && symbol in after.times && after.times[symbol] == s.bookAt
  {
    hide BidLevels, AskLevels, Mirrors;
    BidsApart(q.price, q.volume, LEVELS);
    AsksApart(q.price, q.volume, LEVELS);
    ApartIsSpaced(AscendingCopy(Bids(q)));
    ApartIsSpaced(Asks(q));
    BookHashMirrors(AscendingCopy(Bids(q)));
    BookHashMirrors(Asks(q));
    MirrorsCopy(BookHash(AscendingCopy(Bids(q))), Bids(q));
  }

  // A fetch that reports success has the quote in Redis, either served from there or completely stored, the
  // order-book keys mirroring the derived book, and both rows in PostgreSQL if there is a repository; which, with
  // a repository, no quote below ten units or at a tick or less can reach.
  lemma SuccessfulFetch(cfg: QF.Config, w: QF.World, symbol: Symbol, s: FetchScript,
                        before: Option<DbState>, after: Option<DbState>)
    requires ResultAfter(cfg, w, symbol, s, Ok(true))
    requires DatabaseAfter(before, after, Built(cfg, w, symbol, s), symbol, s, true)
    ensures var out, built := QF.FetchSymbol(cfg, w, symbol, s.call), Built(cfg, w, symbol, s);
            && built.Some? && out.served.Some? && built.value == out.served.value.quote
            && (out.served.value.origin.FromRedis? || s.call.store.done >= 4)
            && BookOutcome(built.value, s) == Ok(true)
            && (after.Some? ==>
                  && built.value.volume >= 10 && built.value.price > 0.01
                  && QuoteInsert(built.value, s).Some? && SnapshotInsert(symbol, built.value, s).Some?
                  && Persistence.KeyStored(after.value.committed.rows, QuoteInsert(built.value, s).value)
                  && Persistence.KeyStored(after.value.committed.rows, SnapshotInsert(symbol, built.value, s).value))
  {
    hide QF.FetchSymbol, Persistence.KeyStored, Persistence.QuoteToStore, Persistence.SnapshotToStore, BothOutcome;
    var q := Built(cfg, w, symbol, s).value;
    if after.Some? {
      StatementKindsOf(symbol, q, s);
      BothStored(before.value, after.value.committed, QuoteInsert(q, s), SnapshotInsert(symbol, q, s), s, true);
      Persistence.PersistableBook(symbol, q.source, q.price, q.volume, s.snapshotAt, s.now);
    }
  }

  lemma StatementKindsOf(symbol: Symbol, q: Quote, s: FetchScript)
    ensures QuoteInsert(q, s).Some? ==> QuoteInsert(q, s).value.InsertQuote?
    ensures SnapshotInsert(symbol, q, s).Some? ==> SnapshotInsert(symbol, q, s).value.InsertSnapshot?
  {
    hide Persistence.QuoteToStore, Persistence.SnapshotToStore;
    var snapshot := Persistence.DerivedSnapshot(symbol, q.price, q.volume, s.snapshotAt);
    Persistence.StatementKinds(q, snapshot, q.source, s.now);
  }

  // What the two writes leave stored: the quote whenever its transaction commits, both whenever the stage ends well.
  lemma BothStored(before: DbState, after: Database.Tables, quote: Option<Database.Statement>,
                   snapshot: Option<Database.Statement>, s: FetchScript, stored: bool)
    requires BothOutcome(before, after, quote, snapshot, s, stored)
    requires quote.Some? ==> quote.value.InsertQuote?
    requires snapshot.Some? ==> snapshot.value.InsertSnapshot?
    ensures stored || (FirstCommits(before, s) && Persistence.Inserted(before.seen, quote).Some?) ==>
              quote.Some? && Persistence.KeyStored(after.rows, quote.value)
    ensures stored ==> snapshot.Some? && Persistence.KeyStored(after.rows, snapshot.value)
  {
    hide Persistence.KeyStored, Persistence.Inserted, Persistence.Grown;
    MissingIsNotInserted();
    var first := Persistence.Inserted(before.seen, quote);
    if first.Some? {
      Persistence.InsertedIsStored(before.seen, quote);
      var both := Persistence.Inserted(first.value, snapshot);
      if both.Some? {
        Persistence.InsertedIsStored(first.value, snapshot);
        Persistence.StaysStored(first.value, both.value, quote.value);
      }
    }
  }

  lemma MissingIsNotInserted()
    ensures forall t :: Persistence.Inserted(t, None) == None
  {
  }

  // Conversely, a quote found and stored, a complete book write and, with a repository, an undisturbed server
  // that takes both rows make the fetch succeed.
  lemma FetchSucceeds(cfg: QF.Config, w: QF.World, symbol: Symbol, s: FetchScript, r: Result<bool, Error>,
                      before: Option<DbState>, after: Option<DbState>)
    requires ResultAfter(cfg, w, symbol, s, r)
    requires DatabaseAfter(before, after, Built(cfg, w, symbol, s), symbol, s, r.Ok?)
    requires var out, built := QF.FetchSymbol(cfg, w, symbol, s.call), Built(cfg, w, symbol, s);
             && built.Some? && (Hit(out) || s.call.store.done >= 4) && BookOutcome(built.value, s) == Ok(true)
             && (before.Some? ==>
                   && Undisturbed(before.value, s) && Accepted(before.value.seen, QuoteInsert(built.value, s))
                   && Accepted(before.value.seen, SnapshotInsert(symbol, built.value, s)))
    ensures r == Ok(true)
  {
    hide QF.FetchSymbol, Persistence.Inserted, Persistence.Accepts, Persistence.Grown;
    hide Persistence.QuoteToStore, Persistence.SnapshotToStore;
    TierFacts(cfg, w, symbol, s.call);
    if before.Some? {
      var q := Built(cfg, w, symbol, s).value;
      StatementKindsOf(symbol, q, s);
      BothInserted(before.value.seen, QuoteInsert(q, s), SnapshotInsert(symbol, q, s));
    }
  }

  // Two statements the server takes are carried out one after the other.
  lemma BothInserted(t: Database.Tables, quote: Option<Database.Statement>, snapshot: Option<Database.Statement>)
    requires Accepted(t, quote) && Accepted(t, snapshot) && quote.value.InsertQuote?
    ensures Persistence.Inserted(t, quote).Some?
    ensures Persistence.Inserted(Persistence.Inserted(t, quote).value, snapshot).Some?
  {
    hide Persistence.KeyStored, Database.Execute, Persistence.Accepts;
    Persistence.AcceptedIsExecuted(t, quote.value);
    Persistence.InsertedIsStored(t, quote);
    var first := Persistence.Inserted(t, quote).value;
    Persistence.AcceptsMore(t, first, snapshot.value);
    Persistence.AcceptedIsExecuted(first, snapshot.value);
  }

  // The two writes are not atomic together: with an undisturbed server that knows the instrument and the source,
  // the quote of a fetch that reaches PostgreSQL is stored in any case, but the stage ends well exactly when the
  // derived book can be stored too.
  lemma QuoteWithoutSnapshot(symbol: Symbol, q: Quote, s: FetchScript, before: DbState, after: DbState, stored: bool)
    requires DatabaseAfter(Some(before), Some(after), Some(q), symbol, s, stored) && BookOutcome(q, s).Ok?
    requires Undisturbed(before, s) && q.symbol == symbol && QuoteInsert(q, s).Some?
    requires symbol in before.seen.instruments && q.source in before.seen.sources
    ensures Persistence.KeyStored(after.committed.rows, QuoteInsert(q, s).value)
    ensures stored <==>
              && q.volume >= 10 && FixedText.SignedUnits(q.price - 0.01, 8) >= 1
              && FitsInt64(FixedText.SignedUnits(q.price + 0.01, 8))
    ensures !stored ==> Persistence.Inserted(before.seen, QuoteInsert(q, s)) == Some(after.committed)
  {
    hide Persistence.KeyStored, Persistence.Inserted, Persistence.Accepts, Persistence.Grown, FixedText.SignedUnits;
    hide Persistence.QuoteToStore, Persistence.SnapshotToStore, FullVolume;
    var quote, snapshot := QuoteInsert(q, s), SnapshotInsert(symbol, q, s);
    StatementKindsOf(symbol, q, s);
    MissingIsNotInserted();
    BothStored(before, after.committed, quote, snapshot, s, stored);
    Persistence.QuoteIsAccepted(before.seen, q, s.now);
    Persistence.AcceptedIsInserted(before.seen, quote);
    Persistence.ConvertedQuote(q, s.now);
    FullVolumeFits(q.volume);
    Persistence.DerivedSnapshotValid(symbol, q.source, q.price, q.volume, s.snapshotAt, s.now);
    if snapshot.Some? {
      var book := Persistence.DerivedSnapshot(symbol, q.price, q.volume, s.snapshotAt);
      Persistence.SnapshotIsAccepted(before.seen, book, q.source, s.now);
      BothInserted(before.seen, quote, snapshot);
    }
  }

  // The copy of the bids runs the other way, lowest price first, and holds the same levels.
  lemma CopyAscends(side: seq<Level>)
    requires Sorted(Descending, side)
    ensures Sorted(Ascending, AscendingCopy(side))
    ensures |AscendingCopy(side)| == |side| && forall l :: l in side <==> l in AscendingCopy(side)
  {
    CopyMembers(side);
  }

  lemma MirrorsCopy(hash: map<string, string>, side: seq<Level>)
    requires Mirrors(hash, AscendingCopy(side))
    ensures Mirrors(hash, side)
  {
    CopyMembers(side);
  }

  lemma CopyMembers(side: seq<Level>)
    ensures forall l :: l in side <==> l in AscendingCopy(side)
  {
    forall i | 0 <= i < |side|
      ensures side[i] in AscendingCopy(side) && AscendingCopy(side)[i] in side
    {
      assert AscendingCopy(side)[|side| - 1 - i] == side[i];
    }
  }

  // Prices a tick apart differ at six decimals.
  lemma TickApart(x: real, y: real)
    requires x - y >= 0.01
    ensures FixedText.SignedUnits(x, 6) > FixedText.SignedUnits(y, 6)
  {
    Digits.Pow10Table();
  }

  lemma ApartIsSpaced(side: seq<Level>)
    requires Apart(side)
    ensures Spaced(side)
  {
    hide FixedText.SignedUnits;
    forall i, j | 0 <= i < j < |side|
      ensures FixedText.SignedUnits(side[i].price, 6) != FixedText.SignedUnits(side[j].price, 6)
    {
      if side[i].price - side[j].price >= 0.01 {
        TickApart(side[i].price, side[j].price);
      } else {
        TickApart(side[j].price, side[i].price);
      }
    }
  }
}

# FinCore: verified model of the market-data pipeline

FinCore fetches quotes from an external market-data source, caches them in the client and in Redis, derives a
synthetic order book from each quote, writes quotes and book snapshots to PostgreSQL, and keeps session statistics.
This project models that pipeline in Dafny and proves what it keeps over every input and every run.

Run `dafny verify dfyconfig.toml` in this directory.

## Components

| module | models |
|---|---|
| `Decimal`, `Digits` | the eight-digit fixed-point codec, over machine integers whose bounds the verifier checks |
| `Calendar`, `Timestamp` | the UTC timestamp codec and the Gregorian calendar behind `timegm` and `gmtime_r` |
| `OrderBook`, `BookBuilder` | the two-sided book against a pair of price maps, and the book derived from a quote |
| `Percentile`, `SessionStats` | latency percentiles, and the statistics object against the log of recorded operations |
| `Quotes`, `FixedText`, `AlphaVantage`, `RedisStore` | the quote, its number texts, the client cache and the Redis keys |
| `QuoteFlow` | the two cache tiers as one timed state machine: staleness and request-rate bounds |
| `Domain`, `Database`, `Repository` | validated values, a PostgreSQL session with failing commands, and the batch inserts |
| `Persistence`, `FinCoreCli`, `CliSession` | the persist callbacks, `fetch_symbol` with all services able to fail at any stage, and the command loop |

Stateful source classes are classes here; each of their methods is specified by a function of the old state, and the
properties are lemmas about those functions. `FinCoreCli.FetchSymbol` ties the pieces together: its cache effects are
those of `QuoteFlow.FetchSymbol`, its book those of `BookBuilder`, its rows those of `Repository`, its record one the
conservation laws cover.

## Conventions

- Strings are bytes. Prices and other doubles are exact reals; conversions to text round to nearest, ties to even.
- Cached timestamps count microseconds, domain timestamps nanoseconds, both since the Epoch in an int64, as libstdc++'s
  system_clock holds them. Where C++ leaves signed overflow of clock arithmetic undefined, it wraps around.
  `to_time_t` truncates towards zero.
- `timegm` normalises the fields it is given in place. `std::get_time` extracts each field as libstdc++ 12 does.
- Clocks, the external source's answers and all failures are parameters; a run's instants are on one clock, which the
  source splits into its own steady clock and Redis's. A Redis call is a number of commands that
  succeed before one fails, reported or escaping. A PostgreSQL command can be refused, lose the connection before or
  after it took effect, or be carried out while the client fails.
- Loop bodies split off into methods of their own carry the loop they come from.

## What the proofs found

Properties one would expect that the code does not have, each with the exact condition under which it holds:

- Staleness (`QuoteFlow.StalenessExactly`, `QuoteFlow.FreshExactly`). A quote can be older than the Redis lifetime, since
  a quote served from the client cache is stored anew with a full one; the bound is the sum of both. It fails altogether
  if EXPIRE fails after an HMSET that made a new hash: that hash never expires, although docs/redis-caching.md:19-20 says
  not extending the lifetime on reads prevents a quote from staying stale forever.
- Snapshots of thin or cheap quotes (`Persistence.DerivedSnapshotValid`, `Persistence.ThinQuote`,
  `FinCoreCli.QuoteWithoutSnapshot`). With a
  repository, a quote with a volume below ten or a price of at most one tick yields a snapshot that validation refuses,
  so the fetch throws after the quote has been stored.
- Failed PostgreSQL writes (`Persistence.PersistQuote`). The callbacks cannot return false: a row that is not inserted
  is a duplicate. The "failed" PostgreSQL status of a completed fetch (src/cli/fincore_cli.cpp:628-630) is therefore
  never printed.
- Impossible dates (`Timestamp.ImpossibleTimesAccepted`, `Timestamp.DenotesItsFields`). The parser compares the fields of
  its result with those timegm left behind, which timegm has already normalised, so the check for an invalid calendar
  date (src/cli/postgres_cli.cpp:83-87) never refuses one: 30 February is taken as 1 or 2 March and second 60 as the next
  minute. A text denotes the date it spells exactly when that is a real one. What the check does refuse is instants
  the clock cannot hold and fractions before the Epoch.
- Loose spellings (`Timestamp.GetTimeExactly`, `Timestamp.LooseSpellingAccepted`). docs/cli-reference.md:84-86 promises the form
  `YYYY-MM-DDTHH:MM:SS[.ffffff]Z`; the code also takes blanks for leading digits of the year and the day, and any
  character behind a one-digit second.
- Timestamps before the Epoch (`Timestamp.ParseAcceptsExactly`, `Timestamp.PreEpochRefusals`). The last second before
  the Epoch and instants with a nonzero fraction are refused.
- Validation against the schema (`Repository.ValidTickMeetsSchema`, `Repository.ValidIndicatorMeetsSchema`). Trade ids
  that are blank or no UTF-8 up to their first NUL, and parameters that are no JSON object or too large for the index,
  pass validation and are refused by the server; ids that agree up to a NUL are taken for the same trade.
- Atomicity (`Repository.PostgresMarketDataRepository.InsertBatch`). A batch is all or nothing on every path, but an
  error is not proof of nothing: if COMMIT took effect and its reply was lost, the caller sees an exception.
- Widths. docs/psql_architecture.md gives NUMERIC(14,4) for prices; migration/schema.sql, which is modelled, has
  NUMERIC(20,8) and NUMERIC(24,8).

## Model

| member | source | states |
|---|---|---|
| `Decimal.CheckedAccumulate` | src/domain/decimal.cpp:10-16 | The overflow guard by division refuses exactly the digits whose accumulation exceeds 64 bits, and nothing wraps. |
| `Decimal.ReadWhole` | src/domain/decimal.cpp:35-48 | The loop before the point reads the maximal digit run as its number, stopping with the specified error at a bad character or at the first digit that overflows. |
| `Decimal.ReadFraction` | src/domain/decimal.cpp:57-68 | Accepted are exactly runs of at most eight digits, read as their number without wrap-around. |
| `Decimal.ScaleFraction` | src/domain/decimal.cpp:70-73 | Scaling yields the fraction in units of 10^-8, below one whole. |
| `Decimal.FractionPart` | src/domain/decimal.cpp:50-73 | A dangling point, a ninth digit and a non-digit are refused, everything else becomes units of 10^-8. |
| `Decimal.Assemble` | src/domain/decimal.cpp:75-91 | The division guard is exact: the signed number is returned precisely when an int64 holds it, the minimum included. |
| `Decimal.FromString` | src/domain/decimal.cpp:20-92 | The machine-integer parser, whose every intermediate is checked against its width, returns what the specification of accepted texts says, error class included. |
| `Decimal.ToString` | src/domain/decimal.cpp:94-111 | The machine-integer printer, the minimum included, yields the canonical text. |
| `Decimal.SplitRender` | src/domain/decimal.cpp:20-73 | Reading a rendered sign, whole part and fraction gives these parts back. |
| `Decimal.RenderSplit` | src/domain/decimal.cpp:20-73 | Every well-shaped text is the rendering of its parts. |
| `Decimal.FromStringAcceptsExactly` | src/domain/decimal.cpp:20-92 | A text parses to a raw value if and only if it is an optional sign, digits and an optional point with one to eight digits whose number times 10^8 is that int64. |
| `Decimal.FromStringErrorKind` | src/domain/decimal.cpp:20-82 | Out-of-range rather than invalid-argument exactly when the leading digits exceed 64 bits or a well-formed number exceeds int64. |
| `Decimal.ParseCanonical` | src/domain/decimal.cpp:20-111 | Printing then parsing is the identity on all int64 raw values. |
| `Decimal.CanonicalInjective` | src/domain/decimal.cpp:94-111 | Different values never print alike. |
| `Decimal.CanonicalExactly` | src/domain/decimal.cpp:94-111 | The printed texts are exactly those without plus sign, needless zero, missing fraction digit or negative zero. |
| `Decimal.ReprintIsCanonical` | src/domain/decimal.cpp:20-111 | Parsing then printing gives the unique canonical text of the same number, and leaves a text unchanged exactly when it is canonical. |
| `Decimal.LiteralInNumbers` | src/domain/decimal.cpp:70-91 | What a text denotes: its digits read as one number, moved by as many places as follow the point, negated by a minus sign only. |
| `Calendar.GmTimeReal` | src/cli/postgres_cli.cpp:74-82 | gmtime_r yields a real Gregorian date and time for every second count, and timegm undoes it. |
| `Calendar.TimeGmInverse` | src/cli/postgres_cli.cpp:74-82 | On real dates gmtime_r undoes timegm: dates and second counts are in bijection. |
| `Calendar.CivilOrderExactly` | src/cli/postgres_cli.cpp:91-103 | Field-by-field order of real dates is the order of their second counts. |
| `Calendar.UnchangedExactlyWhenReal` | src/cli/postgres_cli.cpp:74 | timegm normalises its argument in place; what it leaves is what it was given exactly when that was a real date and time. |
| `Calendar.YearOfHolds` | src/cli/postgres_cli.cpp:80-82 | The year found for a day starts at or before it and ends after it. |
| `Calendar.YearLength` | src/cli/postgres_cli.cpp:74-82 | A year has 366 days exactly when it is leap, and consecutive years tile the days. |
| `Calendar.YearWithin` | src/cli/postgres_cli.cpp:91-98 | A day between the starts of two years belongs to a year in between. |
| `Calendar.PosixSecondsSinceTheEpoch` | src/cli/postgres_cli.cpp:74 | From 1970 on the second count is the expression of POSIX.1-2017 Base Definitions, section 4.16. |
| `Timestamp.ScaleToMicros` | src/cli/postgres_cli.cpp:70-71 | The scaling loop yields the fraction in microseconds, below one second. |
| `Timestamp.FractionInNumbers` | src/cli/postgres_cli.cpp:70-71 | A fraction of k digits counts 10^-k seconds: its microseconds times 10^k are its number times 10^6. |
| `Timestamp.NowExactly` | src/cli/postgres_cli.cpp:45 | Exactly the three letters n, o, w, each in either case, are answered with whatever the clock reads. |
| `Timestamp.Capitals` | src/cli/postgres_cli.cpp:21-26 | Letters a to z become the capital at the same place of the alphabet; every other character stays. |
| `Timestamp.UpperForgetsCase` | src/cli/postgres_cli.cpp:21-26 | Two texts become the same in capitals if and only if they differ in the case of letters only. |
| `Timestamp.ReadFraction` | src/cli/postgres_cli.cpp:60-72 | The tail after the nineteenth character is accepted exactly if it is Z alone or a point, one to six digits and Z, and gives its microseconds. |
| `Timestamp.GetTimeExactly` | src/cli/postgres_cli.cpp:55-58 | Behind the checked separators std::get_time, field by field as libstdc++ extracts it, succeeds exactly on fields in range whose year may have up to three leading blanks for digits, whose day may have one, and whose seconds may be one digit with any non-digit behind it. |
| `Timestamp.ParseTimestamp` | src/cli/postgres_cli.cpp:44-89 | The parser, branch by branch, timegm normalising the fields in place, returns the instant or the error of its specification. |
| `Timestamp.FormatTimestamp` | src/cli/postgres_cli.cpp:91-103 | The printer yields the specified text of the floored instant. |
| `Timestamp.CheckedFields` | src/cli/postgres_cli.cpp:74-87 | The comparison of the two normalised dates fails exactly if the clock wrapped around or a fraction before the Epoch was rounded towards zero; an impossible date passes it. |
| `Timestamp.ParseAcceptsExactly` | src/cli/postgres_cli.cpp:44-89 | A text other than "now" parses to an instant if and only if it spells fields in range that carry over to that instant, the clock holds it, and it is from the Epoch on, or earlier with no fraction and not the second before the Epoch. |
| `Timestamp.FromTheEpochAnyFields` | src/cli/postgres_cli.cpp:74-88 | From the Epoch on any fields in range are accepted if the clock holds their instant, as the real date they carry over to. |
| `Timestamp.ImpossibleTimesAccepted` | src/cli/postgres_cli.cpp:74-88 | 2023-02-30T00:00:00Z is accepted as 2 March and 2023-06-30T23:59:60Z as 1 July. |
| `Timestamp.LooseSpellingAccepted` | src/cli/postgres_cli.cpp:55-58 | 2026-01-05T10:20:5xZ is accepted as 10:20:05. |
| `Timestamp.DenotesItsFields` | src/cli/postgres_cli.cpp:44-89 | An accepted text denotes the fields it spells if and only if they are a real Gregorian date and time. |
| `Timestamp.ReadSpelling` | src/cli/postgres_cli.cpp:47-72 | Every spelling is read as the fields it denotes. |
| `Timestamp.SpellingRead` | src/cli/postgres_cli.cpp:47-72 | Every text that is read is a spelling of those fields. |
| `Timestamp.ClockYears` | src/storage/persistence/postgres/postgres_market_data_repository.cpp:19-42 | The clock reaches from 1677 to 2262, so every instant prints with a four-digit year. |
| `Timestamp.PreEpochRefusals` | src/cli/postgres_cli.cpp:74-87 | Two real instants before the Epoch that are refused: 1969-12-31T23:59:59Z and 1969-12-31T23:59:58.5Z. |
| `Timestamp.FormatThenParse` | src/cli/postgres_cli.cpp:44-103 | For every instant of the clock: parsing its text gives it floored to microseconds if it is from the Epoch on or on a whole second before the last, and is refused otherwise. |
| `Timestamp.ParseThenFormat` | src/cli/postgres_cli.cpp:44-103 | Printing a parsed text gives the date it carries over to, and the text itself with its fraction padded to six digits if and only if it is in the canonical layout and a real date and time. |
| `Timestamp.FormatOrder` | src/storage/persistence/postgres/postgres_market_data_repository.cpp:19-42 | On every instant of the clock, lexicographic order of printed texts is time order at microsecond precision. |
| `Timestamp.FormatInjective` | src/storage/persistence/postgres/postgres_market_data_repository.cpp:19-42 | Two instants print alike exactly when they agree to the microsecond. |
| `OrderBook.OrderBook.constructor` | include/core/order_book.hpp:22-25 | A new book is empty on both sides. |
| `OrderBook.OrderBook.SetBid` | src/core/order_book.cpp:12-20 | Sets, overwrites or, at volume zero, removes one bid of the price map, and throws without effect at a non-positive price; order and positivity are kept. |
| `OrderBook.OrderBook.SetAsk` | src/core/order_book.cpp:22-29 | The same for one ask. |
| `OrderBook.OrderBook.ReplaceBids` | src/core/order_book.cpp:31-35 | The bids become exactly the non-zero levels, or none at all with an exception if any price is not positive; the asks stay. |
| `OrderBook.OrderBook.ReplaceAsks` | src/core/order_book.cpp:37-41 | The same for the asks. |
| `OrderBook.OrderBook.ClearBook` | src/core/order_book.cpp:43-46 | Both sides become empty. |
| `OrderBook.OrderBook.BestBid` | src/core/order_book.cpp:49-52 | The greatest key of the bid map, if there is one. |
| `OrderBook.OrderBook.BestAsk` | src/core/order_book.cpp:54-57 | The least key of the ask map, if there is one. |
| `OrderBook.OrderBook.TotalBidVolume` | src/core/order_book.cpp:75-79 | The sum of the bid volumes modulo 2^64. |
| `OrderBook.OrderBook.TotalAskVolume` | src/core/order_book.cpp:81-85 | The sum of the ask volumes modulo 2^64. |
| `OrderBook.OrderBook.Imbalance` | src/core/order_book.cpp:87-92 | The signed share of the two totals, zero on an empty book. |
| `OrderBook.Total` | src/core/order_book.cpp:75-85 | The accumulation loop computes the 64-bit wrapped sum. |
| `OrderBook.PutSorted` | src/core/order_book.cpp:18 | Assigning through operator[] keeps the side sorted and updates its map at that key only. |
| `OrderBook.EraseSorted` | src/core/order_book.cpp:16 | Erasing keeps the side sorted and removes that key only. |
| `OrderBook.SideDetermined` | src/core/order_book.cpp:12-57 | A price map has one sorted side only. |
| `OrderBook.PlainPositive` | src/core/order_book.cpp:12-29 | A side holds only positive prices and volumes exactly when its map does. |
| `OrderBook.RunPositive` | src/core/order_book.cpp:12-46 | After any sequence of mutations, rejected ones included, all prices and volumes are positive. |
| `OrderBook.RejectedCalls` | src/core/order_book.cpp:12-41 | Corollary: a rejected single-level call changes nothing, a rejected replacement empties its own side only. |
| `OrderBook.RatioBounds` | src/core/order_book.cpp:87-92 | Imbalance lies in [-1, 1], is 0 exactly when balanced, negative exactly when asks outweigh bids, and 1 or -1 exactly on a one-sided book. |
| `OrderBook.RatioIs` | src/core/order_book.cpp:87-92 | Imbalance times the total volume is the difference of the two sides; an empty book has imbalance 0. |
| `BookBuilder.PopulateBookFromQuote` | src/cli/fincore_cli.cpp:65-87 | Whatever the book held, the two loops leave exactly the derived levels, in order, on each side. |
| `BookBuilder.SurvivingBids` | src/cli/fincore_cli.cpp:70-77 | A level is among the bids exactly when it is one of the five with positive price and volume. |
| `BookBuilder.SurvivingAsks` | src/cli/fincore_cli.cpp:79-86 | The same for the asks. |
| `BookBuilder.BidsInNumbers` | src/cli/fincore_cli.cpp:65-87 | A level is a bid if and only if for some k from 1 to 5 its price is the quoted one less k hundredths and positive, and its volume a tenth of the quoted volume over k, rounded down, and positive. |
| `BookBuilder.AsksInNumbers` | src/cli/fincore_cli.cpp:65-87 | The same for the asks, k hundredths above the quoted price. |
| `BookBuilder.FullBook` | src/cli/fincore_cli.cpp:65-87 | The ten levels written out for a price above five hundredths and a volume of fifty or more. |
| `BookBuilder.Uncrossed` | src/cli/fincore_cli.cpp:65-87 | Every bid lies below the quoted price and every ask above it. |
| `BookBuilder.VolumeShare` | src/cli/fincore_cli.cpp:70-86 | Neither side holds more than 137/600 of the quoted volume. |
| `BookBuilder.FullAsks` | src/cli/fincore_cli.cpp:79-86 | For a positive price no ask level is dropped for its price. |
| `BookBuilder.TotalsFit` | src/cli/fincore_cli.cpp:23-34 | Neither total wraps, and if the quoted volume fits the fixed-point decimal so do both totals. |
| `BookBuilder.DerivedImbalance` | src/core/order_book.cpp:87-92 | The imbalance of a derived book lies in [-1, 0] and is 0 exactly when no bid level of positive volume was dropped against a kept ask. |
| `BookBuilder.BestDerivedBid` | src/cli/fincore_cli.cpp:70-77 | There is a best bid, one tick below the price, exactly when the price exceeds a tick and the volume reaches ten. |
| `BookBuilder.BestDerivedAsk` | src/cli/fincore_cli.cpp:79-86 | For a positive price there is a best ask, one tick above it, exactly when the volume reaches ten. |
| `BookBuilder.BidsApart` | src/cli/fincore_cli.cpp:70-77 | Any two bids are at least one tick apart. |
| `BookBuilder.AsksApart` | src/cli/fincore_cli.cpp:79-86 | Any two asks are at least one tick apart. |
| `Percentile.OrderIndependent` | src/cli/process_metrics.cpp:65-86 | The percentile does not depend on the order of the samples. |
| `Percentile.OrderStatistic` | src/cli/process_metrics.cpp:72-78 | At p = k/(n-1) it is the k-th order statistic. |
| `Percentile.LinearBetween` | src/cli/process_metrics.cpp:72-85 | Between two order statistics it is the whole number nearest to the point on the line between them, of two the one farther from zero; of no samples it is 0. |
| `Percentile.BetweenNeighbours` | src/cli/process_metrics.cpp:72-85 | Rounded, it still lies between the two neighbouring order statistics. |
| `Percentile.PercentileMonotone` | src/cli/process_metrics.cpp:65-86 | It does not fall as p grows. |
| `Percentile.PrintedLineOrdered` | src/cli/process_metrics.cpp:170-187 | min <= p50 <= p95 <= p99 <= max on every printed line. |
| `SessionStats.SessionStats.constructor` | include/cli/process_metrics.hpp:84-110 | Fresh statistics describe the empty log. |
| `SessionStats.SessionStats.Record` | src/cli/process_metrics.cpp:191-251 | Recording appends the operation to the log that all counters, series and resource figures describe. |
| `SessionStats.SessionStats.RecordCounters` | src/cli/process_metrics.cpp:192-230 | All eleven counters move to those of the extended log. |
| `SessionStats.CountersSpelledOut` | src/cli/process_metrics.cpp:192-230 | What one more record does to each of the eleven counters, by the fields of the record. |
| `SessionStats.SessionStats.RecordSeries` | src/cli/process_metrics.cpp:232-244 | All eight series move to those of the extended log. |
| `SessionStats.SeriesSpelledOut` | src/cli/process_metrics.cpp:192-230 | What one more record appends to each of the eight series, by the fields of the record. |
| `SessionStats.SessionStats.RecordResources` | src/cli/process_metrics.cpp:246-250 | CPU sums, last and peak memory and the last record move to those of the extended log. |
| `SessionStats.SessionStats.Reset` | src/cli/process_metrics.cpp:253-278 | After a reset everything describes the empty log. |
| `SessionStats.SeriesLengths` | src/cli/process_metrics.cpp:191-244 | For any log, attempts = successes + failures = total samples, and each series has one sample per event of its hit, miss, ok and failed counters. |
| `SessionStats.ApiSamplesInterleave` | src/cli/process_metrics.cpp:232-240 | The API samples are an interleaving of the cached and the external ones. |
| `SessionStats.FetchBits` | src/cli/fincore_cli.cpp:541-648 | The conservation laws for a single fetch. |
| `SessionStats.Conservation` | src/cli/fincore_cli.cpp:541-648 | Over any log of fetches: API calls <= Redis misses, quote writes <= API calls, book builds = Redis hits + quote writes, book writes <= book builds, successes <= successful book writes. |
| `FixedText.StodFixed` | src/storage/redis_client.cpp:44-48 | Reading a printed double gives it rounded to the printed places. |
| `FixedText.SettleIdempotent` | src/storage/redis_client.cpp:44-48 | A number already rounded to those places is printed without loss. |
| `FixedText.SettleNearest` | src/storage/redis_client.cpp:44-48 | A printed double is the nearest multiple of 10^-places, of two the one with an even last digit. |
| `FixedText.StoullText` | src/storage/redis_client.cpp:91-96 | Every 64-bit volume survives its text. |
| `FixedText.StollExactly` | src/storage/persistence/postgres/postgres_market_data_repository.cpp:44-52 | A printed integer reads back exactly when it fits 64 bits, and is refused otherwise. |
| `FixedText.DecimalFromExactly` | src/cli/fincore_cli.cpp:23-30 | A double becomes the nearest multiple of 10^-8 exactly when that fits, and is out of range otherwise. |
| `FixedText.DecimalFromVolumeExactly` | src/cli/fincore_cli.cpp:32-34 | A volume converts exactly when its count of 10^-8 units fits. |
| `AlphaVantage.AlphaVantageClient.GetQuoteFresh` | src/api/alpha_vantage_client.cpp:42-65 | Only a parsed answer is cached, stamped with its time; the cached flag is cleared. |
| `AlphaVantage.AlphaVantageClient.GetQuote` | src/api/alpha_vantage_client.cpp:67-88 | A live entry is served and flagged; otherwise the source is asked. |
| `AlphaVantage.OnlyAnswersAreCached` | src/api/alpha_vantage_client.cpp:42-65 | Corollary: failed fetches are never cached and no other entry is ever disturbed. |
| `AlphaVantage.AskedExactlyWhenStale` | src/api/alpha_vantage_client.cpp:76-87 | Corollary: the source is asked exactly when there is no entry younger than the time to live. |
| `AlphaVantage.LookupOutcomes` | src/api/alpha_vantage_client.cpp:42-85 | Every outcome of a look-up: the flag is set exactly when a live entry is served, and cleared by a failed fetch. |
| `RedisStore.RedisClient.GetQuote` | src/storage/redis_client.cpp:74-125 | A visible, readable and valid hash is served, anything else is a miss; the store is not changed, so no lifetime is extended. |
| `RedisStore.RedisClient.StoreQuote` | src/storage/redis_client.cpp:39-72 | Hash, expiry and history after any number of successful commands, and the reported or escaping failure. |
| `RedisStore.RedisClient.UpdateOrderBook` | src/storage/redis_client.cpp:153-177 | Both side hashes and the time stamp after any number of successful commands, and the reported or escaping failure. |
| `RedisStore.StoreIsItsCommands` | src/storage/redis_client.cpp:55-65 | After any number of successes, quote hash, expiry and history are those after as many of HMSET, EXPIRE, LPUSH and LTRIM 0 999, carried out one by one. |
| `RedisStore.BookWriteIsItsCommands` | src/storage/redis_client.cpp:160-170 | The same for the order-book keys: two DEL, one HSET per bid and per ask, and the time stamp last. |
| `RedisStore.WriteSide` | src/storage/redis_client.cpp:163-167 | The HSET loop writes the accepted prefix of the levels. |
| `RedisStore.FieldsRoundTrip` | src/storage/redis_client.cpp:44-118 | Writing and reading a quote settles its five prices to six decimals and keeps volume, source and timestamp. |
| `RedisStore.ReadExactly` | src/storage/redis_client.cpp:74-125 | A hash is served if and only if it is not empty and its numbers, zero where missing or unreadable, have a positive price, no negative open, and a high of zero or not below the low. |
| `RedisStore.StoreThenGet` | src/storage/redis_client.cpp:44-120 | The settled quote comes back exactly when it is still valid. |
| `RedisStore.SecondTripIsIdentity` | src/storage/redis_client.cpp:44-120 | A second trip loses nothing more. |
| `RedisStore.HistoryIsNewest` | src/storage/redis_client.cpp:58-65 | Whatever failed, the history is the newest part of what was pushed; after a complete store it is the newest min(n, 1000), newest first. |
| `RedisStore.EntryReadsBack` | src/storage/redis_client.cpp:59-62 | A history entry is timestamp, price and volume in this order between colons, and each part reads back as its number, the price at six decimals. |
| `RedisStore.BookHashMirrors` | src/storage/redis_client.cpp:163-167 | A side whose prices print apart becomes a hash with one field per level holding its volume, and no other field. |
| `QuoteFlow.StepTraced` | src/cli/fincore_cli.cpp:541-578 | Every sound step keeps each cached quote traced to an answer of the source, each hash within the bound, and the client at least as new as the hash. |
| `QuoteFlow.ServedExactly` | src/cli/fincore_cli.cpp:541-568 | Which tier serves a fetch, with which quote and at which instant, when the source is asked and what it answers, and when nothing is served, by the state of the caches and the behaviour of the services. |
| `QuoteFlow.RunTraced` | src/cli/fincore_cli.cpp:541-578 | So does every run. |
| `QuoteFlow.StalenessBound` | src/cli/fincore_cli.cpp:541-578 | Over every run from empty caches in which no EXPIRE is lost after an HMSET that made a new hash, a served quote came from the source less than client TTL + Redis TTL + call duration ago. |
| `QuoteFlow.LostExpireServesForever` | src/storage/redis_client.cpp:55-56 | If one EXPIRE is lost after its HMSET, the quote is served at any later age. |
| `QuoteFlow.StalenessExactly` | src/storage/redis_client.cpp:55-56 | The bound holds over all runs if and only if no store can stop between HMSET and EXPIRE. |
| `QuoteFlow.FreshExactly` | src/storage/redis_client.cpp:55-56 | Store by store: one more step leaves everything fresh for good if and only if it does not lose the EXPIRE of a new hash holding a quote that can be served; on a live hash a lost EXPIRE is harmless. |
| `QuoteFlow.LostExpireTurnsStale` | src/storage/redis_client.cpp:55-56 | After such a loss some later fetch breaks the bound. |
| `QuoteFlow.AnswersArePast` | src/api/alpha_vantage_client.cpp:60-63 | No answer is newer than the run. |
| `QuoteFlow.LifetimesAddUp` | src/cli/fincore_cli.cpp:571-578 | The two lifetimes do add up: a run whose served quote is two ticks below the bound. |
| `QuoteFlow.ClientLimitsAsks` | src/api/alpha_vantage_client.cpp:76-87 | While the client holds an answer, no fetch asks the source before its time to live ends. |
| `QuoteFlow.RedisLimitsAsks` | src/cli/fincore_cli.cpp:543-555 | While Redis holds a readable hash and reads work, no fetch asks the source before its expiry. |
| `QuoteFlow.NextAskIsLater` | src/cli/fincore_cli.cpp:543-578 | After a stored answer the next question for the symbol comes only when the client lifetime has passed and, if Redis reads work meanwhile, the Redis lifetime too, in every run. |
| `QuoteFlow.StoredIsReadable` | src/storage/redis_client.cpp:55-56 | A completed HMSET and EXPIRE leave the quote readable until the deadline, whatever the hash held. |
| `Database.PgConnection.Begin` | src/storage/persistence/postgres/pg_connection.cpp:275-279 | BEGIN opens a block on what was visible, or fails without changing committed data. |
| `Database.PgConnection.ExecutePrepared` | src/storage/persistence/postgres/pg_connection.cpp:236-247 | A statement takes effect inside the block or aborts it. |
| `Database.PgConnection.Commit` | src/storage/persistence/postgres/pg_connection.cpp:292-302 | COMMIT publishes the block, or leaves committed data alone unless the server acted before the failure. |
| `Database.PgConnection.Rollback` | src/storage/persistence/postgres/pg_connection.cpp:281-290 | ROLLBACK discards the block unless it is refused. |
| `Database.PgTransaction.Commit` | src/storage/persistence/postgres/pg_connection.cpp:292-302 | The scope is inactive exactly after a reported commit. |
| `Database.PgTransaction.Destroy` | src/storage/persistence/postgres/pg_connection.cpp:281-290 | The destructor rolls back an active scope only, and swallows a failing ROLLBACK. |
| `Database.BatchAppendsKept` | src/storage/persistence/postgres/postgres_market_data_repository.cpp:112-147 | A batch that succeeds appends exactly its kept rows and counts them. |
| `Database.KeptCount` | src/storage/persistence/postgres/postgres_market_data_repository.cpp:112-147 | Inserted = distinct batch keys not present before + rows without a key, so ticks without trade id always insert. |
| `Database.ConflictsExactly` | migration/schema.sql:77-152 | A row conflicts if and only if a stored row of its table agrees on symbol, source and instant; for ticks on source, symbol and a trade id both have; for indicators also on name and parameters. |
| `Database.ExecuteExactly` | src/storage/persistence/postgres/postgres_market_data_repository.cpp:112-147 | An insert is carried out if and only if its texts make a row that conflicts or whose instrument and source are known; it adds that row and counts one, or nothing. |
| `Database.KeptKeys` | src/storage/persistence/postgres/postgres_market_data_repository.cpp:112-147 | The keys a batch adds are exactly its new ones. |
| `Database.KeptAtMost` | include/storage/persistance/market_data_repository.hpp:13-21 | No more rows are inserted than attempted. |
| `Database.KeysStayUnique` | migration/schema.sql:66-113 | Keys stay unique. |
| `Database.FirstRowWins` | src/storage/persistence/postgres/postgres_market_data_repository.cpp:120 | A present key keeps its row, a new one gets the first row offered. |
| `Database.SecondInsertKeepsNothing` | src/storage/persistence/postgres/postgres_market_data_repository.cpp:112-147 | Keyed rows offered again are all dropped. |
| `Repository.PostgresMarketDataRepository.InsertBatch` | src/storage/persistence/postgres/postgres_market_data_repository.cpp:217-238 | All or nothing on every path: BEGIN, any statement, COMMIT or the connection failing at any point; the count is exact; no block stays open unless ROLLBACK is refused or the client fails right after BEGIN. |
| `Repository.PostgresMarketDataRepository.InsertQuotes` | src/storage/persistence/postgres/postgres_market_data_repository.cpp:211-239 | The same behind validation of the whole batch: an invalid quote anywhere leaves everything unchanged. |
| `Repository.PostgresMarketDataRepository.InsertTicks` | src/storage/persistence/postgres/postgres_market_data_repository.cpp:241-267 | The same for ticks. |
| `Repository.PostgresMarketDataRepository.InsertOrderBookSnapshots` | src/storage/persistence/postgres/postgres_market_data_repository.cpp:269-296 | The same for snapshots. |
| `Repository.PostgresMarketDataRepository.InsertTechnicalIndicators` | src/storage/persistence/postgres/postgres_market_data_repository.cpp:298-323 | The same for technical indicators. |
| `Repository.PostgresMarketDataRepository.LatestQuote` | src/storage/persistence/postgres/postgres_market_data_repository.cpp:325-349 | The newest visible row of the pair, as the names arrive, decoded, or none; an exception if the query fails. |
| `Repository.DecodeRow` | src/storage/persistence/postgres/postgres_market_data_repository.cpp:336-348 | Column by column, a row reads back as its quote, or throws if a number does not fit. |
| `Repository.ReadBack` | src/storage/persistence/postgres/postgres_market_data_repository.cpp:340-346 | A NUMERIC text parses to its count of 10^-8 exactly when that fits an int64. |
| `Repository.ValidQuoteMeetsSchema` | src/domain/validation.cpp:69-76 | Every validated quote passes the widths and checks of its table and is stored exactly, but for the floored timestamp. |
| `Repository.SchemaTakesValidQuotes` | migration/schema.sql:66-86 | For valid names the table takes exactly the quotes validation takes. |
| `Repository.ValidSnapshotMeetsSchema` | src/domain/validation.cpp:86-96 | The same for snapshots. |
| `Repository.SchemaTakesValidSnapshots` | migration/schema.sql:115-140 | For valid names the table takes exactly the snapshots validation takes. |
| `Repository.ValidTickMeetsSchema` | src/domain/validation.cpp:78-84 | In a UTF-8 database a validated tick is stored exactly when the part of its trade id before the first NUL, if it has an id, is UTF-8 and not all blanks; and with its own id exactly when that has no NUL. |
| `Repository.SchemaTakesValidTicks` | migration/schema.sql:90-108 | For valid names, and an id of at most 64 bytes that is UTF-8, without NUL and not all blanks, the table takes exactly the ticks validation takes. |
| `Repository.SequencesExactly` | migration/schema.sql:94-107 | UTF-8 sequences count as one character; stray and missing continuation bytes, overlong forms, surrogates and code points beyond U+10FFFF are refused. |
| `Repository.RefusedTradeIds` | migration/schema.sql:94-107 | For every validated tick, the ids blank, NUL followed by x, and byte 0xFF pass validation and are refused. |
| `Repository.CutIdsCollide` | src/storage/persistence/postgres/pg_connection.cpp:36-44 | Two ticks whose ids agree up to a NUL are stored as one. |
| `Repository.ValidIndicatorMeetsSchema` | src/domain/validation.cpp:98-104 | A validated indicator is storable exactly when the server reads what arrives of its parameters as a JSON object that the index of its key can hold. |
| `Repository.SchemaTakesValidIndicators` | migration/schema.sql:142-164 | For valid names and an object as parameters, the table takes exactly the indicators validation takes. |
| `Repository.ParametersTellApart` | src/storage/persistence/postgres/postgres_market_data_repository.cpp:298-323 | Two indicators that differ in their parameters only are both stored if the server reads different objects, and only the first if it reads the same one. |
| `Repository.NameCharacters` | src/domain/validation.cpp:12-32 | Names are valid if and only if they have 1 to 16 and 1 to 20 characters out of capitals, digits and the listed punctuation. |
| `Repository.ValidNamesTravel` | src/domain/validation.cpp:27-32 | Valid names reach the server unabridged and are capitals already. |
| `Repository.RefusedParameters` | src/domain/validation.cpp:103 | Parameters that the server reads as no such object, say an array, pass validation and are refused. |
| `Repository.SummaryIsExact` | src/storage/persistence/postgres/postgres_market_data_repository.cpp:211-267 | Inserted is the growth of the table and the number of new keys plus keyless rows, and duplicates() does not underflow. |
| `Repository.ReinsertIsIdempotent` | src/storage/persistence/postgres/postgres_market_data_repository.cpp:112-147 | Repeating a committed batch of keyed rows changes nothing and reports only duplicates. |
| `Repository.LatestIsNewest` | src/storage/persistence/postgres/postgres_market_data_repository.cpp:175-178 | The selected row has the greatest timestamp of its symbol and source, and is missing exactly when there is none. |
| `Repository.StoredQuoteReadsBack` | src/storage/persistence/postgres/postgres_market_data_repository.cpp:336-348 | Corollary: a stored quote reads back exactly, but for the timestamp floored to microseconds. |
| `Repository.DecodedColumns` | src/storage/persistence/postgres/postgres_market_data_repository.cpp:336-348 | A row reads back as a quote if and only if they agree column by column. |
| `Repository.BatchesAreOne` | src/storage/persistence/postgres/postgres_market_data_repository.cpp:211-239 | Committing batches of any kind one after another leaves what committing them as one batch leaves. |
| `Repository.LatestIgnoresDuplicates` | src/storage/persistence/postgres/postgres_market_data_repository.cpp:120 | Rows dropped for their key never would have been the latest quote. |
| `Repository.LatestAfterBatches` | src/storage/persistence/postgres/postgres_market_data_repository.cpp:325-349 | Whatever the tables held and whatever batches of quotes, ticks, snapshots and indicators were committed, the latest quote is the newest of the rows present before and those offered since, the earliest of them if several share its timestamp. |
| `Repository.NewestOfferedReadsBack` | src/storage/persistence/postgres/postgres_market_data_repository.cpp:325-349 | A validated quote offered in any of those batches and newer than all others of its pair is what latest_quote returns, but for the floored timestamp. |
| `Persistence.ConvertQuote` | src/cli/fincore_cli.cpp:137-147 | The cached quote becomes the domain quote, or is out of range exactly when one of its numbers does not fit; what its fields are is `QuoteRowStored`. |
| `Persistence.ConvertSnapshot` | src/cli/fincore_cli.cpp:151-161 | The same for the snapshot. |
| `Persistence.QuoteRowStored` | src/cli/fincore_cli.cpp:137-150 | Which quotes are stored, and the row written: each column from the quote's own field, prices as their nearest count of 10^-8. |
| `Persistence.SnapshotRowStored` | src/cli/fincore_cli.cpp:151-164 | The same for snapshots. |
| `Persistence.DerivedRow` | src/cli/fincore_cli.cpp:601-606 | The row written for a derived book: one tick on either side of the price, the ask volume in five parts of a tenth, and balance when the price exceeds five ticks. |
| `Persistence.PersistQuote` | src/cli/fincore_cli.cpp:137-150 | The committed tables stay or become exactly those with the row inserted; the callback returns true with the row stored or throws, never false, and succeeds when nothing disturbs an insert the server takes; the exception says whether a number was out of range, validation failed, or the database did. |
| `Persistence.PersistSnapshot` | src/cli/fincore_cli.cpp:151-164 | The same for the snapshot callback. |
| `Persistence.OneRowStored` | src/cli/fincore_cli.cpp:148-149 | A one-row batch counts one insert or one duplicate, and its key is stored either way. |
| `Persistence.StaysStored` | src/cli/fincore_cli.cpp:604-606 | The second callback does not lose the row of the first. |
| `Persistence.DerivedSnapshotValid` | src/domain/validation.cpp:86-96 | A derived book can be stored if and only if the names are valid, the volume reaches ten, the price less a tick rounds to a positive decimal, and the best ask and the ask volume convert. |
| `Persistence.PersistableBook` | src/domain/validation.cpp:88-89 | Corollary: whatever the price, only a volume of ten or more and a price above a tick give a storable snapshot. |
| `Persistence.ThinQuote` | src/cli/fincore_cli.cpp:151-164 | A quote of nine units converts and validates, and its snapshot does not. |
| `Persistence.QuoteIsAccepted` | migration/schema.sql:78-85 | A converted quote is taken exactly when its instrument and source are registered. |
| `Persistence.SnapshotIsAccepted` | migration/schema.sql:131-139 | The same for a snapshot. |
| `FinCoreCli.FinCoreCli.constructor` | src/cli/fincore_cli.cpp:183-197 | Once the names have passed: one empty book per distinct upper-cased symbol and no others, none of them with data, and empty statistics. |
| `FinCoreCli.FinCoreCli.Create` | include/core/order_book.hpp:22-25 | Construction fails exactly when a configured name is empty; otherwise it gives empty books for the configured symbols only. |
| `FinCoreCli.FinCoreCli.MakeBooks` | src/cli/fincore_cli.cpp:193-196 | The loop gives every upper-cased name an empty book and no other symbol one, and different symbols different books. |
| `FinCoreCli.FinCoreCli.ObtainQuote` | src/cli/fincore_cli.cpp:542-569 | The search agrees with the timed machine on the quote, the client cache, the exception and the measurements. |
| `FinCoreCli.FinCoreCli.StoreAndBuild` | src/cli/fincore_cli.cpp:571-586 | The quote is written to Redis only on a miss, and the book is rebuilt unless that write throws. |
| `FinCoreCli.FinCoreCli.BuildBook` | src/cli/fincore_cli.cpp:580-586 | Rebuilding one book keeps every other book that of its own last quote. |
| `FinCoreCli.FinCoreCli.WriteOut` | src/cli/fincore_cli.cpp:588-611 | The order-book keys and the database after the later stages, transaction by transaction, and the exact success flag. |
| `FinCoreCli.FinCoreCli.Persist` | src/cli/fincore_cli.cpp:602-606 | The database is one of three: unchanged, with the quote, with both; with the quote at least once its transaction commits, and with both when the stage ends well. |
| `FinCoreCli.FinCoreCli.UseQuote` | src/cli/fincore_cli.cpp:569-611 | The stages after the search taken together. |
| `FinCoreCli.FinCoreCli.RunStages` | src/cli/fincore_cli.cpp:541-648 | The whole try block taken together. |
| `FinCoreCli.FinCoreCli.FetchSymbol` | src/cli/fincore_cli.cpp:524-649 | Whatever any service does: one exact record per configured symbol; client cache, Redis hash, history, order-book keys, book, database and result as specified; every symbol with data holds the book of the last quote built for it; nothing changes for an unknown symbol. |
| `FinCoreCli.FinCoreCli.Finish` | src/cli/fincore_cli.cpp:612-614 | Every way out of a fetch adds exactly one record. |
| `FinCoreCli.FinCoreCli.ResetStats` | src/cli/fincore_cli.cpp:512-518 | A reset empties the statistics only. |
| `FinCoreCli.FinCoreCli.HandleBook` | src/cli/fincore_cli.cpp:334-358 | A snapshot is shown only for a symbol with data, and is that of the last built quote. |
| `FinCoreCli.TierFacts` | src/cli/fincore_cli.cpp:541-578 | A hit needs a Redis read, another served quote an answering client, and only the latter writes the hash. |
| `FinCoreCli.RecordIsShaped` | src/cli/fincore_cli.cpp:541-648 | The record of a fetch, however it ends, has the shape the conservation laws need. |
| `FinCoreCli.RecordInNumbers` | src/cli/fincore_cli.cpp:538-614 | The record measurement by measurement: which stages were timed, with which duration, and what became of them. |
| `FinCoreCli.FetchEnds` | src/cli/fincore_cli.cpp:541-649 | How a fetch ends, by what each service did in turn: an exception, no quote, or whether both Redis writes were complete. |
| `FinCoreCli.FetchedRows` | src/cli/fincore_cli.cpp:601-606 | The rows a fetch writes: the quote under its own instant, the book under that of its snapshot and the source of the quote. |
| `FinCoreCli.AnyCasing` | src/cli/fincore_cli.cpp:687-693 | A command takes a symbol in any casing: exactly the configured symbols are found, each as the same symbol. |
| `FinCoreCli.CopyAscends` | src/cli/fincore_cli.cpp:588-591 | The copy of the bids holds the same levels, lowest price first. |
| `FinCoreCli.SessionLaws` | src/cli/process_metrics.cpp:191-278 | In every reachable state of the command line the statistics obey all the laws above. |
| `FinCoreCli.BooksMirrored` | src/storage/redis_client.cpp:163-170 | A completed book write leaves the side hashes with exactly the derived levels. |
| `FinCoreCli.SuccessfulFetch` | src/cli/fincore_cli.cpp:608-611 | A reported success has the quote in Redis, a complete book write and both rows in PostgreSQL, and with a repository needs a volume of ten and a price above a tick. |
| `FinCoreCli.FetchSucceeds` | src/cli/fincore_cli.cpp:608-611 | Conversely, complete Redis writes and an undisturbed database that takes both rows make the fetch succeed. |
| `FinCoreCli.BothStored` | src/cli/fincore_cli.cpp:602-606 | The quote row is stored whenever its own transaction commits, both rows whenever the stage ends well. |
| `FinCoreCli.QuoteWithoutSnapshot` | src/cli/fincore_cli.cpp:604-606 | The two writes are not atomic together: on an undisturbed server that knows the names the quote is stored in any case, and the stage ends well if and only if the volume reaches ten and the prices a tick below and above convert and stay positive. |
| `CliSession.RunCommand` | src/cli/fincore_cli.cpp:212-216 | One command moves caches, histories, order-book keys and books as one step of the timed machine does, the database as its fetch says, and the statistics by its record; a reset clears these. |
| `CliSession.RunCommands` | src/cli/fincore_cli.cpp:199-220 | A whole session, exceptions caught, leaves caches, histories, order-book keys and books of the corresponding run of the timed machine, and the records of its fetches since the last reset; and if it starts outside a block and no ROLLBACK is refused, it ends outside one, having carried out per fetch nothing, the quote, or the quote and the snapshot, and nothing else: both after a success, at least the quote when nothing disturbs an insert the server takes, and success when nothing disturbs both. |
| `CliSession.FetchAll` | src/cli/fincore_cli.cpp:651-667 | The state left is that of fetching the first n configured symbols in order, one record each; an exception ends the loop if and only if the n-th fetch threw it, after at least one; otherwise all were fetched and the answer counts exactly the successful ones, 0 for no symbols. |
| `CliSession.SuccessesServe` | src/cli/fincore_cli.cpp:608-611 | Every successful fetch of a session served a quote. |
| `CliSession.OneMoreCommand` | src/cli/fincore_cli.cpp:204-217 | The run grows by one step per fetch of a configured symbol. |
| `CliSession.SessionServesFresh` | src/cli/fincore_cli.cpp:199-220 | Whatever a session of timely fetches serves, without an EXPIRE lost on a new hash, came from the source less than client TTL + Redis TTL + call duration before. |
| `CliSession.BooksAreFresh` | src/cli/fincore_cli.cpp:580-586 | Every book with data is that of a quote some command of the session served, within that bound. |
| `CliSession.SessionAsksLater` | src/cli/fincore_cli.cpp:543-578 | After a command stored an answer, the session asks the source for that symbol again only once the client lifetime has passed and, if Redis reads work meanwhile, the Redis lifetime too. |
| `CliSession.SessionGrows` | src/cli/fincore_cli.cpp:602-606 | Over a session committed rows only grow, each new one being the row of an insert its fetches carried out. |
| `CliSession.SessionLatest` | src/storage/persistence/postgres/postgres_market_data_repository.cpp:325-349 | A quote a fetch inserted, newer than all others of its pair, is what latest_quote returns after the session. |
| `CliSession.SessionLatestFetched` | src/storage/persistence/postgres/postgres_market_data_repository.cpp:325-349 | The same from the cached quote: if a fetch built it and its row was inserted and is the newest of its pair, latest_quote returns its names, its prices at eight decimals and its volume. |
| `CliSession.SessionHistory` | src/storage/redis_client.cpp:58-65 | From an empty history a session leaves the newest part of what it pushed for each symbol. |
| `CliSession.Carried` | src/cli/fincore_cli.cpp:602-606 | The statements one fetch carried out account for the tables it leaves. |

## Left out

- libcurl, URL building and JSON extraction: one exchange with the source is an oracle that throws, answers nothing, answers something unparsable, or yields a quote.
- libpq and redis-plus-plus internals, connection set-up, moves and closing, environment variables, SQLSTATE texts.
- `upsert_instrument` and `upsert_data_source`: single statements outside any transaction; the registered instruments and sources are given.
- Page faults and context switches, which the statistics carry in the last record only.
- The generated columns of the snapshot table, and ON DELETE and update triggers, which no modelled statement reaches.
- PostgreSQL's reading of a JSON text: an oracle attached to the text, which says whether it is refused (no JSON in the encoding, or too large for the index of the key), is no object, or is an object with which jsonb value.
- Database encodings other than UTF-8, and client encodings other than the database's.
- `store_tick` and the tick stream: two unconditional writes.
- A lost reply to the last command of a Redis call: it reports a failure although every command took effect; the state it leaves is covered, the report is not.
- Expiry of the hash between the commands of one store: a call's Redis commands share one instant.
- IEEE double behaviour: NaN, infinities (`decimal_from` refuses both), and rounding of `price - level * tick`.
- FixedText.StodFixed: `std::stod` is modelled on plain decimal literals of at most eight places, the only ones the modelled writers produce; hashes written by others in exponent or hexadecimal form are not covered.
- SessionStats.SessionStats.Record: counters are unbounded, so wrap-around after 2^64 records is not modelled; the members are grouped into records by kind.
- Timestamp.ParseAcceptsExactly: `std::get_time` is that of libstdc++ 12 in the classic locale; other libraries extract short fields differently.
- Timestamp.CheckedFields: wrap-around of clock arithmetic is what compilers produce, not what C++ promises.
- Percentile.BetweenNeighbours: p and the interpolation are exact; the int64 difference of two samples is assumed not to overflow, which durations are far from.
- RedisStore.RedisClient.UpdateOrderBook: concurrent readers seeing a half-written book; the model has the states but no second client.
- FinCoreCli.FinCoreCli.FetchSymbol: printing, the process and clock readings themselves (their values are parameters), and exceptions of the output stream.
- CliSession.FetchAll: the connection warning and the printed failure count.
- CliSession.RunCommands: a batch over all symbols is no command of its own in a session; `CliSession.FetchAll` states which fetches it amounts to.
- RedisStore.RedisClient.constructor: requires a positive lifetime, where the source throws.
- Command parsing and dispatch, `lookup`, `watch` and `poll`, help and other texts; mid price and spread; `remove_zero_levels`, which nothing calls.
- `PostgresCli::run`: argument counting and the mapping of exceptions to exit codes.

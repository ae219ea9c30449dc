/** The market data client: an in-process cache with a time to live in front of an external source.
    Times are readings of the steady clock. */
module AlphaVantage {
  import opened Common
  import opened Quotes

  // One exchange with the external source, from the request to the parsed answer.
  datatype Fetch = Throws | NoBody | Unparsable | Got(quote: Quote)

  datatype CacheEntry = CacheEntry(quote: Quote, fetchedAt: int)

  type Cache = map<Symbol, CacheEntry>

  // What a lookup returns, the cache it leaves, and whether the source was asked.
  datatype Lookup = Lookup(cache: Cache, result: Result<Option<Quote>, Error>, cached: bool, asked: bool)

  function Fresh(cache: Cache, symbol: Symbol, fetch: Fetch, fetchedAt: int): Lookup {
    if symbol == "" then Lookup(cache, Ok(None), false, false)
    else
      match fetch
      case Throws => Lookup(cache, Err(ServiceError), false, true)
      case NoBody => Lookup(cache, Ok(None), false, true)
      case Unparsable => Lookup(cache, Ok(None), false, true)
      case Got(body) =>
        var quote := body.(symbol := symbol);
        Lookup(cache[symbol := CacheEntry(quote, fetchedAt)], Ok(Some(quote)), false, true)
  }

  predicate Live(cache: Cache, ttl: int, symbol: Symbol, now: int) {
    symbol in cache && now - cache[symbol].fetchedAt < ttl
  }

  function Get(cache: Cache, ttl: int, symbol: Symbol, now: int, fetch: Fetch, fetchedAt: int): Lookup {
    if symbol != "" && Live(cache, ttl, symbol, now) then Lookup(cache, Ok(Some(cache[symbol].quote)), true, false)
    else Fresh(cache, symbol, fetch, fetchedAt)
  }

  class AlphaVantageClient {
    const cacheTtl: int
    var cache: Cache
    var lastWasCached: bool

    constructor (cacheTtl: int)
      ensures this.cacheTtl == cacheTtl && cache == map[] && !lastWasCached
    {
      this.cacheTtl := cacheTtl;
      cache, lastWasCached := map[], false;
    }

    method GetQuoteFresh(symbol: Symbol, fetch: Fetch, fetchedAt: int) returns (r: Result<Option<Quote>, Error>)
      modifies this
      ensures var after := Fresh(old(cache), symbol, fetch, fetchedAt);
              cache == after.cache && r == after.result && lastWasCached == after.cached
    {
      lastWasCached := false;
      if symbol == "" {
        return Ok(None);
      }
      match fetch
      case Throws =>
        return Err(ServiceError);
      case NoBody =>
        return Ok(None);
      case Unparsable =>
        return Ok(None);
      case Got(body) =>
        var quote := body.(symbol := symbol);
        cache := cache[symbol := CacheEntry(quote, fetchedAt)];
        return Ok(Some(quote));
    }

    method GetQuote(symbol: Symbol, now: int, fetch: Fetch, fetchedAt: int) returns (r: Result<Option<Quote>, Error>)
      modifies this
      ensures var after := Get(old(cache), cacheTtl, symbol, now, fetch, fetchedAt);
              cache == after.cache && r == after.result && lastWasCached == after.cached
    {
      lastWasCached := false;
      if symbol == "" {
        return Ok(None);
      }
      if symbol in cache {
        var age := now - cache[symbol].fetchedAt;
        if age < cacheTtl {
          lastWasCached := true;
          return Ok(Some(cache[symbol].quote));
        }
      }
      r := GetQuoteFresh(symbol, fetch, fetchedAt);
    }
  }

  // ---- Corollaries of the two definitions ----

  // Only a parsed answer touches the cache, and only at its own symbol: a failed fetch is never cached and
  // never disturbs an entry.
  lemma OnlyAnswersAreCached(cache: Cache, ttl: int, symbol: Symbol, now: int, fetch: Fetch, fetchedAt: int)
    ensures var after := Get(cache, ttl, symbol, now, fetch, fetchedAt);
            && (after.cache != cache ==>
                  && after.asked && fetch.Got?
                  && after.cache == cache[symbol := CacheEntry(fetch.quote.(symbol := symbol), fetchedAt)])
            && (forall s :: s != symbol ==>
                  (s in after.cache <==> s in cache) && (s in cache ==> after.cache[s] == cache[s]))
  {
  }

  // Asking the source again is avoided exactly while an entry is younger than the time to live; with a time
  // to live of zero it never is.
  lemma AskedExactlyWhenStale(cache: Cache, ttl: int, symbol: Symbol, now: int, fetch: Fetch, fetchedAt: int)
    requires symbol != ""
    ensures Get(cache, ttl, symbol, now, fetch, fetchedAt).asked <==>
            symbol !in cache || now >= cache[symbol].fetchedAt + ttl
    ensures !Get(cache, ttl, symbol, now, fetch, fetchedAt).asked ==>
              Get(cache, ttl, symbol, now, fetch, fetchedAt).result == Ok(Some(cache[symbol].quote))
  {
  }

  // ---- Every outcome of a look-up ----

  // The flag says that the answer came out of the cache without asking; a failed fetch clears it.
  lemma LookupOutcomes(cache: Cache, ttl: int, symbol: Symbol, now: int, fetch: Fetch, fetchedAt: int)
    ensures var after := Get(cache, ttl, symbol, now, fetch, fetchedAt);
            && (after.cached <==> symbol != "" && symbol in cache && now - cache[symbol].fetchedAt < ttl)
            && (symbol == "" ==> !after.asked && after.result == Ok(None))
            && (after.cached ==> !after.asked && after.result == Ok(Some(cache[symbol].quote)))
            && (after.asked ==>
                  match fetch
                  case Throws => after.result.Err?
                  case NoBody => after.result == Ok(None)
                  case Unparsable => after.result == Ok(None)
                  case Got(q) =>
                    && after.result.Ok? && after.result.value.Some?
                    && after.result.value.value.symbol == symbol && after.result.value.value.price == q.price
                    && after.result.value.value.volume == q.volume && after.result.value.value.timestamp == q.timestamp
                    && symbol in after.cache && after.cache[symbol].quote == after.result.value.value
                    && after.cache[symbol].fetchedAt == fetchedAt)
  {
  }
}

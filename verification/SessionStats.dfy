/** Aggregate measurements of a session: counters and latency series, one record per operation. */
module SessionStats {
  import opened Common

  datatype ProcessDelta = ProcessDelta(userCpuUs: int, systemCpuUs: int, currentRssKb: int, peakRssKb: int)

  // The measurements of one operation. A stage that was not reached has no duration.
  datatype Metrics = Metrics(
    symbol: string,
    success: bool,
    apiCached: bool,
    redisCacheHit: bool,
    redisQuoteStored: bool,
    redisBookStored: bool,
    apiUs: Option<int>,
    redisReadUs: Option<int>,
    redisQuoteUs: Option<int>,
    bookBuildUs: Option<int>,
    redisBookUs: Option<int>,
    totalUs: int,
    process: ProcessDelta
  )

  // ---- Reference: everything the statistics hold, read off the log of recorded operations ----

  // The things a counter counts.
  datatype Event =
    | Succeeded | Failed | ApiHit | ApiMiss | RedisHit | RedisMiss
    | QuoteStored | QuoteFailed | BookStored | BookFailed

  predicate Happened(e: Event, m: Metrics) {
    match e
    case Succeeded => m.success
    case Failed => !m.success
    case ApiHit => m.apiUs.Some? && m.apiCached
    case ApiMiss => m.apiUs.Some? && !m.apiCached
    case RedisHit => m.redisReadUs.Some? && m.redisCacheHit
    case RedisMiss => m.redisReadUs.Some? && !m.redisCacheHit
    case QuoteStored => m.redisQuoteUs.Some? && m.redisQuoteStored
    case QuoteFailed => m.redisQuoteUs.Some? && !m.redisQuoteStored
    case BookStored => m.redisBookUs.Some? && m.redisBookStored
    case BookFailed => m.redisBookUs.Some? && !m.redisBookStored
  }

  // The durations a series collects.
  datatype Stage = Api | ApiCached | ApiExternal | RedisRead | RedisQuote | BookBuild | RedisBook | TotalTime

  function Duration(st: Stage, m: Metrics): Option<int> {
    match st
    case Api => m.apiUs
    case ApiCached => if m.apiCached then m.apiUs else None
    case ApiExternal => if m.apiCached then None else m.apiUs
    case RedisRead => m.redisReadUs
    case RedisQuote => m.redisQuoteUs
    case BookBuild => m.bookBuildUs
    case RedisBook => m.redisBookUs
    case TotalTime => Some(m.totalUs)
  }

  function Bit(e: Event, m: Metrics): nat {
    if Happened(e, m) then 1 else 0
  }

  function Count(log: seq<Metrics>, e: Event): nat {
    if log == [] then 0 else Count(log[..|log| - 1], e) + Bit(e, log[|log| - 1])
  }

  function Sample(sample: Option<int>): seq<int> {
    if sample.Some? then [sample.value] else []
  }

  function Samples(log: seq<Metrics>, st: Stage): seq<int> {
    if log == [] then [] else Samples(log[..|log| - 1], st) + Sample(Duration(st, log[|log| - 1]))
  }

  lemma CountAppend(log: seq<Metrics>, m: Metrics, e: Event)
    ensures Count(log + [m], e) == Count(log, e) + Bit(e, m)
  {
    assert (log + [m])[..|log|] == log;
  }

  lemma SamplesAppend(log: seq<Metrics>, m: Metrics, st: Stage)
    ensures Samples(log + [m], st) == Samples(log, st) + Sample(Duration(st, m))
  {
    assert (log + [m])[..|log|] == log;
  }

  function UserCpuUs(log: seq<Metrics>): int {
    if log == [] then 0 else UserCpuUs(log[..|log| - 1]) + log[|log| - 1].process.userCpuUs
  }

  function SystemCpuUs(log: seq<Metrics>): int {
    if log == [] then 0 else SystemCpuUs(log[..|log| - 1]) + log[|log| - 1].process.systemCpuUs
  }

  function PeakRss(log: seq<Metrics>): int {
    if log == [] then 0
    else
      var before, last := PeakRss(log[..|log| - 1]), log[|log| - 1].process.peakRssKb;
      if before < last then last else before
  }

  // The scalar and vector members of the statistics, grouped by kind.
  datatype Counters = Counters(
    attempts: nat, successes: nat, failures: nat,
    apiCacheHits: nat, apiCacheMisses: nat, redisCacheHits: nat, redisCacheMisses: nat,
    redisQuoteSuccesses: nat, redisQuoteFailures: nat, redisBookSuccesses: nat, redisBookFailures: nat)

  datatype Series = Series(
    api: seq<int>, redisRead: seq<int>, apiCached: seq<int>, apiExternal: seq<int>,
    redisQuote: seq<int>, bookBuild: seq<int>, redisBook: seq<int>, total: seq<int>)

  function CountersOf(log: seq<Metrics>): Counters {
    Counters(
      |log|, Count(log, Succeeded), Count(log, Failed),
      Count(log, ApiHit), Count(log, ApiMiss), Count(log, RedisHit), Count(log, RedisMiss),
      Count(log, QuoteStored), Count(log, QuoteFailed), Count(log, BookStored), Count(log, BookFailed))
  }

  function SeriesOf(log: seq<Metrics>): Series {
    Series(
      Samples(log, Api), Samples(log, RedisRead), Samples(log, ApiCached), Samples(log, ApiExternal),
      Samples(log, RedisQuote), Samples(log, BookBuild), Samples(log, RedisBook), Samples(log, TotalTime))
  }

  function LastRss(log: seq<Metrics>): int {
    if log == [] then 0 else log[|log| - 1].process.currentRssKb
  }

  function LastRecorded(log: seq<Metrics>): Option<Metrics> {
    if log == [] then None else Some(log[|log| - 1])
  }

  // ---- The statistics object ----

  class SessionStats {
    var counters: Counters
    var series: Series
    var measuredUserCpuUs: int
    var measuredSystemCpuUs: int
    var lastCurrentRssKb: int
    var peakRssKb: int
    var last: Option<Metrics>

    // The operations recorded since construction or the last reset.
    ghost var log: seq<Metrics>

    ghost predicate Valid()
      reads this
    {
      && counters == CountersOf(log)
      && series == SeriesOf(log)
      && measuredUserCpuUs == UserCpuUs(log) && measuredSystemCpuUs == SystemCpuUs(log)
      && lastCurrentRssKb == LastRss(log) && peakRssKb == PeakRss(log)
      && last == LastRecorded(log)
    }

    constructor ()
      ensures Valid() && log == []
    {
      counters := Counters(0, 0, 0, 0, 0, 0, 0, 0, 0, 0, 0);
      series := Series([], [], [], [], [], [], [], []);
      measuredUserCpuUs, measuredSystemCpuUs, lastCurrentRssKb, peakRssKb := 0, 0, 0, 0;
      last := None;
      log := [];
    }

    // Recording an operation extends the log by it and keeps every counter and series in step.
    method Record(m: Metrics)
      requires Valid()
      modifies this
      ensures Valid() && log == old(log) + [m]
    {
      RecordCounters(m);
      RecordSeries(m);
      RecordResources(m);
      log := log + [m];
    }

    method RecordCounters(m: Metrics)
      requires counters == CountersOf(log)
      modifies `counters
      ensures counters == CountersOf(log + [m])
    {
      CountersAppend(log, m);
      RecordOutcome(m);
      RecordApi(m);
      RecordRedisRead(m);
      RecordQuoteWrite(m);
      RecordBookWrite(m);
    }

    method RecordOutcome(m: Metrics)
      modifies `counters
      ensures counters == old(counters).(attempts := old(counters).attempts + 1,
                                         successes := old(counters).successes + Bit(Succeeded, m),
                                         failures := old(counters).failures + Bit(Failed, m))
    {
      counters := counters.(attempts := counters.attempts + 1);
      if m.success {
        counters := counters.(successes := counters.successes + 1);
      } else {
        counters := counters.(failures := counters.failures + 1);
      }
    }

    method RecordApi(m: Metrics)
      modifies `counters
      ensures counters == old(counters).(apiCacheHits := old(counters).apiCacheHits + Bit(ApiHit, m),
                                         apiCacheMisses := old(counters).apiCacheMisses + Bit(ApiMiss, m))
    {
      if m.apiUs.Some? {
        if m.apiCached {
          counters := counters.(apiCacheHits := counters.apiCacheHits + 1);
        } else {
          counters := counters.(apiCacheMisses := counters.apiCacheMisses + 1);
        }
      }
    }

    method RecordRedisRead(m: Metrics)
      modifies `counters
      ensures counters == old(counters).(redisCacheHits := old(counters).redisCacheHits + Bit(RedisHit, m),
                                         redisCacheMisses := old(counters).redisCacheMisses + Bit(RedisMiss, m))
    {
      if m.redisReadUs.Some? {
        if m.redisCacheHit {
          counters := counters.(redisCacheHits := counters.redisCacheHits + 1);
        } else {
          counters := counters.(redisCacheMisses := counters.redisCacheMisses + 1);
        }
      }
    }

    method RecordQuoteWrite(m: Metrics)
      modifies `counters
      ensures counters == old(counters).(redisQuoteSuccesses := old(counters).redisQuoteSuccesses + Bit(QuoteStored, m),
                                         redisQuoteFailures := old(counters).redisQuoteFailures + Bit(QuoteFailed, m))
    {
      if m.redisQuoteUs.Some? {
        if m.redisQuoteStored {
          counters := counters.(redisQuoteSuccesses := counters.redisQuoteSuccesses + 1);
        } else {
          counters := counters.(redisQuoteFailures := counters.redisQuoteFailures + 1);
        }
      }
    }

    method RecordBookWrite(m: Metrics)
      modifies `counters
      ensures counters == old(counters).(redisBookSuccesses := old(counters).redisBookSuccesses + Bit(BookStored, m),
                                         redisBookFailures := old(counters).redisBookFailures + Bit(BookFailed, m))
    {
      if m.redisBookUs.Some? {
        if m.redisBookStored {
          counters := counters.(redisBookSuccesses := counters.redisBookSuccesses + 1);
        } else {
          counters := counters.(redisBookFailures := counters.redisBookFailures + 1);
        }
      }
    }

    method RecordResources(m: Metrics)
      requires measuredUserCpuUs == UserCpuUs(log) && measuredSystemCpuUs == SystemCpuUs(log)
      requires peakRssKb == PeakRss(log)
      modifies `measuredUserCpuUs, `measuredSystemCpuUs, `lastCurrentRssKb, `peakRssKb, `last
      ensures measuredUserCpuUs == UserCpuUs(log + [m]) && measuredSystemCpuUs == SystemCpuUs(log + [m])
      ensures lastCurrentRssKb == LastRss(log + [m]) && peakRssKb == PeakRss(log + [m])
      ensures last == LastRecorded(log + [m])
    {
      hide UserCpuUs, SystemCpuUs, PeakRss, LastRss, LastRecorded;
      ResourcesAppend(log, m);
      measuredUserCpuUs := measuredUserCpuUs + m.process.userCpuUs;
      measuredSystemCpuUs := measuredSystemCpuUs + m.process.systemCpuUs;
      lastCurrentRssKb := m.process.currentRssKb;
      peakRssKb := if peakRssKb < m.process.peakRssKb then m.process.peakRssKb else peakRssKb;
      last := Some(m);
    }

    // The series updates of record.
    method RecordSeries(m: Metrics)
      requires series == SeriesOf(log)
      modifies `series
      ensures series == SeriesOf(log + [m])
    {
      SeriesAppend(log, m);
      var s := series;
      s := s.(api := s.api + Sample(m.apiUs));
      s := s.(redisRead := s.redisRead + Sample(m.redisReadUs));
      if m.apiUs.Some? {
        if m.apiCached {
          s := s.(apiCached := s.apiCached + Sample(m.apiUs));
        } else {
          s := s.(apiExternal := s.apiExternal + Sample(m.apiUs));
        }
      }
      s := s.(redisQuote := s.redisQuote + Sample(m.redisQuoteUs));
      s := s.(bookBuild := s.bookBuild + Sample(m.bookBuildUs));
      s := s.(redisBook := s.redisBook + Sample(m.redisBookUs));
      s := s.(total := s.total + [m.totalUs]);
      series := s;
    }

    method Reset()
      modifies this
      ensures Valid() && log == []
    {
      counters := Counters(0, 0, 0, 0, 0, 0, 0, 0, 0, 0, 0);
      measuredUserCpuUs, measuredSystemCpuUs, lastCurrentRssKb, peakRssKb := 0, 0, 0, 0;
      series := Series([], [], [], [], [], [], [], []);
      last := None;
      log := [];
    }
  }

  lemma ResourcesAppend(log: seq<Metrics>, m: Metrics)
    ensures UserCpuUs(log + [m]) == UserCpuUs(log) + m.process.userCpuUs
    ensures SystemCpuUs(log + [m]) == SystemCpuUs(log) + m.process.systemCpuUs
    ensures PeakRss(log + [m]) == if PeakRss(log) < m.process.peakRssKb then m.process.peakRssKb else PeakRss(log)
    ensures LastRss(log + [m]) == m.process.currentRssKb && LastRecorded(log + [m]) == Some(m)
  {
    assert (log + [m])[..|log|] == log;
  }

  lemma CountersAppend(log: seq<Metrics>, m: Metrics)
    ensures var c := CountersOf(log);
            CountersOf(log + [m]) == Counters(
              c.attempts + 1, c.successes + Bit(Succeeded, m), c.failures + Bit(Failed, m),
              c.apiCacheHits + Bit(ApiHit, m), c.apiCacheMisses + Bit(ApiMiss, m),
              c.redisCacheHits + Bit(RedisHit, m), c.redisCacheMisses + Bit(RedisMiss, m),
              c.redisQuoteSuccesses + Bit(QuoteStored, m), c.redisQuoteFailures + Bit(QuoteFailed, m),
              c.redisBookSuccesses + Bit(BookStored, m), c.redisBookFailures + Bit(BookFailed, m))
  {
    forall e: Event { CountAppend(log, m, e); }
  }

  lemma SeriesAppend(log: seq<Metrics>, m: Metrics)
    ensures var s := SeriesOf(log);
            SeriesOf(log + [m]) == Series(
              s.api + Sample(m.apiUs), s.redisRead + Sample(m.redisReadUs),
              s.apiCached + Sample(Duration(ApiCached, m)), s.apiExternal + Sample(Duration(ApiExternal, m)),
              s.redisQuote + Sample(m.redisQuoteUs), s.bookBuild + Sample(m.bookBuildUs),
              s.redisBook + Sample(m.redisBookUs), s.total + [m.totalUs])
  {
    forall st: Stage { SamplesAppend(log, m, st); }
  }

  // ---- Main results ----

  // What one more record does to each counter, by its own fields.
  lemma CountersSpelledOut(log: seq<Metrics>, m: Metrics)
    ensures CountersOf([]) == Counters(0, 0, 0, 0, 0, 0, 0, 0, 0, 0, 0)
    ensures var c, next := CountersOf(log), CountersOf(log + [m]);
            && next.attempts == c.attempts + 1
            && next.successes == (if m.success then c.successes + 1 else c.successes)
            && next.failures == (if m.success then c.failures else c.failures + 1)
            && next.apiCacheHits == (if m.apiUs.Some? && m.apiCached then c.apiCacheHits + 1 else c.apiCacheHits)
            && next.apiCacheMisses == (if m.apiUs.Some? && !m.apiCached then c.apiCacheMisses + 1 else c.apiCacheMisses)
            && next.redisCacheHits
               == (if m.redisReadUs.Some? && m.redisCacheHit then c.redisCacheHits + 1 else c.redisCacheHits)
            && next.redisCacheMisses
               == (if m.redisReadUs.Some? && !m.redisCacheHit then c.redisCacheMisses + 1 else c.redisCacheMisses)
            && next.redisQuoteSuccesses
               == c.redisQuoteSuccesses + (if m.redisQuoteUs.Some? && m.redisQuoteStored then 1 else 0)
            && next.redisQuoteFailures
               == c.redisQuoteFailures + (if m.redisQuoteUs.Some? && !m.redisQuoteStored then 1 else 0)
            && next.redisBookSuccesses
               == (if m.redisBookUs.Some? && m.redisBookStored then c.redisBookSuccesses + 1 else c.redisBookSuccesses)
            && next.redisBookFailures
               == (if m.redisBookUs.Some? && !m.redisBookStored then c.redisBookFailures + 1 else c.redisBookFailures)
  {
    hide Count;
    CountersAppend(log, m);
    NothingCounted();
  }

  lemma NothingCounted()
    ensures forall e :: Count([], e) == 0
    ensures forall st :: Samples([], st) == []
  {
  }

  function Added(s: seq<int>, sample: Option<int>): seq<int> {
    match sample
    case None => s
    case Some(us) => s + [us]
  }

  // What one more record appends to each series.
  lemma SeriesSpelledOut(log: seq<Metrics>, m: Metrics)
    ensures SeriesOf([]) == Series([], [], [], [], [], [], [], [])
    ensures var s, next := SeriesOf(log), SeriesOf(log + [m]);
            && next.api == Added(s.api, m.apiUs) && next.redisRead == Added(s.redisRead, m.redisReadUs)
            && next.apiCached == (if m.apiCached then Added(s.apiCached, m.apiUs) else s.apiCached)
            && next.apiExternal == (if m.apiCached then s.apiExternal else Added(s.apiExternal, m.apiUs))
            && next.redisQuote == Added(s.redisQuote, m.redisQuoteUs)
            && next.bookBuild == Added(s.bookBuild, m.bookBuildUs)
            && next.redisBook == Added(s.redisBook, m.redisBookUs) && next.total == s.total + [m.totalUs]
  {
    hide Samples;
    SeriesAppend(log, m);
    NothingCounted();
  }

  // The stages a fetch can have measured when it is recorded, whichever service ended it.
  predicate FetchShaped(m: Metrics) {
    && (m.redisCacheHit ==> m.redisReadUs.Some?)
    && (m.apiUs.Some? ==> Happened(RedisMiss, m))
    && (m.redisQuoteUs.Some? ==> m.apiUs.Some?)
    && (m.bookBuildUs.Some? <==> Happened(RedisHit, m) || m.redisQuoteUs.Some?)
    && (m.redisBookUs.Some? ==> m.bookBuildUs.Some?)
    && (m.success ==> Happened(BookStored, m))
  }

  predicate AllFetches(log: seq<Metrics>) {
    forall m :: m in log ==> FetchShaped(m)
  }

  lemma OneMoreFetch(log: seq<Metrics>, m: Metrics)
    requires AllFetches(log) && FetchShaped(m)
    ensures AllFetches(log + [m])
  {
  }

  // The laws below, for a single operation.
  lemma StageLengths(m: Metrics)
    ensures Bit(Succeeded, m) + Bit(Failed, m) == 1 == |Sample(Duration(TotalTime, m))|
    ensures |Sample(Duration(Api, m))| == Bit(ApiHit, m) + Bit(ApiMiss, m)
    ensures |Sample(Duration(ApiCached, m))| == Bit(ApiHit, m)
    ensures |Sample(Duration(ApiExternal, m))| == Bit(ApiMiss, m)
    ensures |Sample(Duration(RedisRead, m))| == Bit(RedisHit, m) + Bit(RedisMiss, m)
    ensures |Sample(Duration(RedisQuote, m))| == Bit(QuoteStored, m) + Bit(QuoteFailed, m)
    ensures |Sample(Duration(RedisBook, m))| == Bit(BookStored, m) + Bit(BookFailed, m)
  {
  }

  lemma FetchBits(m: Metrics)
    requires FetchShaped(m)
    ensures Bit(ApiHit, m) + Bit(ApiMiss, m) <= Bit(RedisMiss, m)
    ensures Bit(QuoteStored, m) + Bit(QuoteFailed, m) <= Bit(ApiHit, m) + Bit(ApiMiss, m)
    ensures |Sample(Duration(BookBuild, m))| == Bit(RedisHit, m) + Bit(QuoteStored, m) + Bit(QuoteFailed, m)
    ensures Bit(BookStored, m) + Bit(BookFailed, m) <= |Sample(Duration(BookBuild, m))|
    ensures Bit(Succeeded, m) <= Bit(BookStored, m)
  {
  }

  // Each series has one sample per counted event, for any log at all.
  lemma {:induction false} SeriesLengths(log: seq<Metrics>)
    ensures |log| == Count(log, Succeeded) + Count(log, Failed) == |Samples(log, TotalTime)|
    ensures |Samples(log, Api)| == Count(log, ApiHit) + Count(log, ApiMiss)
    ensures |Samples(log, ApiCached)| == Count(log, ApiHit)
    ensures |Samples(log, ApiExternal)| == Count(log, ApiMiss)
    ensures |Samples(log, RedisRead)| == Count(log, RedisHit) + Count(log, RedisMiss)
    ensures |Samples(log, RedisQuote)| == Count(log, QuoteStored) + Count(log, QuoteFailed)
    ensures |Samples(log, RedisBook)| == Count(log, BookStored) + Count(log, BookFailed)
  {
    if log != [] {
      SeriesLengths(log[..|log| - 1]);
      StageLengths(log[|log| - 1]);
    }
  }

  // What fetches conserve, whatever failed or threw in them.
  lemma {:induction false} Conservation(log: seq<Metrics>)
    requires AllFetches(log)
    ensures Count(log, ApiHit) + Count(log, ApiMiss) <= Count(log, RedisMiss)
    ensures Count(log, QuoteStored) + Count(log, QuoteFailed) <= Count(log, ApiHit) + Count(log, ApiMiss)
    ensures |Samples(log, BookBuild)|
            == Count(log, RedisHit) + Count(log, QuoteStored) + Count(log, QuoteFailed)
    ensures Count(log, BookStored) + Count(log, BookFailed) <= |Samples(log, BookBuild)|
    ensures Count(log, Succeeded) <= Count(log, BookStored)
  {
    if log != [] {
      Conservation(log[..|log| - 1]);
      FetchBits(log[|log| - 1]);
    }
  }

  // xs merges ys and zs, each in its own order.
  predicate Interleaves(xs: seq<int>, ys: seq<int>, zs: seq<int>) {
    if xs == [] then ys == [] && zs == []
    else
      var x, front := xs[|xs| - 1], xs[..|xs| - 1];
      || (ys != [] && ys[|ys| - 1] == x && Interleaves(front, ys[..|ys| - 1], zs))
      || (zs != [] && zs[|zs| - 1] == x && Interleaves(front, ys, zs[..|zs| - 1]))
  }

  lemma InterleaveLeft(xs: seq<int>, ys: seq<int>, zs: seq<int>, x: int)
    requires Interleaves(xs, ys, zs)
    ensures Interleaves(xs + [x], ys + [x], zs)
  {
    assert (xs + [x])[..|xs|] == xs && (ys + [x])[..|ys|] == ys;
  }

  lemma InterleaveRight(xs: seq<int>, ys: seq<int>, zs: seq<int>, x: int)
    requires Interleaves(xs, ys, zs)
    ensures Interleaves(xs + [x], ys, zs + [x])
  {
    assert (xs + [x])[..|xs|] == xs && (zs + [x])[..|zs|] == zs;
  }

  // The API samples are the cached and the external ones in recording order.
  lemma {:induction false} ApiSamplesInterleave(log: seq<Metrics>)
    ensures Interleaves(Samples(log, Api), Samples(log, ApiCached), Samples(log, ApiExternal))
  {
    if log != [] {
      var front, m := log[..|log| - 1], log[|log| - 1];
      ApiSamplesInterleave(front);
      var xs, ys, zs := Samples(front, Api), Samples(front, ApiCached), Samples(front, ApiExternal);
      if m.apiUs.Some? {
        if m.apiCached {
          InterleaveLeft(xs, ys, zs, m.apiUs.value);
          assert zs + [] == zs;
        } else {
          InterleaveRight(xs, ys, zs, m.apiUs.value);
          assert ys + [] == ys;
        }
      } else {
        assert xs + [] == xs && ys + [] == ys && zs + [] == zs;
      }
    }
  }
}

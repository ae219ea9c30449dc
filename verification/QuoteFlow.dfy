/** The two cache tiers under fetch_symbol as a timed state machine: the client's cache inside the process
    and the quote hash in Redis. All instants are on one clock. */
module QuoteFlow {
  import opened Common
  import opened Quotes
  import opened Digits
  import opened FixedText
  import opened RedisStore
  import AV = AlphaVantage

  datatype Config = Config(clientTtl: int, redisTtl: int)

  datatype World = World(client: AV.Cache, hashes: QuoteHashes, now: int)

  // How the Redis read of one call goes; an error is reported as a miss.
  datatype Read = ReadWorks | ReadError | ReadThrows

  // The instants and the service behaviour of one call of fetch_symbol, up to the quote's Redis write.
  datatype Call = Call(
    readAt: int,
    read: Read,
    clientAt: int,
    fetch: AV.Fetch,
    fetchedAt: int,
    cachedThrows: bool,
    storeAt: int,
    store: CommandRun
  )

  datatype Origin = FromRedis | FromClientCache | FromSource

  datatype Served = Served(quote: Quote, origin: Origin, at: int)

  // A quote the external source returned, and when.
  datatype Answer = Answer(symbol: Symbol, quote: Quote, at: int)

  datatype Outcome = Outcome(world: World, served: Option<Served>, asked: bool, answers: seq<Answer>)

  function RedisRead(hashes: QuoteHashes, symbol: Symbol, call: Call): Option<Quote> {
    if call.read.ReadWorks? && Visible(hashes, symbol, call.readAt) then ReadFields(symbol, hashes[symbol].fields)
    else None
  }

  function FetchSymbol(cfg: Config, w: World, symbol: Symbol, call: Call): Outcome {
    var found := RedisRead(w.hashes, symbol, call);
    if call.read.ReadThrows? then Outcome(w.(now := call.storeAt), None, false, [])
    else if found.Some? then
      Outcome(w.(now := call.storeAt), Some(Served(found.value, FromRedis, call.readAt)), false, [])
    else
      var l := AV.Get(w.client, cfg.clientTtl, symbol, call.clientAt, call.fetch, call.fetchedAt);
      var got := l.result.Ok? && l.result.value.Some?;
      var answers := if l.asked && got then [Answer(symbol, l.result.value.value, call.fetchedAt)] else [];
      if got && !call.cachedThrows then
        var q := l.result.value.value;
        var hashes := StoredHashes(w.hashes, symbol, q, call.storeAt, cfg.redisTtl, call.store.done);
        var served := if l.cached then Served(q, FromClientCache, call.clientAt)
                      else Served(q, FromSource, call.fetchedAt);
        Outcome(World(l.cache, hashes, call.storeAt), Some(served), l.asked, answers)
      else
        Outcome(World(l.cache, w.hashes, call.storeAt), None, l.asked, answers)
  }

  // The steps of a run: time passing, a fetch through both tiers, and a fetch straight from the source.
  datatype Step =
    | Wait(until: int)
    | Fetch(symbol: Symbol, call: Call)
    | FetchFresh(symbol: Symbol, fetch: AV.Fetch, fetchedAt: int)

  function Next(cfg: Config, w: World, s: Step): Outcome {
    match s
    case Wait(until) => Outcome(w.(now := until), None, false, [])
    case Fetch(symbol, call) => FetchSymbol(cfg, w, symbol, call)
    case FetchFresh(symbol, fetch, fetchedAt) =>
      var l := AV.Fresh(w.client, symbol, fetch, fetchedAt);
      Outcome(World(l.cache, w.hashes, fetchedAt), None, l.asked,
              if l.result.Ok? && l.result.value.Some? then [Answer(symbol, l.result.value.value, fetchedAt)] else [])
  }

  // Clocks do not run backwards.
  predicate Timely(w: World, s: Step) {
    match s
    case Wait(until) => w.now <= until
    case Fetch(_, c) => w.now <= c.readAt <= c.clientAt <= c.fetchedAt <= c.storeAt
    case FetchFresh(_, _, fetchedAt) => w.now <= fetchedAt
  }

  predicate TimelyRun(cfg: Config, w: World, steps: seq<Step>)
    decreases |steps|
  {
    steps == [] || (Timely(w, steps[0]) && TimelyRun(cfg, Next(cfg, w, steps[0]).world, steps[1..]))
  }

  function Run(cfg: Config, w: World, steps: seq<Step>): World
    decreases |steps|
  {
    if steps == [] then w else Run(cfg, Next(cfg, w, steps[0]).world, steps[1..])
  }

  function AnswersOf(cfg: Config, w: World, steps: seq<Step>): seq<Answer>
    decreases |steps|
  {
    if steps == [] then []
    else Next(cfg, w, steps[0]).answers + AnswersOf(cfg, Next(cfg, w, steps[0]).world, steps[1..])
  }

  const EMPTY := World(map[], map[], 0)

  // ---- Staleness ----

  // The quote a step writes to Redis.
  function ToStore(cfg: Config, w: World, s: Step): Option<Quote> {
    if !s.Fetch? then None
    else
      var served := FetchSymbol(cfg, w, s.symbol, s.call).served;
      if served.Some? && !served.value.origin.FromRedis? then Some(served.value.quote) else None
  }

  // HMSET makes a new hash, the old one being absent or expired, and EXPIRE does not follow. On a live hash a lost
  // EXPIRE does no harm: the old deadline stays, and what it was set for is no newer than what HMSET writes.
  predicate LosesExpire(cfg: Config, w: World, s: Step) {
    ToStore(cfg, w, s).Some? && s.call.store.done == 1 && !Visible(w.hashes, s.symbol, s.call.storeAt)
  }

  // The call takes at most `lag` from the client's look-up to EXPIRE.
  predicate Prompt(s: Step, lag: nat) {
    s.Fetch? ==> s.call.storeAt <= s.call.clientAt + lag
  }

  predicate Sound(cfg: Config, w: World, s: Step, lag: nat) {
    !LosesExpire(cfg, w, s) && Prompt(s, lag)
  }

  predicate SoundRun(cfg: Config, w: World, steps: seq<Step>, lag: nat)
    decreases |steps|
  {
    steps == [] || (Sound(cfg, w, steps[0], lag) && SoundRun(cfg, Next(cfg, w, steps[0]).world, steps[1..], lag))
  }

  function Bound(cfg: Config, lag: nat): int {
    ClientLife(cfg) + cfg.redisTtl + lag
  }

  // An answer that a hash holds and that its deadline suits.
  predicate Holds(cfg: Config, lag: nat, symbol: Symbol, hash: QuoteHash, a: Answer) {
    && a.symbol == symbol && hash.fields == QuoteFields(a.quote)
    && hash.expiresAt.Some? && hash.expiresAt.value <= a.at + Bound(cfg, lag)
  }

  ghost predicate HashTraced(cfg: Config, lag: nat, symbol: Symbol, hash: QuoteHash, newest: int, log: seq<Answer>) {
    exists a :: a in log && Holds(cfg, lag, symbol, hash, a) && a.at <= newest
  }

  ghost predicate ClientTraced(w: World, log: seq<Answer>) {
    forall s :: s in w.client ==>
      Answer(s, w.client[s].quote, w.client[s].fetchedAt) in log && w.client[s].fetchedAt <= w.now
  }

  // Every cached quote goes back to an answer of the source; no hash outlives the bound, and the client has an
  // answer at least as new as the hash's.
  ghost predicate Traced(cfg: Config, lag: nat, w: World, log: seq<Answer>) {
    && ClientTraced(w, log)
    && forall s :: s in w.hashes ==>
         s in w.client && HashTraced(cfg, lag, s, w.hashes[s], w.client[s].fetchedAt, log)
  }

  lemma HashTracedMore(cfg: Config, lag: nat, symbol: Symbol, hash: QuoteHash, newest: int, later: int,
                       log: seq<Answer>, more: seq<Answer>)
    requires HashTraced(cfg, lag, symbol, hash, newest, log) && newest <= later
    ensures HashTraced(cfg, lag, symbol, hash, later, log + more)
  {
    var a :| a in log && Holds(cfg, lag, symbol, hash, a) && a.at <= newest;
    assert a in log + more;
  }

  // HMSET overwrites every field, whatever the hash held.
  lemma FieldsOverwritten(before: Quote, q: Quote)
    ensures QuoteFields(before) + QuoteFields(q) == QuoteFields(q)
  {
    FieldTexts(before);
    FieldTexts(q);
  }

  // The hash a store leaves, given that an older answer's hash was there at most.
  lemma StoreTraced(cfg: Config, lag: nat, hashes: QuoteHashes, symbol: Symbol, a: Answer, now: int, done: nat,
                    log: seq<Answer>)
    requires symbol in hashes ==> HashTraced(cfg, lag, symbol, hashes[symbol], a.at, log)
    requires a in log && a.symbol == symbol && now + cfg.redisTtl <= a.at + Bound(cfg, lag)
    requires done == 1 ==> Visible(hashes, symbol, now)
    ensures var after := StoredHashes(hashes, symbol, a.quote, now, cfg.redisTtl, done);
            symbol in after ==> HashTraced(cfg, lag, symbol, after[symbol], a.at, log)
  {
    hide QuoteFields;
    var after := StoredHashes(hashes, symbol, a.quote, now, cfg.redisTtl, done);
    if done >= 1 {
      if symbol in hashes {
        var b :| b in log && Holds(cfg, lag, symbol, hashes[symbol], b) && b.at <= a.at;
        FieldsOverwritten(b.quote, a.quote);
      }
      assert Holds(cfg, lag, symbol, after[symbol], a);
    }
  }

  lemma StepTraced(cfg: Config, lag: nat, w: World, log: seq<Answer>, s: Step)
    requires Traced(cfg, lag, w, log) && Timely(w, s) && Sound(cfg, w, s, lag)
    ensures Traced(cfg, lag, Next(cfg, w, s).world, log + Next(cfg, w, s).answers)
  {
    hide Next, ToStore, FetchSymbol, ClientTraced, HashTraced, StoredHashes, QuoteFields, Timely;
    var after, more := Next(cfg, w, s).world, Next(cfg, w, s).answers;
    StepClientTraced(cfg, w, log, s);
    StepHashes(cfg, w, s);
    forall x | x in w.hashes
      ensures HashTraced(cfg, lag, x, w.hashes[x], after.client[x].fetchedAt, log + more)
    {
      HashTracedMore(cfg, lag, x, w.hashes[x], w.client[x].fetchedAt, after.client[x].fetchedAt, log, more);
    }
    if ToStore(cfg, w, s).Some? {
      var a := Answer(s.symbol, ToStore(cfg, w, s).value, after.client[s.symbol].fetchedAt);
      StoreTraced(cfg, lag, w.hashes, s.symbol, a, s.call.storeAt, s.call.store.done, log + more);
      OtherHashes(w.hashes, s.symbol, a.quote, s.call.storeAt, cfg.redisTtl, s.call.store.done);
    }
  }

  lemma OtherHashes(hashes: QuoteHashes, symbol: Symbol, q: Quote, now: int, ttl: int, done: nat)
    ensures var after := StoredHashes(hashes, symbol, q, now, ttl, done);
            forall x :: x != symbol ==> (x in after <==> x in hashes) && (x in hashes ==> after[x] == hashes[x])
  {
    hide QuoteFields;
  }

  // A step changes the hashes by its store only.
  lemma StepHashes(cfg: Config, w: World, s: Step)
    ensures ToStore(cfg, w, s).Some? ==> s.Fetch?
    ensures Next(cfg, w, s).world.hashes ==
            match ToStore(cfg, w, s)
            case None => w.hashes
            case Some(q) => StoredHashes(w.hashes, s.symbol, q, s.call.storeAt, cfg.redisTtl, s.call.store.done)
  {
    hide ReadFields, StoredHashes;
  }

  // The client's entries only get newer, and what a step writes to Redis is the client's entry.
  lemma StepClientTraced(cfg: Config, w: World, log: seq<Answer>, s: Step)
    requires ClientTraced(w, log) && Timely(w, s)
    ensures var out := Next(cfg, w, s);
            && ClientTraced(out.world, log + out.answers)
            && (forall x :: x in w.client ==>
                  x in out.world.client && w.client[x].fetchedAt <= out.world.client[x].fetchedAt)
            && (ToStore(cfg, w, s).Some? ==>
                  && s.Fetch? && s.symbol in out.world.client
                  && out.world.client[s.symbol].quote == ToStore(cfg, w, s).value
                  && Answer(s.symbol, ToStore(cfg, w, s).value, out.world.client[s.symbol].fetchedAt)
                     in log + out.answers
                  && s.call.clientAt <= out.world.client[s.symbol].fetchedAt + ClientLife(cfg))
  {
    if s.Fetch? {
      hide FetchSymbol;
      FetchClient(cfg, w, s.symbol, s.call);
    }
  }

  // What a fetch leaves in the client.
  lemma FetchClient(cfg: Config, w: World, symbol: Symbol, call: Call)
    ensures var out := FetchSymbol(cfg, w, symbol, call);
            && out.world.now == call.storeAt
            && (out.answers == [] ==> out.world.client == w.client)
            && (out.answers != [] ==>
                  && out.answers == [Answer(symbol, out.answers[0].quote, call.fetchedAt)]
                  && out.world.client == w.client[symbol := AV.CacheEntry(out.answers[0].quote, call.fetchedAt)])
            && (out.served.Some? && !out.served.value.origin.FromRedis? ==>
                  && symbol in out.world.client && out.world.client[symbol].quote == out.served.value.quote
                  && (out.answers == [] ==> call.clientAt < w.client[symbol].fetchedAt + cfg.clientTtl))
  {
    hide ReadFields, StoredHashes;
  }

  function ClientLife(cfg: Config): int {
    if cfg.clientTtl < 0 then 0 else cfg.clientTtl
  }

  lemma {:induction false} RunTraced(cfg: Config, lag: nat, w: World, log: seq<Answer>, steps: seq<Step>)
    requires Traced(cfg, lag, w, log) && TimelyRun(cfg, w, steps) && SoundRun(cfg, w, steps, lag)
    ensures Traced(cfg, lag, Run(cfg, w, steps), log + AnswersOf(cfg, w, steps))
    decreases |steps|
  {
    hide Next, Timely, Sound;
    if steps == [] {
      assert log + [] == log;
    } else {
      var out := Next(cfg, w, steps[0]);
      StepTraced(cfg, lag, w, log, steps[0]);
      RunTraced(cfg, lag, out.world, log + out.answers, steps[1..]);
      assert log + out.answers + AnswersOf(cfg, out.world, steps[1..]) == log + AnswersOf(cfg, w, steps);
    }
  }

  // The served quote is an answer of the source, as received or settled by Redis, and was received less than
  // the bound before it is served.
  ghost predicate FreshEnough(cfg: Config, lag: nat, symbol: Symbol, served: Served, log: seq<Answer>) {
    exists a :: a in log && a.symbol == symbol && (served.quote == a.quote || served.quote == Settled(symbol, a.quote))
      && served.at < a.at + Bound(cfg, lag)
  }

  lemma ServedFresh(cfg: Config, lag: nat, w: World, log: seq<Answer>, symbol: Symbol, call: Call)
    requires ClientTraced(w, log) && cfg.redisTtl > 0
    requires FetchSymbol(cfg, w, symbol, call).served.Some?
    requires FetchSymbol(cfg, w, symbol, call).served.value.origin.FromRedis? ==>
               symbol in w.client && HashTraced(cfg, lag, symbol, w.hashes[symbol], w.client[symbol].fetchedAt, log)
    ensures var out := FetchSymbol(cfg, w, symbol, call);
            FreshEnough(cfg, lag, symbol, out.served.value, log + out.answers)
  {
    hide ReadFields, QuoteFields;
    var out := FetchSymbol(cfg, w, symbol, call);
    var served := out.served.value;
    var all := log + out.answers;
    match served.origin {
      case FromRedis =>
        var a :| a in log && Holds(cfg, lag, symbol, w.hashes[symbol], a) && a.at <= w.client[symbol].fetchedAt;
        StoreThenGet(symbol, a.quote);
        assert a in all;
      case FromClientCache =>
        var a := Answer(symbol, w.client[symbol].quote, w.client[symbol].fetchedAt);
        assert a in all;
      case FromSource =>
        assert Answer(symbol, served.quote, call.fetchedAt) in all;
    }
  }

  // Over every run from empty caches, every quote that fetch_symbol serves came from the external source less
  // than client TTL + Redis TTL + lag ago; with instantaneous calls the lag is zero.
  lemma StalenessBound(cfg: Config, lag: nat, steps: seq<Step>, symbol: Symbol, call: Call)
    requires cfg.redisTtl > 0 && TimelyRun(cfg, EMPTY, steps) && SoundRun(cfg, EMPTY, steps, lag)
    requires FetchSymbol(cfg, Run(cfg, EMPTY, steps), symbol, call).served.Some?
    ensures var out := FetchSymbol(cfg, Run(cfg, EMPTY, steps), symbol, call);
            FreshEnough(cfg, lag, symbol, out.served.value, AnswersOf(cfg, EMPTY, steps) + out.answers)
  {
    hide QuoteFields, ReadFields;
    RunTraced(cfg, lag, EMPTY, [], steps);
    assert [] + AnswersOf(cfg, EMPTY, steps) == AnswersOf(cfg, EMPTY, steps);
    ServedFresh(cfg, lag, Run(cfg, EMPTY, steps), AnswersOf(cfg, EMPTY, steps), symbol, call);
  }

  // The bound in numbers; a negative time to live counts as none.
  lemma BoundIs(cfg: Config, lag: nat)
    ensures Bound(cfg, lag) == cfg.redisTtl + lag + if cfg.clientTtl > 0 then cfg.clientTtl else 0
  {
  }

  // Where a served quote comes from, and the instant it counts as served.
  lemma ServedExactly(cfg: Config, w: World, symbol: Symbol, call: Call)
    ensures var out := FetchSymbol(cfg, w, symbol, call);
            var live := symbol in w.hashes
                        && (w.hashes[symbol].expiresAt.None? || call.readAt < w.hashes[symbol].expiresAt.value);
            var cached := symbol != "" && symbol in w.client
                          && call.clientAt < w.client[symbol].fetchedAt + cfg.clientTtl;
            && (out.served.Some? && out.served.value.origin.FromRedis? <==>
                  call.read.ReadWorks? && live && ReadFields(symbol, w.hashes[symbol].fields).Some?)
            && (out.asked ==> symbol != "" && !cached && !call.read.ReadThrows?)
            && (out.answers != [] <==> out.asked && call.fetch.Got?)
            && (out.answers != [] ==>
                  out.answers == [Answer(symbol, call.fetch.quote.(symbol := symbol), call.fetchedAt)])
            && (out.served.Some? ==>
                  match out.served.value.origin
                  case FromRedis =>
                    && !out.asked && out.served.value.at == call.readAt
                    && Some(out.served.value.quote) == ReadFields(symbol, w.hashes[symbol].fields)
                  case FromClientCache =>
                    && !out.asked && cached && out.served.value.at == call.clientAt
                    && out.served.value.quote == w.client[symbol].quote
                  case FromSource =>
                    && out.asked && call.fetch.Got? && out.served.value.at == call.fetchedAt
                    && out.served.value.quote == call.fetch.quote.(symbol := symbol))
            && (out.served.None? <==>
                  || call.read.ReadThrows?
                  || (!(call.read.ReadWorks? && live && ReadFields(symbol, w.hashes[symbol].fields).Some?)
                      && (call.cachedThrows || symbol == "" || (!cached && !call.fetch.Got?))))
  {
    hide ReadFields, StoredHashes;
  }

  // An instantaneous call at time t.
  function CallAt(t: int, fetch: AV.Fetch, done: nat): Call {
    Call(t, ReadWorks, t, fetch, t, false, t, CommandRun(done, false))
  }

  // Losing one EXPIRE after its HMSET breaks every bound: the hash never expires, and the single answer of
  // the source, received at time 0, is still served at any later time.
  lemma LostExpireServesForever(cfg: Config, symbol: Symbol, q: Quote, age: nat)
    requires symbol != "" && Settled(symbol, q).IsValid()
    ensures var first := Fetch(symbol, CallAt(0, AV.Got(q), 1));
            var w := Run(cfg, EMPTY, [first]);
            && TimelyRun(cfg, EMPTY, [first])
            && AnswersOf(cfg, EMPTY, [first]) == [Answer(symbol, q.(symbol := symbol), 0)]
            && FetchSymbol(cfg, w, symbol, CallAt(age, AV.NoBody, 0)).served
               == Some(Served(Settled(symbol, q), FromRedis, age))
  {
    hide ReadFields, QuoteFields;
    StoreThenGet(symbol, q.(symbol := symbol));
    var w := Next(cfg, EMPTY, Fetch(symbol, CallAt(0, AV.Got(q), 1))).world;
    assert w.hashes == map[symbol := QuoteHash(QuoteFields(q.(symbol := symbol)), None)];
    assert Run(cfg, w, []) == w;
  }

  // ---- Staleness, store by store ----

  // Whatever is fetched next meets the bound.
  ghost predicate AllFresh(cfg: Config, lag: nat, steps: seq<Step>) {
    forall symbol: Symbol, call: Call ::
      var out := FetchSymbol(cfg, Run(cfg, EMPTY, steps), symbol, call);
      Timely(Run(cfg, EMPTY, steps), Fetch(symbol, call)) && out.served.Some? ==>
        FreshEnough(cfg, lag, symbol, out.served.value, AnswersOf(cfg, EMPTY, steps) + out.answers)
  }

  lemma {:induction false} RunAppend(cfg: Config, w: World, steps: seq<Step>, s: Step)
    ensures var before := Run(cfg, w, steps);
            && Run(cfg, w, steps + [s]) == Next(cfg, before, s).world
            && AnswersOf(cfg, w, steps + [s]) == AnswersOf(cfg, w, steps) + Next(cfg, before, s).answers
            && (TimelyRun(cfg, w, steps + [s]) <==> TimelyRun(cfg, w, steps) && Timely(before, s))
            && forall lag :: SoundRun(cfg, w, steps + [s], lag) <==>
                 SoundRun(cfg, w, steps, lag) && Sound(cfg, before, s, lag)
    decreases |steps|
  {
    hide Next, Timely, Sound;
    if steps == [] {
      assert [] + [s] == [s];
      assert [s][1..] == [];
      assert Run(cfg, Next(cfg, w, s).world, []) == Next(cfg, w, s).world;
      assert AnswersOf(cfg, w, [s]) == Next(cfg, w, s).answers + [];
    } else {
      var out := Next(cfg, w, steps[0]);
      assert (steps + [s])[1..] == steps[1..] + [s];
      RunAppend(cfg, out.world, steps[1..], s);
      assert AnswersOf(cfg, w, steps + [s]) == out.answers + AnswersOf(cfg, out.world, steps[1..] + [s]);
    }
  }

  // No answer is from the future.
  lemma {:induction false} AnswersArePast(cfg: Config, w: World, steps: seq<Step>)
    requires TimelyRun(cfg, w, steps)
    ensures w.now <= Run(cfg, w, steps).now
    ensures forall a :: a in AnswersOf(cfg, w, steps) ==> a.at <= Run(cfg, w, steps).now
    decreases |steps|
  {
    hide Next, Timely;
    if steps != [] {
      var out := Next(cfg, w, steps[0]);
      AnswerIsPast(cfg, w, steps[0]);
      AnswersArePast(cfg, out.world, steps[1..]);
    }
  }

  lemma AnswerIsPast(cfg: Config, w: World, s: Step)
    requires Timely(w, s)
    ensures w.now <= Next(cfg, w, s).world.now
    ensures forall a :: a in Next(cfg, w, s).answers ==> a.at <= Next(cfg, w, s).world.now
  {
    hide ReadFields, StoredHashes;
  }

  // After a lost EXPIRE the hash is the stored quote's, without a deadline.
  lemma LostExpireHash(cfg: Config, w: World, s: Step)
    requires LosesExpire(cfg, w, s)
    ensures s.Fetch? && ToStore(cfg, w, s).Some?
    ensures var q, after := ToStore(cfg, w, s).value, Next(cfg, w, s).world;
            after.hashes == w.hashes[s.symbol := QuoteHash(QuoteFields(q), None)]
  {
    hide ReadFields, QuoteFields;
  }

  // In a run without a lost EXPIRE so far, one more step leaves everything fresh for good exactly if it loses no
  // EXPIRE, or loses it on a quote that settles to an invalid one and so can never be served.
  lemma FreshExactly(cfg: Config, lag: nat, steps: seq<Step>, s: Step)
    requires cfg.redisTtl > 0 && TimelyRun(cfg, EMPTY, steps) && SoundRun(cfg, EMPTY, steps, lag)
    requires Timely(Run(cfg, EMPTY, steps), s) && Prompt(s, lag)
    ensures var w := Run(cfg, EMPTY, steps);
            AllFresh(cfg, lag, steps + [s]) <==>
            !(LosesExpire(cfg, w, s) && Settled(s.symbol, ToStore(cfg, w, s).value).IsValid())
  {
    hide FetchSymbol, Run, AnswersOf, TimelyRun, SoundRun, FreshEnough, Timely, LosesExpire, Settled, ToStore;
    var w := Run(cfg, EMPTY, steps);
    RunAppend(cfg, EMPTY, steps, s);
    if LosesExpire(cfg, w, s) {
      LostExpireHash(cfg, w, s);
      if Settled(s.symbol, ToStore(cfg, w, s).value).IsValid() {
        LostExpireTurnsStale(cfg, lag, steps, s);
      } else {
        forall symbol: Symbol, call: Call |
          FetchSymbol(cfg, Run(cfg, EMPTY, steps + [s]), symbol, call).served.Some?
          ensures var out := FetchSymbol(cfg, Run(cfg, EMPTY, steps + [s]), symbol, call);
                  FreshEnough(cfg, lag, symbol, out.served.value, AnswersOf(cfg, EMPTY, steps + [s]) + out.answers)
        {
          UnreadableIsHarmless(cfg, lag, steps, s, symbol, call);
        }
      }
    } else {
      forall symbol: Symbol, call: Call |
        FetchSymbol(cfg, Run(cfg, EMPTY, steps + [s]), symbol, call).served.Some?
        ensures var out := FetchSymbol(cfg, Run(cfg, EMPTY, steps + [s]), symbol, call);
                FreshEnough(cfg, lag, symbol, out.served.value, AnswersOf(cfg, EMPTY, steps + [s]) + out.answers)
      {
        StalenessBound(cfg, lag, steps + [s], symbol, call);
      }
    }
  }

  lemma LostExpireTurnsStale(cfg: Config, lag: nat, steps: seq<Step>, s: Step)
    requires cfg.redisTtl > 0 && TimelyRun(cfg, EMPTY, steps + [s])
    requires LosesExpire(cfg, Run(cfg, EMPTY, steps), s)
    requires Settled(s.symbol, ToStore(cfg, Run(cfg, EMPTY, steps), s).value).IsValid()
    ensures !AllFresh(cfg, lag, steps + [s])
  {
    hide Next, Run, AnswersOf, TimelyRun, LosesExpire, Settled, ToStore, FetchSymbol, QuoteFields;
    var w := Run(cfg, EMPTY, steps);
    LostExpireHash(cfg, w, s);
    RunAppend(cfg, EMPTY, steps, s);
    AnswersArePast(cfg, EMPTY, steps + [s]);
    var after := Run(cfg, EMPTY, steps + [s]);
    var call := CallAt(after.now + Bound(cfg, lag), AV.NoBody, 0);
    ServesForever(cfg, after, s.symbol, ToStore(cfg, w, s).value, call.readAt);
    var out := FetchSymbol(cfg, after, s.symbol, call);
    assert !FreshEnough(cfg, lag, s.symbol, out.served.value, AnswersOf(cfg, EMPTY, steps + [s]) + out.answers);
  }

  // A hash without a deadline is served at any time.
  lemma ServesForever(cfg: Config, w: World, symbol: Symbol, q: Quote, at: int)
    requires symbol in w.hashes && w.hashes[symbol] == QuoteHash(QuoteFields(q), None)
    requires Settled(symbol, q).IsValid()
    ensures var out := FetchSymbol(cfg, w, symbol, CallAt(at, AV.NoBody, 0));
            out.served == Some(Served(Settled(symbol, q), FromRedis, at)) && out.answers == []
  {
    hide QuoteFields, ReadFields;
    StoreThenGet(symbol, q);
  }

  lemma RedisServesReadable(cfg: Config, w: World, symbol: Symbol, call: Call)
    ensures var out := FetchSymbol(cfg, w, symbol, call);
            out.served.Some? && out.served.value.origin.FromRedis? ==>
              symbol in w.hashes && ReadFields(symbol, w.hashes[symbol].fields).Some?
  {
    hide ReadFields;
  }

  lemma UnreadableIsHarmless(cfg: Config, lag: nat, steps: seq<Step>, s: Step, symbol: Symbol, call: Call)
    requires cfg.redisTtl > 0 && TimelyRun(cfg, EMPTY, steps) && SoundRun(cfg, EMPTY, steps, lag)
    requires Timely(Run(cfg, EMPTY, steps), s) && LosesExpire(cfg, Run(cfg, EMPTY, steps), s)
    requires !Settled(s.symbol, ToStore(cfg, Run(cfg, EMPTY, steps), s).value).IsValid()
    requires FetchSymbol(cfg, Run(cfg, EMPTY, steps + [s]), symbol, call).served.Some?
    ensures var out := FetchSymbol(cfg, Run(cfg, EMPTY, steps + [s]), symbol, call);
            FreshEnough(cfg, lag, symbol, out.served.value, AnswersOf(cfg, EMPTY, steps + [s]) + out.answers)
  {
    hide Run, AnswersOf, TimelyRun, SoundRun, Next, LosesExpire, Settled, ToStore, HashTraced, FreshEnough;
    hide ReadFields, QuoteFields, FetchSymbol;
    var w, log := Run(cfg, EMPTY, steps), AnswersOf(cfg, EMPTY, steps);
    var after, more := Next(cfg, w, s).world, Next(cfg, w, s).answers;
    RunAppend(cfg, EMPTY, steps, s);
    RunTraced(cfg, lag, EMPTY, [], steps);
    assert [] + log == log;
    StepClientTraced(cfg, w, log, s);
    LostExpireHash(cfg, w, s);
    StoreThenGet(s.symbol, ToStore(cfg, w, s).value);
    RedisServesReadable(cfg, after, symbol, call);
    if FetchSymbol(cfg, after, symbol, call).served.value.origin.FromRedis? {
      assert symbol != s.symbol;
      HashTracedMore(cfg, lag, symbol, w.hashes[symbol], w.client[symbol].fetchedAt, after.client[symbol].fetchedAt,
                     log, more);
    }
    ServedFresh(cfg, lag, after, log + more, symbol, call);
  }

  // ---- Staleness, over all runs ----

  // Every quote served after any run meets the bound, when each store gets through a number of commands out of
  // `done` and each call takes at most `lag`.
  ghost predicate NeverStale(cfg: Config, lag: nat, done: iset<nat>) {
    forall steps: seq<Step>, symbol: Symbol, call: Call ::
      TimelyRun(cfg, EMPTY, steps) && StoresWithin(steps, lag, done)
      && FetchSymbol(cfg, Run(cfg, EMPTY, steps), symbol, call).served.Some? ==>
        var out := FetchSymbol(cfg, Run(cfg, EMPTY, steps), symbol, call);
        FreshEnough(cfg, lag, symbol, out.served.value, AnswersOf(cfg, EMPTY, steps) + out.answers)
  }

  ghost predicate StoresWithin(steps: seq<Step>, lag: nat, done: iset<nat>) {
    forall s :: s in steps && s.Fetch? ==> s.call.store.done in done && s.call.storeAt <= s.call.clientAt + lag
  }

  // The bound holds over all runs exactly when no store can stop between HMSET and EXPIRE.
  lemma StalenessExactly(cfg: Config, lag: nat, done: iset<nat>)
    requires cfg.redisTtl > 0
    ensures NeverStale(cfg, lag, done) <==> 1 !in done
  {
    hide FetchSymbol, Run, AnswersOf, TimelyRun, FreshEnough;
    if 1 in done {
      var steps, symbol, call := LostExpireIsStale(cfg, lag, done);
    } else {
      forall steps: seq<Step>, symbol: Symbol, call: Call |
        TimelyRun(cfg, EMPTY, steps) && StoresWithin(steps, lag, done)
        && FetchSymbol(cfg, Run(cfg, EMPTY, steps), symbol, call).served.Some?
        ensures var out := FetchSymbol(cfg, Run(cfg, EMPTY, steps), symbol, call);
                FreshEnough(cfg, lag, symbol, out.served.value, AnswersOf(cfg, EMPTY, steps) + out.answers)
      {
        WithinIsSound(cfg, EMPTY, steps, lag, done);
        StalenessBound(cfg, lag, steps, symbol, call);
      }
    }
  }

  lemma {:induction false} WithinIsSound(cfg: Config, w: World, steps: seq<Step>, lag: nat, done: iset<nat>)
    requires StoresWithin(steps, lag, done) && 1 !in done
    ensures SoundRun(cfg, w, steps, lag)
    decreases |steps|
  {
    hide Next, FetchSymbol;
    if steps != [] {
      assert steps[0] in steps;
      WithinIsSound(cfg, Next(cfg, w, steps[0]).world, steps[1..], lag, done);
    }
  }

  // One lost EXPIRE and a call at the bound.
  lemma LostExpireIsStale(cfg: Config, lag: nat, done: iset<nat>) returns (steps: seq<Step>, symbol: Symbol, call: Call)
    requires cfg.redisTtl > 0 && 1 in done
    ensures TimelyRun(cfg, EMPTY, steps) && StoresWithin(steps, lag, done)
    ensures FetchSymbol(cfg, Run(cfg, EMPTY, steps), symbol, call).served.Some?
    ensures var out := FetchSymbol(cfg, Run(cfg, EMPTY, steps), symbol, call);
            !FreshEnough(cfg, lag, symbol, out.served.value, AnswersOf(cfg, EMPTY, steps) + out.answers)
  {
    hide Run, AnswersOf, TimelyRun, ReadFields, StoredHashes;
    var q := Quote("A", 1.0, 0.0, 0.0, 0.0, 0, 0.0, "", 0);
    UnitPriceSettles(q);
    LostExpireServesForever(cfg, "A", q, Bound(cfg, lag));
    steps, symbol, call := [Fetch("A", CallAt(0, AV.Got(q), 1))], "A", CallAt(Bound(cfg, lag), AV.NoBody, 0);
    RedisServesAlone(cfg, Run(cfg, EMPTY, steps), symbol, call);
  }

  // A hit asks nothing.
  lemma RedisServesAlone(cfg: Config, w: World, symbol: Symbol, call: Call)
    ensures var out := FetchSymbol(cfg, w, symbol, call);
            out.served.Some? && out.served.value.origin.FromRedis? ==> out.answers == []
  {
    hide ReadFields;
  }

  lemma UnitPriceSettles(q: Quote)
    requires q.price == 1.0 && q.open == 0.0 && q.high == 0.0 && q.low == 0.0 && q.symbol != ""
    ensures Settled(q.symbol, q).IsValid()
  {
    Pow10Table();
    assert SignedUnits(1.0, 6) == 1_000_000 && SignedUnits(0.0, 6) == 0;
  }

  // The two lifetimes really add up: a failed first write and a late second one let Redis serve a quote of
  // age client TTL + Redis TTL - 2 ticks.
  lemma LifetimesAddUp(cfg: Config, symbol: Symbol, q: Quote)
    requires symbol != "" && Settled(symbol, q).IsValid() && cfg.clientTtl > 0 && cfg.redisTtl > 0
    ensures var t := cfg.clientTtl - 1;
            var steps := [Fetch(symbol, CallAt(0, AV.Got(q), 0)), Fetch(symbol, CallAt(t, AV.NoBody, 4))];
            && TimelyRun(cfg, EMPTY, steps) && SoundRun(cfg, EMPTY, steps, 0)
            && AnswersOf(cfg, EMPTY, steps) == [Answer(symbol, q.(symbol := symbol), 0)]
            && FetchSymbol(cfg, Run(cfg, EMPTY, steps), symbol, CallAt(t + cfg.redisTtl - 1, AV.NoBody, 0)).served
               == Some(Served(Settled(symbol, q), FromRedis, cfg.clientTtl + cfg.redisTtl - 2))
  {
    hide ReadFields, QuoteFields;
    var t, p := cfg.clientTtl - 1, q.(symbol := symbol);
    var first, second := Fetch(symbol, CallAt(0, AV.Got(q), 0)), Fetch(symbol, CallAt(t, AV.NoBody, 4));
    var w1 := Next(cfg, EMPTY, first).world;
    assert w1 == World(map[symbol := AV.CacheEntry(p, 0)], map[], 0);
    var w2 := Next(cfg, w1, second).world;
    assert w2.hashes == map[symbol := QuoteHash(QuoteFields(p), Some(t + cfg.redisTtl))];
    RunOfTwo(cfg, EMPTY, first, second);
    WithinIsSound(cfg, EMPTY, [first, second], 0, iset{0, 4});
    StoreThenGet(symbol, p);
  }

  lemma RunOfTwo(cfg: Config, w: World, a: Step, b: Step)
    ensures var w1 := Next(cfg, w, a).world;
            && Run(cfg, w, [a, b]) == Next(cfg, w1, b).world
            && AnswersOf(cfg, w, [a, b]) == Next(cfg, w, a).answers + Next(cfg, w1, b).answers
            && (TimelyRun(cfg, w, [a, b]) <==> Timely(w, a) && Timely(w1, b))
  {
    var w1 := Next(cfg, w, a).world;
    assert [a, b][1..] == [b];
    assert [b][1..] == [];
    var w2, last := Next(cfg, w1, b).world, Next(cfg, w1, b).answers;
    assert Run(cfg, w1, [b]) == Run(cfg, w2, []) == w2;
    assert AnswersOf(cfg, w1, [b]) == last + AnswersOf(cfg, w2, []) == last;
    assert TimelyRun(cfg, w1, [b]) <==> Timely(w1, b) && TimelyRun(cfg, w2, []);
  }

  // ---- Rate ----

  // The call of the first later fetch_symbol on the symbol that asks the source.
  function FirstAsk(cfg: Config, w: World, steps: seq<Step>, symbol: Symbol): Option<Call>
    decreases |steps|
  {
    if steps == [] then None
    else if steps[0].Fetch? && steps[0].symbol == symbol && Next(cfg, w, steps[0]).asked then Some(steps[0].call)
    else FirstAsk(cfg, Next(cfg, w, steps[0]).world, steps[1..], symbol)
  }

  predicate ReadsWork(steps: seq<Step>) {
    forall s :: s in steps && s.Fetch? ==> s.call.read.ReadWorks?
  }

  // The client holds an answer no older than t; Redis serves the symbol until `until`.
  predicate ClientHolds(w: World, symbol: Symbol, t: int) {
    symbol in w.client && w.client[symbol].fetchedAt >= t
  }

  predicate RedisHolds(w: World, symbol: Symbol, until: int) {
    || w.now >= until
    || (&& symbol in w.hashes
        && (w.hashes[symbol].expiresAt.Some? ==> w.hashes[symbol].expiresAt.value >= until)
        && ReadFields(symbol, w.hashes[symbol].fields).Some?)
  }

  lemma {:induction false} ClientLimitsAsks(cfg: Config, w: World, steps: seq<Step>, symbol: Symbol, t: int)
    requires ClientHolds(w, symbol, t) && TimelyRun(cfg, w, steps) && symbol != "" && w.now >= t
    ensures var ask := FirstAsk(cfg, w, steps, symbol); ask.Some? ==> ask.value.clientAt >= t + cfg.clientTtl
    decreases |steps|
  {
    if steps != [] {
      var out := Next(cfg, w, steps[0]);
      if !(steps[0].Fetch? && steps[0].symbol == symbol && out.asked) {
        assert ClientHolds(out.world, symbol, t);
        ClientLimitsAsks(cfg, out.world, steps[1..], symbol, t);
      }
    }
  }

  lemma {:induction false} RedisLimitsAsks(cfg: Config, w: World, steps: seq<Step>, symbol: Symbol, until: int)
    requires RedisHolds(w, symbol, until) && TimelyRun(cfg, w, steps) && ReadsWork(steps)
    ensures var ask := FirstAsk(cfg, w, steps, symbol); ask.Some? ==> ask.value.readAt >= until
    decreases |steps|
  {
    if steps != [] {
      var s, out := steps[0], Next(cfg, w, steps[0]);
      assert s in steps;
      if !(s.Fetch? && s.symbol == symbol && out.asked) {
        RedisHoldsOn(cfg, w, s, symbol, until);
        RedisLimitsAsks(cfg, out.world, steps[1..], symbol, until);
      }
    }
  }

  lemma RedisHoldsOn(cfg: Config, w: World, s: Step, symbol: Symbol, until: int)
    requires RedisHolds(w, symbol, until) && Timely(w, s) && (s.Fetch? ==> s.call.read.ReadWorks?)
    ensures RedisHolds(Next(cfg, w, s).world, symbol, until)
  {
    hide ReadFields, QuoteFields;
    if s.Fetch? && s.symbol == symbol && s.call.readAt < until {
      assert RedisRead(w.hashes, symbol, s.call).Some?;
    }
  }

  // After the source answered with a quote that Redis can serve, and the quote was stored, fetch_symbol asks
  // the source for that symbol again only once both lifetimes have passed, in whatever run follows. The
  // client's lifetime holds even if Redis reads fail meanwhile.
  lemma NextAskIsLater(cfg: Config, w: World, symbol: Symbol, call: Call, steps: seq<Step>)
    requires Timely(w, Fetch(symbol, call)) && symbol != ""
    requires var out := FetchSymbol(cfg, w, symbol, call);
             && out.answers != [] && !call.cachedThrows && call.store.done >= 4
             && Settled(symbol, out.answers[0].quote).IsValid()
             && TimelyRun(cfg, out.world, steps)
    ensures var ask := FirstAsk(cfg, FetchSymbol(cfg, w, symbol, call).world, steps, symbol);
            ask.Some? ==>
              && ask.value.clientAt >= call.fetchedAt + cfg.clientTtl
              && (ReadsWork(steps) ==> ask.value.readAt >= call.storeAt + cfg.redisTtl)
  {
    var out := FetchSymbol(cfg, w, symbol, call);
    var q := out.answers[0].quote;
    ClientLimitsAsks(cfg, out.world, steps, symbol, call.fetchedAt);
    if ReadsWork(steps) {
      StoredIsReadable(w.hashes, symbol, q, call.storeAt, cfg.redisTtl, call.store.done);
      RedisLimitsAsks(cfg, out.world, steps, symbol, call.storeAt + cfg.redisTtl);
    }
  }

  // A complete store leaves the quote readable until its time to live ends, whatever the hash held before.
  lemma StoredIsReadable(hashes: QuoteHashes, symbol: Symbol, q: Quote, now: int, ttl: int, done: nat)
    requires done >= 2 && Settled(symbol, q).IsValid()
    ensures var after := StoredHashes(hashes, symbol, q, now, ttl, done);
            && symbol in after && after[symbol].expiresAt == Some(now + ttl)
            && ReadFields(symbol, after[symbol].fields) == Some(Settled(symbol, q))
  {
    hide Stod, Stoull, Stoll, QuoteFields;
    var before := if Visible(hashes, symbol, now) then hashes[symbol].fields else map[];
    var fields := before + QuoteFields(q);
    FieldTexts(q);
    FieldsRoundTrip(symbol, q);
    assert FieldsQuote(symbol, fields) == FieldsQuote(symbol, QuoteFields(q));
    assert PriceField in fields;
    assert before == map[] ==> fields == QuoteFields(q);
  }
}

/** The command loop: fetches and statistics resets one after the other, each exception caught and the loop going
    on. A session of fetches moves the two cache tiers as a run of the timed machine does, so the machine's bounds
    are the session's; and it adds to the database what its fetches insert, nothing else. */
module CliSession {
  import opened Common
  import opened Quotes
  import opened FinCoreCli
  import Database
  import Domain
  import FixedText
  import Persistence
  import QF = QuoteFlow
  import Repository
  import RS = RedisStore
  import SessionStats
  import TS = Timestamp

  // The commands that change anything.
  datatype Command = Fetch(raw: string, script: FetchScript) | ResetStats

  // ---- Reference: the run of the timed machine that a session amounts to ----

  predicate Known(known: set<Symbol>, c: Command) {
    c.Fetch? && TS.Upper(c.raw) in known
  }

  function StepsOf(known: set<Symbol>, commands: seq<Command>): seq<QF.Step> {
    if commands == [] then []
    else
      var front, c := StepsOf(known, commands[..|commands| - 1]), commands[|commands| - 1];
      if Known(known, c) then front + [QF.Fetch(TS.Upper(c.raw), c.script.call)] else front
  }

  function WorldAfter(cfg: QF.Config, w: QF.World, known: set<Symbol>, commands: seq<Command>): QF.World {
    QF.Run(cfg, w, StepsOf(known, commands))
  }

  // What command number i serves.
  function ServedAt(cfg: QF.Config, w: QF.World, known: set<Symbol>, commands: seq<Command>, i: nat): Option<QF.Served>
    requires i < |commands|
  {
    var c := commands[i];
    if Known(known, c) then
      QF.FetchSymbol(cfg, WorldAfter(cfg, w, known, commands[..i]), TS.Upper(c.raw), c.script.call).served
    else None
  }

  function Rebuilt(built: map<Symbol, Quote>, cfg: QF.Config, w: QF.World, c: Command): map<Symbol, Quote>
    requires c.Fetch?
  {
    match Built(cfg, w, TS.Upper(c.raw), c.script)
    case None => built
    case Some(q) => built[TS.Upper(c.raw) := q]
  }

  // The quote each book was last built from.
  function BuiltAfter(cfg: QF.Config, w: QF.World, known: set<Symbol>, commands: seq<Command>,
                      before: map<Symbol, Quote>): map<Symbol, Quote> {
    if commands == [] then before
    else
      var front, c := commands[..|commands| - 1], commands[|commands| - 1];
      var built := BuiltAfter(cfg, w, known, front, before);
      if Known(known, c) then Rebuilt(built, cfg, WorldAfter(cfg, w, known, front), c) else built
  }

  // The quote command number i builds from, if it does.
  function BuiltAt(cfg: QF.Config, w: QF.World, known: set<Symbol>, commands: seq<Command>, i: nat): Option<Quote>
    requires i < |commands|
  {
    var c := commands[i];
    if Known(known, c) then Built(cfg, WorldAfter(cfg, w, known, commands[..i]), TS.Upper(c.raw), c.script) else None
  }

  // The order-book keys of Redis.
  function KeysAfter(cfg: QF.Config, w: QF.World, known: set<Symbol>, commands: seq<Command>,
                     before: RS.BookHashes): RS.BookHashes {
    if commands == [] then before
    else
      var n := |commands| - 1;
      var keys := KeysAfter(cfg, w, known, commands[..n], before);
      if !Known(known, commands[n]) then keys
      else BooksAfter(keys, BuiltAt(cfg, w, known, commands, n), TS.Upper(commands[n].raw), commands[n].script)
  }

  // The history of a symbol.
  function HistoryAfter(cfg: QF.Config, w: QF.World, known: set<Symbol>, commands: seq<Command>, symbol: Symbol,
                        before: seq<string>): seq<string> {
    if commands == [] then before
    else
      var n := |commands| - 1;
      var c, history := commands[n], HistoryAfter(cfg, w, known, commands[..n], symbol, before);
      if !Known(known, c) || TS.Upper(c.raw) != symbol then history
      else
        match PushedAt(cfg, w, known, commands, n)
        case None => history
        case Some(q) => RS.StoredHistory(history, RS.HistoryEntry(q), c.script.call.store.done)
  }

  function PushedAt(cfg: QF.Config, w: QF.World, known: set<Symbol>, commands: seq<Command>, i: nat): Option<Quote>
    requires i < |commands| && Known(known, commands[i])
  {
    var c := commands[i];
    PushedQuote(QF.FetchSymbol(cfg, WorldAfter(cfg, w, known, commands[..i]), TS.Upper(c.raw), c.script.call))
  }

  // What a fetch may have inserted: nothing, the quote, or the quote and then the snapshot; both if it ended well.
  predicate Inserts(applied: seq<Database.Statement>, built: Option<Quote>, symbol: Symbol, s: FetchScript, ok: bool) {
    if built.None? || BookOutcome(built.value, s).Err? then applied == []
    else
      var quote, snapshot := QuoteInsert(built.value, s), SnapshotInsert(symbol, built.value, s);
      && (applied == [] || (quote.Some? && applied == [quote.value])
          || (quote.Some? && snapshot.Some? && applied == [quote.value, snapshot.value]))
      && (ok ==> |applied| == 2)
  }

  // The server could take the quote, and nothing disturbed its transaction.
  predicate MustInsert(t: Database.Tables, built: Option<Quote>, s: FetchScript) {
    && built.Some? && BookOutcome(built.value, s).Ok? && Repository.FaultFree(s.quoteDb, 1)
    && Persistence.Inserted(t, QuoteInsert(built.value, s)).Some?
  }

  // The server could take both rows, and nothing disturbed their transactions.
  predicate MustStoreBoth(t: Database.Tables, built: Option<Quote>, symbol: Symbol, s: FetchScript) {
    && MustInsert(t, built, s) && Repository.FaultFree(s.snapshotDb, 1)
    && Persistence.Inserted(Persistence.Inserted(t, QuoteInsert(built.value, s)).value,
                            SnapshotInsert(symbol, built.value, s)).Some?
  }

  // Everything a session moves but the database and the statistics.
  datatype Held = Held(world: QF.World, built: map<Symbol, Quote>, keys: RS.BookHashes,
                       histories: map<Symbol, seq<string>>)

  ghost function HeldBy(cli: FinCoreCli): Held
    reads cli`lastBuilt, cli.client, cli.redis
  {
    Held(cli.World(), cli.lastBuilt, cli.redis.books, cli.redis.histories)
  }

  // Two worlds that differ in the clock only.
  predicate Agree(w: QF.World, v: QF.World) {
    w.client == v.client && w.hashes == v.hashes
  }

  // One command.
  ghost predicate StepHeld(cfg: QF.Config, known: set<Symbol>, c: Command, before: Held, after: Held) {
    if !Known(known, c) then after == before
    else
      var symbol := TS.Upper(c.raw);
      var out := QF.FetchSymbol(cfg, before.world, symbol, c.script.call);
      var built := Built(cfg, before.world, symbol, c.script);
      && Agree(after.world, out.world)
      && after.built == Rebuilt(before.built, cfg, before.world, c)
      && after.keys == BooksAfter(before.keys, built, symbol, c.script)
      && HistoriesAfter(before.histories, after.histories, symbol, PushedQuote(out), c.script)
  }

  // A whole session.
  ghost predicate SessionHeld(cfg: QF.Config, known: set<Symbol>, commands: seq<Command>, before: Held, after: Held) {
    && Agree(after.world, WorldAfter(cfg, before.world, known, commands))
    && after.built == BuiltAfter(cfg, before.world, known, commands, before.built)
    && after.keys == KeysAfter(cfg, before.world, known, commands, before.keys)
    && forall t :: RS.HistoryOf(after.histories, t)
                   == HistoryAfter(cfg, before.world, known, commands, t, RS.HistoryOf(before.histories, t))
  }

  // What a session of fetches that leave no block open does to the database: it carries out `applied`, command by
  // command, and nothing else; no block stays open; and while no connection is lost, a quote the server can take is
  // among them whenever nothing disturbs its transaction.
  ghost predicate SessionStored(cfg: QF.Config, w: QF.World, known: set<Symbol>, commands: seq<Command>,
                                results: seq<Result<bool, Error>>, before: DbState, after: DbState,
                                applied: seq<seq<Database.Statement>>) {
    && |applied| == |results| == |commands|
    && after.idle && after.seen == after.committed
    && Repository.AfterBatches(before.committed, applied) == Ok(after.committed)
    && (before.ready && AllLossless(commands) ==> after.ready)
    && forall i :: 0 <= i < |commands| ==>
         StoredAt(cfg, w, known, commands, i, results[i].Ok?, before, applied)
  }

  ghost predicate StoredAt(cfg: QF.Config, w: QF.World, known: set<Symbol>, commands: seq<Command>, i: nat, ok: bool,
                           before: DbState, applied: seq<seq<Database.Statement>>)
    requires i < |applied| == |commands|
  {
    var c, built := commands[i], BuiltAt(cfg, w, known, commands, i);
    if !Known(known, c) then applied[i] == []
    else
      && Inserts(applied[i], built, TS.Upper(c.raw), c.script, ok)
      && (before.ready && AllLossless(commands[..i])
          && Repository.AfterBatches(before.committed, applied[..i]).Ok? ==>
            var t := Repository.AfterBatches(before.committed, applied[..i]).value;
            && (MustInsert(t, built, c.script) ==> applied[i] != [])
            && (MustStoreBoth(t, built, TS.Upper(c.raw), c.script) ==> ok))
  }

  // What a command leaves in the statistics and answers: a reset clears them; a fetch of an unknown symbol is refused
  // unrecorded; any other fetch is recorded once, and without a database only the stages before it can throw.
  predicate StepRecorded(cfg: QF.Config, known: set<Symbol>, c: Command, w: QF.World, result: Result<bool, Error>,
                         unstored: bool, before: seq<SessionStats.Metrics>, after: seq<SessionStats.Metrics>) {
    if c.ResetStats? then result == Ok(true) && after == []
    else if !Known(known, c) then result == Err(InvalidArgument) && after == before
    else
      var symbol := TS.Upper(c.raw);
      var built := Built(cfg, w, symbol, c.script);
      && after == before + [Recorded(cfg, w, symbol, c.script, result == Ok(true))]
      && ResultAfter(cfg, w, symbol, c.script, result)
      && (unstored && built.Some? && BookOutcome(built.value, c.script).Ok? ==> result.Ok?)
  }

  // The same for the whole session: `logs` are the recorded operations before each command and at the end.
  predicate SessionRecorded(cfg: QF.Config, w: QF.World, known: set<Symbol>, commands: seq<Command>,
                            results: seq<Result<bool, Error>>, unstored: bool, logs: seq<seq<SessionStats.Metrics>>) {
    && |results| == |commands| && |logs| == |commands| + 1
    && forall i :: 0 <= i < |commands| ==>
         StepRecorded(cfg, known, commands[i], WorldAfter(cfg, w, known, commands[..i]), results[i], unstored, logs[i],
                      logs[i + 1])
  }

  // Everything a session moves.
  datatype State = State(held: Held, log: seq<SessionStats.Metrics>, db: Option<DbState>)

  ghost function StateOf(cli: FinCoreCli): State
    reads cli`lastBuilt, cli.client, cli.redis, cli.stats`log, cli.Connections()
  {
    State(HeldBy(cli), cli.stats.log, cli.Db())
  }

  // A whole session, with the statements its commands carried out and the records at each point.
  ghost predicate SessionRan(cfg: QF.Config, known: set<Symbol>, commands: seq<Command>,
                             results: seq<Result<bool, Error>>, before: State, after: State,
                             applied: seq<seq<Database.Statement>>, logs: seq<seq<SessionStats.Metrics>>) {
    && SessionHeld(cfg, known, commands, before.held, after.held)
    && SessionRecorded(cfg, before.held.world, known, commands, results, after.db.None?, logs)
    && logs[0] == before.log && logs[|commands|] == after.log
    && before.db.Some? == after.db.Some?
    && (before.db.Some? && before.db.value.idle && AllTidy(commands) ==>
          SessionStored(cfg, before.held.world, known, commands, results, before.db.value, after.db.value, applied))
  }

  ghost predicate AllTidy(commands: seq<Command>) {
    forall c :: c in commands && c.Fetch? ==> Tidy(c.script)
  }

  ghost predicate AllLossless(commands: seq<Command>) {
    forall c :: c in commands && c.Fetch? ==> Lossless(c.script)
  }

  // ---- The source's loop ----

  // One command, from the state before it.
  ghost predicate StepRan(cfg: QF.Config, known: set<Symbol>, c: Command, result: Result<bool, Error>, before: State,
                          after: State) {
    && StepHeld(cfg, known, c, before.held, after.held)
    && StepRecorded(cfg, known, c, before.held.world, result, after.db.None?, before.log, after.log)
    && if !Known(known, c) then after.db == before.db
       else
         var symbol := TS.Upper(c.raw);
         DatabaseAfter(before.db, after.db, Built(cfg, before.held.world, symbol, c.script), symbol, c.script,
                       result.Ok?)
  }

  method RunCommand(cli: FinCoreCli, c: Command) returns (r: Result<bool, Error>)
    requires cli.Valid()
    modifies cli`booksWithData, cli`lastBuilt, cli.books.Values, cli.client, cli.redis, cli.stats, cli.Connections()
    ensures cli.Valid()
    ensures StepRan(cli.Config(), cli.books.Keys, c, r, old(StateOf(cli)), StateOf(cli))
    ensures !Known(cli.books.Keys, c) && c.Fetch? ==> r == Err(InvalidArgument)
    ensures Known(cli.books.Keys, c) && r == Ok(true) ==>
              QF.FetchSymbol(cli.Config(), old(cli.World()), TS.Upper(c.raw), c.script.call).served.Some?
  {
    hide QF.FetchSymbol, Built, Searched, Recorded, DatabaseAfter, BooksAfter, HistoriesAfter, TS.Upper;
    hide PushedQuote, SessionStats.AllFetches, SessionStats.CountersOf, SessionStats.SeriesOf;
    hide ResultAfter, BookOutcome, SessionStats.UserCpuUs, SessionStats.SystemCpuUs, SessionStats.PeakRss;
    hide SessionStats.LastRss, SessionStats.LastRecorded, FinCoreCli.BooksValid;
    match c
    case Fetch(raw, script) =>
      ghost var cfg, w := cli.Config(), cli.World();
      r := cli.FetchSymbol(raw, script);
      SuccessServes(cfg, w, TS.Upper(raw), script, r);
      UnstoredAnswers(cli.Db(), Built(cfg, w, TS.Upper(raw), script), TS.Upper(raw), script, r);
    case ResetStats =>
      cli.ResetStats();
      r := Ok(true);
  }

  lemma SuccessServes(cfg: QF.Config, w: QF.World, symbol: Symbol, s: FetchScript, r: Result<bool, Error>)
    ensures ResultAfter(cfg, w, symbol, s, r) && r == Ok(true) ==> QF.FetchSymbol(cfg, w, symbol, s.call).served.Some?
  {
    hide QF.FetchSymbol;
  }

  lemma UnstoredAnswers(after: Option<DbState>, built: Option<Quote>, symbol: Symbol, s: FetchScript,
                        r: Result<bool, Error>)
    ensures forall before :: DatabaseAfter(before, after, built, symbol, s, r.Ok?) ==>
              after.None? && built.Some? && BookOutcome(built.value, s).Ok? ==> r.Ok?
  {
    hide BookOutcome;
  }

  // The loop. A caught exception only ends its own command.
  method RunCommands(cli: FinCoreCli, commands: seq<Command>)
    returns (results: seq<Result<bool, Error>>, ghost applied: seq<seq<Database.Statement>>,
             ghost logs: seq<seq<SessionStats.Metrics>>)
    requires cli.Valid()
    modifies cli`booksWithData, cli`lastBuilt, cli.books.Values, cli.client, cli.redis, cli.stats, cli.Connections()
    ensures cli.Valid()
    ensures SessionRan(cli.Config(), cli.books.Keys, commands, results, old(StateOf(cli)), StateOf(cli), applied, logs)
  {
    hide SessionStats.AllFetches, SessionStats.CountersOf, SessionStats.SeriesOf, SessionRan, StepRan, Known, TS.Upper;
    results, applied, logs := [], [], [cli.stats.log];
    ghost var start := StateOf(cli);
    NothingRan(cli.Config(), cli.books.Keys, start);
    for i := 0 to |commands|
      invariant cli.Valid() && |results| == i
      invariant SessionRan(cli.Config(), cli.books.Keys, commands[..i], results, start, StateOf(cli), applied, logs)
    {
      ghost var before := StateOf(cli);
      var result := RunCommand(cli, commands[i]);
      applied, logs := OneMoreRan(cli.Config(), cli.books.Keys, commands, i, results, result, start, before,
                                  StateOf(cli), applied, logs);
      results := results + [result];
    }
    assert commands[..|commands|] == commands;
  }

  function Fetches(symbols: seq<Symbol>, scripts: seq<FetchScript>): seq<Command>
    requires |scripts| == |symbols|
  {
    seq(|symbols|, i requires 0 <= i < |symbols| => Fetch(symbols[i], scripts[i]))
  }

  // Every configured symbol in turn. An exception ends the loop and leaves what the fetches up to then did; otherwise
  // the answer is the number of fetches that succeeded.
  method FetchAll(cli: FinCoreCli, scripts: seq<FetchScript>)
    returns (r: Result<nat, Error>, ghost results: seq<Result<bool, Error>>,
             ghost applied: seq<seq<Database.Statement>>, ghost logs: seq<seq<SessionStats.Metrics>>)
    requires cli.Valid() && |scripts| == |cli.symbols|
    modifies cli`booksWithData, cli`lastBuilt, cli.books.Values, cli.client, cli.redis, cli.stats, cli.Connections()
    ensures cli.Valid() && |results| <= |cli.symbols|
    ensures SessionRan(cli.Config(), cli.books.Keys, Fetches(cli.symbols, scripts)[..|results|], results,
                       old(StateOf(cli)), StateOf(cli), applied, logs)
    ensures forall i :: 0 <= i < |results| - 1 ==> results[i].Ok?
    ensures r.Err? ==> results != [] && results[|results| - 1] == Err(r.error)
    ensures r.Ok? ==> |results| == |cli.symbols| && (results != [] ==> results[|results| - 1].Ok?)
                      && r.value == |Successes(results)|
    ensures cli.symbols == [] ==> r == Ok(0)
    ensures RecordsAdded(old(cli.stats.log), cli.stats.log, cli.symbols[..|results|], results)
  {
    hide SessionStats.AllFetches, SessionStats.CountersOf, SessionStats.SeriesOf, SessionRan, StepRan, TS.Upper;
    hide SessionStats.UserCpuUs, SessionStats.SystemCpuUs, SessionStats.PeakRss, SessionStats.LastRss;
    hide SessionStats.LastRecorded, FinCoreCli.BooksValid, Known, RecordsAdded, Successes;
    NoSuccesses();
    var successes := 0;
    results, applied, logs := [], [], [cli.stats.log];
    ghost var start, commands := StateOf(cli), Fetches(cli.symbols, scripts);
    NothingRan(cli.Config(), cli.books.Keys, start);
    for i := 0 to |cli.symbols|
      invariant cli.Valid() && |results| == i
      invariant SessionRan(cli.Config(), cli.books.Keys, commands[..i], results, start, StateOf(cli), applied, logs)
      invariant forall j :: 0 <= j < i ==> results[j].Ok?
      invariant successes == |Successes(results)|
    {
      ghost var before := StateOf(cli);
      var fetched := RunCommand(cli, Fetch(cli.symbols[i], scripts[i]));
      applied, logs := OneMoreRan(cli.Config(), cli.books.Keys, commands, i, results, fetched, start, before,
                                  StateOf(cli), applied, logs);
      OneMoreSuccess(results, fetched);
      results := results + [fetched];
      if fetched.Err? {
        AllRecorded(cli.Config(), cli.books.Keys, cli.symbols, scripts, results, start, StateOf(cli), applied, logs);
        return Err(fetched.error), results, applied, logs;
      }
      if fetched.value {
        successes := successes + 1;
      }
    }
    AllRecorded(cli.Config(), cli.books.Keys, cli.symbols, scripts, results, start, StateOf(cli), applied, logs);
    return Ok(successes), results, applied, logs;
  }

  lemma NoSuccesses()
    ensures Successes([]) == {}
  {
  }

  // The places of the fetches that succeeded.
  function Successes(results: seq<Result<bool, Error>>): set<int> {
    set i | 0 <= i < |results| && results[i] == Ok(true)
  }

  // One record for each symbol, in order, with its outcome; so the successes counted grow by those of the batch.
  predicate RecordsAdded(before: seq<SessionStats.Metrics>, after: seq<SessionStats.Metrics>, symbols: seq<Symbol>,
                         results: seq<Result<bool, Error>>) {
    && |results| == |symbols| && |after| == |before| + |symbols| && after[..|before|] == before
    && (forall i :: 0 <= i < |symbols| ==>
          && after[|before| + i].symbol == symbols[i]
          && after[|before| + i].success == (results[i] == Ok(true)))
    && SessionStats.Count(after, SessionStats.Succeeded)
       == SessionStats.Count(before, SessionStats.Succeeded) + |Successes(results)|
  }

  lemma AllRecorded(cfg: QF.Config, known: set<Symbol>, symbols: seq<Symbol>, scripts: seq<FetchScript>,
                    results: seq<Result<bool, Error>>, before: State, after: State,
                    applied: seq<seq<Database.Statement>>, logs: seq<seq<SessionStats.Metrics>>)
    requires |results| <= |symbols| == |scripts|
    requires forall s :: s in symbols ==> s in known && TS.Upper(s) == s
    requires SessionRan(cfg, known, Fetches(symbols, scripts)[..|results|], results, before, after, applied, logs)
    ensures RecordsAdded(before.log, after.log, symbols[..|results|], results)
  {
    hide SessionHeld, SessionStored, AllTidy, SessionRecorded, RecordsAdded, TS.Upper;
    RecordedUpTo(cfg, before.held.world, known, symbols, scripts, results, after.db.None?, logs, |results|);
    assert results[..|results|] == results;
  }

  lemma {:induction false} RecordedUpTo(cfg: QF.Config, w: QF.World, known: set<Symbol>, symbols: seq<Symbol>,
                                        scripts: seq<FetchScript>, results: seq<Result<bool, Error>>, unstored: bool,
                                        logs: seq<seq<SessionStats.Metrics>>, n: nat)
    requires n <= |results| <= |symbols| == |scripts|
    requires forall s :: s in symbols ==> s in known && TS.Upper(s) == s
    requires SessionRecorded(cfg, w, known, Fetches(symbols, scripts)[..|results|], results, unstored, logs)
    ensures RecordsAdded(logs[0], logs[n], symbols[..n], results[..n])
  {
    hide QF.Run, RecordsAdded, StepRecorded, TS.Upper;
    if n == 0 {
      NothingAdded(logs[0]);
    } else {
      var k := n - 1;
      RecordedUpTo(cfg, w, known, symbols, scripts, results, unstored, logs, k);
      var commands := Fetches(symbols, scripts)[..|results|];
      var now := WorldAfter(cfg, w, known, commands[..k]);
      assert symbols[k] in symbols && commands[k] == Fetch(symbols[k], scripts[k]);
      assert StepRecorded(cfg, known, commands[k], now, results[k], unstored, logs[k], logs[k + 1]);
      var record := StepAdds(cfg, known, commands[k], now, results[k], unstored, logs[k], logs[k + 1]);
      OneMoreRecord(logs[0], logs[k], symbols[..k], results[..k], record, results[k]);
      assert symbols[..n] == symbols[..k] + [symbols[k]] && results[..n] == results[..k] + [results[k]];
    }
  }

  lemma NothingAdded(log: seq<SessionStats.Metrics>)
    ensures RecordsAdded(log, log, [], [])
  {
    hide SessionStats.Count;
    NoSuccesses();
  }

  lemma StepAdds(cfg: QF.Config, known: set<Symbol>, c: Command, w: QF.World, result: Result<bool, Error>,
                 unstored: bool, before: seq<SessionStats.Metrics>, after: seq<SessionStats.Metrics>)
    returns (record: SessionStats.Metrics)
    requires Known(known, c) && StepRecorded(cfg, known, c, w, result, unstored, before, after)
    ensures after == before + [record] && record.symbol == TS.Upper(c.raw) && record.success == (result == Ok(true))
  {
    hide ResultAfter, Recorded, BookOutcome, Built, TS.Upper;
    record := Recorded(cfg, w, TS.Upper(c.raw), c.script, result == Ok(true));
    RecordIsShaped(cfg, w, TS.Upper(c.raw), c.script, result);
  }

  lemma OneMoreRecord(before: seq<SessionStats.Metrics>, log: seq<SessionStats.Metrics>, symbols: seq<Symbol>,
                      results: seq<Result<bool, Error>>, record: SessionStats.Metrics, r: Result<bool, Error>)
    requires RecordsAdded(before, log, symbols, results) && record.success == (r == Ok(true))
    ensures RecordsAdded(before, log + [record], symbols + [record.symbol], results + [r])
  {
    hide SessionStats.Count;
    SessionStats.CountAppend(log, record, SessionStats.Succeeded);
    OneMoreSuccess(results, r);
  }

  lemma OneMoreSuccess(results: seq<Result<bool, Error>>, r: Result<bool, Error>)
    ensures |Successes(results + [r])| == |Successes(results)| + if r == Ok(true) then 1 else 0
  {
    assert Successes(results + [r]) == Successes(results) + if r == Ok(true) then {|results|} else {};
  }

  // Every success of a session served a quote.
  lemma SuccessesServe(cfg: QF.Config, known: set<Symbol>, commands: seq<Command>, results: seq<Result<bool, Error>>,
                       before: State, after: State, applied: seq<seq<Database.Statement>>,
                       logs: seq<seq<SessionStats.Metrics>>, i: nat)
    requires SessionRan(cfg, known, commands, results, before, after, applied, logs)
    requires i < |commands| && commands[i].Fetch? && results[i] == Ok(true)
    ensures ServedAt(cfg, before.held.world, known, commands, i).Some?
  {
    hide QF.FetchSymbol, QF.Run, SessionHeld, SessionStored, AllTidy, ResultAfter, Recorded, BookOutcome, Built;
    var c := commands[i];
    assert StepRecorded(cfg, known, c, WorldAfter(cfg, before.held.world, known, commands[..i]), results[i],
                        after.db.None?, logs[i], logs[i + 1]);
    SuccessServes(cfg, WorldAfter(cfg, before.held.world, known, commands[..i]), TS.Upper(c.raw), c.script,
                  results[i]);
  }

  lemma NothingRan(cfg: QF.Config, known: set<Symbol>, start: State)
    requires start.db.Some? && start.db.value.idle ==> start.db.value.seen == start.db.value.committed
    ensures SessionRan(cfg, known, [], [], start, start, [], [start.log])
  {
    NothingHeld(cfg, known, start.held);
    NothingRecorded(cfg, start.held.world, known, start.db.None?, start.log);
    if start.db.Some? && start.db.value.idle {
      NothingStored(cfg, start.held.world, known, start.db.value);
    }
  }

  lemma OneMoreRan(cfg: QF.Config, known: set<Symbol>, commands: seq<Command>, i: nat,
                   results: seq<Result<bool, Error>>, result: Result<bool, Error>, start: State, before: State,
                   after: State, applied: seq<seq<Database.Statement>>, logs: seq<seq<SessionStats.Metrics>>)
    returns (more: seq<seq<Database.Statement>>, moreLogs: seq<seq<SessionStats.Metrics>>)
    requires i < |commands| && SessionRan(cfg, known, commands[..i], results, start, before, applied, logs)
    requires StepRan(cfg, known, commands[i], result, before, after)
    requires after.db.Some? && after.db.value.idle ==> after.db.value.seen == after.db.value.committed
    ensures SessionRan(cfg, known, commands[..i + 1], results + [result], start, after, more, moreLogs)
  {
    hide StepHeld, SessionHeld, SessionStored, DatabaseAfter, Built, Known, StepRecorded, Tidy;
    more, moreLogs := applied, logs + [after.log];
    HeldOneMore(cfg, known, commands, i, start.held, before.held, after.held);
    SameDatabase(cfg, known, commands[i], result, before, after);
    RecordedOneMore(cfg, known, commands, i, start.held, before.held, results, result, after.db.None?, logs,
                    after.log);
    if start.db.Some? && start.db.value.idle && AllTidy(commands[..i + 1]) {
      assert commands[..i + 1][i] == commands[i] && forall c :: c in commands[..i] ==> c in commands[..i + 1];
      var one := StoredOneMore(cfg, known, commands, i, start.held, before.held, results, result, start.db.value,
                               before.db.value, after.db.value, applied);
      more := applied + [one];
    }
  }

  lemma SameDatabase(cfg: QF.Config, known: set<Symbol>, c: Command, result: Result<bool, Error>, before: State,
                     after: State)
    requires StepRan(cfg, known, c, result, before, after)
    ensures before.db.Some? == after.db.Some?
  {
    hide StepHeld, StepRecorded, Built, BookOutcome, SessionKept, BothOutcome;
  }

  lemma NothingHeld(cfg: QF.Config, known: set<Symbol>, start: Held)
    ensures SessionHeld(cfg, known, [], start, start)
  {
    EmptyRun(cfg, start.world);
  }

  lemma NothingStored(cfg: QF.Config, w: QF.World, known: set<Symbol>, db: DbState)
    requires db.idle && db.seen == db.committed
    ensures SessionStored(cfg, w, known, [], [], db, db, [])
  {
  }

  lemma NothingRecorded(cfg: QF.Config, w: QF.World, known: set<Symbol>, unstored: bool,
                        log: seq<SessionStats.Metrics>)
    ensures SessionRecorded(cfg, w, known, [], [], unstored, [log])
  {
  }

  lemma RecordedOneMore(cfg: QF.Config, known: set<Symbol>, commands: seq<Command>, i: nat, start: Held, held: Held,
                        results: seq<Result<bool, Error>>, result: Result<bool, Error>, unstored: bool,
                        logs: seq<seq<SessionStats.Metrics>>, log: seq<SessionStats.Metrics>)
    requires i < |commands| && SessionHeld(cfg, known, commands[..i], start, held) && |logs| == i + 1
    requires SessionRecorded(cfg, start.world, known, commands[..i], results, unstored, logs)
    requires StepRecorded(cfg, known, commands[i], held.world, result, unstored, logs[i], log)
    ensures SessionRecorded(cfg, start.world, known, commands[..i + 1], results + [result], unstored, logs + [log])
  {
    hide StepRecorded, QF.Run;
    var w, upto := start.world, commands[..i + 1];
    assert upto[..i] == commands[..i];
    RecordedLikewise(cfg, known, commands[i], held.world, WorldAfter(cfg, w, known, commands[..i]), result, unstored,
                     logs[i], log);
    forall j | 0 <= j < i
      ensures upto[..j] == commands[..i][..j] && upto[j] == commands[..i][j]
    {
    }
  }

  // The clock reading a world carries does not matter to the records.
  lemma RecordedLikewise(cfg: QF.Config, known: set<Symbol>, c: Command, w: QF.World, v: QF.World,
                         result: Result<bool, Error>, unstored: bool, before: seq<SessionStats.Metrics>,
                         after: seq<SessionStats.Metrics>)
    requires Agree(w, v) && StepRecorded(cfg, known, c, w, result, unstored, before, after)
    ensures StepRecorded(cfg, known, c, v, result, unstored, before, after)
  {
    hide TS.Upper, QF.FetchSymbol, Stored, Written;
    if c.Fetch? {
      ClockIsInert(cfg, w, v, c);
    }
  }

  lemma HeldOneMore(cfg: QF.Config, known: set<Symbol>, commands: seq<Command>, i: nat, start: Held, held: Held,
                    after: Held)
    requires i < |commands| && SessionHeld(cfg, known, commands[..i], start, held)
    requires StepHeld(cfg, known, commands[i], held, after)
    ensures SessionHeld(cfg, known, commands[..i + 1], start, after)
  {
    hide QF.FetchSymbol, TS.Upper, Rebuilt, BooksAfter, PushedQuote, Built, RS.StoredHistory;
    var c, w := commands[i], start.world;
    OneMoreCommand(cfg, w, known, commands, i, start.built);
    assert commands[..i + 1][..i] == commands[..i] && commands[..i + 1][i] == c;
    if c.Fetch? {
      ClockIsInert(cfg, WorldAfter(cfg, w, known, commands[..i]), held.world, c);
    }
  }

  lemma ServedLikewise(cfg: QF.Config, known: set<Symbol>, commands: seq<Command>, i: nat, start: Held, held: Held)
    requires i < |commands| && SessionHeld(cfg, known, commands[..i], start, held)
    ensures Known(known, commands[i]) ==>
              var symbol, s := TS.Upper(commands[i].raw), commands[i].script;
              && ServedAt(cfg, start.world, known, commands, i)
                 == QF.FetchSymbol(cfg, held.world, symbol, s.call).served
              && BuiltAt(cfg, start.world, known, commands, i) == Built(cfg, held.world, symbol, s)
  {
    hide QF.FetchSymbol, TS.Upper, Built;
    if commands[i].Fetch? {
      ClockIsInert(cfg, WorldAfter(cfg, start.world, known, commands[..i]), held.world, commands[i]);
    }
  }

  // The statements one fetch carried out.
  lemma Carried(before: DbState, after: DbState, built: Option<Quote>, symbol: Symbol, s: FetchScript, ok: bool)
    returns (applied: seq<Database.Statement>)
    requires before.idle && before.seen == before.committed
    requires DatabaseAfter(Some(before), Some(after), built, symbol, s, ok)
    ensures Database.ExecuteAll(before.committed, applied).Ok?
    ensures Database.ExecuteAll(before.committed, applied).value.0 == after.committed
    ensures Inserts(applied, built, symbol, s, ok)
    ensures before.ready && MustInsert(before.committed, built, s) ==> applied != []
    ensures before.ready && MustStoreBoth(before.committed, built, symbol, s) ==> ok
  {
    hide Database.Execute, QuoteInsert, SnapshotInsert, BookOutcome, SessionKept, Persistence.Grown;
    var t := before.committed;
    applied := [];
    if built.Some? && BookOutcome(built.value, s).Ok? {
      var quote, snapshot := QuoteInsert(built.value, s), SnapshotInsert(symbol, built.value, s);
      var first := Persistence.Inserted(t, quote);
      if first.Some? && (ok || after.committed != t || FirstCommits(before, s)) {
        Persistence.ExecuteOne(t, quote.value);
        if !ok && after.committed == first.value {
          applied := [quote.value];
        } else {
          applied := [quote.value, snapshot.value];
          assert applied[..1] == [quote.value];
        }
      }
    }
  }

  lemma StoredOneMore(cfg: QF.Config, known: set<Symbol>, commands: seq<Command>, i: nat, start: Held, held: Held,
                      results: seq<Result<bool, Error>>, result: Result<bool, Error>, first: DbState, before: DbState,
                      after: DbState, applied: seq<seq<Database.Statement>>)
    returns (more: seq<Database.Statement>)
    requires i < |commands| && SessionHeld(cfg, known, commands[..i], start, held)
    requires commands[i].Fetch? ==> Tidy(commands[i].script)
    requires SessionStored(cfg, start.world, known, commands[..i], results, first, before, applied)
    requires after.idle ==> after.seen == after.committed
    requires var c := commands[i];
             if Known(known, c) then
               DatabaseAfter(Some(before), Some(after), Built(cfg, held.world, TS.Upper(c.raw), c.script),
                             TS.Upper(c.raw), c.script, result.Ok?)
             else after == before
    ensures SessionStored(cfg, start.world, known, commands[..i + 1], results + [result], first, after,
                          applied + [more])
  {
    hide DatabaseAfter, Built, TS.Upper, SessionHeld, Tidy, Lossless, StoredAt, AllLossless;
    hide Repository.AfterBatches, Database.ExecuteAll;
    var c, w := commands[i], start.world;
    LosslessOneMore(commands, i);
    assert commands[..i + 1][..i] == commands[..i] && commands[..i + 1][i] == c;
    more := NextStored(cfg, known, commands, i, start, held, result, first, before, after, applied);
    AppliedOneMore(first.committed, applied, more);
    StoredStill(cfg, w, known, commands, i, results, result, first, before, applied, more);
    if Known(known, c) {
      KeptOn(before, after, Built(cfg, held.world, TS.Upper(c.raw), c.script), TS.Upper(c.raw), c.script, result.Ok?);
    }
  }

  lemma LosslessOneMore(commands: seq<Command>, i: nat)
    requires i < |commands|
    ensures AllLossless(commands[..i + 1]) ==>
              AllLossless(commands[..i]) && (commands[i].Fetch? ==> Lossless(commands[i].script))
  {
    hide Lossless;
    assert commands[..i + 1] == commands[..i] + [commands[i]];
  }

  lemma AppliedOneMore(t: Database.Tables, applied: seq<seq<Database.Statement>>, more: seq<Database.Statement>)
    ensures Repository.AfterBatches(t, applied).Ok? ==>
              var outcome := Database.ExecuteAll(Repository.AfterBatches(t, applied).value, more);
              outcome.Ok? ==> Repository.AfterBatches(t, applied + [more]) == Ok(outcome.value.0)
  {
    hide Database.ExecuteAll;
    assert (applied + [more])[..|applied|] == applied;
  }

  lemma NextStored(cfg: QF.Config, known: set<Symbol>, commands: seq<Command>, i: nat, start: Held, held: Held,
                   result: Result<bool, Error>, first: DbState, before: DbState, after: DbState,
                   applied: seq<seq<Database.Statement>>)
    returns (more: seq<Database.Statement>)
    requires i < |commands| && |applied| == i && SessionHeld(cfg, known, commands[..i], start, held)
    requires before.idle && before.seen == before.committed
    requires Repository.AfterBatches(first.committed, applied) == Ok(before.committed)
    requires first.ready && AllLossless(commands[..i]) ==> before.ready
    requires var c := commands[i];
             if Known(known, c) then
               DatabaseAfter(Some(before), Some(after), Built(cfg, held.world, TS.Upper(c.raw), c.script),
                             TS.Upper(c.raw), c.script, result.Ok?)
             else after == before
    ensures Database.ExecuteAll(before.committed, more).Ok?
    ensures Database.ExecuteAll(before.committed, more).value.0 == after.committed
    ensures StoredAt(cfg, start.world, known, commands[..i + 1], i, result.Ok?, first, applied + [more])
  {
    hide DatabaseAfter, Built, TS.Upper, Inserts, MustInsert, MustStoreBoth, SessionHeld, Tidy, Lossless, QF.Run;
    hide Repository.AfterBatches, AllLossless;
    var c, upto := commands[i], commands[..i + 1];
    assert upto[..i] == commands[..i] && upto[i] == c;
    more := [];
    if Known(known, c) {
      var symbol := TS.Upper(c.raw);
      var built := Built(cfg, held.world, symbol, c.script);
      more := Carried(before, after, built, symbol, c.script, result.Ok?);
      ServedLikewise(cfg, known, commands, i, start, held);
    }
    assert (applied + [more])[..i] == applied;
  }

  lemma StoredStill(cfg: QF.Config, w: QF.World, known: set<Symbol>, commands: seq<Command>, i: nat,
                    results: seq<Result<bool, Error>>, result: Result<bool, Error>, first: DbState, before: DbState,
                    applied: seq<seq<Database.Statement>>, more: seq<Database.Statement>)
    requires i < |commands| && SessionStored(cfg, w, known, commands[..i], results, first, before, applied)
    ensures forall j :: 0 <= j < i ==>
              StoredAt(cfg, w, known, commands[..i + 1], j, (results + [result])[j].Ok?, first, applied + [more])
  {
    hide DatabaseAfter, Built, TS.Upper, Inserts, MustInsert, MustStoreBoth, QF.Run, Repository.AfterBatches;
    var upto, all := commands[..i + 1], applied + [more];
    forall j | 0 <= j < i
      ensures StoredAt(cfg, w, known, upto, j, (results + [result])[j].Ok?, first, all)
    {
      assert StoredAt(cfg, w, known, commands[..i], j, results[j].Ok?, first, applied);
      assert upto[..j] == commands[..i][..j] && all[..j] == applied[..j];
    }
  }

  lemma KeptOn(before: DbState, after: DbState, built: Option<Quote>, symbol: Symbol, s: FetchScript, ok: bool)
    requires DatabaseAfter(Some(before), Some(after), built, symbol, s, ok) && before.idle && Tidy(s)
    ensures after.idle && (before.ready && Lossless(s) ==> after.ready)
  {
    hide BothOutcome, Tidy, Lossless, QuoteInsert, SnapshotInsert;
  }

  lemma EmptyRun(cfg: QF.Config, w: QF.World)
    ensures QF.Run(cfg, w, []) == w
  {
  }

  // The clock reading a world carries does not matter to a fetch.
  lemma ClockIsInert(cfg: QF.Config, w: QF.World, v: QF.World, c: Command)
    requires Agree(w, v) && c.Fetch?
    ensures var symbol, call := TS.Upper(c.raw), c.script.call;
            QF.FetchSymbol(cfg, w, symbol, call) == QF.FetchSymbol(cfg, v, symbol, call)
    ensures Built(cfg, w, TS.Upper(c.raw), c.script) == Built(cfg, v, TS.Upper(c.raw), c.script)
    ensures forall built :: Rebuilt(built, cfg, w, c) == Rebuilt(built, cfg, v, c)
  {
    hide TS.Upper;
  }

  lemma {:induction false} RunAppend(cfg: QF.Config, w: QF.World, steps: seq<QF.Step>, s: QF.Step)
    ensures QF.Run(cfg, w, steps + [s]) == QF.Next(cfg, QF.Run(cfg, w, steps), s).world
    decreases |steps|
  {
    hide QF.Next;
    if steps == [] {
      assert [] + [s] == [s];
      EmptyRun(cfg, QF.Next(cfg, w, s).world);
    } else {
      assert (steps + [s])[1..] == steps[1..] + [s];
      RunAppend(cfg, QF.Next(cfg, w, steps[0]).world, steps[1..], s);
    }
  }

  lemma OneMoreCommand(cfg: QF.Config, w: QF.World, known: set<Symbol>, commands: seq<Command>, i: nat,
                       before: map<Symbol, Quote>)
    requires i < |commands|
    ensures var c, now := commands[i], WorldAfter(cfg, w, known, commands[..i]);
            && WorldAfter(cfg, w, known, commands[..i + 1])
               == (if Known(known, c) then QF.FetchSymbol(cfg, now, TS.Upper(c.raw), c.script.call).world else now)
            && BuiltAfter(cfg, w, known, commands[..i + 1], before)
               == (var built := BuiltAfter(cfg, w, known, commands[..i], before);
                   if Known(known, c) then Rebuilt(built, cfg, now, c) else built)
  {
    hide QF.FetchSymbol, TS.Upper, Rebuilt;
    var c := commands[i];
    assert commands[..i + 1][..i] == commands[..i];
    if Known(known, c) {
      RunAppend(cfg, w, StepsOf(known, commands[..i]), QF.Fetch(TS.Upper(c.raw), c.script.call));
    }
  }

  // ---- Main results: the database and the history over sessions ----

  // Committed rows only grow, by rows of the session's inserts.
  lemma SessionGrows(cfg: QF.Config, w: QF.World, known: set<Symbol>, commands: seq<Command>,
                     results: seq<Result<bool, Error>>, before: DbState, after: DbState,
                     applied: seq<seq<Database.Statement>>)
    requires SessionStored(cfg, w, known, commands, results, before, after, applied)
    ensures Persistence.Grown(before.committed, after.committed)
    ensures forall r :: r in after.committed.rows[|before.committed.rows|..] ==>
              exists s :: s in Repository.Flatten(applied) && Database.RowOf(s) == Some(r)
  {
    hide Database.RowOf, Database.Execute, StoredAt;
    var statements := Repository.Flatten(applied);
    Repository.BatchesAreOne(before.committed, applied);
    Database.BatchAppendsKept(before.committed, statements);
    var offered := Database.RowsOf(statements);
    forall r | r in Database.Kept(before.committed.rows, offered)
      ensures exists s :: s in statements && Database.RowOf(s) == Some(r)
    {
      KeptIsOffered(before.committed.rows, offered, r);
      var i :| 0 <= i < |offered| && offered[i] == r;
      assert statements[i] in statements && Database.RowOf(statements[i]) == Some(r);
    }
  }

  lemma {:induction false} KeptIsOffered(rows: seq<Database.Row>, batch: seq<Database.Row>, r: Database.Row)
    requires r in Database.Kept(rows, batch)
    ensures r in batch
  {
    var front, row := batch[..|batch| - 1], batch[|batch| - 1];
    if r in Database.Kept(rows, front) {
      KeptIsOffered(rows, front, r);
    }
  }

  lemma {:induction false} InFlatten(applied: seq<seq<Database.Statement>>, i: nat, s: Database.Statement)
    requires i < |applied| && s in applied[i]
    ensures s in Repository.Flatten(applied)
  {
    if i < |applied| - 1 {
      InFlatten(applied[..|applied| - 1], i, s);
    }
  }

  // The quote a fetch inserted, if newer than every other row present or inserted of its symbol and source, is what
  // latest_quote returns after the session.
  lemma SessionLatest(cfg: QF.Config, w: QF.World, known: set<Symbol>, commands: seq<Command>,
                      results: seq<Result<bool, Error>>, before: DbState, after: DbState,
                      applied: seq<seq<Database.Statement>>, i: nat, q: Domain.Quote)
    requires SessionStored(cfg, w, known, commands, results, before, after, applied)
    requires i < |applied| && Domain.ValidQuote(q) && Repository.QuoteStatement(q) in applied[i]
    requires forall r :: r in before.committed.rows && Repository.Matches(r, q.symbol, q.source) ==>
               r.micros < q.timestamp / 1000
    requires forall s :: s in Repository.Flatten(applied) && Database.RowOf(s).Some? ==>
               Repository.Matches(Database.RowOf(s).value, q.symbol, q.source) ==>
                 s == Repository.QuoteStatement(q) || Database.RowOf(s).value.micros < q.timestamp / 1000
    ensures var found := Repository.Latest(after.committed.rows, q.symbol, q.source);
            && found.Some?
            && Repository.Decoded(found.value) == Ok(Some(q.(timestamp := TS.Clock(TS.FloorMicros(q.timestamp)))))
  {
    hide Database.RowOf, Repository.QuoteStatement, Repository.Latest, StoredAt;
    InFlatten(applied, i, Repository.QuoteStatement(q));
    Repository.NewestOfferedReadsBack(before.committed, applied, q);
  }

  // The same from the quote a fetch built: it is read back field by field, every price as its nearest count of 10^-8.
  lemma SessionLatestFetched(cfg: QF.Config, w: QF.World, known: set<Symbol>, commands: seq<Command>,
                             results: seq<Result<bool, Error>>, before: DbState, after: DbState,
                             applied: seq<seq<Database.Statement>>, i: nat, q: Quote)
    requires SessionStored(cfg, w, known, commands, results, before, after, applied)
    requires i < |applied| && applied[i] != [] && BuiltAt(cfg, w, known, commands, i) == Some(q)
    requires var micros := Persistence.StoredMicros(q.timestamp, commands[i].script.now);
             && (forall r :: r in before.committed.rows && Repository.Matches(r, q.symbol, q.source) ==>
                   r.micros < micros)
             && (forall s :: s in Repository.Flatten(applied) && Database.RowOf(s).Some? ==>
                   Repository.Matches(Database.RowOf(s).value, q.symbol, q.source) ==>
                     Some(s) == QuoteInsert(q, commands[i].script) || Database.RowOf(s).value.micros < micros)
    ensures var found := Repository.Latest(after.committed.rows, q.symbol, q.source);
            && found.Some? && Repository.Decoded(found.value).Ok? && Repository.Decoded(found.value).value.Some?
            && ReadsBack(q, Repository.Decoded(found.value).value.value)
            && (q.timestamp != 0 && FitsInt64(q.timestamp * 1000) ==>
                  Repository.Decoded(found.value).value.value.timestamp == q.timestamp * 1000)
  {
    hide Database.RowOf, Repository.QuoteStatement, Repository.Latest, Database.Execute, Repository.AfterBatches;
    hide BookOutcome, Built, SnapshotInsert, TS.Upper, Persistence.DomainQuote, MustInsert, MustStoreBoth;
    assert StoredAt(cfg, w, known, commands, i, results[i].Ok?, before, applied);
    var now := commands[i].script.now;
    assert QuoteInsert(q, commands[i].script).value in applied[i];
    ConvertedFields(q, now);
    SessionLatest(cfg, w, known, commands, results, before, after, applied, i, Persistence.DomainQuote(q, now).value);
  }

  // The cached quote and the one read back from the database agree.
  predicate ReadsBack(q: Quote, back: Domain.Quote) {
    && back.symbol == q.symbol && back.source == q.source
    && back.price == FixedText.SignedUnits(q.price, 8) && back.open == FixedText.SignedUnits(q.open, 8)
    && back.high == FixedText.SignedUnits(q.high, 8) && back.low == FixedText.SignedUnits(q.low, 8)
    && back.volume == q.volume * 100_000_000 && back.changePct == Some(FixedText.SignedUnits(q.changePct, 8))
  }

  lemma ConvertedFields(q: Quote, now: Int64)
    requires Persistence.QuoteToStore(q, now).Some?
    ensures var converted := Persistence.DomainQuote(q, now);
            && converted.Ok? && Domain.ValidQuote(converted.value) && ReadsBack(q, converted.value)
            && converted.value.timestamp / 1000 == Persistence.StoredMicros(q.timestamp, now)
            && (q.timestamp != 0 && FitsInt64(q.timestamp * 1000) ==>
                  TS.Clock(TS.FloorMicros(converted.value.timestamp)) == q.timestamp * 1000)
            && Persistence.QuoteToStore(q, now) == Some(Repository.QuoteStatement(converted.value))
  {
    hide FixedText.SignedUnits, Domain.ValidQuote, Repository.QuoteStatement;
  }

  // The pushes of a session to the history of a symbol.
  function PushesOf(cfg: QF.Config, w: QF.World, known: set<Symbol>, commands: seq<Command>, symbol: Symbol)
    : seq<RS.Push>
  {
    if commands == [] then []
    else
      var n := |commands| - 1;
      var c, pushes := commands[n], PushesOf(cfg, w, known, commands[..n], symbol);
      if !Known(known, c) || TS.Upper(c.raw) != symbol then pushes
      else
        match PushedAt(cfg, w, known, commands, n)
        case None => pushes
        case Some(q) => pushes + [RS.Push(RS.HistoryEntry(q), c.script.call.store.done)]
  }

  // From an empty history, a session leaves the newest part of what it pushed, of at least the limit's length.
  lemma {:induction false} SessionHistory(cfg: QF.Config, w: QF.World, known: set<Symbol>, commands: seq<Command>,
                                          symbol: Symbol)
    ensures var pushes := PushesOf(cfg, w, known, commands, symbol);
            && HistoryAfter(cfg, w, known, commands, symbol, []) == RS.HistoryRun(pushes)
            && RS.HistoryRun(pushes) <= RS.Pushed(pushes)
            && |RS.HistoryRun(pushes)| >=
               if |RS.Pushed(pushes)| <= RS.HISTORY_LIMIT then |RS.Pushed(pushes)| else RS.HISTORY_LIMIT
  {
    hide QF.FetchSymbol, TS.Upper, RS.StoredHistory, RS.Pushed, PushedAt;
    RS.HistoryIsNewest(PushesOf(cfg, w, known, commands, symbol));
    if commands != [] {
      SessionHistory(cfg, w, known, commands[..|commands| - 1], symbol);
    }
  }

  // ---- Main result: the staleness bound over sessions ----

  lemma {:induction false} StepsAppend(known: set<Symbol>, commands: seq<Command>, i: nat)
    requires i <= |commands|
    ensures StepsOf(known, commands[..i]) <= StepsOf(known, commands)
  {
    hide TS.Upper;
    if i == |commands| {
      assert commands[..i] == commands;
    } else {
      var front := commands[..|commands| - 1];
      assert front[..i] == commands[..i];
      StepsAppend(known, front, i);
    }
  }

  lemma {:induction false} TimelyPrefix(cfg: QF.Config, w: QF.World, steps: seq<QF.Step>, front: seq<QF.Step>)
    requires QF.TimelyRun(cfg, w, steps) && front <= steps
    ensures QF.TimelyRun(cfg, w, front)
    ensures forall lag :: QF.SoundRun(cfg, w, steps, lag) ==> QF.SoundRun(cfg, w, front, lag)
    decreases |front|
  {
    hide QF.Next, QF.Timely, QF.Sound;
    if front != [] {
      TimelyPrefix(cfg, QF.Next(cfg, w, steps[0]).world, steps[1..], front[1..]);
    }
  }

  // Whatever a session of timely fetches without a lost EXPIRE serves, from empty caches, came from the source
  // less than the bound before.
  lemma SessionServesFresh(cfg: QF.Config, lag: nat, known: set<Symbol>, commands: seq<Command>, i: nat)
    requires cfg.redisTtl > 0 && QF.TimelyRun(cfg, QF.EMPTY, StepsOf(known, commands))
    requires QF.SoundRun(cfg, QF.EMPTY, StepsOf(known, commands), lag)
    requires i < |commands| && ServedAt(cfg, QF.EMPTY, known, commands, i).Some?
    ensures ServedFresh(cfg, lag, known, commands, i)
  {
    hide QF.FetchSymbol, QF.Run, QF.TimelyRun, QF.SoundRun, QF.FreshEnough, TS.Upper;
    var steps, c := StepsOf(known, commands[..i]), commands[i];
    StepsAppend(known, commands, i);
    TimelyPrefix(cfg, QF.EMPTY, StepsOf(known, commands), steps);
    QF.StalenessBound(cfg, lag, steps, TS.Upper(c.raw), c.script.call);
  }

  // The quote that command number i serves goes back to an answer of the source given by then, and is younger
  // than the bound.
  ghost predicate ServedFresh(cfg: QF.Config, lag: nat, known: set<Symbol>, commands: seq<Command>, i: nat)
    requires i < |commands| && ServedAt(cfg, QF.EMPTY, known, commands, i).Some?
  {
    var steps, c := StepsOf(known, commands[..i]), commands[i];
    var out := QF.FetchSymbol(cfg, QF.Run(cfg, QF.EMPTY, steps), TS.Upper(c.raw), c.script.call);
    QF.FreshEnough(cfg, lag, TS.Upper(c.raw), ServedAt(cfg, QF.EMPTY, known, commands, i).value,
                   QF.AnswersOf(cfg, QF.EMPTY, steps) + out.answers)
  }

  // Every book with data is that of a quote some command served, which was younger than the bound when it did.
  lemma {:induction false} BooksAreFresh(cfg: QF.Config, lag: nat, known: set<Symbol>, commands: seq<Command>,
                                         symbol: Symbol) returns (i: nat)
    requires cfg.redisTtl > 0 && QF.TimelyRun(cfg, QF.EMPTY, StepsOf(known, commands))
    requires QF.SoundRun(cfg, QF.EMPTY, StepsOf(known, commands), lag)
    requires symbol in BuiltAfter(cfg, QF.EMPTY, known, commands, map[])
    ensures i < |commands| && Known(known, commands[i]) && TS.Upper(commands[i].raw) == symbol
    ensures ServedAt(cfg, QF.EMPTY, known, commands, i).Some?
    ensures ServedAt(cfg, QF.EMPTY, known, commands, i).value.quote
            == BuiltAfter(cfg, QF.EMPTY, known, commands, map[])[symbol]
    ensures ServedFresh(cfg, lag, known, commands, i)
  {
    hide QF.TimelyRun, QF.SoundRun, ServedFresh;
    i := LastBuild(cfg, QF.EMPTY, known, commands, symbol);
    SessionServesFresh(cfg, lag, known, commands, i);
  }

  lemma {:induction false} LastBuild(cfg: QF.Config, w: QF.World, known: set<Symbol>, commands: seq<Command>,
                                     symbol: Symbol) returns (i: nat)
    requires symbol in BuiltAfter(cfg, w, known, commands, map[])
    ensures i < |commands| && Known(known, commands[i]) && TS.Upper(commands[i].raw) == symbol
    ensures ServedAt(cfg, w, known, commands, i).Some?
    ensures ServedAt(cfg, w, known, commands, i).value.quote == BuiltAfter(cfg, w, known, commands, map[])[symbol]
  {
    hide QF.FetchSymbol, QF.Run, TS.Upper;
    var n := |commands| - 1;
    var front, c := commands[..n], commands[n];
    if && Known(known, c) && TS.Upper(c.raw) == symbol
       && Built(cfg, WorldAfter(cfg, w, known, front), symbol, c.script).Some? {
      i := n;
    } else {
      i := LastBuild(cfg, w, known, front, symbol);
      assert front[..i] == commands[..i] && front[i] == commands[i];
    }
  }

  // ---- Main result: the request rate over sessions ----

  lemma {:induction false} StepsSplit(known: set<Symbol>, commands: seq<Command>, i: nat)
    requires i <= |commands|
    ensures StepsOf(known, commands) == StepsOf(known, commands[..i]) + StepsOf(known, commands[i..])
  {
    hide TS.Upper;
    if i == |commands| {
      assert commands[..i] == commands && commands[i..] == [];
    } else {
      var front := commands[..|commands| - 1];
      StepsSplit(known, front, i);
      assert front[..i] == commands[..i] && front[i..] == commands[i..][..|commands[i..]| - 1];
    }
  }

  lemma {:induction false} RunSplit(cfg: QF.Config, w: QF.World, a: seq<QF.Step>, b: seq<QF.Step>)
    requires QF.TimelyRun(cfg, w, a + b)
    ensures QF.TimelyRun(cfg, QF.Run(cfg, w, a), b)
    decreases |a|
  {
    hide QF.Next, QF.Timely;
    if a == [] {
      assert a + b == b;
    } else {
      assert (a + b)[1..] == a[1..] + b;
      RunSplit(cfg, QF.Next(cfg, w, a[0]).world, a[1..], b);
    }
  }

  lemma SingleStep(known: set<Symbol>, c: Command)
    requires Known(known, c)
    ensures StepsOf(known, [c]) == [QF.Fetch(TS.Upper(c.raw), c.script.call)]
  {
    hide TS.Upper;
    assert [c][..0] == [];
    assert StepsOf(known, []) == [];
  }

  // After a command got an answer from the source and stored it, the session asks the source for that symbol
  // again only once both lifetimes have passed.
  lemma SessionAsksLater(cfg: QF.Config, w: QF.World, known: set<Symbol>, commands: seq<Command>, i: nat)
    requires QF.TimelyRun(cfg, w, StepsOf(known, commands))
    requires i < |commands| && Known(known, commands[i]) && TS.Upper(commands[i].raw) != ""
    requires var symbol, call := TS.Upper(commands[i].raw), commands[i].script.call;
             var out := QF.FetchSymbol(cfg, WorldAfter(cfg, w, known, commands[..i]), symbol, call);
             && out.answers != [] && !call.cachedThrows && call.store.done >= 4
             && RS.Settled(symbol, out.answers[0].quote).IsValid()
    ensures var symbol, call := TS.Upper(commands[i].raw), commands[i].script.call;
            var rest := StepsOf(known, commands[i + 1..]);
            var ask := QF.FirstAsk(cfg, WorldAfter(cfg, w, known, commands[..i + 1]), rest, symbol);
            ask.Some? ==>
              && ask.value.clientAt >= call.fetchedAt + cfg.clientTtl
              && (QF.ReadsWork(rest) ==> ask.value.readAt >= call.storeAt + cfg.redisTtl)
  {
    hide QF.FetchSymbol, QF.TimelyRun, QF.FirstAsk, TS.Upper, RS.Settled;
    var c, now := commands[i], WorldAfter(cfg, w, known, commands[..i]);
    var step, rest := QF.Fetch(TS.Upper(c.raw), c.script.call), StepsOf(known, commands[i + 1..]);
    StepsSplit(known, commands, i);
    StepsSplit(known, commands[i..], 1);
    assert commands[i..][..1] == [c] && commands[i..][1..] == commands[i + 1..];
    SingleStep(known, c);
    RunSplit(cfg, w, StepsOf(known, commands[..i]), [step] + rest);
    TimelyHead(cfg, now, step, rest);
    OneMoreCommand(cfg, w, known, commands, i, map[]);
    QF.NextAskIsLater(cfg, now, TS.Upper(c.raw), c.script.call, rest);
  }

  lemma TimelyHead(cfg: QF.Config, w: QF.World, s: QF.Step, rest: seq<QF.Step>)
    requires QF.TimelyRun(cfg, w, [s] + rest)
    ensures QF.Timely(w, s) && QF.TimelyRun(cfg, QF.Next(cfg, w, s).world, rest)
  {
    hide QF.Next, QF.Timely;
    assert ([s] + rest)[1..] == rest;
  }
}

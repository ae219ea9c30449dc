/** The PostgreSQL repository: validated batch inserts in one transaction each, and the latest quote. */
module Repository {
  import opened Common
  import opened Domain
  import opened Database
  import opened FixedText
  import Decimal
  import TS = Timestamp
  import Calendar

  datatype InsertSummary = InsertSummary(attempted: nat, inserted: nat) {
    // size_t subtraction.
    function Duplicates(): nat {
      (attempted - inserted) % 0x1_0000_0000_0000_0000
    }
  }

  // ---- Parameters of the prepared statements ----

  function QuoteStatement(q: Quote): Statement {
    InsertQuote(q.symbol, q.source, TS.Format(q.timestamp), Decimal.Canonical(q.price), Decimal.Canonical(q.open),
                Decimal.Canonical(q.high), Decimal.Canonical(q.low), Decimal.Canonical(q.volume),
                if q.changePct.Some? then Some(Decimal.Canonical(q.changePct.value)) else None)
  }

  function SideChar(side: TradeSide): char {
    match side
    case Bid => 'B'
    case Ask => 'A'
    case Unknown => 'U'
  }

  // Of all parameters of the inserts only a trade id and a JSON text can hold a NUL.
  function SentId(tradeId: Option<string>): Option<string> {
    if tradeId.Some? then Some(CString(tradeId.value)) else None
  }

  function TickStatement(t: Tick): Statement {
    InsertTick(t.symbol, t.source, TS.Format(t.timestamp), SentId(t.tradeId), Decimal.Canonical(t.price),
               Decimal.Canonical(t.size), SideChar(t.side))
  }

  function SnapshotStatement(s: Snapshot): Statement {
    InsertSnapshot(s.symbol, s.source, TS.Format(s.snapshotTime), Decimal.Canonical(s.bestBid),
                   Decimal.Canonical(s.bestAsk), Decimal.Canonical(s.imbalance),
                   Decimal.Canonical(s.totalBidVolume), Decimal.Canonical(s.totalAskVolume))
  }

  function IndicatorStatement(i: TechnicalIndicator): Statement {
    InsertIndicator(i.symbol, i.source, i.indicatorName, TS.Format(i.timestamp), Decimal.Canonical(i.value),
                    JsonText(CString(i.parameters.text), i.parameters.reading))
  }

  function QuoteStatements(quotes: seq<Quote>): seq<Statement> {
    seq(|quotes|, i requires 0 <= i < |quotes| => QuoteStatement(quotes[i]))
  }

  function TickStatements(ticks: seq<Tick>): seq<Statement> {
    seq(|ticks|, i requires 0 <= i < |ticks| => TickStatement(ticks[i]))
  }

  function SnapshotStatements(snapshots: seq<Snapshot>): seq<Statement> {
    seq(|snapshots|, i requires 0 <= i < |snapshots| => SnapshotStatement(snapshots[i]))
  }

  function IndicatorStatements(indicators: seq<TechnicalIndicator>): seq<Statement> {
    seq(|indicators|, i requires 0 <= i < |indicators| => IndicatorStatement(indicators[i]))
  }

  // What goes wrong, command by command, while a batch runs.
  datatype Script = Script(begin: Fault, statement: nat -> Fault, commit: Fault, rollback: Fault)

  predicate FaultFree(s: Script, n: nat) {
    s.begin.NoFault? && s.commit.NoFault? && forall i :: 0 <= i < n ==> s.statement(i).NoFault?
  }

  // Neither is ROLLBACK refused nor does the client fail between BEGIN and the transaction object.
  predicate Tidy(s: Script) {
    !s.rollback.Refused? && !s.begin.ClientFails?
  }

  predicate Lossless(s: Script, n: nat) {
    && !s.begin.ConnectionLost? && !s.commit.ConnectionLost? && !s.rollback.ConnectionLost?
    && forall i :: 0 <= i < n ==> !s.statement(i).ConnectionLost?
  }

  class PostgresMarketDataRepository {
    const connection: PgConnection

    constructor (connection: PgConnection)
      ensures this.connection == connection
    {
      this.connection := connection;
    }

    // The part of every batch insert after validation. With no block left open by an earlier call, the
    // committed tables are either unchanged or hold the whole batch; success reports the batch's exact
    // count; and no block stays open unless ROLLBACK itself was refused.
    method InsertBatch(statements: seq<Statement>, script: Script) returns (r: Result<InsertSummary, Error>)
      requires statements != []
      modifies connection
      ensures var before, all := old(connection.committed), ExecuteAll(old(connection.View()), statements);
              && (connection.committed == before || (all.Ok? && connection.committed == all.value.0))
              && (r.Ok? ==> all.Ok? && connection.committed == all.value.0
                            && r.value == InsertSummary(|statements|, all.value.1))
              && (r.Err? && !script.commit.Unreported() ==> connection.committed == before)
              && (r.Err? ==> r.error == DatabaseError)
              && (FaultFree(script, |statements|) && old(connection.open) && !old(connection.session).Aborted? ==>
                    (r.Ok? <==> all.Ok?))
      ensures NoBlockLeft(old(connection.session), connection.session, script)
      ensures r.Ok? ==> connection.open && connection.session == Idle
      ensures old(connection.open) && Lossless(script, |statements|) ==> connection.open
    {
      hide Execute;
      ghost var start := connection.View();
      var ok := connection.Begin(script.begin);
      if !ok {
        return Err(DatabaseError);
      }
      var transaction := new PgTransaction(connection);
      var inserted := 0;
      for i := 0 to |statements|
        invariant transaction.active && transaction.connection == connection
        invariant connection.open && connection.committed == old(connection.committed)
        invariant ExecuteAll(start, statements[..i]).Ok?
        invariant connection.session == InBlock(ExecuteAll(start, statements[..i]).value.0)
        invariant inserted == ExecuteAll(start, statements[..i]).value.1
      {
        ExecuteOneMore(start, statements, i);
        var affected := connection.ExecutePrepared(statements[i], script.statement(i));
        if affected.Err? {
          if script.statement(i).NoFault? {
            FailurePersists(start, statements, i + 1);
          }
          transaction.Destroy(script.rollback);
          return Err(DatabaseError);
        }
        inserted := inserted + affected.value;
      }
      assert statements[..|statements|] == statements;
      var committed := transaction.Commit(script.commit);
      if !committed {
        transaction.Destroy(script.rollback);
        return Err(DatabaseError);
      }
      transaction.Destroy(script.rollback);
      return Ok(InsertSummary(|statements|, inserted));
    }

    method InsertQuotes(quotes: seq<Quote>, script: Script) returns (r: Result<InsertSummary, Error>)
      modifies connection
      ensures BatchOutcome(old(connection.committed), old(connection.View()), connection.committed,
                           QuoteStatements(quotes), forall q :: q in quotes ==> ValidQuote(q),
                           old(connection.open) && !old(connection.session).Aborted?, script, r)
      ensures NoBlockLeft(old(connection.session), connection.session, script)
      ensures r.Ok? && quotes != [] ==> connection.open && connection.session == Idle
      ensures old(connection.open) && Lossless(script, |quotes|) ==> connection.open
    {
      for i := 0 to |quotes|
        invariant forall j :: 0 <= j < i ==> ValidQuote(quotes[j])
      {
        if !ValidQuote(quotes[i]) {
          return Err(InvalidArgument);
        }
      }
      if quotes == [] {
        return Ok(InsertSummary(0, 0));
      }
      r := InsertBatch(QuoteStatements(quotes), script);
    }

    method InsertTicks(ticks: seq<Tick>, script: Script) returns (r: Result<InsertSummary, Error>)
      modifies connection
      ensures BatchOutcome(old(connection.committed), old(connection.View()), connection.committed,
                           TickStatements(ticks), forall t :: t in ticks ==> ValidTick(t),
                           old(connection.open) && !old(connection.session).Aborted?, script, r)
      ensures NoBlockLeft(old(connection.session), connection.session, script)
      ensures r.Ok? && ticks != [] ==> connection.open && connection.session == Idle
      ensures old(connection.open) && Lossless(script, |ticks|) ==> connection.open
    {
      for i := 0 to |ticks|
        invariant forall j :: 0 <= j < i ==> ValidTick(ticks[j])
      {
        if !ValidTick(ticks[i]) {
          return Err(InvalidArgument);
        }
      }
      if ticks == [] {
        return Ok(InsertSummary(0, 0));
      }
      r := InsertBatch(TickStatements(ticks), script);
    }

    method InsertOrderBookSnapshots(snapshots: seq<Snapshot>, script: Script) returns (r: Result<InsertSummary, Error>)
      modifies connection
      ensures BatchOutcome(old(connection.committed), old(connection.View()), connection.committed,
                           SnapshotStatements(snapshots), forall s :: s in snapshots ==> ValidSnapshot(s),
                           old(connection.open) && !old(connection.session).Aborted?, script, r)
      ensures NoBlockLeft(old(connection.session), connection.session, script)
      ensures r.Ok? && snapshots != [] ==> connection.open && connection.session == Idle
      ensures old(connection.open) && Lossless(script, |snapshots|) ==> connection.open
    {
      for i := 0 to |snapshots|
        invariant forall j :: 0 <= j < i ==> ValidSnapshot(snapshots[j])
      {
        if !ValidSnapshot(snapshots[i]) {
          return Err(InvalidArgument);
        }
      }
      if snapshots == [] {
        return Ok(InsertSummary(0, 0));
      }
      r := InsertBatch(SnapshotStatements(snapshots), script);
    }

    method InsertTechnicalIndicators(indicators: seq<TechnicalIndicator>, script: Script)
      returns (r: Result<InsertSummary, Error>)
      modifies connection
      ensures BatchOutcome(old(connection.committed), old(connection.View()), connection.committed,
                           IndicatorStatements(indicators), forall i :: i in indicators ==> ValidIndicator(i),
                           old(connection.open) && !old(connection.session).Aborted?, script, r)
      ensures NoBlockLeft(old(connection.session), connection.session, script)
      ensures r.Ok? && indicators != [] ==> connection.open && connection.session == Idle
      ensures old(connection.open) && Lossless(script, |indicators|) ==> connection.open
    {
      for i := 0 to |indicators|
        invariant forall j :: 0 <= j < i ==> ValidIndicator(indicators[j])
      {
        if !ValidIndicator(indicators[i]) {
          return Err(InvalidArgument);
        }
      }
      if indicators == [] {
        return Ok(InsertSummary(0, 0));
      }
      r := InsertBatch(IndicatorStatements(indicators), script);
    }

    // SELECT ... ORDER BY timestamp DESC LIMIT 1, its text columns, and their way back into a domain quote.
    method LatestQuote(symbol: string, source: string, fault: Fault) returns (r: Result<Option<Quote>, Error>)
      ensures connection.open && fault.NoFault? && !connection.session.Aborted? ==>
                r == match Latest(connection.View().rows, CString(symbol), CString(source))
                     case None => Ok(None)
                     case Some(row) => Decoded(row)
      ensures !(connection.open && fault.NoFault? && !connection.session.Aborted?) ==> r == Err(DatabaseError)
    {
      if !connection.open || !fault.NoFault? || connection.session.Aborted? {
        return Err(DatabaseError);
      }
      var found := Latest(connection.View().rows, CString(symbol), CString(source));
      if found.None? {
        return Ok(None);
      }
      r := DecodeRow(found.value);
    }
  }

  // The text columns of one row, parsed field by field.
  method DecodeRow(row: Row) returns (r: Result<Option<Quote>, Error>)
    requires row.QuoteRow?
    ensures r == Decoded(row)
  {
    var micros := Stoll(SignedText(row.micros));
    StollExactly(row.micros);
    if micros.None? {
      return Err(DatabaseError);
    }
    var price := ReadBack(row.price);
    if price.None? { return Err(OutOfRange); }
    var open := ReadBack(row.open);
    if open.None? { return Err(OutOfRange); }
    var high := ReadBack(row.high);
    if high.None? { return Err(OutOfRange); }
    var low := ReadBack(row.low);
    if low.None? { return Err(OutOfRange); }
    var volume := ReadBack(row.volume);
    if volume.None? { return Err(OutOfRange); }
    var changePct: Option<Int64> := None;
    if row.changePct.Some? {
      changePct := ReadBack(row.changePct.value);
      if changePct.None? { return Err(OutOfRange); }
    }
    return Ok(Some(Quote(row.symbol, row.source, TS.Clock(micros.value * 1000), price.value, open.value, high.value,
                         low.value, volume.value, changePct)));
  }

  // A NUMERIC column as text, parsed by Decimal::from_string.
  method ReadBack(raw: int) returns (back: Option<Int64>)
    ensures back == if FitsInt64(raw) then Some(raw) else None
  {
    var parsed := Decimal.FromString(Decimal.Canonical(raw));
    Decimal.CanonicalLiteralFacts(raw);
    ParseLiteral(Decimal.CanonicalLiteral(raw));
    return if parsed.Ok? then Some(parsed.value as int) else None;
  }

  // What a batch insert may leave behind: nothing changes on invalid input; otherwise it is all or nothing,
  // measured from the tables the session saw at the start.
  ghost predicate BatchOutcome(before: Tables, seen: Tables, after: Tables, statements: seq<Statement>, valid: bool,
                               ready: bool, script: Script, r: Result<InsertSummary, Error>) {
    var all := ExecuteAll(seen, statements);
    && (!valid ==> r == Err(InvalidArgument) && after == before)
    && (valid && statements == [] ==> r == Ok(InsertSummary(0, 0)) && after == before)
    && (valid && statements != [] ==>
          && (after == before || (all.Ok? && after == all.value.0))
          && (r.Ok? ==> all.Ok? && after == all.value.0 && r.value == InsertSummary(|statements|, all.value.1))
          && (r.Err? && !script.commit.Unreported() ==> after == before)
          && (r.Err? ==> r.error == DatabaseError)
          && (ready && FaultFree(script, |statements|) ==> (r.Ok? <==> all.Ok?)))
  }

  // A call that starts outside a block ends outside one, open or aborted, unless ROLLBACK itself was refused or
  // the client failed between BEGIN and the transaction object.
  predicate NoBlockLeft(before: Session, after: Session, script: Script) {
    before.Idle? && Tidy(script) ==> after.Idle?
  }

  lemma ExecuteOneMore(t: Tables, statements: seq<Statement>, i: nat)
    requires i < |statements| && ExecuteAll(t, statements[..i]).Ok?
    ensures var before := ExecuteAll(t, statements[..i]).value;
            ExecuteAll(t, statements[..i + 1]) ==
            match Execute(before.0, statements[i])
            case Err(e) => Err(e)
            case Ok(after) => Ok((after.0, before.1 + after.1))
  {
    hide Execute;
    assert statements[..i + 1][..i] == statements[..i];
  }

  lemma {:induction false} FailurePersists(t: Tables, statements: seq<Statement>, k: nat)
    requires k <= |statements| && ExecuteAll(t, statements[..k]).Err?
    ensures ExecuteAll(t, statements).Err?
    decreases |statements|
  {
    if k == |statements| {
      assert statements[..k] == statements;
    } else {
      var front := statements[..|statements| - 1];
      assert front[..k] == statements[..k];
      FailurePersists(t, front, k);
    }
  }

  // ---- Main results: domain values and rows ----

  // The row a quote becomes: decimals exactly, the timestamp floored to microseconds.
  function RowOfQuote(q: Quote): Row {
    QuoteRow(q.symbol, q.source, q.timestamp / 1000, q.price, q.open, q.high, q.low, q.volume, q.changePct)
  }

  function RowOfTick(t: Tick): Row {
    TickRow(t.symbol, t.source, t.timestamp / 1000, SentId(t.tradeId), t.price, t.size, SideChar(t.side))
  }

  function RowOfSnapshot(s: Snapshot): Row {
    SnapshotRow(s.symbol, s.source, s.snapshotTime / 1000, s.bestBid, s.bestAsk, s.imbalance, s.totalBidVolume,
                s.totalAskVolume)
  }

  lemma NumericOfCanonical(raw: Int64)
    ensures ReadNumeric(Decimal.Canonical(raw)) == Some(raw)
  {
    Decimal.CanonicalLiteralFacts(raw);
    Decimal.SplitRender(Decimal.CanonicalLiteral(raw));
  }

  lemma InstantOfFormat(timestamp: Int64)
    ensures ReadInstant(TS.Format(timestamp)) == Some(timestamp / 1000)
  {
    hide TS.Read, TS.Format, TS.StampOf, TS.FractionMicros, Calendar.TimeGm;
    TS.ClockYears(timestamp);
    TS.FormatRenders(timestamp);
    TS.StampOfFacts(timestamp);
    TS.ReadRender(TS.StampOf(timestamp));
  }

  // What validation asks of a quote is exactly what its table asks, for names the validation takes.
  lemma SchemaTakesValidQuotes(q: Quote)
    requires ValidNames(q.symbol, q.source)
    ensures RowOf(QuoteStatement(q)).Some? <==> ValidQuote(q)
  {
    hide ReadNumeric, ReadInstant, TS.Format, TS.StampOf, Decimal.Canonical, ValidNames;
    NamesFit(q.symbol, q.source);
    InstantOfFormat(q.timestamp);
    NumericOfCanonical(q.price);
    NumericOfCanonical(q.open);
    NumericOfCanonical(q.high);
    NumericOfCanonical(q.low);
    NumericOfCanonical(q.volume);
    if q.changePct.Some? {
      NumericOfCanonical(q.changePct.value);
    }
  }

  lemma SchemaTakesValidSnapshots(s: Snapshot)
    requires ValidNames(s.symbol, s.source)
    ensures RowOf(SnapshotStatement(s)).Some? <==> ValidSnapshot(s)
  {
    hide ReadNumeric, ReadInstant, TS.Format, TS.StampOf, Decimal.Canonical, ValidNames;
    NamesFit(s.symbol, s.source);
    InstantOfFormat(s.snapshotTime);
    NumericOfCanonical(s.bestBid);
    NumericOfCanonical(s.bestAsk);
    NumericOfCanonical(s.imbalance);
    NumericOfCanonical(s.totalBidVolume);
    NumericOfCanonical(s.totalAskVolume);
  }

  lemma SchemaTakesValidTicks(t: Tick)
    requires ValidNames(t.symbol, t.source)
    requires t.tradeId.Some? ==>
               && |t.tradeId.value| <= 64 && '\0' !in t.tradeId.value
               && Characters(t.tradeId.value).Some? && NotBlank(t.tradeId.value)
    ensures RowOf(TickStatement(t)).Some? <==> ValidTick(t)
  {
    hide ReadNumeric, ReadInstant, TS.Format, TS.StampOf, Decimal.Canonical, ValidNames, Characters, CString;
    NamesFit(t.symbol, t.source);
    InstantOfFormat(t.timestamp);
    NumericOfCanonical(t.price);
    NumericOfCanonical(t.size);
  }

  lemma SchemaTakesValidIndicators(i: TechnicalIndicator)
    requires ValidNames(i.symbol, i.source) && i.parameters.text != "" && i.parameters.reading.Object?
    ensures RowOf(IndicatorStatement(i)).Some? <==> ValidIndicator(i)
  {
    hide ReadNumeric, ReadInstant, TS.Format, TS.StampOf, Decimal.Canonical, ValidNames, UpperIdentifier;
    NamesFit(i.symbol, i.source);
    InstantOfFormat(i.timestamp);
    NumericOfCanonical(i.value);
  }

  lemma NamesFit(symbol: string, source: string)
    requires ValidNames(symbol, source)
    ensures |symbol| <= 16 && |source| <= 20
  {
  }

  // Valid names arrive at the server as they are, and are spelled in capitals already.
  lemma ValidNamesTravel(symbol: string, source: string)
    requires ValidNames(symbol, source)
    ensures CString(symbol) == symbol && CString(source) == source
    ensures TS.Upper(symbol) == symbol && TS.Upper(source) == source
  {
    assert forall i :: 0 <= i < |symbol| ==> symbol[i] != '\0';
    assert forall i :: 0 <= i < |source| ==> source[i] != '\0';
  }

  // Which names validation takes.
  lemma NameCharacters(symbol: string, source: string)
    ensures ValidNames(symbol, source) <==>
            && 1 <= |symbol| <= 16 && 1 <= |source| <= 20
            && (forall c :: c in symbol ==> 'A' <= c <= 'Z' || '0' <= c <= '9' || c in "._:/-")
            && (forall c :: c in source ==> 'A' <= c <= 'Z' || '0' <= c <= '9' || c in "_-")
  {
    assert forall i :: 0 <= i < |symbol| ==> symbol[i] in symbol;
    assert forall i :: 0 <= i < |source| ==> source[i] in source;
  }

  // Every validated quote passes the table's widths and checks, and is stored without loss but for the
  // floored timestamp.
  lemma ValidQuoteMeetsSchema(q: Quote)
    requires ValidQuote(q)
    ensures RowOf(QuoteStatement(q)) == Some(RowOfQuote(q))
            == Some(QuoteRow(q.symbol, q.source, q.timestamp / 1000, q.price, q.open, q.high, q.low, q.volume,
                             q.changePct))
  {
    hide ReadNumeric, ReadInstant, TS.Format, TS.StampOf, Decimal.Canonical;
    InstantOfFormat(q.timestamp);
    NumericOfCanonical(q.price);
    NumericOfCanonical(q.open);
    NumericOfCanonical(q.high);
    NumericOfCanonical(q.low);
    NumericOfCanonical(q.volume);
    if q.changePct.Some? {
      NumericOfCanonical(q.changePct.value);
    }
  }

  lemma ValidSnapshotMeetsSchema(s: Snapshot)
    requires ValidSnapshot(s)
    ensures RowOf(SnapshotStatement(s)) == Some(RowOfSnapshot(s))
            == Some(SnapshotRow(s.symbol, s.source, s.snapshotTime / 1000, s.bestBid, s.bestAsk, s.imbalance,
                                s.totalBidVolume, s.totalAskVolume))
  {
    hide ReadNumeric, ReadInstant, TS.Format, TS.StampOf, Decimal.Canonical;
    InstantOfFormat(s.snapshotTime);
    NumericOfCanonical(s.bestBid);
    NumericOfCanonical(s.bestAsk);
    NumericOfCanonical(s.imbalance);
    NumericOfCanonical(s.totalBidVolume);
    NumericOfCanonical(s.totalAskVolume);
  }

  // Ticks are the exception: validation counts the bytes of a trade id only. A tick with an id is stored exactly when
  // the part of the id before its first NUL is UTF-8 and not all blanks, and with its own id exactly when that has
  // no NUL.
  lemma ValidTickMeetsSchema(t: Tick)
    requires ValidTick(t)
    ensures RowOf(TickStatement(t)) ==
            if t.tradeId.Some? && !(Characters(CString(t.tradeId.value)).Some? && NotBlank(CString(t.tradeId.value)))
            then None else Some(RowOfTick(t))
    ensures RowOfTick(t).tradeId == t.tradeId <==> t.tradeId.Some? ==> '\0' !in t.tradeId.value
    ensures RowOfTick(t) ==
            TickRow(t.symbol, t.source, t.timestamp / 1000, RowOfTick(t).tradeId, t.price, t.size,
                    match t.side case Bid => 'B' case Ask => 'A' case Unknown => 'U')
  {
    hide ReadNumeric, ReadInstant, TS.Format, TS.StampOf, Decimal.Canonical, Characters, CString;
    InstantOfFormat(t.timestamp);
    NumericOfCanonical(t.price);
    NumericOfCanonical(t.size);
  }

  // Which trade ids validation takes, by their bytes, and which parameters, by their text.
  lemma ValidatedTexts(t: Tick, i: TechnicalIndicator, id: string, parameters: JsonText)
    requires ValidTick(t) && ValidIndicator(i)
    ensures ValidTick(t.(tradeId := None))
    ensures ValidTick(t.(tradeId := Some(id))) <==> id != "" && |id| <= 64
    ensures ValidIndicator(i.(parameters := parameters)) <==> parameters.text != ""
  {
  }

  // UTF-8 sequences of one to four bytes count as one character each; overlong forms, surrogates, code points beyond
  // U+10FFFF and stray or missing continuation bytes are refused.
  lemma SequencesExactly(a: char, b: char, c: char, d: char)
    requires '\0' < a <= 255 as char && b <= 255 as char && c <= 255 as char && d <= 255 as char
    ensures Characters([a]) == if a <= 0x7F as char then Some(1) else None
    ensures 0xC2 <= a as int <= 0xDF && 0x80 <= b as int <= 0xBF ==> Characters([a, b]) == Some(1)
    ensures 0xC2 <= a as int <= 0xDF && !(0x80 <= b as int <= 0xBF) ==> Characters([a, b]) == None
    ensures 0x80 <= a as int < 0xC2 ==> Characters([a, b]) == None && Characters([a, b, c, d]) == None
    ensures a as int > 0xF4 ==> Characters([a, b, c, d]) == None
    ensures a as int == 0xE0 && b as int < 0xA0 ==> Characters([a, b, c]) == None
    ensures a as int == 0xED && b as int > 0x9F ==> Characters([a, b, c]) == None
    ensures a as int == 0xF0 && b as int < 0x90 ==> Characters([a, b, c, d]) == None
    ensures a as int == 0xF4 && b as int > 0x8F ==> Characters([a, b, c, d]) == None
    ensures 0xE1 <= a as int <= 0xEC && 0x80 <= b as int <= 0xBF && 0x80 <= c as int <= 0xBF ==>
              Characters([a, b, c]) == Some(1)
    ensures && 0xF1 <= a as int <= 0xF3 && 0x80 <= b as int <= 0xBF && 0x80 <= c as int <= 0xBF
            && 0x80 <= d as int <= 0xBF ==>
              Characters([a, b, c, d]) == Some(1)
  {
    assert [a][1..] == [] && [a, b][2..] == [] && [a, b, c][3..] == [] && [a, b, c, d][4..] == [];
    assert Characters([]) == Some(0);
  }

  // Trade ids that pass validation and are refused: a blank, a NUL before anything else, a byte that is no UTF-8.
  lemma RefusedTradeIds(t: Tick)
    requires ValidTick(t)
    ensures forall id :: id in [" ", "\0x", [0xFF as char]] ==>
              ValidTick(t.(tradeId := Some(id))) && RowOf(TickStatement(t.(tradeId := Some(id)))) == None
  {
    hide RowOf, TickStatement;
    forall id | id in [" ", "\0x", [0xFF as char]]
      ensures ValidTick(t.(tradeId := Some(id))) && RowOf(TickStatement(t.(tradeId := Some(id)))) == None
    {
      ValidTickMeetsSchema(t.(tradeId := Some(id)));
      RefusedIds(id);
    }
  }

  lemma RefusedIds(id: string)
    requires id in [" ", "\0x", [0xFF as char]]
    ensures Characters(CString(id)).None? || !NotBlank(CString(id))
  {
    assert CString("\0x") == "";
    if id == [0xFF as char] {
      assert CString(id) == id;
      assert LeadingSequence(id) == 0;
    }
  }

  // Two different trades that are stored as one: their ids agree up to a NUL, so the second is a duplicate.
  lemma CutIdsCollide(t: Tick)
    requires ValidTick(t)
    ensures var first, second := t.(tradeId := Some("AB\0C")), t.(tradeId := Some("AB\0D"));
            && ValidTick(first) && ValidTick(second) && first != second
            && RowOf(TickStatement(first)) == RowOf(TickStatement(second)) == Some(RowOfTick(first))
            && Kept([], [RowOfTick(first), RowOfTick(second)]) == [RowOfTick(first)]
  {
    hide RowOf, TickStatement;
    var first, second := t.(tradeId := Some("AB\0C")), t.(tradeId := Some("AB\0D"));
    CutToTwo('C');
    CutToTwo('D');
    ValidTickMeetsSchema(first);
    ValidTickMeetsSchema(second);
    var row := RowOfTick(first);
    assert first.tradeId != second.tradeId;
    SecondIsDropped(row);
  }

  lemma CutToTwo(c: char)
    ensures CString("AB\0" + [c]) == "AB" && Characters("AB") == Some(2) && NotBlank("AB")
    ensures "AB\0C" == "AB\0" + ['C'] && "AB\0D" == "AB\0" + ['D']
  {
    var s := "AB\0" + [c];
    assert s[1..] == "B\0" + [c] && s[1..][1..] == "\0" + [c];
    assert CString(s[1..][1..]) == "";
    assert CString(s[1..]) == "B";
    assert "AB"[1..] == "B" && "B"[1..] == "";
    assert Characters("B") == Some(1);
    assert "AB"[0] != ' ';
  }

  lemma SecondIsDropped(row: Row)
    requires KeyOf(row).Some?
    ensures Kept([], [row, row]) == [row]
  {
    assert [row, row][..1] == [row] && [row][..0] == [];
    assert Kept([], []) == [] && Kept([], [row]) == [row];
    assert ([] + [row])[0] == row;
  }

  function RowOfIndicator(i: TechnicalIndicator): Row
    requires i.parameters.reading.Object?
  {
    IndicatorRow(i.symbol, i.source, i.indicatorName, i.timestamp / 1000, i.value, i.parameters.reading.normal)
  }

  // Validation takes any non-empty parameters text, the table only JSON objects its key's index can hold.
  lemma ValidIndicatorMeetsSchema(i: TechnicalIndicator)
    requires ValidIndicator(i)
    ensures RowOf(IndicatorStatement(i)) == if i.parameters.reading.Object? then Some(RowOfIndicator(i)) else None
    ensures i.parameters.reading.Object? ==>
              RowOfIndicator(i) == IndicatorRow(i.symbol, i.source, i.indicatorName, i.timestamp / 1000, i.value,
                                                i.parameters.reading.normal)
  {
    hide ReadNumeric, ReadInstant, TS.Format, TS.StampOf, Decimal.Canonical;
    InstantOfFormat(i.timestamp);
    NumericOfCanonical(i.value);
  }

  // Two indicators that differ in nothing but their parameters are both stored if the server reads different objects,
  // and only the first if it reads the same one, however each is spelled.
  lemma ParametersTellApart(t: Tables, i: TechnicalIndicator, other: JsonText)
    requires var second := i.(parameters := other);
             && ValidIndicator(i) && ValidIndicator(second) && i.parameters.reading.Object? && other.reading.Object?
             && i.symbol in t.instruments && i.source in t.sources
    requires forall r :: r in t.rows && r.IndicatorRow? && r.symbol == i.symbol && r.source == i.source ==>
               r.indicatorName != i.indicatorName || r.micros != i.timestamp / 1000
    ensures var outcome := ExecuteAll(t, IndicatorStatements([i, i.(parameters := other)]));
            var row := IndicatorRow(i.symbol, i.source, i.indicatorName, i.timestamp / 1000, i.value,
                                    i.parameters.reading.normal);
            && outcome.Ok?
            && (other.reading.normal != i.parameters.reading.normal ==>
                  outcome.value == (t.(rows := t.rows + [row, row.(parameters := other.reading.normal)]), 2))
            && (other.reading.normal == i.parameters.reading.normal ==>
                  outcome.value == (t.(rows := t.rows + [row]), 1))
  {
    hide RowOf, IndicatorStatement, Conflicts, Execute;
    var second := i.(parameters := other);
    var one, two := IndicatorStatement(i), IndicatorStatement(second);
    ValidIndicatorMeetsSchema(i);
    ValidIndicatorMeetsSchema(second);
    var row, next := RowOf(one).value, RowOf(two).value;
    ConflictsExactly(t.rows, row);
    ExecuteExactly(t, one);
    var rows := t.rows + [row];
    assert rows[|t.rows|] == row;
    ConflictsExactly(rows, next);
    ExecuteExactly(t.(rows := rows), two);
    assert IndicatorStatements([i, second]) == [one, two];
    TwoStatements(t, one, two);
    assert rows + [next] == t.rows + [row, next];
  }

  lemma TwoStatements(t: Tables, one: Statement, two: Statement)
    ensures ExecuteAll(t, [one, two]) ==
            match Execute(t, one)
            case Err(e) => Err(e)
            case Ok(first) =>
              match Execute(first.0, two)
              case Err(e) => Err(e)
              case Ok(second) => Ok((second.0, first.1 + second.1))
  {
    hide Execute;
    assert [one, two][..1] == [one] && [one][..0] == [];
    assert ExecuteAll(t, []) == Ok((t, 0));
  }

  // Whatever text of parameters the server does not read as an object is refused after it passed validation.
  lemma RefusedParameters(i: TechnicalIndicator, reading: JsonReading)
    requires ValidIndicator(i) && !reading.Object?
    ensures var other := i.(parameters := JsonText("[]", reading));
            ValidIndicator(other) && RowOf(IndicatorStatement(other)) == None
  {
    hide RowOf, IndicatorStatement;
    ValidIndicatorMeetsSchema(i.(parameters := JsonText("[]", reading)));
  }

  // The summary of a batch: the rows it adds, which are its distinct new keys plus its keyless rows, and a
  // duplicate count that does not underflow.
  lemma SummaryIsExact(t: Tables, statements: seq<Statement>)
    requires ExecuteAll(t, statements).Ok? && |statements| <= UINT64_MAX
    requires forall s :: s in statements ==> RowOf(s).Some?
    ensures var summary := InsertSummary(|statements|, ExecuteAll(t, statements).value.1);
            var after := ExecuteAll(t, statements).value.0;
            && summary.inserted == |after.rows| - |t.rows|
            && summary.inserted == |NewKeys(t.rows, RowsOf(statements))| + Keyless(RowsOf(statements))
            && summary.Duplicates() == summary.attempted - summary.inserted
  {
    hide RowOf, Execute, ExecuteAll, Kept, NewKeys, Keyless;
    BatchAppendsKept(t, statements);
    KeptCount(t.rows, RowsOf(statements));
    KeptAtMost(t.rows, RowsOf(statements));
  }

  // Repeating a committed batch of keyed rows changes nothing and reports every row as a duplicate.
  lemma ReinsertIsIdempotent(t: Tables, statements: seq<Statement>)
    requires ExecuteAll(t, statements).Ok?
    requires forall s :: s in statements ==> RowOf(s).Some? && KeyOf(RowOf(s).value).Some?
    ensures var after := ExecuteAll(t, statements).value.0;
            ExecuteAll(after, statements) == Ok((after, 0))
  {
    hide RowOf;
    BatchAppendsKept(t, statements);
    var batch := RowsOf(statements);
    AllDuplicates(t, statements, statements);
  }

  lemma {:induction false} AllDuplicates(t: Tables, statements: seq<Statement>, again: seq<Statement>)
    requires ExecuteAll(t, statements).Ok?
    requires forall s :: s in again ==> s in statements && RowOf(s).Some? && KeyOf(RowOf(s).value).Some?
    ensures ExecuteAll(ExecuteAll(t, statements).value.0, again) == Ok((ExecuteAll(t, statements).value.0, 0))
  {
    hide RowOf;
    if again != [] {
      var s := again[|again| - 1];
      assert s in again;
      AllDuplicates(t, statements, again[..|again| - 1]);
      BatchAppendsKept(t, statements);
      var batch, k := RowsOf(statements), KeyOf(RowOf(s).value).value;
      var i :| 0 <= i < |statements| && statements[i] == s;
      assert batch[i] == RowOf(s).value;
      KeptKeys(t.rows, batch, k);
      HasKeyConcat(t.rows, Kept(t.rows, batch), k);
      assert HasKey(t.rows, k) || k in NewKeys(t.rows, batch);
    }
  }

  // ---- The latest quote ----

  predicate Matches(row: Row, symbol: string, source: string) {
    row.QuoteRow? && row.symbol == symbol && row.source == source
  }

  function Latest(rows: seq<Row>, symbol: string, source: string): (found: Option<Row>)
    ensures found.Some? ==> found.value in rows && Matches(found.value, symbol, source)
  {
    if rows == [] then None
    else
      var rest := Latest(rows[1..], symbol, source);
      if Matches(rows[0], symbol, source) && (rest.None? || rest.value.micros <= rows[0].micros) then Some(rows[0])
      else rest
  }

  // ---- Reading a row back ----

  predicate DecimalsFit(row: Row)
    requires row.QuoteRow?
  {
    && FitsInt64(row.price) && FitsInt64(row.open) && FitsInt64(row.high)
    && FitsInt64(row.low) && FitsInt64(row.volume)
    && (row.changePct.Some? ==> FitsInt64(row.changePct.value))
  }

  function Decoded(row: Row): Result<Option<Quote>, Error>
    requires row.QuoteRow?
  {
    if !FitsInt64(row.micros) then Err(DatabaseError)
    else if !DecimalsFit(row) then Err(OutOfRange)
    else
      Ok(Some(Quote(row.symbol, row.source, TS.Clock(row.micros * 1000), row.price, row.open, row.high, row.low,
                    row.volume, if row.changePct.Some? then Some(row.changePct.value) else None)))
  }

  // What a row of numbers that fit reads back as, column by column.
  lemma DecodedColumns(row: Row, q: Quote)
    requires row.QuoteRow? && FitsInt64(row.micros * 1000)
    ensures Decoded(row) == Ok(Some(q)) <==>
            && q.symbol == row.symbol && q.source == row.source && q.timestamp == row.micros * 1000
            && q.price == row.price && q.open == row.open && q.high == row.high && q.low == row.low
            && q.volume == row.volume && q.changePct.Some? == row.changePct.Some?
            && (row.changePct.Some? ==> q.changePct.value == row.changePct.value)
  {
  }

  // What reading a stored quote gives: its decimals exactly, its timestamp floored to microseconds, which the
  // clock cannot hold within a microsecond of its least value.
  lemma StoredQuoteReadsBack(q: Quote)
    ensures Decoded(RowOfQuote(q)) == Ok(Some(q.(timestamp := TS.Clock(TS.FloorMicros(q.timestamp)))))
    ensures q.timestamp >= INT64_MIN + 1000 ==> TS.Clock(TS.FloorMicros(q.timestamp)) == TS.FloorMicros(q.timestamp)
  {
  }

  // ---- Main results: the newest row ----

  lemma {:induction false} LatestIsNewest(rows: seq<Row>, symbol: string, source: string)
    ensures var found := Latest(rows, symbol, source);
            && (found.None? <==> forall r :: r in rows ==> !Matches(r, symbol, source))
            && (found.Some? ==> forall r :: r in rows && Matches(r, symbol, source) ==> r.micros <= found.value.micros)
    ensures forall r :: Matches(r, symbol, source) <==> r.QuoteRow? && r.symbol == symbol && r.source == source
  {
    if rows != [] {
      LatestIsNewest(rows[1..], symbol, source);
      assert forall r :: r in rows <==> r == rows[0] || r in rows[1..];
    }
  }

  // ---- Main results: from batches to the latest quote ----

  lemma {:induction false} ExecuteConcat(t: Tables, a: seq<Statement>, b: seq<Statement>)
    requires ExecuteAll(t, a).Ok? && ExecuteAll(ExecuteAll(t, a).value.0, b).Ok?
    ensures ExecuteAll(t, a + b).Ok?
    ensures ExecuteAll(t, a + b).value.0 == ExecuteAll(ExecuteAll(t, a).value.0, b).value.0
  {
    hide Execute;
    if b == [] {
      assert a + b == a;
    } else {
      assert (a + b)[..|a + b| - 1] == a + b[..|b| - 1];
      ExecuteConcat(t, a, b[..|b| - 1]);
    }
  }

  // The tables after a run of committed batches, of quotes, ticks, snapshots and indicators in any order.
  function AfterBatches(t: Tables, batches: seq<seq<Statement>>): Result<Tables, Error> {
    if batches == [] then Ok(t)
    else
      match AfterBatches(t, batches[..|batches| - 1])
      case Err(e) => Err(e)
      case Ok(before) =>
        match ExecuteAll(before, batches[|batches| - 1])
        case Err(e) => Err(e)
        case Ok(after) => Ok(after.0)
  }

  function Flatten(batches: seq<seq<Statement>>): seq<Statement> {
    if batches == [] then [] else Flatten(batches[..|batches| - 1]) + batches[|batches| - 1]
  }

  lemma {:induction false} BatchesAreOne(t: Tables, batches: seq<seq<Statement>>)
    requires AfterBatches(t, batches).Ok?
    ensures ExecuteAll(t, Flatten(batches)).Ok?
    ensures ExecuteAll(t, Flatten(batches)).value.0 == AfterBatches(t, batches).value
  {
    hide Execute;
    if batches != [] {
      var front, last := batches[..|batches| - 1], batches[|batches| - 1];
      BatchesAreOne(t, front);
      ExecuteConcat(t, Flatten(front), last);
    }
  }

  lemma {:induction false} LatestAppend(rows: seq<Row>, row: Row, symbol: string, source: string)
    ensures var before := Latest(rows, symbol, source);
            Latest(rows + [row], symbol, source) ==
            if Matches(row, symbol, source) && (before.None? || before.value.micros < row.micros) then Some(row)
            else before
  {
    if rows == [] {
      assert rows + [row] == [row];
      assert Latest([row][1..], symbol, source) == None;
    } else {
      assert (rows + [row])[1..] == rows[1..] + [row];
      LatestAppend(rows[1..], row, symbol, source);
    }
  }

  // Rows dropped for their key never would have been the latest.
  lemma {:induction false} LatestIgnoresDuplicates(rows: seq<Row>, batch: seq<Row>, symbol: string, source: string)
    ensures Latest(rows + Kept(rows, batch), symbol, source) == Latest(rows + batch, symbol, source)
  {
    hide Latest;
    if batch != [] {
      var front, row := batch[..|batch| - 1], batch[|batch| - 1];
      var before := Kept(rows, front);
      LatestIgnoresDuplicates(rows, front, symbol, source);
      assert rows + batch == rows + front + [row];
      LatestAppend(rows + front, row, symbol, source);
      if Conflicts(rows + before, row) {
        if Matches(row, symbol, source) {
          DuplicateIsNoLater(rows + before, row, symbol, source);
        }
      } else {
        assert rows + (before + [row]) == rows + before + [row];
        LatestAppend(rows + before, row, symbol, source);
      }
    }
  }

  lemma DuplicateIsNoLater(rows: seq<Row>, row: Row, symbol: string, source: string)
    requires Conflicts(rows, row) && Matches(row, symbol, source)
    ensures Latest(rows, symbol, source).Some? && row.micros <= Latest(rows, symbol, source).value.micros
  {
    hide Latest;
    LatestIsNewest(rows, symbol, source);
    var i :| 0 <= i < |rows| && KeyOf(rows[i]) == KeyOf(row);
    assert rows[i] in rows && Matches(rows[i], symbol, source) && rows[i].micros == row.micros;
  }

  lemma {:induction false} LatestIsFirst(rows: seq<Row>, symbol: string, source: string) returns (i: nat)
    ensures var found := Latest(rows, symbol, source);
            found.Some? ==>
              && i < |rows| && found == Some(rows[i])
              && forall j :: 0 <= j < i && Matches(rows[j], symbol, source) ==> rows[j].micros < rows[i].micros
  {
    i := 0;
    if rows != [] && Latest(rows, symbol, source) == Latest(rows[1..], symbol, source) {
      var found := Latest(rows, symbol, source);
      if found.Some? && found != Some(rows[0]) {
        var k := LatestIsFirst(rows[1..], symbol, source);
        i := k + 1;
        assert forall j :: 0 < j < i ==> rows[j] == rows[1..][j - 1];
      }
    }
  }

  // Whatever the tables held and whatever batches were committed, the latest quote of a symbol and source is the
  // newest among the rows present before and those offered since, the earliest of them if several share its
  // timestamp to the microsecond; there is none exactly when there is no such row.
  lemma LatestAfterBatches(t: Tables, batches: seq<seq<Statement>>, symbol: string, source: string) returns (i: nat)
    requires AfterBatches(t, batches).Ok?
    ensures forall s :: s in Flatten(batches) ==> RowOf(s).Some?
    ensures var all := t.rows + RowsOf(Flatten(batches));
            var found := Latest(AfterBatches(t, batches).value.rows, symbol, source);
            && (found.None? <==> forall r :: r in all ==> !Matches(r, symbol, source))
            && (found.Some? ==>
                  && i < |all| && found == Some(all[i]) && Matches(all[i], symbol, source)
                  && (forall r :: r in all && Matches(r, symbol, source) ==> r.micros <= all[i].micros)
                  && (forall j :: 0 <= j < i && Matches(all[j], symbol, source) ==> all[j].micros < all[i].micros))
  {
    hide Execute, RowOf, Kept, Latest;
    BatchesAreOne(t, batches);
    BatchAppendsKept(t, Flatten(batches));
    var offered := RowsOf(Flatten(batches));
    LatestIgnoresDuplicates(t.rows, offered, symbol, source);
    LatestIsNewest(t.rows + offered, symbol, source);
    i := LatestIsFirst(t.rows + offered, symbol, source);
  }

  // A validated quote that was offered and is newer than every other row of its symbol and source is what
  // latest_quote returns, exactly but for the floored timestamp.
  lemma NewestOfferedReadsBack(t: Tables, batches: seq<seq<Statement>>, q: Quote)
    requires AfterBatches(t, batches).Ok? && ValidQuote(q) && QuoteStatement(q) in Flatten(batches)
    requires forall r :: r in t.rows && Matches(r, q.symbol, q.source) ==> r.micros < q.timestamp / 1000
    requires forall s :: s in Flatten(batches) && RowOf(s).Some? && Matches(RowOf(s).value, q.symbol, q.source) ==>
               s == QuoteStatement(q) || RowOf(s).value.micros < q.timestamp / 1000
    ensures var found := Latest(AfterBatches(t, batches).value.rows, q.symbol, q.source);
            found.Some? && Decoded(found.value) == Ok(Some(q.(timestamp := TS.Clock(TS.FloorMicros(q.timestamp)))))
  {
    hide RowOf, QuoteStatement, Latest, Execute, ExecuteAll, AfterBatches;
    var statements := Flatten(batches);
    var i := LatestAfterBatches(t, batches, q.symbol, q.source);
    ValidQuoteMeetsSchema(q);
    StoredQuoteReadsBack(q);
    var n :| 0 <= n < |statements| && statements[n] == QuoteStatement(q);
    var all := t.rows + RowsOf(statements);
    assert all[|t.rows| + n] == RowOfQuote(q);
    assert all[|t.rows| + n] in all && Matches(all[|t.rows| + n], q.symbol, q.source);
    if i >= |t.rows| {
      assert statements[i - |t.rows|] in statements && RowOf(statements[i - |t.rows|]) == Some(all[i]);
    }
  }
}

/** The PostgreSQL server as the repository uses it: typed rows with unique keys, foreign keys and checks,
    one transaction block at a time, and commands that may fail; then the connection and transaction
    objects on top of it. */
module Database {
  import opened Common
  import Calendar
  import Domain
  import Decimal
  import TS = Timestamp

  // ---- Statements carry text, rows carry values ----

  // The prepared inserts with their text parameters.
  datatype Statement =
    | InsertQuote(symbol: string, source: string, at: string, price: string, open: string, high: string,
                  low: string, volume: string, changePct: Option<string>)
    | InsertTick(symbol: string, source: string, at: string, tradeId: Option<string>, price: string,
                 size: string, side: char)
    | InsertSnapshot(symbol: string, source: string, at: string, bestBid: string, bestAsk: string,
                     imbalance: string, totalBidVolume: string, totalAskVolume: string)
    | InsertIndicator(symbol: string, source: string, indicatorName: string, at: string, indicatorValue: string,
                      parameters: Domain.JsonText)

  // Numbers are counts of 10^-8, instants are microseconds since the Epoch.
  datatype Row =
    | QuoteRow(symbol: string, source: string, micros: int, price: int, open: int, high: int, low: int,
               volume: int, changePct: Option<int>)
    | TickRow(symbol: string, source: string, micros: int, tradeId: Option<string>, price: int, size: int, side: char)
    | SnapshotRow(symbol: string, source: string, micros: int, bestBid: int, bestAsk: int, imbalance: int,
                  totalBidVolume: int, totalAskVolume: int)
    | IndicatorRow(symbol: string, source: string, indicatorName: string, micros: int, indicatorValue: int,
                   parameters: string)

  // The unique keys of the tables. A tick without a trade id has none.
  datatype Key =
    | QuoteKey(symbol: string, source: string, micros: int)
    | TickKey(source: string, symbol: string, tradeId: string)
    | SnapshotKey(symbol: string, source: string, micros: int)
    | IndicatorKey(symbol: string, source: string, indicatorName: string, micros: int, parameters: string)

  function KeyOf(row: Row): Option<Key> {
    match row
    case QuoteRow(symbol, source, micros, _, _, _, _, _, _) => Some(QuoteKey(symbol, source, micros))
    case TickRow(symbol, source, _, tradeId, _, _, _) =>
      if tradeId.Some? then Some(TickKey(source, symbol, tradeId.value)) else None
    case SnapshotRow(symbol, source, micros, _, _, _, _, _) => Some(SnapshotKey(symbol, source, micros))
    case IndicatorRow(symbol, source, name, micros, _, parameters) =>
      Some(IndicatorKey(symbol, source, name, micros, parameters))
  }

  // ---- Conversions and constraints of migration/schema.sql ----

  function ReadNumeric(text: string): Option<int> {
    if Decimal.WellShaped(text) then Some(Decimal.Split(text).Scaled()) else None
  }

  function ReadInstant(text: string): Option<int> {
    match TS.Read(text)
    case None => None
    case Some(st) =>
      if Calendar.Real(st.civil) then
        TS.ReadValid(text);
        Some(Calendar.TimeGm(st.civil) * 1_000_000 + TS.FractionMicros(st.fraction))
      else None
  }

  const PRICE_LIMIT := 100_000_000_000_000_000_000
  const VOLUME_LIMIT := 1_000_000_000_000_000_000_000_000

  // NUMERIC(20,8) and NUMERIC(24,8).
  predicate FitsPrice(n: Option<int>) {
    n.Some? && -PRICE_LIMIT < n.value < PRICE_LIMIT
  }

  predicate FitsVolume(n: Option<int>) {
    n.Some? && -VOLUME_LIMIT < n.value < VOLUME_LIMIT
  }

  // btrim(text) <> ''
  predicate NotBlank(text: string) {
    exists i :: 0 <= i < |text| && text[i] != ' '
  }

  // What of a text parameter arrives: libpq takes it as a C string, so nothing from its first NUL on. Strings
  // are bytes here.
  function CString(text: string): (s: string)
    ensures s <= text && '\0' !in s
    ensures s == text <==> '\0' !in text
  {
    if text == "" || text[0] == '\0' then "" else [text[0]] + CString(text[1..])
  }

  function Byte(text: string, i: nat): int {
    if i < |text| then text[i] as int else -1
  }

  // The length of the well-formed UTF-8 sequence a text begins with, by table 3-7 of the Unicode Standard as in
  // section 4 of RFC 3629; 0 if there is none.
  function LeadingSequence(text: string): (n: nat)
    ensures n <= |text| && n <= 4
  {
    var a, b, c, d := Byte(text, 0), Byte(text, 1), Byte(text, 2), Byte(text, 3);
    if 0 <= a <= 0x7F then 1
    else if 0xC2 <= a <= 0xDF && Continues(b) then 2
    else if && 0xE0 <= a <= 0xEF && Continues(b) && Continues(c)
            && (a == 0xE0 ==> b >= 0xA0) && (a == 0xED ==> b <= 0x9F) then 3
    else if && 0xF0 <= a <= 0xF4 && Continues(b) && Continues(c) && Continues(d)
            && (a == 0xF0 ==> b >= 0x90) && (a == 0xF4 ==> b <= 0x8F) then 4
    else 0
  }

  predicate Continues(b: int) {
    0x80 <= b <= 0xBF
  }

  // The characters of a UTF-8 text, if it is one.
  function Characters(text: string): (n: Option<nat>)
    ensures n.Some? ==> n.value <= |text|
    decreases |text|
  {
    if text == "" then Some(0)
    else if LeadingSequence(text) == 0 then None
    else
      match Characters(text[LeadingSequence(text)..])
      case None => None
      case Some(rest) => Some(rest + 1)
  }

  // VARCHAR(64) with the check of ticks_trade_id_nonempty_ck, in a database whose encoding is UTF-8.
  predicate StorableId(text: string) {
    Characters(text).Some? && Characters(text).value <= 64 && NotBlank(text)
  }

  // The row a statement denotes, if every text converts, every width holds and every check passes.
  function RowOf(s: Statement): Option<Row> {
    if ReadInstant(s.at).None? || |s.symbol| > 16 || |s.source| > 20 then None
    else
      match s
      case InsertQuote(symbol, source, at, price, open, high, low, volume, changePct) =>
        QuoteRowOf(symbol, source, ReadInstant(at).value, ReadNumeric(price), ReadNumeric(open), ReadNumeric(high),
                   ReadNumeric(low), ReadNumeric(volume), changePct)
      case InsertTick(symbol, source, at, tradeId, price, size, side) =>
        TickRowOf(symbol, source, ReadInstant(at).value, tradeId, ReadNumeric(price), ReadNumeric(size), side)
      case InsertSnapshot(symbol, source, at, bestBid, bestAsk, imbalance, bidVolume, askVolume) =>
        SnapshotRowOf(symbol, source, ReadInstant(at).value, ReadNumeric(bestBid), ReadNumeric(bestAsk),
                      ReadNumeric(imbalance), ReadNumeric(bidVolume), ReadNumeric(askVolume))
      case InsertIndicator(symbol, source, name, at, value, parameters) =>
        IndicatorRowOf(symbol, source, name, ReadInstant(at).value, ReadNumeric(value), parameters.reading)
  }

  function QuoteRowOf(symbol: string, source: string, micros: int, price: Option<int>, open: Option<int>,
                      high: Option<int>, low: Option<int>, volume: Option<int>, changePct: Option<string>)
    : Option<Row>
  {
    var change := if changePct.Some? then ReadNumeric(changePct.value) else None;
    if && FitsPrice(price) && FitsPrice(open) && FitsPrice(high) && FitsPrice(low) && FitsVolume(volume)
       && (changePct.Some? ==> FitsPrice(change))
       && price.value >= 0 && open.value >= 0 && high.value >= 0 && low.value >= 0
       && high.value >= low.value && volume.value >= 0
    then Some(QuoteRow(symbol, source, micros, price.value, open.value, high.value, low.value, volume.value, change))
    else None
  }

  function TickRowOf(symbol: string, source: string, micros: int, tradeId: Option<string>, price: Option<int>,
                     size: Option<int>, side: char): Option<Row> {
    if && FitsPrice(price) && FitsVolume(size) && price.value > 0 && size.value > 0
       && side in {'B', 'A', 'U'}
       && (tradeId.Some? ==> StorableId(tradeId.value))
    then Some(TickRow(symbol, source, micros, tradeId, price.value, size.value, side))
    else None
  }

  function SnapshotRowOf(symbol: string, source: string, micros: int, bestBid: Option<int>, bestAsk: Option<int>,
                         imbalance: Option<int>, bidVolume: Option<int>, askVolume: Option<int>): Option<Row> {
    if && FitsPrice(bestBid) && FitsPrice(bestAsk) && FitsPrice(imbalance)
       && FitsVolume(bidVolume) && FitsVolume(askVolume)
       && bestBid.value > 0 && bestAsk.value > 0 && bestAsk.value >= bestBid.value
       && -100_000_000 <= imbalance.value <= 100_000_000
       && bidVolume.value >= 0 && askVolume.value >= 0
    then
      Some(SnapshotRow(symbol, source, micros, bestBid.value, bestAsk.value, imbalance.value, bidVolume.value,
                       askVolume.value))
    else None
  }

  function IndicatorRowOf(symbol: string, source: string, name: string, micros: int, value: Option<int>,
                          parameters: Domain.JsonReading): Option<Row> {
    if |name| <= 32 && Domain.UpperIdentifier(name, {'_'}) && FitsPrice(value) && parameters.Object?
    then Some(IndicatorRow(symbol, source, name, micros, value.value, parameters.normal))
    else None
  }

  // ---- Tables ----

  // The rows of all time-series tables in insertion order; the constructor tells the table.
  datatype Tables = Tables(instruments: set<string>, sources: set<string>, rows: seq<Row>)

  predicate HasKey(rows: seq<Row>, k: Key) {
    exists i :: 0 <= i < |rows| && KeyOf(rows[i]) == Some(k)
  }

  predicate Conflicts(rows: seq<Row>, row: Row) {
    KeyOf(row).Some? && HasKey(rows, KeyOf(row).value)
  }

  // INSERT ... ON CONFLICT DO NOTHING, and the affected-row count. Foreign keys are looked up for inserted
  // rows only.
  function Execute(t: Tables, s: Statement): Result<(Tables, nat), Error> {
    match RowOf(s)
    case None => Err(DatabaseError)
    case Some(row) =>
      if Conflicts(t.rows, row) then Ok((t, 0))
      else if row.symbol !in t.instruments || row.source !in t.sources then Err(DatabaseError)
      else Ok((t.(rows := t.rows + [row]), 1))
  }

  function ExecuteAll(t: Tables, statements: seq<Statement>): Result<(Tables, nat), Error> {
    if statements == [] then Ok((t, 0))
    else
      match ExecuteAll(t, statements[..|statements| - 1])
      case Err(e) => Err(e)
      case Ok(before) =>
        match Execute(before.0, statements[|statements| - 1])
        case Err(e) => Err(e)
        case Ok(after) => Ok((after.0, before.1 + after.1))
  }

  // ---- The session ----

  datatype Session = Idle | InBlock(pending: Tables) | Aborted

  // What can happen to a command: the server carries it out, the server refuses it, the connection breaks
  // before or after it took effect, or the client fails after the server carried it out.
  datatype Fault = NoFault | Refused | ConnectionLost(applied: bool) | ClientFails {
    // The client sees a failure although the server has carried the command out.
    predicate Unreported() {
      ClientFails? || (ConnectionLost? && applied)
    }
  }

  class PgConnection {
    var open: bool
    var committed: Tables
    var session: Session

    constructor (tables: Tables)
      ensures open && committed == tables && session == Idle
    {
      open, committed, session := true, tables, Idle;
    }

    // What the next statement sees.
    function View(): Tables
      reads this
    {
      if session.InBlock? then session.pending else committed
    }

    // A broken connection makes the server discard an open block.
    method Break()
      modifies `open, `session
      ensures !open && session == Idle
    {
      open, session := false, Idle;
    }

    // BEGIN. Inside an open block it is only a warning and the block goes on.
    method Begin(fault: Fault) returns (ok: bool)
      modifies `open, `session
      ensures ok <==> old(open) && fault.NoFault? && !old(session).Aborted?
      ensures (open, session) ==
              if !old(open) || fault.Refused? || old(session).Aborted? then (old(open), old(session))
              else if fault.ConnectionLost? then (false, Idle)
              else (true, InBlock(old(View())))
    {
      if !open || fault.Refused? || session.Aborted? {
        return false;
      }
      if fault.ConnectionLost? {
        Break();
        return false;
      }
      session := InBlock(View());
      return !fault.ClientFails?;
    }

    // A prepared insert inside the open block. An error aborts the block.
    method ExecutePrepared(s: Statement, fault: Fault) returns (r: Result<nat, Error>)
      requires session.InBlock?
      modifies `open, `session
      ensures var outcome := Execute(old(View()), s);
              r == if old(open) && fault.NoFault? && outcome.Ok? then Ok(outcome.value.1) else Err(DatabaseError)
      ensures (open, session) ==
              if !old(open) then (false, old(session))
              else if fault.ConnectionLost? then (false, Idle)
              else if fault.Refused? || Execute(old(View()), s).Err? then (true, Aborted)
              else (true, InBlock(Execute(old(View()), s).value.0))
    {
      if !open {
        return Err(DatabaseError);
      }
      if fault.ConnectionLost? {
        Break();
        return Err(DatabaseError);
      }
      var outcome := Execute(session.pending, s);
      if fault.Refused? || outcome.Err? {
        session := Aborted;
        return Err(DatabaseError);
      }
      session := InBlock(outcome.value.0);
      if fault.ClientFails? {
        return Err(DatabaseError);
      }
      return Ok(outcome.value.1);
    }

    // COMMIT. A refused commit is rolled back by the server; a failure after the server acted leaves the
    // block committed but unreported.
    method Commit(fault: Fault) returns (ok: bool)
      requires session.InBlock?
      modifies this
      ensures ok <==> old(open) && fault.NoFault?
      ensures committed == if ok || (old(open) && fault.Unreported()) then old(View()) else old(committed)
      ensures (open, session) == if old(open) then (!fault.ConnectionLost?, Idle) else (false, old(session))
    {
      if !open {
        return false;
      }
      if fault.ConnectionLost? {
        if fault.applied {
          committed := session.pending;
        }
        Break();
        return false;
      }
      if fault.Refused? {
        session := Idle;
        return false;
      }
      committed := session.pending;
      session := Idle;
      return !fault.ClientFails?;
    }

    // ROLLBACK.
    method Rollback(fault: Fault)
      modifies `open, `session
      ensures (open, session) ==
              if !old(open) || fault.Refused? then (old(open), old(session)) else (!fault.ConnectionLost?, Idle)
    {
      if !open || fault.Refused? {
        return;
      }
      if fault.ConnectionLost? {
        Break();
        return;
      }
      session := Idle;
    }
  }

  // The scope object around a batch: committed explicitly, rolled back on every other way out.
  class PgTransaction {
    const connection: PgConnection
    var active: bool

    // The constructor's body after a successful BEGIN.
    constructor (connection: PgConnection)
      ensures this.connection == connection && active
    {
      this.connection := connection;
      active := true;
    }

    method Commit(fault: Fault) returns (ok: bool)
      requires active && connection.session.InBlock?
      modifies this, connection
      ensures ok <==> old(connection.open) && fault.NoFault?
      ensures active == !ok
      ensures connection.committed ==
              if ok || (old(connection.open) && fault.Unreported()) then old(connection.View())
              else old(connection.committed)
      ensures (connection.open, connection.session) ==
              if old(connection.open) then (!fault.ConnectionLost?, Idle) else (false, old(connection.session))
    {
      ok := connection.Commit(fault);
      if ok {
        active := false;
      }
    }

    // The destructor.
    method Destroy(fault: Fault)
      modifies connection`open, connection`session
      ensures (connection.open, connection.session) ==
              if !active || !old(connection.open) || fault.Refused? then (old(connection.open), old(connection.session))
              else (!fault.ConnectionLost?, Idle)
    {
      if active {
        connection.Rollback(fault);
      }
    }
  }

  // ---- Main results: what a batch does to the tables ----

  // Which stored row a new one conflicts with, column by column of each table's unique constraint.
  lemma ConflictsExactly(rows: seq<Row>, row: Row)
    ensures row.QuoteRow? ==>
              (Conflicts(rows, row) <==>
               exists i :: 0 <= i < |rows| && rows[i].QuoteRow? && rows[i].symbol == row.symbol
                 && rows[i].source == row.source && rows[i].micros == row.micros)
    ensures row.SnapshotRow? ==>
              (Conflicts(rows, row) <==>
               exists i :: 0 <= i < |rows| && rows[i].SnapshotRow? && rows[i].symbol == row.symbol
                 && rows[i].source == row.source && rows[i].micros == row.micros)
    ensures row.TickRow? ==>
              (Conflicts(rows, row) <==>
               exists i :: 0 <= i < |rows| && rows[i].TickRow? && rows[i].source == row.source
                 && rows[i].symbol == row.symbol && rows[i].tradeId.Some? && rows[i].tradeId == row.tradeId)
    ensures row.IndicatorRow? ==>
              (Conflicts(rows, row) <==>
               exists i :: 0 <= i < |rows| && rows[i].IndicatorRow? && rows[i].symbol == row.symbol
                 && rows[i].source == row.source && rows[i].indicatorName == row.indicatorName
                 && rows[i].micros == row.micros && rows[i].parameters == row.parameters)
  {
    assert Conflicts(rows, row) <==>
           exists i :: 0 <= i < |rows| && KeyOf(rows[i]).Some? && KeyOf(rows[i]) == KeyOf(row);
  }

  // When an insert is carried out, and what it adds.
  lemma ExecuteExactly(t: Tables, s: Statement)
    ensures Execute(t, s).Ok? <==>
            && RowOf(s).Some?
            && (Conflicts(t.rows, RowOf(s).value)
                || (RowOf(s).value.symbol in t.instruments && RowOf(s).value.source in t.sources))
    ensures Execute(t, s).Ok? ==>
              var (after, inserted) := Execute(t, s).value;
              && after.instruments == t.instruments && after.sources == t.sources
              && (Conflicts(t.rows, RowOf(s).value) ==> inserted == 0 && after.rows == t.rows)
              && (!Conflicts(t.rows, RowOf(s).value) ==> inserted == 1 && after.rows == t.rows + [RowOf(s).value])
  {
    hide RowOf, Conflicts;
  }

  ghost predicate UniqueKeys(rows: seq<Row>) {
    forall i, j :: 0 <= i < j < |rows| && KeyOf(rows[i]).Some? ==> KeyOf(rows[i]) != KeyOf(rows[j])
  }

  // The rows of a batch that get stored on top of `rows`: those without a key, and the first of each new key.
  function Kept(rows: seq<Row>, batch: seq<Row>): seq<Row> {
    if batch == [] then []
    else
      var before, row := Kept(rows, batch[..|batch| - 1]), batch[|batch| - 1];
      if Conflicts(rows + before, row) then before else before + [row]
  }

  function RowsOf(statements: seq<Statement>): seq<Row>
    requires forall s :: s in statements ==> RowOf(s).Some?
  {
    seq(|statements|, i requires 0 <= i < |statements| => RowOf(statements[i]).value)
  }

  // A batch either fails as a whole or appends exactly the kept rows and counts them.
  lemma {:induction false} BatchAppendsKept(t: Tables, statements: seq<Statement>)
    requires ExecuteAll(t, statements).Ok?
    ensures forall s :: s in statements ==> RowOf(s).Some?
    ensures ExecuteAll(t, statements) ==
            Ok((t.(rows := t.rows + Kept(t.rows, RowsOf(statements))), |Kept(t.rows, RowsOf(statements))|))
  {
    hide RowOf;
    if statements == [] {
      assert t.rows + [] == t.rows;
    } else {
      var front, s := statements[..|statements| - 1], statements[|statements| - 1];
      BatchAppendsKept(t, front);
      assert statements == front + [s];
      assert RowsOf(statements)[..|front|] == RowsOf(front);
      var before := Kept(t.rows, RowsOf(front));
      assert t.rows + before + [RowOf(s).value] == t.rows + (before + [RowOf(s).value]);
    }
  }

  // No more rows are stored than offered, so the duplicate count never underflows.
  lemma {:induction false} KeptAtMost(rows: seq<Row>, batch: seq<Row>)
    ensures |Kept(rows, batch)| <= |batch|
  {
    if batch != [] {
      KeptAtMost(rows, batch[..|batch| - 1]);
    }
  }

  function NewKeys(rows: seq<Row>, batch: seq<Row>): set<Key> {
    set i | 0 <= i < |batch| && KeyOf(batch[i]).Some? && !HasKey(rows, KeyOf(batch[i]).value) :: KeyOf(batch[i]).value
  }

  function Keyless(batch: seq<Row>): nat {
    if batch == [] then 0 else Keyless(batch[..|batch| - 1]) + (if KeyOf(batch[|batch| - 1]).None? then 1 else 0)
  }

  lemma HasKeyConcat(a: seq<Row>, b: seq<Row>, k: Key)
    ensures HasKey(a + b, k) <==> HasKey(a, k) || HasKey(b, k)
  {
    if i :| 0 <= i < |a| && KeyOf(a[i]) == Some(k) {
      assert KeyOf((a + b)[i]) == Some(k);
    }
    if i :| 0 <= i < |b| && KeyOf(b[i]) == Some(k) {
      assert KeyOf((a + b)[|a| + i]) == Some(k);
    }
  }

  // The keys a batch adds are exactly its new keys.
  lemma {:induction false} KeptKeys(rows: seq<Row>, batch: seq<Row>, k: Key)
    ensures HasKey(Kept(rows, batch), k) <==> k in NewKeys(rows, batch)
  {
    if batch != [] {
      var front, row := batch[..|batch| - 1], batch[|batch| - 1];
      var before := Kept(rows, front);
      KeptKeys(rows, front, k);
      NewKeysStep(rows, batch, k);
      HasKeyConcat(rows, before, k);
      HasKeyConcat(before, [row], k);
      assert HasKey([row], k) <==> KeyOf(row) == Some(k) by {
        if KeyOf(row) == Some(k) {
          assert KeyOf([row][0]) == Some(k);
        }
      }
    }
  }

  lemma NewKeysStep(rows: seq<Row>, batch: seq<Row>, k: Key)
    requires batch != []
    ensures k in NewKeys(rows, batch) <==>
            k in NewKeys(rows, batch[..|batch| - 1]) || (KeyOf(batch[|batch| - 1]) == Some(k) && !HasKey(rows, k))
  {
    var front := batch[..|batch| - 1];
    if k in NewKeys(rows, batch) {
      var i :| 0 <= i < |batch| && KeyOf(batch[i]) == Some(k) && !HasKey(rows, k);
      if i < |front| {
        assert KeyOf(front[i]) == Some(k);
      }
    }
    if k in NewKeys(rows, front) {
      var i :| 0 <= i < |front| && KeyOf(front[i]) == Some(k) && !HasKey(rows, k);
      assert KeyOf(batch[i]) == Some(k);
    }
  }

  // inserted = distinct batch keys not yet present + rows without a key.
  lemma {:induction false} KeptCount(rows: seq<Row>, batch: seq<Row>)
    ensures |Kept(rows, batch)| == |NewKeys(rows, batch)| + Keyless(batch)
  {
    if batch == [] {
      assert NewKeys(rows, batch) == {};
    } else {
      var front, row := batch[..|batch| - 1], batch[|batch| - 1];
      KeptCount(rows, front);
      NewKeysGrow(rows, batch);
      if KeyOf(row).Some? {
        var k := KeyOf(row).value;
        KeptKeys(rows, front, k);
        HasKeyConcat(rows, Kept(rows, front), k);
        assert k in NewKeys(rows, front) ==> !HasKey(rows, k);
        OneMore(NewKeys(rows, front), k);
      }
    }
  }

  lemma OneMore<K>(s: set<K>, k: K)
    ensures |s + {k}| == |s| + if k in s then 0 else 1
  {
    if k in s {
      assert s + {k} == s;
    }
  }

  lemma NewKeysGrow(rows: seq<Row>, batch: seq<Row>)
    requires batch != []
    ensures var row := batch[|batch| - 1];
            NewKeys(rows, batch) == NewKeys(rows, batch[..|batch| - 1])
              + (if KeyOf(row).Some? && !HasKey(rows, KeyOf(row).value) then {KeyOf(row).value} else {})
  {
    forall k { NewKeysStep(rows, batch, k); }
  }

  // Inserting the same keyed batch again stores nothing: every row is a duplicate.
  lemma {:induction false} SecondInsertKeepsNothing(rows: seq<Row>, batch: seq<Row>, again: seq<Row>)
    requires forall r :: r in again ==> r in batch && KeyOf(r).Some?
    ensures Kept(rows + Kept(rows, batch), again) == []
  {
    if again != [] {
      var row := again[|again| - 1];
      assert row in again;
      SecondInsertKeepsNothing(rows, batch, again[..|again| - 1]);
      var k := KeyOf(row).value;
      KeptKeys(rows, batch, k);
      HasKeyConcat(rows, Kept(rows, batch), k);
      var i :| 0 <= i < |batch| && batch[i] == row;
      assert HasKey(rows, k) || k in NewKeys(rows, batch);
      assert rows + Kept(rows, batch) + [] == rows + Kept(rows, batch);
    }
  }

  lemma {:induction false} KeysStayUnique(rows: seq<Row>, batch: seq<Row>)
    requires UniqueKeys(rows)
    ensures UniqueKeys(rows + Kept(rows, batch))
  {
    if batch == [] {
      assert rows + [] == rows;
    } else {
      var front, row := batch[..|batch| - 1], batch[|batch| - 1];
      var before := Kept(rows, front);
      KeysStayUnique(rows, front);
      if !Conflicts(rows + before, row) {
        assert rows + (before + [row]) == (rows + before) + [row];
      }
    }
  }

  // The stored row of a key.
  function Lookup(rows: seq<Row>, k: Key): Option<Row> {
    if rows == [] then None
    else if KeyOf(rows[0]) == Some(k) then Some(rows[0])
    else Lookup(rows[1..], k)
  }

  lemma {:induction false} LookupConcat(a: seq<Row>, b: seq<Row>, k: Key)
    ensures Lookup(a + b, k) == if Lookup(a, k).Some? then Lookup(a, k) else Lookup(b, k)
    ensures Lookup(a, k).Some? <==> HasKey(a, k)
  {
    if a == [] {
      assert a + b == b;
    } else {
      assert (a + b)[1..] == a[1..] + b;
      LookupConcat(a[1..], b, k);
      if i :| 0 <= i < |a| && KeyOf(a[i]) == Some(k) {
        if i > 0 {
          assert KeyOf(a[1..][i - 1]) == Some(k);
        }
      }
      if j :| 0 <= j < |a| - 1 && KeyOf(a[1..][j]) == Some(k) {
        assert KeyOf(a[j + 1]) == Some(k);
      }
    }
  }

  // A present key keeps its row; a new key gets the first row the batch offers for it.
  lemma {:induction false} FirstRowWins(rows: seq<Row>, batch: seq<Row>, k: Key)
    ensures Lookup(rows + Kept(rows, batch), k) == Lookup(rows + batch, k)
  {
    LookupConcat(rows, batch, k);
    LookupConcat(rows, Kept(rows, batch), k);
    if batch != [] {
      var front, row := batch[..|batch| - 1], batch[|batch| - 1];
      var before := Kept(rows, front);
      FirstRowWins(rows, front, k);
      LookupConcat(rows, front, k);
      LookupConcat(rows, before, k);
      LookupConcat(front, [row], k);
      LookupConcat(before, [row], k);
      HasKeyConcat(rows, before, k);
      assert batch == front + [row];
      if Conflicts(rows + before, row) && KeyOf(row) == Some(k) {
        assert Lookup(rows, k).Some? || Lookup(before, k).Some?;
      }
    }
  }
}

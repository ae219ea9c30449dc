/** The Redis side: quote hashes with a time to live, a bounded quote history, and the order-book hashes.
    The server is a key-value store whose commands may fail one by one. */
module RedisStore {
  import opened Common
  import opened Digits
  import opened FixedText
  import opened Quotes
  import OB = OrderBook

  // ---- Serialisation ----

  datatype Field =
    | PriceField | OpenField | HighField | LowField | VolumeField | ChangePctField | SourceField | TimestampField

  type Fields = map<Field, string>

  function QuoteFields(q: Quote): Fields {
    map[
      PriceField := Fixed(q.price, 6),
      OpenField := Fixed(q.open, 6),
      HighField := Fixed(q.high, 6),
      LowField := Fixed(q.low, 6),
      VolumeField := Text(q.volume),
      ChangePctField := Fixed(q.changePct, 6),
      SourceField := q.source,
      TimestampField := SignedText(q.timestamp)]
  }

  // A missing or unreadable number reads as zero.
  function GetDouble(fields: Fields, field: Field): real {
    if field in fields && Stod(fields[field]).Some? then Stod(fields[field]).value else 0.0
  }

  function GetUint64(fields: Fields, field: Field): Volume {
    if field in fields && Stoull(fields[field]).Some? then Stoull(fields[field]).value else 0
  }

  function GetTimestamp(fields: Fields): Int64 {
    if TimestampField in fields && Stoll(fields[TimestampField]).Some? then
      StollFits(fields[TimestampField]);
      Stoll(fields[TimestampField]).value
    else 0
  }

  lemma StollFits(s: string)
    ensures Stoll(s).Some? ==> FitsInt64(Stoll(s).value)
  {
  }

  function FieldsQuote(symbol: Symbol, fields: Fields): Quote {
    Quote(
      symbol,
      GetDouble(fields, PriceField),
      GetDouble(fields, OpenField),
      GetDouble(fields, HighField),
      GetDouble(fields, LowField),
      GetUint64(fields, VolumeField),
      GetDouble(fields, ChangePctField),
      if SourceField in fields then fields[SourceField] else "ALPHA_VANTAGE",
      GetTimestamp(fields))
  }

  function ReadFields(symbol: Symbol, fields: Fields): Option<Quote> {
    if fields == map[] then None
    else
      var q := FieldsQuote(symbol, fields);
      if q.IsValid() then Some(q) else None
  }

  // A quote with its prices at six decimals.
  function Settled(symbol: Symbol, q: Quote): Quote {
    q.(symbol := symbol, price := Settle(q.price, 6), open := Settle(q.open, 6), high := Settle(q.high, 6),
       low := Settle(q.low, 6), changePct := Settle(q.changePct, 6))
  }

  // ---- The key-value store ----

  // A hash that no EXPIRE has reached has no expiry.
  datatype QuoteHash = QuoteHash(fields: Fields, expiresAt: Option<int>)

  type QuoteHashes = map<Symbol, QuoteHash>

  predicate Visible(hashes: QuoteHashes, symbol: Symbol, now: int) {
    && symbol in hashes
    && (hashes[symbol].expiresAt.Some? ==> now < hashes[symbol].expiresAt.value)
  }

  // HMSET: writes the fields into the live hash, or into a new one without expiry.
  function HmSet(hashes: QuoteHashes, symbol: Symbol, fields: Fields, now: int): QuoteHashes {
    if Visible(hashes, symbol, now) then
      hashes[symbol := QuoteHash(hashes[symbol].fields + fields, hashes[symbol].expiresAt)]
    else
      hashes[symbol := QuoteHash(fields, None)]
  }

  function Expire(hashes: QuoteHashes, symbol: Symbol, deadline: int): QuoteHashes {
    if symbol in hashes then hashes[symbol := hashes[symbol].(expiresAt := Some(deadline))] else hashes
  }

  // How the commands of one client call go: the first `done` of them succeed. If that is not all of them, the
  // call reports false, or lets the exception escape if it is not a Redis error.
  datatype CommandRun = CommandRun(done: nat, escapes: bool) {
    function Outcome(commands: nat): Result<bool, Error> {
      if done >= commands then Ok(true) else if escapes then Err(ServiceError) else Ok(false)
    }
  }

  // store_quote issues HMSET, EXPIRE, LPUSH and LTRIM in this order.
  function StoredHashes(hashes: QuoteHashes, symbol: Symbol, q: Quote, now: int, ttl: int, done: nat): QuoteHashes {
    if done == 0 then hashes
    else if done == 1 then HmSet(hashes, symbol, QuoteFields(q), now)
    else Expire(HmSet(hashes, symbol, QuoteFields(q), now), symbol, now + ttl)
  }

  const HISTORY_LIMIT := 1000

  function Trimmed(history: seq<string>): seq<string> {
    if |history| <= HISTORY_LIMIT then history else history[..HISTORY_LIMIT]
  }

  function StoredHistory(history: seq<string>, entry: string, done: nat): seq<string> {
    if done < 3 then history
    else if done == 3 then [entry] + history
    else Trimmed([entry] + history)
  }

  function HistoryEntry(q: Quote): string {
    SignedText(q.timestamp) + ":" + Fixed(q.price, 6) + ":" + Text(q.volume)
  }

  function HistoryOf(histories: map<Symbol, seq<string>>, symbol: Symbol): seq<string> {
    if symbol in histories then histories[symbol] else []
  }

  // A side of the book as its hash: price text to volume text.
  function BookHash(side: seq<OB.Level>): map<string, string> {
    if side == [] then map[]
    else
      var l := side[|side| - 1];
      BookHash(side[..|side| - 1])[Fixed(l.price, 6) := Text(l.volume)]
  }

  // The order-book keys: a hash per side and a time stamp. An absent key and an empty hash are the same to Redis.
  datatype BookHashes = BookHashes(
    bids: map<Symbol, map<string, string>>, asks: map<Symbol, map<string, string>>, times: map<Symbol, int>)

  class RedisClient {
    const quoteTtl: int
    // The part of the server this client writes.
    var hashes: QuoteHashes
    var histories: map<Symbol, seq<string>>
    var books: BookHashes

    constructor (quoteTtl: int)
      requires quoteTtl > 0
      ensures this.quoteTtl == quoteTtl && hashes == map[] && histories == map[]
    {
      this.quoteTtl := quoteTtl;
      hashes, histories, books := map[], map[], BookHashes(map[], map[], map[]);
    }

    // Reading never changes the store, so it never extends a time to live.
    method GetQuote(symbol: Symbol, now: int, fails: bool) returns (r: Option<Quote>)
      ensures r == if !fails && Visible(hashes, symbol, now) then ReadFields(symbol, hashes[symbol].fields) else None
    {
      if fails {
        return None;
      }
      var fields: Fields := if Visible(hashes, symbol, now) then hashes[symbol].fields else map[];
      if fields == map[] {
        return None;
      }
      var q := FieldsQuote(symbol, fields);
      return if q.IsValid() then Some(q) else None;
    }

    method StoreQuote(symbol: Symbol, q: Quote, now: int, run: CommandRun) returns (r: Result<bool, Error>)
      modifies `hashes, `histories
      ensures hashes == StoredHashes(old(hashes), symbol, q, now, quoteTtl, run.done)
      ensures HistoryOf(histories, symbol)
              == StoredHistory(HistoryOf(old(histories), symbol), HistoryEntry(q), run.done)
      ensures forall s :: s != symbol ==> HistoryOf(histories, s) == HistoryOf(old(histories), s)
      ensures r == run.Outcome(4)
    {
      var failure := run.Outcome(run.done + 1);
      var fields := QuoteFields(q);
      if run.done < 1 {
        return failure;
      }
      hashes := HmSet(hashes, symbol, fields, now);
      if run.done < 2 {
        return failure;
      }
      hashes := Expire(hashes, symbol, now + quoteTtl);
      var entry := HistoryEntry(q);
      if run.done < 3 {
        return failure;
      }
      histories := histories[symbol := [entry] + HistoryOf(histories, symbol)];
      if run.done < 4 {
        return failure;
      }
      histories := histories[symbol := Trimmed(histories[symbol])];
      return Ok(true);
    }

    // Replaces both sides' hashes by DEL, DEL, one HSET per level and the time stamp's SET.
    method UpdateOrderBook(symbol: Symbol, bids: seq<OB.Level>, asks: seq<OB.Level>, now: int, run: CommandRun)
      returns (r: Result<bool, Error>)
      modifies `books
      ensures books == WrittenBooks(old(books), symbol, bids, asks, now, run.done)
      ensures r == run.Outcome(BookCommands(bids, asks))
    {
      hide BookHash, Fixed, Text;
      var failure := run.Outcome(run.done + 1);
      assert BookHash([]) == map[] by { EmptySide(); }
      if run.done < 1 {
        return failure;
      }
      books := books.(bids := books.bids[symbol := map[]]);
      if run.done < 2 {
        return failure;
      }
      books := books.(asks := books.asks[symbol := map[]]);
      var bidHash := WriteSide(bids, run.done - 2);
      Overwrite(old(books).bids, symbol, map[], bidHash);
      books := books.(bids := books.bids[symbol := bidHash]);
      if run.done - 2 < |bids| {
        return failure;
      }
      var askHash := WriteSide(asks, run.done - 2 - |bids|);
      Overwrite(old(books).asks, symbol, map[], askHash);
      books := books.(asks := books.asks[symbol := askHash]);
      if run.done < BookCommands(bids, asks) {
        return failure;
      }
      books := books.(times := books.times[symbol := now]);
      return Ok(true);
    }
  }

  // The first n levels of a side, or all of it.
  function Accepted(side: seq<OB.Level>, n: nat): seq<OB.Level> {
    if n < |side| then side[..n] else side
  }

  function BookCommands(bids: seq<OB.Level>, asks: seq<OB.Level>): nat {
    3 + |bids| + |asks|
  }

  // The order-book keys after the first `done` commands.
  function WrittenBooks(b: BookHashes, symbol: Symbol, bids: seq<OB.Level>, asks: seq<OB.Level>, now: int, done: nat)
    : BookHashes
  {
    BookHashes(
      if done < 1 then b.bids else b.bids[symbol := BookHash(Accepted(bids, if done < 2 then 0 else done - 2))],
      if done < 2 then b.asks
      else b.asks[symbol := BookHash(Accepted(asks, if done < 2 + |bids| then 0 else done - 2 - |bids|))],
      if done < BookCommands(bids, asks) then b.times else b.times[symbol := now])
  }

  lemma EmptySide()
    ensures BookHash([]) == map[]
  {
  }

  lemma Overwrite<K, V>(m: map<K, V>, k: K, a: V, b: V)
    ensures m[k := a][k := b] == m[k := b]
  {
  }

  // The loop of HSET commands for one side, of which at most `budget` succeed.
  method WriteSide(side: seq<OB.Level>, budget: nat) returns (hash: map<string, string>)
    ensures hash == BookHash(Accepted(side, budget))
  {
    hash := map[];
    var written := 0;
    while written < |side| && written < budget
      invariant written <= |side| && written <= budget && hash == BookHash(side[..written])
    {
      assert side[..written + 1][..written] == side[..written];
      hash := hash[Fixed(side[written].price, 6) := Text(side[written].volume)];
      written := written + 1;
    }
    assert side[..written] == Accepted(side, budget);
  }

  // ---- Main results: serialisation ----

  lemma FieldTexts(q: Quote)
    ensures var f := QuoteFields(q);
            && f.Keys == {PriceField, OpenField, HighField, LowField, VolumeField, ChangePctField, SourceField,
                          TimestampField}
            && f[PriceField] == Fixed(q.price, 6) && f[OpenField] == Fixed(q.open, 6)
            && f[HighField] == Fixed(q.high, 6) && f[LowField] == Fixed(q.low, 6)
            && f[VolumeField] == Text(q.volume) && f[ChangePctField] == Fixed(q.changePct, 6)
            && f[SourceField] == q.source && f[TimestampField] == SignedText(q.timestamp)
  {
  }

  lemma GetDoubleOf(fields: Fields, field: Field, x: real)
    requires field in fields && fields[field] == Fixed(x, 6)
    ensures GetDouble(fields, field) == Settle(x, 6)
  {
    StodFixed(x, 6);
  }

  lemma GetWholeNumbers(q: Quote, fields: Fields)
    requires VolumeField in fields && fields[VolumeField] == Text(q.volume)
    requires TimestampField in fields && fields[TimestampField] == SignedText(q.timestamp)
    ensures GetUint64(fields, VolumeField) == q.volume && GetTimestamp(fields) == q.timestamp
  {
    StoullText(q.volume);
    StollExactly(q.timestamp);
  }

  lemma FieldsRoundTrip(symbol: Symbol, q: Quote)
    ensures FieldsQuote(symbol, QuoteFields(q)) == Settled(symbol, q)
            == Quote(symbol, Settle(q.price, 6), Settle(q.open, 6), Settle(q.high, 6), Settle(q.low, 6), q.volume,
                     Settle(q.changePct, 6), q.source, q.timestamp)
  {
    var fields := QuoteFields(q);
    FieldTexts(q);
    GetDoubleOf(fields, PriceField, q.price);
    GetDoubleOf(fields, OpenField, q.open);
    GetDoubleOf(fields, HighField, q.high);
    GetDoubleOf(fields, LowField, q.low);
    GetDoubleOf(fields, ChangePctField, q.changePct);
    GetWholeNumbers(q, fields);
  }

  // What comes back is the settled quote, provided it is still valid.
  lemma StoreThenGet(symbol: Symbol, q: Quote)
    ensures ReadFields(symbol, QuoteFields(q)) ==
            if Settled(symbol, q).IsValid() then Some(Settled(symbol, q)) else None
  {
    FieldsRoundTrip(symbol, q);
    FieldTexts(q);
    assert PriceField in QuoteFields(q);
  }

  // A second trip loses nothing more.
  lemma SecondTripIsIdentity(symbol: Symbol, q: Quote)
    requires Settled(symbol, q).IsValid()
    ensures ReadFields(symbol, QuoteFields(Settled(symbol, q))) == Some(Settled(symbol, q))
  {
    StoreThenGet(symbol, Settled(symbol, q));
    SettleIdempotent(q.price, 6);
    SettleIdempotent(q.open, 6);
    SettleIdempotent(q.high, 6);
    SettleIdempotent(q.low, 6);
    SettleIdempotent(q.changePct, 6);
  }

  // When a hash is served: it must not be empty, and its numbers, zero where missing or unreadable, must make a valid
  // quote.
  lemma ReadExactly(symbol: Symbol, fields: Fields)
    ensures ReadFields(symbol, fields).Some? <==>
            && fields != map[] && symbol != "" && GetDouble(fields, PriceField) > 0.0
            && (GetDouble(fields, HighField) == 0.0
                || GetDouble(fields, LowField) <= GetDouble(fields, HighField))
            && GetDouble(fields, OpenField) >= 0.0
    ensures forall f :: f !in fields || Stod(fields[f]).None? ==> GetDouble(fields, f) == 0.0
    ensures ReadFields(symbol, fields).Some? ==>
              var q := ReadFields(symbol, fields).value;
              && q.symbol == symbol && PriceField in fields && Stod(fields[PriceField]) == Some(q.price)
              && (SourceField !in fields ==> q.source == "ALPHA_VANTAGE")
              && (VolumeField !in fields || Stoull(fields[VolumeField]).None? ==> q.volume == 0)
              && (TimestampField !in fields || Stoll(fields[TimestampField]).None? ==> q.timestamp == 0)
  {
    hide Stod, Stoull, Stoll;
  }

  // ---- Main results: the commands behind the two writes ----

  // store_quote command by command, on the symbol's quote key and history.
  datatype QuoteCommand = HMSET(fields: Fields) | EXPIRE(seconds: int) | LPUSH(entry: string) | LTRIM(last: int)

  datatype QuoteKeys = QuoteKeys(hashes: QuoteHashes, history: seq<string>)

  function PlayQuote(keys: QuoteKeys, symbol: Symbol, commands: seq<QuoteCommand>, now: int): QuoteKeys {
    if commands == [] then keys
    else
      var before := PlayQuote(keys, symbol, commands[..|commands| - 1], now);
      match commands[|commands| - 1]
      case HMSET(fields) =>
        var live := Visible(before.hashes, symbol, now);
        var kept := if live then before.hashes[symbol].fields else map[];
        var deadline := if live then before.hashes[symbol].expiresAt else None;
        before.(hashes := before.hashes[symbol := QuoteHash(kept + fields, deadline)])
      case EXPIRE(seconds) =>
        if symbol in before.hashes then
          before.(hashes := before.hashes[symbol := before.hashes[symbol].(expiresAt := Some(now + seconds))])
        else before
      case LPUSH(entry) => before.(history := [entry] + before.history)
      case LTRIM(last) =>
        before.(history := if 0 <= last < |before.history| then before.history[..last + 1] else before.history)
  }

  lemma StoreIsItsCommands(hashes: QuoteHashes, history: seq<string>, symbol: Symbol, q: Quote, now: int, ttl: int,
                           done: nat)
    ensures var commands := [HMSET(QuoteFields(q)), EXPIRE(ttl), LPUSH(HistoryEntry(q)), LTRIM(999)];
            PlayQuote(QuoteKeys(hashes, history), symbol, commands[..if done < 4 then done else 4], now)
            == QuoteKeys(StoredHashes(hashes, symbol, q, now, ttl, done),
                         StoredHistory(history, HistoryEntry(q), done))
  {
    hide QuoteFields, HistoryEntry;
    var commands := [HMSET(QuoteFields(q)), EXPIRE(ttl), LPUSH(HistoryEntry(q)), LTRIM(999)];
    var keys := QuoteKeys(hashes, history);
    assert commands[..4][..3] == commands[..3] && commands[..3][..2] == commands[..2];
    assert commands[..2][..1] == commands[..1] && commands[..1][..0] == [] && commands[..0] == [];
    assert map[] + QuoteFields(q) == QuoteFields(q);
    assert PlayQuote(keys, symbol, [], now) == keys;
    assert PlayQuote(keys, symbol, commands[..1], now)
           == QuoteKeys(HmSet(hashes, symbol, QuoteFields(q), now), history);
    assert PlayQuote(keys, symbol, commands[..2], now)
           == QuoteKeys(Expire(HmSet(hashes, symbol, QuoteFields(q), now), symbol, now + ttl), history);
    assert PlayQuote(keys, symbol, commands[..3], now).history == [HistoryEntry(q)] + history;
  }

  // update_order_book command by command.
  datatype BookCommand =
    | DelBids | DelAsks | HSetBid(price: string, volume: string) | HSetAsk(price: string, volume: string)
    | SetTime(at: int)

  function BidCommands(side: seq<OB.Level>): seq<BookCommand> {
    seq(|side|, i requires 0 <= i < |side| => HSetBid(Fixed(side[i].price, 6), Text(side[i].volume)))
  }

  function AskCommands(side: seq<OB.Level>): seq<BookCommand> {
    seq(|side|, i requires 0 <= i < |side| => HSetAsk(Fixed(side[i].price, 6), Text(side[i].volume)))
  }

  function HashOf(hashes: map<Symbol, map<string, string>>, symbol: Symbol): map<string, string> {
    if symbol in hashes then hashes[symbol] else map[]
  }

  function PlayBook(b: BookHashes, symbol: Symbol, c: BookCommand): BookHashes {
    match c
    case DelBids => b.(bids := b.bids[symbol := map[]])
    case DelAsks => b.(asks := b.asks[symbol := map[]])
    case HSetBid(price, volume) => b.(bids := b.bids[symbol := HashOf(b.bids, symbol)[price := volume]])
    case HSetAsk(price, volume) => b.(asks := b.asks[symbol := HashOf(b.asks, symbol)[price := volume]])
    case SetTime(at) => b.(times := b.times[symbol := at])
  }

  function PlayBooks(b: BookHashes, symbol: Symbol, commands: seq<BookCommand>): BookHashes {
    if commands == [] then b
    else PlayBook(PlayBooks(b, symbol, commands[..|commands| - 1]), symbol, commands[|commands| - 1])
  }

  lemma {:induction false} BookWriteIsItsCommands(b: BookHashes, symbol: Symbol, bids: seq<OB.Level>,
                                                  asks: seq<OB.Level>, now: int, done: nat)
    ensures var commands := [DelBids, DelAsks] + BidCommands(bids) + AskCommands(asks) + [SetTime(now)];
            && |commands| == BookCommands(bids, asks)
            && PlayBooks(b, symbol, commands[..if done < |commands| then done else |commands|])
               == WrittenBooks(b, symbol, bids, asks, now, done)
  {
    hide Fixed, Text, WrittenBooks, PlayBook;
    var commands := [DelBids, DelAsks] + BidCommands(bids) + AskCommands(asks) + [SetTime(now)];
    if done == 0 {
      NothingWritten(b, symbol, bids, asks, now);
    } else {
      BookWriteIsItsCommands(b, symbol, bids, asks, now, done - 1);
      if done <= |commands| {
        assert commands[..done][..done - 1] == commands[..done - 1];
        WrittenOneMore(b, symbol, bids, asks, now, done - 1);
      } else {
        AllWritten(b, symbol, bids, asks, now, done);
      }
    }
  }

  lemma NothingWritten(b: BookHashes, symbol: Symbol, bids: seq<OB.Level>, asks: seq<OB.Level>, now: int)
    ensures WrittenBooks(b, symbol, bids, asks, now, 0) == b
  {
  }

  lemma AllWritten(b: BookHashes, symbol: Symbol, bids: seq<OB.Level>, asks: seq<OB.Level>, now: int, done: nat)
    requires done > BookCommands(bids, asks)
    ensures WrittenBooks(b, symbol, bids, asks, now, done) == WrittenBooks(b, symbol, bids, asks, now, done - 1)
  {
    hide BookHash;
    assert Accepted(bids, done - 2) == Accepted(bids, done - 3) == bids;
    assert Accepted(asks, done - 2 - |bids|) == Accepted(asks, done - 3 - |bids|) == asks;
  }

  lemma WrittenOneMore(b: BookHashes, symbol: Symbol, bids: seq<OB.Level>, asks: seq<OB.Level>, now: int, k: nat)
    requires k < BookCommands(bids, asks)
    ensures var commands := [DelBids, DelAsks] + BidCommands(bids) + AskCommands(asks) + [SetTime(now)];
            WrittenBooks(b, symbol, bids, asks, now, k + 1)
            == PlayBook(WrittenBooks(b, symbol, bids, asks, now, k), symbol, commands[k])
  {
    hide Fixed, Text, BookHash, WrittenBooks, PlayBook;
    if k < 2 {
      FirstWritten(b, symbol, bids, asks, now);
    } else if k < 2 + |bids| {
      BidWritten(b, symbol, bids, asks, now, k);
    } else if k < 2 + |bids| + |asks| {
      AskWritten(b, symbol, bids, asks, now, k);
    } else {
      LastWritten(b, symbol, bids, asks, now);
    }
  }

  lemma FirstWritten(b: BookHashes, symbol: Symbol, bids: seq<OB.Level>, asks: seq<OB.Level>, now: int)
    ensures WrittenBooks(b, symbol, bids, asks, now, 1)
            == PlayBook(WrittenBooks(b, symbol, bids, asks, now, 0), symbol, DelBids)
    ensures WrittenBooks(b, symbol, bids, asks, now, 2)
            == PlayBook(WrittenBooks(b, symbol, bids, asks, now, 1), symbol, DelAsks)
  {
    assert Accepted(bids, 0) == [] && Accepted(asks, 0) == [];
  }

  lemma BidWritten(b: BookHashes, symbol: Symbol, bids: seq<OB.Level>, asks: seq<OB.Level>, now: int, k: nat)
    requires 2 <= k < 2 + |bids|
    ensures WrittenBooks(b, symbol, bids, asks, now, k + 1)
            == PlayBook(WrittenBooks(b, symbol, bids, asks, now, k), symbol, BidCommands(bids)[k - 2])
  {
    hide Fixed, Text, BookHash, Accepted;
    HashOneMore(bids, k - 2);
    assert Accepted(asks, 0) == Accepted(asks, if k + 1 < 2 + |bids| then 0 else k + 1 - 2 - |bids|);
  }

  lemma AskWritten(b: BookHashes, symbol: Symbol, bids: seq<OB.Level>, asks: seq<OB.Level>, now: int, k: nat)
    requires 2 + |bids| <= k < 2 + |bids| + |asks|
    ensures WrittenBooks(b, symbol, bids, asks, now, k + 1)
            == PlayBook(WrittenBooks(b, symbol, bids, asks, now, k), symbol, AskCommands(asks)[k - 2 - |bids|])
  {
    hide Fixed, Text, BookHash;
    HashOneMore(asks, k - 2 - |bids|);
    assert Accepted(bids, k - 2) == Accepted(bids, k - 1) == bids;
  }

  lemma LastWritten(b: BookHashes, symbol: Symbol, bids: seq<OB.Level>, asks: seq<OB.Level>, now: int)
    ensures var k := 2 + |bids| + |asks|;
            WrittenBooks(b, symbol, bids, asks, now, k + 1)
            == PlayBook(WrittenBooks(b, symbol, bids, asks, now, k), symbol, SetTime(now))
  {
    hide BookHash;
    var k := 2 + |bids| + |asks|;
    assert Accepted(bids, k - 2) == Accepted(bids, k - 1) == bids;
    assert Accepted(asks, k - 2 - |bids|) == Accepted(asks, k - 1 - |bids|) == asks;
  }

  lemma HashOneMore(side: seq<OB.Level>, n: nat)
    requires n < |side|
    ensures BookHash(Accepted(side, n + 1))
            == BookHash(Accepted(side, n))[Fixed(side[n].price, 6) := Text(side[n].volume)]
  {
    hide Fixed, Text;
    assert Accepted(side, n + 1) == side[..n + 1] && side[..n + 1][..n] == side[..n];
  }

  // What a call reports: success for all commands, else a failure or an escaping exception.
  lemma RunOutcomes(run: CommandRun, commands: nat)
    ensures run.Outcome(commands) == Ok(true) <==> run.done >= commands
    ensures run.done < commands ==> run.Outcome(commands) == if run.escapes then Err(ServiceError) else Ok(false)
  {
  }

  // ---- Main results: history ----

  // An entry holds the quote's timestamp, price and volume in this order, as texts without a colon that read as
  // these numbers, the price at six decimals.
  lemma EntryReadsBack(q: Quote) returns (at: string, price: string, volume: string)
    ensures HistoryEntry(q) == at + ":" + price + ":" + volume
    ensures ':' !in at && ':' !in price && ':' !in volume
    ensures Stoll(at) == Some(q.timestamp) && Stod(price) == Some(Settle(q.price, 6))
    ensures Stoull(volume) == Some(q.volume)
  {
    hide Stod, Stoll, Stoull, SignedText, Fixed, Text, Settle;
    at, price, volume := SignedText(q.timestamp), Fixed(q.price, 6), Text(q.volume);
    StollExactly(q.timestamp);
    StodFixed(q.price, 6);
    StoullText(q.volume);
    WholeWithoutColon(q.timestamp);
    WholeWithoutColon(q.volume);
    FixedWithoutColon(q.price);
  }

  lemma WholeWithoutColon(n: int)
    ensures ':' !in SignedText(n) && (n >= 0 ==> SignedText(n) == Text(n))
  {
    hide Text;
    var m: nat := if n < 0 then -n else n;
    assert AllDigits(Text(m)) by { ValueText(m); }
    DigitsWithoutColon(Text(m));
  }

  lemma DigitsWithoutColon(s: string)
    requires AllDigits(s)
    ensures ':' !in s
  {
  }

  lemma FixedWithoutColon(x: real)
    ensures ':' !in Fixed(x, 6)
  {
    hide FixedLiteral;
    var l := FixedLiteral(x, 6);
    FixedLiteralFacts(x, 6);
    DigitsWithoutColon(l.whole);
    DigitsWithoutColon(l.fraction);
  }

  // A call to store_quote as the history sees it.
  datatype Push = Push(entry: string, done: nat)

  function HistoryRun(calls: seq<Push>): seq<string> {
    if calls == [] then []
    else StoredHistory(HistoryRun(calls[..|calls| - 1]), calls[|calls| - 1].entry, calls[|calls| - 1].done)
  }

  // The entries whose LPUSH succeeded, newest first.
  function Pushed(calls: seq<Push>): seq<string> {
    if calls == [] then []
    else
      var rest, last := Pushed(calls[..|calls| - 1]), calls[|calls| - 1];
      if last.done >= 3 then [last.entry] + rest else rest
  }

  // Whatever fails, the history is the newest part of what was pushed, never shorter than the limit allows;
  // after a complete store it is exactly the newest min(n, 1000) entries.
  lemma {:induction false} HistoryIsNewest(calls: seq<Push>)
    ensures HistoryRun(calls) <= Pushed(calls)
    ensures |HistoryRun(calls)| >= if |Pushed(calls)| <= 1000 then |Pushed(calls)| else 1000
    ensures calls != [] && calls[|calls| - 1].done >= 4 ==>
              HistoryRun(calls) == Trimmed(Pushed(calls))
              == if |Pushed(calls)| <= 1000 then Pushed(calls) else Pushed(calls)[..1000]
  {
    if calls != [] {
      var front, last := calls[..|calls| - 1], calls[|calls| - 1];
      HistoryIsNewest(front);
      if last.done >= 3 {
        var h, p := [last.entry] + HistoryRun(front), [last.entry] + Pushed(front);
        assert h <= p;
        if last.done >= 4 {
          assert Trimmed(h) == Trimmed(p);
        }
      }
    }
  }

  // ---- Main results: order-book hashes ----

  // Prices far enough apart to print differently.
  predicate Spaced(side: seq<OB.Level>) {
    forall i, j :: 0 <= i < j < |side| ==> SignedUnits(side[i].price, 6) != SignedUnits(side[j].price, 6)
  }

  lemma DistinctTexts(x: real, y: real)
    ensures Fixed(x, 6) == Fixed(y, 6) ==> SignedUnits(x, 6) == SignedUnits(y, 6)
  {
    StodFixed(x, 6);
    StodFixed(y, 6);
    SettleIdempotent(x, 6);
    SettleIdempotent(y, 6);
  }

  function PriceTexts(side: seq<OB.Level>): set<string> {
    set l | l in side :: Fixed(l.price, 6)
  }

  // One field per level, holding its volume, and no other.
  predicate Mirrors(hash: map<string, string>, side: seq<OB.Level>) {
    && |hash| == |side|
    && hash.Keys == PriceTexts(side)
    && forall l :: l in side ==> Fixed(l.price, 6) in hash && hash[Fixed(l.price, 6)] == Text(l.volume)
  }

  lemma MirrorsOneMore(hash: map<string, string>, front: seq<OB.Level>, last: OB.Level)
    requires Mirrors(hash, front) && Fixed(last.price, 6) !in PriceTexts(front)
    ensures Mirrors(hash[Fixed(last.price, 6) := Text(last.volume)], front + [last])
  {
    hide Fixed, Text, PriceTexts;
    var t := Fixed(last.price, 6);
    var after := hash[t := Text(last.volume)];
    assert after.Keys == hash.Keys + {t};
    PriceTextsAppend(front, last);
    forall l | l in front + [last]
      ensures Fixed(l.price, 6) in after && after[Fixed(l.price, 6)] == Text(l.volume)
    {
      assert l in front || l == last;
    }
  }

  lemma PriceTextsAppend(front: seq<OB.Level>, last: OB.Level)
    ensures PriceTexts(front + [last]) == PriceTexts(front) + {Fixed(last.price, 6)}
  {
    hide Fixed;
  }

  // The hash of a spaced side mirrors it; levels whose prices print alike would overwrite each other.
  lemma {:induction false} BookHashMirrors(side: seq<OB.Level>)
    requires Spaced(side)
    ensures Mirrors(BookHash(side), side)
  {
    hide Fixed, SignedUnits, Text, Mirrors;
    if side == [] {
      NothingMirrored();
    } else {
      var front, last := side[..|side| - 1], side[|side| - 1];
      BookHashMirrors(front);
      forall l | l in front
        ensures Fixed(l.price, 6) != Fixed(last.price, 6)
      {
        var i :| 0 <= i < |front| && side[i] == l;
        DistinctTexts(side[i].price, last.price);
      }
      assert side == front + [last];
      MirrorsOneMore(BookHash(front), front, last);
    }
  }

  lemma NothingMirrored()
    ensures Mirrors(map[], [])
  {
  }
}

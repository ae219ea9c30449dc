/** The UTC timestamp texts of the PostgreSQL command line and repository: YYYY-MM-DDTHH:MM:SS[.ffffff]Z,
    a subset of RFC 3339 section 5.6. Timestamps are nanoseconds since the Epoch in an int64, as libstdc++'s
    system_clock holds them. */
module Timestamp {
  import opened Common
  import opened Digits
  import opened Calendar

  // ---- Reference: what a text denotes ----

  // The fields as written, not yet known to be a real date. An empty fraction stands for no point.
  datatype Stamp = Stamp(civil: Civil, fraction: string) {
    predicate Valid() {
      && 0 <= civil.year <= 9999 && 0 <= civil.month <= 99 && 0 <= civil.day <= 99
      && 0 <= civil.hour <= 99 && 0 <= civil.minute <= 99 && 0 <= civil.second <= 99
      && |fraction| <= 6 && AllDigits(fraction)
    }

    function Render(): string
      requires Valid()
    {
      CivilText(civil) + (if fraction == "" then "Z" else "." + fraction + "Z")
    }

    // The instant the fields carry over to.
    function Nanos(): int
      requires Valid() && 1 <= civil.month <= 12
    {
      Instant(TimeGm(civil), FractionMicros(fraction))
    }
  }

  function Instant(seconds: int, micros: int): int {
    seconds * 1_000_000_000 + micros * 1000
  }

  function FractionMicros(fraction: string): nat
    requires |fraction| <= 6
  {
    Value(fraction) * Pow10(6 - |fraction|)
  }

  function CivilText(c: Civil): (s: string)
    requires c.year >= 0 && c.month >= 0 && c.day >= 0 && c.hour >= 0 && c.minute >= 0 && c.second >= 0
    ensures |s| == 19
  {
    Pad(c.year, 4) + "-" + Pad(c.month, 2) + "-" + Pad(c.day, 2) + "T" +
    Pad(c.hour, 2) + ":" + Pad(c.minute, 2) + ":" + Pad(c.second, 2)
  }

  // ---- The canonical layout ----

  // The separators whose positions the parser checks before reading any field.
  predicate Separated(s: string) {
    |s| == 19 && s[4] == '-' && s[7] == '-' && s[10] == 'T' && s[13] == ':' && s[16] == ':'
  }

  predicate CivilShape(s: string) {
    && Separated(s)
    && AllDigits(s[0..4]) && AllDigits(s[5..7]) && AllDigits(s[8..10])
    && AllDigits(s[11..13]) && AllDigits(s[14..16]) && AllDigits(s[17..19])
  }

  function CivilOf(s: string): Civil
    requires |s| == 19
  {
    Civil(Value(s[0..4]), Value(s[5..7]), Value(s[8..10]), Value(s[11..13]), Value(s[14..16]), Value(s[17..19]))
  }

  predicate FractionShape(tail: string) {
    || tail == "Z"
    || (3 <= |tail| <= 8 && tail[0] == '.' && tail[|tail| - 1] == 'Z' && AllDigits(tail[1..|tail| - 1]))
  }

  function FractionOf(value: string): string
    requires |value| >= 20
  {
    if |value| == 20 then "" else value[20..|value| - 1]
  }

  function Read(value: string): Option<Stamp> {
    if |value| >= 20 && CivilShape(value[..19]) && FractionShape(value[19..]) then
      Some(Stamp(CivilOf(value[..19]), FractionOf(value)))
    else
      None
  }

  // ---- std::get_time over "%Y-%m-%dT%H:%M:%S", as libstdc++ extracts the fields ----

  // isspace in the classic locale.
  predicate Blank(c: char) {
    c == ' ' || 9 <= c as int <= 13
  }

  function SkipBlanks(s: string, pos: nat): (next: nat)
    requires pos <= |s|
    ensures pos <= next <= |s| && (next < |s| ==> !Blank(s[next]))
    ensures forall i :: pos <= i < next ==> Blank(s[i])
    decreases |s| - pos
  {
    if pos < |s| && Blank(s[pos]) then SkipBlanks(s, pos + 1) else pos
  }

  // How many digits, at most `width`, stand at a position.
  function DigitRun(s: string, pos: nat, width: nat): (n: nat)
    requires pos <= |s|
    ensures n <= width && pos + n <= |s|
    ensures forall i :: pos <= i < pos + n ==> IsDigit(s[i])
    ensures n < width && pos + n < |s| ==> !IsDigit(s[pos + n])
    decreases width
  {
    if width == 0 || pos == |s| || !IsDigit(s[pos]) then 0 else 1 + DigitRun(s, pos + 1, width - 1)
  }

  datatype Field = NoField | Field(value: nat, next: nat) {
    function Num(): nat {
      if Field? then value else 0
    }
  }

  // A number of one to `width` digits within its range.
  function Number(s: string, at: Option<nat>, width: nat, min: nat, max: nat): Field {
    if at.None? || at.value > |s| then NoField
    else
      var n := DigitRun(s, at.value, width);
      var v := Value(s[at.value..at.value + n]);
      if n > 0 && min <= v <= max then Field(v, at.value + n) else NoField
  }

  // A literal of the format, matched without regard to case.
  function Literal(s: string, f: Field, c: char): Option<nat> {
    if f.Field? && f.next < |s| && UpperChar(s[f.next]) == UpperChar(c) then Some(f.next + 1) else None
  }

  // The day may be preceded by one blank.
  function SkipOne(s: string, at: Option<nat>): Option<nat> {
    if at.Some? && at.value < |s| && Blank(s[at.value]) then Some(at.value + 1) else at
  }

  // Each field is range-checked on its own, so 30 February and second 60 pass.
  function GetTime(s: string): Option<Civil>
    requires Separated(s)
  {
    var year := Number(s, Some(SkipBlanks(s, 0)), 4, 0, 9999);
    var month := Number(s, Literal(s, year, '-'), 2, 1, 12);
    var day := Number(s, SkipOne(s, Literal(s, month, '-')), 2, 1, 31);
    var hour := Number(s, Literal(s, day, 'T'), 2, 0, 23);
    var minute := Number(s, Literal(s, hour, ':'), 2, 0, 59);
    var second := Number(s, Literal(s, minute, ':'), 2, 0, 60);
    if second.Field? then
      Some(Civil(year.Num(), month.Num(), day.Num(), hour.Num(), minute.Num(), second.Num()))
    else None
  }

  // ---- The texts get_time reads behind those separators ----

  function YearText(s: string): string
    requires Separated(s)
  {
    if SkipBlanks(s, 0) <= 4 then s[SkipBlanks(s, 0)..4] else ""
  }

  function DayText(s: string): string
    requires Separated(s)
  {
    if Blank(s[8]) then s[9..10] else s[8..10]
  }

  function SecondText(s: string): string
    requires Separated(s)
  {
    if IsDigit(s[18]) then s[17..19] else s[17..18]
  }

  // Blanks may replace leading digits of the year and the tens of the day, and any non-digit may follow a
  // one-digit second.
  predicate Lenient(s: string) {
    && Separated(s)
    && SkipBlanks(s, 0) <= 3 && AllDigits(YearText(s))
    && AllDigits(s[5..7]) && (IsDigit(s[8]) || Blank(s[8])) && IsDigit(s[9])
    && AllDigits(s[11..13]) && AllDigits(s[14..16]) && IsDigit(s[17])
  }

  function LenientFields(s: string): Civil
    requires Separated(s)
  {
    Civil(Value(YearText(s)), Value(s[5..7]), Value(DayText(s)), Value(s[11..13]), Value(s[14..16]),
          Value(SecondText(s)))
  }

  predicate InRange(c: Civil) {
    1 <= c.month <= 12 && 1 <= c.day <= 31 && 0 <= c.hour <= 23 && 0 <= c.minute <= 59 && 0 <= c.second <= 60
  }

  function ReadLenient(value: string): Option<Stamp> {
    if |value| >= 20 && Lenient(value[..19]) && FractionShape(value[19..]) then
      Some(Stamp(LenientFields(value[..19]), FractionOf(value)))
    else
      None
  }

  function UpperChar(c: char): char {
    if 'a' <= c <= 'z' then (c as int - 32) as char else c
  }

  function Upper(s: string): (t: string)
    ensures |t| == |s|
  {
    seq(|s|, i requires 0 <= i < |s| => UpperChar(s[i]))
  }

  lemma UpperTwice(s: string)
    ensures Upper(Upper(s)) == Upper(s)
  {
  }

  // ---- What the parser and the printer return ----

  // The clock's arithmetic in nanoseconds, with two's-complement wrap-around.
  function Clock(n: int): Int64 {
    (n + 0x8000_0000_0000_0000) % 0x1_0000_0000_0000_0000 - 0x8000_0000_0000_0000
  }

  // Of the stamps with every field in range, those the parser takes. It misses the instants the clock cannot
  // hold and, before the Epoch, the one whose second count is timegm's error value and those with a nonzero
  // fraction, because to_time_t rounds towards zero and the compared fields are then one second late. Whether
  // the fields are a real date plays no part: timegm has normalised them before they are compared.
  predicate Accepted(st: Stamp)
    requires st.Valid() && InRange(st.civil)
  {
    && (TimeGm(st.civil) >= 0 || (FractionMicros(st.fraction) == 0 && TimeGm(st.civil) != -1))
    && FitsInt64(st.Nanos())
  }

  function Parse(value: string, now: Int64): Result<Int64, Error> {
    if Upper(value) == "NOW" then Ok(now)
    else
      match ReadLenient(value)
      case None => Err(InvalidArgument)
      case Some(st) =>
        LenientValid(value);
        if InRange(st.civil) && Accepted(st) then Ok(st.Nanos()) else Err(InvalidArgument)
  }

  function FloorMicros(timestamp: int): int {
    timestamp / 1000 * 1000
  }

  // The stamp of an instant at microsecond precision.
  function StampOf(timestamp: int): Stamp {
    var micros := timestamp / 1000;
    Stamp(GmTime(micros / 1_000_000), Pad(micros % 1_000_000, 6))
  }

  // %Y as put_time prints it, without padding.
  function PlainYear(year: int): string {
    if year < 0 then "-" + Text(-year) else Text(year)
  }

  function TwoDigits(n: int): string {
    if 0 <= n then Pad(n, 2) else ""
  }

  // std::put_time over "%Y-%m-%dT%H:%M:%S".
  function PutTime(c: Civil): string {
    PlainYear(c.year) + "-" + TwoDigits(c.month) + "-" + TwoDigits(c.day) + "T" +
    TwoDigits(c.hour) + ":" + TwoDigits(c.minute) + ":" + TwoDigits(c.second)
  }

  function Format(timestamp: int): string {
    var st := StampOf(timestamp);
    PutTime(st.civil) + "." + st.fraction + "Z"
  }

  // ---- The source's parser and printer ----

  // system_clock::to_time_t, which truncates the sub-second part towards zero.
  function ToTimeT(timestamp: int): int {
    if timestamp >= 0 then timestamp / 1_000_000_000 else -(-timestamp / 1_000_000_000)
  }

  method ScaleToMicros(fraction: string) returns (micros: nat)
    requires |fraction| <= 6 && AllDigits(fraction)
    ensures micros == FractionMicros(fraction) < 1_000_000
  {
    micros := Value(fraction);
    ValueBound(fraction);
    assert Value(fraction) * Pow10(0) == Value(fraction);
    for i := |fraction| to 6
      invariant micros == Value(fraction) * Pow10(i - |fraction|) < Pow10(i)
    {
      MulTen(Value(fraction), Pow10(i - |fraction|));
      micros := micros * 10;
    }
    Pow10Table();
  }

  // The optional fraction after the seconds, in microseconds.
  method ReadFraction(value: string) returns (micros: Result<nat, Error>)
    requires |value| >= 20 && value[|value| - 1] == 'Z'
    ensures micros.Ok? <==> FractionShape(value[19..])
    ensures micros.Ok? ==> var f := FractionOf(value);
                           |f| <= 6 && AllDigits(f) && micros.value == FractionMicros(f) < 1_000_000
    ensures micros.Err? ==> micros.error == InvalidArgument
  {
    if |value| == 20 {
      return Ok(0);
    }
    if value[19] != '.' {
      return Err(InvalidArgument);
    }
    var fraction := value[20..|value| - 1];
    InnerSlice(value, 19);
    if fraction == "" || |fraction| > 6 || !AllDigits(fraction) {
      return Err(InvalidArgument);
    }
    var scaled := ScaleToMicros(fraction);
    return Ok(scaled);
  }

  method ParseTimestamp(value: string, now: Int64) returns (r: Result<Int64, Error>)
    ensures r == Parse(value, now)
  {
    hide Lenient, LenientFields, GetTime, TimeGm, GmTime, Upper, Clock, ToTimeT, FractionMicros, FractionShape;
    hide Parse;
    IsNow(value, now);
    if Upper(value) == "NOW" {
      return Ok(now);
    }
    if |value| < 20 || value[4] != '-' || value[7] != '-' || value[10] != 'T' || value[13] != ':'
       || value[16] != ':' || value[|value| - 1] != 'Z' {
      Unseparated(value, now);
      return Err(InvalidArgument);
    }
    GetTimeExactly(value[..19]);
    Remaining(value, now);
    var read := GetTime(value[..19]);
    if read.None? {
      return Err(InvalidArgument);
    }
    var utc := read.value;
    var micros := ReadFraction(value);
    if micros.Err? {
      return Err(micros.error);
    }
    ghost var st := Stamp(utc, FractionOf(value));
    LenientValid(value);
    // timegm normalises the fields in place.
    var seconds := TimeGm(utc);
    utc := GmTime(seconds);
    if seconds == -1 {
      return Err(InvalidArgument);
    }
    var timestamp := Clock(Instant(seconds, micros.value));
    var roundTrip := ToTimeT(timestamp);
    var checked := GmTime(roundTrip);
    CheckedFields(seconds, micros.value);
    ClockHolds(Instant(seconds, micros.value));
    if checked != utc {
      return Err(InvalidArgument);
    }
    return Ok(timestamp);
  }

  method FormatTimestamp(timestamp: int) returns (text: string)
    ensures text == Format(timestamp)
  {
    var micros := timestamp / 1000;
    var seconds := micros / 1_000_000;
    var fraction := micros - seconds * 1_000_000;
    var utc := GmTime(seconds);
    text := PutTime(utc);
    assert fraction == micros % 1_000_000 < Pow10(6) by { Pow10Table(); }
    FilledText(fraction, 6);
    text := text + "." + (Zeros(6 - |Text(fraction)|) + Text(fraction)) + "Z";
  }

  // ---- Lemmas the parser needs ----

  lemma ReadValid(value: string)
    ensures Read(value).Some? ==> Read(value).value.Valid()
  {
    if Read(value).Some? {
      var s := value[..19];
      Pow10Table();
      ValueBound(s[0..4]);
      ValueBound(s[5..7]);
      ValueBound(s[8..10]);
      ValueBound(s[11..13]);
      ValueBound(s[14..16]);
      ValueBound(s[17..19]);
      if |value| > 20 {
        InnerSlice(value, 19);
      }
    }
  }

  lemma StrictIsLenient(s: string)
    requires CivilShape(s)
    ensures Lenient(s) && LenientFields(s) == CivilOf(s)
  {
    assert IsDigit(s[0..4][0]) && IsDigit(s[8..10][0]) && IsDigit(s[8..10][1]);
    assert IsDigit(s[17..19][0]) && IsDigit(s[17..19][1]);
  }

  lemma LenientValid(value: string)
    ensures ReadLenient(value).Some? ==> ReadLenient(value).value.Valid()
  {
    if ReadLenient(value).Some? {
      var s := value[..19];
      Pow10Table();
      YearBound(YearText(s));
      ValueBound(s[5..7]);
      ValueBound(s[9..10]);
      ValueBound(s[8..10]);
      ValueBound(s[11..13]);
      ValueBound(s[14..16]);
      ValueBound(s[17..18]);
      ValueBound(s[17..19]);
      if |value| > 20 {
        InnerSlice(value, 19);
      }
    }
  }

  lemma YearBound(s: string)
    requires |s| <= 4
    ensures Value(s) <= 9999
  {
    Pow10Table();
    ValueBound(s);
    assert |s| == 0 || |s| == 1 || |s| == 2 || |s| == 3 || |s| == 4;
  }

  // A text without the separators is no spelling of anything.
  lemma Unseparated(value: string, now: Int64)
    requires Upper(value) != "NOW"
    requires |value| < 20 || !Separated(value[..19]) || value[|value| - 1] != 'Z'
    ensures Parse(value, now) == Err(InvalidArgument)
  {
    if |value| >= 20 {
      assert value[19..][|value| - 20] == value[|value| - 1];
    }
  }

  // A number before a separator ends there, or earlier, or is none.
  lemma NumberBefore(s: string, at: nat, stop: nat, width: nat, min: nat, max: nat)
    requires at < stop < |s| && stop - at <= width && !IsDigit(s[stop])
    ensures var f := Number(s, Some(at), width, min, max);
            && (f.Field? ==> at < f.next <= stop)
            && (if AllDigits(s[at..stop]) && min <= Value(s[at..stop]) <= max then f == Field(Value(s[at..stop]), stop)
                else f.Field? ==> f.next < stop)
  {
    hide Value;
    var n := DigitRun(s, at, width);
    if AllDigits(s[at..stop]) {
      assert forall i :: at <= i < stop ==> s[i] == s[at..stop][i - at];
    }
  }

  lemma NoNumber(s: string, at: nat, width: nat, min: nat, max: nat)
    requires at < |s| && !IsDigit(s[at])
    ensures Number(s, Some(at), width, min, max) == NoField
  {
  }

  // A two-digit field and its separator: reading goes on behind the separator, or at it, or not at all.
  lemma TwoPlaces(s: string, at: nat, c: char, min: nat, max: nat)
    requires at + 2 < |s| && s[at + 2] == c && !IsDigit(c)
    ensures var f := Number(s, Some(at), 2, min, max);
            if AllDigits(s[at..at + 2]) && min <= Value(s[at..at + 2]) <= max
            then f == Field(Value(s[at..at + 2]), at + 2) && Literal(s, f, c) == Some(at + 3)
            else Literal(s, f, c) == None || Literal(s, f, c) == Some(at + 2)
  {
    hide Number, Value, UpperChar;
    NumberBefore(s, at, at + 2, 2, min, max);
  }

  // Once a number is missing, so are all later ones.
  lemma Stuck(s: string)
    ensures forall width, min, max :: Number(s, None, width, min, max) == NoField
    ensures forall c :: Literal(s, NoField, c) == None
    ensures SkipOne(s, None) == None
  {
  }

  // A year that ends before its separator leaves the later fields out of step with theirs.
  lemma ShortYear(s: string, year: Field)
    requires Separated(s) && year.Field? && 1 <= year.next < 4
    ensures var month := Number(s, Literal(s, year, '-'), 2, 1, 12);
            var day := Number(s, SkipOne(s, Literal(s, month, '-')), 2, 1, 31);
            Number(s, Literal(s, day, 'T'), 2, 0, 23) == NoField
  {
    hide Number, Value, UpperChar;
    Stuck(s);
    var at := Literal(s, year, '-');
    if at.Some? {
      if at.value == 4 {
        NoNumber(s, 4, 2, 1, 12);
      } else {
        NumberBefore(s, at.value, 4, 2, 1, 12);
        var month := Number(s, at, 2, 1, 12);
        var next := Literal(s, month, '-');
        if next.Some? {
          ShortMonth(s, next.value);
        }
      }
    }
  }

  lemma ShortMonth(s: string, at: nat)
    requires Separated(s) && (at == 4 || at == 5)
    ensures var day := Number(s, SkipOne(s, Some(at)), 2, 1, 31);
            Number(s, Literal(s, day, 'T'), 2, 0, 23) == NoField
  {
    hide Number, Value;
    Stuck(s);
    if at == 4 {
      NoNumber(s, 4, 2, 1, 31);
    } else {
      NumberBefore(s, if Blank(s[5]) then 6 else 5, 7, 2, 1, 31);
      NoNumber(s, 7, 2, 0, 23);
    }
  }

  lemma LiteralAt(s: string, f: Field, c: char)
    requires f.Field? && f.next < |s| && s[f.next] == c
    ensures Literal(s, f, c) == Some(f.next + 1)
  {
  }

  // The day is a number of two places, the first of them digit or blank.
  lemma DayExactly(s: string)
    requires Separated(s)
    ensures var f := Number(s, SkipOne(s, Some(8)), 2, 1, 31);
            if (IsDigit(s[8]) || Blank(s[8])) && IsDigit(s[9]) && 1 <= Value(DayText(s)) <= 31
            then f == Field(Value(DayText(s)), 10) && Literal(s, f, 'T') == Some(11)
            else Literal(s, f, 'T') == None || Literal(s, f, 'T') == Some(10)
  {
    hide Number, Value;
    if Blank(s[8]) {
      NumberBefore(s, 9, 10, 2, 1, 31);
      assert s[9..10] == [s[9]];
    } else {
      TwoPlaces(s, 8, 'T', 1, 31);
      assert s[8..10] == [s[8], s[9]];
    }
  }

  lemma SecondExactly(s: string)
    requires Separated(s)
    ensures Number(s, Some(17), 2, 0, 60) ==
            if IsDigit(s[17]) && Value(SecondText(s)) <= 60
            then Field(Value(SecondText(s)), 17 + |SecondText(s)|) else NoField
  {
    hide Value;
    var n := DigitRun(s, 17, 2);
    assert IsDigit(s[17]) ==> 17 + n == 17 + |SecondText(s)|;
  }

  // The fields from the month on, when the year has ended at its separator.
  lemma RestExactly(s: string)
    requires Separated(s)
    ensures var c := LenientFields(s);
            var month := Number(s, Some(5), 2, 1, 12);
            var day := Number(s, SkipOne(s, Literal(s, month, '-')), 2, 1, 31);
            var hour := Number(s, Literal(s, day, 'T'), 2, 0, 23);
            var minute := Number(s, Literal(s, hour, ':'), 2, 0, 59);
            var second := Number(s, Literal(s, minute, ':'), 2, 0, 60);
            if && AllDigits(s[5..7]) && (IsDigit(s[8]) || Blank(s[8])) && IsDigit(s[9])
               && AllDigits(s[11..13]) && AllDigits(s[14..16]) && IsDigit(s[17]) && InRange(c)
            then && second.Field? && month.Num() == c.month && day.Num() == c.day && hour.Num() == c.hour
                 && minute.Num() == c.minute && second.Num() == c.second
            else second == NoField
  {
    hide Number, Literal, Value, Blank, IsDigit, AllDigits, DayText, SecondText, YearText;
    Stuck(s);
    StuckAtSeparators(s);
    TwoPlaces(s, 5, '-', 1, 12);
    DayExactly(s);
    TwoPlaces(s, 11, ':', 0, 23);
    TwoPlaces(s, 14, ':', 0, 59);
    SecondExactly(s);
  }

  lemma StuckAtSeparators(s: string)
    requires Separated(s)
    ensures Number(s, SkipOne(s, Some(7)), 2, 1, 31) == NoField && Number(s, Some(10), 2, 0, 23) == NoField
    ensures Number(s, Some(13), 2, 0, 59) == NoField && Number(s, Some(16), 2, 0, 60) == NoField
    ensures SkipOne(s, Some(8)) == if Blank(s[8]) then Some(9) else Some(8)
    ensures !IsDigit('-') && !IsDigit('T') && !IsDigit(':')
  {
    NoNumber(s, 7, 2, 1, 31);
    NoNumber(s, 10, 2, 0, 23);
    NoNumber(s, 13, 2, 0, 59);
    NoNumber(s, 16, 2, 0, 60);
  }

  // Behind the separators every field but the last ends where its separator stands, or reading gets stuck.
  lemma GetTimeExactly(s: string)
    requires Separated(s)
    ensures GetTime(s) == if Lenient(s) && InRange(LenientFields(s)) then Some(LenientFields(s)) else None
  {
    hide Number, Literal, Value, Blank, IsDigit, AllDigits, DayText, SecondText, SkipOne, InRange;
    Stuck(s);
    var k := SkipBlanks(s, 0);
    var year := Number(s, Some(k), 4, 0, 9999);
    SeparatorsAreNeither(s);
    if k == 4 {
      NoNumber(s, 4, 4, 0, 9999);
    } else {
      NumberBefore(s, k, 4, 4, 0, 9999);
      YearBound(s[k..4]);
      if AllDigits(s[k..4]) {
        LiteralAt(s, year, '-');
        RestExactly(s);
      } else if year.Field? {
        ShortYear(s, year);
      }
    }
  }

  lemma SeparatorsAreNeither(s: string)
    requires Separated(s)
    ensures SkipBlanks(s, 0) <= 4 && !IsDigit(s[4])
  {
  }

  lemma ClockHolds(n: int)
    ensures FitsInt64(n) ==> Clock(n) == n
  {
  }

  lemma IsNow(value: string, now: Int64)
    ensures Upper(value) == "NOW" ==> Parse(value, now) == Ok(now)
  {
  }

  // What is left to decide behind the separators.
  lemma Remaining(value: string, now: Int64)
    requires Upper(value) != "NOW" && |value| >= 20 && Separated(value[..19])
    ensures Parse(value, now) ==
            var fields := LenientFields(value[..19]);
            var st := Stamp(fields, FractionOf(value));
            if Lenient(value[..19]) && FractionShape(value[19..]) && StampAccepted(st) then Ok(st.Nanos())
            else Err(InvalidArgument)
  {
    hide Lenient, LenientFields, TimeGm, FractionMicros, FractionShape, InRange;
    LenientValid(value);
  }

  // The comparison after the round trip through the clock and to_time_t holds exactly if no nanosecond count
  // wrapped around and to_time_t dropped nothing before the Epoch.
  lemma CheckedFields(seconds: int, micros: nat)
    requires micros < 1_000_000
    ensures GmTime(ToTimeT(Clock(Instant(seconds, micros)))) == GmTime(seconds) <==>
            FitsInt64(Instant(seconds, micros)) && (seconds >= 0 || micros == 0)
  {
    hide GmTime, TimeGm;
    GmTimeReal(seconds);
    GmTimeReal(ToTimeT(Clock(Instant(seconds, micros))));
    SameSecond(seconds, micros);
  }

  lemma SameSecond(seconds: int, micros: nat)
    requires micros < 1_000_000
    ensures ToTimeT(Clock(Instant(seconds, micros))) == seconds <==>
            FitsInt64(Instant(seconds, micros)) && (seconds >= 0 || micros == 0)
  {
  }

  // ---- Canonical texts ----

  lemma ReadRender(st: Stamp)
    requires st.Valid()
    ensures Read(st.Render()) == Some(st)
  {
    var c, value := st.civil, st.Render();
    var s := CivilText(c);
    Pow10Table();
    ValuePad(c.year, 4);
    ValuePad(c.month, 2);
    ValuePad(c.day, 2);
    ValuePad(c.hour, 2);
    ValuePad(c.minute, 2);
    ValuePad(c.second, 2);
    CivilSlices(c);
    assert value[..19] == s;
    var tail := if st.fraction == "" then "Z" else "." + st.fraction + "Z";
    assert value[19..] == tail;
    if st.fraction != "" {
      assert value[20..|value| - 1] == tail[1..|tail| - 1] == st.fraction;
    }
  }

  lemma CivilSlices(c: Civil)
    requires c.year >= 0 && c.month >= 0 && c.day >= 0 && c.hour >= 0 && c.minute >= 0 && c.second >= 0
    ensures var s := CivilText(c);
            && s[4] == '-' && s[7] == '-' && s[10] == 'T' && s[13] == ':' && s[16] == ':'
            && s[0..4] == Pad(c.year, 4) && s[5..7] == Pad(c.month, 2) && s[8..10] == Pad(c.day, 2)
            && s[11..13] == Pad(c.hour, 2) && s[14..16] == Pad(c.minute, 2) && s[17..19] == Pad(c.second, 2)
  {
  }

  lemma TailPieces(value: string)
    requires |value| >= 20 && FractionShape(value[19..])
    ensures value == value[..19] + if |value| == 20 then "Z" else "." + value[20..|value| - 1] + "Z"
  {
    if |value| > 20 {
      assert value[19..][|value| - 20] == value[|value| - 1];
      assert value[19] == '.' && value[|value| - 1] == 'Z';
    } else {
      assert value[19..] == "Z";
    }
  }

  lemma CivilPieces(s: string)
    requires CivilShape(s)
    ensures s == s[0..4] + "-" + s[5..7] + "-" + s[8..10] + "T" + s[11..13] + ":" + s[14..16] + ":" + s[17..19]
  {
  }

  // ---- Main results: what the parser accepts ----

  // The digits after the point are tenths of a second, hundredths and so on.
  lemma FractionInNumbers(f: string)
    requires |f| <= 6
    ensures FractionMicros(f) * Pow10(|f|) == Value(f) * 1_000_000
  {
    hide Value;
    Pow10Table();
    assert |f| == 0 || |f| == 1 || |f| == 2 || |f| == 3 || |f| == 4 || |f| == 5 || |f| == 6;
  }

  // The clock keeps an instant modulo 2^64 nanoseconds.
  lemma ClockIs(n: int)
    ensures Clock(n) % 0x1_0000_0000_0000_0000 == n % 0x1_0000_0000_0000_0000
    ensures FitsInt64(n) ==> Clock(n) == n
  {
  }

  // Letters a to z become the capital at the same place of the alphabet, everything else stays.
  lemma Capitals(s: string, i: nat)
    requires i < |s|
    ensures |Upper(s)| == |s|
    ensures 'a' <= s[i] <= 'z' ==>
              'A' <= Upper(s)[i] <= 'Z' && Upper(s)[i] as int - 'A' as int == s[i] as int - 'a' as int
    ensures !('a' <= s[i] <= 'z') ==> Upper(s)[i] == s[i]
  {
  }

  // The same text but for the case of its letters.
  predicate SameButCase(a: string, b: string) {
    |a| == |b| && forall i :: 0 <= i < |a| ==> SameLetter(a[i], b[i])
  }

  predicate SameLetter(a: char, b: char) {
    || a == b
    || ('a' <= a <= 'z' && 'A' <= b <= 'Z' && a as int - 'a' as int == b as int - 'A' as int)
    || ('A' <= a <= 'Z' && 'a' <= b <= 'z' && a as int - 'A' as int == b as int - 'a' as int)
  }

  lemma UpperForgetsCase(a: string, b: string)
    ensures Upper(a) == Upper(b) <==> SameButCase(a, b)
  {
    if Upper(a) == Upper(b) {
      forall i | 0 <= i < |a|
        ensures SameLetter(a[i], b[i])
      {
        assert Upper(a)[i] == Upper(b)[i];
      }
    }
    if SameButCase(a, b) {
      assert forall i :: 0 <= i < |a| ==> SameLetter(a[i], b[i]) && Upper(a)[i] == Upper(b)[i];
    }
  }

  // The text "now" in any case, and no other, is answered with the clock.
  lemma NowExactly(value: string)
    ensures (forall t: Int64 :: Parse(value, t) == Ok(t)) <==>
            |value| == 3 && value[0] in {'n', 'N'} && value[1] in {'o', 'O'} && value[2] in {'w', 'W'}
  {
    SpelledNow(value);
    if Upper(value) != "NOW" {
      assert Parse(value, 0) == Parse(value, 1);
    }
  }

  lemma SpelledNow(value: string)
    ensures Upper(value) == "NOW" <==>
            |value| == 3 && value[0] in {'n', 'N'} && value[1] in {'o', 'O'} && value[2] in {'w', 'W'}
  {
    assert Upper("now") == "NOW";
    UpperForgetsCase(value, "now");
  }

  // The six characters isspace takes in the classic locale.
  lemma BlanksAre(c: char)
    ensures Blank(c) <==> c in {' ', '\t', '\n', '\r', 11 as char, 12 as char}
  {
  }

  // Every way to spell a stamp that the parser reads: up to three blanks for leading digits of the year, a blank
  // for the tens of the day, and anything but a digit behind a one-digit second.
  datatype Spelling = Spelling(blanks: string, year: string, month: string, day: string, hour: string,
                               minute: string, second: string, fraction: string) {
    predicate Valid() {
      && |blanks| <= 3 && |blanks| + |year| == 4
      && (forall i :: 0 <= i < |blanks| ==> Blank(blanks[i])) && AllDigits(year)
      && |month| == 2 && AllDigits(month)
      && |day| == 2 && (Blank(day[0]) || IsDigit(day[0])) && IsDigit(day[1])
      && |hour| == 2 && AllDigits(hour) && |minute| == 2 && AllDigits(minute)
      && |second| == 2 && IsDigit(second[0])
      && |fraction| <= 6 && AllDigits(fraction)
    }

    function CivilPart(): string {
      blanks + year + "-" + month + "-" + day + "T" + hour + ":" + minute + ":" + second
    }

    function Render(): string {
      CivilPart() + (if fraction == "" then "Z" else "." + fraction + "Z")
    }

    // The fields the spelling denotes.
    function Denoted(): Stamp
      requires Valid()
    {
      Stamp(
        Civil(Value(year), Value(month), Value(if Blank(day[0]) then day[1..] else day), Value(hour), Value(minute),
              Value(if IsDigit(second[1]) then second else second[..1])),
        fraction)
    }
  }

  function SpellingOf(value: string): Spelling
    requires |value| >= 20
  {
    var k := SkipBlanks(value[..19], 0);
    var k := if k <= 3 then k else 0;
    Spelling(value[..k], value[k..4], value[5..7], value[8..10], value[11..13], value[14..16], value[17..19],
             FractionOf(value))
  }

  lemma {:induction false} SkipExactly(s: string, pos: nat, next: nat)
    requires pos <= next <= |s| && (forall i :: pos <= i < next ==> Blank(s[i])) && (next < |s| ==> !Blank(s[next]))
    ensures SkipBlanks(s, pos) == next
    decreases next - pos
  {
    if pos < next {
      SkipExactly(s, pos + 1, next);
    }
  }

  lemma SpellingSlices(w: Spelling)
    requires w.Valid()
    ensures |w.CivilPart()| == 19
    ensures var s := w.CivilPart();
            && Separated(s) && s[..|w.blanks|] == w.blanks && s[|w.blanks|..4] == w.year && s[5..7] == w.month
            && s[8..10] == w.day && s[11..13] == w.hour && s[14..16] == w.minute && s[17..19] == w.second
  {
    var head := w.blanks + w.year;
    var toMonth := head + "-" + w.month;
    var toDay := toMonth + "-" + w.day;
    var toHour := toDay + "T" + w.hour;
    var toMinute := toHour + ":" + w.minute;
    var s := w.CivilPart();
    assert s == toMinute + ":" + w.second;
    LastPart(toMinute, ":", w.second);
    LastPart(toHour, ":", w.minute);
    LastPart(toDay, "T", w.hour);
    LastPart(toMonth, "-", w.day);
    LastPart(head, "-", w.month);
    PrefixSuffix(w.blanks, w.year);
    Inside(s, toMinute, 14);
    Inside(s, toHour, 11);
    Inside(s, toDay, 8);
    Inside(s, toMonth, 5);
    Inside(s, head, |w.blanks|);
    assert s[..|w.blanks|] == head[..|w.blanks|];
  }

  lemma LastPart(a: string, separator: string, b: string)
    requires |separator| == 1
    ensures var s := a + separator + b;
            s[..|a|] == a && s[|a|] == separator[0] && s[|a| + 1..] == b && s[|a| + 1..|s|] == b
  {
  }

  // The end of a prefix, seen from the whole.
  lemma Inside(s: string, prefix: string, from: nat)
    requires prefix <= s && from <= |prefix|
    ensures s[from..|prefix|] == prefix[from..]
  {
  }

  lemma ReadSpelling(w: Spelling)
    requires w.Valid()
    ensures ReadLenient(w.Render()) == Some(w.Denoted())
  {
    hide Lenient, LenientFields, FractionShape, FractionOf;
    LenientSpelling(w);
    SpellingTail(w);
  }

  lemma LenientSpelling(w: Spelling)
    requires w.Valid()
    ensures |w.CivilPart()| == 19 && Lenient(w.CivilPart()) && LenientFields(w.CivilPart()) == w.Denoted().civil
  {
    hide SkipBlanks, Value;
    var s, k := w.CivilPart(), |w.blanks|;
    SpellingSlices(w);
    assert forall i :: 0 <= i < k ==> s[i] == s[..k][i];
    assert s[k] == s[k..4][0] == w.year[0];
    SkipExactly(s, 0, k);
    assert s[8] == s[8..10][0] && s[9] == s[8..10][1] && s[17] == s[17..19][0] && s[18] == s[17..19][1];
    assert s[9..10] == s[8..10][1..] && s[17..18] == s[17..19][..1];
  }

  lemma SpellingTail(w: Spelling)
    requires w.Valid()
    ensures var value := w.Render();
            && |value| >= 20 && value[..19] == w.CivilPart() && FractionShape(value[19..])
            && FractionOf(value) == w.fraction
  {
    SpellingSlices(w);
    var value := w.Render();
    var tail := if w.fraction == "" then "Z" else "." + w.fraction + "Z";
    assert value[..19] == w.CivilPart() && value[19..] == tail;
    if w.fraction != "" {
      assert value[20..|value| - 1] == tail[1..|tail| - 1] == w.fraction;
    }
  }

  lemma SpellingRead(value: string)
    requires ReadLenient(value).Some?
    ensures SpellingOf(value).Valid() && SpellingOf(value).Render() == value
    ensures SpellingOf(value).Denoted() == ReadLenient(value).value
  {
    hide SkipBlanks, Lenient, LenientFields, AllDigits, IsDigit, Blank;
    SpellingValid(value);
    SpellingPieces(value);
    TailPieces(value);
  }

  lemma SpellingValid(value: string)
    requires ReadLenient(value).Some?
    ensures SpellingOf(value).Valid() && SpellingOf(value).Denoted() == ReadLenient(value).value
  {
    hide Value, SkipBlanks;
    var s, w := value[..19], SpellingOf(value);
    LenientValid(value);
    assert s[|w.blanks|..4] == w.year && s[5..7] == w.month && s[8..10] == w.day && s[11..13] == w.hour;
    assert s[14..16] == w.minute && s[17..19] == w.second;
    assert s[9..10] == w.day[1..] && s[17..18] == w.second[..1];
  }

  lemma SpellingPieces(value: string)
    requires |value| >= 20 && Lenient(value[..19])
    ensures SpellingOf(value).CivilPart() == value[..19]
  {
    hide AllDigits, IsDigit, Blank;
    var s, k := value[..19], SkipBlanks(value[..19], 0);
    Pieces(s, k);
    assert value[..k] == s[..k] && value[k..4] == s[k..4];
    assert value[5..7] == s[5..7] && value[8..10] == s[8..10] && value[11..13] == s[11..13];
    assert value[14..16] == s[14..16] && value[17..19] == s[17..19];
  }

  lemma Pieces(s: string, k: nat)
    requires Separated(s) && k <= 4
    ensures s == s[..k] + s[k..4] + "-" + s[5..7] + "-" + s[8..10] + "T" + s[11..13] + ":" + s[14..16] + ":" + s[17..19]
  {
  }

  // Apart from "now", a text is accepted exactly if it spells a stamp whose fields are in range, whose instant
  // the clock holds, and which is from the Epoch on, or earlier without a fraction and not the second before
  // the Epoch. What it gives is the instant the fields carry over to.
  lemma ParseAcceptsExactly(value: string, now: Int64, timestamp: Int64)
    requires Upper(value) != "NOW"
    ensures Parse(value, now) == Ok(timestamp) <==>
            exists w: Spelling :: w.Valid() && w.Render() == value && InRange(w.Denoted().civil)
              && StampAccepted(w.Denoted()) && w.Denoted().Nanos() == timestamp
  {
    if Parse(value, now) == Ok(timestamp) {
      SpellingRead(value);
      LenientValid(value);
      var w := SpellingOf(value);
      assert w.Valid() && w.Render() == value && StampAccepted(w.Denoted()) && w.Denoted().Nanos() == timestamp;
    }
    if w: Spelling :| w.Valid() && w.Render() == value && InRange(w.Denoted().civil)
                      && StampAccepted(w.Denoted()) && w.Denoted().Nanos() == timestamp {
      ReadSpelling(w);
    }
  }

  predicate StampAccepted(st: Stamp) {
    st.Valid() && InRange(st.civil) && Accepted(st)
  }

  lemma ParseRendered(st: Stamp, now: Int64)
    requires st.Valid() && InRange(st.civil)
    ensures Parse(st.Render(), now) == if Accepted(st) then Ok(st.Nanos()) else Err(InvalidArgument)
  {
    ReadRender(st);
    assert |st.Render()| >= 20;
    StrictIsLenient(st.Render()[..19]);
    LenientValid(st.Render());
  }

  // From the Epoch on, any fields in range are accepted if the clock holds their instant, real date or not: they
  // carry over, so 30 February is 1 or 2 March and second 60 the next minute.
  lemma FromTheEpochAnyFields(st: Stamp, now: Int64)
    requires st.Valid() && InRange(st.civil) && TimeGm(st.civil) >= 0
    ensures var carried := Stamp(GmTime(TimeGm(st.civil)), st.fraction);
            && Real(carried.civil) && TimeGm(carried.civil) == TimeGm(st.civil)
            && Parse(st.Render(), now) == (if FitsInt64(st.Nanos()) then Ok(st.Nanos()) else Err(InvalidArgument))
            && (FitsInt64(st.Nanos()) ==>
                  carried.Valid() && carried.Nanos() == st.Nanos() && Parse(carried.Render(), now) == Ok(st.Nanos()))
  {
    hide GmTime, TimeGm, FractionMicros, Parse;
    ParseRendered(st, now);
    GmTimeReal(TimeGm(st.civil));
    if FitsInt64(st.Nanos()) {
      FractionBound(st.fraction);
      InstantParts(TimeGm(st.civil), FractionMicros(st.fraction));
      ClockYears(st.Nanos());
      ParseRendered(Stamp(GmTime(TimeGm(st.civil)), st.fraction), now);
    }
  }

  // Two texts of impossible times that are accepted, as the texts of later real ones.
  lemma ImpossibleTimesAccepted(now: Int64)
    ensures !Real(Civil(2023, 2, 30, 0, 0, 0)) && Parse("2023-02-30T00:00:00Z", now).Ok?
    ensures Parse("2023-02-30T00:00:00Z", now) == Parse("2023-03-02T00:00:00Z", now)
    ensures !Real(Civil(2023, 6, 30, 23, 59, 60)) && Parse("2023-06-30T23:59:60Z", now).Ok?
    ensures Parse("2023-06-30T23:59:60Z", now) == Parse("2023-07-01T00:00:00Z", now)
  {
    hide Parse;
    var feb30, mar2 := Civil(2023, 2, 30, 0, 0, 0), Civil(2023, 3, 2, 0, 0, 0);
    var leap, next := Civil(2023, 6, 30, 23, 59, 60), Civil(2023, 7, 1, 0, 0, 0);
    SameInstants();
    February30Text();
    March2Text();
    Second60Text();
    July1Text();
    ParseWhole(feb30, now);
    ParseWhole(mar2, now);
    ParseWhole(leap, now);
    ParseWhole(next, now);
  }

  lemma TwoDigitPad(n: nat)
    ensures Pad(n, 2) == [Digit(n / 10 % 10), Digit(n % 10)]
  {
    assert Pad(n / 10, 1) == Pad(n / 10 / 10, 0) + [Digit(n / 10 % 10)];
  }

  lemma Year2023()
    ensures Pad(2023, 4) == "2023"
  {
    TwoDigitPad(20);
    assert Pad(2023, 4) == Pad(202, 3) + ['3'];
    assert Pad(202, 3) == Pad(20, 2) + ['2'];
  }

  lemma February30Text()
    ensures CivilText(Civil(2023, 2, 30, 0, 0, 0)) + "Z" == "2023-02-30T00:00:00Z"
  {
    hide Pad;
    Year2023();
    TwoDigitPad(2);
    TwoDigitPad(30);
    TwoDigitPad(0);
  }

  lemma March2Text()
    ensures CivilText(Civil(2023, 3, 2, 0, 0, 0)) + "Z" == "2023-03-02T00:00:00Z"
  {
    hide Pad;
    Year2023();
    TwoDigitPad(3);
    TwoDigitPad(2);
    TwoDigitPad(0);
  }

  lemma Second60Text()
    ensures CivilText(Civil(2023, 6, 30, 23, 59, 60)) + "Z" == "2023-06-30T23:59:60Z"
  {
    hide Pad;
    Year2023();
    TwoDigitPad(6);
    TwoDigitPad(30);
    TwoDigitPad(23);
    TwoDigitPad(59);
    TwoDigitPad(60);
  }

  lemma July1Text()
    ensures CivilText(Civil(2023, 7, 1, 0, 0, 0)) + "Z" == "2023-07-01T00:00:00Z"
  {
    hide Pad;
    Year2023();
    TwoDigitPad(7);
    TwoDigitPad(1);
    TwoDigitPad(0);
  }

  lemma SameInstants()
    ensures TimeGm(Civil(2023, 2, 30, 0, 0, 0)) == TimeGm(Civil(2023, 3, 2, 0, 0, 0)) == 1_677_715_200
    ensures TimeGm(Civil(2023, 6, 30, 23, 59, 60)) == TimeGm(Civil(2023, 7, 1, 0, 0, 0)) == 1_688_169_600
  {
    assert DaysBeforeMonth(2023, 2) == 31 && DaysBeforeMonth(2023, 3) == 59;
    assert DaysBeforeMonth(2023, 5) == 120 && DaysBeforeMonth(2023, 6) == 151 && DaysBeforeMonth(2023, 7) == 181;
  }

  // A text without a fraction, of an instant from the Epoch on.
  lemma ParseWhole(c: Civil, now: Int64)
    requires InRange(c) && 0 <= c.year <= 9999 && 0 <= TimeGm(c) <= 9_000_000_000
    ensures Parse(CivilText(c) + "Z", now) == Ok(TimeGm(c) * 1_000_000_000)
  {
    hide TimeGm, CivilText;
    var st := Stamp(c, "");
    assert FractionMicros("") == 0;
    ParseRendered(st, now);
  }

  // A text whose seconds are one digit and a stray character, accepted as that second.
  lemma LooseSpellingAccepted(now: Int64)
    ensures Parse("2026-01-05T10:20:5xZ", now) == Parse("2026-01-05T10:20:05Z", now)
    ensures Parse("2026-01-05T10:20:5xZ", now) == Ok(1_767_608_405_000_000_000)
  {
    hide ReadLenient, TimeGm, FractionMicros, Upper;
    var loose := Spelling("", "2026", "01", "05", "10", "20", "5x", "");
    var strict := loose.(second := "05");
    January5Texts(loose, strict);
    January5Denoted(loose, strict);
    ReadSpelling(loose);
    ReadSpelling(strict);
    January5();
    NotNow("2026-01-05T10:20:5xZ");
    NotNow("2026-01-05T10:20:05Z");
  }

  lemma NotNow(value: string)
    requires |value| >= 20
    ensures Upper(value) != "NOW"
  {
  }

  lemma January5Denoted(loose: Spelling, strict: Spelling)
    requires loose == Spelling("", "2026", "01", "05", "10", "20", "5x", "") && strict == loose.(second := "05")
    ensures loose.Valid() && strict.Valid()
    ensures loose.Denoted() == strict.Denoted() == Stamp(Civil(2026, 1, 5, 10, 20, 5), "")
  {
    hide Value;
    January5Fields();
  }

  lemma January5Fields()
    ensures Value("2026") == 2026 && Value("01") == 1 && Value("05") == 5 && Value("10") == 10 && Value("20") == 20
    ensures Value("5") == 5 && "5x"[..1] == "5"
  {
    Digits2('0', '1');
    Digits2('0', '5');
    Digits2('1', '0');
    Digits2('2', '0');
    Digits2('2', '6');
    ValueConcat("20", "26");
    Pow10Table();
    assert "20" + "26" == "2026";
    ValueAppend("", '5');
    assert "" + ['5'] == "5" && Value("") == 0;
  }

  lemma Digits2(a: char, b: char)
    ensures Value([a, b]) == 10 * DigitValue(a) + DigitValue(b)
  {
    ValueAppend("", a);
    ValueAppend([a], b);
    assert "" + [a] == [a] && [a] + [b] == [a, b] && Value("") == 0;
  }

  lemma January5Texts(loose: Spelling, strict: Spelling)
    requires loose == Spelling("", "2026", "01", "05", "10", "20", "5x", "") && strict == loose.(second := "05")
    ensures loose.Render() == "2026-01-05T10:20:5xZ" && strict.Render() == "2026-01-05T10:20:05Z"
  {
    var head := "2026-01-05T10:20:";
    assert "" + "2026" + "-" + "01" + "-" + "05" + "T" + "10" + ":" + "20" + ":" == head;
    assert head + "5x" + "Z" == "2026-01-05T10:20:5xZ" && head + "05" + "Z" == "2026-01-05T10:20:05Z";
  }

  lemma January5()
    ensures TimeGm(Civil(2026, 1, 5, 10, 20, 5)) == 1_767_608_405 && FractionMicros("") == 0
  {
  }

  // An accepted text denotes the fields it spells exactly when they are a real date and time.
  lemma DenotesItsFields(value: string, now: Int64)
    requires Upper(value) != "NOW" && Parse(value, now).Ok?
    ensures var st := ReadLenient(value).value;
            && StampOf(Parse(value, now).value).civil == GmTime(TimeGm(st.civil))
            && (StampOf(Parse(value, now).value).civil == st.civil <==> Real(st.civil))
  {
    LenientValid(value);
    var st := ReadLenient(value).value;
    FractionBound(st.fraction);
    InstantParts(TimeGm(st.civil), FractionMicros(st.fraction));
    UnchangedExactlyWhenReal(st.civil);
  }

  // Two real instants before the Epoch that RFC 3339 allows and the parser refuses.
  lemma PreEpochRefusals(now: Int64)
    ensures var lastSecond := Stamp(Civil(1969, 12, 31, 23, 59, 59), "");
            Real(lastSecond.civil) && Parse(lastSecond.Render(), now) == Err(InvalidArgument)
    ensures var half := Stamp(Civil(1969, 12, 31, 23, 59, 58), "5");
            Real(half.civil) && half.Valid() && Parse(half.Render(), now) == Err(InvalidArgument)
  {
    BeforeTheEpoch(59);
    BeforeTheEpoch(58);
    ParseRendered(Stamp(Civil(1969, 12, 31, 23, 59, 59), ""), now);
    HalfSecond();
    ParseRendered(Stamp(Civil(1969, 12, 31, 23, 59, 58), "5"), now);
  }

  lemma HalfSecond()
    ensures FractionMicros("5") == 500_000
  {
    assert Value("5") == 5;
    Pow10Table();
  }

  lemma BeforeTheEpoch(second: int)
    ensures TimeGm(Civil(1969, 12, 31, 23, 59, second)) == second - 60
  {
    assert DaysBeforeMonth(1969, 4) == 90;
    assert DaysBeforeMonth(1969, 8) == 212;
    assert DaysBeforeMonth(1969, 12) == 334;
  }

  lemma InstantParts(seconds: int, micros: int)
    requires 0 <= micros < 1_000_000
    ensures Instant(seconds, micros) / 1000 / 1_000_000 == seconds
    ensures Instant(seconds, micros) / 1000 % 1_000_000 == micros
  {
    var all := seconds * 1_000_000 + micros;
    assert Instant(seconds, micros) / 1000 == all;
    assert all / 1_000_000 == seconds && all % 1_000_000 == micros;
  }

  lemma FloorIsInstant(timestamp: int)
    ensures FloorMicros(timestamp) == Instant(timestamp / 1000 / 1_000_000, timestamp / 1000 % 1_000_000)
  {
  }

  lemma StampOfFacts(timestamp: int)
    ensures var st := StampOf(timestamp);
            && Real(st.civil) && |st.fraction| == 6
            && TimeGm(st.civil) == timestamp / 1000 / 1_000_000
            && FractionMicros(st.fraction) == timestamp / 1000 % 1_000_000
  {
    var micros := timestamp / 1000;
    GmTimeReal(micros / 1_000_000);
    Pow10Table();
    ValuePad(micros % 1_000_000, 6);
  }

  // From the Epoch to the year 9999 the printed text is the rendering of the instant's stamp.
  lemma FormatRenders(timestamp: int)
    requires 1000 <= StampOf(timestamp).civil.year <= 9999
    ensures StampOf(timestamp).Valid() && Format(timestamp) == StampOf(timestamp).Render()
  {
    hide GmTime, TimeGm, FractionMicros, Pad, Text, AllDigits;
    StampOfFacts(timestamp);
    var st := StampOf(timestamp);
    var c := st.civil;
    FourDigitYear(c.year);
    assert PutTime(c) == CivilText(c);
    assert CivilText(c) + ("." + st.fraction + "Z") == CivilText(c) + "." + st.fraction + "Z";
  }

  lemma FourDigitYear(year: nat)
    requires 1000 <= year <= 9999
    ensures Text(year) == Pad(year, 4)
  {
    Pow10Table();
    FilledText(year, 4);
    ValueText(year);
    ValueBound(Text(year));
    assert |Text(year)| == 4;
    assert Zeros(0) + Text(year) == Text(year);
  }

  // The clock reaches from 1677 to 2262, so every text it prints has a four-digit year.
  lemma ClockYears(timestamp: int)
    requires FitsInt64(timestamp)
    ensures 1677 <= StampOf(timestamp).civil.year <= 2262
  {
    hide YearOf, DaysBeforeMonth;
    var day := timestamp / 1000 / 1_000_000 / 86400;
    assert -106752 <= day <= 106751;
    assert DaysBeforeYear(1677) <= -106752 && 106751 < DaysBeforeYear(2263);
    YearWithin(day, 1677, 2263);
  }

  // ---- Main results: round trips ----

  // Parsing a printed instant gives it back, floored to microseconds, exactly from the Epoch on or on a whole
  // second other than the last before it.
  lemma FormatThenParse(timestamp: Int64, now: Int64)
    ensures Parse(Format(timestamp), now) ==
            if timestamp >= 0 || (timestamp / 1000 % 1_000_000 == 0 && timestamp / 1_000_000_000 != -1)
            then Ok(FloorMicros(timestamp)) else Err(InvalidArgument)
  {
    hide GmTime, TimeGm;
    ClockYears(timestamp);
    FormatRenders(timestamp);
    StampOfFacts(timestamp);
    FloorIsInstant(timestamp);
    Floored(timestamp);
    ParseRendered(StampOf(timestamp), now);
  }

  lemma Floored(timestamp: int)
    requires FitsInt64(timestamp)
    ensures timestamp / 1000 / 1_000_000 == timestamp / 1_000_000_000
    ensures timestamp >= 0 || timestamp / 1000 % 1_000_000 == 0 ==> FitsInt64(FloorMicros(timestamp))
  {
    var micros, rest := timestamp / 1000, timestamp % 1000;
    var seconds, left := micros / 1_000_000, micros % 1_000_000;
    assert micros == 1_000_000 * seconds + left;
    assert timestamp == 1000 * micros + rest;
    SecondsOf(timestamp, seconds, 1000 * left + rest);
    if timestamp < 0 && left == 0 {
      WholeSecondFits(timestamp, seconds, rest);
    }
  }

  lemma WholeSecondFits(timestamp: int, seconds: int, rest: int)
    requires -0x8000_0000_0000_0000 <= timestamp < 0 && timestamp == 1_000_000_000 * seconds + rest && 0 <= rest < 1000
    ensures -0x8000_0000_0000_0000 <= 1_000_000_000 * seconds
  {
    assert seconds >= -9_223_372_036;
  }

  lemma SecondsOf(timestamp: int, seconds: int, nanos: int)
    requires timestamp == 1_000_000_000 * seconds + nanos && 0 <= nanos < 1_000_000_000
    ensures timestamp / 1_000_000_000 == seconds
  {
  }

  // Printing a parsed text gives the fields it carries over to, and the text itself with its fraction padded to
  // six digits exactly when it is in the canonical layout and a real date and time.
  lemma ParseThenFormat(value: string, now: Int64)
    requires Upper(value) != "NOW" && Parse(value, now).Ok?
    ensures var st, text := ReadLenient(value).value, Format(Parse(value, now).value);
            && GmTime(TimeGm(st.civil)).year >= 1000 && Real(GmTime(TimeGm(st.civil)))
            && text == CivilText(GmTime(TimeGm(st.civil))) + "." + st.fraction + Zeros(6 - |st.fraction|) + "Z"
            && (text == value[..19] + "." + st.fraction + Zeros(6 - |st.fraction|) + "Z" <==>
                  CivilShape(value[..19]) && Real(st.civil))
  {
    hide GmTime, TimeGm, Lenient, LenientFields, CivilText, CivilShape, CivilOf, Accepted;
    hide Zeros, FractionMicros, Format;
    LenientValid(value);
    var st := ReadLenient(value).value;
    var carried := Stamp(GmTime(TimeGm(st.civil)), st.fraction);
    GmTimeReal(TimeGm(st.civil));
    InClock(st);
    FormatOfStamp(carried);
    SameSuffix(CivilText(carried.civil), value[..19], st.fraction, Zeros(6 - |st.fraction|));
    UnchangedExactlyWhenReal(st.civil);
    SameFields(value[..19], carried.civil);
    if CivilShape(value[..19]) {
      StrictIsLenient(value[..19]);
    }
  }

  lemma SameSuffix(a: string, b: string, fraction: string, zeros: string)
    requires |a| == |b|
    ensures a + "." + fraction + zeros + "Z" == b + "." + fraction + zeros + "Z" <==> a == b
  {
    var tail := "." + (fraction + zeros) + "Z";
    Append3(a, ".", fraction, zeros, "Z");
    Append3(b, ".", fraction, zeros, "Z");
    SameBeforeSuffix(a, b, tail);
  }

  // The carried-over fields of an accepted stamp print with four-digit years.
  lemma InClock(st: Stamp)
    requires st.Valid() && InRange(st.civil) && FitsInt64(st.Nanos())
    ensures 1677 <= GmTime(TimeGm(st.civil)).year <= 2262
  {
    FractionBound(st.fraction);
    InstantParts(TimeGm(st.civil), FractionMicros(st.fraction));
    ClockYears(st.Nanos());
  }

  // The canonical text of a real date is read as that date only.
  lemma SameFields(s: string, c: Civil)
    requires |s| == 19 && Real(c) && 0 <= c.year <= 9999
    ensures CivilText(c) == s <==> CivilShape(s) && CivilOf(s) == c
  {
    if CivilText(c) == s {
      Pow10Table();
      ValuePad(c.year, 4);
      ValuePad(c.month, 2);
      ValuePad(c.day, 2);
      ValuePad(c.hour, 2);
      ValuePad(c.minute, 2);
      ValuePad(c.second, 2);
      CivilSlices(c);
    }
    if CivilShape(s) {
      CivilTextOf(s);
    }
  }

  lemma CivilTextOf(s: string)
    requires CivilShape(s)
    ensures CivilText(CivilOf(s)) == s
  {
    PadValue(s[0..4]);
    PadValue(s[5..7]);
    PadValue(s[8..10]);
    PadValue(s[11..13]);
    PadValue(s[14..16]);
    PadValue(s[17..19]);
    CivilPieces(s);
  }

  lemma FormatOfStamp(st: Stamp)
    requires st.Valid() && Real(st.civil) && st.civil.year >= 1000
    ensures Format(st.Nanos())
            == CivilText(st.civil) + "." + st.fraction + Zeros(6 - |st.fraction|) + "Z"
  {
    var f := st.fraction;
    FractionBound(f);
    StampOfParts(st.civil, FractionMicros(f));
    PadScaled(f, 6);
    FormatRenders(st.Nanos());
    Append3(CivilText(st.civil), ".", f, Zeros(6 - |f|), "Z");
  }

  lemma Append3(a: string, b: string, c: string, d: string, e: string)
    ensures a + (b + (c + d) + e) == a + b + c + d + e
  {
  }

  lemma StampOfParts(c: Civil, micros: nat)
    requires Real(c) && micros < 1_000_000
    ensures StampOf(Instant(TimeGm(c), micros)) == Stamp(c, Pad(micros, 6))
  {
    InstantParts(TimeGm(c), micros);
    TimeGmInverse(c);
  }

  lemma FractionBound(f: string)
    requires |f| <= 6 && AllDigits(f)
    ensures FractionMicros(f) < 1_000_000
  {
    Pow10Table();
    ValueBound(f + Zeros(6 - |f|));
    ValueConcat(f, Zeros(6 - |f|));
    ValueZeros(6 - |f|);
  }

  // ---- Lexicographic order of printed texts is time order ----

  lemma LexField(m: nat, n: nat, width: nat, sep: string, x: string, y: string)
    requires m < Pow10(width) && n < Pow10(width)
    ensures LexLess(Pad(m, width) + sep + x, Pad(n, width) + sep + y) <==> m < n || (m == n && LexLess(x, y))
  {
    LexPad(m, n, width);
    LexConcat(Pad(m, width) + sep, Pad(n, width) + sep, x, y);
    LexConcat(Pad(m, width), Pad(n, width), sep, sep);
    LexIrreflexive(sep);
    SameBeforeSuffix(Pad(m, width), Pad(n, width), sep);
  }

  lemma SameBeforeSuffix(a: string, b: string, suffix: string)
    requires |a| == |b|
    ensures a + suffix == b + suffix <==> a == b
  {
    assert (a + suffix)[..|a|] == a && (b + suffix)[..|a|] == b;
  }

  // The printed text, nested field by field.
  function Nested(c: Civil, micros: nat): string
    requires Real(c) && c.year >= 0
  {
    Pad(c.year, 4) + "-" + (Pad(c.month, 2) + "-" + (Pad(c.day, 2) + "T" + TimeNested(c, micros)))
  }

  function TimeNested(c: Civil, micros: nat): string
    requires Real(c)
  {
    Pad(c.hour, 2) + ":" + (Pad(c.minute, 2) + ":" + (Pad(c.second, 2) + "." + (Pad(micros, 6) + "Z" + "")))
  }

  lemma LexNested(a: Civil, b: Civil, m: nat, n: nat)
    requires Real(a) && Real(b) && 0 <= a.year <= 9999 && 0 <= b.year <= 9999 && m < 1_000_000 && n < 1_000_000
    ensures LexLess(Nested(a, m), Nested(b, n)) <==> CivilLess(a, b) || (a == b && m < n)
  {
    Pow10Table();
    LexField(m, n, 6, "Z", "", "");
    var sa, sb := Pad(m, 6) + "Z" + "", Pad(n, 6) + "Z" + "";
    LexField(a.second, b.second, 2, ".", sa, sb);
    LexField(a.minute, b.minute, 2, ":", Pad(a.second, 2) + "." + sa, Pad(b.second, 2) + "." + sb);
    LexField(a.hour, b.hour, 2, ":", Pad(a.minute, 2) + ":" + (Pad(a.second, 2) + "." + sa),
             Pad(b.minute, 2) + ":" + (Pad(b.second, 2) + "." + sb));
    var ta, tb := TimeNested(a, m), TimeNested(b, n);
    LexField(a.day, b.day, 2, "T", ta, tb);
    LexField(a.month, b.month, 2, "-", Pad(a.day, 2) + "T" + ta, Pad(b.day, 2) + "T" + tb);
    LexField(a.year, b.year, 4, "-", Pad(a.month, 2) + "-" + (Pad(a.day, 2) + "T" + ta),
             Pad(b.month, 2) + "-" + (Pad(b.day, 2) + "T" + tb));
  }

  lemma FormatNested(timestamp: int)
    requires FitsInt64(timestamp)
    ensures StampOf(timestamp).civil.year >= 0 && Real(StampOf(timestamp).civil)
    ensures Format(timestamp) == Nested(StampOf(timestamp).civil, timestamp / 1000 % 1_000_000)
  {
    ClockYears(timestamp);
    StampOfFacts(timestamp);
    var st := StampOf(timestamp);
    FourDigitYear(st.civil.year);
    NestedIsFlat(st.civil, timestamp / 1000 % 1_000_000);
  }

  lemma NestedIsFlat(c: Civil, micros: nat)
    requires Real(c) && c.year >= 0
    ensures Nested(c, micros) ==
            Pad(c.year, 4) + "-" + Pad(c.month, 2) + "-" + Pad(c.day, 2) + "T" + Pad(c.hour, 2) + ":" +
            Pad(c.minute, 2) + ":" + Pad(c.second, 2) + "." + Pad(micros, 6) + "Z"
  {
    var y, mo, d := Pad(c.year, 4) + "-", Pad(c.month, 2) + "-", Pad(c.day, 2) + "T";
    var h, mi, sec := Pad(c.hour, 2) + ":", Pad(c.minute, 2) + ":", Pad(c.second, 2) + ".";
    var tail := Pad(micros, 6) + "Z";
    assert tail + "" == tail;
    Flatten(y, mo, d, h, mi, sec, tail);
    FlattenPairs(y, Pad(c.month, 2), "-", Pad(c.day, 2), "T");
    FlattenPairs(y + mo + d, Pad(c.hour, 2), ":", Pad(c.minute, 2), ":");
    FlattenPairs(y + mo + d + h + mi, Pad(c.second, 2), ".", Pad(micros, 6), "Z");
  }

  lemma Flatten(a: string, b: string, c: string, d: string, e: string, f: string, g: string)
    ensures a + (b + (c + (d + (e + (f + g))))) == a + b + c + d + e + f + g
  {
    assert e + (f + g) == e + f + g;
    assert d + (e + f + g) == d + e + f + g;
    assert c + (d + e + f + g) == c + d + e + f + g;
    assert b + (c + d + e + f + g) == b + c + d + e + f + g;
  }

  lemma FlattenPairs(a: string, b: string, c: string, d: string, e: string)
    ensures a + (b + c) + (d + e) == a + b + c + d + e
  {
  }

  lemma InstantOrder(s: int, m: int, t: int, n: int)
    requires 0 <= m < 1_000_000 && 0 <= n < 1_000_000
    ensures Instant(s, m) < Instant(t, n) <==> s < t || (s == t && m < n)
  {
  }

  // On all instants the clock holds, comparing the texts compares the instants.
  lemma FormatOrder(s: Int64, t: Int64)
    ensures LexLess(Format(s), Format(t)) <==> FloorMicros(s) < FloorMicros(t)
  {
    hide GmTime, TimeGm, Format;
    var a, b := StampOf(s).civil, StampOf(t).civil;
    var m, n := s / 1000 % 1_000_000, t / 1000 % 1_000_000;
    ClockYears(s);
    ClockYears(t);
    FormatNested(s);
    FormatNested(t);
    StampOfFacts(s);
    StampOfFacts(t);
    FloorIsInstant(s);
    FloorIsInstant(t);
    OrderStep(a, b, m, n);
  }

  lemma OrderStep(a: Civil, b: Civil, m: nat, n: nat)
    requires Real(a) && Real(b) && 0 <= a.year <= 9999 && 0 <= b.year <= 9999 && m < 1_000_000 && n < 1_000_000
    ensures LexLess(Nested(a, m), Nested(b, n)) <==> Instant(TimeGm(a), m) < Instant(TimeGm(b), n)
  {
    LexNested(a, b, m, n);
    CivilOrderExactly(a, b);
    InstantOrder(TimeGm(a), m, TimeGm(b), n);
  }

  // Two instants print alike exactly when they agree to the microsecond.
  lemma FormatInjective(s: Int64, t: Int64)
    ensures Format(s) == Format(t) <==> FloorMicros(s) == FloorMicros(t)
  {
    FormatOrder(s, t);
    FormatOrder(t, s);
    LexIrreflexive(Format(s));
    if FloorMicros(s) == FloorMicros(t) {
      assert s / 1000 == t / 1000;
    }
  }
}

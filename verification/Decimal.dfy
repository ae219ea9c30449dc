/** The eight-digit fixed-point decimal of the domain layer: a raw int64 counting units of 10^-8. */
module Decimal {
  import opened Common
  import opened Digits

  // ---- Reference grammar ----

  // A fraction's digits in units of 10^-8.
  function FractionUnits(fraction: string): nat
    requires |fraction| <= 8
  {
    Value(fraction) * Pow10(8 - |fraction|)
  }

  // Optional sign, one or more digits, and an optional point with one to eight digits. An empty fraction
  // stands for a text without a point.
  datatype Literal = Literal(sign: string, whole: string, fraction: string) {
    predicate Valid() {
      && sign in {"", "+", "-"}
      && whole != "" && AllDigits(whole)
      && |fraction| <= 8 && AllDigits(fraction)
    }

    function Tail(): string {
      if fraction == "" then "" else "." + fraction
    }

    function Render(): string {
      sign + (whole + Tail())
    }

    // The denoted number times 10^8.
    function Scaled(): int
      requires |fraction| <= 8
    {
      var magnitude := Value(whole) * 100_000_000 + FractionUnits(fraction);
      if sign == "-" then -magnitude else magnitude
    }
  }

  // ---- What the parser returns ----

  function Signless(s: string): string {
    if s != "" && (s[0] == '+' || s[0] == '-') then s[1..] else s
  }

  function DotIndex(s: string): (d: nat)
    ensures d <= |s| && '.' !in s[..d] && (d < |s| ==> s[d] == '.')
  {
    if s == "" || s[0] == '.' then 0 else 1 + DotIndex(s[1..])
  }

  // Length of the longest all-digit prefix.
  function LeadingDigits(s: string): (k: nat)
    ensures k <= |s| && AllDigits(s[..k]) && (k < |s| ==> !IsDigit(s[k]))
  {
    if s == "" || !IsDigit(s[0]) then 0 else 1 + LeadingDigits(s[1..])
  }

  function Split(s: string): Literal {
    var u := Signless(s);
    var d := DotIndex(u);
    Literal(s[..|s| - |u|], u[..d], if d < |u| then u[d + 1..] else "")
  }

  // A point is there but nothing follows it.
  predicate DanglingPoint(s: string) {
    var u := Signless(s);
    DotIndex(u) + 1 == |u|
  }

  predicate WellShaped(s: string) {
    Split(s).Valid() && !DanglingPoint(s)
  }

  // The digits before the point are read first, so a whole part beyond 64 bits is reported as out of range
  // even when a malformed character follows it.
  function Parse(s: string): Result<Int64, Error> {
    var u := Signless(s);
    if Value(u[..LeadingDigits(u)]) > UINT64_MAX then Err(OutOfRange)
    else if !WellShaped(s) then Err(InvalidArgument)
    else if !FitsInt64(Split(s).Scaled()) then Err(OutOfRange)
    else Ok(Split(s).Scaled())
  }

  // ---- The printer's text ----

  function Magnitude(raw: int): nat {
    if raw < 0 then -raw else raw
  }

  function CanonicalLiteral(raw: int): Literal {
    Literal(if raw < 0 then "-" else "", Text(Magnitude(raw) / 100_000_000), Pad(Magnitude(raw) % 100_000_000, 8))
  }

  function Canonical(raw: int): string {
    CanonicalLiteral(raw).Render()
  }

  // A canonical text has no plus sign, no needless leading zero, exactly eight fraction digits, and no
  // minus sign on zero.
  ghost predicate IsCanonical(s: string) {
    exists l: Literal :: l.Valid() && l.Render() == s && CanonicalParts(l)
  }

  predicate CanonicalParts(l: Literal)
    requires l.Valid()
  {
    && l.sign != "+" && Plain(l.whole) && |l.fraction| == 8
    && (l.sign == "-" ==> l.Scaled() != 0)
  }

  // ---- What a literal denotes ----

  lemma Shifted(f: nat, k: nat)
    requires k <= 8
    ensures f * Pow10(8 - k) * Pow10(k) == f * 100_000_000
  {
    Pow10Table();
    assert k == 0 || k == 1 || k == 2 || k == 3 || k == 4 || k == 5 || k == 6 || k == 7 || k == 8;
  }

  // The digits after the point are tenths, hundredths and so on; a minus sign negates, a plus sign does nothing.
  lemma LiteralInNumbers(l: Literal)
    requires l.Valid()
    ensures var n, k := l.Scaled(), |l.fraction|;
            var digits := Value(l.whole) * Pow10(k) + Value(l.fraction);
            && (l.sign != "-" ==> n * Pow10(k) == digits * 100_000_000)
            && (l.sign == "-" ==> n * Pow10(k) == -digits * 100_000_000)
  {
    hide Value, Pow10;
    Shifted(Value(l.fraction), |l.fraction|);
    Spread(Value(l.whole), FractionUnits(l.fraction), Value(l.fraction), Pow10(|l.fraction|));
  }

  lemma Spread(w: nat, u: nat, f: nat, p: nat)
    requires u * p == f * 100_000_000
    ensures (w * 100_000_000 + u) * p == (w * p + f) * 100_000_000
    ensures -(w * 100_000_000 + u) * p == -(w * p + f) * 100_000_000
  {
  }

  // ---- The source's parser and printer ----

  // Fails exactly when current * 10 + digit does not fit 64 bits.
  method CheckedAccumulate(current: uint64, digit: uint64) returns (r: Result<uint64, Error>)
    requires digit < 10
    ensures r == if current as int * 10 + digit as int > UINT64_MAX then Err(OutOfRange)
                 else Ok((current as int * 10 + digit as int) as uint64)
  {
    if current > (0xFFFF_FFFF_FFFF_FFFF - digit) / 10 {
      return Err(OutOfRange);
    }
    return Ok(current * 10 + digit);
  }

  // The loop over the digits before the point. It stops at the point or at the end of the text.
  method ReadWhole(value: string, start: nat) returns (r: Result<uint64, Error>, position: nat)
    requires start <= |value| && start == |value| - |Signless(value)|
    ensures r.Ok? ==>
              && start <= position <= |value|
              && position - start == DotIndex(Signless(value)) == LeadingDigits(Signless(value))
              && r.value as int == Value(Split(value).whole)
    ensures r.Err? ==> Parse(value) == Err(r.error)
  {
    hide Parse, Value, AllDigits, DigitValue, DotIndex, LeadingDigits;
    ghost var u := value[start..];
    assert u == Signless(value);
    var whole: uint64 := 0;
    position := start;
    NoDigitsYet(u);
    while position < |value| && value[position] != '.'
      invariant start <= position <= |value|
      invariant AllDigits(u[..position - start])
      invariant whole as int == Value(u[..position - start])
    {
      var ch := value[position];
      ghost var k := position - start;
      assert ch == u[k];
      if !IsDigit(ch) {
        BadCharacter(value, k);
        return Err(InvalidArgument), position;
      }
      ExtendPrefix(u, k);
      var next := CheckedAccumulate(whole, DigitValue(ch) as uint64);
      if next.Err? {
        WholeOverflow(value, k + 1);
        return Err(OutOfRange), position;
      }
      whole := next.value;
      position := position + 1;
    }
    WholeEnds(u, position - start);
    return Ok(whole), position;
  }

  // The loop over the digits after the point.
  method ReadFraction(value: string, point: nat) returns (r: Result<uint64, Error>, fractionDigits: nat)
    requires point <= |value|
    ensures r.Ok? <==> |value| - point <= 8 && AllDigits(value[point..])
    ensures r.Ok? ==> fractionDigits == |value| - point && r.value as int == Value(value[point..])
    ensures r.Err? ==> r.error == InvalidArgument
  {
    ghost var f := value[point..];
    var position := point;
    var fraction: uint64 := 0;
    fractionDigits := 0;
    while position < |value|
      invariant point <= position <= |value| && fractionDigits == position - point <= 8
      invariant AllDigits(f[..fractionDigits])
      invariant fraction as int == Value(f[..fractionDigits])
    {
      var ch := value[position];
      assert ch == f[fractionDigits];
      if !IsDigit(ch) {
        return Err(InvalidArgument), fractionDigits;
      }
      if fractionDigits == 8 {
        return Err(InvalidArgument), fractionDigits;
      }
      ExtendPrefix(f, fractionDigits);
      ValueBound(f[..fractionDigits + 1]);
      Pow10AtMost(fractionDigits + 1);
      fraction := fraction * 10 + DigitValue(ch) as uint64;
      fractionDigits := fractionDigits + 1;
      position := position + 1;
    }
    assert f[..fractionDigits] == f;
    return Ok(fraction), fractionDigits;
  }

  // The loop that brings the fraction to eight digits.
  method ScaleFraction(fraction: uint64, fractionDigits: nat, ghost f: string) returns (scaled: uint64)
    requires fractionDigits == |f| <= 8 && fraction as int == Value(f)
    ensures scaled as int == FractionUnits(f) < 100_000_000
  {
    var digits := fractionDigits;
    scaled := fraction;
    ValueBound(f);
    assert Value(f) * Pow10(0) == Value(f);
    while digits < 8
      invariant |f| <= digits <= 8
      invariant scaled as int == Value(f) * Pow10(digits - |f|) < Pow10(digits)
    {
      Pow10AtMost(digits);
      MulTen(Value(f), Pow10(digits - |f|));
      scaled := scaled * 10;
      digits := digits + 1;
    }
    Pow10AtMost(8);
  }

  lemma EmptyFraction()
    ensures Value("") == 0 && AllDigits("")
  {
  }

  // Everything after the whole part: nothing, or a point with one to eight digits.
  method FractionPart(value: string, position: nat) returns (r: Result<uint64, Error>)
    requires position == |value| - |Signless(value)| + DotIndex(Signless(value))
    ensures var f := Split(value).fraction;
            && (r.Ok? <==> !DanglingPoint(value) && |f| <= 8 && AllDigits(f))
            && (r.Ok? ==> r.value as int == FractionUnits(f) < 100_000_000)
            && (r.Err? ==> r.error == InvalidArgument)
  {
    hide Value, FractionUnits, AllDigits, DotIndex;
    ghost var f := Split(value).fraction;
    EmptyFraction();
    assert position < |value| ==> f == value[position + 1..] by { SignParts(value); }
    var fraction: uint64, fractionDigits := 0, 0;
    if position < |value| {
      if position + 1 == |value| {
        return Err(InvalidArgument);
      }
      var read, count := ReadFraction(value, position + 1);
      if read.Err? {
        return Err(InvalidArgument);
      }
      fraction, fractionDigits := read.value, count;
    }
    fraction := ScaleFraction(fraction, fractionDigits, f);
    return Ok(fraction);
  }

  // The machine result r is the specified one.
  predicate Agrees(r: Result<int64, Error>, spec: Result<Int64, Error>) {
    match r
    case Ok(raw) => spec == Ok(raw as int)
    case Err(e) => spec == Err(e)
  }

  // The signed number of units, if an int64 can hold it.
  function Ranged(negative: bool, whole: nat, fraction: nat): Result<Int64, Error> {
    var magnitude := whole * 100_000_000 + fraction;
    var raw := if negative then -magnitude else magnitude;
    if FitsInt64(raw) then Ok(raw) else Err(OutOfRange)
  }

  // The range check and the conversion to a signed raw value.
  method Assemble(negative: bool, whole: uint64, fraction: uint64) returns (r: Result<int64, Error>)
    requires fraction as int < 100_000_000
    ensures Agrees(r, Ranged(negative, whole as nat, fraction as nat))
  {
    var limit: uint64 := if negative then 0x8000_0000_0000_0000 else 0x7FFF_FFFF_FFFF_FFFF;
    if whole > (limit - fraction) / 100_000_000 {
      return Err(OutOfRange);
    }
    var magnitude: uint64 := whole * 100_000_000 + fraction;
    if !negative {
      return Ok(magnitude as int64);
    }
    if magnitude == 0x8000_0000_0000_0000 {
      return Ok(-0x8000_0000_0000_0000);
    }
    return Ok(-(magnitude as int64));
  }

  method FromString(value: string) returns (r: Result<int64, Error>)
    ensures Agrees(r, Parse(value))
  {
    hide Parse, Ranged;
    if value == "" {
      NoDigits(value);
      return Err(InvalidArgument);
    }
    var negative, start := false, 0;
    if value[0] == '+' || value[0] == '-' {
      negative, start := value[0] == '-', 1;
    }
    assert value[start..] == Signless(value);
    if start == |value| {
      NoDigits(value);
      return Err(InvalidArgument);
    }
    var whole, position := ReadWhole(value, start);
    if whole.Err? {
      return Err(whole.error);
    }
    AfterWhole(value);
    assert position - start == DotIndex(Signless(value));
    if position == start {
      return Err(InvalidArgument);
    }
    var fraction := FractionPart(value, position);
    if fraction.Err? {
      return Err(fraction.error);
    }
    r := Assemble(negative, whole.value, fraction.value);
  }

  method ToString(raw: int64) returns (result: string)
    ensures result == Canonical(raw as int)
  {
    hide Text, Pad, Zeros, Canonical;
    var negative := raw < 0;
    var magnitude: uint64 := if negative then (-(raw + 1)) as uint64 + 1 else raw as uint64;
    var whole, fraction := magnitude / 100_000_000, magnitude % 100_000_000;
    result := if negative then "-" else "";
    ghost var sign := result;
    result := result + Text(whole as nat);
    result := result + ".";
    var fractionText := Text(fraction as nat);
    Pow10AtMost(8);
    FilledText(fraction as nat, 8);
    result := result + Zeros(8 - |fractionText|);
    result := result + fractionText;
    Reassociate(sign, Text(whole as nat), ".", Zeros(8 - |fractionText|), fractionText);
    CanonicalIs(raw as int, sign, whole as nat, fraction as nat);
  }

  lemma Reassociate(a: string, b: string, c: string, d: string, e: string)
    ensures a + b + c + d + e == a + (b + (c + (d + e)))
  {
  }

  lemma CanonicalIs(raw: int, sign: string, whole: nat, fraction: nat)
    requires sign == if raw < 0 then "-" else ""
    requires whole == Magnitude(raw) / 100_000_000 && fraction == Magnitude(raw) % 100_000_000
    ensures Canonical(raw) == sign + (Text(whole) + ("." + Pad(fraction, 8)))
  {
  }

  // ---- Lemmas the parser needs ----

  lemma Pow10AtMost(n: nat)
    requires n <= 8
    ensures Pow10(n) <= 100_000_000 && Pow10(8) == 100_000_000
  {
    Pow10Table();
    assert n == 0 || n == 1 || n == 2 || n == 3 || n == 4 || n == 5 || n == 6 || n == 7 || n == 8;
  }

  lemma PrefixDigits(s: string, k: nat)
    requires k <= |s| && AllDigits(s[..k])
    ensures forall i :: 0 <= i < k ==> IsDigit(s[i])
  {
    forall i | 0 <= i < k ensures IsDigit(s[i]) {
      assert s[..k][i] == s[i];
    }
  }

  lemma LeadingDigitsAtLeast(s: string, k: nat)
    requires k <= |s| && AllDigits(s[..k])
    ensures k <= LeadingDigits(s)
  {
    PrefixDigits(s, k);
  }

  lemma LeadingDigitsIs(s: string, k: nat)
    requires k <= |s| && AllDigits(s[..k]) && (k < |s| ==> !IsDigit(s[k]))
    ensures LeadingDigits(s) == k
  {
    LeadingDigitsAtLeast(s, k);
    PrefixDigits(s, LeadingDigits(s));
  }

  lemma {:induction false} DotIndexIs(s: string, d: nat)
    requires d <= |s| && '.' !in s[..d] && (d < |s| ==> s[d] == '.')
    ensures DotIndex(s) == d
  {
    if d > 0 {
      assert s[..d][0] == s[0];
      assert s[..d] == [s[0]] + s[1..][..d - 1];
      DotIndexIs(s[1..], d - 1);
    }
  }

  // A non-digit other than the point right after a digit run spoils the whole part.
  lemma DigitRunEndsInWhole(s: string, k: nat)
    requires k < |s| && AllDigits(s[..k]) && !IsDigit(s[k]) && s[k] != '.'
    ensures !AllDigits(s[..DotIndex(s)])
  {
    var d := DotIndex(s);
    PrefixDigits(s, k);
    assert d > k;
    assert s[..d][k] == s[k];
  }

  lemma NoDigitsYet(s: string)
    ensures s[..0] == "" && AllDigits("") && Value("") == 0
  {
  }

  // The digits read so far are the whole part once the point or the end is reached.
  lemma WholeEnds(s: string, d: nat)
    requires d <= |s| && AllDigits(s[..d]) && (d < |s| ==> s[d] == '.')
    ensures DotIndex(s) == d && LeadingDigits(s) == d
  {
    hide DotIndex, LeadingDigits;
    assert forall i :: 0 <= i < d ==> s[..d][i] != '.';
    DotIndexIs(s, d);
    LeadingDigitsIs(s, d);
  }

  lemma SignParts(s: string)
    ensures var u, sign := Signless(s), Split(s).sign;
            && s == sign + u && sign in {"", "+", "-"}
            && (sign == "-" <==> s != "" && s[0] == '-')
  {
    var u := Signless(s);
    if s != "" && (s[0] == '+' || s[0] == '-') {
      assert s[..|s| - |u|] == [s[0]];
      assert s == [s[0]] + s[1..];
    } else {
      assert s[..|s| - |u|] == "";
    }
  }

  lemma BadCharacter(s: string, k: nat)
    requires var u := Signless(s); k < |u| && AllDigits(u[..k]) && !IsDigit(u[k]) && u[k] != '.'
    requires Value(Signless(s)[..k]) <= UINT64_MAX
    ensures Parse(s) == Err(InvalidArgument)
  {
    LeadingDigitsIs(Signless(s), k);
    DigitRunEndsInWhole(Signless(s), k);
  }

  lemma WholeOverflow(s: string, k: nat)
    requires k <= |Signless(s)| && AllDigits(Signless(s)[..k]) && Value(Signless(s)[..k]) > UINT64_MAX
    ensures Parse(s) == Err(OutOfRange)
  {
    var u := Signless(s);
    LeadingDigitsAtLeast(u, k);
    ValuePrefix(u[..LeadingDigits(u)], k);
    assert u[..LeadingDigits(u)][..k] == u[..k];
  }

  lemma NoDigits(s: string)
    requires Signless(s) == ""
    ensures Parse(s) == Err(InvalidArgument)
  {
  }

  // What is left to decide once the digits before the point have been read.
  lemma AfterWhole(s: string)
    requires s != ""
    requires var u := Signless(s); DotIndex(u) == LeadingDigits(u) && Value(u[..DotIndex(u)]) <= UINT64_MAX
    ensures Parse(s) ==
            var l := Split(s);
            if DotIndex(Signless(s)) == 0 || DanglingPoint(s) || |l.fraction| > 8 || !AllDigits(l.fraction)
            then Err(InvalidArgument)
            else Ranged(s[0] == '-', Value(l.whole), FractionUnits(l.fraction))
  {
    hide Value, FractionUnits, AllDigits, DotIndex, LeadingDigits, Signless, Split, WellShaped, DanglingPoint;
    SignParts(s);
    ShapeAfterWhole(s);
  }

  lemma ShapeAfterWhole(s: string)
    requires DotIndex(Signless(s)) == LeadingDigits(Signless(s))
    ensures var u, l := Signless(s), Split(s);
            && l.whole == u[..DotIndex(u)]
            && (WellShaped(s) <==>
                  DotIndex(u) > 0 && !DanglingPoint(s) && |l.fraction| <= 8 && AllDigits(l.fraction))
  {
    hide AllDigits, DotIndex, LeadingDigits;
    SignParts(s);
    var u, l := Signless(s), Split(s);
    assert l.whole == u[..DotIndex(u)] && (l.whole == "" <==> DotIndex(u) == 0);
  }

  // ---- Main results ----

  // Splitting undoes rendering.
  lemma SplitRender(l: Literal)
    requires l.Valid()
    ensures Split(l.Render()) == l && WellShaped(l.Render())
    ensures Signless(l.Render()) == l.whole + l.Tail()
  {
    hide AllDigits, DotIndex;
    var s, u := l.Render(), l.whole + l.Tail();
    PrefixSuffix(l.sign, u);
    DigitFirst(l.whole);
    assert u[0] == l.whole[0];
    SignlessOf(l.sign, u);
    WholeThenTail(l.whole, l.fraction, l.Tail());
  }

  lemma DigitFirst(s: string)
    requires s != "" && AllDigits(s)
    ensures IsDigit(s[0]) && '.' !in s
  {
  }

  lemma WholeThenTail(whole: string, fraction: string, tail: string)
    requires whole != "" && '.' !in whole && tail == if fraction == "" then "" else "." + fraction
    ensures var u, d := whole + tail, |whole|;
            && DotIndex(u) == d && u[..d] == whole && d + 1 != |u|
            && fraction == (if d < |u| then u[d + 1..] else "")
  {
    hide DotIndex;
    var u, d := whole + tail, |whole|;
    PrefixSuffix(whole, tail);
    if fraction == "" {
      assert u == whole;
    } else {
      assert u[d] == tail[0];
      assert u == whole + "." + fraction;
      PrefixSuffix(whole + ".", fraction);
    }
    DotIndexIs(u, d);
  }

  lemma SignlessOf(sign: string, u: string)
    requires sign in {"", "+", "-"} && u != "" && IsDigit(u[0])
    ensures Signless(sign + u) == u
  {
    if sign == "" {
      assert sign + u == u;
    } else {
      assert (sign + u)[0] == sign[0];
      PrefixSuffix(sign, u);
    }
  }

  lemma RenderSplit(s: string)
    requires WellShaped(s)
    ensures Split(s).Render() == s
  {
    SignParts(s);
    PointTail(Signless(s), DotIndex(Signless(s)));
  }

  lemma PointTail(u: string, d: nat)
    requires d <= |u| && (d < |u| ==> u[d] == '.' && d + 1 < |u|)
    ensures var fraction := if d < |u| then u[d + 1..] else "";
            u == u[..d] + if fraction == "" then "" else "." + fraction
  {
    if d < |u| {
      assert u[d..] == "." + u[d + 1..];
    }
    assert u == u[..d] + u[d..];
  }

  // from_string accepts exactly the texts of the grammar whose number, counted in units of 10^-8, fits an
  // int64, and returns exactly that number.
  lemma FromStringAcceptsExactly(s: string, raw: Int64)
    ensures Parse(s) == Ok(raw) <==> exists l: Literal :: l.Valid() && l.Render() == s && l.Scaled() == raw
  {
    if Parse(s) == Ok(raw) {
      RenderSplit(s);
      assert Split(s).Valid() && Split(s).Render() == s && Split(s).Scaled() == raw;
    }
    if l: Literal :| l.Valid() && l.Render() == s && l.Scaled() == raw {
      SplitRender(l);
      WholeIsLeading(l);
      ValueBoundedByScaled(l);
    }
  }

  lemma ValueBoundedByScaled(l: Literal)
    requires l.Valid() && FitsInt64(l.Scaled())
    ensures Value(l.whole) <= UINT64_MAX
  {
  }

  lemma WholeIsLeading(l: Literal)
    requires l.Valid()
    ensures Signless(l.Render())[..LeadingDigits(Signless(l.Render()))] == l.whole
  {
    SplitRender(l);
    PrefixSuffix(l.whole, l.Tail());
    LeadingDigitsIs(l.whole + l.Tail(), |l.whole|);
  }

  // Which of the two exceptions a rejected text gets.
  lemma FromStringErrorKind(s: string)
    requires Parse(s).Err?
    ensures Parse(s).error == OutOfRange <==>
            || Value(Signless(s)[..LeadingDigits(Signless(s))]) > UINT64_MAX
            || exists l: Literal :: l.Valid() && l.Render() == s && !FitsInt64(l.Scaled())
  {
    if WellShaped(s) {
      RenderSplit(s);
      assert Split(s).Valid() && Split(s).Render() == s;
    }
    if l: Literal :| l.Valid() && l.Render() == s && !FitsInt64(l.Scaled()) {
      SplitRender(l);
      WholeIsLeading(l);
    }
  }

  lemma CanonicalLiteralFacts(raw: int)
    ensures CanonicalLiteral(raw).Valid() && CanonicalParts(CanonicalLiteral(raw))
    ensures CanonicalLiteral(raw).Scaled() == raw
  {
    var m := Magnitude(raw);
    Pow10AtMost(8);
    TextPlain(m / 100_000_000);
    ValueText(m / 100_000_000);
    ValuePad(m % 100_000_000, 8);
  }

  // Printing and parsing back is the identity on the whole int64 range, the minimum included.
  lemma ParseCanonical(raw: Int64)
    ensures Parse(Canonical(raw)) == Ok(raw)
  {
    CanonicalLiteralFacts(raw);
    assert CanonicalLiteral(raw).Render() == Canonical(raw);
    FromStringAcceptsExactly(Canonical(raw), raw);
  }

  lemma CanonicalInjective(a: Int64, b: Int64)
    requires Canonical(a) == Canonical(b)
    ensures a == b
  {
    ParseCanonical(a);
    ParseCanonical(b);
  }

  // The printer's texts are exactly the canonical ones.
  lemma CanonicalExactly(s: string)
    ensures IsCanonical(s) <==> exists raw: int :: Canonical(raw) == s
  {
    if l: Literal :| l.Valid() && l.Render() == s && CanonicalParts(l) {
      CanonicalFromParts(l);
      assert Canonical(l.Scaled()) == s;
    }
    if raw: int :| Canonical(raw) == s {
      CanonicalLiteralFacts(raw);
      assert CanonicalLiteral(raw).Render() == s;
    }
  }

  lemma CanonicalFromParts(l: Literal)
    requires l.Valid() && CanonicalParts(l)
    ensures Canonical(l.Scaled()) == l.Render()
  {
    Pow10AtMost(8);
    ValueBound(l.fraction);
    var m := Magnitude(l.Scaled());
    assert Pow10(0) == 1;
    assert m == Value(l.whole) * 100_000_000 + Value(l.fraction);
    assert m / 100_000_000 == Value(l.whole) && m % 100_000_000 == Value(l.fraction);
    TextValue(l.whole);
    PadValue(l.fraction);
  }

  lemma FirstChar(raw: int)
    ensures Canonical(raw) != "" && (Canonical(raw)[0] == '-' <==> raw < 0)
  {
    assert IsDigit(Text(Magnitude(raw) / 100_000_000)[0]);
  }

  // Reparsing any accepted text and printing it gives the one canonical text of its number; a text that is
  // already canonical is unchanged.
  lemma ReprintIsCanonical(s: string)
    requires Parse(s).Ok?
    ensures IsCanonical(Canonical(Parse(s).value))
    ensures Parse(Canonical(Parse(s).value)) == Parse(s)
    ensures IsCanonical(s) <==> Canonical(Parse(s).value) == s
    ensures Canonical(Parse(s).value)[0] == '-' <==> Parse(s).value < 0
  {
    var raw := Parse(s).value;
    ParseCanonical(raw);
    assert Canonical(raw) == Canonical(raw as int);
    CanonicalExactly(Canonical(raw));
    if l: Literal :| l.Valid() && l.Render() == s && CanonicalParts(l) {
      SplitRender(l);
      CanonicalFromParts(l);
    }
    FirstChar(raw);
  }
}

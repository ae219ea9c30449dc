/** Numbers as the C++ library prints and reads them: std::to_string on doubles (six decimals),
    std::fixed with eight decimals, and std::stod. Doubles are modelled as exact reals. */
module FixedText {
  import opened Common
  import opened Digits
  import Decimal

  // To nearest, ties to even.
  function RoundHalfEven(x: real): (n: nat)
    requires x >= 0.0
    ensures -0.5 <= n as real - x <= 0.5
  {
    var floor := x.Floor;
    var rest := x - floor as real;
    if rest < 0.5 || (rest == 0.5 && floor % 2 == 0) then floor else floor + 1
  }

  function Absolute(x: real): real {
    if x < 0.0 then -x else x
  }

  // |x| in units of 10^-places.
  function Units(x: real, places: nat): nat {
    RoundHalfEven(ScaledUp(Absolute(x), places))
  }

  function ScaledUp(x: real, places: nat): (y: real)
    requires x >= 0.0
    ensures y >= 0.0
  {
    NonNegativeProduct(x, Pow10(places) as real);
    x * Pow10(places) as real
  }

  lemma NonNegativeProduct(x: real, y: real)
    requires x >= 0.0 && y >= 0.0
    ensures x * y >= 0.0
  {
  }

  function SignedUnits(x: real, places: nat): int {
    var units: int := Units(x, places);
    if x < 0.0 then -units else units
  }

  // n units of 10^-places.
  function FromUnits(n: int, places: nat): real {
    n as real / Pow10(places) as real
  }

  // n without its last `places` digits.
  function Leading(n: nat, places: nat): nat {
    if places == 0 then n else Leading(n / 10, places - 1)
  }

  // The number the printed text denotes.
  function Settle(x: real, places: nat): real {
    FromUnits(SignedUnits(x, places), places)
  }

  function FixedLiteral(x: real, places: nat): Decimal.Literal {
    var units := Units(x, places);
    Decimal.Literal(if x < 0.0 then "-" else "", Text(Leading(units, places)), Pad(units, places))
  }

  function Fixed(x: real, places: nat): string {
    FixedLiteral(x, places).Render()
  }

  function LiteralNumber(l: Decimal.Literal): real {
    var n: int := Value(l.whole + l.fraction);
    FromUnits(if l.sign == "-" then -n else n, |l.fraction|)
  }

  // std::stod on plain decimal literals; other spellings do not arise here.
  function Stod(s: string): Option<real> {
    if Decimal.WellShaped(s) then Some(LiteralNumber(Decimal.Split(s))) else None
  }

  // std::stoull.
  function Stoull(s: string): Option<Volume> {
    if s != "" && AllDigits(s) && Value(s) <= UINT64_MAX then Some(Value(s)) else None
  }

  // std::to_string on a signed number, and std::stoll.
  function SignedText(n: int): string {
    if n < 0 then "-" + Text(-n) else Text(n)
  }

  function Stoll(s: string): Option<int> {
    var digits := if s != "" && s[0] == '-' then s[1..] else s;
    if digits == "" || !AllDigits(digits) then None
    else
      var magnitude: int := Value(digits);
      var n := if s[0] == '-' then -magnitude else magnitude;
      if FitsInt64(n) then Some(n) else None
  }

  // The domain layer's conversion of a double: eight fixed decimals, read back as a Decimal.
  function DecimalFrom(x: real): Result<Int64, Error> {
    Decimal.Parse(Fixed(x, 8))
  }

  function DecimalFromVolume(v: Volume): Result<Int64, Error> {
    Decimal.Parse(Text(v))
  }

  // ---- Main results ----

  lemma {:induction false} LeadingAndPad(n: nat, places: nat)
    ensures Value(Text(Leading(n, places)) + Pad(n, places)) == n
  {
    hide Value, Text, Digit;
    if places == 0 {
      ValueText(n);
      assert Text(n) + Pad(n, 0) == Text(n);
    } else {
      LeadingAndPad(n / 10, places - 1);
      var front := Text(Leading(n / 10, places - 1)) + Pad(n / 10, places - 1);
      assert Text(Leading(n, places)) + Pad(n, places) == front + [Digit(n % 10)];
      ValueAppend(front, Digit(n % 10));
    }
  }

  lemma FixedLiteralFacts(x: real, places: nat)
    requires places <= 8
    ensures var l := FixedLiteral(x, places);
            l.Valid() && |l.fraction| == places && Value(l.whole + l.fraction) == Units(x, places)
  {
    LeadingAndPad(Units(x, places), places);
  }

  // Reading a printed double gives the double rounded to the printed places.
  lemma StodFixed(x: real, places: nat)
    requires places <= 8
    ensures Stod(Fixed(x, places)) == Some(Settle(x, places))
  {
    FixedLiteralFacts(x, places);
    StodLiteral(FixedLiteral(x, places));
    FixedNumber(x, places);
  }

  lemma StodLiteral(l: Decimal.Literal)
    requires l.Valid()
    ensures Stod(l.Render()) == Some(LiteralNumber(l))
  {
    Decimal.SplitRender(l);
  }

  lemma FixedNumber(x: real, places: nat)
    requires places <= 8
    ensures LiteralNumber(FixedLiteral(x, places)) == Settle(x, places)
  {
    FixedLiteralFacts(x, places);
  }

  lemma FromUnitsScales(n: int, places: nat)
    ensures FromUnits(n, places) < 0.0 <==> n < 0
    ensures ScaledUp(Absolute(FromUnits(n, places)), places) == Absolute(n as real)
  {
    QuotientSign(n as real, Pow10(places) as real, FromUnits(n, places));
  }

  lemma QuotientSign(n: real, p: real, y: real)
    requires p > 0.0 && y == n / p
    ensures y < 0.0 <==> n < 0.0
    ensures Absolute(y) * p == Absolute(n)
  {
    assert y * p == n;
  }

  lemma WholeUnits(n: int)
    ensures RoundHalfEven(Absolute(n as real)) as int == if n < 0 then -n else n
  {
  }

  // A number already rounded to that many places is printed without loss.
  lemma SettleIdempotent(x: real, places: nat)
    ensures SignedUnits(Settle(x, places), places) == SignedUnits(x, places)
    ensures Settle(Settle(x, places), places) == Settle(x, places)
  {
    FromUnitsScales(SignedUnits(x, places), places);
    WholeUnits(SignedUnits(x, places));
  }

  // What is printed is the nearest multiple of 10^-places, and of two the one with an even last digit.
  lemma SettleNearest(x: real, places: nat)
    ensures var scale, n := Pow10(places) as real, SignedUnits(x, places);
            && Settle(x, places) * scale == n as real
            && -0.5 <= n as real - x * scale <= 0.5
            && (n as real - x * scale == 0.5 || n as real - x * scale == -0.5 ==> n % 2 == 0)
  {
    hide RoundHalfEven, Pow10;
    HalfIsEven(ScaledUp(Absolute(x), places));
    Quotient(SignedUnits(x, places) as real, Pow10(places) as real);
  }

  lemma Quotient(n: real, p: real)
    requires p > 0.0
    ensures n / p * p == n
  {
  }

  lemma HalfIsEven(y: real)
    requires y >= 0.0
    ensures var rest := RoundHalfEven(y) as real - y;
            rest == 0.5 || rest == -0.5 ==> RoundHalfEven(y) % 2 == 0
  {
  }

  lemma StoullText(v: Volume)
    ensures Stoull(Text(v)) == Some(v)
  {
    ValueText(v);
  }

  lemma StollExactly(n: int)
    ensures Stoll(SignedText(n)) == if FitsInt64(n) then Some(n) else None
  {
    ValueText(if n < 0 then -n else n);
    if n < 0 {
      assert ("-" + Text(-n))[1..] == Text(-n);
    } else {
      assert IsDigit(Text(n)[0]);
    }
  }

  // A double converts to the nearest multiple of 10^-8 exactly when that fits, and is otherwise out of range.
  lemma DecimalFromExactly(x: real)
    ensures DecimalFrom(x) == if FitsInt64(SignedUnits(x, 8)) then Ok(SignedUnits(x, 8)) else Err(OutOfRange)
  {
    FixedScaled(x);
    ParseLiteral(FixedLiteral(x, 8));
  }

  lemma FixedScaled(x: real)
    ensures FixedLiteral(x, 8).Valid() && FixedLiteral(x, 8).Scaled() == SignedUnits(x, 8)
  {
    FixedLiteralFacts(x, 8);
    EightPlaces(FixedLiteral(x, 8));
  }

  lemma EightPlaces(l: Decimal.Literal)
    requires l.Valid() && |l.fraction| == 8
    ensures var n: int := Value(l.whole + l.fraction);
            l.Scaled() == if l.sign == "-" then -n else n
  {
    Pow10Table();
    ValueConcat(l.whole, l.fraction);
  }

  lemma ParseLiteral(l: Decimal.Literal)
    requires l.Valid()
    ensures Decimal.Parse(l.Render()) == if FitsInt64(l.Scaled()) then Ok(l.Scaled()) else Err(OutOfRange)
  {
    hide Value, AllDigits, Decimal.DotIndex, Decimal.LeadingDigits;
    Decimal.SplitRender(l);
    Decimal.WholeIsLeading(l);
    if FitsInt64(l.Scaled()) {
      Decimal.ValueBoundedByScaled(l);
    }
  }

  // A volume converts exactly when its count of 10^-8 units fits.
  lemma DecimalFromVolumeExactly(v: Volume)
    ensures DecimalFromVolume(v) ==
            if FitsInt64(v * 100_000_000) then Ok(v * 100_000_000) else Err(OutOfRange)
  {
    var l := Decimal.Literal("", Text(v), "");
    ValueText(v);
    WholeNumber(Text(v));
    ParseLiteral(l);
  }

  lemma WholeNumber(whole: string)
    requires whole != "" && AllDigits(whole)
    ensures var l := Decimal.Literal("", whole, "");
            l.Valid() && l.Render() == whole && l.Scaled() == Value(whole) * 100_000_000
  {
  }
}

/** Decimal digit strings: the text std::to_string prints, zero-padded fields, and their values. */
module Digits {

  predicate IsDigit(c: char) {
    '0' <= c <= '9'
  }

  predicate AllDigits(s: string) {
    forall i :: 0 <= i < |s| ==> IsDigit(s[i])
  }

  function DigitValue(c: char): (d: nat)
    ensures d < 10
  {
    if IsDigit(c) then c as int - '0' as int else 0
  }

  function Digit(d: nat): (c: char)
    requires d < 10
    ensures IsDigit(c) && DigitValue(c) == d
  {
    ('0' as int + d) as char
  }

  function Pow10(n: nat): (p: nat)
    ensures p >= 1
  {
    if n == 0 then 1 else 10 * Pow10(n - 1)
  }

  lemma Pow10Table()
    ensures Pow10(0) == 1 && Pow10(1) == 10 && Pow10(2) == 100 && Pow10(3) == 1000 && Pow10(4) == 10_000
    ensures Pow10(5) == 100_000 && Pow10(6) == 1_000_000 && Pow10(7) == 10_000_000 && Pow10(8) == 100_000_000
  {
    assert Pow10(4) == 10 * Pow10(3);
  }

  // The number a digit string denotes, read left to right as the parsers do.
  function Value(s: string): nat {
    if s == "" then 0 else 10 * Value(s[..|s| - 1]) + DigitValue(s[|s| - 1])
  }

  // A digit string read in tens: all ten digits in order of size, and each place worth ten of the next.
  lemma InTens(s: string, c: char)
    requires IsDigit(c)
    ensures IsDigit(c) <==> c in "0123456789"
    ensures "0123456789"[DigitValue(c)] == c
    ensures Value(s + [c]) == 10 * Value(s) + DigitValue(c) && Value("") == 0
  {
    assert (s + [c])[..|s|] == s;
  }

  // std::to_string on an unsigned number.
  function Text(n: nat): (s: string)
    ensures |s| >= 1 && AllDigits(s)
  {
    if n < 10 then [Digit(n)] else Text(n / 10) + [Digit(n % 10)]
  }

  // The last `width` digits of n, zero-padded on the left.
  function Pad(n: nat, width: nat): (s: string)
    ensures |s| == width && AllDigits(s)
  {
    if width == 0 then "" else Pad(n / 10, width - 1) + [Digit(n % 10)]
  }

  function Zeros(n: nat): (s: string)
    ensures |s| == n && AllDigits(s)
  {
    if n == 0 then "" else ['0'] + Zeros(n - 1)
  }

  // The spelling std::to_string would choose: no leading zero unless the string is "0".
  predicate Plain(s: string) {
    s != "" && AllDigits(s) && (s[0] == '0' ==> s == "0")
  }

  lemma PrefixSuffix(a: string, b: string)
    ensures (a + b)[..|a|] == a && (a + b)[|a|..] == b
  {
  }

  lemma InnerSlice(s: string, k: nat)
    requires k < |s| - 1
    ensures s[k + 1..|s| - 1] == s[k..][1..|s[k..]| - 1]
  {
  }

  lemma ValueAppend(s: string, c: char)
    ensures Value(s + [c]) == 10 * Value(s) + DigitValue(c)
  {
    assert (s + [c])[..|s|] == s;
  }

  // One more digit of a prefix.
  lemma ExtendPrefix(s: string, k: nat)
    requires k < |s| && AllDigits(s[..k]) && IsDigit(s[k])
    ensures AllDigits(s[..k + 1]) && Value(s[..k + 1]) == 10 * Value(s[..k]) + DigitValue(s[k])
  {
    assert s[..k + 1] == s[..k] + [s[k]];
    ValueAppend(s[..k], s[k]);
  }

  lemma {:induction false} ValueBound(s: string)
    ensures Value(s) < Pow10(|s|)
  {
    if s != "" {
      ValueBound(s[..|s| - 1]);
    }
  }

  lemma {:induction false} ValueConcat(a: string, b: string)
    ensures Value(a + b) == Value(a) * Pow10(|b|) + Value(b)
  {
    if b == "" {
      assert a + b == a;
    } else {
      var front, c := b[..|b| - 1], b[|b| - 1];
      assert a + b == (a + front) + [c];
      ValueAppend(a + front, c);
      ValueConcat(a, front);
      MulTen(Value(a), Pow10(|front|));
    }
  }

  lemma MulTen(a: nat, p: nat)
    ensures a * (10 * p) == 10 * (a * p)
  {
  }

  // A prefix of a digit string denotes no more than the string itself.
  lemma {:induction false} ValuePrefix(s: string, k: nat)
    requires k <= |s|
    ensures Value(s[..k]) <= Value(s)
  {
    if k < |s| {
      ValuePrefix(s[..|s| - 1], k);
      assert s[..|s| - 1][..k] == s[..k];
    } else {
      assert s[..k] == s;
    }
  }

  lemma {:induction false} ValueZeros(n: nat)
    ensures Value(Zeros(n)) == 0
  {
    if n > 0 {
      ValueConcat(['0'], Zeros(n - 1));
      ValueZeros(n - 1);
      assert Value(['0']) == 0 by { ValueAppend("", '0'); assert "" + ['0'] == ['0']; }
    }
  }

  lemma {:induction false} ValueText(n: nat)
    ensures Value(Text(n)) == n
  {
    if n < 10 {
      ValueAppend("", Digit(n));
      assert "" + [Digit(n)] == Text(n);
    } else {
      ValueText(n / 10);
      ValueAppend(Text(n / 10), Digit(n % 10));
    }
  }

  lemma {:induction false} TextPlain(n: nat)
    ensures Plain(Text(n)) && (Text(n) == "0" <==> n == 0)
  {
    if n >= 10 {
      TextPlain(n / 10);
    }
  }

  // The digits of a string determine it once its length is fixed.
  lemma {:induction false} PadValue(s: string)
    requires AllDigits(s)
    ensures Pad(Value(s), |s|) == s
  {
    if s != "" {
      PadValue(s[..|s| - 1]);
      ValueSplit(s);
    }
  }

  lemma {:induction false} ValuePad(n: nat, width: nat)
    requires n < Pow10(width)
    ensures Value(Pad(n, width)) == n
  {
    if width > 0 {
      ValuePad(n / 10, width - 1);
      ValueAppend(Pad(n / 10, width - 1), Digit(n % 10));
    }
  }

  lemma DigitOf(c: char)
    requires IsDigit(c)
    ensures Digit(DigitValue(c)) == c
  {
  }

  lemma TensAndUnits(tens: nat, units: nat)
    requires units < 10
    ensures (10 * tens + units) / 10 == tens && (10 * tens + units) % 10 == units
  {
  }

  lemma ValueSplit(s: string)
    requires s != "" && AllDigits(s)
    ensures Value(s) / 10 == Value(s[..|s| - 1]) && Value(s) % 10 == DigitValue(s[|s| - 1])
    ensures Digit(DigitValue(s[|s| - 1])) == s[|s| - 1] && s == s[..|s| - 1] + [s[|s| - 1]]
  {
    hide Value, Digit, DigitValue;
    var front, c := s[..|s| - 1], s[|s| - 1];
    assert s == front + [c];
    ValueAppend(front, c);
    TensAndUnits(Value(front), DigitValue(c));
    DigitOf(c);
  }

  // A digit string scaled up by a power of ten is the string followed by zeros.
  lemma PadScaled(s: string, width: nat)
    requires AllDigits(s) && |s| <= width
    ensures Pad(Value(s) * Pow10(width - |s|), width) == s + Zeros(width - |s|)
  {
    var z := Zeros(width - |s|);
    ValueConcat(s, z);
    ValueZeros(width - |s|);
    PadValue(s + z);
  }

  lemma {:induction false} TextValue(s: string)
    requires Plain(s)
    ensures Text(Value(s)) == s
  {
    ValueSplit(s);
    if |s| > 1 {
      var front := s[..|s| - 1];
      assert front[0] == s[0];
      TextValue(front);
      PlainPositive(front);
    }
  }

  lemma {:induction false} PlainPositive(s: string)
    requires AllDigits(s) && s != "" && s[0] != '0'
    ensures Value(s) > 0
  {
    ValueConcat(s[..1], s[1..]);
    assert s == s[..1] + s[1..];
    assert Value(s[..1]) == DigitValue(s[0]) by { ValueAppend("", s[0]); assert "" + [s[0]] == s[..1]; }
    assert Value(s[..1]) * Pow10(|s| - 1) >= 1 * 1 by { MulAtLeastOne(Value(s[..1]), Pow10(|s| - 1)); }
  }

  lemma MulAtLeastOne(a: nat, b: nat)
    requires a >= 1 && b >= 1
    ensures a * b >= 1
  {
  }

  // Left-filling std::to_string with zeros gives the fixed-width field.
  lemma {:induction false} FilledText(n: nat, width: nat)
    requires n < Pow10(width) && width >= 1
    ensures |Text(n)| <= width && Zeros(width - |Text(n)|) + Text(n) == Pad(n, width)
  {
    if n < 10 {
      FilledDigit(n, width);
    } else {
      assert width > 1 by { Pow10Table(); }
      FilledText(n / 10, width - 1);
      OneMoreDigit(n, width);
    }
  }

  lemma {:induction false} FilledDigit(n: nat, width: nat)
    requires n < 10 && width >= 1
    ensures Zeros(width - 1) + [Digit(n)] == Pad(n, width)
  {
    if width == 1 {
      assert Pad(n, 1) == Pad(n / 10, 0) + [Digit(n % 10)];
    } else {
      FilledDigit(0, width - 1);
      ZerosAppend(width - 2);
      assert Digit(0) == '0';
      assert n / 10 == 0 && n % 10 == n;
    }
  }

  lemma OneMoreDigit(n: nat, width: nat)
    requires n >= 10 && width > 1 && |Text(n / 10)| <= width - 1
    requires Zeros(width - 1 - |Text(n / 10)|) + Text(n / 10) == Pad(n / 10, width - 1)
    ensures |Text(n)| <= width && Zeros(width - |Text(n)|) + Text(n) == Pad(n, width)
  {
    hide Zeros, Digit;
    var z := width - |Text(n)|;
    assert Text(n) == Text(n / 10) + [Digit(n % 10)];
    assert Pad(n, width) == Pad(n / 10, width - 1) + [Digit(n % 10)];
    assert Zeros(z) + Text(n) == (Zeros(z) + Text(n / 10)) + [Digit(n % 10)];
  }

  lemma {:induction false} ZerosAppend(n: nat)
    ensures Zeros(n) + ['0'] == Zeros(n + 1)
  {
    if n > 0 {
      ZerosAppend(n - 1);
      assert Zeros(n) + ['0'] == ['0'] + (Zeros(n - 1) + ['0']);
    }
  }

  // ---- Lexicographic order ----

  predicate LexLess(a: string, b: string) {
    if b == "" then false
    else if a == "" then true
    else a[0] < b[0] || (a[0] == b[0] && LexLess(a[1..], b[1..]))
  }

  lemma {:induction false} LexIrreflexive(a: string)
    ensures !LexLess(a, a)
  {
    if a != "" {
      LexIrreflexive(a[1..]);
    }
  }

  // Strings that agree in the length of a first part compare by that part first.
  lemma {:induction false} LexConcat(a: string, b: string, x: string, y: string)
    requires |a| == |b|
    ensures LexLess(a + x, b + y) <==> LexLess(a, b) || (a == b && LexLess(x, y))
  {
    if a == "" {
      assert a + x == x && b + y == y;
    } else {
      assert (a + x)[1..] == a[1..] + x && (b + y)[1..] == b[1..] + y;
      LexConcat(a[1..], b[1..], x, y);
      assert a == [a[0]] + a[1..] && b == [b[0]] + b[1..];
    }
  }

  // Zero-padded fields of one width order as their numbers do.
  lemma {:induction false} LexPad(m: nat, n: nat, width: nat)
    requires m < Pow10(width) && n < Pow10(width)
    ensures LexLess(Pad(m, width), Pad(n, width)) <==> m < n
    ensures Pad(m, width) == Pad(n, width) <==> m == n
  {
    ValuePad(m, width);
    ValuePad(n, width);
    if width > 0 {
      LexPad(m / 10, n / 10, width - 1);
      LexConcat(Pad(m / 10, width - 1), Pad(n / 10, width - 1), [Digit(m % 10)], [Digit(n % 10)]);
    }
  }
}

/** Latency percentiles: linear interpolation between order statistics, rounded to a whole microsecond.
    The fraction p and the interpolated value are exact reals. */
module Percentile {

  predicate Ascending(s: seq<int>) {
    forall i, j :: 0 <= i < j < |s| ==> s[i] <= s[j]
  }

  function Insert(s: seq<int>, x: int): seq<int> {
    if s == [] || x <= s[0] then [x] + s else [s[0]] + Insert(s[1..], x)
  }

  // std::sort.
  function Sort(s: seq<int>): seq<int> {
    if s == [] then [] else Insert(Sort(s[1..]), s[0])
  }

  // std::llround: to nearest, halves away from zero.
  function Round(x: real): int {
    if x >= 0.0 then (x + 0.5).Floor else -(0.5 - x).Floor
  }

  function Ceiling(x: real): int {
    -(-x).Floor
  }

  // The value at a fractional index of a sorted sample.
  function ValueAt(sorted: seq<int>, position: real): int
    requires 0.0 <= position <= (|sorted| - 1) as real
  {
    var lower, upper := position.Floor, Ceiling(position);
    if lower == upper then sorted[lower]
    else Round(sorted[lower] as real + (position - lower as real) * (sorted[upper] - sorted[lower]) as real)
  }

  function Position(p: real, n: nat): (position: real)
    requires 0.0 <= p <= 1.0 && n >= 1
    ensures 0.0 <= position <= (n - 1) as real
  {
    ScaledWithin(p, (n - 1) as real);
    p * (n - 1) as real
  }

  lemma ScaledWithin(p: real, m: real)
    requires 0.0 <= p <= 1.0 && 0.0 <= m
    ensures 0.0 <= p * m <= m
  {
  }

  function Percentile(values: seq<int>, p: real): int
    requires 0.0 <= p <= 1.0
  {
    if values == [] then 0
    else
      SortPermutes(values);
      ValueAt(Sort(values), Position(p, |values|))
  }

  // ---- Sorting ----

  lemma {:induction false} InsertSorts(s: seq<int>, x: int)
    requires Ascending(s)
    ensures Ascending(Insert(s, x)) && |Insert(s, x)| == |s| + 1
  {
    if s != [] && x > s[0] {
      InsertSorts(s[1..], x);
      InsertAtLeast(s[1..], x, s[0]);
    }
  }

  lemma {:induction false} InsertAtLeast(s: seq<int>, x: int, low: int)
    requires low <= x && forall i :: 0 <= i < |s| ==> low <= s[i]
    ensures forall i :: 0 <= i < |Insert(s, x)| ==> low <= Insert(s, x)[i]
  {
    if s != [] && x > s[0] {
      InsertAtLeast(s[1..], x, low);
    }
  }

  lemma {:induction false} InsertPermutes(s: seq<int>, x: int)
    ensures multiset(Insert(s, x)) == multiset(s) + multiset{x}
  {
    if s != [] && x > s[0] {
      InsertPermutes(s[1..], x);
      assert s == [s[0]] + s[1..];
    }
  }

  lemma {:induction false} SortPermutes(s: seq<int>)
    ensures Ascending(Sort(s)) && multiset(Sort(s)) == multiset(s) && |Sort(s)| == |s|
  {
    if s != [] {
      SortPermutes(s[1..]);
      InsertSorts(Sort(s[1..]), s[0]);
      InsertPermutes(Sort(s[1..]), s[0]);
      assert s == [s[0]] + s[1..];
    }
  }

  // A multiset has one ascending arrangement.
  lemma {:induction false} AscendingUnique(s: seq<int>, t: seq<int>)
    requires Ascending(s) && Ascending(t) && multiset(s) == multiset(t)
    ensures s == t
  {
    if s == [] {
      assert |multiset(t)| == |t|;
    } else {
      SameHead(s, t);
      AscendingUnique(s[1..], t[1..]);
      assert s == [s[0]] + s[1..];
      assert t == [t[0]] + t[1..];
    }
  }

  lemma SameHead(s: seq<int>, t: seq<int>)
    requires Ascending(s) && Ascending(t) && multiset(s) == multiset(t) && s != []
    ensures t != [] && s[0] == t[0] && multiset(s[1..]) == multiset(t[1..])
  {
    RestOf(s);
    assert t != [] by {
      assert s[0] in multiset(t);
    }
    RestOf(t);
    FirstIsLeast(s, t[0]);
    FirstIsLeast(t, s[0]);
  }

  lemma FirstIsLeast(s: seq<int>, x: int)
    requires Ascending(s) && x in multiset(s)
    ensures s[0] <= x
  {
  }

  lemma RestOf(s: seq<int>)
    requires s != []
    ensures s == [s[0]] + s[1..] && multiset(s[1..]) == multiset(s) - multiset{s[0]} && s[0] in multiset(s)
  {
    assert s == [s[0]] + s[1..];
  }

  // ---- Interpolation ----

  // The interpolated value before rounding. At a whole index it is the order statistic itself.
  function Blend(sorted: seq<int>, position: real): real
    requires 0.0 <= position <= (|sorted| - 1) as real
  {
    var lower, upper := position.Floor, Ceiling(position);
    sorted[lower] as real + (position - lower as real) * (sorted[upper] - sorted[lower]) as real
  }

  lemma ValueIsRoundedBlend(sorted: seq<int>, position: real)
    requires 0.0 <= position <= (|sorted| - 1) as real
    ensures ValueAt(sorted, position) == Round(Blend(sorted, position))
  {
    var lower, upper := position.Floor, Ceiling(position);
    if lower == upper {
      assert Blend(sorted, position) == sorted[lower] as real;
    }
  }

  lemma RoundMonotone(x: real, y: real)
    requires x <= y
    ensures Round(x) <= Round(y)
  {
  }

  lemma RoundWhole(n: int)
    ensures Round(n as real) == n
  {
  }

  lemma BlendBetween(sorted: seq<int>, position: real)
    requires Ascending(sorted) && 0.0 <= position <= (|sorted| - 1) as real
    ensures sorted[position.Floor] as real <= Blend(sorted, position) <= sorted[Ceiling(position)] as real
  {
    var lower, upper := position.Floor, Ceiling(position);
    var f, d := position - lower as real, (sorted[upper] - sorted[lower]) as real;
    assert sorted[lower] <= sorted[upper];
    assert sorted[upper] as real == sorted[lower] as real + d;
    assert 0.0 <= f <= 1.0;
    ScaledWithin(f, d);
    assert Blend(sorted, position) == sorted[lower] as real + f * d;
  }

  lemma ProductMonotone(x: real, y: real, d: real)
    requires x <= y && 0.0 <= d
    ensures x * d <= y * d
  {
  }

  lemma BlendMonotone(sorted: seq<int>, x: real, y: real)
    requires Ascending(sorted) && 0.0 <= x <= y <= (|sorted| - 1) as real
    ensures Blend(sorted, x) <= Blend(sorted, y)
  {
    BlendBetween(sorted, x);
    BlendBetween(sorted, y);
    if Ceiling(x) <= y.Floor {
      assert sorted[Ceiling(x)] <= sorted[y.Floor];
    } else {
      assert x.Floor == y.Floor;
      SameCell(sorted, x, y);
    }
  }

  // Between two neighbouring indices the interpolation is a line that does not fall.
  lemma SameCell(sorted: seq<int>, x: real, y: real)
    requires Ascending(sorted) && 0.0 <= x <= y <= (|sorted| - 1) as real && x.Floor == y.Floor < Ceiling(y)
    ensures Blend(sorted, x) <= Blend(sorted, y)
  {
    var lower := x.Floor;
    if x == lower as real {
      BlendBetween(sorted, y);
      assert Blend(sorted, x) == sorted[lower] as real;
    } else {
      assert Ceiling(x) == Ceiling(y) == lower + 1;
      var rise := (sorted[lower + 1] - sorted[lower]) as real;
      assert sorted[lower] <= sorted[lower + 1];
      assert Blend(sorted, x) == sorted[lower] as real + (x - lower as real) * rise;
      assert Blend(sorted, y) == sorted[lower] as real + (y - lower as real) * rise;
      ProductMonotone(x - lower as real, y - lower as real, rise);
    }
  }

  // ---- Main results ----

  // The order in which samples were recorded does not matter.
  lemma OrderIndependent(a: seq<int>, b: seq<int>, p: real)
    requires multiset(a) == multiset(b) && 0.0 <= p <= 1.0
    ensures Percentile(a, p) == Percentile(b, p)
  {
    SortPermutes(a);
    SortPermutes(b);
    AscendingUnique(Sort(a), Sort(b));
  }

  // At p = k / (n - 1) the percentile is the k-th order statistic.
  lemma OrderStatistic(values: seq<int>, k: nat, p: real)
    requires k < |values| && 0.0 <= p <= 1.0 && p * (|values| - 1) as real == k as real
    ensures |Sort(values)| == |values| && Percentile(values, p) == Sort(values)[k]
  {
    SortPermutes(values);
  }

  // After rounding the percentile still lies between its two neighbouring order statistics.
  lemma BetweenNeighbours(values: seq<int>, p: real)
    requires values != [] && 0.0 <= p <= 1.0
    ensures var position, sorted := Position(p, |values|), Sort(values);
            && |sorted| == |values|
            && sorted[position.Floor] <= Percentile(values, p) <= sorted[Ceiling(position)]
  {
    SortPermutes(values);
    var position, sorted := Position(p, |values|), Sort(values);
    ValueIsRoundedBlend(sorted, position);
    BlendBetween(sorted, position);
    RoundMonotone(sorted[position.Floor] as real, Blend(sorted, position));
    RoundMonotone(Blend(sorted, position), sorted[Ceiling(position)] as real);
    RoundWhole(sorted[position.Floor]);
    RoundWhole(sorted[Ceiling(position)]);
  }

  // The nearest whole number, and of two the one farther from zero.
  predicate Nearest(n: int, x: real) {
    && -0.5 <= n as real - x <= 0.5
    && (n as real - x == 0.5 ==> x > 0.0)
    && (n as real - x == -0.5 ==> x < 0.0)
  }

  lemma RoundNearest(x: real)
    ensures Nearest(Round(x), x)
  {
  }

  // Between two order statistics the percentile is the whole number nearest to the point on the line between them;
  // of no samples it is zero.
  lemma LinearBetween(values: seq<int>, p: real, k: nat, x: real)
    requires 0.0 <= p <= 1.0 && k + 1 < |values|
    requires x == p * (|values| - 1) as real && k as real <= x <= (k + 1) as real
    ensures |Sort(values)| == |values|
    ensures Nearest(Percentile(values, p),
                    Sort(values)[k] as real + (x - k as real) * (Sort(values)[k + 1] - Sort(values)[k]) as real)
    ensures Percentile([], p) == 0
  {
    hide Nearest, ValueAt, Blend, Sort, Round;
    SortPermutes(values);
    var sorted := Sort(values);
    assert x == Position(p, |values|);
    ValueIsRoundedBlend(sorted, x);
    BlendOnTheLine(sorted, x, k);
    RoundNearest(Blend(sorted, x));
    assert Percentile(values, p) == ValueAt(sorted, x);
    assert Percentile(values, p) == Round(Blend(sorted, x));
    assert Nearest(Percentile(values, p), Blend(sorted, x));
    assert Sort(values)[k] as real + (x - k as real) * (Sort(values)[k + 1] - Sort(values)[k]) as real
           == Blend(sorted, x);
  }

  lemma BlendOnTheLine(sorted: seq<int>, x: real, k: nat)
    requires k + 1 < |sorted| && k as real <= x <= (k + 1) as real
    ensures Blend(sorted, x) == sorted[k] as real + (x - k as real) * (sorted[k + 1] - sorted[k]) as real
  {
    if x == (k + 1) as real {
      assert x.Floor == k + 1;
      Vanishes(x - x.Floor as real, (sorted[k + 1] - sorted[k + 1]) as real);
    } else if x == k as real {
      Vanishes(x - k as real, (sorted[k + 1] - sorted[k]) as real);
    } else {
      assert x.Floor == k;
    }
  }

  lemma Vanishes(x: real, y: real)
    requires x == 0.0
    ensures x * y == 0.0
  {
  }

  lemma PositionMonotone(p: real, q: real, n: nat)
    requires 0.0 <= p <= q <= 1.0 && n >= 1
    ensures Position(p, n) <= Position(q, n)
  {
    ProductMonotone(p, q, (n - 1) as real);
  }

  lemma PercentileMonotone(values: seq<int>, p: real, q: real)
    requires 0.0 <= p <= q <= 1.0
    ensures Percentile(values, p) <= Percentile(values, q)
  {
    if values != [] {
      SortPermutes(values);
      var sorted, x, y := Sort(values), Position(p, |values|), Position(q, |values|);
      PositionMonotone(p, q, |values|);
      BlendMonotone(sorted, x, y);
      RoundMonotone(Blend(sorted, x), Blend(sorted, y));
      ValueIsRoundedBlend(sorted, x);
      ValueIsRoundedBlend(sorted, y);
    }
  }

  // The figures of one printed latency line are in order: min <= p50 <= p95 <= p99 <= max.
  lemma PrintedLineOrdered(values: seq<int>, min: int, max: int)
    requires min in values && forall v :: v in values ==> min <= v
    requires max in values && forall v :: v in values ==> v <= max
    ensures min <= Percentile(values, 0.50) <= Percentile(values, 0.95) <= Percentile(values, 0.99) <= max
  {
    PercentileMonotone(values, 0.50, 0.95);
    PercentileMonotone(values, 0.95, 0.99);
    Within(values, 0.50, min, max);
    Within(values, 0.99, min, max);
  }

  lemma Within(values: seq<int>, p: real, min: int, max: int)
    requires values != [] && 0.0 <= p <= 1.0 && forall v :: v in values ==> min <= v <= max
    ensures min <= Percentile(values, p) <= max
  {
    BetweenNeighbours(values, p);
    SortPermutes(values);
    var position, sorted := Position(p, |values|), Sort(values);
    InSample(values, position.Floor);
    InSample(values, Ceiling(position));
  }

  lemma InSample(values: seq<int>, i: nat)
    requires i < |Sort(values)|
    ensures Sort(values)[i] in values
  {
    SortPermutes(values);
    assert Sort(values)[i] in multiset(Sort(values));
  }
}

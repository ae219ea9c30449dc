/** The two-sided order book. Prices are exact reals; volumes are 64-bit counts. */
module OrderBook {
  import opened Common

  datatype Level = Level(price: real, volume: Volume)

  // ---- One side: a std::map held as its entries in iteration order ----

  // Bids iterate from the highest price, asks from the lowest.
  datatype Direction = Descending | Ascending

  predicate Before(d: Direction, a: real, b: real) {
    if d.Ascending? then a < b else b < a
  }

  predicate Sorted(d: Direction, side: seq<Level>) {
    forall i, j :: 0 <= i < j < |side| ==> Before(d, side[i].price, side[j].price)
  }

  predicate Positive(side: seq<Level>) {
    forall i :: 0 <= i < |side| ==> side[i].price > 0.0 && side[i].volume > 0
  }

  // The side as a plain price-to-volume map.
  function Plain(side: seq<Level>): map<real, Volume> {
    if side == [] then map[] else Plain(side[1..])[side[0].price := side[0].volume]
  }

  // std::map::operator[] followed by assignment.
  function Put(d: Direction, side: seq<Level>, price: real, volume: Volume): seq<Level> {
    if side == [] || Before(d, price, side[0].price) then [Level(price, volume)] + side
    else if side[0].price == price then [Level(price, volume)] + side[1..]
    else [side[0]] + Put(d, side[1..], price, volume)
  }

  // std::map::erase by key.
  function Erase(side: seq<Level>, price: real): seq<Level> {
    if side == [] then []
    else if side[0].price == price then side[1..]
    else [side[0]] + Erase(side[1..], price)
  }

  function SumVolumes(side: seq<Level>): nat {
    if side == [] then 0 else SumVolumes(side[..|side| - 1]) + side[|side| - 1].volume
  }

  // ---- Reference: a book is a pair of price-to-volume maps ----

  datatype MapBook = MapBook(bids: map<real, Volume>, asks: map<real, Volume>)

  datatype Op =
    | SetBid(price: real, volume: Volume)
    | SetAsk(price: real, volume: Volume)
    | ReplaceBids(levels: map<real, Volume>)
    | ReplaceAsks(levels: map<real, Volume>)
    | Clear

  // The outcome of a mutation: the side it leaves, and whether it threw.
  function SetLevel(side: map<real, Volume>, price: real, volume: Volume): (map<real, Volume>, bool) {
    if price <= 0.0 then (side, true)
    else if volume == 0 then (side - {price}, false)
    else (side[price := volume], false)
  }

  function NonZero(m: map<real, Volume>): map<real, Volume> {
    map p | p in m && m[p] != 0 :: m[p]
  }

  function Replaced(levels: map<real, Volume>): (map<real, Volume>, bool) {
    if exists p <- levels.Keys :: p <= 0.0 then (map[], true)
    else (NonZero(levels), false)
  }

  function Apply(b: MapBook, op: Op): (MapBook, bool) {
    match op
    case SetBid(p, v) => var (side, threw) := SetLevel(b.bids, p, v); (b.(bids := side), threw)
    case SetAsk(p, v) => var (side, threw) := SetLevel(b.asks, p, v); (b.(asks := side), threw)
    case ReplaceBids(levels) => var (side, threw) := Replaced(levels); (b.(bids := side), threw)
    case ReplaceAsks(levels) => var (side, threw) := Replaced(levels); (b.(asks := side), threw)
    case Clear => (MapBook(map[], map[]), false)
  }

  function Run(b: MapBook, ops: seq<Op>): MapBook
    decreases |ops|
  {
    if ops == [] then b else Run(Apply(b, ops[0]).0, ops[1..])
  }

  predicate PositiveMap(m: map<real, Volume>) {
    forall p :: p in m ==> p > 0.0 && m[p] > 0
  }

  // ---- Facts about sides ----

  lemma {:induction false} PlainKeys(side: seq<Level>)
    ensures forall p :: p in Plain(side) <==> exists i :: 0 <= i < |side| && side[i].price == p
  {
    if side != [] {
      PlainKeys(side[1..]);
      forall p
        ensures p in Plain(side) <==> exists i :: 0 <= i < |side| && side[i].price == p
      {
        if i :| 0 <= i < |side| && side[i].price == p {
          if i > 0 {
            assert side[1..][i - 1].price == p;
          }
        }
      }
    }
  }

  lemma {:induction false} PlainAt(d: Direction, side: seq<Level>, i: nat)
    requires Sorted(d, side) && i < |side|
    ensures side[i].price in Plain(side) && Plain(side)[side[i].price] == side[i].volume
  {
    if i > 0 {
      PlainAt(d, side[1..], i - 1);
      assert side[0].price != side[i].price;
    }
  }

  lemma {:induction false} PutSorted(d: Direction, side: seq<Level>, price: real, volume: Volume)
    requires Sorted(d, side)
    ensures Sorted(d, Put(d, side, price, volume))
    ensures Plain(Put(d, side, price, volume)) == Plain(side)[price := volume]
    ensures forall i :: 0 <= i < |Put(d, side, price, volume)| ==>
              Put(d, side, price, volume)[i] == Level(price, volume) || Put(d, side, price, volume)[i] in side
  {
    PutPlain(d, side, price, volume);
    PutMembers(d, side, price, volume);
    if side == [] || !Before(d, side[0].price, price) {
    } else {
      PutSorted(d, side[1..], price, volume);
      assert Put(d, side, price, volume)[1..] == Put(d, side[1..], price, volume);
      PutMembers(d, side[1..], price, volume);
    }
  }

  lemma {:induction false} PutPlain(d: Direction, side: seq<Level>, price: real, volume: Volume)
    ensures Sorted(d, side) ==> Plain(Put(d, side, price, volume)) == Plain(side)[price := volume]
  {
    var s := Put(d, side, price, volume);
    if side == [] || Before(d, price, side[0].price) {
      assert s[1..] == side;
    } else if side[0].price == price {
      assert s[1..] == side[1..];
    } else {
      PutPlain(d, side[1..], price, volume);
      assert s[1..] == Put(d, side[1..], price, volume);
    }
  }

  lemma {:induction false} PutMembers(d: Direction, side: seq<Level>, price: real, volume: Volume)
    ensures forall l :: l in Put(d, side, price, volume) ==> l == Level(price, volume) || l in side
  {
    if side != [] && !Before(d, price, side[0].price) && side[0].price != price {
      PutMembers(d, side[1..], price, volume);
    }
  }

  lemma {:induction false} EraseSorted(d: Direction, side: seq<Level>, price: real)
    requires Sorted(d, side)
    ensures Sorted(d, Erase(side, price))
    ensures Plain(Erase(side, price)) == Plain(side) - {price}
    ensures forall i :: 0 <= i < |Erase(side, price)| ==> Erase(side, price)[i] in side
  {
    if side != [] {
      if side[0].price == price {
        PlainTail(d, side);
      } else {
        EraseSorted(d, side[1..], price);
        assert Erase(side, price)[1..] == Erase(side[1..], price);
      }
    }
  }

  lemma {:induction false} PlainAppend(side: seq<Level>, l: Level)
    requires l.price !in Plain(side)
    ensures Plain(side + [l]) == Plain(side)[l.price := l.volume]
  {
    if side == [] {
      assert side + [l] == [l];
      assert Plain([l]) == map[l.price := l.volume];
    } else {
      assert (side + [l])[1..] == side[1..] + [l];
      PlainAppend(side[1..], l);
    }
  }

  lemma FirstIsBest(d: Direction, side: seq<Level>)
    requires Sorted(d, side)
    ensures side == [] <==> Plain(side) == map[]
    ensures side != [] ==> side[0].price in Plain(side)
    ensures side != [] ==> forall p :: p in Plain(side) ==> p == side[0].price || Before(d, side[0].price, p)
  {
    PlainKeys(side);
    if side != [] {
      assert side[0].price in Plain(side);
    }
  }

  // A map has one sorted side only, so everything computed from the side is determined by the map.
  lemma {:induction false} SideDetermined(d: Direction, s: seq<Level>, t: seq<Level>)
    requires Sorted(d, s) && Sorted(d, t) && Plain(s) == Plain(t)
    ensures s == t
  {
    FirstIsBest(d, s);
    FirstIsBest(d, t);
    if s != [] {
      assert s[0] == t[0] by {
        PlainAt(d, s, 0);
        PlainAt(d, t, 0);
      }
      PlainTail(d, s);
      PlainTail(d, t);
      SideDetermined(d, s[1..], t[1..]);
    }
  }

  lemma PlainTail(d: Direction, side: seq<Level>)
    requires Sorted(d, side) && side != []
    ensures Plain(side[1..]) == Plain(side) - {side[0].price}
  {
    PlainKeys(side[1..]);
  }

  lemma {:induction false} PlainPositive(d: Direction, side: seq<Level>)
    requires Sorted(d, side)
    ensures Positive(side) <==> PositiveMap(Plain(side))
  {
    PlainKeys(side);
    forall i | 0 <= i < |side|
      ensures side[i].price in Plain(side) && Plain(side)[side[i].price] == side[i].volume
    {
      PlainAt(d, side, i);
    }
  }

  // ---- The book ----

  class OrderBook {
    const symbol: string
    var bids: seq<Level>
    var asks: seq<Level>

    ghost predicate Valid()
      reads this
    {
      && Sorted(Descending, bids) && Positive(bids)
      && Sorted(Ascending, asks) && Positive(asks)
    }

    ghost function Maps(): MapBook
      reads this
    {
      MapBook(Plain(bids), Plain(asks))
    }

    constructor (symbol: string)
      ensures Valid() && Maps() == MapBook(map[], map[]) && this.symbol == symbol
      ensures bids == [] && asks == []
    {
      this.symbol := symbol;
      bids, asks := [], [];
    }

    method SetBid(price: real, volume: Volume) returns (threw: bool)
      requires Valid()
      modifies this`bids
      ensures Valid() && (Maps(), threw) == Apply(old(Maps()), Op.SetBid(price, volume))
      ensures price > 0.0 && volume > 0 ==> bids == Put(Descending, old(bids), price, volume)
    {
      if price <= 0.0 {
        return true;
      }
      PutSorted(Descending, bids, price, volume);
      EraseSorted(Descending, bids, price);
      if volume == 0 {
        bids := Erase(bids, price);
      } else {
        bids := Put(Descending, bids, price, volume);
      }
      return false;
    }

    method SetAsk(price: real, volume: Volume) returns (threw: bool)
      requires Valid()
      modifies this`asks
      ensures Valid() && (Maps(), threw) == Apply(old(Maps()), Op.SetAsk(price, volume))
      ensures price > 0.0 && volume > 0 ==> asks == Put(Ascending, old(asks), price, volume)
    {
      if price <= 0.0 {
        return true;
      }
      PutSorted(Ascending, asks, price, volume);
      EraseSorted(Ascending, asks, price);
      if volume == 0 {
        asks := Erase(asks, price);
      } else {
        asks := Put(Ascending, asks, price, volume);
      }
      return false;
    }

    // The argument is a std::map with the default order, so its levels arrive from the lowest price. A
    // non-positive price is therefore met first, when the side has just been emptied.
    method ReplaceBids(levels: seq<Level>) returns (threw: bool)
      requires Valid() && Sorted(Ascending, levels)
      modifies this`bids
      ensures Valid() && (Maps(), threw) == Apply(old(Maps()), Op.ReplaceBids(Plain(levels)))
    {
      bids := [];
      for i := 0 to |levels|
        invariant Valid() && asks == old(asks)
        invariant i > 0 ==> levels[0].price > 0.0
        invariant Plain(bids) == NonZero(Plain(levels[..i]))
      {
        NextLevel(levels, i);
        threw := SetBid(levels[i].price, levels[i].volume);
        if threw {
          NonPositiveFirst(levels, i);
          return true;
        }
      }
      AllLevels(levels);
      return false;
    }

    method ReplaceAsks(levels: seq<Level>) returns (threw: bool)
      requires Valid() && Sorted(Ascending, levels)
      modifies this`asks
      ensures Valid() && (Maps(), threw) == Apply(old(Maps()), Op.ReplaceAsks(Plain(levels)))
    {
      asks := [];
      for i := 0 to |levels|
        invariant Valid() && bids == old(bids)
        invariant i > 0 ==> levels[0].price > 0.0
        invariant Plain(asks) == NonZero(Plain(levels[..i]))
      {
        NextLevel(levels, i);
        threw := SetAsk(levels[i].price, levels[i].volume);
        if threw {
          NonPositiveFirst(levels, i);
          return true;
        }
      }
      AllLevels(levels);
      return false;
    }

    method ClearBook()
      modifies this
      ensures Valid() && Maps() == Apply(old(Maps()), Clear).0 && bids == [] && asks == []
    {
      bids, asks := [], [];
    }

    // The first bid is the greatest key of the bid map.
    function BestBid(): (best: Option<real>)
      requires Valid()
      reads this
      ensures best.None? <==> Maps().bids == map[]
      ensures best.Some? ==> best.value in Maps().bids && forall p :: p in Maps().bids ==> p <= best.value
    {
      FirstIsBest(Descending, bids);
      if bids == [] then None else Some(bids[0].price)
    }

    // The first ask is the least key of the ask map.
    function BestAsk(): (best: Option<real>)
      requires Valid()
      reads this
      ensures best.None? <==> Maps().asks == map[]
      ensures best.Some? ==> best.value in Maps().asks && forall p :: p in Maps().asks ==> best.value <= p
    {
      FirstIsBest(Ascending, asks);
      if asks == [] then None else Some(asks[0].price)
    }

    method TotalBidVolume() returns (total: Volume)
      ensures total == Wrapped(SumVolumes(bids))
    {
      total := Total(bids);
    }

    method TotalAskVolume() returns (total: Volume)
      ensures total == Wrapped(SumVolumes(asks))
    {
      total := Total(asks);
    }

    method Imbalance() returns (r: real)
      ensures r == Ratio(Wrapped(SumVolumes(bids)), Wrapped(SumVolumes(asks)))
    {
      var bidVolume := TotalBidVolume();
      var askVolume := TotalAskVolume();
      r := Ratio(bidVolume, askVolume);
    }
  }

  // Taking in one more level of a sorted replacement.
  lemma NextLevel(levels: seq<Level>, i: nat)
    requires Sorted(Ascending, levels) && i < |levels|
    ensures var m, l := Plain(levels[..i]), levels[i];
            && l.price !in m
            && (levels[0].price > 0.0 ==> l.price > 0.0)
            && NonZero(Plain(levels[..i + 1])) ==
               (if l.volume == 0 then NonZero(m) - {l.price} else NonZero(m)[l.price := l.volume])
  {
    PlainKeys(levels[..i]);
    assert levels[..i + 1] == levels[..i] + [levels[i]];
    PlainAppend(levels[..i], levels[i]);
  }

  lemma NonPositiveFirst(levels: seq<Level>, i: nat)
    requires Sorted(Ascending, levels) && i < |levels| && levels[i].price <= 0.0
    ensures Replaced(Plain(levels)) == (map[], true)
  {
    PlainAt(Ascending, levels, i);
  }

  lemma AllLevels(levels: seq<Level>)
    requires Sorted(Ascending, levels) && (levels != [] ==> levels[0].price > 0.0)
    ensures Replaced(Plain(levels)) == (NonZero(Plain(levels[..|levels|])), false)
  {
    assert levels[..|levels|] == levels;
    FirstIsBest(Ascending, levels);
  }

  // 64-bit addition wraps around.
  function Wrapped(n: nat): Volume {
    n % 0x1_0000_0000_0000_0000
  }

  method Total(side: seq<Level>) returns (total: Volume)
    ensures total == Wrapped(SumVolumes(side))
  {
    total := 0;
    for i := 0 to |side|
      invariant total == Wrapped(SumVolumes(side[..i]))
    {
      assert side[..i + 1][..i] == side[..i];
      total := (total + side[i].volume) % 0x1_0000_0000_0000_0000;
    }
    assert side[..|side|] == side;
  }

  function Ratio(bidVolume: Volume, askVolume: Volume): real {
    if bidVolume + askVolume == 0 then 0.0
    else (bidVolume - askVolume) as real / (bidVolume + askVolume) as real
  }

  // ---- Main results ----

  // Imbalance stays between -1 and 1, is 1 or -1 exactly on a one-sided book, and 0 exactly when balanced.
  lemma RatioBounds(b: Volume, a: Volume)
    ensures -1.0 <= Ratio(b, a) <= 1.0
    ensures Ratio(b, a) == 0.0 <==> b == a
    ensures b < a <==> Ratio(b, a) < 0.0
    ensures Ratio(b, a) == -1.0 <==> b == 0 && a > 0
    ensures Ratio(b, a) == 1.0 <==> a == 0 && b > 0
  {
    if b + a > 0 {
      var n, t := (b - a) as real, (b + a) as real;
      var r := Ratio(b, a);
      assert r * t == n;
      QuotientSign(n, t, r);
    }
  }

  lemma QuotientSign(n: real, t: real, r: real)
    requires t > 0.0 && r * t == n && -t <= n <= t
    ensures -1.0 <= r <= 1.0
    ensures r == 0.0 <==> n == 0.0
    ensures r < 0.0 <==> n < 0.0
    ensures r == -1.0 <==> n == -t
    ensures r == 1.0 <==> n == t
  {
    if r > 1.0 {
      assert (r - 1.0) * t > 0.0;
    }
    if r < -1.0 {
      assert (-1.0 - r) * t > 0.0;
    }
    ZeroFactor(r - 1.0, t);
    ZeroFactor(r + 1.0, t);
  }

  lemma ZeroFactor(x: real, t: real)
    requires t > 0.0
    ensures x * t == 0.0 <==> x == 0.0
  {
  }

  // However a book is mutated, rejected calls included, what it holds is positive.
  lemma {:induction false} RunPositive(b: MapBook, ops: seq<Op>)
    requires PositiveMap(b.bids) && PositiveMap(b.asks)
    ensures PositiveMap(Run(b, ops).bids) && PositiveMap(Run(b, ops).asks)
    decreases |ops|
  {
    if ops != [] {
      ApplyPositive(b, ops[0]);
      RunPositive(Apply(b, ops[0]).0, ops[1..]);
    }
  }

  lemma ApplyPositive(b: MapBook, op: Op)
    requires PositiveMap(b.bids) && PositiveMap(b.asks)
    ensures PositiveMap(Apply(b, op).0.bids) && PositiveMap(Apply(b, op).0.asks)
  {
  }

  // What the ratio is, whatever way it is computed.
  lemma RatioIs(b: Volume, a: Volume)
    ensures Ratio(b, a) * (b + a) as real == (b - a) as real
    ensures b == 0 && a == 0 ==> Ratio(b, a) == 0.0
  {
    if b + a > 0 {
      var n, t := (b - a) as real, (b + a) as real;
      assert n / t * t == n;
    }
  }

  // The total is that of the parts, and what a 64-bit counter keeps of it.
  lemma {:induction false} SumOfParts(a: seq<Level>, b: seq<Level>)
    ensures SumVolumes(a + b) == SumVolumes(a) + SumVolumes(b)
    ensures |b| == 1 ==> SumVolumes(b) == b[0].volume
  {
    if b == [] {
      assert a + b == a;
    } else {
      var front := b[..|b| - 1];
      assert (a + b)[..|a + b| - 1] == a + front;
      SumOfParts(a, front);
    }
  }

  lemma WrappedIs(n: nat)
    ensures exists k: nat :: n == Wrapped(n) + k * 0x1_0000_0000_0000_0000
    ensures n < 0x1_0000_0000_0000_0000 ==> Wrapped(n) == n
  {
    assert n == Wrapped(n) + (n / 0x1_0000_0000_0000_0000) * 0x1_0000_0000_0000_0000;
  }

  // One call, price by price: what becomes of the level at p, and of the other side.
  lemma SetLevelAt(b: MapBook, price: real, volume: Volume, p: real)
    ensures var (after, threw) := Apply(b, SetBid(price, volume));
            && after.asks == b.asks && (threw <==> price <= 0.0)
            && (p in after.bids <==> if p == price && price > 0.0 then volume > 0 else p in b.bids)
            && (p in after.bids ==> after.bids[p] == if p == price && price > 0.0 then volume else b.bids[p])
    ensures var (after, threw) := Apply(b, SetAsk(price, volume));
            && after.bids == b.bids && (threw <==> price <= 0.0)
            && (p in after.asks <==> if p == price && price > 0.0 then volume > 0 else p in b.asks)
            && (p in after.asks ==> after.asks[p] == if p == price && price > 0.0 then volume else b.asks[p])
  {
  }

  lemma ReplaceAt(b: MapBook, levels: map<real, Volume>, p: real)
    ensures var (after, threw) := Apply(b, ReplaceBids(levels));
            && after.asks == b.asks && (threw <==> exists q :: q in levels && q <= 0.0)
            && (p in after.bids <==> !threw && p in levels && levels[p] > 0)
            && (p in after.bids ==> after.bids[p] == levels[p])
    ensures var (after, threw) := Apply(b, ReplaceAsks(levels));
            && after.bids == b.bids && (threw <==> exists q :: q in levels && q <= 0.0)
            && (p in after.asks <==> !threw && p in levels && levels[p] > 0)
            && (p in after.asks ==> after.asks[p] == levels[p])
  {
  }

  // ---- Corollary of the step function ----

  // A single-level call that throws leaves the book as it was; a replacement that throws leaves the side
  // it was called on empty and the other side alone.
  lemma RejectedCalls(b: MapBook, op: Op)
    requires Apply(b, op).1
    ensures op.SetBid? || op.SetAsk? ==> Apply(b, op).0 == b
    ensures op.ReplaceBids? ==> Apply(b, op).0 == b.(bids := map[])
    ensures op.ReplaceAsks? ==> Apply(b, op).0 == b.(asks := map[])
  {
  }
}

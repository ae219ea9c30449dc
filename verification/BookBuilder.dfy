/** The synthetic five-level book derived from a quote. */
module BookBuilder {
  import opened Common
  import opened OrderBook

  // ---- Reference: the levels a quote yields ----

  const LEVELS := 5

  function BidPrice(price: real, level: int): real {
    price - level as real * 0.01
  }

  function AskPrice(price: real, level: int): real {
    price + level as real * 0.01
  }

  function LevelVolume(volume: Volume, level: int): Volume
    requires level >= 1
  {
    volume / 10 / level
  }

  // The first n bid levels that survive the positivity guard, best first.
  function BidLevels(price: real, volume: Volume, n: nat): (side: seq<Level>)
    ensures |side| <= n
  {
    if n == 0 then []
    else if BidPrice(price, n) > 0.0 && LevelVolume(volume, n) > 0
      then BidLevels(price, volume, n - 1) + [Level(BidPrice(price, n), LevelVolume(volume, n))]
    else BidLevels(price, volume, n - 1)
  }

  function AskLevels(price: real, volume: Volume, n: nat): (side: seq<Level>)
    ensures |side| <= n
  {
    if n == 0 then []
    else if AskPrice(price, n) > 0.0 && LevelVolume(volume, n) > 0
      then AskLevels(price, volume, n - 1) + [Level(AskPrice(price, n), LevelVolume(volume, n))]
    else AskLevels(price, volume, n - 1)
  }

  // ---- The source's builder ----

  method PopulateBookFromQuote(book: OrderBook, price: real, volume: Volume)
    requires book.Valid()
    modifies book
    ensures book.Valid()
    ensures book.bids == BidLevels(price, volume, LEVELS) && book.asks == AskLevels(price, volume, LEVELS)
  {
    book.ClearBook();
    for level := 1 to 6
      invariant book.Valid() && book.asks == [] && book.bids == BidLevels(price, volume, level - 1)
    {
      var bidPrice := price - level as real * 0.01;
      var levelVolume := volume / 10 / level;
      if bidPrice > 0.0 && levelVolume > 0 {
        BidsAbove(price, volume, level - 1);
        PutLast(Descending, book.bids, bidPrice, levelVolume);
        var threw := book.SetBid(bidPrice, levelVolume);
      }
    }
    for level := 1 to 6
      invariant book.Valid() && book.bids == BidLevels(price, volume, LEVELS)
      invariant book.asks == AskLevels(price, volume, level - 1)
    {
      var askPrice := price + level as real * 0.01;
      var levelVolume := volume / 10 / level;
      if askPrice > 0.0 && levelVolume > 0 {
        AsksBelow(price, volume, level - 1);
        PutLast(Ascending, book.asks, askPrice, levelVolume);
        var threw := book.SetAsk(askPrice, levelVolume);
      }
    }
  }

  lemma {:induction false} PutLast(d: Direction, side: seq<Level>, price: real, volume: Volume)
    requires forall i :: 0 <= i < |side| ==> Before(d, side[i].price, price)
    ensures Put(d, side, price, volume) == side + [Level(price, volume)]
  {
    if side != [] {
      PutLast(d, side[1..], price, volume);
      assert side + [Level(price, volume)] == [side[0]] + (side[1..] + [Level(price, volume)]);
    }
  }

  lemma {:induction false} BidsAbove(price: real, volume: Volume, n: nat)
    ensures forall i :: 0 <= i < |BidLevels(price, volume, n)| ==>
              BidPrice(price, n) <= BidLevels(price, volume, n)[i].price < price
  {
    if n > 0 {
      BidsAbove(price, volume, n - 1);
    }
  }

  lemma {:induction false} AsksBelow(price: real, volume: Volume, n: nat)
    ensures forall i :: 0 <= i < |AskLevels(price, volume, n)| ==>
              price < AskLevels(price, volume, n)[i].price <= AskPrice(price, n)
  {
    if n > 0 {
      AsksBelow(price, volume, n - 1);
    }
  }

  // ---- Main results ----

  // The book holds exactly the levels with a positive price and a positive volume.
  lemma {:induction false} SurvivingBids(price: real, volume: Volume, n: nat, l: Level)
    ensures l in BidLevels(price, volume, n) <==>
            exists k :: 1 <= k <= n && l == Level(BidPrice(price, k), LevelVolume(volume, k))
              && l.price > 0.0 && l.volume > 0
  {
    if n > 0 {
      SurvivingBids(price, volume, n - 1, l);
    }
  }

  lemma {:induction false} SurvivingAsks(price: real, volume: Volume, n: nat, l: Level)
    ensures l in AskLevels(price, volume, n) <==>
            exists k :: 1 <= k <= n && l == Level(AskPrice(price, k), LevelVolume(volume, k))
              && l.price > 0.0 && l.volume > 0
  {
    if n > 0 {
      SurvivingAsks(price, volume, n - 1, l);
    }
  }

  // Every bid lies below the quoted price and every ask above it, so the book is never crossed.
  lemma Uncrossed(price: real, volume: Volume, bid: Level, ask: Level)
    requires bid in BidLevels(price, volume, LEVELS) && ask in AskLevels(price, volume, LEVELS)
    ensures bid.price < price < ask.price
  {
    BidsAbove(price, volume, LEVELS);
    AsksBelow(price, volume, LEVELS);
  }

  // A side never holds more than 137/600 of the quoted volume: V/10 * (1 + 1/2 + 1/3 + 1/4 + 1/5).
  lemma VolumeShare(price: real, volume: Volume)
    ensures 600 * SumVolumes(BidLevels(price, volume, LEVELS)) <= 137 * volume
    ensures 600 * SumVolumes(AskLevels(price, volume, LEVELS)) <= 137 * volume
  {
    BidShare(price, volume, LEVELS);
    AskShare(price, volume, LEVELS);
    FullVolumeFits(volume);
  }

  function FullVolume(volume: Volume, n: nat): nat {
    if n == 0 then 0 else FullVolume(volume, n - 1) + LevelVolume(volume, n)
  }

  lemma FullVolumeFits(volume: Volume)
    ensures var t := volume / 10; FullVolume(volume, LEVELS) == t + t / 2 + t / 3 + t / 4 + t / 5
    ensures 600 * FullVolume(volume, LEVELS) <= 137 * volume
    ensures FitsInt64(volume * 100_000_000) ==> FitsInt64(FullVolume(volume, LEVELS) * 100_000_000)
  {
    var t := volume / 10;
    assert FullVolume(volume, 1) == t;
    assert FullVolume(volume, 2) == t + t / 2;
    assert FullVolume(volume, 3) == t + t / 2 + t / 3;
    assert FullVolume(volume, 4) == t + t / 2 + t / 3 + t / 4;
    assert FullVolume(volume, 5) == t + t / 2 + t / 3 + t / 4 + t / 5;
    assert 60 * (t + t / 2 + t / 3 + t / 4 + t / 5) <= 137 * t;
  }

  // What one level adds to a side's volume.
  lemma BidStep(price: real, volume: Volume, n: nat)
    requires n > 0
    ensures SumVolumes(BidLevels(price, volume, n)) ==
            SumVolumes(BidLevels(price, volume, n - 1))
            + (if BidPrice(price, n) > 0.0 then LevelVolume(volume, n) else 0)
  {
    SumAppend(BidLevels(price, volume, n - 1), Level(BidPrice(price, n), LevelVolume(volume, n)));
  }

  lemma AskStep(price: real, volume: Volume, n: nat)
    requires n > 0
    ensures SumVolumes(AskLevels(price, volume, n)) ==
            SumVolumes(AskLevels(price, volume, n - 1))
            + (if AskPrice(price, n) > 0.0 then LevelVolume(volume, n) else 0)
  {
    SumAppend(AskLevels(price, volume, n - 1), Level(AskPrice(price, n), LevelVolume(volume, n)));
  }

  lemma {:induction false} BidShare(price: real, volume: Volume, n: nat)
    ensures SumVolumes(BidLevels(price, volume, n)) <= FullVolume(volume, n)
  {
    if n > 0 {
      BidShare(price, volume, n - 1);
      BidStep(price, volume, n);
    }
  }

  lemma {:induction false} AskShare(price: real, volume: Volume, n: nat)
    ensures SumVolumes(AskLevels(price, volume, n)) <= FullVolume(volume, n)
  {
    if n > 0 {
      AskShare(price, volume, n - 1);
      AskStep(price, volume, n);
    }
  }

  // Above a price of zero no ask is dropped.
  lemma {:induction false} FullAsks(price: real, volume: Volume, n: nat)
    requires price > 0.0
    ensures SumVolumes(AskLevels(price, volume, n)) == FullVolume(volume, n)
  {
    if n > 0 {
      FullAsks(price, volume, n - 1);
      AskStep(price, volume, n);
    }
  }

  lemma SumAppend(side: seq<Level>, l: Level)
    ensures SumVolumes(side + [l]) == SumVolumes(side) + l.volume
  {
    assert (side + [l])[..|side|] == side;
  }

  // Neither total wraps around, and a quote volume that fits the fixed-point decimal leaves totals that do.
  lemma TotalsFit(price: real, volume: Volume)
    ensures Wrapped(SumVolumes(BidLevels(price, volume, LEVELS))) == SumVolumes(BidLevels(price, volume, LEVELS))
    ensures Wrapped(SumVolumes(AskLevels(price, volume, LEVELS))) == SumVolumes(AskLevels(price, volume, LEVELS))
    ensures FitsInt64(volume * 100_000_000) ==>
              && FitsInt64(SumVolumes(BidLevels(price, volume, LEVELS)) * 100_000_000)
              && FitsInt64(SumVolumes(AskLevels(price, volume, LEVELS)) * 100_000_000)
  {
    hide BidLevels, AskLevels, SumVolumes;
    VolumeShare(price, volume);
  }

  // The guard dropped a bid level that the ask side kept.
  predicate DroppedBid(price: real, volume: Volume, level: int)
    requires level >= 1
  {
    LevelVolume(volume, level) > 0 && BidPrice(price, level) <= 0.0 < AskPrice(price, level)
  }

  ghost predicate KeptPairs(price: real, volume: Volume, n: nat) {
    forall k :: 1 <= k <= n ==> !DroppedBid(price, volume, k)
  }

  lemma {:induction false} SideSums(price: real, volume: Volume, n: nat)
    ensures SumVolumes(BidLevels(price, volume, n)) <= SumVolumes(AskLevels(price, volume, n))
    ensures SumVolumes(BidLevels(price, volume, n)) == SumVolumes(AskLevels(price, volume, n))
            <==> KeptPairs(price, volume, n)
  {
    if n > 0 {
      SideSums(price, volume, n - 1);
      PairStep(price, volume, n);
      KeptStep(price, volume, n);
    }
  }

  lemma KeptStep(price: real, volume: Volume, n: nat)
    requires n > 0
    ensures KeptPairs(price, volume, n) <==> KeptPairs(price, volume, n - 1) && !DroppedBid(price, volume, n)
  {
  }

  lemma PairStep(price: real, volume: Volume, n: nat)
    requires n > 0
    ensures var b := SumVolumes(BidLevels(price, volume, n)) - SumVolumes(BidLevels(price, volume, n - 1));
            var a := SumVolumes(AskLevels(price, volume, n)) - SumVolumes(AskLevels(price, volume, n - 1));
            b <= a && (b == a <==> !DroppedBid(price, volume, n))
  {
    BidStep(price, volume, n);
    AskStep(price, volume, n);
    BidBelowAsk(price, n);
  }

  lemma BidBelowAsk(price: real, n: nat)
    requires n > 0
    ensures BidPrice(price, n) < price < AskPrice(price, n)
  {
  }

  // The imbalance of a derived book lies in [-1, 0] and is 0 exactly when the guard dropped no bid level of
  // positive volume whose ask counterpart it kept.
  lemma DerivedImbalance(price: real, volume: Volume)
    ensures var r := Ratio(Wrapped(SumVolumes(BidLevels(price, volume, LEVELS))),
                           Wrapped(SumVolumes(AskLevels(price, volume, LEVELS))));
            -1.0 <= r <= 0.0 && (r == 0.0 <==> KeptPairs(price, volume, LEVELS))
  {
    TotalsFit(price, volume);
    SideSums(price, volume, LEVELS);
    RatioBounds(Wrapped(SumVolumes(BidLevels(price, volume, LEVELS))),
                Wrapped(SumVolumes(AskLevels(price, volume, LEVELS))));
  }

  lemma DeeperIsThinner(volume: Volume, n: nat)
    requires n >= 1
    ensures LevelVolume(volume, n) > 0 ==> volume >= 10
    ensures LevelVolume(volume, 1) == volume / 10
  {
    if volume < 10 {
      assert volume / 10 == 0;
    }
  }

  // The best bid of a derived book is its first level, and there is one exactly when the price exceeds one
  // tick and the volume reaches ten.
  lemma {:induction false} BestDerivedBid(price: real, volume: Volume, n: nat)
    requires n >= 1
    ensures BidLevels(price, volume, n) != [] <==> price > 0.01 && volume >= 10
    ensures BidLevels(price, volume, n) != [] ==> BidLevels(price, volume, n)[0] == Level(price - 0.01, volume / 10)
  {
    if n > 1 {
      BestDerivedBid(price, volume, n - 1);
      DeeperIsThinner(volume, n);
    } else {
      DeeperIsThinner(volume, 1);
      assert BidLevels(price, volume, 0) == [];
    }
  }

  lemma {:induction false} BestDerivedAsk(price: real, volume: Volume, n: nat)
    requires n >= 1 && price > 0.0
    ensures AskLevels(price, volume, n) != [] <==> volume >= 10
    ensures AskLevels(price, volume, n) != [] ==> AskLevels(price, volume, n)[0] == Level(price + 0.01, volume / 10)
  {
    if n > 1 {
      BestDerivedAsk(price, volume, n - 1);
      DeeperIsThinner(volume, n);
    } else {
      DeeperIsThinner(volume, 1);
      assert AskLevels(price, volume, 0) == [];
    }
  }

  lemma OneTick(price: real, n: nat)
    requires n > 0
    ensures BidPrice(price, n - 1) - BidPrice(price, n) == 0.01
    ensures AskPrice(price, n) - AskPrice(price, n - 1) == 0.01
  {
  }

  predicate Apart(side: seq<Level>) {
    forall i, j :: 0 <= i < j < |side| ==>
      side[i].price - side[j].price >= 0.01 || side[j].price - side[i].price >= 0.01
  }

  lemma OneMoreApart(front: seq<Level>, last: Level)
    requires Apart(front)
    requires forall l :: l in front ==> l.price - last.price >= 0.01 || last.price - l.price >= 0.01
    ensures Apart(front + [last])
  {
  }

  // Any two levels of a side are at least one tick apart.
  lemma {:induction false} BidsApart(price: real, volume: Volume, n: nat)
    ensures Apart(BidLevels(price, volume, n))
  {
    hide Apart, BidPrice;
    if n == 0 {
      NothingApart();
    } else {
      BidsApart(price, volume, n - 1);
      BidsAbove(price, volume, n - 1);
      OneTick(price, n);
      if BidLevels(price, volume, n) != BidLevels(price, volume, n - 1) {
        OneMoreApart(BidLevels(price, volume, n - 1), Level(BidPrice(price, n), LevelVolume(volume, n)));
      }
    }
  }

  lemma {:induction false} AsksApart(price: real, volume: Volume, n: nat)
    ensures Apart(AskLevels(price, volume, n))
  {
    hide Apart, AskPrice;
    if n == 0 {
      NothingApart();
    } else {
      AsksApart(price, volume, n - 1);
      AsksBelow(price, volume, n - 1);
      OneTick(price, n);
      if AskLevels(price, volume, n) != AskLevels(price, volume, n - 1) {
        OneMoreApart(AskLevels(price, volume, n - 1), Level(AskPrice(price, n), LevelVolume(volume, n)));
      }
    }
  }

  lemma NothingApart()
    ensures Apart([])
  {
  }

  // ---- Main results: the levels in numbers ----

  // The bids are the levels k of 1 to 5 at price - 0.01 k with a k-th part of a tenth of the volume, where both are
  // positive, and nothing else.
  lemma BidsInNumbers(price: real, volume: Volume, l: Level)
    ensures l in BidLevels(price, volume, LEVELS) <==>
            exists k: int :: 1 <= k <= 5 && l.price == price - k as real * 0.01 && l.price > 0.0
              && l.volume == volume / 10 / k && l.volume > 0
  {
    SurvivingBids(price, volume, LEVELS, l);
    if l in BidLevels(price, volume, LEVELS) {
      var k :| 1 <= k <= LEVELS && l == Level(BidPrice(price, k), LevelVolume(volume, k)) && l.price > 0.0
               && l.volume > 0;
      assert l.price == price - k as real * 0.01 && l.volume == volume / 10 / k;
    }
    if k: int :| 1 <= k <= 5 && l.price == price - k as real * 0.01 && l.price > 0.0
                 && l.volume == volume / 10 / k && l.volume > 0 {
      assert l == Level(BidPrice(price, k), LevelVolume(volume, k));
    }
  }

  lemma AsksInNumbers(price: real, volume: Volume, l: Level)
    ensures l in AskLevels(price, volume, LEVELS) <==>
            exists k: int :: 1 <= k <= 5 && l.price == price + k as real * 0.01 && l.price > 0.0
              && l.volume == volume / 10 / k && l.volume > 0
  {
    SurvivingAsks(price, volume, LEVELS, l);
    if l in AskLevels(price, volume, LEVELS) {
      var k :| 1 <= k <= LEVELS && l == Level(AskPrice(price, k), LevelVolume(volume, k)) && l.price > 0.0
               && l.volume > 0;
      assert l.price == price + k as real * 0.01 && l.volume == volume / 10 / k;
    }
    if k: int :| 1 <= k <= 5 && l.price == price + k as real * 0.01 && l.price > 0.0
                 && l.volume == volume / 10 / k && l.volume > 0 {
      assert l == Level(AskPrice(price, k), LevelVolume(volume, k));
    }
  }

  // The whole book of a quote that loses no level.
  lemma FullBook(price: real, volume: Volume)
    requires price > 0.05 && volume >= 50
    ensures BidLevels(price, volume, LEVELS) ==
            [Level(price - 0.01, volume / 10), Level(price - 0.02, volume / 10 / 2),
             Level(price - 0.03, volume / 10 / 3), Level(price - 0.04, volume / 10 / 4),
             Level(price - 0.05, volume / 10 / 5)]
    ensures AskLevels(price, volume, LEVELS) ==
            [Level(price + 0.01, volume / 10), Level(price + 0.02, volume / 10 / 2),
             Level(price + 0.03, volume / 10 / 3), Level(price + 0.04, volume / 10 / 4),
             Level(price + 0.05, volume / 10 / 5)]
  {
    var t := volume / 10;
    assert t >= 5 && t / 2 > 0 && t / 3 > 0 && t / 4 > 0 && t / 5 > 0;
    FirstBids(price, volume);
    FirstAsks(price, volume);
  }

  lemma FirstBids(price: real, volume: Volume)
    requires price > 0.05 && volume / 10 >= 5
    ensures BidLevels(price, volume, 5) ==
            [Level(price - 0.01, volume / 10), Level(price - 0.02, volume / 10 / 2),
             Level(price - 0.03, volume / 10 / 3), Level(price - 0.04, volume / 10 / 4),
             Level(price - 0.05, volume / 10 / 5)]
  {
    assert BidLevels(price, volume, 0) == [];
    assert BidLevels(price, volume, 1) == [Level(price - 0.01, volume / 10)];
    assert BidLevels(price, volume, 2) == BidLevels(price, volume, 1) + [Level(price - 0.02, volume / 10 / 2)];
    assert BidLevels(price, volume, 3) == BidLevels(price, volume, 2) + [Level(price - 0.03, volume / 10 / 3)];
    assert BidLevels(price, volume, 4) == BidLevels(price, volume, 3) + [Level(price - 0.04, volume / 10 / 4)];
  }

  lemma FirstAsks(price: real, volume: Volume)
    requires price > 0.05 && volume / 10 >= 5
    ensures AskLevels(price, volume, 5) ==
            [Level(price + 0.01, volume / 10), Level(price + 0.02, volume / 10 / 2),
             Level(price + 0.03, volume / 10 / 3), Level(price + 0.04, volume / 10 / 4),
             Level(price + 0.05, volume / 10 / 5)]
  {
    assert AskLevels(price, volume, 0) == [];
    assert AskLevels(price, volume, 1) == [Level(price + 0.01, volume / 10)];
    assert AskLevels(price, volume, 2) == AskLevels(price, volume, 1) + [Level(price + 0.02, volume / 10 / 2)];
    assert AskLevels(price, volume, 3) == AskLevels(price, volume, 2) + [Level(price + 0.03, volume / 10 / 3)];
    assert AskLevels(price, volume, 4) == AskLevels(price, volume, 3) + [Level(price + 0.04, volume / 10 / 4)];
  }
}

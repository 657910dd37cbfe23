/** The aggregated book of the local runner (backend/forge/local_gm.py,
    `SimpleLOB`) and the proof that the engine simulates it. Prices are whole
    ticks, so rounding to a tick is the identity. */
module SimpleLobs {
  import opened MarketTypes
  import opened PriceTimeBook
  import opened BookRuns

  datatype SweepFill = SweepFill(price: int, volume: int)

  type Ladder = map<int, int>

  datatype SweepResult = SweepResult(fills: seq<SweepFill>, book: Ladder)

  /** Takes volume price by price, best first, dropping emptied prices. */
  ghost function Sweep(book: Ladder, isBuy: bool, volume: int): SweepResult
    decreases |book|
  {
    if volume <= 0 || book.Keys == {} then SweepResult([], book)
    else
      var p := BestKey(book.Keys, !isBuy);
      var filled := Min(book[p], volume);
      if book[p] - filled <= 0 then
        var r := Sweep(book - {p}, isBuy, volume - filled);
        SweepResult([SweepFill(p, filled)] + r.fills, r.book)
      else
        SweepResult([SweepFill(p, filled)], book[p := book[p] - filled])
  }

  class SimpleLob {
    var bids: Ladder
    var asks: Ladder
    var lastTradePrice: int
    var lastTradeVolume: int

    constructor ()
      ensures bids == map[] && asks == map[] && lastTradePrice == 0 && lastTradeVolume == 0
    {
      bids, asks, lastTradePrice, lastTradeVolume := map[], map[], 0, 0;
    }

    function Book(isBid: bool): Ladder
      reads this
    {
      if isBid then bids else asks
    }

    method AddOrder(isBid: bool, price: int, volume: int)
      modifies this`bids, this`asks
      ensures Book(isBid) == AddVolume(old(Book(isBid)), price, volume)
      ensures Book(!isBid) == old(Book(!isBid))
    {
      var book := Book(isBid);
      book := book[price := (if price in book then book[price] else 0) + volume];
      if isBid { bids := book; } else { asks := book; }
    }

    /** Sweeps the prices of the opposite side, sorted best first. */
    method MarketOrder(isBuy: bool, volume: int) returns (fills: seq<SweepFill>)
      modifies this
      ensures SweepResult(fills, Book(!isBuy)) == Sweep(old(Book(!isBuy)), isBuy, volume)
      ensures Book(isBuy) == old(Book(isBuy))
      ensures fills == [] ==> lastTradePrice == old(lastTradePrice) && lastTradeVolume == old(lastTradeVolume)
      ensures fills != [] ==>
        lastTradePrice == fills[|fills| - 1].price && lastTradeVolume == fills[|fills| - 1].volume
    {
      hide Sweep, IsSortedListing;
      fills := [];
      var remaining := volume;
      var book := Book(!isBuy);
      ghost var start := book;
      var prices := SortedPrices(book.Keys, !isBuy);
      var i := 0;
      while i < |prices|
        invariant 0 <= i <= |prices|
        invariant remaining > 0 ==> IsSortedListing(prices[i..], book.Keys, !isBuy)
        invariant
          var r := Sweep(book, isBuy, remaining);
          Sweep(start, isBuy, volume) == SweepResult(fills + r.fills, r.book)
        invariant fills == [] ==> lastTradePrice == old(lastTradePrice) && lastTradeVolume == old(lastTradeVolume)
        invariant fills != [] ==>
          lastTradePrice == fills[|fills| - 1].price && lastTradeVolume == fills[|fills| - 1].volume
        invariant bids == old(bids) && asks == old(asks)
      {
        if remaining <= 0 { break; }
        var p := prices[i];
        ListingStep(prices[i..], book.Keys, !isBuy);
        var avail := book[p];
        var filled := if avail < remaining then avail else remaining;
        SweepTurn(start, isBuy, volume, fills, book, remaining, p);
        fills := fills + [SweepFill(p, filled)];
        remaining := remaining - filled;
        avail := avail - filled;
        if avail <= 0 {
          book := book - {p};
          assert prices[i..][1..] == prices[i + 1..];
        } else {
          book := book[p := avail];
        }
        lastTradePrice, lastTradeVolume := p, filled;
        i := i + 1;
      }
      if remaining > 0 { NothingListed(prices[i..], book.Keys, !isBuy); }
      SweepEnds(book, isBuy, remaining);
      if isBuy { asks := book; } else { bids := book; }
    }
  }

  function AddVolume(book: Ladder, price: int, volume: int): Ladder {
    book[price := (if price in book then book[price] else 0) + volume]
  }

  /** `prices` lists the keys once each, best first. */
  ghost predicate IsSortedListing(prices: seq<int>, keys: set<int>, isBid: bool) {
    && (forall j, k :: 0 <= j < k < |prices| ==> Better(isBid, prices[j], prices[k]))
    && (forall p :: p in prices <==> p in keys)
  }

  lemma ListingStep(prices: seq<int>, keys: set<int>, isBid: bool)
    requires IsSortedListing(prices, keys, isBid) && prices != []
    ensures prices[0] in keys && prices[0] == BestKey(keys, isBid)
    ensures IsSortedListing(prices[1..], keys - {prices[0]}, isBid)
  {
    assert prices[0] in prices;
    assert forall p :: p in prices <==> p == prices[0] || p in prices[1..];
    var b := BestKey(keys, isBid);
    assert b in prices;
  }

  lemma NothingListed(prices: seq<int>, keys: set<int>, isBid: bool)
    requires IsSortedListing(prices, keys, isBid) && prices == []
    ensures keys == {}
  {
    NoMember(keys);
  }

  lemma SweepEnds(book: Ladder, isBuy: bool, remaining: int)
    requires remaining > 0 ==> book.Keys == {}
    ensures Sweep(book, isBuy, remaining) == SweepResult([], book)
  {
  }

  lemma SweepTurn(start: Ladder, isBuy: bool, volume: int, fills: seq<SweepFill>, book: Ladder, remaining: int, p: int)
    requires remaining > 0 && book.Keys != {} && p == BestKey(book.Keys, !isBuy)
    requires
      var r := Sweep(book, isBuy, remaining);
      Sweep(start, isBuy, volume) == SweepResult(fills + r.fills, r.book)
    ensures
      var filled := Min(book[p], remaining);
      var book' := if book[p] - filled <= 0 then book - {p} else book[p := book[p] - filled];
      var r := Sweep(book', isBuy, remaining - filled);
      Sweep(start, isBuy, volume) == SweepResult(fills + [SweepFill(p, filled)] + r.fills, r.book)
  {
  }

  /** The keys of a side, best price first. */
  method SortedPrices(keys: set<int>, isBid: bool) returns (prices: seq<int>)
    ensures IsSortedListing(prices, keys, isBid)
  {
    prices := [];
    var rest := keys;
    while rest != {}
      invariant rest <= keys && IsSortedListing(prices, keys - rest, isBid)
      decreases |rest|
    {
      HasMember(rest);
      var p :| p in rest;
      rest := rest - {p};
      var k := 0;
      while k < |prices| && (if isBid then prices[k] > p else prices[k] < p)
        invariant 0 <= k <= |prices|
        invariant forall j :: 0 <= j < k ==> Better(isBid, prices[j], p)
      {
        k := k + 1;
      }
      ListingInsert(prices, keys - (rest + {p}), isBid, k, p);
      prices := prices[..k] + [p] + prices[k..];
      assert keys - rest == keys - (rest + {p}) + {p};
    }
    assert keys - rest == keys;
  }

  lemma ListingInsert(prices: seq<int>, keys: set<int>, isBid: bool, k: nat, p: int)
    requires IsSortedListing(prices, keys, isBid) && p !in keys && k <= |prices|
    requires forall j :: 0 <= j < k ==> Better(isBid, prices[j], p)
    requires k < |prices| ==> !Better(isBid, prices[k], p)
    ensures IsSortedListing(prices[..k] + [p] + prices[k..], keys + {p}, isBid)
  {
    var r := prices[..k] + [p] + prices[k..];
    forall j | k <= j < |prices| ensures Better(isBid, p, prices[j]) {
      assert prices[k] in prices && prices[k] != p;
    }
    forall i, j | 0 <= i < j < |r| ensures Better(isBid, r[i], r[j]) {
    }
    assert forall q :: q in prices <==> q in prices[..k] || q in prices[k..] by {
      assert prices == prices[..k] + prices[k..];
    }
  }

  // -------------------------------------------------------------- simulation

  /** Consecutive fills at one price, added up. */
  function Merge(fills: seq<MatchedFill>): seq<SweepFill> {
    if fills == [] then []
    else Prepend(SweepFill(fills[0].price, fills[0].volume), Merge(fills[1..]))
  }

  function Prepend(f: SweepFill, rest: seq<SweepFill>): seq<SweepFill> {
    if rest != [] && rest[0].price == f.price
    then [SweepFill(f.price, f.volume + rest[0].volume)] + rest[1..]
    else [f] + rest
  }

  /** The ladder holds the side's prices and the volume resting at each. */
  ghost predicate Aggregates(book: Ladder, os: Orders, isBid: bool, n: nat) {
    && (forall id :: OnSide(os, isBid, id) ==> os[id].price in book)
    && (forall p :: p in book ==>
          (exists id :: AtPrice(os, isBid, p, id)) && book[p] == Depth(os, isBid, Only(p), n))
  }

  lemma TopIsBestKey(book: Ladder, os: Orders, isBid: bool, n: nat)
    requires Aggregates(book, os, isBid, n)
    ensures HasSide(os, isBid) <==> book.Keys != {}
    ensures HasSide(os, isBid) ==> os[Top(os, isBid)].price == BestKey(book.Keys, isBid)
  {
    if book.Keys != {} {
      var b := BestKey(book.Keys, isBid);
      var id :| AtPrice(os, isBid, b, id);
      assert OnSide(os, isBid, id);
      var t := Top(os, isBid);
      assert t != id ==> Precedes(os, isBid, t, id);
      assert os[t].price in book;
    }
    if HasSide(os, isBid) {
      var id :| OnSide(os, isBid, id);
      assert os[id].price in book.Keys;
    }
  }

  /** A price is emptied exactly when its last order is. */
  lemma PriceEmptied(book: Ladder, os: Orders, isBid: bool, n: nat, id: nat, v: int)
    requires Aggregates(book, os, isBid, n) && PositiveVolumes(os) && forall j :: j in os ==> j < n
    requires OnSide(os, isBid, id) && 0 < v <= os[id].volume
    ensures
      var p := os[id].price;
      var os' := Reduce(os, id, v);
      && Depth(os', isBid, Only(p), n) == book[p] - v >= 0
      && (book[p] == v <==> !exists j :: AtPrice(os', isBid, p, j))
  {
    var p := os[id].price;
    var os' := Reduce(os, id, v);
    DepthChange(os, os', isBid, Only(p), n, id);
    DepthNonNegative(os', isBid, Only(p), n);
    if exists j :: AtPrice(os', isBid, p, j) {
      var j :| AtPrice(os', isBid, p, j);
      assert Depth(os', isBid, Only(p), n) >= os'[j].volume > 0;
    } else {
      assert forall j :: OnSide(os', isBid, j) ==> !AtPrice(os', isBid, p, j);
      NoOrdersNoDepth(os', isBid, Only(p), n);
    }
  }

  /** Taking `v` off an order takes `v` off its price. */
  lemma AggregatesReduce(book: Ladder, os: Orders, isBid: bool, n: nat, id: nat, v: int)
    requires Aggregates(book, os, isBid, n) && PositiveVolumes(os) && forall j :: j in os ==> j < n
    requires OnSide(os, isBid, id) && 0 < v <= os[id].volume
    ensures
      var p := os[id].price;
      && book[p] >= v
      && Aggregates(if book[p] == v then book - {p} else book[p := book[p] - v], Reduce(os, id, v), isBid, n)
  {
    var p := os[id].price;
    var os' := Reduce(os, id, v);
    PriceEmptied(book, os, isBid, n, id, v);
    var book' := if book[p] == v then book - {p} else book[p := book[p] - v];
    forall q | q in book' && q != p
      ensures exists j :: AtPrice(os', isBid, q, j)
      ensures book'[q] == Depth(os', isBid, Only(q), n)
    {
      DepthChange(os, os', isBid, Only(q), n, id);
      var j :| AtPrice(os, isBid, q, j);
      assert AtPrice(os', isBid, q, j);
    }
    forall j | OnSide(os', isBid, j) ensures os'[j].price in book' {
      assert OnSide(os, isBid, j);
      assert AtPrice(os', isBid, os'[j].price, j);
    }
  }

  /** Sweeping `v` less from a price that keeps some volume. */
  lemma SweepSplit(book: Ladder, isBuy: bool, volume: int, v: int)
    requires book.Keys != {} && 0 < v <= volume
    requires v < book[BestKey(book.Keys, !isBuy)]
    ensures
      var p := BestKey(book.Keys, !isBuy);
      var r := Sweep(book[p := book[p] - v], isBuy, volume - v);
      Sweep(book, isBuy, volume) == SweepResult(Prepend(SweepFill(p, v), r.fills), r.book)
  {
    var p := BestKey(book.Keys, !isBuy);
    var book' := book[p := book[p] - v];
    assert book'.Keys == book.Keys;
    assert book' - {p} == book - {p};
    assert book'[p := book'[p] - (volume - v)] == book[p := book[p] - volume];
  }

  lemma SweepStartsInBook(book: Ladder, isBuy: bool, volume: int)
    ensures Sweep(book, isBuy, volume).fills != [] ==> Sweep(book, isBuy, volume).fills[0].price in book
  {
  }

  /** The engine's fills, merged by price, are the sweep of the aggregated book,
      and the two sides stay in step. */
  lemma {:induction false} MatchSimulatesSweep(book: Ladder, os: Orders, isBuy: bool, volume: int, taker: int, n: nat)
    requires Aggregates(book, os, !isBuy, n) && PositiveVolumes(os) && forall j :: j in os ==> j < n
    ensures
      var r := Match(os, isBuy, volume, taker);
      var w := Sweep(book, isBuy, volume);
      Merge(r.fills) == w.fills && Aggregates(w.book, r.orders, !isBuy, n)
    decreases |os|
  {
    hide Aggregates;
    TopIsBestKey(book, os, !isBuy, n);
    if volume > 0 && HasSide(os, !isBuy) {
      var id := Top(os, !isBuy);
      var v := Min(volume, os[id].volume);
      var p := os[id].price;
      var os' := Reduce(os, id, v);
      AggregatesReduce(book, os, !isBuy, n, id, v);
      var book' := if book[p] == v then book - {p} else book[p := book[p] - v];
      if v == os[id].volume {
        MatchSimulatesSweep(book', os', isBuy, volume - v, taker, n);
      }
      StepSimulates(book, os, isBuy, volume, taker, id, v, book');
    }
  }

  lemma StepSimulates(book: Ladder, os: Orders, isBuy: bool, volume: int, taker: int, id: nat, v: int, book': Ladder)
    requires volume > 0 && IsTop(os, !isBuy, id) && v == Min(volume, os[id].volume) > 0
    requires book.Keys != {} && os[id].price == BestKey(book.Keys, !isBuy) && v <= book[os[id].price]
    requires book' == if book[os[id].price] == v then book - {os[id].price} else book[os[id].price := book[os[id].price] - v]
    requires v == os[id].volume ==> Merge(Match(Reduce(os, id, v), isBuy, volume - v, taker).fills) == Sweep(book', isBuy, volume - v).fills
    ensures Merge(Match(os, isBuy, volume, taker).fills) == Sweep(book, isBuy, volume).fills
    ensures Match(os, isBuy, volume, taker).orders == Match(Reduce(os, id, v), isBuy, volume - v, taker).orders
    ensures Sweep(book, isBuy, volume).book == Sweep(book', isBuy, volume - v).book
    ensures v < os[id].volume ==>
      Match(Reduce(os, id, v), isBuy, volume - v, taker).orders == Reduce(os, id, v) && Sweep(book', isBuy, volume - v).book == book'
  {
    NothingLeft(Reduce(os, id, v), book', isBuy, taker);
    hide Match, Sweep, IsTop;
    MatchTurn(os, isBuy, volume, taker, id);
    MergeHead(FillOf(id, os[id], v, isBuy, taker), Match(Reduce(os, id, v), isBuy, volume - v, taker).fills);
    SweepHead(book, isBuy, volume, v);
  }

  lemma NothingLeft(os: Orders, book: Ladder, isBuy: bool, taker: int)
    ensures Match(os, isBuy, 0, taker) == MatchResult([], os, 0) && Sweep(book, isBuy, 0) == SweepResult([], book)
    ensures Merge([]) == []
  {
  }

  lemma MergeHead(f: MatchedFill, rest: seq<MatchedFill>)
    ensures Merge([f] + rest) == Prepend(SweepFill(f.price, f.volume), Merge(rest))
  {
    assert ([f] + rest)[1..] == rest;
  }

  lemma SweepHead(book: Ladder, isBuy: bool, volume: int, v: int)
    requires book.Keys != {} && 0 < v <= volume
    requires v <= book[BestKey(book.Keys, !isBuy)]
    ensures
      var p := BestKey(book.Keys, !isBuy);
      var r := Sweep(if book[p] == v then book - {p} else book[p := book[p] - v], isBuy, volume - v);
      Sweep(book, isBuy, volume) == SweepResult(Prepend(SweepFill(p, v), r.fills), r.book)
  {
    var p := BestKey(book.Keys, !isBuy);
    if v < book[p] {
      SweepSplit(book, isBuy, volume, v);
    } else {
      SweepStartsInBook(book - {p}, isBuy, volume - v);
    }
  }

  // ------------------------------------------------------------- whole runs

  /** The aggregated book after one call; adds are never refused there. */
  ghost function SimpleAct(bids: Ladder, asks: Ladder, a: Action): (Ladder, Ladder, seq<SweepFill>) {
    match a
    case Add(isBid, price, volume, _, _) =>
      if isBid then (AddVolume(bids, price, volume), asks, []) else (bids, AddVolume(asks, price, volume), [])
    case Cancel(_) => (bids, asks, [])
    case Market(isBuy, volume, _) =>
      if isBuy then var r := Sweep(asks, true, volume); (bids, r.book, r.fills)
      else var r := Sweep(bids, false, volume); (r.book, asks, r.fills)
  }

  ghost predicate InStep(bids: Ladder, asks: Ladder, b: Book) {
    && IdsIssued(b) && PositiveVolumes(b.orders)
    && Aggregates(bids, b.orders, true, b.nextId)
    && Aggregates(asks, b.orders, false, b.nextId)
  }

  /** Adds the engine accepts, with positive volumes, and market orders. */
  predicate Shared(a: Action) {
    !a.Cancel? && (a.Add? ==> a.accepted && a.volume > 0)
  }

  lemma AddAggregates(book: Ladder, b: Book, isBid: bool, price: int, volume: int, participant: int)
    requires IdsIssued(b) && Aggregates(book, b.orders, isBid, b.nextId)
    ensures
      var b' := Accept(b, isBid, price, volume, participant);
      Aggregates(AddVolume(book, price, volume), b'.orders, isBid, b'.nextId)
  {
    var b' := Accept(b, isBid, price, volume, participant);
    var book' := AddVolume(book, price, volume);
    assert b.nextId !in b.orders;
    forall q | q in book'
      ensures exists j :: AtPrice(b'.orders, isBid, q, j)
      ensures book'[q] == Depth(b'.orders, isBid, Only(q), b'.nextId)
    {
      DepthChange(b.orders, b'.orders, isBid, Only(q), b.nextId, b.nextId);
      if q !in book { NoOrdersNoDepth(b.orders, isBid, Only(q), b.nextId); }
      if q == price {
        assert AtPrice(b'.orders, isBid, q, b.nextId);
      } else {
        var j :| AtPrice(b.orders, isBid, q, j);
        assert AtPrice(b'.orders, isBid, q, j);
      }
    }
  }

  lemma OtherSideAggregates(book: Ladder, os: Orders, os': Orders, isBid: bool, m: nat, n: nat)
    requires Aggregates(book, os, isBid, m) && m <= n && forall id :: id in os ==> id < m
    requires SameSide(os, os', isBid)
    ensures Aggregates(book, os', isBid, n)
  {
    forall p | p in book
      ensures exists j :: AtPrice(os', isBid, p, j)
      ensures book[p] == Depth(os', isBid, Only(p), n)
    {
      DepthBound(os, isBid, Only(p), m, n);
      SameSideSameDepth(os, os', isBid, Only(p), n);
      var j :| AtPrice(os, isBid, p, j);
      assert AtPrice(os', isBid, p, j);
    }
  }

  lemma AddSimulates(bids: Ladder, asks: Ladder, b: Book, isBid: bool, price: int, volume: int, participant: int)
    requires InStep(bids, asks, b) && volume > 0
    ensures
      var b' := Accept(b, isBid, price, volume, participant);
      if isBid then InStep(AddVolume(bids, price, volume), asks, b') else InStep(bids, AddVolume(asks, price, volume), b')
  {
    hide Aggregates, AddVolume;
    var b' := Accept(b, isBid, price, volume, participant);
    var mine, other := if isBid then bids else asks, if isBid then asks else bids;
    AddAggregates(mine, b, isBid, price, volume, participant);
    OtherSideAggregates(other, b.orders, b'.orders, !isBid, b.nextId, b'.nextId);
  }

  lemma MarketSimulates(bids: Ladder, asks: Ladder, b: Book, isBuy: bool, volume: int, taker: int)
    requires InStep(bids, asks, b)
    ensures
      var w := Sweep(if isBuy then asks else bids, isBuy, volume);
      var b' := Trade(b, isBuy, volume, taker);
      && w.fills == Merge(Match(b.orders, isBuy, volume, taker).fills)
      && if isBuy then InStep(bids, w.book, b') else InStep(w.book, asks, b')
  {
    hide Aggregates, Sweep, Match;
    var r := Match(b.orders, isBuy, volume, taker);
    var mine, other := if isBuy then bids else asks, if isBuy then asks else bids;
    MatchSimulatesSweep(other, b.orders, isBuy, volume, taker, b.nextId);
    MatchConserves(b.orders, isBuy, volume, taker, b.nextId);
    MatchKeepsPositive(b.orders, isBuy, volume, taker);
    OtherSideAggregates(mine, b.orders, r.orders, isBuy, b.nextId, b.nextId);
  }

  /** One call: the books stay in step and the merged fills are equal. */
  lemma ActSimulates(bids: Ladder, asks: Ladder, b: Book, a: Action)
    requires InStep(bids, asks, b) && Shared(a)
    ensures
      var (bids', asks', fills) := SimpleAct(bids, asks, a);
      && InStep(bids', asks', Act(b, a).0)
      && (a.Market? ==> fills == Merge(Match(b.orders, a.isBuy, a.volume, a.taker).fills))
  {
    hide InStep, Sweep, Match, Trade;
    match a
    case Add(isBid, price, volume, participant, _) => AddSimulates(bids, asks, b, isBid, price, volume, participant);
    case Market(isBuy, volume, taker) => MarketSimulates(bids, asks, b, isBuy, volume, taker);
  }

  ghost function SimpleRun(bids: Ladder, asks: Ladder, actions: seq<Action>): (Ladder, Ladder)
    decreases |actions|
  {
    if actions == [] then (bids, asks)
    else
      var (bids', asks', _) := SimpleAct(bids, asks, actions[0]);
      SimpleRun(bids', asks', actions[1..])
  }

  /** After any common run each price holds the same volume in both books. */
  lemma {:induction false} RunSimulates(bids: Ladder, asks: Ladder, b: Book, actions: seq<Action>)
    requires InStep(bids, asks, b)
    requires forall i :: 0 <= i < |actions| ==> Shared(actions[i])
    ensures
      var (bids', asks') := SimpleRun(bids, asks, actions);
      InStep(bids', asks', Run(b, actions).0)
    decreases |actions|
  {
    if actions != [] {
      ActSimulates(bids, asks, b, actions[0]);
      var (bids', asks', _) := SimpleAct(bids, asks, actions[0]);
      RunSimulates(bids', asks', Act(b, actions[0]).0, actions[1..]);
    }
  }
}

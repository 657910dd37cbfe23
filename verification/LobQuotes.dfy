/** What the level arrays say about the reference book: the volume of a level and
    the quoted best price. */
module LobQuotes {
  import opened MarketTypes
  import opened PriceTimeBook
  import opened OrderTable
  import opened OrderPools
  import opened LobSides
  import opened BookRep
  import opened PriceGrids
  import opened PersistentLobs

  lemma {:induction false} ChainVolumeIsQueueVolume(s: Store, os: Orders, c: seq<nat>, ids: seq<nat>)
    requires InPool(s.nodes, c) && |ids| == |c|
    requires forall k :: 0 <= k < |c| ==> ids[k] in os && os[ids[k]].volume == s.nodes[c[k]].volume
    ensures ChainVolume(s.nodes, c) == QueueVolume(os, ids)
  {
    if c != [] {
      var m := |c| - 1;
      ChainVolumeIsQueueVolume(s, os, c[..m], ids[..m]);
      ChainVolumeAppend(s.nodes, c[..m], [c[m]]);
      assert c == c[..m] + [c[m]];
      assert ChainVolume(s.nodes, [c[m]]) == s.nodes[c[m]].volume + ChainVolume(s.nodes, []);
    }
  }

  lemma QueueVolumes(s: Store, nextId: nat, key: LevelKey, k: nat)
    requires CoreRep(s, nextId) && key in s.chains && k < |s.chains[key]|
    ensures
      var x := s.chains[key][k];
      && x < |s.nodes| && s.nodes[x].orderId in OrdersOf(s) && s.nodes[x].orderId < nextId
      && OrdersOf(s)[s.nodes[x].orderId].volume == s.nodes[x].volume
  {
    assert Registered(s, key, s.chains[key][k]);
    assert Located(s, s.nodes[s.chains[key][k]].orderId);
  }

  /** A level's total volume is the depth resting at its price, in 64 bits: it is
      that depth exactly when the depth fits. */
  lemma LevelVolumeIsDepth(s: Store, nextId: nat, isBid: bool, li: nat)
    requires Rep(s, nextId) && li < |s.Levels(isBid)|
    ensures
      var l := s.Levels(isBid)[li];
      var depth := Depth(OrdersOf(s), isBid, Only(l.price), nextId);
      l.totalVolume == Wrap64(depth) && (l.totalVolume == depth <==> Fits64(depth))
  {
    var l := s.Levels(isBid)[li];
    var key := LevelKey(isBid, l.price);
    LevelQueue(s, isBid, li);
    hide Rep, CoreRep, OrdersOf, Depth;
    ChainIsQueue(s, nextId, key);
    var c, ids := s.chains[key], QueueIds(s, key);
    var os := OrdersOf(s);
    forall k | 0 <= k < |c| ensures ids[k] in os && ids[k] < nextId && os[ids[k]].volume == s.nodes[c[k]].volume {
      QueueVolumes(s, nextId, key, k);
    }
    ChainVolumeIsQueueVolume(s, os, c, ids);
    forall id: nat ensures id in ids <==> (AtPrice(os, isBid, l.price, id) && id < nextId) {
      if id in ids {
        var k :| 0 <= k < |ids| && ids[k] == id;
      }
    }
    QueueDepth(os, isBid, l.price, ids, nextId);
  }

  /** The first level quotes the top order's price exactly when it holds an order;
      a level left empty by an exhausted pool quotes a price nobody offers. */
  lemma FirstLevelQuotes(s: Store, nextId: nat, isBid: bool)
    requires Rep(s, nextId) && s.Levels(isBid) != []
    ensures
      var l := s.Levels(isBid)[0];
      l.count > 0 <==> (HasSide(OrdersOf(s), isBid) && OrdersOf(s)[Top(OrdersOf(s), isBid)].price == l.price)
    ensures
      var l := s.Levels(isBid)[0];
      l.count == 0 ==> forall id :: OnSide(OrdersOf(s), isBid, id) ==> Better(isBid, l.price, OrdersOf(s)[id].price)
  {
    var lv := s.Levels(isBid);
    var l := lv[0];
    var key := LevelKey(isBid, l.price);
    LevelQueue(s, isBid, 0);
    if s.chains[key] != [] {
      HeadIsTop(s, nextId, isBid);
    } else {
      forall id | OnSide(OrdersOf(s), isBid, id) ensures Better(isBid, l.price, OrdersOf(s)[id].price) {
        EmptyFirstLevel(s, nextId, isBid, id);
      }
    }
  }

  lemma EmptyFirstLevel(s: Store, nextId: nat, isBid: bool, id: nat)
    requires Rep(s, nextId) && s.Levels(isBid) != []
    requires LevelKey(isBid, s.Levels(isBid)[0].price) in s.chains
    requires s.chains[LevelKey(isBid, s.Levels(isBid)[0].price)] == []
    requires OnSide(OrdersOf(s), isBid, id)
    ensures Better(isBid, s.Levels(isBid)[0].price, OrdersOf(s)[id].price)
  {
    var p := OrdersOf(s)[id].price;
    assert p != s.Levels(isBid)[0].price by { assert Located(s, id); }
    OrderHasLevel(s, nextId, isBid, id);
    assert Sorted(s.Levels(isBid), isBid) by { assert SideRep(s, isBid); }
    FirstIsBest(s.Levels(isBid), isBid, p);
  }

  lemma FirstIsBest(lv: seq<PriceLevel>, isBid: bool, p: int)
    requires lv != [] && Sorted(lv, isBid) && HasPrice(lv, p) && p != lv[0].price
    ensures Better(isBid, lv[0].price, p)
  {
    var i :| 0 <= i < |lv| && lv[i].price == p;
    assert i > 0;
  }

  /** An add refused by an exhausted pool at a new best price: no order rests there,
      yet that price becomes the quote. */
  method QuoteAfterRefusedAdd(lob: PersistentLob, isBid: bool, price: int, volume: int, participant: int)
    returns (orderId: nat, quote: int)
    requires lob.Valid() && lob.nextOrderId < EMPTY_KEY
    requires lob.pool.freeTop == 0 && lob.Side(isBid).count < MAX_PRICE_LEVELS
    requires forall q :: HasPrice(lob.Side(isBid).Levels(), q) ==> Better(isBid, price, q)
    modifies lob.Repr()
    ensures lob.Valid() && orderId == NULL_ORDER_ID && lob.View() == old(lob.View())
    ensures quote == price && forall id :: !AtPrice(lob.View().orders, isBid, price, id)
  {
    hide Rep, OrdersOf, Sorted, Distinct, OrderMap.Valid, OrderMap.Contents, AddTo, Accepts, GridOf;
    ghost var before := lob.Side(isBid).Levels();
    assert !HasPrice(before, price);
    NoOrderAt(lob, isBid, price);
    orderId := lob.AddLimit(isBid, price, volume, participant);
    ghost var after := lob.Side(isBid).Levels();
    OpenedHasPrice(before, after, price);
    quote := lob.Side(isBid).BestPrice();
    OpenedPrices(before, after, price, quote);
  }

  lemma OpenedHasPrice(before: seq<PriceLevel>, after: seq<PriceLevel>, price: int)
    requires Opened(before, after, price) && |before| < MAX_PRICE_LEVELS
    ensures HasPrice(after, price)
  {
    if !HasPrice(before, price) {
      var ins :| 0 <= ins <= |before| && after == before[..ins] + [NewLevel(price)] + before[ins..];
      assert after[ins].price == price;
    }
  }

  lemma NoOrderAt(lob: PersistentLob, isBid: bool, price: int)
    requires lob.Valid() && !HasPrice(lob.Side(isBid).Levels(), price)
    ensures forall id :: !AtPrice(lob.View().orders, isBid, price, id)
  {
    lob.StoredLevels(isBid);
    forall id ensures !AtPrice(lob.View().orders, isBid, price, id) {
      if AtPrice(lob.View().orders, isBid, price, id) {
        OrderHasLevel(lob.store, lob.nextOrderId, isBid, id);
      }
    }
  }

  /** A new book filled to the last node with orders at one price. */
  method FillPool(isBid: bool, price: int, volume: int, participant: int) returns (lob: PersistentLob)
    ensures fresh(lob.Repr()) && lob.Valid() && lob.pool.freeTop == 0 && lob.nextOrderId == ORDER_POOL_SIZE + 1
    ensures forall id :: id in lob.View().orders ==> lob.View().orders[id] == Resting(isBid, price, volume, participant)
    ensures forall q :: HasPrice(lob.Side(isBid).Levels(), q) <==> q == price
    ensures lob.Side(isBid).count < MAX_PRICE_LEVELS
  {
    hide Rep, OrdersOf, Sorted, Distinct, OrderMap.Valid, OrderMap.Contents, AddTo, Accepts, GridOf;
    lob := new PersistentLob();
    for i := 0 to ORDER_POOL_SIZE
      invariant fresh(lob.Repr()) && lob.Valid()
      invariant lob.nextOrderId == i + 1 && lob.pool.freeTop == ORDER_POOL_SIZE - i
      invariant forall id :: id in lob.View().orders ==> lob.View().orders[id] == Resting(isBid, price, volume, participant)
      invariant i == 0 ==> lob.Side(isBid).count == 0
      invariant forall q :: HasPrice(lob.Side(isBid).Levels(), q) <==> i > 0 && q == price
    {
      var id := lob.AddLimit(isBid, price, volume, participant);
    }
    OnePriceOneLevel(lob, isBid, price);
  }

  lemma OnePriceOneLevel(lob: PersistentLob, isBid: bool, price: int)
    requires lob.Valid() && forall q :: HasPrice(lob.Side(isBid).Levels(), q) <==> q == price
    ensures lob.Side(isBid).count < MAX_PRICE_LEVELS
  {
    var lv := lob.Side(isBid).Levels();
    if |lv| > 1 {
      assert HasPrice(lv, lv[0].price) && HasPrice(lv, lv[1].price);
    }
  }

  /** An empty level can be quoted: with the pool filled by orders at one price, an
      add at a better one is refused and still sets the quote. */
  method PhantomQuote(isBid: bool, price: int, better: int, volume: int, participant: int)
    returns (lob: PersistentLob, orderId: nat, quote: int)
    requires Better(isBid, better, price)
    ensures fresh(lob.Repr()) && lob.Valid() && orderId == NULL_ORDER_ID && quote == better
    ensures |lob.View().orders| == ORDER_POOL_SIZE
    ensures forall id :: id in lob.View().orders ==> lob.View().orders[id] == Resting(isBid, price, volume, participant)
  {
    hide PersistentLob.Valid, OrdersOf;
    lob := FillPool(isBid, price, volume, participant);
    FreeNodes(lob);
    orderId, quote := QuoteAfterRefusedAdd(lob, isBid, better, volume, participant);
  }
}

/** The matching engine's order book (game-master/persistent_lob.hpp,
    `PersistentLOB`), proved to refine PriceTimeBook. */
module PersistentLobs {
  import opened MarketTypes
  import opened PriceTimeBook
  import opened OrderTable
  import opened OrderPools
  import opened LobSides
  import opened BookRep
  import opened PriceGrids

  const NULL_ORDER_ID: nat := 0

  class PersistentLob {
    const pool: OrderPool
    const bids: LobSide
    const asks: LobSide
    const orderMap: OrderMap
    var nextOrderId: nat
    var lastTrade: int
    var totalFills: nat
    ghost var store: Store  // what the four structures hold, with their queues

    ghost function Repr(): set<object> {
      {this, pool, pool.nodes, pool.freeStack, bids, bids.levels, asks, asks.levels, orderMap, orderMap.table}
    }

    ghost predicate Shape()
      reads this, Repr()
    {
      && bids != asks && bids.levels != asks.levels
      && bids.descending && !asks.descending
      && pool.Valid() && bids.Valid() && asks.Valid() && orderMap.Valid()
    }

    ghost predicate Synced()
      requires Shape()
      reads this, Repr()
    {
      && store.nodes == pool.nodes[..]
      && store.free == pool.Free()
      && store.bids == bids.Levels()
      && store.asks == asks.Levels()
      && store.locations == orderMap.Contents()
    }

    ghost predicate Valid()
      reads this, Repr()
    {
      && Shape()
      && Synced()
      && 0 < nextOrderId <= EMPTY_KEY
      && Rep(store, nextOrderId)
    }

    /** The reference book this book stands for. */
    ghost function View(): Book
      reads this
    {
      Book(OrdersOf(store), nextOrderId, lastTrade, totalFills)
    }

    /** The reference book together with the prices that have a level. */
    ghost function State(): EngineState
      reads this
    {
      EngineState(View(), GridOf(store))
    }

    function Side(isBid: bool): LobSide {
      if isBid then bids else asks
    }

    constructor ()
      ensures Valid() && fresh(Repr())
      ensures State() == EMPTY_ENGINE
      ensures bids.count == 0 && asks.count == 0 && pool.freeTop == ORDER_POOL_SIZE
    {
      hide Rep, OrderMap.Valid, OrderMap.Contents, OrderPool.Valid, LobSide.Valid, Sorted, Distinct, OrdersOf, GridOf;
      pool := new OrderPool();
      bids := new LobSide(true);
      asks := new LobSide(false);
      orderMap := new OrderMap();
      nextOrderId := 1;
      lastTrade := 0;
      totalFills := 0;
      new;
      StartStore();
    }

    ghost method StartStore()
      requires Shape() && bids.Levels() == [] && asks.Levels() == [] && orderMap.Contents() == map[]
      requires pool.freeTop == ORDER_POOL_SIZE
      modifies this`store
      ensures Shape() && Synced() && Rep(store, 1) && OrdersOf(store) == map[] && GridOf(store) == Grid({}, {})
    {
      hide Rep, OrderMap.Valid, OrderMap.Contents, Sorted, Distinct, OrdersOf;
      store := Store(pool.nodes[..], pool.Free(), [], [], map[], map[]);
      EmptyStore(store);
    }

    /** Finds or opens the level of a price; -1 when the level table is full. */
    method LevelFor(isBid: bool, price: int) returns (li: int)
      requires Valid()
      modifies this`store, Side(isBid), Side(isBid).levels
      ensures Valid() && View() == old(View())
      ensures Opened(old(Side(isBid).Levels()), Side(isBid).Levels(), price)
      ensures Side(!isBid).Levels() == old(Side(!isBid).Levels())
      ensures li == -1 <==>
        old(Side(isBid).count) == MAX_PRICE_LEVELS && !HasPrice(old(Side(isBid).Levels()), price)
      ensures li != -1 ==> 0 <= li < Side(isBid).count && Side(isBid).levels[li].price == price
    {
      hide Rep, OrdersOf, Sorted, Distinct, OrderMap.Valid, OrderMap.Contents;
      var side := Side(isBid);
      li := side.GetOrCreate(price);
      if li != -1 && !HasPrice(store.Levels(isBid), price) {
        ghost var s := store;
        store := s.WithLevels(isBid, side.Levels()).(chains := s.chains[LevelKey(isBid, price) := []]);
        OpenLevel(s, nextOrderId, isBid, li, price, store);
      }
    }

    /** Fills a fresh node in, appends it to the level's queue and registers it. */
    method Enqueue(isBid: bool, li: nat, idx: nat, o: LimitOrder)
      requires Side(isBid).Valid() && orderMap.Valid() && li < Side(isBid).count
      requires idx < pool.nodes.Length
      requires Side(isBid).levels[li].tail == NULL_IDX || Side(isBid).levels[li].tail < pool.nodes.Length
      requires IsOrderKey(o.orderId) && o.orderId !in orderMap.Contents() && |orderMap.Contents()| < MAP_SIZE
      modifies pool.nodes, Side(isBid).levels, orderMap, orderMap.table
      ensures Side(isBid).Valid() && orderMap.Valid()
      ensures
        var l := old(Side(isBid).levels[li]);
        && pool.nodes[..] == AppendNode(old(pool.nodes[..]), idx, o, l.tail)
        && Side(isBid).Levels() == old(Side(isBid).Levels())[li := AppendToLevel(l, idx, o.volume)]
        && orderMap.Contents() == old(orderMap.Contents())[o.orderId := Location(idx, l.price, isBid)]
    {
      hide OrderMap.Valid, OrderMap.Contents, Sorted;
      var side := Side(isBid);
      var l := side.levels[li];
      LinkNode(pool.nodes, idx, o, l.tail);
      side.SetLevel(li, AppendToLevel(l, idx, o.volume));
      orderMap.Insert(o.orderId, Location(idx, l.price, isBid));
    }

    /** Queues a freshly allocated node at a level. */
    method PlaceAt(isBid: bool, li: nat, idx: nat, o: LimitOrder)
      requires Shape() && li < Side(isBid).count
      requires store == Store(pool.nodes[..], pool.Free() + [idx], bids.Levels(), asks.Levels(), orderMap.Contents(), store.chains)
      requires Rep(store, o.orderId) && idx < ORDER_POOL_SIZE
      requires o.next == NULL_IDX && IsOrderKey(o.orderId)
      modifies this`store, pool.nodes, Side(isBid).levels, orderMap, orderMap.table
      ensures Shape() && Synced() && Appended(old(store), isBid, li, idx, o, store)
    {
      hide Rep, OrderMap.Valid, OrderMap.Contents, Sorted, Distinct;
      ghost var s := store;
      ghost var l := s.Levels(isBid)[li];
      RepFacts(s, o.orderId, isBid, li);
      Enqueue(isBid, li, idx, o);
      ghost var key := LevelKey(isBid, l.price);
      store := s.WithLevels(isBid, Side(isBid).Levels())
                .(nodes := pool.nodes[..], free := pool.Free(), locations := orderMap.Contents(),
                  chains := s.chains[key := s.chains[key] + [idx]]);
    }

    /** Adds a resting order. It fails, changing no order, exactly when the pool is
        exhausted or the side has no room for a new price; an exhausted pool leaves
        the level it opened behind. */
    method AddLimit(isBid: bool, price: int, volume: int, participant: int) returns (orderId: nat)
      requires Valid() && nextOrderId < EMPTY_KEY
      modifies Repr()
      ensures Valid()
      ensures orderId == NULL_ORDER_ID <==>
        || old(pool.freeTop) == 0
        || (old(Side(isBid).count) == MAX_PRICE_LEVELS && !HasPrice(old(Side(isBid).Levels()), price))
      ensures orderId == NULL_ORDER_ID ==>
        && View() == old(View())
        && Opened(old(Side(isBid).Levels()), Side(isBid).Levels(), price)
      ensures Side(!isBid).Levels() == old(Side(!isBid).Levels())
      ensures pool.freeTop == if orderId == NULL_ORDER_ID then old(pool.freeTop) else old(pool.freeTop) - 1
      ensures orderId != NULL_ORDER_ID ==>
        orderId == old(nextOrderId) && View() == Accept(old(View()), isBid, price, volume, participant)
      ensures orderId != NULL_ORDER_ID ==>
        forall q :: HasPrice(Side(isBid).Levels(), q) <==> HasPrice(old(Side(isBid).Levels()), q) || q == price
      ensures State() == AddTo(old(State()), isBid, price, volume, participant)
      ensures orderId == if Accepts(old(State()), isBid, price) then old(nextOrderId) else NULL_ORDER_ID
    {
      hide Rep, OrdersOf, Opened, OrderMap.Valid, OrderMap.Contents, Synced, Sorted, GridOf, PricesOf, HasPrice;
      ghost var e, before := State(), Side(isBid).Levels();
      GridStands(isBid);
      PriceListed(before, price);
      var li := LevelFor(isBid, price);
      GridStands(isBid);
      if li == -1 {
        GridOpened(e, State(), isBid, before, Side(isBid).Levels(), price);
        return NULL_ORDER_ID;
      }
      LevelPrices(isBid, before, price, li);
      orderId := QueueNew(isBid, li, price, volume, participant);
      GridStands(isBid);
      GridOpened(e, State(), isBid, before, Side(isBid).Levels(), price);
    }

    /** What decides an add, in terms of the reference book and its levels. */
    lemma GridStands(isBid: bool)
      requires Valid()
      ensures State().grid.On(isBid) == PricesOf(Side(isBid).Levels())
      ensures State().grid.On(!isBid) == PricesOf(Side(!isBid).Levels())
      ensures |State().grid.On(isBid)| == Side(isBid).count <= MAX_PRICE_LEVELS
      ensures HasRoom(View()) <==> pool.freeTop > 0
    {
      hide Rep, OrdersOf, PricesOf, Sorted, OrderMap.Valid, OrderMap.Contents;
      FreeNodes(this);
      PricesCount(Side(isBid).Levels(), isBid);
      StoredLevels(isBid);
      StoredLevels(!isBid);
    }

    lemma LevelPrices(isBid: bool, before: seq<PriceLevel>, price: int, li: nat)
      requires Valid() && Opened(before, Side(isBid).Levels(), price)
      requires li < Side(isBid).count && Side(isBid).levels[li].price == price
      ensures forall q :: HasPrice(Side(isBid).Levels(), q) <==> HasPrice(before, q) || q == price
    {
      PricesOpened(isBid, before, Side(isBid).Levels(), price, li);
    }

    /** The second half of an add: takes a node from the pool and queues the order at
        the level, unless the pool is exhausted. */
    method QueueNew(isBid: bool, li: nat, price: int, volume: int, participant: int) returns (orderId: nat)
      requires Valid() && nextOrderId < EMPTY_KEY && li < Side(isBid).count && Side(isBid).levels[li].price == price
      modifies Repr()
      ensures Valid()
      ensures orderId == NULL_ORDER_ID <==> old(pool.freeTop) == 0
      ensures orderId == NULL_ORDER_ID ==> View() == old(View()) && Side(isBid).Levels() == old(Side(isBid).Levels())
      ensures Side(!isBid).Levels() == old(Side(!isBid).Levels())
      ensures pool.freeTop == if orderId == NULL_ORDER_ID then old(pool.freeTop) else old(pool.freeTop) - 1
      ensures orderId != NULL_ORDER_ID ==>
        && orderId == old(nextOrderId)
        && View() == Accept(old(View()), isBid, price, volume, participant)
        && forall q :: HasPrice(Side(isBid).Levels(), q) <==> HasPrice(old(Side(isBid).Levels()), q)
    {
      hide Rep, OrdersOf, Appended, Distinct, Sorted, OrderMap.Valid, OrderMap.Contents, HasPrice;
      StoredLevels(isBid);
      var idx := pool.Alloc();
      if idx == NULL_IDX { return NULL_ORDER_ID; }
      orderId := nextOrderId;
      nextOrderId := nextOrderId + 1;
      ghost var s := store;
      var o := LimitOrder(orderId, volume, participant, NULL_IDX);
      PlaceAt(isBid, li, idx, o);
      StoredLevels(isBid);
      AppendedPrices(s, isBid, li, idx, o, store);
      AppendKeepsRep(s, orderId, isBid, li, idx, o, store);
    }

    /** Walks the queue of a level to the node `target`, keeping its predecessor. */
    method WalkTo(isBid: bool, li: nat, target: nat, ghost c: seq<nat>) returns (found: bool, prev: nat, ghost k: nat)
      requires Side(isBid).Valid() && li < Side(isBid).count
      requires Describes(pool.nodes[..], Side(isBid).levels[li], c) && pool.nodes.Length < NULL_IDX
      requires target in c
      ensures found && k < |c| && c[k] == target && prev == Before(c, k)
    {
      hide Sorted, Describes, Linked;
      prev := NULL_IDX;
      k := 0;
      ghost var t :| 0 <= t < |c| && c[t] == target;
      QueueStarts(pool.nodes[..], Side(isBid).levels[li], c);
      var cur := Side(isBid).levels[li].head;
      while cur != NULL_IDX
        invariant k <= t
        invariant cur == (if k < |c| then c[k] else NULL_IDX)
        invariant prev == (if k == 0 then NULL_IDX else c[k - 1])
        decreases |c| - k
      {
        if cur == target { return true, prev, k; }
        prev := cur;
        QueueContinues(pool.nodes[..], Side(isBid).levels[li], c, k);
        cur := pool.nodes[cur].next;
        k := k + 1;
      }
      return false, prev, k;
    }

    /** Takes a node out of its list, its level, the pool and the id table. */
    method Detach(isBid: bool, li: nat, x: nat, prev: nat, volume: int)
      requires pool.Valid() && Side(isBid).Valid() && orderMap.Valid() && li < Side(isBid).count
      requires x < ORDER_POOL_SIZE && x !in pool.Free() && (prev == NULL_IDX || prev < ORDER_POOL_SIZE)
      requires IsOrderKey(pool.nodes[x].orderId)
      modifies pool, pool.nodes, pool.freeStack, Side(isBid).levels, orderMap, orderMap.table
      ensures pool.Valid() && Side(isBid).Valid() && orderMap.Valid()
      ensures
        var node := old(pool.nodes[x]);
        && pool.nodes[..] == BypassNode(old(pool.nodes[..]), x, prev)
        && pool.Free() == old(pool.Free()) + [x]
        && Side(isBid).Levels()
           == old(Side(isBid).Levels())[li := BypassLevel(old(Side(isBid).levels[li]), x, prev, node.next, volume)]
        && orderMap.Contents() == old(orderMap.Contents()) - {node.orderId}
    {
      hide OrderMap.Valid, OrderMap.Contents, Sorted, Distinct;
      var side := Side(isBid);
      var node := pool.nodes[x];
      if prev != NULL_IDX {
        pool.nodes[prev] := pool.nodes[prev].(next := node.next);
      }
      side.SetLevel(li, BypassLevel(side.levels[li], x, prev, node.next, volume));
      pool.Release(x);
      orderMap.Erase(node.orderId);
    }

    /** Removes the `k`-th order of a level's queue `c`. */
    method DetachAt(isBid: bool, li: nat, x: nat, prev: nat, volume: int, ghost c: seq<nat>, ghost k: nat)
      requires Valid() && li < |store.Levels(isBid)| && k < |c|
      requires LevelKey(isBid, store.Levels(isBid)[li].price) in store.chains
      requires c == store.chains[LevelKey(isBid, store.Levels(isBid)[li].price)]
      requires x == c[k] && prev == Before(c, k) && x < |store.nodes| && volume == store.nodes[x].volume
      modifies this`store, pool, pool.nodes, pool.freeStack, Side(isBid).levels, orderMap, orderMap.table
      ensures Shape() && Synced() && Unlinked(old(store), isBid, li, k, store)
    {
      hide Rep, OrderMap.Valid, OrderMap.Contents, Sorted, Distinct, Without, BypassNode, BypassLevel;
      ghost var s := store;
      QueuedFacts(s, nextOrderId, isBid, li, k, c);
      assert pool.nodes[x] == s.nodes[x];
      assert Side(isBid).levels[li] == s.Levels(isBid)[li];
      Detach(isBid, li, x, prev, volume);
      store := s.WithLevels(isBid, Side(isBid).Levels())
                .(nodes := pool.nodes[..], free := pool.Free(), locations := orderMap.Contents(),
                  chains := s.chains[LevelKey(isBid, s.Levels(isBid)[li].price) := Without(c, k)]);
    }

    /** Drops a level that has no orders left. */
    method CloseIfEmpty(isBid: bool, li: nat)
      requires Valid() && li < Side(isBid).count
      modifies this`store, Side(isBid), Side(isBid).levels
      ensures Valid() && View() == old(View()) && store.locations == old(store.locations)
      ensures Side(isBid).count <= old(Side(isBid).count)
      ensures old(Side(isBid).levels[li].count) == 0 ==> Side(isBid).count < old(Side(isBid).count)
      ensures GridOf(store) == Vacated(old(GridOf(store)), View().orders, isBid, old(Side(isBid).levels[li].price))
    {
      hide Rep, OrdersOf, Sorted, Distinct, OrderMap.Valid, OrderMap.Contents, StandsFor, PricesOf, Offered;
      var side := Side(isBid);
      assert side.levels[li] == store.Levels(isBid)[li];
      LevelEmptyIff(store, nextOrderId, isBid, li);
      if side.levels[li].count == 0 {
        ghost var s := store;
        side.Erase(li);
        store := s.WithLevels(isBid, side.Levels()).(chains := s.chains - {LevelKey(isBid, s.Levels(isBid)[li].price)});
        CloseLevel(s, nextOrderId, isBid, li, store);
        ErasedPricesOf(s.Levels(isBid), isBid, li);
      }
    }

    /** Withdraws a resting order; it succeeds exactly when the order rests.
        The empty-slot key is not an order id. */
    method Cancel(orderId: nat) returns (ok: bool)
      requires Valid() && orderId != EMPTY_KEY
      modifies Repr()
      ensures Valid()
      ensures ok <==> orderId in old(View()).orders
      ensures State() == RemoveFrom(old(State()), orderId)
    {
      hide Rep, OrdersOf, Distinct, Sorted, GridOf, Vacated;
      ViewKeys(store, nextOrderId);
      if orderId == NULL_ORDER_ID {
        assert View() == Withdraw(View(), orderId);
        return false;
      }
      var slot := orderMap.Find(orderId);
      if slot < 0 {
        assert View() == Withdraw(View(), orderId);
        return false;
      }
      CancelAt(orderId, orderMap.table[slot].location);
      ok := true;
    }

    /** The level of a resting order and its place in the queue. */
    method Locate(at: Location, ghost id: nat) returns (li: nat, prev: nat, ghost c: seq<nat>, ghost k: nat)
      requires Valid() && id in store.locations && store.locations[id] == at
      ensures li < |store.Levels(at.isBid)| && store.Levels(at.isBid)[li].price == at.price
      ensures LevelKey(at.isBid, at.price) in store.chains && c == store.chains[LevelKey(at.isBid, at.price)]
      ensures k < |c| && c[k] == at.index < |store.nodes| && prev == Before(c, k)
    {
      hide Rep, OrdersOf, Distinct, Sorted, OrderMap.Valid, OrderMap.Contents;
      LocationFacts(store, nextOrderId, id);
      var idx := Side(at.isBid).Find(at.price);
      li := idx;
      assert Side(at.isBid).levels[li] == store.Levels(at.isBid)[li];
      LevelDescribed(store, nextOrderId, at.isBid, li);
      c := store.chains[LevelKey(at.isBid, at.price)];
      var found;
      found, prev, k := WalkTo(at.isBid, li, at.index, c);
    }

    /** Unlinks a registered order and closes its level if it was the last. */
    method CancelAt(orderId: nat, at: Location)
      requires Valid() && IsOrderKey(orderId)
      requires orderId in store.locations && store.locations[orderId] == at
      modifies Repr()
      ensures Valid()
      ensures State() == RemoveFrom(old(State()), orderId)
    {
      hide Rep, OrdersOf, Distinct, Sorted, OrderMap.Valid, OrderMap.Contents, Unlinked, GridOf, Vacated;
      LocationFacts(store, nextOrderId, orderId);
      ghost var s := store;
      var volume := pool.nodes[at.index].volume;
      assert pool.nodes[at.index] == s.nodes[at.index];
      var li, prev, c, k := Locate(at, orderId);
      DetachAt(at.isBid, li, at.index, prev, volume, c, k);
      UnlinkKeepsRep(s, nextOrderId, at.isBid, li, k, store);
      UnlinkedGrid(s, at.isBid, li, k, store);
      assert Side(at.isBid).levels[li] == store.Levels(at.isBid)[li];
      CloseIfEmpty(at.isBid, li);
    }

    /** Takes `v` off the order at the head of the best level. */
    method ReduceHead(isBid: bool, v: int)
      requires Valid() && 0 < |store.Levels(isBid)| && store.Levels(isBid)[0].head < |store.nodes|
      modifies this`store, pool.nodes, Side(isBid).levels
      ensures Shape() && Synced() && Reduced(old(store), isBid, 0, v, store)
    {
      hide Rep, OrderMap.Valid, OrderMap.Contents, Sorted, Distinct;
      ghost var s := store;
      var side := Side(isBid);
      var l := side.levels[0];
      assert l == s.Levels(isBid)[0];
      pool.nodes[l.head] := pool.nodes[l.head].(volume := pool.nodes[l.head].volume - v);
      side.SetLevel(0, l.(totalVolume := Wrap64(l.totalVolume - v)));
      store := s.WithLevels(isBid, side.Levels()).(nodes := pool.nodes[..]);
    }

    /** Unlinks the used-up order at the head of the best level. */
    method RemoveHead(isBid: bool)
      requires Valid() && 0 < |store.Levels(isBid)| && store.Levels(isBid)[0].head < |store.nodes|
      requires store.nodes[store.Levels(isBid)[0].head].volume == 0
      modifies this`store, pool, pool.nodes, pool.freeStack, Side(isBid), Side(isBid).levels, orderMap, orderMap.table
      ensures Valid()
      ensures View() == Withdraw(old(View()), old(store).nodes[old(store).Levels(isBid)[0].head].orderId)
      ensures |store.locations| < |old(store).locations|
      ensures GridOf(store) == Vacated(old(GridOf(store)), View().orders, isBid, old(store).Levels(isBid)[0].price)
    {
      hide Rep, OrdersOf, Sorted, Distinct, OrderMap.Valid, OrderMap.Contents, Unlinked, GridOf, Vacated;
      ghost var s := store;
      var x := Side(isBid).levels[0].head;
      assert Side(isBid).levels[0] == s.Levels(isBid)[0];
      HeadFacts(s, nextOrderId, isBid, 0);
      ghost var c := s.chains[LevelKey(isBid, s.Levels(isBid)[0].price)];
      DetachAt(isBid, 0, x, NULL_IDX, 0, c, 0);
      UnlinkKeepsRep(s, nextOrderId, isBid, 0, 0, store);
      UnlinkShrinks(s, isBid, 0, 0, store);
      UnlinkedGrid(s, isBid, 0, 0, store);
      assert Side(isBid).levels[0] == store.Levels(isBid)[0];
      CloseIfEmpty(isBid, 0);
    }

    /** Takes `v` off the order at the head of the best level and drops the order if
        that uses it up. */
    method TakeFromHead(isBid: bool, v: int, ghost id: nat)
      requires Valid() && 0 < |store.Levels(isBid)| && store.Levels(isBid)[0].head < |store.nodes|
      requires id == store.nodes[store.Levels(isBid)[0].head].orderId && id in View().orders
      modifies this`store, pool, pool.nodes, pool.freeStack, Side(isBid), Side(isBid).levels, orderMap, orderMap.table
      ensures Valid()
      ensures View() == old(View()).(orders := Reduce(old(View()).orders, id, v))
      ensures
        || |store.locations| < |old(store).locations|
        || (v != old(View()).orders[id].volume && store.locations == old(store).locations
            && Side(isBid).count == old(Side(isBid).count))
      ensures GridOf(store) == Vacated(old(GridOf(store)), View().orders, isBid, old(store).Levels(isBid)[0].price)
    {
      hide Rep, OrdersOf, Sorted, Distinct, OrderMap.Valid, OrderMap.Contents, Reduced, GridOf, Vacated;
      ghost var s := store;
      var head := Side(isBid).levels[0].head;
      assert Side(isBid).levels[0] == s.Levels(isBid)[0];
      HeadVolume(s, nextOrderId, isBid, id);
      ReduceHead(isBid, v);
      ReduceKeepsRep(s, nextOrderId, isBid, 0, v, store);
      ReducedFacts(s, isBid, v, store);
      ReduceTwice(old(View()).orders, id, v);
      ReducedGrid(s, isBid, v, store);
      if pool.nodes[head].volume == 0 {
        RemoveHead(isBid);
      } else {
        StillOffered(old(GridOf(store)), View().orders, isBid, s.Levels(isBid)[0].price, id);
      }
    }

    /** One execution against the head of the best level. */
    method TradeHead(isBuy: bool, remaining: int, taker: int) returns (f: MatchedFill, ghost id: nat)
      requires Valid() && remaining > 0
      requires 0 < |store.Levels(!isBuy)| && store.Levels(!isBuy)[0].head != NULL_IDX
      modifies Repr()
      ensures Valid() && nextOrderId == old(nextOrderId)
      ensures id in old(View()).orders && IsTop(old(View()).orders, !isBuy, id)
      ensures
        var o := old(View()).orders[id];
        var v := Min(remaining, o.volume);
        && f == FillOf(id, o, v, isBuy, taker)
        && View() == Book(Reduce(old(View()).orders, id, v), nextOrderId, f.price, old(totalFills) + 1)
      ensures
        || |store.locations| < |old(store).locations|
        || (f.volume == remaining && store.locations == old(store).locations && Side(!isBuy).count == old(Side(!isBuy).count))
      ensures NamesParties(f, old(View()).orders, isBuy, taker) && f.makerId == id
      ensures GridOf(store) == Vacated(old(GridOf(store)), View().orders, !isBuy, f.price)
      ensures IsBestKey(old(GridOf(store)).On(!isBuy), !isBuy, f.price)
    {
      hide Rep, OrdersOf, Sorted, Distinct, OrderMap.Valid, OrderMap.Contents, Reduced, IsTop, Reduce, GridOf, Vacated,
           IsBestKey;
      ghost var s := store;
      var l := Side(!isBuy).levels[0];
      assert l == s.Levels(!isBuy)[0];
      HeadOrder(s, nextOrderId, !isBuy);
      FirstLevelBest(!isBuy);
      var maker := pool.nodes[l.head];
      assert maker == s.nodes[l.head];
      id := maker.orderId;
      var v := Min(remaining, maker.volume);
      f := MatchedFill(l.price, v, taker, maker.participant, maker.orderId, isBuy,
                       taker == CONTESTANT, maker.participant == CONTESTANT);
      lastTrade := l.price;
      totalFills := totalFills + 1;
      TakeFromHead(!isBuy, v, id);
    }

    /** Matches against the opposite side until the taker or the side is done. */
    method MarketOrder(isBuy: bool, volume: int, taker: int) returns (fills: seq<MatchedFill>)
      requires Valid()
      modifies Repr()
      ensures Valid()
      ensures fills == Match(old(View()).orders, isBuy, volume, taker).fills
      ensures forall k :: 0 <= k < |fills| ==> NamesParties(fills[k], old(View()).orders, isBuy, taker)
      ensures State() == TradeOn(old(State()), isBuy, volume, taker)
    {
      hide Rep, OrdersOf, Sorted, Distinct, OrderMap.Valid, OrderMap.Contents, IsTop, Match, Shape, Synced, GridOf,
           Vacated, TradedPrices, IsBestKey, NamesParties;
      fills := [];
      var side := Side(!isBuy);
      var remaining := volume;
      ghost var os, grid := View().orders, GridOf(store);
      while remaining > 0 && side.count > 0
        invariant Valid() && nextOrderId == old(nextOrderId)
        invariant totalFills == old(totalFills) + |fills|
        invariant lastTrade == LastPrice(fills, old(lastTrade))
        invariant Resumes(os, isBuy, volume, taker, fills, View().orders, remaining)
        invariant GridOf(store).On(isBuy) == grid.On(isBuy)
        invariant TradedPrices(GridOf(store).On(!isBuy), View().orders, isBuy, remaining, taker)
          == TradedPrices(grid.On(!isBuy), os, isBuy, volume, taker)
        decreases |store.locations|, side.count, remaining
      {
        LevelsCount(isBuy);
        if side.levels[0].head == NULL_IDX {
          EmptyHead(isBuy);
          EmptyTurn(isBuy, remaining, taker);
          CloseIfEmpty(!isBuy, 0);
          continue;
        }
        ghost var before, listed := View().orders, GridOf(store);
        ghost var id: nat;
        var f: MatchedFill;
        GridCovers(store, nextOrderId, !isBuy);
        f, id := TradeHead(isBuy, remaining, taker);
        FillTurn(listed, before, isBuy, remaining, taker, id);
        ResumesNext(os, isBuy, volume, taker, fills, before, remaining, id);
        fills := fills + [f];
        remaining := remaining - f.volume;
      }
      LevelsCount(isBuy);
      if remaining > 0 { NoLevelsNoOrders(store, nextOrderId, !isBuy); }
      MatchEnds(View().orders, isBuy, remaining, taker);
      LevelsLeft(isBuy, remaining, taker);
      GridSplit(GridOf(store), grid, isBuy);
      forall k | 0 <= k < |fills| ensures NamesParties(fills[k], os, isBuy, taker) {
        FillsNameParties(os, isBuy, volume, taker, k);
      }
    }

    /** The loop ends with the levels the match leaves. */
    lemma LevelsLeft(isBuy: bool, remaining: int, taker: int)
      requires Valid() && (remaining > 0 ==> Side(!isBuy).count == 0 && !HasSide(View().orders, !isBuy))
      ensures TradedPrices(GridOf(store).On(!isBuy), View().orders, isBuy, remaining, taker) == GridOf(store).On(!isBuy)
    {
      hide Rep, OrdersOf, TradedPrices, Sorted, Match;
      NothingLeft(View().orders, isBuy, remaining, taker);
      StoredLevels(!isBuy);
      GridSides(store, !isBuy);
    }

    /** A turn that only closes the empty first level. */
    lemma EmptyTurn(isBuy: bool, remaining: int, taker: int)
      requires Valid() && remaining > 0 && Side(!isBuy).count > 0 && Side(!isBuy).levels[0].count == 0
      ensures
        var ps := GridOf(store).On(!isBuy);
        var closed := Vacated(GridOf(store), View().orders, !isBuy, Side(!isBuy).levels[0].price);
        && TradedPrices(closed.On(!isBuy), View().orders, isBuy, remaining, taker)
           == TradedPrices(ps, View().orders, isBuy, remaining, taker)
        && closed.On(isBuy) == GridOf(store).On(isBuy)
    {
      hide Rep, OrdersOf, TradedPrices, Sorted, Match, GridOf;
      StoredLevels(!isBuy);
      LevelEmptyIff(store, nextOrderId, !isBuy, 0);
      FirstLevelBest(!isBuy);
      GridCovers(store, nextOrderId, !isBuy);
      EmptyLevelPassed(GridOf(store).On(!isBuy), View().orders, isBuy, remaining, taker, Side(!isBuy).levels[0].price);
    }

    lemma FirstLevelBest(isBid: bool)
      requires Valid() && Side(isBid).count > 0
      ensures IsBestKey(GridOf(store).On(isBid), isBid, Side(isBid).levels[0].price)
    {
      hide Rep, OrdersOf, PricesOf;
      StoredLevels(isBid);
      GridSides(store, isBid);
      FirstPriceBest(store.Levels(isBid), isBid);
    }

    lemma StoredLevels(isBid: bool)
      requires Shape() && Synced()
      ensures Side(isBid).Levels() == store.Levels(isBid)
    {
    }

    lemma LevelsCount(isBuy: bool)
      requires Valid()
      ensures Side(!isBuy).count == |store.Levels(!isBuy)| <= Side(!isBuy).levels.Length
      ensures Side(!isBuy).count > 0 ==> Side(!isBuy).levels[0] == store.Levels(!isBuy)[0]
    {
    }

    lemma EmptyHead(isBuy: bool)
      requires Valid() && Side(!isBuy).count > 0 && store.Levels(!isBuy)[0].head == NULL_IDX
      ensures store.Levels(!isBuy)[0].count == 0
    {
      LevelDescribed(store, nextOrderId, !isBuy, 0);
    }
  }

  /** An execution against the top order, and the closing of its level with it. */
  lemma FillTurn(grid: Grid, os: Orders, isBuy: bool, remaining: int, taker: int, id: nat)
    requires remaining > 0 && IsTop(os, !isBuy, id) && Covers(grid.On(!isBuy), os, !isBuy)
    requires IsBestKey(grid.On(!isBuy), !isBuy, os[id].price)
    ensures
      var v := Min(remaining, os[id].volume);
      var os' := Reduce(os, id, v);
      var grid' := Vacated(grid, os', !isBuy, os[id].price);
      && TradedPrices(grid'.On(!isBuy), os', isBuy, remaining - v, taker)
         == TradedPrices(grid.On(!isBuy), os, isBuy, remaining, taker)
      && grid'.On(isBuy) == grid.On(isBuy)
  {
    hide TradedPrices, Offered;
    FillPassed(grid.On(!isBuy), os, isBuy, remaining, taker, id);
  }

  lemma GridSplit(g: Grid, before: Grid, isBuy: bool)
    requires g.On(isBuy) == before.On(isBuy)
    ensures g == before.With(!isBuy, g.On(!isBuy))
  {
  }

  /** A level with an order left stays. */
  lemma StillOffered(g: Grid, os: Orders, isBid: bool, price: int, id: nat)
    requires AtPrice(os, isBid, price, id)
    ensures Vacated(g, os, isBid, price) == g
  {
  }

  /** The prices listed after an add. */
  lemma GridOpened(e: EngineState, e': EngineState, isBid: bool,
                   before: seq<PriceLevel>, after: seq<PriceLevel>, price: int)
    requires e.grid.On(isBid) == PricesOf(before) && e'.grid.On(isBid) == PricesOf(after)
    requires e'.grid.On(!isBid) == e.grid.On(!isBid) && |e.grid.On(isBid)| == |before| <= MAX_PRICE_LEVELS
    requires
      || Opened(before, after, price)
      || (FindsLevel(e.grid, isBid, price) && forall q :: HasPrice(after, q) <==> HasPrice(before, q) || q == price)
    ensures e'.grid == Opening(e.grid, isBid, price)
    ensures price in e.grid.On(isBid) <==> HasPrice(before, price)
  {
    hide PricesOf, HasPrice;
    PriceListed(before, price);
    if Opened(before, after, price) {
      OpenedPricesOf(before, after, price);
    } else {
      forall q ensures q in PricesOf(after) <==> q in PricesOf(before) || q == price {
        PriceListed(before, q);
        PriceListed(after, q);
      }
    }
  }

  lemma PricesOpened(isBid: bool, before: seq<PriceLevel>, after: seq<PriceLevel>, price: int, li: nat)
    requires Opened(before, after, price) && li < |after| && after[li].price == price
    ensures forall q :: HasPrice(after, q) <==> HasPrice(before, q) || q == price
  {
    forall q ensures HasPrice(after, q) <==> HasPrice(before, q) || q == price {
      OpenedPrices(before, after, price, q);
    }
  }

  lemma AppendedPrices(s: Store, isBid: bool, li: nat, idx: nat, o: LimitOrder, s': Store)
    requires Appended(s, isBid, li, idx, o, s')
    ensures forall q :: HasPrice(s'.Levels(isBid), q) <==> HasPrice(s.Levels(isBid), q)
  {
    var lv, lv' := s.Levels(isBid), s'.Levels(isBid);
    assert |lv'| == |lv| && forall i :: 0 <= i < |lv| ==> lv'[i].price == lv[i].price;
  }

  /** No node is lost: the free ones and the resting orders make up the pool. */
  lemma FreeNodes(lob: PersistentLob)
    requires lob.Valid()
    ensures lob.pool.freeTop + |lob.View().orders| == ORDER_POOL_SIZE
  {
    ViewKeys(lob.store, lob.nextOrderId);
    assert |lob.store.locations| == |lob.store.locations.Keys|;
    assert |lob.View().orders| == |lob.View().orders.Keys|;
  }

  lemma QueueStarts(nodes: seq<LimitOrder>, l: PriceLevel, c: seq<nat>)
    requires Describes(nodes, l, c)
    ensures l.head == HeadOf(c) && InPool(nodes, c)
  {
  }

  lemma QueueContinues(nodes: seq<LimitOrder>, l: PriceLevel, c: seq<nat>, k: nat)
    requires Describes(nodes, l, c) && k < |c|
    ensures c[k] < |nodes| && nodes[c[k]].next == Successor(c, k)
  {
  }

  /** What an operation on level `li` may rely on. */
  lemma RepFacts(s: Store, nextId: nat, isBid: bool, li: nat)
    requires Rep(s, nextId) && li < |s.Levels(isBid)|
    ensures
      var l := s.Levels(isBid)[li];
      && LevelKey(isBid, l.price) in s.chains
      && (l.tail == NULL_IDX || l.tail < ORDER_POOL_SIZE)
      && (l.head == NULL_IDX || l.head < ORDER_POOL_SIZE)
    ensures nextId !in s.locations
    ensures |s.nodes| == ORDER_POOL_SIZE && |s.locations| <= ORDER_POOL_SIZE
  {
    assert SideRep(s, isBid);
    LevelQueue(s, isBid, li);
  }

  lemma LevelDescribed(s: Store, nextId: nat, isBid: bool, li: nat)
    requires Rep(s, nextId) && li < |s.Levels(isBid)|
    ensures
      var l := s.Levels(isBid)[li];
      LevelKey(isBid, l.price) in s.chains && Describes(s.nodes, l, s.chains[LevelKey(isBid, l.price)])
  {
    assert SideRep(s, isBid);
  }

  /** What the entry of a resting order may be relied on for. */
  lemma LocationFacts(s: Store, nextId: nat, id: nat)
    requires Rep(s, nextId) && id in s.locations
    ensures
      var at := s.locations[id];
      && at.index < |s.nodes| == ORDER_POOL_SIZE && s.nodes[at.index].orderId == id
      && LevelKey(at.isBid, at.price) in s.chains
      && at.index in s.chains[LevelKey(at.isBid, at.price)]
      && HasPrice(s.Levels(at.isBid), at.price)
      && id in OrdersOf(s) && OrdersOf(s)[id].isBid == at.isBid && OrdersOf(s)[id].price == at.price
  {
    assert Located(s, id);
    assert SideRep(s, s.locations[id].isBid);
  }

  lemma QueuedFacts(s: Store, nextId: nat, isBid: bool, li: nat, k: nat, c: seq<nat>)
    requires Rep(s, nextId) && nextId <= EMPTY_KEY && li < |s.Levels(isBid)|
    requires LevelKey(isBid, s.Levels(isBid)[li].price) in s.chains
    requires c == s.chains[LevelKey(isBid, s.Levels(isBid)[li].price)] && k < |c|
    ensures |s.nodes| == ORDER_POOL_SIZE
    ensures c[k] < |s.nodes| && c[k] !in s.free && IsOrderKey(s.nodes[c[k]].orderId)
    ensures Before(c, k) == NULL_IDX || Before(c, k) < |s.nodes|
  {
    var key := LevelKey(isBid, s.Levels(isBid)[li].price);
    assert Registered(s, key, c[k]);
    QueuesDisjoint(s, key, c[k]);
    if k > 0 { assert Registered(s, key, c[k - 1]); }
  }

  lemma ViewKeys(s: Store, nextId: nat)
    requires Rep(s, nextId)
    ensures OrdersOf(s).Keys == s.locations.Keys && NULL_ORDER_ID !in s.locations
  {
    OrdersAreLocations(s, nextId);
  }

  lemma HeadFacts(s: Store, nextId: nat, isBid: bool, li: nat)
    requires Rep(s, nextId) && li < |s.Levels(isBid)| && s.Levels(isBid)[li].head < |s.nodes|
    ensures
      var l := s.Levels(isBid)[li];
      var key := LevelKey(isBid, l.price);
      key in s.chains && s.chains[key] != [] && s.chains[key][0] == l.head
  {
    LevelDescribed(s, nextId, isBid, li);
  }

  lemma UnlinkShrinks(s: Store, isBid: bool, li: nat, k: nat, s': Store)
    requires Unlinked(s, isBid, li, k, s')
    requires s.nodes[s.chains[LevelKey(isBid, s.Levels(isBid)[li].price)][k]].orderId in s.locations
    ensures |s'.locations| < |s.locations|
  {
    RemoveSize(s.locations, s.nodes[s.chains[LevelKey(isBid, s.Levels(isBid)[li].price)][k]].orderId);
  }

  /** The order at the head of the best level, as the reference book sees it. */
  lemma HeadOrder(s: Store, nextId: nat, isBid: bool)
    requires Rep(s, nextId)
    requires s.Levels(isBid) != [] && s.Levels(isBid)[0].head != NULL_IDX
    ensures
      var l := s.Levels(isBid)[0];
      && l.head < |s.nodes|
      && var node := s.nodes[l.head];
      && IsTop(OrdersOf(s), isBid, node.orderId)
      && node.orderId in OrdersOf(s)
      && OrdersOf(s)[node.orderId] == Resting(isBid, l.price, node.volume, node.participant)
  {
    HeadIsTop(s, nextId, isBid);
  }

  lemma HeadVolume(s: Store, nextId: nat, isBid: bool, id: nat)
    requires Rep(s, nextId) && s.Levels(isBid) != [] && s.Levels(isBid)[0].head < |s.nodes|
    requires id == s.nodes[s.Levels(isBid)[0].head].orderId && id in OrdersOf(s)
    ensures OrdersOf(s)[id].volume == s.nodes[s.Levels(isBid)[0].head].volume
    ensures AtPrice(OrdersOf(s), isBid, s.Levels(isBid)[0].price, id)
  {
    hide Describes;
    HeadRegisteredAt(s, nextId, isBid);
  }

  lemma HeadRegisteredAt(s: Store, nextId: nat, isBid: bool)
    requires Rep(s, nextId) && s.Levels(isBid) != [] && s.Levels(isBid)[0].head < |s.nodes|
    ensures
      var x := s.Levels(isBid)[0].head;
      s.nodes[x].orderId in s.locations
      && s.locations[s.nodes[x].orderId] == Location(x, s.Levels(isBid)[0].price, isBid)
  {
    HeadRegistered(s, isBid, 0);
  }

  /** Reducing an order to nothing and dropping it is taking all of it. */
  lemma ReduceTwice(os: Orders, id: nat, v: int)
    requires id in os
    ensures
      var reduced := os[id := os[id].(volume := os[id].volume - v)];
      Reduce(os, id, v) == if v == os[id].volume then reduced - {id} else reduced
  {
  }

  lemma ReducedFacts(s: Store, isBid: bool, v: int, s': Store)
    requires Reduced(s, isBid, 0, v, s')
    ensures
      var x := s.Levels(isBid)[0].head;
      && s'.locations == s.locations && |s'.Levels(isBid)| == |s.Levels(isBid)| && |s'.nodes| == |s.nodes|
      && s'.Levels(isBid)[0].head == x
      && s'.nodes[x].orderId == s.nodes[x].orderId
      && s'.nodes[x].volume == s.nodes[x].volume - v
  {
  }

  /** After `done`, the whole match is what is left to match from `now`. */
  ghost predicate Resumes(os: Orders, isBuy: bool, volume: int, taker: int,
                          done: seq<MatchedFill>, now: Orders, remaining: int)
  {
    var r := Match(now, isBuy, remaining, taker);
    Match(os, isBuy, volume, taker) == MatchResult(done + r.fills, r.orders, r.left)
  }

  lemma ResumesNext(os: Orders, isBuy: bool, volume: int, taker: int,
                    done: seq<MatchedFill>, now: Orders, remaining: int, id: nat)
    requires Resumes(os, isBuy, volume, taker, done, now, remaining)
    requires remaining > 0 && id in now && IsTop(now, !isBuy, id)
    ensures
      var v := Min(remaining, now[id].volume);
      Resumes(os, isBuy, volume, taker, done + [FillOf(id, now[id], v, isBuy, taker)], Reduce(now, id, v), remaining - v)
  {
    hide Match, IsTop;
    MatchTurn(now, isBuy, remaining, taker, id);
    var v := Min(remaining, now[id].volume);
    var f := FillOf(id, now[id], v, isBuy, taker);
    var r := Match(Reduce(now, id, v), isBuy, remaining - v, taker);
    assert done + ([f] + r.fills) == (done + [f]) + r.fills;
  }

  /** Writes the fresh node and points the old tail at it. */
  method LinkNode(nodes: array<LimitOrder>, idx: nat, o: LimitOrder, tail: nat)
    requires idx < nodes.Length && (tail == NULL_IDX || tail < nodes.Length)
    modifies nodes
    ensures nodes[..] == AppendNode(old(nodes[..]), idx, o, tail)
  {
    nodes[idx] := o;
    if tail != NULL_IDX {
      nodes[tail] := nodes[tail].(next := idx);
    }
  }

  lemma EmptyStore(s: Store)
    requires |s.nodes| == ORDER_POOL_SIZE == |s.free| && Distinct(s.free)
    requires forall k :: 0 <= k < |s.free| ==> s.free[k] < |s.nodes|
    requires s.bids == [] && s.asks == [] && s.locations == map[] && s.chains == map[]
    ensures Rep(s, 1) && OrdersOf(s) == map[]
  {
    hide Elements, Range, Describes, Distinct;
    AllFree(s.free);
    assert Distinct(s.free);
    assert forall x :: 0 <= x < |s.nodes| ==> x in s.free && !InUse(s, x);
    assert |s.free| + |s.locations| == |s.nodes|;
    assert PoolRep(s);
  }

  /** As many distinct indices as the pool has nodes are all of them. */
  lemma AllFree(free: seq<nat>)
    requires |free| == ORDER_POOL_SIZE && Distinct(free) && forall k :: 0 <= k < |free| ==> free[k] < ORDER_POOL_SIZE
    ensures forall x :: 0 <= x < ORDER_POOL_SIZE ==> x in free
  {
    hide Range, Distinct;
    DistinctSize(free);
    RangeMembers(ORDER_POOL_SIZE);
    SubsetSize(Elements(free), Range(ORDER_POOL_SIZE));
    forall x | 0 <= x < ORDER_POOL_SIZE ensures x in free {
      assert x in Range(ORDER_POOL_SIZE);
      assert x in Elements(free);
    }
  }
}

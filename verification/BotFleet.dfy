/** The bots as objects over the engine's book (game-master/bot_fleet.hpp), proved
    against BotSpec. */
module BotFleets {
  import opened MarketTypes
  import opened PriceTimeBook
  import opened OrderTable
  import opened OrderPools
  import opened LobSides
  import opened BookRep
  import opened PriceGrids
  import opened PersistentLobs
  import opened BotSpec

  /** Where the `i`-th oldest id of a ring is stored. */
  function Slot(capacity: nat, head: nat, count: nat, i: nat): (s: nat)
    requires head < capacity && i < count <= capacity
    ensures s < capacity
  {
    if count < capacity then i else if head + i < capacity then head + i else head + i - capacity
  }

  function NextSlot(capacity: nat, head: nat): (s: nat)
    requires head < capacity
    ensures s < capacity
  {
    if head + 1 == capacity then 0 else head + 1
  }

  lemma NextSlotIsModulo(capacity: nat, head: nat)
    requires head < capacity
    ensures (head + 1) % capacity == NextSlot(capacity, head)
  {
    if head + 1 == capacity {
      assert capacity % capacity == 0;
    } else {
      assert (head + 1) % capacity == head + 1;
    }
  }

  /** The slots hold `contents`, oldest first, and `head` is the next to write. */
  ghost predicate RingHolds(ids: seq<nat>, head: nat, count: nat, contents: seq<nat>) {
    && head < |ids| && count <= |ids| && |contents| == count
    && (count < |ids| ==> head == count)
    && forall i :: 0 <= i < count ==> ids[Slot(|ids|, head, count, i)] == contents[i]
  }

  lemma PushFull(ids: seq<nat>, head: nat, contents: seq<nat>, id: nat)
    requires RingHolds(ids, head, |ids|, contents)
    ensures contents[0] == ids[head]
    ensures RingHolds(ids[head := id], NextSlot(|ids|, head), |ids|, contents[1..] + [id])
  {
    var n := |ids|;
    var ids', head', contents' := ids[head := id], NextSlot(n, head), contents[1..] + [id];
    assert Slot(n, head, n, 0) == head;
    forall i | 0 <= i < n ensures ids'[Slot(n, head', n, i)] == contents'[i] {
      if i < n - 1 {
        assert Slot(n, head', n, i) == Slot(n, head, n, i + 1) != head;
        assert contents'[i] == contents[i + 1];
      } else {
        assert Slot(n, head', n, i) == head;
      }
    }
  }

  lemma PushPartial(ids: seq<nat>, count: nat, contents: seq<nat>, id: nat)
    requires count < |ids| && RingHolds(ids, count, count, contents)
    ensures RingHolds(ids[count := id], NextSlot(|ids|, count), count + 1, contents + [id])
  {
    var n := |ids|;
    var ids', head', contents' := ids[count := id], NextSlot(n, count), contents + [id];
    forall i | 0 <= i < count + 1 ensures ids'[Slot(n, head', count + 1, i)] == contents'[i] {
      assert Slot(n, head', count + 1, i) == i;
      if i < count {
        assert ids[Slot(n, count, count, i)] == contents[i];
      }
    }
  }

  /** A fixed ring of order ids; a push into a full ring hands back the oldest. */
  class OrderRing {
    const ids: array<nat>
    const capacity: nat
    var head: nat
    var count: nat
    ghost var contents: seq<nat>  // oldest first

    ghost predicate Valid()
      reads this, ids
    {
      0 < capacity == ids.Length && RingHolds(ids[..], head, count, contents)
    }

    constructor (capacity: nat)
      requires capacity > 0
      ensures Valid() && contents == [] && this.capacity == capacity && fresh(ids)
    {
      ids := new nat[capacity](_ => 0);
      this.capacity := capacity;
      head, count, contents := 0, 0, [];
    }

    method Push(newId: nat) returns (evicted: nat)
      requires Valid()
      modifies this, ids
      ensures Valid()
      ensures contents == Pushed(old(contents), capacity, newId)
      ensures evicted == Evicted(old(contents), capacity)
    {
      hide Slot;
      evicted := 0;
      NextSlotIsModulo(capacity, head);
      ghost var before := ids[..];
      if count == capacity {
        PushFull(before, head, contents, newId);
        evicted := ids[head];
        contents := contents[1..] + [newId];
      } else {
        PushPartial(before, count, contents, newId);
        count := count + 1;
        contents := contents + [newId];
      }
      ids[head] := newId;
      assert ids[..] == before[head := newId];
      head := (head + 1) % capacity;
    }
  }

  class BotFleet {
    const mrBids: OrderRing
    const mrAsks: OrderRing
    const noise: OrderRing
    var bidOrderId: nat
    var askOrderId: nat

    ghost function Repr(): set<object> {
      {this, mrBids, mrBids.ids, mrAsks, mrAsks.ids, noise, noise.ids}
    }

    ghost predicate Valid()
      reads Repr()
    {
      && mrBids != mrAsks && mrBids != noise && mrAsks != noise
      && mrBids.ids != mrAsks.ids && mrBids.ids != noise.ids && mrAsks.ids != noise.ids
      && mrBids.Valid() && mrAsks.Valid() && noise.Valid()
      && mrBids.capacity == MAX_MR_ORDERS == mrAsks.capacity && noise.capacity == MAX_NOISE_ORDERS
    }

    ghost function State(): Fleet
      reads Repr()
    {
      Fleet(bidOrderId, askOrderId, mrBids.contents, mrAsks.contents, noise.contents)
    }

    constructor ()
      ensures Valid() && fresh(Repr()) && State() == NEW_FLEET
    {
      mrBids := new OrderRing(MAX_MR_ORDERS);
      mrAsks := new OrderRing(MAX_MR_ORDERS);
      noise := new OrderRing(MAX_NOISE_ORDERS);
      bidOrderId, askOrderId := 0, 0;
    }

    /** The book and the bots share no storage. */
    ghost predicate Apart(lob: PersistentLob) {
      Repr() !! lob.Repr()
    }

    /** Withdraws the maker's previous quotes. */
    method CancelQuotes(lob: PersistentLob)
      requires lob.Valid() && Apart(lob) && bidOrderId < EMPTY_KEY && askOrderId < EMPTY_KEY
      modifies lob.Repr()
      ensures lob.Valid()
      ensures lob.State() == RemoveIfAny(RemoveIfAny(old(lob.State()), bidOrderId), askOrderId)
    {
      hide PersistentLob.Shape, PersistentLob.Synced, Rep, OrdersOf, GridOf, RemoveFrom;
      if bidOrderId != 0 { var _ := lob.Cancel(bidOrderId); }
      if askOrderId != 0 { var _ := lob.Cancel(askOrderId); }
    }

    /** Posts one bid and one ask after cancelling the previous ones. */
    method MarketMaker(lob: PersistentLob, bid: Quote, ask: Quote)
      requires lob.Valid() && Apart(lob) && lob.nextOrderId + 2 < EMPTY_KEY
      requires bidOrderId < EMPTY_KEY && askOrderId < EMPTY_KEY
      modifies lob.Repr(), this`bidOrderId, this`askOrderId
      ensures lob.Valid()
      ensures (lob.State(), Fleet(bidOrderId, askOrderId, [], [], []))
              == MakerStep(old(lob.State()), Fleet(old(bidOrderId), old(askOrderId), [], [], []), bid, ask)
    {
      hide PersistentLob.Shape, PersistentLob.Synced, Rep, OrdersOf, GridOf, Accepts, Opening, RemoveIfAny, HasPrice;
      WithdrawalIds(lob.State(), bidOrderId, askOrderId);
      CancelQuotes(lob);
      bidOrderId := lob.AddLimit(true, bid.price, bid.volume, BOT_MM);
      askOrderId := lob.AddLimit(false, ask.price, ask.volume, BOT_MM);
    }

    /** Sends market orders one after the other. */
    method Take(lob: PersistentLob, moves: seq<MarketMove>, bot: int)
      requires lob.Valid()
      modifies lob.Repr()
      ensures lob.Valid() && lob.State() == TakerStep(old(lob.State()), moves, bot)
    {
      hide PersistentLob.Shape, PersistentLob.Synced, Rep, OrdersOf, GridOf, TradeOn, Match;
      for i := 0 to |moves|
        invariant lob.Valid() && lob.State() == TakerStep(old(lob.State()), moves[..i], bot)
      {
        var _ := lob.MarketOrder(moves[i].isBuy, moves[i].volume, bot);
        assert moves[..i + 1][..i] == moves[..i];
      }
      assert moves[..|moves|] == moves;
    }

    /** Places an order through a ring and cancels the one it pushes out. */
    method Rest(lob: PersistentLob, ring: OrderRing, isBid: bool, price: int, volume: int, participant: int)
      requires lob.Valid() && ring.Valid() && {ring, ring.ids} !! lob.Repr()
      requires lob.nextOrderId + 1 < EMPTY_KEY && forall id :: id in ring.contents ==> id < EMPTY_KEY
      modifies lob.Repr(), ring, ring.ids
      ensures lob.Valid() && ring.Valid()
      ensures (lob.State(), ring.contents)
              == RestCapped(old(lob.State()), old(ring.contents), ring.capacity, isBid, price, volume, participant)
    {
      hide PersistentLob.Shape, PersistentLob.Synced, Rep, OrdersOf, GridOf, Slot, AddTo, Accepts, RemoveFrom, HasPrice;
      var id := lob.AddLimit(isBid, price, volume, participant);
      assert forall k :: 0 <= k < |ring.contents| ==> ring.contents[k] in ring.contents;
      var evicted := ring.Push(id);
      if evicted != 0 { var _ := lob.Cancel(evicted); }
    }

    /** One resting decision of the mean-reversion bot. */
    method MeanReversion(lob: PersistentLob, m: RestingMove)
      requires lob.Valid() && Valid() && Apart(lob) && lob.nextOrderId + 1 < EMPTY_KEY
      requires Capped(lob.View(), State())
      modifies lob.Repr(), mrBids, mrBids.ids, mrAsks, mrAsks.ids
      ensures lob.Valid() && Valid()
      ensures (lob.State(), State()) == MeanReversionStep(old(lob.State()), old(State()), m)
    {
      hide PersistentLob.Shape, PersistentLob.Synced, Rep, OrdersOf, GridOf, Slot, Pushed, Evicted, Owned, RestCapped;
      if m.Rest? {
        if m.isBid {
          Rest(lob, mrBids, true, m.price, m.volume, BOT_MR);
        } else {
          Rest(lob, mrAsks, false, m.price, m.volume, BOT_MR);
        }
      }
    }

    /** One resting decision of the noise trader. */
    method Noise(lob: PersistentLob, m: RestingMove)
      requires lob.Valid() && Valid() && Apart(lob) && lob.nextOrderId + 1 < EMPTY_KEY
      requires Capped(lob.View(), State())
      modifies lob.Repr(), noise, noise.ids
      ensures lob.Valid() && Valid()
      ensures (lob.State(), State()) == NoiseStep(old(lob.State()), old(State()), m)
    {
      hide PersistentLob.Shape, PersistentLob.Synced, Rep, OrdersOf, GridOf, Slot, Pushed, Evicted, RestCapped;
      if m.Rest? {
        Rest(lob, noise, m.isBid, m.price, m.volume, BOT_NOISE);
      }
    }

    /** The maker's part of a fleet call, if it is switched on. */
    method MakerTurn(lob: PersistentLob, maker: Option<(Quote, Quote)>)
      requires lob.Valid() && Valid() && Apart(lob) && lob.nextOrderId + 2 < EMPTY_KEY
      requires Capped(lob.View(), State())
      modifies lob.Repr(), this`bidOrderId, this`askOrderId
      ensures lob.Valid() && Valid()
      ensures (lob.State(), State()) == MakerStepIfAny(old(lob.State()), old(State()), maker)
    {
      hide PersistentLob.Shape, PersistentLob.Synced, Rep, OrdersOf, GridOf, Slot, OrderRing.Valid, MakerStep, Capped;
      ghost var e, f := lob.State(), State();
      CappedFacts(e.book, f);
      if maker.Some? {
        MarketMaker(lob, maker.value.0, maker.value.1);
        MakerOnly(e, f, maker.value.0, maker.value.1);
      }
    }

    /** One call of the fleet, bot after bot. While the contestant has fewer orders
        resting than the pool's size less 26, every add of it finds a node free. */
    method Step(lob: PersistentLob, m: Moves)
      requires lob.Valid() && Valid() && Apart(lob) && lob.nextOrderId + 4 < EMPTY_KEY
      requires Capped(lob.View(), State())
      modifies lob.Repr(), Repr()
      ensures lob.Valid() && Valid()
      ensures (lob.State(), State()) == FleetStep(old(lob.State()), old(State()), m)
      ensures Capped(lob.View(), State())
      ensures FewContestantOrders(old(lob.View()).orders) ==> BotsFindRoom(old(lob.State()), old(State()), m)
    {
      hide PersistentLob.Shape, PersistentLob.Synced, Rep, OrdersOf, GridOf, Slot, OrderRing.Valid, TakerStep,
           MakerStepIfAny, MeanReversionStep, NoiseStep, Capped, FewContestantOrders, BotsFindRoom;
      ghost var e, f := lob.State(), State();
      if FewContestantOrders(e.book.orders) { BotsAlwaysFindRoom(e, f, m); }
      FirstTwoKeepCapped(e, f, m);
      FirstThreeKeepCapped(e, f, m);
      FleetKeepsCapped(e, f, m);
      MakerTurn(lob, m.maker);
      Take(lob, m.momentum, BOT_MOM);
      MeanReversion(lob, m.meanReversion);
      Noise(lob, m.noise);
      Take(lob, m.sniper, BOT_SNIPER);
    }
  }

  lemma CappedFacts(b: Book, f: Fleet)
    requires Capped(b, f) && b.nextId <= EMPTY_KEY
    ensures IdsIssued(b) && f.makerBid < EMPTY_KEY && f.makerAsk < EMPTY_KEY
  {
  }

  /** Cancels hand out no ids. */
  lemma WithdrawalIds(e: EngineState, id: nat, id': nat)
    ensures RemoveIfAny(RemoveIfAny(e, id), id').book.nextId == e.book.nextId
  {
    hide Vacated;
  }

  /** The maker's step reads and writes only its own two ids. */
  lemma MakerOnly(e: EngineState, f: Fleet, bid: Quote, ask: Quote)
    ensures
      var (e', g) := MakerStep(e, Fleet(f.makerBid, f.makerAsk, [], [], []), bid, ask);
      MakerStep(e, f, bid, ask) == (e', f.(makerBid := g.makerBid, makerAsk := g.makerAsk))
  {
    hide Accepts, Opening, RemoveFrom;
  }
}

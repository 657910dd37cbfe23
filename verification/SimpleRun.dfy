/** The engine's book and the aggregated book run side by side on the same accepted
    adds and market orders. */
module SimulatedRuns {
  import opened MarketTypes
  import opened PriceTimeBook
  import opened BookRuns
  import opened OrderTable
  import opened OrderPools
  import opened LobSides
  import opened BookRep
  import opened PriceGrids
  import opened PersistentLobs
  import opened LobQuotes
  import opened EngineRuns
  import opened SimpleLobs

  /** Every level of the engine holds the volume the aggregated book has at its price,
      cut to 64 bits, and every price of the aggregated book has a level. */
  ghost predicate SameVolumes(s: Store, isBid: bool, book: Ladder) {
    && (forall i :: 0 <= i < |s.Levels(isBid)| ==>
          s.Levels(isBid)[i].totalVolume == Wrap64(VolumeAt(book, s.Levels(isBid)[i].price)))
    && (forall p :: p in book ==> HasPrice(s.Levels(isBid), p))
  }

  function VolumeAt(book: Ladder, p: int): int {
    if p in book then book[p] else 0
  }

  lemma InStepSameVolumes(s: Store, nextId: nat, isBid: bool, book: Ladder)
    requires Rep(s, nextId) && Aggregates(book, OrdersOf(s), isBid, nextId)
    ensures SameVolumes(s, isBid, book)
  {
    hide Rep, OrdersOf;
    forall i | 0 <= i < |s.Levels(isBid)|
      ensures s.Levels(isBid)[i].totalVolume == Wrap64(VolumeAt(book, s.Levels(isBid)[i].price))
    {
      var p := s.Levels(isBid)[i].price;
      LevelVolumeIsDepth(s, nextId, isBid, i);
      if p !in book {
        assert forall id :: !AtPrice(OrdersOf(s), isBid, p, id);
        NoOrdersNoDepth(OrdersOf(s), isBid, Only(p), nextId);
      }
    }
    forall p | p in book ensures HasPrice(s.Levels(isBid), p) {
      var id :| AtPrice(OrdersOf(s), isBid, p, id);
      PriceHasLevel(s, nextId, isBid, id);
    }
  }

  lemma PriceHasLevel(s: Store, nextId: nat, isBid: bool, id: nat)
    requires Rep(s, nextId) && OnSide(OrdersOf(s), isBid, id)
    ensures HasPrice(s.Levels(isBid), OrdersOf(s)[id].price)
  {
    OrderHasLevel(s, nextId, isBid, id);
  }

  /** A call both books know: an add of some volume, or a market order. */
  predicate CommonCommand(c: Command) {
    !c.Withdrawal? && (c.LimitOrder? ==> c.volume > 0)
  }

  /** One command to both books; an add the engine refuses is not made on the other. */
  method Serve(lob: PersistentLob, simple: SimpleLob, c: Command)
    returns (fills: seq<MatchedFill>, swept: seq<SweepFill>)
    requires lob.Valid() && simple !in lob.Repr() && lob.nextOrderId < EMPTY_KEY
    requires InStep(simple.bids, simple.asks, lob.View()) && CommonCommand(c)
    modifies lob.Repr(), simple
    ensures lob.Valid() && InStep(simple.bids, simple.asks, lob.View())
    ensures lob.State() == Served(old(lob.State()), c)
    ensures fills == FillsOf(NewEvents(old(lob.State()), c)) && swept == Merge(fills)
    ensures lob.nextOrderId <= old(lob.nextOrderId) + 1
  {
    hide PersistentLob.Shape, PersistentLob.Synced, Rep, OrdersOf, GridOf, InStep, Match, Sweep, Merge, AddVolume,
         FillsOf, HasPrice, TradedPrices;
    ghost var b := lob.View();
    fills, swept := [], [];
    NoFillsToMerge();
    match c {
      case LimitOrder(isBid, price, volume, participant) =>
        var id := lob.AddLimit(isBid, price, volume, participant);
        PlacedHasNoFills(Placed(b.nextId, isBid, price, volume, participant));
        if id != NULL_ORDER_ID {
          AddSimulates(simple.bids, simple.asks, b, isBid, price, volume, participant);
          simple.AddOrder(isBid, price, volume);
        }
      case MarketOrder(isBuy, volume, taker) =>
        MarketSimulates(simple.bids, simple.asks, b, isBuy, volume, taker);
        FillsOfFillEvents(Match(b.orders, isBuy, volume, taker).fills);
        fills := lob.MarketOrder(isBuy, volume, taker);
        swept := simple.MarketOrder(isBuy, volume);
    }
  }

  lemma NoFillsToMerge()
    ensures Merge([]) == [] && FillsOf([]) == []
  {
  }

  lemma PlacedHasNoFills(e: Event)
    requires e.Placed?
    ensures FillsOf([e]) == []
  {
    assert [e][..0] == [];
  }

  lemma NothingTraded()
    ensures InStep(map[], map[], EMPTY_BOOK)
    ensures ServedAll([]) == EMPTY_ENGINE && EventsOf([]) == [] && FillsOf([]) == Flatten([]) == []
  {
    EmptyEvents();
  }

  /** Whole runs on the real structures: the engine's fills are those of the reference
      run; merged by price, the fills of every market order are those of the aggregated
      book; and in the end every level of the engine holds, in 64 bits, the volume the
      aggregated book has at its price: the very same when it fits. */
  method RunTogether(lob: PersistentLob, simple: SimpleLob, commands: seq<Command>)
    returns (fills: seq<seq<MatchedFill>>, swept: seq<seq<SweepFill>>)
    requires lob.Valid() && lob.State() == EMPTY_ENGINE && simple !in lob.Repr()
    requires simple.bids == map[] && simple.asks == map[]
    requires |commands| + 1 < EMPTY_KEY && forall i :: 0 <= i < |commands| ==> CommonCommand(commands[i])
    modifies lob.Repr(), simple
    ensures lob.Valid() && lob.State() == ServedAll(commands)
    ensures Flatten(fills) == FillsOf(EventsOf(commands))
    ensures |fills| == |swept| == |commands|
    ensures forall i :: 0 <= i < |commands| ==> swept[i] == Merge(fills[i])
    ensures forall isBid :: SameVolumes(lob.store, isBid, simple.Book(isBid))
  {
    hide PersistentLob.Shape, PersistentLob.Synced, Rep, OrdersOf, GridOf, InStep, Merge, SameVolumes, Act, Run, FillsOf,
         ServedAll, EventsOf, Served, NewEvents;
    fills, swept := [], [];
    NothingTraded();
    for i := 0 to |commands|
      invariant lob.Valid() && InStep(simple.bids, simple.asks, lob.View()) && lob.nextOrderId <= i + 1
      invariant lob.State() == ServedAll(commands[..i])
      invariant Flatten(fills) == FillsOf(EventsOf(commands[..i]))
      invariant |fills| == |swept| == i
      invariant forall k :: 0 <= k < i ==> swept[k] == Merge(fills[k])
    {
      ghost var e := lob.State();
      var f, w := Serve(lob, simple, commands[i]);
      EventsGrow(commands[..i], commands[i]);
      FillsOfAppend(EventsOf(commands[..i]), NewEvents(e, commands[i]));
      assert commands[..i + 1] == commands[..i] + [commands[i]];
      assert (fills + [f])[..i] == fills;
      fills, swept := fills + [f], swept + [w];
    }
    assert commands[..|commands|] == commands;
    forall isBid ensures SameVolumes(lob.store, isBid, simple.Book(isBid)) {
      BothSides(lob, simple, isBid);
    }
  }

  lemma BothSides(lob: PersistentLob, simple: SimpleLob, isBid: bool)
    requires lob.Valid() && InStep(simple.bids, simple.asks, lob.View())
    ensures SameVolumes(lob.store, isBid, simple.Book(isBid))
  {
    InStepSameVolumes(lob.store, lob.nextOrderId, isBid, simple.Book(isBid));
  }
}

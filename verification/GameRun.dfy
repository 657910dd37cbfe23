/** The game master's tick loop on the real book and the real bots: two seed quotes,
    then tick after tick a fleet call and the contestant's orders
    (game-master/main.cpp). */
module GameRuns {
  import opened MarketTypes
  import opened PriceTimeBook
  import opened OrderTable
  import opened OrderPools
  import opened LobSides
  import opened BookRep
  import opened PriceGrids
  import opened PersistentLobs
  import opened BotSpec
  import opened BotFleets
  import EngineRuns
  import FleetScripts

  const ORDER_SLOTS: nat := 4

  predicate Sendable(m: ContestantMove) {
    m.CancelAny? ==> m.id != EMPTY_KEY
  }

  predicate Playable(t: Tick) {
    |t.contestant| <= ORDER_SLOTS && forall m :: m in t.contestant ==> Sendable(m)
  }

  /** One order of the contestant on the engine's book. */
  method Send(lob: PersistentLob, m: ContestantMove)
    requires lob.Valid() && lob.nextOrderId < EMPTY_KEY && Sendable(m)
    modifies lob.Repr()
    ensures lob.Valid() && lob.State() == ContestantStep(old(lob.State()), m)
    ensures lob.nextOrderId <= old(lob.nextOrderId) + 1
  {
    hide PersistentLob.Shape, PersistentLob.Synced, Rep, OrdersOf, GridOf, Match, TradedPrices, Vacated, Opening,
         HasPrice;
    match m {
      case Limit(isBid, price, volume) =>
        var _ := lob.AddLimit(isBid, price, volume, CONTESTANT);
      case MarketOrder(isBuy, volume) =>
        var _ := lob.MarketOrder(isBuy, volume, CONTESTANT);
      case CancelAny(id) =>
        var _ := lob.Cancel(id);
    }
  }

  /** The contestant's orders of one tick, in order. */
  method SendAll(lob: PersistentLob, ms: seq<ContestantMove>)
    requires lob.Valid() && lob.nextOrderId + |ms| < EMPTY_KEY && forall m :: m in ms ==> Sendable(m)
    modifies lob.Repr()
    ensures lob.Valid() && lob.State() == ContestantSteps(old(lob.State()), ms)
    ensures lob.nextOrderId <= old(lob.nextOrderId) + |ms|
  {
    hide PersistentLob.Shape, PersistentLob.Synced, Rep, OrdersOf, GridOf, ContestantStep;
    for i := 0 to |ms|
      invariant lob.Valid() && lob.nextOrderId <= old(lob.nextOrderId) + i
      invariant lob.State() == ContestantSteps(old(lob.State()), ms[..i])
    {
      Send(lob, ms[i]);
      assert ms[..i + 1][..i] == ms[..i];
    }
    assert ms[..|ms|] == ms;
  }

  /** One tick: the bots act, then the contestant. */
  method PlayTick(lob: PersistentLob, bots: BotFleet, tick: Tick)
    requires lob.Valid() && bots.Valid() && bots.Apart(lob) && lob.nextOrderId + 8 < EMPTY_KEY && Playable(tick)
    requires Capped(lob.View(), bots.State())
    modifies lob.Repr(), bots.Repr()
    ensures lob.Valid() && bots.Valid()
    ensures
      var (e, f) := FleetStep(old(lob.State()), old(bots.State()), tick.moves);
      (lob.State(), bots.State()) == (ContestantSteps(e, tick.contestant), f)
    ensures Capped(lob.View(), bots.State()) && lob.nextOrderId <= old(lob.nextOrderId) + 8
    ensures FewContestantOrders(old(lob.View()).orders) ==>
      BotsFindRoom(old(lob.State()), old(bots.State()), tick.moves)
  {
    hide PersistentLob.Shape, PersistentLob.Synced, Rep, OrdersOf, GridOf, Capped, FleetStep, OrderRing.Valid,
         FewContestantOrders, BotsFindRoom;
    FleetIds(lob.State(), bots.State(), tick.moves);
    bots.Step(lob, tick.moves);
    ContestantKeepsCapped(lob.State(), bots.State(), tick.contestant);
    SendAll(lob, tick.contestant);
  }

  // -------------------------------------------------------- the whole game

  /** The state of the game after the first `n` ticks. */
  ghost function GameAt(start: EngineState, ticks: seq<Tick>, n: nat): (EngineState, Fleet)
    requires n <= |ticks|
  {
    RunTicks(start, NEW_FLEET, ticks[..n])
  }

  /** After `n` ticks, and again after the next fleet call, the caps hold. */
  ghost predicate CapsAt(start: EngineState, ticks: seq<Tick>, n: nat)
    requires n <= |ticks|
  {
    var (e, f) := GameAt(start, ticks, n);
    && WithinCaps(e.book.orders)
    && (n < |ticks| ==> WithinCaps(FleetStep(e, f, ticks[n].moves).0.book.orders))
  }

  /** In tick `n`, if the contestant starts it with few orders, every add of a bot
      finds a node free. */
  ghost predicate RoomAt(start: EngineState, ticks: seq<Tick>, n: nat)
    requires n < |ticks|
  {
    var (e, f) := GameAt(start, ticks, n);
    FewContestantOrders(e.book.orders) ==> BotsFindRoom(e, f, ticks[n].moves)
  }

  /** Whatever the bots decide and the contestant sends: the caps hold at every
      moment, and the pool is never what a bot's add fails for while the contestant
      has few orders. */
  lemma GamesStayCapped(bidPrice: int, askPrice: int, volume: int, ticks: seq<Tick>, n: nat)
    requires n <= |ticks|
    ensures CapsAt(Seeded(bidPrice, askPrice, volume), ticks, n)
    ensures n < |ticks| ==> RoomAt(Seeded(bidPrice, askPrice, volume), ticks, n)
  {
    hide Capped, FleetStep, WithinCaps, FewContestantOrders, BotsFindRoom, RunTicks, Seeded;
    var start := Seeded(bidPrice, askPrice, volume);
    RunsStayCapped(bidPrice, askPrice, volume, ticks[..n]);
    var (e, f) := GameAt(start, ticks, n);
    OrderCaps(e.book, f);
    if n < |ticks| {
      FleetKeepsCapped(e, f, ticks[n].moves);
      var (e1, f1) := FleetStep(e, f, ticks[n].moves);
      OrderCaps(e1.book, f1);
      if FewContestantOrders(e.book.orders) { BotsAlwaysFindRoom(e, f, ticks[n].moves); }
    }
  }

  /** A new book with the two seed quotes. */
  method SeededBook(bidPrice: int, askPrice: int, volume: int) returns (lob: PersistentLob)
    ensures fresh(lob.Repr()) && lob.Valid() && lob.State() == Seeded(bidPrice, askPrice, volume)
    ensures lob.nextOrderId == 3
  {
    hide PersistentLob.Shape, PersistentLob.Synced, Rep, OrdersOf, GridOf, HasPrice, Opened, AddTo, Accepts;
    lob := new PersistentLob();
    SeedsAccepted(bidPrice, askPrice, volume);
    var _ := lob.AddLimit(true, bidPrice, volume, BOT_MM);
    var _ := lob.AddLimit(false, askPrice, volume, BOT_MM);
  }

  /** A new game: the seeded book, and bots that remember nothing. */
  method NewGame(bidPrice: int, askPrice: int, volume: int) returns (lob: PersistentLob, bots: BotFleet)
    ensures fresh(lob.Repr()) && fresh(bots.Repr()) && lob.Valid() && bots.Valid() && bots.Apart(lob)
    ensures lob.State() == Seeded(bidPrice, askPrice, volume) && lob.nextOrderId == 3 && bots.State() == NEW_FLEET
  {
    hide PersistentLob.Shape, PersistentLob.Synced, Rep, OrdersOf, GridOf, OrderRing.Valid, Seeded;
    lob := SeededBook(bidPrice, askPrice, volume);
    bots := new BotFleet();
  }

  /** A whole game on the real structures is the reference run of its ticks, whatever
      the bots decide and the contestant sends, and so the run of its commands; the caps
      hold at every moment and the bots find room while the contestant has few orders. */
  method PlayGame(bidPrice: int, askPrice: int, volume: int, ticks: seq<Tick>)
    returns (lob: PersistentLob, bots: BotFleet)
    requires 8 * |ticks| + 11 < EMPTY_KEY && forall i :: 0 <= i < |ticks| ==> Playable(ticks[i])
    ensures lob.Valid() && bots.Valid()
    ensures (lob.State(), bots.State()) == RunTicks(Seeded(bidPrice, askPrice, volume), NEW_FLEET, ticks)
    ensures lob.State() == EngineRuns.ServedAll(FleetScripts.GameCommands(bidPrice, askPrice, volume, ticks))
    ensures forall i :: 0 <= i <= |ticks| ==> CapsAt(Seeded(bidPrice, askPrice, volume), ticks, i)
    ensures forall i :: 0 <= i < |ticks| ==> RoomAt(Seeded(bidPrice, askPrice, volume), ticks, i)
  {
    hide PersistentLob.Shape, PersistentLob.Synced, Rep, OrdersOf, GridOf, BotFleet.Valid, Capped, FleetStep,
         ContestantSteps, CapsAt, RoomAt, Seeded, Playable, FewContestantOrders, BotsFindRoom;
    ghost var start := Seeded(bidPrice, askPrice, volume);
    lob, bots := NewGame(bidPrice, askPrice, volume);
    for i := 0 to |ticks|
      invariant fresh(lob.Repr()) && fresh(bots.Repr()) && bots.Apart(lob)
      invariant lob.Valid() && bots.Valid() && lob.nextOrderId <= 3 + 8 * i
      invariant (lob.State(), bots.State()) == RunTicks(start, NEW_FLEET, ticks[..i])
    {
      RunsStayCapped(bidPrice, askPrice, volume, ticks[..i]);
      PlayTick(lob, bots, ticks[i]);
      assert ticks[..i + 1][..i] == ticks[..i];
    }
    assert ticks[..|ticks|] == ticks;
    FleetScripts.GameServed(bidPrice, askPrice, volume, ticks);
    forall i | 0 <= i <= |ticks|
      ensures CapsAt(start, ticks, i) && (i < |ticks| ==> RoomAt(start, ticks, i))
    {
      GamesStayCapped(bidPrice, askPrice, volume, ticks, i);
    }
  }
}

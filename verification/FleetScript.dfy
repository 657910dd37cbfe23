/** The tick loop as a list of commands to the engine: every bot and the contestant,
    in the order of game-master/bot_fleet.hpp and game-master/main.cpp. What holds of
    every run of commands so holds of every game. */
module FleetScripts {
  import opened MarketTypes
  import opened PriceTimeBook
  import opened BookRuns
  import opened PriceGrids
  import opened EngineRuns
  import opened BotSpec

  /** Serving commands one after the other in any state. */
  ghost function ServedFrom(e: EngineState, cs: seq<Command>): EngineState {
    if cs == [] then e else var n := |cs| - 1; Served(ServedFrom(e, cs[..n]), cs[n])
  }

  function WithdrawalIfAny(id: nat): seq<Command> {
    if id == 0 then [] else [Withdrawal(id)]
  }

  function Quoted(isBid: bool, q: Quote): Command {
    Command.LimitOrder(isBid, q.price, q.volume, BOT_MM)
  }

  function MakerCommands(f: Fleet, maker: Option<(Quote, Quote)>): seq<Command> {
    match maker
    case None => []
    case Some((bid, ask)) =>
      WithdrawalIfAny(f.makerBid) + WithdrawalIfAny(f.makerAsk)
      + [Quoted(true, bid), Quoted(false, ask)]
  }

  function TakerCommands(moves: seq<MarketMove>, bot: int): seq<Command> {
    seq(|moves|, i requires 0 <= i < |moves| => Command.MarketOrder(moves[i].isBuy, moves[i].volume, bot))
  }

  /** One order, and the withdrawal of the one a full ring has remembered longest. */
  function RestCommands(ring: seq<nat>, capacity: nat, m: RestingMove, bot: int): seq<Command> {
    if m.Idle? then []
    else
      [Command.LimitOrder(m.isBid, m.price, m.volume, bot)]
      + WithdrawalIfAny(if ring != [] && |ring| >= capacity then ring[0] else 0)
  }

  function FleetCommands(f: Fleet, m: Moves): seq<Command> {
    MakerCommands(f, m.maker)
    + TakerCommands(m.momentum, BOT_MOM)
    + RestCommands(if m.meanReversion.Rest? && m.meanReversion.isBid then f.mrBids else f.mrAsks,
                   MAX_MR_ORDERS, m.meanReversion, BOT_MR)
    + RestCommands(f.noise, MAX_NOISE_ORDERS, m.noise, BOT_NOISE)
    + TakerCommands(m.sniper, BOT_SNIPER)
  }

  function ContestantCommand(m: ContestantMove): Command {
    match m
    case Limit(isBid, price, volume) => Command.LimitOrder(isBid, price, volume, CONTESTANT)
    case MarketOrder(isBuy, volume) => Command.MarketOrder(isBuy, volume, CONTESTANT)
    case CancelAny(id) => Withdrawal(id)
  }

  function ContestantCommands(ms: seq<ContestantMove>): seq<Command> {
    seq(|ms|, i requires 0 <= i < |ms| => ContestantCommand(ms[i]))
  }

  function SeedCommands(bidPrice: int, askPrice: int, volume: int): seq<Command> {
    [Quoted(true, Quote(bidPrice, volume)), Quoted(false, Quote(askPrice, volume))]
  }

  /** Everything a game asks of the engine. */
  ghost function GameCommands(bidPrice: int, askPrice: int, volume: int, ticks: seq<Tick>): seq<Command> {
    if ticks == [] then SeedCommands(bidPrice, askPrice, volume)
    else
      var n := |ticks| - 1;
      var f := RunTicks(Seeded(bidPrice, askPrice, volume), NEW_FLEET, ticks[..n]).1;
      GameCommands(bidPrice, askPrice, volume, ticks[..n])
      + FleetCommands(f, ticks[n].moves) + ContestantCommands(ticks[n].contestant)
  }

  // ------------------------------------------------------------ refinement

  lemma {:induction false} ServedAppend(e: EngineState, cs: seq<Command>, ds: seq<Command>)
    ensures ServedFrom(e, cs + ds) == ServedFrom(ServedFrom(e, cs), ds)
  {
    hide Served;
    if ds == [] {
      assert cs + ds == cs;
    } else {
      var n := |ds| - 1;
      ServedAppend(e, cs, ds[..n]);
      assert (cs + ds)[..|cs| + n] == cs + ds[..n];
    }
  }

  lemma ServedOne(e: EngineState, c: Command)
    ensures ServedFrom(e, [c]) == Served(e, c)
  {
    hide Served;
    assert [c][..0] == [];
  }

  lemma {:induction false} ServedAllFrom(cs: seq<Command>)
    ensures ServedAll(cs) == ServedFrom(EMPTY_ENGINE, cs)
  {
    hide Served;
    if cs != [] { ServedAllFrom(cs[..|cs| - 1]); }
  }

  lemma WithdrawalServed(e: EngineState, id: nat)
    ensures ServedFrom(e, WithdrawalIfAny(id)) == RemoveIfAny(e, id)
  {
    hide RemoveFrom;
    if id != 0 { ServedOne(e, Withdrawal(id)); }
  }

  lemma TwoServed(e: EngineState, c: Command, d: Command)
    ensures ServedFrom(e, [c, d]) == Served(Served(e, c), d)
  {
    hide Served;
    ServedAppend(e, [c], [d]);
    ServedOne(e, c);
    ServedOne(ServedFrom(e, [c]), d);
    assert [c] + [d] == [c, d];
  }

  lemma MakerServed(e: EngineState, f: Fleet, maker: Option<(Quote, Quote)>)
    ensures MakerStepIfAny(e, f, maker).0 == ServedFrom(e, MakerCommands(f, maker))
  {
    hide ServedFrom, RemoveIfAny, WithdrawalIfAny, AddTo;
    if maker.Some? {
      var (bid, ask) := maker.value;
      var c, d := Quoted(true, bid), Quoted(false, ask);
      var cs := WithdrawalIfAny(f.makerBid) + WithdrawalIfAny(f.makerAsk);
      ServedAppend(e, cs, [c, d]);
      ServedAppend(e, WithdrawalIfAny(f.makerBid), WithdrawalIfAny(f.makerAsk));
      WithdrawalServed(e, f.makerBid);
      WithdrawalServed(RemoveIfAny(e, f.makerBid), f.makerAsk);
      TwoServed(ServedFrom(e, cs), c, d);
    } else {
      NoneServed(e);
    }
  }

  lemma NoneServed(e: EngineState)
    ensures ServedFrom(e, []) == e
  {
  }

  lemma {:induction false} TakerServed(e: EngineState, moves: seq<MarketMove>, bot: int)
    ensures TakerStep(e, moves, bot) == ServedFrom(e, TakerCommands(moves, bot))
  {
    hide TradeOn;
    if moves != [] {
      var n := |moves| - 1;
      TakerServed(e, moves[..n], bot);
      assert TakerCommands(moves, bot)[..n] == TakerCommands(moves[..n], bot);
    }
  }

  lemma RestServed(e: EngineState, ring: seq<nat>, capacity: nat, m: RestingMove, bot: int)
    requires m.Rest?
    ensures RestCapped(e, ring, capacity, m.isBid, m.price, m.volume, bot).0
      == ServedFrom(e, RestCommands(ring, capacity, m, bot))
  {
    hide ServedFrom, RemoveIfAny, WithdrawalIfAny, AddTo;
    var c := Command.LimitOrder(m.isBid, m.price, m.volume, bot);
    var id := if ring != [] && |ring| >= capacity then ring[0] else 0;
    ServedAppend(e, [c], WithdrawalIfAny(id));
    ServedOne(e, c);
    WithdrawalServed(ServedFrom(e, [c]), id);
  }

  /** A fleet call is its list of commands. */
  lemma FleetServed(e: EngineState, f: Fleet, m: Moves)
    ensures FleetStep(e, f, m).0 == ServedFrom(e, FleetCommands(f, m))
  {
    hide ServedFrom, MakerStepIfAny, TakerStep, RestCapped, MakerCommands, TakerCommands, RestCommands;
    var mr := RestCommands(if m.meanReversion.Rest? && m.meanReversion.isBid then f.mrBids else f.mrAsks,
                           MAX_MR_ORDERS, m.meanReversion, BOT_MR);
    var c1 := MakerCommands(f, m.maker);
    var c2 := c1 + TakerCommands(m.momentum, BOT_MOM);
    var c3 := c2 + mr;
    var c4 := c3 + RestCommands(f.noise, MAX_NOISE_ORDERS, m.noise, BOT_NOISE);
    MakerServed(e, f, m.maker);
    MakerLeavesRings(e, f, m.maker);
    ServedAppend(e, c1, TakerCommands(m.momentum, BOT_MOM));
    TakerServed(ServedFrom(e, c1), m.momentum, BOT_MOM);
    ServedAppend(e, c2, mr);
    RestingServed(ServedFrom(e, c2), MakerStepIfAny(e, f, m.maker).1, m.meanReversion);
    ServedAppend(e, c3, RestCommands(f.noise, MAX_NOISE_ORDERS, m.noise, BOT_NOISE));
    RestingServed(ServedFrom(e, c3), FirstThree(e, f, m).1, m.noise);
    ServedAppend(e, c4, TakerCommands(m.sniper, BOT_SNIPER));
    TakerServed(ServedFrom(e, c4), m.sniper, BOT_SNIPER);
  }

  lemma MakerLeavesRings(e: EngineState, f: Fleet, maker: Option<(Quote, Quote)>)
    ensures
      var f' := MakerStepIfAny(e, f, maker).1;
      f'.mrBids == f.mrBids && f'.mrAsks == f.mrAsks && f'.noise == f.noise
  {
    hide Accepts, Opening, RemoveIfAny;
  }

  lemma RestingServed(e: EngineState, f: Fleet, m: RestingMove)
    ensures MeanReversionStep(e, f, m).0
      == ServedFrom(e, RestCommands(if m.Rest? && m.isBid then f.mrBids else f.mrAsks, MAX_MR_ORDERS, m, BOT_MR))
    ensures MeanReversionStep(e, f, m).1.noise == f.noise
    ensures NoiseStep(e, f, m).0 == ServedFrom(e, RestCommands(f.noise, MAX_NOISE_ORDERS, m, BOT_NOISE))
  {
    hide ServedFrom, RestCapped;
    if m.Rest? {
      RestServed(e, if m.isBid then f.mrBids else f.mrAsks, MAX_MR_ORDERS, m, BOT_MR);
      RestServed(e, f.noise, MAX_NOISE_ORDERS, m, BOT_NOISE);
    } else {
      NoneServed(e);
    }
  }

  lemma {:induction false} ContestantServed(e: EngineState, ms: seq<ContestantMove>)
    ensures ContestantSteps(e, ms) == ServedFrom(e, ContestantCommands(ms))
  {
    hide TradeOn, AddTo, RemoveFrom;
    if ms != [] {
      var n := |ms| - 1;
      ContestantServed(e, ms[..n]);
      assert ContestantCommands(ms)[..n] == ContestantCommands(ms[..n]);
    }
  }

  /** Every game is the run of its commands on a new book. */
  lemma {:induction false} GameServed(bidPrice: int, askPrice: int, volume: int, ticks: seq<Tick>)
    ensures RunTicks(Seeded(bidPrice, askPrice, volume), NEW_FLEET, ticks).0
      == ServedAll(GameCommands(bidPrice, askPrice, volume, ticks))
  {
    hide ServedFrom, ServedAll, Seeded, FleetStep, FleetCommands, ContestantSteps, ContestantCommands;
    ServedAllFrom(GameCommands(bidPrice, askPrice, volume, ticks));
    if ticks == [] {
      SeedsServed(bidPrice, askPrice, volume);
    } else {
      var n := |ticks| - 1;
      var start, before := Seeded(bidPrice, askPrice, volume), GameCommands(bidPrice, askPrice, volume, ticks[..n]);
      GameServed(bidPrice, askPrice, volume, ticks[..n]);
      ServedAllFrom(before);
      var (e, f) := RunTicks(start, NEW_FLEET, ticks[..n]);
      FleetServed(e, f, ticks[n].moves);
      ServedAppend(EMPTY_ENGINE, before, FleetCommands(f, ticks[n].moves));
      ContestantServed(FleetStep(e, f, ticks[n].moves).0, ticks[n].contestant);
      ServedAppend(EMPTY_ENGINE, before + FleetCommands(f, ticks[n].moves), ContestantCommands(ticks[n].contestant));
    }
  }

  lemma SeedsServed(bidPrice: int, askPrice: int, volume: int)
    ensures Seeded(bidPrice, askPrice, volume) == ServedFrom(EMPTY_ENGINE, SeedCommands(bidPrice, askPrice, volume))
  {
    hide AddTo;
    TwoServed(EMPTY_ENGINE, Quoted(true, Quote(bidPrice, volume)), Quoted(false, Quote(askPrice, volume)));
  }

  /** The events of a game: every accepted order, fill and cancel of anybody. */
  ghost function GameEvents(bidPrice: int, askPrice: int, volume: int, ticks: seq<Tick>): seq<Event> {
    EventsOf(GameCommands(bidPrice, askPrice, volume, ticks))
  }

  /** They are lawful and lead to the book the game ends with, so conservation, time
      priority and all else that is proved of lawful events hold of every game. */
  lemma GameLawful(bidPrice: int, askPrice: int, volume: int, ticks: seq<Tick>)
    ensures
      var es := GameEvents(bidPrice, askPrice, volume, ticks);
      && Lawful(EMPTY_BOOK, es)
      && StateAfter(EMPTY_BOOK, es) == RunTicks(Seeded(bidPrice, askPrice, volume), NEW_FLEET, ticks).0.book
  {
    hide Run, ActionsOf, RunTicks, GameCommands, ServedAll, Lawful, StateAfter, Seeded;
    var cs := GameCommands(bidPrice, askPrice, volume, ticks);
    GameServed(bidPrice, askPrice, volume, ticks);
    ServedAllRuns(cs);
    RunExplained(EMPTY_BOOK, ActionsOf(cs));
  }

  /** In every game, when an order of anybody is filled, every order of that side placed
      before at a better price, or earlier at the same price, is closed for good. */
  lemma GamePriority(bidPrice: int, askPrice: int, volume: int, ticks: seq<Tick>, j: nat, k: nat)
    requires var es := GameEvents(bidPrice, askPrice, volume, ticks); j < k < |es| && es[j].Placed? && es[k].Filled?
    requires
      var es := GameEvents(bidPrice, askPrice, volume, ticks);
      && es[j].isBid == !es[k].fill.takerIsBuy
      && (|| Better(es[j].isBid, es[j].price, es[k].fill.price)
          || (es[j].price == es[k].fill.price && es[j].id < es[k].fill.makerId))
    ensures
      var es := GameEvents(bidPrice, askPrice, volume, ticks);
      ClosedBefore(es, k, es[j].id) && forall i :: k <= i < |es| ==> !Concerns(es[i], es[j].id)
  {
    hide GameEvents, Lawful, StateAfter, Concerns;
    GameLawful(bidPrice, askPrice, volume, ticks);
    TimePriority(GameEvents(bidPrice, askPrice, volume, ticks), j, k);
  }
}

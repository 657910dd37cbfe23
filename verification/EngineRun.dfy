/** The engine's book and the shadow book run side by side, as the shadow book's
    header describes: one event per accepted add, per fill and per cancel. */
module EngineRuns {
  import opened MarketTypes
  import opened PriceTimeBook
  import opened BookRuns
  import opened OrderTable
  import opened LobSides
  import opened BookRep
  import opened PriceGrids
  import opened PersistentLobs
  import opened ShadowSpec
  import opened ShadowProofs
  import opened ShadowQueues
  import opened ShadowAgreement
  import opened ShadowLobs

  datatype Command =
    | LimitOrder(isBid: bool, price: int, volume: int, participant: int)
    | Withdrawal(id: nat)
    | MarketOrder(isBuy: bool, volume: int, taker: int)

  /** The call a command makes, given whether an add found room. */
  function ActionOf(c: Command, accepted: bool): Action {
    match c
    case LimitOrder(isBid, price, volume, participant) => Add(isBid, price, volume, participant, accepted)
    case Withdrawal(id) => Cancel(id)
    case MarketOrder(isBuy, volume, taker) => Market(isBuy, volume, taker)
  }

  predicate Carries(c: Command, a: Action) {
    a == ActionOf(c, true) || a == ActionOf(c, false)
  }

  ghost predicate Traces(commands: seq<Command>, actions: seq<Action>) {
    |actions| == |commands| && forall i :: 0 <= i < |commands| ==> Carries(commands[i], actions[i])
  }

  /** The call a command comes to in a state of the engine. */
  function ActionIn(e: EngineState, c: Command): Action {
    ActionOf(c, c.LimitOrder? && Accepts(e, c.isBid, c.price))
  }

  ghost function Served(e: EngineState, c: Command): EngineState {
    match c
    case LimitOrder(isBid, price, volume, participant) => AddTo(e, isBid, price, volume, participant)
    case Withdrawal(id) => RemoveFrom(e, id)
    case MarketOrder(isBuy, volume, taker) => TradeOn(e, isBuy, volume, taker)
  }

  ghost function ServedAll(commands: seq<Command>): EngineState {
    if commands == [] then EMPTY_ENGINE
    else var n := |commands| - 1; Served(ServedAll(commands[..n]), commands[n])
  }

  /** The calls a list of commands comes to on a new book. */
  ghost function ActionsOf(commands: seq<Command>): seq<Action> {
    if commands == [] then []
    else var n := |commands| - 1; ActionsOf(commands[..n]) + [ActionIn(ServedAll(commands[..n]), commands[n])]
  }

  ghost function EventsOf(commands: seq<Command>): seq<Event> {
    Run(EMPTY_BOOK, ActionsOf(commands)).1
  }

  /** The events of one command. */
  ghost function NewEvents(e: EngineState, c: Command): seq<Event> {
    Act(e.book, ActionIn(e, c)).1
  }

  /** When the events happen: the number of the command is the tick. */
  ghost function TicksOf(commands: seq<Command>): (ticks: seq<int>)
    ensures |ticks| == |EventsOf(commands)|
  {
    hide EventsOf, NewEvents, ServedAll, Stamps;
    EmptyEvents();
    if commands == [] then []
    else
      var n := |commands| - 1;
      EventsGrow(commands[..n], commands[n]);
      assert commands == commands[..n] + [commands[n]];
      TicksOf(commands[..n]) + Stamps(|NewEvents(ServedAll(commands[..n]), commands[n])|, n)
  }

  /** What one command shows: an add its order or nothing, a withdrawal its cancel, a
      market order fills that name its taker and side. */
  lemma EventsNamed(e: EngineState, c: Command, k: nat)
    requires k < |NewEvents(e, c)|
    ensures
      var ev := NewEvents(e, c)[k];
      match c
      case LimitOrder(isBid, price, volume, participant) => ev == Placed(e.book.nextId, isBid, price, volume, participant)
      case Withdrawal(id) => ev == Cancelled(id, id in e.book.orders)
      case MarketOrder(isBuy, volume, taker) => ev.Filled? && NamesParties(ev.fill, e.book.orders, isBuy, taker)
  {
    hide NamesParties, Match, Trade;
    if c.MarketOrder? { MarketEventsNamed(e.book, c.isBuy, c.volume, c.taker, k); }
  }

  lemma ServedActs(e: EngineState, c: Command)
    ensures Served(e, c).book == Act(e.book, ActionIn(e, c)).0 && Carries(c, ActionIn(e, c))
  {
    hide Match, TradedPrices, Vacated, Opening;
  }

  /** The reference book of the engine is the reference run of those calls. */
  lemma {:induction false} ServedAllRuns(commands: seq<Command>)
    ensures ServedAll(commands).book == Run(EMPTY_BOOK, ActionsOf(commands)).0
    ensures Traces(commands, ActionsOf(commands))
  {
    hide Act, Served, ActionIn, Carries;
    if commands == [] {
      EmptyRun();
    } else {
      var n := |commands| - 1;
      var e := ServedAll(commands[..n]);
      ServedAllRuns(commands[..n]);
      ServedActs(e, commands[n]);
      RunAppend(EMPTY_BOOK, ActionsOf(commands[..n]), ActionIn(e, commands[n]));
      assert commands == commands[..n] + [commands[n]];
    }
  }

  lemma EventsGrow(commands: seq<Command>, c: Command)
    ensures ServedAll(commands + [c]) == Served(ServedAll(commands), c)
    ensures ActionsOf(commands + [c]) == ActionsOf(commands) + [ActionIn(ServedAll(commands), c)]
    ensures EventsOf(commands + [c]) == EventsOf(commands) + NewEvents(ServedAll(commands), c)
  {
    hide Act, Served, ActionIn, Run;
    assert (commands + [c])[..|commands|] == commands;
    ServedAllRuns(commands);
    RunAppend(EMPTY_BOOK, ActionsOf(commands), ActionIn(ServedAll(commands), c));
  }

  /** Prices are 64-bit numbers. */
  predicate PricedIn64(c: Command) {
    c.LimitOrder? ==> Fits64(c.price)
  }

  predicate PositiveCommand(c: Command) {
    c.LimitOrder? ==> c.volume > 0
  }

  predicate QuotableCommand(c: Command) {
    c.LimitOrder? ==> if c.isBid then c.price >= -ONE_CENT else c.price <= INT64_MAX - ONE_CENT
  }

  ghost predicate QuotableCommands(commands: seq<Command>) {
    forall i :: 0 <= i < |commands| ==> PricedIn64(commands[i]) && QuotableCommand(commands[i])
  }

  /** All volume the commands offer. */
  function OfferedVolume(commands: seq<Command>): int {
    if commands == [] then 0
    else (if commands[0].LimitOrder? then commands[0].volume else 0) + OfferedVolume(commands[1..])
  }

  /** Commands with positive volumes that together fit 64 bits. */
  ghost predicate PositiveCommands(commands: seq<Command>) {
    OfferedVolume(commands) <= INT64_MAX && forall i :: 0 <= i < |commands| ==> PositiveCommand(commands[i])
  }

  // ---------------------------------------------------------- empty levels

  /** The command is an add that opens a level and then finds the pool exhausted. */
  predicate Stranded(e: EngineState, c: Command) {
    c.LimitOrder? && LeavesEmptyLevel(e, c.isBid, c.price)
  }

  lemma ServedListsIff(e: EngineState, c: Command)
    requires IdsIssued(e.book) && NoEmptyLevels(e)
    ensures NoEmptyLevels(Served(e, c)) <==> !Stranded(e, c)
  {
    hide NoEmptyLevels, LeavesEmptyLevel, AddTo, RemoveFrom, TradeOn;
    match c {
      case LimitOrder(isBid, price, volume, participant) => AddListsIff(e, isBid, price, volume, participant);
      case Withdrawal(id) => RemoveLists(e, id);
      case MarketOrder(isBuy, volume, taker) => TradeLists(e, isBuy, volume, taker);
    }
  }

  lemma ServedIds(commands: seq<Command>)
    ensures IdsIssued(ServedAll(commands).book)
  {
    hide Run, Act, ServedAll, ActionsOf, Lawful, StateAfter, Legal;
    ServedAllRuns(commands);
    RunExplained(EMPTY_BOOK, ActionsOf(commands));
    IdsStayIssued(EMPTY_BOOK, Run(EMPTY_BOOK, ActionsOf(commands)).1);
  }

  /** Over every run a price has a level exactly while an order rests there, if and
      only if no add for which a level was opened found the pool exhausted. */
  lemma LevelsOfferedIff(commands: seq<Command>)
    ensures (forall k :: 0 <= k <= |commands| ==> NoEmptyLevels(ServedAll(commands[..k])))
      <==> (forall k :: 0 <= k < |commands| ==> !Stranded(ServedAll(commands[..k]), commands[k]))
  {
    hide NoEmptyLevels, ServedAll, Served, Stranded, IdsIssued;
    if forall k :: 0 <= k < |commands| ==> !Stranded(ServedAll(commands[..k]), commands[k]) {
      forall k | 0 <= k <= |commands| ensures NoEmptyLevels(ServedAll(commands[..k])) {
        OfferedUntil(commands, k);
      }
    }
    if forall k :: 0 <= k <= |commands| ==> NoEmptyLevels(ServedAll(commands[..k])) {
      forall k | 0 <= k < |commands| ensures !Stranded(ServedAll(commands[..k]), commands[k]) {
        NextServed(commands, k);
        ServedIds(commands[..k]);
        ServedListsIff(ServedAll(commands[..k]), commands[k]);
        assert NoEmptyLevels(ServedAll(commands[..k])) && NoEmptyLevels(ServedAll(commands[..k + 1]));
      }
    }
  }

  lemma NextServed(commands: seq<Command>, k: nat)
    requires k < |commands|
    ensures ServedAll(commands[..k + 1]) == Served(ServedAll(commands[..k]), commands[k])
  {
    hide Served;
    assert commands[..k + 1][..k] == commands[..k];
  }

  lemma {:induction false} OfferedUntil(commands: seq<Command>, n: nat)
    requires n <= |commands| && forall k :: 0 <= k < n ==> !Stranded(ServedAll(commands[..k]), commands[k])
    ensures NoEmptyLevels(ServedAll(commands[..n]))
  {
    hide ServedAll, Served, Stranded, IdsIssued, NoEmptyLevels;
    if n == 0 {
      NothingListed();
      assert commands[..0] == [];
    } else {
      OfferedUntil(commands, n - 1);
      NextServed(commands, n - 1);
      ServedIds(commands[..n - 1]);
      ServedListsIff(ServedAll(commands[..n - 1]), commands[n - 1]);
    }
  }

  lemma NothingListed()
    ensures NoEmptyLevels(ServedAll([]))
  {
    assert forall side, p :: !Offered(EMPTY_BOOK.orders, side, p);
  }

  /** The same tick for each of `n` events. */
  function Stamps(n: nat, tick: int): (ticks: seq<int>)
    ensures |ticks| == n
  {
    seq(n, _ => tick)
  }

  /** Feeds the fills of a market order to the shadow book, one by one. */
  method FeedFills(shadow: ShadowLob, fills: seq<MatchedFill>, tick: int)
    modifies shadow
    ensures shadow.State() == ReplayAll(old(shadow.State()), FillEvents(fills), Stamps(|fills|, tick))
  {
    hide OnFill, ReplayAll, FillEvents, Stamps;
    NothingReplayed(shadow.State(), tick);
    for i := 0 to |fills|
      invariant shadow.State() == ReplayAll(old(shadow.State()), FillEvents(fills[..i]), Stamps(i, tick))
    {
      ghost var es := FillEvents(fills[..i]);
      shadow.OnFill(fills[i], fills[i].makerId, tick);
      FillEventsSnoc(fills[..i], fills[i]);
      assert fills[..i + 1] == fills[..i] + [fills[i]];
      StampsSnoc(i, tick);
      ReplaySnoc(old(shadow.State()), es, Filled(fills[i]), Stamps(i, tick), tick);
    }
    assert fills[..|fills|] == fills;
  }

  lemma NothingReplayed(s: Shadow, tick: int)
    ensures FillEvents([]) == [] && Stamps(0, tick) == [] && ReplayAll(s, [], []) == s
  {
  }

  lemma StampsSnoc(n: nat, tick: int)
    ensures Stamps(n + 1, tick) == Stamps(n, tick) + [tick]
  {
  }

  lemma ReplaySnoc(s: Shadow, es: seq<Event>, e: Event, ticks: seq<int>, tick: int)
    requires |ticks| == |es|
    ensures ReplayAll(s, es + [e], ticks + [tick]) == Replay(ReplayAll(s, es, ticks), e, tick)
  {
    hide Replay;
    assert (es + [e])[..|es|] == es && (ticks + [tick])[..|es|] == ticks;
  }

  lemma {:induction false} FillEventsSnoc(fills: seq<MatchedFill>, f: MatchedFill)
    ensures FillEvents(fills + [f]) == FillEvents(fills) + [Filled(f)]
  {
    if fills != [] {
      assert (fills + [f])[1..] == fills[1..] + [f];
      FillEventsSnoc(fills[1..], f);
    }
  }

  /** Carries out one command on the engine and reports its events. */
  method Execute(lob: PersistentLob, shadow: ShadowLob, c: Command, tick: int)
    requires lob.Valid() && shadow !in lob.Repr() && lob.nextOrderId + 1 < EMPTY_KEY
    requires c.Withdrawal? ==> c.id != EMPTY_KEY
    modifies lob.Repr(), shadow
    ensures lob.Valid() && lob.State() == Served(old(lob.State()), c)
    ensures
      var es := NewEvents(old(lob.State()), c);
      shadow.State() == ReplayAll(old(shadow.State()), es, Stamps(|es|, tick))
    ensures lob.nextOrderId <= old(lob.nextOrderId) + 1
  {
    hide PersistentLob.Shape, PersistentLob.Synced, Rep, OrdersOf, GridOf, OnFill, OnCancel, OnLimitAdd, Match, Trade,
         HasPrice, TradedPrices, Vacated, AddTo, Accepts, Stamps, ReplayAll;
    ghost var s := shadow.State();
    NothingReplayed(s, tick);
    StampsSnoc(0, tick);
    assert Stamps(1, tick) == [tick];
    match c {
      case LimitOrder(isBid, price, volume, participant) =>
        var id := lob.AddLimit(isBid, price, volume, participant);
        if id != NULL_ORDER_ID {
          shadow.OnLimitAdd(isBid, price, volume, participant, id, tick);
          ReplayOne(s, Placed(id, isBid, price, volume, participant), tick);
          assert NewEvents(old(lob.State()), c) == [Placed(id, isBid, price, volume, participant)];
        }
      case Withdrawal(id) =>
        var ok := lob.Cancel(id);
        shadow.OnCancel(id, ok, tick);
        ReplayOne(s, Cancelled(id, ok), tick);
      case MarketOrder(isBuy, volume, taker) =>
        TradeKeepsIds(lob.View(), isBuy, volume, taker);
        var fills := lob.MarketOrder(isBuy, volume, taker);
        FeedFills(shadow, fills, tick);
    }
  }

  lemma TradeKeepsIds(b: Book, isBuy: bool, volume: int, taker: int)
    ensures Trade(b, isBuy, volume, taker).nextId == b.nextId
  {
  }

  lemma ReplayOne(s: Shadow, e: Event, tick: int)
    ensures ReplayAll(s, [e], [tick]) == Replay(s, e, tick)
  {
    hide Replay;
    assert [e][..0] == [] && [tick][..0] == [];
  }

  /** Any run of the real structures: the engine's book is the reference run of the
      commands, and the shadow book has replayed exactly its events and reports exactly
      the misquoted fills. While it drops no level too early its queues are the
      engine's, and with quotable prices it reports nothing; positive volumes that fit
      64 bits never make it drop one. */
  method RunBoth(lob: PersistentLob, shadow: ShadowLob, commands: seq<Command>)
    requires lob.Valid() && lob.State() == EMPTY_ENGINE && shadow.State() == EMPTY_SHADOW && shadow !in lob.Repr()
    requires |commands| + 1 < EMPTY_KEY
    requires forall i :: 0 <= i < |commands| && commands[i].Withdrawal? ==> commands[i].id != EMPTY_KEY
    modifies lob.Repr(), shadow
    ensures lob.Valid() && lob.State() == ServedAll(commands)
    ensures lob.View() == Run(EMPTY_BOOK, ActionsOf(commands)).0
    ensures shadow.State() == ReplayAll(EMPTY_SHADOW, EventsOf(commands), TicksOf(commands))
    ensures (forall i :: 0 <= i < |commands| ==> PricedIn64(commands[i])) ==>
      shadow.violations == Record([], Misquotes(EventsOf(commands), TicksOf(commands)))
    ensures PositiveCommands(commands) ==> Intact(EventsOf(commands), TicksOf(commands))
    ensures Intact(EventsOf(commands), TicksOf(commands)) ==> forall key :: SameQueue(lob.store, shadow.State(), key)
    ensures Intact(EventsOf(commands), TicksOf(commands)) && QuotableCommands(commands) ==>
      shadow.violations == [] && Score(shadow.penalties) == 1.0
  {
    hide PersistentLob.Shape, PersistentLob.Synced, Rep, OrdersOf, GridOf, Act, Run, ReplayAll, Score, SameQueue,
      Record, Misquotes, PositiveCommands, Intact, ServedAll, ActionsOf, EventsOf, TicksOf, Served, NewEvents, Stamps;
    EmptyEvents();
    for i := 0 to |commands|
      invariant lob.Valid() && lob.State() == ServedAll(commands[..i]) && lob.nextOrderId <= i + 1
      invariant shadow.State() == ReplayAll(EMPTY_SHADOW, EventsOf(commands[..i]), TicksOf(commands[..i]))
    {
      ghost var e := lob.State();
      Execute(lob, shadow, commands[i], i);
      TicksGrow(commands[..i], commands[i]);
      ghost var es := NewEvents(e, commands[i]);
      ReplayAppend(EMPTY_SHADOW, EventsOf(commands[..i]), es, TicksOf(commands[..i]), Stamps(|es|, i));
      assert commands[..i + 1] == commands[..i] + [commands[i]];
    }
    assert commands[..|commands|] == commands;
    ServedAllRuns(commands);
    ghost var ticks := TicksOf(commands);
    RunReports(commands, ticks);
    if PositiveCommands(commands) { CommandsRunIntact(commands, ticks); }
    if Intact(EventsOf(commands), ticks) {
      forall key ensures SameQueue(lob.store, shadow.State(), key) {
        QueuesStayEqual(commands, ticks, lob.store, lob.nextOrderId, key);
      }
    }
  }

  lemma TicksGrow(commands: seq<Command>, c: Command)
    ensures ServedAll(commands + [c]) == Served(ServedAll(commands), c)
    ensures
      var es := NewEvents(ServedAll(commands), c);
      && EventsOf(commands + [c]) == EventsOf(commands) + es
      && TicksOf(commands + [c]) == TicksOf(commands) + Stamps(|es|, |commands|)
  {
    hide NewEvents, Served, EventsOf, Stamps;
    EventsGrow(commands, c);
    assert (commands + [c])[..|commands|] == commands;
  }

  lemma EmptyEvents()
    ensures ServedAll([]) == EMPTY_ENGINE && EventsOf([]) == [] && ReplayAll(EMPTY_SHADOW, [], []) == EMPTY_SHADOW
  {
    EmptyRun();
  }

  lemma QueuesStayEqual(commands: seq<Command>, ticks: seq<int>, store: Store, nextId: nat, key: LevelKey)
    requires |ticks| == |EventsOf(commands)| && Intact(EventsOf(commands), ticks)
    requires Rep(store, nextId) && Run(EMPTY_BOOK, ActionsOf(commands)).0.orders == OrdersOf(store)
    ensures SameQueue(store, ReplayAll(EMPTY_SHADOW, EventsOf(commands), ticks), key)
  {
    assert CoreRep(store, nextId);
    hide Rep, CoreRep, OrdersOf, Act, ReplayAll, SameQueue, Exact, Mirrors, Intact, At, ActionsOf;
    RunExplained(EMPTY_BOOK, ActionsOf(commands));
    var es := EventsOf(commands);
    AtStart(es, ticks);
    IntactState(es, ticks, |es|);
    assert es[..|es|] == es;
    QueuesAgree(store, nextId, ReplayAll(EMPTY_SHADOW, es, ticks), StateAfter(EMPTY_BOOK, es), key);
  }

  /** What the shadow reports of the commands' run. */
  lemma RunReports(commands: seq<Command>, ticks: seq<int>)
    requires |ticks| == |EventsOf(commands)|
    ensures
      var es := EventsOf(commands);
      (forall i :: 0 <= i < |commands| ==> PricedIn64(commands[i])) ==>
        ReplayAll(EMPTY_SHADOW, es, ticks).violations == Record([], Misquotes(es, ticks))
    ensures
      var s := ReplayAll(EMPTY_SHADOW, EventsOf(commands), ticks);
      Intact(EventsOf(commands), ticks) && QuotableCommands(commands) ==>
        s.violations == [] && Score(s.penalties) == 1.0
  {
    hide Score, ReplayAll, Act, Run, Misquotes, Record, Intact, ActionsOf;
    var actions, es := ActionsOf(commands), EventsOf(commands);
    ServedAllRuns(commands);
    RunExplained(EMPTY_BOOK, actions);
    if forall i :: 0 <= i < |commands| ==> PricedIn64(commands[i]) {
      CommandPrices(commands, actions);
      OnlyMisquotesReported(es, ticks);
      if Intact(es, ticks) && QuotableCommands(commands) {
        forall k | 0 <= k < |es| ensures Quotable(es[k]) {
          if es[k].Placed? {
            var i := PlacedByCommand(EMPTY_BOOK, commands, actions, k);
            assert QuotableCommand(commands[i]);
          }
        }
        ShadowNeverAccuses(es, ticks);
      }
    }
  }

  lemma CommandPrices(commands: seq<Command>, actions: seq<Action>)
    requires Traces(commands, actions) && forall i :: 0 <= i < |commands| ==> PricedIn64(commands[i])
    ensures forall k :: 0 <= k < |Run(EMPTY_BOOK, actions).1| ==> PriceFits(Run(EMPTY_BOOK, actions).1[k])
  {
    hide Run;
    var es := Run(EMPTY_BOOK, actions).1;
    forall k | 0 <= k < |es| ensures PriceFits(es[k]) {
      if es[k].Placed? {
        var i := PlacedByCommand(EMPTY_BOOK, commands, actions, k);
        assert PricedIn64(commands[i]);
      }
    }
  }

  lemma CommandsRunIntact(commands: seq<Command>, ticks: seq<int>)
    requires PositiveCommands(commands) && |ticks| == |EventsOf(commands)|
    ensures Intact(EventsOf(commands), ticks)
  {
    hide Run, Intact, ActionsOf;
    var actions, es := ActionsOf(commands), EventsOf(commands);
    ServedAllRuns(commands);
    RunExplained(EMPTY_BOOK, actions);
    PlacedWithinOffered(EMPTY_BOOK, commands, actions);
    forall k | 0 <= k < |es| && es[k].Placed? ensures es[k].volume > 0 {
      var i := PlacedByCommand(EMPTY_BOOK, commands, actions, k);
      assert PositiveCommand(commands[i]);
    }
    PositiveRunIntact(es, ticks);
  }

  /** Every order of a run was asked for by some command. */
  lemma {:induction false} PlacedByCommand(b: Book, commands: seq<Command>, actions: seq<Action>, k: nat) returns (i: nat)
    requires Traces(commands, actions) && k < |Run(b, actions).1| && Run(b, actions).1[k].Placed?
    ensures i < |commands|
    ensures var e := Run(b, actions).1[k]; commands[i] == LimitOrder(e.isBid, e.price, e.volume, e.participant)
    decreases |actions|
  {
    hide Trade, Match;
    assert Carries(commands[0], actions[0]);
    var (b1, es) := Act(b, actions[0]);
    if actions[0].Market? { FillEventsAreFills(Match(b.orders, actions[0].isBuy, actions[0].volume, actions[0].taker).fills); }
    if k < |es| {
      i := 0;
    } else {
      TracesRest(commands, actions);
      i := PlacedByCommand(b1, commands[1..], actions[1..], k - |es|);
      i := i + 1;
    }
  }

  lemma TracesRest(commands: seq<Command>, actions: seq<Action>)
    requires Traces(commands, actions) && commands != []
    ensures Traces(commands[1..], actions[1..])
  {
  }

  /** A run places at most the volume its commands offer. */
  lemma {:induction false} PlacedWithinOffered(b: Book, commands: seq<Command>, actions: seq<Action>)
    requires Traces(commands, actions)
    requires forall i :: 0 <= i < |commands| ==> PositiveCommand(commands[i])
    ensures TotalPlaced(Run(b, actions).1) <= OfferedVolume(commands)
    decreases |actions|
  {
    hide Trade, Match;
    if actions != [] {
      assert Carries(commands[0], actions[0]) && PositiveCommand(commands[0]);
      var (b1, es) := Act(b, actions[0]);
      TracesRest(commands, actions);
      PlacedWithinOffered(b1, commands[1..], actions[1..]);
      TotalPlacedAppend(es, Run(b1, actions[1..]).1);
      ActPlaces(b, actions[0]);
    }
  }

  lemma ActPlaces(b: Book, a: Action)
    ensures TotalPlaced(Act(b, a).1) == if a.Add? && a.accepted then a.volume else 0
  {
    hide Trade, Match;
    if a.Market? {
      var fills := Match(b.orders, a.isBuy, a.volume, a.taker).fills;
      FillEventsAreFills(fills);
      NothingPlaced(FillEvents(fills));
    } else if Act(b, a).1 != [] {
      assert Act(b, a).1[..0] == [];
    }
  }

  lemma EmptyRun()
    ensures Run(EMPTY_BOOK, []) == (EMPTY_BOOK, []) && ReplayAll(EMPTY_SHADOW, [], []) == EMPTY_SHADOW
  {
  }

  lemma {:induction false} FillEventsAreFills(fills: seq<MatchedFill>)
    ensures forall k :: 0 <= k < |fills| ==> FillEvents(fills)[k].Filled?
  {
    if fills != [] { FillEventsAreFills(fills[1..]); }
  }
}

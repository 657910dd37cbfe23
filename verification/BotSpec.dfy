/** What the bots do to the reference book, tick by tick, why their resting orders
    stay capped, and why they find room (game-master/bot_fleet.hpp). The prices,
    volumes and the decision to act, which the strategies compute in floating point,
    are inputs. */
module BotSpec {
  import opened MarketTypes
  import opened PriceTimeBook
  import opened OrderTable
  import opened OrderPools
  import opened PriceGrids

  const MAX_MR_ORDERS: nat := 8
  const MAX_NOISE_ORDERS: nat := 6

  // The two seed quotes the tick loop places first.
  const SEED_BID: nat := 1
  const SEED_ASK: nat := 2

  datatype Quote = Quote(price: int, volume: int)

  datatype MarketMove = MarketMove(isBuy: bool, volume: int)

  datatype RestingMove = Idle | Rest(isBid: bool, price: int, volume: int)

  /** The decisions of one tick; a bot that is switched off makes none. */
  datatype Moves = Moves(
    maker: Option<(Quote, Quote)>,
    momentum: seq<MarketMove>,
    meanReversion: RestingMove,
    noise: RestingMove,
    sniper: seq<MarketMove>)

  /** The ids the bots remember; the rings are listed oldest first. */
  datatype Fleet = Fleet(makerBid: nat, makerAsk: nat, mrBids: seq<nat>, mrAsks: seq<nat>, noise: seq<nat>)

  const NEW_FLEET := Fleet(0, 0, [], [], [])

  /** What an add answers: the new id, or 0 when the engine refuses it. */
  function NewId(e: EngineState, isBid: bool, price: int): nat {
    if Accepts(e, isBid, price) then e.book.nextId else 0
  }

  function Pushed(ring: seq<nat>, capacity: nat, id: nat): seq<nat> {
    if |ring| >= capacity && ring != [] then ring[1..] + [id] else ring + [id]
  }

  function Evicted(ring: seq<nat>, capacity: nat): nat {
    if |ring| >= capacity && ring != [] then ring[0] else 0
  }

  ghost function RemoveIfAny(e: EngineState, id: nat): EngineState {
    if id == 0 then e else RemoveFrom(e, id)
  }

  /** Places an order, remembers it, and cancels the one it pushes out. */
  ghost function RestCapped(e: EngineState, ring: seq<nat>, capacity: nat,
                            isBid: bool, price: int, volume: int, participant: int): (EngineState, seq<nat>)
  {
    (RemoveIfAny(AddTo(e, isBid, price, volume, participant), Evicted(ring, capacity)),
     Pushed(ring, capacity, NewId(e, isBid, price)))
  }

  /** The maker's previous quotes withdrawn. */
  ghost function QuotesWithdrawn(e: EngineState, f: Fleet): EngineState {
    RemoveIfAny(RemoveIfAny(e, f.makerBid), f.makerAsk)
  }

  ghost function MakerStep(e: EngineState, f: Fleet, bid: Quote, ask: Quote): (EngineState, Fleet) {
    var e1 := QuotesWithdrawn(e, f);
    var e2 := AddTo(e1, true, bid.price, bid.volume, BOT_MM);
    (AddTo(e2, false, ask.price, ask.volume, BOT_MM),
     f.(makerBid := NewId(e1, true, bid.price), makerAsk := NewId(e2, false, ask.price)))
  }

  ghost function TakerStep(e: EngineState, moves: seq<MarketMove>, bot: int): EngineState {
    if moves == [] then e
    else
      var n := |moves| - 1;
      TradeOn(TakerStep(e, moves[..n], bot), moves[n].isBuy, moves[n].volume, bot)
  }

  ghost function MeanReversionStep(e: EngineState, f: Fleet, m: RestingMove): (EngineState, Fleet) {
    if m.Idle? then (e, f)
    else if m.isBid then
      var (e', ring) := RestCapped(e, f.mrBids, MAX_MR_ORDERS, true, m.price, m.volume, BOT_MR);
      (e', f.(mrBids := ring))
    else
      var (e', ring) := RestCapped(e, f.mrAsks, MAX_MR_ORDERS, false, m.price, m.volume, BOT_MR);
      (e', f.(mrAsks := ring))
  }

  ghost function NoiseStep(e: EngineState, f: Fleet, m: RestingMove): (EngineState, Fleet) {
    if m.Idle? then (e, f)
    else
      var (e', ring) := RestCapped(e, f.noise, MAX_NOISE_ORDERS, m.isBid, m.price, m.volume, BOT_NOISE);
      (e', f.(noise := ring))
  }

  ghost function MakerStepIfAny(e: EngineState, f: Fleet, maker: Option<(Quote, Quote)>): (EngineState, Fleet) {
    if maker.Some? then MakerStep(e, f, maker.value.0, maker.value.1) else (e, f)
  }

  /** The maker and the momentum trader. */
  ghost function FirstTwo(e: EngineState, f: Fleet, m: Moves): (EngineState, Fleet) {
    var (e1, f1) := MakerStepIfAny(e, f, m.maker);
    (TakerStep(e1, m.momentum, BOT_MOM), f1)
  }

  /** The maker, the momentum trader and the mean-reversion bot. */
  ghost function FirstThree(e: EngineState, f: Fleet, m: Moves): (EngineState, Fleet) {
    var (e2, f2) := FirstTwo(e, f, m);
    MeanReversionStep(e2, f2, m.meanReversion)
  }

  /** One call of the fleet, bot after bot. */
  ghost function FleetStep(e: EngineState, f: Fleet, m: Moves): (EngineState, Fleet) {
    var (e3, f3) := FirstThree(e, f, m);
    var (e4, f4) := NoiseStep(e3, f3, m.noise);
    (TakerStep(e4, m.sniper, BOT_SNIPER), f4)
  }

  // --------------------------------------------------------------- invariant

  /** Every resting order of a bot is one the bot still remembers. */
  predicate Remembered(f: Fleet, id: nat, o: Resting) {
    if o.participant == BOT_MM then id in {SEED_BID, SEED_ASK, f.makerBid, f.makerAsk}
    else if o.participant == BOT_MR then (if o.isBid then id in f.mrBids else id in f.mrAsks)
    else if o.participant == BOT_NOISE then id in f.noise
    else o.participant == CONTESTANT
  }

  ghost predicate RingsBounded(f: Fleet, n: nat) {
    && |f.mrBids| <= MAX_MR_ORDERS && |f.mrAsks| <= MAX_MR_ORDERS && |f.noise| <= MAX_NOISE_ORDERS
    && f.makerBid < n && f.makerAsk < n
    && (forall id :: id in f.mrBids ==> id < n)
    && (forall id :: id in f.mrAsks ==> id < n)
    && (forall id :: id in f.noise ==> id < n)
  }

  ghost predicate Capped(b: Book, f: Fleet) {
    && IdsIssued(b) && b.nextId > SEED_ASK
    && RingsBounded(f, b.nextId)
    && forall id :: id in b.orders ==> Remembered(f, id, b.orders[id])
  }

  /** Orders that only leave the book or lose volume. */
  ghost predicate Shrunk(os: Orders, os': Orders) {
    forall id :: id in os' ==> id in os && SameTerms(os'[id], os[id])
  }

  lemma ShrinkKeepsCapped(b: Book, b': Book, f: Fleet)
    requires Capped(b, f) && b'.nextId == b.nextId && Shrunk(b.orders, b'.orders)
    ensures Capped(b', f)
  {
  }

  lemma TradeShrinks(b: Book, isBuy: bool, volume: int, taker: int)
    requires IdsIssued(b)
    ensures Shrunk(b.orders, Trade(b, isBuy, volume, taker).orders)
    ensures Trade(b, isBuy, volume, taker).nextId == b.nextId
  {
    MatchConserves(b.orders, isBuy, volume, taker, b.nextId);
  }

  lemma {:induction false} TakerKeepsCapped(e: EngineState, f: Fleet, moves: seq<MarketMove>, bot: int)
    requires Capped(e.book, f)
    ensures Capped(TakerStep(e, moves, bot).book, f)
    ensures TakerStep(e, moves, bot).book.nextId == e.book.nextId
    ensures Shrunk(e.book.orders, TakerStep(e, moves, bot).book.orders)
  {
    hide Match, TradedPrices;
    if moves != [] {
      var n := |moves| - 1;
      TakerKeepsCapped(e, f, moves[..n], bot);
      var b1 := TakerStep(e, moves[..n], bot).book;
      TradeShrinks(b1, moves[n].isBuy, moves[n].volume, bot);
      ShrinkKeepsCapped(b1, TakerStep(e, moves, bot).book, f);
    }
  }

  /** The maker's quotes are gone, or were never placed; it remembers none. */
  lemma WithdrawnCapped(e: EngineState, f: Fleet)
    requires Capped(e.book, f)
    ensures Capped(QuotesWithdrawn(e, f).book, f.(makerBid := 0, makerAsk := 0))
    ensures QuotesWithdrawn(e, f).book.nextId == e.book.nextId
    ensures Owned(QuotesWithdrawn(e, f).book.orders, CONTESTANT) <= Owned(e.book.orders, CONTESTANT)
  {
    hide Vacated, RingsBounded;
    MakerForgets(f, e.book.nextId);
  }

  lemma MakerForgets(f: Fleet, n: nat)
    requires RingsBounded(f, n)
    ensures RingsBounded(f.(makerBid := 0, makerAsk := 0), n)
  {
  }

  /** A new order of the maker is the quote it remembers for that side. */
  lemma QuotedCapped(e: EngineState, f: Fleet, isBid: bool, price: int, volume: int)
    requires Capped(e.book, f) && (if isBid then f.makerBid == 0 else f.makerAsk == 0)
    ensures
      var e' := AddTo(e, isBid, price, volume, BOT_MM);
      var id := NewId(e, isBid, price);
      && Capped(e'.book, if isBid then f.(makerBid := id) else f.(makerAsk := id))
      && e.book.nextId <= e'.book.nextId <= e.book.nextId + 1
      && Owned(e'.book.orders, CONTESTANT) <= Owned(e.book.orders, CONTESTANT)
  {
    hide Accepts, Opening;
  }

  lemma MakerKeepsCapped(e: EngineState, f: Fleet, bid: Quote, ask: Quote)
    requires Capped(e.book, f)
    ensures
      var (e', f') := MakerStep(e, f, bid, ask);
      && Capped(e'.book, f') && e'.book.nextId <= e.book.nextId + 2
      && Owned(e'.book.orders, CONTESTANT) <= Owned(e.book.orders, CONTESTANT)
  {
    hide Capped, Owned, QuotesWithdrawn, AddTo, NewId;
    WithdrawnCapped(e, f);
    var e1, f1 := QuotesWithdrawn(e, f), f.(makerBid := 0, makerAsk := 0);
    QuotedCapped(e1, f1, true, bid.price, bid.volume);
    var e2, f2 := AddTo(e1, true, bid.price, bid.volume, BOT_MM), f1.(makerBid := NewId(e1, true, bid.price));
    QuotedCapped(e2, f2, false, ask.price, ask.volume);
  }

  lemma PushedMembers(ring: seq<nat>, capacity: nat, id: nat)
    ensures id in Pushed(ring, capacity, id)
    ensures forall x :: x in ring && x != Evicted(ring, capacity) ==> x in Pushed(ring, capacity, id)
    ensures forall x :: x in Pushed(ring, capacity, id) ==> x == id || x in ring
    ensures |ring| <= capacity && capacity > 0 ==> |Pushed(ring, capacity, id)| <= capacity
  {
    var r := Pushed(ring, capacity, id);
    assert r[|r| - 1] == id;
    if |ring| >= capacity && ring != [] {
      assert ring == [ring[0]] + ring[1..];
    }
  }

  lemma MeanReversionKeepsCapped(e: EngineState, f: Fleet, m: RestingMove)
    requires Capped(e.book, f)
    ensures
      var (e', f') := MeanReversionStep(e, f, m);
      Capped(e'.book, f')
  {
    hide Pushed, Evicted, Accepts, Opening, Vacated;
    if m.Rest? {
      PushedMembers(if m.isBid then f.mrBids else f.mrAsks, MAX_MR_ORDERS, NewId(e, m.isBid, m.price));
    }
  }

  lemma NoiseKeepsCapped(e: EngineState, f: Fleet, m: RestingMove)
    requires Capped(e.book, f)
    ensures
      var (e', f') := NoiseStep(e, f, m);
      Capped(e'.book, f')
  {
    hide Pushed, Evicted, Accepts, Opening, Vacated;
    if m.Rest? {
      PushedMembers(f.noise, MAX_NOISE_ORDERS, NewId(e, m.isBid, m.price));
    }
  }

  /** The invariant after the maker and the momentum trader, with what they leave of
      the contestant's orders and how many ids they use. */
  lemma FirstTwoKeepCapped(e: EngineState, f: Fleet, m: Moves)
    requires Capped(e.book, f)
    ensures
      var (e2, f2) := FirstTwo(e, f, m);
      && Capped(e2.book, f2) && e2.book.nextId <= e.book.nextId + 2
      && Owned(e2.book.orders, CONTESTANT) <= Owned(e.book.orders, CONTESTANT)
  {
    hide Capped, Owned, MakerStep, TakerStep, Shrunk;
    var (e1, f1) := MakerStepIfAny(e, f, m.maker);
    if m.maker.Some? { MakerKeepsCapped(e, f, m.maker.value.0, m.maker.value.1); }
    TakerKeepsCapped(e1, f1, m.momentum, BOT_MOM);
    ShrinkKeepsOwners(e1.book.orders, TakerStep(e1, m.momentum, BOT_MOM).book.orders, CONTESTANT);
  }

  lemma FirstThreeKeepCapped(e: EngineState, f: Fleet, m: Moves)
    requires Capped(e.book, f)
    ensures
      var (e3, f3) := FirstThree(e, f, m);
      && Capped(e3.book, f3) && e3.book.nextId <= e.book.nextId + 3
      && Owned(e3.book.orders, CONTESTANT) <= Owned(e.book.orders, CONTESTANT)
  {
    hide Capped, Owned, FirstTwo, MeanReversionStep;
    FirstTwoKeepCapped(e, f, m);
    var (e2, f2) := FirstTwo(e, f, m);
    MeanReversionKeepsCapped(e2, f2, m.meanReversion);
    MeanReversionLeavesContestant(e2, f2, m.meanReversion);
    RestingIds(e2, f2, m.meanReversion);
  }

  lemma FleetKeepsCapped(e: EngineState, f: Fleet, m: Moves)
    requires Capped(e.book, f)
    ensures
      var (e', f') := FleetStep(e, f, m);
      Capped(e'.book, f')
  {
    hide Capped, FirstThree, NoiseStep, TakerStep, Shrunk;
    FirstThreeKeepCapped(e, f, m);
    var (e3, f3) := FirstThree(e, f, m);
    NoiseKeepsCapped(e3, f3, m.noise);
    var (e4, f4) := NoiseStep(e3, f3, m.noise);
    TakerKeepsCapped(e4, f4, m.sniper, BOT_SNIPER);
  }

  /** A fleet call places at most four orders. */
  lemma FleetIds(e: EngineState, f: Fleet, m: Moves)
    requires Capped(e.book, f)
    ensures FleetStep(e, f, m).0.book.nextId <= e.book.nextId + 4
  {
    hide Capped, FirstThree, NoiseStep, TakerStep, Shrunk;
    FirstThreeKeepCapped(e, f, m);
    var (e3, f3) := FirstThree(e, f, m);
    NoiseKeepsCapped(e3, f3, m.noise);
    RestingIds(e3, f3, m.noise);
    var (e4, f4) := NoiseStep(e3, f3, m.noise);
    TakerKeepsCapped(e4, f4, m.sniper, BOT_SNIPER);
  }

  lemma RestingIds(e: EngineState, f: Fleet, m: RestingMove)
    ensures MeanReversionStep(e, f, m).0.book.nextId <= e.book.nextId + 1
    ensures NoiseStep(e, f, m).0.book.nextId <= e.book.nextId + 1
  {
    hide Pushed, Evicted, Accepts, Opening, Vacated;
  }

  // -------------------------------------------------------------- whole runs

  /** What the contestant may do between two fleet calls. */
  datatype ContestantMove =
    | Limit(isBid: bool, price: int, volume: int)
    | MarketOrder(isBuy: bool, volume: int)
    | CancelAny(id: nat)

  datatype Tick = Tick(moves: Moves, contestant: seq<ContestantMove>)

  ghost function ContestantStep(e: EngineState, m: ContestantMove): EngineState {
    match m
    case Limit(isBid, price, volume) => AddTo(e, isBid, price, volume, CONTESTANT)
    case MarketOrder(isBuy, volume) => TradeOn(e, isBuy, volume, CONTESTANT)
    case CancelAny(id) => RemoveFrom(e, id)
  }

  ghost function ContestantSteps(e: EngineState, ms: seq<ContestantMove>): EngineState {
    if ms == [] then e else ContestantStep(ContestantSteps(e, ms[..|ms| - 1]), ms[|ms| - 1])
  }

  ghost function RunTicks(e: EngineState, f: Fleet, ticks: seq<Tick>): (EngineState, Fleet) {
    if ticks == [] then (e, f)
    else
      var n := |ticks| - 1;
      var (e1, f1) := RunTicks(e, f, ticks[..n]);
      var (e2, f2) := FleetStep(e1, f1, ticks[n].moves);
      (ContestantSteps(e2, ticks[n].contestant), f2)
  }

  lemma {:induction false} ContestantKeepsCapped(e: EngineState, f: Fleet, ms: seq<ContestantMove>)
    requires Capped(e.book, f)
    ensures Capped(ContestantSteps(e, ms).book, f)
  {
    hide Match, TradedPrices, Accepts, Opening, Vacated;
    if ms != [] {
      var n := |ms| - 1;
      ContestantKeepsCapped(e, f, ms[..n]);
      var b1 := ContestantSteps(e, ms[..n]).book;
      if ms[n].MarketOrder? {
        TradeShrinks(b1, ms[n].isBuy, ms[n].volume, CONTESTANT);
        ShrinkKeepsCapped(b1, ContestantSteps(e, ms).book, f);
      }
    }
  }

  /** What the tick loop starts from: two seed quotes in a new book. */
  function Seeded(bidPrice: int, askPrice: int, volume: int): EngineState {
    AddTo(AddTo(EMPTY_ENGINE, true, bidPrice, volume, BOT_MM), false, askPrice, volume, BOT_MM)
  }

  /** Both seed quotes are accepted. */
  lemma SeedsAccepted(bidPrice: int, askPrice: int, volume: int)
    ensures Seeded(bidPrice, askPrice, volume)
      == EngineState(Book(map[SEED_BID := Resting(true, bidPrice, volume, BOT_MM),
                              SEED_ASK := Resting(false, askPrice, volume, BOT_MM)], 3, 0, 0),
                     Grid({bidPrice}, {askPrice}))
    ensures Capped(Seeded(bidPrice, askPrice, volume).book, NEW_FLEET)
  {
    hide Capped;
    var e1 := AddTo(EMPTY_ENGINE, true, bidPrice, volume, BOT_MM);
    assert e1 == EngineState(Book(map[SEED_BID := Resting(true, bidPrice, volume, BOT_MM)], 2, 0, 0), Grid({bidPrice}, {}));
    SeedsCapped(bidPrice, askPrice, volume);
  }

  lemma SeedsCapped(bidPrice: int, askPrice: int, volume: int)
    ensures Capped(Book(map[SEED_BID := Resting(true, bidPrice, volume, BOT_MM),
                            SEED_ASK := Resting(false, askPrice, volume, BOT_MM)], 3, 0, 0), NEW_FLEET)
  {
  }

  /** In every run, after every fleet call and every contestant move, the bots
      remember all they have resting. */
  lemma {:induction false} RunsStayCapped(bidPrice: int, askPrice: int, volume: int, ticks: seq<Tick>)
    ensures
      var (e, f) := RunTicks(Seeded(bidPrice, askPrice, volume), NEW_FLEET, ticks);
      Capped(e.book, f)
  {
    hide Seeded, Capped;
    if ticks == [] {
      SeedsAccepted(bidPrice, askPrice, volume);
    } else {
      RunsStayCapped(bidPrice, askPrice, volume, ticks[..|ticks| - 1]);
      RunStep(Seeded(bidPrice, askPrice, volume), ticks);
    }
  }

  lemma RunStep(start: EngineState, ticks: seq<Tick>)
    requires ticks != []
    requires var (e, f) := RunTicks(start, NEW_FLEET, ticks[..|ticks| - 1]); Capped(e.book, f)
    ensures var (e, f) := RunTicks(start, NEW_FLEET, ticks); Capped(e.book, f)
  {
    hide Capped, FleetStep, ContestantSteps;
    var n := |ticks| - 1;
    var (e1, f1) := RunTicks(start, NEW_FLEET, ticks[..n]);
    FleetKeepsCapped(e1, f1, ticks[n].moves);
    var (e2, f2) := FleetStep(e1, f1, ticks[n].moves);
    ContestantKeepsCapped(e2, f2, ticks[n].contestant);
  }

  // --------------------------------------------------------------- the caps

  function Owned(os: Orders, participant: int): set<nat> {
    set id | id in os && os[id].participant == participant
  }

  function OwnedOn(os: Orders, participant: int, isBid: bool): set<nat> {
    set id | id in os && os[id].participant == participant && os[id].isBid == isBid
  }

  /** The ids a list mentions: no more than its length. */
  function Listed(s: seq<nat>): (ids: set<nat>)
    ensures |ids| <= |s|
    ensures forall id :: id in s ==> id in ids
  {
    if s == [] then {} else {s[0]} + Listed(s[1..])
  }

  lemma CapOf(owned: set<nat>, ring: seq<nat>)
    requires forall id :: id in owned ==> id in ring
    ensures |owned| <= |ring|
  {
    SubsetSize(owned, Listed(ring));
  }

  lemma MakerCap(b: Book, f: Fleet)
    requires Capped(b, f)
    ensures |Owned(b.orders, BOT_MM) - {SEED_BID, SEED_ASK}| <= 2
    ensures |Owned(b.orders, BOT_MM)| <= 4
  {
    CapOf(Owned(b.orders, BOT_MM) - {SEED_BID, SEED_ASK}, [f.makerBid, f.makerAsk]);
    CapOf(Owned(b.orders, BOT_MM), [SEED_BID, SEED_ASK, f.makerBid, f.makerAsk]);
  }

  lemma RingCaps(b: Book, f: Fleet)
    requires Capped(b, f)
    ensures |Owned(b.orders, BOT_NOISE)| <= MAX_NOISE_ORDERS
    ensures |OwnedOn(b.orders, BOT_MR, true)| <= MAX_MR_ORDERS
    ensures |OwnedOn(b.orders, BOT_MR, false)| <= MAX_MR_ORDERS
  {
    CapOf(Owned(b.orders, BOT_NOISE), f.noise);
    CapOf(OwnedOn(b.orders, BOT_MR, true), f.mrBids);
    CapOf(OwnedOn(b.orders, BOT_MR, false), f.mrAsks);
  }

  lemma Owners(b: Book, f: Fleet)
    requires Capped(b, f)
    ensures b.orders.Keys == Owned(b.orders, CONTESTANT) + Owned(b.orders, BOT_NOISE)
      + OwnedOn(b.orders, BOT_MR, true) + OwnedOn(b.orders, BOT_MR, false) + Owned(b.orders, BOT_MM)
    ensures Owned(b.orders, BOT_MOM) == {} && Owned(b.orders, BOT_SNIPER) == {}
  {
    assert forall id :: id in b.orders ==> Remembered(f, id, b.orders[id]);
  }

  /** The resting orders of each bot are capped, and nobody but the contestant has
      any others. */
  predicate WithinCaps(os: Orders) {
    && |Owned(os, BOT_NOISE)| <= MAX_NOISE_ORDERS
    && |OwnedOn(os, BOT_MR, true)| <= MAX_MR_ORDERS
    && |OwnedOn(os, BOT_MR, false)| <= MAX_MR_ORDERS
    && |Owned(os, BOT_MM) - {SEED_BID, SEED_ASK}| <= 2
    && Owned(os, BOT_MOM) == {} && Owned(os, BOT_SNIPER) == {}
    && |os| <= |Owned(os, CONTESTANT)| + 26
  }

  lemma OrderCaps(b: Book, f: Fleet)
    requires Capped(b, f)
    ensures WithinCaps(b.orders)
  {
    RingCaps(b, f);
    MakerCap(b, f);
    Owners(b, f);
    hide Capped, Owned, OwnedOn;
    var os := b.orders;
    UnionSize(Owned(os, CONTESTANT), Owned(os, BOT_NOISE), OwnedOn(os, BOT_MR, true), OwnedOn(os, BOT_MR, false),
              Owned(os, BOT_MM));
    assert |os| == |os.Keys|;
  }

  // ------------------------------------------------- contestant's own orders

  lemma ShrinkKeepsOwners(os: Orders, os': Orders, participant: int)
    requires Shrunk(os, os')
    ensures Owned(os', participant) <= Owned(os, participant)
  {
  }

  lemma RestLeavesContestant(e: EngineState, ring: seq<nat>, capacity: nat,
                             isBid: bool, price: int, volume: int, participant: int)
    requires IdsIssued(e.book) && participant != CONTESTANT
    ensures Owned(RestCapped(e, ring, capacity, isBid, price, volume, participant).0.book.orders, CONTESTANT)
            <= Owned(e.book.orders, CONTESTANT)
  {
    hide Pushed, Evicted, Accepts, Opening, Vacated;
  }

  lemma MeanReversionLeavesContestant(e: EngineState, f: Fleet, m: RestingMove)
    requires Capped(e.book, f)
    ensures Owned(MeanReversionStep(e, f, m).0.book.orders, CONTESTANT) <= Owned(e.book.orders, CONTESTANT)
  {
    hide Owned, RestCapped;
    if m.Rest? {
      RestLeavesContestant(e, if m.isBid then f.mrBids else f.mrAsks, MAX_MR_ORDERS, m.isBid, m.price, m.volume, BOT_MR);
    }
  }

  // ------------------------------------------ what each turn does to the book

  predicate RestsAs(os: Orders, id: nat, o: Resting) {
    id in os && os[id] == o
  }

  /** All orders but those of `ids` rest on as they were, and no other is there. */
  ghost predicate OnlyAround(os: Orders, os': Orders, ids: set<nat>) {
    forall id :: id !in ids ==> (id in os <==> id in os') && (id in os ==> os'[id] == os[id])
  }

  /** After the maker's turn its previous quotes are gone, its new ones, if accepted,
      rest with the prices and volumes it decided, the bid placed before the ask, and
      nothing else has changed. */
  lemma MakerQuotes(e: EngineState, f: Fleet, bid: Quote, ask: Quote)
    requires Capped(e.book, f)
    ensures
      var (e', f') := MakerStep(e, f, bid, ask);
      var os, os' := e.book.orders, e'.book.orders;
      && (f'.makerBid != 0 ==>
            f'.makerBid !in os && RestsAs(os', f'.makerBid, Resting(true, bid.price, bid.volume, BOT_MM)))
      && (f'.makerAsk != 0 ==>
            f'.makerAsk !in os && RestsAs(os', f'.makerAsk, Resting(false, ask.price, ask.volume, BOT_MM)))
      && (f'.makerBid != 0 && f'.makerAsk != 0 ==> f'.makerBid < f'.makerAsk)
      && f.makerBid !in os' && f.makerAsk !in os'
      && OnlyAround(os, os', {f.makerBid, f.makerAsk, f'.makerBid, f'.makerAsk})
      && f' == f.(makerBid := f'.makerBid, makerAsk := f'.makerAsk)
  {
    hide Accepts, Opening, Vacated;
  }

  /** A resting bot's turn: the new order, if accepted, rests on these terms and is
      remembered last; the order a full ring has remembered longest is gone; nothing
      else has changed. */
  predicate TurnedOver(os: Orders, os': Orders, ring: seq<nat>, ring': seq<nat>, capacity: nat, o: Resting)
    requires capacity > 0
  {
    && ring' != []
    && var id := ring'[|ring'| - 1];
    && ring' == (if |ring| == capacity then ring[1..] else ring) + [id]
    && (id != 0 ==> id !in os && RestsAs(os', id, o))
    && (forall j :: j in os && (|ring| == capacity ==> j != ring[0]) ==> RestsAs(os', j, os[j]))
    && (forall j :: j in os' && j != id ==> j in os)
    && (|ring| == capacity ==> ring[0] !in os')
  }

  lemma RestTurnsOver(e: EngineState, ring: seq<nat>, capacity: nat,
                      isBid: bool, price: int, volume: int, participant: int)
    requires IdsIssued(e.book) && |ring| <= capacity && capacity > 0
    requires forall id :: id in ring ==> id < e.book.nextId
    ensures
      var (e', ring') := RestCapped(e, ring, capacity, isBid, price, volume, participant);
      TurnedOver(e.book.orders, e'.book.orders, ring, ring', capacity, Resting(isBid, price, volume, participant))
  {
    hide Accepts, Opening, Vacated;
    assert |ring| == capacity ==> ring[0] in ring;
  }

  lemma MeanReversionPlaces(e: EngineState, f: Fleet, m: RestingMove)
    requires Capped(e.book, f) && m.Rest?
    ensures
      var (e', f') := MeanReversionStep(e, f, m);
      var o := Resting(m.isBid, m.price, m.volume, BOT_MR);
      var os, os' := e.book.orders, e'.book.orders;
      if m.isBid
      then TurnedOver(os, os', f.mrBids, f'.mrBids, MAX_MR_ORDERS, o) && f' == f.(mrBids := f'.mrBids)
      else TurnedOver(os, os', f.mrAsks, f'.mrAsks, MAX_MR_ORDERS, o) && f' == f.(mrAsks := f'.mrAsks)
  {
    hide TurnedOver, RestCapped;
    RestTurnsOver(e, if m.isBid then f.mrBids else f.mrAsks, MAX_MR_ORDERS, m.isBid, m.price, m.volume, BOT_MR);
  }

  lemma NoisePlaces(e: EngineState, f: Fleet, m: RestingMove)
    requires Capped(e.book, f) && m.Rest?
    ensures
      var (e', f') := NoiseStep(e, f, m);
      && TurnedOver(e.book.orders, e'.book.orders, f.noise, f'.noise, MAX_NOISE_ORDERS,
                    Resting(m.isBid, m.price, m.volume, BOT_NOISE))
      && f' == f.(noise := f'.noise)
  {
    hide TurnedOver, RestCapped;
    RestTurnsOver(e, f.noise, MAX_NOISE_ORDERS, m.isBid, m.price, m.volume, BOT_NOISE);
  }

  /** A market order's mark on the book: its own side is untouched, the other side only
      loses, best orders first, and with positive volumes exactly as much as was asked
      for or all there was. */
  ghost predicate TradedAway(b: Book, b': Book, isBuy: bool, volume: int) {
    && SameSide(b.orders, b'.orders, isBuy)
    && (forall id :: id in b'.orders ==> id in b.orders && SameTerms(b'.orders[id], b.orders[id]))
    && BestWentFirst(b.orders, b'.orders, !isBuy)
    && (volume <= 0 ==> b'.orders == b.orders)
    && (volume >= 0 && PositiveVolumes(b.orders) ==>
          var depth := Depth(b.orders, !isBuy, AnyPrice, b.nextId);
          Depth(b'.orders, !isBuy, AnyPrice, b.nextId) == depth - Min(volume, depth))
    && b'.nextId == b.nextId
  }

  lemma TradeTakesAway(b: Book, isBuy: bool, volume: int, taker: int)
    requires IdsIssued(b)
    ensures TradedAway(b, Trade(b, isBuy, volume, taker), isBuy, volume)
  {
    hide Match, Depth, BestWentFirst;
    if volume <= 0 { MatchEnds(b.orders, isBuy, volume, taker); }
    MatchTakesBest(b.orders, isBuy, volume, taker);
    MatchConserves(b.orders, isBuy, volume, taker, b.nextId);
    if volume >= 0 && PositiveVolumes(b.orders) { MatchedVolume(b.orders, isBuy, volume, taker, b.nextId); }
  }

  /** Each market order of a bot in turn. */
  lemma TakerTrades(e: EngineState, f: Fleet, moves: seq<MarketMove>, bot: int, i: nat)
    requires Capped(e.book, f) && i < |moves|
    ensures TradedAway(TakerStep(e, moves[..i], bot).book, TakerStep(e, moves[..i + 1], bot).book,
                       moves[i].isBuy, moves[i].volume)
  {
    hide TradedAway, Trade;
    TakerKeepsCapped(e, f, moves[..i], bot);
    assert moves[..i + 1][..i] == moves[..i];
    TradeTakesAway(TakerStep(e, moves[..i], bot).book, moves[i].isBuy, moves[i].volume, bot);
  }

  /** Each move of the contestant. */
  lemma ContestantActs(e: EngineState, m: ContestantMove)
    requires IdsIssued(e.book)
    ensures
      var os, os' := e.book.orders, ContestantStep(e, m).book.orders;
      match m
      case Limit(isBid, price, volume) =>
        || os' == os
        || (OnlyAround(os, os', {e.book.nextId})
            && RestsAs(os', e.book.nextId, Resting(isBid, price, volume, CONTESTANT)))
      case MarketOrder(isBuy, volume) => TradedAway(e.book, ContestantStep(e, m).book, isBuy, volume)
      case CancelAny(id) => OnlyAround(os, os', {id}) && id !in os'
  {
    hide TradedAway, Trade, TradedPrices, Accepts, Opening, Vacated;
    if m.MarketOrder? { TradeTakesAway(e.book, m.isBuy, m.volume, CONTESTANT); }
  }

  // ------------------------------------------------------------ enough room

  /** With so few contestant orders there is always room for one more. */
  lemma RoomForOneMore(b: Book, f: Fleet, contestant: set<nat>)
    requires Capped(b, f) && Owned(b.orders, CONTESTANT) <= contestant
    ensures |b.orders| <= |contestant| + 26
  {
    OrderCaps(b, f);
    SubsetSize(Owned(b.orders, CONTESTANT), contestant);
  }

  /** Right before each add of a fleet call the pool has a node left. */
  ghost predicate BotsFindRoom(e: EngineState, f: Fleet, m: Moves) {
    && (m.maker.Some? ==>
          var bid := m.maker.value.0;
          var e1 := QuotesWithdrawn(e, f);
          HasRoom(e1.book) && HasRoom(AddTo(e1, true, bid.price, bid.volume, BOT_MM).book))
    && (m.meanReversion.Rest? ==> HasRoom(FirstTwo(e, f, m).0.book))
    && (m.noise.Rest? ==> HasRoom(FirstThree(e, f, m).0.book))
  }

  predicate FewContestantOrders(os: Orders) {
    |Owned(os, CONTESTANT)| + 26 < ORDER_POOL_SIZE
  }

  /** While the contestant has fewer orders resting than the pool's size less 26, no
      bot finds the pool exhausted, whatever the bots decide. */
  lemma BotsAlwaysFindRoom(e: EngineState, f: Fleet, m: Moves)
    requires Capped(e.book, f) && FewContestantOrders(e.book.orders)
    ensures BotsFindRoom(e, f, m)
  {
    hide Capped, Owned, FirstTwo, FirstThree, QuotesWithdrawn, AddTo, NewId;
    var contestant := Owned(e.book.orders, CONTESTANT);
    if m.maker.Some? {
      var e1, f1, bid := QuotesWithdrawn(e, f), f.(makerBid := 0, makerAsk := 0), m.maker.value.0;
      WithdrawnCapped(e, f);
      RoomForOneMore(e1.book, f1, contestant);
      QuotedCapped(e1, f1, true, bid.price, bid.volume);
      var e2, f2 := AddTo(e1, true, bid.price, bid.volume, BOT_MM), f1.(makerBid := NewId(e1, true, bid.price));
      RoomForOneMore(e2.book, f2, contestant);
    }
    FirstTwoKeepCapped(e, f, m);
    RoomForOneMore(FirstTwo(e, f, m).0.book, FirstTwo(e, f, m).1, contestant);
    FirstThreeKeepCapped(e, f, m);
    RoomForOneMore(FirstThree(e, f, m).0.book, FirstThree(e, f, m).1, contestant);
  }

  lemma UnionSize(a: set<nat>, b: set<nat>, c: set<nat>, d: set<nat>, e: set<nat>)
    ensures |a + b + c + d + e| <= |a| + |b| + |c| + |d| + |e|
  {
  }
}

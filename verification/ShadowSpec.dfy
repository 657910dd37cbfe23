/** The shadow book as a value, and the effect of its three event handlers
    (game-master/shadow_lob.hpp). ShadowLob.dfy proves the class against it. */
module ShadowSpec {
  import opened MarketTypes
  import opened PriceTimeBook

  datatype ViolationType =
    | FifoPriorityBreach
    | DoubleFill
    | StaleCancel
    | FillPriceInvalid
    | CashIntegrityMismatch
    | PositionIntegrityMismatch

  datatype Violation = Violation(kind: ViolationType, tick: int, orderId: nat)

  const MAX_VIOLATIONS: nat := 10_000

  datatype ShadowOrder = ShadowOrder(
    sequence: nat,
    price: int,
    originalVolume: int,
    remaining: int,
    isBid: bool,
    isCancelled: bool,
    isFullyFilled: bool,
    tickAdded: int)

  datatype ShadowLevel = ShadowLevel(orderIds: seq<nat>, totalVolume: int)

  type Levels = map<int, ShadowLevel>

  /** Penalties, each capped at the weight of its violation type. */
  datatype Penalties = Penalties(fifo: real, double: real, cancel: real, price: real, cash: real)

  datatype Shadow = Shadow(
    orders: map<nat, ShadowOrder>,
    bidLevels: Levels,
    askLevels: Levels,
    bestBid: int,
    bestAsk: int,
    lastTrade: int,
    position: int,
    cash: int,
    contestantFills: int,
    globalSeq: nat,
    violations: seq<Violation>,
    penalties: Penalties)
  {
    function Side(isBid: bool): Levels {
      if isBid then bidLevels else askLevels
    }

    function WithSide(isBid: bool, lv: Levels): Shadow {
      if isBid then this.(bidLevels := lv) else this.(askLevels := lv)
    }
  }

  const NO_PENALTIES := Penalties(0.0, 0.0, 0.0, 0.0, 0.0)

  const EMPTY_SHADOW :=
    Shadow(map[], map[], map[], 0, INT64_MAX, 0, 0, STARTING_CASH, 0, 0, [], NO_PENALTIES)

  function Capped(weight: real, amount: real): real {
    if weight < amount then weight else amount
  }

  function Penalize(p: Penalties, kind: ViolationType): Penalties {
    match kind
    case FifoPriorityBreach => p.(fifo := Capped(0.35, p.fifo + 0.01))
    case DoubleFill => p.(double := Capped(0.25, p.double + 0.02))
    case StaleCancel => p.(cancel := Capped(0.10, p.cancel + 0.005))
    case FillPriceInvalid => p.(price := Capped(0.20, p.price + 0.015))
    case CashIntegrityMismatch => p.(cash := Capped(0.10, p.cash + 0.05))
    case PositionIntegrityMismatch => p
  }

  function Score(p: Penalties): real {
    var left := 1.0 - (p.fifo + p.double + p.cancel + p.price + p.cash);
    if left < 0.0 then 0.0 else left
  }

  /** Logs a violation, unless the log is full, and charges its penalty. */
  function Report(s: Shadow, kind: ViolationType, tick: int, id: nat): Shadow {
    s.(violations := if |s.violations| < MAX_VIOLATIONS then s.violations + [Violation(kind, tick, id)] else s.violations,
       penalties := Penalize(s.penalties, kind))
  }

  function ReportIf(s: Shadow, fault: bool, kind: ViolationType, tick: int, id: nat): Shadow {
    if fault then Report(s, kind, tick, id) else s
  }

  // ------------------------------------------------------------ best prices

  /** The quote of a side: its best level, or the empty-side value. */
  ghost function Quote(levels: Levels, isBid: bool): int {
    if levels.Keys == {} then (if isBid then 0 else INT64_MAX) else BestKey(levels.Keys, isBid)
  }

  ghost function UpdateBest(s: Shadow): Shadow {
    s.(bestBid := Quote(s.bidLevels, true), bestAsk := Quote(s.askLevels, false))
  }

  // --------------------------------------------------------------- handlers

  function Enqueue(levels: Levels, price: int, id: nat, volume: int): Levels {
    var l := if price in levels then levels[price] else ShadowLevel([], 0);
    levels[price := ShadowLevel(l.orderIds + [id], Wrap64(l.totalVolume + volume))]
  }

  function OnLimitAdd(s: Shadow, isBid: bool, price: int, volume: int, id: nat, tick: int): Shadow {
    var so := ShadowOrder(s.globalSeq + 1, price, volume, volume, isBid, false, false, tick);
    s.WithSide(isBid, Enqueue(s.Side(isBid), price, id, volume))
     .(globalSeq := s.globalSeq + 1,
       orders := s.orders[id := so],
       bestBid := if isBid && price > s.bestBid then price else s.bestBid,
       bestAsk := if !isBid && price < s.bestAsk then price else s.bestAsk)
  }

  function RemoveFirst(ids: seq<nat>, id: nat): seq<nat> {
    if ids == [] then [] else if ids[0] == id then ids[1..] else [ids[0]] + RemoveFirst(ids[1..], id)
  }

  /** Drops the order from its level, and the level once it holds no volume or
      no orders. */
  function RemoveFromLevel(levels: Levels, id: nat, so: ShadowOrder): Levels {
    if so.price !in levels then levels
    else
      var l := levels[so.price];
      var l' := if id in l.orderIds
                then ShadowLevel(RemoveFirst(l.orderIds, id), Wrap64(l.totalVolume - so.remaining)) else l;
      if l'.totalVolume <= 0 || l'.orderIds == [] then levels - {so.price} else levels[so.price := l']
  }

  ghost function Close(s: Shadow, id: nat, so: ShadowOrder): Shadow {
    UpdateBest(s.WithSide(so.isBid, RemoveFromLevel(s.Side(so.isBid), id, so)).(orders := s.orders - {id}))
  }

  /** The price check, in 64-bit arithmetic. */
  predicate PriceFault(s: Shadow, f: MatchedFill) {
    if f.takerIsBuy then f.price > Wrap64(s.bestAsk + ONE_CENT) else f.price < Wrap64(s.bestBid - ONE_CENT)
  }

  /** A fill of an unknown or cancelled order, or of more than is left. */
  predicate DoubleFault(s: Shadow, f: MatchedFill, id: nat) {
    id in s.orders ==> s.orders[id].isCancelled || f.volume > s.orders[id].remaining
  }

  /** A fill that passes over an older order at the front of the price level. */
  predicate FifoFault(s: Shadow, id: nat) {
    && id in s.orders
    && var so := s.orders[id];
    && so.price in s.Side(so.isBid)
    && var ids := s.Side(so.isBid)[so.price].orderIds;
    && ids != [] && ids[0] != id
    && ids[0] in s.orders
    && s.orders[ids[0]].sequence < so.sequence
    && !s.orders[ids[0]].isCancelled
  }

  ghost function ApplyFill(s: Shadow, f: MatchedFill, id: nat): Shadow {
    if id !in s.orders then s
    else
      var so := s.orders[id].(remaining := s.orders[id].remaining - f.volume);
      if so.remaining <= 0 then Close(s, id, so) else s.(orders := s.orders[id := so])
  }

  predicate ContestantFill(f: MatchedFill) {
    f.taker == CONTESTANT || f.maker == CONTESTANT
  }

  function ContestantSign(f: MatchedFill): int {
    if (f.takerIsBuy && f.taker == CONTESTANT) || (!f.takerIsBuy && f.maker == CONTESTANT) then 1 else -1
  }

  function Account(s: Shadow, f: MatchedFill): Shadow {
    if ContestantFill(f) then
      s.(position := Wrap64(s.position + ContestantSign(f) * f.volume),
         cash := s.cash - Wrap64(ContestantSign(f) * f.volume * f.price),
         contestantFills := s.contestantFills + 1)
    else s
  }

  ghost function OnFill(s: Shadow, f: MatchedFill, id: nat, tick: int): Shadow {
    var s1 := ReportIf(s, PriceFault(s, f), FillPriceInvalid, tick, id).(lastTrade := f.price);
    var s2 := ReportIf(s1, DoubleFault(s, f, id), DoubleFill, tick, id);
    var s3 := ReportIf(s2, FifoFault(s, id), FifoPriorityBreach, tick, id);
    Account(ApplyFill(s3, f, id), f)
  }

  /** The tick-end comparison with the account the game master reports. */
  function Validate(s: Shadow, reportedPosition: int, reportedCash: int, tick: int): Shadow {
    var s1 := ReportIf(s, Abs64(Wrap64(s.position - reportedPosition)) > 1, PositionIntegrityMismatch, tick, 0);
    ReportIf(s1, Abs(s.cash - reportedCash) > ONE_CENT, CashIntegrityMismatch, tick, 0)
  }

  ghost function OnCancel(s: Shadow, id: nat, liveSucceeded: bool, tick: int): Shadow {
    if id !in s.orders then
      ReportIf(s, liveSucceeded, StaleCancel, tick, id)
    else if s.orders[id].isCancelled || s.orders[id].isFullyFilled then
      Report(s, StaleCancel, tick, id)
    else
      Close(s, id, s.orders[id].(isCancelled := true))
  }

  /** The faults a fill is reported for, in the order they are logged. */
  function FillFaults(s: Shadow, f: MatchedFill, id: nat): seq<ViolationType> {
    (if PriceFault(s, f) then [FillPriceInvalid] else [])
    + (if DoubleFault(s, f, id) then [DoubleFill] else [])
    + (if FifoFault(s, id) then [FifoPriorityBreach] else [])
  }

  lemma ApplyKeepsLog(s: Shadow, f: MatchedFill, id: nat)
    ensures
      var s' := ApplyFill(s, f, id);
      s'.violations == s.violations && s'.penalties == s.penalties
  {
  }

  /** The log with new entries, as far as it has room for them. */
  function Record(log: seq<Violation>, entries: seq<Violation>): seq<Violation> {
    var room := if |log| < MAX_VIOLATIONS then MAX_VIOLATIONS - |log| else 0;
    log + entries[..if |entries| < room then |entries| else room]
  }

  lemma RecordAppend(log: seq<Violation>, a: seq<Violation>, b: seq<Violation>)
    ensures Record(Record(log, a), b) == Record(log, a + b)
  {
  }

  lemma ReportIfLogs(s: Shadow, fault: bool, kind: ViolationType, tick: int, id: nat)
    ensures ReportIf(s, fault, kind, tick, id).violations
            == Record(s.violations, if fault then [Violation(kind, tick, id)] else [])
  {
  }

  function Logged(kinds: seq<ViolationType>, tick: int, id: nat): seq<Violation> {
    seq(|kinds|, i requires 0 <= i < |kinds| => Violation(kinds[i], tick, id))
  }

  /** The log grows by exactly those faults, as far as it has room. */
  lemma FillIsLogged(s: Shadow, f: MatchedFill, id: nat, tick: int)
    ensures OnFill(s, f, id, tick).violations == Record(s.violations, Logged(FillFaults(s, f, id), tick, id))
  {
    hide ApplyFill, ReportIf, PriceFault, DoubleFault, FifoFault, Record;
    var s1 := ReportIf(s, PriceFault(s, f), FillPriceInvalid, tick, id).(lastTrade := f.price);
    var s2 := ReportIf(s1, DoubleFault(s, f, id), DoubleFill, tick, id);
    var s3 := ReportIf(s2, FifoFault(s, id), FifoPriorityBreach, tick, id);
    ReportIfLogs(s, PriceFault(s, f), FillPriceInvalid, tick, id);
    ReportIfLogs(s1, DoubleFault(s, f, id), DoubleFill, tick, id);
    ReportIfLogs(s2, FifoFault(s, id), FifoPriorityBreach, tick, id);
    ApplyKeepsLog(s3, f, id);
    var a := if PriceFault(s, f) then [Violation(FillPriceInvalid, tick, id)] else [];
    var b := if DoubleFault(s, f, id) then [Violation(DoubleFill, tick, id)] else [];
    var c := if FifoFault(s, id) then [Violation(FifoPriorityBreach, tick, id)] else [];
    RecordAppend(s.violations, a, b);
    RecordAppend(s.violations, a + b, c);
    assert Logged(FillFaults(s, f, id), tick, id) == a + b + c;
  }
}

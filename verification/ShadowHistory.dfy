/** What the shadow book holds and charges, told from the events it was fed, whoever
    sent them. */
module ShadowHistory {
  import opened MarketTypes
  import opened PriceTimeBook
  import opened BookRuns
  import opened ShadowSpec
  import opened ShadowProofs
  import opened ShadowQueues
  import opened ShadowJudging

  // --------------------------------------------------------- the open orders

  /** What the fills among the events `j + 1` to `n - 1` have left of the order placed
      by event `j`. */
  function LeftOver(es: seq<Event>, j: nat, n: nat): int
    requires j < n <= |es| && es[j].Placed?
  {
    if n == j + 1 then es[j].volume
    else
      LeftOver(es, j, n - 1)
      - (if es[n - 1].Filled? && es[n - 1].fill.makerId == es[j].id then es[n - 1].fill.volume else 0)
  }

  /** The order placed by event `j` has been neither cancelled nor filled up by event
      `n`; an order of no volume counts as filled up only once it is filled. */
  predicate OpenSince(es: seq<Event>, j: nat, n: nat)
    requires n <= |es|
  {
    j < n && es[j].Placed? &&
    (n == j + 1 ||
      (OpenSince(es, j, n - 1)
       && match es[n - 1]
          case Placed(id, _, _, _, _) => id != es[j].id
          case Filled(f) => f.makerId == es[j].id ==> LeftOver(es, j, n) > 0
          case Cancelled(id, _) => id != es[j].id))
  }

  /** The shadow's entry is the order placed by event `j`, less its fills. */
  ghost predicate EntryOf(s: Shadow, es: seq<Event>, j: nat, n: nat)
    requires j < n <= |es| && es[j].Placed?
  {
    var e := es[j];
    && e.id in s.orders
    && var so := s.orders[e.id];
    && so.isBid == e.isBid && so.price == e.price && so.originalVolume == e.volume
    && so.remaining == LeftOver(es, j, n) && so.sequence == PlacedBy(es, j + 1)
    && !so.isCancelled && !so.isFullyFilled
  }

  /** How many orders the first `n` events place. */
  function PlacedBy(es: seq<Event>, n: nat): nat
    requires n <= |es|
  {
    if n == 0 then 0 else PlacedBy(es, n - 1) + if es[n - 1].Placed? then 1 else 0
  }

  /** The open orders are those placed and not yet closed. */
  ghost predicate Holds(s: Shadow, es: seq<Event>, n: nat)
    requires n <= |es|
  {
    && s.globalSeq == PlacedBy(es, n)
    && (forall j :: 0 <= j < n && es[j].Placed? && OpenSince(es, j, n) ==> EntryOf(s, es, j, n))
    && (forall id :: id in s.orders ==> HasEntry(es, id, n))
  }

  ghost predicate HasEntry(es: seq<Event>, id: nat, n: nat)
    requires n <= |es|
  {
    exists j :: 0 <= j < n && es[j].Placed? && es[j].id == id && OpenSince(es, j, n)
  }

  /** What an event does to the table of open orders. */
  lemma TableStep(s: Shadow, e: Event, tick: int)
    requires forall id :: id in s.orders ==> !s.orders[id].isCancelled && !s.orders[id].isFullyFilled
    ensures
      var s' := Replay(s, e, tick);
      match e
      case Placed(id, isBid, price, volume, _) =>
        && s'.orders == s.orders[id := ShadowOrder(s.globalSeq + 1, price, volume, volume, isBid, false, false, tick)]
        && s'.globalSeq == s.globalSeq + 1
      case Filled(f) =>
        && s'.globalSeq == s.globalSeq
        && s'.orders ==
           if f.makerId !in s.orders then s.orders
           else if s.orders[f.makerId].remaining - f.volume <= 0 then s.orders - {f.makerId}
           else s.orders[f.makerId := s.orders[f.makerId].(remaining := s.orders[f.makerId].remaining - f.volume)]
      case Cancelled(id, _) => s'.orders == s.orders - {id} && s'.globalSeq == s.globalSeq
  {
    hide OnFill, Enqueue, Close, Wrap64;
    match e {
      case Placed(id, isBid, price, volume, _) =>
      case Filled(f) =>
        var t := FillSteps(s, f, f.makerId, tick);
        if f.makerId in s.orders { CloseLevels(t, f.makerId, FilledOrder(t, f, f.makerId)); }
      case Cancelled(id, ok) =>
        if id in s.orders {
          CloseLevels(s, id, s.orders[id].(isCancelled := true));
        } else {
          assert s.orders - {id} == s.orders;
        }
    }
  }

  lemma HoldsNext(s: Shadow, es: seq<Event>, n: nat, tick: int)
    requires n < |es| && Holds(s, es, n) && Fresh(s, es[n])
    ensures Holds(Replay(s, es[n], tick), es, n + 1)
  {
    hide Replay;
    NoFlags(s, es, n);
    TableStep(s, es[n], tick);
    var s' := Replay(s, es[n], tick);
    forall j | 0 <= j < n + 1 && es[j].Placed? && OpenSince(es, j, n + 1) ensures EntryOf(s', es, j, n + 1) {
      if j < n { assert EntryOf(s, es, j, n); }
    }
    forall id | id in s'.orders ensures HasEntry(es, id, n + 1) {
      if es[n].Placed? && es[n].id == id {
        assert OpenSince(es, n, n + 1);
      } else {
        var j :| 0 <= j < n && es[j].Placed? && es[j].id == id && OpenSince(es, j, n);
        assert EntryOf(s, es, j, n);
        assert OpenSince(es, j, n + 1);
      }
    }
  }

  lemma NoFlags(s: Shadow, es: seq<Event>, n: nat)
    requires n <= |es| && Holds(s, es, n)
    ensures forall id :: id in s.orders ==> !s.orders[id].isCancelled && !s.orders[id].isFullyFilled
  {
    forall id | id in s.orders ensures !s.orders[id].isCancelled && !s.orders[id].isFullyFilled {
      assert HasEntry(es, id, n);
      var j :| 0 <= j < n && es[j].Placed? && es[j].id == id && OpenSince(es, j, n);
      assert EntryOf(s, es, j, n);
    }
  }

  /** After every stream with fresh ids, right or wrong, the shadow's open orders are
      those the events placed and have not closed, with what their fills left. */
  lemma {:induction false} OpenOrdersAreHistory(es: seq<Event>, ticks: seq<int>, n: nat)
    requires FreshStream(es, ticks) && n <= |es|
    ensures Holds(At(es, ticks, n), es, n)
  {
    hide Replay, Fresh, EntryOf, OpenSince;
    if n == 0 {
      AtStart(es, ticks);
    } else {
      OpenOrdersAreHistory(es, ticks, n - 1);
      AtNext(es, ticks, n - 1);
      HoldsNext(At(es, ticks, n - 1), es, n - 1, ticks[n - 1]);
    }
  }

  // ------------------------------------------------------ the level's totals

  ghost predicate TotalsFit(s: Shadow) {
    && (forall p :: p in s.bidLevels ==> Fits64(s.bidLevels[p].totalVolume))
    && (forall p :: p in s.askLevels ==> Fits64(s.askLevels[p].totalVolume))
  }

  function TotalAt(s: Shadow, isBid: bool, p: int): int {
    if p in s.Side(isBid) then s.Side(isBid)[p].totalVolume else 0
  }

  /** The event takes the only or some order out of this level. */
  predicate TakesFrom(s: Shadow, e: Event, isBid: bool, p: int) {
    match e
    case Placed(_, _, _, _, _) => false
    case Filled(f) =>
      && f.makerId in s.orders && s.orders[f.makerId].isBid == isBid && s.orders[f.makerId].price == p
      && s.orders[f.makerId].remaining <= f.volume
    case Cancelled(id, _) => id in s.orders && s.orders[id].isBid == isBid && s.orders[id].price == p
  }

  /** What the event adds to the level's total: the volume of a new order; of an order
      taken out, less what was left of it then. A fill that leaves its order open adds
      nothing. */
  function TotalChange(s: Shadow, e: Event, isBid: bool, p: int): int {
    match e
    case Placed(_, side, price, volume, _) => if side == isBid && price == p then volume else 0
    case Filled(f) => if TakesFrom(s, e, isBid, p) then f.volume - s.orders[f.makerId].remaining else 0
    case Cancelled(id, _) => if TakesFrom(s, e, isBid, p) then -s.orders[id].remaining else 0
  }

  /** How one event moves the 64-bit total of a level, and when the level goes. */
  ghost predicate TotalMoved(s: Shadow, s': Shadow, e: Event, isBid: bool, p: int) {
    var total := Wrap64(TotalAt(s, isBid, p) + TotalChange(s, e, isBid, p));
    && (p in s'.Side(isBid) ==> s'.Side(isBid)[p].totalVolume == total)
    && (p in s.Side(isBid) && p !in s'.Side(isBid)
        <==> p in s.Side(isBid) && TakesFrom(s, e, isBid, p) && (|s.Side(isBid)[p].orderIds| == 1 || total <= 0))
  }

  ghost predicate TotalsMoved(s: Shadow, s': Shadow, e: Event) {
    forall isBid, p :: TotalMoved(s, s', e, isBid, p)
  }

  lemma ClosedTotal(s: Shadow, id: nat, so: ShadowOrder, isBid: bool, p: int)
    requires Exact(s) && TotalsFit(s) && Belongs(s.orders, so.isBid, so.price, id)
    ensures so.price in s.Side(so.isBid)
    ensures
      var s' := Close(s, id, so);
      var here := so.isBid == isBid && so.price == p;
      var total := Wrap64(TotalAt(s, isBid, p) - (if here then so.remaining else 0));
      && (p in s'.Side(isBid) ==> s'.Side(isBid)[p].totalVolume == total)
      && (p in s.Side(isBid) && p !in s'.Side(isBid)
          <==> here && (|s.Side(isBid)[p].orderIds| == 1 || total <= 0))
  {
    hide Close, RemoveFirst, Exact, Belongs, Without, RemoveFromLevel, Wrap64;
    var k := QueuePlace(s, id, so);
    CloseLevels(s, id, so);
    ClosedLevel(s, id, so, k);
    OneLeft(s.Side(so.isBid)[so.price].orderIds, k);
    if p in s.Side(isBid) { FitsStays(s.Side(isBid)[p].totalVolume); }
  }

  lemma OneLeft(ids: seq<nat>, k: nat)
    requires k < |ids|
    ensures |ids| >= 1
  {
  }

  lemma FitsStays(x: int)
    requires Fits64(x)
    ensures Wrap64(x) == x && Wrap64(x + 0) == x && Wrap64(x - 0) == x
  {
  }

  /** While the levels are exact, every event moves every level's total in this way. */
  lemma EventMovesTotals(s: Shadow, e: Event, tick: int, isBid: bool, p: int)
    requires Exact(s) && TotalsFit(s) && Fresh(s, e)
    ensures TotalMoved(s, Replay(s, e, tick), e, isBid, p)
  {
    hide Exact, OnLimitAdd, OnFill, OnCancel, TotalMoved;
    match e {
      case Placed(_, _, _, _, _) => AddMovesTotal(s, e, tick, isBid, p);
      case Filled(f) => FillMovesTotal(s, f, tick, isBid, p);
      case Cancelled(id, ok) => CancelMovesTotal(s, id, ok, tick, isBid, p);
    }
  }

  lemma AddMovesTotal(s: Shadow, e: Event, tick: int, isBid: bool, p: int)
    requires TotalsFit(s) && e.Placed?
    ensures TotalMoved(s, Replay(s, e, tick), e, isBid, p)
  {
    hide Wrap64;
    if p in s.Side(isBid) { FitsStays(s.Side(isBid)[p].totalVolume); }
  }

  lemma FillMovesTotal(s: Shadow, f: MatchedFill, tick: int, isBid: bool, p: int)
    requires Exact(s) && TotalsFit(s)
    ensures TotalMoved(s, OnFill(s, f, f.makerId, tick), Filled(f), isBid, p)
  {
    hide Exact, OnFill, Close, Wrap64, RemoveFromLevel;
    if p in s.Side(isBid) { FitsStays(s.Side(isBid)[p].totalVolume); }
    var t := FillSteps(s, f, f.makerId, tick);
    if f.makerId in s.orders {
      SameQueuesExact(s, t);
      var so := FilledOrder(t, f, f.makerId);
      if so.remaining <= 0 { ClosedTotal(t, f.makerId, so, isBid, p); }
    }
  }

  lemma CancelMovesTotal(s: Shadow, id: nat, ok: bool, tick: int, isBid: bool, p: int)
    requires Exact(s) && TotalsFit(s)
    ensures TotalMoved(s, OnCancel(s, id, ok, tick), Cancelled(id, ok), isBid, p)
  {
    hide Exact, Close, Wrap64, RemoveFromLevel;
    if p in s.Side(isBid) { FitsStays(s.Side(isBid)[p].totalVolume); }
    ExactOpen(s);
    if id in s.orders { ClosedTotal(s, id, s.orders[id].(isCancelled := true), isBid, p); }
  }

  lemma ExactOpen(s: Shadow)
    requires Exact(s)
    ensures OpenOrders(s)
  {
  }

  /** Over every stream with fresh ids that loses no level, from start to end. */
  lemma {:induction false} TotalsMoveAsTold(es: seq<Event>, ticks: seq<int>, n: nat)
    requires FreshStream(es, ticks) && Intact(es, ticks) && n <= |es|
    ensures TotalsFit(At(es, ticks, n))
    ensures n < |es| ==> TotalsMoved(At(es, ticks, n), At(es, ticks, n + 1), es[n])
  {
    hide At, Exact, KeepsLevels, Fresh, Replay, TotalMoved;
    if n == 0 {
      AtStart(es, ticks);
    } else {
      TotalsMoveAsTold(es, ticks, n - 1);
      TotalsStayFit(At(es, ticks, n - 1), At(es, ticks, n), es[n - 1]);
    }
    ExactUntil(es, ticks, n);
    if n < |es| {
      AtNext(es, ticks, n);
      var s, s' := At(es, ticks, n), At(es, ticks, n + 1);
      forall isBid, p ensures TotalMoved(s, s', es[n], isBid, p) {
        EventMovesTotals(s, es[n], ticks[n], isBid, p);
      }
    }
  }

  lemma TotalsStayFit(s: Shadow, s': Shadow, e: Event)
    requires TotalsMoved(s, s', e)
    ensures TotalsFit(s')
  {
    hide TotalChange, TakesFrom;
    forall p | p in s'.bidLevels ensures Fits64(s'.bidLevels[p].totalVolume) {
      assert TotalMoved(s, s', e, true, p);
    }
    forall p | p in s'.askLevels ensures Fits64(s'.askLevels[p].totalVolume) {
      assert TotalMoved(s, s', e, false, p);
    }
  }

  // ----------------------------------------------------------------- cancels

  /** A cancel is reported exactly when the engine says it succeeded although the order
      is not open, and the log has room; the order is not open afterwards. */
  lemma StaleCancelReported(es: seq<Event>, ticks: seq<int>, id: nat, ok: bool, tick: int)
    requires FreshStream(es, ticks)
    ensures
      var s := At(es, ticks, |es|);
      var s' := OnCancel(s, id, ok, tick);
      var open := HasEntry(es, id, |es|);
      && Added(s.violations, s'.violations)
         == (if ok && !open && |s.violations| < MAX_VIOLATIONS then [Violation(StaleCancel, tick, id)] else [])
      && s'.orders == s.orders - {id}
  {
    hide At, Fresh, Close;
    var s := At(es, ticks, |es|);
    OpenOrdersAreHistory(es, ticks, |es|);
    NoFlags(s, es, |es|);
    OpenExactly(s, es, |es|, id);
    if id in s.orders {
      CloseLevels(s, id, s.orders[id].(isCancelled := true));
      CloseKeepsLog(s, id, s.orders[id].(isCancelled := true));
    } else {
      assert s.orders - {id} == s.orders;
    }
  }

  lemma CloseKeepsLog(s: Shadow, id: nat, so: ShadowOrder)
    ensures Close(s, id, so).violations == s.violations && Close(s, id, so).penalties == s.penalties
  {
  }

  lemma OpenExactly(s: Shadow, es: seq<Event>, n: nat, id: nat)
    requires n <= |es| && Holds(s, es, n)
    ensures id in s.orders <==> HasEntry(es, id, n)
  {
    hide OpenSince;
    if HasEntry(es, id, n) {
      var j :| 0 <= j < n && es[j].Placed? && es[j].id == id && OpenSince(es, j, n);
      assert EntryOf(s, es, j, n);
    }
  }

  // --------------------------------------------------- the log and penalties

  /** What an event is reported for. */
  function Reported(s: Shadow, e: Event, tick: int): seq<Violation> {
    match e
    case Placed(_, _, _, _, _) => []
    case Filled(f) => Logged(FillFaults(s, f, f.makerId), tick, f.makerId)
    case Cancelled(id, ok) =>
      if (if id in s.orders then s.orders[id].isCancelled || s.orders[id].isFullyFilled else ok)
      then [Violation(StaleCancel, tick, id)] else []
  }

  ghost function AllReported(es: seq<Event>, ticks: seq<int>): seq<Violation>
    requires |ticks| == |es|
  {
    if es == [] then []
    else
      var n := |es| - 1;
      AllReported(es[..n], ticks[..n]) + Reported(ReplayAll(EMPTY_SHADOW, es[..n], ticks[..n]), es[n], ticks[n])
  }

  function Count(vs: seq<Violation>, kind: ViolationType): nat {
    if vs == [] then 0 else var n := |vs| - 1; Count(vs[..n], kind) + if vs[n].kind == kind then 1 else 0
  }

  /** Each penalty is its rate for every report of its kind, up to its weight. */
  predicate Charged(p: Penalties, vs: seq<Violation>) {
    && p.fifo == Capped(0.35, 0.01 * Count(vs, FifoPriorityBreach) as real)
    && p.double == Capped(0.25, 0.02 * Count(vs, DoubleFill) as real)
    && p.cancel == Capped(0.10, 0.005 * Count(vs, StaleCancel) as real)
    && p.price == Capped(0.20, 0.015 * Count(vs, FillPriceInvalid) as real)
    && p.cash == Capped(0.10, 0.05 * Count(vs, CashIntegrityMismatch) as real)
  }

  function ChargeAll(p: Penalties, vs: seq<Violation>): Penalties {
    if vs == [] then p else var n := |vs| - 1; Penalize(ChargeAll(p, vs[..n]), vs[n].kind)
  }

  lemma {:induction false} CountAppend(vs: seq<Violation>, ws: seq<Violation>, kind: ViolationType)
    ensures Count(vs + ws, kind) == Count(vs, kind) + Count(ws, kind)
  {
    if ws == [] {
      assert vs + ws == vs;
    } else {
      var n := |ws| - 1;
      CountAppend(vs, ws[..n], kind);
      assert (vs + ws)[..|vs| + n] == vs + ws[..n];
    }
  }

  lemma OneCharged(p: Penalties, vs: seq<Violation>, v: Violation)
    requires Charged(p, vs)
    ensures Charged(Penalize(p, v.kind), vs + [v])
  {
    hide Capped, Count;
    CountSnoc(vs, v);
    CappedStep(0.35, 0.01, Count(vs, FifoPriorityBreach));
    CappedStep(0.25, 0.02, Count(vs, DoubleFill));
    CappedStep(0.10, 0.005, Count(vs, StaleCancel));
    CappedStep(0.20, 0.015, Count(vs, FillPriceInvalid));
    CappedStep(0.10, 0.05, Count(vs, CashIntegrityMismatch));
  }

  lemma CountSnoc(vs: seq<Violation>, v: Violation)
    ensures forall kind :: Count(vs + [v], kind) == Count(vs, kind) + if v.kind == kind then 1 else 0
  {
    assert (vs + [v])[..|vs|] == vs;
  }

  /** Capping at every step is capping at the end. */
  lemma CappedStep(weight: real, rate: real, n: nat)
    requires rate >= 0.0
    ensures Capped(weight, Capped(weight, rate * n as real) + rate) == Capped(weight, rate * (n + 1) as real)
  {
    assert (n + 1) as real == n as real + 1.0;
  }

  lemma {:induction false} AllCharged(p: Penalties, vs: seq<Violation>, ws: seq<Violation>)
    requires Charged(p, vs)
    ensures Charged(ChargeAll(p, ws), vs + ws)
  {
    hide Charged, Penalize;
    if ws == [] {
      assert vs + ws == vs;
    } else {
      var n := |ws| - 1;
      AllCharged(p, vs, ws[..n]);
      OneCharged(ChargeAll(p, ws[..n]), vs + ws[..n], ws[n]);
      assert vs + ws == (vs + ws[..n]) + [ws[n]];
    }
  }

  /** What a fill is charged for, fault by fault. */
  lemma FillCharged(s: Shadow, f: MatchedFill, tick: int)
    ensures OnFill(s, f, f.makerId, tick).penalties == ChargeAll(s.penalties, Reported(s, Filled(f), tick))
  {
    hide PriceFault, DoubleFault, FifoFault, ApplyFill, Penalize, Wrap64, FillFaults;
    var id := f.makerId;
    var s1 := ReportIf(s, PriceFault(s, f), FillPriceInvalid, tick, id).(lastTrade := f.price);
    var s2 := ReportIf(s1, DoubleFault(s, f, id), DoubleFill, tick, id);
    var s3 := ReportIf(s2, FifoFault(s, id), FifoPriorityBreach, tick, id);
    ApplyKeepsLog(s3, f, id);
    var a := if PriceFault(s, f) then [Violation(FillPriceInvalid, tick, id)] else [];
    var b := if DoubleFault(s, f, id) then [Violation(DoubleFill, tick, id)] else [];
    var c := if FifoFault(s, id) then [Violation(FifoPriorityBreach, tick, id)] else [];
    FaultsListed(s, f, id, tick);
    ChargeOne(s.penalties, a, b);
    ChargeOne(s.penalties, a + b, c);
    ChargeOne(s.penalties, [], a);
    assert [] + a == a;
  }

  lemma FaultsListed(s: Shadow, f: MatchedFill, id: nat, tick: int)
    ensures Logged(FillFaults(s, f, id), tick, id)
      == (if PriceFault(s, f) then [Violation(FillPriceInvalid, tick, id)] else [])
         + (if DoubleFault(s, f, id) then [Violation(DoubleFill, tick, id)] else [])
         + (if FifoFault(s, id) then [Violation(FifoPriorityBreach, tick, id)] else [])
  {
    hide PriceFault, DoubleFault, FifoFault;
  }

  lemma ChargeOne(p: Penalties, vs: seq<Violation>, ws: seq<Violation>)
    requires |ws| <= 1
    ensures ChargeAll(p, vs + ws) == if ws == [] then ChargeAll(p, vs) else Penalize(ChargeAll(p, vs), ws[0].kind)
  {
    hide Penalize;
    if ws == [] { assert vs + ws == vs; } else { assert (vs + ws)[..|vs|] == vs; }
  }

  lemma EventCharged(s: Shadow, e: Event, tick: int)
    ensures Replay(s, e, tick).violations == Record(s.violations, Reported(s, e, tick))
    ensures Replay(s, e, tick).penalties == ChargeAll(s.penalties, Reported(s, e, tick))
  {
    hide OnFill, Close, Enqueue, Penalize, FillFaults;
    match e {
      case Placed(_, _, _, _, _) =>
      case Filled(f) =>
        FillIsLogged(s, f, f.makerId, tick);
        FillCharged(s, f, tick);
      case Cancelled(id, ok) =>
        ChargeOne(s.penalties, [], Reported(s, e, tick));
        assert [] + Reported(s, e, tick) == Reported(s, e, tick);
        if id in s.orders { CloseKeepsLog(s, id, s.orders[id].(isCancelled := true)); }
    }
  }

  /** After any events at all: the log is the first 10000 reports, each penalty is its
      rate for every report of its kind, logged or not, up to its weight, and the score
      is what the penalties leave of 1. */
  lemma {:induction false} PenaltiesAreReports(es: seq<Event>, ticks: seq<int>)
    requires |ticks| == |es|
    ensures
      var s, all := ReplayAll(EMPTY_SHADOW, es, ticks), AllReported(es, ticks);
      && s.violations == (if |all| <= MAX_VIOLATIONS then all else all[..MAX_VIOLATIONS])
      && Charged(s.penalties, all)
      && var p := s.penalties;
      && var left := 1.0 - p.fifo - p.double - p.cancel - p.price - p.cash;
      && Score(p) == (if left < 0.0 then 0.0 else left) <= 1.0
  {
    hide Replay, Charged, Reported, Score;
    if es == [] {
      NothingCharged();
    } else {
      var n := |es| - 1;
      PenaltiesAreReports(es[..n], ticks[..n]);
      var s, all := ReplayAll(EMPTY_SHADOW, es[..n], ticks[..n]), AllReported(es[..n], ticks[..n]);
      EventCharged(s, es[n], ticks[n]);
      AllCharged(s.penalties, all, Reported(s, es[n], ticks[n]));
    }
    ScoreWithin(ReplayAll(EMPTY_SHADOW, es, ticks).penalties, AllReported(es, ticks));
  }

  lemma NothingCharged()
    ensures Charged(NO_PENALTIES, [])
  {
  }

  lemma ScoreWithin(p: Penalties, vs: seq<Violation>)
    requires Charged(p, vs)
    ensures
      var left := 1.0 - p.fifo - p.double - p.cancel - p.price - p.cash;
      Score(p) == (if left < 0.0 then 0.0 else left) <= 1.0
  {
  }

  // ------------------------------------------------------------ other records

  /** A fill the contestant has a part in. */
  predicate OfContestant(f: MatchedFill) {
    f.taker == CONTESTANT || f.maker == CONTESTANT
  }

  function CountOwn(fills: seq<MatchedFill>): nat {
    if fills == [] then 0 else var n := |fills| - 1; CountOwn(fills[..n]) + if OfContestant(fills[n]) then 1 else 0
  }

  lemma RecordsStep(s: Shadow, e: Event, tick: int)
    ensures
      var s' := Replay(s, e, tick);
      if e.Filled?
      then s'.lastTrade == e.fill.price && s'.contestantFills == s.contestantFills + if OfContestant(e.fill) then 1 else 0
      else s'.lastTrade == s.lastTrade && s'.contestantFills == s.contestantFills
  {
    hide OnFill, Wrap64, RemoveFromLevel, Quote, Enqueue, Penalize;
    if e.Filled? { FillRecords(s, e.fill, tick); }
  }

  lemma FillRecords(s: Shadow, f: MatchedFill, tick: int)
    ensures
      var s' := OnFill(s, f, f.makerId, tick);
      s'.lastTrade == f.price && s'.contestantFills == s.contestantFills + if OfContestant(f) then 1 else 0
  {
    hide PriceFault, DoubleFault, FifoFault, Wrap64, ApplyFill, Penalize, ContestantSign;
    var id := f.makerId;
    var s1 := ReportIf(s, PriceFault(s, f), FillPriceInvalid, tick, id).(lastTrade := f.price);
    var s2 := ReportIf(s1, DoubleFault(s, f, id), DoubleFill, tick, id);
    var s3 := ReportIf(s2, FifoFault(s, id), FifoPriorityBreach, tick, id);
    ApplyKeepsRecords(s3, f, id);
  }

  lemma ApplyKeepsRecords(s: Shadow, f: MatchedFill, id: nat)
    ensures ApplyFill(s, f, id).lastTrade == s.lastTrade && ApplyFill(s, f, id).contestantFills == s.contestantFills
  {
    hide Quote, RemoveFromLevel;
  }

  /** The last trade price is that of the last fill, and the contestant's fills are
      those with the contestant on either side. */
  lemma {:induction false} RecordsAreHistory(es: seq<Event>, ticks: seq<int>)
    requires |ticks| == |es|
    ensures
      var s, fills := ReplayAll(EMPTY_SHADOW, es, ticks), FillsOf(es);
      && s.lastTrade == (if fills == [] then 0 else fills[|fills| - 1].price)
      && s.contestantFills == CountOwn(fills)
  {
    hide Replay;
    if es != [] {
      var n := |es| - 1;
      RecordsAreHistory(es[..n], ticks[..n]);
      RecordsStep(ReplayAll(EMPTY_SHADOW, es[..n], ticks[..n]), es[n], ticks[n]);
      var fills := FillsOf(es[..n]);
      if es[n].Filled? {
        assert FillsOf(es) == fills + [es[n].fill];
        assert (fills + [es[n].fill])[..|fills|] == fills;
      } else {
        assert FillsOf(es) == fills;
      }
    }
  }
}

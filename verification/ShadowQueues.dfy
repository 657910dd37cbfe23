/** When the shadow book's levels are exactly the queues of its open orders, and
    when that is lost. */
module ShadowQueues {
  import opened MarketTypes
  import opened PriceTimeBook
  import opened BookRuns
  import opened ShadowSpec
  import opened ShadowProofs

  ghost predicate AllOpen(orders: map<nat, ShadowOrder>, ids: seq<nat>) {
    forall k :: 0 <= k < |ids| ==> ids[k] in orders
  }

  /** A level lists open orders of its price, at least one, in insertion order. */
  ghost predicate LevelExact(orders: map<nat, ShadowOrder>, isBid: bool, p: int, ids: seq<nat>) {
    && LevelSound(orders, isBid, p, ids)
    && AllOpen(orders, ids)
    && forall j, k :: 0 <= j < k < |ids| ==> orders[ids[j]].sequence < orders[ids[k]].sequence
  }

  ghost predicate Queued(s: Shadow, isBid: bool, id: nat)
    requires id in s.orders
  {
    var p := s.orders[id].price;
    p in s.Side(isBid) && id in s.Side(isBid)[p].orderIds
  }

  ghost predicate SideExact(s: Shadow, isBid: bool) {
    && (forall p :: p in s.Side(isBid) ==> LevelExact(s.orders, isBid, p, s.Side(isBid)[p].orderIds))
    && (forall id :: id in s.orders && s.orders[id].isBid == isBid ==> Queued(s, isBid, id))
  }

  ghost predicate OpenOrders(s: Shadow) {
    forall id :: id in s.orders ==>
      !s.orders[id].isCancelled && !s.orders[id].isFullyFilled && s.orders[id].sequence <= s.globalSeq
  }

  /** The levels are exactly the queues of the open orders. */
  ghost predicate Exact(s: Shadow) {
    SideExact(s, true) && SideExact(s, false) && OpenOrders(s)
  }

  /** A level exists exactly when an order is open at its price. */
  lemma LevelsAreNonEmptyQueues(s: Shadow, isBid: bool, p: int)
    requires Exact(s)
    ensures p in s.Side(isBid) <==> HasOrderAt(s.orders, isBid, p)
  {
    assert SideExact(s, isBid);
    if p in s.Side(isBid) {
      assert LevelExact(s.orders, isBid, p, s.Side(isBid)[p].orderIds);
      assert Belongs(s.orders, isBid, p, s.Side(isBid)[p].orderIds[0]);
    }
    if HasOrderAt(s.orders, isBid, p) {
      var id :| Belongs(s.orders, isBid, p, id);
      assert Queued(s, isBid, id);
    }
  }

  /** Some open order has no level. */
  ghost predicate Lost(s: Shadow) {
    exists id :: Unlisted(s, id)
  }

  predicate Unlisted(s: Shadow, id: nat) {
    id in s.orders && !s.orders[id].isCancelled && s.orders[id].price !in s.Side(s.orders[id].isBid)
  }

  lemma LostNotExact(s: Shadow)
    requires Lost(s)
    ensures !Exact(s)
  {
    var id :| Unlisted(s, id);
    assert Exact(s) ==> Queued(s, s.orders[id].isBid, id);
  }

  // --------------------------------------------------------- single levels

  lemma LevelMembers(orders: map<nat, ShadowOrder>, isBid: bool, p: int, ids: seq<nat>)
    requires LevelExact(orders, isBid, p, ids)
    ensures forall x :: x in ids ==> x in orders && orders[x].isBid == isBid && orders[x].price == p
  {
    forall x | x in ids ensures x in orders && orders[x].isBid == isBid && orders[x].price == p {
      assert Belongs(orders, isBid, p, x);
    }
  }

  /** Levels do not notice changes to orders outside their queue, nor fills. */
  lemma UntouchedLevel(orders: map<nat, ShadowOrder>, orders': map<nat, ShadowOrder>, isBid: bool, p: int, ids: seq<nat>)
    requires LevelExact(orders, isBid, p, ids)
    requires forall x :: x in ids ==>
      x in orders' && orders'[x].isBid == orders[x].isBid && orders'[x].price == orders[x].price
      && orders'[x].sequence == orders[x].sequence
    ensures LevelExact(orders', isBid, p, ids)
  {
    assert AllOpen(orders', ids);
    forall x | x in ids ensures Belongs(orders', isBid, p, x) {
      assert Belongs(orders, isBid, p, x);
    }
  }

  lemma AddKeepsLevel(orders: map<nat, ShadowOrder>, isBid: bool, p: int, ids: seq<nat>, id: nat, so: ShadowOrder)
    requires ids == [] || LevelExact(orders, isBid, p, ids)
    requires id !in orders && so.isBid == isBid && so.price == p
    requires forall x :: x in orders ==> orders[x].sequence < so.sequence
    ensures LevelExact(orders[id := so], isBid, p, ids + [id])
  {
    var orders' := orders[id := so];
    assert AllOpen(orders, ids);
    assert id !in ids;
    var ids' := ids + [id];
    forall j | 0 <= j < |ids| ensures ids'[j] in orders && ids'[j] != id && Belongs(orders', isBid, p, ids'[j]) {
      assert ids'[j] == ids[j] && ids[j] in ids;
      assert Belongs(orders, isBid, p, ids[j]);
    }
    assert ids'[|ids|] == id;
  }

  lemma {:induction false} RemoveFirstSplits(ids: seq<nat>, id: nat) returns (k: nat)
    requires id in ids
    ensures k < |ids| && ids[k] == id && RemoveFirst(ids, id) == ids[..k] + ids[k + 1..]
  {
    if ids[0] == id {
      k := 0;
    } else {
      k := RemoveFirstSplits(ids[1..], id);
      assert ids[..k + 1] == [ids[0]] + ids[1..][..k];
      assert ids[k + 2..] == ids[1..][k + 1..];
      k := k + 1;
    }
  }

  function Without(ids: seq<nat>, k: nat): seq<nat>
    requires k < |ids|
  {
    ids[..k] + ids[k + 1..]
  }

  lemma RemoveKeepsLevel(orders: map<nat, ShadowOrder>, isBid: bool, p: int, ids: seq<nat>, id: nat, k: nat)
    requires LevelExact(orders, isBid, p, ids) && k < |ids| && ids[k] == id && |ids| > 1
    ensures LevelExact(orders - {id}, isBid, p, Without(ids, k))
  {
    var rest := Without(ids, k);
    assert forall j :: 0 <= j < |rest| ==> rest[j] == ids[if j < k then j else j + 1];
    forall x | x in rest ensures Belongs(orders - {id}, isBid, p, x) {
      assert Belongs(orders, isBid, p, x);
    }
    assert AllOpen(orders - {id}, rest);
  }

  lemma StaysQueued(ids: seq<nat>, k: nat, x: nat)
    requires k < |ids| && x in ids && x != ids[k]
    ensures x in Without(ids, k) && |ids| > 1
  {
    var i :| 0 <= i < |ids| && ids[i] == x;
    assert Without(ids, k)[if i < k then i else i - 1] == x;
  }

  // ---------------------------------------------------------------- adding

  /** An add with a fresh id, of whatever volume. */
  lemma AddKeepsExact(s: Shadow, isBid: bool, price: int, volume: int, id: nat, tick: int)
    requires Exact(s) && id !in s.orders
    ensures Exact(OnLimitAdd(s, isBid, price, volume, id, tick))
  {
    hide LevelExact;
    AddKeepsSideExact(s, isBid, price, volume, id, tick, true);
    AddKeepsSideExact(s, isBid, price, volume, id, tick, false);
  }

  lemma AddKeepsSideExact(s: Shadow, isBid: bool, price: int, volume: int, id: nat, tick: int, side: bool)
    requires Exact(s) && id !in s.orders
    ensures SideExact(OnLimitAdd(s, isBid, price, volume, id, tick), side)
  {
    hide LevelExact, Wrap64;
    var s' := OnLimitAdd(s, isBid, price, volume, id, tick);
    assert SideExact(s, side);
    forall p | p in s'.Side(side) ensures LevelExact(s'.orders, side, p, s'.Side(side)[p].orderIds) {
      if side == isBid && p == price {
        var ids := if price in s.Side(side) then s.Side(side)[price].orderIds else [];
        AddKeepsLevel(s.orders, side, p, ids, id, s'.orders[id]);
      } else {
        LevelMembers(s.orders, side, p, s.Side(side)[p].orderIds);
        UntouchedLevel(s.orders, s'.orders, side, p, s.Side(side)[p].orderIds);
      }
    }
    forall x | x in s'.orders && s'.orders[x].isBid == side ensures Queued(s', side, x) {
      if x != id {
        assert Queued(s, side, x);
      } else {
        var ids := s'.Side(side)[price].orderIds;
        assert ids[|ids| - 1] == id;
      }
    }
  }

  // --------------------------------------------------------------- closing

  /** Taking an order out does not drop a level that still has others: what is then
      recorded for the level is positive in 64 bits. */
  predicate Keeps(s: Shadow, so: ShadowOrder) {
    (so.price in s.Side(so.isBid) && |s.Side(so.isBid)[so.price].orderIds| > 1) ==>
      Wrap64(s.Side(so.isBid)[so.price].totalVolume - so.remaining) > 0
  }

  lemma CloseLevels(s: Shadow, id: nat, so: ShadowOrder)
    ensures
      var s' := Close(s, id, so);
      && s'.orders == s.orders - {id} && s'.globalSeq == s.globalSeq
      && s'.Side(so.isBid) == RemoveFromLevel(s.Side(so.isBid), id, so)
      && s'.Side(!so.isBid) == s.Side(!so.isBid)
  {
  }

  /** What closing does to the level of the order. */
  lemma ClosedLevel(s: Shadow, id: nat, so: ShadowOrder, k: nat)
    requires so.price in s.Side(so.isBid)
    requires
      var ids := s.Side(so.isBid)[so.price].orderIds;
      k < |ids| && ids[k] == id && RemoveFirst(ids, id) == Without(ids, k)
    ensures
      var levels := s.Side(so.isBid);
      var l := levels[so.price];
      RemoveFromLevel(levels, id, so) ==
        if |l.orderIds| == 1 || !Keeps(s, so) then levels - {so.price}
        else levels[so.price := ShadowLevel(Without(l.orderIds, k), Wrap64(l.totalVolume - so.remaining))]
  {
    hide RemoveFirst, Wrap64;
  }

  /** The place of an open order in its queue. */
  lemma QueuePlace(s: Shadow, id: nat, so: ShadowOrder) returns (k: nat)
    requires Exact(s) && Belongs(s.orders, so.isBid, so.price, id)
    ensures so.price in s.Side(so.isBid)
    ensures
      var ids := s.Side(so.isBid)[so.price].orderIds;
      k < |ids| && ids[k] == id && RemoveFirst(ids, id) == Without(ids, k)
  {
    assert SideExact(s, so.isBid) && Queued(s, so.isBid, id);
    k := RemoveFirstSplits(s.Side(so.isBid)[so.price].orderIds, id);
  }

  /** Closing an order keeps the levels exact exactly when it drops no level that
      still has orders. */
  lemma CloseExactIff(s: Shadow, id: nat, so: ShadowOrder)
    requires Exact(s) && Belongs(s.orders, so.isBid, so.price, id)
    ensures Exact(Close(s, id, so)) <==> Keeps(s, so)
    ensures !Keeps(s, so) ==> Lost(Close(s, id, so))
  {
    hide Close, Keeps, SideExact, OpenOrders, Belongs, RemoveFirst, Lost;
    var k := QueuePlace(s, id, so);
    if Keeps(s, so) {
      CloseKeepsSide(s, id, so, k);
      CloseKeepsOtherSide(s, id, so);
      CloseKeepsOpen(s, id, so);
    } else {
      CloseLosesOrder(s, id, so, k);
      LostNotExact(Close(s, id, so));
    }
  }

  lemma CloseKeepsOpen(s: Shadow, id: nat, so: ShadowOrder)
    requires OpenOrders(s)
    ensures OpenOrders(Close(s, id, so))
  {
    hide Close;
    CloseLevels(s, id, so);
  }

  lemma CloseKeepsOtherSide(s: Shadow, id: nat, so: ShadowOrder)
    requires SideExact(s, !so.isBid) && Belongs(s.orders, so.isBid, so.price, id)
    ensures SideExact(Close(s, id, so), !so.isBid)
  {
    hide Close, RemoveFromLevel, LevelExact;
    var s' := Close(s, id, so);
    var side := !so.isBid;
    CloseLevels(s, id, so);
    forall p | p in s'.Side(side) ensures LevelExact(s'.orders, side, p, s'.Side(side)[p].orderIds) {
      LevelMembers(s.orders, side, p, s.Side(side)[p].orderIds);
      UntouchedLevel(s.orders, s'.orders, side, p, s.Side(side)[p].orderIds);
    }
    forall x | x in s'.orders && s'.orders[x].isBid == side ensures Queued(s', side, x) {
      assert Queued(s, side, x);
    }
  }

  lemma CloseKeepsSide(s: Shadow, id: nat, so: ShadowOrder, k: nat)
    requires SideExact(s, so.isBid) && Belongs(s.orders, so.isBid, so.price, id) && Keeps(s, so)
    requires so.price in s.Side(so.isBid)
    requires
      var ids := s.Side(so.isBid)[so.price].orderIds;
      k < |ids| && ids[k] == id && RemoveFirst(ids, id) == Without(ids, k)
    ensures SideExact(Close(s, id, so), so.isBid)
  {
    hide Close, RemoveFirst, RemoveFromLevel, LevelExact, Keeps, Without;
    var side := so.isBid;
    var s' := Close(s, id, so);
    var ids := s.Side(side)[so.price].orderIds;
    CloseLevels(s, id, so);
    ClosedLevel(s, id, so, k);
    if |ids| > 1 { RemoveKeepsLevel(s.orders, side, so.price, ids, id, k); }
    forall p | p in s'.Side(side) ensures LevelExact(s'.orders, side, p, s'.Side(side)[p].orderIds) {
      if p != so.price {
        OtherPriceKept(s.orders, id, side, p, s.Side(side)[p].orderIds);
      }
    }
    forall x | x in s'.orders && s'.orders[x].isBid == side ensures Queued(s', side, x) {
      assert Queued(s, side, x);
      if s.orders[x].price == so.price { StaysQueued(ids, k, x); }
    }
  }

  lemma OtherPriceKept(orders: map<nat, ShadowOrder>, id: nat, isBid: bool, p: int, ids: seq<nat>)
    requires LevelExact(orders, isBid, p, ids) && !Belongs(orders, isBid, p, id)
    ensures LevelExact(orders - {id}, isBid, p, ids)
  {
    LevelMembers(orders, isBid, p, ids);
    UntouchedLevel(orders, orders - {id}, isBid, p, ids);
  }

  lemma CloseLosesOrder(s: Shadow, id: nat, so: ShadowOrder, k: nat)
    requires SideExact(s, so.isBid) && OpenOrders(s) && !Keeps(s, so) && so.price in s.Side(so.isBid)
    requires
      var ids := s.Side(so.isBid)[so.price].orderIds;
      k < |ids| && ids[k] == id && RemoveFirst(ids, id) == Without(ids, k)
    ensures Lost(Close(s, id, so))
  {
    hide Close, RemoveFirst, RemoveFromLevel, Wrap64, Without;
    var side := so.isBid;
    var ids := s.Side(side)[so.price].orderIds;
    var s' := Close(s, id, so);
    CloseLevels(s, id, so);
    ClosedLevel(s, id, so, k);
    assert LevelExact(s.orders, side, so.price, ids);
    var x := ids[if k == 0 then 1 else 0];
    assert x in ids && x != id;
    assert Belongs(s.orders, side, so.price, x);
    assert Unlisted(s', x);
  }

  // ---------------------------------------------------------- other changes

  lemma ShrinkKeepsExact(s: Shadow, id: nat, remaining: int)
    requires Exact(s) && id in s.orders
    ensures Exact(s.(orders := s.orders[id := s.orders[id].(remaining := remaining)]))
  {
    hide LevelExact, SideExact;
    ShrinkSide(s, id, remaining, true);
    ShrinkSide(s, id, remaining, false);
  }

  lemma ShrinkSide(s: Shadow, id: nat, remaining: int, side: bool)
    requires SideExact(s, side) && id in s.orders
    ensures SideExact(s.(orders := s.orders[id := s.orders[id].(remaining := remaining)]), side)
  {
    hide LevelExact;
    var s' := s.(orders := s.orders[id := s.orders[id].(remaining := remaining)]);
    forall p | p in s'.Side(side) ensures LevelExact(s'.orders, side, p, s'.Side(side)[p].orderIds) {
      LevelMembers(s.orders, side, p, s.Side(side)[p].orderIds);
      UntouchedLevel(s.orders, s'.orders, side, p, s.Side(side)[p].orderIds);
    }
    forall x | x in s'.orders && s'.orders[x].isBid == side ensures Queued(s', side, x) {
      assert Queued(s, side, x);
    }
  }

  /** The two books hold the same orders in the same levels. */
  predicate SameQueues(s: Shadow, s': Shadow) {
    && s'.orders == s.orders && s'.bidLevels == s.bidLevels && s'.askLevels == s.askLevels
    && s'.globalSeq == s.globalSeq
  }

  lemma SameQueuesExact(s: Shadow, s': Shadow)
    requires SameQueues(s, s')
    ensures Exact(s) <==> Exact(s')
    ensures Lost(s) ==> Lost(s')
  {
    hide LevelExact, SideExact;
    if Lost(s) {
      var id :| Unlisted(s, id);
      assert Unlisted(s', id);
    }
    SameSide(s, s', true);
    SameSide(s, s', false);
  }

  lemma SameSide(s: Shadow, s': Shadow, side: bool)
    requires s'.orders == s.orders && s'.Side(side) == s.Side(side)
    ensures SideExact(s, side) <==> SideExact(s', side)
  {
    hide LevelExact;
    assert forall x :: x in s.orders ==> (Queued(s, side, x) <==> Queued(s', side, x));
  }

  // ------------------------------------------------------------ every event

  /** The order as it is after the fill; an overfill leaves it below nothing. */
  function FilledOrder(s: Shadow, f: MatchedFill, id: nat): ShadowOrder
    requires id in s.orders
  {
    s.orders[id].(remaining := s.orders[id].remaining - f.volume)
  }

  /** The guard of the event: if it closes an order, it drops no level that still
      has others. */
  predicate KeepsLevels(s: Shadow, e: Event) {
    match e
    case Placed(_, _, _, _, _) => true
    case Filled(f) =>
      f.makerId in s.orders && FilledOrder(s, f, f.makerId).remaining <= 0 ==> Keeps(s, FilledOrder(s, f, f.makerId))
    case Cancelled(id, _) => id in s.orders ==> Keeps(s, s.orders[id])
  }

  /** The queues right before and right after a fill is applied are those of the event. */
  lemma FillSteps(s: Shadow, f: MatchedFill, id: nat, tick: int) returns (t: Shadow)
    ensures SameQueues(s, t) && SameQueues(ApplyFill(t, f, id), OnFill(s, f, id, tick))
  {
    hide Close, PriceFault, DoubleFault, FifoFault, Wrap64;
    var s1 := ReportIf(s, PriceFault(s, f), FillPriceInvalid, tick, id).(lastTrade := f.price);
    var s2 := ReportIf(s1, DoubleFault(s, f, id), DoubleFill, tick, id);
    t := ReportIf(s2, FifoFault(s, id), FifoPriorityBreach, tick, id);
  }

  lemma ApplyExactIff(s: Shadow, f: MatchedFill, id: nat)
    requires Exact(s) && id in s.orders
    ensures Exact(ApplyFill(s, f, id))
      <==> (FilledOrder(s, f, id).remaining <= 0 ==> Keeps(s, FilledOrder(s, f, id)))
    ensures Exact(ApplyFill(s, f, id)) || Lost(ApplyFill(s, f, id))
  {
    hide Exact, Close, Keeps, Lost;
    if FilledOrder(s, f, id).remaining <= 0 {
      CloseExactIff(s, id, FilledOrder(s, f, id));
    } else {
      ShrinkKeepsExact(s, id, FilledOrder(s, f, id).remaining);
    }
  }

  /** Any fill, right or wrong, of any volume. */
  lemma FillExactIff(s: Shadow, f: MatchedFill, tick: int)
    requires Exact(s)
    ensures Exact(OnFill(s, f, f.makerId, tick)) <==> KeepsLevels(s, Filled(f))
    ensures Exact(OnFill(s, f, f.makerId, tick)) || Lost(OnFill(s, f, f.makerId, tick))
  {
    hide Exact, Close, OnFill, Wrap64, Lost;
    var id := f.makerId;
    var t := FillSteps(s, f, id, tick);
    SameQueuesExact(s, t);
    SameQueuesExact(ApplyFill(t, f, id), OnFill(s, f, id, tick));
    if id in s.orders { ApplyExactIff(t, f, id); }
  }

  lemma CancelExactIff(s: Shadow, id: nat, ok: bool, tick: int)
    requires Exact(s)
    ensures Exact(OnCancel(s, id, ok, tick)) <==> KeepsLevels(s, Cancelled(id, ok))
    ensures Exact(OnCancel(s, id, ok, tick)) || Lost(OnCancel(s, id, ok, tick))
  {
    hide LevelExact, SideExact, Close, Wrap64, Lost;
    if id !in s.orders {
      SameQueuesExact(s, OnCancel(s, id, ok, tick));
    } else {
      CloseExactIff(s, id, s.orders[id].(isCancelled := true));
    }
  }

  ghost predicate Fresh(s: Shadow, e: Event) {
    e.Placed? ==> e.id !in s.orders
  }

  lemma EventExactIff(s: Shadow, e: Event, tick: int)
    requires Exact(s) && Fresh(s, e)
    ensures Exact(Replay(s, e, tick)) <==> KeepsLevels(s, e)
    ensures Exact(Replay(s, e, tick)) || Lost(Replay(s, e, tick))
  {
    hide Exact, OnLimitAdd, OnFill, OnCancel, Keeps, Lost;
    match e
    case Placed(id, isBid, price, volume, _) => AddKeepsExact(s, isBid, price, volume, id, tick);
    case Filled(f) => FillExactIff(s, f, tick);
    case Cancelled(id, ok) => CancelExactIff(s, id, ok, tick);
  }

  // ------------------------------------------------------------- any stream

  ghost function At(es: seq<Event>, ticks: seq<int>, k: nat): Shadow
    requires k <= |es| == |ticks|
  {
    ReplayAll(EMPTY_SHADOW, es[..k], ticks[..k])
  }

  /** Adds carry fresh ids; nothing else is asked of the engine. */
  ghost predicate FreshStream(es: seq<Event>, ticks: seq<int>) {
    |ticks| == |es| && forall k :: 0 <= k < |es| ==> Fresh(At(es, ticks, k), es[k])
  }

  /** No event drops a level that still has orders. */
  ghost predicate Intact(es: seq<Event>, ticks: seq<int>) {
    |ticks| == |es| && forall k :: 0 <= k < |es| ==> KeepsLevels(At(es, ticks, k), es[k])
  }

  lemma AtNext(es: seq<Event>, ticks: seq<int>, k: nat)
    requires k < |es| == |ticks|
    ensures At(es, ticks, k + 1) == Replay(At(es, ticks, k), es[k], ticks[k])
  {
    hide Replay;
    assert es[..k + 1][..k] == es[..k] && ticks[..k + 1][..k] == ticks[..k];
  }

  lemma AtStart(es: seq<Event>, ticks: seq<int>)
    requires |ticks| == |es|
    ensures At(es, ticks, 0) == EMPTY_SHADOW && At(es, ticks, |es|) == ReplayAll(EMPTY_SHADOW, es, ticks)
    ensures Exact(EMPTY_SHADOW)
  {
    assert es[..|es|] == es && ticks[..|ticks|] == ticks;
  }

  /** Up to the first event that drops a level too early the levels are exact. */
  lemma {:induction false} ExactUntil(es: seq<Event>, ticks: seq<int>, n: nat)
    requires FreshStream(es, ticks) && n <= |es|
    requires forall k :: 0 <= k < n ==> KeepsLevels(At(es, ticks, k), es[k])
    ensures Exact(At(es, ticks, n))
  {
    hide At, Exact, KeepsLevels, Fresh, Replay;
    AtStart(es, ticks);
    if n > 0 {
      ExactUntil(es, ticks, n - 1);
      EventExactIff(At(es, ticks, n - 1), es[n - 1], ticks[n - 1]);
      AtNext(es, ticks, n - 1);
    }
  }

  /** Over every stream with fresh ids, right or wrong and of any volumes: the levels
      are the queues of the open orders at every moment exactly when no event drops a
      level that still has orders. */
  lemma StreamExactIff(es: seq<Event>, ticks: seq<int>)
    requires FreshStream(es, ticks)
    ensures (forall k :: 0 <= k <= |es| ==> Exact(At(es, ticks, k))) <==> Intact(es, ticks)
  {
    hide At, Exact, KeepsLevels, Fresh, Replay;
    if Intact(es, ticks) {
      forall k | 0 <= k <= |es| ensures Exact(At(es, ticks, k)) {
        ExactUntil(es, ticks, k);
      }
    }
    if forall k :: 0 <= k <= |es| ==> Exact(At(es, ticks, k)) {
      forall k | 0 <= k < |es| ensures KeepsLevels(At(es, ticks, k), es[k]) {
        assert Exact(At(es, ticks, k)) && Exact(At(es, ticks, k + 1));
        AtNext(es, ticks, k);
        EventExactIff(At(es, ticks, k), es[k], ticks[k]);
      }
    }
  }
}

/** Positive volumes whose totals fit 64 bits never drop a level too early: the
    volume recorded for a level, which fills do not reduce, covers what is open. */
module ShadowVolumes {
  import opened MarketTypes
  import opened PriceTimeBook
  import opened BookRuns
  import opened ShadowSpec
  import opened ShadowProofs
  import opened ShadowQueues

  ghost function RemainingSum(orders: map<nat, ShadowOrder>, ids: seq<nat>): int
    requires AllOpen(orders, ids)
  {
    if ids == [] then 0 else orders[ids[0]].remaining + RemainingSum(orders, ids[1..])
  }

  /** The recorded volume covers what is open at the level, and is at most `n`. */
  ghost predicate LevelFunded(orders: map<nat, ShadowOrder>, l: ShadowLevel, n: int) {
    AllOpen(orders, l.orderIds) && 0 <= RemainingSum(orders, l.orderIds) <= l.totalVolume <= n
  }

  ghost predicate SideFunded(s: Shadow, isBid: bool, n: int) {
    forall p :: p in s.Side(isBid) ==> LevelFunded(s.orders, s.Side(isBid)[p], n)
  }

  predicate AllPositive(orders: map<nat, ShadowOrder>) {
    forall id :: id in orders ==> orders[id].remaining > 0
  }

  ghost predicate Funded(s: Shadow, n: int) {
    SideFunded(s, true, n) && SideFunded(s, false, n) && AllPositive(s.orders)
  }

  // -------------------------------------------------- sums along a queue

  lemma {:induction false} SumAppend(orders: map<nat, ShadowOrder>, a: seq<nat>, b: seq<nat>)
    requires AllOpen(orders, a) && AllOpen(orders, b)
    ensures AllOpen(orders, a + b)
    ensures RemainingSum(orders, a + b) == RemainingSum(orders, a) + RemainingSum(orders, b)
  {
    if a == [] {
      assert a + b == b;
    } else {
      assert (a + b)[1..] == a[1..] + b;
      SumAppend(orders, a[1..], b);
    }
  }

  lemma {:induction false} SumMonotone(orders: map<nat, ShadowOrder>, orders': map<nat, ShadowOrder>, ids: seq<nat>)
    requires AllOpen(orders, ids) && AllOpen(orders', ids)
    requires forall k :: 0 <= k < |ids| ==> orders'[ids[k]].remaining <= orders[ids[k]].remaining
    ensures RemainingSum(orders', ids) <= RemainingSum(orders, ids)
  {
    if ids != [] { SumMonotone(orders, orders', ids[1..]); }
  }

  lemma {:induction false} SumPositive(orders: map<nat, ShadowOrder>, ids: seq<nat>)
    requires AllOpen(orders, ids) && AllPositive(orders)
    ensures RemainingSum(orders, ids) >= 0 && (ids != [] ==> RemainingSum(orders, ids) > 0)
  {
    if ids != [] { SumPositive(orders, ids[1..]); }
  }

  lemma SumOne(orders: map<nat, ShadowOrder>, id: nat)
    requires id in orders
    ensures AllOpen(orders, [id]) && RemainingSum(orders, [id]) == orders[id].remaining
  {
    assert [id][1..] == [];
  }

  lemma SumHead(orders: map<nat, ShadowOrder>, ids: seq<nat>)
    requires AllOpen(orders, ids) && ids != []
    ensures RemainingSum(orders, ids) == orders[ids[0]].remaining + RemainingSum(orders, ids[1..])
  {
  }

  lemma SumWithout(orders: map<nat, ShadowOrder>, ids: seq<nat>, k: nat)
    requires AllOpen(orders, ids) && k < |ids|
    ensures AllOpen(orders, Without(ids, k))
    ensures RemainingSum(orders, Without(ids, k)) == RemainingSum(orders, ids) - orders[ids[k]].remaining
  {
    hide RemainingSum;
    var rest := ids[k..];
    SumAppend(orders, ids[..k], ids[k + 1..]);
    SumAppend(orders, ids[..k], rest);
    assert ids == ids[..k] + rest;
    assert rest[1..] == ids[k + 1..];
    SumHead(orders, rest);
  }

  // ------------------------------------------------------------ one level

  /** A level stays covered when its orders are all still open with no more left. */
  lemma StillFunded(orders: map<nat, ShadowOrder>, orders': map<nat, ShadowOrder>, l: ShadowLevel, n: int, n': int)
    requires LevelFunded(orders, l, n) && n <= n' && AllPositive(orders')
    requires forall x :: x in l.orderIds ==> x in orders' && x in orders && orders'[x].remaining <= orders[x].remaining
    ensures LevelFunded(orders', l, n')
  {
    hide RemainingSum;
    assert AllOpen(orders', l.orderIds);
    SumMonotone(orders, orders', l.orderIds);
    SumPositive(orders', l.orderIds);
  }

  lemma AddFundsLevel(orders: map<nat, ShadowOrder>, l: ShadowLevel, id: nat, so: ShadowOrder, n: int, n': int)
    requires l == ShadowLevel([], 0) || LevelFunded(orders, l, n)
    requires id !in orders && so.remaining > 0 && l.totalVolume + so.remaining <= n' <= INT64_MAX
    requires AllPositive(orders)
    ensures LevelFunded(orders[id := so], ShadowLevel(l.orderIds + [id], Wrap64(l.totalVolume + so.remaining)), n')
  {
    hide RemainingSum;
    var orders' := orders[id := so];
    NoneSumsToNothing(orders);
    assert AllOpen(orders, l.orderIds) && AllOpen(orders', l.orderIds);
    SumMonotone(orders, orders', l.orderIds);
    SumOne(orders', id);
    SumAppend(orders', l.orderIds, [id]);
    SumPositive(orders', l.orderIds + [id]);
  }

  lemma NoneSumsToNothing(orders: map<nat, ShadowOrder>)
    ensures AllOpen(orders, []) && RemainingSum(orders, []) == 0
  {
  }

  lemma RemoveFundsLevel(orders: map<nat, ShadowOrder>, l: ShadowLevel, k: nat, remaining: int, n: int, n': int)
    requires LevelFunded(orders, l, n) && AllPositive(orders) && 1 < |l.orderIds| && k < |l.orderIds|
    requires remaining <= orders[l.orderIds[k]].remaining && l.totalVolume - remaining <= n' <= INT64_MAX
    requires l.orderIds[k] !in Without(l.orderIds, k)
    ensures Wrap64(l.totalVolume - remaining) > 0
    ensures LevelFunded(orders - {l.orderIds[k]}, ShadowLevel(Without(l.orderIds, k), Wrap64(l.totalVolume - remaining)), n')
  {
    hide RemainingSum, Without;
    var rest := Without(l.orderIds, k);
    WithoutShorter(l.orderIds, k);
    SumWithout(orders, l.orderIds, k);
    SumPositive(orders, rest);
    var l' := ShadowLevel(rest, Wrap64(l.totalVolume - remaining));
    assert LevelFunded(orders, l', n');
    StillFunded(orders, orders - {l.orderIds[k]}, l', n', n');
  }

  lemma WithoutShorter(ids: seq<nat>, k: nat)
    requires k < |ids|
    ensures |Without(ids, k)| == |ids| - 1
  {
  }

  // ---------------------------------------------------------- every event

  /** The volume recorded for a level. */
  function LevelTotal(s: Shadow, isBid: bool, price: int): int {
    if price in s.Side(isBid) then s.Side(isBid)[price].totalVolume else 0
  }

  /** Adds carry fresh ids and positive volumes, fills positive volumes, and the
      volumes recorded for levels stay within `n`; nothing else is asked of the
      engine. An overfill may leave an order with less than nothing. */
  ghost predicate Admissible(s: Shadow, e: Event, n: int) {
    match e
    case Placed(id, isBid, price, volume, _) =>
      id !in s.orders && volume > 0 && LevelTotal(s, isBid, price) + volume <= n
    case Filled(f) =>
      && f.volume > 0
      && (f.makerId in s.orders ==>
            var so := FilledOrder(s, f, f.makerId);
            LevelTotal(s, so.isBid, so.price) - so.remaining <= n)
    case Cancelled(_, _) => true
  }

  lemma AddKeepsFunded(s: Shadow, isBid: bool, price: int, volume: int, id: nat, tick: int, n: int, n': int)
    requires Exact(s) && Funded(s, n) && n <= n' <= INT64_MAX
    requires id !in s.orders && volume > 0 && LevelTotal(s, isBid, price) + volume <= n'
    ensures Funded(OnLimitAdd(s, isBid, price, volume, id, tick), n')
  {
    hide LevelFunded, Wrap64;
    var s' := OnLimitAdd(s, isBid, price, volume, id, tick);
    assert AllPositive(s'.orders);
    forall side, p | p in s'.Side(side) ensures LevelFunded(s'.orders, s'.Side(side)[p], n') {
      assert SideFunded(s, side, n) && SideExact(s, side);
      if side == isBid && p == price {
        var l := if price in s.Side(side) then s.Side(side)[price] else ShadowLevel([], 0);
        AddFundsLevel(s.orders, l, id, s'.orders[id], n, n');
      } else {
        LevelMembers(s.orders, side, p, s.Side(side)[p].orderIds);
        StillFunded(s.orders, s'.orders, s.Side(side)[p], n, n');
      }
    }
  }

  lemma CloseKeepsFunded(s: Shadow, id: nat, so: ShadowOrder, n: int, n': int)
    requires Exact(s) && Funded(s, n) && n <= n' <= INT64_MAX
    requires Belongs(s.orders, so.isBid, so.price, id) && so.remaining <= s.orders[id].remaining
    requires LevelTotal(s, so.isBid, so.price) - so.remaining <= n'
    ensures Keeps(s, so) && Funded(Close(s, id, so), n')
  {
    hide Close, RemoveFirst, RemoveFromLevel, LevelFunded, LevelExact, Wrap64, Without, SideExact, OpenOrders, Keeps;
    var k := QueuePlace(s, id, so);
    var s' := Close(s, id, so);
    CloseLevels(s, id, so);
    CloseFundsLevel(s, id, so, k, n, n');
    forall side, p | p in s'.Side(side) ensures LevelFunded(s'.orders, s'.Side(side)[p], n') {
      if side != so.isBid || p != so.price {
        assert s'.Side(side)[p] == s.Side(side)[p] by { OtherLevelsStay(s, id, so, side, p); }
        OtherLevelFunded(s, id, so, side, p, n, n');
      }
    }
  }

  /** The level an order is taken out of stays covered, if it stays at all. */
  lemma CloseFundsLevel(s: Shadow, id: nat, so: ShadowOrder, k: nat, n: int, n': int)
    requires SideExact(s, so.isBid) && SideFunded(s, so.isBid, n) && AllPositive(s.orders) && n <= n' <= INT64_MAX
    requires so.price in s.Side(so.isBid) && id in s.orders && so.remaining <= s.orders[id].remaining
    requires
      var ids := s.Side(so.isBid)[so.price].orderIds;
      k < |ids| && ids[k] == id && RemoveFirst(ids, id) == Without(ids, k)
    requires LevelTotal(s, so.isBid, so.price) - so.remaining <= n'
    ensures Keeps(s, so)
    ensures
      var lv := RemoveFromLevel(s.Side(so.isBid), id, so);
      so.price in lv ==> LevelFunded(s.orders - {id}, lv[so.price], n')
  {
    hide RemoveFirst, RemoveFromLevel, LevelFunded, LevelExact, Wrap64, Without;
    var l := s.Side(so.isBid)[so.price];
    ClosedLevel(s, id, so, k);
    if |l.orderIds| > 1 {
      NotInRest(s.orders, so.isBid, so.price, l.orderIds, k);
      FundedOpen(s.orders, l, n);
      RemoveFundsLevel(s.orders, l, k, so.remaining, n, n');
    }
  }

  lemma OtherLevelsStay(s: Shadow, id: nat, so: ShadowOrder, side: bool, p: int)
    requires side != so.isBid || p != so.price
    requires so.price in s.Side(so.isBid)
    requires p in Close(s, id, so).Side(side)
    ensures p in s.Side(side) && Close(s, id, so).Side(side)[p] == s.Side(side)[p]
  {
    hide RemoveFirst, Wrap64, Quote;
  }

  lemma OtherLevelFunded(s: Shadow, id: nat, so: ShadowOrder, side: bool, p: int, n: int, n': int)
    requires SideExact(s, side) && SideFunded(s, side, n) && AllPositive(s.orders) && n <= n' && p in s.Side(side)
    requires Belongs(s.orders, so.isBid, so.price, id) && (side != so.isBid || p != so.price)
    ensures LevelFunded(s.orders - {id}, s.Side(side)[p], n')
  {
    hide LevelFunded, LevelExact;
    LevelMembers(s.orders, side, p, s.Side(side)[p].orderIds);
    StillFunded(s.orders, s.orders - {id}, s.Side(side)[p], n, n');
  }

  lemma FundedOpen(orders: map<nat, ShadowOrder>, l: ShadowLevel, n: int)
    requires LevelFunded(orders, l, n)
    ensures AllOpen(orders, l.orderIds) && 0 <= l.totalVolume <= n
  {
  }

  lemma NotInRest(orders: map<nat, ShadowOrder>, isBid: bool, p: int, ids: seq<nat>, k: nat)
    requires LevelExact(orders, isBid, p, ids) && k < |ids|
    ensures ids[k] !in Without(ids, k)
  {
  }

  lemma ShrinkKeepsFunded(s: Shadow, id: nat, remaining: int, n: int, n': int)
    requires Exact(s) && Funded(s, n) && n <= n' && id in s.orders && 0 < remaining <= s.orders[id].remaining
    ensures Funded(s.(orders := s.orders[id := s.orders[id].(remaining := remaining)]), n')
  {
    hide LevelFunded, LevelExact;
    var s' := s.(orders := s.orders[id := s.orders[id].(remaining := remaining)]);
    forall side, p | p in s'.Side(side) ensures LevelFunded(s'.orders, s'.Side(side)[p], n') {
      assert SideFunded(s, side, n) && SideExact(s, side);
      LevelMembers(s.orders, side, p, s.Side(side)[p].orderIds);
      StillFunded(s.orders, s'.orders, s.Side(side)[p], n, n');
    }
  }

  lemma SameQueuesFunded(s: Shadow, s': Shadow, n: int, n': int)
    requires Funded(s, n) && n <= n' && SameQueues(s, s')
    ensures Funded(s', n')
  {
    forall side, p | p in s'.Side(side) ensures LevelFunded(s'.orders, s'.Side(side)[p], n') {
      assert SideFunded(s, side, n) && s'.Side(side) == s.Side(side);
      assert LevelFunded(s.orders, s.Side(side)[p], n);
    }
  }

  lemma FillKeepsFunded(s: Shadow, f: MatchedFill, tick: int, n: int, n': int)
    requires Exact(s) && Funded(s, n) && n <= n' <= INT64_MAX && Admissible(s, Filled(f), n')
    ensures KeepsLevels(s, Filled(f)) && Funded(OnFill(s, f, f.makerId, tick), n')
  {
    hide Exact, Funded, Close, OnFill, Wrap64;
    var id := f.makerId;
    var t := FillSteps(s, f, id, tick);
    SameQueuesExact(s, t);
    SameQueuesFunded(s, t, n, n);
    if id in s.orders {
      ApplyKeepsFunded(t, f, id, n, n');
    } else {
      SameQueuesFunded(s, t, n, n');
    }
    SameQueuesFunded(ApplyFill(t, f, id), OnFill(s, f, id, tick), n', n');
  }

  lemma ApplyKeepsFunded(s: Shadow, f: MatchedFill, id: nat, n: int, n': int)
    requires Exact(s) && Funded(s, n) && n <= n' <= INT64_MAX && f.volume > 0 && id in s.orders
    requires var so := FilledOrder(s, f, id); LevelTotal(s, so.isBid, so.price) - so.remaining <= n'
    ensures FilledOrder(s, f, id).remaining <= 0 ==> Keeps(s, FilledOrder(s, f, id))
    ensures Funded(ApplyFill(s, f, id), n')
  {
    hide Exact, Funded, Close, Keeps, Wrap64;
    var so := FilledOrder(s, f, id);
    if so.remaining <= 0 {
      CloseKeepsFunded(s, id, so, n, n');
    } else {
      ShrinkKeepsFunded(s, id, so.remaining, n, n');
    }
  }

  lemma CancelKeepsFunded(s: Shadow, id: nat, ok: bool, tick: int, n: int, n': int)
    requires Exact(s) && Funded(s, n) && 0 <= n <= n' <= INT64_MAX
    ensures KeepsLevels(s, Cancelled(id, ok)) && Funded(OnCancel(s, id, ok, tick), n')
  {
    hide LevelFunded, LevelExact, SideExact, Close, Wrap64;
    if id !in s.orders {
      SameQueuesFunded(s, OnCancel(s, id, ok, tick), n, n');
    } else {
      TotalWithin(s, s.orders[id].isBid, s.orders[id].price, n);
      CloseKeepsFunded(s, id, s.orders[id].(isCancelled := true), n, n');
    }
  }

  lemma TotalWithin(s: Shadow, isBid: bool, price: int, n: int)
    requires Funded(s, n) && 0 <= n
    ensures 0 <= LevelTotal(s, isBid, price) <= n
  {
    assert SideFunded(s, isBid, n);
  }

  /** An admissible event drops no level that still has orders, and the recorded
      volumes keep covering what is open. */
  lemma EventKeepsFunded(s: Shadow, e: Event, tick: int, n: int, n': int)
    requires Exact(s) && Funded(s, n) && 0 <= n <= n' <= INT64_MAX && Admissible(s, e, n')
    ensures Fresh(s, e) && KeepsLevels(s, e)
    ensures Exact(Replay(s, e, tick)) && Funded(Replay(s, e, tick), n')
  {
    hide Exact, Funded, Keeps, OnLimitAdd, OnFill, OnCancel, LevelTotal, FilledOrder;
    match e
    case Placed(id, isBid, price, volume, _) =>
      AddKeepsFunded(s, isBid, price, volume, id, tick, n, n');
      AddKeepsExact(s, isBid, price, volume, id, tick);
    case Filled(f) =>
      FillKeepsFunded(s, f, tick, n, n');
      EventExactIff(s, e, tick);
    case Cancelled(id, ok) =>
      CancelKeepsFunded(s, id, ok, tick, n, n');
      EventExactIff(s, e, tick);
  }

  // ------------------------------------------------------------- any stream

  ghost predicate AdmissibleStream(es: seq<Event>, ticks: seq<int>) {
    |ticks| == |es| && forall k :: 0 <= k < |es| ==> Admissible(At(es, ticks, k), es[k], INT64_MAX)
  }

  lemma FundedStart()
    ensures Exact(EMPTY_SHADOW) && Funded(EMPTY_SHADOW, 0)
  {
  }

  lemma {:induction false} FundedUntil(es: seq<Event>, ticks: seq<int>, n: nat)
    requires AdmissibleStream(es, ticks) && n <= |es|
    ensures Exact(At(es, ticks, n)) && Funded(At(es, ticks, n), INT64_MAX)
    ensures forall k :: 0 <= k < n ==> Fresh(At(es, ticks, k), es[k]) && KeepsLevels(At(es, ticks, k), es[k])
  {
    hide At, Exact, Funded, KeepsLevels, Fresh, Replay, Admissible;
    AtStart(es, ticks);
    if n > 0 {
      FundedUntil(es, ticks, n - 1);
      EventKeepsFunded(At(es, ticks, n - 1), es[n - 1], ticks[n - 1], INT64_MAX, INT64_MAX);
      AtNext(es, ticks, n - 1);
    } else {
      FundedStart();
      SameQueuesFunded(EMPTY_SHADOW, EMPTY_SHADOW, 0, INT64_MAX);
    }
  }

  /** Streams of positive volumes that fit 64 bits, right or wrong, lose no level. */
  lemma AdmissibleStreamsIntact(es: seq<Event>, ticks: seq<int>)
    requires AdmissibleStream(es, ticks)
    ensures FreshStream(es, ticks) && Intact(es, ticks)
  {
    hide At, KeepsLevels, Fresh, Admissible, Exact, Funded;
    FundedUntil(es, ticks, |es|);
  }
}

/** When the shadow book's double-fill and priority checks judge fills rightly, and
    when they stop doing so. A fill is right by the open orders alone; the checks
    look at the levels, so this says what a lost level costs. */
module ShadowJudging {
  import opened MarketTypes
  import opened PriceTimeBook
  import opened BookRuns
  import opened ShadowSpec
  import opened ShadowProofs
  import opened ShadowQueues

  /** No open order of its side and price was added before it. */
  ghost predicate Oldest(s: Shadow, id: nat)
    requires id in s.orders
  {
    forall x :: Belongs(s.orders, s.orders[id].isBid, s.orders[id].price, x) ==>
      s.orders[id].sequence <= s.orders[x].sequence
  }

  /** The maker is the oldest open order of its side and price and has that much left. */
  ghost predicate Right(s: Shadow, f: MatchedFill) {
    f.makerId in s.orders && Oldest(s, f.makerId) && f.volume <= s.orders[f.makerId].remaining
  }

  /** The fill passes both checks exactly when it is right. */
  ghost predicate Judged(s: Shadow, f: MatchedFill) {
    (!DoubleFault(s, f, f.makerId) && !FifoFault(s, f.makerId)) <==> Right(s, f)
  }

  /** Whatever fill came next, the two checks would judge it rightly. */
  ghost predicate JudgesFills(s: Shadow) {
    forall f :: Judged(s, f)
  }

  /** A fill a correct engine may make is right. */
  lemma LegalIsRight(s: Shadow, b: Book, f: MatchedFill)
    requires Mirrors(s, b) && Legal(b, Filled(f))
    ensures Right(s, f)
  {
    var id := f.makerId;
    var so := s.orders[id];
    forall x | Belongs(s.orders, so.isBid, so.price, x) ensures so.sequence <= s.orders[x].sequence {
      if x != id {
        assert OnSide(b.orders, so.isBid, x);
        assert Precedes(b.orders, so.isBid, id, x);
      }
    }
  }

  // ------------------------------------------------------- orderly levels

  /** An open order whose price has no level. */
  predicate Stray(s: Shadow, isBid: bool, p: int, id: nat) {
    id in s.orders && s.orders[id].isBid == isBid && s.orders[id].price == p && p !in s.Side(isBid)
  }

  predicate Listed(s: Shadow, isBid: bool, id: nat)
    requires id in s.orders
  {
    var p := s.orders[id].price;
    p in s.Side(isBid) ==> id in s.Side(isBid)[p].orderIds
  }

  /** A level is the whole queue of its price; where there is none, at most one order
      is open. */
  ghost predicate SideOrderly(s: Shadow, isBid: bool) {
    && (forall p :: p in s.Side(isBid) ==> LevelExact(s.orders, isBid, p, s.Side(isBid)[p].orderIds))
    && (forall id :: id in s.orders && s.orders[id].isBid == isBid ==> Listed(s, isBid, id))
    && (forall p, x, y :: Stray(s, isBid, p, x) && Stray(s, isBid, p, y) ==> x == y)
  }

  ghost predicate Orderly(s: Shadow) {
    SideOrderly(s, true) && SideOrderly(s, false) && OpenOrders(s)
  }

  /** Levels that are the queues of the open orders are orderly. */
  lemma ExactIsOrderly(s: Shadow)
    requires Exact(s)
    ensures Orderly(s)
  {
    hide LevelExact;
    ExactSideOrderly(s, true);
    ExactSideOrderly(s, false);
  }

  lemma ExactSideOrderly(s: Shadow, isBid: bool)
    requires SideExact(s, isBid)
    ensures SideOrderly(s, isBid)
  {
    hide LevelExact;
    forall id | id in s.orders && s.orders[id].isBid == isBid
      ensures Listed(s, isBid, id) && !Stray(s, isBid, s.orders[id].price, id)
    {
      assert Queued(s, isBid, id);
    }
  }

  /** Where a level exists, its front is the oldest order of the price. */
  lemma FrontIsOldest(s: Shadow, id: nat)
    requires Orderly(s) && id in s.orders && s.orders[id].price in s.Side(s.orders[id].isBid)
    ensures
      var ids := s.Side(s.orders[id].isBid)[s.orders[id].price].orderIds;
      ids != [] && ids[0] in s.orders && (Oldest(s, id) <==> ids[0] == id)
      && (ids[0] != id ==> s.orders[ids[0]].sequence < s.orders[id].sequence)
  {
    var so := s.orders[id];
    var ids := s.Side(so.isBid)[so.price].orderIds;
    assert SideOrderly(s, so.isBid) && LevelExact(s.orders, so.isBid, so.price, ids);
    assert Listed(s, so.isBid, id);
    var k :| 0 <= k < |ids| && ids[k] == id;
    assert ids[0] in ids && Belongs(s.orders, so.isBid, so.price, ids[0]);
    if k == 0 {
      forall x | Belongs(s.orders, so.isBid, so.price, x) ensures so.sequence <= s.orders[x].sequence {
        assert Listed(s, so.isBid, x);
        var j :| 0 <= j < |ids| && ids[j] == x;
        assert j > 0 ==> s.orders[ids[0]].sequence < s.orders[ids[j]].sequence;
      }
    } else {
      assert s.orders[ids[0]].sequence < s.orders[ids[k]].sequence;
    }
  }

  /** Without a level the order is the only one at its price. */
  lemma StrayIsOldest(s: Shadow, id: nat)
    requires Orderly(s) && id in s.orders && s.orders[id].price !in s.Side(s.orders[id].isBid)
    ensures Oldest(s, id)
  {
    var so := s.orders[id];
    assert SideOrderly(s, so.isBid) && Stray(s, so.isBid, so.price, id);
    forall x | Belongs(s.orders, so.isBid, so.price, x) ensures so.sequence <= s.orders[x].sequence {
      assert Stray(s, so.isBid, so.price, x);
    }
  }

  /** While the levels are orderly, a fill passes both checks exactly when it is right. */
  lemma FillJudgedExactly(s: Shadow, f: MatchedFill)
    requires Orderly(s)
    ensures (!DoubleFault(s, f, f.makerId) && !FifoFault(s, f.makerId)) <==> Right(s, f)
  {
    hide SideOrderly, Oldest;
    var id := f.makerId;
    if id in s.orders {
      if s.orders[id].price in s.Side(s.orders[id].isBid) {
        FrontIsOldest(s, id);
      } else {
        StrayIsOldest(s, id);
      }
    }
  }

  lemma OrderlyJudges(s: Shadow)
    requires Orderly(s)
    ensures JudgesFills(s)
  {
    hide Orderly, Right;
    forall f ensures Judged(s, f) {
      FillJudgedExactly(s, f);
    }
  }

  /** Two open orders of one price, of which the checks let the younger one pass. */
  ghost predicate Overtakes(s: Shadow, x: nat, y: nat) {
    && x in s.orders && y in s.orders && !s.orders[y].isCancelled
    && s.orders[x].isBid == s.orders[y].isBid && s.orders[x].price == s.orders[y].price
    && s.orders[x].sequence < s.orders[y].sequence
    && !FifoFault(s, y)
  }

  lemma OvertakenMisjudged(s: Shadow, x: nat, y: nat)
    requires Overtakes(s, x, y)
    ensures !JudgesFills(s)
  {
    hide FifoFault;
    var f := MatchedFill(s.orders[y].price, s.orders[y].remaining, 0, 0, y, false, false, false);
    assert Belongs(s.orders, s.orders[y].isBid, s.orders[y].price, x);
    assert !Oldest(s, y);
    assert !Judged(s, f);
  }

  // ---------------------------------------------------------------- adding

  /** An add does not open a level at a price where an order has lost its own. */
  ghost predicate OpensNoStray(s: Shadow, isBid: bool, price: int) {
    price in s.Side(isBid) || !HasOrderAt(s.orders, isBid, price)
  }

  lemma AddOrderlyIff(s: Shadow, isBid: bool, price: int, volume: int, id: nat, tick: int)
    requires Orderly(s) && id !in s.orders
    ensures
      var s' := OnLimitAdd(s, isBid, price, volume, id, tick);
      if OpensNoStray(s, isBid, price) then Orderly(s') else !JudgesFills(s')
  {
    hide LevelExact, SideOrderly, JudgesFills;
    var s' := OnLimitAdd(s, isBid, price, volume, id, tick);
    if OpensNoStray(s, isBid, price) {
      AddKeepsSideOrderly(s, isBid, price, volume, id, tick, true);
      AddKeepsSideOrderly(s, isBid, price, volume, id, tick, false);
    } else {
      var x :| Belongs(s.orders, isBid, price, x);
      assert s'.Side(isBid)[price].orderIds == [id];
      assert Overtakes(s', x, id);
      OvertakenMisjudged(s', x, id);
    }
  }

  lemma AddKeepsSideOrderly(s: Shadow, isBid: bool, price: int, volume: int, id: nat, tick: int, side: bool)
    requires Orderly(s) && id !in s.orders && OpensNoStray(s, isBid, price)
    ensures SideOrderly(OnLimitAdd(s, isBid, price, volume, id, tick), side)
  {
    hide LevelExact, Wrap64, OpensNoStray;
    var s' := OnLimitAdd(s, isBid, price, volume, id, tick);
    assert SideOrderly(s, side);
    forall p | p in s'.Side(side) ensures LevelExact(s'.orders, side, p, s'.Side(side)[p].orderIds) {
      if side == isBid && p == price {
        var ids := if price in s.Side(side) then s.Side(side)[price].orderIds else [];
        AddKeepsLevel(s.orders, side, p, ids, id, s'.orders[id]);
      } else {
        LevelMembers(s.orders, side, p, s.Side(side)[p].orderIds);
        UntouchedLevel(s.orders, s'.orders, side, p, s.Side(side)[p].orderIds);
      }
    }
    forall x | x in s'.orders && s'.orders[x].isBid == side ensures Listed(s', side, x) {
      AddKeepsListed(s, isBid, price, volume, id, tick, x);
    }
    forall p, x, y | Stray(s', side, p, x) && Stray(s', side, p, y) ensures x == y {
      assert Stray(s, side, p, x) && Stray(s, side, p, y);
    }
  }

  lemma AddKeepsListed(s: Shadow, isBid: bool, price: int, volume: int, id: nat, tick: int, x: nat)
    requires id !in s.orders && OpensNoStray(s, isBid, price)
    requires x == id || (x in s.orders && Listed(s, s.orders[x].isBid, x))
    ensures
      var s' := OnLimitAdd(s, isBid, price, volume, id, tick);
      x in s'.orders && Listed(s', s'.orders[x].isBid, x)
  {
    hide Wrap64;
    var s' := OnLimitAdd(s, isBid, price, volume, id, tick);
    var ids := s'.Side(isBid)[price].orderIds;
    assert ids[|ids| - 1] == id;
    if x != id && s.orders[x].isBid == isBid && s.orders[x].price == price {
      assert Belongs(s.orders, isBid, price, x);
    }
  }

  // --------------------------------------------------------------- closing

  /** Taking an order out does not drop a level with two others. */
  predicate KeepsOrder(s: Shadow, so: ShadowOrder) {
    (so.price in s.Side(so.isBid) && |s.Side(so.isBid)[so.price].orderIds| > 2) ==>
      Wrap64(s.Side(so.isBid)[so.price].totalVolume - so.remaining) > 0
  }

  lemma CloseOrderlyIff(s: Shadow, id: nat, so: ShadowOrder)
    requires Orderly(s) && Belongs(s.orders, so.isBid, so.price, id)
    ensures if KeepsOrder(s, so) then Orderly(Close(s, id, so)) else !JudgesFills(Close(s, id, so))
  {
    hide Close, Keeps, KeepsOrder, SideOrderly, OpenOrders, JudgesFills, RemoveFirst, Belongs;
    CloseKeepsOpen(s, id, so);
    CloseKeepsOtherOrderly(s, id, so);
    if so.price !in s.Side(so.isBid) {
      CloseStray(s, id, so);
    } else {
      var k := ListedPlace(s, id, so);
      if Keeps(s, so) {
        CloseKeepsOrderly(s, id, so, k);
      } else {
        CloseDropsLevel(s, id, so, k);
      }
    }
  }

  lemma ListedPlace(s: Shadow, id: nat, so: ShadowOrder) returns (k: nat)
    requires SideOrderly(s, so.isBid) && Belongs(s.orders, so.isBid, so.price, id) && so.price in s.Side(so.isBid)
    ensures
      var ids := s.Side(so.isBid)[so.price].orderIds;
      k < |ids| && ids[k] == id && RemoveFirst(ids, id) == Without(ids, k)
  {
    assert Listed(s, so.isBid, id);
    k := RemoveFirstSplits(s.Side(so.isBid)[so.price].orderIds, id);
  }

  lemma CloseKeepsOtherOrderly(s: Shadow, id: nat, so: ShadowOrder)
    requires SideOrderly(s, !so.isBid) && Belongs(s.orders, so.isBid, so.price, id)
    ensures SideOrderly(Close(s, id, so), !so.isBid)
  {
    hide Close, RemoveFromLevel, LevelExact;
    CloseLevels(s, id, so);
    OrderlyWithout(s, Close(s, id, so), id, !so.isBid, so.price);
  }

  /** Levels of other prices do not notice that an order is gone. */
  lemma OrderlyWithout(s: Shadow, s': Shadow, id: nat, side: bool, price: int)
    requires SideOrderly(s, side) && s'.orders == s.orders - {id} && s'.Side(side) == s.Side(side)
    requires !Belongs(s.orders, side, price, id) || price !in s.Side(side)
    requires id in s.orders && s.orders[id].price == price
    ensures SideOrderly(s', side)
  {
    hide LevelExact;
    forall p | p in s'.Side(side) ensures LevelExact(s'.orders, side, p, s'.Side(side)[p].orderIds) {
      assert !Belongs(s.orders, side, p, id);
      OtherPriceKept(s.orders, id, side, p, s.Side(side)[p].orderIds);
    }
    forall x | x in s'.orders && s'.orders[x].isBid == side ensures Listed(s', side, x) {
      assert Listed(s, side, x);
    }
    forall p, x, y | Stray(s', side, p, x) && Stray(s', side, p, y) ensures x == y {
      assert Stray(s, side, p, x) && Stray(s, side, p, y);
    }
  }

  lemma CloseStray(s: Shadow, id: nat, so: ShadowOrder)
    requires SideOrderly(s, so.isBid) && Belongs(s.orders, so.isBid, so.price, id) && so.price !in s.Side(so.isBid)
    ensures SideOrderly(Close(s, id, so), so.isBid) && KeepsOrder(s, so)
  {
    hide Close, LevelExact;
    CloseLevels(s, id, so);
    OrderlyWithout(s, Close(s, id, so), id, so.isBid, so.price);
  }

  lemma CloseKeepsOrderly(s: Shadow, id: nat, so: ShadowOrder, k: nat)
    requires SideOrderly(s, so.isBid) && Belongs(s.orders, so.isBid, so.price, id) && Keeps(s, so)
    requires so.price in s.Side(so.isBid)
    requires
      var ids := s.Side(so.isBid)[so.price].orderIds;
      k < |ids| && ids[k] == id && RemoveFirst(ids, id) == Without(ids, k)
    ensures SideOrderly(Close(s, id, so), so.isBid) && KeepsOrder(s, so)
  {
    hide Close, RemoveFirst, RemoveFromLevel, LevelExact, Without, Wrap64;
    var side := so.isBid;
    var s' := Close(s, id, so);
    var ids := s.Side(side)[so.price].orderIds;
    CloseLevels(s, id, so);
    ClosedLevel(s, id, so, k);
    if |ids| > 1 { RemoveKeepsLevel(s.orders, side, so.price, ids, id, k); }
    forall p | p in s'.Side(side) ensures LevelExact(s'.orders, side, p, s'.Side(side)[p].orderIds) {
      if p != so.price {
        OtherPriceKept(s.orders, id, side, p, s.Side(side)[p].orderIds);
      }
    }
    forall x | x in s'.orders && s'.orders[x].isBid == side ensures Listed(s', side, x) {
      assert Listed(s, side, x);
      if s.orders[x].price == so.price { StaysQueued(ids, k, x); }
    }
    forall p, x, y | Stray(s', side, p, x) && Stray(s', side, p, y) ensures x == y {
      if p != so.price {
        assert Stray(s, side, p, x) && Stray(s, side, p, y);
      } else {
        assert Listed(s, side, x);
        StaysQueued(ids, k, x);
      }
    }
  }

  /** The level goes although orders rest there: a single one is still judged rightly,
      of two the younger one overtakes. */
  lemma CloseDropsLevel(s: Shadow, id: nat, so: ShadowOrder, k: nat)
    requires SideOrderly(s, so.isBid) && SideOrderly(Close(s, id, so), !so.isBid) && OpenOrders(Close(s, id, so))
    requires Belongs(s.orders, so.isBid, so.price, id) && !Keeps(s, so) && so.price in s.Side(so.isBid)
    requires
      var ids := s.Side(so.isBid)[so.price].orderIds;
      k < |ids| && ids[k] == id && RemoveFirst(ids, id) == Without(ids, k)
    ensures if KeepsOrder(s, so) then Orderly(Close(s, id, so)) else !JudgesFills(Close(s, id, so))
  {
    hide Close, RemoveFirst, RemoveFromLevel, LevelExact, Without, Wrap64, SideOrderly, JudgesFills;
    var s' := Close(s, id, so);
    var ids := s.Side(so.isBid)[so.price].orderIds;
    CloseLevels(s, id, so);
    ClosedLevel(s, id, so, k);
    if |ids| > 2 {
      var j, i := if k == 0 then 1 else 0, if k <= 1 then 2 else 1;
      TwoQueued(s, so.isBid, so.price, j, i);
      QueuedOnce(s, so.isBid, so.price, j, k);
      QueuedOnce(s, so.isBid, so.price, i, k);
      assert Overtakes(s', ids[j], ids[i]);
      OvertakenMisjudged(s', ids[j], ids[i]);
    } else {
      DroppedPairOrderly(s, id, so, k, s');
    }
  }

  lemma QueuedOnce(s: Shadow, side: bool, p: int, i: nat, k: nat)
    requires SideOrderly(s, side) && p in s.Side(side) && i != k
    requires i < |s.Side(side)[p].orderIds| && k < |s.Side(side)[p].orderIds|
    ensures s.Side(side)[p].orderIds[i] != s.Side(side)[p].orderIds[k]
  {
    assert LevelExact(s.orders, side, p, s.Side(side)[p].orderIds);
  }

  lemma TwoQueued(s: Shadow, side: bool, p: int, j: nat, i: nat)
    requires SideOrderly(s, side) && p in s.Side(side) && j < i < |s.Side(side)[p].orderIds|
    ensures
      var ids := s.Side(side)[p].orderIds;
      && Belongs(s.orders, side, p, ids[j]) && Belongs(s.orders, side, p, ids[i])
      && s.orders[ids[j]].sequence < s.orders[ids[i]].sequence
  {
    var ids := s.Side(side)[p].orderIds;
    assert LevelExact(s.orders, side, p, ids);
    assert ids[j] in ids && ids[i] in ids;
  }

  lemma DroppedPairOrderly(s: Shadow, id: nat, so: ShadowOrder, k: nat, s': Shadow)
    requires SideOrderly(s, so.isBid) && so.price in s.Side(so.isBid)
    requires s'.orders == s.orders - {id} && s'.Side(so.isBid) == s.Side(so.isBid) - {so.price}
    requires
      var ids := s.Side(so.isBid)[so.price].orderIds;
      k < |ids| <= 2 && ids[k] == id
    requires Belongs(s.orders, so.isBid, so.price, id)
    ensures SideOrderly(s', so.isBid)
  {
    hide LevelExact;
    var side := so.isBid;
    var ids := s.Side(side)[so.price].orderIds;
    forall p | p in s'.Side(side) ensures LevelExact(s'.orders, side, p, s'.Side(side)[p].orderIds) {
      OtherPriceKept(s.orders, id, side, p, s.Side(side)[p].orderIds);
    }
    forall x | x in s'.orders && s'.orders[x].isBid == side ensures Listed(s', side, x) {
      assert Listed(s, side, x);
    }
    forall p, x, y | Stray(s', side, p, x) && Stray(s', side, p, y) ensures x == y {
      if p != so.price {
        assert Stray(s, side, p, x) && Stray(s, side, p, y);
      } else {
        assert Listed(s, side, x) && Listed(s, side, y);
        assert x in ids && y in ids && x != ids[k] && y != ids[k];
      }
    }
  }

  // ---------------------------------------------------------- other changes

  lemma ShrinkKeepsOrderly(s: Shadow, id: nat, remaining: int)
    requires Orderly(s) && id in s.orders
    ensures Orderly(s.(orders := s.orders[id := s.orders[id].(remaining := remaining)]))
  {
    hide LevelExact, SideOrderly;
    ShrinkSideOrderly(s, id, remaining, true);
    ShrinkSideOrderly(s, id, remaining, false);
  }

  lemma ShrinkSideOrderly(s: Shadow, id: nat, remaining: int, side: bool)
    requires SideOrderly(s, side) && id in s.orders
    ensures SideOrderly(s.(orders := s.orders[id := s.orders[id].(remaining := remaining)]), side)
  {
    hide LevelExact;
    var s' := s.(orders := s.orders[id := s.orders[id].(remaining := remaining)]);
    forall p | p in s'.Side(side) ensures LevelExact(s'.orders, side, p, s'.Side(side)[p].orderIds) {
      LevelMembers(s.orders, side, p, s.Side(side)[p].orderIds);
      UntouchedLevel(s.orders, s'.orders, side, p, s.Side(side)[p].orderIds);
    }
    forall x | x in s'.orders && s'.orders[x].isBid == side ensures Listed(s', side, x) {
      assert Listed(s, side, x);
    }
    forall p, x, y | Stray(s', side, p, x) && Stray(s', side, p, y) ensures x == y {
      assert Stray(s, side, p, x) && Stray(s, side, p, y);
    }
  }

  lemma SameQueuesOrderly(s: Shadow, s': Shadow)
    requires SameQueues(s, s') && Orderly(s)
    ensures Orderly(s')
  {
    hide LevelExact, SideOrderly;
    SameSideOrderly(s, s', true);
    SameSideOrderly(s, s', false);
  }

  lemma SameSideOrderly(s: Shadow, s': Shadow, side: bool)
    requires s'.orders == s.orders && s'.Side(side) == s.Side(side) && SideOrderly(s, side)
    ensures SideOrderly(s', side)
  {
    hide LevelExact;
    forall x | x in s'.orders && s'.orders[x].isBid == side ensures Listed(s', side, x) {
      assert Listed(s, side, x);
    }
    forall p, x, y | Stray(s', side, p, x) && Stray(s', side, p, y) ensures x == y {
      assert Stray(s, side, p, x) && Stray(s, side, p, y);
    }
  }

  lemma SameQueuesJudge(s: Shadow, s': Shadow)
    requires SameQueues(s, s') && JudgesFills(s')
    ensures JudgesFills(s)
  {
    forall f ensures Judged(s, f) {
      assert Judged(s', f);
      SameVerdict(s, s', f);
    }
  }

  lemma SameVerdict(s: Shadow, s': Shadow, f: MatchedFill)
    requires SameQueues(s, s')
    ensures Judged(s, f) <==> Judged(s', f)
  {
  }

  // ------------------------------------------------------------ every event

  /** The guard of the event: an add opens no level beside an order that lost its
      own, and a close drops no level with two others. */
  ghost predicate KeepsAges(s: Shadow, e: Event) {
    match e
    case Placed(_, isBid, price, _, _) => OpensNoStray(s, isBid, price)
    case Filled(f) =>
      f.makerId in s.orders && FilledOrder(s, f, f.makerId).remaining <= 0 ==> KeepsOrder(s, FilledOrder(s, f, f.makerId))
    case Cancelled(id, _) => id in s.orders ==> KeepsOrder(s, s.orders[id])
  }

  lemma ApplyOrderlyIff(s: Shadow, f: MatchedFill, id: nat)
    requires Orderly(s) && id in s.orders
    ensures
      if FilledOrder(s, f, id).remaining <= 0 ==> KeepsOrder(s, FilledOrder(s, f, id))
      then Orderly(ApplyFill(s, f, id)) else !JudgesFills(ApplyFill(s, f, id))
  {
    hide Orderly, Close, KeepsOrder, JudgesFills;
    if FilledOrder(s, f, id).remaining <= 0 {
      CloseOrderlyIff(s, id, FilledOrder(s, f, id));
    } else {
      ShrinkKeepsOrderly(s, id, FilledOrder(s, f, id).remaining);
    }
  }

  lemma FillOrderlyIff(s: Shadow, f: MatchedFill, tick: int)
    requires Orderly(s)
    ensures
      var s' := OnFill(s, f, f.makerId, tick);
      if KeepsAges(s, Filled(f)) then Orderly(s') else !JudgesFills(s')
  {
    hide Orderly, Close, OnFill, Wrap64, JudgesFills;
    var id := f.makerId;
    var t := FillSteps(s, f, id, tick);
    SameQueuesOrderly(s, t);
    if id in s.orders { ApplyOrderlyIff(t, f, id); }
    if KeepsAges(s, Filled(f)) {
      SameQueuesOrderly(ApplyFill(t, f, id), OnFill(s, f, id, tick));
    } else if JudgesFills(OnFill(s, f, id, tick)) {
      SameQueuesJudge(ApplyFill(t, f, id), OnFill(s, f, id, tick));
    }
  }

  lemma CancelOrderlyIff(s: Shadow, id: nat, ok: bool, tick: int)
    requires Orderly(s)
    ensures
      var s' := OnCancel(s, id, ok, tick);
      if KeepsAges(s, Cancelled(id, ok)) then Orderly(s') else !JudgesFills(s')
  {
    hide LevelExact, SideOrderly, Close, Wrap64, JudgesFills;
    if id !in s.orders {
      SameQueuesOrderly(s, OnCancel(s, id, ok, tick));
    } else {
      CloseOrderlyIff(s, id, s.orders[id].(isCancelled := true));
    }
  }

  /** While the levels are orderly, an event under the guard leaves them so, and any
      other makes some next fill misjudged. */
  lemma EventOrderlyIff(s: Shadow, e: Event, tick: int)
    requires Orderly(s) && Fresh(s, e)
    ensures if KeepsAges(s, e) then Orderly(Replay(s, e, tick)) else !JudgesFills(Replay(s, e, tick))
    ensures KeepsAges(s, e) <==> JudgesFills(Replay(s, e, tick))
  {
    hide Orderly, OnLimitAdd, OnFill, OnCancel, KeepsOrder, JudgesFills, OpensNoStray;
    match e {
      case Placed(id, isBid, price, volume, _) => AddOrderlyIff(s, isBid, price, volume, id, tick);
      case Filled(f) => FillOrderlyIff(s, f, tick);
      case Cancelled(id, ok) => CancelOrderlyIff(s, id, ok, tick);
    }
    if KeepsAges(s, e) { OrderlyJudges(Replay(s, e, tick)); }
  }

  /** The guard of the exact levels is the stricter one. */
  lemma KeepsLevelsKeepsAges(s: Shadow, e: Event)
    requires Exact(s) && KeepsLevels(s, e)
    ensures KeepsAges(s, e)
  {
    hide Wrap64, LevelExact;
    if e.Placed? { LevelsAreNonEmptyQueues(s, e.isBid, e.price); }
  }

  // ------------------------------------------------------------- any stream

  /** Every event meets the guard. */
  ghost predicate AgesKept(es: seq<Event>, ticks: seq<int>) {
    |ticks| == |es| && forall k :: 0 <= k < |es| ==> KeepsAges(At(es, ticks, k), es[k])
  }

  lemma StartOrderly()
    ensures Orderly(EMPTY_SHADOW)
  {
  }

  lemma {:induction false} OrderlyUntil(es: seq<Event>, ticks: seq<int>, n: nat)
    requires FreshStream(es, ticks) && n <= |es|
    requires forall k :: 0 <= k < n ==> KeepsAges(At(es, ticks, k), es[k])
    ensures Orderly(At(es, ticks, n))
  {
    hide At, Orderly, Exact, KeepsAges, Fresh, Replay, JudgesFills;
    AtStart(es, ticks);
    StartOrderly();
    if n > 0 {
      OrderlyUntil(es, ticks, n - 1);
      EventOrderlyIff(At(es, ticks, n - 1), es[n - 1], ticks[n - 1]);
      AtNext(es, ticks, n - 1);
    }
  }

  /** Over every stream with fresh ids, right or wrong and of any volumes: every fill
      that could come next, at every moment, passes the two checks exactly when it is
      right, if and only if no close drops a level with two others and no add opens a
      level beside an order that lost its own. */
  lemma StreamJudgesIff(es: seq<Event>, ticks: seq<int>)
    requires FreshStream(es, ticks)
    ensures (forall k :: 0 <= k <= |es| ==> JudgesFills(At(es, ticks, k))) <==> AgesKept(es, ticks)
  {
    hide At, Orderly, KeepsAges, Fresh, Replay, JudgesFills;
    if AgesKept(es, ticks) {
      forall k | 0 <= k <= |es| ensures JudgesFills(At(es, ticks, k)) {
        OrderlyUntil(es, ticks, k);
        OrderlyJudges(At(es, ticks, k));
      }
    }
    if forall k :: 0 <= k <= |es| ==> JudgesFills(At(es, ticks, k)) {
      JudgedUntil(es, ticks, |es|);
    }
  }

  lemma {:induction false} JudgedUntil(es: seq<Event>, ticks: seq<int>, n: nat)
    requires FreshStream(es, ticks) && n <= |es|
    requires forall k :: 0 <= k <= |es| ==> JudgesFills(At(es, ticks, k))
    ensures forall k :: 0 <= k < n ==> KeepsAges(At(es, ticks, k), es[k])
  {
    hide At, Orderly, KeepsAges, Fresh, Replay, JudgesFills;
    if n > 0 {
      JudgedUntil(es, ticks, n - 1);
      OrderlyUntil(es, ticks, n - 1);
      AtNext(es, ticks, n - 1);
      EventOrderlyIff(At(es, ticks, n - 1), es[n - 1], ticks[n - 1]);
      assert JudgesFills(At(es, ticks, n));
    }
  }

  /** A stream that loses no level meets the guard throughout. */
  lemma IntactKeepsAges(es: seq<Event>, ticks: seq<int>)
    requires FreshStream(es, ticks) && Intact(es, ticks)
    ensures AgesKept(es, ticks)
  {
    hide At, Exact, KeepsLevels, KeepsAges, Fresh;
    forall k | 0 <= k < |es| ensures KeepsAges(At(es, ticks, k), es[k]) {
      ExactUntil(es, ticks, k);
      KeepsLevelsKeepsAges(At(es, ticks, k), es[k]);
    }
  }

  /** Two asks at one price of which the first is cancelled: the level is lost exactly
      when the other volume is not positive in 64 bits, as for 10 and -10, and still
      every fill is judged rightly throughout. */
  lemma TwoAsksStayJudged(price: int, maker: int, v1: int, v2: int, ticks: seq<int>)
    requires |ticks| == 3
    ensures
      var es := [Placed(1, false, price, v1, maker), Placed(2, false, price, v2, maker), Cancelled(1, true)];
      && FreshStream(es, ticks) && (Intact(es, ticks) <==> Wrap64(v2) > 0)
      && forall k :: 0 <= k <= |es| ==> JudgesFills(At(es, ticks, k))
  {
    hide At, JudgesFills, Replay, Wrap64;
    var es := [Placed(1, false, price, v1, maker), Placed(2, false, price, v2, maker), Cancelled(1, true)];
    AtStart(es, ticks);
    AtNext(es, ticks, 0);
    AtNext(es, ticks, 1);
    TwoAsksQueued(At(es, ticks, 1), At(es, ticks, 2), es, price, maker, v1, v2, ticks);
    assert AgesKept(es, ticks);
    StreamJudgesIff(es, ticks);
  }

  lemma TwoAsksQueued(s1: Shadow, s2: Shadow, es: seq<Event>, price: int, maker: int, v1: int, v2: int, ticks: seq<int>)
    requires |ticks| == 3
    requires es == [Placed(1, false, price, v1, maker), Placed(2, false, price, v2, maker), Cancelled(1, true)]
    requires s1 == Replay(EMPTY_SHADOW, es[0], ticks[0]) && s2 == Replay(s1, es[1], ticks[1])
    ensures s1.orders.Keys == {1} && s2.orders.Keys == {1, 2}
    ensures price in s1.Side(false) && s2.orders[1].price == price && !s2.orders[1].isBid
    ensures price in s2.Side(false) && s2.Side(false)[price].orderIds == [1, 2]
    ensures Wrap64(s2.Side(false)[price].totalVolume - s2.orders[1].remaining) == Wrap64(v2)
  {
    hide Wrap64;
    WrapSum(0, v1);
    WrapSum(v1, v2);
    WrapSum(v1 + v2, -v1);
    assert v1 + v2 + -v1 == v2 && 0 + v1 == v1;
  }

  // ---------------------------------------------------------------- the log

  predicate Mentions(vs: seq<Violation>, kind: ViolationType) {
    exists i :: 0 <= i < |vs| && vs[i].kind == kind
  }

  /** What a log has grown by. */
  function Added(before: seq<Violation>, after: seq<Violation>): seq<Violation> {
    if |before| <= |after| then after[|before|..] else []
  }

  /** After any such stream, a further fill adds a time-priority or double-fill
      violation to the log exactly when it is wrong (an older order of its price is
      open, or less is left) and the log has room behind a price report. */
  lemma WrongFillReported(es: seq<Event>, ticks: seq<int>, f: MatchedFill, tick: int)
    requires FreshStream(es, ticks) && AgesKept(es, ticks)
    ensures
      var s := ReplayAll(EMPTY_SHADOW, es, ticks);
      var added := Added(s.violations, OnFill(s, f, f.makerId, tick).violations);
      (Mentions(added, FifoPriorityBreach) || Mentions(added, DoubleFill))
      <==> (!Right(s, f) && |s.violations| + (if PriceFault(s, f) then 1 else 0) < MAX_VIOLATIONS)
  {
    hide Orderly, Exact, At, KeepsAges, OnFill, ReplayAll, Right;
    var s := ReplayAll(EMPTY_SHADOW, es, ticks);
    AtStart(es, ticks);
    OrderlyUntil(es, ticks, |es|);
    FillIsLogged(s, f, f.makerId, tick);
    FillJudgedExactly(s, f);
    FaultsMentioned(s, f, f.makerId, tick);
  }

  lemma FaultsMentioned(s: Shadow, f: MatchedFill, id: nat, tick: int)
    ensures
      var added := Added(s.violations, Record(s.violations, Logged(FillFaults(s, f, id), tick, id)));
      (Mentions(added, FifoPriorityBreach) || Mentions(added, DoubleFill))
      <==> ((DoubleFault(s, f, id) || FifoFault(s, id))
            && |s.violations| + (if PriceFault(s, f) then 1 else 0) < MAX_VIOLATIONS)
  {
    hide PriceFault, DoubleFault, FifoFault;
    var ks := FillFaults(s, f, id);
    var added := Added(s.violations, Record(s.violations, Logged(ks, tick, id)));
    var vs := Logged(ks, tick, id);
    assert |added| <= |vs| && added == vs[..|added|];
    assert forall i :: 0 <= i < |added| ==> added[i].kind == ks[i];
    var first := if PriceFault(s, f) then 1 else 0;
    if (DoubleFault(s, f, id) || FifoFault(s, id)) && |s.violations| + first < MAX_VIOLATIONS {
      assert added[first].kind == ks[first];
    }
  }
}

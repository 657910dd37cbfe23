/** The reference book together with the prices that have a level: all that decides
    which adds the engine accepts (game-master/persistent_lob.hpp). A level stays
    while an order rests at its price; an add that finds the pool exhausted leaves an
    empty one, which the next match that passes it closes. */
module PriceGrids {
  import opened MarketTypes
  import opened PriceTimeBook
  import opened OrderTable
  import opened OrderPools
  import opened LobSides
  import opened BookRep

  /** The prices of each side that have a level. */
  datatype Grid = Grid(bids: set<int>, asks: set<int>)
  {
    function On(isBid: bool): set<int> {
      if isBid then bids else asks
    }

    function With(isBid: bool, ps: set<int>): Grid {
      if isBid then this.(bids := ps) else this.(asks := ps)
    }
  }

  datatype EngineState = EngineState(book: Book, grid: Grid)

  const EMPTY_ENGINE := EngineState(EMPTY_BOOK, Grid({}, {}))

  /** The pool has a node left. */
  predicate HasRoom(b: Book) {
    |b.orders| < ORDER_POOL_SIZE
  }

  predicate FindsLevel(g: Grid, isBid: bool, price: int) {
    price in g.On(isBid) || |g.On(isBid)| < MAX_PRICE_LEVELS
  }

  predicate Accepts(e: EngineState, isBid: bool, price: int) {
    HasRoom(e.book) && FindsLevel(e.grid, isBid, price)
  }

  function Opening(g: Grid, isBid: bool, price: int): Grid {
    if FindsLevel(g, isBid, price) then g.With(isBid, g.On(isBid) + {price}) else g
  }

  function AddTo(e: EngineState, isBid: bool, price: int, volume: int, participant: int): EngineState {
    EngineState(if Accepts(e, isBid, price) then Accept(e.book, isBid, price, volume, participant) else e.book,
                Opening(e.grid, isBid, price))
  }

  ghost predicate Offered(os: Orders, isBid: bool, price: int) {
    exists id :: AtPrice(os, isBid, price, id)
  }

  /** The level goes with its last order. */
  ghost function Vacated(g: Grid, os: Orders, isBid: bool, price: int): Grid {
    if Offered(os, isBid, price) then g else g.With(isBid, g.On(isBid) - {price})
  }

  ghost function RemoveFrom(e: EngineState, id: nat): EngineState {
    var b := Withdraw(e.book, id);
    EngineState(b, if id in e.book.orders then Vacated(e.grid, b.orders, e.book.orders[id].isBid, e.book.orders[id].price)
                   else e.grid)
  }

  /** What is left of a side's levels by a match whose last fill was at `last`. */
  ghost function Passed(ps: set<int>, os: Orders, isBid: bool, last: int): set<int> {
    set p | p in ps && (Better(isBid, last, p) || (p == last && Offered(os, isBid, p)))
  }

  ghost function TradedPrices(ps: set<int>, os: Orders, isBuy: bool, volume: int, taker: int): set<int> {
    var r := Match(os, isBuy, volume, taker);
    if volume <= 0 then ps
    else if r.left > 0 || r.fills == [] then {}
    else Passed(ps, r.orders, !isBuy, r.fills[|r.fills| - 1].price)
  }

  ghost function TradeOn(e: EngineState, isBuy: bool, volume: int, taker: int): EngineState {
    EngineState(Trade(e.book, isBuy, volume, taker),
                e.grid.With(!isBuy, TradedPrices(e.grid.On(!isBuy), e.book.orders, isBuy, volume, taker)))
  }

  // ------------------------------------------------------------ one match

  /** Every order's price has a level. */
  ghost predicate Covers(ps: set<int>, os: Orders, isBid: bool) {
    forall id :: OnSide(os, isBid, id) ==> os[id].price in ps
  }

  lemma LastFillOffered(os: Orders, isBuy: bool, volume: int, taker: int)
    requires Match(os, isBuy, volume, taker).fills != []
    ensures
      var fills := Match(os, isBuy, volume, taker).fills;
      Offered(os, !isBuy, fills[|fills| - 1].price)
  {
    hide Match;
    var fills := Match(os, isBuy, volume, taker).fills;
    var k := |fills| - 1;
    MatchFollowsPriority(os, isBuy, volume, taker, k);
    assert OnSide(os - Makers(fills[..k]), !isBuy, fills[k].makerId);
    assert AtPrice(os, !isBuy, fills[k].price, fills[k].makerId);
  }

  lemma {:induction false} MatchOffersLess(os: Orders, isBuy: bool, volume: int, taker: int, isBid: bool, p: int)
    requires Offered(Match(os, isBuy, volume, taker).orders, isBid, p)
    ensures Offered(os, isBid, p)
    decreases |os|
  {
    hide Offered;
    if volume > 0 && HasSide(os, !isBuy) {
      var id := Top(os, !isBuy);
      if Min(volume, os[id].volume) == os[id].volume {
        MatchOffersLess(os - {id}, isBuy, volume - os[id].volume, taker, isBid, p);
      }
      OfferedBefore(os, id, Min(volume, os[id].volume), isBid, p);
    }
  }

  lemma OfferedBefore(os: Orders, id: nat, v: int, isBid: bool, p: int)
    requires id in os
    ensures Offered(Reduce(os, id, v), isBid, p) ==> Offered(os, isBid, p)
  {
    if Offered(Reduce(os, id, v), isBid, p) {
      var j :| AtPrice(Reduce(os, id, v), isBid, p, j);
      assert AtPrice(os, isBid, p, j);
    }
  }

  /** Closing an empty level at the top does not change what a match leaves. */
  lemma EmptyLevelPassed(ps: set<int>, os: Orders, isBuy: bool, volume: int, taker: int, top: int)
    requires volume > 0 && IsBestKey(ps, !isBuy, top) && Covers(ps, os, !isBuy) && !Offered(os, !isBuy, top)
    ensures TradedPrices(ps - {top}, os, isBuy, volume, taker) == TradedPrices(ps, os, isBuy, volume, taker)
  {
    hide Match, Offered;
    var r := Match(os, isBuy, volume, taker);
    if r.fills != [] {
      LastFillOffered(os, isBuy, volume, taker);
      var last := r.fills[|r.fills| - 1].price;
      OfferedCovered(ps, os, !isBuy, last);
      if last == top { assert false; }
      assert Better(!isBuy, top, last) && !Better(!isBuy, last, top);
    }
  }

  lemma OfferedCovered(ps: set<int>, os: Orders, isBid: bool, p: int)
    requires Covers(ps, os, isBid) && Offered(os, isBid, p)
    ensures p in ps
  {
    var id :| AtPrice(os, isBid, p, id);
    assert OnSide(os, isBid, id);
  }

  /** Nor does an execution against the top order, once its level is closed if that
      was the last one there. */
  lemma FillPassed(ps: set<int>, os: Orders, isBuy: bool, volume: int, taker: int, id: nat)
    requires volume > 0 && IsTop(os, !isBuy, id) && Covers(ps, os, !isBuy) && IsBestKey(ps, !isBuy, os[id].price)
    ensures
      var v := Min(volume, os[id].volume);
      var os' := Reduce(os, id, v);
      var ps' := if Offered(os', !isBuy, os[id].price) then ps else ps - {os[id].price};
      TradedPrices(ps', os', isBuy, volume - v, taker) == TradedPrices(ps, os, isBuy, volume, taker)
  {
    hide Match, Offered, Covers;
    var v := Min(volume, os[id].volume);
    var os' := Reduce(os, id, v);
    MatchTurn(os, isBuy, volume, taker, id);
    if volume - v <= 0 {
      MatchEnds(os', isBuy, volume - v, taker);
    } else {
      LaterFills(ps, os, isBuy, volume, taker, id);
    }
  }

  lemma LaterFills(ps: set<int>, os: Orders, isBuy: bool, volume: int, taker: int, id: nat)
    requires volume > 0 && IsTop(os, !isBuy, id) && Covers(ps, os, !isBuy) && IsBestKey(ps, !isBuy, os[id].price)
    requires volume > Min(volume, os[id].volume)
    ensures
      var v := Min(volume, os[id].volume);
      var os' := Reduce(os, id, v);
      var ps' := if Offered(os', !isBuy, os[id].price) then ps else ps - {os[id].price};
      TradedPrices(ps', os', isBuy, volume - v, taker) == TradedPrices(ps, os, isBuy, volume, taker)
  {
    hide Match, Offered, Covers;
    var v := Min(volume, os[id].volume);
    var os', top := Reduce(os, id, v), os[id].price;
    var r := Match(os', isBuy, volume - v, taker);
    MatchTurn(os, isBuy, volume, taker, id);
    if r.fills == [] {
      NothingFilled(os', isBuy, volume - v, taker);
    } else if !Offered(os', !isBuy, top) {
      var last := r.fills[|r.fills| - 1].price;
      LastFillOffered(os', isBuy, volume - v, taker);
      OfferedBefore(os, id, v, !isBuy, last);
      OfferedCovered(ps, os, !isBuy, last);
      if Offered(r.orders, !isBuy, top) { MatchOffersLess(os', isBuy, volume - v, taker, !isBuy, top); }
      assert !Better(!isBuy, last, top);
    }
  }

  lemma NothingFilled(os: Orders, isBuy: bool, volume: int, taker: int)
    requires Match(os, isBuy, volume, taker).fills == []
    ensures Match(os, isBuy, volume, taker).left == volume
  {
  }

  lemma NothingLeft(os: Orders, isBuy: bool, volume: int, taker: int)
    requires volume > 0 ==> !HasSide(os, !isBuy)
    ensures forall ps :: TradedPrices(ps, os, isBuy, volume, taker) == if volume > 0 then {} else ps
  {
    MatchEnds(os, isBuy, volume, taker);
  }

  // ---------------------------------------------------------- empty levels

  ghost predicate Lists(ps: set<int>, os: Orders, isBid: bool) {
    forall p :: p in ps <==> Offered(os, isBid, p)
  }

  /** A price has a level exactly when an order rests there. */
  ghost predicate NoEmptyLevels(e: EngineState) {
    Lists(e.grid.bids, e.book.orders, true) && Lists(e.grid.asks, e.book.orders, false)
  }

  /** The add opens a level and then finds the pool exhausted. */
  predicate LeavesEmptyLevel(e: EngineState, isBid: bool, price: int) {
    !HasRoom(e.book) && price !in e.grid.On(isBid) && |e.grid.On(isBid)| < MAX_PRICE_LEVELS
  }

  /** That is the only way to get an empty level. */
  lemma AddListsIff(e: EngineState, isBid: bool, price: int, volume: int, participant: int)
    requires IdsIssued(e.book) && NoEmptyLevels(e)
    ensures NoEmptyLevels(AddTo(e, isBid, price, volume, participant)) <==> !LeavesEmptyLevel(e, isBid, price)
  {
    hide HasRoom, Offered;
    var e' := AddTo(e, isBid, price, volume, participant);
    if Accepts(e, isBid, price) {
      forall p, side
        ensures Offered(e'.book.orders, side, p) <==> Offered(e.book.orders, side, p) || (side == isBid && p == price)
      {
        AcceptedOffers(e.book, isBid, price, volume, participant, side, p);
      }
    } else if LeavesEmptyLevel(e, isBid, price) {
      assert price in e'.grid.On(isBid) && !Offered(e'.book.orders, isBid, price);
    } else {
      assert e'.grid == e.grid || price in e.grid.On(isBid);
      assert e'.grid.On(isBid) == e.grid.On(isBid) && e'.grid.On(!isBid) == e.grid.On(!isBid);
    }
  }

  lemma AcceptedOffers(b: Book, isBid: bool, price: int, volume: int, participant: int, side: bool, p: int)
    requires IdsIssued(b)
    ensures
      Offered(Accept(b, isBid, price, volume, participant).orders, side, p)
      <==> Offered(b.orders, side, p) || (side == isBid && p == price)
  {
    var os' := Accept(b, isBid, price, volume, participant).orders;
    if Offered(b.orders, side, p) {
      var id :| AtPrice(b.orders, side, p, id);
      assert AtPrice(os', side, p, id);
    }
    if side == isBid && p == price { assert AtPrice(os', side, p, b.nextId); }
    if Offered(os', side, p) {
      var id :| AtPrice(os', side, p, id);
      assert id == b.nextId || AtPrice(b.orders, side, p, id);
    }
  }

  /** Taking volume off an order, or the order out, leaves every other price on offer. */
  lemma ReducedOffers(os: Orders, os': Orders, id: nat, side: bool, p: int)
    requires id in os
    requires os' == os - {id} || (id in os' && os' == os[id := os'[id]] && SameTerms(os'[id], os[id]))
    ensures Offered(os', side, p) ==> Offered(os, side, p)
    ensures Offered(os, side, p) && !(os[id].isBid == side && os[id].price == p) ==> Offered(os', side, p)
  {
    if Offered(os', side, p) {
      var j :| AtPrice(os', side, p, j);
      assert AtPrice(os, side, p, j);
    }
    if Offered(os, side, p) && !(os[id].isBid == side && os[id].price == p) {
      var j :| AtPrice(os, side, p, j);
      assert AtPrice(os', side, p, j);
    }
  }

  lemma VacatedLists(ps: set<int>, os: Orders, os': Orders, id: nat, side: bool)
    requires id in os && Lists(ps, os, side)
    requires os' == os - {id} || (id in os' && os' == os[id := os'[id]] && SameTerms(os'[id], os[id]))
    ensures
      var p := os[id].price;
      Lists(if os[id].isBid != side || Offered(os', side, p) then ps else ps - {p}, os', side)
  {
    hide Offered;
    forall p ensures (Offered(os', side, p) ==> Offered(os, side, p))
      && (Offered(os, side, p) && !(os[id].isBid == side && os[id].price == p) ==> Offered(os', side, p))
      && (os[id].isBid == side && os[id].price == p ==> Offered(os, side, p)) {
      ReducedOffers(os, os', id, side, p);
      if os[id].isBid == side && os[id].price == p { OwnPriceOffered(os, id); }
    }
  }

  lemma OwnPriceOffered(os: Orders, id: nat)
    requires id in os
    ensures Offered(os, os[id].isBid, os[id].price)
  {
    assert AtPrice(os, os[id].isBid, os[id].price, id);
  }

  lemma RemoveLists(e: EngineState, id: nat)
    requires NoEmptyLevels(e)
    ensures NoEmptyLevels(RemoveFrom(e, id))
  {
    hide Lists, Offered;
    var os := e.book.orders;
    if id in os {
      VacatedLists(e.grid.bids, os, os - {id}, id, true);
      VacatedLists(e.grid.asks, os, os - {id}, id, false);
    } else {
      assert os - {id} == os;
    }
  }

  lemma {:induction false} MatchLists(ps: set<int>, os: Orders, isBuy: bool, volume: int, taker: int)
    requires Lists(ps, os, !isBuy)
    ensures Lists(TradedPrices(ps, os, isBuy, volume, taker), Match(os, isBuy, volume, taker).orders, !isBuy)
    decreases |os|
  {
    hide Match, TradedPrices, Lists, Offered;
    if volume > 0 && HasSide(os, !isBuy) {
      var id := Top(os, !isBuy);
      var v := Min(volume, os[id].volume);
      var os' := Reduce(os, id, v);
      var ps' := if Offered(os', !isBuy, os[id].price) then ps else ps - {os[id].price};
      TopListed(ps, os, !isBuy, id);
      FillPassed(ps, os, isBuy, volume, taker, id);
      MatchTurn(os, isBuy, volume, taker, id);
      VacatedLists(ps, os, os', id, !isBuy);
      if v == os[id].volume {
        MatchLists(ps', os', isBuy, volume - v, taker);
      } else {
        NothingLeft(os', isBuy, volume - v, taker);
        MatchEnds(os', isBuy, volume - v, taker);
      }
    } else {
      NothingLeft(os, isBuy, volume, taker);
      MatchEnds(os, isBuy, volume, taker);
      if volume > 0 { NothingOffered(ps, os, !isBuy); }
    }
  }

  lemma NothingOffered(ps: set<int>, os: Orders, isBid: bool)
    requires Lists(ps, os, isBid) && !HasSide(os, isBid)
    ensures Lists({}, os, isBid)
  {
    forall p ensures !Offered(os, isBid, p) {
      forall id ensures !AtPrice(os, isBid, p, id) {
        assert !OnSide(os, isBid, id);
      }
    }
  }

  lemma TopListed(ps: set<int>, os: Orders, isBid: bool, id: nat)
    requires Lists(ps, os, isBid) && IsTop(os, isBid, id)
    ensures Covers(ps, os, isBid) && IsBestKey(ps, isBid, os[id].price)
  {
    hide Offered;
    forall j | OnSide(os, isBid, j) ensures os[j].price in ps {
      OwnPriceOffered(os, j);
    }
    forall q | q in ps && q != os[id].price ensures Better(isBid, os[id].price, q) {
      var j := OfferAt(os, isBid, q);
      assert Precedes(os, isBid, id, j);
    }
  }

  lemma OfferAt(os: Orders, isBid: bool, p: int) returns (id: nat)
    requires Offered(os, isBid, p)
    ensures AtPrice(os, isBid, p, id)
  {
    id :| AtPrice(os, isBid, p, id);
  }

  lemma TradeLists(e: EngineState, isBuy: bool, volume: int, taker: int)
    requires IdsIssued(e.book) && NoEmptyLevels(e)
    ensures NoEmptyLevels(TradeOn(e, isBuy, volume, taker))
  {
    hide Match, TradedPrices, Offered;
    var os, os' := e.book.orders, Match(e.book.orders, isBuy, volume, taker).orders;
    MatchLists(e.grid.On(!isBuy), os, isBuy, volume, taker);
    MatchConserves(os, isBuy, volume, taker, e.book.nextId);
    forall p ensures Offered(os', isBuy, p) <==> Offered(os, isBuy, p) {
      SameSideOffers(os, os', isBuy, p);
    }
  }

  lemma SameSideOffers(os: Orders, os': Orders, side: bool, p: int)
    requires forall id :: OnSide(os, side, id) ==> id in os' && os'[id] == os[id]
    requires forall id :: id in os' ==> id in os && SameTerms(os'[id], os[id])
    ensures Offered(os', side, p) <==> Offered(os, side, p)
  {
    if Offered(os, side, p) {
      var id :| AtPrice(os, side, p, id);
      assert OnSide(os, side, id) && AtPrice(os', side, p, id);
    }
    if Offered(os', side, p) {
      var id :| AtPrice(os', side, p, id);
      assert AtPrice(os, side, p, id);
    }
  }

  // ------------------------------------------------------------- the arrays

  /** The prices the level arrays list. */
  ghost function GridOf(s: Store): Grid {
    Grid(PricesOf(s.bids), PricesOf(s.asks))
  }

  lemma GridSides(s: Store, isBid: bool)
    ensures GridOf(s).On(isBid) == PricesOf(s.Levels(isBid))
  {
  }

  /** A level is empty exactly when no order rests at its price. */
  lemma LevelEmptyIff(s: Store, nextId: nat, isBid: bool, li: nat)
    requires Rep(s, nextId) && li < |s.Levels(isBid)|
    ensures s.Levels(isBid)[li].count == 0 <==> !Offered(OrdersOf(s), isBid, s.Levels(isBid)[li].price)
  {
    var l := s.Levels(isBid)[li];
    var key := LevelKey(isBid, l.price);
    LevelQueue(s, isBid, li);
    hide Rep, CoreRep, OrdersOf, Linked, Wrap64, ChainVolume;
    CoreOf(s, nextId);
    ChainIsQueue(s, nextId, key);
    var ids := QueueIds(s, key);
    if l.count == 0 {
      assert ids == [];
      forall id ensures !AtPrice(OrdersOf(s), isBid, l.price, id) {
        assert id !in ids;
      }
    } else {
      assert ids[0] in ids;
      assert AtPrice(OrdersOf(s), isBid, l.price, ids[0]);
    }
  }

  lemma CoreOf(s: Store, nextId: nat)
    requires Rep(s, nextId)
    ensures CoreRep(s, nextId) && SideRep(s, true) && SideRep(s, false)
  {
  }

  lemma GridCovers(s: Store, nextId: nat, isBid: bool)
    requires Rep(s, nextId)
    ensures Covers(GridOf(s).On(isBid), OrdersOf(s), isBid)
  {
    hide Rep, PricesOf;
    forall id | OnSide(OrdersOf(s), isBid, id) ensures OrdersOf(s)[id].price in GridOf(s).On(isBid) {
      OrderHasLevel(s, nextId, isBid, id);
      PriceListed(s.Levels(isBid), OrdersOf(s)[id].price);
    }
  }

  lemma UnlinkedGrid(s: Store, isBid: bool, li: nat, k: nat, s': Store)
    requires Unlinked(s, isBid, li, k, s')
    ensures GridOf(s') == GridOf(s)
    ensures |s'.Levels(isBid)| == |s.Levels(isBid)| && s'.Levels(isBid)[li].price == s.Levels(isBid)[li].price
  {
    hide PricesOf, BypassNode, Without;
    SamePricesOf(s.Levels(isBid), s'.Levels(isBid));
  }

  lemma ReducedGrid(s: Store, isBid: bool, v: int, s': Store)
    requires Reduced(s, isBid, 0, v, s')
    ensures GridOf(s') == GridOf(s)
    ensures |s'.Levels(isBid)| == |s.Levels(isBid)| && s'.Levels(isBid)[0].price == s.Levels(isBid)[0].price
  {
    hide PricesOf;
    SamePricesOf(s.Levels(isBid), s'.Levels(isBid));
  }
}

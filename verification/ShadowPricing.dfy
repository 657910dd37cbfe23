/** When the shadow book reports the price of a fill, right or wrong, in terms of the
    open orders alone. */
module ShadowPricing {
  import opened MarketTypes
  import opened PriceTimeBook
  import opened BookRuns
  import opened ShadowSpec
  import opened ShadowProofs
  import opened ShadowQueues
  import opened ShadowJudging
  import opened ShadowAgreement

  ghost predicate NoneOpen(s: Shadow, isBid: bool) {
    forall id :: id in s.orders ==> s.orders[id].isBid != isBid
  }

  ghost predicate LowestAsk(s: Shadow, a: int) {
    HasOrderAt(s.orders, false, a) && forall id :: id in s.orders && !s.orders[id].isBid ==> a <= s.orders[id].price
  }

  ghost predicate HighestBid(s: Shadow, b: int) {
    HasOrderAt(s.orders, true, b) && forall id :: id in s.orders && s.orders[id].isBid ==> s.orders[id].price <= b
  }

  /** A buy more than one cent above the lowest open ask. The sum wraps around when
      that ask is within a cent of the largest 64-bit number, and without asks it
      always does. */
  ghost predicate Overpriced(s: Shadow, price: int) {
    || (NoneOpen(s, false) && price > INT64_MAX + ONE_CENT - TWO_TO_64)
    || (exists a :: LowestAsk(s, a) &&
          price > a + ONE_CENT - (if a > INT64_MAX - ONE_CENT then TWO_TO_64 else 0))
  }

  /** A sell more than one cent below the highest open bid. Without bids the bid counts
      as 0; so does a negative one while the quotes have not been refreshed. */
  ghost predicate Underpriced(s: Shadow, refreshed: bool, price: int) {
    || (NoneOpen(s, true) && price < -ONE_CENT)
    || (exists b :: HighestBid(s, b) && BelowBid(if b < 0 && !refreshed then 0 else b, price))
  }

  predicate BelowBid(b: int, price: int) {
    price < b - ONE_CENT + (if b < INT64_MIN + ONE_CENT then TWO_TO_64 else 0)
  }

  ghost predicate WrongPrice(s: Shadow, refreshed: bool, f: MatchedFill) {
    if f.takerIsBuy then Overpriced(s, f.price) else Underpriced(s, refreshed, f.price)
  }

  /** The event takes an order out, after which both quotes are recomputed. */
  predicate Closes(s: Shadow, e: Event) {
    match e
    case Placed(_, _, _, _, _) => false
    case Filled(f) => f.makerId in s.orders && s.orders[f.makerId].remaining - f.volume <= 0
    case Cancelled(id, _) => id in s.orders
  }

  /** Some bid has been open at the last such event, or ever since. */
  ghost predicate Refreshed(es: seq<Event>, ticks: seq<int>, n: nat)
    requires n <= |es| == |ticks|
  {
    if n == 0 then false
    else if Closes(At(es, ticks, n - 1), es[n - 1]) then !NoneOpen(At(es, ticks, n), true)
    else Refreshed(es, ticks, n - 1)
  }

  // ----------------------------------------------------------- the bid quote

  /** The bid quote is the best bid level, or 0 while that is negative and not yet
      refreshed. */
  ghost predicate BidQuote(s: Shadow, refreshed: bool) {
    if s.bidLevels.Keys == {} then s.bestBid == 0 && !refreshed
    else
      var best := BestKey(s.bidLevels.Keys, true);
      s.bestBid == if best < 0 && !refreshed then 0 else best
  }

  lemma AddKeepsBidQuote(s: Shadow, refreshed: bool, isBid: bool, price: int, volume: int, id: nat, tick: int)
    requires BidQuote(s, refreshed)
    ensures BidQuote(OnLimitAdd(s, isBid, price, volume, id, tick), refreshed)
  {
    var keys := s.bidLevels.Keys;
    var s' := OnLimitAdd(s, isBid, price, volume, id, tick);
    if isBid {
      assert s'.bidLevels.Keys == keys + {price};
      assert IsBestKey(keys + {price}, true, BestKey(keys + {price}, true));
      assert price in keys + {price};
      if keys != {} { assert IsBestKey(keys, true, BestKey(keys, true)); }
    }
  }

  lemma CloseRefreshes(s: Shadow, id: nat, so: ShadowOrder)
    ensures var s' := Close(s, id, so); BidQuote(s', s'.bidLevels.Keys != {})
  {
  }

  lemma SameBidQuote(s: Shadow, s': Shadow, refreshed: bool)
    requires BidQuote(s, refreshed) && s'.bidLevels == s.bidLevels && s'.bestBid == s.bestBid
    ensures BidQuote(s', refreshed)
  {
  }

  /** The books right before and right after a fill is applied. */
  lemma FillParts(s: Shadow, f: MatchedFill, id: nat, tick: int) returns (t: Shadow)
    ensures t.orders == s.orders && t.bidLevels == s.bidLevels && t.askLevels == s.askLevels && t.bestBid == s.bestBid
    ensures
      var u, s' := ApplyFill(t, f, id), OnFill(s, f, id, tick);
      s'.orders == u.orders && s'.bidLevels == u.bidLevels && s'.askLevels == u.askLevels && s'.bestBid == u.bestBid
  {
    hide Close, PriceFault, DoubleFault, FifoFault, Wrap64, Penalize, RemoveFromLevel, Quote, ContestantSign;
    var s1 := ReportIf(s, PriceFault(s, f), FillPriceInvalid, tick, id).(lastTrade := f.price);
    var s2 := ReportIf(s1, DoubleFault(s, f, id), DoubleFill, tick, id);
    t := ReportIf(s2, FifoFault(s, id), FifoPriorityBreach, tick, id);
  }

  lemma FillKeepsBidQuote(s: Shadow, refreshed: bool, f: MatchedFill, tick: int)
    requires BidQuote(s, refreshed)
    ensures
      var s' := OnFill(s, f, f.makerId, tick);
      BidQuote(s', if Closes(s, Filled(f)) then s'.bidLevels.Keys != {} else refreshed)
  {
    hide BidQuote, Close, OnFill;
    var id := f.makerId;
    var t := FillParts(s, f, id, tick);
    var u := ApplyFill(t, f, id);
    if Closes(s, Filled(f)) {
      CloseRefreshes(t, id, t.orders[id].(remaining := t.orders[id].remaining - f.volume));
      SameBidQuote(u, OnFill(s, f, id, tick), u.bidLevels.Keys != {});
    } else {
      SameBidQuote(s, u, refreshed);
      SameBidQuote(u, OnFill(s, f, id, tick), refreshed);
    }
  }

  lemma CancelKeepsBidQuote(s: Shadow, refreshed: bool, id: nat, ok: bool, tick: int)
    requires BidQuote(s, refreshed) && OpenOrders(s)
    ensures
      var s' := OnCancel(s, id, ok, tick);
      BidQuote(s', if id in s.orders then s'.bidLevels.Keys != {} else refreshed)
  {
    hide BidQuote, Close;
    if id in s.orders {
      CloseRefreshes(s, id, s.orders[id].(isCancelled := true));
    } else {
      SameBidQuote(s, OnCancel(s, id, ok, tick), refreshed);
    }
  }

  lemma EventKeepsBidQuote(s: Shadow, refreshed: bool, e: Event, tick: int)
    requires BidQuote(s, refreshed) && OpenOrders(s)
    ensures
      var s' := Replay(s, e, tick);
      BidQuote(s', if Closes(s, e) then s'.bidLevels.Keys != {} else refreshed)
  {
    hide BidQuote, OnLimitAdd, OnFill, OnCancel;
    match e {
      case Placed(id, isBid, price, volume, _) => AddKeepsBidQuote(s, refreshed, isBid, price, volume, id, tick);
      case Filled(f) => FillKeepsBidQuote(s, refreshed, f, tick);
      case Cancelled(id, ok) => CancelKeepsBidQuote(s, refreshed, id, ok, tick);
    }
  }

  lemma {:induction false} BidQuoteUntil(es: seq<Event>, ticks: seq<int>, n: nat)
    requires FreshStream(es, ticks) && Intact(es, ticks) && n <= |es|
    ensures Exact(At(es, ticks, n)) && BidQuote(At(es, ticks, n), Refreshed(es, ticks, n))
  {
    hide At, Exact, KeepsLevels, Fresh, Replay, BidQuote, Closes, NoneOpen;
    ExactUntil(es, ticks, n);
    AtStart(es, ticks);
    if n == 0 {
      StartQuoted();
    } else {
      BidQuoteUntil(es, ticks, n - 1);
      AtNext(es, ticks, n - 1);
      ExactParts(At(es, ticks, n - 1));
      EventKeepsBidQuote(At(es, ticks, n - 1), Refreshed(es, ticks, n - 1), es[n - 1], ticks[n - 1]);
      LevelsIfOpen(At(es, ticks, n), true);
    }
  }

  lemma StartQuoted()
    ensures BidQuote(EMPTY_SHADOW, false)
  {
  }

  lemma ExactParts(s: Shadow)
    requires Exact(s)
    ensures OpenOrders(s)
  {
  }

  // ------------------------------------------------------ quotes and orders

  lemma LevelsIfOpen(s: Shadow, isBid: bool)
    requires Exact(s)
    ensures s.Side(isBid).Keys == {} <==> NoneOpen(s, isBid)
  {
    hide Exact;
    if s.Side(isBid).Keys != {} {
      var p := BestKey(s.Side(isBid).Keys, isBid);
      LevelsAreNonEmptyQueues(s, isBid, p);
      var id :| Belongs(s.orders, isBid, p, id);
      assert id in s.orders;
    } else {
      forall id | id in s.orders ensures s.orders[id].isBid != isBid {
        LevelsAreNonEmptyQueues(s, isBid, s.orders[id].price);
        assert Belongs(s.orders, s.orders[id].isBid, s.orders[id].price, id);
      }
    }
  }

  /** The best level is at the best open price, and there is only one such price. */
  lemma BestIsHighest(s: Shadow, b: int)
    requires Exact(s) && s.bidLevels.Keys != {}
    ensures HighestBid(s, b) <==> b == BestKey(s.bidLevels.Keys, true)
  {
    hide Exact;
    var best := BestKey(s.bidLevels.Keys, true);
    LevelsAreNonEmptyQueues(s, true, best);
    forall id | id in s.orders && s.orders[id].isBid ensures s.orders[id].price <= best {
      assert Belongs(s.orders, true, s.orders[id].price, id);
      LevelsAreNonEmptyQueues(s, true, s.orders[id].price);
      assert s.orders[id].price in s.bidLevels.Keys;
    }
    assert HighestBid(s, best);
    if HighestBid(s, b) {
      var i :| Belongs(s.orders, true, b, i);
      var j :| Belongs(s.orders, true, best, j);
    }
  }

  lemma BestIsLowest(s: Shadow, a: int)
    requires Exact(s) && s.askLevels.Keys != {}
    ensures LowestAsk(s, a) <==> a == BestKey(s.askLevels.Keys, false)
  {
    hide Exact;
    var best := BestKey(s.askLevels.Keys, false);
    LevelsAreNonEmptyQueues(s, false, best);
    forall id | id in s.orders && !s.orders[id].isBid ensures best <= s.orders[id].price {
      assert Belongs(s.orders, false, s.orders[id].price, id);
      LevelsAreNonEmptyQueues(s, false, s.orders[id].price);
      assert s.orders[id].price in s.askLevels.Keys;
    }
    assert LowestAsk(s, best);
    if LowestAsk(s, a) {
      var i :| Belongs(s.orders, false, a, i);
      var j :| Belongs(s.orders, false, best, j);
    }
  }

  lemma NoneHighest(s: Shadow, b: int)
    requires NoneOpen(s, true)
    ensures !HighestBid(s, b)
  {
  }

  lemma NoneLowest(s: Shadow, a: int)
    requires NoneOpen(s, false)
    ensures !LowestAsk(s, a)
  {
  }

  ghost predicate OpenPricesFit(s: Shadow) {
    forall id :: id in s.orders ==> Fits64(s.orders[id].price)
  }

  lemma EventKeepsPrices(s: Shadow, e: Event, tick: int)
    requires OpenPricesFit(s) && PriceFits(e)
    ensures OpenPricesFit(Replay(s, e, tick))
  {
    hide OnFill, Enqueue, Close, Wrap64;
    match e {
      case Placed(id, isBid, price, volume, _) =>
      case Filled(f) =>
        var t := FillParts(s, f, f.makerId, tick);
        if Closes(s, e) {
          CloseLevels(t, f.makerId, t.orders[f.makerId].(remaining := t.orders[f.makerId].remaining - f.volume));
        }
      case Cancelled(id, ok) =>
        if id in s.orders { CloseLevels(s, id, s.orders[id].(isCancelled := true)); }
    }
  }

  lemma {:induction false} PricesStayFit(es: seq<Event>, ticks: seq<int>)
    requires |ticks| == |es| && PricesFit(es)
    ensures OpenPricesFit(ReplayAll(EMPTY_SHADOW, es, ticks))
  {
    hide Replay;
    if es != [] {
      var n := |es| - 1;
      PricesStayFit(es[..n], ticks[..n]);
      EventKeepsPrices(ReplayAll(EMPTY_SHADOW, es[..n], ticks[..n]), es[n], ticks[n]);
    }
  }

  lemma LowestFits(s: Shadow, a: int)
    requires OpenPricesFit(s) && LowestAsk(s, a)
    ensures Fits64(a)
  {
    var id :| Belongs(s.orders, false, a, id);
  }

  lemma HighestFits(s: Shadow, b: int)
    requires OpenPricesFit(s) && HighestBid(s, b)
    ensures Fits64(b)
  {
    var id :| Belongs(s.orders, true, b, id);
  }

  // --------------------------------------------------------- the price check

  lemma BuyChecked(s: Shadow, f: MatchedFill)
    requires Exact(s) && QuotesNear(s) && OpenPricesFit(s) && f.takerIsBuy
    ensures PriceFault(s, f) <==> Overpriced(s, f.price)
  {
    hide Exact, NoneOpen, LowestAsk, OpenPricesFit;
    LevelsIfOpen(s, false);
    if s.askLevels.Keys == {} {
      forall a ensures !LowestAsk(s, a) { NoneLowest(s, a); }
    } else {
      forall a ensures LowestAsk(s, a) <==> a == s.bestAsk { BestIsLowest(s, a); }
      LowestFits(s, s.bestAsk);
    }
  }

  lemma SellChecked(s: Shadow, refreshed: bool, f: MatchedFill)
    requires Exact(s) && BidQuote(s, refreshed) && OpenPricesFit(s) && !f.takerIsBuy
    ensures PriceFault(s, f) <==> Underpriced(s, refreshed, f.price)
  {
    hide Exact, NoneOpen, HighestBid, OpenPricesFit;
    LevelsIfOpen(s, true);
    if s.bidLevels.Keys == {} {
      forall b ensures !HighestBid(s, b) { NoneHighest(s, b); }
    } else {
      var best := BestKey(s.bidLevels.Keys, true);
      forall b ensures HighestBid(s, b) <==> b == best { BestIsHighest(s, b); }
      HighestFits(s, best);
    }
  }

  /** After any stream of fresh ids and 64-bit prices that loses no level, right or
      wrong, the price of any further fill is reported exactly when it is wrong by the
      open orders and the log has room; the penalty grows exactly then, log or no log. */
  lemma WrongPriceReported(es: seq<Event>, ticks: seq<int>, f: MatchedFill, tick: int)
    requires FreshStream(es, ticks) && Intact(es, ticks) && PricesFit(es)
    ensures
      var s := ReplayAll(EMPTY_SHADOW, es, ticks);
      var s' := OnFill(s, f, f.makerId, tick);
      var wrong := WrongPrice(s, Refreshed(es, ticks, |es|), f);
      && (Mentions(Added(s.violations, s'.violations), FillPriceInvalid)
          <==> wrong && |s.violations| < MAX_VIOLATIONS)
      && s'.penalties.price == if wrong then Capped(0.20, s.penalties.price + 0.015) else s.penalties.price
  {
    hide Exact, At, KeepsLevels, OnFill, ReplayAll, Overpriced, Underpriced, BidQuote, QuotesNear, OpenPricesFit,
         PriceFault, FillFaults, Record, Logged;
    var s := ReplayAll(EMPTY_SHADOW, es, ticks);
    AtStart(es, ticks);
    BidQuoteUntil(es, ticks, |es|);
    QuotesStayNear(es, ticks);
    PricesStayFit(es, ticks);
    if f.takerIsBuy { BuyChecked(s, f); } else { SellChecked(s, Refreshed(es, ticks, |es|), f); }
    FillIsLogged(s, f, f.makerId, tick);
    PriceMentioned(s, f, f.makerId, tick);
    PricePenalty(s, f, f.makerId, tick);
  }

  lemma PriceMentioned(s: Shadow, f: MatchedFill, id: nat, tick: int)
    ensures
      var added := Added(s.violations, Record(s.violations, Logged(FillFaults(s, f, id), tick, id)));
      Mentions(added, FillPriceInvalid) <==> PriceFault(s, f) && |s.violations| < MAX_VIOLATIONS
  {
    hide PriceFault, DoubleFault, FifoFault;
    var ks := FillFaults(s, f, id);
    var vs := Logged(ks, tick, id);
    var added := Added(s.violations, Record(s.violations, vs));
    assert |added| <= |vs| && added == vs[..|added|];
    assert forall i :: 0 <= i < |added| ==> added[i].kind == ks[i];
    if PriceFault(s, f) && |s.violations| < MAX_VIOLATIONS { assert added[0].kind == ks[0]; }
  }

  lemma PricePenalty(s: Shadow, f: MatchedFill, id: nat, tick: int)
    ensures OnFill(s, f, id, tick).penalties.price
      == if PriceFault(s, f) then Capped(0.20, s.penalties.price + 0.015) else s.penalties.price
  {
    hide PriceFault, DoubleFault, FifoFault, ApplyFill, Capped, Wrap64;
    var s1 := ReportIf(s, PriceFault(s, f), FillPriceInvalid, tick, id).(lastTrade := f.price);
    var s2 := ReportIf(s1, DoubleFault(s, f, id), DoubleFill, tick, id);
    var s3 := ReportIf(s2, FifoFault(s, id), FifoPriorityBreach, tick, id);
    ApplyKeepsLog(s3, f, id);
  }
}

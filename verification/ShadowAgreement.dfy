/** While no level is lost the shadow book agrees with the live one queue by queue
    and quote by quote. */
module ShadowAgreement {
  import opened MarketTypes
  import opened PriceTimeBook
  import opened BookRuns
  import opened BookRep
  import opened ShadowSpec
  import opened ShadowProofs
  import opened ShadowQueues
  import opened ShadowVolumes

  /** A shadow level queues exactly the live orders of its price, oldest first. */
  lemma LevelIsLiveQueue(s: Shadow, b: Book, isBid: bool, p: int)
    requires Exact(s) && Mirrors(s, b)
    ensures p in s.Side(isBid) ==> IsQueue(b.orders, isBid, p, s.Side(isBid)[p].orderIds)
    ensures p !in s.Side(isBid) ==> forall id :: !AtPrice(b.orders, isBid, p, id)
  {
    LevelsAreNonEmptyQueues(s, isBid, p);
    forall id ensures AtPrice(b.orders, isBid, p, id) <==> Belongs(s.orders, isBid, p, id) {
      if id in s.orders { assert SameOpenOrder(s.orders[id], b.orders[id]); }
    }
    if p in s.Side(isBid) {
      var l := s.Side(isBid)[p];
      assert SideExact(s, isBid) && LevelExact(s.orders, isBid, p, l.orderIds);
      forall j, k | 0 <= j < k < |l.orderIds| ensures l.orderIds[j] < l.orderIds[k] {
        assert s.orders[l.orderIds[j]].sequence < s.orders[l.orderIds[k]].sequence;
      }
      forall id ensures id in l.orderIds <==> Belongs(s.orders, isBid, p, id) {
        if Belongs(s.orders, isBid, p, id) { assert Queued(s, isBid, id); }
      }
    }
  }

  /** The shadow keeps a level exactly for a queue that is not empty, and lists the
      ids the engine's queue links, in the same order. */
  ghost predicate SameQueue(store: Store, s: Shadow, key: LevelKey) {
    && (key.price in s.Side(key.isBid) <==> key in store.chains && store.chains[key] != [])
    && (key.price in s.Side(key.isBid) ==>
          InPool(store.nodes, store.chains[key]) && s.Side(key.isBid)[key.price].orderIds == QueueIds(store, key))
  }

  /** The queues of the two books are equal, price by price. */
  lemma QueuesAgree(store: Store, nextId: nat, s: Shadow, b: Book, key: LevelKey)
    requires CoreRep(store, nextId) && b.orders == OrdersOf(store)
    requires Exact(s) && Mirrors(s, b)
    ensures SameQueue(store, s, key)
  {
    hide CoreRep, Exact, Mirrors, OrdersOf;
    LevelIsLiveQueue(s, b, key.isBid, key.price);
    if key in store.chains {
      ChainIsQueue(store, nextId, key);
      var ids := QueueIds(store, key);
      assert ids != [] ==> ids[0] in ids;
      if key.price in s.Side(key.isBid) {
        QueueUnique(ids, s.Side(key.isBid)[key.price].orderIds);
        NonEmptyLevel(s, key);
      }
    } else if key.price in s.Side(key.isBid) {
      NonEmptyLevel(s, key);
      OrderHasChain(store, nextId, key, s.Side(key.isBid)[key.price].orderIds[0]);
    }
  }

  lemma NonEmptyLevel(s: Shadow, key: LevelKey)
    requires Exact(s) && key.price in s.Side(key.isBid)
    ensures s.Side(key.isBid)[key.price].orderIds != []
    ensures var ids := s.Side(key.isBid)[key.price].orderIds; ids[0] in ids
  {
    assert SideExact(s, key.isBid);
    assert LevelExact(s.orders, key.isBid, key.price, s.Side(key.isBid)[key.price].orderIds);
  }

  lemma OrderHasChain(s: Store, nextId: nat, key: LevelKey, id: nat)
    requires CoreRep(s, nextId) && AtPrice(OrdersOf(s), key.isBid, key.price, id)
    ensures key in s.chains
  {
    assert Located(s, id);
  }

  // ------------------------------------------------------------ both books

  /** The level of a price lists the live queue, oldest first, and exists only if
      that queue is not empty. */
  ghost predicate LevelMirrored(s: Shadow, b: Book, isBid: bool, p: int) {
    if p in s.Side(isBid)
    then s.Side(isBid)[p].orderIds != [] && IsQueue(b.orders, isBid, p, s.Side(isBid)[p].orderIds)
    else forall id :: !AtPrice(b.orders, isBid, p, id)
  }

  ghost predicate AllMirrored(s: Shadow, b: Book) {
    forall isBid, p :: LevelMirrored(s, b, isBid, p)
  }

  /** The shadow's queues are the live queues exactly when its levels are exact. */
  lemma ExactIffMirrored(s: Shadow, b: Book)
    requires Mirrors(s, b)
    ensures Exact(s) <==> AllMirrored(s, b)
  {
    hide Exact, Mirrors, IsQueue;
    if Exact(s) {
      forall isBid, p ensures LevelMirrored(s, b, isBid, p) {
        LevelIsLiveQueue(s, b, isBid, p);
        if p in s.Side(isBid) { NonEmptyLevel(s, LevelKey(isBid, p)); }
      }
    }
    if AllMirrored(s, b) {
      MirroredSide(s, b, true);
      MirroredSide(s, b, false);
      MirroredIsExact(s, b);
    }
  }

  lemma MirroredIsExact(s: Shadow, b: Book)
    requires Mirrors(s, b) && SideExact(s, true) && SideExact(s, false)
    ensures Exact(s)
  {
    hide SideExact;
    forall id | id in s.orders
      ensures !s.orders[id].isCancelled && !s.orders[id].isFullyFilled && s.orders[id].sequence <= s.globalSeq
    {
      assert SameOpenOrder(s.orders[id], b.orders[id]);
    }
  }

  lemma MirroredSide(s: Shadow, b: Book, isBid: bool)
    requires Mirrors(s, b) && AllMirrored(s, b)
    ensures SideExact(s, isBid)
  {
    hide LevelExact, Mirrors, AllMirrored, IsQueue;
    forall p | p in s.Side(isBid) ensures LevelExact(s.orders, isBid, p, s.Side(isBid)[p].orderIds) {
      MirroredLevel(s, b, isBid, p);
    }
    forall id | id in s.orders && s.orders[id].isBid == isBid ensures Queued(s, isBid, id) {
      MirroredOrder(s, b, isBid, id);
    }
  }

  lemma MirroredLevel(s: Shadow, b: Book, isBid: bool, p: int)
    requires Mirrors(s, b) && AllMirrored(s, b) && p in s.Side(isBid)
    ensures LevelExact(s.orders, isBid, p, s.Side(isBid)[p].orderIds)
  {
    assert LevelMirrored(s, b, isBid, p);
    var ids := s.Side(isBid)[p].orderIds;
    forall k | 0 <= k < |ids| ensures ids[k] in s.orders && Belongs(s.orders, isBid, p, ids[k]) {
      assert ids[k] in ids && AtPrice(b.orders, isBid, p, ids[k]);
      assert SameOpenOrder(s.orders[ids[k]], b.orders[ids[k]]);
    }
    assert AllOpen(s.orders, ids);
  }

  lemma MirroredOrder(s: Shadow, b: Book, isBid: bool, id: nat)
    requires Mirrors(s, b) && AllMirrored(s, b) && id in s.orders && s.orders[id].isBid == isBid
    ensures Queued(s, isBid, id)
  {
    var p := s.orders[id].price;
    assert SameOpenOrder(s.orders[id], b.orders[id]);
    assert LevelMirrored(s, b, isBid, p) && AtPrice(b.orders, isBid, p, id);
  }

  // ------------------------------------------------------------- intact runs

  /** A run a correct engine may make in which the shadow loses no level. */
  ghost predicate IntactRun(es: seq<Event>, ticks: seq<int>) {
    |ticks| == |es| && Lawful(EMPTY_BOOK, es) && Intact(es, ticks)
  }

  lemma LawfulIsFresh(es: seq<Event>, ticks: seq<int>)
    requires Lawful(EMPTY_BOOK, es) && |ticks| == |es|
    ensures FreshStream(es, ticks)
  {
    hide At, Lawful, Mirrors, StateAfter;
    forall k | 0 <= k < |es| ensures Fresh(At(es, ticks, k), es[k]) {
      BeforeEvent(es, ticks, k);
      FreshEvent(At(es, ticks, k), StateAfter(EMPTY_BOOK, es[..k]), es[k]);
    }
  }

  lemma FreshEvent(s: Shadow, b: Book, e: Event)
    requires Mirrors(s, b) && IdsIssued(b) && Legal(b, e)
    ensures Fresh(s, e)
  {
  }

  /** The two books right before an event of a run. */
  lemma BeforeEvent(es: seq<Event>, ticks: seq<int>, k: nat)
    requires Lawful(EMPTY_BOOK, es) && |ticks| == |es| && k <= |es|
    ensures
      var s, b := At(es, ticks, k), StateAfter(EMPTY_BOOK, es[..k]);
      Mirrors(s, b) && IdsIssued(b) && (k < |es| ==> Legal(b, es[k]))
  {
    hide ReplayAll, StateAfter, Mirrors, Legal;
    LawfulPrefix(EMPTY_BOOK, es, k);
    RunMirrors(es[..k], ticks[..k]);
    IdsStayIssued(EMPTY_BOOK, es[..k]);
  }

  /** Over any run, with whatever volumes: at every moment the shadow's queues are the
      live queues, exactly when no event makes the shadow drop a level too early. */
  lemma QueuesMirroredIff(es: seq<Event>, ticks: seq<int>)
    requires Lawful(EMPTY_BOOK, es) && |ticks| == |es|
    ensures (forall k :: 0 <= k <= |es| ==> AllMirrored(At(es, ticks, k), StateAfter(EMPTY_BOOK, es[..k])))
            <==> IntactRun(es, ticks)
  {
    hide At, Exact, AllMirrored, Lawful, Mirrors, StateAfter, KeepsLevels, Fresh;
    LawfulIsFresh(es, ticks);
    StreamExactIff(es, ticks);
    forall k | 0 <= k <= |es|
      ensures AllMirrored(At(es, ticks, k), StateAfter(EMPTY_BOOK, es[..k])) <==> Exact(At(es, ticks, k))
    {
      BeforeEvent(es, ticks, k);
      ExactIffMirrored(At(es, ticks, k), StateAfter(EMPTY_BOOK, es[..k]));
    }
  }

  /** What holds at every moment of an intact run. */
  lemma IntactState(es: seq<Event>, ticks: seq<int>, k: nat)
    requires IntactRun(es, ticks) && k <= |es|
    ensures Exact(At(es, ticks, k)) && Mirrors(At(es, ticks, k), StateAfter(EMPTY_BOOK, es[..k]))
  {
    hide At, Exact, Lawful, Mirrors, StateAfter, KeepsLevels, Fresh;
    LawfulIsFresh(es, ticks);
    ExactUntil(es, ticks, k);
    BeforeEvent(es, ticks, k);
  }

  // -------------------------------------------------------- positive volumes

  /** A run with positive volumes that together fit 64 bits. */
  ghost predicate PositiveRun(es: seq<Event>) {
    Lawful(EMPTY_BOOK, es) && PositiveEvents(es) && TotalPlaced(es) <= INT64_MAX
  }

  /** A lawful event is admissible while all volume placed stays within `n'`. */
  lemma LawfulIsAdmissible(s: Shadow, b: Book, e: Event, n: int, n': int)
    requires Funded(s, n) && Mirrors(s, b) && IdsIssued(b) && PositiveVolumes(b.orders) && Legal(b, e)
    requires 0 <= n <= n' && (e.Placed? ==> e.volume > 0 && n + e.volume <= n')
    ensures Admissible(s, e, n')
  {
    hide Funded, LevelTotal;
    match e
    case Placed(_, isBid, price, _, _) => TotalWithin(s, isBid, price, n);
    case Filled(f) => TotalWithin(s, s.orders[f.makerId].isBid, s.orders[f.makerId].price, n);
    case Cancelled(_, _) =>
  }

  lemma {:induction false} FundedAlong(es: seq<Event>, ticks: seq<int>, n: nat)
    requires PositiveRun(es) && |ticks| == |es| && n <= |es|
    ensures 0 <= TotalPlaced(es[..n]) <= TotalPlaced(es)
    ensures Exact(At(es, ticks, n)) && Funded(At(es, ticks, n), TotalPlaced(es[..n]))
    ensures forall k :: 0 <= k < n ==> KeepsLevels(At(es, ticks, k), es[k])
  {
    hide At, Exact, Funded, KeepsLevels, Fresh, Replay, Admissible, Lawful, StateAfter, Mirrors, Legal, IdsIssued;
    TotalPlacedGrows(es, n);
    if n == 0 {
      AtStart(es, ticks);
      FundedStart();
      assert es[..0] == [];
    } else {
      FundedAlong(es, ticks, n - 1);
      PlacedUpTo(es, n);
      BeforeEvent(es, ticks, n - 1);
      PositiveBefore(es, n - 1);
      var s, b := At(es, ticks, n - 1), StateAfter(EMPTY_BOOK, es[..n - 1]);
      LawfulIsAdmissible(s, b, es[n - 1], TotalPlaced(es[..n - 1]), TotalPlaced(es[..n]));
      EventKeepsFunded(s, es[n - 1], ticks[n - 1], TotalPlaced(es[..n - 1]), TotalPlaced(es[..n]));
      AtNext(es, ticks, n - 1);
    }
  }

  lemma PlacedUpTo(es: seq<Event>, n: nat)
    requires 0 < n <= |es|
    ensures TotalPlaced(es[..n]) == TotalPlaced(es[..n - 1]) + if es[n - 1].Placed? then es[n - 1].volume else 0
  {
    assert es[..n][..n - 1] == es[..n - 1];
  }

  lemma PositiveBefore(es: seq<Event>, k: nat)
    requires Lawful(EMPTY_BOOK, es) && PositiveEvents(es) && k <= |es|
    ensures PositiveVolumes(StateAfter(EMPTY_BOOK, es[..k]).orders)
  {
    hide StateAfter, Legal;
    LawfulPrefix(EMPTY_BOOK, es, k);
    PositiveStays(EMPTY_BOOK, es[..k]);
  }

  /** Positive volumes that together fit 64 bits lose no level. */
  lemma PositiveRunIntact(es: seq<Event>, ticks: seq<int>)
    requires PositiveRun(es) && |ticks| == |es|
    ensures IntactRun(es, ticks)
  {
    hide At, KeepsLevels, Exact, Funded, Lawful, TotalPlaced;
    FundedAlong(es, ticks, |es|);
  }

  // ------------------------------------------------------------------ quotes

  /** The ask quote is the best ask level; the bid quote is the best bid level, or
      reads 0 although there are bid levels at or below 0. */
  ghost predicate QuotesNear(s: Shadow) {
    && s.bestAsk == Quote(s.askLevels, false)
    && (|| s.bestBid == Quote(s.bidLevels, true)
        || (s.bestBid == 0 && forall p :: p in s.bidLevels ==> p <= 0))
  }

  lemma AddKeepsQuotes(s: Shadow, isBid: bool, price: int, volume: int, id: nat, tick: int)
    requires QuotesNear(s) && Fits64(price)
    ensures QuotesNear(OnLimitAdd(s, isBid, price, volume, id, tick))
  {
    var levels := s.Side(isBid);
    var levels' := Enqueue(levels, price, id, volume);
    assert levels'.Keys == levels.Keys + {price};
    assert price in levels'.Keys;
    assert IsBestKey(levels'.Keys, isBid, BestKey(levels'.Keys, isBid));
    if levels.Keys != {} { assert IsBestKey(levels.Keys, isBid, BestKey(levels.Keys, isBid)); }
  }

  lemma CloseQuotes(s: Shadow, id: nat, so: ShadowOrder)
    ensures QuotesNear(Close(s, id, so))
  {
    hide Quote;
  }

  lemma SameQuotes(s: Shadow, s': Shadow)
    requires QuotesNear(s) && s'.bidLevels == s.bidLevels && s'.askLevels == s.askLevels
    requires s'.bestBid == s.bestBid && s'.bestAsk == s.bestAsk
    ensures QuotesNear(s')
  {
  }

  lemma FillKeepsQuotes(s: Shadow, f: MatchedFill, id: nat, tick: int)
    requires QuotesNear(s)
    ensures QuotesNear(OnFill(s, f, id, tick))
  {
    hide QuotesNear, Close;
    var s1 := ReportIf(s, PriceFault(s, f), FillPriceInvalid, tick, id).(lastTrade := f.price);
    var s2 := ReportIf(s1, DoubleFault(s, f, id), DoubleFill, tick, id);
    var s3 := ReportIf(s2, FifoFault(s, id), FifoPriorityBreach, tick, id);
    SameQuotes(s, s3);
    var s4 := ApplyFill(s3, f, id);
    if id in s3.orders && s3.orders[id].remaining - f.volume <= 0 {
      CloseQuotes(s3, id, s3.orders[id].(remaining := s3.orders[id].remaining - f.volume));
    } else {
      SameQuotes(s3, s4);
    }
    SameQuotes(s4, Account(s4, f));
  }

  lemma CancelKeepsQuotes(s: Shadow, id: nat, ok: bool, tick: int)
    requires QuotesNear(s)
    ensures QuotesNear(OnCancel(s, id, ok, tick))
  {
    hide QuotesNear, Close;
    if id !in s.orders || s.orders[id].isCancelled || s.orders[id].isFullyFilled {
      SameQuotes(s, OnCancel(s, id, ok, tick));
    } else {
      CloseQuotes(s, id, s.orders[id].(isCancelled := true));
    }
  }

  lemma EventKeepsQuotes(s: Shadow, e: Event, tick: int)
    requires QuotesNear(s) && PriceFits(e)
    ensures QuotesNear(Replay(s, e, tick))
  {
    hide Quote, OnFill, OnCancel;
    match e
    case Placed(id, isBid, price, volume, _) =>
      AddKeepsQuotes(s, isBid, price, volume, id, tick);
    case Filled(f) => FillKeepsQuotes(s, f, f.makerId, tick);
    case Cancelled(id, ok) => CancelKeepsQuotes(s, id, ok, tick);
  }

  /** For any events at all, right or wrong, with 64-bit prices. */
  lemma {:induction false} QuotesStayNear(es: seq<Event>, ticks: seq<int>)
    requires |ticks| == |es| && forall k :: 0 <= k < |es| ==> PriceFits(es[k])
    ensures QuotesNear(ReplayAll(EMPTY_SHADOW, es, ticks))
  {
    if es != [] {
      var n := |es| - 1;
      QuotesStayNear(es[..n], ticks[..n]);
      EventKeepsQuotes(ReplayAll(EMPTY_SHADOW, es[..n], ticks[..n]), es[n], ticks[n]);
    }
  }

  lemma QuoteIsTopPrice(s: Shadow, b: Book, isBid: bool)
    requires Exact(s) && Mirrors(s, b)
    ensures
      if HasSide(b.orders, isBid) then Quote(s.Side(isBid), isBid) == b.orders[Top(b.orders, isBid)].price
      else s.Side(isBid) == map[]
  {
    if HasSide(b.orders, isBid) {
      var id := Top(b.orders, isBid);
      var p := b.orders[id].price;
      LevelIsLiveQueue(s, b, isBid, p);
      assert AtPrice(b.orders, isBid, p, id);
      var q := BestKey(s.Side(isBid).Keys, isBid);
      LevelIsLiveQueue(s, b, isBid, q);
      NonEmptyLevel(s, LevelKey(isBid, q));
      var other := s.Side(isBid)[q].orderIds[0];
      assert AtPrice(b.orders, isBid, q, other);
      assert other != id ==> Precedes(b.orders, isBid, id, other);
    } else {
      forall p ensures p !in s.Side(isBid) {
        LevelIsLiveQueue(s, b, isBid, p);
        if p in s.Side(isBid) {
          NonEmptyLevel(s, LevelKey(isBid, p));
          assert AtPrice(b.orders, isBid, p, s.Side(isBid)[p].orderIds[0]);
          assert OnSide(b.orders, isBid, s.Side(isBid)[p].orderIds[0]);
        }
      }
    }
  }

  // -------------------------------------------------- who is never accused

  /** A buy fill within a cent of the largest 64-bit price, or a sell fill below -1
      cent that meets a bid quote of 0 or lies within a cent of the least price. */
  predicate Misread(s: Shadow, f: MatchedFill) {
    if f.takerIsBuy then f.price > INT64_MAX - ONE_CENT
    else f.price < INT64_MIN + ONE_CENT || (f.price < -ONE_CENT && s.bestBid == 0)
  }

  lemma MisquotedExactly(s: Shadow, b: Book, f: MatchedFill)
    requires Exact(s) && Mirrors(s, b) && QuotesNear(s)
    requires Legal(b, Filled(f)) && BookPricesFit(b)
    ensures Misquoted(s, f) <==> Misread(s, f)
  {
    hide Exact, Mirrors, Quote;
    var isBid := !f.takerIsBuy;
    assert HasSide(b.orders, isBid) by { assert OnSide(b.orders, isBid, f.makerId); }
    assert Top(b.orders, isBid) == f.makerId;
    QuoteIsTopPrice(s, b, isBid);
  }

  ghost predicate PricesFit(es: seq<Event>) {
    forall k :: 0 <= k < |es| ==> PriceFits(es[k])
  }

  lemma FillMisreadIff(es: seq<Event>, ticks: seq<int>, k: nat)
    requires IntactRun(es, ticks) && PricesFit(es) && k < |es|
    ensures MisquotedAt(es, ticks, k) <==> es[k].Filled? && Misread(At(es, ticks, k), es[k].fill)
  {
    hide ReplayAll, StateAfter, Exact, Mirrors, QuotesNear, Legal, Misread, Misquoted, Intact;
    if !es[k].Filled? { return; }
    IntactState(es, ticks, k);
    BeforeEvent(es, ticks, k);
    LawfulPrefix(EMPTY_BOOK, es, k);
    PricesFitStay(es[..k]);
    QuotesStayNear(es[..k], ticks[..k]);
    MisquotedExactly(At(es, ticks, k), StateAfter(EMPTY_BOOK, es[..k]), es[k].fill);
  }

  /** A correct engine is never accused over an intact run exactly when none of its
      fills meets that condition. */
  lemma NeverAccusedIff(es: seq<Event>, ticks: seq<int>)
    requires IntactRun(es, ticks) && PricesFit(es)
    ensures ReplayAll(EMPTY_SHADOW, es, ticks).violations == [] <==>
      forall k :: 0 <= k < |es| && es[k].Filled? ==> !Misread(At(es, ticks, k), es[k].fill)
  {
    hide Misquoted, Misread, Replay, ReplayAll, Intact, Lawful, MisquotedAt;
    assert Lawful(EMPTY_BOOK, es);
    OnlyMisquotesReported(es, ticks);
    NoMisquotes(es, ticks);
    forall k | 0 <= k < |es|
      ensures MisquotedAt(es, ticks, k) <==> es[k].Filled? && Misread(At(es, ticks, k), es[k].fill)
    {
      FillMisreadIff(es, ticks, k);
    }
  }

  /** Bids at -1 cent or above, asks a cent or more below the largest price. */
  predicate Quotable(e: Event) {
    e.Placed? ==> if e.isBid then e.price >= -ONE_CENT else e.price <= INT64_MAX - ONE_CENT
  }

  lemma QuotableFill(es: seq<Event>, k: nat)
    requires Lawful(EMPTY_BOOK, es) && k < |es| && es[k].Filled?
    requires forall j :: 0 <= j < |es| ==> Quotable(es[j])
    ensures if es[k].fill.takerIsBuy then es[k].fill.price <= INT64_MAX - ONE_CENT else es[k].fill.price >= -ONE_CENT
  {
    var j := FilledAsPlaced(es, k);
    assert Quotable(es[j]);
  }

  /** A correct engine is never accused: over every intact run with such prices the
      log stays empty and every penalty zero. */
  lemma ShadowNeverAccuses(es: seq<Event>, ticks: seq<int>)
    requires IntactRun(es, ticks) && PricesFit(es)
    requires forall k :: 0 <= k < |es| ==> Quotable(es[k])
    ensures
      var s := ReplayAll(EMPTY_SHADOW, es, ticks);
      s.violations == [] && s.penalties == NO_PENALTIES && Score(s.penalties) == 1.0
  {
    hide ReplayAll, Misquotes, Lawful, Intact, At;
    assert Lawful(EMPTY_BOOK, es);
    forall k | 0 <= k < |es| && es[k].Filled? ensures !Misread(At(es, ticks, k), es[k].fill) {
      QuotableFill(es, k);
    }
    NeverAccusedIff(es, ticks);
    OnlyMisquotesReported(es, ticks);
    NothingRecorded();
  }

  predicate PositivePrice(e: Event) {
    e.Placed? ==> e.price > 0
  }

  /** After every intact run with positive prices: the shadow's queues are the live
      queues, its quotes are the best live prices, and nothing is reported exactly
      when no buy was filled within a cent of the largest price. */
  lemma ShadowAgrees(es: seq<Event>, ticks: seq<int>, isBid: bool)
    requires IntactRun(es, ticks) && PricesFit(es)
    requires forall k :: 0 <= k < |es| ==> PositivePrice(es[k])
    ensures
      var s := ReplayAll(EMPTY_SHADOW, es, ticks);
      var b := StateAfter(EMPTY_BOOK, es);
      && AllMirrored(s, b)
      && (if isBid then s.bestBid else s.bestAsk)
         == (if HasSide(b.orders, isBid) then b.orders[Top(b.orders, isBid)].price
             else if isBid then 0 else INT64_MAX)
    ensures ReplayAll(EMPTY_SHADOW, es, ticks).violations == [] <==>
      forall k :: 0 <= k < |es| && es[k].Filled? && es[k].fill.takerIsBuy ==> es[k].fill.price <= INT64_MAX - ONE_CENT
  {
    hide Exact, Mirrors, ReplayAll, Lawful, Intact, AllMirrored, At, Replay;
    assert Lawful(EMPTY_BOOK, es);
    var s, b := ReplayAll(EMPTY_SHADOW, es, ticks), StateAfter(EMPTY_BOOK, es);
    AtStart(es, ticks);
    IntactState(es, ticks, |es|);
    assert es[..|es|] == es;
    ExactIffMirrored(s, b);
    QuotesStayNear(es, ticks);
    QuoteIsTopPrice(s, b, isBid);
    if HasSide(b.orders, isBid) {
      var j := RestingWasPlaced(es, Top(b.orders, isBid));
      assert PositivePrice(es[j]);
    }
    NeverAccusedIff(es, ticks);
    forall k | 0 <= k < |es| && es[k].Filled? ensures es[k].fill.price > 0 {
      var j := FilledAsPlaced(es, k);
      assert PositivePrice(es[j]);
    }
  }
}

/** What the shadow book reports of a correct engine: it mirrors the live orders
    over every run, and only the price check can accuse. */
module ShadowProofs {
  import opened MarketTypes
  import opened PriceTimeBook
  import opened BookRuns
  import opened ShadowSpec

  ghost predicate NoRepeats(ids: seq<nat>) {
    forall i, j :: 0 <= i < j < |ids| ==> ids[i] != ids[j]
  }

  ghost predicate Belongs(orders: map<nat, ShadowOrder>, isBid: bool, p: int, id: nat) {
    id in orders && orders[id].isBid == isBid && orders[id].price == p
  }

  /** A level holds open orders of its price, each once, and at least one. */
  ghost predicate LevelSound(orders: map<nat, ShadowOrder>, isBid: bool, p: int, ids: seq<nat>) {
    ids != [] && NoRepeats(ids) && forall id :: id in ids ==> Belongs(orders, isBid, p, id)
  }

  ghost predicate SideSound(s: Shadow, isBid: bool) {
    forall p :: p in s.Side(isBid) ==> LevelSound(s.orders, isBid, p, s.Side(isBid)[p].orderIds)
  }

  ghost predicate HasOrderAt(orders: map<nat, ShadowOrder>, isBid: bool, p: int) {
    exists id :: Belongs(orders, isBid, p, id)
  }

  /** Each quote is its empty-side value or the price of an open order. */
  ghost predicate QuotesSound(s: Shadow) {
    && (s.bestBid == 0 || HasOrderAt(s.orders, true, s.bestBid))
    && (s.bestAsk == INT64_MAX || HasOrderAt(s.orders, false, s.bestAsk))
  }

  ghost predicate Sound(s: Shadow) {
    SideSound(s, true) && SideSound(s, false) && QuotesSound(s)
  }

  lemma {:induction false} RemoveFirstFacts(ids: seq<nat>, id: nat)
    requires NoRepeats(ids)
    ensures
      var r := RemoveFirst(ids, id);
      && NoRepeats(r) && id !in r
      && (forall x :: x in r <==> x in ids && x != id)
  {
    if ids != [] && ids[0] != id {
      RemoveFirstFacts(ids[1..], id);
      assert ids[0] !in ids[1..];
    } else if ids != [] {
      assert forall k :: 0 < k < |ids| ==> ids[k] != ids[0];
    }
  }

  lemma RemoveKeepsLevels(s: Shadow, id: nat, so: ShadowOrder, isBid: bool)
    requires SideSound(s, isBid) && Belongs(s.orders, so.isBid, so.price, id)
    ensures
      var lv := if isBid == so.isBid then RemoveFromLevel(s.Side(isBid), id, so) else s.Side(isBid);
      forall p :: p in lv ==> LevelSound(s.orders - {id}, isBid, p, lv[p].orderIds)
  {
    var levels := s.Side(isBid);
    var lv := if isBid == so.isBid then RemoveFromLevel(levels, id, so) else levels;
    forall p | p in lv ensures LevelSound(s.orders - {id}, isBid, p, lv[p].orderIds) {
      assert LevelSound(s.orders, isBid, p, levels[p].orderIds);
      RemoveFirstFacts(levels[p].orderIds, id);
      if isBid != so.isBid || p != so.price {
        assert lv[p].orderIds == levels[p].orderIds;
        assert id !in lv[p].orderIds by { assert !Belongs(s.orders, isBid, p, id); }
      }
    }
  }

  lemma QuotesFromLevels(s: Shadow)
    requires SideSound(s, true) && SideSound(s, false)
    ensures QuotesSound(UpdateBest(s))
  {
    if s.bidLevels.Keys != {} {
      var p := BestKey(s.bidLevels.Keys, true);
      assert p in s.Side(true);
      assert Belongs(s.orders, true, p, s.bidLevels[p].orderIds[0]);
    }
    if s.askLevels.Keys != {} {
      var p := BestKey(s.askLevels.Keys, false);
      assert p in s.Side(false);
      assert Belongs(s.orders, false, p, s.askLevels[p].orderIds[0]);
    }
  }

  lemma CloseKeepsSound(s: Shadow, id: nat, so: ShadowOrder)
    requires Sound(s) && Belongs(s.orders, so.isBid, so.price, id)
    ensures Sound(Close(s, id, so))
  {
    RemoveKeepsLevels(s, id, so, true);
    RemoveKeepsLevels(s, id, so, false);
    var s1 := s.WithSide(so.isBid, RemoveFromLevel(s.Side(so.isBid), id, so)).(orders := s.orders - {id});
    assert SideSound(s1, true) && SideSound(s1, false);
    QuotesFromLevels(s1);
  }

  lemma AddKeepsSound(s: Shadow, isBid: bool, price: int, volume: int, id: nat, tick: int)
    requires Sound(s) && id !in s.orders
    ensures Sound(OnLimitAdd(s, isBid, price, volume, id, tick))
  {
    var s' := OnLimitAdd(s, isBid, price, volume, id, tick);
    AddKeepsSide(s, isBid, price, volume, id, tick, true);
    AddKeepsSide(s, isBid, price, volume, id, tick, false);
    assert Belongs(s'.orders, isBid, price, id);
    if s.bestBid != 0 {
      var o :| Belongs(s.orders, true, s.bestBid, o);
      assert Belongs(s'.orders, true, s.bestBid, o);
    }
    if s.bestAsk != INT64_MAX {
      var o :| Belongs(s.orders, false, s.bestAsk, o);
      assert Belongs(s'.orders, false, s.bestAsk, o);
    }
  }

  lemma AddKeepsSide(s: Shadow, isBid: bool, price: int, volume: int, id: nat, tick: int, side: bool)
    requires SideSound(s, side) && id !in s.orders
    ensures SideSound(OnLimitAdd(s, isBid, price, volume, id, tick), side)
  {
    var s' := OnLimitAdd(s, isBid, price, volume, id, tick);
    forall p | p in s'.Side(side) ensures LevelSound(s'.orders, side, p, s'.Side(side)[p].orderIds) {
      if p in s.Side(side) {
        assert LevelSound(s.orders, side, p, s.Side(side)[p].orderIds);
        assert !Belongs(s.orders, side, p, id);
      }
    }
  }

  /** Changing an open order's remaining volume matters to no queue. */
  lemma ShrinkKeepsSound(s: Shadow, id: nat, remaining: int)
    requires Sound(s) && id in s.orders
    ensures Sound(s.(orders := s.orders[id := s.orders[id].(remaining := remaining)]))
  {
    var s' := s.(orders := s.orders[id := s.orders[id].(remaining := remaining)]);
    forall side, p, x ensures Belongs(s'.orders, side, p, x) == Belongs(s.orders, side, p, x) {
    }
    forall p | p in s'.Side(true) ensures LevelSound(s'.orders, true, p, s'.Side(true)[p].orderIds) {
      assert p in s.Side(true);
    }
    forall p | p in s'.Side(false) ensures LevelSound(s'.orders, false, p, s'.Side(false)[p].orderIds) {
      assert p in s.Side(false);
    }
    if s.bestBid != 0 {
      var o :| Belongs(s.orders, true, s.bestBid, o);
      assert Belongs(s'.orders, true, s.bestBid, o);
    }
    if s.bestAsk != INT64_MAX {
      var o :| Belongs(s.orders, false, s.bestAsk, o);
      assert Belongs(s'.orders, false, s.bestAsk, o);
    }
  }

  // ---------------------------------------------------------------- soundness

  ghost predicate SameOpenOrder(so: ShadowOrder, o: Resting) {
    && so.isBid == o.isBid && so.price == o.price && so.remaining == o.volume
    && !so.isCancelled && !so.isFullyFilled
  }

  /** The shadow's order table is the live book; insertion order is id order. */
  ghost predicate Mirrors(s: Shadow, b: Book) {
    && s.orders.Keys == b.orders.Keys
    && (forall id :: id in s.orders ==> SameOpenOrder(s.orders[id], b.orders[id]))
    && (forall id :: id in s.orders ==> s.orders[id].sequence <= s.globalSeq)
    && (forall i, j :: i in s.orders && j in s.orders && i < j ==> s.orders[i].sequence < s.orders[j].sequence)
  }

  /** Feeds one engine event to the shadow book. */
  ghost function Replay(s: Shadow, e: Event, tick: int): Shadow {
    match e
    case Placed(id, isBid, price, volume, participant) => OnLimitAdd(s, isBid, price, volume, id, tick)
    case Filled(f) => OnFill(s, f, f.makerId, tick)
    case Cancelled(id, ok) => OnCancel(s, id, ok, tick)
  }

  ghost function ReplayAll(s: Shadow, es: seq<Event>, ticks: seq<int>): Shadow
    requires |ticks| == |es|
  {
    if es == [] then s
    else
      var n := |es| - 1;
      Replay(ReplayAll(s, es[..n], ticks[..n]), es[n], ticks[n])
  }

  predicate PriceFits(e: Event) {
    e.Placed? ==> Fits64(e.price)
  }

  ghost predicate BookPricesFit(b: Book) {
    forall id :: id in b.orders ==> Fits64(b.orders[id].price)
  }

  /** Where the price check goes wrong although the fill is right: the sum of the
      best ask and one cent passes 64 bits, the best bid reads 0 although bids rest
      below, or the best bid less one cent passes 64 bits. */
  predicate Misquoted(s: Shadow, f: MatchedFill) {
    if f.takerIsBuy then
      s.bestAsk > INT64_MAX - ONE_CENT && f.price > s.bestAsk + ONE_CENT - TWO_TO_64
    else
      || (s.bestBid == 0 && f.price < -ONE_CENT)
      || (s.bestBid < INT64_MIN + ONE_CENT && f.price < s.bestBid - ONE_CENT + TWO_TO_64)
  }

  /** A legal fill is never a double fill and never jumps the queue. */
  lemma LegalFillPasses(s: Shadow, b: Book, f: MatchedFill)
    requires Sound(s) && Mirrors(s, b) && Legal(b, Filled(f))
    ensures !DoubleFault(s, f, f.makerId) && !FifoFault(s, f.makerId)
  {
    var id := f.makerId;
    var so := s.orders[id];
    if so.price in s.Side(so.isBid) {
      var front := s.Side(so.isBid)[so.price].orderIds[0];
      assert LevelSound(s.orders, so.isBid, so.price, s.Side(so.isBid)[so.price].orderIds);
      assert Belongs(s.orders, so.isBid, so.price, front);
      assert front != id ==> Precedes(b.orders, !f.takerIsBuy, id, front);
    }
  }

  /** The price check fails for a legal fill exactly when it is misquoted. */
  lemma LegalFillFaults(s: Shadow, b: Book, f: MatchedFill)
    requires Sound(s) && Mirrors(s, b) && Legal(b, Filled(f)) && BookPricesFit(b)
    ensures PriceFault(s, f) <==> Misquoted(s, f)
  {
    if f.takerIsBuy && s.bestAsk != INT64_MAX {
      var o :| Belongs(s.orders, false, s.bestAsk, o);
      assert OnSide(b.orders, false, o);
    }
    if !f.takerIsBuy && s.bestBid != 0 {
      var o :| Belongs(s.orders, true, s.bestBid, o);
      assert OnSide(b.orders, true, o);
    }
  }

  lemma PlacedMirrors(s: Shadow, b: Book, e: Event, tick: int)
    requires Sound(s) && Mirrors(s, b) && IdsIssued(b) && Legal(b, e) && e.Placed?
    ensures Sound(Replay(s, e, tick)) && Mirrors(Replay(s, e, tick), After(b, e))
    ensures Replay(s, e, tick).violations == s.violations && Replay(s, e, tick).penalties == s.penalties
  {
    hide Sound, Enqueue;
    AddKeepsSound(s, e.isBid, e.price, e.volume, e.id, tick);
  }

  lemma CancelledMirrors(s: Shadow, b: Book, e: Event, tick: int)
    requires Sound(s) && Mirrors(s, b) && Legal(b, e) && e.Cancelled?
    ensures Sound(Replay(s, e, tick)) && Mirrors(Replay(s, e, tick), After(b, e))
    ensures Replay(s, e, tick).violations == s.violations && Replay(s, e, tick).penalties == s.penalties
  {
    if e.id in s.orders {
      var so := s.orders[e.id].(isCancelled := true);
      CloseKeepsSound(s, e.id, so);
      CloseOrders(s, e.id, so);
    } else {
      assert After(b, e).orders == b.orders;
    }
  }

  lemma CloseOrders(s: Shadow, id: nat, so: ShadowOrder)
    ensures
      var s' := Close(s, id, so);
      && s'.orders == s.orders - {id} && s'.globalSeq == s.globalSeq
      && s'.violations == s.violations && s'.penalties == s.penalties
      && s'.position == s.position && s'.cash == s.cash
  {
  }

  lemma ApplyMirrors(s: Shadow, b: Book, f: MatchedFill)
    requires Sound(s) && Mirrors(s, b) && Legal(b, Filled(f))
    ensures Sound(ApplyFill(s, f, f.makerId)) && Mirrors(ApplyFill(s, f, f.makerId), After(b, Filled(f)))
  {
    hide Sound, Close;
    var id := f.makerId;
    var so := s.orders[id].(remaining := s.orders[id].remaining - f.volume);
    if so.remaining <= 0 {
      CloseKeepsSound(s, id, so);
      CloseOrders(s, id, so);
    } else {
      ShrinkKeepsSound(s, id, so.remaining);
    }
  }

  /** Neither reports nor accounts matter to the queues and the mirror. */
  lemma SameBookKeeps(s: Shadow, s': Shadow, b: Book)
    requires Sound(s) && Mirrors(s, b)
    requires s'.orders == s.orders && s'.bidLevels == s.bidLevels && s'.askLevels == s.askLevels
    requires s'.bestBid == s.bestBid && s'.bestAsk == s.bestAsk && s'.globalSeq == s.globalSeq
    ensures Sound(s') && Mirrors(s', b)
  {
    forall p | p in s'.Side(true) ensures LevelSound(s'.orders, true, p, s'.Side(true)[p].orderIds) {
      assert p in s.Side(true);
    }
    forall p | p in s'.Side(false) ensures LevelSound(s'.orders, false, p, s'.Side(false)[p].orderIds) {
      assert p in s.Side(false);
    }
  }

  /** A legal fill is applied to both books alike; only its price may be reported. */
  lemma FilledMirrors(s: Shadow, b: Book, f: MatchedFill, tick: int)
    requires Sound(s) && Mirrors(s, b) && Legal(b, Filled(f))
    ensures
      var s' := OnFill(s, f, f.makerId, tick);
      var r := ReportIf(s, PriceFault(s, f), FillPriceInvalid, tick, f.makerId);
      && Sound(s') && Mirrors(s', After(b, Filled(f)))
      && s'.violations == r.violations && s'.penalties == r.penalties
  {
    LegalFillPasses(s, b, f);
    hide Sound, Mirrors, Legal, ApplyFill, PriceFault, DoubleFault, FifoFault, After;
    var s1 := ReportIf(s, PriceFault(s, f), FillPriceInvalid, tick, f.makerId).(lastTrade := f.price);
    SameBookKeeps(s, s1, b);
    ApplyMirrors(s1, b, f);
    ApplyKeepsLog(s1, f, f.makerId);
    var s2 := ApplyFill(s1, f, f.makerId);
    SameBookKeeps(s2, Account(s2, f), After(b, Filled(f)));
  }

  /** The report a lawful event draws: one for a misquoted fill. */
  function Reports(s: Shadow, e: Event, tick: int): seq<Violation> {
    if e.Filled? && Misquoted(s, e.fill) then [Violation(FillPriceInvalid, tick, e.fill.makerId)] else []
  }

  function ChargedFor(reports: nat): Penalties {
    NO_PENALTIES.(price := Capped(0.20, 0.015 * reports as real))
  }

  lemma EventMirrors(s: Shadow, b: Book, e: Event, tick: int)
    requires Sound(s) && Mirrors(s, b) && IdsIssued(b) && Legal(b, e)
    ensures Sound(Replay(s, e, tick)) && Mirrors(Replay(s, e, tick), After(b, e))
    ensures BookPricesFit(b) ==> Replay(s, e, tick).violations == Record(s.violations, Reports(s, e, tick))
    ensures BookPricesFit(b) ==>
      Replay(s, e, tick).penalties == if Reports(s, e, tick) == [] then s.penalties else Penalize(s.penalties, FillPriceInvalid)
  {
    match e
    case Placed(_, _, _, _, _) => PlacedMirrors(s, b, e, tick);
    case Cancelled(_, _) => CancelledMirrors(s, b, e, tick);
    case Filled(f) =>
      FilledMirrors(s, b, f, tick);
      if BookPricesFit(b) { LegalFillFaults(s, b, f); }
      ReportIfLogs(s, PriceFault(s, f), FillPriceInvalid, tick, f.makerId);
  }

  lemma PricesFitStay(es: seq<Event>)
    requires Lawful(EMPTY_BOOK, es) && forall k :: 0 <= k < |es| ==> PriceFits(es[k])
    ensures BookPricesFit(StateAfter(EMPTY_BOOK, es))
  {
    forall id | id in StateAfter(EMPTY_BOOK, es).orders
      ensures Fits64(StateAfter(EMPTY_BOOK, es).orders[id].price)
    {
      var j := RestingWasPlaced(es, id);
      assert PriceFits(es[j]);
    }
  }

  /** After every run of adds, cancels and market orders, with whatever volumes and
      prices, the shadow holds the live orders. */
  lemma {:induction false} RunMirrors(es: seq<Event>, ticks: seq<int>)
    requires Lawful(EMPTY_BOOK, es) && |ticks| == |es|
    ensures
      var s := ReplayAll(EMPTY_SHADOW, es, ticks);
      Sound(s) && Mirrors(s, StateAfter(EMPTY_BOOK, es))
  {
    if es != [] {
      var n := |es| - 1;
      LawfulPrefix(EMPTY_BOOK, es, n);
      RunMirrors(es[..n], ticks[..n]);
      IdsStayIssued(EMPTY_BOOK, es[..n]);
      assert Legal(StateAfter(EMPTY_BOOK, es[..n]), es[n]);
      EventMirrors(ReplayAll(EMPTY_SHADOW, es[..n], ticks[..n]), StateAfter(EMPTY_BOOK, es[..n]), es[n], ticks[n]);
    }
  }

  /** One report for each misquoted fill of a run. */
  ghost function Misquotes(es: seq<Event>, ticks: seq<int>): seq<Violation>
    requires |ticks| == |es|
  {
    if es == [] then []
    else
      var n := |es| - 1;
      Misquotes(es[..n], ticks[..n]) + Reports(ReplayAll(EMPTY_SHADOW, es[..n], ticks[..n]), es[n], ticks[n])
  }

  /** What a correct engine is accused of, over any run: exactly its misquoted
      fills, as far as the log has room for them, and nothing else. */
  lemma {:induction false} OnlyMisquotesReported(es: seq<Event>, ticks: seq<int>)
    requires Lawful(EMPTY_BOOK, es) && |ticks| == |es|
    requires forall k :: 0 <= k < |es| ==> PriceFits(es[k])
    ensures
      var s := ReplayAll(EMPTY_SHADOW, es, ticks);
      s.violations == Record([], Misquotes(es, ticks)) && s.penalties == ChargedFor(|Misquotes(es, ticks)|)
  {
    hide Record, Replay, Misquoted;
    if es == [] {
      NothingRecorded();
    } else {
      var n := |es| - 1;
      var s, b := ReplayAll(EMPTY_SHADOW, es[..n], ticks[..n]), StateAfter(EMPTY_BOOK, es[..n]);
      LawfulPrefix(EMPTY_BOOK, es, n);
      OnlyMisquotesReported(es[..n], ticks[..n]);
      RunMirrors(es[..n], ticks[..n]);
      IdsStayIssued(EMPTY_BOOK, es[..n]);
      PricesFitStay(es[..n]);
      assert Legal(b, es[n]);
      EventMirrors(s, b, es[n], ticks[n]);
      RecordAppend([], Misquotes(es[..n], ticks[..n]), Reports(s, es[n], ticks[n]));
    }
  }

  lemma NothingRecorded()
    ensures Record([], []) == [] && ChargedFor(0) == NO_PENALTIES
  {
  }

  /** A run draws no report exactly when none of its fills is misquoted. */
  lemma {:induction false} NoMisquotes(es: seq<Event>, ticks: seq<int>)
    requires |ticks| == |es|
    ensures Misquotes(es, ticks) == [] <==> forall k :: 0 <= k < |es| ==> !MisquotedAt(es, ticks, k)
  {
    hide MisquotedAt, ReplayAll, Reports;
    if es != [] {
      var n := |es| - 1;
      NoMisquotes(es[..n], ticks[..n]);
      forall k | 0 <= k < n ensures MisquotedAt(es[..n], ticks[..n], k) <==> MisquotedAt(es, ticks, k) {
        MisquotedEarlier(es, ticks, n, k);
      }
      ReportsWhenMisquoted(es, ticks);
    }
  }

  ghost predicate MisquotedAt(es: seq<Event>, ticks: seq<int>, k: nat)
    requires k < |es| == |ticks|
  {
    es[k].Filled? && Misquoted(ReplayAll(EMPTY_SHADOW, es[..k], ticks[..k]), es[k].fill)
  }

  lemma MisquotedEarlier(es: seq<Event>, ticks: seq<int>, n: nat, k: nat)
    requires k < n <= |es| == |ticks|
    ensures MisquotedAt(es[..n], ticks[..n], k) <==> MisquotedAt(es, ticks, k)
  {
    assert es[..n][k] == es[k] && es[..n][..k] == es[..k] && ticks[..n][..k] == ticks[..k];
  }

  lemma ReportsWhenMisquoted(es: seq<Event>, ticks: seq<int>)
    requires |ticks| == |es| > 0
    ensures
      var n := |es| - 1;
      Reports(ReplayAll(EMPTY_SHADOW, es[..n], ticks[..n]), es[n], ticks[n]) != [] <==> MisquotedAt(es, ticks, n)
  {
  }

  /** Two prices at which a correct engine is reported: a lone bid below -1 cent
      that is sold to, and a lone ask within a cent of the largest 64-bit price that
      is bought. */
  lemma LoneOrderIsAccused(isBid: bool, price: int, volume: int, maker: int, taker: int, ticks: seq<int>)
    requires Fits64(price) && volume > 0 && |ticks| == 2
    requires if isBid then price < -ONE_CENT else price > INT64_MAX - ONE_CENT
    ensures
      var o := Resting(isBid, price, volume, maker);
      var es := [Placed(1, isBid, price, volume, maker), Filled(FillOf(1, o, volume, !isBid, taker))];
      && Lawful(EMPTY_BOOK, es)
      && ReplayAll(EMPTY_SHADOW, es, ticks).violations == [Violation(FillPriceInvalid, ticks[1], 1)]
  {
    hide ReplayAll, Lawful, StateAfter, Replay, Legal, After, Misquoted;
    var e1 := Placed(1, isBid, price, volume, maker);
    var e2 := Filled(FillOf(1, Resting(isBid, price, volume, maker), volume, !isBid, taker));
    var es := [e1, e2];
    var s1, b1 := Replay(EMPTY_SHADOW, e1, ticks[0]), After(EMPTY_BOOK, e1);
    LoneOrder(isBid, price, volume, maker, taker, ticks[0]);
    NothingYet();
    Advance(es, ticks, 0, EMPTY_SHADOW, EMPTY_BOOK);
    DrawnNext(es[..1], ticks, s1, b1, e2);
    Advance(es, ticks, 1, s1, b1);
    assert es[..2] == es && ticks[..2] == ticks;
  }

  lemma LoneOrder(isBid: bool, price: int, volume: int, maker: int, taker: int, tick: int)
    requires Fits64(price) && volume > 0
    requires if isBid then price < -ONE_CENT else price > INT64_MAX - ONE_CENT
    ensures
      var e1 := Placed(1, isBid, price, volume, maker);
      var e2 := Filled(FillOf(1, Resting(isBid, price, volume, maker), volume, !isBid, taker));
      var s1 := Replay(EMPTY_SHADOW, e1, tick);
      var b1 := After(EMPTY_BOOK, e1);
      && Legal(EMPTY_BOOK, e1) && Legal(b1, e2) && BookPricesFit(b1)
      && s1.violations == [] && Misquoted(s1, e2.fill)
  {
    assert After(EMPTY_BOOK, Placed(1, isBid, price, volume, maker)).orders == map[1 := Resting(isBid, price, volume, maker)];
  }

  /** What a fill draws after a run that drew no report. */
  lemma DrawnNext(e: seq<Event>, ticks: seq<int>, s: Shadow, b: Book, f: Event)
    requires |ticks| == |e| + 1 && Reaches(e, ticks[..|e|], s, b) && Legal(b, f) && f.Filled?
    requires s.violations == [] && BookPricesFit(b)
    ensures Replay(s, f, ticks[|e|]).violations == Reports(s, f, ticks[|e|])
  {
    hide Legal, Misquoted, Replay, Sound, Mirrors, BookPricesFit;
    RunMirrors(e, ticks[..|e|]);
    IdsStayIssued(EMPTY_BOOK, e);
    EventMirrors(s, b, f, ticks[|e|]);
  }

  /** A lawful run, and where it takes the two books. */
  ghost predicate Reaches(es: seq<Event>, ticks: seq<int>, s: Shadow, b: Book) {
    && |ticks| == |es| && Lawful(EMPTY_BOOK, es)
    && ReplayAll(EMPTY_SHADOW, es, ticks) == s && StateAfter(EMPTY_BOOK, es) == b
  }

  lemma NothingYet()
    ensures Reaches([], [], EMPTY_SHADOW, EMPTY_BOOK)
  {
  }

  /** One more legal event of a run. */
  lemma Advance(es: seq<Event>, ticks: seq<int>, k: nat, s: Shadow, b: Book)
    requires k < |es| == |ticks| && Reaches(es[..k], ticks[..k], s, b) && Legal(b, es[k])
    ensures Reaches(es[..k + 1], ticks[..k + 1], Replay(s, es[k], ticks[k]), After(b, es[k]))
  {
    hide Replay, After, Legal;
    LawfulOne(b, es[k]);
    LawfulAppend(EMPTY_BOOK, es[..k], [es[k]]);
    StateAppend(EMPTY_BOOK, es[..k], [es[k]]);
    assert es[..k + 1] == es[..k] + [es[k]];
    assert es[..k + 1][..k] == es[..k] && ticks[..k + 1][..k] == ticks[..k];
  }

  /** Three asks at one price, of which the first is cancelled. */
  function ThreeAsks(price: int, maker: int, v1: int, v2: int, v3: int): seq<Event> {
    [Placed(1, false, price, v1, maker), Placed(2, false, price, v2, maker),
     Placed(3, false, price, v3, maker), Cancelled(1, true)]
  }

  /** The live book through those events. */
  lemma LiveAsks(price: int, maker: int, taker: int, v1: int, v2: int, v3: int)
    ensures
      var e := ThreeAsks(price, maker, v1, v2, v3);
      var o := Resting(false, price, v2, maker);
      var b1 := After(EMPTY_BOOK, e[0]);
      var b2 := After(b1, e[1]);
      var b3 := After(b2, e[2]);
      var b4 := After(b3, e[3]);
      && Legal(EMPTY_BOOK, e[0]) && Legal(b1, e[1]) && Legal(b2, e[2]) && Legal(b3, e[3])
      && b4.orders == map[2 := o, 3 := Resting(false, price, v3, maker)]
      && Legal(b4, Filled(FillOf(2, o, v2, true, taker)))
  {
  }

  lemma EnqueueOnly(price: int, ids: seq<nat>, total: int, id: nat, volume: int)
    ensures
      var levels := if ids == [] then map[] else map[price := ShadowLevel(ids, total)];
      Enqueue(levels, price, id, volume)
      == map[price := ShadowLevel(ids + [id], Wrap64((if ids == [] then 0 else total) + volume))]
  {
    hide Wrap64;
    var levels := if ids == [] then map[] else map[price := ShadowLevel(ids, total)];
    assert Enqueue(levels, price, id, volume).Keys == {price};
  }

  lemma AskAdded(s: Shadow, price: int, volume: int, id: nat, tick: int)
    ensures
      var s' := OnLimitAdd(s, false, price, volume, id, tick);
      && s'.askLevels == Enqueue(s.askLevels, price, id, volume) && s'.violations == s.violations
      && s'.globalSeq == s.globalSeq + 1
      && s'.orders == s.orders[id := ShadowOrder(s.globalSeq + 1, price, volume, volume, false, false, false, tick)]
  {
    hide Enqueue;
  }

  lemma ThreeQueued(price: int, maker: int, v1: int, v2: int, v3: int, ticks: seq<int>)
    requires |ticks| >= 3
    ensures
      var e := ThreeAsks(price, maker, v1, v2, v3);
      var s := Replay(Replay(Replay(EMPTY_SHADOW, e[0], ticks[0]), e[1], ticks[1]), e[2], ticks[2]);
      && s.askLevels == map[price := ShadowLevel([1, 2, 3], Wrap64(v1 + v2 + v3))] && s.violations == []
      && 1 in s.orders && s.orders[1] == ShadowOrder(1, price, v1, v1, false, false, false, ticks[0])
  {
    hide Wrap64, OnLimitAdd, Enqueue;
    var t1 := Wrap64(0 + v1);
    var t2 := Wrap64(t1 + v2);
    var s1 := OnLimitAdd(EMPTY_SHADOW, false, price, v1, 1, ticks[0]);
    var s2 := OnLimitAdd(s1, false, price, v2, 2, ticks[1]);
    AskAdded(EMPTY_SHADOW, price, v1, 1, ticks[0]);
    AskAdded(s1, price, v2, 2, ticks[1]);
    AskAdded(s2, price, v3, 3, ticks[2]);
    EnqueueOnly(price, [], 0, 1, v1);
    EnqueueOnly(price, [1], t1, 2, v2);
    EnqueueOnly(price, [1, 2], t2, 3, v3);
    assert [] + [1] == [1] && [1] + [2] == [1, 2] && [1, 2] + [3] == [1, 2, 3];
    WrapSum(v1, v2);
    WrapSum(v1 + v2, v3);
  }

  /** Cancelling the first of three orders drops the level exactly when the other two
      add up to nothing positive. */
  lemma LostLevel(s: Shadow, price: int, v: int, rest: int, tick: int)
    requires s.askLevels == map[price := ShadowLevel([1, 2, 3], Wrap64(v + rest))]
    requires 1 in s.orders
    requires var so := s.orders[1];
      !so.isBid && so.price == price && so.remaining == v && !so.isCancelled && !so.isFullyFilled
    ensures
      var s' := Replay(s, Cancelled(1, true), tick);
      && s'.askLevels == (if Wrap64(rest) <= 0 then map[] else map[price := ShadowLevel([2, 3], Wrap64(rest))])
      && (s'.askLevels == map[] <==> Wrap64(rest) <= 0)
      && s'.bestAsk == (if Wrap64(rest) <= 0 then INT64_MAX else price)
      && s'.violations == s.violations
  {
    hide Wrap64;
    assert RemoveFirst([1, 2, 3], 1) == [2, 3];
    WrapSum(v + rest, -v);
    assert s.askLevels - {price} == map[];
    var l := ShadowLevel([2, 3], Wrap64(rest));
    assert s.askLevels[price := l] == map[price := l];
    assert map[price := l].Keys == {price} && price in map[price := l];
  }

  /** With other volumes a level can be lost. After the cancel of the first of three
      asks the level is dropped, though two asks rest there, exactly when what these
      add up to is not positive in 64 bits, as for -10 and 5 or for 2^62 and 2^62.
      Then the next, correct, buy fill is reported, and a fill that skips the older
      of the two is no priority breach; otherwise neither happens. */
  lemma LostLevelIsAccused(price: int, maker: int, taker: int, v1: int, v2: int, v3: int, ticks: seq<int>)
    requires INT64_MIN + ONE_CENT <= price <= INT64_MAX && |ticks| == 5
    ensures
      var o := Resting(false, price, v2, maker);
      var before := ThreeAsks(price, maker, v1, v2, v3);
      var es := before + [Filled(FillOf(2, o, v2, true, taker))];
      && Lawful(EMPTY_BOOK, es)
      && StateAfter(EMPTY_BOOK, before).orders == map[2 := o, 3 := Resting(false, price, v3, maker)]
      && (FifoFault(ReplayAll(EMPTY_SHADOW, before, ticks[..4]), 3) <==> Wrap64(v2 + v3) > 0)
      && ReplayAll(EMPTY_SHADOW, es, ticks).violations
         == (if Wrap64(v2 + v3) <= 0 || price > INT64_MAX - ONE_CENT
             then [Violation(FillPriceInvalid, ticks[4], 2)] else [])
  {
    hide ReplayAll, Lawful, StateAfter, Replay, Legal, After, FifoFault, Wrap64;
    var before := ThreeAsks(price, maker, v1, v2, v3);
    var es := before + [Filled(FillOf(2, Resting(false, price, v2, maker), v2, true, taker))];
    var s1, b1 := Replay(EMPTY_SHADOW, es[0], ticks[0]), After(EMPTY_BOOK, es[0]);
    var s2, b2 := Replay(s1, es[1], ticks[1]), After(b1, es[1]);
    var s3, b3 := Replay(s2, es[2], ticks[2]), After(b2, es[2]);
    var s4, b4 := Replay(s3, es[3], ticks[3]), After(b3, es[3]);
    LiveAsks(price, maker, taker, v1, v2, v3);
    ThreeQueued(price, maker, v1, v2, v3, ticks);
    assert v1 + v2 + v3 == v1 + (v2 + v3);
    LostLevel(s3, price, v1, v2 + v3, ticks[3]);
    NothingYet();
    Advance(es, ticks, 0, EMPTY_SHADOW, EMPTY_BOOK);
    Advance(es, ticks, 1, s1, b1);
    Advance(es, ticks, 2, s2, b2);
    Advance(es, ticks, 3, s3, b3);
    assert es[..4] == before;
    SecondWaits(before, ticks[..4], s4, b4, price);
    DrawnNext(before, ticks, s4, b4, es[4]);
    Advance(es, ticks, 4, s4, b4);
    assert es[..5] == es && ticks[..5] == ticks;
  }

  /** The third ask waits for the second exactly while its level is there. */
  lemma SecondWaits(es: seq<Event>, ticks: seq<int>, s: Shadow, b: Book, price: int)
    requires Reaches(es, ticks, s, b) && 2 in b.orders && 3 in b.orders
    requires AtPrice(b.orders, false, price, 3)
    requires s.askLevels == map[] || (price in s.askLevels && s.askLevels[price].orderIds == [2, 3])
    ensures FifoFault(s, 3) <==> s.askLevels != map[]
  {
    RunMirrors(es, ticks);
    assert SameOpenOrder(s.orders[3], b.orders[3]) && SameOpenOrder(s.orders[2], b.orders[2]);
  }

  /** Replaying in two parts. */
  lemma {:induction false} ReplayAppend(s: Shadow, es: seq<Event>, fs: seq<Event>, t: seq<int>, u: seq<int>)
    requires |t| == |es| && |u| == |fs|
    ensures ReplayAll(s, es + fs, t + u) == ReplayAll(ReplayAll(s, es, t), fs, u)
  {
    hide Replay;
    if fs == [] {
      assert es + fs == es && t + u == t;
    } else {
      var n := |fs| - 1;
      ReplayAppend(s, es, fs[..n], t, u[..n]);
      assert (es + fs)[..|es| + n] == es + fs[..n] && (t + u)[..|es| + n] == t + u[..n];
    }
  }
}

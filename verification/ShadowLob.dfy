/** The shadow book (game-master/shadow_lob.hpp, `ShadowLOB`). */
module ShadowLobs {
  import opened MarketTypes
  import opened PriceTimeBook
  import opened ShadowSpec

  class ShadowLob {
    var orders: map<nat, ShadowOrder>
    var bidLevels: Levels
    var askLevels: Levels
    var bestBid: int
    var bestAsk: int
    var lastTrade: int
    var position: int
    var cash: int
    var contestantFills: int
    var globalSeq: nat
    var violations: seq<Violation>
    var penalties: Penalties

    function State(): Shadow
      reads this
    {
      Shadow(orders, bidLevels, askLevels, bestBid, bestAsk, lastTrade, position, cash,
             contestantFills, globalSeq, violations, penalties)
    }

    constructor ()
      ensures State() == EMPTY_SHADOW
    {
      orders, bidLevels, askLevels := map[], map[], map[];
      bestBid, bestAsk, lastTrade := 0, INT64_MAX, 0;
      position, cash, contestantFills, globalSeq := 0, STARTING_CASH, 0, 0;
      violations, penalties := [], NO_PENALTIES;
    }

    method AddViolation(kind: ViolationType, tick: int, id: nat)
      modifies this`violations, this`penalties
      ensures State() == Report(old(State()), kind, tick, id)
    {
      if |violations| < MAX_VIOLATIONS {
        violations := violations + [Violation(kind, tick, id)];
      }
      penalties := Penalize(penalties, kind);
    }

    /** Records an accepted limit order. */
    method OnLimitAdd(isBid: bool, price: int, volume: int, participant: int, id: nat, tick: int)
      modifies this
      ensures State() == ShadowSpec.OnLimitAdd(old(State()), isBid, price, volume, id, tick)
    {
      hide Enqueue;
      globalSeq := globalSeq + 1;
      orders := orders[id := ShadowOrder(globalSeq, price, volume, volume, isBid, false, false, tick)];
      QueueOrder(isBid, price, volume, id);
      if isBid && price > bestBid { bestBid := price; }
      if !isBid && price < bestAsk { bestAsk := price; }
    }

    /** Puts the id at the back of its level. */
    method QueueOrder(isBid: bool, price: int, volume: int, id: nat)
      modifies this`bidLevels, this`askLevels
      ensures bidLevels == if isBid then Enqueue(old(bidLevels), price, id, volume) else old(bidLevels)
      ensures askLevels == if isBid then old(askLevels) else Enqueue(old(askLevels), price, id, volume)
    {
      if isBid {
        var l := if price in bidLevels then bidLevels[price] else ShadowLevel([], 0);
        bidLevels := bidLevels[price := ShadowLevel(l.orderIds + [id], Wrap64(l.totalVolume + volume))];
      } else {
        var l := if price in askLevels then askLevels[price] else ShadowLevel([], 0);
        askLevels := askLevels[price := ShadowLevel(l.orderIds + [id], Wrap64(l.totalVolume + volume))];
      }
    }

    /** Checks a fill against the shadow book, then applies it. */
    method OnFill(f: MatchedFill, id: nat, tick: int)
      modifies this
      ensures State() == ShadowSpec.OnFill(old(State()), f, id, tick)
    {
      hide ReportIf, PriceFault, DoubleFault, FifoFault, ShadowSpec.ApplyFill, Account;
      ghost var s := State();
      CheckPrice(f, id, tick);
      lastTrade := f.price;
      SameFaults(s, State(), f, id);
      CheckMaker(f, id, tick);
      ApplyFill(f, id);
      TrackContestant(f);
    }

    /** The double-fill check, then the time-priority check. */
    method CheckMaker(f: MatchedFill, id: nat, tick: int)
      modifies this`violations, this`penalties
      ensures
        var s := old(State());
        State() == ReportIf(ReportIf(s, DoubleFault(s, f, id), DoubleFill, tick, id),
                            FifoFault(s, id), FifoPriorityBreach, tick, id)
    {
      if id !in orders {
        AddViolation(DoubleFill, tick, id);
        return;
      }
      var so := orders[id];
      if so.isCancelled || f.volume > so.remaining {
        AddViolation(DoubleFill, tick, id);
      }
      var levels := if so.isBid then bidLevels else askLevels;
      if so.price in levels && levels[so.price].orderIds != [] {
        var front := levels[so.price].orderIds[0];
        if front != id && front in orders && orders[front].sequence < so.sequence && !orders[front].isCancelled {
          AddViolation(FifoPriorityBreach, tick, id);
        }
      }
    }

    method ApplyFill(f: MatchedFill, id: nat)
      modifies this`orders, this`bidLevels, this`askLevels, this`bestBid, this`bestAsk
      ensures State() == ShadowSpec.ApplyFill(old(State()), f, id)
    {
      if id in orders {
        var so := orders[id].(remaining := orders[id].remaining - f.volume);
        if so.remaining <= 0 {
          CloseOrder(id, so.(isFullyFilled := true));
        } else {
          orders := orders[id := so];
        }
      }
    }

    method CheckPrice(f: MatchedFill, id: nat, tick: int)
      modifies this`violations, this`penalties
      ensures State() == ReportIf(old(State()), PriceFault(old(State()), f), FillPriceInvalid, tick, id)
    {
      if f.takerIsBuy {
        if f.price > Wrap64(bestAsk + ONE_CENT) { AddViolation(FillPriceInvalid, tick, id); }
      } else {
        if f.price < Wrap64(bestBid - ONE_CENT) { AddViolation(FillPriceInvalid, tick, id); }
      }
    }

    method TrackContestant(f: MatchedFill)
      modifies this`position, this`cash, this`contestantFills
      ensures State() == Account(old(State()), f)
    {
      if f.taker == CONTESTANT || f.maker == CONTESTANT {
        var buys := (f.takerIsBuy && f.taker == CONTESTANT) || (!f.takerIsBuy && f.maker == CONTESTANT);
        var sign := if buys then 1 else -1;
        position := Wrap64(position + sign * f.volume);
        cash := cash - Wrap64(sign * f.volume * f.price);
        contestantFills := contestantFills + 1;
      }
    }

    /** Removes an order from its level and the table, and refreshes the quotes. */
    method CloseOrder(id: nat, so: ShadowOrder)
      modifies this`orders, this`bidLevels, this`askLevels, this`bestBid, this`bestAsk
      ensures State() == Close(old(State()), id, so)
    {
      RemoveOrder(id, so);
      orders := orders - {id};
      UpdateQuotes();
    }

    method RemoveOrder(id: nat, so: ShadowOrder)
      modifies this`bidLevels, this`askLevels
      ensures State() == old(State()).WithSide(so.isBid, RemoveFromLevel(old(State()).Side(so.isBid), id, so))
    {
      if so.isBid {
        bidLevels := RemoveIn(bidLevels, id, so);
      } else {
        askLevels := RemoveIn(askLevels, id, so);
      }
    }

    method UpdateQuotes()
      modifies this`bestBid, this`bestAsk
      ensures State() == UpdateBest(old(State()))
    {
      if bidLevels == map[] { bestBid := 0; } else { bestBid := FirstKey(bidLevels.Keys, true); }
      if askLevels == map[] { bestAsk := INT64_MAX; } else { bestAsk := FirstKey(askLevels.Keys, false); }
    }

    /** Records a cancel, checking that the order was still open. */
    method OnCancel(id: nat, liveSucceeded: bool, tick: int)
      modifies this
      ensures State() == ShadowSpec.OnCancel(old(State()), id, liveSucceeded, tick)
    {
      ghost var s := State();
      if id !in orders {
        if liveSucceeded { AddViolation(StaleCancel, tick, id); }
        return;
      }
      var so := orders[id];
      if so.isCancelled || so.isFullyFilled {
        AddViolation(StaleCancel, tick, id);
        return;
      }
      so := so.(isCancelled := true);
      CloseOrder(id, so);
    }

    /** Compares the contestant's account with the reported one. */
    method ValidateContestantState(reportedPosition: int, reportedCash: int, tick: int)
      modifies this
      ensures State() == Validate(old(State()), reportedPosition, reportedCash, tick)
    {
      if Abs64(Wrap64(position - reportedPosition)) > 1 {
        AddViolation(PositionIntegrityMismatch, tick, 0);
      }
      var diff := cash - reportedCash;
      if diff < 0 { diff := -diff; }
      if diff > ONE_CENT {
        AddViolation(CashIntegrityMismatch, tick, 0);
      }
    }
  }

  lemma SameFaults(s: Shadow, s': Shadow, f: MatchedFill, id: nat)
    requires s'.orders == s.orders && s'.bidLevels == s.bidLevels && s'.askLevels == s.askLevels
    ensures DoubleFault(s', f, id) == DoubleFault(s, f, id)
    ensures FifoFault(s', id) == FifoFault(s, id)
  {
  }

  /** The first key of an ordered map: the best price of the side. */
  method FirstKey(keys: set<int>, isBid: bool) returns (p: int)
    requires keys != {}
    ensures p == BestKey(keys, isBid)
  {
    HasMember(keys);
    p :| p in keys;
    var rest := keys - {p};
    while rest != {}
      invariant p in keys && rest <= keys
      invariant forall q :: q in keys && q !in rest && q != p ==> Better(isBid, p, q)
      decreases |rest|
    {
      HasMember(rest);
      var q :| q in rest;
      rest := rest - {q};
      if (if isBid then q > p else q < p) { p := q; }
    }
    assert IsBestKey(keys, isBid, p);
  }

  /** Finds the order in the level's queue and takes it out. */
  method RemoveIn(levels: Levels, id: nat, so: ShadowOrder) returns (r: Levels)
    ensures r == RemoveFromLevel(levels, id, so)
  {
    if so.price !in levels { return levels; }
    var l := levels[so.price];
    var k := 0;
    while k < |l.orderIds| && l.orderIds[k] != id
      invariant k <= |l.orderIds| && id !in l.orderIds[..k]
    {
      k := k + 1;
    }
    if k < |l.orderIds| {
      RemoveFirstAt(l.orderIds, id, k);
      l := ShadowLevel(l.orderIds[..k] + l.orderIds[k + 1..], Wrap64(l.totalVolume - so.remaining));
    }
    if l.totalVolume <= 0 || l.orderIds == [] {
      r := levels - {so.price};
    } else {
      r := levels[so.price := l];
    }
  }

  lemma {:induction false} RemoveFirstAt(ids: seq<nat>, id: nat, k: nat)
    requires k < |ids| && ids[k] == id && id !in ids[..k]
    ensures RemoveFirst(ids, id) == ids[..k] + ids[k + 1..]
  {
    if k > 0 {
      assert ids[0] == ids[..k][0];
      assert ids[1..][..k - 1] == ids[..k][1..];
      RemoveFirstAt(ids[1..], id, k - 1);
    }
  }
}

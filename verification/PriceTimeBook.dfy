/** The reference book: resting orders keyed by id, matched by price, then by
    id. It has no queues, levels or pool; the engine is proved against it. */
module PriceTimeBook {
  import opened MarketTypes

  datatype Resting = Resting(isBid: bool, price: int, volume: int, participant: int)

  type Orders = map<nat, Resting>

  datatype Book = Book(orders: Orders, nextId: nat, lastTrade: int, totalFills: nat)

  const EMPTY_BOOK := Book(map[], 1, 0, 0)

  /** Ids are handed out in increasing order starting at 1. */
  ghost predicate IdsIssued(b: Book) {
    0 < b.nextId && forall id :: id in b.orders ==> 0 < id < b.nextId
  }

  predicate PositiveVolumes(os: Orders) {
    forall id :: id in os ==> os[id].volume > 0
  }

  predicate OnSide(os: Orders, isBid: bool, id: nat) {
    id in os && os[id].isBid == isBid
  }

  predicate AtPrice(os: Orders, isBid: bool, price: int, id: nat) {
    OnSide(os, isBid, id) && os[id].price == price
  }

  /** A strictly better price: higher for bids, lower for asks. */
  predicate Better(isBid: bool, p: int, q: int) {
    if isBid then p > q else p < q
  }

  /** Price-time priority between two orders of one side. */
  predicate Precedes(os: Orders, isBid: bool, i: nat, j: nat)
    requires i in os && j in os
  {
    Better(isBid, os[i].price, os[j].price) || (os[i].price == os[j].price && i < j)
  }

  /** `id` is the order every other order of its side waits for. */
  ghost predicate IsTop(os: Orders, isBid: bool, id: nat) {
    OnSide(os, isBid, id) &&
    forall j :: OnSide(os, isBid, j) && j != id ==> Precedes(os, isBid, id, j)
  }

  ghost predicate HasSide(os: Orders, isBid: bool) {
    exists id :: OnSide(os, isBid, id)
  }

  lemma {:induction false} TopExists(os: Orders, isBid: bool)
    requires HasSide(os, isBid)
    ensures exists id :: IsTop(os, isBid, id)
    decreases |os|
  {
    var k :| OnSide(os, isBid, k);
    var rest := os - {k};
    if HasSide(rest, isBid) {
      TopExists(rest, isBid);
      var t :| IsTop(rest, isBid, t);
      var top := if Precedes(os, isBid, k, t) then k else t;
      assert forall j :: OnSide(os, isBid, j) && j != k ==> OnSide(rest, isBid, j);
      assert IsTop(os, isBid, top);
    } else {
      assert forall j :: OnSide(os, isBid, j) && j != k ==> OnSide(rest, isBid, j);
      assert IsTop(os, isBid, k);
    }
  }

  ghost function Top(os: Orders, isBid: bool): (id: nat)
    requires HasSide(os, isBid)
    ensures IsTop(os, isBid, id)
  {
    TopExists(os, isBid);
    var id :| IsTop(os, isBid, id);
    id
  }

  /** Takes `v` off the order; an order left with nothing leaves the book. */
  function Reduce(os: Orders, id: nat, v: int): (r: Orders)
    requires id in os
  {
    if v == os[id].volume then os - {id}
    else os[id := os[id].(volume := os[id].volume - v)]
  }

  function FillOf(id: nat, o: Resting, v: int, isBuy: bool, taker: int): MatchedFill {
    MatchedFill(o.price, v, taker, o.participant, id, isBuy,
                taker == CONTESTANT, o.participant == CONTESTANT)
  }

  datatype MatchResult = MatchResult(fills: seq<MatchedFill>, orders: Orders, left: int)

  /** Greedy matching: the top order trades until the taker or the side is done. */
  ghost function Match(os: Orders, isBuy: bool, volume: int, taker: int): MatchResult
    decreases |os|
  {
    if volume <= 0 || !HasSide(os, !isBuy) then
      MatchResult([], os, volume)
    else
      var id := Top(os, !isBuy);
      var v := Min(volume, os[id].volume);
      var f := FillOf(id, os[id], v, isBuy, taker);
      if v == os[id].volume then
        var r := Match(os - {id}, isBuy, volume - v, taker);
        MatchResult([f] + r.fills, r.orders, r.left)
      else
        MatchResult([f], Reduce(os, id, v), 0)
  }

  /** One turn of the matching loop, whatever order turns out to be the top. */
  lemma MatchTurn(os: Orders, isBuy: bool, volume: int, taker: int, id: nat)
    requires volume > 0 && IsTop(os, !isBuy, id)
    ensures
      var v := Min(volume, os[id].volume);
      var r := Match(Reduce(os, id, v), isBuy, volume - v, taker);
      Match(os, isBuy, volume, taker)
      == MatchResult([FillOf(id, os[id], v, isBuy, taker)] + r.fills, r.orders, r.left)
  {
    var top := Top(os, !isBuy);
    assert top == id;
  }

  /** The book after a limit order has been accepted. */
  function Accept(b: Book, isBid: bool, price: int, volume: int, participant: int): Book {
    b.(orders := b.orders[b.nextId := Resting(isBid, price, volume, participant)],
       nextId := b.nextId + 1)
  }

  function Withdraw(b: Book, id: nat): Book {
    b.(orders := b.orders - {id})
  }

  function LastPrice(fills: seq<MatchedFill>, before: int): int {
    if fills == [] then before else fills[|fills| - 1].price
  }

  ghost function Trade(b: Book, isBuy: bool, volume: int, taker: int): Book {
    var r := Match(b.orders, isBuy, volume, taker);
    b.(orders := r.orders, lastTrade := LastPrice(r.fills, b.lastTrade),
       totalFills := b.totalFills + |r.fills|)
  }

  // ---------------------------------------------------------------- depth

  /** All prices of a side, or a single one. */
  datatype Prices = AnyPrice | Only(price: int)

  predicate Selects(at: Prices, price: int) {
    at == AnyPrice || at == Only(price)
  }

  /** The volume of the orders with ids below `n` on a side, at the prices `at`. */
  ghost function Depth(os: Orders, isBid: bool, at: Prices, n: nat): int {
    if n == 0 then 0
    else Depth(os, isBid, at, n - 1)
         + (if OnSide(os, isBid, n - 1) && Selects(at, os[n - 1].price) then os[n - 1].volume else 0)
  }

  /** Changing one order changes the depth by its own contribution only. */
  lemma {:induction false} DepthChange(os: Orders, os': Orders, isBid: bool, at: Prices, n: nat, id: nat)
    requires forall j: nat :: j != id ==> (j in os <==> j in os') && (j in os ==> os[j] == os'[j])
    ensures
      Depth(os', isBid, at, n) - Depth(os, isBid, at, n)
      == if id >= n then 0
         else (if OnSide(os', isBid, id) && Selects(at, os'[id].price) then os'[id].volume else 0)
              - (if OnSide(os, isBid, id) && Selects(at, os[id].price) then os[id].volume else 0)
  {
    if n > 0 {
      DepthChange(os, os', isBid, at, n - 1, id);
    }
  }

  lemma {:induction false} DepthNonNegative(os: Orders, isBid: bool, at: Prices, n: nat)
    requires PositiveVolumes(os)
    ensures Depth(os, isBid, at, n) >= 0
    ensures forall id: nat :: id < n && OnSide(os, isBid, id) && Selects(at, os[id].price)
              ==> Depth(os, isBid, at, n) >= os[id].volume
  {
    if n > 0 {
      DepthNonNegative(os, isBid, at, n - 1);
    }
  }

  ghost function FilledVolume(fills: seq<MatchedFill>): int {
    if fills == [] then 0 else fills[0].volume + FilledVolume(fills[1..])
  }

  /** Equal in everything but the remaining volume. */
  predicate SameTerms(a: Resting, b: Resting) {
    a.isBid == b.isBid && a.price == b.price && a.participant == b.participant
  }

  /** Whatever the volumes: the fills and the remainder add up to the request,
      the side loses exactly what was filled, the other side is untouched, and a
      positive remainder means the side is empty. */
  lemma {:induction false} MatchConserves(os: Orders, isBuy: bool, volume: int, taker: int, n: nat)
    requires forall id :: id in os ==> id < n
    ensures
      var r := Match(os, isBuy, volume, taker);
      && FilledVolume(r.fills) + r.left == volume
      && Depth(r.orders, !isBuy, AnyPrice, n)
         == Depth(os, !isBuy, AnyPrice, n) - FilledVolume(r.fills)
      && (r.left > 0 ==> !HasSide(r.orders, !isBuy))
      && (forall id :: id in r.orders ==> id in os && SameTerms(r.orders[id], os[id]))
      && (forall id :: OnSide(os, isBuy, id) ==> id in r.orders && r.orders[id] == os[id])
    decreases |os|
  {
    hide Match, Depth, FilledVolume;
    if volume > 0 && HasSide(os, !isBuy) {
      var id := Top(os, !isBuy);
      var v := Min(volume, os[id].volume);
      var os' := Reduce(os, id, v);
      DepthChange(os, os', !isBuy, AnyPrice, n, id);
      MatchTurn(os, isBuy, volume, taker, id);
      FilledHead(FillOf(id, os[id], v, isBuy, taker), Match(os', isBuy, volume - v, taker).fills);
      if v == os[id].volume {
        MatchConserves(os', isBuy, volume - v, taker, n);
      } else {
        MatchEnds(os', isBuy, volume - v, taker);
      }
    } else {
      MatchEnds(os, isBuy, volume, taker);
    }
  }

  lemma FilledHead(f: MatchedFill, rest: seq<MatchedFill>)
    ensures FilledVolume([f] + rest) == f.volume + FilledVolume(rest)
  {
    assert ([f] + rest)[1..] == rest;
  }

  lemma MatchEnds(os: Orders, isBuy: bool, remaining: int, taker: int)
    requires remaining > 0 ==> !HasSide(os, !isBuy)
    ensures Match(os, isBuy, remaining, taker) == MatchResult([], os, remaining) && FilledVolume([]) == 0
  {
  }

  lemma {:induction false} NoOrdersNoDepth(os: Orders, isBid: bool, at: Prices, n: nat)
    requires forall id :: OnSide(os, isBid, id) ==> !Selects(at, os[id].price)
    ensures Depth(os, isBid, at, n) == 0
  {
    if n > 0 {
      NoOrdersNoDepth(os, isBid, at, n - 1);
    }
  }

  ghost predicate SameSide(os: Orders, os': Orders, isBid: bool) {
    && (forall id :: OnSide(os, isBid, id) ==> id in os' && os'[id] == os[id])
    && (forall id :: OnSide(os', isBid, id) ==> OnSide(os, isBid, id))
  }

  lemma {:induction false} SameSideSameDepth(os: Orders, os': Orders, isBid: bool, at: Prices, n: nat)
    requires SameSide(os, os', isBid)
    ensures Depth(os', isBid, at, n) == Depth(os, isBid, at, n)
  {
    if n > 0 {
      SameSideSameDepth(os, os', isBid, at, n - 1);
    }
  }

  lemma {:induction false} DepthBound(os: Orders, isBid: bool, at: Prices, m: nat, n: nat)
    requires m <= n && forall id :: id in os ==> id < m
    ensures Depth(os, isBid, at, n) == Depth(os, isBid, at, m)
  {
    if m < n {
      DepthBound(os, isBid, at, m, n - 1);
      assert n - 1 !in os;
    }
  }

  lemma {:induction false} MatchKeepsPositive(os: Orders, isBuy: bool, volume: int, taker: int)
    requires PositiveVolumes(os)
    ensures PositiveVolumes(Match(os, isBuy, volume, taker).orders)
    ensures volume >= 0 ==> Match(os, isBuy, volume, taker).left >= 0
    ensures forall f :: f in Match(os, isBuy, volume, taker).fills ==> f.volume > 0
    decreases |os|
  {
    if volume > 0 && HasSide(os, !isBuy) {
      var id := Top(os, !isBuy);
      var v := Min(volume, os[id].volume);
      if v == os[id].volume {
        MatchKeepsPositive(os - {id}, isBuy, volume - v, taker);
      }
    }
  }

  /** The traded volume is the smaller of the request and the side's depth. */
  lemma MatchedVolume(os: Orders, isBuy: bool, volume: int, taker: int, n: nat)
    requires PositiveVolumes(os) && volume >= 0
    requires forall id :: id in os ==> id < n
    ensures FilledVolume(Match(os, isBuy, volume, taker).fills)
            == Min(volume, Depth(os, !isBuy, AnyPrice, n))
  {
    var r := Match(os, isBuy, volume, taker);
    MatchConserves(os, isBuy, volume, taker, n);
    MatchKeepsPositive(os, isBuy, volume, taker);
    DepthNonNegative(r.orders, !isBuy, AnyPrice, n);
    if r.left > 0 {
      NoOrdersNoDepth(r.orders, !isBuy, AnyPrice, n);
    }
  }

  /** The order rests on, as it was. */
  predicate Untraded(os: Orders, os': Orders, id: nat) {
    id in os && id in os' && os'[id] == os[id]
  }

  /** Of two orders of the side, the one that trades has priority over the one that
      does not, and the one that goes over the one that stays. */
  ghost predicate BestWentFirst(os: Orders, os': Orders, isBid: bool) {
    forall x, y :: OnSide(os, isBid, x) && OnSide(os, isBid, y) && x != y && FaredWorse(os, os', y, x) ==>
      Precedes(os, isBid, y, x)
  }

  /** `y` traded and `x` did not, or `y` is gone and `x` is not. */
  predicate FaredWorse(os: Orders, os': Orders, y: nat, x: nat) {
    x in os' && if Untraded(os, os', x) then !Untraded(os, os', y) else y !in os'
  }

  lemma {:induction false} MatchTakesBest(os: Orders, isBuy: bool, volume: int, taker: int)
    ensures BestWentFirst(os, Match(os, isBuy, volume, taker).orders, !isBuy)
    decreases |os|
  {
    hide Match;
    if volume > 0 && HasSide(os, !isBuy) {
      var id := Top(os, !isBuy);
      var v := Min(volume, os[id].volume);
      var os1 := Reduce(os, id, v);
      MatchTurn(os, isBuy, volume, taker, id);
      if v == os[id].volume {
        MatchTakesBest(os1, isBuy, volume - v, taker);
        MatchOnlyTakes(os1, isBuy, volume - v, taker);
        BestAfterTop(os, os1, Match(os1, isBuy, volume - v, taker).orders, !isBuy, id);
      } else {
        MatchEnds(os1, isBuy, volume - v, taker);
      }
    } else {
      MatchEnds(os, isBuy, volume, taker);
    }
  }

  lemma {:induction false} MatchOnlyTakes(os: Orders, isBuy: bool, volume: int, taker: int)
    ensures Match(os, isBuy, volume, taker).orders.Keys <= os.Keys
    decreases |os|
  {
    if volume > 0 && HasSide(os, !isBuy) {
      var id := Top(os, !isBuy);
      if Min(volume, os[id].volume) == os[id].volume { MatchOnlyTakes(os - {id}, isBuy, volume - os[id].volume, taker); }
    }
  }

  lemma BestAfterTop(os: Orders, os1: Orders, os': Orders, isBid: bool, id: nat)
    requires IsTop(os, isBid, id) && os1 == os - {id} && os'.Keys <= os1.Keys && BestWentFirst(os1, os', isBid)
    ensures BestWentFirst(os, os', isBid)
  {
    forall x, y | OnSide(os, isBid, x) && OnSide(os, isBid, y) && x != y && FaredWorse(os, os', y, x)
      ensures Precedes(os, isBid, y, x)
    {
      if y != id { assert FaredWorse(os1, os', y, x) && Precedes(os1, isBid, y, x); }
    }
  }

  function Makers(fills: seq<MatchedFill>): set<nat> {
    if fills == [] then {} else {fills[0].makerId} + Makers(fills[1..])
  }

  /** The fill at position `k` goes to the order that is the top once the makers
      of the earlier fills are gone; every fill but the last takes its maker's
      whole volume. */
  ghost predicate FollowsPriority(os: Orders, isBuy: bool, taker: int, fills: seq<MatchedFill>, k: nat)
    requires k < |fills|
  {
    var f := fills[k];
    && IsTop(os - Makers(fills[..k]), !isBuy, f.makerId)
    && f == FillOf(f.makerId, os[f.makerId], f.volume, isBuy, taker)
    && f.volume <= os[f.makerId].volume
    && (k < |fills| - 1 ==> f.volume == os[f.makerId].volume)
  }

  lemma PriorityShifts(os: Orders, isBuy: bool, taker: int, f: MatchedFill, rest: seq<MatchedFill>, k: nat)
    requires k < |rest|
    requires FollowsPriority(os - {f.makerId}, isBuy, taker, rest, k)
    ensures FollowsPriority(os, isBuy, taker, [f] + rest, k + 1)
  {
    var fills := [f] + rest;
    assert fills[..k + 1][1..] == rest[..k];
    assert os - Makers(fills[..k + 1]) == (os - {f.makerId}) - Makers(rest[..k]);
  }

  /** A match that trades starts with the top order; it goes on only when that
      order is used up. */
  lemma MatchHead(os: Orders, isBuy: bool, volume: int, taker: int)
    requires Match(os, isBuy, volume, taker).fills != []
    ensures HasSide(os, !isBuy)
    ensures
      var fills := Match(os, isBuy, volume, taker).fills;
      var id := Top(os, !isBuy);
      var v := Min(volume, os[id].volume);
      && fills[0] == FillOf(id, os[id], v, isBuy, taker)
      && fills == [fills[0]] + (if v == os[id].volume then Match(os - {id}, isBuy, volume - v, taker).fills else [])
  {
  }

  lemma {:induction false} MatchFollowsPriority(os: Orders, isBuy: bool, volume: int, taker: int, k: nat)
    requires k < |Match(os, isBuy, volume, taker).fills|
    ensures FollowsPriority(os, isBuy, taker, Match(os, isBuy, volume, taker).fills, k)
    decreases |os|
  {
    hide Match, FollowsPriority, FillOf;
    MatchHead(os, isBuy, volume, taker);
    var fills := Match(os, isBuy, volume, taker).fills;
    var id := Top(os, !isBuy);
    var v := Min(volume, os[id].volume);
    if k == 0 {
      FillOfFields(id, os[id], v, isBuy, taker);
      FirstFollows(os, isBuy, taker, fills);
    } else {
      assert v == os[id].volume;
      FillOfFields(id, os[id], v, isBuy, taker);
      MatchFollowsPriority(os - {id}, isBuy, volume - v, taker, k - 1);
      PriorityShifts(os, isBuy, taker, fills[0], Match(os - {id}, isBuy, volume - v, taker).fills, k - 1);
    }
  }

  lemma FillOfFields(id: nat, o: Resting, v: int, isBuy: bool, taker: int)
    ensures FillOf(id, o, v, isBuy, taker).makerId == id && FillOf(id, o, v, isBuy, taker).volume == v
  {
  }

  lemma FirstFollows(os: Orders, isBuy: bool, taker: int, fills: seq<MatchedFill>)
    requires fills != [] && IsTop(os, !isBuy, fills[0].makerId)
    requires fills[0] == FillOf(fills[0].makerId, os[fills[0].makerId], fills[0].volume, isBuy, taker)
    requires fills[0].volume <= os[fills[0].makerId].volume
    requires |fills| > 1 ==> fills[0].volume == os[fills[0].makerId].volume
    ensures FollowsPriority(os, isBuy, taker, fills, 0)
  {
    assert os - Makers(fills[..0]) == os;
  }

  /** What a fill says: whom it is against, at what price, and who took it. */
  predicate NamesParties(f: MatchedFill, os: Orders, isBuy: bool, taker: int) {
    && OnSide(os, !isBuy, f.makerId)
    && f.price == os[f.makerId].price && f.maker == os[f.makerId].participant
    && f.taker == taker && f.takerIsBuy == isBuy
    && (f.contestantIsTaker <==> taker == CONTESTANT)
    && (f.contestantIsMaker <==> os[f.makerId].participant == CONTESTANT)
  }

  /** Every fill of a match is against an order of the opposite side, whose price and
      owner it names beside those of the taker. */
  lemma FillsNameParties(os: Orders, isBuy: bool, volume: int, taker: int, k: nat)
    requires k < |Match(os, isBuy, volume, taker).fills|
    ensures NamesParties(Match(os, isBuy, volume, taker).fills[k], os, isBuy, taker)
  {
    hide Match, Makers;
    MatchFollowsPriority(os, isBuy, volume, taker, k);
  }

  // ---------------------------------------------------------------- queues

  /** `ids` is the queue at a price: its orders in the order they were placed. */
  ghost predicate IsQueue(os: Orders, isBid: bool, price: int, ids: seq<nat>) {
    && (forall j, k :: 0 <= j < k < |ids| ==> ids[j] < ids[k])
    && (forall id :: id in ids <==> AtPrice(os, isBid, price, id))
  }

  /** There is only one queue at a price. */
  lemma {:induction false} QueueUnique(a: seq<nat>, b: seq<nat>)
    requires forall j, k :: 0 <= j < k < |a| ==> a[j] < a[k]
    requires forall j, k :: 0 <= j < k < |b| ==> b[j] < b[k]
    requires forall id :: id in a <==> id in b
    ensures a == b
  {
    assert b != [] ==> b[0] in b;
    if a != [] {
      assert a[0] in b;
      var m, n := |a| - 1, |b| - 1;
      assert a[m] == b[n] by {
        assert a[m] in b && b[n] in a;
      }
      forall id ensures id in a[..m] <==> id in b[..n] {
        assert id in a <==> id in a[..m] || id == a[m];
        assert id in b <==> id in b[..n] || id == b[n];
      }
      QueueUnique(a[..m], b[..n]);
    }
  }

  // ------------------------------------------------------------ best prices

  ghost predicate IsBestKey(keys: set<int>, isBid: bool, p: int) {
    p in keys && forall q :: q in keys && q != p ==> Better(isBid, p, q)
  }

  lemma {:induction false} BestKeyExists(keys: set<int>, isBid: bool)
    requires keys != {}
    ensures exists p :: IsBestKey(keys, isBid, p)
    decreases |keys|
  {
    HasMember(keys);
    var k :| k in keys;
    var rest := keys - {k};
    if rest == {} {
      assert keys == {k};
      assert IsBestKey(keys, isBid, k);
    } else {
      BestKeyExists(rest, isBid);
      var p :| IsBestKey(rest, isBid, p);
      var best := if Better(isBid, k, p) then k else p;
      assert forall q :: q in keys && q != k ==> q in rest;
      assert IsBestKey(keys, isBid, best);
    }
  }

  ghost function BestKey(keys: set<int>, isBid: bool): (p: int)
    requires keys != {}
    ensures IsBestKey(keys, isBid, p)
  {
    BestKeyExists(keys, isBid);
    var p :| IsBestKey(keys, isBid, p);
    p
  }

  // ----------------------------------------------------------- queue volume

  ghost function QueueVolume(os: Orders, ids: seq<nat>): int
    requires forall k :: 0 <= k < |ids| ==> ids[k] in os
  {
    if ids == [] then 0
    else QueueVolume(os, ids[..|ids| - 1]) + os[ids[|ids| - 1]].volume
  }

  /** The depth at a price is the volume along its queue. */
  lemma {:induction false} QueueDepth(os: Orders, isBid: bool, p: int, ids: seq<nat>, n: nat)
    requires forall j, k :: 0 <= j < k < |ids| ==> ids[j] < ids[k]
    requires forall id: nat :: id in ids <==> (AtPrice(os, isBid, p, id) && id < n)
    ensures forall k :: 0 <= k < |ids| ==> ids[k] in os
    ensures QueueVolume(os, ids) == Depth(os, isBid, Only(p), n)
  {
    forall k | 0 <= k < |ids| ensures ids[k] in os && ids[k] < n {
      assert ids[k] in ids;
    }
    if n > 0 {
      if AtPrice(os, isBid, p, n - 1) {
        assert n - 1 in ids;
        var m := |ids| - 1;
        assert ids[m] == n - 1 by { assert ids[m] in ids; }
        assert forall id :: id in ids <==> id in ids[..m] || id == ids[m];
        QueueDepth(os, isBid, p, ids[..m], n - 1);
      } else {
        QueueDepth(os, isBid, p, ids, n - 1);
      }
    }
  }
}

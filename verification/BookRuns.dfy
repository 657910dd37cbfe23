/** Whole runs of the reference book: the events every operation emits, and what
    holds at each event of any run, whatever the volumes. */
module BookRuns {
  import opened MarketTypes
  import opened PriceTimeBook

  /** A call on the book. Whether an add finds room is up to the engine. */
  datatype Action =
    | Add(isBid: bool, price: int, volume: int, participant: int, accepted: bool)
    | Cancel(id: nat)
    | Market(isBuy: bool, volume: int, taker: int)

  /** One event per accepted add, per fill and per cancel. */
  datatype Event =
    | Placed(id: nat, isBid: bool, price: int, volume: int, participant: int)
    | Filled(fill: MatchedFill)
    | Cancelled(id: nat, ok: bool)

  function FillEvents(fills: seq<MatchedFill>): (es: seq<Event>)
    ensures |es| == |fills|
  {
    if fills == [] then [] else [Filled(fills[0])] + FillEvents(fills[1..])
  }

  ghost function Act(b: Book, a: Action): (Book, seq<Event>) {
    match a
    case Add(isBid, price, volume, participant, accepted) =>
      if accepted
      then (Accept(b, isBid, price, volume, participant), [Placed(b.nextId, isBid, price, volume, participant)])
      else (b, [])
    case Cancel(id) => (Withdraw(b, id), [Cancelled(id, id in b.orders)])
    case Market(isBuy, volume, taker) =>
      (Trade(b, isBuy, volume, taker), FillEvents(Match(b.orders, isBuy, volume, taker).fills))
  }

  ghost function Run(b: Book, actions: seq<Action>): (Book, seq<Event>)
    decreases |actions|
  {
    if actions == [] then (b, [])
    else
      var (b1, es) := Act(b, actions[0]);
      var (b2, fs) := Run(b1, actions[1..]);
      (b2, es + fs)
  }

  // ------------------------------------------------------- the fills of a run

  function FillsOf(es: seq<Event>): seq<MatchedFill> {
    if es == [] then []
    else var n := |es| - 1; FillsOf(es[..n]) + if es[n].Filled? then [es[n].fill] else []
  }

  function Flatten(groups: seq<seq<MatchedFill>>): seq<MatchedFill> {
    if groups == [] then [] else var n := |groups| - 1; Flatten(groups[..n]) + groups[n]
  }

  lemma {:induction false} FillsOfAppend(es: seq<Event>, fs: seq<Event>)
    ensures FillsOf(es + fs) == FillsOf(es) + FillsOf(fs)
  {
    if fs == [] {
      assert es + fs == es;
    } else {
      var n := |fs| - 1;
      FillsOfAppend(es, fs[..n]);
      assert (es + fs)[..|es| + n] == es + fs[..n] && (es + fs)[|es| + n] == fs[n];
    }
  }

  lemma {:induction false} FillsOfFillEvents(fills: seq<MatchedFill>)
    ensures FillsOf(FillEvents(fills)) == fills
  {
    if fills != [] {
      FillsOfFillEvents(fills[1..]);
      var es := [Filled(fills[0])];
      assert es[..0] == [];
      FillsOfAppend(es, FillEvents(fills[1..]));
    }
  }

  // ------------------------------------------------- events as state changes

  function After(b: Book, e: Event): Book {
    match e
    case Placed(id, isBid, price, volume, participant) => Accept(b, isBid, price, volume, participant)
    case Filled(f) =>
      if f.makerId in b.orders
      then Book(Reduce(b.orders, f.makerId, f.volume), b.nextId, f.price, b.totalFills + 1)
      else b
    case Cancelled(id, ok) => Withdraw(b, id)
  }

  /** An event a correct engine may emit in state `b`. */
  ghost predicate Legal(b: Book, e: Event) {
    match e
    case Placed(id, _, _, _, _) => id == b.nextId
    case Filled(f) =>
      && IsTop(b.orders, !f.takerIsBuy, f.makerId)
      && f == FillOf(f.makerId, b.orders[f.makerId], f.volume, f.takerIsBuy, f.taker)
      && f.volume <= b.orders[f.makerId].volume
      && (f.volume > 0 || f.volume == b.orders[f.makerId].volume)
    case Cancelled(id, ok) => ok <==> id in b.orders
  }

  function StateAfter(b: Book, es: seq<Event>): Book {
    if es == [] then b else After(StateAfter(b, es[..|es| - 1]), es[|es| - 1])
  }

  ghost predicate Lawful(b: Book, es: seq<Event>) {
    forall k :: 0 <= k < |es| ==> Legal(StateAfter(b, es[..k]), es[k])
  }

  lemma {:induction false} StateAppend(b: Book, es: seq<Event>, fs: seq<Event>)
    ensures StateAfter(b, es + fs) == StateAfter(StateAfter(b, es), fs)
  {
    if fs == [] {
      assert es + fs == es;
    } else {
      var n := |fs| - 1;
      StateAppend(b, es, fs[..n]);
      assert (es + fs)[..|es| + n] == es + fs[..n];
    }
  }

  lemma LawfulAppend(b: Book, es: seq<Event>, fs: seq<Event>)
    requires Lawful(b, es) && Lawful(StateAfter(b, es), fs)
    ensures Lawful(b, es + fs)
  {
    hide StateAfter, Legal;
    forall k | 0 <= k < |es + fs| ensures Legal(StateAfter(b, (es + fs)[..k]), (es + fs)[k]) {
      if k < |es| {
        assert (es + fs)[..k] == es[..k];
      } else {
        var j := k - |es|;
        assert (es + fs)[..k] == es + fs[..j];
        StateAppend(b, es, fs[..j]);
        assert Legal(StateAfter(StateAfter(b, es), fs[..j]), fs[j]);
      }
    }
  }

  lemma LawfulOne(b: Book, e: Event)
    requires Legal(b, e)
    ensures Lawful(b, [e]) && StateAfter(b, [e]) == After(b, e)
  {
    assert [e][..0] == [];
  }

  /** The fills of a market order are legal one after the other. */
  lemma {:induction false} MarketExplained(b: Book, isBuy: bool, volume: int, taker: int)
    ensures
      var es := FillEvents(Match(b.orders, isBuy, volume, taker).fills);
      Lawful(b, es) && StateAfter(b, es) == Trade(b, isBuy, volume, taker)
    decreases |b.orders|
  {
    if volume > 0 && HasSide(b.orders, !isBuy) {
      var id := Top(b.orders, !isBuy);
      var v := Min(volume, b.orders[id].volume);
      MatchTurn(b.orders, isBuy, volume, taker, id);
      var f := FillOf(id, b.orders[id], v, isBuy, taker);
      var e := Filled(f);
      var b1 := After(b, e);
      LawfulOne(b, e);
      if v == b.orders[id].volume {
        MarketExplained(b1, isBuy, volume - v, taker);
      } else {
        assert Match(b1.orders, isBuy, volume - v, taker) == MatchResult([], b1.orders, 0);
      }
      TradeHeadFirst(b, isBuy, volume, taker, f, b1, v);
      var rest := FillEvents(Match(b1.orders, isBuy, volume - v, taker).fills);
      LawfulAppend(b, [e], rest);
      StateAppend(b, [e], rest);
    }
  }

  lemma TradeHeadFirst(b: Book, isBuy: bool, volume: int, taker: int, f: MatchedFill, b1: Book, v: int)
    requires f.makerId in b.orders && b1 == After(b, Filled(f)) && v == f.volume
    requires
      var r := Match(Reduce(b.orders, f.makerId, v), isBuy, volume - v, taker);
      Match(b.orders, isBuy, volume, taker) == MatchResult([f] + r.fills, r.orders, r.left)
    ensures Trade(b, isBuy, volume, taker) == Trade(b1, isBuy, volume - v, taker)
    ensures FillEvents(Match(b.orders, isBuy, volume, taker).fills)
            == [Filled(f)] + FillEvents(Match(b1.orders, isBuy, volume - v, taker).fills)
  {
    hide Match;
    var r := Match(b1.orders, isBuy, volume - v, taker);
    assert ([f] + r.fills)[1..] == r.fills;
  }

  lemma ActExplained(b: Book, a: Action)
    ensures Lawful(b, Act(b, a).1) && StateAfter(b, Act(b, a).1) == Act(b, a).0
  {
    match a
    case Add(_, _, _, _, accepted) =>
      if accepted { LawfulOne(b, Act(b, a).1[0]); }
    case Cancel(id) =>
      LawfulOne(b, Act(b, a).1[0]);
    case Market(isBuy, volume, taker) =>
      MarketExplained(b, isBuy, volume, taker);
  }

  /** Every run emits lawful events, and they determine the final book. */
  lemma {:induction false} RunExplained(b: Book, actions: seq<Action>)
    ensures Lawful(b, Run(b, actions).1) && StateAfter(b, Run(b, actions).1) == Run(b, actions).0
    decreases |actions|
  {
    if actions != [] {
      ActExplained(b, actions[0]);
      var (b1, es) := Act(b, actions[0]);
      RunExplained(b1, actions[1..]);
      var fs := Run(b1, actions[1..]).1;
      LawfulAppend(b, es, fs);
      StateAppend(b, es, fs);
    }
  }

  lemma LawfulPrefix(b: Book, es: seq<Event>, k: nat)
    requires Lawful(b, es) && k <= |es|
    ensures Lawful(b, es[..k])
  {
    forall j | 0 <= j < k ensures Legal(StateAfter(b, es[..k][..j]), es[..k][j]) {
      assert es[..k][..j] == es[..j];
    }
  }

  lemma {:induction false} IdsStayIssued(b: Book, es: seq<Event>)
    requires Lawful(b, es) && IdsIssued(b)
    ensures IdsIssued(StateAfter(b, es)) && StateAfter(b, es).nextId >= b.nextId
  {
    if es != [] {
      var n := |es| - 1;
      LawfulPrefix(b, es, n);
      IdsStayIssued(b, es[..n]);
      assert Legal(StateAfter(b, es[..n]), es[n]);
    }
  }

  // ------------------------------------------------------------ conservation

  function RestingVolume(b: Book, id: nat): int {
    if id in b.orders then b.orders[id].volume else 0
  }

  function PlacedVolume(es: seq<Event>, id: nat): int {
    if es == [] then 0
    else
      var n := |es| - 1;
      PlacedVolume(es[..n], id) + if es[n].Placed? && es[n].id == id then es[n].volume else 0
  }

  function VolumeFilled(es: seq<Event>, id: nat): int {
    if es == [] then 0
    else
      var n := |es| - 1;
      VolumeFilled(es[..n], id) + if es[n].Filled? && es[n].fill.makerId == id then es[n].fill.volume else 0
  }

  /** What was left of the order when it was cancelled. */
  function VolumeCancelled(b: Book, es: seq<Event>, id: nat): int {
    if es == [] then 0
    else
      var n := |es| - 1;
      VolumeCancelled(b, es[..n], id)
      + if es[n].Cancelled? && es[n].id == id then RestingVolume(StateAfter(b, es[..n]), id) else 0
  }

  /** Nothing is lost or created: what was placed is filled, resting or cancelled. */
  lemma {:induction false} Conservation(b: Book, es: seq<Event>, id: nat)
    requires Lawful(b, es) && IdsIssued(b)
    ensures RestingVolume(b, id) + PlacedVolume(es, id)
            == VolumeFilled(es, id) + RestingVolume(StateAfter(b, es), id) + VolumeCancelled(b, es, id)
  {
    if es != [] {
      var n := |es| - 1;
      LawfulPrefix(b, es, n);
      Conservation(b, es[..n], id);
      IdsStayIssued(b, es[..n]);
      assert Legal(StateAfter(b, es[..n]), es[n]);
    }
  }

  ghost predicate Concerns(e: Event, id: nat) {
    match e
    case Placed(i, _, _, _, _) => i == id
    case Filled(f) => f.makerId == id
    case Cancelled(i, ok) => i == id && ok
  }

  /** An issued order that no longer rests is never placed, filled or cancelled again. */
  lemma {:induction false} ClosedForever(b: Book, es: seq<Event>, id: nat)
    requires Lawful(b, es) && IdsIssued(b) && id < b.nextId && id !in b.orders
    ensures id !in StateAfter(b, es).orders
    ensures forall k :: 0 <= k < |es| ==> !Concerns(es[k], id)
  {
    if es != [] {
      var n := |es| - 1;
      LawfulPrefix(b, es, n);
      ClosedForever(b, es[..n], id);
      IdsStayIssued(b, es[..n]);
      assert Legal(StateAfter(b, es[..n]), es[n]);
      forall k | 0 <= k < |es| ensures !Concerns(es[k], id) {
        if k < n { assert es[..n][k] == es[k]; }
      }
    }
  }

  // ------------------------------------------------------------ time priority

  ghost predicate PlacedAs(b: Book, e: Event)
    requires e.Placed?
  {
    e.id < b.nextId &&
    (e.id in b.orders ==> AtPrice(b.orders, e.isBid, e.price, e.id) && b.orders[e.id].participant == e.participant)
  }

  lemma PlacedNow(b: Book, e: Event)
    requires Legal(b, e) && e.Placed?
    ensures PlacedAs(After(b, e), e)
  {
  }

  lemma TermsStayOnce(b: Book, p: Event, e: Event)
    requires Legal(b, e) && p.Placed? && PlacedAs(b, p)
    ensures PlacedAs(After(b, e), p)
  {
  }

  /** A resting order keeps the side, price and owner it was placed with. */
  lemma {:induction false} TermsStay(b: Book, es: seq<Event>, j: nat)
    requires Lawful(b, es) && j < |es| && es[j].Placed?
    ensures PlacedAs(StateAfter(b, es), es[j])
    decreases |es|
  {
    hide Legal, After, PlacedAs;
    var n := |es| - 1;
    LawfulPrefix(b, es, n);
    assert Legal(StateAfter(b, es[..n]), es[n]);
    if j < n {
      assert es[..n][j] == es[j];
      TermsStay(b, es[..n], j);
      TermsStayOnce(StateAfter(b, es[..n]), es[j], es[n]);
    } else {
      PlacedNow(StateAfter(b, es[..n]), es[n]);
    }
  }

  lemma {:induction false} UnissuedNotPlaced(b: Book, es: seq<Event>, id: nat)
    requires Lawful(b, es) && id >= StateAfter(b, es).nextId
    ensures PlacedVolume(es, id) == 0 && StateAfter(b, es).nextId >= b.nextId
  {
    if es != [] {
      var n := |es| - 1;
      LawfulPrefix(b, es, n);
      assert Legal(StateAfter(b, es[..n]), es[n]);
      UnissuedNotPlaced(b, es[..n], id);
    }
  }

  /** Every id is placed once, so its placed volume is its original volume. */
  lemma {:induction false} PlacedOnce(b: Book, es: seq<Event>, j: nat)
    requires Lawful(b, es) && j < |es| && es[j].Placed?
    ensures PlacedVolume(es, es[j].id) == es[j].volume
    decreases |es|
  {
    var n := |es| - 1;
    LawfulPrefix(b, es, n);
    assert Legal(StateAfter(b, es[..n]), es[n]);
    if j == n {
      UnissuedNotPlaced(b, es[..n], es[n].id);
    } else {
      assert es[..n][j] == es[j];
      PlacedOnce(b, es[..n], j);
      TermsStay(b, es[..n], j);
    }
  }

  /** By event `k` the order was cancelled or filled for all it was placed with. */
  ghost predicate ClosedBefore(es: seq<Event>, k: nat, id: nat)
    requires k <= |es|
  {
    || (exists i :: 0 <= i < k && es[i] == Cancelled(id, true))
    || VolumeFilled(es[..k], id) == PlacedVolume(es[..k], id)
  }

  lemma {:induction false} NothingCancelled(b: Book, es: seq<Event>, id: nat)
    requires Lawful(b, es)
    requires forall i :: 0 <= i < |es| ==> es[i] != Cancelled(id, true)
    ensures VolumeCancelled(b, es, id) == 0
  {
    if es != [] {
      var n := |es| - 1;
      LawfulPrefix(b, es, n);
      forall i | 0 <= i < n ensures es[..n][i] != Cancelled(id, true) {
        assert es[..n][i] == es[i];
      }
      NothingCancelled(b, es[..n], id);
      assert Legal(StateAfter(b, es[..n]), es[n]);
    }
  }

  /** An order the filled one does not have priority over is not resting. */
  lemma FillPassesOver(b: Book, p: Event, f: MatchedFill)
    requires Legal(b, Filled(f)) && p.Placed? && PlacedAs(b, p) && p.isBid == !f.takerIsBuy
    requires Better(p.isBid, p.price, f.price) || (p.price == f.price && p.id < f.makerId)
    ensures p.id !in b.orders && p.id < b.nextId
  {
  }

  /** Price-time priority over whole runs: when an order is filled, every order
      placed before on that side at a better price, or earlier at the same price,
      is already closed. */
  lemma TimePriority(es: seq<Event>, j: nat, k: nat)
    requires Lawful(EMPTY_BOOK, es) && j < k < |es|
    requires es[j].Placed? && es[k].Filled?
    requires es[j].isBid == !es[k].fill.takerIsBuy
    requires || Better(es[j].isBid, es[j].price, es[k].fill.price)
             || (es[j].price == es[k].fill.price && es[j].id < es[k].fill.makerId)
    ensures ClosedBefore(es, k, es[j].id)
    ensures forall i :: k <= i < |es| ==> !Concerns(es[i], es[j].id)
  {
    hide StateAfter, After, Legal, PlacedVolume, VolumeFilled, VolumeCancelled, PlacedAs, Concerns;
    var id := es[j].id;
    var b := StateAfter(EMPTY_BOOK, es[..k]);
    LawfulPrefix(EMPTY_BOOK, es, k);
    IdsStayIssued(EMPTY_BOOK, es[..k]);
    assert es[..k][j] == es[j];
    TermsStay(EMPTY_BOOK, es[..k], j);
    assert Legal(b, es[k]);
    FillPassesOver(b, es[j], es[k].fill);
    Conservation(EMPTY_BOOK, es[..k], id);
    if forall i :: 0 <= i < k ==> es[i] != Cancelled(id, true) {
      NothingCancelled(EMPTY_BOOK, es[..k], id);
    }
    LawfulSuffix(EMPTY_BOOK, es, k);
    ClosedForever(b, es[k..], id);
    forall i | k <= i < |es| ensures !Concerns(es[i], id) {
      assert es[k..][i - k] == es[i];
    }
  }

  /** The same for any sequence of calls on an empty book. */
  lemma RunTimePriority(actions: seq<Action>, j: nat, k: nat)
    requires var es := Run(EMPTY_BOOK, actions).1; j < k < |es| && es[j].Placed? && es[k].Filled?
    requires
      var es := Run(EMPTY_BOOK, actions).1;
      && es[j].isBid == !es[k].fill.takerIsBuy
      && (|| Better(es[j].isBid, es[j].price, es[k].fill.price)
          || (es[j].price == es[k].fill.price && es[j].id < es[k].fill.makerId))
    ensures ClosedBefore(Run(EMPTY_BOOK, actions).1, k, Run(EMPTY_BOOK, actions).1[j].id)
  {
    RunExplained(EMPTY_BOOK, actions);
    TimePriority(Run(EMPTY_BOOK, actions).1, j, k);
  }

  /** Appending a call to a run. */
  lemma {:induction false} RunAppend(b: Book, actions: seq<Action>, a: Action)
    ensures
      var (b1, es) := Run(b, actions);
      var (b2, fs) := Act(b1, a);
      Run(b, actions + [a]) == (b2, es + fs)
    decreases |actions|
  {
    hide Act;
    if actions == [] {
      assert ([] + [a])[1..] == [];
      assert [] + Act(b, a).1 == Act(b, a).1 + [];
    } else {
      assert (actions + [a])[1..] == actions[1..] + [a];
      RunAppend(Act(b, actions[0]).0, actions[1..], a);
      var (b1, es) := Run(Act(b, actions[0]).0, actions[1..]);
      assert Act(b, actions[0]).1 + (es + Act(b1, a).1) == (Act(b, actions[0]).1 + es) + Act(b1, a).1;
    }
  }

  lemma LawfulSuffix(b: Book, es: seq<Event>, k: nat)
    requires Lawful(b, es) && k <= |es|
    ensures Lawful(StateAfter(b, es[..k]), es[k..])
  {
    hide StateAfter, Legal;
    forall j | 0 <= j < |es| - k
      ensures Legal(StateAfter(StateAfter(b, es[..k]), es[k..][..j]), es[k..][j])
    {
      assert es[..k + j] == es[..k] + es[k..][..j];
      StateAppend(b, es[..k], es[k..][..j]);
    }
  }

  /** A resting order was placed by some event, on that side, at that price and by
      that owner. */
  lemma {:induction false} RestingWasPlaced(es: seq<Event>, id: nat) returns (j: nat)
    requires Lawful(EMPTY_BOOK, es) && id in StateAfter(EMPTY_BOOK, es).orders
    ensures j < |es| && es[j].Placed? && es[j].id == id
    ensures AtPrice(StateAfter(EMPTY_BOOK, es).orders, es[j].isBid, es[j].price, id)
    ensures StateAfter(EMPTY_BOOK, es).orders[id].participant == es[j].participant
  {
    var n := |es| - 1;
    LawfulPrefix(EMPTY_BOOK, es, n);
    assert Legal(StateAfter(EMPTY_BOOK, es[..n]), es[n]);
    if es[n].Placed? && es[n].id == id {
      j := n;
    } else {
      j := RestingWasPlaced(es[..n], id);
    }
  }

  /** A fill happens at the price some order of that side was placed at, and names
      the owner who placed it. */
  lemma FilledAsPlaced(es: seq<Event>, k: nat) returns (j: nat)
    requires Lawful(EMPTY_BOOK, es) && k < |es| && es[k].Filled?
    ensures j < k && es[j].Placed? && es[j].id == es[k].fill.makerId
    ensures es[j].isBid == !es[k].fill.takerIsBuy && es[j].price == es[k].fill.price
    ensures es[j].participant == es[k].fill.maker
    ensures es[k].fill.contestantIsMaker <==> es[j].participant == CONTESTANT
    ensures es[k].fill.contestantIsTaker <==> es[k].fill.taker == CONTESTANT
  {
    LawfulPrefix(EMPTY_BOOK, es, k);
    assert Legal(StateAfter(EMPTY_BOOK, es[..k]), es[k]);
    j := RestingWasPlaced(es[..k], es[k].fill.makerId);
    assert es[..k][j] == es[j];
  }

  /** The events of a market order are fills that name its taker and side. */
  lemma MarketEventsNamed(b: Book, isBuy: bool, volume: int, taker: int, k: nat)
    requires k < |Act(b, Market(isBuy, volume, taker)).1|
    ensures
      var e := Act(b, Market(isBuy, volume, taker)).1[k];
      e.Filled? && NamesParties(e.fill, b.orders, isBuy, taker)
  {
    hide Match, NamesParties, Trade;
    FillEventAt(Match(b.orders, isBuy, volume, taker).fills, k);
    FillsNameParties(b.orders, isBuy, volume, taker, k);
  }

  lemma {:induction false} FillEventAt(fills: seq<MatchedFill>, k: nat)
    requires k < |fills|
    ensures FillEvents(fills)[k] == Filled(fills[k])
  {
    if k > 0 { FillEventAt(fills[1..], k - 1); }
  }

  /** The last trade price is the price of the last fill, and the fill count counts
      the fills. */
  lemma {:induction false} LastTradeIsLastFill(b: Book, es: seq<Event>)
    requires Lawful(b, es)
    ensures
      var b', fills := StateAfter(b, es), FillsOf(es);
      && b'.lastTrade == (if fills == [] then b.lastTrade else fills[|fills| - 1].price)
      && b'.totalFills == b.totalFills + |fills|
  {
    if es != [] {
      var n := |es| - 1;
      LawfulPrefix(b, es, n);
      LastTradeIsLastFill(b, es[..n]);
      assert Legal(StateAfter(b, es[..n]), es[n]);
    }
  }

  // -------------------------------------------------------- positive volumes

  ghost predicate PositiveEvents(es: seq<Event>) {
    forall i :: 0 <= i < |es| && es[i].Placed? ==> es[i].volume > 0
  }

  /** All volume ever placed. */
  function TotalPlaced(es: seq<Event>): int {
    if es == [] then 0
    else var n := |es| - 1; TotalPlaced(es[..n]) + if es[n].Placed? then es[n].volume else 0
  }

  lemma {:induction false} TotalPlacedGrows(es: seq<Event>, k: nat)
    requires PositiveEvents(es) && k <= |es|
    ensures 0 <= TotalPlaced(es[..k]) <= TotalPlaced(es)
    decreases |es|
  {
    if k == |es| {
      assert es[..k] == es;
      if k > 0 { TotalPlacedGrows(es[..k - 1], k - 1); }
    } else {
      var n := |es| - 1;
      assert es[..n][..k] == es[..k];
      TotalPlacedGrows(es[..n], k);
    }
  }

  lemma {:induction false} TotalPlacedAppend(es: seq<Event>, fs: seq<Event>)
    ensures TotalPlaced(es + fs) == TotalPlaced(es) + TotalPlaced(fs)
  {
    if fs == [] {
      assert es + fs == es;
    } else {
      var n := |fs| - 1;
      TotalPlacedAppend(es, fs[..n]);
      assert (es + fs)[..|es| + n] == es + fs[..n];
    }
  }

  lemma {:induction false} NothingPlaced(es: seq<Event>)
    requires forall k :: 0 <= k < |es| ==> !es[k].Placed?
    ensures TotalPlaced(es) == 0
  {
    if es != [] { NothingPlaced(es[..|es| - 1]); }
  }

  lemma {:induction false} PositiveStays(b: Book, es: seq<Event>)
    requires Lawful(b, es) && IdsIssued(b) && PositiveVolumes(b.orders) && PositiveEvents(es)
    ensures PositiveVolumes(StateAfter(b, es).orders)
  {
    if es != [] {
      var n := |es| - 1;
      LawfulPrefix(b, es, n);
      PositiveStays(b, es[..n]);
      assert Legal(StateAfter(b, es[..n]), es[n]);
      if es[n].Placed? { assert es[n].volume > 0; }
    }
  }
}

/** The contestant's account (game-master/pnl_tracker.hpp) against the shadow
    book's own accounting of the same fills. */
module Accounting {
  import opened MarketTypes
  import opened BookRuns
  import opened ShadowSpec
  import opened ShadowProofs
  import opened ShadowLobs

  /** A tenth of the starting cash. */
  const LIMIT_PENALTY: int := 10_000_000_000

  datatype Account = Account(position: int, cash: int, charged: bool)

  /** The tracker takes the taker's side when the contestant is the taker. */
  function TrackerSign(f: MatchedFill): int {
    if (if f.taker == CONTESTANT then f.takerIsBuy else !f.takerIsBuy) then 1 else -1
  }

  function TrackFill(a: Account, f: MatchedFill, limit: int): Account {
    var position := Wrap64(a.position + TrackerSign(f) * f.volume);
    var over := Abs64(position) > limit && !a.charged;
    Account(position,
            a.cash - TrackerSign(f) * f.volume * f.price - (if over then LIMIT_PENALTY else 0),
            a.charged || over)
  }

  class PnlTracker {
    var position: int
    var cash: int
    const positionLimit: int
    var penaltyChargedThisTick: bool

    function State(): Account
      reads this
    {
      Account(position, cash, penaltyChargedThisTick)
    }

    constructor (limit: int)
      ensures State() == Account(0, STARTING_CASH, false) && positionLimit == limit
    {
      position, cash, positionLimit, penaltyChargedThisTick := 0, STARTING_CASH, limit, false;
    }

    method ResetTickState()
      modifies this`penaltyChargedThisTick
      ensures State() == old(State()).(charged := false)
    {
      penaltyChargedThisTick := false;
    }

    /** Books a fill; the first one of a tick to leave the position over the limit
        costs a tenth of the starting cash. */
    method ApplyFill(f: MatchedFill, contestantIsTaker: bool)
      requires contestantIsTaker == (f.taker == CONTESTANT)
      modifies this`position, this`cash, this`penaltyChargedThisTick
      ensures State() == TrackFill(old(State()), f, positionLimit)
    {
      var sign := if (if contestantIsTaker then f.takerIsBuy else !f.takerIsBuy) then 1 else -1;
      position := Wrap64(position + sign * f.volume);
      cash := cash - sign * f.volume * f.price;
      if Abs64(position) > positionLimit && !penaltyChargedThisTick {
        cash := cash - LIMIT_PENALTY;
        penaltyChargedThisTick := true;
      }
    }

    /** The tick loop's use of the tracker: reset, then book the contestant's fills. */
    method ProcessTick(fills: seq<MatchedFill>)
      modifies this
      ensures State() == TrackTick(old(State()), fills, positionLimit)
    {
      ResetTickState();
      ghost var start := State();
      for i := 0 to |fills|
        invariant State() == TrackFills(start, fills[..i], positionLimit)
      {
        var f := fills[i];
        var taker := f.taker == CONTESTANT;
        assert fills[..i + 1][..i] == fills[..i];
        if taker || f.maker == CONTESTANT { ApplyFill(f, taker); }
      }
      assert fills[..|fills|] == fills;
    }

    /** The cash as a 64-bit value, clamped. */
    function CashSafe(): int
      reads this
    {
      Clamp64(cash)
    }
  }

  function Clamp64(x: int): int {
    if x > INT64_MAX then INT64_MAX else if x < INT64_MIN then INT64_MIN else x
  }

  /** No 64-bit number is nearer. */
  lemma ClampIsNearest(x: int, y: int)
    requires Fits64(y)
    ensures Fits64(Clamp64(x)) && Abs(x - Clamp64(x)) <= Abs(x - y)
  {
  }

  function TrackFills(a: Account, fills: seq<MatchedFill>, limit: int): Account {
    if fills == [] then a
    else
      var n := |fills| - 1;
      var before := TrackFills(a, fills[..n], limit);
      if ContestantFill(fills[n]) then TrackFill(before, fills[n], limit) else before
  }

  function TrackTick(a: Account, fills: seq<MatchedFill>, limit: int): Account {
    TrackFills(a.(charged := false), fills, limit)
  }

  function TrackTicks(a: Account, ticks: seq<seq<MatchedFill>>, limit: int): Account {
    if ticks == [] then a
    else
      var n := |ticks| - 1;
      TrackTick(TrackTicks(a, ticks[..n], limit), ticks[n], limit)
  }

  // ---------------------------------------------------- the shadow's account

  function ShadowFills(s: Shadow, fills: seq<MatchedFill>): Shadow {
    if fills == [] then s
    else
      var n := |fills| - 1;
      ShadowSpec.Account(ShadowFills(s, fills[..n]), fills[n])
  }

  /** The same contestant position, cash and fill count. */
  predicate SameMoney(s: Shadow, t: Shadow) {
    s.position == t.position && s.cash == t.cash && s.contestantFills == t.contestantFills
  }

  /** The event handler moves position and cash by the accounting step alone. */
  lemma OnFillAccounts(s: Shadow, f: MatchedFill, id: nat, tick: int)
    ensures SameMoney(OnFill(s, f, id, tick), ShadowSpec.Account(s, f))
  {
    hide PriceFault, DoubleFault, FifoFault, ApplyFill, Wrap64;
    var s1 := ReportIf(s, PriceFault(s, f), FillPriceInvalid, tick, id).(lastTrade := f.price);
    var s2 := ReportIf(s1, DoubleFault(s, f, id), DoubleFill, tick, id);
    var s3 := ReportIf(s2, FifoFault(s, id), FifoPriorityBreach, tick, id);
    ApplyKeepsMoney(s3, f, id);
  }

  lemma ApplyKeepsMoney(s: Shadow, f: MatchedFill, id: nat)
    ensures SameMoney(ApplyFill(s, f, id), s)
  {
    hide Quote, RemoveFromLevel;
  }

  lemma OtherEventsKeepMoney(s: Shadow, e: Event, tick: int)
    requires !e.Filled?
    ensures SameMoney(Replay(s, e, tick), s)
  {
    hide Quote, RemoveFromLevel, Enqueue;
  }

  lemma AccountOfSameMoney(s: Shadow, t: Shadow, f: MatchedFill)
    requires SameMoney(s, t)
    ensures SameMoney(ShadowSpec.Account(s, f), ShadowSpec.Account(t, f))
  {
    hide Wrap64;
  }

  /** Replaying any events moves the money by their fills alone. */
  lemma {:induction false} ReplayAccounts(s: Shadow, es: seq<Event>, stamps: seq<int>)
    requires |stamps| == |es|
    ensures SameMoney(ReplayAll(s, es, stamps), ShadowFills(s, FillsOf(es)))
  {
    hide Replay, SameMoney, ShadowSpec.Account;
    if es == [] {
      MoneyReflexive(s);
    } else {
      var n := |es| - 1;
      var before := ReplayAll(s, es[..n], stamps[..n]);
      ReplayAccounts(s, es[..n], stamps[..n]);
      if es[n].Filled? {
        var f := es[n].fill;
        assert FillsOf(es)[..|FillsOf(es)| - 1] == FillsOf(es[..n]);
        AccountOfSameMoney(before, ShadowFills(s, FillsOf(es[..n])), f);
        FilledMoney(before, es[n], stamps[n], ShadowFills(s, FillsOf(es)));
      } else {
        assert FillsOf(es) == FillsOf(es[..n]);
        OtherEventsKeepMoney(before, es[n], stamps[n]);
        MoneyChain(Replay(before, es[n], stamps[n]), before, ShadowFills(s, FillsOf(es)));
      }
    }
  }

  lemma MoneyReflexive(s: Shadow)
    ensures SameMoney(s, s)
  {
  }

  lemma MoneyChain(s: Shadow, t: Shadow, u: Shadow)
    requires SameMoney(s, t) && SameMoney(t, u)
    ensures SameMoney(s, u)
  {
  }

  lemma FilledMoney(s: Shadow, e: Event, stamp: int, after: Shadow)
    requires e.Filled? && SameMoney(ShadowSpec.Account(s, e.fill), after)
    ensures SameMoney(Replay(s, e, stamp), after)
  {
    hide OnFill, ShadowSpec.Account;
    OnFillAccounts(s, e.fill, e.fill.makerId, stamp);
  }

  // ------------------------------------------------------------- comparison

  /** The contestant selling to itself: the one case the two books sign apart. */
  predicate SelfSell(f: MatchedFill) {
    f.taker == CONTESTANT && f.maker == CONTESTANT && !f.takerIsBuy
  }

  function SelfSold(fills: seq<MatchedFill>): int {
    if fills == [] then 0
    else var n := |fills| - 1; SelfSold(fills[..n]) + if SelfSell(fills[n]) then fills[n].volume else 0
  }

  function SelfSoldCash(fills: seq<MatchedFill>): int {
    if fills == [] then 0
    else var n := |fills| - 1; SelfSoldCash(fills[..n]) + if SelfSell(fills[n]) then fills[n].volume * fills[n].price else 0
  }

  /** The contestant's net position change over a list of fills. */
  function NetVolume(fills: seq<MatchedFill>): int {
    if fills == [] then 0
    else
      var n := |fills| - 1;
      NetVolume(fills[..n]) + if ContestantFill(fills[n]) then TrackerSign(fills[n]) * fills[n].volume else 0
  }

  /** What the shadow's 64-bit product of volume and price cuts off a fill's value;
      the tracker multiplies in 128 bits. */
  function CutOff(f: MatchedFill): int {
    var value := ContestantSign(f) * f.volume * f.price;
    if ContestantFill(f) then value - Wrap64(value) else 0
  }

  lemma CutOffIsWholeTurns(f: MatchedFill)
    ensures CutOff(f) % TWO_TO_64 == 0
    ensures CutOff(f) == 0 <==> !ContestantFill(f) || Fits64(ContestantSign(f) * f.volume * f.price)
  {
  }

  function AllCutOff(fills: seq<MatchedFill>): int {
    if fills == [] then 0 else var n := |fills| - 1; AllCutOff(fills[..n]) + CutOff(fills[n])
  }

  lemma {:induction false} SumsAppend(x: seq<MatchedFill>, y: seq<MatchedFill>)
    ensures NetVolume(x + y) == NetVolume(x) + NetVolume(y)
    ensures SelfSold(x + y) == SelfSold(x) + SelfSold(y)
    ensures SelfSoldCash(x + y) == SelfSoldCash(x) + SelfSoldCash(y)
    ensures AllCutOff(x + y) == AllCutOff(x) + AllCutOff(y)
  {
    hide CutOff, TrackerSign, SelfSell, ContestantFill;
    if y == [] {
      assert x + y == x;
    } else {
      var n := |y| - 1;
      SumsAppend(x, y[..n]);
      assert (x + y)[..|x| + n] == x + y[..n];
    }
  }

  predicate IsParty(f: MatchedFill, who: int) {
    f.taker == who || f.maker == who
  }

  lemma PartyFills(f: MatchedFill)
    ensures ContestantFill(f) <==> IsParty(f, CONTESTANT)
  {
  }

  /** The `k`-th fill is the contestant's and leaves the position over the limit. */
  predicate Crosses(start: int, fills: seq<MatchedFill>, limit: int, k: nat) {
    k < |fills| && IsParty(fills[k], CONTESTANT) && Abs64(Wrap64(start + NetVolume(fills[..k + 1]))) > limit
  }

  ghost predicate OverLimit(start: int, fills: seq<MatchedFill>, limit: int) {
    exists k: nat :: Crosses(start, fills, limit, k)
  }

  lemma CrossesPrefix(start: int, fills: seq<MatchedFill>, limit: int, k: nat)
    requires fills != [] && k < |fills| - 1
    ensures Crosses(start, fills[..|fills| - 1], limit, k) <==> Crosses(start, fills, limit, k)
  {
    assert fills[..|fills| - 1][..k + 1] == fills[..k + 1];
  }

  lemma OverLimitStep(start: int, fills: seq<MatchedFill>, limit: int)
    requires fills != []
    ensures
      var n := |fills| - 1;
      OverLimit(start, fills, limit) <==>
        OverLimit(start, fills[..n], limit)
        || (IsParty(fills[n], CONTESTANT) && Abs64(Wrap64(start + NetVolume(fills))) > limit)
  {
    hide NetVolume, Abs64, Wrap64, IsParty;
    var n := |fills| - 1;
    assert fills[..n + 1] == fills;
    assert Crosses(start, fills, limit, n)
      <==> IsParty(fills[n], CONTESTANT) && Abs64(Wrap64(start + NetVolume(fills))) > limit;
    if OverLimit(start, fills[..n], limit) {
      var k: nat :| Crosses(start, fills[..n], limit, k);
      CrossesPrefix(start, fills, limit, k);
    }
    if OverLimit(start, fills, limit) {
      var k: nat :| Crosses(start, fills, limit, k);
      if k < n { CrossesPrefix(start, fills, limit, k); }
    }
  }

  /** One tick: positions part by the self-sold volume; cash parts by the self-sold
      value, the value the shadow's product cuts off, and one penalty if the limit
      was crossed. */
  lemma {:induction false} TickDifference(a: Account, s: Shadow, fills: seq<MatchedFill>, start: int, limit: int)
    requires !a.charged && a.position == Wrap64(start)
    ensures
      var a' := TrackFills(a, fills, limit);
      var s' := ShadowFills(s, fills);
      && a'.position == Wrap64(start + NetVolume(fills))
      && (a'.charged <==> OverLimit(start, fills, limit))
      && Wrap64(s'.position) == Wrap64(s.position + NetVolume(fills) + 2 * SelfSold(fills))
      && s'.cash - a'.cash
         == s.cash - a.cash - 2 * SelfSoldCash(fills) + AllCutOff(fills) + (if a'.charged then LIMIT_PENALTY else 0)
  {
    hide Wrap64, Abs64, ShadowSpec.Account, TrackFill, OverLimit, CutOff, ContestantFill, SelfSell, TrackerSign, IsParty;
    if fills == [] {
      NoneOverLimit(start, limit);
    } else {
      var n := |fills| - 1;
      TickDifference(a, s, fills[..n], start, limit);
      OverLimitStep(start, fills, limit);
      PartyFills(fills[n]);
      var a1, s1 := TrackFills(a, fills[..n], limit), ShadowFills(s, fills[..n]);
      FillDifference(a1, s1, fills[n], start + NetVolume(fills[..n]),
                     s.position + NetVolume(fills[..n]) + 2 * SelfSold(fills[..n]), limit);
    }
  }

  lemma NoneOverLimit(start: int, limit: int)
    ensures !OverLimit(start, [], limit)
  {
  }

  lemma FillDifference(a: Account, s: Shadow, f: MatchedFill, x: int, y: int, limit: int)
    requires a.position == Wrap64(x) && Wrap64(s.position) == Wrap64(y)
    ensures
      var a' := if ContestantFill(f) then TrackFill(a, f, limit) else a;
      var s' := ShadowSpec.Account(s, f);
      var v := if ContestantFill(f) then TrackerSign(f) * f.volume else 0;
      && a'.position == Wrap64(x + v)
      && (a'.charged <==> a.charged || (ContestantFill(f) && Abs64(Wrap64(x + v)) > limit))
      && Wrap64(s'.position) == Wrap64(y + v + (if SelfSell(f) then 2 * f.volume else 0))
      && s'.cash - a'.cash == s.cash - a.cash - (if SelfSell(f) then 2 * (f.volume * f.price) else 0) + CutOff(f)
                              + (if a'.charged && !a.charged then LIMIT_PENALTY else 0)
  {
    hide Wrap64, Abs64, CutOff;
    WrapSum(x, TrackerSign(f) * f.volume);
    ShadowPosition(s, f, y);
    CashDifference(f);
  }

  lemma ShadowPosition(s: Shadow, f: MatchedFill, y: int)
    requires Wrap64(s.position) == Wrap64(y)
    ensures
      var v := if ContestantFill(f) then TrackerSign(f) * f.volume else 0;
      Wrap64(ShadowSpec.Account(s, f).position) == Wrap64(y + v + (if SelfSell(f) then 2 * f.volume else 0))
  {
    hide Wrap64;
    var d := ContestantSign(f) * f.volume;
    SameWrapMoves(s.position, y, d);
    WrapSum(s.position + d, 0);
  }

  /** What the two accounts make of the value of a contestant fill. */
  lemma CashDifference(f: MatchedFill)
    ensures ContestantFill(f) ==>
      TrackerSign(f) * f.volume * f.price - Wrap64(ContestantSign(f) * f.volume * f.price)
      == CutOff(f) - (if SelfSell(f) then 2 * (f.volume * f.price) else 0)
    ensures !ContestantFill(f) ==> CutOff(f) == 0 && !SelfSell(f)
  {
    hide Wrap64;
    assert 1 * f.volume * f.price == f.volume * f.price;
    assert -1 * f.volume * f.price == -(f.volume * f.price);
  }

  /** The number of ticks in which a contestant fill went over the limit. */
  ghost function TicksOverLimit(ticks: seq<seq<MatchedFill>>, limit: int): nat {
    if ticks == [] then 0
    else
      var n := |ticks| - 1;
      TicksOverLimit(ticks[..n], limit) + if OverLimit(NetVolume(Flatten(ticks[..n])), ticks[n], limit) then 1 else 0
  }

  const NEW_ACCOUNT := Account(0, STARTING_CASH, false)

  lemma {:induction false} ShadowFillsAppend(s: Shadow, x: seq<MatchedFill>, y: seq<MatchedFill>)
    ensures ShadowFills(s, x + y) == ShadowFills(ShadowFills(s, x), y)
  {
    hide ShadowSpec.Account;
    if y == [] {
      assert x + y == x;
    } else {
      var n := |y| - 1;
      ShadowFillsAppend(s, x, y[..n]);
      assert (x + y)[..|x| + n] == x + y[..n];
    }
  }

  /** The two accounts after the fills, `over` ticks of which went over the limit. */
  ghost predicate Apart(a: Account, s: Shadow, fills: seq<MatchedFill>, over: nat) {
    && a.position == Wrap64(NetVolume(fills))
    && Wrap64(s.position) == Wrap64(NetVolume(fills) + 2 * SelfSold(fills))
    && s.cash - a.cash == LIMIT_PENALTY * over - 2 * SelfSoldCash(fills) + AllCutOff(fills)
  }

  lemma {:induction false} FoldsDiffer(ticks: seq<seq<MatchedFill>>, limit: int)
    ensures
      var fills := Flatten(ticks);
      Apart(TrackTicks(NEW_ACCOUNT, ticks, limit), ShadowFills(EMPTY_SHADOW, fills), fills, TicksOverLimit(ticks, limit))
  {
    hide Apart, TrackTick, ShadowFills, OverLimit;
    if ticks == [] {
      NoFills();
    } else {
      var n := |ticks| - 1;
      FoldsDiffer(ticks[..n], limit);
      var before := Flatten(ticks[..n]);
      TickApart(TrackTicks(NEW_ACCOUNT, ticks[..n], limit), ShadowFills(EMPTY_SHADOW, before), before, ticks[n],
                TicksOverLimit(ticks[..n], limit), limit);
      ShadowFillsAppend(EMPTY_SHADOW, before, ticks[n]);
    }
  }

  lemma TickApart(a: Account, s: Shadow, before: seq<MatchedFill>, tick: seq<MatchedFill>, over: nat, limit: int)
    requires Apart(a, s, before, over)
    ensures Apart(TrackTick(a, tick, limit), ShadowFills(s, tick), before + tick,
                  over + if OverLimit(NetVolume(before), tick, limit) then 1 else 0)
  {
    hide TrackFills, ShadowFills, NetVolume, SelfSold, SelfSoldCash, AllCutOff, OverLimit, Wrap64;
    TickDifference(a.(charged := false), s, tick, NetVolume(before), limit);
    SumsAppend(before, tick);
    SameWrapMoves(s.position, NetVolume(before) + 2 * SelfSold(before), NetVolume(tick) + 2 * SelfSold(tick));
  }

  lemma SameWrapMoves(x: int, y: int, d: int)
    requires Wrap64(x) == Wrap64(y)
    ensures Wrap64(x + d) == Wrap64(y + d)
  {
    hide Wrap64;
    WrapSum(x, d);
    WrapSum(y, d);
  }

  lemma NoFills()
    ensures Apart(NEW_ACCOUNT, ShadowFills(EMPTY_SHADOW, []), [], 0)
  {
  }

  lemma {:induction false} PositionFits(fills: seq<MatchedFill>)
    ensures Fits64(ShadowFills(EMPTY_SHADOW, fills).position)
  {
    if fills != [] { PositionFits(fills[..|fills| - 1]); }
  }

  /** Whatever events the shadow replays, and however their fills fall into ticks:
      the two accounts part by exactly the self-sells, the value the shadow's
      64-bit product cuts off, and one penalty per tick over the limit. */
  lemma AccountsDiffer(es: seq<Event>, stamps: seq<int>, ticks: seq<seq<MatchedFill>>, limit: int)
    requires |stamps| == |es| && Flatten(ticks) == FillsOf(es)
    ensures
      var a := TrackTicks(NEW_ACCOUNT, ticks, limit);
      var s := ReplayAll(EMPTY_SHADOW, es, stamps);
      var fills := FillsOf(es);
      && a.position == Wrap64(NetVolume(fills))
      && s.position == Wrap64(NetVolume(fills) + 2 * SelfSold(fills))
      && s.cash - a.cash
         == LIMIT_PENALTY * TicksOverLimit(ticks, limit) - 2 * SelfSoldCash(fills) + AllCutOff(fills)
  {
    hide TrackTicks, TicksOverLimit, ReplayAll, ShadowFills, NetVolume, SelfSold, SelfSoldCash, AllCutOff;
    FoldsDiffer(ticks, limit);
    ReplayAccounts(EMPTY_SHADOW, es, stamps);
    PositionFits(FillsOf(es));
  }

  // --------------------------------------------- by participant, fill by fill

  /** The participant is the taker of a buy or the maker a sell was against. */
  predicate Buys(f: MatchedFill, who: int) {
    if f.takerIsBuy then f.taker == who else f.maker == who
  }

  predicate Sells(f: MatchedFill, who: int) {
    if f.takerIsBuy then f.maker == who else f.taker == who
  }

  function Bought(fills: seq<MatchedFill>, who: int): int {
    if fills == [] then 0
    else var n := |fills| - 1; Bought(fills[..n], who) + if Buys(fills[n], who) then fills[n].volume else 0
  }

  function Sold(fills: seq<MatchedFill>, who: int): int {
    if fills == [] then 0
    else var n := |fills| - 1; Sold(fills[..n], who) + if Sells(fills[n], who) then fills[n].volume else 0
  }

  function Spent(fills: seq<MatchedFill>, who: int): int {
    if fills == [] then 0
    else
      var n := |fills| - 1;
      Spent(fills[..n], who) + if Buys(fills[n], who) then fills[n].volume * fills[n].price else 0
  }

  function Earned(fills: seq<MatchedFill>, who: int): int {
    if fills == [] then 0
    else
      var n := |fills| - 1;
      Earned(fills[..n], who) + if Sells(fills[n], who) then fills[n].volume * fills[n].price else 0
  }

  /** The contestant buying from itself. */
  predicate SelfBuy(f: MatchedFill) {
    f.taker == CONTESTANT && f.maker == CONTESTANT && f.takerIsBuy
  }

  function SelfBought(fills: seq<MatchedFill>): int {
    if fills == [] then 0
    else var n := |fills| - 1; SelfBought(fills[..n]) + if SelfBuy(fills[n]) then fills[n].volume else 0
  }

  function SelfBoughtCash(fills: seq<MatchedFill>): int {
    if fills == [] then 0
    else
      var n := |fills| - 1;
      SelfBoughtCash(fills[..n]) + if SelfBuy(fills[n]) then fills[n].volume * fills[n].price else 0
  }

  lemma {:induction false} NetIsBoughtLessSold(fills: seq<MatchedFill>)
    ensures NetVolume(fills)
      == Bought(fills, CONTESTANT) - Sold(fills, CONTESTANT) + SelfBought(fills) - SelfSold(fills)
  {
    if fills != [] { NetIsBoughtLessSold(fills[..|fills| - 1]); }
  }

  lemma {:induction false} ShadowCash(fills: seq<MatchedFill>)
    ensures ShadowFills(EMPTY_SHADOW, fills).cash
      == STARTING_CASH - Spent(fills, CONTESTANT) + Earned(fills, CONTESTANT)
         - SelfBoughtCash(fills) - SelfSoldCash(fills) + AllCutOff(fills)
  {
    hide Wrap64;
    if fills != [] {
      var n := |fills| - 1;
      ShadowCash(fills[..n]);
      ShadowCashStep(ShadowFills(EMPTY_SHADOW, fills[..n]), fills[n]);
    }
  }

  lemma ShadowCashStep(s: Shadow, f: MatchedFill)
    ensures
      var value := f.volume * f.price;
      ShadowSpec.Account(s, f).cash
      == s.cash - (if Buys(f, CONTESTANT) then value else 0) + (if Sells(f, CONTESTANT) then value else 0)
         - (if SelfBuy(f) || SelfSell(f) then value else 0) + CutOff(f)
  {
    hide Wrap64;
    assert 1 * f.volume * f.price == f.volume * f.price;
    assert -1 * f.volume * f.price == -(f.volume * f.price);
  }

  /** Whatever events the shadow replays, and however their fills fall into ticks:
      both positions are what the contestant bought less what it sold, in 64 bits,
      except that the shadow counts every trade of the contestant with itself as a buy
      and the tracker counts it on the taker's side. Both cash balances follow suit;
      the tracker's is less by a penalty for each tick over the limit, the shadow's is
      off by what its 64-bit product cuts off. */
  lemma BooksByParticipant(es: seq<Event>, stamps: seq<int>, ticks: seq<seq<MatchedFill>>, limit: int)
    requires |stamps| == |es| && Flatten(ticks) == FillsOf(es)
    ensures
      var a := TrackTicks(NEW_ACCOUNT, ticks, limit);
      var s := ReplayAll(EMPTY_SHADOW, es, stamps);
      var fills := FillsOf(es);
      var net := Bought(fills, CONTESTANT) - Sold(fills, CONTESTANT);
      var profit := Earned(fills, CONTESTANT) - Spent(fills, CONTESTANT);
      && a.position == Wrap64(net + SelfBought(fills) - SelfSold(fills))
      && s.position == Wrap64(net + SelfBought(fills) + SelfSold(fills))
      && a.cash == STARTING_CASH + profit - SelfBoughtCash(fills) + SelfSoldCash(fills)
                   - LIMIT_PENALTY * TicksOverLimit(ticks, limit)
      && s.cash == STARTING_CASH + profit - SelfBoughtCash(fills) - SelfSoldCash(fills) + AllCutOff(fills)
  {
    hide TrackTicks, TicksOverLimit, ReplayAll, ShadowFills, NetVolume, SelfSold, SelfSoldCash, AllCutOff, FillsOf,
         Flatten, Wrap64, Bought, Sold, Spent, Earned, SelfBought, SelfBoughtCash;
    AccountsDiffer(es, stamps, ticks, limit);
    NetIsBoughtLessSold(FillsOf(es));
    ReplayAccounts(EMPTY_SHADOW, es, stamps);
    ShadowCash(FillsOf(es));
  }

  ghost predicate NoSelfSell(fills: seq<MatchedFill>) {
    forall i :: 0 <= i < |fills| ==> !SelfSell(fills[i])
  }

  ghost predicate PositiveFills(fills: seq<MatchedFill>) {
    forall i :: 0 <= i < |fills| ==> fills[i].volume > 0
  }

  lemma {:induction false} SelfSoldZero(fills: seq<MatchedFill>)
    ensures NoSelfSell(fills) ==> SelfSold(fills) == 0 && SelfSoldCash(fills) == 0
    ensures PositiveFills(fills) ==> SelfSold(fills) >= 0 && (SelfSold(fills) == 0 ==> NoSelfSell(fills))
  {
    if fills != [] {
      var n := |fills| - 1;
      SelfSoldZero(fills[..n]);
      assert forall i :: 0 <= i < n ==> fills[..n][i] == fills[i];
    }
  }

  /** The positions agree exactly when the self-sold volume is a multiple of 2^63;
      with positive fills that sum to less, when the contestant never sold to itself. */
  lemma PositionsAgreeIff(es: seq<Event>, stamps: seq<int>, ticks: seq<seq<MatchedFill>>, limit: int)
    requires |stamps| == |es| && Flatten(ticks) == FillsOf(es)
    ensures
      TrackTicks(NEW_ACCOUNT, ticks, limit).position == ReplayAll(EMPTY_SHADOW, es, stamps).position
      <==> 2 * SelfSold(FillsOf(es)) % TWO_TO_64 == 0
    ensures PositiveFills(FillsOf(es)) && SelfSold(FillsOf(es)) <= INT64_MAX ==>
      (TrackTicks(NEW_ACCOUNT, ticks, limit).position == ReplayAll(EMPTY_SHADOW, es, stamps).position
       <==> NoSelfSell(FillsOf(es)))
  {
    hide TrackTicks, ReplayAll, NetVolume, SelfSold, FillsOf, Flatten, PositiveFills, NoSelfSell;
    AccountsDiffer(es, stamps, ticks, limit);
    SelfSoldZero(FillsOf(es));
    SameTurn(NetVolume(FillsOf(es)), 2 * SelfSold(FillsOf(es)));
  }

  lemma SameTurn(x: int, d: int)
    ensures Wrap64(x) == Wrap64(x + d) <==> d % TWO_TO_64 == 0
  {
  }

  ghost predicate ProductsFit(fills: seq<MatchedFill>) {
    forall i :: 0 <= i < |fills| && ContestantFill(fills[i]) ==>
      Fits64(ContestantSign(fills[i]) * fills[i].volume * fills[i].price)
  }

  lemma {:induction false} NothingCutOff(fills: seq<MatchedFill>)
    requires ProductsFit(fills)
    ensures AllCutOff(fills) == 0
  {
    if fills != [] {
      var n := |fills| - 1;
      NothingCutOff(fills[..n]);
      CutOffIsWholeTurns(fills[n]);
    }
  }

  const TWO_TO_62: int := 0x4000_0000_0000_0000

  /** The 64-bit positions are more than one apart. As self-sells count twice and the
      least 64-bit number is its own absolute value, this misses every multiple of
      2^62. */
  predicate PositionsPart(fills: seq<MatchedFill>) {
    SelfSold(fills) % TWO_TO_62 != 0
  }

  /** Penalties, self-sells, what the shadow's product cuts off and what clamping cuts
      off the tracker's cash come to more than one cent. */
  ghost predicate CashParts(ticks: seq<seq<MatchedFill>>, limit: int) {
    var fills, cash := Flatten(ticks), TrackTicks(NEW_ACCOUNT, ticks, limit).cash;
    Abs(LIMIT_PENALTY * TicksOverLimit(ticks, limit) - 2 * SelfSoldCash(fills) + AllCutOff(fills)
        + (cash - Clamp64(cash))) > ONE_CENT
  }

  lemma DifferenceWraps(x: int, d: int)
    ensures Wrap64(Wrap64(x + 2 * d) - Wrap64(x)) == Wrap64(2 * d)
    ensures Abs64(Wrap64(2 * d)) > 1 <==> d % TWO_TO_62 != 0
  {
    hide Wrap64;
    WrapSum(x + 2 * d, -Wrap64(x));
    SameTurn(2 * d, x - Wrap64(x));
    assert x + 2 * d + -Wrap64(x) == 2 * d + (x - Wrap64(x));
    TurnsMissed(d);
  }

  lemma TurnsMissed(d: int)
    ensures Abs64(Wrap64(2 * d)) > 1 <==> d % TWO_TO_62 != 0
  {
    hide Wrap64, Abs64;
    var w := Wrap64(2 * d);
    var q := (2 * d - w) / TWO_TO_64;
    var h := d - q * (2 * TWO_TO_62);
    assert 2 * d - w == q * TWO_TO_64;
    assert w == 2 * h;
    WholeTurns(h, 2 * q);
    HalfAbsolute(h);
  }

  lemma WholeTurns(h: int, k: int)
    ensures (h + k * TWO_TO_62) % TWO_TO_62 == h % TWO_TO_62
  {
  }

  /** Twice a number from half the 64-bit range. */
  lemma HalfAbsolute(h: int)
    requires -TWO_TO_62 <= h < TWO_TO_62
    ensures Abs64(2 * h) > 1 <==> h % TWO_TO_62 != 0
  {
    assert Wrap64(2 * TWO_TO_62) == INT64_MIN;
    assert h % TWO_TO_62 == if h < 0 then h + TWO_TO_62 else h;
  }

  /** What the tick-end validation against the tracker's position and clamped cash
      reports, whatever the shadow has replayed. */
  lemma MismatchesReported(es: seq<Event>, stamps: seq<int>, ticks: seq<seq<MatchedFill>>, limit: int,
                           s: Shadow, tick: int)
    requires |stamps| == |es| && Flatten(ticks) == FillsOf(es)
    requires SameMoney(s, ReplayAll(EMPTY_SHADOW, es, stamps))
    ensures
      var a := TrackTicks(NEW_ACCOUNT, ticks, limit);
      Validate(s, a.position, Clamp64(a.cash), tick)
      == ReportIf(ReportIf(s, PositionsPart(FillsOf(es)), PositionIntegrityMismatch, tick, 0),
                  CashParts(ticks, limit), CashIntegrityMismatch, tick, 0)
  {
    hide TrackTicks, ReplayAll, FillsOf, Flatten, ReportIf, Wrap64, Abs64, Abs, Clamp64, CashParts, PositionsPart;
    PositionReported(es, stamps, ticks, limit);
    CashReported(es, stamps, ticks, limit);
  }

  lemma PositionReported(es: seq<Event>, stamps: seq<int>, ticks: seq<seq<MatchedFill>>, limit: int)
    requires |stamps| == |es| && Flatten(ticks) == FillsOf(es)
    ensures
      var a, s := TrackTicks(NEW_ACCOUNT, ticks, limit), ReplayAll(EMPTY_SHADOW, es, stamps);
      Abs64(Wrap64(s.position - a.position)) > 1 <==> PositionsPart(FillsOf(es))
  {
    hide TrackTicks, ReplayAll, NetVolume, SelfSold, SelfSoldCash, AllCutOff, FillsOf, Flatten, TicksOverLimit,
         Wrap64, Abs64;
    AccountsDiffer(es, stamps, ticks, limit);
    DifferenceWraps(NetVolume(FillsOf(es)), SelfSold(FillsOf(es)));
  }

  lemma CashReported(es: seq<Event>, stamps: seq<int>, ticks: seq<seq<MatchedFill>>, limit: int)
    requires |stamps| == |es| && Flatten(ticks) == FillsOf(es)
    ensures
      var a, s := TrackTicks(NEW_ACCOUNT, ticks, limit), ReplayAll(EMPTY_SHADOW, es, stamps);
      Abs(s.cash - Clamp64(a.cash)) > ONE_CENT <==> CashParts(ticks, limit)
  {
    hide TrackTicks, ReplayAll, NetVolume, SelfSold, SelfSoldCash, AllCutOff, FillsOf, Flatten, TicksOverLimit,
         Wrap64, Clamp64, Abs;
    AccountsDiffer(es, stamps, ticks, limit);
    var a, s := TrackTicks(NEW_ACCOUNT, ticks, limit), ReplayAll(EMPTY_SHADOW, es, stamps);
    assert s.cash - Clamp64(a.cash) == s.cash - a.cash + (a.cash - Clamp64(a.cash));
  }

  /** Without self-sells, and with products and cash that fit 64 bits, it reports one
      cash mismatch exactly when a position penalty has been charged, and nothing
      else. */
  lemma PenaltyIsReportedAsMismatch(es: seq<Event>, stamps: seq<int>, ticks: seq<seq<MatchedFill>>, limit: int,
                                    s: Shadow, tick: int)
    requires |stamps| == |es| && Flatten(ticks) == FillsOf(es)
    requires SameMoney(s, ReplayAll(EMPTY_SHADOW, es, stamps))
    requires NoSelfSell(FillsOf(es)) && ProductsFit(FillsOf(es))
    requires Fits64(TrackTicks(NEW_ACCOUNT, ticks, limit).cash)
    ensures
      var a := TrackTicks(NEW_ACCOUNT, ticks, limit);
      Validate(s, a.position, Clamp64(a.cash), tick)
      == ReportIf(s, TicksOverLimit(ticks, limit) > 0, CashIntegrityMismatch, tick, 0)
  {
    hide TrackTicks, ReplayAll, NetVolume, SelfSold, SelfSoldCash, AllCutOff, FillsOf, Flatten, TicksOverLimit, Report,
         Validate;
    MismatchesReported(es, stamps, ticks, limit, s, tick);
    SelfSoldZero(FillsOf(es));
    NothingCutOff(FillsOf(es));
  }

  /** The validation carried out on the tracker and the shadow book themselves. */
  method Audit(tracker: PnlTracker, shadow: ShadowLob, tick: int,
               ghost es: seq<Event>, ghost stamps: seq<int>, ghost ticks: seq<seq<MatchedFill>>)
    requires |stamps| == |es| && Flatten(ticks) == FillsOf(es)
    requires tracker.State() == TrackTicks(NEW_ACCOUNT, ticks, tracker.positionLimit)
    requires SameMoney(shadow.State(), ReplayAll(EMPTY_SHADOW, es, stamps))
    modifies shadow
    ensures shadow.State()
      == ReportIf(ReportIf(old(shadow.State()), PositionsPart(FillsOf(es)), PositionIntegrityMismatch, tick, 0),
                  CashParts(ticks, tracker.positionLimit), CashIntegrityMismatch, tick, 0)
    ensures shadow.violations == Record(old(shadow.violations),
      (if PositionsPart(FillsOf(es)) then [Violation(PositionIntegrityMismatch, tick, 0)] else [])
      + (if CashParts(ticks, tracker.positionLimit) then [Violation(CashIntegrityMismatch, tick, 0)] else []))
  {
    hide TrackTicks, ReplayAll, FillsOf, Flatten, SameMoney, Validate, ReportIf, PositionsPart, CashParts, Record;
    ghost var s := shadow.State();
    ghost var positions, cash := PositionsPart(FillsOf(es)), CashParts(ticks, tracker.positionLimit);
    MismatchesReported(es, stamps, ticks, tracker.positionLimit, s, tick);
    ghost var s1 := ReportIf(s, positions, PositionIntegrityMismatch, tick, 0);
    ReportIfLogs(s, positions, PositionIntegrityMismatch, tick, 0);
    ReportIfLogs(s1, cash, CashIntegrityMismatch, tick, 0);
    RecordAppend(s.violations, if positions then [Violation(PositionIntegrityMismatch, tick, 0)] else [],
                 if cash then [Violation(CashIntegrityMismatch, tick, 0)] else []);
    var reported := tracker.CashSafe();
    shadow.ValidateContestantState(tracker.position, reported, tick);
  }
}

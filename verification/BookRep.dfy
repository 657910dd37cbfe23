/** The representation invariant that ties the pool, the linked queues, the level
    arrays and the id table together, and the effect of each structural change on
    it. Everything here is about values; PersistentLob.dfy changes the arrays. */
module BookRep {
  import opened MarketTypes
  import opened PriceTimeBook
  import opened OrderTable
  import opened OrderPools
  import opened LobSides

  datatype LevelKey = LevelKey(isBid: bool, price: int)

  /** The queue of pool indices behind every level, oldest order first. */
  type Chains = map<LevelKey, seq<nat>>

  /** The contents of the four structures at one moment. */
  datatype Store = Store(
    nodes: seq<LimitOrder>,
    free: seq<nat>,
    bids: seq<PriceLevel>,
    asks: seq<PriceLevel>,
    locations: map<nat, Location>,
    chains: Chains)
  {
    function Levels(isBid: bool): seq<PriceLevel> {
      if isBid then bids else asks
    }

    function WithLevels(isBid: bool, lv: seq<PriceLevel>): Store {
      if isBid then this.(bids := lv) else this.(asks := lv)
    }
  }

  ghost predicate InPool(nodes: seq<LimitOrder>, c: seq<nat>) {
    forall k :: 0 <= k < |c| ==> c[k] < |nodes|
  }

  ghost function ChainVolume(nodes: seq<LimitOrder>, c: seq<nat>): int
    requires InPool(nodes, c)
  {
    if c == [] then 0 else nodes[c[0]].volume + ChainVolume(nodes, c[1..])
  }

  function Successor(c: seq<nat>, k: nat): nat
    requires k < |c|
  {
    if k + 1 < |c| then c[k + 1] else NULL_IDX
  }

  function HeadOf(c: seq<nat>): nat {
    if c == [] then NULL_IDX else c[0]
  }

  function TailOf(c: seq<nat>): nat {
    if c == [] then NULL_IDX else c[|c| - 1]
  }

  /** The nodes of `c` are linked in that order and end in NULL_IDX. */
  ghost predicate Linked(nodes: seq<LimitOrder>, c: seq<nat>) {
    InPool(nodes, c) && forall k :: 0 <= k < |c| ==> nodes[c[k]].next == Successor(c, k)
  }

  /** The level's ends, count and 64-bit total volume describe the queue `c`. */
  ghost predicate Describes(nodes: seq<LimitOrder>, l: PriceLevel, c: seq<nat>) {
    && Linked(nodes, c)
    && l.head == HeadOf(c)
    && l.tail == TailOf(c)
    && l.count == |c|
    && l.totalVolume == Wrap64(ChainVolume(nodes, c))
  }

  ghost predicate SideRep(s: Store, isBid: bool) {
    var lv := s.Levels(isBid);
    && Sorted(lv, isBid)
    && (forall i :: 0 <= i < |lv| ==>
          LevelKey(isBid, lv[i].price) in s.chains
          && Describes(s.nodes, lv[i], s.chains[LevelKey(isBid, lv[i].price)]))
    && (forall key :: key in s.chains && key.isBid == isBid ==> HasPrice(lv, key.price))
  }

  /** The queued node `x` of level `key` is the one its id is registered under. */
  ghost predicate Registered(s: Store, key: LevelKey, x: nat) {
    && x < |s.nodes|
    && s.nodes[x].orderId in s.locations
    && s.locations[s.nodes[x].orderId] == Location(x, key.price, key.isBid)
  }

  ghost predicate ChainsRegistered(s: Store) {
    forall key, k :: key in s.chains && 0 <= k < |s.chains[key]| ==> Registered(s, key, s.chains[key][k])
  }

  /** Ids grow along the queue. */
  ghost predicate Increasing(nodes: seq<LimitOrder>, c: seq<nat>) {
    InPool(nodes, c) &&
    forall j, k :: 0 <= j < k < |c| ==> nodes[c[j]].orderId < nodes[c[k]].orderId
  }

  ghost predicate ChainsIncreasing(s: Store) {
    forall key :: key in s.chains ==> Increasing(s.nodes, s.chains[key])
  }

  /** A registered id sits in the node and the queue its entry names. */
  ghost predicate Located(s: Store, id: nat)
    requires id in s.locations
  {
    var at := s.locations[id];
    && at.index < |s.nodes|
    && s.nodes[at.index].orderId == id
    && LevelKey(at.isBid, at.price) in s.chains
    && at.index in s.chains[LevelKey(at.isBid, at.price)]
  }

  ghost predicate LocationsRep(s: Store, nextId: nat) {
    forall id :: id in s.locations ==> 0 < id < nextId && Located(s, id)
  }

  ghost predicate InUse(s: Store, x: nat)
    requires x < |s.nodes|
  {
    s.nodes[x].orderId in s.locations && s.locations[s.nodes[x].orderId].index == x
  }

  /** Free indices and queued nodes partition the pool. */
  ghost predicate PoolRep(s: Store) {
    && Distinct(s.free)
    && (forall k :: 0 <= k < |s.free| ==> s.free[k] < |s.nodes|)
    && (forall x :: 0 <= x < |s.nodes| ==> (x in s.free <==> !InUse(s, x)))
    && |s.free| + |s.locations| == |s.nodes|
  }

  function QueueAt(chains: Chains, key: LevelKey): seq<nat> {
    if key in chains then chains[key] else []
  }

  /** The parts of the invariant that do not mention the level arrays. */
  ghost predicate CoreRep(s: Store, nextId: nat) {
    && ChainsRegistered(s)
    && ChainsIncreasing(s)
    && LocationsRep(s, nextId)
    && PoolRep(s)
    && |s.nodes| == ORDER_POOL_SIZE
  }

  ghost predicate Rep(s: Store, nextId: nat) {
    && SideRep(s, true)
    && SideRep(s, false)
    && CoreRep(s, nextId)
  }

  function RestingAt(s: Store, id: nat): Resting
    requires id in s.locations && s.locations[id].index < |s.nodes|
  {
    var at := s.locations[id];
    Resting(at.isBid, at.price, s.nodes[at.index].volume, s.nodes[at.index].participant)
  }

  /** The reference book's orders that a store stands for. */
  ghost function OrdersOf(s: Store): Orders {
    map id | id in s.locations && s.locations[id].index < |s.nodes| :: RestingAt(s, id)
  }

  lemma OrdersAreLocations(s: Store, nextId: nat)
    requires LocationsRep(s, nextId)
    ensures OrdersOf(s).Keys == s.locations.Keys
    ensures forall id :: id in s.locations ==> s.locations[id].index < |s.nodes|
  {
    forall id | id in s.locations ensures id in OrdersOf(s) {
      assert Located(s, id);
    }
  }

  // ------------------------------------------------------------ small facts

  lemma {:induction false} ChainVolumeAppend(nodes: seq<LimitOrder>, c: seq<nat>, d: seq<nat>)
    requires InPool(nodes, c) && InPool(nodes, d)
    ensures InPool(nodes, c + d)
    ensures ChainVolume(nodes, c + d) == ChainVolume(nodes, c) + ChainVolume(nodes, d)
  {
    if c == [] {
      assert c + d == d;
    } else {
      ChainVolumeAppend(nodes, c[1..], d);
      assert (c + d)[1..] == c[1..] + d;
    }
  }

  lemma ChainVolumeOne(nodes: seq<LimitOrder>, x: nat)
    requires x < |nodes|
    ensures ChainVolume(nodes, [x]) == nodes[x].volume
  {
    assert [x][1..] == [];
  }

  lemma ChainVolumeHead(nodes: seq<LimitOrder>, c: seq<nat>)
    requires InPool(nodes, c) && c != []
    ensures ChainVolume(nodes, c) == nodes[c[0]].volume + ChainVolume(nodes, c[1..])
  {
  }

  lemma {:induction false} ChainVolumeFrame(nodes: seq<LimitOrder>, nodes': seq<LimitOrder>, c: seq<nat>)
    requires InPool(nodes, c) && InPool(nodes', c)
    requires forall k :: 0 <= k < |c| ==> nodes'[c[k]].volume == nodes[c[k]].volume
    ensures ChainVolume(nodes', c) == ChainVolume(nodes, c)
  {
    if c != [] {
      ChainVolumeFrame(nodes, nodes', c[1..]);
    }
  }

  lemma DescribesFrame(nodes: seq<LimitOrder>, nodes': seq<LimitOrder>, l: PriceLevel, c: seq<nat>)
    requires Describes(nodes, l, c) && |nodes'| == |nodes|
    requires forall k :: 0 <= k < |c| ==> nodes'[c[k]] == nodes[c[k]]
    ensures Describes(nodes', l, c)
  {
    ChainVolumeFrame(nodes, nodes', c);
  }

  /** A queued node belongs to one queue only, and is not free. */
  lemma QueuesDisjoint(s: Store, key: LevelKey, x: nat)
    requires ChainsRegistered(s) && PoolRep(s)
    requires key in s.chains && x in s.chains[key]
    ensures x < |s.nodes| && x !in s.free
    ensures forall other :: other in s.chains && x in s.chains[other] ==> other == key
  {
    var k :| 0 <= k < |s.chains[key]| && s.chains[key][k] == x;
    assert Registered(s, key, s.chains[key][k]);
    assert InUse(s, x);
    forall other | other in s.chains && x in s.chains[other] ensures other == key {
      var j :| 0 <= j < |s.chains[other]| && s.chains[other][j] == x;
      assert Registered(s, other, s.chains[other][j]);
    }
  }

  /** Opening or closing an empty queue touches nothing else. */
  lemma EmptyQueuesAreFree(s: Store, s': Store, nextId: nat)
    requires CoreRep(s, nextId)
    requires s'.nodes == s.nodes && s'.free == s.free && s'.locations == s.locations
    requires forall key :: QueueAt(s'.chains, key) == QueueAt(s.chains, key)
    ensures CoreRep(s', nextId) && OrdersOf(s') == OrdersOf(s)
  {
    forall key, j | key in s'.chains && 0 <= j < |s'.chains[key]| ensures Registered(s', key, s'.chains[key][j]) {
      assert QueueAt(s'.chains, key) == QueueAt(s.chains, key);
      assert Registered(s, key, s.chains[key][j]);
    }
    forall key | key in s'.chains ensures Increasing(s'.nodes, s'.chains[key]) {
      assert QueueAt(s'.chains, key) == QueueAt(s.chains, key);
    }
    forall id | id in s'.locations ensures 0 < id < nextId && Located(s', id) {
      assert Located(s, id);
      var at := s.locations[id];
      assert QueueAt(s'.chains, LevelKey(at.isBid, at.price)) == QueueAt(s.chains, LevelKey(at.isBid, at.price));
    }
    forall x | 0 <= x < |s'.nodes| ensures x in s'.free <==> !InUse(s', x) {
      assert InUse(s, x) == InUse(s', x);
    }
  }

  lemma OtherSide(s: Store, s': Store, isBid: bool)
    requires SideRep(s, isBid)
    requires s'.Levels(isBid) == s.Levels(isBid) && |s'.nodes| == |s.nodes|
    requires forall key: LevelKey :: key.isBid == isBid ==>
      (key in s'.chains <==> key in s.chains) && (key in s.chains ==> s'.chains[key] == s.chains[key])
    requires forall key: LevelKey, k :: key in s.chains && key.isBid == isBid && 0 <= k < |s.chains[key]| ==>
      var x := s.chains[key][k]; x < |s.nodes| ==> s'.nodes[x] == s.nodes[x]
    ensures SideRep(s', isBid)
  {
    var lv := s.Levels(isBid);
    forall i | 0 <= i < |lv|
      ensures LevelKey(isBid, lv[i].price) in s'.chains
      ensures Describes(s'.nodes, lv[i], s'.chains[LevelKey(isBid, lv[i].price)])
    {
      DescribesFrame(s.nodes, s'.nodes, lv[i], s.chains[LevelKey(isBid, lv[i].price)]);
    }
  }

  // ------------------------------------------------------- opening a level

  /** A fresh empty level changes no queue. */
  lemma OpenLevel(s: Store, nextId: nat, isBid: bool, ins: nat, price: int, s': Store)
    requires Rep(s, nextId)
    requires !HasPrice(s.Levels(isBid), price) && ins <= |s.Levels(isBid)|
    requires s' == s.WithLevels(isBid, s.Levels(isBid)[..ins] + [NewLevel(price)] + s.Levels(isBid)[ins..])
                    .(chains := s.chains[LevelKey(isBid, price) := []])
    requires Sorted(s'.Levels(isBid), isBid)
    ensures Rep(s', nextId) && OrdersOf(s') == OrdersOf(s)
  {
    assert LevelKey(isBid, price) !in s.chains by { assert SideRep(s, isBid); }
    EmptyQueuesAreFree(s, s', nextId);
    assert SideRep(s, !isBid);
    OtherSide(s, s', !isBid);
    OpenLevelSide(s, isBid, ins, price, s');
  }

  lemma NewLevelDescribes(nodes: seq<LimitOrder>, price: int)
    ensures Describes(nodes, NewLevel(price), [])
  {
  }

  lemma OpenLevelSide(s: Store, isBid: bool, ins: nat, price: int, s': Store)
    requires SideRep(s, isBid)
    requires !HasPrice(s.Levels(isBid), price) && ins <= |s.Levels(isBid)|
    requires s'.nodes == s.nodes && s'.chains == s.chains[LevelKey(isBid, price) := []]
    requires s'.Levels(isBid) == s.Levels(isBid)[..ins] + [NewLevel(price)] + s.Levels(isBid)[ins..]
    requires Sorted(s'.Levels(isBid), isBid)
    ensures SideRep(s', isBid)
  {
    hide Describes;
    NewLevelDescribes(s.nodes, price);
    var lv, lv' := s.Levels(isBid), s'.Levels(isBid);
    forall i | 0 <= i < |lv'|
      ensures LevelKey(isBid, lv'[i].price) in s'.chains
      ensures Describes(s'.nodes, lv'[i], s'.chains[LevelKey(isBid, lv'[i].price)])
    {
      if i != ins {
        var j := if i < ins then i else i - 1;
        assert lv'[i] == lv[j] && HasPrice(lv, lv[j].price);
      }
    }
    forall k | k in s'.chains && k.isBid == isBid ensures HasPrice(lv', k.price) {
      if k.price != price { assert HasPrice(lv, k.price); }
      InsertedPrices(lv, ins, NewLevel(price), k.price);
    }
  }

  /** Closing an empty level changes no queue either. */
  lemma CloseLevel(s: Store, nextId: nat, isBid: bool, idx: nat, s': Store)
    requires Rep(s, nextId)
    requires idx < |s.Levels(isBid)| && s.Levels(isBid)[idx].count == 0
    requires s' == s.WithLevels(isBid, s.Levels(isBid)[..idx] + s.Levels(isBid)[idx + 1..])
                    .(chains := s.chains - {LevelKey(isBid, s.Levels(isBid)[idx].price)})
    ensures Rep(s', nextId) && OrdersOf(s') == OrdersOf(s)
  {
    var lv := s.Levels(isBid);
    var key := LevelKey(isBid, lv[idx].price);
    assert SideRep(s, isBid) && SideRep(s, !isBid);
    assert s.chains[key] == [] by { assert Describes(s.nodes, lv[idx], s.chains[key]); }
    EmptyQueuesAreFree(s, s', nextId);
    OtherSide(s, s', !isBid);
    CloseLevelSide(s, isBid, idx, s');
  }

  lemma CloseLevelSide(s: Store, isBid: bool, idx: nat, s': Store)
    requires SideRep(s, isBid) && idx < |s.Levels(isBid)|
    requires s'.nodes == s.nodes && s'.chains == s.chains - {LevelKey(isBid, s.Levels(isBid)[idx].price)}
    requires s'.Levels(isBid) == s.Levels(isBid)[..idx] + s.Levels(isBid)[idx + 1..]
    ensures SideRep(s', isBid)
  {
    hide Describes;
    var lv, lv' := s.Levels(isBid), s'.Levels(isBid);
    RestSorted(lv, isBid, idx);
    forall i | 0 <= i < |lv'|
      ensures LevelKey(isBid, lv'[i].price) in s'.chains
      ensures Describes(s'.nodes, lv'[i], s'.chains[LevelKey(isBid, lv'[i].price)])
    {
      var j := if i < idx then i else i + 1;
      assert lv'[i] == lv[j];
      OtherPrice(lv, isBid, j, idx);
    }
    forall k | k in s'.chains && k.isBid == isBid ensures HasPrice(lv', k.price) {
      assert HasPrice(lv, k.price);
      RestHasPrice(lv, idx, k.price);
    }
  }

  /** Every queue but `key` keeps its nodes. */
  ghost predicate Untouched(s: Store, nodes': seq<LimitOrder>, key: LevelKey) {
    |nodes'| == |s.nodes| &&
    forall other, x :: other in s.chains && other != key && x in s.chains[other] && x < |nodes'| ==>
      nodes'[x] == s.nodes[x]
  }

  lemma UntouchedBut(s: Store, nodes': seq<LimitOrder>, key: LevelKey, x: nat, y: nat)
    requires |nodes'| == |s.nodes|
    requires forall z :: 0 <= z < |s.nodes| && z != x && z != y ==> nodes'[z] == s.nodes[z]
    requires forall other :: other in s.chains && other != key ==> x !in s.chains[other] && y !in s.chains[other]
    ensures Untouched(s, nodes', key)
  {
  }

  lemma SamePrices(lv: seq<PriceLevel>, lv': seq<PriceLevel>, descending: bool, price: int)
    requires |lv'| == |lv| && forall i :: 0 <= i < |lv| ==> lv'[i].price == lv[i].price
    ensures Sorted(lv, descending) ==> Sorted(lv', descending)
    ensures HasPrice(lv, price) ==> HasPrice(lv', price)
  {
    if HasPrice(lv, price) {
      var j :| 0 <= j < |lv| && lv[j].price == price;
      assert lv'[j].price == price;
    }
  }

  /** Redescribing one level and its queue keeps both sides in shape. */
  lemma ReplaceLevel(s: Store, isBid: bool, li: nat, s': Store)
    requires SideRep(s, true) && SideRep(s, false)
    requires li < |s.Levels(isBid)| && |s'.Levels(isBid)| == |s.Levels(isBid)|
    requires
      var lv, lv' := s.Levels(isBid), s'.Levels(isBid);
      var key := LevelKey(isBid, lv[li].price);
      && lv' == lv[li := lv'[li]] && lv'[li].price == lv[li].price
      && s'.Levels(!isBid) == s.Levels(!isBid)
      && key in s'.chains && s'.chains == s.chains[key := s'.chains[key]]
      && Untouched(s, s'.nodes, key)
      && Describes(s'.nodes, lv'[li], s'.chains[key])
    ensures SideRep(s', true) && SideRep(s', false)
  {
    hide Describes;
    var lv, lv' := s.Levels(isBid), s'.Levels(isBid);
    forall i | 0 <= i < |lv'|
      ensures LevelKey(isBid, lv'[i].price) in s'.chains
      ensures Describes(s'.nodes, lv'[i], s'.chains[LevelKey(isBid, lv'[i].price)])
    {
      if i != li {
        OtherPrice(lv, isBid, i, li);
        UntouchedLevel(s, s'.nodes, LevelKey(isBid, lv[li].price), lv[i], LevelKey(isBid, lv[i].price));
      }
    }
    forall q | q in s'.chains && q.isBid == isBid ensures HasPrice(lv', q.price) {
      assert HasPrice(lv, q.price);
      SamePrices(lv, lv', isBid, q.price);
    }
    SamePrices(lv, lv', isBid, lv[li].price);
    assert SideRep(s', isBid);
    UntouchedSide(s, isBid, LevelKey(isBid, lv[li].price), s');
  }

  lemma UntouchedLevel(s: Store, nodes': seq<LimitOrder>, key: LevelKey, l: PriceLevel, other: LevelKey)
    requires Untouched(s, nodes', key) && other in s.chains && other != key
    requires Describes(s.nodes, l, s.chains[other])
    ensures Describes(nodes', l, s.chains[other])
  {
    var c := s.chains[other];
    forall k | 0 <= k < |c| ensures nodes'[c[k]] == s.nodes[c[k]] {
      assert c[k] in c;
    }
    DescribesFrame(s.nodes, nodes', l, c);
  }

  lemma UntouchedSide(s: Store, isBid: bool, key: LevelKey, s': Store)
    requires SideRep(s, !isBid) && s'.Levels(!isBid) == s.Levels(!isBid) && key.isBid == isBid
    requires key in s'.chains && s'.chains == s.chains[key := s'.chains[key]]
    requires Untouched(s, s'.nodes, key)
    ensures SideRep(s', !isBid)
  {
    var lv := s.Levels(!isBid);
    forall i | 0 <= i < |lv|
      ensures LevelKey(!isBid, lv[i].price) in s'.chains
      ensures Describes(s'.nodes, lv[i], s'.chains[LevelKey(!isBid, lv[i].price)])
    {
      UntouchedLevel(s, s'.nodes, key, lv[i], LevelKey(!isBid, lv[i].price));
    }
  }

  lemma QueueDistinct(nodes: seq<LimitOrder>, c: seq<nat>)
    requires Increasing(nodes, c)
    ensures Distinct(c)
  {
    forall i, j | 0 <= i < j < |c| ensures c[i] != c[j] {
      assert nodes[c[i]].orderId < nodes[c[j]].orderId;
    }
  }

  lemma FreeNotQueued(s: Store, x: nat)
    requires ChainsRegistered(s) && PoolRep(s) && x in s.free
    ensures forall key :: key in s.chains ==> x !in s.chains[key]
  {
    forall key | key in s.chains ensures x !in s.chains[key] {
      if x in s.chains[key] { QueuesDisjoint(s, key, x); }
    }
  }

  lemma QueuedElsewhere(s: Store, key: LevelKey, x: nat)
    requires ChainsRegistered(s) && PoolRep(s) && |s.nodes| < NULL_IDX
    requires key in s.chains && (x in s.chains[key] || x == NULL_IDX)
    ensures forall other :: other in s.chains && other != key ==> x !in s.chains[other]
  {
    forall other | other in s.chains && other != key ensures x !in s.chains[other] {
      if x in s.chains[other] { QueuesDisjoint(s, other, x); }
    }
  }

  lemma LevelQueue(s: Store, isBid: bool, li: nat)
    requires SideRep(s, isBid) && ChainsIncreasing(s) && li < |s.Levels(isBid)|
    ensures
      var l := s.Levels(isBid)[li];
      var key := LevelKey(isBid, l.price);
      key in s.chains && Describes(s.nodes, l, s.chains[key]) && Distinct(s.chains[key])
  {
    var key := LevelKey(isBid, s.Levels(isBid)[li].price);
    assert Increasing(s.nodes, s.chains[key]);
    QueueDistinct(s.nodes, s.chains[key]);
  }

  /** A node that is free, in the queue `key`, or absent. */
  ghost predicate Private(s: Store, key: LevelKey, x: nat) {
    key in s.chains && (x in s.free || x in s.chains[key] || x == NULL_IDX)
  }

  /** As ReplaceLevel, when the nodes changed are `x` and `y` of that queue. */
  lemma ReplaceAround(s: Store, isBid: bool, li: nat, s': Store, x: nat, y: nat)
    requires SideRep(s, true) && SideRep(s, false) && ChainsRegistered(s) && PoolRep(s) && |s.nodes| < NULL_IDX
    requires li < |s.Levels(isBid)| && |s'.Levels(isBid)| == |s.Levels(isBid)|
    requires
      var lv, lv' := s.Levels(isBid), s'.Levels(isBid);
      var key := LevelKey(isBid, lv[li].price);
      && lv' == lv[li := lv'[li]] && lv'[li].price == lv[li].price
      && s'.Levels(!isBid) == s.Levels(!isBid)
      && key in s'.chains && s'.chains == s.chains[key := s'.chains[key]]
      && Private(s, key, x) && Private(s, key, y)
      && Describes(s'.nodes, lv'[li], s'.chains[key])
    requires |s'.nodes| == |s.nodes|
    requires forall z :: 0 <= z < |s.nodes| && z != x && z != y ==> s'.nodes[z] == s.nodes[z]
    ensures SideRep(s', true) && SideRep(s', false)
  {
    var key := LevelKey(isBid, s.Levels(isBid)[li].price);
    PrivateElsewhere(s, key, x);
    PrivateElsewhere(s, key, y);
    UntouchedBut(s, s'.nodes, key, x, y);
    ReplaceLevel(s, isBid, li, s');
  }

  lemma PrivateElsewhere(s: Store, key: LevelKey, x: nat)
    requires ChainsRegistered(s) && PoolRep(s) && |s.nodes| < NULL_IDX && Private(s, key, x)
    ensures forall other :: other in s.chains && other != key ==> x !in s.chains[other]
  {
    if x in s.free {
      FreeNotQueued(s, x);
    } else {
      QueuedElsewhere(s, key, x);
    }
  }

  // ---------------------------------------------------- appending an order

  /** The node array after the fresh node `idx` is filled in and linked behind `tail`. */
  function AppendNode(nodes: seq<LimitOrder>, idx: nat, o: LimitOrder, tail: nat): seq<LimitOrder>
    requires idx < |nodes| && (tail == NULL_IDX || tail < |nodes|)
  {
    var filled := nodes[idx := o];
    if tail == NULL_IDX then filled else filled[tail := filled[tail].(next := idx)]
  }

  function AppendToLevel(l: PriceLevel, idx: nat, volume: int): PriceLevel {
    PriceLevel(l.price, Wrap64(l.totalVolume + volume), if l.tail == NULL_IDX then idx else l.head, idx, l.count + 1)
  }

  /** The store after `idx` has been queued at level `li`. */
  ghost predicate Appended(s: Store, isBid: bool, li: nat, idx: nat, o: LimitOrder, s': Store) {
    var lv := s.Levels(isBid);
    && li < |lv| && idx < |s.nodes| && |s.nodes| < NULL_IDX && o.next == NULL_IDX
    && s.free != [] && s.free[|s.free| - 1] == idx
    && (lv[li].tail == NULL_IDX || lv[li].tail < |s.nodes|)
    && LevelKey(isBid, lv[li].price) in s.chains
    && s'.nodes == AppendNode(s.nodes, idx, o, lv[li].tail)
    && s'.free == s.free[..|s.free| - 1]
    && s'.Levels(isBid) == lv[li := AppendToLevel(lv[li], idx, o.volume)]
    && s'.Levels(!isBid) == s.Levels(!isBid)
    && s'.locations == s.locations[o.orderId := Location(idx, lv[li].price, isBid)]
    && s'.chains == s.chains[LevelKey(isBid, lv[li].price) := s.chains[LevelKey(isBid, lv[li].price)] + [idx]]
  }

  lemma AppendVolume(nodes: seq<LimitOrder>, nodes': seq<LimitOrder>, c: seq<nat>, idx: nat, o: LimitOrder)
    requires InPool(nodes, c) && idx < |nodes| == |nodes'| && nodes'[idx].volume == o.volume
    requires forall k :: 0 <= k < |c| ==> nodes'[c[k]].volume == nodes[c[k]].volume
    ensures InPool(nodes', c + [idx])
    ensures Wrap64(Wrap64(ChainVolume(nodes, c)) + o.volume) == Wrap64(ChainVolume(nodes', c + [idx]))
  {
    hide Wrap64, ChainVolume;
    ChainVolumeFrame(nodes, nodes', c);
    ChainVolumeAppend(nodes', c, [idx]);
    ChainVolumeOne(nodes', idx);
    WrapSum(ChainVolume(nodes, c), o.volume);
  }

  lemma AppendLinked(nodes: seq<LimitOrder>, c: seq<nat>, idx: nat, o: LimitOrder)
    requires Linked(nodes, c) && Distinct(c)
    requires idx < |nodes| < NULL_IDX && idx !in c && o.next == NULL_IDX
    ensures TailOf(c) == NULL_IDX || TailOf(c) < |nodes|
    ensures Linked(AppendNode(nodes, idx, o, TailOf(c)), c + [idx])
  {
    var nodes' := AppendNode(nodes, idx, o, TailOf(c));
    var c' := c + [idx];
    forall k | 0 <= k < |c'| ensures nodes'[c'[k]].next == Successor(c', k) {
      if k < |c| { assert nodes[c[k]].next == Successor(c, k) && c[k] in c; }
      if k + 1 < |c| { assert c[k] != c[|c| - 1]; }
    }
  }

  lemma AppendNodeVolumes(nodes: seq<LimitOrder>, c: seq<nat>, idx: nat, o: LimitOrder)
    requires InPool(nodes, c) && idx < |nodes| && idx !in c
    ensures
      var nodes' := AppendNode(nodes, idx, o, TailOf(c));
      |nodes'| == |nodes| && nodes'[idx].volume == o.volume
      && forall k :: 0 <= k < |c| ==> nodes'[c[k]].volume == nodes[c[k]].volume
  {
    assert forall k :: 0 <= k < |c| ==> c[k] in c;
  }

  lemma AppendDescribes(nodes: seq<LimitOrder>, l: PriceLevel, c: seq<nat>, idx: nat, o: LimitOrder)
    requires Describes(nodes, l, c) && Distinct(c)
    requires idx < |nodes| < NULL_IDX && idx !in c && o.next == NULL_IDX
    ensures l.tail == NULL_IDX || l.tail < |nodes|
    ensures Describes(AppendNode(nodes, idx, o, l.tail), AppendToLevel(l, idx, o.volume), c + [idx])
  {
    hide Wrap64, ChainVolume, Linked, Distinct, AppendNode;
    LinkedInPool(nodes, c);
    AppendLinked(nodes, c, idx, o);
    AppendNodeVolumes(nodes, c, idx, o);
    AppendVolume(nodes, AppendNode(nodes, idx, o, l.tail), c, idx, o);
    TailIsNode(nodes, c);
  }

  lemma TailIsNode(nodes: seq<LimitOrder>, c: seq<nat>)
    requires InPool(nodes, c) && |nodes| < NULL_IDX
    ensures TailOf(c) == NULL_IDX <==> c == []
  {
  }

  /** Ids, volumes and owners are unchanged except at `idx`. */
  ghost predicate SameButAt(nodes: seq<LimitOrder>, nodes': seq<LimitOrder>, idx: nat) {
    |nodes'| == |nodes| &&
    forall x :: 0 <= x < |nodes| && x != idx ==> SameOrder(nodes[x], nodes'[x])
  }

  predicate SameOrder(a: LimitOrder, b: LimitOrder) {
    a.orderId == b.orderId && a.volume == b.volume && a.participant == b.participant
  }

  lemma AppendCore(s: Store, nextId: nat, isBid: bool, li: nat, idx: nat, o: LimitOrder, s': Store)
    requires Appended(s, isBid, li, idx, o, s') && CoreRep(s, nextId) && o.orderId == nextId > 0
    requires forall key :: key in s.chains ==> idx !in s.chains[key]
    requires s.Levels(isBid)[li].tail != idx
    ensures CoreRep(s', nextId + 1)
    ensures OrdersOf(s') == OrdersOf(s)[nextId :=
      Resting(isBid, s.Levels(isBid)[li].price, o.volume, o.participant)]
  {
    assert nextId !in s.locations;
    assert idx in s.free && !InUse(s, idx);
    assert SameButAt(s.nodes, s'.nodes, idx);
    assert SameOrder(s'.nodes[idx], o);
    AppendRegistered(s, nextId, isBid, li, idx, o, s');
    AppendIncreasing(s, nextId, isBid, li, idx, o, s');
    AppendLocated(s, nextId, isBid, li, idx, o, s');
    AppendPool(s, nextId, idx, s');
    AppendOrders(s, nextId, isBid, li, idx, o, s');
  }

  lemma AppendLocated(s: Store, nextId: nat, isBid: bool, li: nat, idx: nat, o: LimitOrder, s': Store)
    requires Appended(s, isBid, li, idx, o, s') && LocationsRep(s, nextId) && o.orderId == nextId > 0
    requires SameButAt(s.nodes, s'.nodes, idx) && SameOrder(s'.nodes[idx], o) && !InUse(s, idx)
    ensures LocationsRep(s', nextId + 1)
  {
    var key := LevelKey(isBid, s.Levels(isBid)[li].price);
    var c, c' := s.chains[key], s'.chains[key];
    forall id | id in s'.locations ensures 0 < id < nextId + 1 && Located(s', id) {
      if id == nextId {
        assert c'[|c'| - 1] == idx;
      } else {
        assert Located(s, id);
        assert InUse(s, s.locations[id].index);
        if s.locations[id].index in c {
          var k :| 0 <= k < |c| && c[k] == s.locations[id].index;
          assert c'[k] == c[k];
        }
      }
    }
  }

  lemma AppendOrders(s: Store, nextId: nat, isBid: bool, li: nat, idx: nat, o: LimitOrder, s': Store)
    requires Appended(s, isBid, li, idx, o, s') && LocationsRep(s, nextId) && o.orderId == nextId
    requires SameButAt(s.nodes, s'.nodes, idx) && SameOrder(s'.nodes[idx], o) && !InUse(s, idx)
    requires LocationsRep(s', nextId + 1)
    ensures OrdersOf(s') == OrdersOf(s)[nextId :=
      Resting(isBid, s.Levels(isBid)[li].price, o.volume, o.participant)]
  {
    hide AppendNode, SameButAt, OrdersOf, LocationsRep, RestingAt;
    IndicesInPool(s, nextId);
    IndicesInPool(s', nextId + 1);
    forall id | id in s.locations && id != nextId ensures RestingAt(s', id) == RestingAt(s, id) {
      RestingKept(s, nextId, idx, s', id);
    }
    RestingNew(s', nextId, o);
    OrdersWith(s, s', nextId, Resting(isBid, s.Levels(isBid)[li].price, o.volume, o.participant));
  }

  lemma RestingKept(s: Store, nextId: nat, idx: nat, s': Store, id: nat)
    requires LocationsRep(s, nextId) && SameButAt(s.nodes, s'.nodes, idx) && idx < |s.nodes| && !InUse(s, idx)
    requires id in s.locations && id in s'.locations && s'.locations[id] == s.locations[id]
    ensures s.locations[id].index < |s.nodes| && RestingAt(s', id) == RestingAt(s, id)
  {
    assert Located(s, id);
    assert s.locations[id].index != idx;
  }

  lemma RestingNew(s: Store, id: nat, o: LimitOrder)
    requires id in s.locations && s.locations[id].index < |s.nodes| && SameOrder(s.nodes[s.locations[id].index], o)
    ensures RestingAt(s, id) == Resting(s.locations[id].isBid, s.locations[id].price, o.volume, o.participant)
  {
  }

  ghost predicate IndicesFit(s: Store) {
    forall id :: id in s.locations ==> s.locations[id].index < |s.nodes|
  }

  lemma IndicesInPool(s: Store, nextId: nat)
    requires LocationsRep(s, nextId)
    ensures IndicesFit(s)
  {
    forall id | id in s.locations ensures s.locations[id].index < |s.nodes| {
      assert Located(s, id);
    }
  }

  /** The orders of a store that differs in one entry. */
  lemma OrdersWith(s: Store, s': Store, id: nat, o: Resting)
    requires IndicesFit(s) && IndicesFit(s') && s'.locations.Keys == s.locations.Keys + {id}
    requires forall j :: j in s.locations && j != id ==> RestingAt(s', j) == RestingAt(s, j)
    requires RestingAt(s', id) == o
    ensures OrdersOf(s') == OrdersOf(s)[id := o]
  {
    hide RestingAt;
  }

  /** The orders of a store that lacks one entry. */
  lemma OrdersLess(s: Store, s': Store, id: nat)
    requires IndicesFit(s) && IndicesFit(s') && s'.locations.Keys == s.locations.Keys - {id}
    requires forall j :: j in s'.locations ==> RestingAt(s', j) == RestingAt(s, j)
    ensures OrdersOf(s') == OrdersOf(s) - {id}
  {
    hide RestingAt;
  }

  lemma AppendRegistered(s: Store, nextId: nat, isBid: bool, li: nat, idx: nat, o: LimitOrder, s': Store)
    requires Appended(s, isBid, li, idx, o, s') && ChainsRegistered(s)
    requires forall key :: key in s.chains ==> idx !in s.chains[key]
    requires SameButAt(s.nodes, s'.nodes, idx) && SameOrder(s'.nodes[idx], o) && o.orderId !in s.locations
    ensures ChainsRegistered(s')
  {
    var key := LevelKey(isBid, s.Levels(isBid)[li].price);
    forall k, j | k in s'.chains && 0 <= j < |s'.chains[k]| ensures Registered(s', k, s'.chains[k][j]) {
      if k != key || j < |s.chains[key]| {
        var x := s.chains[k][j];
        assert s'.chains[k][j] == x && x in s.chains[k];
        assert Registered(s, k, s.chains[k][j]);
      }
    }
  }

  lemma AppendIncreasing(s: Store, nextId: nat, isBid: bool, li: nat, idx: nat, o: LimitOrder, s': Store)
    requires Appended(s, isBid, li, idx, o, s') && ChainsRegistered(s) && ChainsIncreasing(s)
    requires LocationsRep(s, nextId) && o.orderId == nextId
    requires forall key :: key in s.chains ==> idx !in s.chains[key]
    requires SameButAt(s.nodes, s'.nodes, idx) && SameOrder(s'.nodes[idx], o)
    ensures ChainsIncreasing(s')
  {
    var key := LevelKey(isBid, s.Levels(isBid)[li].price);
    forall k | k in s'.chains ensures Increasing(s'.nodes, s'.chains[k]) {
      var c := s.chains[k];
      assert Increasing(s.nodes, c);
      forall j | 0 <= j < |c|
        ensures c[j] < |s'.nodes| && s'.nodes[c[j]].orderId == s.nodes[c[j]].orderId < nextId
      {
        assert c[j] in c && Registered(s, k, c[j]);
        assert SameOrder(s.nodes[c[j]], s'.nodes[c[j]]);
      }
    }
  }

  lemma AppendPool(s: Store, nextId: nat, idx: nat, s': Store)
    requires PoolRep(s) && s.free != [] && s.free[|s.free| - 1] == idx < |s.nodes|
    requires nextId !in s.locations
    requires forall id :: id in s.locations ==> s.locations[id].index < |s.nodes| && s.nodes[s.locations[id].index].orderId == id
    requires SameButAt(s.nodes, s'.nodes, idx) && s'.free == s.free[..|s.free| - 1]
    requires nextId in s'.locations && s'.locations[nextId].index == idx && s'.locations == s.locations[nextId := s'.locations[nextId]]
    requires s'.nodes[idx].orderId == nextId
    ensures PoolRep(s')
  {
    forall x | 0 <= x < |s'.nodes| ensures x in s'.free <==> !InUse(s', x) {
      if x != idx {
        assert x in s'.free <==> x in s.free by {
          if x in s.free {
            var k :| 0 <= k < |s.free| && s.free[k] == x;
            assert s'.free[k] == x;
          }
        }
      }
    }
    assert idx !in s'.free;
  }

  lemma AppendSides(s: Store, isBid: bool, li: nat, idx: nat, o: LimitOrder, s': Store)
    requires Appended(s, isBid, li, idx, o, s') && SideRep(s, true) && SideRep(s, false)
    requires ChainsRegistered(s) && ChainsIncreasing(s) && PoolRep(s)
    ensures s.Levels(isBid)[li].tail != idx
    ensures SideRep(s', true) && SideRep(s', false)
  {
    hide SideRep, ChainsRegistered, ChainsIncreasing, PoolRep, Describes, Distinct, AppendNode;
    var l := s.Levels(isBid)[li];
    var c := s.chains[LevelKey(isBid, l.price)];
    LevelQueue(s, isBid, li);
    FreeNotQueued(s, idx);
    AppendDescribes(s.nodes, l, c, idx, o);
    TailQueued(s.nodes, l, c);
    AppendNodeFrame(s.nodes, idx, o, l.tail);
    ReplaceAround(s, isBid, li, s', idx, l.tail);
  }

  lemma TailQueued(nodes: seq<LimitOrder>, l: PriceLevel, c: seq<nat>)
    requires Describes(nodes, l, c)
    ensures l.tail == NULL_IDX || l.tail in c
  {
  }

  lemma AppendNodeFrame(nodes: seq<LimitOrder>, idx: nat, o: LimitOrder, tail: nat)
    requires idx < |nodes| && (tail == NULL_IDX || tail < |nodes|)
    ensures
      var nodes' := AppendNode(nodes, idx, o, tail);
      |nodes'| == |nodes| && forall z :: 0 <= z < |nodes| && z != idx && z != tail ==> nodes'[z] == nodes[z]
  {
  }

  /** Queueing a fresh node keeps the invariant and adds exactly that order. */
  lemma AppendKeepsRep(s: Store, nextId: nat, isBid: bool, li: nat, idx: nat, o: LimitOrder, s': Store)
    requires Rep(s, nextId) && Appended(s, isBid, li, idx, o, s') && o.orderId == nextId > 0
    ensures Rep(s', nextId + 1)
    ensures OrdersOf(s') == OrdersOf(s)[nextId :=
      Resting(isBid, s.Levels(isBid)[li].price, o.volume, o.participant)]
  {
    AppendSides(s, isBid, li, idx, o, s');
    FreeNotQueued(s, idx);
    AppendCore(s, nextId, isBid, li, idx, o, s');
  }

  // ------------------------------------------------- reducing an order's volume

  /** The store after `v` has been taken off the order at the head of level `li`. */
  ghost predicate Reduced(s: Store, isBid: bool, li: nat, v: int, s': Store) {
    var lv := s.Levels(isBid);
    && li < |lv| && lv[li].head < |s.nodes|
    && var x := lv[li].head;
    && s'.nodes == s.nodes[x := s.nodes[x].(volume := s.nodes[x].volume - v)]
    && s'.free == s.free && s'.locations == s.locations && s'.chains == s.chains
    && s'.Levels(isBid) == lv[li := lv[li].(totalVolume := Wrap64(lv[li].totalVolume - v))]
    && s'.Levels(!isBid) == s.Levels(!isBid)
  }

  lemma ReduceLinked(nodes: seq<LimitOrder>, c: seq<nat>, nodes': seq<LimitOrder>)
    requires Linked(nodes, c) && |nodes'| == |nodes|
    requires forall x :: 0 <= x < |nodes| ==> nodes'[x].next == nodes[x].next
    ensures Linked(nodes', c)
  {
    forall k | 0 <= k < |c| ensures nodes'[c[k]].next == Successor(c, k) {
      assert nodes[c[k]].next == Successor(c, k);
    }
  }

  lemma ReduceVolume(nodes: seq<LimitOrder>, c: seq<nat>, v: int, nodes': seq<LimitOrder>)
    requires InPool(nodes, c) && Distinct(c) && c != []
    requires nodes' == nodes[c[0] := nodes[c[0]].(volume := nodes[c[0]].volume - v)]
    ensures InPool(nodes', c) && Wrap64(Wrap64(ChainVolume(nodes, c)) - v) == Wrap64(ChainVolume(nodes', c))
  {
    hide Wrap64, ChainVolume, Distinct;
    assert forall k :: 0 < k < |c| ==> c[k] != c[0] by { HeadElsewhere(c); }
    ChainVolumeFrame(nodes, nodes', c[1..]);
    ChainVolumeHead(nodes, c);
    ChainVolumeHead(nodes', c);
    WrapSum(ChainVolume(nodes, c), -v);
  }

  lemma HeadElsewhere(c: seq<nat>)
    requires Distinct(c)
    ensures forall k :: 0 < k < |c| ==> c[k] != c[0]
  {
  }

  lemma ReduceDescribes(nodes: seq<LimitOrder>, l: PriceLevel, c: seq<nat>, v: int, nodes': seq<LimitOrder>, l': PriceLevel)
    requires Describes(nodes, l, c) && Distinct(c) && l.head < |nodes| < NULL_IDX
    requires nodes' == nodes[l.head := nodes[l.head].(volume := nodes[l.head].volume - v)]
    requires l' == l.(totalVolume := Wrap64(l.totalVolume - v))
    ensures l.head in c && Describes(nodes', l', c)
  {
    hide Wrap64, ChainVolume, Linked, Distinct;
    LinkedInPool(nodes, c);
    ReduceLinked(nodes, c, nodes');
    ReduceVolume(nodes, c, v, nodes');
    assert c[0] in c;
  }

  lemma ReduceCore(s: Store, nextId: nat, isBid: bool, li: nat, v: int, s': Store)
    requires Reduced(s, isBid, li, v, s') && CoreRep(s, nextId)
    ensures CoreRep(s', nextId)
  {
    assert forall x :: 0 <= x < |s.nodes| ==> s'.nodes[x].orderId == s.nodes[x].orderId;
    forall k, j | k in s'.chains && 0 <= j < |s'.chains[k]| ensures Registered(s', k, s'.chains[k][j]) {
      assert Registered(s, k, s.chains[k][j]);
    }
    forall k | k in s'.chains ensures Increasing(s'.nodes, s'.chains[k]) {
      assert Increasing(s.nodes, s.chains[k]);
    }
    forall id | id in s'.locations ensures 0 < id < nextId && Located(s', id) {
      assert Located(s, id);
    }
    forall x | 0 <= x < |s'.nodes| ensures x in s'.free <==> !InUse(s', x) {
      assert InUse(s, x) == InUse(s', x);
    }
  }

  lemma ReduceOrders(s: Store, nextId: nat, isBid: bool, li: nat, v: int, s': Store)
    requires Reduced(s, isBid, li, v, s') && LocationsRep(s, nextId)
    requires
      var x := s.Levels(isBid)[li].head;
      s.nodes[x].orderId in s.locations && s.locations[s.nodes[x].orderId].index == x
    ensures
      var id := s.nodes[s.Levels(isBid)[li].head].orderId;
      OrdersOf(s') == OrdersOf(s)[id := OrdersOf(s)[id].(volume := OrdersOf(s)[id].volume - v)]
  {
    forall j | j in s.locations && j != s.nodes[s.Levels(isBid)[li].head].orderId
      ensures RestingAt(s', j) == RestingAt(s, j)
    {
      assert Located(s, j);
    }
  }

  lemma ReducedLevel(s: Store, isBid: bool, li: nat, v: int, s': Store)
    requires Reduced(s, isBid, li, v, s') && SideRep(s, isBid) && ChainsIncreasing(s) && |s.nodes| < NULL_IDX
    ensures
      var key := LevelKey(isBid, s.Levels(isBid)[li].price);
      && key in s.chains && s.Levels(isBid)[li].head in s.chains[key]
      && Describes(s'.nodes, s'.Levels(isBid)[li], s.chains[key])
  {
    hide SideRep, ChainsIncreasing, Describes, Distinct, Wrap64;
    var l := s.Levels(isBid)[li];
    LevelQueue(s, isBid, li);
    ReduceDescribes(s.nodes, l, s.chains[LevelKey(isBid, l.price)], v, s'.nodes, s'.Levels(isBid)[li]);
  }

  lemma ReduceSides(s: Store, isBid: bool, li: nat, v: int, s': Store)
    requires Reduced(s, isBid, li, v, s') && SideRep(s, true) && SideRep(s, false)
    requires ChainsRegistered(s) && ChainsIncreasing(s) && PoolRep(s) && |s.nodes| < NULL_IDX
    ensures SideRep(s', true) && SideRep(s', false)
  {
    hide SideRep, ChainsRegistered, ChainsIncreasing, PoolRep, Describes, Wrap64;
    var x := s.Levels(isBid)[li].head;
    ReducedLevel(s, isBid, li, v, s');
    ReplaceAround(s, isBid, li, s', x, x);
  }

  lemma HeadRegistered(s: Store, isBid: bool, li: nat)
    requires SideRep(s, isBid) && ChainsRegistered(s) && li < |s.Levels(isBid)|
    requires s.Levels(isBid)[li].head != NULL_IDX
    ensures Registered(s, LevelKey(isBid, s.Levels(isBid)[li].price), s.Levels(isBid)[li].head)
  {
    var l := s.Levels(isBid)[li];
    var c := s.chains[LevelKey(isBid, l.price)];
    assert Describes(s.nodes, l, c);
    assert Registered(s, LevelKey(isBid, l.price), c[0]);
  }

  /** Reducing the head keeps the invariant and changes only that volume. */
  lemma ReduceKeepsRep(s: Store, nextId: nat, isBid: bool, li: nat, v: int, s': Store)
    requires Rep(s, nextId) && Reduced(s, isBid, li, v, s')
    ensures Rep(s', nextId)
    ensures
      var id := s.nodes[s.Levels(isBid)[li].head].orderId;
      && id in s.locations
      && OrdersOf(s') == OrdersOf(s)[id := OrdersOf(s)[id].(volume := OrdersOf(s)[id].volume - v)]
  {
    HeadRegistered(s, isBid, li);
    ReduceSides(s, isBid, li, v, s');
    ReduceCore(s, nextId, isBid, li, v, s');
    ReduceOrders(s, nextId, isBid, li, v, s');
  }

  // ------------------------------------------------------ unlinking an order

  function Without(c: seq<nat>, k: nat): seq<nat>
    requires k < |c|
  {
    c[..k] + c[k + 1..]
  }

  /** The node array after `x`, queued behind `prev`, has been bypassed. */
  function BypassNode(nodes: seq<LimitOrder>, x: nat, prev: nat): seq<LimitOrder>
    requires x < |nodes| && (prev == NULL_IDX || prev < |nodes|)
  {
    if prev == NULL_IDX then nodes else nodes[prev := nodes[prev].(next := nodes[x].next)]
  }

  function BypassLevel(l: PriceLevel, x: nat, prev: nat, next: nat, volume: int): PriceLevel {
    PriceLevel(l.price, Wrap64(l.totalVolume - volume),
               if prev == NULL_IDX then next else l.head,
               if l.tail == x then prev else l.tail,
               l.count - 1)
  }

  function Before(c: seq<nat>, k: nat): nat
    requires k < |c|
  {
    if k == 0 then NULL_IDX else c[k - 1]
  }

  /** The store after the `k`-th order of level `li` has been unlinked, released
      and forgotten. */
  ghost predicate Unlinked(s: Store, isBid: bool, li: nat, k: nat, s': Store) {
    var lv := s.Levels(isBid);
    && li < |lv|
    && var key := LevelKey(isBid, lv[li].price);
    && key in s.chains && k < |s.chains[key]|
    && var c := s.chains[key];
    && var x, prev := c[k], Before(c, k);
    && x < |s.nodes| && (prev == NULL_IDX || prev < |s.nodes|)
    && s'.nodes == BypassNode(s.nodes, x, prev)
    && s'.free == s.free + [x]
    && s'.Levels(isBid) == lv[li := BypassLevel(lv[li], x, prev, s.nodes[x].next, s.nodes[x].volume)]
    && s'.Levels(!isBid) == s.Levels(!isBid)
    && s'.locations == s.locations - {s.nodes[x].orderId}
    && s'.chains == s.chains[key := Without(c, k)]
  }

  lemma UnlinkLinks(nodes: seq<LimitOrder>, c: seq<nat>, k: nat)
    requires Linked(nodes, c) && Distinct(c) && |nodes| < NULL_IDX && k < |c|
    ensures Linked(BypassNode(nodes, c[k], Before(c, k)), Without(c, k))
  {
    var nodes' := BypassNode(nodes, c[k], Before(c, k));
    var c' := Without(c, k);
    hide Distinct, BypassNode, Without, Successor;
    WithoutLength(c, k);
    BypassLength(nodes, c, k);
    forall j | 0 <= j < |c'| ensures c'[j] < |nodes'| && nodes'[c'[j]].next == Successor(c', j) {
      var i := if j < k then j else j + 1;
      WithoutAt(c, k, j);
      assert nodes[c[i]].next == Successor(c, i);
      assert nodes[c[k]].next == Successor(c, k);
      BypassedNext(nodes, c, k, i);
      WithoutSuccessor(c, k, j);
    }
  }

  lemma WithoutLength(c: seq<nat>, k: nat)
    requires k < |c|
    ensures |Without(c, k)| == |c| - 1
  {
  }

  lemma BypassLength(nodes: seq<LimitOrder>, c: seq<nat>, k: nat)
    requires InPool(nodes, c) && k < |c|
    ensures |BypassNode(nodes, c[k], Before(c, k))| == |nodes|
  {
  }

  lemma BypassedNext(nodes: seq<LimitOrder>, c: seq<nat>, k: nat, i: nat)
    requires InPool(nodes, c) && Distinct(c) && |nodes| < NULL_IDX && k < |c| && i < |c|
    ensures
      var nodes' := BypassNode(nodes, c[k], Before(c, k));
      |nodes'| == |nodes| && nodes'[c[i]].next == nodes[c[if i + 1 == k then k else i]].next
  {
    if i + 1 != k && k > 0 {
      assert c[i] != c[k - 1] by { if i < k - 1 { assert c[i] != c[k - 1]; } else { assert c[k - 1] != c[i]; } }
    }
  }

  /** The successor in the shorter queue is the successor in the queue, passing over
      the node taken out. */
  lemma WithoutSuccessor(c: seq<nat>, k: nat, j: nat)
    requires k < |c| && j < |c| - 1
    ensures |Without(c, k)| == |c| - 1
    ensures Successor(Without(c, k), j) == Successor(c, if j + 1 == k then k else if j < k then j else j + 1)
  {
    WithoutAt(c, k, j);
    if j + 1 < |c| - 1 { WithoutAt(c, k, j + 1); }
  }

  lemma ChainVolumeWithout(nodes: seq<LimitOrder>, c: seq<nat>, k: nat)
    requires InPool(nodes, c) && k < |c|
    ensures InPool(nodes, Without(c, k))
    ensures ChainVolume(nodes, Without(c, k)) == ChainVolume(nodes, c) - nodes[c[k]].volume
  {
    var rest := c[k..];
    ChainVolumeAppend(nodes, c[..k], c[k + 1..]);
    ChainVolumeAppend(nodes, c[..k], rest);
    assert c == c[..k] + rest;
    assert rest[1..] == c[k + 1..];
    assert ChainVolume(nodes, rest) == nodes[rest[0]].volume + ChainVolume(nodes, rest[1..]);
  }

  lemma UnlinkVolume(nodes: seq<LimitOrder>, c: seq<nat>, k: nat)
    requires InPool(nodes, c) && |nodes| < NULL_IDX && k < |c|
    ensures
      var nodes' := BypassNode(nodes, c[k], Before(c, k));
      InPool(nodes', Without(c, k)) &&
      ChainVolume(nodes', Without(c, k)) == ChainVolume(nodes, c) - nodes[c[k]].volume
  {
    ChainVolumeWithout(nodes, c, k);
    ChainVolumeFrame(nodes, BypassNode(nodes, c[k], Before(c, k)), Without(c, k));
  }

  lemma UnlinkDescribes(nodes: seq<LimitOrder>, l: PriceLevel, c: seq<nat>, k: nat)
    requires Describes(nodes, l, c) && Distinct(c) && |nodes| < NULL_IDX && k < |c|
    ensures
      Describes(BypassNode(nodes, c[k], Before(c, k)),
                BypassLevel(l, c[k], Before(c, k), nodes[c[k]].next, nodes[c[k]].volume), Without(c, k))
  {
    hide Wrap64, ChainVolume, Linked, Without, BypassNode;
    LinkedInPool(nodes, c);
    UnlinkLinks(nodes, c, k);
    UnlinkVolume(nodes, c, k);
    UnlinkEnds(nodes, c, k);
    WrapSum(ChainVolume(nodes, c), -nodes[c[k]].volume);
  }

  lemma LinkedInPool(nodes: seq<LimitOrder>, c: seq<nat>)
    requires Linked(nodes, c)
    ensures InPool(nodes, c)
  {
  }

  /** The ends of a queue without its `k`-th node. */
  lemma UnlinkEnds(nodes: seq<LimitOrder>, c: seq<nat>, k: nat)
    requires Linked(nodes, c) && Distinct(c) && k < |c|
    ensures |Without(c, k)| == |c| - 1 && c[k] < |nodes|
    ensures HeadOf(Without(c, k)) == if k == 0 then nodes[c[k]].next else HeadOf(c)
    ensures TailOf(Without(c, k)) == if TailOf(c) == c[k] then Before(c, k) else TailOf(c)
    ensures Before(c, k) == NULL_IDX || k > 0
  {
    hide Distinct, Without;
    WithoutLength(c, k);
    assert nodes[c[k]].next == Successor(c, k);
    LastOnce(c, k);
    if |c| > 1 {
      WithoutAt(c, k, 0);
      WithoutAt(c, k, |c| - 2);
    }
  }

  lemma LastOnce(c: seq<nat>, k: nat)
    requires Distinct(c) && k < |c|
    ensures c[|c| - 1] == c[k] <==> k == |c| - 1
  {
  }

  lemma WithoutAt(c: seq<nat>, k: nat, j: nat)
    requires k < |c| && j < |c| - 1
    ensures Without(c, k)[j] == c[if j < k then j else j + 1]
  {
  }

  lemma UnlinkRegistered(s: Store, isBid: bool, li: nat, k: nat, s': Store)
    requires Unlinked(s, isBid, li, k, s') && ChainsRegistered(s)
    requires Increasing(s.nodes, s.chains[LevelKey(isBid, s.Levels(isBid)[li].price)])
    ensures ChainsRegistered(s')
  {
    var key := LevelKey(isBid, s.Levels(isBid)[li].price);
    var c := s.chains[key];
    assert Registered(s, key, c[k]);
    forall q, j | q in s'.chains && 0 <= j < |s'.chains[q]| ensures Registered(s', q, s'.chains[q][j]) {
      if q == key {
        WithoutAt(c, k, j);
        var i := if j < k then j else j + 1;
        assert Registered(s, key, c[i]);
        assert s.nodes[c[i]].orderId != s.nodes[c[k]].orderId;
      } else {
        assert Registered(s, q, s.chains[q][j]);
      }
    }
  }

  lemma UnlinkIncreasing(s: Store, isBid: bool, li: nat, k: nat, s': Store)
    requires Unlinked(s, isBid, li, k, s') && ChainsIncreasing(s)
    ensures ChainsIncreasing(s')
  {
    var key := LevelKey(isBid, s.Levels(isBid)[li].price);
    var c := s.chains[key];
    forall q | q in s'.chains ensures Increasing(s'.nodes, s'.chains[q]) {
      assert Increasing(s.nodes, s.chains[q]);
      if q == key {
        forall j | 0 <= j < |c| - 1 ensures s'.chains[q][j] == c[if j < k then j else j + 1] {
          WithoutAt(c, k, j);
        }
      }
    }
  }

  lemma UnlinkLocated(s: Store, nextId: nat, isBid: bool, li: nat, k: nat, s': Store)
    requires Unlinked(s, isBid, li, k, s') && LocationsRep(s, nextId)
    ensures LocationsRep(s', nextId)
  {
    var key := LevelKey(isBid, s.Levels(isBid)[li].price);
    var c, c' := s.chains[key], s'.chains[key];
    forall id | id in s'.locations ensures 0 < id < nextId && Located(s', id) {
      assert Located(s, id);
      var x := s.locations[id].index;
      if x in c {
        var i :| 0 <= i < |c| && c[i] == x;
        assert i != k;
        assert c'[if i < k then i else i - 1] == x;
      }
    }
  }

  lemma UnlinkPool(s: Store, x0: nat, s': Store)
    requires PoolRep(s) && x0 < |s.nodes| && InUse(s, x0)
    requires forall id :: id in s.locations ==> s.locations[id].index < |s.nodes| && s.nodes[s.locations[id].index].orderId == id
    requires |s'.nodes| == |s.nodes|
    requires forall x :: 0 <= x < |s.nodes| ==> s'.nodes[x].orderId == s.nodes[x].orderId
    requires s'.free == s.free + [x0] && s'.locations == s.locations - {s.nodes[x0].orderId}
    ensures PoolRep(s')
  {
    var id0 := s.nodes[x0].orderId;
    forall x | 0 <= x < |s'.nodes| ensures x in s'.free <==> !InUse(s', x) {
      assert x in s'.free <==> x in s.free || x == x0;
      assert InUse(s', x) <==> InUse(s, x) && x != x0;
    }
    RemoveSize(s.locations, id0);
    assert x0 !in s.free;
  }

  lemma RemoveSize<V>(m: map<nat, V>, k: nat)
    requires k in m
    ensures |m - {k}| == |m| - 1
  {
    assert m.Keys == (m - {k}).Keys + {k};
    assert |m.Keys| == |m| && |(m - {k}).Keys| == |m - {k}|;
  }

  lemma UnlinkSides(s: Store, isBid: bool, li: nat, k: nat, s': Store)
    requires Unlinked(s, isBid, li, k, s') && SideRep(s, true) && SideRep(s, false)
    requires ChainsRegistered(s) && ChainsIncreasing(s) && PoolRep(s) && |s.nodes| < NULL_IDX
    ensures SideRep(s', true) && SideRep(s', false)
  {
    hide SideRep, ChainsRegistered, ChainsIncreasing, PoolRep, Describes, Distinct, BypassNode, Without;
    var l := s.Levels(isBid)[li];
    var c := s.chains[LevelKey(isBid, l.price)];
    LevelQueue(s, isBid, li);
    UnlinkDescribes(s.nodes, l, c, k);
    BypassFrame(s.nodes, c[k], Before(c, k));
    ReplaceAround(s, isBid, li, s', Before(c, k), Before(c, k));
  }

  lemma BypassFrame(nodes: seq<LimitOrder>, x: nat, prev: nat)
    requires x < |nodes| && (prev == NULL_IDX || prev < |nodes|)
    ensures
      var nodes' := BypassNode(nodes, x, prev);
      |nodes'| == |nodes| && forall z :: 0 <= z < |nodes| && z != prev ==> nodes'[z] == nodes[z]
  {
  }

  lemma UnlinkCore(s: Store, nextId: nat, isBid: bool, li: nat, k: nat, s': Store)
    requires Unlinked(s, isBid, li, k, s') && CoreRep(s, nextId)
    ensures CoreRep(s', nextId)
  {
    var key := LevelKey(isBid, s.Levels(isBid)[li].price);
    var c := s.chains[key];
    assert Registered(s, key, c[k]);
    assert Increasing(s.nodes, c);
    UnlinkRegistered(s, isBid, li, k, s');
    UnlinkIncreasing(s, isBid, li, k, s');
    UnlinkLocated(s, nextId, isBid, li, k, s');
    forall id | id in s.locations
      ensures s.locations[id].index < |s.nodes| && s.nodes[s.locations[id].index].orderId == id
    {
      assert Located(s, id);
    }
    UnlinkPool(s, c[k], s');
  }

  /** Unlinking keeps the invariant and removes exactly that order. */
  lemma UnlinkKeepsRep(s: Store, nextId: nat, isBid: bool, li: nat, k: nat, s': Store)
    requires Rep(s, nextId) && Unlinked(s, isBid, li, k, s')
    ensures Rep(s', nextId)
    ensures
      var x := s.chains[LevelKey(isBid, s.Levels(isBid)[li].price)][k];
      s.nodes[x].orderId in s.locations && OrdersOf(s') == OrdersOf(s) - {s.nodes[x].orderId}
  {
    var key := LevelKey(isBid, s.Levels(isBid)[li].price);
    assert Registered(s, key, s.chains[key][k]);
    UnlinkSides(s, isBid, li, k, s');
    UnlinkCore(s, nextId, isBid, li, k, s');
    UnlinkOrders(s, nextId, isBid, li, k, s');
  }

  lemma UnlinkOrders(s: Store, nextId: nat, isBid: bool, li: nat, k: nat, s': Store)
    requires Unlinked(s, isBid, li, k, s') && LocationsRep(s, nextId) && LocationsRep(s', nextId)
    ensures
      var x := s.chains[LevelKey(isBid, s.Levels(isBid)[li].price)][k];
      OrdersOf(s') == OrdersOf(s) - {s.nodes[x].orderId}
  {
    hide OrdersOf;
    IndicesInPool(s, nextId);
    IndicesInPool(s', nextId);
    var key := LevelKey(isBid, s.Levels(isBid)[li].price);
    OrdersLess(s, s', s.nodes[s.chains[key][k]].orderId);
  }

  // ------------------------------------------------------------ best order

  /** The head of the first level is the reference book's top order. */
  lemma HeadIsTop(s: Store, nextId: nat, isBid: bool)
    requires Rep(s, nextId)
    requires s.Levels(isBid) != [] && s.Levels(isBid)[0].head != NULL_IDX
    ensures
      var x := s.Levels(isBid)[0].head;
      && x < |s.nodes|
      && s.nodes[x].orderId in s.locations
      && s.locations[s.nodes[x].orderId] == Location(x, s.Levels(isBid)[0].price, isBid)
      && IsTop(OrdersOf(s), isBid, s.nodes[x].orderId)
  {
    var lv := s.Levels(isBid);
    var key := LevelKey(isBid, lv[0].price);
    assert SideRep(s, isBid) && Describes(s.nodes, lv[0], s.chains[key]);
    assert Registered(s, key, s.chains[key][0]);
    var id := s.nodes[lv[0].head].orderId;
    forall j | OnSide(OrdersOf(s), isBid, j) && j != id
      ensures Precedes(OrdersOf(s), isBid, id, j)
    {
      HeadPrecedes(s, nextId, isBid, s.chains[key], id, j);
    }
  }

  lemma HeadPrecedes(s: Store, nextId: nat, isBid: bool, c: seq<nat>, id: nat, j: nat)
    requires SideRep(s, isBid) && LocationsRep(s, nextId) && s.Levels(isBid) != []
    requires LevelKey(isBid, s.Levels(isBid)[0].price) in s.chains
    requires c == s.chains[LevelKey(isBid, s.Levels(isBid)[0].price)] && c != [] && Increasing(s.nodes, c)
    requires id in s.locations && s.locations[id] == Location(c[0], s.Levels(isBid)[0].price, isBid)
    requires s.nodes[c[0]].orderId == id
    requires j in s.locations && s.locations[j].isBid == isBid && j != id
    ensures Precedes(OrdersOf(s), isBid, id, j)
  {
    var lv := s.Levels(isBid);
    assert Located(s, j);
    var at := s.locations[j];
    if at.price == lv[0].price {
      var k :| 0 <= k < |c| && c[k] == at.index;
      assert k > 0 && s.nodes[c[0]].orderId < s.nodes[c[k]].orderId;
    } else {
      assert HasPrice(lv, at.price);
      var i :| 0 <= i < |lv| && lv[i].price == at.price;
      assert Better(isBid, lv[0].price, lv[i].price);
    }
  }

  // ---------------------------------------------------- queues as lists of ids

  function QueueIds(s: Store, key: LevelKey): seq<nat>
    requires key in s.chains && forall k :: 0 <= k < |s.chains[key]| ==> s.chains[key][k] < |s.nodes|
  {
    seq(|s.chains[key]|, k requires 0 <= k < |s.chains[key]| => s.nodes[s.chains[key][k]].orderId)
  }

  /** The linked queue of an engine level is the queue at that price. */
  lemma ChainIsQueue(s: Store, nextId: nat, key: LevelKey)
    requires CoreRep(s, nextId) && key in s.chains
    ensures InPool(s.nodes, s.chains[key])
    ensures IsQueue(OrdersOf(s), key.isBid, key.price, QueueIds(s, key))
  {
    var c := s.chains[key];
    assert Increasing(s.nodes, c);
    var ids := QueueIds(s, key);
    OrdersAreLocations(s, nextId);
    forall id ensures id in ids <==> AtPrice(OrdersOf(s), key.isBid, key.price, id) {
      if id in ids {
        var k :| 0 <= k < |ids| && ids[k] == id;
        assert Registered(s, key, c[k]);
      }
      if AtPrice(OrdersOf(s), key.isBid, key.price, id) {
        assert Located(s, id);
        var k :| 0 <= k < |c| && c[k] == s.locations[id].index;
        assert ids[k] == id;
      }
    }
  }

  lemma OrderHasLevel(s: Store, nextId: nat, isBid: bool, id: nat)
    requires Rep(s, nextId) && OnSide(OrdersOf(s), isBid, id)
    ensures HasPrice(s.Levels(isBid), s.locations[id].price)
  {
    assert SideRep(s, isBid) && Located(s, id);
  }

  /** Without levels there are no orders on the side. */
  lemma NoLevelsNoOrders(s: Store, nextId: nat, isBid: bool)
    requires Rep(s, nextId) && s.Levels(isBid) == []
    ensures !HasSide(OrdersOf(s), isBid)
  {
    forall id | OnSide(OrdersOf(s), isBid, id) ensures false {
      OrderHasLevel(s, nextId, isBid, id);
    }
  }
}

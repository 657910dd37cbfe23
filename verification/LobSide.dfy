/** One side of the book: a flat array of price levels, best price first
    (game-master/persistent_lob.hpp, `PriceLevel` and `LOBSide`). */
module LobSides {
  import opened MarketTypes
  import opened PriceTimeBook
  import opened OrderPools

  const MAX_PRICE_LEVELS: nat := 256

  datatype PriceLevel = PriceLevel(price: int, totalVolume: int, head: nat, tail: nat, count: int)

  function NewLevel(price: int): PriceLevel {
    PriceLevel(price, 0, NULL_IDX, NULL_IDX, 0)
  }

  /** Strictly descending prices for bids, strictly ascending for asks. */
  ghost predicate Sorted(lv: seq<PriceLevel>, descending: bool) {
    forall i, j :: 0 <= i < j < |lv| ==> Better(descending, lv[i].price, lv[j].price)
  }

  ghost predicate HasPrice(lv: seq<PriceLevel>, price: int) {
    exists i :: 0 <= i < |lv| && lv[i].price == price
  }

  /** The prices that have a level. */
  ghost function PricesOf(lv: seq<PriceLevel>): set<int> {
    set i | 0 <= i < |lv| :: lv[i].price
  }

  lemma PriceListed(lv: seq<PriceLevel>, p: int)
    ensures p in PricesOf(lv) <==> HasPrice(lv, p)
  {
  }

  /** Each level has a price of its own. */
  lemma {:induction false} PricesCount(lv: seq<PriceLevel>, descending: bool)
    requires Sorted(lv, descending)
    ensures |PricesOf(lv)| == |lv|
  {
    if lv != [] {
      var n := |lv| - 1;
      PricesCount(lv[..n], descending);
      assert forall i :: 0 <= i < n ==> Better(descending, lv[i].price, lv[n].price);
      assert lv[n].price !in PricesOf(lv[..n]);
      assert PricesOf(lv) == PricesOf(lv[..n]) + {lv[n].price};
    }
  }

  lemma SamePricesOf(lv: seq<PriceLevel>, lv': seq<PriceLevel>)
    requires |lv'| == |lv| && forall i :: 0 <= i < |lv| ==> lv'[i].price == lv[i].price
    ensures PricesOf(lv') == PricesOf(lv)
  {
    forall p ensures p in PricesOf(lv') <==> p in PricesOf(lv) {
      if p in PricesOf(lv) {
        var i :| 0 <= i < |lv| && lv[i].price == p;
        assert lv'[i].price == p;
      }
    }
  }

  /** The map `m` from price to level is what the array `lv` stores. */
  ghost predicate StandsFor(lv: seq<PriceLevel>, m: map<int, PriceLevel>) {
    && (forall i :: 0 <= i < |lv| ==> lv[i].price in m && m[lv[i].price] == lv[i])
    && (forall p :: p in m ==> HasPrice(lv, p))
  }

  lemma StandsForUnique(lv: seq<PriceLevel>, m: map<int, PriceLevel>, n: map<int, PriceLevel>)
    requires StandsFor(lv, m) && StandsFor(lv, n)
    ensures m == n
  {
    forall p | p in n ensures p in m {
      assert HasPrice(lv, p);
      var i :| 0 <= i < |lv| && lv[i].price == p;
      assert lv[i].price in m;
    }
    forall p | p in m ensures p in n && m[p] == n[p] {
      assert HasPrice(lv, p);
      var i :| 0 <= i < |lv| && lv[i].price == p;
      assert m[lv[i].price] == lv[i] == n[lv[i].price];
    }
    assert m.Keys == n.Keys;
  }

  lemma {:induction false} MapExists(lv: seq<PriceLevel>, descending: bool)
    requires Sorted(lv, descending)
    ensures exists m :: StandsFor(lv, m)
  {
    if lv == [] {
      assert StandsFor(lv, map[]);
    } else {
      var n := |lv| - 1;
      MapExists(lv[..n], descending);
      var m :| StandsFor(lv[..n], m);
      assert !HasPrice(lv[..n], lv[n].price);
      StandsForInsert(lv[..n], m, n, lv[n]);
      assert lv[..n][..n] + [lv[n]] + lv[..n][n..] == lv;
    }
  }

  /** The finite map from price to level that a sorted array refines. */
  ghost function ByPrice(lv: seq<PriceLevel>, descending: bool): (m: map<int, PriceLevel>)
    requires Sorted(lv, descending)
    ensures StandsFor(lv, m)
  {
    MapExists(lv, descending);
    var m :| StandsFor(lv, m);
    m
  }

  lemma StandsForInsert(lv: seq<PriceLevel>, m: map<int, PriceLevel>, ins: nat, l: PriceLevel)
    requires ins <= |lv| && StandsFor(lv, m) && !HasPrice(lv, l.price)
    ensures StandsFor(lv[..ins] + [l] + lv[ins..], m[l.price := l])
  {
    var lv' := lv[..ins] + [l] + lv[ins..];
    var m' := m[l.price := l];
    forall i | 0 <= i < |lv'| ensures lv'[i].price in m' && m'[lv'[i].price] == lv'[i] {
      if i != ins {
        assert lv'[i] == lv[if i < ins then i else i - 1];
      }
    }
    forall p | p in m' ensures HasPrice(lv', p) {
      if p == l.price {
        assert lv'[ins].price == p;
      } else {
        assert HasPrice(lv, p);
        var i :| 0 <= i < |lv| && lv[i].price == p;
        assert lv'[if i < ins then i else i + 1].price == p;
      }
    }
  }

  lemma StandsForErase(lv: seq<PriceLevel>, descending: bool, m: map<int, PriceLevel>, idx: nat)
    requires idx < |lv| && Sorted(lv, descending) && StandsFor(lv, m)
    ensures Sorted(lv[..idx] + lv[idx + 1..], descending)
    ensures StandsFor(lv[..idx] + lv[idx + 1..], m - {lv[idx].price})
  {
    hide Sorted;
    var lv' := lv[..idx] + lv[idx + 1..];
    var m' := m - {lv[idx].price};
    RestSorted(lv, descending, idx);
    forall i | 0 <= i < |lv'| ensures lv'[i].price in m' && m'[lv'[i].price] == lv'[i] {
      var j := if i < idx then i else i + 1;
      assert lv'[i] == lv[j];
      OtherPrice(lv, descending, j, idx);
    }
    forall p | p in m' ensures HasPrice(lv', p) {
      assert HasPrice(lv, p);
      RestHasPrice(lv, idx, p);
    }
  }

  lemma OtherPrice(lv: seq<PriceLevel>, descending: bool, i: nat, j: nat)
    requires Sorted(lv, descending) && i < |lv| && j < |lv| && i != j
    ensures lv[i].price != lv[j].price
  {
  }

  lemma InsertedSorted(lv: seq<PriceLevel>, descending: bool, ins: nat, l: PriceLevel)
    requires Sorted(lv, descending) && ins <= |lv|
    requires forall i :: 0 <= i < ins ==> Better(descending, lv[i].price, l.price)
    requires ins < |lv| ==> Better(descending, l.price, lv[ins].price)
    ensures Sorted(lv[..ins] + [l] + lv[ins..], descending)
  {
  }

  lemma RestSorted(lv: seq<PriceLevel>, descending: bool, idx: nat)
    requires Sorted(lv, descending) && idx < |lv|
    ensures Sorted(lv[..idx] + lv[idx + 1..], descending)
  {
  }

  lemma RestHasPrice(lv: seq<PriceLevel>, idx: nat, price: int)
    requires HasPrice(lv, price) && idx < |lv| && price != lv[idx].price
    ensures HasPrice(lv[..idx] + lv[idx + 1..], price)
  {
    var j :| 0 <= j < |lv| && lv[j].price == price;
    assert (lv[..idx] + lv[idx + 1..])[if j < idx then j else j - 1].price == price;
  }

  /** What looking a price up for an add leaves: the same levels, or one more, empty,
      level at the price's sorted place. */
  ghost predicate Opened(before: seq<PriceLevel>, after: seq<PriceLevel>, price: int) {
    if HasPrice(before, price) || |before| == MAX_PRICE_LEVELS then after == before
    else exists ins :: 0 <= ins <= |before| && after == before[..ins] + [NewLevel(price)] + before[ins..]
  }

  /** Opening a level adds at most that price. */
  lemma OpenedPrices(before: seq<PriceLevel>, after: seq<PriceLevel>, price: int, q: int)
    requires Opened(before, after, price) && HasPrice(after, price)
    ensures HasPrice(after, q) <==> HasPrice(before, q) || q == price
  {
    hide HasPrice;
    if !HasPrice(before, price) && |before| != MAX_PRICE_LEVELS {
      var ins :| 0 <= ins <= |before| && after == before[..ins] + [NewLevel(price)] + before[ins..];
      InsertedPrices(before, ins, NewLevel(price), q);
    }
  }

  lemma InsertedPrices(lv: seq<PriceLevel>, ins: nat, l: PriceLevel, q: int)
    requires ins <= |lv|
    ensures HasPrice(lv[..ins] + [l] + lv[ins..], q) <==> HasPrice(lv, q) || q == l.price
  {
    var lv' := lv[..ins] + [l] + lv[ins..];
    InsertedAt(lv, ins, l);
    if HasPrice(lv, q) {
      var i :| 0 <= i < |lv| && lv[i].price == q;
      assert lv'[if i < ins then i else i + 1] == lv[i];
    }
    if HasPrice(lv', q) {
      var i :| 0 <= i < |lv'| && lv'[i].price == q;
      if i != ins { assert lv[if i < ins then i else i - 1] == lv'[i]; }
    }
    if q == l.price { assert lv'[ins].price == q; }
  }

  /** Where the entries are after an insertion. */
  lemma InsertedAt(lv: seq<PriceLevel>, ins: nat, l: PriceLevel)
    requires ins <= |lv|
    ensures
      var lv' := lv[..ins] + [l] + lv[ins..];
      && |lv'| == |lv| + 1 && lv'[ins] == l
      && (forall i :: 0 <= i < ins ==> lv'[i] == lv[i])
      && (forall i :: ins < i < |lv'| ==> lv'[i] == lv[i - 1])
  {
  }

  lemma OpenedPricesOf(before: seq<PriceLevel>, after: seq<PriceLevel>, price: int)
    requires Opened(before, after, price)
    ensures PricesOf(after)
      == if HasPrice(before, price) || |before| == MAX_PRICE_LEVELS then PricesOf(before) else PricesOf(before) + {price}
  {
    hide HasPrice, PricesOf;
    if !HasPrice(before, price) && |before| != MAX_PRICE_LEVELS {
      var ins :| 0 <= ins <= |before| && after == before[..ins] + [NewLevel(price)] + before[ins..];
      forall q ensures q in PricesOf(after) <==> q in PricesOf(before) || q == price {
        InsertedPrices(before, ins, NewLevel(price), q);
        PriceListed(after, q);
        PriceListed(before, q);
      }
    }
  }

  lemma ErasedPricesOf(lv: seq<PriceLevel>, descending: bool, idx: nat)
    requires Sorted(lv, descending) && idx < |lv|
    ensures PricesOf(lv[..idx] + lv[idx + 1..]) == PricesOf(lv) - {lv[idx].price}
  {
    var rest := lv[..idx] + lv[idx + 1..];
    forall q ensures q in PricesOf(rest) <==> q in PricesOf(lv) && q != lv[idx].price {
      PriceListed(rest, q);
      PriceListed(lv, q);
      if HasPrice(lv, q) && q != lv[idx].price { RestHasPrice(lv, idx, q); }
      if HasPrice(rest, q) {
        var j :| 0 <= j < |rest| && rest[j].price == q;
        var i := if j < idx then j else j + 1;
        assert rest[j] == lv[i];
        OtherPrice(lv, descending, i, idx);
      }
    }
  }

  /** The first level has the best price. */
  lemma FirstPriceBest(lv: seq<PriceLevel>, descending: bool)
    requires Sorted(lv, descending) && lv != []
    ensures IsBestKey(PricesOf(lv), descending, lv[0].price)
  {
    forall q | q in PricesOf(lv) && q != lv[0].price ensures Better(descending, lv[0].price, q) {
      var i :| 0 <= i < |lv| && lv[i].price == q;
      assert i > 0;
    }
    assert lv[0].price in PricesOf(lv);
  }

  class LobSide {
    const levels: array<PriceLevel>
    var count: nat
    const descending: bool

    ghost predicate Valid()
      reads this, levels
    {
      && levels.Length == MAX_PRICE_LEVELS
      && count <= MAX_PRICE_LEVELS
      && Sorted(Levels(), descending)
    }

    ghost function Levels(): (lv: seq<PriceLevel>)
      requires count <= levels.Length
      reads this, levels
      ensures |lv| == count
    {
      levels[..count]
    }

    constructor (isBid: bool)
      ensures Valid() && fresh(levels) && Levels() == [] && descending == isBid
    {
      levels := new PriceLevel[MAX_PRICE_LEVELS](_ => NewLevel(0));
      count := 0;
      descending := isBid;
    }

    /** Binary search: the index of the price, or -1 exactly when it is absent. */
    method Find(price: int) returns (idx: int)
      requires Valid()
      ensures -1 <= idx < count
      ensures idx >= 0 ==> levels[idx].price == price
      ensures idx < 0 <==> !HasPrice(Levels(), price)
    {
      ghost var lv := Levels();
      var lo: int, hi: int := 0, count - 1;
      while lo <= hi
        invariant 0 <= lo <= hi + 1 <= count
        invariant forall i :: 0 <= i < lo ==> Better(descending, lv[i].price, price)
        invariant forall i :: hi < i < count ==> Better(descending, price, lv[i].price)
      {
        var mid := (lo + hi) / 2;
        assert lv[mid] == levels[mid];
        if levels[mid].price == price { return mid; }
        var higher := if descending then levels[mid].price > price else levels[mid].price < price;
        if higher { lo := mid + 1; } else { hi := mid - 1; }
      }
      return -1;
    }

    /** Opens an empty level at its sorted place; -1 when the table is full. */
    method Insert(price: int) returns (ins: int)
      requires Valid() && !HasPrice(Levels(), price)
      modifies this, levels
      ensures Valid()
      ensures old(count) == MAX_PRICE_LEVELS ==> ins == -1 && Levels() == old(Levels())
      ensures old(count) < MAX_PRICE_LEVELS ==>
        && 0 <= ins <= old(count)
        && Levels() == old(Levels())[..ins] + [NewLevel(price)] + old(Levels())[ins..]
      ensures old(count) < MAX_PRICE_LEVELS ==>
        ByPrice(Levels(), descending) == old(ByPrice(Levels(), descending))[price := NewLevel(price)]
    {
      hide Sorted;
      if count >= MAX_PRICE_LEVELS { return -1; }
      ghost var lv := Levels();
      ins := 0;
      while ins < count
        invariant 0 <= ins <= count
        invariant forall i :: 0 <= i < ins ==> Better(descending, lv[i].price, price)
      {
        assert lv[ins] == levels[ins];
        var before := if descending then price > levels[ins].price else price < levels[ins].price;
        if before { break; }
        assert HasPrice(lv, lv[ins].price);
        ins := ins + 1;
      }
      forall k | ins < k <= count {
        levels[k] := levels[k - 1];
      }
      levels[ins] := NewLevel(price);
      count := count + 1;
      assert Levels() == lv[..ins] + [NewLevel(price)] + lv[ins..];
      InsertedSorted(lv, descending, ins, NewLevel(price));
      StandsForInsert(lv, ByPrice(lv, descending), ins, NewLevel(price));
      StandsForUnique(Levels(), ByPrice(Levels(), descending), ByPrice(lv, descending)[price := NewLevel(price)]);
    }

    /** Closes the level at `idx`; an index outside the array is ignored. */
    method Erase(idx: int)
      requires Valid()
      modifies this, levels
      ensures Valid()
      ensures !(0 <= idx < old(count)) ==> Levels() == old(Levels())
      ensures 0 <= idx < old(count) ==>
        && Levels() == old(Levels())[..idx] + old(Levels())[idx + 1..]
        && ByPrice(Levels(), descending) == old(ByPrice(Levels(), descending)) - {old(levels[idx].price)}
    {
      if idx < 0 || idx >= count { return; }
      ghost var lv := Levels();
      StandsForErase(lv, descending, ByPrice(lv, descending), idx);
      forall k | idx <= k < count - 1 {
        levels[k] := levels[k + 1];
      }
      count := count - 1;
      assert Levels() == lv[..idx] + lv[idx + 1..];
      StandsForUnique(Levels(), ByPrice(Levels(), descending), ByPrice(lv, descending) - {lv[idx].price});
    }

    /** The level of a price, opened when it is missing; -1 when there is no room. */
    method GetOrCreate(price: int) returns (idx: int)
      requires Valid()
      modifies this, levels
      ensures Valid()
      ensures idx == -1 <==> !HasPrice(old(Levels()), price) && old(count) == MAX_PRICE_LEVELS
      ensures idx == -1 || HasPrice(old(Levels()), price) ==> Levels() == old(Levels())
      ensures idx != -1 ==> 0 <= idx < count && levels[idx].price == price
      ensures idx != -1 && !HasPrice(old(Levels()), price) ==>
        idx <= old(count)
        && Levels() == old(Levels())[..idx] + [NewLevel(price)] + old(Levels())[idx..]
    {
      idx := Find(price);
      if idx >= 0 { return idx; }
      idx := Insert(price);
      assert idx != -1 ==> Levels()[idx] == NewLevel(price);
    }

    /** Rewrites a level in place; its price stays. */
    method SetLevel(idx: nat, l: PriceLevel)
      requires Valid() && idx < count && l.price == levels[idx].price
      modifies levels
      ensures Valid() && Levels() == old(Levels())[idx := l]
    {
      levels[idx] := l;
      assert Levels() == old(Levels())[idx := l];
    }

    /** The best price of the side, 0 or INT64_MAX when there is no level. */
    method BestPrice() returns (p: int)
      requires Valid()
      ensures count > 0 ==> HasPrice(Levels(), p)
      ensures count > 0 ==> forall q :: HasPrice(Levels(), q) && q != p ==> Better(descending, p, q)
      ensures count == 0 ==> p == if descending then 0 else INT64_MAX
    {
      if count > 0 {
        p := levels[0].price;
        assert Levels()[0].price == p;
      } else {
        p := if descending then 0 else INT64_MAX;
      }
    }
  }
}

/** The order-id table: open addressing with linear probing and tombstones
    (game-master/persistent_lob.hpp, `order_map` and the `map_*` functions). */
module OrderTable {
  import opened MarketTypes

  const MAP_SIZE: nat := 32768
  const EMPTY_KEY: nat := 0xFFFF_FFFF_FFFF_FFFF
  const DELETED_KEY: nat := 0

  /** Where a resting order lives: its pool index, price and side. */
  datatype Location = Location(index: nat, price: int, isBid: bool)

  datatype MapEntry = MapEntry(key: nat, location: Location)

  /** What a slot that was never used holds: every byte 0xFF. */
  const UNUSED := MapEntry(EMPTY_KEY, Location(0xFFFF_FFFF, -1, true))

  predicate IsOrderKey(key: nat) {
    key != EMPTY_KEY && key != DELETED_KEY
  }

  /** The first slot probed for a key; the product wraps at 64 bits, is cut to
      32 bits and masked. */
  function Home(key: nat): (slot: nat)
    ensures slot < MAP_SIZE
  {
    key * 2654435761 % 0x1_0000_0000_0000_0000 % 0x1_0000_0000 % MAP_SIZE
  }

  /** The `i`-th slot of the probe sequence that starts at `home`. */
  function Probe(home: nat, i: nat): (slot: nat)
    requires home < MAP_SIZE && i < MAP_SIZE
    ensures slot < MAP_SIZE
  {
    if home + i < MAP_SIZE then home + i else home + i - MAP_SIZE
  }

  /** The position of `slot` in the probe sequence that starts at `home`. */
  function Distance(home: nat, slot: nat): (i: nat)
    requires home < MAP_SIZE && slot < MAP_SIZE
    ensures i < MAP_SIZE && Probe(home, i) == slot
  {
    if slot >= home then slot - home else slot + MAP_SIZE - home
  }

  lemma DistanceOfProbe(home: nat, i: nat)
    requires home < MAP_SIZE && i < MAP_SIZE
    ensures Distance(home, Probe(home, i)) == i
  {
  }

  ghost function KeysBelow(table: seq<MapEntry>, n: nat): set<nat>
    requires n <= |table|
  {
    if n == 0 then {} else KeysBelow(table, n - 1) + {table[n - 1].key}
  }

  lemma {:induction false} KeysBelowMember(table: seq<MapEntry>, n: nat, key: nat)
    requires n <= |table|
    ensures key in KeysBelow(table, n) <==> exists s :: 0 <= s < n && table[s].key == key
  {
    if n > 0 {
      KeysBelowMember(table, n - 1, key);
    }
  }

  lemma {:induction false} KeysBelowSize(table: seq<MapEntry>, n: nat)
    requires n <= |table|
    requires forall s, t :: 0 <= s < t < n ==> table[s].key != table[t].key
    ensures |KeysBelow(table, n)| == n
  {
    if n > 0 {
      KeysBelowSize(table, n - 1);
      KeysBelowMember(table, n - 1, table[n - 1].key);
    }
  }

  lemma SubsetSize(a: set<nat>, b: set<nat>)
    requires a <= b
    ensures |a| <= |b|
    ensures |a| == |b| ==> a == b
  {
    assert b == a + (b - a);
  }

  /** The slots of the live keys: each on its probe path, with no never-used slot
      before it. */
  ghost predicate Holds(t: seq<MapEntry>, slots: map<nat, nat>) {
    && |t| == MAP_SIZE
    && (forall k :: k in slots ==> IsOrderKey(k) && slots[k] < MAP_SIZE && t[slots[k]].key == k)
    && (forall s :: 0 <= s < MAP_SIZE && IsOrderKey(t[s].key) ==> t[s].key in slots && slots[t[s].key] == s)
    && (forall k, i :: k in slots && 0 <= i < Distance(Home(k), slots[k]) ==> t[Probe(Home(k), i)].key != EMPTY_KEY)
    && (forall s :: 0 <= s < MAP_SIZE && t[s].key == EMPTY_KEY ==> t[s] == UNUSED)
  }

  ghost function EntriesOf(t: seq<MapEntry>, slots: map<nat, nat>): (m: map<nat, Location>)
    requires Holds(t, slots)
    ensures m.Keys == slots.Keys
  {
    map k | k in slots :: t[slots[k]].location
  }

  lemma PlaceHolds(t: seq<MapEntry>, slots: map<nat, nat>, key: nat, location: Location, i: nat)
    requires Holds(t, slots) && IsOrderKey(key) && key !in slots
    requires i < MAP_SIZE && !IsOrderKey(t[Probe(Home(key), i)].key)
    requires forall j :: 0 <= j < i ==> IsOrderKey(t[Probe(Home(key), j)].key)
    ensures
      var s := Probe(Home(key), i);
      var t', slots' := t[s := MapEntry(key, location)], slots[key := s];
      Holds(t', slots') && EntriesOf(t', slots') == EntriesOf(t, slots)[key := location]
  {
    hide Home, Probe, Distance;
    DistanceOfProbe(Home(key), i);
  }

  lemma EraseHolds(t: seq<MapEntry>, slots: map<nat, nat>, s: nat)
    requires Holds(t, slots) && s < |t|
    ensures
      var t', slots' := t[s := t[s].(key := DELETED_KEY)], slots - {t[s].key};
      Holds(t', slots') && EntriesOf(t', slots') == EntriesOf(t, slots) - {t[s].key}
  {
    hide Home, Probe, Distance, EntriesOf;
    var t', slots' := t[s := t[s].(key := DELETED_KEY)], slots - {t[s].key};
    assert Holds(t', slots');
    EraseEntries(t, slots, s);
  }

  lemma EraseEntries(t: seq<MapEntry>, slots: map<nat, nat>, s: nat)
    requires Holds(t, slots) && s < |t|
    requires Holds(t[s := t[s].(key := DELETED_KEY)], slots - {t[s].key})
    ensures EntriesOf(t[s := t[s].(key := DELETED_KEY)], slots - {t[s].key}) == EntriesOf(t, slots) - {t[s].key}
  {
    hide Home, Probe, Distance;
  }

  lemma NotListed(t: seq<MapEntry>, slots: map<nat, nat>, key: nat)
    requires Holds(t, slots) && (IsOrderKey(key) ==> key !in slots)
    ensures key !in slots
  {
  }

  class OrderMap {
    const table: array<MapEntry>
    ghost var slotOf: map<nat, nat>  // the slot of every live key

    ghost predicate Valid()
      reads this, table
    {
      table.Length == MAP_SIZE && Holds(table[..], slotOf)
    }

    /** The finite map the table stands for. */
    ghost function Contents(): (m: map<nat, Location>)
      requires Valid()
      reads this, table
      ensures m.Keys == slotOf.Keys
    {
      EntriesOf(table[..], slotOf)
    }

    constructor ()
      ensures Valid() && fresh(table)
      ensures Contents() == map[]
      ensures forall s :: 0 <= s < MAP_SIZE ==> table[s] == UNUSED
    {
      table := new MapEntry[MAP_SIZE](_ => UNUSED);
      slotOf := map[];
    }

    /** A table all of whose slots are taken holds MAP_SIZE keys. */
    lemma FullTable()
      requires Valid()
      requires forall s :: 0 <= s < MAP_SIZE ==> IsOrderKey(table[s].key)
      ensures |Contents()| == MAP_SIZE
    {
      var t := table[..];
      KeysBelowSize(t, MAP_SIZE);
      var keys := KeysBelow(t, MAP_SIZE);
      forall k ensures k in keys <==> k in slotOf {
        KeysBelowMember(t, MAP_SIZE, k);
        if k in slotOf {
          assert t[slotOf[k]].key == k;
        }
      }
      assert keys == slotOf.Keys == Contents().Keys;
    }

    lemma AtMostTableSize()
      requires Valid()
      requires exists s :: 0 <= s < MAP_SIZE && !IsOrderKey(table[s].key)
      ensures |Contents()| < MAP_SIZE
    {
      hide Home, Probe, Distance;
      var free :| 0 <= free < MAP_SIZE && !IsOrderKey(table[free].key);
      MissingOne(slotOf, free);
    }

    /** Probes until the key or a never-used slot turns up. The empty mark itself is
        found as long as some slot was never used. */
    method Find(key: nat) returns (found: int)
      requires Valid()
      ensures -1 <= found < MAP_SIZE
      ensures found >= 0 ==> table[found].key == key
      ensures IsOrderKey(key) ==> (found >= 0 <==> key in Contents())
      ensures IsOrderKey(key) && found >= 0 ==> Contents()[key] == table[found].location
      ensures key == EMPTY_KEY ==> (found >= 0 <==> exists s :: 0 <= s < MAP_SIZE && table[s] == UNUSED)
    {
      var home := Home(key);
      for i := 0 to MAP_SIZE
        invariant forall j :: 0 <= j < i ==>
          table[Probe(home, j)].key != key && table[Probe(home, j)].key != EMPTY_KEY
      {
        var s := (home + i) % MAP_SIZE;
        assert s == Probe(home, i);
        if table[s].key == key { return s; }
        if table[s].key == EMPTY_KEY {
          return -1;
        }
      }
      forall s | 0 <= s < MAP_SIZE ensures table[s].key != EMPTY_KEY {
        assert Probe(home, Distance(home, s)) == s;
      }
      return -1;
    }

    /** Writes a fresh key at the `i`-th slot of its probe path. */
    method Place(key: nat, location: Location, i: nat)
      requires Valid() && IsOrderKey(key) && key !in Contents()
      requires i < MAP_SIZE && !IsOrderKey(table[Probe(Home(key), i)].key)
      requires forall j :: 0 <= j < i ==> IsOrderKey(table[Probe(Home(key), j)].key)
      modifies this, table
      ensures Valid() && Contents() == old(Contents())[key := location]
    {
      hide Holds, EntriesOf, Home, Probe;
      var s := Probe(Home(key), i);
      ghost var t := table[..];
      PlaceHolds(t, slotOf, key, location, i);
      table[s] := MapEntry(key, location);
      slotOf := slotOf[key := s];
      assert table[..] == t[s := MapEntry(key, location)];
    }

    /** Takes the first slot on the probe path that is empty or a tombstone. */
    method Insert(key: nat, location: Location)
      requires Valid()
      requires IsOrderKey(key) && key !in Contents()
      modifies this, table
      ensures Valid()
      ensures |old(Contents())| < MAP_SIZE ==> Contents() == old(Contents())[key := location]
      ensures |old(Contents())| >= MAP_SIZE ==> Contents() == old(Contents())
    {
      var home := Home(key);
      for i := 0 to MAP_SIZE
        invariant Valid() && slotOf == old(slotOf) && table[..] == old(table[..])
        invariant forall j :: 0 <= j < i ==> IsOrderKey(table[Probe(home, j)].key)
      {
        var s := (home + i) % MAP_SIZE;
        assert s == Probe(home, i);
        if table[s].key == EMPTY_KEY || table[s].key == DELETED_KEY {
          AtMostTableSize();
          Place(key, location, i);
          return;
        }
      }
      forall s | 0 <= s < MAP_SIZE ensures IsOrderKey(table[s].key) {
        var j := Distance(home, s);
        assert Probe(home, j) == s;
      }
      FullTable();
    }

    /** Marks the key's slot as a tombstone. */
    method Erase(key: nat)
      requires Valid()
      modifies this, table
      ensures Valid()
      ensures Contents() == old(Contents()) - {key}
    {
      hide Holds, EntriesOf;
      var s := Find(key);
      ghost var t := table[..];
      if s >= 0 {
        EraseHolds(t, slotOf, s);
        table[s] := table[s].(key := DELETED_KEY);
        slotOf := slotOf - {key};
        assert table[..] == t[s := t[s].(key := DELETED_KEY)];
      } else {
        NotListed(t, slotOf, key);
      }
    }
  }

  /** In a new table a search for the empty mark stops at a slot whose index lies
      outside the pool. */
  method EmptyMarkIsFound() returns (m: OrderMap, found: int)
    ensures fresh(m) && m.Valid() && m.Contents() == map[]
    ensures 0 <= found < MAP_SIZE && m.table[found].location.index == 0xFFFF_FFFF
  {
    m := new OrderMap();
    assert m.table[0] == UNUSED;
    found := m.Find(EMPTY_KEY);
  }

  /** Fewer than MAP_SIZE keys have slots of their own that miss one. */
  lemma MissingOne(slots: map<nat, nat>, free: nat)
    requires free < MAP_SIZE
    requires forall k :: k in slots ==> slots[k] < MAP_SIZE && slots[k] != free
    requires forall a, b :: a in slots && b in slots && a != b ==> slots[a] != slots[b]
    ensures |slots| < MAP_SIZE
  {
    InjectiveSize(slots);
    RangeMembers(MAP_SIZE);
    SubsetSize(slots.Values, Range(MAP_SIZE) - {free});
  }

  /** The set of the numbers below `n`. */
  ghost function Range(n: nat): set<nat> {
    if n == 0 then {} else Range(n - 1) + {n - 1}
  }

  lemma {:induction false} RangeMembers(n: nat)
    ensures forall s: nat :: s in Range(n) <==> s < n
    ensures |Range(n)| == n
  {
    if n > 0 {
      RangeMembers(n - 1);
      assert n - 1 !in Range(n - 1);
    }
  }

  lemma {:induction false} InjectiveSize(m: map<nat, nat>)
    requires forall a, b :: a in m && b in m && a != b ==> m[a] != m[b]
    ensures |m.Values| == |m|
  {
    assert |m.Keys| == |m|;
    if m.Keys != {} {
      var k :| k in m;
      var rest := m - {k};
      InjectiveSize(rest);
      ValuesWithout(m, k);
      assert m.Keys == rest.Keys + {k};
      assert |rest.Keys| == |rest|;
    } else {
      assert m == map[];
    }
  }

  /** Taking a key out takes its value, and no other, out of the values. */
  lemma ValuesWithout(m: map<nat, nat>, k: nat)
    requires k in m && forall a, b :: a in m && b in m && a != b ==> m[a] != m[b]
    ensures m[k] !in (m - {k}).Values && m.Values == (m - {k}).Values + {m[k]}
  {
    var rest := m - {k};
    forall v | v in m.Values ensures v in rest.Values + {m[k]} {
      var a :| a in m && m[a] == v;
      if a != k { assert a in rest && rest[a] == v; }
    }
    forall v | v in rest.Values ensures v in m.Values && v != m[k] {
      var a :| a in rest && rest[a] == v;
      assert a in m && a != k && m[a] == v;
    }
  }
}

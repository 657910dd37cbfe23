/** The reference-counted lock per submission hash (backend/main.go,
    `acquireHashLock` and `releaseHashLock`), for any number of goroutines and any
    interleaving of their steps. */
module HashLock {

  /** Where a goroutine is. Between `Looking` and `Counted`, and between
      `Releasing` and `Leaving`, it holds the mutex that guards the table. */
  datatype Place =
    | Outside
    | Looking(hash: string)                 // about to look the hash up
    | Found(hash: string, entry: nat)       // has the entry, about to count itself
    | Counted(hash: string, entry: nat)     // about to give the table mutex back
    | Queueing(hash: string, entry: nat)    // about to lock the entry's own mutex
    | Inside(hash: string, entry: nat)      // in the critical section
    | Unlocked(hash: string, entry: nat)    // gave the entry's mutex back
    | Releasing(hash: string, entry: nat)   // about to uncount itself
    | Uncounted(hash: string, entry: nat)   // about to test for the last reference
    | Leaving                               // about to give the table mutex back

  datatype Holder = Nobody | Held(owner: nat)

  datatype State = State(
    tableMutex: Holder,
    table: map<string, nat>,     // hashLocks: hash to entry
    refs: map<nat, int>,         // every entry ever made, with its reference count
    holders: map<nat, Holder>,   // who holds each entry's mutex
    places: map<nat, Place>)     // the goroutines

  predicate GuardsTable(p: Place) {
    p.Looking? || p.Found? || p.Counted? || p.Releasing? || p.Uncounted? || p.Leaving?
  }

  /** Counted in the entry's reference count. */
  predicate Counts(p: Place, e: nat) {
    (p.Counted? || p.Queueing? || p.Inside? || p.Unlocked? || p.Releasing?) && p.entry == e
  }

  ghost predicate Init(s: State) {
    && s.tableMutex == Nobody && s.table == map[] && s.refs == map[] && s.holders == map[]
    && forall t :: t in s.places ==> s.places[t] == Outside
  }

  function At(s: State, t: nat): Place
    requires t in s.places
  {
    s.places[t]
  }

  function Move(s: State, t: nat, p: Place): State {
    s.(places := s.places[t := p])
  }

  // ------------------------------------------------------------------- steps

  predicate LockTable(s: State, s': State, t: nat, h: string) {
    && t in s.places && s.places[t].Outside? && s.tableMutex.Nobody?
    && s' == Move(s, t, Looking(h)).(tableMutex := Held(t))
  }

  /** Takes the hash's entry, making one when there is none. */
  predicate Lookup(s: State, s': State, t: nat, fresh_: nat) {
    && t in s.places && s.places[t].Looking?
    && var h := s.places[t].hash;
    && if h in s.table then s' == Move(s, t, Found(h, s.table[h]))
       else
         && fresh_ !in s.refs
         && s' == Move(s, t, Found(h, fresh_)).(table := s.table[h := fresh_], refs := s.refs[fresh_ := 0],
                                                holders := s.holders[fresh_ := Nobody])
  }

  predicate CountIn(s: State, s': State, t: nat) {
    && t in s.places && s.places[t].Found? && s.places[t].entry in s.refs
    && var p := s.places[t];
    && s' == Move(s, t, Counted(p.hash, p.entry)).(refs := s.refs[p.entry := s.refs[p.entry] + 1])
  }

  predicate UnlockTable(s: State, s': State, t: nat) {
    && t in s.places && s.places[t].Counted?
    && s' == Move(s, t, Queueing(s.places[t].hash, s.places[t].entry)).(tableMutex := Nobody)
  }

  predicate LockEntry(s: State, s': State, t: nat) {
    && t in s.places && s.places[t].Queueing?
    && var p := s.places[t];
    && p.entry in s.holders && s.holders[p.entry].Nobody?
    && s' == Move(s, t, Inside(p.hash, p.entry)).(holders := s.holders[p.entry := Held(t)])
  }

  predicate UnlockEntry(s: State, s': State, t: nat) {
    && t in s.places && s.places[t].Inside?
    && var p := s.places[t];
    && s' == Move(s, t, Unlocked(p.hash, p.entry)).(holders := s.holders[p.entry := Nobody])
  }

  predicate RelockTable(s: State, s': State, t: nat) {
    && t in s.places && s.places[t].Unlocked? && s.tableMutex.Nobody?
    && s' == Move(s, t, Releasing(s.places[t].hash, s.places[t].entry)).(tableMutex := Held(t))
  }

  predicate CountOut(s: State, s': State, t: nat) {
    && t in s.places && s.places[t].Releasing? && s.places[t].entry in s.refs
    && var p := s.places[t];
    && s' == Move(s, t, Uncounted(p.hash, p.entry)).(refs := s.refs[p.entry := s.refs[p.entry] - 1])
  }

  /** The last reference takes the hash out of the table. */
  predicate DropLast(s: State, s': State, t: nat) {
    && t in s.places && s.places[t].Uncounted? && s.places[t].entry in s.refs
    && var p := s.places[t];
    && s' == Move(s, t, Leaving).(table := if s.refs[p.entry] == 0 then s.table - {p.hash} else s.table)
  }

  predicate Leave(s: State, s': State, t: nat) {
    t in s.places && s.places[t].Leaving? && s' == Move(s, t, Outside).(tableMutex := Nobody)
  }

  /** Starting a goroutine. */
  predicate Spawn(s: State, s': State, t: nat) {
    t !in s.places && s' == Move(s, t, Outside)
  }

  /** Starting, or finding the entry of a hash. */
  ghost predicate Enters(s: State, s': State, t: nat) {
    Spawn(s, s', t) || (exists h :: LockTable(s, s', t, h)) || (exists e :: Lookup(s, s', t, e))
  }

  /** A step from the entry into the critical section. */
  ghost predicate Acquires(s: State, s': State, t: nat) {
    CountIn(s, s', t) || UnlockTable(s, s', t) || LockEntry(s, s', t)
  }

  /** A step on the way out. */
  ghost predicate Releases(s: State, s': State, t: nat) {
    || UnlockEntry(s, s', t) || RelockTable(s, s', t) || CountOut(s, s', t) || DropLast(s, s', t) || Leave(s, s', t)
  }

  ghost predicate Step(s: State, s': State, t: nat) {
    Enters(s, s', t) || Acquires(s, s', t) || Releases(s, s', t)
  }

  ghost predicate Next(s: State, s': State) {
    exists t :: Step(s, s', t)
  }

  // --------------------------------------------------------------- invariant

  function Referrers(places: map<nat, Place>, e: nat): set<nat> {
    set t | t in places && Counts(places[t], e)
  }

  /** The table mutex is held by the one goroutine that says so. */
  ghost predicate MutexInv(s: State) {
    && (forall t :: t in s.places && GuardsTable(s.places[t]) ==> s.tableMutex == Held(t))
    && (s.tableMutex.Held? ==> s.tableMutex.owner in s.places && GuardsTable(s.places[s.tableMutex.owner]))
  }

  /** A goroutine that holds, awaits or is about to count an entry finds that very
      entry in the table. */
  ghost predicate EntryInv(s: State) {
    && (forall t :: t in s.places && HasEntry(s.places[t]) ==> InTable(s, s.places[t].hash, s.places[t].entry))
    && (forall h :: h in s.table ==> s.table[h] in s.refs && s.table[h] in s.holders)
    && (forall h, k :: h in s.table && k in s.table && s.table[h] == s.table[k] ==> h == k)
    && s.refs.Keys == s.holders.Keys
  }

  predicate HasEntry(p: Place) {
    !p.Outside? && !p.Looking? && !p.Leaving?
  }

  predicate InTable(s: State, h: string, e: nat) {
    h in s.table && s.table[h] == e
  }

  ghost predicate RefsInv(s: State) {
    forall e :: e in s.refs ==> s.refs[e] == |Referrers(s.places, e)|
  }

  /** An entry's mutex is held by the goroutine that is inside with that entry, and
      by nobody else. */
  ghost predicate HolderInv(s: State) {
    && (forall t :: t in s.places && s.places[t].Inside? ==>
          s.places[t].entry in s.holders && s.holders[s.places[t].entry] == Held(t))
    && (forall e :: e in s.holders && s.holders[e].Held? ==> InsideWith(s, s.holders[e].owner, e))
  }

  predicate InsideWith(s: State, t: nat, e: nat) {
    t in s.places && s.places[t].Inside? && s.places[t].entry == e
  }

  /** An entry without references is being created or dropped right now. */
  ghost predicate LiveInv(s: State) {
    forall h :: h in s.table ==> s.table[h] in s.refs && (s.refs[s.table[h]] > 0 || InTransit(s, h))
  }

  ghost predicate InTransit(s: State, h: string) {
    exists t :: t in s.places && (s.places[t].Found? || s.places[t].Uncounted?) && s.places[t].hash == h
  }

  ghost predicate Inv(s: State) {
    MutexInv(s) && EntryInv(s) && RefsInv(s) && HolderInv(s) && LiveInv(s)
  }

  lemma ReferrersMove(places: map<nat, Place>, t: nat, p: Place, e: nat)
    ensures
      var before := t in places && Counts(places[t], e);
      |Referrers(places[t := p], e)|
      == |Referrers(places, e)| - (if before then 1 else 0) + (if Counts(p, e) then 1 else 0)
  {
    var rest := Referrers(places, e) - {t};
    var after := Referrers(places[t := p], e);
    assert after == if Counts(p, e) then rest + {t} else rest;
    if t in places && Counts(places[t], e) {
      assert Referrers(places, e) == rest + {t};
    } else {
      assert Referrers(places, e) == rest;
    }
  }

  lemma NewEntryUncounted(s: State, e: nat)
    requires EntryInv(s) && e !in s.refs
    ensures Referrers(s.places, e) == {}
  {
    forall u | u in s.places ensures !Counts(s.places[u], e) {
      assert HasEntry(s.places[u]) ==> InTable(s, s.places[u].hash, s.places[u].entry);
    }
  }

  lemma RefsStep(s: State, s': State, t: nat)
    requires RefsInv(s) && EntryInv(s) && Step(s, s', t)
    ensures RefsInv(s')
  {
    PlaceChange(s, s', t);
    forall e | e in s'.refs ensures s'.refs[e] == |Referrers(s'.places, e)| {
      ReferrersMove(s.places, t, s'.places[t], e);
      if e !in s.refs { NewEntryUncounted(s, e); }
      RefsAt(s, s', t, e);
    }
  }

  /** The count moves by what the goroutine's move adds or removes. */
  lemma RefsAt(s: State, s': State, t: nat, e: nat)
    requires Step(s, s', t) && e in s'.refs && t in s'.places
    ensures
      s'.refs[e] == (if e in s.refs then s.refs[e] else 0)
                    - (if t in s.places && Counts(s.places[t], e) then 1 else 0)
                    + (if Counts(s'.places[t], e) then 1 else 0)
  {
    hide Enters, Acquires, Releases, Counts;
    if Enters(s, s', t) {
      EnterRefs(s, s', t, e);
    } else if Acquires(s, s', t) {
      AcquireRefs(s, s', t, e);
    } else {
      ReleaseRefs(s, s', t, e);
    }
  }

  function CountedAt(s: State, t: nat, e: nat): int {
    if t in s.places && Counts(s.places[t], e) then 1 else 0
  }

  function RefsOf(s: State, e: nat): int {
    if e in s.refs then s.refs[e] else 0
  }

  lemma EnterRefs(s: State, s': State, t: nat, e: nat)
    requires Enters(s, s', t)
    ensures RefsOf(s', e) == RefsOf(s, e) - CountedAt(s, t, e) + CountedAt(s', t, e)
  {
  }

  lemma AcquireRefs(s: State, s': State, t: nat, e: nat)
    requires Acquires(s, s', t)
    ensures RefsOf(s', e) == RefsOf(s, e) - CountedAt(s, t, e) + CountedAt(s', t, e)
  {
  }

  lemma ReleaseRefs(s: State, s': State, t: nat, e: nat)
    requires Releases(s, s', t)
    ensures RefsOf(s', e) == RefsOf(s, e) - CountedAt(s, t, e) + CountedAt(s', t, e)
  {
  }

  predicate Guards(s: State, t: nat) {
    t in s.places && GuardsTable(s.places[t])
  }

  /** The mutex stays with the goroutine that guards the table, is taken by one that
      starts to, or given back by one that stops. */
  ghost predicate MutexMoves(s: State, s': State, t: nat) {
    || (s'.tableMutex == s.tableMutex && Guards(s', t) == Guards(s, t))
    || (s.tableMutex.Nobody? && s'.tableMutex == Held(t) && Guards(s', t))
    || (Guards(s, t) && s'.tableMutex.Nobody? && !Guards(s', t))
  }

  lemma EnterMoves(s: State, s': State, t: nat)
    requires Enters(s, s', t)
    ensures MutexMoves(s, s', t)
  {
  }

  lemma AcquireMoves(s: State, s': State, t: nat)
    requires Acquires(s, s', t)
    ensures MutexMoves(s, s', t)
  {
  }

  lemma ReleaseMoves(s: State, s': State, t: nat)
    requires Releases(s, s', t)
    ensures MutexMoves(s, s', t)
  {
  }

  lemma MutexStep(s: State, s': State, t: nat)
    requires MutexInv(s) && Step(s, s', t)
    ensures MutexInv(s')
  {
    hide Enters, Acquires, Releases;
    PlaceChange(s, s', t);
    if Enters(s, s', t) { EnterMoves(s, s', t); }
    if Acquires(s, s', t) { AcquireMoves(s, s', t); }
    if Releases(s, s', t) { ReleaseMoves(s, s', t); }
    forall u | u in s'.places && GuardsTable(s'.places[u]) ensures s'.tableMutex == Held(u) {
      assert Guards(s', u);
      if u != t { assert s'.places[u] == s.places[u] && s.tableMutex == Held(u); }
    }
  }

  lemma EntryKept(s: State, s': State, t: nat)
    requires EntryInv(s) && t in s'.places && s'.places == s.places[t := s'.places[t]]
    requires s'.table == s.table && s'.refs.Keys == s.refs.Keys && s'.holders.Keys == s.holders.Keys
    requires HasEntry(s'.places[t]) ==> InTable(s, s'.places[t].hash, s'.places[t].entry)
    ensures EntryInv(s')
  {
    forall u | u in s'.places && HasEntry(s'.places[u]) ensures InTable(s', s'.places[u].hash, s'.places[u].entry) {
      if u != t { assert s'.places[u] == s.places[u]; }
    }
  }

  lemma EntryLookup(s: State, s': State, t: nat, e: nat)
    requires EntryInv(s) && Lookup(s, s', t, e)
    ensures EntryInv(s')
  {
    if s.places[t].hash in s.table {
      EntryKept(s, s', t);
    } else {
      forall u | u in s'.places && HasEntry(s'.places[u]) ensures InTable(s', s'.places[u].hash, s'.places[u].entry) {
        if u != t { assert InTable(s, s.places[u].hash, s.places[u].entry); }
      }
    }
  }

  lemma EntryDrop(s: State, s': State, t: nat)
    requires Inv(s) && DropLast(s, s', t)
    ensures EntryInv(s')
  {
    if s.refs[s.places[t].entry] == 0 {
      NobodyLeft(s, t);
      forall u | u in s'.places && HasEntry(s'.places[u]) ensures InTable(s', s'.places[u].hash, s'.places[u].entry) {
        assert u != t && InTable(s, s.places[u].hash, s.places[u].entry);
      }
    } else {
      EntryKept(s, s', t);
    }
  }

  lemma EntryStep(s: State, s': State, t: nat)
    requires Inv(s) && Step(s, s', t)
    ensures EntryInv(s')
  {
    if exists e :: Lookup(s, s', t, e) {
      var e :| Lookup(s, s', t, e);
      EntryLookup(s, s', t, e);
    } else if DropLast(s, s', t) {
      EntryDrop(s, s', t);
    } else {
      OtherSteps(s, s', t);
      hide Step, Inv;
      EntryKept(s, s', t);
    }
  }

  /** Every step but a lookup and a drop leaves the table and its entries alone. */
  lemma OtherSteps(s: State, s': State, t: nat)
    requires Inv(s) && Step(s, s', t) && !DropLast(s, s', t) && !exists e :: Lookup(s, s', t, e)
    ensures EntryInv(s) && t in s'.places && s'.places == s.places[t := s'.places[t]]
    ensures s'.table == s.table && s'.refs.Keys == s.refs.Keys && s'.holders.Keys == s.holders.Keys
    ensures HasEntry(s'.places[t]) ==> InTable(s, s'.places[t].hash, s'.places[t].entry)
  {
    hide MutexInv, RefsInv, HolderInv, LiveInv;
    PlaceChange(s, s', t);
    if t in s.places && HasEntry(s.places[t]) {
      assert InTable(s, s.places[t].hash, s.places[t].entry);
    }
  }

  /** When the count reads zero, no other goroutine relies on the entry. */
  lemma NobodyLeft(s: State, t: nat)
    requires Inv(s) && t in s.places && s.places[t].Uncounted? && s.places[t].entry in s.refs
    requires s.refs[s.places[t].entry] == 0
    ensures forall u :: u in s.places && u != t && HasEntry(s.places[u]) ==> s.places[u].hash != s.places[t].hash
  {
    var e := s.places[t].entry;
    assert |Referrers(s.places, e)| == 0;
    forall u | u in s.places && u != t && HasEntry(s.places[u])
      ensures s.places[u].hash != s.places[t].hash
    {
      assert !GuardsTable(s.places[u]);
      assert u !in Referrers(s.places, e);
    }
  }

  /** No step takes an entry's mutex from another goroutine that is inside. */
  lemma HolderStep(s: State, s': State, t: nat)
    requires Inv(s) && Step(s, s', t)
    ensures HolderInv(s')
  {
    hide Step, MutexInv, RefsInv, LiveInv;
    forall u | u in s'.places && s'.places[u].Inside?
      ensures s'.places[u].entry in s'.holders && s'.holders[s'.places[u].entry] == Held(u)
    {
      if u != t { InsideStays(s, s', t, u); } else { InsideNow(s, s', t); }
    }
    forall e | e in s'.holders && s'.holders[e].Held? ensures InsideWith(s', s'.holders[e].owner, e) {
      HeldStays(s, s', t, e);
    }
  }

  /** A mutex that is held belongs to somebody inside, who keeps it until leaving. */
  lemma HeldStays(s: State, s': State, t: nat, e: nat)
    requires HolderInv(s) && Step(s, s', t) && e in s'.holders && s'.holders[e].Held?
    ensures InsideWith(s', s'.holders[e].owner, e)
  {
    hide Enters, Acquires, Releases;
    PlaceChange(s, s', t);
    if Enters(s, s', t) {
      EnterHolders(s, s', t, e);
    } else if Acquires(s, s', t) {
      AcquireHolders(s, s', t, e);
    } else {
      ReleaseHolders(s, s', t, e);
    }
  }

  /** A step leaves the mutex with its holder, unless the holder gives it back or the
      goroutine takes it. */
  ghost predicate HolderMoves(s: State, s': State, t: nat, e: nat)
    requires e in s'.holders
  {
    || (t in s'.places && s'.holders[e] == Held(t) && InsideWith(s', t, e))
    || (e in s.holders && s'.holders[e] == s.holders[e] && !InsideWith(s, t, e))
  }

  lemma EnterHolders(s: State, s': State, t: nat, e: nat)
    requires Enters(s, s', t) && e in s'.holders && s'.holders[e].Held?
    ensures HolderMoves(s, s', t, e)
  {
  }

  lemma AcquireHolders(s: State, s': State, t: nat, e: nat)
    requires Acquires(s, s', t) && e in s'.holders && s'.holders[e].Held?
    ensures HolderMoves(s, s', t, e)
  {
  }

  lemma ReleaseHolders(s: State, s': State, t: nat, e: nat)
    requires Releases(s, s', t) && e in s'.holders && s'.holders[e].Held?
    ensures HolderMoves(s, s', t, e)
  {
  }

  lemma InsideNow(s: State, s': State, t: nat)
    requires Step(s, s', t) && t in s'.places && s'.places[t].Inside?
    ensures s'.places[t].entry in s'.holders && s'.holders[s'.places[t].entry] == Held(t)
  {
    assert LockEntry(s, s', t);
  }

  lemma InsideStays(s: State, s': State, t: nat, u: nat)
    requires HolderInv(s) && s.refs.Keys == s.holders.Keys && Step(s, s', t)
    requires u != t && u in s'.places && s'.places[u].Inside?
    ensures s'.places[u].entry in s'.holders && s'.holders[s'.places[u].entry] == Held(u)
  {
    assert u in s.places && s.places[u] == s'.places[u];
    assert s.holders[s.places[u].entry] == Held(u);
    if UnlockEntry(s, s', t) {
      assert s.holders[s.places[t].entry] == Held(t);
    }
  }

  lemma LiveStep(s: State, s': State, t: nat)
    requires Inv(s) && Step(s, s', t)
    ensures LiveInv(s')
  {
    forall h | h in s'.table ensures s'.table[h] in s'.refs && (s'.refs[s'.table[h]] > 0 || InTransit(s', h)) {
      if h in s.table {
        if s.refs[s.table[h]] > 0 {
          LiveCounted(s, s', t, h);
        } else {
          LiveTransit(s, s', t, h);
        }
      } else {
        LiveNew(s, s', t, h);
      }
    }
  }

  lemma LiveNew(s: State, s': State, t: nat, h: string)
    requires Step(s, s', t) && h in s'.table && h !in s.table
    ensures s'.table[h] in s'.refs && InTransit(s', h)
  {
    assert t in s'.places && s'.places[t].Found? && s'.places[t].hash == h;
  }

  lemma RefsChange(s: State, s': State, t: nat, e: nat)
    requires Step(s, s', t) && e in s.refs
    ensures e in s'.refs
    ensures s'.refs[e] >= s.refs[e] || (CountOut(s, s', t) && s.places[t].entry == e)
  {
  }

  lemma TableChange(s: State, s': State, t: nat, h: string)
    requires Step(s, s', t) && h in s.table && h in s'.table
    ensures s'.table[h] == s.table[h]
  {
  }

  /** A counted entry stays counted, or its last goroutine has just counted out. */
  lemma LiveCounted(s: State, s': State, t: nat, h: string)
    requires Inv(s) && Step(s, s', t) && h in s'.table && h in s.table && s.table[h] in s.refs && s.refs[s.table[h]] > 0
    ensures s'.table[h] in s'.refs && (s'.refs[s'.table[h]] > 0 || InTransit(s', h))
  {
    RefsChange(s, s', t, s.table[h]);
    TableChange(s, s', t, h);
    hide Step;
    if CountOut(s, s', t) && s.places[t].entry == s.table[h] {
      assert InTable(s, s.places[t].hash, s.places[t].entry);
      assert s'.places[t].Uncounted? && s'.places[t].hash == h;
    }
  }

  /** The goroutine creating or dropping an uncounted entry counts it in or drops it. */
  lemma OwnTransit(s: State, s': State, t: nat, h: string)
    requires RefsInv(s) && Step(s, s', t) && t in s.places && (s.places[t].Found? || s.places[t].Uncounted?)
    requires s.places[t].hash == h && InTable(s, h, s.places[t].entry) && h in s'.table && s.table[h] in s.refs
    requires s.refs[s.table[h]] <= 0
    ensures s.table[h] in s'.refs && s'.refs[s.table[h]] > 0
  {
    assert s.refs[s.table[h]] == |Referrers(s.places, s.table[h])|;
  }

  /** An entry in transit is counted in, dropped, or still in transit. */
  lemma LiveTransit(s: State, s': State, t: nat, h: string)
    requires RefsInv(s) && EntryInv(s) && LiveInv(s) && Step(s, s', t)
    requires h in s'.table && h in s.table && s.table[h] in s.refs && s.refs[s.table[h]] <= 0
    ensures s'.table[h] in s'.refs && (s'.refs[s'.table[h]] > 0 || InTransit(s', h))
  {
    RefsChange(s, s', t, s.table[h]);
    TableChange(s, s', t, h);
    PlaceChange(s, s', t);
    hide Step, RefsInv;
    var u :| u in s.places && (s.places[u].Found? || s.places[u].Uncounted?) && s.places[u].hash == h;
    assert InTable(s, s.places[u].hash, s.places[u].entry);
    if u == t {
      OwnTransit(s, s', t, h);
    } else {
      assert s'.places[u] == s.places[u];
    }
  }

  lemma PlaceChange(s: State, s': State, t: nat)
    requires Step(s, s', t)
    ensures t in s'.places && s'.places == s.places[t := s'.places[t]]
  {
    hide Enters, Acquires, Releases;
    if Enters(s, s', t) { EnterPlace(s, s', t); }
    if Acquires(s, s', t) { AcquirePlace(s, s', t); }
    if Releases(s, s', t) { ReleasePlace(s, s', t); }
  }

  lemma EnterPlace(s: State, s': State, t: nat)
    requires Enters(s, s', t)
    ensures t in s'.places && s'.places == s.places[t := s'.places[t]]
  {
  }

  lemma AcquirePlace(s: State, s': State, t: nat)
    requires Acquires(s, s', t)
    ensures t in s'.places && s'.places == s.places[t := s'.places[t]]
  {
  }

  lemma ReleasePlace(s: State, s': State, t: nat)
    requires Releases(s, s', t)
    ensures t in s'.places && s'.places == s.places[t := s'.places[t]]
  {
  }

  lemma StepKeepsInv(s: State, s': State, t: nat)
    requires Inv(s) && Step(s, s', t)
    ensures Inv(s')
  {
    PartsOf(s);
    hide Inv, Step, RefsInv, MutexInv, EntryInv, HolderInv, LiveInv;
    RefsStep(s, s', t);
    MutexStep(s, s', t);
    EntryStep(s, s', t);
    HolderStep(s, s', t);
    LiveStep(s, s', t);
    InvParts(s');
  }

  lemma PartsOf(s: State)
    requires Inv(s)
    ensures MutexInv(s) && EntryInv(s) && RefsInv(s) && HolderInv(s) && LiveInv(s)
  {
  }

  lemma InvParts(s: State)
    requires MutexInv(s) && EntryInv(s) && RefsInv(s) && HolderInv(s) && LiveInv(s)
    ensures Inv(s)
  {
  }

  ghost predicate IsRun(run: seq<State>) {
    |run| > 0 && Init(run[0]) && forall i :: 0 <= i < |run| - 1 ==> Next(run[i], run[i + 1])
  }

  lemma {:induction false} RunInv(run: seq<State>, k: nat)
    requires IsRun(run) && k < |run|
    ensures Inv(run[k])
  {
    if k > 0 {
      RunInv(run, k - 1);
      assert Next(run[k - 1], run[k - 1 + 1]);
      var t :| Step(run[k - 1], run[k], t);
      StepKeepsInv(run[k - 1], run[k], t);
    }
  }

  // ------------------------------------------------------------------- safety

  /** At most one goroutine is inside per hash. */
  lemma MutualExclusion(run: seq<State>, k: nat, t: nat, u: nat)
    requires IsRun(run) && k < |run|
    requires t in run[k].places && u in run[k].places
    requires run[k].places[t].Inside? && run[k].places[u].Inside?
    requires run[k].places[t].hash == run[k].places[u].hash
    ensures t == u
  {
    RunInv(run, k);
  }

  /** The reference count is the number of goroutines between counting in and
      counting out, and each of them finds its entry in the table. */
  lemma ReferencesExact(run: seq<State>, k: nat, t: nat, e: nat)
    requires IsRun(run) && k < |run| && e in run[k].refs
    ensures run[k].refs[e] == |Referrers(run[k].places, e)|
    ensures t in Referrers(run[k].places, e) ==> InTable(run[k], run[k].places[t].hash, e)
  {
    RunInv(run, k);
  }

  /** An entry's mutex is held only by a goroutine inside with that very entry. */
  lemma HolderIsInside(run: seq<State>, k: nat, e: nat)
    requires IsRun(run) && k < |run| && e in run[k].holders && run[k].holders[e].Held?
    ensures InsideWith(run[k], run[k].holders[e].owner, e)
  {
    RunInv(run, k);
  }

  /** A step the goroutine can take now. */
  ghost predicate CanStep(s: State, t: nat) {
    exists s' :: Step(s, s', t)
  }

  /** While a goroutine is on its way, some goroutine that is on its way can step: the
      locks never deadlock. */
  lemma NoDeadlock(run: seq<State>, k: nat, t: nat) returns (u: nat)
    requires IsRun(run) && k < |run| && t in run[k].places && !run[k].places[t].Outside?
    ensures u in run[k].places && !run[k].places[u].Outside? && CanStep(run[k], u)
  {
    RunInv(run, k);
    var s := run[k];
    PartsOf(s);
    hide Inv, RefsInv, LiveInv, Step;
    if s.tableMutex.Held? {
      u := s.tableMutex.owner;
      GuardCanStep(s, u);
    } else if s.places[t].Queueing? && s.holders[s.places[t].entry].Held? {
      u := s.holders[s.places[t].entry].owner;
      WayOutOpen(s, u);
    } else {
      u := t;
      assert !GuardsTable(s.places[t]);
      assert s.places[t].Queueing? ==> InTable(s, s.places[t].hash, s.places[t].entry);
      WayOutOpen(s, u);
    }
  }

  /** A queued goroutine gets in as soon as nobody is inside with its entry. */
  lemma QueueMovesOn(run: seq<State>, k: nat, t: nat)
    requires IsRun(run) && k < |run| && t in run[k].places && run[k].places[t].Queueing?
    requires forall u :: !InsideWith(run[k], u, run[k].places[t].entry)
    ensures CanStep(run[k], t)
  {
    RunInv(run, k);
    var s := run[k];
    PartsOf(s);
    hide Inv, RefsInv, LiveInv, MutexInv, Step;
    assert InTable(s, s.places[t].hash, s.places[t].entry);
    assert s.holders[s.places[t].entry].Nobody?;
    WayOutOpen(s, t);
  }

  /** Whoever holds the table mutex can go on. */
  lemma GuardCanStep(s: State, t: nat)
    requires EntryInv(s) && t in s.places && GuardsTable(s.places[t])
    ensures CanStep(s, t)
  {
    var p := s.places[t];
    assert HasEntry(p) ==> InTable(s, p.hash, p.entry);
    match p {
      case Looking(h) =>
        var e := FreshEntry(s.refs.Keys);
        var s' := if h in s.table then Move(s, t, Found(h, s.table[h]))
                  else Move(s, t, Found(h, e)).(table := s.table[h := e], refs := s.refs[e := 0],
                                                holders := s.holders[e := Nobody]);
        assert Lookup(s, s', t, e) && Enters(s, s', t) && Step(s, s', t);
      case Found(h, e) =>
        var s' := Move(s, t, Counted(h, e)).(refs := s.refs[e := s.refs[e] + 1]);
        assert CountIn(s, s', t) && Step(s, s', t);
      case Counted(h, e) =>
        var s' := Move(s, t, Queueing(h, e)).(tableMutex := Nobody);
        assert UnlockTable(s, s', t) && Step(s, s', t);
      case Releasing(h, e) =>
        var s' := Move(s, t, Uncounted(h, e)).(refs := s.refs[e := s.refs[e] - 1]);
        assert CountOut(s, s', t) && Step(s, s', t);
      case Uncounted(h, e) =>
        var s' := Move(s, t, Leaving).(table := if s.refs[e] == 0 then s.table - {h} else s.table);
        assert DropLast(s, s', t) && Step(s, s', t);
      case Leaving =>
        var s' := Move(s, t, Outside).(tableMutex := Nobody);
        assert Leave(s, s', t) && Step(s, s', t);
    }
  }

  /** There is always an entry nobody has made yet. */
  lemma FreshEntry(used: set<nat>) returns (e: nat)
    ensures e !in used
  {
    var top := AboveAll(used);
    e := top + 1;
  }

  lemma {:induction false} AboveAll(used: set<nat>) returns (top: nat)
    ensures forall x :: x in used ==> x <= top
    decreases |used|
  {
    if used == {} {
      top := 0;
    } else {
      var x :| x in used;
      var rest := AboveAll(used - {x});
      assert forall y :: y in used ==> y == x || y in used - {x};
      top := if x > rest then x else rest;
    }
  }

  /** A goroutine in the critical section, or past it, can go on; one that queues can
      as well once the entry's mutex is free. */
  lemma WayOutOpen(s: State, t: nat)
    requires t in s.places
    requires
      var p := s.places[t];
      || p.Inside?
      || (p.Unlocked? && s.tableMutex.Nobody?)
      || (p.Queueing? && p.entry in s.holders && s.holders[p.entry].Nobody?)
    ensures CanStep(s, t)
  {
    var p := s.places[t];
    if p.Inside? {
      var s' := Move(s, t, Unlocked(p.hash, p.entry)).(holders := s.holders[p.entry := Nobody]);
      assert UnlockEntry(s, s', t) && Step(s, s', t);
    } else if p.Unlocked? {
      var s' := Move(s, t, Releasing(p.hash, p.entry)).(tableMutex := Held(t));
      assert RelockTable(s, s', t) && Step(s, s', t);
    } else {
      var s' := Move(s, t, Inside(p.hash, p.entry)).(holders := s.holders[p.entry := Held(t)]);
      assert LockEntry(s, s', t) && Step(s, s', t);
    }
  }

  lemma EntryHasGoroutine(s: State, h: string)
    requires Inv(s) && h in s.table
    ensures exists t :: t in s.places && !s.places[t].Outside?
  {
    var e := s.table[h];
    if s.refs[e] > 0 {
      var t :| t in Referrers(s.places, e);
    } else {
      var t :| t in s.places && (s.places[t].Found? || s.places[t].Uncounted?) && s.places[t].hash == h;
    }
  }

  /** Once every goroutine is outside, no hash is left in the table. */
  lemma TableEmptiesOut(run: seq<State>, k: nat)
    requires IsRun(run) && k < |run|
    requires forall t :: t in run[k].places ==> run[k].places[t].Outside?
    ensures run[k].table == map[]
  {
    RunInv(run, k);
    hide Inv;
    forall h | h in run[k].table ensures false {
      EntryHasGoroutine(run[k], h);
    }
  }
}

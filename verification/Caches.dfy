/** The LRU cache (util/cache.cc): a table of entries, a list of evictable ones, oldest first, and a list of
    the others. */
module Caches {
  import opened Keys
  import opened Lists
  import opened HandleTables
  import opened CacheStates

  class LRUCache {
    const capacity: nat
    const hashOf: Bytes -> nat
    const table: HandleTable
    var usage: nat
    var lru: seq<LRUEntry>
    var inUse: seq<LRUEntry>
    /** All entries on the two lists. */
    ghost var entries: set<LRUEntry>
    /** The calls so far. */
    ghost var calls: seq<Call>

    constructor (capacity: nat, hashOf: Bytes -> nat)
      ensures this.capacity == capacity && this.hashOf == hashOf
      ensures Ok() && calls == [] && entries == {} && fresh(table) && fresh(table.list)
    {
      this.capacity, this.hashOf := capacity, hashOf;
      table := new HandleTable(hashOf);
      usage, lru, inUse := 0, [], [];
      entries, calls := {}, [];
      new;
      StartLegal(capacity);
      assert Value() == NOTHING;
    }

    ghost function Value(): CacheState
      reads `lru, `inUse, `entries, table`contents, entries`refs
    {
      CacheState(table.contents, lru, inUse, map e | e in entries :: e.refs)
    }

    /** The table is sound, and entries know whether it maps them. */
    ghost predicate Tabled()
      reads `entries, table, table.list, entries`inCache
    {
      && table.Ok() && table.hashOf == hashOf
      && forall e :: e in entries ==> e.hash == hashOf(e.key) && (e.inCache <==> Maps(table.contents, e))
    }

    /** The cache is what the calls so far make of an empty one. */
    ghost predicate Ok()
      reads this, table, table.list, entries
    {
      && Tabled() && WellFormed(Value()) && usage == Usage(Value())
      && Legal(capacity, calls) && Value() == Run(capacity, calls)
    }

    /** In every history of calls: the lists are the clean picture exactly if none replaced or erased a key
        whose entry a client held just before; evictable entries go in the order of their last release; and each
        entry has one reference more than clients hold handles to it, evictable ones having none out. */
    lemma History()
      requires Ok()
      ensures Clean(Value()) <==> NoneTaken(capacity, calls)
      ensures InReleaseOrder(calls, lru)
      ensures forall e :: e in entries ==> e.refs == 1 + Holding(capacity, calls, e) && (e in lru ==> Holding(capacity, calls, e) == 0)
    {
      CleanIffNoneTaken(capacity, calls);
      LruIsInReleaseOrder(capacity, calls);
      hide Legal, Run, WellFormed, Clean, NoneTaken, InReleaseOrder;
      forall e | e in entries
        ensures e.refs == 1 + Holding(capacity, calls, e) && (e in lru ==> Holding(capacity, calls, e) == 0)
      {
        ReferencesCount(capacity, calls, e);
        assert Value().refs[e] == e.refs;
      }
    }

    /** The call is added to the history it is the last of. */
    ghost method Called(c: Call, before: CacheState)
      requires Tabled() && WellFormed(before) && Enabled(before, c)
      requires Legal(capacity, calls) && before == Run(capacity, calls)
      requires Value() == Step(before, capacity, c) && usage == Usage(Value())
      modifies `calls
      ensures Ok() && calls == old(calls) + [c]
    {
      hide Step, Run, Legal, Enabled, Usage, WellFormed, HandleTable.Ok;
      OneMoreCall(capacity, calls, c);
      StepKeeps(before, capacity, c);
      calls := calls + [c];
    }

    method Ref(e: LRUEntry)
      requires e in entries && (e.inCache <==> Maps(table.contents, e))
      modifies `lru, `inUse, e`refs
      ensures Value() == RefStep(old(Value()), e)
    {
      if e.refs == 1 && e.inCache {
        lru := Without(lru, e);
        inUse := inUse + [e];
      }
      e.refs := e.refs + 1;
    }

    method Unref(e: LRUEntry)
      requires e in entries && e.refs >= 2 && (e.inCache <==> Maps(table.contents, e))
      modifies `lru, `inUse, e`refs
      ensures Value() == ReleaseStep(old(Value()), e)
    {
      e.refs := e.refs - 1;
      if e.refs == 1 && e.inCache {
        inUse := Without(inUse, e);
        lru := lru + [e];
      }
    }

    /** An entry that just left the table is freed if only the cache refers to it. */
    method Drop(e: LRUEntry)
      requires e in entries && (e.refs == 1 ==> e.charge <= usage)
      modifies `lru, `usage, `entries, e
      ensures Value() == DropStep(old(Value()), e) && !e.inCache
      ensures entries == if old(e.refs) == 1 then old(entries) - {e} else old(entries)
      ensures usage == old(usage) - if old(e.refs) == 1 then e.charge else 0
    {
      e.inCache := false;
      if e.refs == 1 {
        lru := Without(lru, e);
        e.refs := 0;
        usage := usage - e.charge;
        entries := entries - {e};
      }
    }

    /** A hit hands out the entry, which is then held; a miss changes nothing. */
    method Lookup(key: Bytes) returns (e: LRUEntry?)
      requires Ok()
      modifies `lru, `inUse, `calls, entries`refs
      ensures Ok() && calls == old(calls) + [Call.Lookup(key)] && Value() == Step(old(Value()), capacity, Call.Lookup(key))
      ensures e == if key in table.contents then table.contents[key] else null
      ensures entries == old(entries) && (e != null ==> e in entries && e.refs == old(e.refs) + 1)
      ensures forall x :: x in entries && x != e ==> x.refs == old(x.refs)
    {
      hide Without, Charges, NoRepeats, HandleTable.Ok, Run, Legal, WellFormed, Usage, RefStep;
      ghost var before := Value();
      HoldKeeps(before, key);
      MappedIsListed(before);
      e := table.Lookup(key, hashOf(key));
      if e != null {
        Ref(e);
        OneReferenceMore(before, e);
        assert Value().refs[e] == e.refs;
      }
      assert Value() == HoldStep(before, key);
      Called(Call.Lookup(key), before);
    }

    /** A client lets go; the last one makes the entry the youngest evictable one. */
    method Release(e: LRUEntry)
      requires Ok() && e in entries && e.refs >= 2
      modifies `lru, `inUse, `calls, e`refs
      ensures Ok() && calls == old(calls) + [Call.Release(e)] && Value() == Step(old(Value()), capacity, Call.Release(e))
    {
      hide Without, Charges, NoRepeats, HandleTable.Ok, Run, Legal;
      ghost var before := Value();
      ReleaseKeeps(before, e);
      Unref(e);
      assert Value() == ReleaseStep(before, e);
      Called(Call.Release(e), before);
    }

    /** Takes a key out of the cache; the entry of a client that holds it stays listed. */
    method Erase(key: Bytes)
      requires Ok()
      modifies `lru, `usage, `entries, `calls, table, table.list, entries
      ensures Ok() && calls == old(calls) + [Call.Erase(key)] && Value() == Step(old(Value()), capacity, Call.Erase(key))
      ensures table.contents == old(table.contents) - {key} && forall x :: x in entries ==> x.refs == old(x.refs)
      ensures entries == old(entries) - Alone(old(Value()), key) && table.list == old(table.list)
    {
      hide Without, Charges, NoRepeats, HandleTable.Ok, Run, Legal, WellFormed, EraseStep, Alone;
      ghost var before := Value();
      EraseRefs(before, key);
      Uncache(key, hashOf(key));
      assert forall x :: x in entries <==> x in Value().refs;
      Called(Call.Erase(key), before);
    }

    /** Removes a key from the table and drops its entry. */
    method Uncache(key: Bytes, hash: nat)
      requires Tabled() && WellFormed(Value()) && usage == Usage(Value()) && hash == hashOf(key)
      modifies `lru, `usage, `entries, table, table.list, entries
      ensures Tabled() && WellFormed(Value()) && usage == Usage(Value()) && Value() == EraseStep(old(Value()), key)
      ensures entries <= old(entries) && table.list == old(table.list)
    {
      hide Without, Charges, NoRepeats, HandleTable.Ok, WellFormed, Usage;
      ghost var before := Value();
      EraseKeeps(before, key);
      MappedIsListed(before);
      var e := table.Remove(key, hash);
      if e != null {
        assert Value() == before.(contents := before.contents - {key});
        Drop(e);
        assert forall x :: x in entries ==> (Maps(table.contents, x) <==> Maps(before.contents, x) && x != e);
      }
      assert Value() == EraseStep(before, key);
    }

    /** Adds an entry, held by the caller, in place of any other of its key; then old entries make room.  A
        cache without capacity, or an entry without charge, is refused. */
    method Insert(key: Bytes, value: Bytes, charge: nat) returns (e: LRUEntry?)
      requires Ok()
      modifies `lru, `inUse, `usage, `entries, `calls, table, table.list, entries
      ensures Ok() && (e == null <==> capacity == 0 || charge == 0)
      ensures e == null ==> Value() == old(Value()) && calls == old(calls) && entries == old(entries)
      ensures e != null ==>
                && fresh(e) && e.key == key && e.value == value && e.charge == charge && e in entries && e.refs == 2
                && calls == old(calls) + [Call.Insert(e)] && Value() == Step(old(Value()), capacity, Call.Insert(e))
                && Inserted(old(Value()), Value(), capacity, e)
      ensures e != null ==> key in table.contents && table.contents[key] == e
      ensures forall x :: x in entries && x != e ==> x in old(entries) && x.refs == old(x.refs)
      ensures fresh(entries - old(entries)) && (table.list == old(table.list) || fresh(table.list))
    {
      hide Without, Charges, NoRepeats, HandleTable.Ok, Run, Legal, EvictStep, AppendStep, Inserted, WellFormed, Usage;
      if capacity == 0 || charge == 0 {
        return null;
      }
      ghost var before := Value();
      e := new LRUEntry(key, hashOf(key), charge, value, 2);
      Append(e);
      Evict();
      InsertTakes(before, capacity, e);
      InsertMaps(before, capacity, e, e);
      InsertRefs(before, capacity, e);
      assert forall x :: x in entries <==> x in Value().refs;
      Called(Call.Insert(e), before);
    }

    /** Puts the new entry into the table and on the list of held ones; an entry it replaces is dropped. */
    method Append(e: LRUEntry)
      requires Tabled() && WellFormed(Value()) && usage == Usage(Value())
      requires e !in entries && e.refs == 2 && e.inCache && e.hash == hashOf(e.key)
      modifies `lru, `inUse, `usage, `entries, table, table.list, entries
      ensures Tabled() && WellFormed(Value()) && usage == Usage(Value())
      ensures Value() == AppendStep(old(Value()), e)
      ensures entries <= old(entries) + {e} && (table.list == old(table.list) || fresh(table.list))
    {
      hide Without, Charges, NoRepeats, HandleTable.Ok, WellFormed, Usage;
      ghost var before := Value();
      AppendKeeps(before, e);
      AppendUsage(before, e);
      MappedIsListed(before);
      var replaced := PutEntry(e);
      if replaced != null {
        Drop(replaced);
      }
      assert Value() == AppendStep(before, e);
    }

    method PutEntry(e: LRUEntry) returns (replaced: LRUEntry?)
      requires Tabled() && e !in entries && e.refs == 2 && e.inCache && e.hash == hashOf(e.key)
      requires forall k :: k in table.contents ==> table.contents[k].key == k && table.contents[k] in entries
      modifies `inUse, `usage, `entries, table, table.list
      ensures table.Ok() && (table.list == old(table.list) || fresh(table.list))
      ensures Value() == Put(old(Value()), e) && usage == old(usage) + e.charge && entries == old(entries) + {e}
      ensures replaced == if e.key in old(table.contents) then old(table.contents)[e.key] else null
      ensures forall x :: x in entries && x != replaced ==> x.hash == hashOf(x.key) && (x.inCache <==> Maps(table.contents, x))
      ensures replaced != null ==> replaced.hash == hashOf(replaced.key) && !Maps(table.contents, replaced)
    {
      hide Without, Charges, NoRepeats, HandleTable.Ok, WellFormed, Usage, Maps, HandleTable.Sound;
      PutMaps(table.contents, e, entries + {e});
      replaced := table.Insert(e);
      usage := usage + e.charge;
      inUse := inUse + [e];
      entries := entries + {e};
    }

    /** Evicts the oldest evictable entries until the usage fits or none is left. */
    method Evict()
      requires Tabled() && WellFormed(Value()) && usage == Usage(Value())
      modifies `lru, `usage, `entries, table, table.list, entries
      ensures Tabled() && WellFormed(Value()) && usage == Usage(Value())
      ensures Value() == EvictStep(old(Value()), capacity)
      ensures entries <= old(entries) && table.list == old(table.list)
    {
      hide Without, Charges, NoRepeats, HandleTable.Ok, WellFormed, EvictOne;
      while usage > 0 && usage > capacity && lru != []
        invariant Tabled() && WellFormed(Value()) && usage == Usage(Value())
        invariant EvictStep(Value(), capacity) == EvictStep(old(Value()), capacity)
        invariant entries <= old(entries) && table.list == old(table.list)
        decreases |lru|
      {
        EvictOldest();
      }
    }

    method EvictOldest()
      requires Tabled() && WellFormed(Value()) && usage == Usage(Value()) && lru != []
      modifies `lru, `usage, `entries, table, table.list, entries
      ensures Tabled() && WellFormed(Value()) && usage == Usage(Value())
      ensures Value() == EvictOne(old(Value())) && |lru| < |old(lru)|
      ensures entries <= old(entries) && table.list == old(table.list)
    {
      hide Without, Charges, NoRepeats, HandleTable.Ok, Usage, EraseStep;
      ghost var before := Value();
      EvictIsErase(before);
      var oldEntry := lru[0];
      Uncache(oldEntry.key, oldEntry.hash);
    }
  }

  lemma OneReferenceMore(s: CacheState, e: LRUEntry)
    requires e in s.refs
    ensures RefStep(s, e).refs == s.refs[e := s.refs[e] + 1]
  {
  }

  /** A client that holds an entry while its key is erased, and then lets go: the entry stays on the list and
      charged, with one reference, and the cache has no key for it. */
  method EraseWhileHeld(capacity: nat, hashOf: Bytes -> nat, key: Bytes, value: Bytes, charge: nat) returns (c: LRUCache, e: LRUEntry)
    requires capacity > 0 && charge > 0
    ensures c.Ok() && c.table.contents == map[] && c.lru == [] && c.inUse == [e] && e.refs == 1 && c.usage == charge
    ensures !Clean(c.Value())
  {
    hide LRUCache.Tabled, Step, EraseStep, ReleaseStep, Legal, Run, Usage, Clean, WellFormed, Inserted, HandleTable.Ok;
    c := new LRUCache(capacity, hashOf);
    StartLegal(capacity);
    var inserted := c.Insert(key, value, charge);
    e := inserted;
    FirstSteps(capacity, e);
    c.Erase(key);
    assert e in c.Value().refs;
    c.Release(e);
    ErasedWhileHeld(capacity, e);
  }
}

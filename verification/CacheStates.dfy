/** What a cache is at a moment (util/cache.cc): the table's map, the evictable entries, the other listed
    ones, and the reference counts; and what each call makes of it, over whole histories of calls. */
module CacheStates {
  import opened Keys
  import opened Lists
  import opened HandleTables

  datatype CacheState = CacheState(contents: map<Bytes, LRUEntry>, lru: seq<LRUEntry>, inUse: seq<LRUEntry>, refs: map<LRUEntry, nat>)

  /** The entry is found under its key. */
  predicate Maps(contents: map<Bytes, LRUEntry>, e: LRUEntry) {
    e.key in contents && contents[e.key] == e
  }

  function Charges(s: seq<LRUEntry>): nat {
    if s == [] then 0 else Charges(s[..|s| - 1]) + s[|s| - 1].charge
  }

  function Usage(s: CacheState): nat {
    Charges(s.lru) + Charges(s.inUse)
  }

  /** Evictable entries are those only the cache refers to; the others are held by clients, or left the
      table while they were. */
  ghost predicate WellFormed(s: CacheState) {
    && NoRepeats(s.lru) && NoRepeats(s.inUse) && (forall e :: e in s.lru ==> e !in s.inUse)
    && (forall e :: e in s.refs ==> e in s.lru || e in s.inUse)
    && (forall e :: e in s.lru ==> e in s.refs && s.refs[e] == 1 && Maps(s.contents, e))
    && (forall e :: e in s.inUse ==> e in s.refs && s.refs[e] >= 1 && (Maps(s.contents, e) ==> s.refs[e] >= 2))
    && (forall k :: k in s.contents ==> s.contents[k].key == k && s.contents[k] in s.refs)
  }

  // ------------------------------------------------------------------ one call

  /** An entry that just left the table: freed if only the cache refers to it, left alone otherwise. */
  function DropStep(s: CacheState, e: LRUEntry): CacheState {
    if e in s.refs && s.refs[e] == 1 then s.(lru := Without(s.lru, e), refs := s.refs - {e}) else s
  }

  function EraseStep(s: CacheState, key: Bytes): CacheState {
    if key in s.contents then DropStep(s.(contents := s.contents - {key}), s.contents[key]) else s
  }

  /** The state between putting a new entry in and dropping the one it replaces. */
  function Put(s: CacheState, e: LRUEntry): CacheState {
    s.(contents := s.contents[e.key := e], inUse := s.inUse + [e], refs := s.refs[e := 2])
  }

  function AppendStep(s: CacheState, e: LRUEntry): CacheState {
    if e.key in s.contents then DropStep(Put(s, e), s.contents[e.key]) else Put(s, e)
  }

  function EvictOne(s: CacheState): CacheState
    requires s.lru != []
  {
    s.(contents := s.contents - {s.lru[0].key}, lru := s.lru[1..], refs := s.refs - {s.lru[0]})
  }

  function EvictStep(s: CacheState, capacity: nat): CacheState
    decreases |s.lru|
  {
    if Usage(s) > capacity && s.lru != [] then EvictStep(EvictOne(s), capacity) else s
  }

  function RefStep(s: CacheState, e: LRUEntry): CacheState
    requires e in s.refs
  {
    var t := s.(refs := s.refs[e := s.refs[e] + 1]);
    if s.refs[e] == 1 && Maps(s.contents, e) then t.(lru := Without(s.lru, e), inUse := s.inUse + [e]) else t
  }

  function HoldStep(s: CacheState, key: Bytes): CacheState {
    if key in s.contents && s.contents[key] in s.refs then RefStep(s, s.contents[key]) else s
  }

  function ReleaseStep(s: CacheState, e: LRUEntry): CacheState {
    if e in s.refs && s.refs[e] >= 2 then
      var t := s.(refs := s.refs[e := s.refs[e] - 1]);
      if s.refs[e] == 2 && Maps(s.contents, e) then t.(inUse := Without(s.inUse, e), lru := s.lru + [e]) else t
    else s
  }

  /** The calls of a client.  `Insert` names the entry made for it; an insertion into a cache without
      capacity, or without charge, makes none and is no call here. */
  datatype Call = Insert(e: LRUEntry) | Lookup(key: Bytes) | Release(e: LRUEntry) | Erase(key: Bytes)

  function Step(s: CacheState, capacity: nat, c: Call): CacheState {
    match c
    case Insert(e) => EvictStep(AppendStep(s, e), capacity)
    case Lookup(key) => HoldStep(s, key)
    case Release(e) => ReleaseStep(s, e)
    case Erase(key) => EraseStep(s, key)
  }

  /** A new entry is none of the listed ones, and only a client that holds an entry releases it. */
  predicate Enabled(s: CacheState, c: Call) {
    match c
    case Insert(e) => e !in s.refs
    case Release(e) => e in s.refs && s.refs[e] >= 2
    case _ => true
  }

  // ------------------------------------------------------------------ every call keeps the lists in order

  lemma AppendCharge(s: seq<LRUEntry>, e: LRUEntry)
    ensures Charges(s + [e]) == Charges(s) + e.charge
  {
    assert (s + [e])[..|s|] == s;
  }

  lemma {:induction false} WithoutCharge(s: seq<LRUEntry>, e: LRUEntry)
    requires NoRepeats(s)
    ensures Charges(s) == Charges(Without(s, e)) + if e in s then e.charge else 0
  {
    hide NoRepeats, Charges;
    if s == [] {
      NoCharge();
    } else {
      var n := |s| - 1;
      LastIsOnce(s);
      WithoutCharge(s[..n], e);
      AppendCharge(s[..n], s[n]);
      assert s == s[..n] + [s[n]];
      if s[n] == e {
        WithoutMembers(s[..n], e);
        assert Without(s[..n], e) + [] == s[..n];
      } else {
        AppendCharge(Without(s[..n], e), s[n]);
      }
    }
  }

  lemma LastIsOnce(s: seq<LRUEntry>)
    requires NoRepeats(s) && s != []
    ensures NoRepeats(s[..|s| - 1]) && s[|s| - 1] !in s[..|s| - 1]
  {
  }

  /** Moving an entry out of a list keeps what is needed of it. */
  lemma TakeOut(s: seq<LRUEntry>, e: LRUEntry)
    requires NoRepeats(s)
    ensures forall x :: x in Without(s, e) <==> x in s && x != e
    ensures e !in s ==> Without(s, e) == s
    ensures NoRepeats(Without(s, e))
    ensures Charges(s) == Charges(Without(s, e)) + if e in s then e.charge else 0
  {
    WithoutMembers(s, e);
    WithoutRepeats(s, e);
    WithoutCharge(s, e);
  }

  lemma PutIn(s: seq<LRUEntry>, e: LRUEntry)
    requires NoRepeats(s) && e !in s
    ensures NoRepeats(s + [e]) && Charges(s + [e]) == Charges(s) + e.charge
    ensures forall x :: x in s + [e] <==> x in s || x == e
  {
    AppendedRepeats(s, e);
    AppendCharge(s, e);
  }

  /** Well formed but for an entry the table has just lost. */
  ghost predicate WellFormedBut(s: CacheState, d: LRUEntry) {
    && NoRepeats(s.lru) && NoRepeats(s.inUse) && (forall e :: e in s.lru ==> e !in s.inUse)
    && (forall e :: e in s.refs ==> e in s.lru || e in s.inUse)
    && (forall e :: e in s.lru ==> e in s.refs && s.refs[e] == 1 && (e == d || Maps(s.contents, e)))
    && (forall e :: e in s.inUse ==> e in s.refs && s.refs[e] >= 1 && (e == d || Maps(s.contents, e) ==> s.refs[e] >= 2))
    && (forall k :: k in s.contents ==> s.contents[k].key == k && s.contents[k] in s.refs && s.contents[k] != d)
    && d in s.refs
  }

  lemma DropKeeps(s: CacheState, d: LRUEntry)
    requires WellFormedBut(s, d)
    ensures WellFormed(DropStep(s, d))
    ensures Usage(s) == Usage(DropStep(s, d)) + if s.refs[d] == 1 then d.charge else 0
    ensures DropStep(s, d).inUse == s.inUse && DropStep(s, d).contents == s.contents
    ensures forall e :: e in s.refs && e != d ==> e in DropStep(s, d).refs && DropStep(s, d).refs[e] == s.refs[e]
    ensures forall e :: e in DropStep(s, d).refs ==> e in s.refs
  {
    hide Without, Charges, NoRepeats;
    TakeOut(s.lru, d);
    var t := DropStep(s, d);
    assert NoRepeats(t.lru) && NoRepeats(t.inUse) && forall e :: e in t.lru ==> e in t.refs && e !in t.inUse;
  }

  lemma EraseKeeps(s: CacheState, key: Bytes)
    requires WellFormed(s)
    ensures WellFormed(EraseStep(s, key))
    ensures key in s.contents ==>
              Usage(s) == Usage(EraseStep(s, key)) + if s.refs[s.contents[key]] == 1 then s.contents[key].charge else 0
  {
    hide Without, Charges, NoRepeats;
    if key in s.contents {
      LosesMapping(s, key);
      DropKeeps(s.(contents := s.contents - {key}), s.contents[key]);
    }
  }

  lemma MappedIsListed(s: CacheState)
    requires WellFormed(s)
    ensures forall k :: k in s.contents ==> s.contents[k].key == k && s.contents[k] in s.refs
  {
  }

  lemma LosesMapping(s: CacheState, key: Bytes)
    requires WellFormed(s) && key in s.contents
    ensures WellFormedBut(s.(contents := s.contents - {key}), s.contents[key])
  {
    hide NoRepeats;
  }

  lemma PutInUse(s: CacheState, e: LRUEntry)
    requires NoRepeats(s.inUse) && e !in s.inUse
    ensures NoRepeats(Put(s, e).inUse) && forall x :: x in Put(s, e).inUse <==> x in s.inUse || x == e
  {
    AppendedRepeats(s.inUse, e);
  }

  lemma PutNew(s: CacheState, e: LRUEntry)
    requires WellFormed(s) && e !in s.refs && e.key !in s.contents
    ensures WellFormed(Put(s, e))
  {
    hide NoRepeats;
    PutInUse(s, e);
  }

  lemma PutOver(s: CacheState, e: LRUEntry)
    requires WellFormed(s) && e !in s.refs && e.key in s.contents
    ensures WellFormedBut(Put(s, e), s.contents[e.key])
  {
    hide NoRepeats;
    StillNew(s, e);
    PutInUse(s, e);
    var t, d := Put(s, e), s.contents[e.key];
    forall x | x in t.inUse
      ensures x in t.refs && t.refs[x] >= 1 && (x == d || Maps(t.contents, x) ==> t.refs[x] >= 2)
    {
      assert x == e || x in s.inUse;
    }
    forall x | x in t.lru
      ensures x in t.refs && t.refs[x] == 1 && (x == d || Maps(t.contents, x))
    {
      assert x in s.lru && x != e;
    }
  }

  lemma AppendUsage(s: CacheState, e: LRUEntry)
    requires WellFormed(s) && e !in s.refs
    ensures Usage(Put(s, e)) == Usage(s) + e.charge
    ensures e.key in s.contents ==>
              var d := s.contents[e.key];
              && d in s.refs && d != e
              && Usage(Put(s, e)) == Usage(AppendStep(s, e)) + if s.refs[d] == 1 then d.charge else 0
  {
    hide Without, Charges, NoRepeats, WellFormedBut;
    AppendCharge(s.inUse, e);
    if e.key in s.contents {
      PutOver(s, e);
      DropKeeps(Put(s, e), s.contents[e.key]);
    }
  }

  /** Only the new entry and the one it replaces change how they are mapped. */
  lemma PutMaps(contents: map<Bytes, LRUEntry>, e: LRUEntry, entries: set<LRUEntry>)
    ensures Maps(contents[e.key := e], e)
    ensures forall x :: x in entries && x != e && !(e.key in contents && x == contents[e.key]) ==>
              (Maps(contents[e.key := e], x) <==> Maps(contents, x))
    ensures e.key in contents && contents[e.key] != e && contents[e.key].key == e.key ==> !Maps(contents[e.key := e], contents[e.key])
  {
  }

  lemma StillNew(s: CacheState, e: LRUEntry)
    requires WellFormed(s) && e !in s.refs && e.key in s.contents
    ensures s.contents[e.key] != e
  {
  }

  lemma AppendKeeps(s: CacheState, e: LRUEntry)
    requires WellFormed(s) && e !in s.refs
    ensures WellFormed(AppendStep(s, e))
    ensures e in AppendStep(s, e).refs && AppendStep(s, e).refs[e] == 2
    ensures AppendStep(s, e).inUse == s.inUse + [e] && AppendStep(s, e).contents == s.contents[e.key := e]
  {
    hide Without, Charges, NoRepeats, WellFormed, WellFormedBut;
    if e.key in s.contents {
      PutOver(s, e);
      DropKeeps(Put(s, e), s.contents[e.key]);
      StillNew(s, e);
    } else {
      PutNew(s, e);
    }
  }

  /** Evicting an entry is erasing its key. */
  lemma EvictIsErase(s: CacheState)
    requires WellFormed(s) && s.lru != []
    ensures EvictOne(s) == EraseStep(s, s.lru[0].key)
    ensures s.lru[0].key in s.contents && s.contents[s.lru[0].key] == s.lru[0] && s.lru[0] in s.refs && s.refs[s.lru[0]] == 1
  {
    WithoutFirst(s.lru);
    assert s.lru[0] in s.lru;
  }

  lemma EvictOneKeeps(s: CacheState)
    requires WellFormed(s) && s.lru != []
    ensures WellFormed(EvictOne(s)) && Usage(s) == Usage(EvictOne(s)) + s.lru[0].charge
  {
    hide WellFormed, Usage, EvictOne, EraseStep;
    EvictIsErase(s);
    EraseKeeps(s, s.lru[0].key);
  }

  lemma {:induction false} EvictKeeps(s: CacheState, capacity: nat)
    requires WellFormed(s)
    ensures WellFormed(EvictStep(s, capacity))
    decreases |s.lru|
  {
    hide WellFormed, Usage;
    if Usage(s) > capacity && s.lru != [] {
      EvictOneKeeps(s);
      EvictKeeps(EvictOne(s), capacity);
    }
  }

  lemma HoldKeeps(s: CacheState, key: Bytes)
    requires WellFormed(s)
    ensures WellFormed(HoldStep(s, key)) && Usage(HoldStep(s, key)) == Usage(s)
  {
    hide Without, Charges, NoRepeats;
    if key in s.contents {
      TakeOut(s.lru, s.contents[key]);
      if s.contents[key] !in s.inUse {
        PutIn(s.inUse, s.contents[key]);
      }
      var t := HoldStep(s, key);
      assert NoRepeats(t.lru) && NoRepeats(t.inUse) && forall e :: e in t.lru ==> e in t.refs && e !in t.inUse;
    }
  }

  lemma ReleaseKeeps(s: CacheState, e: LRUEntry)
    requires WellFormed(s) && Enabled(s, Release(e))
    ensures WellFormed(ReleaseStep(s, e)) && Usage(ReleaseStep(s, e)) == Usage(s)
  {
    hide Without, Charges, NoRepeats, WellFormed;
    if s.refs[e] == 2 && Maps(s.contents, e) {
      ReleasedIsEvictable(s, e);
    } else {
      ReleasedStaysHeld(s, e);
    }
  }

  lemma ReleasedStaysHeld(s: CacheState, e: LRUEntry)
    requires WellFormed(s) && Enabled(s, Release(e)) && !(s.refs[e] == 2 && Maps(s.contents, e))
    ensures WellFormed(ReleaseStep(s, e)) && Usage(ReleaseStep(s, e)) == Usage(s)
  {
    hide Without, Charges, NoRepeats;
  }

  lemma ReleasedIsEvictable(s: CacheState, e: LRUEntry)
    requires WellFormed(s) && Enabled(s, Release(e)) && s.refs[e] == 2 && Maps(s.contents, e)
    ensures WellFormed(ReleaseStep(s, e)) && Usage(ReleaseStep(s, e)) == Usage(s)
  {
    hide Without, Charges, NoRepeats;
    assert e in s.inUse && e !in s.lru;
    TakeOut(s.inUse, e);
    PutIn(s.lru, e);
    var t := ReleaseStep(s, e);
    assert NoRepeats(t.lru) && NoRepeats(t.inUse) && forall x :: x in t.lru ==> x in t.refs && x !in t.inUse;
  }

  lemma StepKeeps(s: CacheState, capacity: nat, c: Call)
    requires WellFormed(s) && Enabled(s, c)
    ensures WellFormed(Step(s, capacity, c))
  {
    hide WellFormed, EraseStep, AppendStep, EvictStep, HoldStep, ReleaseStep;
    match c {
      case Insert(e) =>
        AppendKeeps(s, e);
        EvictKeeps(AppendStep(s, e), capacity);
      case Lookup(key) => HoldKeeps(s, key);
      case Release(e) => ReleaseKeeps(s, e);
      case Erase(key) => EraseKeeps(s, key);
    }
  }

  // ------------------------------------------------------------------ what is evicted

  ghost function KeysOf(s: seq<LRUEntry>): set<Bytes> {
    set e | e in s :: e.key
  }

  ghost function Members(s: seq<LRUEntry>): set<LRUEntry> {
    set e | e in s
  }

  /** Entry after entry went while the usage was over the capacity. */
  ghost predicate EvictedWhileOver(lru: seq<LRUEntry>, usage: nat, capacity: nat, k: nat)
    requires k <= |lru|
  {
    forall i :: 0 <= i < k ==> usage > capacity + Charges(lru[..i])
  }

  /** The first `k` evictable entries are gone, from the list and from the table, and nothing else. */
  ghost predicate Evicted(s: CacheState, t: CacheState, capacity: nat, k: nat) {
    && k <= |s.lru| && t.lru == s.lru[k..] && t.inUse == s.inUse
    && t.contents == s.contents - KeysOf(s.lru[..k]) && t.refs == s.refs - Members(s.lru[..k])
    && EvictedWhileOver(s.lru, Usage(s), capacity, k)
    && (Usage(t) <= capacity || t.lru == [])
  }

  /** Eviction takes the oldest entries, as few as it takes for the usage to fit. */
  lemma {:induction false} EvictTakes(s: CacheState, capacity: nat) returns (k: nat)
    requires WellFormed(s)
    ensures Evicted(s, EvictStep(s, capacity), capacity, k)
    decreases |s.lru|
  {
    hide WellFormed, Usage, Evicted;
    if Usage(s) > capacity && s.lru != [] {
      EvictOneKeeps(s);
      var m := EvictTakes(EvictOne(s), capacity);
      k := m + 1;
      EvictedAfterOne(s, EvictStep(s, capacity), capacity, m);
    } else {
      k := 0;
      NoneEvicted(s, capacity);
    }
  }

  lemma EvictedAfterOne(s: CacheState, t: CacheState, capacity: nat, m: nat)
    requires s.lru != [] && Usage(s) > capacity && Usage(s) == Usage(EvictOne(s)) + s.lru[0].charge
    requires Evicted(EvictOne(s), t, capacity, m)
    ensures Evicted(s, t, capacity, m + 1)
  {
    hide Usage, EvictedWhileOver, Charges, KeysOf, Members;
    OneMoreEvicted(s.lru, m);
    assert s.contents - {s.lru[0].key} - KeysOf(s.lru[1..][..m]) == s.contents - KeysOf(s.lru[..m + 1]);
    assert s.refs - {s.lru[0]} - Members(s.lru[1..][..m]) == s.refs - Members(s.lru[..m + 1]);
    OverFromFirst(s.lru, Usage(s), capacity, m);
  }

  lemma NoneEvicted(s: CacheState, capacity: nat)
    requires Usage(s) <= capacity || s.lru == []
    ensures Evicted(s, s, capacity, 0)
  {
    assert KeysOf(s.lru[..0]) == {} && Members(s.lru[..0]) == {};
  }

  lemma OverFromFirst(lru: seq<LRUEntry>, usage: nat, capacity: nat, m: nat)
    requires m < |lru| && usage > capacity && usage >= lru[0].charge
    requires EvictedWhileOver(lru[1..], usage - lru[0].charge, capacity, m)
    ensures EvictedWhileOver(lru, usage, capacity, m + 1)
  {
    hide Charges;
    NoCharge();
    forall i | 0 <= i < m + 1
      ensures usage > capacity + Charges(lru[..i])
    {
      if i > 0 {
        OneMoreEvicted(lru, i - 1);
      } else {
        assert lru[..i] == [];
      }
    }
  }

  lemma NoCharge()
    ensures Charges([]) == 0
  {
  }

  lemma OneMoreEvicted(s: seq<LRUEntry>, m: nat)
    requires m < |s|
    ensures s[1..][..m] == s[1..m + 1] && s[1..][m..] == s[m + 1..]
    ensures Charges(s[..m + 1]) == s[0].charge + Charges(s[1..][..m])
    ensures KeysOf(s[..m + 1]) == {s[0].key} + KeysOf(s[1..][..m])
    ensures Members(s[..m + 1]) == {s[0]} + Members(s[1..][..m])
  {
    var first := s[..m + 1];
    assert first == [s[0]] + s[1..][..m];
    FirstCharge(first);
    assert first[1..] == s[1..][..m];
  }

  lemma {:induction false} FirstCharge(s: seq<LRUEntry>)
    requires s != []
    ensures Charges(s) == s[0].charge + Charges(s[1..])
  {
    if |s| > 1 {
      var n := |s| - 1;
      FirstCharge(s[..n]);
      assert s[..n][1..] == s[1..][..n - 1];
    }
  }

  /** The entry of the key, if only the cache refers to it. */
  ghost function Alone(s: CacheState, key: Bytes): set<LRUEntry> {
    if key in s.contents && s.contents[key] in s.refs && s.refs[s.contents[key]] == 1 then {s.contents[key]} else {}
  }

  /** Erasing frees an entry only the cache refers to, and changes no other reference count. */
  lemma EraseRefs(s: CacheState, key: Bytes)
    ensures EraseStep(s, key).contents == s.contents - {key}
    ensures EraseStep(s, key).refs == s.refs - Alone(s, key)
  {
  }

  /** What an insertion does: the new entry is held and mapped, one it replaces is gone from the evictable
      ones, and then the oldest of these go, from list and table, as few as it takes. */
  ghost predicate Inserted(s: CacheState, t: CacheState, capacity: nat, e: LRUEntry) {
    exists k: nat :: InsertedOver(s, t, capacity, e, Left(s, e), k)
  }

  /** The evictable entries when the eviction of an insertion begins. */
  function Left(s: CacheState, e: LRUEntry): seq<LRUEntry> {
    if e.key in s.contents then Without(s.lru, s.contents[e.key]) else s.lru
  }

  ghost predicate InsertedOver(s: CacheState, t: CacheState, capacity: nat, e: LRUEntry, left: seq<LRUEntry>, k: nat) {
    && k <= |left| && t.lru == left[k..] && t.inUse == s.inUse + [e]
    && t.contents == s.contents[e.key := e] - KeysOf(left[..k])
    && t.refs == s.refs[e := 2] - Alone(s, e.key) - Members(left[..k])
    && EvictedWhileOver(left, Charges(left) + Charges(s.inUse) + e.charge, capacity, k)
    && (Usage(t) <= capacity || t.lru == [])
  }

  lemma InsertTakes(s: CacheState, capacity: nat, e: LRUEntry)
    requires WellFormed(s) && e !in s.refs
    ensures Inserted(s, Step(s, capacity, Insert(e)), capacity, e)
  {
    hide WellFormed, EvictStep, AppendStep, EvictedWhileOver, Charges, Alone;
    AppendKeeps(s, e);
    StartOfEviction(s, e);
    var a := AppendStep(s, e);
    var k := EvictTakes(a, capacity);
    AppendCharge(s.inUse, e);
    assert InsertedOver(s, Step(s, capacity, Insert(e)), capacity, e, Left(s, e), k);
  }

  lemma StartOfEviction(s: CacheState, e: LRUEntry)
    requires WellFormed(s) && e !in s.refs
    ensures AppendStep(s, e).lru == Left(s, e) && AppendStep(s, e).refs == s.refs[e := 2] - Alone(s, e.key)
  {
    hide Charges, NoRepeats;
    if e.key in s.contents {
      StillNew(s, e);
      WithoutMembers(s.lru, s.contents[e.key]);
    }
  }

  /** An insertion changes no reference count but that of the new entry, and lists no other entry. */
  lemma InsertRefs(s: CacheState, capacity: nat, e: LRUEntry)
    requires WellFormed(s) && e !in s.refs
    ensures var t := Step(s, capacity, Insert(e));
            forall x :: x in t.refs && x != e ==> x in s.refs && t.refs[x] == s.refs[x]
  {
    hide WellFormed, Step, EvictedWhileOver, Charges, Usage, Left, Alone;
    InsertTakes(s, capacity, e);
    var k: nat :| InsertedOver(s, Step(s, capacity, Insert(e)), capacity, e, Left(s, e), k);
  }

  /** Eviction does not touch how an entry outside the LRU list is mapped. */
  lemma EvictMaps(a: CacheState, capacity: nat, y: LRUEntry)
    requires WellFormed(a) && y in a.inUse
    ensures var t := EvictStep(a, capacity);
            && (Maps(t.contents, y) <==> Maps(a.contents, y))
            && t.inUse == a.inUse && y in t.refs && t.refs[y] == a.refs[y]
  {
    hide EvictStep, Charges, Usage, EvictedWhileOver, NoRepeats;
    var k := EvictTakes(a, capacity);
    assert forall x :: x in a.lru[..k] ==> x in a.lru;
  }

  /** After an insertion the new entry is mapped and held, and another on the list is mapped if it was and
      has another key. */
  lemma InsertMaps(s: CacheState, capacity: nat, e: LRUEntry, y: LRUEntry)
    requires WellFormed(s) && e !in s.refs && (y in s.inUse || y == e)
    ensures var t := Step(s, capacity, Insert(e));
            && t.inUse == s.inUse + [e]
            && (Maps(t.contents, y) <==> y == e || (Maps(s.contents, y) && y.key != e.key))
            && (y == e ==> e in t.refs && t.refs[e] == 2)
  {
    hide EvictStep, AppendStep, Charges, NoRepeats;
    AppendKeeps(s, e);
    hide WellFormed;
    if y in s.inUse {
      StuckIsListed(s, y);
    }
    EvictMaps(AppendStep(s, e), capacity, y);
  }

  lemma StuckIsListed(s: CacheState, e: LRUEntry)
    requires WellFormed(s) && e in s.inUse
    ensures e in s.refs
  {
  }

  // ------------------------------------------------------------------ histories

  const NOTHING := CacheState(map[], [], [], map[])

  function Run(capacity: nat, calls: seq<Call>): CacheState {
    if calls == [] then NOTHING else Step(Run(capacity, calls[..|calls| - 1]), capacity, calls[|calls| - 1])
  }

  /** Every call was possible when it was made. */
  ghost predicate Legal(capacity: nat, calls: seq<Call>) {
    forall n :: 0 <= n < |calls| ==> Enabled(Run(capacity, calls[..n]), calls[n])
  }

  lemma LegalPrefix(capacity: nat, calls: seq<Call>)
    requires Legal(capacity, calls) && calls != []
    ensures Legal(capacity, calls[..|calls| - 1])
    ensures Enabled(Run(capacity, calls[..|calls| - 1]), calls[|calls| - 1])
  {
    var before := calls[..|calls| - 1];
    forall n | 0 <= n < |before|
      ensures Enabled(Run(capacity, before[..n]), before[n])
    {
      assert before[..n] == calls[..n];
    }
  }

  lemma OneMoreCall(capacity: nat, calls: seq<Call>, c: Call)
    requires Legal(capacity, calls) && Enabled(Run(capacity, calls), c)
    ensures Legal(capacity, calls + [c])
    ensures Run(capacity, calls + [c]) == Step(Run(capacity, calls), capacity, c)
  {
    var more := calls + [c];
    assert more[..|calls|] == calls;
    forall n | 0 <= n < |more|
      ensures Enabled(Run(capacity, more[..n]), more[n])
    {
      assert n < |calls| ==> more[..n] == calls[..n];
    }
  }

  /** Whatever the calls, the lists stay in order and agree with table and reference counts. */
  lemma {:induction false} RunIsWellFormed(capacity: nat, calls: seq<Call>)
    requires Legal(capacity, calls)
    ensures WellFormed(Run(capacity, calls))
  {
    if calls != [] {
      LegalPrefix(capacity, calls);
      RunIsWellFormed(capacity, calls[..|calls| - 1]);
      StepKeeps(Run(capacity, calls[..|calls| - 1]), capacity, calls[|calls| - 1]);
    }
  }

  // ------------------------------------------------------------------ how many references there are

  /** How many handles to the entry a call gives out; -1 if it takes one back. */
  function Handles(s: CacheState, c: Call, e: LRUEntry): int {
    match c
    case Insert(x) => if x == e then 1 else 0
    case Lookup(key) => if key in s.contents && s.contents[key] == e then 1 else 0
    case Release(x) => if x == e then -1 else 0
    case Erase(key) => 0
  }

  /** How many handles to the entry clients hold after the calls. */
  function Holding(capacity: nat, calls: seq<Call>, e: LRUEntry): int {
    if calls == [] then 0
    else
      var before := calls[..|calls| - 1];
      Holding(capacity, before, e) + Handles(Run(capacity, before), calls[|calls| - 1], e)
  }

  /** One reference for each handle out, and one of the cache; none is out to an entry that is not listed. */
  ghost predicate Counted(s: CacheState, e: LRUEntry, holding: int) {
    if e in s.refs then s.refs[e] == 1 + holding else holding == 0
  }

  /** After any history, a listed entry has one reference more than clients hold handles to it, and nobody holds one
      to an entry that is freed. */
  lemma {:induction false} ReferencesCount(capacity: nat, calls: seq<Call>, e: LRUEntry)
    requires Legal(capacity, calls)
    ensures Counted(Run(capacity, calls), e, Holding(capacity, calls, e))
    ensures e in Run(capacity, calls).lru ==> Holding(capacity, calls, e) == 0
  {
    hide Enabled, Legal, WellFormed, Step, Handles;
    RunIsWellFormed(capacity, calls);
    if calls != [] {
      var before := calls[..|calls| - 1];
      LegalPrefix(capacity, calls);
      ReferencesCount(capacity, before, e);
      RunIsWellFormed(capacity, before);
      StepCounts(Run(capacity, before), capacity, calls[|calls| - 1], e, Holding(capacity, before, e));
    }
    EvictableOnce(Run(capacity, calls), e);
  }

  lemma EvictableOnce(s: CacheState, e: LRUEntry)
    requires WellFormed(s)
    ensures e in s.lru ==> e in s.refs && s.refs[e] == 1
  {
  }

  lemma StepCounts(s: CacheState, capacity: nat, c: Call, e: LRUEntry, holding: int)
    requires WellFormed(s) && Enabled(s, c) && Counted(s, e, holding)
    ensures Counted(Step(s, capacity, c), e, holding + Handles(s, c, e))
  {
    hide Charges, NoRepeats, EvictStep, AppendStep, Without;
    match c {
      case Insert(x) => InsertCounts(s, capacity, x, e, holding);
      case Lookup(key) =>
      case Release(x) =>
      case Erase(key) =>
    }
  }

  /** An insertion frees entries with one reference only, whichever it evicts or replaces. */
  lemma InsertCounts(s: CacheState, capacity: nat, x: LRUEntry, e: LRUEntry, holding: int)
    requires WellFormed(s) && x !in s.refs && Counted(s, e, holding)
    ensures Counted(Step(s, capacity, Insert(x)), e, holding + if x == e then 1 else 0)
  {
    hide Step, WellFormed, Inserted;
    InsertTakes(s, capacity, x);
    InsertMaps(s, capacity, x, x);
    InsertRefs(s, capacity, x);
    FreedHadOne(s, Step(s, capacity, Insert(x)), capacity, x, e);
  }

  lemma FreedHadOne(s: CacheState, t: CacheState, capacity: nat, x: LRUEntry, e: LRUEntry)
    requires WellFormed(s) && Inserted(s, t, capacity, x)
    ensures e in s.refs && e != x && e !in t.refs ==> s.refs[e] == 1
  {
    hide EvictedWhileOver, Charges, Usage, NoRepeats, Without;
    var left := Left(s, x);
    var k: nat :| InsertedOver(s, t, capacity, x, left, k);
    if e in Members(left[..k]) {
      LeftIsEvictable(s, x, e);
    }
  }

  lemma LeftIsEvictable(s: CacheState, x: LRUEntry, e: LRUEntry)
    requires WellFormed(s) && e in Left(s, x)
    ensures e in s.refs && s.refs[e] == 1
  {
    hide NoRepeats, Without;
    if x.key in s.contents {
      var d: LRUEntry := s.contents[x.key];
      WithoutMembers(s.lru, d);
      assert e in Without(s.lru, d);
    }
    assert e in s.lru;
  }

  // ------------------------------------------------------------------ the clean picture

  /** A client holds the entry of this key. */
  predicate Held(s: CacheState, key: Bytes) {
    key in s.contents && s.contents[key] in s.inUse
  }

  /** The call replaces or erases a key that a client holds. */
  predicate TakesHeld(s: CacheState, c: Call) {
    match c
    case Insert(e) => Held(s, e.key)
    case Erase(key) => Held(s, key)
    case _ => false
  }

  /** Every listed entry is mapped; one reference exactly on the LRU list, more exactly on the other. */
  ghost predicate Clean(s: CacheState) {
    forall e :: e in s.refs ==> Maps(s.contents, e) && (s.refs[e] == 1 <==> e in s.lru) && (s.refs[e] >= 2 <==> e in s.inUse)
  }

  /** A listed entry that is not mapped. */
  predicate Stuck(s: CacheState, e: LRUEntry) {
    e in s.inUse && !Maps(s.contents, e)
  }

  ghost predicate SomeStuck(s: CacheState) {
    exists e :: e in s.inUse && Stuck(s, e)
  }

  /** In order, the lists are clean exactly while no entry is stuck. */
  lemma CleanOrStuck(s: CacheState)
    requires WellFormed(s)
    ensures Clean(s) <==> !SomeStuck(s)
  {
    if !Clean(s) {
      var e :| e in s.refs && !(Maps(s.contents, e) && (s.refs[e] == 1 <==> e in s.lru) && (s.refs[e] >= 2 <==> e in s.inUse));
      assert Stuck(s, e);
    }
  }

  /** A stuck entry stays on the list and unmapped, whatever is called: nothing ever frees it. */
  lemma StuckStays(s: CacheState, capacity: nat, c: Call, e: LRUEntry)
    requires WellFormed(s) && Enabled(s, c) && Stuck(s, e)
    ensures Stuck(Step(s, capacity, c), e)
  {
    hide Charges, NoRepeats, EvictStep, AppendStep;
    match c {
      case Insert(x) => InsertMaps(s, capacity, x, e);
      case Lookup(key) =>
      case Release(x) => WithoutMembers(s.inUse, x);
      case Erase(key) =>
    }
  }

  /** Replacing or erasing a held key makes its entry stuck. */
  lemma HeldBecomesStuck(s: CacheState, capacity: nat, c: Call) returns (e: LRUEntry)
    requires WellFormed(s) && Enabled(s, c) && TakesHeld(s, c)
    ensures Stuck(Step(s, capacity, c), e)
  {
    hide Charges, NoRepeats, EvictStep, AppendStep;
    match c {
      case Insert(x) =>
        e := s.contents[x.key];
        InsertMaps(s, capacity, x, e);
      case Erase(key) =>
        e := s.contents[key];
    }
  }

  /** No other call makes an entry stuck. */
  lemma NothingElseSticks(s: CacheState, capacity: nat, c: Call, e: LRUEntry)
    requires WellFormed(s) && Enabled(s, c) && !TakesHeld(s, c)
    requires Stuck(Step(s, capacity, c), e)
    ensures Stuck(s, e)
  {
    hide Charges, NoRepeats, EvictStep, AppendStep;
    match c {
      case Insert(x) =>
        InsertMaps(s, capacity, x, x);
        if e in s.inUse {
          InsertMaps(s, capacity, x, e);
        }
      case Lookup(key) =>
      case Release(x) => WithoutMembers(s.inUse, x);
      case Erase(key) =>
    }
  }

  lemma StepSticks(s: CacheState, capacity: nat, c: Call)
    requires WellFormed(s) && Enabled(s, c)
    ensures SomeStuck(Step(s, capacity, c)) <==> SomeStuck(s) || TakesHeld(s, c)
  {
    hide WellFormed, Enabled, Step, TakesHeld;
    if SomeStuck(s) {
      var e :| e in s.inUse && Stuck(s, e);
      StuckStays(s, capacity, c, e);
    }
    if TakesHeld(s, c) {
      var e := HeldBecomesStuck(s, capacity, c);
    }
    if SomeStuck(Step(s, capacity, c)) && !TakesHeld(s, c) {
      var e :| e in Step(s, capacity, c).inUse && Stuck(Step(s, capacity, c), e);
      NothingElseSticks(s, capacity, c, e);
    }
  }

  /** No call of the history replaced or erased a key whose entry a client held just before. */
  ghost predicate NoneTaken(capacity: nat, calls: seq<Call>) {
    forall n :: 0 <= n < |calls| ==> !TakesHeld(Run(capacity, calls[..n]), calls[n])
  }

  lemma NoneTakenStep(capacity: nat, calls: seq<Call>)
    requires calls != []
    ensures var n := |calls| - 1;
            NoneTaken(capacity, calls) <==> NoneTaken(capacity, calls[..n]) && !TakesHeld(Run(capacity, calls[..n]), calls[n])
  {
    hide TakesHeld, Run;
    var n := |calls| - 1;
    assert forall m :: 0 <= m < n ==> calls[..n][..m] == calls[..m] && calls[..n][m] == calls[m];
  }

  lemma {:induction false} StuckIffTaken(capacity: nat, calls: seq<Call>)
    requires Legal(capacity, calls)
    ensures SomeStuck(Run(capacity, calls)) <==> !NoneTaken(capacity, calls)
  {
    hide WellFormed, Enabled, Step, TakesHeld, Legal, SomeStuck, NoneTaken;
    if calls == [] {
      NothingStuck(capacity);
    } else {
      var n := |calls| - 1;
      LegalPrefix(capacity, calls);
      StuckIffTaken(capacity, calls[..n]);
      RunIsWellFormed(capacity, calls[..n]);
      StepSticks(Run(capacity, calls[..n]), capacity, calls[n]);
      NoneTakenStep(capacity, calls);
    }
  }

  lemma NothingStuck(capacity: nat)
    ensures !SomeStuck(NOTHING) && NoneTaken(capacity, [])
  {
  }

  /** The clean picture holds after a history of calls if and only if none of them replaced or erased a key
      whose entry a client held just before. */
  lemma CleanIffNoneTaken(capacity: nat, calls: seq<Call>)
    requires Legal(capacity, calls)
    ensures Clean(Run(capacity, calls)) <==> NoneTaken(capacity, calls)
  {
    hide WellFormed, Legal, Clean, SomeStuck, NoneTaken, Run;
    RunIsWellFormed(capacity, calls);
    CleanOrStuck(Run(capacity, calls));
    StuckIffTaken(capacity, calls);
  }

  /** Insert, erase, release: the entry stays on the list of held ones with the one reference that was the
      cache's, off the LRU list, unmapped, and charged. */
  lemma ErasedWhileHeld(capacity: nat, e: LRUEntry)
    ensures var calls := [Insert(e)] + [Erase(e.key)] + [Release(e)];
            && Legal(capacity, calls) && !NoneTaken(capacity, calls)
            && Run(capacity, calls) == CacheState(map[], [], [e], map[e := 1])
            && Usage(Run(capacity, calls)) == e.charge && !Clean(Run(capacity, calls))
  {
    hide Step, Legal, NoneTaken, Clean;
    var one, two := [Insert(e)], [Insert(e)] + [Erase(e.key)];
    assert [] + [Insert(e)] == [Insert(e)];
    StartLegal(capacity);
    FirstSteps(capacity, e);
    OneMoreCall(capacity, [], Insert(e));
    OneMoreCall(capacity, one, Erase(e.key));
    OneMoreCall(capacity, two, Release(e));
    CleanIffNoneTaken(capacity, two + [Release(e)]);
    NotClean(e);
    AppendCharge([], e);
    assert [] + [e] == [e];
  }

  lemma StartLegal(capacity: nat)
    ensures Legal(capacity, []) && Run(capacity, []) == NOTHING
  {
  }

  lemma FirstSteps(capacity: nat, e: LRUEntry)
    ensures Step(NOTHING, capacity, Insert(e)) == CacheState(map[e.key := e], [], [e], map[e := 2])
    ensures Step(CacheState(map[e.key := e], [], [e], map[e := 2]), capacity, Erase(e.key)) == CacheState(map[], [], [e], map[e := 2])
    ensures Step(CacheState(map[], [], [e], map[e := 2]), capacity, Release(e)) == CacheState(map[], [], [e], map[e := 1])
  {
    hide Usage;
    assert map[e.key := e] - {e.key} == map[];
  }

  lemma NotClean(e: LRUEntry)
    ensures !Clean(CacheState(map[], [], [e], map[e := 1]))
  {
    assert e in map[e := 1];
  }

  // ------------------------------------------------------------------ the order of eviction

  /** How many calls there were when the entry was last released; none if it never was. */
  function LastRelease(calls: seq<Call>, e: LRUEntry): nat {
    if calls == [] then 0
    else if calls[|calls| - 1] == Release(e) then |calls|
    else LastRelease(calls[..|calls| - 1], e)
  }

  lemma {:induction false} LastReleaseBound(calls: seq<Call>, e: LRUEntry)
    ensures LastRelease(calls, e) <= |calls|
  {
    if calls != [] {
      LastReleaseBound(calls[..|calls| - 1], e);
    }
  }

  /** In any history, the LRU list is in the order in which its entries were last released. */
  ghost predicate InReleaseOrder(calls: seq<Call>, lru: seq<LRUEntry>) {
    forall i, j :: 0 <= i < j < |lru| ==> LastRelease(calls, lru[i]) < LastRelease(calls, lru[j])
  }

  lemma OrderWithout(calls: seq<Call>, s: seq<LRUEntry>, e: LRUEntry)
    requires InReleaseOrder(calls, s)
    ensures InReleaseOrder(calls, Without(s, e))
  {
    forall i: nat, j: nat | i < j < |Without(s, e)|
      ensures LastRelease(calls, Without(s, e)[i]) < LastRelease(calls, Without(s, e)[j])
    {
      var k, l := WithoutKeepsOrder(s, e, i, j);
    }
  }

  lemma OrderTail(calls: seq<Call>, s: seq<LRUEntry>, k: nat)
    requires InReleaseOrder(calls, s) && k <= |s|
    ensures InReleaseOrder(calls, s[k..])
  {
  }

  /** A call that is no release only takes entries out of the list. */
  lemma StepKeepsOrder(calls: seq<Call>, s: CacheState, capacity: nat, c: Call)
    requires WellFormed(s) && Enabled(s, c) && !c.Release? && InReleaseOrder(calls, s.lru)
    ensures InReleaseOrder(calls, Step(s, capacity, c).lru)
  {
    hide Charges, NoRepeats, InReleaseOrder, EvictStep, AppendStep;
    match c {
      case Insert(e) =>
        InsertTakes(s, capacity, e);
        if e.key in s.contents {
          OrderWithout(calls, s.lru, s.contents[e.key]);
        }
        var k: nat :| InsertedOver(s, Step(s, capacity, c), capacity, e, Left(s, e), k);
        OrderTail(calls, Left(s, e), k);
      case Lookup(key) =>
        if key in s.contents {
          OrderWithout(calls, s.lru, s.contents[key]);
        }
      case Erase(key) =>
        if key in s.contents {
          OrderWithout(calls, s.lru, s.contents[key]);
        }
    }
  }

  lemma SameReleases(before: seq<Call>, c: Call, s: seq<LRUEntry>)
    requires !c.Release? && InReleaseOrder(before, s)
    ensures InReleaseOrder(before + [c], s)
  {
    assert (before + [c])[..|before|] == before;
  }

  lemma {:induction false} LruIsInReleaseOrder(capacity: nat, calls: seq<Call>)
    requires Legal(capacity, calls)
    ensures InReleaseOrder(calls, Run(capacity, calls).lru)
  {
    hide Enabled, Step, ReleaseStep, Run, Legal, InReleaseOrder, WellFormed;
    LastCall(capacity, calls);
    if calls == [] {
      NothingInOrder();
    } else {
      var n := |calls| - 1;
      var before, c := calls[..n], calls[n];
      assert before + [c] == calls;
      LegalPrefix(capacity, calls);
      LruIsInReleaseOrder(capacity, before);
      RunIsWellFormed(capacity, before);
      if c.Release? {
        ReleasedLast(Run(capacity, before), before, c.e);
      } else {
        StepKeepsOrder(before, Run(capacity, before), capacity, c);
        SameReleases(before, c, Run(capacity, calls).lru);
      }
    }
  }

  lemma LastCall(capacity: nat, calls: seq<Call>)
    ensures calls == [] ==> Run(capacity, calls) == NOTHING
    ensures calls != [] ==>
              var before, c := Run(capacity, calls[..|calls| - 1]), calls[|calls| - 1];
              && Run(capacity, calls) == Step(before, capacity, c)
              && (c.Release? ==> Run(capacity, calls) == ReleaseStep(before, c.e))
  {
    hide EraseStep, AppendStep, EvictStep, HoldStep, ReleaseStep;
  }

  lemma NothingInOrder()
    ensures InReleaseOrder([], NOTHING.lru)
  {
  }

  lemma ReleasedLast(s: CacheState, before: seq<Call>, e: LRUEntry)
    requires WellFormed(s) && Enabled(s, Release(e)) && InReleaseOrder(before, s.lru)
    ensures InReleaseOrder(before + [Release(e)], ReleaseStep(s, e).lru)
  {
    var calls := before + [Release(e)];
    assert calls[..|before|] == before;
    forall i | 0 <= i < |s.lru|
      ensures s.lru[i] != e && LastRelease(calls, s.lru[i]) == LastRelease(before, s.lru[i]) <= |before|
    {
      LastReleaseBound(before, s.lru[i]);
      assert s.lru[i] in s.lru;
    }
  }
}

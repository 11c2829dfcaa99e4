/** The two ways to read the store, tied to the map its writes define: Get (db/db_impl.cc) and the
    user-level iterator (db/db_iter.cc). */
module ReadPaths {
  import opened Keys
  import opened Visibility
  import opened Engine
  import opened Invariants
  import opened Safety
  import opened PointLookup
  import opened DbIterator

  lemma LiveIsReadable(db: Db, s: nat)
    requires s in db.snapshots || s == db.last
    ensures Readable(db, s)
  {
  }

  /** In every reachable state, Get at a live sequence returns what the map held after the operations up to it if
      and only if it does not lose the value it is after at a file boundary. */
  lemma GetIsTheMapIff(events: seq<Event>, db: Db, u: UserKey, s: nat)
    requires Reaches(events, db)
    requires s in db.snapshots || s == db.last
    ensures s <= |Written(events)|
    ensures ValueOf(StoreGet(db, u, s)) == Lookup(MapAfter(Written(events)[..s]), u) <==> !LosesValue(db, u, s)
  {
    hide *;
    ReachableInv(events, db);
    ReadsAreTheMap(events, db, u, s);
    LiveIsReadable(db, s);
    GetAgreesIff(db, u, s);
  }

  /** In particular if it does not lose the version. */
  lemma GetIsTheMap(events: seq<Event>, db: Db, u: UserKey, s: nat)
    requires Reaches(events, db)
    requires s in db.snapshots || s == db.last
    requires !Loses(db, u, s)
    ensures s <= |Written(events)|
    ensures ValueOf(StoreGet(db, u, s)) == Lookup(MapAfter(Written(events)[..s]), u)
  {
    hide *;
    ReachableInv(events, db);
    ReadsAreTheMap(events, db, u, s);
    LiveIsReadable(db, s);
    GetAgreesWithRead(db, u, s);
  }

  /** At the last sequence, where a Get without a snapshot reads, it always returns what the map holds. */
  lemma GetAtLastIsTheMap(events: seq<Event>, db: Db, u: UserKey)
    requires Reaches(events, db)
    ensures db.last == |Written(events)|
    ensures ValueOf(StoreGet(db, u, db.last)) == Lookup(MapAfter(Written(events)), u)
  {
    ReachableInv(events, db);
    HistoryIsWritten(events, db);
    hide Inv, Reaches, Written, StoreGet, MapAfter;
    NothingLostAtLast(db, u);
    GetIsTheMap(events, db, u, db.last);
    assert Written(events)[..|Written(events)|] == Written(events);
  }

  /** In every reachable state, what an iterator at a live sequence shows of the stored versions is
      exactly that map: each key once, in order, with its value.  No condition on the levels. */
  lemma ScanIsTheMap(events: seq<Event>, db: Db, data: seq<Entry>, s: nat)
    requires Reaches(events, db)
    requires s in db.snapshots || s == db.last
    requires WeaklySorted(data) && SetOf(data) == All(db)
    ensures s <= |Written(events)|
    ensures forall i :: 0 <= i < |data| && Shown(data, s, i) ==>
              Lookup(MapAfter(Written(events)[..s]), data[i].k.user) == Some(data[i].v)
    ensures forall u :: u in MapAfter(Written(events)[..s]) ==>
              exists i :: 0 <= i < |data| && data[i].k.user == u && Shown(data, s, i)
    ensures forall i, j :: 0 <= i < j < |data| && Shown(data, s, i) && Shown(data, s, j) ==> data[i].k.user < data[j].k.user
  {
    ReachableInv(events, db);
    AllConsistent(db);
    ReadsAreTheMap(events, db, 0.0, s);
    var m := MapAfter(Written(events)[..s]);
    hide Inv, Reaches, All, MapAfter, Written, Read;
    forall i | 0 <= i < |data| && Shown(data, s, i)
      ensures Lookup(m, data[i].k.user) == Some(data[i].v)
    {
      ShownIsRead(data, s, data[i].k.user);
      ReadsAreTheMap(events, db, data[i].k.user, s);
    }
    forall u | u in m
      ensures exists i :: 0 <= i < |data| && data[i].k.user == u && Shown(data, s, i)
    {
      ShownIsRead(data, s, u);
      ReadsAreTheMap(events, db, u, s);
    }
    forall i, j | 0 <= i < j < |data| && Shown(data, s, i) && Shown(data, s, j)
      ensures data[i].k.user < data[j].k.user
    {
      ShownAscend(data, s, i, j);
    }
  }
}

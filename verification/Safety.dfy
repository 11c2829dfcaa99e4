/** The main result: in every reachable state, a read at any live sequence number returns what the
    writes up to that number, applied to a map, left there. */
module Safety {
  import opened Keys
  import opened Visibility
  import opened Versions
  import opened Engine
  import opened Invariants
  import opened SafetyMemory
  import opened SafetyFlush
  import opened SafetyCompaction
  import opened SafetyReopen

  lemma StepKeepsInv(db: Db, ev: Event)
    requires Inv(db) && Enabled(db, ev)
    ensures Inv(After(db, ev))
  {
    hide Inv, Enabled;
    match ev
    case Write(ops) => WriteKeepsInv(db, ops);
    case Freeze => FreezeKeepsInv(db);
    case Flush(size) => FlushKeepsInv(db, size);
    case Move(level, file, pointer) => MoveKeepsInv(db, level, file, pointer);
    case Pick(level, a, b, s, pointer) => PickKeepsInv(db, level, a, b, s, pointer);
    case Install(outputs, sizes) =>
      assert Installs(db, outputs, sizes);
      InstallKeepsInv(db, outputs, sizes);
    case TakeSnapshot => SnapshotStepsKeepInv(db, ev);
    case ReleaseSnapshot(s) => SnapshotStepsKeepInv(db, ev);
    case Reopen(segments, sizes, seen) => ReopenKeepsInv(db, segments, sizes, seen);
  }

  lemma {:induction false} ReachableInv(events: seq<Event>, db: Db)
    requires Reaches(events, db)
    ensures Inv(db)
  {
    if events == [] {
      EmptyInv();
    } else {
      var n := |events| - 1;
      var before :| Reaches(events[..n], before) && Enabled(before, events[n]) && db == After(before, events[n]);
      ReachableInv(events[..n], before);
      StepKeepsInv(before, events[n]);
    }
  }

  // ------------------------------------------------------------------ the store as a map

  /** All operations of a run, in the order they were written. */
  function Written(events: seq<Event>): seq<Op> {
    if events == [] then []
    else
      var n := |events| - 1;
      Written(events[..n]) + match events[n] case Write(ops) => ops case _ => []
  }

  function MapAfter(ops: seq<Op>): map<UserKey, Bytes> {
    if ops == [] then map[]
    else
      var before := MapAfter(ops[..|ops| - 1]);
      match ops[|ops| - 1]
      case Put(u, v) => before[u := v]
      case Delete(u) => before - {u}
  }

  function Lookup(m: map<UserKey, Bytes>, u: UserKey): Option<Bytes> {
    if u in m then Some(m[u]) else None
  }

  lemma AfterHistory(db: Db, ev: Event)
    requires Inv(db) && Enabled(db, ev)
    ensures After(db, ev).history == db.history + match ev case Write(ops) => Stamp(ops, |db.history| + 1) case _ => []
  {
    hide *;
    HistoryLength(db);
    match ev
    case Write(ops) => assert After(db, ev).history == db.history + Stamp(ops, db.last + 1) by { WriteHistory(db, ops); }
    case _ =>
      OtherHistory(db, ev);
      assert db.history + [] == db.history;
  }

  lemma HistoryLength(db: Db)
    requires Inv(db)
    ensures |db.history| == db.last
  {
    hide NewerAbove, SharedOld, LogsCover, TablesInOrder, ReadsHistory, PendingClosed, MemoryFresh;
  }

  lemma WriteHistory(db: Db, ops: seq<Op>)
    requires Enabled(db, Write(ops))
    ensures After(db, Write(ops)).history == db.history + Stamp(ops, db.last + 1)
  {
  }

  lemma OtherHistory(db: Db, ev: Event)
    requires Enabled(db, ev) && !ev.Write?
    ensures After(db, ev).history == db.history
  {
    hide LogAndApply, ReplayTables, FlushTable;
  }

  lemma StampConcat(x: seq<Op>, y: seq<Op>)
    ensures Stamp(x + y, 1) == Stamp(x, 1) + Stamp(y, |x| + 1)
  {
  }

  lemma {:induction false} HistoryIsWritten(events: seq<Event>, db: Db)
    requires Reaches(events, db)
    ensures db.history == Stamp(Written(events), 1)
  {
    hide Enabled, After;
    if events != [] {
      var n := |events| - 1;
      var before :| Reaches(events[..n], before) && Enabled(before, events[n]) && db == After(before, events[n]);
      HistoryIsWritten(events[..n], before);
      ReachableInv(events[..n], before);
      hide *;
      AfterHistory(before, events[n]);
      HistoryGrows(events, before.history, db.history);
    }
  }

  lemma HistoryGrows(events: seq<Event>, before: seq<Entry>, after: seq<Entry>)
    requires events != [] && before == Stamp(Written(events[..|events| - 1]), 1)
    requires after == before + match events[|events| - 1] case Write(ops) => Stamp(ops, |before| + 1) case _ => []
    ensures after == Stamp(Written(events), 1)
  {
    var n := |events| - 1;
    match events[n]
    case Write(ops) => StampConcat(Written(events[..n]), ops);
    case _ =>
  }

  lemma SameVersionsSameRead(S: set<Entry>, u: UserKey, s: nat, t: nat)
    requires Consistent(S)
    requires forall e :: VersionOf(S, u, s, e) <==> VersionOf(S, u, t, e)
    ensures Read(S, u, s) == Read(S, u, t)
  {
    if exists e :: VersionOf(S, u, s, e) {
      var n := NewestExists(S, u, s);
      ReadNewest(S, u, s, n);
      ReadNewest(S, u, t, n);
    }
  }

  lemma OtherKeyWritten(es: seq<Entry>, u: UserKey, n: nat)
    requires 0 < n <= |es| && es[n - 1].k.user != u && forall i :: 0 <= i < |es| ==> es[i].k.seqno == i + 1
    ensures forall f :: VersionOf(SetOf(es), u, n, f) <==> VersionOf(SetOf(es), u, n - 1, f)
  {
    forall f | VersionOf(SetOf(es), u, n, f)
      ensures VersionOf(SetOf(es), u, n - 1, f)
    {
      var i :| 0 <= i < |es| && es[i] == f;
    }
  }

  lemma MapStep(ops: seq<Op>, n: nat)
    requires 0 < n <= |ops|
    ensures MapAfter(ops[..n]) ==
            match ops[n - 1]
            case Put(u, v) => MapAfter(ops[..n - 1])[u := v]
            case Delete(u) => MapAfter(ops[..n - 1]) - {u}
  {
    assert ops[..n][..n - 1] == ops[..n - 1];
  }

  /** The n-th version is the newest of its key at sequence n. */
  lemma LastIsNewest(es: seq<Entry>, n: nat)
    requires 0 < n <= |es| && forall i :: 0 <= i < |es| ==> es[i].k.seqno == i + 1
    ensures Newest(SetOf(es), es[n - 1].k.user, n, es[n - 1])
  {
    assert es[n - 1] in SetOf(es);
  }

  lemma StampConsistent(ops: seq<Op>)
    ensures forall i :: 0 <= i < |ops| ==> Stamp(ops, 1)[i] == EntryOf(ops[i], i + 1)
    ensures Consistent(SetOf(Stamp(ops, 1)))
  {
  }

  lemma SameKeyRead(ops: seq<Op>, u: UserKey, n: nat)
    requires 0 < n <= |ops| && ops[n - 1].user == u
    ensures Read(SetOf(Stamp(ops, 1)), u, n) == Lookup(MapAfter(ops[..n]), u)
  {
    hide Read, MapAfter, Newest, Consistent, Stamp, SetOf, VersionOf;
    var es := Stamp(ops, 1);
    StampConsistent(ops);
    MapStep(ops, n);
    LastIsNewest(es, n);
    ReadNewest(SetOf(es), u, n, es[n - 1]);
  }

  lemma OtherKeyRead(ops: seq<Op>, u: UserKey, n: nat)
    requires 0 < n <= |ops| && ops[n - 1].user != u
    ensures Read(SetOf(Stamp(ops, 1)), u, n) == Read(SetOf(Stamp(ops, 1)), u, n - 1)
    ensures Lookup(MapAfter(ops[..n]), u) == Lookup(MapAfter(ops[..n - 1]), u)
  {
    hide Read, MapAfter, Newest, Consistent, Stamp, SetOf, VersionOf;
    var es := Stamp(ops, 1);
    StampConsistent(ops);
    MapStep(ops, n);
    OtherKeyWritten(es, u, n);
    SameVersionsSameRead(SetOf(es), u, n, n - 1);
  }

  /** Reading a stamped history at sequence n is looking up the map after its first n operations. */
  lemma {:induction false} ReadIsLookup(ops: seq<Op>, u: UserKey, n: nat)
    requires n <= |ops|
    ensures Read(SetOf(Stamp(ops, 1)), u, n) == Lookup(MapAfter(ops[..n]), u)
  {
    hide Read;
    if n > 0 {
      hide MapAfter, Stamp, SetOf;
      if ops[n - 1].user == u {
        SameKeyRead(ops, u, n);
      } else {
        ReadIsLookup(ops, u, n - 1);
        OtherKeyRead(ops, u, n);
      }
    } else {
      StampConsistent(ops);
      ReadAbsent(SetOf(Stamp(ops, 1)), u, 0);
    }
  }

  /** In every state reached by writes, freezes, flushes, trivial moves, compactions in flight, snapshots
      and reopens, the stored versions read at a live snapshot, or at the last sequence, as the map left
      by the operations up to that sequence. */
  lemma ReadsAreTheMap(events: seq<Event>, db: Db, u: UserKey, s: nat)
    requires Reaches(events, db)
    requires s in db.snapshots || s == db.last
    ensures s <= |Written(events)|
    ensures Read(All(db), u, s) == Lookup(MapAfter(Written(events)[..s]), u)
  {
    ReachableInv(events, db);
    HistoryIsWritten(events, db);
    ReadableParts(db, s);
    ReadIsLookup(Written(events), u, s);
  }

  lemma ReadableParts(db: Db, s: nat)
    requires Inv(db) && (s in db.snapshots || s == db.last)
    ensures s <= |db.history| && forall u :: Read(All(db), u, s) == Read(SetOf(db.history), u, s)
  {
    hide NewerAbove, SharedOld, LogsCover, TablesInOrder, PendingClosed, MemoryFresh;
    assert Readable(db, s);
  }

  /** A run goes on with any event enabled in the state it reaches. */
  lemma RunGrows(events: seq<Event>, db: Db, ev: Event)
    requires Reaches(events, db) && Enabled(db, ev)
    ensures Reaches(events + [ev], After(db, ev))
    ensures Written(events + [ev]) == Written(events) + match ev case Write(ops) => ops case _ => []
  {
    assert (events + [ev])[..|events|] == events;
    assert (events + [ev])[|events|] == ev;
  }
}

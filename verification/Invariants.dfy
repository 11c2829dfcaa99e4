/** What every state of the store keeps: where versions are stored, and that reads at live sequence
    numbers see the whole history. */
module Invariants {
  import opened Keys
  import opened Files
  import opened Visibility
  import opened Versions
  import opened InputSelection
  import opened Engine

  // ------------------------------------------------------------------ places

  /** A memtable (level -2), the frozen memtable (level -1), or the file of a level. */
  datatype Place = Place(level: int, number: nat)

  const MEM := Place(-2, 0)
  const IMM := Place(-1, 0)

  ghost predicate StoredIn(files: seq<File>, number: nat, e: Entry) {
    exists f :: f in files && f.number == number && e in f.entries
  }

  ghost predicate Stored(db: Db, p: Place, e: Entry) {
    || (p == MEM && e in db.mem)
    || (p == IMM && e in db.imm)
    || (0 <= p.level < |db.Levels()| && StoredIn(db.Levels()[p.level], p.number, e))
  }

  /** Place `q` is searched no later than place `p`; level-0 files are searched by falling number. */
  predicate NoLater(q: Place, p: Place) {
    q.level < p.level || (q.level == p.level && (p.level != 0 || q.number >= p.number))
  }

  /** No reader, now or later, has a sequence number below this version's. */
  ghost predicate Old(db: Db, e: Entry) {
    e.k.seqno <= db.last && forall t :: t in db.snapshots ==> e.k.seqno <= t
  }

  /** A search up to place `p` meets `e`, or a newer version of its key that every reader may see. */
  ghost predicate Covered(db: Db, p: Place, e: Entry) {
    exists q, x :: NoLater(q, p) && Stored(db, q, x) && StandsFor(db, x, e)
  }

  ghost predicate StandsFor(db: Db, x: Entry, e: Entry) {
    x.k.user == e.k.user && e.k.seqno <= x.k.seqno && (x == e || Old(db, x))
  }

  ghost function TableEntries(levels: seq<seq<File>>): set<Entry> {
    set l, f, e | 0 <= l < |levels| && f in levels[l] && e in f.entries :: e
  }

  /** All stored versions. */
  ghost function All(db: Db): set<Entry> {
    SetOf(db.mem) + SetOf(db.imm) + TableEntries(db.Levels())
  }

  lemma AllStored(db: Db, e: Entry)
    ensures e in All(db) <==> exists p :: Stored(db, p, e)
  {
    if e in All(db) {
      if e in db.mem {
        assert Stored(db, MEM, e);
      } else if e in db.imm {
        assert Stored(db, IMM, e);
      } else {
        var l, f :| 0 <= l < |db.Levels()| && f in db.Levels()[l] && e in f.entries;
        assert Stored(db, Place(l, f.number), e);
      }
    }
    if p :| Stored(db, p, e) {
      assert e in All(db);
    }
  }

  // ------------------------------------------------------------------ the invariant

  ghost predicate HistoryInOrder(db: Db) {
    && |db.history| == db.last <= MAX_SEQUENCE
    && forall i :: 0 <= i < |db.history| ==> db.history[i].k.seqno == i + 1
  }

  ghost predicate OnlyHistory(db: Db) {
    All(db) <= SetOf(db.history)
  }

  /** A version is never stored above a newer one of its key, unless that one is covered there too. */
  ghost predicate NewerAbove(db: Db) {
    forall p, f, e :: Stored(db, p, f) && e in All(db) && f.k.user == e.k.user && f.k.seqno <= e.k.seqno ==> Covered(db, p, e)
  }

  /** The memtable is newer than the frozen one, which is newer than all tables. */
  ghost predicate MemoryNewer(db: Db) {
    && (forall x, y :: x in db.mem && y in db.imm ==> y.k.seqno < x.k.seqno)
    && (forall x, y :: (x in db.mem || x in db.imm) && y in TableEntries(db.Levels()) ==> y.k.seqno < x.k.seqno)
  }

  /** Only a reopen stores a version at two places. */
  ghost predicate SharedOld(db: Db) {
    forall p, q, e :: Stored(db, p, e) && Stored(db, q, e) && p != q ==> e.k.seqno <= db.reopenedAt
  }

  ghost predicate MemoryFresh(db: Db) {
    && Sorted(db.mem) && Sorted(db.imm)
    && MemoryNewer(db)
    && forall e :: e in db.mem || e in db.imm ==> db.reopenedAt < e.k.seqno
  }

  /** No file number is used on two levels. */
  ghost predicate NumbersUnique(levels: seq<seq<File>>) {
    forall l, m, f, g :: 0 <= l < m < |levels| && f in levels[l] && g in levels[m] ==> f.number != g.number
  }

  ghost predicate TablesInOrder(db: Db) {
    Sound(db.vs) && LevelsInOrder(db.Levels()) && NumbersUnique(db.Levels())
  }

  /** The current log holds a final stretch of the history that contains all unflushed versions, earlier
      logs are done with, and the recorded last sequence covers what the logs no longer hold. */
  ghost predicate LogsCover(db: Db) {
    && db.logs != []
    && (|db.logs| > 1 ==> db.vs.manifest != [])
    && (forall i :: 0 <= i < |db.logs| - 1 ==> db.logs[i].number < db.vs.core.logNumber)
    && db.vs.core.logNumber <= CurrentLog(db).number
    && var es := CurrentLog(db).entries;
       && |es| <= |db.history| && es == db.history[|db.history| - |es|..]
       && (forall e :: e in db.mem || e in db.imm ==> e in es)
       && |db.history| - |es| <= db.vs.core.lastSequence <= db.last
  }

  /** Sequence numbers a reader may use now or later: from the oldest live snapshot on. */
  ghost predicate Readable(db: Db, s: nat) {
    db.last <= s || exists t :: t in db.snapshots && t <= s
  }

  ghost predicate SnapshotsInRange(db: Db) {
    && db.reopenedAt <= db.last
    && forall t :: t in db.snapshots ==> db.reopenedAt <= t <= db.last
  }

  ghost predicate ReadsHistory(db: Db) {
    forall u, s :: Readable(db, s) ==> Read(All(db), u, s) == Read(SetOf(db.history), u, s)
  }

  /** The compaction in flight is still closed, and no reader has fallen behind its smallest snapshot. */
  ghost predicate PendingClosed(db: Db) {
    db.pending.Some? ==>
      var p := db.pending.value;
      && p.level + 1 < NUM_LEVELS && |db.Levels()| == NUM_LEVELS
      && ClosedSelection(db.Levels(), p.level, p.a, p.b)
      && p.deeper == db.Levels()[p.level + 2..]
      && p.smallestSnapshot < MAX_SEQUENCE && p.smallestSnapshot <= db.last
      && db.reopenedAt <= p.smallestSnapshot
      && forall t :: t in db.snapshots ==> p.smallestSnapshot <= t
  }

  ghost predicate Inv(db: Db) {
    && HistoryInOrder(db) && OnlyHistory(db) && NewerAbove(db) && SharedOld(db) && MemoryFresh(db)
    && TablesInOrder(db) && LogsCover(db) && SnapshotsInRange(db) && ReadsHistory(db) && PendingClosed(db)
  }

  lemma HistoryConsistent(db: Db)
    requires HistoryInOrder(db)
    ensures Consistent(SetOf(db.history))
  {
  }

  lemma AllConsistent(db: Db)
    requires Inv(db)
    ensures Consistent(All(db))
  {
    hide NewerAbove, SharedOld, LogsCover, TablesInOrder, ReadsHistory, PendingClosed, MemoryFresh, SnapshotsInRange;
    HistoryConsistent(db);
  }

  lemma StoredIsHistory(db: Db, p: Place, e: Entry)
    requires HistoryInOrder(db) && OnlyHistory(db)
    requires Stored(db, p, e)
    ensures e in All(db) && e in db.history && 1 <= e.k.seqno <= db.last && db.history[e.k.seqno - 1] == e
  {
    AllStored(db, e);
    assert e in SetOf(db.history);
  }

  lemma NoFilesAnywhere(l: nat)
    requires l < NUM_LEVELS
    ensures NO_FILES[l] == []
  {
  }

  lemma EmptyStoresNothing(p: Place, e: Entry)
    ensures !Stored(EMPTY, p, e)
  {
    if 0 <= p.level < NUM_LEVELS {
      NoFilesAnywhere(p.level);
    }
  }

  lemma EmptyTables()
    ensures TablesInOrder(EMPTY)
  {
    forall l | 0 <= l < NUM_LEVELS
      ensures NO_FILES[l] == []
    {
      NoFilesAnywhere(l);
    }
    assert Replay([]) == INITIAL;
  }

  lemma EmptyInv()
    ensures Inv(EMPTY)
  {
    EmptyTables();
    forall p, e ensures !Stored(EMPTY, p, e) {
      EmptyStoresNothing(p, e);
    }
    forall e ensures e !in All(EMPTY) {
      AllStored(EMPTY, e);
    }
    assert All(EMPTY) == {} == SetOf(EMPTY.history);
  }

  lemma SameAllReads(db: Db, db': Db)
    requires ReadsHistory(db)
    requires All(db') == All(db) && db'.history == db.history && db'.last == db.last && db'.snapshots == db.snapshots
    ensures ReadsHistory(db')
  {
    forall u, s | Readable(db', s)
      ensures Read(All(db'), u, s) == Read(SetOf(db'.history), u, s)
    {
      assert Readable(db, s);
    }
  }
}

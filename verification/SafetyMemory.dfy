/** Writes, snapshots and flushes keep the invariant. */
module SafetyMemory {
  import opened Keys
  import opened Files
  import opened Runs
  import opened Visibility
  import opened Versions
  import opened InputSelection
  import opened Engine
  import opened Invariants

  // ------------------------------------------------------------------ writes

  lemma StampedEntries(db: Db, ops: seq<Op>)
    requires HistoryInOrder(db)
    ensures var es := Stamp(ops, db.last + 1);
            && (forall i :: 0 <= i < |es| ==> es[i].k.seqno == db.last + 1 + i)
            && (forall e :: e in es ==> db.last < e.k.seqno <= db.last + |ops|)
            && HistoryInOrder(db.(history := db.history + es, last := db.last + |ops|)) == (db.last + |ops| <= MAX_SEQUENCE)
  {
    var es := Stamp(ops, db.last + 1);
    forall e | e in es
      ensures db.last < e.k.seqno <= db.last + |ops|
    {
      var i :| 0 <= i < |es| && es[i] == e;
    }
  }

  lemma WriteStores(db: Db, ops: seq<Op>, p: Place, e: Entry)
    requires db.logs != []
    ensures Stored(WriteStep(db, ops), p, e) <==> Stored(db, p, e) || (p == MEM && e in Stamp(ops, db.last + 1))
  {
    InsertAllMembers(db.mem, Stamp(ops, db.last + 1), e);
  }

  lemma WriteAll(db: Db, ops: seq<Op>)
    requires db.logs != []
    ensures All(WriteStep(db, ops)) == All(db) + SetOf(Stamp(ops, db.last + 1))
  {
    var es := Stamp(ops, db.last + 1);
    forall e
      ensures e in All(WriteStep(db, ops)) <==> e in All(db) || e in es
    {
      InsertAllMembers(db.mem, es, e);
    }
  }

  lemma WriteNewerAbove(db: Db, ops: seq<Op>, p: Place, f: Entry, e: Entry)
    requires HistoryInOrder(db) && OnlyHistory(db) && NewerAbove(db) && db.logs != []
    requires Stored(WriteStep(db, ops), p, f) && e in All(WriteStep(db, ops))
    requires f.k.user == e.k.user && f.k.seqno <= e.k.seqno
    ensures Covered(WriteStep(db, ops), p, e)
  {
    var db' := WriteStep(db, ops);
    WriteAll(db, ops);
    WriteStores(db, ops, p, f);
    StampedEntries(db, ops);
    hide NewerAbove, HistoryInOrder, Stamp;
    if e in Stamp(ops, db.last + 1) {
      hide OnlyHistory;
      WriteStores(db, ops, MEM, e);
      WhereStored(db', p, f);
      assert NoLater(MEM, p) && Stored(db', MEM, e) && StandsFor(db', e, e);
    } else {
      assert e in All(db) && e in SetOf(db.history);
      hide All;
      StillCovered(db, ops, p, f, e);
    }
  }

  lemma WhereStored(db: Db, p: Place, f: Entry)
    requires Stored(db, p, f)
    ensures NoLater(MEM, p)
  {
  }

  lemma StillCovered(db: Db, ops: seq<Op>, p: Place, f: Entry, e: Entry)
    requires NewerAbove(db) && db.logs != [] && e in All(db) && e.k.seqno <= db.last
    requires Stored(db, p, f) || f.k.seqno > db.last
    requires f.k.user == e.k.user && f.k.seqno <= e.k.seqno
    ensures Covered(WriteStep(db, ops), p, e)
  {
    var db' := WriteStep(db, ops);
    assert Covered(db, p, e);
    hide NewerAbove, All;
    var q, x :| NoLater(q, p) && Stored(db, q, x) && StandsFor(db, x, e);
    WriteStores(db, ops, q, x);
    assert StandsFor(db', x, e);
  }

  lemma WriteSharedOld(db: Db, ops: seq<Op>, p: Place, q: Place, e: Entry)
    requires HistoryInOrder(db) && OnlyHistory(db) && SharedOld(db) && db.logs != []
    requires Stored(WriteStep(db, ops), p, e) && Stored(WriteStep(db, ops), q, e) && p != q
    ensures e.k.seqno <= db.reopenedAt
  {
    WriteStores(db, ops, p, e);
    WriteStores(db, ops, q, e);
    StampedEntries(db, ops);
    if Stored(db, p, e) {
      StoredIsHistory(db, p, e);
    } else {
      StoredIsHistory(db, q, e);
    }
  }

  lemma WriteKeepsPlaces(db: Db, ops: seq<Op>)
    requires HistoryInOrder(db) && OnlyHistory(db) && NewerAbove(db) && SharedOld(db) && db.logs != []
    ensures NewerAbove(WriteStep(db, ops)) && SharedOld(WriteStep(db, ops))
  {
    var db' := WriteStep(db, ops);
    forall p, f, e | Stored(db', p, f) && e in All(db') && f.k.user == e.k.user && f.k.seqno <= e.k.seqno
      ensures Covered(db', p, e)
    {
      WriteNewerAbove(db, ops, p, f, e);
    }
    forall p, q, e | Stored(db', p, e) && Stored(db', q, e) && p != q
      ensures e.k.seqno <= db'.reopenedAt
    {
      WriteSharedOld(db, ops, p, q, e);
    }
  }

  lemma StoredUpToLast(db: Db, e: Entry)
    requires HistoryInOrder(db) && OnlyHistory(db) && e in All(db)
    ensures e.k.seqno <= db.last
  {
    assert e in SetOf(db.history);
  }

  lemma WriteKeepsMemory(db: Db, ops: seq<Op>)
    requires HistoryInOrder(db) && OnlyHistory(db) && MemoryFresh(db) && SnapshotsInRange(db) && db.logs != []
    ensures MemoryFresh(WriteStep(db, ops))
  {
    var es := Stamp(ops, db.last + 1);
    StampedEntries(db, ops);
    hide HistoryInOrder, OnlyHistory, TableEntries, MemoryFresh, Stamp;
    forall e | e in All(db)
      ensures e.k.seqno <= db.last
    {
      StoredUpToLast(db, e);
    }
    NewestOnTop(db, WriteStep(db, ops), es);
  }

  lemma NewSorted(mem: seq<Entry>, es: seq<Entry>, last: nat)
    requires Sorted(mem) && forall e :: e in mem ==> e.k.seqno <= last
    requires forall i :: 0 <= i < |es| ==> es[i].k.seqno == last + 1 + i
    ensures Sorted(InsertAll(mem, es)) && forall e :: e in InsertAll(mem, es) <==> e in mem || e in es
  {
    forall j | 0 <= j < |mem|
      ensures mem[j].k.seqno <= last
    {
      assert mem[j] in mem;
    }
    InsertAllSorted(mem, es);
    hide InsertAll, Sorted;
    forall e
      ensures e in InsertAll(mem, es) <==> e in mem || e in es
    {
      InsertAllMembers(mem, es, e);
    }
  }

  /** The memtable takes versions newer than any stored one. */
  lemma NewestOnTop(db: Db, db': Db, es: seq<Entry>)
    requires MemoryFresh(db) && db.reopenedAt <= db.last
    requires (forall e :: e in All(db) ==> e.k.seqno <= db.last) && forall e :: e in es ==> db.last < e.k.seqno
    requires forall i :: 0 <= i < |es| ==> es[i].k.seqno == db.last + 1 + i
    requires db'.mem == InsertAll(db.mem, es) && db'.imm == db.imm && db'.Levels() == db.Levels() && db'.reopenedAt == db.reopenedAt
    ensures MemoryFresh(db')
  {
    hide TableEntries, InsertAll, Sorted;
    assert forall e :: e in db.mem || e in db.imm || e in TableEntries(db.Levels()) ==> e in All(db);
    hide All;
    NewSorted(db.mem, es, db.last);
  }

  lemma WriteKeepsLogs(db: Db, ops: seq<Op>)
    requires LogsCover(db) && HistoryInOrder(db)
    ensures LogsCover(WriteStep(db, ops))
  {
    var es, db' := Stamp(ops, db.last + 1), WriteStep(db, ops);
    var before, after := CurrentLog(db).entries, CurrentLog(db').entries;
    hide HistoryInOrder, Stamp;
    assert after == before + es;
    assert after == db'.history[|db'.history| - |after|..];
    forall i | 0 <= i < |db'.logs| - 1
      ensures db'.logs[i].number < db'.vs.core.logNumber
    {
      assert db'.logs[i] == db.logs[i];
    }
    forall e | e in db'.mem || e in db'.imm
      ensures e in after
    {
      InsertAllMembers(db.mem, es, e);
    }
  }

  lemma WriteKeepsReads(db: Db, ops: seq<Op>)
    requires HistoryInOrder(db) && OnlyHistory(db) && ReadsHistory(db) && db.logs != []
    requires db.last + |ops| <= MAX_SEQUENCE
    ensures OnlyHistory(WriteStep(db, ops)) && ReadsHistory(WriteStep(db, ops))
  {
    var es := Stamp(ops, db.last + 1);
    var db' := WriteStep(db, ops);
    StampedEntries(db, ops);
    WriteAll(db, ops);
    assert SetOf(db'.history) == SetOf(db.history) + SetOf(es);
    HistoryConsistent(db');
    forall u, s | Readable(db', s)
      ensures Read(All(db'), u, s) == Read(SetOf(db'.history), u, s)
    {
      assert Readable(db, s);
      WriteKeepsRead(db, es, u, s);
    }
  }

  lemma WriteKeepsRead(db: Db, es: seq<Entry>, u: UserKey, s: nat)
    requires HistoryInOrder(db) && OnlyHistory(db)
    requires Consistent(SetOf(db.history) + SetOf(es))
    requires forall e :: e in es ==> db.last < e.k.seqno
    requires Read(All(db), u, s) == Read(SetOf(db.history), u, s)
    ensures Read(All(db) + SetOf(es), u, s) == Read(SetOf(db.history) + SetOf(es), u, s)
  {
    assert forall e :: e in All(db) ==> e in SetOf(db.history);
    ReadAfterNewerWrites(All(db), SetOf(db.history), SetOf(es), u, s);
  }

  lemma WriteKeepsInv(db: Db, ops: seq<Op>)
    requires Inv(db) && Enabled(db, Write(ops))
    ensures Inv(WriteStep(db, ops))
  {
    hide NewerAbove, SharedOld, LogsCover, ReadsHistory, TablesInOrder, PendingClosed, MemoryFresh, OnlyHistory, SnapshotsInRange;
    StampedEntries(db, ops);
    WriteKeepsMemory(db, ops);
    WriteKeepsLogs(db, ops);
    WriteKeepsPlaces(db, ops);
    WriteKeepsReads(db, ops);
    WriteKeepsRest(db, ops);
  }

  lemma WriteKeepsRest(db: Db, ops: seq<Op>)
    requires TablesInOrder(db) && SnapshotsInRange(db) && PendingClosed(db) && db.logs != []
    ensures var db' := WriteStep(db, ops); TablesInOrder(db') && SnapshotsInRange(db') && PendingClosed(db')
  {
    hide Sound, LevelsInOrder, NumbersUnique, ClosedSelection;
  }

  // ------------------------------------------------------------------ snapshots and picks

  lemma SameReads(db: Db, db': Db)
    requires All(db') == All(db) && db'.history == db.history
    requires forall s :: Readable(db', s) ==> Readable(db, s)
    requires ReadsHistory(db)
    ensures ReadsHistory(db')
  {
  }

  ghost predicate SameData(db: Db, db': Db) {
    && db'.mem == db.mem && db'.imm == db.imm && db'.vs == db.vs.(pointers := db'.vs.pointers) && db'.logs == db.logs
    && db'.last == db.last && db'.reopenedAt == db.reopenedAt && db'.history == db.history
  }

  lemma PointersDoNotMatter(vs: VersionState, pointers: map<nat, InternalKey>)
    requires Sound(vs)
    ensures Sound(vs.(pointers := pointers))
  {
  }

  /** Steps that touch only the snapshots, the compaction in flight and the compact pointers. */
  lemma BookkeepingKeepsInv(db: Db, db': Db)
    requires Inv(db)
    requires SameData(db, db')
    requires forall t :: t in db'.snapshots ==> t in db.snapshots || t == db.last
    requires PendingClosed(db')
    ensures Inv(db')
  {
    hide NewerAbove, SharedOld, Sound, LevelsInOrder, NumbersUnique, ClosedSelection, PendingClosed;
    SameStores(db, db');
    SameReads(db, db');
    PointersDoNotMatter(db.vs, db'.vs.pointers);
  }

  lemma SnapshotStepsKeepInv(db: Db, ev: Event)
    requires Inv(db) && Enabled(db, ev)
    requires ev.TakeSnapshot? || ev.ReleaseSnapshot?
    ensures Inv(After(db, ev))
  {
    hide NewerAbove, SharedOld, LogsCover, Sound, LevelsInOrder, NumbersUnique, ClosedSelection;
    BookkeepingKeepsInv(db, After(db, ev));
  }

  lemma PickKeepsInv(db: Db, level: nat, a: seq<File>, b: seq<File>, s: nat, pointer: InternalKey)
    requires Inv(db) && Enabled(db, Pick(level, a, b, s, pointer))
    ensures Inv(PickStep(db, level, a, b, s, pointer))
  {
    hide NewerAbove, SharedOld, LogsCover, Sound, LevelsInOrder, NumbersUnique, ClosedSelection;
    BookkeepingKeepsInv(db, PickStep(db, level, a, b, s, pointer));
  }

  lemma SameStores(db: Db, db': Db)
    requires SameData(db, db')
    requires forall t :: t in db'.snapshots ==> t in db.snapshots || t == db.last
    requires NewerAbove(db) && SharedOld(db)
    ensures NewerAbove(db') && SharedOld(db')
    ensures All(db') == All(db)
  {
    assert forall p, e :: Stored(db', p, e) <==> Stored(db, p, e);
    forall p, f, e | Stored(db', p, f) && e in All(db') && f.k.user == e.k.user && f.k.seqno <= e.k.seqno
      ensures Covered(db', p, e)
    {
      assert Stored(db, p, f) && e in All(db);
      var q, x :| NoLater(q, p) && Stored(db, q, x) && StandsFor(db, x, e);
      assert Stored(db', q, x) && StandsFor(db', x, e);
    }
  }
}

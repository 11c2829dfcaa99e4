/** Freezing a memtable and flushing it keep the invariant: versions only change places, in order. */
module SafetyFlush {
  import opened Keys
  import opened Files
  import opened Versions
  import opened InputSelection
  import opened Engine
  import opened Invariants

  // ------------------------------------------------------------------ moving a place

  /** Versions of place `from` in `db` are those of place `to` in `db'`; all other places agree. */
  ghost predicate Relocated(db: Db, db': Db, from: Place, to: Place) {
    && from != to
    && (forall e :: !Stored(db, to, e) && !Stored(db', from, e))
    && (forall e :: Stored(db', to, e) <==> Stored(db, from, e))
    && (forall p, e :: p != from && p != to ==> (Stored(db', p, e) <==> Stored(db, p, e)))
  }

  /** The new place is searched after all places the old one was searched after, and before the others. */
  ghost predicate KeepsOrder(db: Db, from: Place, to: Place) {
    && NoLater(from, to)
    && forall p, e :: Stored(db, p, e) && NoLater(from, p) && p != from ==> NoLater(to, p)
  }

  lemma RelocatedAll(db: Db, db': Db, from: Place, to: Place)
    requires Relocated(db, db', from, to)
    ensures All(db') == All(db)
  {
    forall e
      ensures e in All(db') <==> e in All(db)
    {
      AllStored(db, e);
      AllStored(db', e);
      if p :| Stored(db, p, e) {
        assert Stored(db', if p == from then to else p, e);
      }
      if p :| Stored(db', p, e) {
        assert Stored(db, if p == to then from else p, e);
      }
    }
  }

  lemma RelocatedNewerAbove(db: Db, db': Db, from: Place, to: Place, p: Place, f: Entry, e: Entry)
    requires Relocated(db, db', from, to) && KeepsOrder(db, from, to) && NewerAbove(db)
    requires db'.last == db.last && db'.snapshots == db.snapshots
    requires Stored(db', p, f) && e in All(db') && f.k.user == e.k.user && f.k.seqno <= e.k.seqno
    ensures Covered(db', p, e)
  {
    RelocatedAll(db, db', from, to);
    var p0 := if p == to then from else p;
    assert Stored(db, p0, f);
    var q0, x :| NoLater(q0, p0) && Stored(db, q0, x) && StandsFor(db, x, e);
    hide NewerAbove, All, Stored;
    var q := if q0 == from then to else q0;
    assert Stored(db', q, x) && StandsFor(db', x, e);
    assert NoLater(q, p);
  }

  lemma RelocationKeepsPlaces(db: Db, db': Db, from: Place, to: Place)
    requires Relocated(db, db', from, to) && KeepsOrder(db, from, to)
    requires NewerAbove(db) && SharedOld(db) && db'.reopenedAt == db.reopenedAt
    requires db'.last == db.last && db'.snapshots == db.snapshots
    ensures NewerAbove(db') && SharedOld(db') && All(db') == All(db)
  {
    RelocatedAll(db, db', from, to);
    forall p, f, e | Stored(db', p, f) && e in All(db') && f.k.user == e.k.user && f.k.seqno <= e.k.seqno
      ensures Covered(db', p, e)
    {
      RelocatedNewerAbove(db, db', from, to, p, f, e);
    }
    forall p, q, e | Stored(db', p, e) && Stored(db', q, e) && p != q
      ensures e.k.seqno <= db'.reopenedAt
    {
      assert Stored(db, if p == to then from else p, e) && Stored(db, if q == to then from else q, e);
    }
  }

  // ------------------------------------------------------------------ freeze

  lemma FreezeKeepsInv(db: Db)
    requires Inv(db) && Enabled(db, Freeze)
    ensures Inv(FreezeStep(db))
  {
    hide NewerAbove, SharedOld, Sound, LevelsInOrder, NumbersUnique, ClosedSelection;
    var db' := FreezeStep(db);
    FreezeKeepsPlaces(db);
    SameAllReads(db, db');
  }

  lemma FreezeKeepsPlaces(db: Db)
    requires NewerAbove(db) && SharedOld(db) && db.imm == []
    ensures var db' := FreezeStep(db); NewerAbove(db') && SharedOld(db') && All(db') == All(db)
  {
    var db' := FreezeStep(db);
    assert Relocated(db, db', MEM, IMM);
    RelocationKeepsPlaces(db, db', MEM, IMM);
  }

  // ------------------------------------------------------------------ flush

  lemma FilesAtOne(file: File, level: nat, l: nat)
    ensures FilesAt([NewFile(level, file)], l) == if l == level then [file] else []
  {
    assert [NewFile(level, file)][..0] == [];
    assert FilesAt([], l) == [];
  }

  /** `r` is `vs` with one more table on level 0, logged with a log number and a last sequence. */
  ghost predicate Flushed(vs: VersionState, r: VersionState, file: File, logNumber: nat, last: nat) {
    && |vs.core.levels| == |r.core.levels| == NUM_LEVELS
    && r.manifest != []
    && file.number == vs.core.nextFile < r.core.nextFile
    && r.core.logNumber == logNumber && r.core.lastSequence == Max(vs.core.lastSequence, last)
    && (forall f :: f in r.core.levels[0] <==> f in vs.core.levels[0] || f == file)
    && (forall l :: 1 <= l < NUM_LEVELS ==> r.core.levels[l] == vs.core.levels[l])
  }

  lemma FlushEdit(vs: VersionState, file: File, logNumber: nat, last: nat, l: nat)
    ensures var e := Edit(Some(logNumber), None, Some(last), {}, [NewFile(0, file)], map[]);
            DeletedAt(e, l) == {} && FilesAt(e.added, l) == if l == 0 then [file] else []
  {
    FilesAtOne(file, 0, l);
  }

  lemma FlushEffect(vs: VersionState, entries: seq<Entry>, size: nat, logNumber: nat, last: nat)
    requires Sound(vs) && entries != []
    ensures Sound(FlushTable(vs, entries, size, logNumber, last))
    ensures Flushed(vs, FlushTable(vs, entries, size, logNumber, last), TableOf(vs.core.nextFile, size, entries), logNumber, last)
  {
    var number := vs.core.nextFile;
    var file := TableOf(number, size, entries);
    var taken := Step(vs, TakeNumber);
    var e := Edit(Some(logNumber), None, Some(last), {}, [NewFile(0, file)], map[]);
    StepKeepsSound(vs, TakeNumber);
    forall l | 0 <= l < NUM_LEVELS
      ensures DeletedAt(e, l) == {} && FilesAt(e.added, l) == if l == 0 then [file] else []
    {
      FlushEdit(vs, file, logNumber, last, l);
    }
    FlushIsProper(vs, e, file);
    LogEffect(taken, e);
    hide LogAndApply, Sound, Logged, ProperEdit, Flushed;
    LoggedAsFlushed(vs, LogAndApply(taken, e), taken.core, e, file, logNumber, last);
  }

  lemma FlushIsProper(vs: VersionState, e: Edit, file: File)
    requires Sound(vs) && file.number == vs.core.nextFile
    requires e.nextFile.None? && e.added == [NewFile(0, file)]
    requires forall l :: 0 <= l < NUM_LEVELS ==> FilesAt(e.added, l) == if l == 0 then [file] else []
    ensures ProperEdit(Step(vs, TakeNumber), e)
  {
    hide Durable;
  }

  lemma LoggedAsFlushed(vs: VersionState, r: VersionState, c: Core, e: Edit, file: File, logNumber: nat, last: nat)
    requires Logged(c, r.core, e) && r.manifest != []
    requires c == vs.core.(nextFile := vs.core.nextFile + 1) && file.number == vs.core.nextFile
    requires e.logNumber == Some(logNumber) && e.lastSequence == Some(last)
    requires forall l :: 0 <= l < NUM_LEVELS ==> DeletedAt(e, l) == {} && FilesAt(e.added, l) == if l == 0 then [file] else []
    ensures Flushed(vs, r, file, logNumber, last)
  {
    forall l | 0 <= l < NUM_LEVELS
      ensures LevelLogged(vs.core.levels[l], r.core.levels[l], if l == 0 then [file] else [], {})
    {
      assert LevelLogged(c.levels[l], r.core.levels[l], FilesAt(e.added, l), DeletedAt(e, l));
    }
    assert forall l :: 1 <= l < NUM_LEVELS ==> r.core.levels[l] == vs.core.levels[l];
  }

  lemma FlushedTables(vs: VersionState, r: VersionState, file: File, logNumber: nat, last: nat)
    requires Flushed(vs, r, file, logNumber, last) && ValidFile(file)
    requires NumbersBelow(vs.core.levels, vs.core.nextFile) && LevelsKept(r.core.levels)
    requires LevelsInOrder(vs.core.levels) && NumbersUnique(vs.core.levels)
    ensures LevelsInOrder(r.core.levels) && NumbersUnique(r.core.levels)
  {
    var levels, levels' := vs.core.levels, r.core.levels;
    forall i | 0 <= i < |levels'[0]|
      ensures ValidFile(levels'[0][i])
    {
      assert levels'[0][i] in levels'[0];
    }
    assert ValidFiles(levels'[0]);
    forall l, m, f: File, g: File | 0 <= l < m < |levels'| && f in levels'[l] && g in levels'[m]
      ensures f.number != g.number
    {
      assert levels'[m] == levels[m];
      if l == 0 && f == file {
        NumberTaken(levels, vs.core.nextFile, m, g);
      }
    }
  }

  // A flush of `db`, seen from outside: only imm and the version set change.

  ghost predicate FlushedDb(db: Db, db': Db, file: File) {
    && db'.mem == db.mem && db'.imm == [] && db'.logs == db.logs && db'.last == db.last
    && db'.snapshots == db.snapshots && db'.pending == db.pending && db'.reopenedAt == db.reopenedAt
    && db'.history == db.history && db.logs != []
    && file.entries == db.imm && db.imm != []
    && Flushed(db.vs, db'.vs, file, CurrentLog(db).number, db.last)
  }

  lemma FlushStores(db: Db, db': Db, file: File, p: Place, e: Entry)
    requires FlushedDb(db, db', file)
    requires NumbersBelow(db.Levels(), db.vs.core.nextFile)
    ensures Stored(db', p, e) <==>
              if p == IMM then false else if p == Place(0, file.number) then e in db.imm else Stored(db, p, e)
    ensures Stored(db, p, e) && p.level == 0 ==> p.number < file.number
  {
    if p.level == 0 {
      assert file in db'.Levels()[0];
      forall f | f in db.Levels()[0]
        ensures f.number < file.number
      {
        NumberTaken(db.Levels(), db.vs.core.nextFile, 0, f);
      }
    }
  }

  lemma FlushKeepsPlaces(db: Db, db': Db, file: File)
    requires FlushedDb(db, db', file)
    requires NumbersBelow(db.Levels(), db.vs.core.nextFile)
    requires NewerAbove(db) && SharedOld(db)
    ensures NewerAbove(db') && SharedOld(db') && All(db') == All(db)
  {
    FlushRelocates(db, db', file);
    RelocationKeepsPlaces(db, db', IMM, Place(0, file.number));
  }

  lemma FlushRelocates(db: Db, db': Db, file: File)
    requires FlushedDb(db, db', file)
    requires NumbersBelow(db.Levels(), db.vs.core.nextFile)
    ensures Relocated(db, db', IMM, Place(0, file.number)) && KeepsOrder(db, IMM, Place(0, file.number))
  {
    forall p, e
      ensures Stored(db', p, e) <==>
                if p == IMM then false else if p == Place(0, file.number) then e in db.imm else Stored(db, p, e)
      ensures Stored(db, p, e) && p.level == 0 ==> p.number < file.number
    {
      FlushStores(db, db', file, p, e);
    }
  }

  lemma FlushKeepsLogs(db: Db, db': Db, file: File)
    requires FlushedDb(db, db', file) && LogsCover(db)
    ensures LogsCover(db')
  {
    assert CurrentLog(db') == CurrentLog(db);
    forall i | 0 <= i < |db'.logs| - 1
      ensures db'.logs[i].number < db'.vs.core.logNumber
    {
      assert db.logs[i].number < db.vs.core.logNumber;
    }
  }

  /** The flushed table holds only newer versions than any table. */
  lemma FlushedIsNewer(db: Db, file: File, l: nat, x: File)
    requires MemoryNewer(db)
    requires file.entries == db.imm && l < |db.Levels()| && x in db.Levels()[l]
    ensures OnlyNewer(file, x)
  {
    forall e, y | e in file.entries && y in x.entries && e.k.user == y.k.user
      ensures Less(e.k, y.k)
    {
      assert y in TableEntries(db.Levels());
    }
  }

  lemma FlushKeepsMemory(db: Db, db': Db, file: File)
    requires FlushedDb(db, db', file) && MemoryFresh(db)
    ensures MemoryFresh(db')
  {
    forall y | y in TableEntries(db'.Levels())
      ensures y in TableEntries(db.Levels()) || y in db.imm
    {
      var l, f :| 0 <= l < |db'.Levels()| && f in db'.Levels()[l] && y in f.entries;
      if l > 0 {
        assert db'.Levels()[l] == db.Levels()[l];
      }
    }
  }

  lemma FlushKeepsPending(db: Db, db': Db, file: File)
    requires FlushedDb(db, db', file) && PendingClosed(db)
    requires MemoryNewer(db)
    ensures PendingClosed(db')
  {
    if db.pending.Some? {
      var p := db.pending.value;
      FlushKeepsSelection(db, db', file, p.level, p.a, p.b);
      assert db'.Levels()[p.level + 2..] == db.Levels()[p.level + 2..];
    }
  }

  lemma FlushKeepsSelection(db: Db, db': Db, file: File, level: nat, a: seq<File>, b: seq<File>)
    requires FlushedDb(db, db', file) && level + 1 < NUM_LEVELS
    requires MemoryNewer(db)
    requires ClosedSelection(db.Levels(), level, a, b)
    ensures ClosedSelection(db'.Levels(), level, a, b)
  {
    hide MemoryNewer, OnlyNewer;
    forall f | f in db'.Levels()[level] && f !in a
      ensures OnlyNewerThanAll(f, a)
    {
      if f !in db.Levels()[level] {
        forall x | x in a ensures OnlyNewer(f, x) {
          FlushedIsNewer(db, file, level, x);
        }
      }
    }
    assert db'.Levels()[level + 1] == db.Levels()[level + 1];
  }

  lemma FlushIsFlushedDb(db: Db, size: nat)
    requires Inv(db) && Enabled(db, Flush(size))
    ensures FlushedDb(db, FlushStep(db, size), TableOf(db.vs.core.nextFile, size, db.imm))
    ensures Sound(FlushStep(db, size).vs)
  {
    hide NewerAbove, SharedOld, LogsCover, PendingClosed, ReadsHistory, LevelsInOrder, NumbersUnique;
    FlushEffect(db.vs, db.imm, size, CurrentLog(db).number, db.last);
    hide FlushTable;
  }

  lemma FlushedDbKeepsInv(db: Db, db': Db, file: File)
    requires Inv(db) && FlushedDb(db, db', file) && ValidFile(file) && Sound(db'.vs)
    ensures Inv(db')
  {
    hide NewerAbove, SharedOld, LogsCover, PendingClosed, Sound, LevelsInOrder, LevelsKept, NumbersUnique, NumbersBelow, ReadsHistory, Flushed;
    SoundNumbers(db.vs);
    SoundNumbers(db'.vs);
    FlushKeepsPlaces(db, db', file);
    FlushKeepsLogs(db, db', file);
    FlushKeepsMemory(db, db', file);
    FlushKeepsPending(db, db', file);
    FlushedTables(db.vs, db'.vs, file, CurrentLog(db).number, db.last);
    SameAllReads(db, db');
  }

  lemma FlushKeepsInv(db: Db, size: nat)
    requires Inv(db) && Enabled(db, Flush(size))
    ensures Inv(FlushStep(db, size))
  {
    FlushIsFlushedDb(db, size);
    hide NewerAbove, SharedOld, LogsCover, PendingClosed, Sound, LevelsInOrder, NumbersUnique, FlushStep;
    FlushedDbKeepsInv(db, FlushStep(db, size), TableOf(db.vs.core.nextFile, size, db.imm));
  }
}

/** Trivial moves and installed compactions keep the invariant. */
module SafetyCompaction {
  import opened Keys
  import opened Files
  import opened Runs
  import opened Visibility
  import opened Versions
  import opened CompactionWork
  import opened InputSelection
  import opened Engine
  import opened Invariants
  import opened SafetyRewrite
  import opened SafetyMemory

  // ------------------------------------------------------------------ the common frame

  lemma FileStaysIn(levels: seq<seq<File>>, levels': seq<seq<File>>, level: nat, a: seq<File>, b: seq<File>, outs: seq<File>, l: nat, f: File)
    requires LevelsRewritten(levels, levels', level, a, b, outs) && l < NUM_LEVELS && f in levels'[l]
    ensures f in levels[l] || f in outs
  {
  }

  lemma InputEntries(levels: seq<seq<File>>, level: nat, a: seq<File>, b: seq<File>, y: Entry)
    requires level + 1 < |levels| && ClosedSelection(levels, level, a, b) && InFiles(a + b, y)
    ensures y in TableEntries(levels)
  {
    var g :| g in a + b && y in g.entries;
    assert g in levels[level] || g in levels[level + 1];
  }

  lemma RewriteTables(levels: seq<seq<File>>, levels': seq<seq<File>>, level: nat, a: seq<File>, b: seq<File>, outs: seq<File>)
    requires LevelsRewritten(levels, levels', level, a, b, outs) && ClosedSelection(levels, level, a, b)
    requires forall e :: InFiles(outs, e) ==> InFiles(a + b, e)
    ensures TableEntries(levels') <= TableEntries(levels)
  {
    assert |levels| == |levels'| == NUM_LEVELS && level + 1 < NUM_LEVELS;
    hide LevelsRewritten, ClosedSelection;
    forall y | y in TableEntries(levels')
      ensures y in TableEntries(levels)
    {
      var l: nat, f :| l < |levels'| && f in levels'[l] && y in f.entries;
      FileStaysIn(levels, levels', level, a, b, outs, l, f);
      if f in outs {
        assert InFiles(outs, y);
        InputEntries(levels, level, a, b, y);
      }
    }
  }

  lemma RewriteKeepsMemory(db: Db, db': Db, level: nat, a: seq<File>, b: seq<File>, outs: seq<File>)
    requires Rewritten(db, db', level, a, b, outs) && ProperOutputs(db, level, a, b, outs)
    requires ClosedSelection(db.Levels(), level, a, b)
    requires MemoryFresh(db)
    ensures MemoryFresh(db')
  {
    hide LevelsRewritten, ClosedSelection, HidesOlder, DroppedAreHidden, ValidFiles, TableEntries;
    RewriteTables(db.Levels(), db'.Levels(), level, a, b, outs);
  }

  lemma RewriteKeepsLogs(db: Db, db': Db, level: nat, a: seq<File>, b: seq<File>, outs: seq<File>)
    requires Rewritten(db, db', level, a, b, outs) && LogsCover(db)
    ensures LogsCover(db')
  {
    assert CurrentLog(db') == CurrentLog(db);
    forall i | 0 <= i < |db'.logs| - 1
      ensures db'.logs[i].number < db'.vs.core.logNumber
    {
      assert db.logs[i].number < db.vs.core.logNumber;
    }
  }

  lemma RewriteKeepsInv(db: Db, db': Db, level: nat, a: seq<File>, b: seq<File>, outs: seq<File>)
    requires Inv(db) && Rewritten(db, db', level, a, b, outs)
    requires ClosedSelection(db.Levels(), level, a, b)
    requires ProperOutputs(db, level, a, b, outs) && Disjoint(outs)
    requires Sound(db'.vs) && NumbersUnique(db'.Levels()) && ReadsHistory(db')
    ensures Inv(db')
  {
    hide NewerAbove, SharedOld, LogsCover, PendingClosed, Sound, LevelsInOrder, LevelsKept, NumbersUnique, NumbersBelow,
      ReadsHistory, ClosedSelection, HidesOlder, DroppedAreHidden, LevelsRewritten, MemoryFresh;
    SoundNumbers(db.vs);
    SoundNumbers(db'.vs);
    RewriteKeepsNewerAbove(db, db', level, a, b, outs);
    RewriteKeepsShared(db, db', level, a, b, outs);
    RewriteKeepsDisjoint(db.Levels(), db'.Levels(), level, a, b, outs);
    RewriteKeepsMemory(db, db', level, a, b, outs);
    RewriteKeepsLogs(db, db', level, a, b, outs);
    RewriteAll(db, db', level, a, b, outs);
    NoPending(db');
  }

  lemma NoPending(db: Db)
    requires db.pending == None
    ensures PendingClosed(db)
  {
  }

  lemma NumbersStayUnique(levels: seq<seq<File>>, levels': seq<seq<File>>, level: nat, a: seq<File>, b: seq<File>, outs: seq<File>)
    requires LevelsRewritten(levels, levels', level, a, b, outs) && NumbersUnique(levels)
    requires forall l, f, o :: 0 <= l < NUM_LEVELS && l != level + 1 && f in levels'[l] && o in outs ==> f.number != o.number
    ensures NumbersUnique(levels')
  {
    forall l, m, f: File, g: File | 0 <= l < m < |levels'| && f in levels'[l] && g in levels'[m]
      ensures f.number != g.number
    {
      assert f in levels[l] || (l == level + 1 && f in outs);
      assert g in levels[m] || (m == level + 1 && g in outs);
    }
  }

  // ------------------------------------------------------------------ trivial move

  lemma MoveEditEffect(level: nat, file: File, pointer: InternalKey, l: nat)
    ensures var e := MoveEdit(level, file, pointer);
            && FilesAt(e.added, l) == (if l == level + 1 then [file] else [])
            && DeletedAt(e, l) == (if l == level then {file.number} else {})
  {
    var e := MoveEdit(level, file, pointer);
    assert e.added[..0] == [];
    assert FilesAt([], l) == [];
  }

  lemma MoveIsProper(vs: VersionState, level: nat, file: File, pointer: InternalKey)
    requires Sound(vs) && NumbersUnique(vs.core.levels) && level + 1 < NUM_LEVELS && file in vs.core.levels[level]
    ensures ProperEdit(vs, MoveEdit(level, file, pointer))
  {
    hide Durable;
    forall l | 0 <= l < NUM_LEVELS
      ensures NoClash(vs.core.levels[l], FilesAt(MoveEdit(level, file, pointer).added, l), DeletedAt(MoveEdit(level, file, pointer), l))
    {
      MoveEditEffect(level, file, pointer, l);
    }
  }

  lemma MoveRewrites(vs: VersionState, level: nat, file: File, pointer: InternalKey)
    requires Sound(vs) && NumbersUnique(vs.core.levels) && level + 1 < NUM_LEVELS && file in vs.core.levels[level]
    ensures var r := LogAndApply(vs, MoveEdit(level, file, pointer));
            && Sound(r) && r.manifest != []
            && r.core.logNumber == vs.core.logNumber && r.core.lastSequence == vs.core.lastSequence
            && LevelsRewritten(vs.core.levels, r.core.levels, level, [file], [], [file])
            && NumbersUnique(r.core.levels)
  {
    var e := MoveEdit(level, file, pointer);
    MoveIsProper(vs, level, file, pointer);
    LogEffect(vs, e);
    hide LogAndApply, ProperEdit;
    var r := LogAndApply(vs, e);
    forall l | 0 <= l < NUM_LEVELS
      ensures LevelLogged(vs.core.levels[l], r.core.levels[l], if l == level + 1 then [file] else [], if l == level then {file.number} else {})
    {
      MoveEditEffect(level, file, pointer, l);
    }
    MoveLevels(vs.core.levels, r.core.levels, level, file);
    SoundNumbers(vs);
    SoundNumbers(r);
    NumbersStayUnique(vs.core.levels, r.core.levels, level, [file], [], [file]);
  }

  lemma MoveLevels(levels: seq<seq<File>>, levels': seq<seq<File>>, level: nat, file: File)
    requires |levels| == |levels'| == NUM_LEVELS && level + 1 < NUM_LEVELS && file in levels[level]
    requires DistinctNumbers(levels[level]) && NumbersUnique(levels)
    requires forall l :: 0 <= l < NUM_LEVELS ==>
      LevelLogged(levels[l], levels'[l], if l == level + 1 then [file] else [], if l == level then {file.number} else {})
    ensures LevelsRewritten(levels, levels', level, [file], [], [file])
    ensures forall l, f :: 0 <= l < NUM_LEVELS && l != level + 1 && f in levels'[l] ==> f.number != file.number
  {
    forall l | 0 <= l < NUM_LEVELS && l != level && l != level + 1
      ensures levels'[l] == levels[l]
    {
      assert LevelLogged(levels[l], levels'[l], [], {});
    }
    assert LevelLogged(levels[level], levels'[level], [], {file.number});
    assert LevelLogged(levels[level + 1], levels'[level + 1], [file], {});
    forall l, f | 0 <= l < NUM_LEVELS && l != level + 1 && f in levels'[l]
      ensures f.number != file.number
    {
      if l != level {
        assert f in levels[l];
      }
    }
  }

  /** A moved file keeps all its versions, so nothing is dropped. */
  lemma MoveIsProperOutput(db: Db, level: nat, file: File)
    requires ValidFile(file)
    ensures ProperOutputs(db, level, [file], [], [file]) && Disjoint([file])
  {
    assert [file] + [] == [file];
  }

  lemma MovedFile(levels: seq<seq<File>>, levels': seq<seq<File>>, level: nat, file: File, l: nat, f: File)
    requires LevelsRewritten(levels, levels', level, [file], [], [file]) && l < NUM_LEVELS
    ensures f != file ==> (f in levels'[l] <==> f in levels[l])
  {
    if l == level {
      assert f in levels'[level] <==> f in levels[level] && f !in [file];
    } else if l == level + 1 {
      assert f in levels'[level + 1] <==> (f in levels[level + 1] && f !in []) || f in [file];
    } else {
      assert levels'[l] == levels[l];
    }
  }

  lemma MoveAll(db: Db, db': Db, level: nat, file: File)
    requires Rewritten(db, db', level, [file], [], [file])
    requires file in db.Levels()[level]
    ensures All(db') == All(db)
  {
    assert file in [file];
    assert file in db'.Levels()[level + 1];
    forall e
      ensures e in TableEntries(db'.Levels()) <==> e in TableEntries(db.Levels())
    {
      if e in TableEntries(db.Levels()) {
        var l, f :| 0 <= l < |db.Levels()| && f in db.Levels()[l] && e in f.entries;
        MovedFile(db.Levels(), db'.Levels(), level, file, l, f);
      }
      if e in TableEntries(db'.Levels()) {
        var l, f :| 0 <= l < |db'.Levels()| && f in db'.Levels()[l] && e in f.entries;
        MovedFile(db.Levels(), db'.Levels(), level, file, l, f);
      }
    }
  }

  lemma MoveIsRewrite(db: Db, level: nat, file: File, pointer: InternalKey)
    requires |db.Levels()| == NUM_LEVELS && level + 1 < NUM_LEVELS && file in db.Levels()[level] && db.pending == None
    requires Sound(db.vs) && NumbersUnique(db.Levels())
    ensures var db' := MoveStep(db, level, file, pointer);
            Rewritten(db, db', level, [file], [], [file]) && Sound(db'.vs) && NumbersUnique(db'.Levels())
  {
    hide Sound, NumbersUnique, LevelsRewritten, LogAndApply;
    PointersDoNotMatter(db.vs, PointAt(db.vs, level, pointer).pointers);
    MoveRewrites(PointAt(db.vs, level, pointer), level, file, pointer);
  }

  lemma MoveKeepsInv(db: Db, level: nat, file: File, pointer: InternalKey)
    requires Inv(db) && Enabled(db, Move(level, file, pointer))
    ensures Inv(MoveStep(db, level, file, pointer))
  {
    hide NewerAbove, SharedOld, LogsCover, PendingClosed, Sound, LevelsKept, NumbersUnique, NumbersBelow, ReadsHistory, MoveStep, Rewritten;
    var db' := MoveStep(db, level, file, pointer);
    assert file in [file];
    assert file in db.Levels()[level];
    MoveIsRewrite(db, level, file, pointer);
    MoveIsProperOutput(db, level, file);
    MoveAll(db, db', level, file);
    MovedReads(db, db', level, file);
    hide *;
    RewriteKeepsInv(db, db', level, [file], [], [file]);
  }

  lemma MovedReads(db: Db, db': Db, level: nat, file: File)
    requires Rewritten(db, db', level, [file], [], [file]) && All(db') == All(db) && ReadsHistory(db)
    ensures ReadsHistory(db')
  {
    SameAllReads(db, db');
  }

  // ------------------------------------------------------------------ installing a compaction: its edit

  lemma InstallEditEffect(p: Pending, files: seq<File>, l: nat)
    ensures var e := InstallEdit(p, files);
            && FilesAt(e.added, l) == (if l == p.level + 1 then files else [])
            && (forall n :: n in DeletedAt(e, l) <==>
                  (l == p.level && HasNumber(p.a, n)) || (l == p.level + 1 && HasNumber(p.b, n) && !HasNumber(files, n)))
  {
    var e := InstallEdit(p, files);
    FilesAtTagged(files, p.level + 1, l);
    forall n
      ensures n in DeletedAt(e, l) <==>
                (l == p.level && HasNumber(p.a, n)) || (l == p.level + 1 && HasNumber(p.b, n) && !HasNumber(files, n))
    {
      InputIsDeleted(p, l, n);
    }
  }

  ghost predicate HasNumber(files: seq<File>, n: nat) {
    exists f :: f in files && f.number == n
  }

  lemma InputIsDeleted(p: Pending, l: nat, n: nat)
    ensures DeletedFile(l, n) in InputDeletions(p) <==> (l == p.level && HasNumber(p.a, n)) || (l == p.level + 1 && HasNumber(p.b, n))
  {
  }

  ghost predicate NumbersFrom(files: seq<File>, first: nat) {
    DistinctNumbers(files) && forall f :: f in files ==> first <= f.number < first + |files|
  }

  lemma OutputNumbers(outputs: seq<Output>, sizes: seq<nat>, number: nat)
    requires |sizes| == |outputs|
    ensures NumbersFrom(OutputFiles(outputs, sizes, number), number)
  {
    var files := OutputFiles(outputs, sizes, number);
    forall f | f in files
      ensures number <= f.number < number + |files|
    {
      var i :| 0 <= i < |files| && files[i] == f;
    }
  }

  lemma ReserveSound(vs: VersionState, n: nat)
    requires Sound(vs)
    ensures Sound(Reserve(vs, n))
  {
  }

  lemma InstallIsProper(vs: VersionState, p: Pending, files: seq<File>)
    requires Sound(vs) && NumbersFrom(files, vs.core.nextFile)
    ensures ProperEdit(Reserve(vs, |files|), InstallEdit(p, files))
  {
    SoundNumbers(vs);
    hide Sound;
    var e := InstallEdit(p, files);
    forall i | 0 <= i < |e.added|
      ensures e.added[i].file.number < vs.core.nextFile + |files|
    {
      assert files[i] in files;
    }
    forall l | 0 <= l < NUM_LEVELS
      ensures NoClash(vs.core.levels[l], FilesAt(e.added, l), DeletedAt(e, l))
    {
      InstallEditEffect(p, files, l);
    }
  }

  lemma InstallLevels(levels: seq<seq<File>>, levels': seq<seq<File>>, p: Pending, files: seq<File>, next: nat)
    requires |levels| == |levels'| == NUM_LEVELS && p.level + 1 < NUM_LEVELS
    requires ClosedSelection(levels, p.level, p.a, p.b) && LevelsKept(levels)
    requires NumbersBelow(levels, next) && NumbersFrom(files, next)
    requires forall l :: 0 <= l < NUM_LEVELS ==>
      LevelLogged(levels[l], levels'[l], FilesAt(InstallEdit(p, files).added, l), DeletedAt(InstallEdit(p, files), l))
    ensures LevelsRewritten(levels, levels', p.level, p.a, p.b, files)
  {
    hide ClosedSelection;
    forall l | 0 <= l < NUM_LEVELS && l != p.level && l != p.level + 1
      ensures levels'[l] == levels[l]
    {
      InstallEditEffect(p, files, l);
      assert DeletedAt(InstallEdit(p, files), l) == {};
    }
    InstallUpper(levels, levels', p, files);
    InstallLower(levels, levels', p, files, next);
  }

  lemma InstallUpper(levels: seq<seq<File>>, levels': seq<seq<File>>, p: Pending, files: seq<File>)
    requires |levels| == |levels'| == NUM_LEVELS && p.level + 1 < NUM_LEVELS
    requires ClosedSelection(levels, p.level, p.a, p.b) && DistinctNumbers(levels[p.level])
    requires LevelLogged(levels[p.level], levels'[p.level], FilesAt(InstallEdit(p, files).added, p.level), DeletedAt(InstallEdit(p, files), p.level))
    ensures forall f :: f in levels'[p.level] <==> f in levels[p.level] && f !in p.a
  {
    InstallEditEffect(p, files, p.level);
    forall f | f in levels[p.level]
      ensures f.number in DeletedAt(InstallEdit(p, files), p.level) <==> f in p.a
    {
      SameNumberSameFile(levels[p.level], p.a, f);
    }
  }

  lemma InstallLower(levels: seq<seq<File>>, levels': seq<seq<File>>, p: Pending, files: seq<File>, next: nat)
    requires |levels| == |levels'| == NUM_LEVELS && p.level + 1 < NUM_LEVELS
    requires ClosedSelection(levels, p.level, p.a, p.b) && DistinctNumbers(levels[p.level + 1])
    requires NumbersBelow(levels, next) && NumbersFrom(files, next)
    requires LevelLogged(levels[p.level + 1], levels'[p.level + 1],
                         FilesAt(InstallEdit(p, files).added, p.level + 1), DeletedAt(InstallEdit(p, files), p.level + 1))
    ensures forall f :: f in levels'[p.level + 1] <==> (f in levels[p.level + 1] && f !in p.b) || f in files
  {
    assert forall f :: f in p.b ==> f in levels[p.level + 1];
    hide ClosedSelection, InstallEdit, FilesAt, DeletedAt, HasNumber;
    InstallEditEffect(p, files, p.level + 1);
    forall f | f in levels[p.level + 1]
      ensures f.number in DeletedAt(InstallEdit(p, files), p.level + 1) <==> f in p.b
    {
      hide DistinctNumbers, NumbersBelow, NumbersFrom, LevelLogged;
      SameNumberSameFile(levels[p.level + 1], p.b, f);
      NumberTaken(levels, next, p.level + 1, f);
      NumberIsNew(files, next, f.number);
    }
    hide DistinctNumbers, NumbersBelow, NumbersFrom;
  }

  lemma NumberIsNew(files: seq<File>, next: nat, n: nat)
    requires NumbersFrom(files, next) && n < next
    ensures !HasNumber(files, n)
  {
  }

  lemma SameNumberSameFile(files: seq<File>, some: seq<File>, f: File)
    requires DistinctNumbers(files) && f in files
    requires forall g :: g in some ==> g in files
    ensures f in some <==> HasNumber(some, f.number)
  {
  }

  lemma InstallRewrites(vs: VersionState, p: Pending, files: seq<File>)
    requires Sound(vs) && NumbersUnique(vs.core.levels) && p.level + 1 < NUM_LEVELS
    requires ClosedSelection(vs.core.levels, p.level, p.a, p.b)
    requires NumbersFrom(files, vs.core.nextFile)
    ensures var r := LogAndApply(Reserve(vs, |files|), InstallEdit(p, files));
            && Sound(r) && r.manifest != []
            && r.core.logNumber == vs.core.logNumber && r.core.lastSequence == vs.core.lastSequence
            && LevelsRewritten(vs.core.levels, r.core.levels, p.level, p.a, p.b, files)
            && NumbersUnique(r.core.levels)
  {
    hide ClosedSelection, NumbersUnique;
    var reserved, e := Reserve(vs, |files|), InstallEdit(p, files);
    ReserveSound(vs, |files|);
    InstallIsProper(vs, p, files);
    LogEffect(reserved, e);
    SoundNumbers(vs);
    var r := LogAndApply(reserved, e);
    hide LogAndApply, ProperEdit, Sound, NumbersFrom, LevelsKept, LevelLogged;
    InstallLevels(vs.core.levels, r.core.levels, p, files, vs.core.nextFile);
    OutputsAreNew(vs.core.levels, r.core.levels, p, files, vs.core.nextFile);
    NumbersStayUnique(vs.core.levels, r.core.levels, p.level, p.a, p.b, files);
  }

  lemma OutputsAreNew(levels: seq<seq<File>>, levels': seq<seq<File>>, p: Pending, files: seq<File>, next: nat)
    requires LevelsRewritten(levels, levels', p.level, p.a, p.b, files)
    requires NumbersBelow(levels, next) && NumbersFrom(files, next)
    ensures forall l, f, o :: 0 <= l < NUM_LEVELS && l != p.level + 1 && f in levels'[l] && o in files ==> f.number != o.number
  {
    forall l, f, o | 0 <= l < NUM_LEVELS && l != p.level + 1 && f in levels'[l] && o in files
      ensures f.number != o.number
    {
      assert l != p.level ==> levels'[l] == levels[l];
      NumberTaken(levels, next, l, f);
    }
  }

  // ------------------------------------------------------------------ installing a compaction: its outputs

  /** The merged input of a compaction in flight. */
  function Input(p: Pending): seq<Entry> {
    MergeRuns(p.a + p.b)
  }

  lemma InputFilesShare(db: Db, p: Pending, i: nat, j: nat)
    requires HistoryInOrder(db) && OnlyHistory(db) && SharedOld(db) && NumbersUnique(db.Levels())
    requires p.level + 1 < |db.Levels()| && ClosedSelection(db.Levels(), p.level, p.a, p.b)
    requires i < j < |p.a + p.b|
    requires db.reopenedAt <= p.smallestSnapshot
    ensures SharedUpTo((p.a + p.b)[i].entries, (p.a + p.b)[j].entries, p.smallestSnapshot)
  {
    var f, g := (p.a + p.b)[i], (p.a + p.b)[j];
    var lf := if i < |p.a| then p.level else p.level + 1;
    var lg := if j < |p.a| then p.level else p.level + 1;
    assert f in (if i < |p.a| then p.a else p.b) && g in (if j < |p.a| then p.a else p.b);
    assert f in db.Levels()[lf] && g in db.Levels()[lg];
    assert Place(lf, f.number) != Place(lg, g.number);
    hide ClosedSelection, NumbersUnique, SharedOld, HistoryInOrder, OnlyHistory;
    forall x, y | x in f.entries && y in g.entries && x.k == y.k
      ensures x.k.seqno <= p.smallestSnapshot
    {
      assert Stored(db, Place(lf, f.number), x) && Stored(db, Place(lg, g.number), y);
      SameVersionTwice(db, Place(lf, f.number), Place(lg, g.number), x, y);
    }
  }

  lemma SameVersionTwice(db: Db, p: Place, q: Place, x: Entry, y: Entry)
    requires HistoryInOrder(db) && OnlyHistory(db) && SharedOld(db)
    requires Stored(db, p, x) && Stored(db, q, y) && p != q && x.k == y.k
    ensures x.k.seqno <= db.reopenedAt
  {
    StoredIsHistory(db, p, x);
    StoredIsHistory(db, q, y);
  }

  lemma InputsValid(levels: seq<seq<File>>, p: Pending)
    requires LevelsInOrder(levels) && p.level + 1 < NUM_LEVELS
    requires ClosedSelection(levels, p.level, p.a, p.b)
    ensures ValidFiles(p.a + p.b)
  {
    forall i | 0 <= i < |p.a + p.b|
      ensures ValidFile((p.a + p.b)[i])
    {
      var f := (p.a + p.b)[i];
      assert f in p.a || f in p.b;
      assert f in levels[p.level] || f in levels[p.level + 1];
    }
  }

  lemma InputSorted(db: Db, p: Pending)
    requires HistoryInOrder(db) && OnlyHistory(db) && SharedOld(db) && NumbersUnique(db.Levels())
    requires LevelsInOrder(db.Levels())
    requires p.level + 1 < |db.Levels()| && ClosedSelection(db.Levels(), p.level, p.a, p.b)
    requires db.reopenedAt <= p.smallestSnapshot
    ensures WeaklySorted(Input(p)) && RepeatsUpTo(Input(p), p.smallestSnapshot)
  {
    InputsValid(db.Levels(), p);
    forall i, j | 0 <= i < j < |p.a + p.b|
      ensures SharedUpTo((p.a + p.b)[i].entries, (p.a + p.b)[j].entries, p.smallestSnapshot)
    {
      InputFilesShare(db, p, i, j);
    }
    MergeRunsSorted(p.a + p.b, p.smallestSnapshot);
  }

  lemma InputIsHistory(db: Db, p: Pending)
    requires OnlyHistory(db)
    requires p.level + 1 < |db.Levels()| && ClosedSelection(db.Levels(), p.level, p.a, p.b)
    ensures SetOf(Input(p)) <= TableEntries(db.Levels()) <= SetOf(db.history)
  {
    forall e | e in Input(p)
      ensures e in TableEntries(db.Levels())
    {
      MergeRunsMembers(p.a + p.b, e);
      var f :| f in p.a + p.b && e in f.entries;
      assert f in db.Levels()[p.level] || f in db.Levels()[p.level + 1];
    }
  }

  lemma OutFilesMembers(outputs: seq<Output>, sizes: seq<nat>, number: nat, e: Entry)
    requires |sizes| == |outputs|
    ensures InFiles(OutputFiles(outputs, sizes, number), e) <==> e in Concat(outputs)
  {
    var files := OutputFiles(outputs, sizes, number);
    ConcatMembers(outputs, e);
    if InFiles(files, e) {
      var f :| f in files && e in f.entries;
      var i :| 0 <= i < |files| && files[i] == f;
      assert e in outputs[i].entries;
    }
    if i :| 0 <= i < |outputs| && e in outputs[i].entries {
      assert files[i] in files && e in files[i].entries;
    }
  }

  lemma OutputOrder(o: Output, q: Output)
    requires ValidOutput(o) && ValidOutput(q) && AllBefore(o.entries, q.entries)
    ensures Less(o.largest, q.smallest)
    ensures forall e :: e in o.entries ==> e !in q.entries
  {
    assert o.entries[|o.entries| - 1] in o.entries && q.entries[0] in q.entries;
  }

  lemma {:induction false} OutFilesValid(outputs: seq<Output>, sizes: seq<nat>, number: nat)
    requires |sizes| == |outputs|
    requires forall i :: 0 <= i < |outputs| ==> ValidOutput(outputs[i])
    requires Sorted(Concat(outputs))
    ensures ValidFiles(OutputFiles(outputs, sizes, number)) && Disjoint(OutputFiles(outputs, sizes, number))
    ensures forall i, j, e :: 0 <= i < j < |outputs| && e in OutputFiles(outputs, sizes, number)[i].entries
              ==> e !in OutputFiles(outputs, sizes, number)[j].entries
  {
    ConcatSorted(outputs);
    var files := OutputFiles(outputs, sizes, number);
    assert forall i :: 0 <= i < |files| ==> files[i].entries == outputs[i].entries && files[i].smallest == outputs[i].smallest
                                            && files[i].largest == outputs[i].largest;
    hide OutputFiles, AllBefore;
    assert ValidFiles(files);
    hide ValidOutput;
    forall i, j | 0 <= i < j < |files|
      ensures Less(files[i].largest, files[j].smallest)
      ensures forall e :: e in files[i].entries ==> e !in files[j].entries
    {
      OutputOrder(outputs[i], outputs[j]);
    }
  }

  lemma BaseOfDeeper(levels: seq<seq<File>>, level: nat, u: UserKey)
    requires level + 2 <= |levels|
    ensures BaseLevel(levels[level + 2..], u) <==> !CoveredDeeper(levels, level, u)
  {
    var deeper := levels[level + 2..];
    if l :| 0 <= l < |deeper| && Covers(deeper[l], u) {
      assert Covers(levels[level + 2 + l], u);
    }
    if l :| level + 2 <= l < |levels| && Covers(levels[l], u) {
      assert Covers(deeper[l - (level + 2)], u);
    }
  }

  lemma OutputsHideOlder(p: Pending, files: seq<File>)
    requires WeaklySorted(Input(p)) && Consistent(SetOf(Input(p))) && p.smallestSnapshot < MAX_SEQUENCE
    requires forall e :: InFiles(files, e) <==> e in Kept(Input(p), |Input(p)|, p.smallestSnapshot, p.deeper)
    ensures HidesOlder(p.a + p.b, files)
    ensures forall e :: InFiles(files, e) ==> InFiles(p.a + p.b, e)
  {
    var input := Input(p);
    forall e | InFiles(files, e)
      ensures InFiles(p.a + p.b, e)
    {
      KeptMembers(input, |input|, p.smallestSnapshot, p.deeper, e);
      MergeRunsMembers(p.a + p.b, e);
    }
    forall x, f | InFiles(p.a + p.b, x) && InFiles(files, f) && f.k.user == x.k.user && f.k.seqno <= x.k.seqno
      ensures InFiles(files, x)
    {
      MergeRunsMembers(p.a + p.b, x);
      KeptMembers(input, |input|, p.smallestSnapshot, p.deeper, f);
      if !InFiles(files, x) {
        DroppedHidesOlder(input, p.smallestSnapshot, p.deeper, x, f);
      }
    }
  }

  lemma OutputsHideDropped(db: Db, p: Pending, files: seq<File>)
    requires WeaklySorted(Input(p)) && p.smallestSnapshot < MAX_SEQUENCE
    requires p.level + 2 <= |db.Levels()| && p.deeper == db.Levels()[p.level + 2..]
    requires p.smallestSnapshot <= db.last && forall t :: t in db.snapshots ==> p.smallestSnapshot <= t
    requires forall e :: InFiles(files, e) <==> e in Kept(Input(p), |Input(p)|, p.smallestSnapshot, p.deeper)
    ensures DroppedAreHidden(db, p.level, p.a + p.b, files)
  {
    var input := Input(p);
    forall x | InFiles(p.a + p.b, x) && !InFiles(files, x) && CoveredDeeper(db.Levels(), p.level, x.k.user)
      ensures exists y :: InFiles(files, y) && StandsFor(db, y, x) && Old(db, y)
    {
      MergeRunsMembers(p.a + p.b, x);
      BaseOfDeeper(db.Levels(), p.level, x.k.user);
      var y := HiddenByKept(input, p.smallestSnapshot, p.deeper, x);
      assert InFiles(files, y) && StandsFor(db, y, x) && Old(db, y);
    }
  }

  // ------------------------------------------------------------------ installing a compaction: its reads

  /** The versions stored outside the inputs. */
  ghost function RestSet(db: Db, p: Pending): set<Entry> {
    set e | e in All(db) && exists q :: RestAt(db, p.level, p.a, p.b, q, e)
  }

  lemma AllIsRestAndInput(db: Db, p: Pending)
    requires p.level + 1 < |db.Levels()| && ClosedSelection(db.Levels(), p.level, p.a, p.b)
    ensures All(db) == RestSet(db, p) + SetOf(Input(p))
  {
    forall e
      ensures e in All(db) <==> e in RestSet(db, p) || e in Input(p)
    {
      AllStored(db, e);
      MergeRunsMembers(p.a + p.b, e);
      if q :| Stored(db, q, e) {
        StoredSplits(db, p.level, p.a, p.b, q, e);
        if g :| InputAt(p.level, p.a, p.b, q, g, e) {
          assert g in p.a + p.b;
        }
      }
      if InFiles(p.a + p.b, e) {
        var q, g := InputPlace(p.level, p.a, p.b, e);
        InputIsStored(db, p.level, p.a, p.b, q, g, e);
      }
    }
  }

  lemma AllAfterInstall(db: Db, db': Db, p: Pending, files: seq<File>)
    requires Rewritten(db, db', p.level, p.a, p.b, files)
    requires forall e :: InFiles(files, e) <==> e in Kept(Input(p), |Input(p)|, p.smallestSnapshot, p.deeper)
    ensures All(db') == RestSet(db, p) + SetOf(Kept(Input(p), |Input(p)|, p.smallestSnapshot, p.deeper))
  {
    forall e
      ensures e in All(db') <==> e in RestSet(db, p) || InFiles(files, e)
    {
      AllStored(db', e);
      AllStored(db, e);
      if q :| Stored(db', q, e) {
        StoredAfter(db, db', p.level, p.a, p.b, files, q, e);
        if RestAt(db, p.level, p.a, p.b, q, e) {
          RestIsStored(db, p.level, p.a, p.b, q, e);
        } else {
          var o :| o in files && o.number == q.number && e in o.entries;
        }
      }
      if q :| RestAt(db, p.level, p.a, p.b, q, e) {
        StoredAfter(db, db', p.level, p.a, p.b, files, q, e);
      }
      if InFiles(files, e) {
        var q := OutputPlace(db, db', p.level, p.a, p.b, files, e);
      }
    }
  }

  /** For a reader at `s`, a dropped tombstone whose key survives outside the inputs is survived too. */
  lemma TombstoneCovered(db: Db, p: Pending, s: nat, e: Entry, r: Entry)
    requires HistoryInOrder(db) && OnlyHistory(db) && NewerAbove(db) && LevelsInOrder(db.Levels())
    requires p.level + 2 <= |db.Levels()| && ClosedSelection(db.Levels(), p.level, p.a, p.b) && p.deeper == db.Levels()[p.level + 2..]
    requires Readable(db, s)
    requires e in Input(p) && r in RestSet(db, p) && BaseLevel(p.deeper, e.k.user)
    requires r.k.user == e.k.user && r.k.seqno <= e.k.seqno
    ensures e in RestSet(db, p) || exists y :: VersionOf(All(db), e.k.user, s, y) && e.k.seqno < y.k.seqno
  {
    hide OnlyNewerThanAll, Beside, ClosedSelection, LevelsInOrder, BaseLevel, All, RestAt, Stored, HistoryInOrder, OnlyHistory, Input;
    var at :| RestAt(db, p.level, p.a, p.b, at, r);
    RestIsStored(db, p.level, p.a, p.b, at, r);
    AllIsRestAndInput(db, p);
    assert e in All(db);
    var q, x :| NoLater(q, at) && Stored(db, q, x) && StandsFor(db, x, e);
    hide NewerAbove;
    StoredIsHistory(db, q, x);
    if x != e {
      InputNumbered(db, p, e);
      assert x.k.seqno <= s;
      assert VersionOf(All(db), e.k.user, s, x);
    } else if !RestAt(db, p.level, p.a, p.b, q, e) {
      StoredSplits(db, p.level, p.a, p.b, q, e);
      var g :| InputAt(p.level, p.a, p.b, q, g, e);
      RestAboveBase(db, p, at, r);
      RestNotOlder(db, p.level, p.a, p.b, at, r, q, g, e);
    }
  }

  lemma InputNumbered(db: Db, p: Pending, e: Entry)
    requires HistoryInOrder(db) && OnlyHistory(db)
    requires e in All(db)
    ensures 1 <= e.k.seqno <= db.last && db.history[e.k.seqno - 1] == e
  {
    AllStored(db, e);
    var q :| Stored(db, q, e);
    StoredIsHistory(db, q, e);
  }

  lemma RestAboveBase(db: Db, p: Pending, at: Place, r: Entry)
    requires LevelsInOrder(db.Levels()) && p.level + 2 <= |db.Levels()| && p.deeper == db.Levels()[p.level + 2..]
    requires RestAt(db, p.level, p.a, p.b, at, r) && BaseLevel(p.deeper, r.k.user)
    ensures at.level <= p.level + 1
  {
    if at.level >= p.level + 2 {
      var h :| h in db.Levels()[at.level] && r in h.entries;
      LevelCovers(db.Levels(), at.level, h, r);
      BaseOfDeeper(db.Levels(), p.level, r.k.user);
    }
  }

  lemma InstallKeepsRead(db: Db, p: Pending, u: UserKey, s: nat)
    requires HistoryInOrder(db) && OnlyHistory(db) && NewerAbove(db) && LevelsInOrder(db.Levels())
    requires p.level + 2 <= |db.Levels()| && ClosedSelection(db.Levels(), p.level, p.a, p.b) && p.deeper == db.Levels()[p.level + 2..]
    requires WeaklySorted(Input(p)) && p.smallestSnapshot < MAX_SEQUENCE && p.smallestSnapshot <= s
    requires Readable(db, s)
    ensures Read(RestSet(db, p) + SetOf(Kept(Input(p), |Input(p)|, p.smallestSnapshot, p.deeper)), u, s) == Read(All(db), u, s)
  {
    var rest, input := RestSet(db, p), Input(p);
    AllIsRestAndInput(db, p);
    HistoryConsistent(db);
    assert Consistent(rest + SetOf(input));
    assert TombstonesCovered(rest, input, p.smallestSnapshot, p.deeper, s) by {
      forall e, r | e in input && r in rest && BaseLevel(p.deeper, e.k.user) && r.k.user == e.k.user && r.k.seqno <= e.k.seqno
        ensures e in rest || exists y :: VersionOf(rest + SetOf(input), e.k.user, s, y) && e.k.seqno < y.k.seqno
      {
        TombstoneCovered(db, p, s, e, r);
      }
    }
    CompactionPreservesReads(rest, input, p.smallestSnapshot, p.deeper, u, s);
  }

  // ------------------------------------------------------------------ installing a compaction: all together

  ghost predicate Installs(db: Db, outputs: seq<Output>, sizes: seq<nat>) {
    Inv(db) && Enabled(db, Install(outputs, sizes))
  }

  /** What an install finds: the selection, its snapshot, and outputs made of the kept versions. */
  ghost predicate InFlight(db: Db, p: Pending, outputs: seq<Output>, sizes: seq<nat>) {
    && |db.Levels()| == NUM_LEVELS && p.level + 1 < NUM_LEVELS && ClosedSelection(db.Levels(), p.level, p.a, p.b)
    && p.deeper == db.Levels()[p.level + 2..]
    && db.reopenedAt <= p.smallestSnapshot < MAX_SEQUENCE && p.smallestSnapshot <= db.last
    && (forall t :: t in db.snapshots ==> p.smallestSnapshot <= t)
    && |sizes| == |outputs| && (forall i :: 0 <= i < |outputs| ==> ValidOutput(outputs[i]))
    && Concat(outputs) == Kept(Input(p), |Input(p)|, p.smallestSnapshot, p.deeper)
  }

  lemma InstallParts(db: Db, outputs: seq<Output>, sizes: seq<nat>)
    requires Installs(db, outputs, sizes)
    ensures Inv(db) && |sizes| == |outputs| && db.pending.Some? && InFlight(db, db.pending.value, outputs, sizes)
    ensures HistoryInOrder(db) && OnlyHistory(db) && SharedOld(db) && NumbersUnique(db.Levels()) && LevelsInOrder(db.Levels())
  {
    hide NewerAbove, ReadsHistory, LogsCover, Sound, MemoryFresh, ClosedSelection, OnlyHistory, HistoryInOrder, SharedOld, NumbersUnique,
      LevelsInOrder, ValidOutput, Concat, Kept;
  }

  lemma InstallOutputs(db: Db, outputs: seq<Output>, sizes: seq<nat>)
    requires Installs(db, outputs, sizes)
    ensures var p, files := db.pending.value, OutputFiles(outputs, sizes, db.vs.core.nextFile);
            && ProperOutputs(db, p.level, p.a, p.b, files) && Disjoint(files)
            && NumbersFrom(files, db.vs.core.nextFile)
            && WeaklySorted(Input(p))
            && forall e :: InFiles(files, e) <==> e in Kept(Input(p), |Input(p)|, p.smallestSnapshot, p.deeper)
  {
    InstallParts(db, outputs, sizes);
    hide Installs, Enabled, Inv, InFlight, HistoryInOrder, OnlyHistory, SharedOld, NumbersUnique, LevelsInOrder, NumbersFrom, OutputFiles, Input, Kept;
    InFlightOutputs(db, db.pending.value, outputs, sizes);
  }

  lemma InFlightOutputs(db: Db, p: Pending, outputs: seq<Output>, sizes: seq<nat>)
    requires HistoryInOrder(db) && OnlyHistory(db) && SharedOld(db) && NumbersUnique(db.Levels()) && LevelsInOrder(db.Levels())
    requires InFlight(db, p, outputs, sizes)
    ensures var files := OutputFiles(outputs, sizes, db.vs.core.nextFile);
            && ProperOutputs(db, p.level, p.a, p.b, files) && Disjoint(files)
            && NumbersFrom(files, db.vs.core.nextFile)
            && WeaklySorted(Input(p))
            && forall e :: InFiles(files, e) <==> e in Kept(Input(p), |Input(p)|, p.smallestSnapshot, p.deeper)
  {
    hide NumbersFrom, DroppedAreHidden, HidesOlder, OutputFiles, Kept, Concat, Input, WeaklySorted, RepeatsUpTo, Sorted, ValidFiles,
      Disjoint, ValidOutput, InFiles, Consistent, TableEntries;
    hide ClosedSelection, HistoryInOrder, OnlyHistory, SharedOld, NumbersUnique, LevelsInOrder;
    var files := OutputFiles(outputs, sizes, db.vs.core.nextFile);
    var input := Input(p);
    InputSorted(db, p);
    KeptSorted(input, |input|, p.smallestSnapshot, p.deeper);
    OutFilesValid(outputs, sizes, db.vs.core.nextFile);
    OutputNumbers(outputs, sizes, db.vs.core.nextFile);
    forall e
      ensures InFiles(files, e) <==> e in Kept(input, |input|, p.smallestSnapshot, p.deeper)
    {
      OutFilesMembers(outputs, sizes, db.vs.core.nextFile, e);
    }
    InputConsistent(db, p);
    OutputsHideOlder(p, files);
    OutputsHideDropped(db, p, files);
  }

  lemma InputConsistent(db: Db, p: Pending)
    requires HistoryInOrder(db) && OnlyHistory(db)
    requires p.level + 1 < |db.Levels()| && ClosedSelection(db.Levels(), p.level, p.a, p.b)
    ensures Consistent(SetOf(Input(p)))
  {
    InputIsHistory(db, p);
    HistoryConsistent(db);
  }

  lemma InstallReads(db: Db, db': Db, p: Pending, outputs: seq<Output>, sizes: seq<nat>, files: seq<File>)
    requires HistoryInOrder(db) && OnlyHistory(db) && NewerAbove(db) && LevelsInOrder(db.Levels()) && ReadsHistory(db)
    requires InFlight(db, p, outputs, sizes)
    requires Rewritten(db, db', p.level, p.a, p.b, files) && WeaklySorted(Input(p))
    requires forall e :: InFiles(files, e) <==> e in Kept(Input(p), |Input(p)|, p.smallestSnapshot, p.deeper)
    ensures ReadsHistory(db')
  {
    hide NewerAbove, ClosedSelection, OnlyHistory, HistoryInOrder, LevelsInOrder, Input, Kept, Concat, ValidOutput, LevelsRewritten, All;
    AllAfterInstall(db, db', p, files);
    forall u, s | Readable(db', s)
      ensures Read(All(db'), u, s) == Read(SetOf(db'.history), u, s)
    {
      assert Readable(db, s);
      InstallKeepsRead(db, p, u, s);
    }
  }

  lemma InvReads(db: Db)
    requires Inv(db)
    ensures NewerAbove(db) && ReadsHistory(db)
  {
    hide NewerAbove, SharedOld, LogsCover, LevelsInOrder, NumbersUnique, ReadsHistory, PendingClosed, MemoryFresh, Sound;
  }

  lemma PendingParts(db: Db)
    requires Inv(db) && db.pending.Some?
    ensures var p := db.pending.value;
            && |db.Levels()| == NUM_LEVELS && p.level + 1 < NUM_LEVELS
            && ClosedSelection(db.Levels(), p.level, p.a, p.b)
            && Sound(db.vs) && NumbersUnique(db.Levels())
  {
    hide NewerAbove, SharedOld, LogsCover, LevelsInOrder, NumbersUnique, ReadsHistory, ClosedSelection, MemoryFresh;
  }

  lemma InstallIsRewrite(db: Db, p: Pending, outputs: seq<Output>, sizes: seq<nat>)
    requires db.pending == Some(p) && |sizes| == |outputs| && |db.Levels()| == NUM_LEVELS && p.level + 1 < NUM_LEVELS
    requires ClosedSelection(db.Levels(), p.level, p.a, p.b) && Sound(db.vs) && NumbersUnique(db.Levels())
    requires NumbersFrom(OutputFiles(outputs, sizes, db.vs.core.nextFile), db.vs.core.nextFile)
    ensures var db', files := InstallStep(db, outputs, sizes), OutputFiles(outputs, sizes, db.vs.core.nextFile);
            Rewritten(db, db', p.level, p.a, p.b, files) && Sound(db'.vs) && NumbersUnique(db'.Levels())
  {
    hide Sound, NumbersUnique, ClosedSelection, NumbersFrom, LevelsRewritten, LogAndApply;
    var files := OutputFiles(outputs, sizes, db.vs.core.nextFile);
    InstallRewrites(db.vs, p, files);
  }

  lemma InstallKeepsInv(db: Db, outputs: seq<Output>, sizes: seq<nat>)
    requires Installs(db, outputs, sizes)
    ensures Inv(InstallStep(db, outputs, sizes))
  {
    hide NewerAbove, SharedOld, LogsCover, Sound, LevelsKept, LevelsInOrder, NumbersUnique, NumbersBelow, NumbersFrom,
      ReadsHistory, ClosedSelection, MemoryFresh, OnlyHistory, HistoryInOrder, ProperOutputs, Disjoint,
      InstallStep, OutputFiles, Rewritten, InFlight, Installs, Kept, Input, Inv;
    InstallParts(db, outputs, sizes);
    var p, files := db.pending.value, OutputFiles(outputs, sizes, db.vs.core.nextFile);
    PendingParts(db);
    InstallOutputs(db, outputs, sizes);
    InstallIsRewrite(db, p, outputs, sizes);
    InvReads(db);
    InstallReads(db, InstallStep(db, outputs, sizes), p, outputs, sizes, files);
    RewriteKeepsInv(db, InstallStep(db, outputs, sizes), p.level, p.a, p.b, files);
  }
}

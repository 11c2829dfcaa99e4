/** A run after which Get misses a version that a live snapshot must see: a compaction cuts its output
    between two versions of one user key, and FindFileInLevel searches by user key alone. */
module SplitKey {
  import opened Keys
  import opened Files
  import opened Runs
  import opened Versions
  import opened CompactionWork
  import opened InputSelection
  import opened Engine
  import opened Invariants
  import opened SafetyFlush
  import opened SafetyRewrite
  import opened SafetyCompaction
  import opened Safety
  import opened PointLookup
  import opened ReadPaths

  const KEY: UserKey := 0.0
  const OLDER: Entry := Entry(InternalKey(KEY, 1, Value), [])
  const NEWER: Entry := Entry(InternalKey(KEY, 2, Value), [1])

  ghost predicate NoFilesBelow(levels: seq<seq<File>>, l: nat) {
    |levels| == NUM_LEVELS && forall m :: l <= m < NUM_LEVELS ==> levels[m] == []
  }

  /** A reachable state with empty memtables and no files but `tables`, on level 0. */
  ghost predicate Stage(events: seq<Event>, db: Db, tables: seq<File>) {
    && Reaches(events, db)
    && db.mem == [] && db.imm == [] && db.pending == None
    && |db.logs| == 1 && db.logs[0].entries == db.history
    && NoFilesBelow(db.Levels(), 1) && (forall f :: f in db.Levels()[0] <==> f in tables)
  }

  lemma WriteAndFreeze(events: seq<Event>, db: Db, op: Op) returns (events': seq<Event>, db': Db)
    requires Reaches(events, db) && db.mem == [] && db.imm == [] && db.last < 10
    ensures Reaches(events', db') && Written(events') == Written(events) + [op]
    ensures db'.mem == [] && db'.imm == [EntryOf(op, db.last + 1)] && db'.last == db.last + 1
    ensures db'.vs == db.vs && db'.snapshots == db.snapshots && db'.pending == db.pending
    ensures |db.logs| == 1 && db.logs[0].entries == db.history ==> |db'.logs| == 1 && db'.logs[0].entries == db'.history
  {
    hide Reaches, Inv;
    ReachableInv(events, db);
    InvHasLogs(db);
    var ev := Write([op]);
    WrittenMem(db, op);
    RunGrows(events, db, ev);
    var db1 := WriteStep(db, [op]);
    RunGrows(events + [ev], db1, Freeze);
    events', db' := events + [ev] + [Freeze], FreezeStep(db1);
  }

  lemma FlushFrozen(events: seq<Event>, db: Db) returns (events': seq<Event>, db': Db, file: File)
    requires Reaches(events, db) && db.imm != []
    ensures Reaches(events', db') && Written(events') == Written(events)
    ensures FlushedDb(db, db', file) && NumbersBelow(db.Levels(), db.vs.core.nextFile)
    ensures ValidFile(file)
  {
    hide Reaches, FlushedDb, FlushStep, LogAndApply, Inv;
    ReachableInv(events, db);
    InvHasLogs(db);
    RunGrows(events, db, Flush(1));
    FlushIsFlushedDb(db, 1);
    events', db', file := events + [Flush(1)], FlushStep(db, 1), TableOf(db.vs.core.nextFile, 1, db.imm);
    ImmSorted(db);
  }

  lemma ImmSorted(db: Db)
    requires Inv(db)
    ensures Sorted(db.imm)
  {
    hide NewerAbove, SharedOld, ReadsHistory, PendingClosed, LogsCover, TablesInOrder;
  }

  /** Write one entry, freeze it and flush it. */
  lemma WriteAndFlush(events: seq<Event>, db: Db, tables: seq<File>, op: Op)
    returns (events': seq<Event>, db': Db, file: File)
    requires Stage(events, db, tables) && db.last < 10
    ensures Stage(events', db', tables + [file])
    ensures db'.last == db.last + 1 && db'.snapshots == db.snapshots
    ensures file.entries == [EntryOf(op, db.last + 1)]
    ensures Written(events') == Written(events) + [op]
    ensures ValidFile(file) && forall f :: f in tables ==> f.number != file.number
  {
    hide Reaches;
    var events1, db1 := WriteAndFreeze(events, db, op);
    events', db', file := FlushFrozen(events1, db1);
    forall f | f in tables
      ensures f.number != file.number
    {
      assert f in db1.Levels()[0];
      NumberTaken(db1.Levels(), db1.vs.core.nextFile, 0, f);
    }
    forall f ensures f in db'.Levels()[0] <==> f in tables + [file] {
      assert f in db'.Levels()[0] <==> f in db1.Levels()[0] || f == file;
    }
  }

  /** Two tables on level 0, one version each, and a snapshot at the older one. */
  lemma TwoTables() returns (events: seq<Event>, db: Db, older: File, newer: File)
    ensures Stage(events, db, [older] + [newer]) && db.last == 2 && db.snapshots == multiset{1}
    ensures older.entries == [OLDER] && newer.entries == [NEWER] && ValidFile(older) && ValidFile(newer)
    ensures older.number != newer.number
    ensures Written(events) == [Put(KEY, [])] + [Put(KEY, [1])]
  {
    hide Stage, Reaches, Written, Inv, EMPTY;
    EmptyStage();
    var events1, db1;
    events1, db1, older := WriteAndFlush([], EMPTY, [], Put(KEY, []));
    assert [] + [older] == [older];
    var db2 := StageSnapshot(events1, db1, [older]);
    events, db, newer := WriteAndFlush(events1 + [TakeSnapshot], db2, [older], Put(KEY, [1]));
    assert older in [older];
  }

  lemma EmptyStage()
    ensures Stage([], EMPTY, []) && Written([]) == [] && EMPTY.last == 0 && EMPTY.snapshots == multiset{}
  {
    forall l | 0 <= l < NUM_LEVELS ensures EMPTY.Levels()[l] == [] {
      NoFilesAnywhere(l);
    }
  }

  lemma StageSnapshot(events: seq<Event>, db: Db, tables: seq<File>) returns (db': Db)
    requires Stage(events, db, tables)
    ensures Stage(events + [TakeSnapshot], db', tables) && Written(events + [TakeSnapshot]) == Written(events)
    ensures db'.last == db.last && db'.snapshots == db.snapshots + multiset{db.last}
  {
    hide Reaches, Inv;
    ReachableInv(events, db);
    InvHasLogs(db);
    RunGrows(events, db, TakeSnapshot);
    db' := After(db, TakeSnapshot);
  }

  lemma InvHasLogs(db: Db)
    requires Inv(db)
    ensures db.logs != [] && |db.Levels()| == NUM_LEVELS && NumbersBelow(db.Levels(), db.vs.core.nextFile)
  {
    hide NewerAbove, SharedOld, ReadsHistory, PendingClosed, MemoryFresh, OnlyHistory;
  }

  lemma WrittenMem(db: Db, op: Op)
    requires db.mem == [] && db.logs != []
    ensures WriteStep(db, [op]).mem == [EntryOf(op, db.last + 1)]
  {
    var es := Stamp([op], db.last + 1);
    assert es == [EntryOf(op, db.last + 1)];
    assert es[..0] == [];
    assert InsertAll([], []) == [];
  }

  // ------------------------------------------------------------------ compacting the two tables

  lemma TwoTablesSelected(levels: seq<seq<File>>, older: File, newer: File)
    requires NoFilesBelow(levels, 1) && (forall f :: f in levels[0] <==> f in [older] + [newer])
    requires older.number != newer.number
    ensures ClosedSelection(levels, 0, [newer, older], [])
  {
    assert forall f :: f in [newer, older] <==> f in [older] + [newer];
    assert levels[1] == [];
  }

  lemma BothMerged(older: File, newer: File)
    requires older.entries == [OLDER] && newer.entries == [NEWER]
    ensures MergeRuns([newer, older] + []) == [NEWER, OLDER]
  {
    hide MergeRuns;
    var files := [newer, older] + [];
    assert files[..1] == [newer] && [newer][..0] == [];
    MergeRunsStep([newer]);
    MergeRunsStep(files);
    assert MergeTwo([], [NEWER]) == [NEWER];
    assert MergeTwo([NEWER], [OLDER]) == [NEWER, OLDER] by {
      assert [NEWER][1..] == [];
      assert MergeTwo([], [OLDER]) == [OLDER];
    }
  }

  /** With the snapshot at 1 both versions are kept, and the cut may fall between them. */
  lemma BothKept(older: File, newer: File, deeper: seq<seq<File>>)
    requires older.entries == [OLDER] && newer.entries == [NEWER]
    ensures MergeRuns([newer, older] + []) == [NEWER, OLDER]
    ensures Kept([NEWER, OLDER], 2, 1, deeper) == [NEWER, OLDER]
  {
    hide MergeRuns;
    BothMerged(older, newer);
    var input := [NEWER, OLDER];
    assert !Dropped(input, 0, 1, deeper) && !Dropped(input, 1, 1, deeper);
    assert Kept(input, 0, 1, deeper) == [];
    assert Kept(input, 1, 1, deeper) == [NEWER];
  }

  const CUT: seq<Output> := [Output(NEWER.k, NEWER.k, [NEWER]), Output(OLDER.k, OLDER.k, [OLDER])]

  lemma CutConcat()
    ensures Concat(CUT) == [NEWER, OLDER]
  {
    assert CUT[..1] == [CUT[0]] && CUT[..1][..0] == [];
    assert Concat([]) == [];
    assert Concat(CUT[..1]) == [NEWER];
  }

  /** A size limit that every output reaches with its first entry. */
  const ONE_EACH: Limits := Limits([], 0, 1, entries => |entries|)

  ghost predicate MadeByMerge(p: Pending, outputs: seq<Output>, limits: Limits) {
    var input := MergeRuns(p.a + p.b);
    EntriesOfEach(outputs) == PiecesAfter(input, |input|, p.smallestSnapshot, p.deeper, limits).entries
  }

  /** The merge loop makes that cut. */
  lemma CutIsMade(older: File, newer: File, deeper: seq<seq<File>>, pointer: InternalKey)
    requires older.entries == [OLDER] && newer.entries == [NEWER]
    ensures MadeByMerge(Pending(0, [newer, older], [], 1, deeper, pointer), CUT, ONE_EACH)
  {
    hide MergeRuns;
    BothMerged(older, newer);
    var input := [NEWER, OLDER];
    assert !Dropped(input, 0, 1, deeper) && !Dropped(input, 1, 1, deeper);
    assert PiecesAfter(input, 0, 1, deeper, ONE_EACH) == Pieces([], false);
    assert PiecesAfter(input, 1, 1, deeper, ONE_EACH) == Pieces([[NEWER]], false);
    assert PiecesAfter(input, 2, 1, deeper, ONE_EACH) == Pieces([[NEWER]] + [[OLDER]], false);
    assert EntriesOfEach(CUT) == [[NEWER]] + [[OLDER]];
  }

  lemma PickBoth() returns (events: seq<Event>, db: Db, older: File, newer: File)
    ensures Stage2(events, db, older, newer)
  {
    hide Reaches, LogAndApply, ClosedSelection, Inv, NoFilesBelow;
    var events0, db0;
    events0, db0, older, newer := TwoTables();
    TwoTablesSelected(db0.Levels(), older, newer);
    ReachableInv(events0, db0);
    InvHasLogs(db0);
    var pick := Pick(0, [newer, older], [], 1, OLDER.k);
    RunGrows(events0, db0, pick);
    events, db := events0 + [pick], PickStep(db0, 0, [newer, older], [], 1, OLDER.k);
  }

  ghost predicate Stage2(events: seq<Event>, db: Db, older: File, newer: File) {
    && Reaches(events, db) && Written(events) == [Put(KEY, [])] + [Put(KEY, [1])]
    && db.mem == [] && db.imm == [] && db.last == 2 && db.snapshots == multiset{1}
    && older.entries == [OLDER] && newer.entries == [NEWER]
    && NoFilesBelow(db.Levels(), 1) && (forall f :: f in db.Levels()[0] <==> f in [older] + [newer])
    && db.pending == Some(Pending(0, [newer, older], [], 1, db.Levels()[2..], OLDER.k))
  }

  lemma InstallCut(events: seq<Event>, db: Db, older: File, newer: File) returns (db': Db, files: seq<File>)
    requires Stage2(events, db, older, newer)
    ensures Enabled(db, Install(CUT, [1, 1])) && db' == InstallStep(db, CUT, [1, 1])
    ensures MadeByMerge(db.pending.value, CUT, ONE_EACH)
    ensures LevelsRewritten(db.Levels(), db'.Levels(), 0, [newer, older], [], files)
    ensures db'.mem == db.mem && db'.imm == db.imm && db'.last == db.last && db'.snapshots == db.snapshots
    ensures |files| == 2 && files[0].entries == [NEWER] && files[1].entries == [OLDER]
  {
    hide Reaches, LogAndApply, ClosedSelection, Inv, NoFilesBelow, LevelsRewritten, MadeByMerge;
    ReachableInv(events, db);
    InvHasLogs(db);
    var p := db.pending.value;
    BothKept(older, newer, p.deeper);
    CutIsMade(older, newer, p.deeper, p.pointer);
    CutConcat();
    db' := InstallStep(db, CUT, [1, 1]);
    files := OutputFiles(CUT, [1, 1], db.vs.core.nextFile);
    OutputNumbers(CUT, [1, 1], db.vs.core.nextFile);
    PendingParts(db);
    InstallIsRewrite(db, p, CUT, [1, 1]);
  }

  /** The last event installs the two outputs that the merge loop makes of its input. */
  ghost predicate LastIsCut(events: seq<Event>, db: Db) {
    && events != [] && events[|events| - 1] == Install(CUT, [1, 1])
    && exists before: Db ::
         && Reaches(events[..|events| - 1], before) && Enabled(before, Install(CUT, [1, 1]))
         && MadeByMerge(before.pending.value, CUT, ONE_EACH) && db == After(before, Install(CUT, [1, 1]))
  }

  lemma CutWasLast(before: seq<Event>, db0: Db)
    requires Reaches(before, db0) && Enabled(db0, Install(CUT, [1, 1])) && MadeByMerge(db0.pending.value, CUT, ONE_EACH)
    ensures LastIsCut(before + [Install(CUT, [1, 1])], After(db0, Install(CUT, [1, 1])))
  {
    hide Reaches, After, MadeByMerge;
    var events := before + [Install(CUT, [1, 1])];
    assert events[..|events| - 1] == before;
  }

  /** After the install, level 1 holds the two versions in two files. */
  lemma SplitLevel() returns (events: seq<Event>, db: Db, files: seq<File>)
    ensures LastIsCut(events, db)
    ensures Reaches(events, db) && Written(events) == [Put(KEY, [])] + [Put(KEY, [1])]
    ensures db.mem == [] && db.imm == [] && db.last == 2 && db.snapshots == multiset{1}
    ensures |files| == 2 && files[0].entries == [NEWER] && files[1].entries == [OLDER]
    ensures |db.Levels()| == NUM_LEVELS && (forall f :: f in db.Levels()[1] <==> f in files)
    ensures db.Levels()[0] == [] && forall l :: 2 <= l < NUM_LEVELS ==> db.Levels()[l] == []
  {
    hide Reaches, InstallStep, Enabled, LevelsRewritten, LastIsCut, MadeByMerge;
    var before, db0, older, newer := PickBoth();
    db, files := InstallCut(before, db0, older, newer);
    RunGrows(before, db0, Install(CUT, [1, 1]));
    CutWasLast(before, db0);
    events := before + [Install(CUT, [1, 1])];
    SplitLevels(db0.Levels(), db.Levels(), older, newer, files);
  }

  lemma SplitLevels(levels: seq<seq<File>>, levels': seq<seq<File>>, older: File, newer: File, files: seq<File>)
    requires LevelsRewritten(levels, levels', 0, [newer, older], [], files)
    requires NoFilesBelow(levels, 1) && (forall f :: f in levels[0] <==> f in [older] + [newer])
    ensures |levels'| == NUM_LEVELS && (forall f :: f in levels'[1] <==> f in files) && levels'[0] == []
    ensures forall l :: 2 <= l < NUM_LEVELS ==> levels'[l] == []
  {
    forall f
      ensures f !in levels'[0]
    {
      assert f in levels'[0] <==> f in levels[0] && f !in [newer, older];
    }
    FirstIsIn(levels'[0]);
    assert levels[1] == [];
  }

  lemma FirstIsIn(files: seq<File>)
    ensures files != [] ==> files[0] in files
  {
  }

  /** Reachable from an empty store, by a compaction as the merge loop makes it: a live snapshot at which Get
      reports nothing, while the operations up to the snapshot left a value. */
  lemma GetCanLoseASnapshotRead()
    ensures exists events, db ::
      && Reaches(events, db) && LastIsCut(events, db) && 1 in db.snapshots && db.Levels() != []
      && StoreGet(db, KEY, 1) == None && Loses(db, KEY, 1) && LosesValue(db, KEY, 1)
      && |Written(events)| >= 1 && Lookup(MapAfter(Written(events)[..1]), KEY) == Some([])
  {
    hide Reaches, Inv, LastIsCut, Loses, LosesValue;
    var events, db, files := SplitLevel();
    ReachableInv(events, db);
    SplitGetMisses(db, files);
    var ops := Written(events);
    assert ops[..1] == [Put(KEY, [])] && ops[..1][..0] == [];
    assert MapAfter([]) == map[];
    GetIsTheMapIff(events, db, KEY, 1);
    if !Loses(db, KEY, 1) {
      GetIsTheMap(events, db, KEY, 1);
    }
  }

  lemma SplitGetMisses(db: Db, files: seq<File>)
    requires Inv(db) && db.mem == [] && db.imm == []
    requires |files| == 2 && files[0].entries == [NEWER] && files[1].entries == [OLDER]
    requires |db.Levels()| == NUM_LEVELS && (forall f :: f in db.Levels()[1] <==> f in files)
    requires db.Levels()[0] == [] && forall l :: 2 <= l < NUM_LEVELS ==> db.Levels()[l] == []
    ensures StoreGet(db, KEY, 1) == None
  {
    hide NewerAbove, SharedOld, ReadsHistory, PendingClosed, LogsCover, MemoryFresh, Sound, NumbersUnique, OnlyHistory;
    var level := db.Levels()[1];
    assert files[0] in level && files[1] in level;
    FirstIsNewer(level, files);
    assert LevelGet(level, KEY, 1) == RunGet([NEWER], KEY, 1) == None;
    EmptyDeeper(db.Levels(), 2, KEY, 1);
    assert NewestFirst(Candidates([], KEY)) == [];
  }

  lemma FirstIsNewer(level: seq<File>, files: seq<File>)
    requires ValidFiles(level) && Disjoint(level) && (forall f :: f in level <==> f in files)
    requires |files| == 2 && files[0].entries == [NEWER] && files[1].entries == [OLDER]
    ensures FileFor(level, KEY).Some? && FileFor(level, KEY).value.entries == [NEWER]
  {
    assert files[0] in level && files[1] in level;
    var i :| 0 <= i < |level| && level[i] == files[0];
    var j :| 0 <= j < |level| && level[j] == files[1];
    forall k | 0 <= k < |level| ensures level[k] == files[0] || level[k] == files[1] {
      assert level[k] in level;
    }
    assert i != j && level[0] == files[0];
  }

  lemma {:induction false} EmptyDeeper(levels: seq<seq<File>>, l: nat, u: UserKey, s: nat)
    requires forall m :: l <= m < |levels| ==> levels[m] == []
    ensures LevelsGet(levels, l, u, s) == None
    decreases |levels| - l
  {
    if l < |levels| {
      EmptyDeeper(levels, l + 1, u, s);
    }
  }
}

/** A run after which opening a store with a torn log brings a deleted key back: its value and its deletion are
    flushed and compacted away, and the log, which still holds both, loses the deletion. */
module DeletedKey {
  import opened Keys
  import opened Files
  import opened Runs
  import opened Visibility
  import opened Versions
  import opened CompactionWork
  import opened InputSelection
  import opened Engine
  import opened Invariants
  import opened SafetyRewrite
  import opened SafetyCompaction
  import opened Safety
  import opened TablesAlone
  import opened SplitKey
  import opened TornLogs

  const DELETED: Entry := Entry(InternalKey(KEY, 2, Deletion), [])

  /** One value, and its deletion, each in a table of its own. */
  lemma DeletedTables() returns (events: seq<Event>, db: Db, older: File, newer: File)
    ensures Stage(events, db, [older] + [newer]) && db.last == 2 && db.snapshots == multiset{}
    ensures older.entries == [OLDER] && newer.entries == [DELETED] && older.number != newer.number
    ensures Written(events) == [Put(KEY, [])] + [Delete(KEY)]
  {
    hide Stage, Reaches, Written, Inv, EMPTY;
    EmptyStage();
    var events1, db1;
    events1, db1, older := WriteAndFlush([], EMPTY, [], Put(KEY, []));
    assert [] + [older] == [older];
    events, db, newer := WriteAndFlush(events1, db1, [older], Delete(KEY));
    assert older in [older];
  }

  lemma DeletedMerged(older: File, newer: File)
    requires older.entries == [OLDER] && newer.entries == [DELETED]
    ensures MergeRuns([newer, older] + []) == [DELETED, OLDER]
  {
    hide MergeRuns;
    var files := [newer, older] + [];
    assert files[..1] == [newer] && [newer][..0] == [];
    MergeRunsStep([newer]);
    MergeRunsStep(files);
    assert MergeTwo([], [DELETED]) == [DELETED];
    assert MergeTwo([DELETED], [OLDER]) == [DELETED, OLDER] by {
      assert [DELETED][1..] == [];
      assert MergeTwo([], [OLDER]) == [OLDER];
    }
  }

  /** With nothing deeper the merge drops both. */
  lemma BothDropped(older: File, newer: File, deeper: seq<seq<File>>)
    requires older.entries == [OLDER] && newer.entries == [DELETED] && forall l :: 0 <= l < |deeper| ==> deeper[l] == []
    ensures MergeRuns([newer, older] + []) == [DELETED, OLDER]
    ensures Kept([DELETED, OLDER], 2, 2, deeper) == []
  {
    hide MergeRuns;
    DeletedMerged(older, newer);
    var input := [DELETED, OLDER];
    assert BaseLevel(deeper, KEY);
    assert Dropped(input, 0, 2, deeper) && Dropped(input, 1, 2, deeper);
    assert Kept(input, 0, 2, deeper) == [] == Kept(input, 1, 2, deeper);
  }

  lemma PickDeleted() returns (events: seq<Event>, db: Db, older: File, newer: File)
    ensures DeletedStage(events, db, older, newer)
  {
    hide Reaches, LogAndApply, ClosedSelection, Inv, NoFilesBelow;
    var events0, db0;
    events0, db0, older, newer := DeletedTables();
    TwoTablesSelected(db0.Levels(), older, newer);
    ReachableInv(events0, db0);
    InvHasLogs(db0);
    var pick := Pick(0, [newer, older], [], 2, OLDER.k);
    RunGrows(events0, db0, pick);
    events, db := events0 + [pick], PickStep(db0, 0, [newer, older], [], 2, OLDER.k);
  }

  ghost predicate DeletedStage(events: seq<Event>, db: Db, older: File, newer: File) {
    && Reaches(events, db) && Written(events) == [Put(KEY, [])] + [Delete(KEY)]
    && db.mem == [] && db.imm == [] && db.last == 2 && |db.logs| == 1 && db.logs[0].entries == db.history
    && older.entries == [OLDER] && newer.entries == [DELETED]
    && NoFilesBelow(db.Levels(), 1) && (forall f :: f in db.Levels()[0] <==> f in [older] + [newer])
    && db.pending == Some(Pending(0, [newer, older], [], 2, db.Levels()[2..], OLDER.k))
  }

  /** The compaction writes nothing: no tables are left, and the log still has both versions. */
  lemma NothingLeft() returns (events: seq<Event>, db: Db)
    ensures Reaches(events, db) && Written(events) == [Put(KEY, [])] + [Delete(KEY)]
    ensures db.mem == [] && db.imm == [] && |db.logs| == 1 && db.logs[0].entries == db.history
    ensures |db.Levels()| == NUM_LEVELS && forall l :: 0 <= l < NUM_LEVELS ==> db.Levels()[l] == []
  {
    hide Reaches, InstallStep, LevelsRewritten, Written, Inv, ClosedSelection, NoFilesBelow, LogAndApply;
    var before, db0, older, newer := PickDeleted();
    ReachableInv(before, db0);
    InvHasLogs(db0);
    var p := db0.pending.value;
    DeeperEmpty(db0.Levels(), 1);
    BothDropped(older, newer, p.deeper);
    PendingParts(db0);
    OutputNumbers([], [], db0.vs.core.nextFile);
    InstallIsRewrite(db0, p, [], []);
    assert OutputFiles([], [], db0.vs.core.nextFile) == [];
    RunGrows(before, db0, Install([], []));
    events, db := before + [Install([], [])], InstallStep(db0, [], []);
    AllGone(db0.Levels(), db.Levels(), older, newer);
  }

  lemma DeeperEmpty(levels: seq<seq<File>>, l: nat)
    requires NoFilesBelow(levels, l)
    ensures forall m :: l <= m < |levels| ==> levels[m] == []
  {
  }

  lemma AllGone(levels: seq<seq<File>>, levels': seq<seq<File>>, older: File, newer: File)
    requires LevelsRewritten(levels, levels', 0, [newer, older], [], [])
    requires NoFilesBelow(levels, 1) && (forall f :: f in levels[0] <==> f in [older] + [newer])
    ensures |levels'| == NUM_LEVELS && forall l :: 0 <= l < NUM_LEVELS ==> levels'[l] == []
  {
    SplitLevels(levels, levels', older, newer, []);
    FirstIsIn(levels'[1]);
  }

  /** Put, flush, delete, flush, compact: the store and its map have forgotten the key.  If then the end of the log
      is lost, opening the store brings the value back. */
  lemma DeletedKeyReturns()
    ensures exists events, db, segments, sizes, seen ::
      && Reaches(events, db) && Stands(db, 2) && CutReopen(db, 1, segments, sizes, seen)
      && Lookup(MapAfter(Written(events)), KEY) == None && Read(All(db), KEY, db.last) == None
      && Read(All(ReopenStep(CutLog(db, 1), segments, sizes, seen)), KEY, ReopenStep(CutLog(db, 1), segments, sizes, seen).last) == Some([])
  {
    hide Reaches, Inv, ReopenStep, Written, Stands, CutLog, CutReopen;
    var events, db := NothingLeft();
    ReachableInv(events, db);
    var n := ReachableStands(events, db);
    TwoWritten(events, db, n);
    var seen := db.logs[0].number + 1;
    CutEnabled(db, seen);
    ReadsNothing(db);
    Forgotten(Written(events));
    OlderSurfaces(db);
    TornReopen(events, db, 2, 1, [[OLDER]], [1], seen, KEY);
    assert ValueIn(OLDER) == Some([]);
  }

  lemma TwoWritten(events: seq<Event>, db: Db, n: nat)
    requires Reaches(events, db) && Written(events) == [Put(KEY, [])] + [Delete(KEY)] && Stands(db, n)
    requires db.mem == [] && db.imm == []
    ensures n == 2 && db.history == [OLDER, DELETED]
  {
    hide Reaches, Written, Stands;
    HistoryIsWritten(events, db);
    StandsMemory(db, n);
    var es := Stamp([Put(KEY, [])] + [Delete(KEY)], 1);
    assert es == [OLDER, DELETED];
    assert es[1] in es;
  }

  lemma CutEnabled(db: Db, seen: nat)
    requires Inv(db) && |db.logs| == 1 && db.logs[0].entries == db.history == [OLDER, DELETED] && db.logs[0].number < seen
    ensures CutReopen(db, 1, [[OLDER]], [1], seen)
  {
    hide Inv, LogsCover, Sound, LiveLogs, LogEntries, Recovered, Durable, Flatten, HistoryInOrder, TablesInOrder;
    InvLogs(db);
    InvSound(db);
    SoundIsDurable(db.vs);
    CutLogLives(db, 1);
    OneSegment();
    assert db.history[..1] == [OLDER];
    assert CurrentLog(db) == db.logs[0] && |CutLog(db, 1).logs| == 1;
    assert CutLog(db, 1).logs[0].number == db.logs[0].number;
  }

  lemma OneSegment()
    ensures Flatten([[OLDER]]) == [OLDER]
  {
    assert [[OLDER]][..0] == [] && Flatten([]) == [] && Flatten([[OLDER]]) == [] + [OLDER];
  }

  lemma InvSound(db: Db)
    requires Inv(db)
    ensures Sound(db.vs) && |db.Levels()| == NUM_LEVELS
  {
    hide NewerAbove, SharedOld, ReadsHistory, PendingClosed, LogsCover, MemoryFresh, OnlyHistory, Sound;
  }

  lemma NoTables(db: Db)
    requires |db.Levels()| == NUM_LEVELS && forall l :: 0 <= l < NUM_LEVELS ==> db.Levels()[l] == []
    ensures TableEntries(db.Levels()) == {}
  {
  }

  lemma ReadsNothing(db: Db)
    requires db.mem == [] && db.imm == [] && |db.Levels()| == NUM_LEVELS && forall l :: 0 <= l < NUM_LEVELS ==> db.Levels()[l] == []
    ensures Read(All(db), KEY, db.last) == None
  {
    NoTables(db);
    assert forall e :: e !in All(db);
  }

  lemma Forgotten(ops: seq<Op>)
    requires ops == [Put(KEY, [])] + [Delete(KEY)]
    ensures Lookup(MapAfter(ops), KEY) == None
  {
  }

  lemma OlderSurfaces(db: Db)
    requires |db.logs| == 1 && db.logs[0].entries == db.history == [OLDER, DELETED]
    requires |db.Levels()| == NUM_LEVELS && forall l :: 0 <= l < NUM_LEVELS ==> db.Levels()[l] == []
    ensures Surfaces(db, 1, 2, KEY, OLDER) && Survived(db, 1) == 1
  {
    NoTables(db);
    assert CurrentLog(db).entries[..1] == [OLDER];
    assert OLDER in SetOf([OLDER]);
  }
}

/** Reopening the store: the MANIFEST and the logs give back what every reader saw, although versions
    already flushed are inserted again. */
module SafetyReopen {
  import opened Keys
  import opened Files
  import opened Runs
  import opened Visibility
  import opened Versions
  import opened InputSelection
  import opened Engine
  import opened Invariants
  import opened SafetyFlush

  // ------------------------------------------------------------------ which logs are replayed

  lemma {:induction false} OldLogsAreDone(logs: seq<LogFile>, vs: VersionState)
    requires logs != [] ==> vs.manifest != []
    requires forall i :: 0 <= i < |logs| ==> logs[i].number < vs.core.logNumber
    ensures LiveLogs(logs, vs) == []
  {
    if logs != [] {
      OldLogsAreDone(logs[..|logs| - 1], vs);
    }
  }

  /** Exactly the current log is replayed: every other log is done with, and none with unflushed
      versions is passed over. */
  lemma LiveLogIsCurrent(db: Db)
    requires LogsCover(db) && Durable(db.vs)
    ensures LogEntries(LiveLogs(db.logs, Recovered(db.vs))) == CurrentLog(db).entries
  {
    hide Replay, LiveLogs, LogEntries;
    var vs := Recovered(db.vs);
    assert vs.core.logNumber == db.vs.core.logNumber && vs.manifest == db.vs.manifest;
    LastLogLives(db.logs, vs);
  }

  lemma LastLogLives(logs: seq<LogFile>, vs: VersionState)
    requires logs != [] && (|logs| > 1 ==> vs.manifest != [])
    requires forall i :: 0 <= i < |logs| - 1 ==> logs[i].number < vs.core.logNumber
    requires vs.core.logNumber <= logs[|logs| - 1].number
    ensures LogEntries(LiveLogs(logs, vs)) == logs[|logs| - 1].entries
  {
    var n := |logs| - 1;
    OldLogsAreDone(logs[..n], vs);
    assert LiveLogs(logs, vs) == [logs[n]];
    assert [logs[n]][..0] == [];
    assert LogEntries([]) == [];
  }

  // ------------------------------------------------------------------ replay as level-0 tables

  ghost predicate Seqnos(s: seq<Entry>) {
    forall i, j :: 0 <= i < j < |s| ==> s[i].k.seqno < s[j].k.seqno
  }

  /** `r` is `vs` with one level-0 table for each replayed segment, numbered in that order. */
  ghost predicate Replayed(vs: VersionState, r: VersionState, files: seq<File>, segments: seq<seq<Entry>>, last: nat) {
    && |vs.core.levels| == |r.core.levels| == NUM_LEVELS
    && |files| == |segments|
    && (forall i :: 0 <= i < |files| ==> vs.core.nextFile <= files[i].number < r.core.nextFile)
    && (forall i, j :: 0 <= i < j < |files| ==> files[i].number < files[j].number)
    && (forall i :: 0 <= i < |files| ==> files[i].entries == InsertAll([], segments[i]))
    && (forall f :: f in r.core.levels[0] <==> f in vs.core.levels[0] || f in files)
    && (forall l :: 1 <= l < NUM_LEVELS ==> r.core.levels[l] == vs.core.levels[l])
    && vs.core.nextFile <= r.core.nextFile
    && r.core.lastSequence <= last
  }

  ghost predicate WellFormed(vs: VersionState) {
    Sound(vs) && LevelsInOrder(vs.core.levels) && NumbersUnique(vs.core.levels)
  }

  lemma {:induction false} FlattenPrefix(segments: seq<seq<Entry>>)
    requires segments != [] && Seqnos(Flatten(segments))
    ensures var n := |segments| - 1;
            Seqnos(Flatten(segments[..n])) && Seqnos(segments[n])
    ensures forall e :: e in Flatten(segments) <==> e in Flatten(segments[..|segments| - 1]) || e in segments[|segments| - 1]
  {
    var n := |segments| - 1;
    var all, before, seg := Flatten(segments), Flatten(segments[..n]), segments[n];
    assert all == before + seg;
    forall i, j | 0 <= i < j < |seg|
      ensures seg[i].k.seqno < seg[j].k.seqno
    {
      assert all[|before| + i] == seg[i] && all[|before| + j] == seg[j];
    }
    forall i, j | 0 <= i < j < |before|
      ensures before[i].k.seqno < before[j].k.seqno
    {
      assert all[i] == before[i] && all[j] == before[j];
    }
  }

  lemma SegmentTable(segment: seq<Entry>)
    requires segment != [] && Seqnos(segment)
    ensures InsertAll([], segment) != [] && Sorted(InsertAll([], segment))
    ensures forall e :: e in InsertAll([], segment) <==> e in segment
  {
    InsertAllSorted([], segment);
    forall e ensures e in InsertAll([], segment) <==> e in segment {
      InsertAllMembers([], segment, e);
    }
  }

  /** One replayed memtable becomes a level-0 table. */
  lemma ReplayStep(before: VersionState, segment: seq<Entry>, size: nat, logNumber: nat) returns (file: File)
    requires WellFormed(before) && |before.core.levels| == NUM_LEVELS && segment != [] && Seqnos(segment)
    ensures InsertAll([], segment) != [] && file == TableOf(before.core.nextFile, size, InsertAll([], segment))
    ensures var seqno := segment[|segment| - 1].k.seqno;
            var r := FlushTable(before, InsertAll([], segment), size, logNumber, seqno);
            WellFormed(r) && Flushed(before, r, file, logNumber, seqno)
  {
    hide Sound, LevelsInOrder, NumbersUnique, FlushTable, InsertAll, LevelsKept, NumbersBelow, Seqnos, Flushed;
    SegmentTable(segment);
    var entries, seqno := InsertAll([], segment), segment[|segment| - 1].k.seqno;
    file := TableOf(before.core.nextFile, size, entries);
    var r := FlushTable(before, entries, size, logNumber, seqno);
    FlushEffect(before, entries, size, logNumber, seqno);
    SoundNumbers(before);
    SoundNumbers(r);
    FlushedTables(before, r, file, logNumber, seqno);
  }

  /** Each replayed memtable becomes a level-0 table of its size, numbered in that order. */
  lemma {:induction false} ReplayEffect(vs: VersionState, segments: seq<seq<Entry>>, sizes: seq<nat>, logNumber: nat, last: nat) returns (files: seq<File>)
    requires WellFormed(vs) && |sizes| == |segments|
    requires forall i :: 0 <= i < |segments| ==> segments[i] != []
    requires Seqnos(Flatten(segments))
    requires vs.core.lastSequence <= last && forall e :: e in Flatten(segments) ==> e.k.seqno <= last
    ensures WellFormed(ReplayTables(vs, segments, sizes, logNumber))
    ensures Replayed(vs, ReplayTables(vs, segments, sizes, logNumber), files, segments, last)
    ensures TablesMade(files, segments, sizes)
  {
    LevelCount(vs);
    hide WellFormed, FlushTable, InsertAll, Seqnos, Replayed, Flushed, TablesMade;
    if segments == [] {
      files := [];
      NothingReplayed(vs, last);
      NoneMade();
    } else {
      var n := |segments| - 1;
      FlattenPrefix(segments);
      var before := ReplayTables(vs, segments[..n], sizes[..n], logNumber);
      var done := ReplayEffect(vs, segments[..n], sizes[..n], logNumber, last);
      var segment := segments[n];
      assert segment[|segment| - 1] in segment;
      var file := ReplayStep(before, segment, sizes[n], logNumber);
      files := done + [file];
      OneMoreMade(done, segments, sizes, before.core.nextFile);
      ReplayedOneMore(vs, before, ReplayTables(vs, segments, sizes, logNumber), done, file, segments, logNumber,
                      segment[|segment| - 1].k.seqno, last);
    }
  }

  ghost predicate TablesMade(files: seq<File>, segments: seq<seq<Entry>>, sizes: seq<nat>) {
    && |files| == |segments| == |sizes|
    && forall i :: 0 <= i < |files| ==> IsTableOf(files[i], sizes[i], InsertAll([], segments[i]))
  }

  ghost predicate IsTableOf(f: File, size: nat, entries: seq<Entry>) {
    entries != [] && f == TableOf(f.number, size, entries)
  }

  lemma NoneMade()
    ensures TablesMade([], [], [])
  {
  }

  lemma OneMoreMade(done: seq<File>, segments: seq<seq<Entry>>, sizes: seq<nat>, number: nat)
    requires segments != [] && |sizes| == |segments| && TablesMade(done, segments[..|segments| - 1], sizes[..|sizes| - 1])
    requires InsertAll([], segments[|segments| - 1]) != []
    ensures var n := |segments| - 1; TablesMade(done + [TableOf(number, sizes[n], InsertAll([], segments[n]))], segments, sizes)
  {
    hide InsertAll;
    var n := |segments| - 1;
    var files := done + [TableOf(number, sizes[n], InsertAll([], segments[n]))];
    forall i | 0 <= i < |files|
      ensures IsTableOf(files[i], sizes[i], InsertAll([], segments[i]))
    {
      if i < n {
        assert segments[..n][i] == segments[i] && sizes[..n][i] == sizes[i];
      }
    }
  }

  lemma LevelCount(vs: VersionState)
    requires WellFormed(vs)
    ensures |vs.core.levels| == NUM_LEVELS
  {
  }

  lemma NothingReplayed(vs: VersionState, last: nat)
    requires WellFormed(vs) && vs.core.lastSequence <= last
    ensures Replayed(vs, vs, [], [], last)
  {
    hide LevelsInOrder, NumbersUnique;
  }

  lemma ReplayedOneMore(vs: VersionState, before: VersionState, r: VersionState, done: seq<File>, file: File,
                        segments: seq<seq<Entry>>, logNumber: nat, seqno: nat, last: nat)
    requires segments != []
    requires Replayed(vs, before, done, segments[..|segments| - 1], last)
    requires Flushed(before, r, file, logNumber, seqno) && seqno <= last
    requires file.entries == InsertAll([], segments[|segments| - 1])
    ensures Replayed(vs, r, done + [file], segments, last)
  {
    hide InsertAll;
    var files := done + [file];
    forall i | 0 <= i < |files|
      ensures files[i].entries == InsertAll([], segments[i])
    {
      assert i < |done| ==> segments[..|segments| - 1][i] == segments[i];
    }
    forall f
      ensures f in r.core.levels[0] <==> f in vs.core.levels[0] || f in files
    {
      assert f in files <==> f in done || f == file;
    }
  }

  // ------------------------------------------------------------------ the reopened store

  /** What a reopen changes, seen from outside. */
  ghost predicate Reopened(db: Db, db': Db, files: seq<File>, segments: seq<seq<Entry>>) {
    && db'.mem == [] && db'.imm == [] && db'.snapshots == multiset{} && db'.pending == None
    && db'.last == db.last && db'.reopenedAt == db.last && db'.history == db.history
    && |files| == |segments| && |db.Levels()| == |db'.Levels()| == NUM_LEVELS
    && (forall i, j :: 0 <= i < j < |files| ==> files[i].number < files[j].number)
    && (forall i :: 0 <= i < |files| ==> forall e :: e in files[i].entries <==> e in segments[i])
    && (forall f :: f in db'.Levels()[0] <==> f in db.Levels()[0] || f in files)
    && (forall l :: 1 <= l < NUM_LEVELS ==> db'.Levels()[l] == db.Levels()[l])
  }

  ghost predicate NewerThanTables(db: Db, files: seq<File>)
    requires db.Levels() != []
  {
    forall i, f :: 0 <= i < |files| && f in db.Levels()[0] ==> f.number < files[i].number
  }

  lemma {:induction false} FlattenMembers(segments: seq<seq<Entry>>, e: Entry)
    ensures e in Flatten(segments) <==> exists i :: 0 <= i < |segments| && e in segments[i]
  {
    if segments != [] {
      FlattenMembers(segments[..|segments| - 1], e);
    }
  }

  lemma {:induction false} SegmentsAscend(segments: seq<seq<Entry>>, i: nat, j: nat, e: Entry, f: Entry)
    requires Seqnos(Flatten(segments))
    requires i < j < |segments| && e in segments[i] && f in segments[j]
    ensures e.k.seqno < f.k.seqno
  {
    var n := |segments| - 1;
    FlattenPrefix(segments);
    if j < n {
      SegmentsAscend(segments[..n], i, j, e, f);
    } else {
      var all, before, seg := Flatten(segments), Flatten(segments[..n]), segments[n];
      FlattenMembers(segments[..n], e);
      assert segments[..n][i] == segments[i];
      var x :| 0 <= x < |before| && before[x] == e;
      var y :| 0 <= y < |seg| && seg[y] == f;
      assert all[x] == e && all[|before| + y] == f;
    }
  }

  lemma ReopenStores(db: Db, db': Db, files: seq<File>, segments: seq<seq<Entry>>, p: Place, e: Entry)
    requires Reopened(db, db', files, segments) && NewerThanTables(db, files)
    ensures Stored(db', p, e) <==>
              || (0 <= p.level && Stored(db, p, e))
              || (p.level == 0 && exists i :: 0 <= i < |files| && files[i].number == p.number && e in segments[i])
  {
    if p.level == 0 {
      if i :| 0 <= i < |files| && files[i].number == p.number && e in segments[i] {
        assert files[i] in db'.Levels()[0] && e in files[i].entries;
      }
      if Stored(db', p, e) {
        var f :| f in db'.Levels()[0] && f.number == p.number && e in f.entries;
        if f in files {
          var i :| 0 <= i < |files| && files[i] == f;
        }
      }
    }
  }

  /** A replayed version sits in a table that is searched before all older tables. */
  lemma ReplayedPlace(db: Db, db': Db, files: seq<File>, segments: seq<seq<Entry>>, e: Entry) returns (j: nat)
    requires Reopened(db, db', files, segments) && NewerThanTables(db, files)
    requires e in Flatten(segments)
    ensures j < |files| && e in segments[j] && Stored(db', Place(0, files[j].number), e)
    ensures forall p, f :: Stored(db, p, f) && 0 <= p.level ==> NoLater(Place(0, files[j].number), p)
  {
    FlattenMembers(segments, e);
    j :| 0 <= j < |segments| && e in segments[j];
    ReopenStores(db, db', files, segments, Place(0, files[j].number), e);
  }

  /** The replayed log is the final stretch of the history, and holds all unflushed versions. */
  ghost predicate ReplaysTail(db: Db, segments: seq<seq<Entry>>) {
    && |Flatten(segments)| <= |db.history| && Flatten(segments) == db.history[|db.history| - |Flatten(segments)|..]
    && forall e :: e in db.mem || e in db.imm ==> e in Flatten(segments)
  }

  lemma TailSeqnos(db: Db, segments: seq<seq<Entry>>)
    requires HistoryInOrder(db) && ReplaysTail(db, segments)
    ensures Seqnos(Flatten(segments))
    ensures forall e :: e in Flatten(segments) ==> e in db.history && |db.history| - |Flatten(segments)| < e.k.seqno <= db.last
    ensures forall e :: e in db.history && |db.history| - |Flatten(segments)| < e.k.seqno ==> e in Flatten(segments)
  {
    var tail := Flatten(segments);
    var m := |db.history| - |tail|;
    assert forall i :: 0 <= i < |tail| ==> tail[i] == db.history[m + i];
    forall e | e in db.history && m < e.k.seqno
      ensures e in tail
    {
      assert db.history[e.k.seqno - 1] == e;
      assert tail[e.k.seqno - 1 - m] == e;
    }
  }

  /** A replayed version is found no later than any version of its key that is not newer. */
  lemma ReplayedIsCovered(db: Db, db': Db, files: seq<File>, segments: seq<seq<Entry>>, p: Place, f: Entry, e: Entry)
    requires Reopened(db, db', files, segments) && NewerThanTables(db, files)
    requires Seqnos(Flatten(segments))
    requires Stored(db', p, f) && e in Flatten(segments) && f.k.user == e.k.user && f.k.seqno <= e.k.seqno
    ensures Covered(db', p, e)
  {
    ReopenStores(db, db', files, segments, p, f);
    var j := ReplayedPlace(db, db', files, segments, e);
    assert StandsFor(db', e, e);
    if !(0 <= p.level && Stored(db, p, f)) {
      var i :| 0 <= i < |files| && files[i].number == p.number && f in segments[i];
      if j < i {
        SegmentsAscend(segments, j, i, e, f);
      }
      assert NoLater(Place(0, files[j].number), p);
    }
  }

  /** What covered a table version before the reopen covers it now: a table, or a replayed version. */
  lemma TableIsCovered(db: Db, db': Db, files: seq<File>, segments: seq<seq<Entry>>, p: Place, e: Entry, q: Place, x: Entry)
    requires Reopened(db, db', files, segments) && NewerThanTables(db, files)
    requires ReplaysTail(db, segments)
    requires 0 <= p.level && NoLater(q, p) && Stored(db, q, x) && StandsFor(db, x, e) && x.k.seqno <= db.last
    requires exists f :: Stored(db, p, f)
    ensures Covered(db', p, e)
  {
    assert StandsFor(db', x, e);
    if 0 <= q.level {
      ReopenStores(db, db', files, segments, q, x);
    } else {
      var f :| Stored(db, p, f);
      var j := ReplayedPlace(db, db', files, segments, x);
    }
  }

  lemma TableVersion(db: Db, db': Db, files: seq<File>, segments: seq<seq<Entry>>, p: Place, e: Entry)
    requires Reopened(db, db', files, segments) && NewerThanTables(db, files)
    requires Stored(db', p, e) && e !in Flatten(segments)
    ensures 0 <= p.level && Stored(db, p, e)
  {
    ReopenStores(db, db', files, segments, p, e);
    FlattenMembers(segments, e);
  }

  lemma ReopenCovers(db: Db, db': Db, files: seq<File>, segments: seq<seq<Entry>>, p: Place, f: Entry, e: Entry)
    requires Reopened(db, db', files, segments) && NewerThanTables(db, files)
    requires HistoryInOrder(db) && OnlyHistory(db) && NewerAbove(db) && ReplaysTail(db, segments)
    requires Stored(db', p, f) && e in All(db') && f.k.user == e.k.user && f.k.seqno <= e.k.seqno
    ensures Covered(db', p, e)
  {
    hide Reopened, NewerThanTables, Flatten, Seqnos, ReplaysTail;
    TailSeqnos(db, segments);
    if e in Flatten(segments) {
      ReplayedIsCovered(db, db', files, segments, p, f, e);
    } else {
      AllStored(db', e);
      var r :| Stored(db', r, e);
      TableVersion(db, db', files, segments, r, e);
      StoredIsHistory(db, r, e);
      TableVersion(db, db', files, segments, p, f);
      var q, x :| NoLater(q, p) && Stored(db, q, x) && StandsFor(db, x, e);
      StoredIsHistory(db, q, x);
      TableIsCovered(db, db', files, segments, p, e, q, x);
    }
  }

  lemma ReopenAll(db: Db, db': Db, files: seq<File>, segments: seq<seq<Entry>>)
    requires Reopened(db, db', files, segments) && NewerThanTables(db, files)
    ensures All(db') == TableEntries(db.Levels()) + SetOf(Flatten(segments))
  {
    forall e
      ensures e in All(db') <==> e in TableEntries(db.Levels()) || e in Flatten(segments)
    {
      AllStored(db', e);
      FlattenMembers(segments, e);
      if p :| Stored(db', p, e) {
        ReopenStores(db, db', files, segments, p, e);
      }
      if e in TableEntries(db.Levels()) {
        var l, f :| 0 <= l < |db.Levels()| && f in db.Levels()[l] && e in f.entries;
        assert Stored(db, Place(l, f.number), e);
        ReopenStores(db, db', files, segments, Place(l, f.number), e);
      }
      if e in Flatten(segments) {
        var j := ReplayedPlace(db, db', files, segments, e);
      }
    }
  }

  lemma ReadFromLog(T: set<Entry>, N: set<Entry>, H: set<Entry>, u: UserKey, s: nat)
    requires Consistent(H) && T + N <= H
    requires forall e, f :: e in N && f in H && e.k.seqno <= f.k.seqno ==> f in N
    requires exists e :: VersionOf(N, u, s, e)
    ensures Read(T + N, u, s) == Read(H, u, s)
  {
    var e :| VersionOf(N, u, s, e);
    assert VersionOf(H, u, s, e);
    var n := NewestExists(H, u, s);
    assert n in N;
    assert forall f :: VersionOf(T + N, u, s, f) ==> VersionOf(H, u, s, f);
    assert Newest(T + N, u, s, n);
    ReadNewest(H, u, s, n);
    ReadNewest(T + N, u, s, n);
  }

  /** At every sequence a reader can have after the reopen, replaying the log onto the recovered tables
      reads as the store did before. */
  lemma ReopenKeepsRead(db: Db, segments: seq<seq<Entry>>, u: UserKey, s: nat)
    requires HistoryInOrder(db) && OnlyHistory(db) && ReadsHistory(db) && ReplaysTail(db, segments)
    requires db.last <= s
    ensures Read(TableEntries(db.Levels()) + SetOf(Flatten(segments)), u, s) == Read(SetOf(db.history), u, s)
  {
    var T, N, H := TableEntries(db.Levels()), SetOf(Flatten(segments)), SetOf(db.history);
    TailSeqnos(db, segments);
    HistoryConsistent(db);
    assert T <= All(db);
    assert T + N <= H;
    if exists e :: VersionOf(N, u, s, e) {
      ReadFromLog(T, N, H, u, s);
    } else {
      hide HistoryInOrder, TableEntries, Flatten;
      ReadFromTables(db, T, N, u, s);
    }
  }

  lemma ReadFromTables(db: Db, T: set<Entry>, N: set<Entry>, u: UserKey, s: nat)
    requires T == TableEntries(db.Levels())
    requires OnlyHistory(db) && ReadsHistory(db) && Consistent(SetOf(db.history)) && T + N <= SetOf(db.history)
    requires SetOf(db.mem) + SetOf(db.imm) <= N
    requires db.last <= s && forall e :: !VersionOf(N, u, s, e)
    ensures Read(T + N, u, s) == Read(SetOf(db.history), u, s)
  {
    hide TableEntries;
    var M := SetOf(db.mem) + SetOf(db.imm);
    assert forall e :: VersionOf(M, u, s, e) ==> VersionOf(N, u, s, e);
    assert T + M == All(db);
    ReadIgnores(T, N, u, s);
    ReadIgnores(T, M, u, s);
    assert Readable(db, s);
  }

  lemma ReopenedKeepsInv(db: Db, db': Db, files: seq<File>, segments: seq<seq<Entry>>)
    requires Inv(db) && Reopened(db, db', files, segments) && NewerThanTables(db, files) && ReplaysTail(db, segments)
    requires TablesInOrder(db') && LogsCover(db')
    ensures Inv(db')
  {
    hide NewerAbove, SharedOld, LogsCover, TablesInOrder, Reopened, ReadsHistory;
    ReopenAll(db, db', files, segments);
    TailSeqnos(db, segments);
    ReopenedNewerAbove(db, db', files, segments);
    ReopenedReads(db, db', files, segments);
    ReopenedRest(db, db', files, segments);
  }

  lemma ReopenedNewerAbove(db: Db, db': Db, files: seq<File>, segments: seq<seq<Entry>>)
    requires Reopened(db, db', files, segments) && NewerThanTables(db, files)
    requires HistoryInOrder(db) && OnlyHistory(db) && NewerAbove(db) && ReplaysTail(db, segments)
    ensures NewerAbove(db')
  {
    hide Reopened, ReplaysTail, OnlyHistory, HistoryInOrder;
    forall p, f, e | Stored(db', p, f) && e in All(db') && f.k.user == e.k.user && f.k.seqno <= e.k.seqno
      ensures Covered(db', p, e)
    {
      ReopenCovers(db, db', files, segments, p, f, e);
    }
  }

  lemma ReopenedReads(db: Db, db': Db, files: seq<File>, segments: seq<seq<Entry>>)
    requires Reopened(db, db', files, segments) && NewerThanTables(db, files)
    requires HistoryInOrder(db) && OnlyHistory(db) && ReadsHistory(db) && ReplaysTail(db, segments)
    ensures ReadsHistory(db') && OnlyHistory(db')
  {
    ReopenAll(db, db', files, segments);
    TailSeqnos(db, segments);
    assert TableEntries(db.Levels()) <= All(db);
    forall u, s | Readable(db', s)
      ensures Read(All(db'), u, s) == Read(SetOf(db'.history), u, s)
    {
      ReopenKeepsRead(db, segments, u, s);
    }
  }

  lemma ReopenedRest(db: Db, db': Db, files: seq<File>, segments: seq<seq<Entry>>)
    requires Reopened(db, db', files, segments) && HistoryInOrder(db) && OnlyHistory(db')
    ensures HistoryInOrder(db') && SharedOld(db') && MemoryFresh(db') && SnapshotsInRange(db') && PendingClosed(db')
  {
    assert HistoryInOrder(db');
    forall p, q, e | Stored(db', p, e) && Stored(db', q, e) && p != q
      ensures e.k.seqno <= db'.reopenedAt
    {
      StoredIsHistory(db', p, e);
    }
  }

  // ------------------------------------------------------------------ ReopenStep is such a change

  lemma LastIsRecovered(db: Db)
    requires LogsCover(db) && HistoryInOrder(db) && Durable(db.vs)
    ensures var es := CurrentLog(db).entries;
            (if es == [] then Recovered(db.vs).core.lastSequence
             else Max(Recovered(db.vs).core.lastSequence, es[|es| - 1].k.seqno)) == db.last
  {
    var es := CurrentLog(db).entries;
    if es != [] {
      assert es[|es| - 1] == db.history[|db.history| - 1];
    }
  }

  lemma EmptyEditEffect(vs: VersionState, logNumber: nat, last: nat)
    requires WellFormed(vs)
    ensures var r := LogAndApply(vs, Edit(Some(logNumber), None, Some(last), {}, [], map[]));
            && WellFormed(r) && r.manifest != [] && r.core.levels == vs.core.levels
            && r.core.logNumber == logNumber && r.core.lastSequence == Max(vs.core.lastSequence, last)
  {
    hide LevelsInOrder, NumbersUnique, LogAndApply;
    var e := Edit(Some(logNumber), None, Some(last), {}, [], map[]);
    EmptyIsProper(vs, e);
    LogEffect(vs, e);
    hide Sound;
    NothingAdded(vs.core, LogAndApply(vs, e).core, e);
  }

  lemma NothingAdded(c: Core, d: Core, e: Edit)
    requires Logged(c, d, e) && e.added == [] && e.deleted == {}
    ensures d.levels == c.levels
  {
    forall l | 0 <= l < NUM_LEVELS
      ensures d.levels[l] == c.levels[l]
    {
      assert LevelLogged(c.levels[l], d.levels[l], FilesAt([], l), DeletedAt(e, l));
      assert FilesAt([], l) == [];
    }
  }

  lemma EmptyIsProper(vs: VersionState, e: Edit)
    requires Sound(vs) && e.nextFile.None? && e.added == [] && e.deleted == {}
    ensures ProperEdit(vs, e)
  {
    hide Durable;
    forall l | 0 <= l < NUM_LEVELS
      ensures NoClash(vs.core.levels[l], FilesAt([], l), DeletedAt(e, l))
    {
      assert FilesAt([], l) == [];
    }
  }

  /** The version set as Open has it before replaying logs. */
  function Marked(vs: VersionState, seen: nat): VersionState {
    var r := Recovered(vs);
    r.(core := r.core.(nextFile := Max(r.core.nextFile, seen)))
  }

  lemma MarkedIsWellFormed(vs: VersionState, seen: nat)
    requires WellFormed(vs)
    ensures WellFormed(Marked(vs, seen)) && |Marked(vs, seen).core.levels| == NUM_LEVELS
    ensures Marked(vs, seen).core.levels == vs.core.levels && Marked(vs, seen).core.lastSequence == vs.core.lastSequence
    ensures seen <= Marked(vs, seen).core.nextFile
  {
  }

  function ReopenVersion(db: Db, segments: seq<seq<Entry>>, sizes: seq<nat>, seen: nat): VersionState
    requires db.logs != [] && |sizes| == |segments|
    requires forall i :: 0 <= i < |segments| ==> segments[i] != []
  {
    var flushed := ReplayTables(Marked(db.vs, seen), segments, sizes, CurrentLog(db).number);
    var logNumber := flushed.core.nextFile;
    LogAndApply(flushed.(core := flushed.core.(nextFile := logNumber + 1)), Edit(Some(logNumber), None, Some(db.last), {}, [], map[]))
  }

  lemma ReopenStepShape(db: Db, segments: seq<seq<Entry>>, sizes: seq<nat>, seen: nat)
    requires LogsCover(db) && HistoryInOrder(db) && Durable(db.vs)
    requires |sizes| == |segments| && forall i :: 0 <= i < |segments| ==> segments[i] != []
    ensures var flushed := ReplayTables(Marked(db.vs, seen), segments, sizes, CurrentLog(db).number);
            ReopenStep(db, segments, sizes, seen)
              == Db([], [], ReopenVersion(db, segments, sizes, seen), db.logs + [LogFile(flushed.core.nextFile, [])],
                    db.last, multiset{}, None, db.last, db.history)
  {
    hide LogAndApply, ReplayTables, LogsCover, HistoryInOrder, Durable;
    LiveLogIsCurrent(db);
    LastIsRecovered(db);
  }

  lemma TakenIsWellFormed(vs: VersionState)
    requires WellFormed(vs)
    ensures WellFormed(vs.(core := vs.core.(nextFile := vs.core.nextFile + 1)))
  {
  }

  /** The reopened version set: one more level-0 table per segment, and a new log number. */
  lemma ReopenVersionEffect(db: Db, segments: seq<seq<Entry>>, sizes: seq<nat>, seen: nat) returns (files: seq<File>)
    requires WellFormed(db.vs) && HistoryInOrder(db) && ReplaysTail(db, segments)
    requires db.logs != [] && db.vs.core.lastSequence <= db.last
    requires |sizes| == |segments| && forall i :: 0 <= i < |segments| ==> segments[i] != []
    ensures var marked := Marked(db.vs, seen);
            var flushed := ReplayTables(marked, segments, sizes, CurrentLog(db).number);
            var vs := ReopenVersion(db, segments, sizes, seen);
            && Replayed(marked, flushed, files, segments, db.last)
            && WellFormed(vs) && vs.manifest != [] && vs.core.levels == flushed.core.levels
            && vs.core.logNumber == flushed.core.nextFile && vs.core.lastSequence == db.last
  {
    hide WellFormed, HistoryInOrder, Marked, ReplayTables, Seqnos, ReplaysTail, Replayed, LogAndApply, Flatten;
    var marked := Marked(db.vs, seen);
    TailSeqnos(db, segments);
    MarkedIsWellFormed(db.vs, seen);
    files := ReplayEffect(marked, segments, sizes, CurrentLog(db).number, db.last);
    var flushed := ReplayTables(marked, segments, sizes, CurrentLog(db).number);
    TakenIsWellFormed(flushed);
    EmptyEditEffect(flushed.(core := flushed.core.(nextFile := flushed.core.nextFile + 1)), flushed.core.nextFile, db.last);
    LastOfReplayed(marked, flushed, files, segments, db.last);
  }

  lemma LastOfReplayed(vs: VersionState, r: VersionState, files: seq<File>, segments: seq<seq<Entry>>, last: nat)
    requires Replayed(vs, r, files, segments, last)
    ensures Max(r.core.lastSequence, last) == last
  {
  }

  lemma SegmentEntries(segments: seq<seq<Entry>>, files: seq<File>)
    requires |files| == |segments| && Seqnos(Flatten(segments))
    requires forall i :: 0 <= i < |files| ==> files[i].entries == InsertAll([], segments[i])
    ensures forall i :: 0 <= i < |files| ==> forall e :: e in files[i].entries <==> e in segments[i]
  {
    forall i, e | 0 <= i < |files|
      ensures e in files[i].entries <==> e in segments[i]
    {
      InsertAllMembers([], segments[i], e);
    }
  }

  lemma ReplayedIsReopened(db: Db, db': Db, marked: VersionState, flushed: VersionState, files: seq<File>, segments: seq<seq<Entry>>)
    requires WellFormed(marked) && marked.core.levels == db.Levels()
    requires Replayed(marked, flushed, files, segments, db.last) && flushed.core.levels == db'.Levels()
    requires Seqnos(Flatten(segments))
    requires db'.mem == [] && db'.imm == [] && db'.snapshots == multiset{} && db'.pending == None
    requires db'.last == db.last && db'.reopenedAt == db.last && db'.history == db.history
    ensures Reopened(db, db', files, segments) && NewerThanTables(db, files)
  {
    SoundNumbers(marked);
    SegmentEntries(segments, files);
    hide Sound, LevelsInOrder, LevelsKept, NumbersUnique;
    forall i, f | 0 <= i < |files| && f in db.Levels()[0]
      ensures f.number < files[i].number
    {
      NumberTaken(marked.core.levels, marked.core.nextFile, 0, f);
    }
  }

  lemma ReopenedLogs(db: Db, db': Db, logNumber: nat, seen: nat)
    requires LogsCover(db) && db'.logs == db.logs + [LogFile(logNumber, [])]
    requires forall i :: 0 <= i < |db.logs| ==> db.logs[i].number < seen
    requires seen <= logNumber == db'.vs.core.logNumber && db'.vs.manifest != []
    requires db'.mem == [] && db'.imm == [] && |db'.history| == db'.last == db'.vs.core.lastSequence
    ensures LogsCover(db')
  {
    var n := |db'.logs| - 1;
    forall i | 0 <= i < n
      ensures db'.logs[i].number < db'.vs.core.logNumber
    {
      assert db'.logs[i] == db.logs[i];
    }
  }

  lemma ReopenKeepsInv(db: Db, segments: seq<seq<Entry>>, sizes: seq<nat>, seen: nat)
    requires Inv(db) && Enabled(db, Reopen(segments, sizes, seen))
    ensures Inv(ReopenStep(db, segments, sizes, seen))
  {
    hide NewerAbove, SharedOld, ReadsHistory, PendingClosed, MemoryFresh, LevelsInOrder, NumbersUnique, LiveLogs, LogEntries, Flatten;
    LiveLogIsCurrent(db);
    assert ReplaysTail(db, segments);
    assert db.vs.core.lastSequence <= db.last;
    ReopenStepShape(db, segments, sizes, seen);
    assert WellFormed(db.vs);
    hide LogsCover, Sound, HistoryInOrder, OnlyHistory, WellFormed, Recovered, ReplaysTail;
    var marked := Marked(db.vs, seen);
    MarkedIsWellFormed(db.vs, seen);
    var flushed := ReplayTables(marked, segments, sizes, CurrentLog(db).number);
    var files := ReopenVersionEffect(db, segments, sizes, seen);
    TailSeqnos(db, segments);
    ReopenFinish(db, ReopenStep(db, segments, sizes, seen), marked, flushed, files, segments, seen);
  }

  /** A reopen adds tables to level 0 and leaves the other levels as they are. */
  lemma ReopenLevels(db: Db, segments: seq<seq<Entry>>, sizes: seq<nat>, seen: nat) returns (files: seq<File>)
    requires Inv(db) && Enabled(db, Reopen(segments, sizes, seen))
    ensures var db' := ReopenStep(db, segments, sizes, seen);
            && |db.Levels()| == |db'.Levels()| == NUM_LEVELS && db'.pending == None
            && forall l :: 1 <= l < NUM_LEVELS ==> db'.Levels()[l] == db.Levels()[l]
  {
    hide NewerAbove, SharedOld, ReadsHistory, PendingClosed, MemoryFresh, LevelsInOrder, NumbersUnique, LiveLogs, LogEntries, Flatten;
    LiveLogIsCurrent(db);
    assert ReplaysTail(db, segments);
    assert db.vs.core.lastSequence <= db.last;
    ReopenStepShape(db, segments, sizes, seen);
    assert WellFormed(db.vs);
    hide LogsCover, Sound, HistoryInOrder, OnlyHistory, WellFormed, Recovered, ReplaysTail;
    MarkedIsWellFormed(db.vs, seen);
    files := ReopenVersionEffect(db, segments, sizes, seen);
  }

  lemma ReopenFinish(db: Db, db': Db, marked: VersionState, flushed: VersionState, files: seq<File>, segments: seq<seq<Entry>>, seen: nat)
    requires Inv(db) && ReplaysTail(db, segments) && Seqnos(Flatten(segments))
    requires db'.mem == [] && db'.imm == [] && db'.snapshots == multiset{} && db'.pending == None
    requires db'.last == db.last && db'.reopenedAt == db.last && db'.history == db.history
    requires db'.logs == db.logs + [LogFile(flushed.core.nextFile, [])]
    requires forall i :: 0 <= i < |db.logs| ==> db.logs[i].number < seen
    requires WellFormed(marked) && marked.core.levels == db.Levels() && seen <= marked.core.nextFile
    requires Replayed(marked, flushed, files, segments, db.last)
    requires WellFormed(db'.vs) && db'.vs.manifest != [] && db'.Levels() == flushed.core.levels
    requires db'.vs.core.logNumber == flushed.core.nextFile && db'.vs.core.lastSequence == db.last
    ensures Inv(db')
  {
    hide NewerAbove, SharedOld, ReadsHistory, PendingClosed, MemoryFresh, LevelsInOrder, NumbersUnique, LogsCover, Sound, Flatten, ReplaysTail, Seqnos;
    ReplayedIsReopened(db, db', marked, flushed, files, segments);
    ReopenedLogs(db, db', flushed.core.nextFile, seen);
    assert TablesInOrder(db');
    hide *;
    ReopenedKeepsInv(db, db', files, segments);
  }
}

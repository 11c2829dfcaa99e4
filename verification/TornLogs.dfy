/** Opening after the current log lost its end (db/db_impl.cc, Open and RecoverLogFile).  The log is not changed when
    a memtable is flushed, so a cut can also lose versions that are in tables; then replaying what is left can bring
    back what a flushed and compacted deletion had removed. */
module TornLogs {
  import opened Keys
  import opened Files
  import opened Visibility
  import opened Versions
  import opened InputSelection
  import opened Engine
  import opened Invariants
  import opened SafetyReopen
  import opened Safety
  import opened TablesAlone

  /** The store with its current log cut to its first `k` versions. */
  function CutLog(db: Db, k: nat): Db
    requires db.logs != [] && k <= |CurrentLog(db).entries|
  {
    var n := |db.logs| - 1;
    db.(logs := db.logs[..n] + [db.logs[n].(entries := db.logs[n].entries[..k])])
  }

  ghost predicate CutReopen(db: Db, k: nat, segments: seq<seq<Entry>>, sizes: seq<nat>, seen: nat) {
    db.logs != [] && k <= |CurrentLog(db).entries| && Enabled(CutLog(db, k), Reopen(segments, sizes, seen))
  }

  /** How many of the operations are left in the log or older than it. */
  function Survived(db: Db, k: nat): int
    requires db.logs != []
  {
    |db.history| - |CurrentLog(db).entries| + k
  }

  // ------------------------------------------------------------------ what such a reopen stores

  lemma CutLogLives(db: Db, k: nat)
    requires LogsCover(db) && Durable(db.vs) && k <= |CurrentLog(db).entries|
    ensures LogEntries(LiveLogs(CutLog(db, k).logs, Recovered(db.vs))) == CurrentLog(db).entries[..k]
  {
    hide Replay, LiveLogs, LogEntries;
    var vs, logs := Recovered(db.vs), CutLog(db, k).logs;
    assert vs.core.logNumber == db.vs.core.logNumber && vs.manifest == db.vs.manifest;
    assert forall i :: 0 <= i < |logs| - 1 ==> logs[i] == db.logs[i];
    LastLogLives(logs, vs);
  }

  lemma CutSegments(db: Db, k: nat, segments: seq<seq<Entry>>, sizes: seq<nat>, seen: nat)
    requires LogsCover(db) && Sound(db.vs) && CutReopen(db, k, segments, sizes, seen)
    ensures Flatten(segments) == CurrentLog(db).entries[..k] && |sizes| == |segments| && CutLog(db, k).logs != []
    ensures forall i :: 0 <= i < |segments| ==> segments[i] != []
  {
    assert db.logs != [];
    hide LogsCover, Durable, Sound, Flatten, LiveLogs, LogEntries, Recovered;
    SoundIsDurable(db.vs);
    CutLogLives(db, k);
    CutSame(db, k);
    hide CutLog, CurrentLog;
  }

  lemma CutIsHistory(db: Db, k: nat)
    requires LogsCover(db) && HistoryInOrder(db) && k <= |CurrentLog(db).entries|
    ensures var es := CurrentLog(db).entries[..k];
            && Seqnos(es) && 0 <= Survived(db, k) <= |db.history|
            && forall e :: e in es <==> e in db.history && |db.history| - |CurrentLog(db).entries| < e.k.seqno <= Survived(db, k)
  {
    LogIsTail(db);
    var all := CurrentLog(db).entries;
    hide LogsCover, CurrentLog;
    TailPrefix(db, all, |db.history| - |all|, k);
  }

  lemma LogIsTail(db: Db)
    requires LogsCover(db)
    ensures db.logs != [] && |CurrentLog(db).entries| <= |db.history|
    ensures CurrentLog(db).entries == db.history[|db.history| - |CurrentLog(db).entries|..]
  {
  }

  lemma TailPrefix(db: Db, all: seq<Entry>, base: nat, k: nat)
    requires HistoryInOrder(db) && base <= |db.history| && all == db.history[base..] && k <= |all|
    ensures Seqnos(all[..k]) && forall e :: e in all[..k] <==> e in db.history && base < e.k.seqno <= base + k
  {
    assert forall i :: 0 <= i < |all| ==> all[i] == db.history[base + i];
    forall e
      ensures e in all[..k] <==> e in db.history && base < e.k.seqno <= base + k
    {
      if e in db.history && base < e.k.seqno <= base + k {
        assert all[..k][e.k.seqno - 1 - base] == db.history[e.k.seqno - 1] == e;
      }
    }
  }

  /** The edit that ends a reopen: a number for the new log, and the last sequence. */
  function WithNewLog(vs: VersionState, last: nat): VersionState
    requires |vs.core.levels| == NUM_LEVELS
  {
    LogAndApply(vs.(core := vs.core.(nextFile := vs.core.nextFile + 1)), Edit(Some(vs.core.nextFile), None, Some(last), {}, [], map[]))
  }

  lemma NewLogLevels(vs: VersionState, last: nat)
    requires WellFormed(vs) && |vs.core.levels| == NUM_LEVELS
    ensures WithNewLog(vs, last).core.levels == vs.core.levels
  {
    hide WellFormed, LogAndApply;
    TakenIsWellFormed(vs);
    EmptyEditEffect(vs.(core := vs.core.(nextFile := vs.core.nextFile + 1)), vs.core.nextFile, last);
  }

  lemma SoundIsDurable(vs: VersionState)
    requires Sound(vs)
    ensures Durable(vs)
  {
  }

  lemma CutSame(db: Db, k: nat)
    requires db.logs != [] && k <= |CurrentLog(db).entries|
    ensures var cut := CutLog(db, k); cut.logs != [] && cut.vs == db.vs && CurrentLog(cut).number == CurrentLog(db).number
  {
  }

  lemma ShapeOf(cut: Db, live: seq<Entry>, segments: seq<seq<Entry>>, sizes: seq<nat>, seen: nat)
    requires cut.logs != [] && |sizes| == |segments| && forall i :: 0 <= i < |segments| ==> segments[i] != []
    requires live == LogEntries(LiveLogs(cut.logs, Recovered(cut.vs))) && |Marked(cut.vs, seen).core.levels| == NUM_LEVELS
    ensures var r := ReopenStep(cut, segments, sizes, seen);
            && NothingInMemory(r)
            && r.last == (if live == [] then Recovered(cut.vs).core.lastSequence
                          else Max(Recovered(cut.vs).core.lastSequence, live[|live| - 1].k.seqno))
            && r.vs == WithNewLog(ReplayTables(Marked(cut.vs, seen), segments, sizes, CurrentLog(cut).number), r.last)
  {
    hide LogAndApply, ReplayTables, Recovered, LiveLogs, LogEntries;
  }

  lemma CutShape(db: Db, k: nat, segments: seq<seq<Entry>>, sizes: seq<nat>, seen: nat)
    requires db.logs != [] && LogsCover(db) && Sound(db.vs) && k <= |CurrentLog(db).entries| && |sizes| == |segments|
    requires CutLog(db, k).logs != []
    requires forall i :: 0 <= i < |segments| ==> segments[i] != []
    ensures |Marked(db.vs, seen).core.levels| == NUM_LEVELS
    ensures var r := ReopenStep(CutLog(db, k), segments, sizes, seen);
            var es := CurrentLog(db).entries[..k];
            && NothingInMemory(r)
            && r.last == (if es == [] then db.vs.core.lastSequence else Max(db.vs.core.lastSequence, es[k - 1].k.seqno))
            && r.vs == WithNewLog(ReplayTables(Marked(db.vs, seen), segments, sizes, CurrentLog(db).number), r.last)
  {
    hide WithNewLog, ReplayTables, LogsCover, Sound, Durable, Recovered, LiveLogs, LogEntries, ReopenStep, Marked, NothingInMemory, CutLog,
      CurrentLog;
    SoundIsDurable(db.vs);
    CutLogLives(db, k);
    SoundRecovers(db.vs, seen);
    CutSame(db, k);
    ShapeOf(CutLog(db, k), CurrentLog(db).entries[..k], segments, sizes, seen);
  }

  lemma SoundRecovers(vs: VersionState, seen: nat)
    requires Sound(vs)
    ensures Recovered(vs).core.lastSequence == vs.core.lastSequence && |Marked(vs, seen).core.levels| == NUM_LEVELS
  {
    hide Replay;
  }

  ghost predicate NothingInMemory(r: Db) {
    r.mem == [] && r.imm == [] && r.snapshots == multiset{} && r.pending == None
  }

  lemma CutLast(db: Db, k: nat, segments: seq<seq<Entry>>, sizes: seq<nat>, seen: nat)
    requires Sound(db.vs) && LogsCover(db) && HistoryInOrder(db) && CutReopen(db, k, segments, sizes, seen)
    requires |sizes| == |segments| && (forall i :: 0 <= i < |segments| ==> segments[i] != []) && CutLog(db, k).logs != []
    ensures var r := ReopenStep(CutLog(db, k), segments, sizes, seen);
            && NothingInMemory(r) && db.vs.core.lastSequence <= r.last && Survived(db, k) <= r.last
            && r.Levels() == WithNewLog(ReplayTables(Marked(db.vs, seen), segments, sizes, CurrentLog(db).number), r.last).core.levels
  {
    assert k <= |CurrentLog(db).entries|;
    SequencesBelow(db, k);
    CutShape(db, k, segments, sizes, seen);
    hide LogsCover, HistoryInOrder, Sound, CutReopen, ReopenStep, ReplayTables, CutLog, Marked, WithNewLog;
  }

  lemma CutVersion(db: Db, k: nat, segments: seq<seq<Entry>>, sizes: seq<nat>, seen: nat) returns (files: seq<File>)
    requires WellFormed(db.vs) && LogsCover(db) && HistoryInOrder(db) && k <= |CurrentLog(db).entries|
    requires |sizes| == |segments| && forall i :: 0 <= i < |segments| ==> segments[i] != []
    requires Flatten(segments) == CurrentLog(db).entries[..k]
    ensures var marked := Marked(db.vs, seen);
            var flushed := ReplayTables(marked, segments, sizes, CurrentLog(db).number);
            && WellFormed(marked) && marked.core.levels == db.Levels() && Seqnos(Flatten(segments))
            && Replayed(marked, flushed, files, segments, db.last)
            && forall last :: WithNewLog(flushed, last).core.levels == flushed.core.levels
  {
    CutIsHistory(db, k);
    SequencesBelow(db, k);
    hide LogsCover, HistoryInOrder, ReplayTables, Flatten, Seqnos, Marked, WellFormed, Replayed, WithNewLog, CurrentLog, Survived;
    MarkedIsWellFormed(db.vs, seen);
    var marked := Marked(db.vs, seen);
    files := ReplayEffect(marked, segments, sizes, CurrentLog(db).number, db.last);
    var flushed := ReplayTables(marked, segments, sizes, CurrentLog(db).number);
    forall last
      ensures WithNewLog(flushed, last).core.levels == flushed.core.levels
    {
      NewLogLevels(flushed, last);
    }
  }

  lemma SameButSequence(r: Db, last: nat, history: seq<Entry>)
    ensures All(r.(last := last, reopenedAt := last, history := history)) == All(r)
  {
  }

  /** Seen from the versions, it stores the tables and what is left of the log. */
  lemma CutStores(db: Db, k: nat, segments: seq<seq<Entry>>, sizes: seq<nat>, seen: nat)
    requires TablesInOrder(db) && LogsCover(db) && HistoryInOrder(db) && CutReopen(db, k, segments, sizes, seen)
    ensures CutLog(db, k).logs != [] && |sizes| == |segments| && forall i :: 0 <= i < |segments| ==> segments[i] != []
    ensures var r := ReopenStep(CutLog(db, k), segments, sizes, seen);
            && All(r) == TableEntries(db.Levels()) + SetOf(CurrentLog(db).entries[..k])
            && db.vs.core.lastSequence <= r.last && Survived(db, k) <= r.last
  {
    assert Sound(db.vs) && db.logs != [] && k <= |CurrentLog(db).entries|;
    hide Sound, LogsCover, HistoryInOrder, CutReopen, Flatten, LevelsInOrder, NumbersUnique, ReopenStep, CutLog, WellFormed, Replayed, Seqnos, All,
      TableEntries, Reopened, NewerThanTables, Marked, ReplayTables, WithNewLog;
    CutSegments(db, k, segments, sizes, seen);
    SoundIsWellFormed(db);
    CutLast(db, k, segments, sizes, seen);
    var files := CutVersion(db, k, segments, sizes, seen);
    var marked := Marked(db.vs, seen);
    var flushed := ReplayTables(marked, segments, sizes, CurrentLog(db).number);
    var r := ReopenStep(CutLog(db, k), segments, sizes, seen);
    var seenAs := r.(last := db.last, reopenedAt := db.last, history := db.history);
    ReplayedIsReopened(db, seenAs, marked, flushed, files, segments);
    ReopenAll(db, seenAs, files, segments);
    SameButSequence(r, db.last, db.history);
  }

  lemma SoundIsWellFormed(db: Db)
    requires TablesInOrder(db)
    ensures WellFormed(db.vs)
  {
    hide Sound, LevelsInOrder, NumbersUnique;
  }

  lemma SequencesBelow(db: Db, k: nat)
    requires LogsCover(db) && HistoryInOrder(db) && k <= |CurrentLog(db).entries|
    ensures db.vs.core.lastSequence <= db.last && forall e :: e in CurrentLog(db).entries[..k] ==> e.k.seqno <= db.last
    ensures var es := CurrentLog(db).entries[..k];
            if es == [] then Survived(db, k) <= db.vs.core.lastSequence else es[k - 1].k.seqno == Survived(db, k)
  {
    CutIsHistory(db, k);
    var all := CurrentLog(db).entries;
    if k > 0 {
      assert all[k - 1] == db.history[|db.history| - |all| + k - 1];
    }
  }

  // ------------------------------------------------------------------ what it reads

  /** What the log alone would answer. */
  function ValueIn(e: Entry): Option<Bytes> {
    if e.k.kind.Value? then Some(e.v) else None
  }

  /** A version of `E` is the newest there, newer than all of its key in `T`, and says something else than they do. */
  ghost predicate SurfacesOver(T: set<Entry>, E: set<Entry>, u: UserKey, n: nat, e: Entry) {
    && Newest(E, u, n, e) && (forall f :: f in T && f.k.user == u ==> f.k.seqno < e.k.seqno)
    && ValueIn(e) != Read(T, u, n)
  }

  /** A version left in the log surfaces over the tables. */
  ghost predicate Surfaces(db: Db, k: nat, n: nat, u: UserKey, e: Entry)
    requires db.logs != [] && k <= |CurrentLog(db).entries|
  {
    SurfacesOver(TableEntries(db.Levels()), SetOf(CurrentLog(db).entries[..k]), u, n, e)
  }

  ghost predicate SomeSurfaces(db: Db, k: nat, n: nat, u: UserKey)
    requires db.logs != [] && k <= |CurrentLog(db).entries|
  {
    exists e :: Surfaces(db, k, n, u, e)
  }

  /** Adding some versions to a set changes what it reads exactly if the newest added one is newest of all and
      says something else. */
  lemma ReadWithMore(T: set<Entry>, E: set<Entry>, u: UserKey, s: nat)
    requires Consistent(T + E) && forall e :: e in T + E ==> e.k.seqno <= s
    ensures Read(T + E, u, s) == Read(T, u, s)
            || exists e :: Newest(E, u, s, e) && (forall f :: f in T && f.k.user == u ==> f.k.seqno < e.k.seqno) && Read(T + E, u, s) == ValueIn(e)
    ensures forall e :: Newest(E, u, s, e) && (forall f :: f in T && f.k.user == u ==> f.k.seqno < e.k.seqno) ==>
              Read(T + E, u, s) == ValueIn(e)
  {
    forall e | Newest(E, u, s, e) && forall f :: f in T && f.k.user == u ==> f.k.seqno < e.k.seqno
      ensures Read(T + E, u, s) == ValueIn(e)
    {
      assert Newest(T + E, u, s, e);
      ReadNewest(T + E, u, s, e);
    }
    if exists e :: VersionOf(E, u, s, e) {
      var e := NewestExists(E, u, s);
      if f :| f in T && f.k.user == u && f.k.seqno >= e.k.seqno {
        TablesWin(T, E, u, s, e, f);
      }
    } else {
      ReadIgnores(T, E, u, s);
    }
  }

  lemma TablesWin(T: set<Entry>, E: set<Entry>, u: UserKey, s: nat, e: Entry, f: Entry)
    requires Consistent(T + E) && (forall x :: x in T + E ==> x.k.seqno <= s)
    requires Newest(E, u, s, e) && f in T && f.k.user == u && f.k.seqno >= e.k.seqno
    ensures Read(T + E, u, s) == Read(T, u, s)
  {
    assert VersionOf(T, u, s, f);
    var n := NewestExists(T, u, s);
    assert Newest(T + E, u, s, n) by {
      forall x | VersionOf(T + E, u, s, x)
        ensures x.k.seqno <= n.k.seqno
      {
        assert VersionOf(T, u, s, x) || VersionOf(E, u, s, x);
      }
    }
    assert Consistent(T);
    ReadNewest(T, u, s, n);
    ReadNewest(T + E, u, s, n);
  }

  /** The log starts before what is not flushed. */
  lemma LogCoversMemory(db: Db, n: nat)
    requires LogsCover(db) && HistoryInOrder(db) && MemoryFrom(db, n)
    ensures |db.history| - |CurrentLog(db).entries| <= n
  {
    var all := CurrentLog(db).entries;
    var base := |db.history| - |all|;
    forall e | e in all
      ensures base < e.k.seqno
    {
      var i :| 0 <= i < |all| && all[i] == e;
      assert all[i] == db.history[base + i];
    }
    assert n < |db.history| ==> db.history[n] in db.history;
  }

  lemma SetParts(db: Db, k: nat, n: nat, s: nat)
    requires Inv(db) && Stands(db, n) && k <= |CurrentLog(db).entries| && n <= s && Survived(db, k) <= s
    ensures var T, E := TableEntries(db.Levels()), SetOf(CurrentLog(db).entries[..k]);
            && T <= SetOf(db.history[..n]) && E <= SetOf(db.history)
            && (forall e :: e in T ==> e.k.seqno <= n) && (forall e :: e in T + E ==> e.k.seqno <= s)
            && Consistent(T + E) && Consistent(SetOf(db.history))
  {
    assert db.logs != [];
    hide NewerAbove, SharedOld, ReadsHistory, PendingClosed, TablesInOrder, LogsCover, MemoryFresh, Stands;
    StandsMemory(db, n);
    CutIsHistory(db, k);
    TablesParts(db, n);
    TablesAll(db, n);
    HistoryConsistent(db);
    forall e | e in TableEntries(db.Levels())
      ensures e in db.history[..n] && e in db.history && e.k.seqno <= n
    {
      assert e in All(Tables(db, n)) && e in SetOf(Tables(db, n).history);
      PrefixMembers(db, n, e);
    }
  }

  /** Tables and log lie in the history that survived, the log at its end. */
  lemma SurvivingSets(db: Db, k: nat, n: nat)
    requires Inv(db) && Stands(db, n) && k <= |CurrentLog(db).entries| && n <= Survived(db, k)
    ensures Survived(db, k) <= |db.history| && n <= |db.history|
    ensures var T, E, H := TableEntries(db.Levels()), SetOf(CurrentLog(db).entries[..k]), SetOf(db.history[..Survived(db, k)]);
            && Consistent(H) && T + E <= H
            && (forall e, f :: e in E && f in H && e.k.seqno <= f.k.seqno ==> f in E)
            && forall f :: f in H && n < f.k.seqno ==> f in E
  {
    InvLogs(db);
    CutIsHistory(db, k);
    SetParts(db, k, n, Survived(db, k));
    StandsMemory(db, n);
    LogCoversMemory(db, n);
    var m: nat := Survived(db, k);
    hide Inv, LogsCover, Stands, NewerAbove, ReadsHistory, MemoryFrom, TableEntries, Consistent, CurrentLog, Survived, Tables;
    PrefixConsistent(db, m);
    forall e
      ensures e in db.history[..m] <==> e in db.history && e.k.seqno <= m
      ensures e in db.history[..n] <==> e in db.history && e.k.seqno <= n
    {
      PrefixMembers(db, m, e);
      PrefixMembers(db, n, e);
    }
    hide HistoryInOrder;
  }

  /** Nothing flushed is lost: tables and log read as the operations that survived. */
  lemma SurvivorsRead(db: Db, k: nat, n: nat, u: UserKey, s: nat)
    requires Inv(db) && Stands(db, n) && k <= |CurrentLog(db).entries| && n <= Survived(db, k) <= s
    ensures Survived(db, k) <= |db.history|
    ensures Read(TableEntries(db.Levels()) + SetOf(CurrentLog(db).entries[..k]), u, s) == Read(SetOf(db.history[..Survived(db, k)]), u, s)
  {
    InvLogs(db);
    SurvivingSets(db, k, n);
    var m: nat := Survived(db, k);
    hide Inv, LogsCover, Stands, TableEntries, Survived, CurrentLog;
    var T, E, H := TableEntries(db.Levels()), SetOf(CurrentLog(db).entries[..k]), SetOf(db.history[..m]);
    if exists e :: VersionOf(E, u, s, e) {
      ReadFromLog(T, E, H, u, s);
    } else {
      ReadIgnores(T, E, u, s);
      forall e | e in db.history && e.k.user == u && e.k.seqno <= m
        ensures e.k.seqno <= n
      {
        PrefixMembers(db, m, e);
        assert !VersionOf(E, u, s, e);
      }
      TablesOfHistory(db, n, m, u, s);
    }
  }

  lemma InvLogs(db: Db)
    requires Inv(db)
    ensures LogsCover(db) && HistoryInOrder(db) && TablesInOrder(db) && db.logs != []
  {
    assert db.logs != [];
    hide NewerAbove, SharedOld, ReadsHistory, PendingClosed, TablesInOrder, LogsCover, MemoryFresh, OnlyHistory;
  }

  /** Without versions of the key between them, the tables read as a longer prefix of the history. */
  lemma TablesOfHistory(db: Db, n: nat, m: nat, u: UserKey, s: nat)
    requires HistoryInOrder(db) && Stands(db, n) && n <= m <= |db.history| && n <= s
    requires forall e :: e in db.history && e.k.user == u && e.k.seqno <= m ==> e.k.seqno <= n
    ensures Read(TableEntries(db.Levels()), u, s) == Read(SetOf(db.history[..m]), u, s)
  {
    StandsMemory(db, n);
    TablesAll(db, n);
    hide NewerAbove, All, Stands, MemoryFrom;
    assert Readable(Tables(db, n), s);
    assert Read(TableEntries(db.Levels()), u, s) == Read(SetOf(db.history[..n]), u, s);
    var H, L := SetOf(db.history[..m]), SetOf(db.history[..n]);
    PrefixConsistent(db, m);
    hide ReadsHistory, Tables, HistoryInOrder;
    forall e
      ensures e in L <==> e in H && e.k.seqno <= n
      ensures VersionOf(H, u, s, e) ==> e in L
    {
      PrefixMembers(db, m, e);
      PrefixMembers(db, n, e);
    }
    assert L + (H - L) == H;
    ReadIgnores(L, H - L, u, s);
  }

  /** When the cut reaches into what is flushed, the tables decide, but for versions that surface. */
  lemma CutBelowFlushed(db: Db, k: nat, n: nat, u: UserKey, s: nat)
    requires Inv(db) && Stands(db, n) && k <= |CurrentLog(db).entries| && Survived(db, k) < n <= s
    ensures var T, E := TableEntries(db.Levels()), SetOf(CurrentLog(db).entries[..k]);
            && (Read(T + E, u, s) == Read(T, u, n) <==> !SomeSurfaces(db, k, n, u))
            && forall e :: Surfaces(db, k, n, u, e) ==> Read(T + E, u, s) == ValueIn(e)
  {
    InvLogs(db);
    CutIsHistory(db, k);
    SetParts(db, k, n, s);
    var T, E := TableEntries(db.Levels()), SetOf(CurrentLog(db).entries[..k]);
    assert forall e :: e in E ==> e.k.seqno <= n;
    hide Inv, LogsCover, HistoryInOrder, Stands, TableEntries, CurrentLog, SurfacesOver;
    MoreBelow(T, E, u, s, n);
    if SomeSurfaces(db, k, n, u) {
      var e :| Surfaces(db, k, n, u, e);
      assert SurfacesOver(T, E, u, n, e);
    }
    if e :| SurfacesOver(T, E, u, n, e) {
      assert Surfaces(db, k, n, u, e);
    }
  }

  lemma MoreBelow(T: set<Entry>, E: set<Entry>, u: UserKey, s: nat, n: nat)
    requires Consistent(T + E) && n <= s && (forall e :: e in T + E ==> e.k.seqno <= n)
    ensures Read(T + E, u, s) == Read(T, u, n) <==> !exists e :: SurfacesOver(T, E, u, n, e)
    ensures forall e :: SurfacesOver(T, E, u, n, e) ==> Read(T + E, u, s) == ValueIn(e)
  {
    assert forall e :: VersionOf(T, u, s, e) <==> VersionOf(T, u, n, e);
    assert Consistent(T);
    SameVersionsSameRead(T, u, s, n);
    SameNewest(E, u, s, n);
    ReadWithMore(T, E, u, s);
    hide Newest, Consistent, Read;
    if Read(T + E, u, s) != Read(T, u, s) {
      var e :| Newest(E, u, s, e) && (forall f :: f in T && f.k.user == u ==> f.k.seqno < e.k.seqno) && Read(T + E, u, s) == ValueIn(e);
      assert SurfacesOver(T, E, u, n, e);
    }
  }

  lemma SameNewest(S: set<Entry>, u: UserKey, s: nat, n: nat)
    requires n <= s && forall e :: e in S ==> e.k.seqno <= n
    ensures forall e :: Newest(S, u, s, e) <==> Newest(S, u, n, e)
  {
    assert forall e :: VersionOf(S, u, s, e) <==> VersionOf(S, u, n, e);
  }

  // ------------------------------------------------------------------ the result

  /** A store is opened whose current log lost all but its first `k` versions, with the first `n` operations flushed.
      If what survives reaches to `n`, it reads as the map after the surviving operations.  If not, a key reads as
      after the flushed ones if and only if no version left in the log surfaces over the tables; and one that does
      is what is read. */
  lemma TornReopen(events: seq<Event>, db: Db, n: nat, k: nat, segments: seq<seq<Entry>>, sizes: seq<nat>, seen: nat, u: UserKey)
    requires Reaches(events, db) && Stands(db, n) && CutReopen(db, k, segments, sizes, seen)
    ensures 0 <= Survived(db, k) <= |Written(events)| && n <= |Written(events)|
    ensures var r := ReopenStep(CutLog(db, k), segments, sizes, seen);
            if n <= Survived(db, k) then Read(All(r), u, r.last) == Lookup(MapAfter(Written(events)[..Survived(db, k)]), u)
            else && (Read(All(r), u, r.last) == Lookup(MapAfter(Written(events)[..n]), u) <==> !SomeSurfaces(db, k, n, u))
                 && forall e :: Surfaces(db, k, n, u, e) ==> Read(All(r), u, r.last) == ValueIn(e)
  {
    ReachableInv(events, db);
    InvLogs(db);
    hide Inv, ReopenStep, Surfaces, SomeSurfaces, All, Stands, LogsCover, HistoryInOrder, Reaches, Written, MapAfter, Read, TableEntries, TablesInOrder;
    assert k <= |CurrentLog(db).entries|;
    CutStores(db, k, segments, sizes, seen);
    CutIsHistory(db, k);
    RecordedIsFlushed(db, n);
    FlushedReads(events, db, n, u, n);
    HistoryIsWritten(events, db);
    assert |db.history| == |Written(events)|;
    var r, m := ReopenStep(CutLog(db, k), segments, sizes, seen), Survived(db, k);
    hide CutReopen, CutLog, Survived, CurrentLog, Stamp;
    if n <= m {
      SurvivorsRead(db, k, n, u, r.last);
      PrefixReads(Written(events), m, u, r.last);
    } else {
      CutBelowFlushed(db, k, n, u, r.last);
    }
  }

  lemma RecordedIsFlushed(db: Db, n: nat)
    requires Stands(db, n)
    ensures n <= db.vs.core.lastSequence
  {
    StandsMemory(db, n);
  }

  /** A prefix of a stamped history read at or beyond its end is the map after it. */
  lemma PrefixReads(ops: seq<Op>, m: nat, u: UserKey, s: nat)
    requires m <= |ops| && m <= s
    ensures Read(SetOf(Stamp(ops, 1)[..m]), u, s) == Lookup(MapAfter(ops[..m]), u)
  {
    assert Stamp(ops, 1)[..m] == Stamp(ops[..m], 1);
    assert ops[..m][..m] == ops[..m];
    ReadIsLookup(ops[..m], u, m);
    StampConsistent(ops[..m]);
    var S := SetOf(Stamp(ops[..m], 1));
    hide MapAfter, Read;
    assert forall e :: VersionOf(S, u, s, e) <==> VersionOf(S, u, m, e);
    SameVersionsSameRead(S, u, s, m);
  }
}

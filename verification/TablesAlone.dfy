/** The tables without the memory: in every reachable state they read as the map after the operations that were
    flushed.  What a reopen finds when the logs are lost. */
module TablesAlone {
  import opened Keys
  import opened Files
  import opened Runs
  import opened Visibility
  import opened Versions
  import opened CompactionWork
  import opened InputSelection
  import opened Engine
  import opened Invariants
  import opened SafetyMemory
  import opened SafetyFlush
  import opened SafetyRewrite
  import opened SafetyCompaction
  import opened SafetyReopen
  import opened Safety

  /** Memory holds exactly the versions numbered above `n`. */
  ghost predicate MemoryFrom(db: Db, n: nat) {
    n <= |db.history| && forall e :: e in db.history ==> ((e in db.mem || e in db.imm) <==> n < e.k.seqno)
  }

  /** The store as its tables alone would have it, with the first `n` versions for its history. */
  function Tables(db: Db, n: nat): Db
    requires n <= |db.history|
  {
    Db([], [], db.vs, [], n, multiset{}, None, db.reopenedAt, db.history[..n])
  }

  ghost predicate Stands(db: Db, n: nat) {
    && MemoryFrom(db, n) && db.reopenedAt <= n <= db.vs.core.lastSequence
    && NewerAbove(Tables(db, n)) && ReadsHistory(Tables(db, n))
  }

  // ------------------------------------------------------------------ the tables hold flushed history

  lemma TableStored(db: Db, n: nat, p: Place, e: Entry)
    requires n <= |db.history|
    ensures Stored(Tables(db, n), p, e) <==> 0 <= p.level && Stored(db, p, e)
  {
  }

  lemma TablesAll(db: Db, n: nat)
    requires n <= |db.history|
    ensures All(Tables(db, n)) == TableEntries(db.Levels())
  {
    assert SetOf([]) == {};
  }

  lemma FlushedPart(db: Db, n: nat)
    requires HistoryInOrder(db) && OnlyHistory(db) && MemoryFresh(db) && MemoryFrom(db, n)
    ensures HistoryInOrder(Tables(db, n)) && OnlyHistory(Tables(db, n))
  {
    TablesAll(db, n);
    forall e | e in TableEntries(db.Levels())
      ensures e in db.history[..n]
    {
      assert e in All(db) && e in SetOf(db.history);
      assert e.k.seqno <= n;
      assert db.history[..n][e.k.seqno - 1] == e;
    }
  }

  lemma FlushedShared(db: Db, n: nat)
    requires SharedOld(db) && n <= |db.history|
    ensures SharedOld(Tables(db, n))
  {
    forall p, q, e | Stored(Tables(db, n), p, e) && Stored(Tables(db, n), q, e) && p != q
      ensures e.k.seqno <= db.reopenedAt
    {
      TableStored(db, n, p, e);
      TableStored(db, n, q, e);
    }
  }

  lemma TablesParts(db: Db, n: nat)
    requires Inv(db) && MemoryFrom(db, n)
    ensures HistoryInOrder(Tables(db, n)) && OnlyHistory(Tables(db, n)) && SharedOld(Tables(db, n))
    ensures LevelsInOrder(db.Levels()) && NumbersUnique(db.Levels()) && Sound(db.vs) && |db.Levels()| == NUM_LEVELS
  {
    assert n <= |db.history|;
    hide NewerAbove, LogsCover, ReadsHistory, PendingClosed, MemoryFrom, LevelsInOrder, NumbersUnique, Sound, SharedOld, OnlyHistory,
      HistoryInOrder, MemoryFresh;
    InvLevels(db);
    FlushedPart(db, n);
    FlushedShared(db, n);
  }

  lemma InvLevels(db: Db)
    requires Inv(db)
    ensures |db.Levels()| == NUM_LEVELS
  {
    hide NewerAbove, LogsCover, ReadsHistory, PendingClosed, NumbersUnique, Sound, SharedOld, OnlyHistory, HistoryInOrder, MemoryFresh;
  }

  // ------------------------------------------------------------------ steps that leave the tables alone

  lemma SameTables(db: Db, db': Db, n: nat)
    requires Stands(db, n) && MemoryFrom(db', n) && db'.Levels() == db.Levels() && db'.reopenedAt == db.reopenedAt
    requires db'.vs.core.lastSequence == db.vs.core.lastSequence && db'.history[..n] == db.history[..n]
    ensures Stands(db', n)
  {
    var t, t' := Tables(db, n), Tables(db', n);
    assert All(t') == All(t);
    forall p, f, e | Stored(t', p, f) && e in All(t') && f.k.user == e.k.user && f.k.seqno <= e.k.seqno
      ensures Covered(t', p, e)
    {
      assert Stored(t, p, f);
      var q, x :| NoLater(q, p) && Stored(t, q, x) && StandsFor(t, x, e);
      assert Stored(t', q, x) && StandsFor(t', x, e);
    }
    assert forall s :: Readable(t', s) ==> Readable(t, s);
  }

  lemma WriteMemory(db: Db, ops: seq<Op>, n: nat)
    requires HistoryInOrder(db) && OnlyHistory(db) && MemoryFrom(db, n) && db.logs != []
    ensures MemoryFrom(WriteStep(db, ops), n)
  {
    var es, db' := Stamp(ops, db.last + 1), WriteStep(db, ops);
    StampedEntries(db, ops);
    hide Stamp, OnlyHistory;
    forall e | e in db'.history
      ensures (e in db'.mem || e in db'.imm) <==> n < e.k.seqno
    {
      InsertAllMembers(db.mem, es, e);
      if e in es {
        assert db.last < e.k.seqno;
      } else {
        assert e in db.history;
      }
    }
  }

  lemma WriteStands(db: Db, ops: seq<Op>, n: nat)
    requires HistoryInOrder(db) && OnlyHistory(db) && Stands(db, n) && db.logs != []
    ensures Stands(WriteStep(db, ops), n)
  {
    hide Stands, Tables, MemoryFrom, OnlyHistory, HistoryInOrder, Stamp, InsertAll;
    StandsMemory(db, n);
    WriteMemory(db, ops, n);
    assert (db.history + Stamp(ops, db.last + 1))[..n] == db.history[..n];
    SameTables(db, WriteStep(db, ops), n);
  }

  lemma StandsMemory(db: Db, n: nat)
    requires Stands(db, n)
    ensures MemoryFrom(db, n) && n <= |db.history| && db.reopenedAt <= n <= db.vs.core.lastSequence
    ensures NewerAbove(Tables(db, n)) && ReadsHistory(Tables(db, n))
  {
  }

  /** Freezing, snapshots and picks. */
  lemma KeepsStanding(db: Db, ev: Event, n: nat)
    requires Enabled(db, ev) && Stands(db, n) && (ev.Freeze? || ev.TakeSnapshot? || ev.ReleaseSnapshot? || ev.Pick?)
    ensures Stands(After(db, ev), n)
  {
    StandsMemory(db, n);
    hide Stands, Tables;
    assert MemoryFrom(After(db, ev), n);
    SameTables(db, After(db, ev), n);
  }

  // ------------------------------------------------------------------ rewriting levels

  lemma TablesRewritten(db: Db, db': Db, n: nat, level: nat, a: seq<File>, b: seq<File>, outs: seq<File>)
    requires Rewritten(db, db', level, a, b, outs) && MemoryFrom(db, n)
    ensures MemoryFrom(db', n) && Rewritten(Tables(db, n), Tables(db', n), level, a, b, outs)
  {
    hide LevelsRewritten;
  }

  lemma MoveStands(db: Db, level: nat, file: File, pointer: InternalKey, n: nat)
    requires Inv(db) && Stands(db, n) && Enabled(db, Move(level, file, pointer))
    ensures Stands(MoveStep(db, level, file, pointer), n)
  {
    hide Stands, Inv, MoveStep, Rewritten, ClosedSelection, LevelsRewritten, NewerAbove, ReadsHistory, SharedOld, OnlyHistory, HistoryInOrder,
      LevelsInOrder, NumbersUnique, Sound, MemoryFrom, Tables;
    StandsMemory(db, n);
    TablesParts(db, n);
    MoveSelection(db, level, file, pointer);
    var db' := MoveStep(db, level, file, pointer);
    MoveIsRewrite(db, level, file, pointer);
    TablesRewritten(db, db', n, level, [file], [], [file]);
    TablesMoved(db, db', n, level, file);
  }

  lemma MoveSelection(db: Db, level: nat, file: File, pointer: InternalKey)
    requires Inv(db) && Enabled(db, Move(level, file, pointer))
    ensures level + 1 < |db.Levels()| && db.pending == None && ClosedSelection(db.Levels(), level, [file], [])
    ensures file in db.Levels()[level] && ValidFile(file)
  {
    hide NewerAbove, LogsCover, ReadsHistory, PendingClosed, NumbersUnique, Sound, SharedOld, OnlyHistory, HistoryInOrder, MemoryFresh;
    assert file in [file];
  }

  lemma TablesMoved(db: Db, db': Db, n: nat, level: nat, file: File)
    requires MemoryFrom(db, n) && MemoryFrom(db', n)
    requires Rewritten(db, db', level, [file], [], [file]) && Rewritten(Tables(db, n), Tables(db', n), level, [file], [], [file])
    requires Stands(db, n) && HistoryInOrder(Tables(db, n)) && OnlyHistory(Tables(db, n))
    requires LevelsInOrder(db.Levels()) && level + 1 < |db.Levels()| && ClosedSelection(db.Levels(), level, [file], [])
    requires file in db.Levels()[level] && ValidFile(file)
    ensures Stands(db', n)
  {
    var t, t' := Tables(db, n), Tables(db', n);
    hide NewerAbove, ReadsHistory, MemoryFrom, OnlyHistory, HistoryInOrder, ClosedSelection, LevelsInOrder, LevelsRewritten;
    MoveIsProperOutput(t, level, file);
    hide ProperOutputs;
    RewriteKeepsNewerAbove(t, t', level, [file], [], [file]);
    MoveAll(t, t', level, file);
    SameAllReads(t, t');
  }

  // ------------------------------------------------------------------ installing a compaction

  /** For a merge whose input is not above `p'`, any larger smallest snapshot makes the same drops. */
  lemma {:induction false} KeptSame(input: seq<Entry>, m: nat, p: nat, p': nat, deeper: seq<seq<File>>)
    requires m <= |input| && p' <= p < MAX_SEQUENCE && forall e :: e in input ==> e.k.seqno <= p'
    ensures Kept(input, m, p, deeper) == Kept(input, m, p', deeper)
  {
    if m > 0 {
      KeptSame(input, m - 1, p, p', deeper);
      assert input[m - 1] in input && (m > 1 ==> input[m - 2] in input);
      assert Dropped(input, m - 1, p, deeper) <==> Dropped(input, m - 1, p', deeper);
    }
  }

  /** The compaction in flight as the tables alone would have picked it. */
  function Lowered(p: Pending, n: nat): Pending {
    p.(smallestSnapshot := if p.smallestSnapshot <= n then p.smallestSnapshot else n)
  }

  lemma InputFlushed(db: Db, n: nat, p: Pending)
    requires n <= |db.history| && OnlyHistory(Tables(db, n)) && HistoryInOrder(Tables(db, n))
    requires p.level + 1 < |db.Levels()| && ClosedSelection(db.Levels(), p.level, p.a, p.b)
    ensures forall e :: e in Input(p) ==> e.k.seqno <= n
  {
    var t := Tables(db, n);
    InputIsHistory(t, p);
    forall e | e in Input(p)
      ensures e.k.seqno <= n
    {
      assert e in SetOf(t.history);
    }
  }

  lemma LoweredInFlight(db: Db, n: nat, p: Pending, outputs: seq<Output>, sizes: seq<nat>)
    requires InFlight(db, p, outputs, sizes) && n <= |db.history| && db.reopenedAt <= n
    requires OnlyHistory(Tables(db, n)) && HistoryInOrder(Tables(db, n))
    ensures InFlight(Tables(db, n), Lowered(p, n), outputs, sizes) && Input(Lowered(p, n)) == Input(p)
  {
    InputFlushed(db, n, p);
    hide ClosedSelection, OnlyHistory, HistoryInOrder, Kept, Concat, ValidOutput, MergeRuns;
    if n < p.smallestSnapshot {
      KeptSame(Input(p), |Input(p)|, p.smallestSnapshot, n, p.deeper);
    }
  }

  lemma InstallStands(db: Db, outputs: seq<Output>, sizes: seq<nat>, n: nat)
    requires Installs(db, outputs, sizes) && Stands(db, n)
    ensures Stands(InstallStep(db, outputs, sizes), n)
  {
    hide Stands, Inv, InstallStep, Rewritten, ClosedSelection, LevelsRewritten, NewerAbove, ReadsHistory, SharedOld, OnlyHistory, HistoryInOrder,
      LevelsInOrder, NumbersUnique, Sound, MemoryFrom, Tables, Installs, InFlight, OutputFiles, ProperOutputs, Disjoint, NumbersFrom, WeaklySorted,
      Input, Kept, Lowered;
    InstallParts(db, outputs, sizes);
    var p, files := db.pending.value, OutputFiles(outputs, sizes, db.vs.core.nextFile);
    StandsMemory(db, n);
    TablesParts(db, n);
    PendingParts(db);
    InstallOutputs(db, outputs, sizes);
    InstallIsRewrite(db, p, outputs, sizes);
    var db' := InstallStep(db, outputs, sizes);
    TablesRewritten(db, db', n, p.level, p.a, p.b, files);
    LoweredInFlight(db, n, p, outputs, sizes);
    TablesInstalled(db, db', n, p, Lowered(p, n), outputs, sizes);
  }

  lemma TablesInstalled(db: Db, db': Db, n: nat, p: Pending, q: Pending, outputs: seq<Output>, sizes: seq<nat>)
    requires MemoryFrom(db, n) && MemoryFrom(db', n) && |sizes| == |outputs| && q == Lowered(p, n)
    requires var files := OutputFiles(outputs, sizes, db.vs.core.nextFile);
             && Rewritten(db, db', p.level, p.a, p.b, files)
             && Rewritten(Tables(db, n), Tables(db', n), p.level, p.a, p.b, files)
    requires Stands(db, n) && HistoryInOrder(Tables(db, n)) && OnlyHistory(Tables(db, n)) && SharedOld(Tables(db, n))
    requires LevelsInOrder(db.Levels()) && NumbersUnique(db.Levels())
    requires InFlight(Tables(db, n), q, outputs, sizes)
    ensures Stands(db', n)
  {
    var t, t', files := Tables(db, n), Tables(db', n), OutputFiles(outputs, sizes, db.vs.core.nextFile);
    hide NewerAbove, ReadsHistory, MemoryFrom, OnlyHistory, HistoryInOrder, SharedOld, NumbersUnique, LevelsInOrder, LevelsRewritten, OutputFiles,
      NumbersFrom, WeaklySorted, Kept, Input, Disjoint;
    InFlightOutputs(t, q, outputs, sizes);
    hide ProperOutputs;
    InstallReads(t, t', q, outputs, sizes, files);
    assert ClosedSelection(t.Levels(), q.level, q.a, q.b);
    hide InFlight, ClosedSelection;
    RewriteKeepsNewerAbove(t, t', p.level, p.a, p.b, files);
  }

  // ------------------------------------------------------------------ flushing

  /** The frozen memtable holds the versions numbered above `n` up to `x`, the other one the rest. */
  lemma FrozenTo(db: Db, n: nat) returns (x: nat)
    requires HistoryInOrder(db) && MemoryNewer(db) && MemoryFrom(db, n)
    ensures n <= x <= |db.history|
    ensures forall e :: e in db.history ==> (e in db.imm <==> n < e.k.seqno <= x) && (e in db.mem <==> x < e.k.seqno)
  {
    x := n;
    while x < |db.history| && db.history[x] in db.imm
      invariant n <= x <= |db.history|
      invariant forall i :: n <= i < x ==> db.history[i] in db.imm
    {
      x := x + 1;
    }
    if x < |db.history| {
      assert db.history[x] in db.history && db.history[x] in db.mem;
    }
    forall e | e in db.history
      ensures (e in db.imm <==> n < e.k.seqno <= x) && (e in db.mem <==> x < e.k.seqno)
    {
      assert db.history[e.k.seqno - 1] == e;
    }
  }

  /** The tables with the frozen memtable on top. */
  function WithFrozen(db: Db, n: nat, x: nat): Db
    requires n <= x <= |db.history|
  {
    Tables(db, n).(imm := db.imm, last := x, history := db.history[..x])
  }

  lemma FrozenStored(db: Db, n: nat, x: nat, p: Place, e: Entry)
    requires n <= x <= |db.history|
    ensures Stored(WithFrozen(db, n, x), p, e) <==> (p == IMM && e in db.imm) || (0 <= p.level && Stored(db, p, e))
    ensures Stored(WithFrozen(db, n, x), p, e) <==> (p == IMM && e in db.imm) || Stored(Tables(db, n), p, e)
  {
  }

  lemma FrozenCovers(db: Db, n: nat, x: nat, p: Place, f: Entry, e: Entry)
    requires n <= x <= |db.history| && NewerAbove(Tables(db, n)) && MemoryNewer(db)
    requires var m := WithFrozen(db, n, x); Stored(m, p, f) && e in All(m) && f.k.user == e.k.user && f.k.seqno <= e.k.seqno
    requires OnlyHistory(Tables(db, n)) && HistoryInOrder(Tables(db, n)) && forall y :: y in db.imm ==> n < y.k.seqno
    ensures Covered(WithFrozen(db, n, x), p, e)
  {
    var t, m := Tables(db, n), WithFrozen(db, n, x);
    FrozenStored(db, n, x, p, f);
    AllStored(m, e);
    var r :| Stored(m, r, e);
    FrozenStored(db, n, x, r, e);
    hide MemoryNewer, All;
    if e in db.imm {
      FrozenStored(db, n, x, IMM, e);
      assert NoLater(IMM, p) && StandsFor(m, e, e);
    } else {
      AllStored(t, e);
      FlushedAtMost(t, e);
      assert Stored(t, p, f);
      var q, y :| NoLater(q, p) && Stored(t, q, y) && StandsFor(t, y, e);
      FrozenStored(db, n, x, q, y);
      assert StandsFor(m, y, e);
    }
  }

  lemma FlushedAtMost(t: Db, e: Entry)
    requires OnlyHistory(t) && HistoryInOrder(t) && e in All(t)
    ensures e.k.seqno <= t.last
  {
    assert e in SetOf(t.history);
  }

  lemma FrozenNewerAbove(db: Db, n: nat, x: nat)
    requires n <= x <= |db.history| && NewerAbove(Tables(db, n)) && MemoryNewer(db)
    requires OnlyHistory(Tables(db, n)) && HistoryInOrder(Tables(db, n)) && forall y :: y in db.imm ==> n < y.k.seqno
    ensures NewerAbove(WithFrozen(db, n, x))
  {
    hide OnlyHistory, HistoryInOrder, MemoryNewer, Tables, WithFrozen;
    forall p, f, e | Stored(WithFrozen(db, n, x), p, f) && e in All(WithFrozen(db, n, x)) && f.k.user == e.k.user && f.k.seqno <= e.k.seqno
      ensures Covered(WithFrozen(db, n, x), p, e)
    {
      FrozenCovers(db, n, x, p, f, e);
    }
  }

  lemma FrozenShared(db: Db, n: nat, x: nat)
    requires SharedOld(db) && n <= x <= |db.history|
    ensures SharedOld(WithFrozen(db, n, x))
  {
    forall p, q, e | Stored(WithFrozen(db, n, x), p, e) && Stored(WithFrozen(db, n, x), q, e) && p != q
      ensures e.k.seqno <= db.reopenedAt
    {
      FrozenStored(db, n, x, p, e);
      FrozenStored(db, n, x, q, e);
      assert Stored(db, p, e) && Stored(db, q, e);
    }
  }

  lemma FrozenFlushed(db: Db, db': Db, file: File, n: nat, x: nat)
    requires FlushedDb(db, db', file) && NumbersBelow(db.Levels(), db.vs.core.nextFile) && n <= x <= |db.history|
    ensures Relocated(WithFrozen(db, n, x), Tables(db', x), IMM, Place(0, file.number))
    ensures KeepsOrder(WithFrozen(db, n, x), IMM, Place(0, file.number))
  {
    var m, t' := WithFrozen(db, n, x), Tables(db', x);
    hide FlushedDb, NumbersBelow;
    assert db'.history == db.history by { SameHistory(db, db', file); }
    forall p, e
      ensures Stored(t', p, e) <==>
                0 <= p.level && if p == Place(0, file.number) then e in db.imm else Stored(db, p, e)
      ensures Stored(m, p, e) <==> (p == IMM && e in db.imm) || (0 <= p.level && Stored(db, p, e))
      ensures Stored(db, p, e) && p.level == 0 ==> p.number < file.number
    {
      FlushStores(db, db', file, p, e);
      TableStored(db', x, p, e);
      FrozenStored(db, n, x, p, e);
    }
  }

  lemma SameHistory(db: Db, db': Db, file: File)
    requires FlushedDb(db, db', file)
    ensures db'.history == db.history
  {
  }

  lemma FrozenReads(db: Db, n: nat, x: nat)
    requires n <= x <= |db.history| && ReadsHistory(Tables(db, n))
    requires HistoryInOrder(db) && OnlyHistory(Tables(db, n)) && HistoryInOrder(Tables(db, n))
    requires forall e :: e in db.history ==> (e in db.imm <==> n < e.k.seqno <= x)
    requires forall e :: e in db.imm ==> e in db.history
    ensures ReadsHistory(WithFrozen(db, n, x))
  {
    var t, m := Tables(db, n), WithFrozen(db, n, x);
    TablesAll(db, n);
    assert All(m) == All(t) + SetOf(db.imm) by { assert SetOf([]) == {}; }
    assert SetOf(m.history) == SetOf(t.history) + SetOf(db.imm) by { FrozenHistory(db, n, x); }
    PrefixConsistent(db, x);
    hide All, OnlyHistory, HistoryInOrder, WithFrozen;
    forall u, s | Readable(m, s)
      ensures Read(All(m), u, s) == Read(SetOf(m.history), u, s)
    {
      assert Readable(t, s);
      WriteKeepsRead(t, db.imm, u, s);
    }
  }

  lemma FrozenHistory(db: Db, n: nat, x: nat)
    requires n <= x <= |db.history| && HistoryInOrder(db)
    requires forall e :: e in db.history ==> (e in db.imm <==> n < e.k.seqno <= x)
    requires forall e :: e in db.imm ==> e in db.history
    ensures SetOf(db.history[..x]) == SetOf(db.history[..n]) + SetOf(db.imm)
  {
    forall e
      ensures e in db.history[..x] <==> e in db.history[..n] || e in db.imm
    {
      PrefixMembers(db, n, e);
      PrefixMembers(db, x, e);
    }
  }

  lemma PrefixMembers(db: Db, n: nat, e: Entry)
    requires HistoryInOrder(db) && n <= |db.history|
    ensures e in db.history[..n] <==> e in db.history && e.k.seqno <= n
  {
    if e in db.history && e.k.seqno <= n {
      assert db.history[..n][e.k.seqno - 1] == e;
    }
  }

  lemma PrefixConsistent(db: Db, x: nat)
    requires HistoryInOrder(db) && x <= |db.history|
    ensures Consistent(SetOf(db.history[..x]))
  {
    HistoryConsistent(db);
    assert forall e :: e in db.history[..x] ==> e in db.history;
  }

  lemma FlushStands(db: Db, size: nat, n: nat) returns (x: nat)
    requires Inv(db) && Stands(db, n) && Enabled(db, Flush(size))
    ensures Stands(FlushStep(db, size), x)
  {
    hide Stands, NewerAbove, ReadsHistory, SharedOld, LogsCover, PendingClosed, Sound, LevelsInOrder, NumbersUnique, OnlyHistory, HistoryInOrder,
      MemoryFrom, Tables, FlushStep, FlushedDb, NumbersBelow;
    FlushIsFlushedDb(db, size);
    SoundNumbers(db.vs);
    StandsMemory(db, n);
    TablesParts(db, n);
    x := FrozenTo(db, n);
    var db', file := FlushStep(db, size), TableOf(db.vs.core.nextFile, size, db.imm);
    ImmIsHistory(db);
    hide Inv, MemoryFresh, MemoryNewer, TableOf;
    FlushedStands(db, db', file, n, x);
  }

  lemma ImmIsHistory(db: Db)
    requires OnlyHistory(db)
    ensures forall e :: e in db.imm ==> e in db.history
  {
    forall e | e in db.imm
      ensures e in db.history
    {
      assert e in All(db);
    }
  }

  lemma FlushedStands(db: Db, db': Db, file: File, n: nat, x: nat)
    requires FlushedDb(db, db', file) && NumbersBelow(db.Levels(), db.vs.core.nextFile)
    requires Stands(db, n) && n <= x <= |db.history| && MemoryNewer(db) && SharedOld(db)
    requires HistoryInOrder(db) && OnlyHistory(Tables(db, n)) && HistoryInOrder(Tables(db, n))
    requires forall e :: e in db.history ==> (e in db.imm <==> n < e.k.seqno <= x) && (e in db.mem <==> x < e.k.seqno)
    requires forall e :: e in db.imm ==> e in db.history
    ensures Stands(db', x)
  {
    StandsMemory(db, n);
    FlushedSequence(db, db', file, x);
    hide Stands, FlushedDb, NumbersBelow, MemoryNewer, OnlyHistory, HistoryInOrder, NewerAbove, ReadsHistory, SharedOld, MemoryFrom;
    FrozenNewerAbove(db, n, x);
    FrozenShared(db, n, x);
    FrozenReads(db, n, x);
    FrozenFlushed(db, db', file, n, x);
    var m, t' := WithFrozen(db, n, x), Tables(db', x);
    RelocationKeepsPlaces(m, t', IMM, Place(0, file.number));
    SameAllReads(m, t');
    hide Tables, WithFrozen, Relocated, KeepsOrder;
    StandsNow(db', x);
  }

  lemma FlushedSequence(db: Db, db': Db, file: File, x: nat)
    requires FlushedDb(db, db', file) && HistoryInOrder(db) && x <= |db.history|
    requires forall e :: e in db.history ==> (e in db.mem <==> x < e.k.seqno)
    ensures db'.history == db.history && db'.reopenedAt == db.reopenedAt && MemoryFrom(db', x)
    ensures x <= db'.vs.core.lastSequence
  {
  }

  lemma StandsNow(db: Db, n: nat)
    requires MemoryFrom(db, n) && db.reopenedAt <= n <= db.vs.core.lastSequence
    requires NewerAbove(Tables(db, n)) && ReadsHistory(Tables(db, n))
    ensures Stands(db, n)
  {
  }

  // ------------------------------------------------------------------ reopening, and runs

  /** A store without anything in memory is its tables. */
  lemma ReopenStands(db: Db, segments: seq<seq<Entry>>, sizes: seq<nat>, seen: nat)
    requires Inv(db) && Enabled(db, Reopen(segments, sizes, seen))
    ensures Stands(ReopenStep(db, segments, sizes, seen), |db.history|)
  {
    var db' := ReopenStep(db, segments, sizes, seen);
    ReopenKeepsInv(db, segments, sizes, seen);
    EmptyMemory(db, segments, sizes, seen);
    hide ReopenStep, Enabled;
    CleanStands(db');
  }

  lemma EmptyMemory(db: Db, segments: seq<seq<Entry>>, sizes: seq<nat>, seen: nat)
    requires Enabled(db, Reopen(segments, sizes, seen))
    ensures var db' := ReopenStep(db, segments, sizes, seen);
            && db'.mem == [] && db'.imm == [] && db'.snapshots == multiset{} && db'.pending == None && db'.history == db.history
            && db'.logs != [] && CurrentLog(db').entries == [] && db'.reopenedAt == db'.last
  {
    hide LogAndApply, ReplayTables, LiveLogs, LogEntries, Recovered, Flatten;
  }

  lemma CleanStands(db: Db)
    requires Inv(db) && db.mem == [] && db.imm == [] && db.snapshots == multiset{} && db.pending == None
    requires db.logs != [] && CurrentLog(db).entries == [] && db.reopenedAt == db.last
    ensures Stands(db, |db.history|)
  {
    hide NewerAbove, ReadsHistory, SharedOld, TablesInOrder, OnlyHistory, MemoryFresh;
    assert db.history[..|db.history|] == db.history;
    var t := Tables(db, |db.history|);
    assert t == db.(logs := []);
    assert MemoryFrom(db, |db.history|);
    hide Inv, LogsCover, HistoryInOrder;
    SamePlaces(db, t);
    SameAllReads(db, t);
  }

  lemma SamePlaces(db: Db, t: Db)
    requires NewerAbove(db) && t == db.(logs := [])
    ensures NewerAbove(t) && All(t) == All(db)
  {
    forall p, f, e | Stored(t, p, f) && e in All(t) && f.k.user == e.k.user && f.k.seqno <= e.k.seqno
      ensures Covered(t, p, e)
    {
      assert Stored(db, p, f);
      var q, x :| NoLater(q, p) && Stored(db, q, x) && StandsFor(db, x, e);
      assert Stored(t, q, x) && StandsFor(t, x, e);
    }
  }

  lemma StepStands(db: Db, ev: Event, n: nat) returns (n': nat)
    requires Inv(db) && Stands(db, n) && Enabled(db, ev)
    ensures Stands(After(db, ev), n')
  {
    hide Stands;
    n' := n;
    match ev {
      case Write(ops) =>
        WriteParts(db);
        hide Inv;
        WriteStands(db, ops, n);
      case Flush(size) => n' := FlushStands(db, size, n);
      case Move(level, file, pointer) => MoveStands(db, level, file, pointer, n);
      case Install(outputs, sizes) =>
        assert Installs(db, outputs, sizes);
        InstallStands(db, outputs, sizes, n);
      case Reopen(segments, sizes, seen) =>
        ReopenStands(db, segments, sizes, seen);
        n' := |db.history|;
      case _ => KeepsStanding(db, ev, n);
    }
  }

  lemma WriteParts(db: Db)
    requires Inv(db)
    ensures HistoryInOrder(db) && OnlyHistory(db)
  {
    hide NewerAbove, ReadsHistory, SharedOld, TablesInOrder, LogsCover, MemoryFresh, PendingClosed;
  }

  lemma EmptyStands()
    ensures Stands(EMPTY, 0)
  {
    EmptyInv();
    var t := Tables(EMPTY, 0);
    assert t == EMPTY.(logs := []);
    SamePlaces(EMPTY, t);
    SameAllReads(EMPTY, t);
  }

  /** In every reachable state some first `n` operations are flushed: memory holds exactly the others, and the
      tables alone read as the map after the first `n`. */
  lemma {:induction false} ReachableStands(events: seq<Event>, db: Db) returns (n: nat)
    requires Reaches(events, db)
    ensures Stands(db, n)
  {
    hide Enabled, After, Stands;
    if events == [] {
      n := 0;
      EmptyStands();
    } else {
      var k := |events| - 1;
      var before :| Reaches(events[..k], before) && Enabled(before, events[k]) && db == After(before, events[k]);
      var m := ReachableStands(events[..k], before);
      ReachableInv(events[..k], before);
      n := StepStands(before, events[k], m);
    }
  }

  lemma FlushedReads(events: seq<Event>, db: Db, n: nat, u: UserKey, s: nat)
    requires Reaches(events, db) && Stands(db, n) && n <= s
    ensures n <= |Written(events)|
    ensures Read(TableEntries(db.Levels()), u, s) == Read(SetOf(db.history[..n]), u, s)
    ensures Read(TableEntries(db.Levels()), u, n) == Lookup(MapAfter(Written(events)[..n]), u)
  {
    HistoryIsWritten(events, db);
    hide Reaches, Written;
    StandsMemory(db, n);
    TablesAll(db, n);
    hide Stands, NewerAbove, All;
    assert Readable(Tables(db, n), n) && Readable(Tables(db, n), s);
    ReadIsLookup(Written(events)[..n], u, n);
    assert db.history[..n] == Stamp(Written(events)[..n], 1);
    assert Written(events)[..n][..n] == Written(events)[..n];
  }
}

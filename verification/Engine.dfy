/** The store as a step machine (db/db_impl.cc): memtables, versions, logs, snapshots, and at most one
    compaction in flight.  Flush, pick and install are atomic steps. */
module Engine {
  import opened Keys
  import opened Files
  import opened Runs
  import opened Versions
  import opened CompactionWork
  import opened InputSelection

  datatype Op = Put(user: UserKey, value: Bytes) | Delete(user: UserKey)

  /** A write-ahead log file and the versions its records hold. */
  datatype LogFile = LogFile(number: nat, entries: seq<Entry>)

  /** A picked compaction: its inputs, the smallest snapshot it honours, and the levels below its
      output level in its input version. */
  datatype Pending = Pending(level: nat, a: seq<File>, b: seq<File>, smallestSnapshot: nat, deeper: seq<seq<File>>, pointer: InternalKey)

  /** `history` (all versions ever written) and `reopenedAt` (last sequence at the latest reopen) are
      not part of the program's state; they only serve to state what it keeps. */
  datatype Db = Db(mem: seq<Entry>, imm: seq<Entry>, vs: VersionState, logs: seq<LogFile>, last: nat,
                   snapshots: multiset<nat>, pending: Option<Pending>, reopenedAt: nat, history: seq<Entry>)
  {
    function Levels(): seq<seq<File>> { vs.core.levels }
  }

  /** An empty directory just opened: log number 1, no MANIFEST. */
  const EMPTY: Db := Db([], [], FRESH, [LogFile(1, [])], 0, multiset{}, None, 0, [])

  // ------------------------------------------------------------------ writes

  function EntryOf(op: Op, seqno: nat): Entry {
    match op
    case Put(u, v) => Entry(InternalKey(u, seqno, Value), v)
    case Delete(u) => Entry(InternalKey(u, seqno, Deletion), [])
  }

  /** MemTableInserter: the operations of a batch get consecutive sequence numbers. */
  function Stamp(ops: seq<Op>, first: nat): (es: seq<Entry>)
    ensures |es| == |ops|
  {
    seq(|ops|, i requires 0 <= i < |ops| => EntryOf(ops[i], first + i))
  }

  function CurrentLog(db: Db): LogFile
    requires db.logs != []
  {
    db.logs[|db.logs| - 1]
  }

  function AppendToLog(logs: seq<LogFile>, es: seq<Entry>): seq<LogFile>
    requires logs != []
  {
    var n := |logs| - 1;
    logs[..n] + [logs[n].(entries := logs[n].entries + es)]
  }

  function WriteStep(db: Db, ops: seq<Op>): Db
    requires db.logs != []
  {
    var es := Stamp(ops, db.last + 1);
    db.(mem := InsertAll(db.mem, es), logs := AppendToLog(db.logs, es), last := db.last + |ops|, history := db.history + es)
  }

  // ------------------------------------------------------------------ flush

  function FreezeStep(db: Db): Db {
    db.(mem := [], imm := db.mem)
  }

  function TableOf(number: nat, size: nat, entries: seq<Entry>): File
    requires entries != []
  {
    File(number, size, entries[0].k, entries[|entries| - 1].k, entries)
  }

  /** FlushMemTable: a new table at level 0, logged with the current log number and last sequence. */
  function FlushTable(vs: VersionState, entries: seq<Entry>, size: nat, logNumber: nat, last: nat): VersionState
    requires entries != [] && |vs.core.levels| == NUM_LEVELS
  {
    var number := vs.core.nextFile;
    LogAndApply(vs.(core := vs.core.(nextFile := number + 1)),
                Edit(Some(logNumber), None, Some(last), {}, [NewFile(0, TableOf(number, size, entries))], map[]))
  }

  function FlushStep(db: Db, size: nat): Db
    requires db.imm != [] && db.logs != [] && |db.Levels()| == NUM_LEVELS
  {
    db.(imm := [], vs := FlushTable(db.vs, db.imm, size, CurrentLog(db).number, db.last))
  }

  // ------------------------------------------------------------------ compaction

  function MoveEdit(level: nat, file: File, pointer: InternalKey): Edit {
    Edit(None, None, None, {DeletedFile(level, file.number)}, [NewFile(level + 1, file)], map[level := pointer])
  }

  /** Setting a compaction up moves the level's compact pointer; the edit repeats it. */
  function PointAt(vs: VersionState, level: nat, pointer: InternalKey): VersionState {
    vs.(pointers := vs.pointers[level := pointer])
  }

  function MoveStep(db: Db, level: nat, file: File, pointer: InternalKey): Db
    requires |db.Levels()| == NUM_LEVELS
  {
    db.(vs := LogAndApply(PointAt(db.vs, level, pointer), MoveEdit(level, file, pointer)))
  }

  function PickStep(db: Db, level: nat, a: seq<File>, b: seq<File>, smallestSnapshot: nat, pointer: InternalKey): Db
    requires level + 2 <= |db.Levels()|
  {
    db.(vs := PointAt(db.vs, level, pointer), pending := Some(Pending(level, a, b, smallestSnapshot, db.Levels()[level + 2..], pointer)))
  }

  function OutputFiles(outputs: seq<Output>, sizes: seq<nat>, number: nat): (files: seq<File>)
    requires |sizes| == |outputs|
    ensures |files| == |outputs|
  {
    seq(|outputs|, i requires 0 <= i < |outputs| =>
      File(number + i, sizes[i], outputs[i].smallest, outputs[i].largest, outputs[i].entries))
  }

  function InputDeletions(p: Pending): set<DeletedFile> {
    (set f | f in p.a :: DeletedFile(p.level, f.number)) + (set f | f in p.b :: DeletedFile(p.level + 1, f.number))
  }

  /** InstallCompactionResults: inputs deleted, outputs added one level down. */
  function InstallEdit(p: Pending, files: seq<File>): Edit {
    Edit(None, None, None, InputDeletions(p), Tagged(files, p.level + 1), map[p.level := p.pointer])
  }

  /** Takes `n` file numbers. */
  function Reserve(vs: VersionState, n: nat): VersionState {
    vs.(core := vs.core.(nextFile := vs.core.nextFile + n))
  }

  function InstallStep(db: Db, outputs: seq<Output>, sizes: seq<nat>): Db
    requires db.pending.Some? && |sizes| == |outputs| && |db.Levels()| == NUM_LEVELS
  {
    var p := db.pending.value;
    var number := db.vs.core.nextFile;
    db.(vs := LogAndApply(Reserve(db.vs, |outputs|), InstallEdit(p, OutputFiles(outputs, sizes, number))), pending := None)
  }

  // ------------------------------------------------------------------ reopen

  /** The logs a reopen replays: all without a CURRENT file, else those from the recorded number on. */
  function LiveLogs(logs: seq<LogFile>, vs: VersionState): seq<LogFile> {
    if logs == [] then []
    else
      var n := |logs| - 1;
      LiveLogs(logs[..n], vs) + if vs.manifest == [] || logs[n].number >= vs.core.logNumber then [logs[n]] else []
  }

  function LogEntries(logs: seq<LogFile>): seq<Entry> {
    if logs == [] then [] else LogEntries(logs[..|logs| - 1]) + logs[|logs| - 1].entries
  }

  /** Replay cut into the memtables that were flushed on the way; each becomes a level-0 table. */
  function ReplayTables(vs: VersionState, segments: seq<seq<Entry>>, sizes: seq<nat>, logNumber: nat): (r: VersionState)
    requires |sizes| == |segments| && |vs.core.levels| == NUM_LEVELS
    requires forall i :: 0 <= i < |segments| ==> segments[i] != []
    ensures |r.core.levels| == NUM_LEVELS
  {
    if segments == [] then vs
    else
      var n := |segments| - 1;
      var before := ReplayTables(vs, segments[..n], sizes[..n], logNumber);
      var segment := segments[n];
      FlushTable(before, InsertAll([], segment), sizes[n], logNumber, segment[|segment| - 1].k.seqno)
  }

  /** DBImpl::Open on an existing directory.  `seen` is one above the largest number in the directory. */
  function ReopenStep(db: Db, segments: seq<seq<Entry>>, sizes: seq<nat>, seen: nat): Db
    requires db.logs != [] && |sizes| == |segments|
    requires forall i :: 0 <= i < |segments| ==> segments[i] != []
  {
    var recovered := Recovered(db.vs);
    var live := LogEntries(LiveLogs(db.logs, recovered));
    var last := if live == [] then recovered.core.lastSequence
                else Max(recovered.core.lastSequence, live[|live| - 1].k.seqno);
    var marked := recovered.(core := recovered.core.(nextFile := Max(recovered.core.nextFile, seen)));
    var flushed := ReplayTables(marked, segments, sizes, CurrentLog(db).number);
    var logNumber := flushed.core.nextFile;
    var vs := LogAndApply(flushed.(core := flushed.core.(nextFile := logNumber + 1)),
                          Edit(Some(logNumber), None, Some(last), {}, [], map[]));
    Db([], [], vs, db.logs + [LogFile(logNumber, [])], last, multiset{}, None, last, db.history)
  }

  // ------------------------------------------------------------------ steps

  datatype Event =
    | Write(ops: seq<Op>)
    | Freeze
    | Flush(size: nat)
    | Move(level: nat, file: File, pointer: InternalKey)
    | Pick(level: nat, a: seq<File>, b: seq<File>, smallestSnapshot: nat, pointer: InternalKey)
    | Install(outputs: seq<Output>, sizes: seq<nat>)
    | TakeSnapshot
    | ReleaseSnapshot(s: nat)
    | Reopen(segments: seq<seq<Entry>>, sizes: seq<nat>, seen: nat)

  /** SmallestSnapshot(): the oldest live snapshot, or the last sequence if there is none. */
  ghost predicate IsSmallestSnapshot(db: Db, s: nat) {
    if db.snapshots == multiset{} then s == db.last
    else s in db.snapshots && forall t :: t in db.snapshots ==> s <= t
  }

  ghost predicate Enabled(db: Db, ev: Event) {
    && db.logs != [] && |db.Levels()| == NUM_LEVELS
    && match ev
       case Write(ops) => db.last + |ops| <= MAX_SEQUENCE
       case Freeze => db.imm == []
       case Flush(size) => db.imm != []
       case Move(level, file, pointer) => level + 1 < NUM_LEVELS && db.pending.None? && ClosedSelection(db.Levels(), level, [file], [])
       case Pick(level, a, b, s, pointer) =>
         && level + 1 < NUM_LEVELS && db.pending.None? && ClosedSelection(db.Levels(), level, a, b)
         && IsSmallestSnapshot(db, s) && s < MAX_SEQUENCE
       case Install(outputs, sizes) =>
         && db.pending.Some? && |sizes| == |outputs|
         && (forall i :: 0 <= i < |outputs| ==> ValidOutput(outputs[i]))
         && var p := db.pending.value;
            var input := MergeRuns(p.a + p.b);
            Concat(outputs) == Kept(input, |input|, p.smallestSnapshot, p.deeper)
       case TakeSnapshot => true
       case ReleaseSnapshot(s) => true
       case Reopen(segments, sizes, seen) =>
         && |sizes| == |segments|
         && (forall i :: 0 <= i < |segments| ==> segments[i] != [])
         && Flatten(segments) == LogEntries(LiveLogs(db.logs, Recovered(db.vs)))
         && (forall i :: 0 <= i < |db.logs| ==> db.logs[i].number < seen)
  }

  function Flatten(segments: seq<seq<Entry>>): seq<Entry> {
    if segments == [] then [] else Flatten(segments[..|segments| - 1]) + segments[|segments| - 1]
  }

  function After(db: Db, ev: Event): Db
    requires Enabled(db, ev)
  {
    match ev
    case Write(ops) => WriteStep(db, ops)
    case Freeze => FreezeStep(db)
    case Flush(size) => FlushStep(db, size)
    case Move(level, file, pointer) => MoveStep(db, level, file, pointer)
    case Pick(level, a, b, s, pointer) => PickStep(db, level, a, b, s, pointer)
    case Install(outputs, sizes) => InstallStep(db, outputs, sizes)
    case TakeSnapshot => db.(snapshots := db.snapshots + multiset{db.last})
    case ReleaseSnapshot(s) => db.(snapshots := db.snapshots - multiset{s})
    case Reopen(segments, sizes, seen) => ReopenStep(db, segments, sizes, seen)
  }

  /** States reached from an empty store by the given events, each enabled when it happens. */
  ghost predicate Reaches(events: seq<Event>, db: Db) {
    if events == [] then db == EMPTY
    else
      var n := |events| - 1;
      exists before :: Reaches(events[..n], before) && Enabled(before, events[n]) && db == After(before, events[n])
  }
}

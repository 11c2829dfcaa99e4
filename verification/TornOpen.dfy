/** From the bytes of the log to what a store opened on them reads (db/db_impl.cc, Write, Open and RecoverLogFile): a run
    of calls leaves a log; the log loses its end at some byte; opening accepts what is left or rejects it. */
module TornOpen {
  import opened Keys
  import opened Files
  import opened Runs
  import opened Versions
  import opened Engine
  import opened Invariants
  import opened Visibility
  import opened SafetyReopen
  import opened Safety
  import opened TablesAlone
  import opened TornLogs
  import opened WalReplay
  import LogFormat
  import LogRecovery
  import Logs
  import B = WriteBatches

  // ------------------------------------------------------------------ runs of calls, and their log

  /** A call of Write with a batch, or any other step of the store. */
  datatype Call = WriteCall(ops: seq<B.BatchOp>) | OtherCall(ev: Event)

  function EventOf(call: Call): Event {
    match call
    case WriteCall(ops) => Write(B.AbstractAll(ops))
    case OtherCall(ev) => ev
  }

  function Events(calls: seq<Call>): (r: seq<Event>)
    ensures |r| == |calls|
  {
    seq(|calls|, i requires 0 <= i < |calls| => EventOf(calls[i]))
  }

  /** The operations of the calls, in order. */
  function Ops(calls: seq<Call>): seq<Op> {
    Written(Events(calls))
  }

  /** Keys, values and counts have sizes that fit their 32 bits, and batches go through Write alone. */
  ghost predicate Proper(calls: seq<Call>) {
    forall i :: 0 <= i < |calls| ==>
      match calls[i]
      case WriteCall(ops) => B.AllFit(ops) && |ops| < B.COUNT_LIMIT
      case OtherCall(ev) => !ev.Write?
  }

  /** The batches in the current log: those written since it was begun. */
  function LogBatches(calls: seq<Call>): seq<Batch> {
    if calls == [] then []
    else
      var before := calls[..|calls| - 1];
      match calls[|calls| - 1]
      case WriteCall(ops) => if ops == [] then LogBatches(before) else LogBatches(before) + [Batch(|Ops(before)| + 1, ops)]
      case OtherCall(ev) => if ev.Reopen? then [] else LogBatches(before)
  }

  /** The bytes of the current log. */
  function LogBytes(stamp: Bytes -> nat, calls: seq<Call>): Bytes {
    LogFormat.WriteAll(stamp, Records(LogBatches(calls)))
  }

  /** What Write does to the log: the batch gets its sequence number and is added as one record. */
  method LogWrite(batch: B.WriteBatch, writer: Logs.Writer, last: nat, ghost calls: seq<Call>)
    requires batch.Ok() && batch.ops != [] && writer.Ok() && writer.dest == LogBytes(writer.stamp, calls)
    requires last == |Ops(calls)| && last + |batch.ops| <= MAX_SEQUENCE
    modifies batch, writer
    ensures batch.Ok() && batch.ops == old(batch.ops) && writer.Ok()
    ensures writer.dest == LogBytes(writer.stamp, calls + [WriteCall(batch.ops)])
  {
    hide LogFormat.WriteAll, LogFormat.Encoded, B.BatchBytes, Ops, LogBatches;
    OneMoreRecord(writer.stamp, calls, batch.ops);
    batch.SetSequence(last + 1);
    writer.AddRecord(batch.rep);
  }

  lemma OneMoreRecord(stamp: Bytes -> nat, calls: seq<Call>, ops: seq<B.BatchOp>)
    requires ops != []
    ensures var before := LogBytes(stamp, calls);
            LogBytes(stamp, calls + [WriteCall(ops)]) ==
            before + LogFormat.Encoded(stamp, B.BatchBytes(|Ops(calls)| + 1, ops), |before|, true)
  {
    hide LogFormat.Encoded, B.BatchBytes, Ops;
    assert (calls + [WriteCall(ops)])[..|calls|] == calls;
    var batches, b := LogBatches(calls), Batch(|Ops(calls)| + 1, ops);
    assert LogBatches(calls + [WriteCall(ops)]) == batches + [b];
    var records := Records(batches + [b]);
    assert records[..|records| - 1] == Records(batches);
  }

  // ------------------------------------------------------------------ the log of a run

  /** Each batch begins with the sequence number after those before it. */
  ghost predicate NumberedFrom(batches: seq<Batch>, first: nat) {
    batches == [] || (var n := |batches| - 1; NumberedFrom(batches[..n], first) && batches[n].seqno == first + |BatchVersions(batches[..n])|)
  }

  /** The current log of the store is that of the batches, numbered on from what is older. */
  ghost predicate LogIs(db: Db, batches: seq<Batch>) {
    && db.logs != [] && CurrentLog(db).entries == BatchVersions(batches) && |CurrentLog(db).entries| <= |db.history|
    && AllStorable(batches) && NumberedFrom(batches, |db.history| - |CurrentLog(db).entries| + 1)
  }

  /** In every reachable state the current log holds the versions of exactly the batches written since it was begun. */
  lemma {:induction false} LogHolds(calls: seq<Call>, db: Db)
    requires Proper(calls) && Reaches(Events(calls), db)
    ensures LogIs(db, LogBatches(calls))
  {
    hide LogIs, Enabled, After;
    if calls == [] {
      EmptyLog();
    } else {
      var n := |calls| - 1;
      var before :| Reaches(Events(calls)[..n], before) && Enabled(before, Events(calls)[n]) && db == After(before, Events(calls)[n]);
      assert Events(calls)[..n] == Events(calls[..n]);
      LogHolds(calls[..n], before);
      match calls[n]
      case WriteCall(ops) => WriteLogs(calls, before, ops);
      case OtherCall(ev) => OtherLogs(before, ev, LogBatches(calls[..n]));
    }
  }

  lemma EmptyLog()
    ensures LogIs(EMPTY, [])
  {
  }

  lemma WriteLogs(calls: seq<Call>, db: Db, ops: seq<B.BatchOp>)
    requires Proper(calls) && calls != [] && calls[|calls| - 1] == WriteCall(ops)
    requires Reaches(Events(calls[..|calls| - 1]), db) && LogIs(db, LogBatches(calls[..|calls| - 1]))
    requires Enabled(db, Write(B.AbstractAll(ops)))
    ensures LogIs(After(db, Write(B.AbstractAll(ops))), LogBatches(calls))
  {
    hide Reaches, Ops, LogBatches, LogIs, After, Enabled, Stamp, Storable, CurrentLog, Proper;
    var before := calls[..|calls| - 1];
    var r, b := After(db, Write(B.AbstractAll(ops))), Batch(|Ops(before)| + 1, ops);
    OpsCounted(before, db);
    LogsAfterWrite(db, B.AbstractAll(ops));
    LastCallWrites(calls, ops);
    LastIsStorable(calls, db, ops);
    if ops == [] {
      NothingStamped(db.last + 1);
      SameLog(db, r, LogBatches(before));
    } else {
      LogGrows(db, r, LogBatches(before), b);
    }
  }

  /** The last sequence is the number of operations written. */
  lemma OpsCounted(calls: seq<Call>, db: Db)
    requires Reaches(Events(calls), db)
    ensures |Ops(calls)| == db.last == |db.history|
  {
    ReachableInv(Events(calls), db);
    hide Reaches, Inv, Written;
    HistoryLength(db);
    HistoryIsWritten(Events(calls), db);
  }

  lemma LastIsStorable(calls: seq<Call>, db: Db, ops: seq<B.BatchOp>)
    requires Proper(calls) && calls != [] && calls[|calls| - 1] == WriteCall(ops) && Enabled(db, Write(B.AbstractAll(ops)))
    ensures Storable(Batch(db.last + 1, ops))
  {
    hide B.Fits;
  }

  lemma NothingStamped(first: nat)
    ensures B.AbstractAll([]) == [] && Stamp([], first) == []
  {
  }

  lemma SameLog(db: Db, r: Db, batches: seq<Batch>)
    requires LogIs(db, batches) && r.logs != [] && CurrentLog(r).entries == CurrentLog(db).entries + [] && r.history == db.history + []
    ensures LogIs(r, batches)
  {
    hide NumberedFrom, BatchVersions;
    assert CurrentLog(r).entries == CurrentLog(db).entries && r.history == db.history;
  }

  lemma LogGrows(db: Db, r: Db, batches: seq<Batch>, b: Batch)
    requires LogIs(db, batches) && Storable(b) && b.seqno == |db.history| + 1 && r.logs != []
    requires CurrentLog(r).entries == CurrentLog(db).entries + Stamp(B.AbstractAll(b.ops), b.seqno)
    requires r.history == db.history + Stamp(B.AbstractAll(b.ops), b.seqno)
    ensures LogIs(r, batches + [b])
  {
    hide Storable;
    OneMoreBatch(batches, b, |db.history| - |CurrentLog(db).entries| + 1);
    hide NumberedFrom, BatchVersions;
  }

  lemma LastCallWrites(calls: seq<Call>, ops: seq<B.BatchOp>)
    requires calls != [] && calls[|calls| - 1] == WriteCall(ops)
    ensures var before := calls[..|calls| - 1];
            LogBatches(calls) == if ops == [] then LogBatches(before) else LogBatches(before) + [Batch(|Ops(before)| + 1, ops)]
  {
  }

  lemma LogsAfterWrite(db: Db, ops: seq<Op>)
    requires Enabled(db, Write(ops))
    ensures var r, es := After(db, Write(ops)), Stamp(ops, db.last + 1);
            r.logs != [] && CurrentLog(r).entries == CurrentLog(db).entries + es && r.history == db.history + es
  {
  }

  lemma OneMoreBatch(batches: seq<Batch>, b: Batch, first: nat)
    requires NumberedFrom(batches, first) && b.seqno == first + |BatchVersions(batches)|
    ensures BatchVersions(batches + [b]) == BatchVersions(batches) + Stamp(B.AbstractAll(b.ops), b.seqno)
    ensures NumberedFrom(batches + [b], first)
  {
    assert (batches + [b])[..|batches|] == batches;
  }

  lemma OtherLogs(db: Db, ev: Event, batches: seq<Batch>)
    requires Enabled(db, ev) && !ev.Write? && LogIs(db, batches)
    ensures LogIs(After(db, ev), if ev.Reopen? then [] else batches)
  {
    hide LogAndApply, ReplayTables, FlushTable, NumberedFrom, BatchVersions, Recovered, LiveLogs, LogEntries;
    NoBatches(|db.history| + 1);
  }

  lemma NoBatches(first: nat)
    ensures NumberedFrom([], first) && BatchVersions([]) == []
  {
  }

  // ------------------------------------------------------------------ what is left of it

  lemma {:induction false} NumberedPart(batches: seq<Batch>, first: nat, j: nat)
    requires NumberedFrom(batches, first) && j <= |batches|
    ensures NumberedFrom(batches[..j], first)
  {
    hide BatchVersions;
    if j < |batches| {
      NumberedPart(batches[..|batches| - 1], first, j);
      assert batches[..|batches| - 1][..j] == batches[..j];
    } else {
      assert batches[..j] == batches;
    }
  }

  /** The last sequence after replaying numbered batches. */
  lemma {:induction false} LastOfNumbered(batches: seq<Batch>, first: nat, recorded: nat)
    requires NumberedFrom(batches, first) && first > 0
    ensures var n := |BatchVersions(batches)|;
            LastSequence(batches, recorded) == if n == 0 then recorded else Max(recorded, first + n - 1)
  {
    hide BatchVersions;
    if batches == [] {
      NoBatches(first);
    } else {
      LastOfNumbered(batches[..|batches| - 1], first, recorded);
      LastBatchVersions(batches);
    }
  }

  lemma LastBatchVersions(batches: seq<Batch>)
    requires batches != []
    ensures |BatchVersions(batches)| == |BatchVersions(batches[..|batches| - 1])| + |batches[|batches| - 1].ops|
  {
  }

  /** The first `c` calls are those whose batches are the first `j` of the log; one call more adds the next batch. */
  ghost predicate CallsOf(calls: seq<Call>, j: nat, c: nat)
    requires j <= |LogBatches(calls)|
  {
    && c <= |calls| && LogBatches(calls[..c]) == LogBatches(calls)[..j] && Ops(calls[..c]) <= Ops(calls)
    && |Ops(calls)| - |Ops(calls[..c])| == |BatchVersions(LogBatches(calls))| - |BatchVersions(LogBatches(calls)[..j])|
    && if j == |LogBatches(calls)| then c == |calls| else c < |calls| && LogBatches(calls[..c + 1]) == LogBatches(calls)[..j + 1]
  }

  /** The operations that survive with the first `j` batches of the log are those of whole calls. */
  lemma {:induction false} WholeCalls(calls: seq<Call>, j: nat) returns (c: nat)
    requires Proper(calls) && j <= |LogBatches(calls)|
    ensures CallsOf(calls, j, c)
  {
    hide Ops, BatchVersions;
    if j == |LogBatches(calls)| {
      c := |calls|;
      assert calls[..c] == calls && LogBatches(calls)[..j] == LogBatches(calls);
    } else {
      OneCallMore(calls);
      hide CallsOf;
      c := WholeCalls(calls[..|calls| - 1], j);
      hide LogBatches, Proper;
      OneCallBack(calls, calls[..|calls| - 1], j, c);
    }
  }

  lemma OneCallBack(calls: seq<Call>, before: seq<Call>, j: nat, c: nat)
    requires j < |LogBatches(calls)| && calls != [] && before == calls[..|calls| - 1]
    requires LogBatches(before) <= LogBatches(calls) && |LogBatches(calls)| <= |LogBatches(before)| + 1 && Ops(before) <= Ops(calls)
    requires |Ops(calls)| - |Ops(before)| == |BatchVersions(LogBatches(calls))| - |BatchVersions(LogBatches(before))|
    requires CallsOf(before, j, c)
    ensures CallsOf(calls, j, c)
  {
    hide LogBatches, Ops, BatchVersions;
    assert before[..c] == calls[..c] && LogBatches(before)[..j] == LogBatches(calls)[..j];
    if j == |LogBatches(before)| {
      assert calls[..c + 1] == calls && LogBatches(calls)[..j + 1] == LogBatches(calls);
    } else {
      assert before[..c + 1] == calls[..c + 1] && LogBatches(before)[..j + 1] == LogBatches(calls)[..j + 1];
    }
  }

  /** A call that keeps the log adds as many operations to the run as versions to it. */
  lemma OneCallMore(calls: seq<Call>)
    requires Proper(calls) && LogBatches(calls) != []
    ensures var before := calls[..|calls| - 1];
            && LogBatches(before) <= LogBatches(calls) && |LogBatches(calls)| <= |LogBatches(before)| + 1
            && Ops(before) <= Ops(calls)
            && |Ops(calls)| - |Ops(before)| == |BatchVersions(LogBatches(calls))| - |BatchVersions(LogBatches(before))|
  {
    var n := |calls| - 1;
    assert Events(calls)[..n] == Events(calls[..n]);
    match calls[n]
    case WriteCall(ops) => {
      if ops != [] {
        var batches, b := LogBatches(calls[..n]), Batch(|Ops(calls[..n])| + 1, ops);
        assert (batches + [b])[..|batches|] == batches;
      }
    }
    case OtherCall(ev) =>
  }

  // ------------------------------------------------------------------ opening on what is left

  /** How many batches of the log end within its first `size` bytes. */
  function BatchesLeft(stamp: Bytes -> nat, calls: seq<Call>, size: nat): (j: nat)
    ensures j <= |LogBatches(calls)|
  {
    LogRecovery.Survivors(stamp, Records(LogBatches(calls)), size)
  }

  /** How many versions these wrote. */
  function VersionsLeft(stamp: Bytes -> nat, calls: seq<Call>, size: nat): nat {
    |BatchVersions(LogBatches(calls)[..BatchesLeft(stamp, calls, size)])|
  }

  /** The tables are what the stretches of the replay make of empty memtables. */
  ghost predicate TablesOf(tables: seq<seq<Entry>>, segments: seq<seq<Entry>>) {
    |tables| == |segments| && forall i :: 0 <= i < |tables| ==> segments[i] != [] && tables[i] == InsertAll([], segments[i])
  }

  lemma LeftOfLog(db: Db, batches: seq<Batch>, j: nat)
    requires LogIs(db, batches) && j <= |batches|
    ensures var k := |BatchVersions(batches[..j])|; k <= |CurrentLog(db).entries| && CurrentLog(db).entries[..k] == BatchVersions(batches[..j])
  {
    hide NumberedFrom, BatchVersions;
    FirstBatches(batches, j);
  }

  lemma CanReopen(db: Db, k: nat, segments: seq<seq<Entry>>, sizes: seq<nat>, seen: nat)
    requires LogsCover(db) && TablesInOrder(db) && k <= |CurrentLog(db).entries|
    requires Flatten(segments) == CurrentLog(db).entries[..k] && |sizes| == |segments|
    requires (forall i :: 0 <= i < |segments| ==> segments[i] != []) && forall i :: 0 <= i < |db.logs| ==> db.logs[i].number < seen
    ensures CutReopen(db, k, segments, sizes, seen)
  {
    hide Flatten, LiveLogs, LogEntries, Recovered, TablesInOrder, LogsCover, CutLog, CurrentLog;
    LevelsThere(db);
    LogsThere(db);
    CutLogLives(db, k);
    CutSame(db, k);
    CutNumbers(db, k, seen);
  }

  lemma LogsThere(db: Db)
    requires LogsCover(db)
    ensures db.logs != []
  {
  }

  lemma CutNumbers(db: Db, k: nat, seen: nat)
    requires db.logs != [] && k <= |CurrentLog(db).entries| && forall i :: 0 <= i < |db.logs| ==> db.logs[i].number < seen
    ensures forall i :: 0 <= i < |CutLog(db, k).logs| ==> CutLog(db, k).logs[i].number < seen
  {
  }

  lemma LevelsThere(db: Db)
    requires TablesInOrder(db)
    ensures |db.Levels()| == NUM_LEVELS && Durable(db.vs)
  {
    hide NumbersUnique;
  }

  /** The stretches that became tables: the last one too, unless nothing is left in the memtable. */
  function AllCut(r: Stretches): seq<seq<Entry>> {
    if r.rest == [] then r.cut else r.cut + [r.rest]
  }

  /** The last memtable of a replay, unless it is empty, becomes a table too. */
  lemma LastTable(full: seq<Entry> -> bool, batches: seq<Batch>, tables: seq<seq<Entry>>, m: seq<Entry>)
    requires Memtables(tables, m, StretchesOf(full, batches, []))
    ensures var segments := AllCut(StretchesOf(full, batches, []));
            && TablesOf(if m == [] then tables else tables + [m], segments) && Flatten(segments) == BatchVersions(batches)
            && |segments| == if m == [] then |tables| else |tables| + 1
  {
    hide Flatten, InsertAll, BatchVersions, StretchesOf;
    StretchesAre(full, batches, []);
    var r := StretchesOf(full, batches, []);
    InsertedIsEmpty(r.rest);
    assert [] + BatchVersions(batches) == BatchVersions(batches);
    if r.rest == [] {
      assert Flatten(r.cut) + [] == Flatten(r.cut);
    } else {
      OneMorePart(r.cut, r.rest);
    }
  }

  lemma InsertedIsEmpty(rest: seq<Entry>)
    ensures InsertAll([], rest) == [] <==> rest == []
  {
    if rest != [] {
      InsertAllMembers([], rest, rest[0]);
    }
  }

  lemma OneMorePart(parts: seq<seq<Entry>>, rest: seq<Entry>)
    ensures Flatten(parts + [rest]) == Flatten(parts) + rest
  {
    assert (parts + [rest])[..|parts|] == parts;
  }

  /** The sequence numbers of what is left lead to the last sequence a reopen sets. */
  lemma LastIsReopened(db: Db, batches: seq<Batch>, j: nat, k: nat, segments: seq<seq<Entry>>, sizes: seq<nat>, seen: nat)
    requires TablesInOrder(db) && LogsCover(db) && HistoryInOrder(db) && LogIs(db, batches) && j <= |batches|
    requires k == |BatchVersions(batches[..j])| && CutReopen(db, k, segments, sizes, seen)
    ensures CutLog(db, k).logs != [] && |sizes| == |segments| && forall i :: 0 <= i < |segments| ==> segments[i] != []
    ensures LastSequence(batches[..j], Recovered(db.vs).core.lastSequence) == ReopenStep(CutLog(db, k), segments, sizes, seen).last
  {
    hide LogIs, LastSequence, LogsCover, HistoryInOrder, CutReopen, TablesInOrder, ReopenStep, CutLog, NothingInMemory, Recovered,
      BatchVersions, CurrentLog, NumberedFrom;
    CutBounds(db, k, segments, sizes, seen);
    LastOfLeft(db, batches, j, Recovered(db.vs).core.lastSequence);
    LastOfReopen(db, k, segments, sizes, seen);
    SequencesBelow(db, k);
  }

  lemma CutBounds(db: Db, k: nat, segments: seq<seq<Entry>>, sizes: seq<nat>, seen: nat)
    requires TablesInOrder(db) && LogsCover(db) && CutReopen(db, k, segments, sizes, seen)
    ensures db.logs != [] && k <= |CurrentLog(db).entries| && CutLog(db, k).logs != []
    ensures |sizes| == |segments| && forall i :: 0 <= i < |segments| ==> segments[i] != []
  {
    hide LogsCover, NumbersUnique, Sound;
    assert db.logs != [] && k <= |CurrentLog(db).entries|;
    hide CutReopen;
    CutSegments(db, k, segments, sizes, seen);
  }

  lemma LastOfLeft(db: Db, batches: seq<Batch>, j: nat, recorded: nat)
    requires LogIs(db, batches) && j <= |batches|
    ensures var k := |BatchVersions(batches[..j])|;
            LastSequence(batches[..j], recorded) == if k == 0 then recorded else Max(recorded, Survived(db, k))
  {
    hide NumberedFrom, BatchVersions;
    var first := |db.history| - |CurrentLog(db).entries| + 1;
    NumberedPart(batches, first, j);
    LastOfNumbered(batches[..j], first, recorded);
  }

  lemma LastOfReopen(db: Db, k: nat, segments: seq<seq<Entry>>, sizes: seq<nat>, seen: nat)
    requires TablesInOrder(db) && LogsCover(db) && CutReopen(db, k, segments, sizes, seen)
    requires db.logs != [] && k <= |CurrentLog(db).entries| && CutLog(db, k).logs != []
    requires |sizes| == |segments| && forall i :: 0 <= i < |segments| ==> segments[i] != []
    ensures var es, recorded := CurrentLog(db).entries[..k], Recovered(db.vs).core.lastSequence;
            ReopenStep(CutLog(db, k), segments, sizes, seen).last == if es == [] then recorded else Max(recorded, es[k - 1].k.seqno)
  {
    assert Sound(db.vs);
    hide Sound, LogsCover, CutReopen, TablesInOrder, ReopenStep, CutLog, NothingInMemory, Recovered, CurrentLog, WithNewLog, ReplayTables, Marked;
    CutShape(db, k, segments, sizes, seen);
    SoundRecovers(db.vs, seen);
  }

  /** Reads of the reopened store `r` at its last sequence, `left` being the operations of the calls that survived. */
  ghost predicate ReadsAfterCut(r: Db, db: Db, n: nat, k: nat, ops: seq<Op>, left: seq<Op>, u: UserKey)
    requires db.logs != [] && k <= |CurrentLog(db).entries| && n <= |ops|
  {
    if n <= |left| then Read(All(r), u, r.last) == Lookup(MapAfter(left), u)
    else
      && (Read(All(r), u, r.last) == Lookup(MapAfter(ops[..n]), u) <==> !SomeSurfaces(db, k, n, u))
      && forall e :: Surfaces(db, k, n, u, e) ==> Read(All(r), u, r.last) == ValueIn(e)
  }

  lemma ReadsLeft(calls: seq<Call>, db: Db, n: nat, k: nat, c: nat, segments: seq<seq<Entry>>, sizes: seq<nat>, seen: nat, u: UserKey)
    requires Reaches(Events(calls), db) && Stands(db, n) && CutReopen(db, k, segments, sizes, seen)
    requires CutLog(db, k).logs != [] && |sizes| == |segments| && forall i :: 0 <= i < |segments| ==> segments[i] != []
    requires n <= |Ops(calls)| && c <= |calls| && Ops(calls[..c]) <= Ops(calls) && Survived(db, k) == |Ops(calls[..c])|
    ensures ReadsAfterCut(ReopenStep(CutLog(db, k), segments, sizes, seen), db, n, k, Ops(calls), Ops(calls[..c]), u)
  {
    hide Reaches, Stands, Enabled, ReopenStep, Surfaces, SomeSurfaces, All, Read, MapAfter, Written, Survived, CutLog, CurrentLog, Flatten,
      LiveLogs, LogEntries, CutReopen;
    CutWithin(db, k, segments, sizes, seen);
    TornReopen(Events(calls), db, n, k, segments, sizes, seen, u);
    assert Ops(calls)[..|Ops(calls[..c])|] == Ops(calls[..c]);
  }

  lemma CutWithin(db: Db, k: nat, segments: seq<seq<Entry>>, sizes: seq<nat>, seen: nat)
    requires CutReopen(db, k, segments, sizes, seen)
    ensures db.logs != [] && k <= |CurrentLog(db).entries|
  {
  }

  /** The log of the first `c` calls lies within `size` bytes, that of one call more does not. */
  ghost predicate LastWithin(stamp: Bytes -> nat, calls: seq<Call>, size: nat, c: nat)
    requires c <= |calls|
  {
    |LogBytes(stamp, calls[..c])| <= size && (c < |calls| ==> size < |LogBytes(stamp, calls[..c + 1])|)
  }

  /** A log that is cut anywhere keeps the versions of the batches that survive whole: what survives are the operations
      of the calls up to the last whose log lies within the cut. */
  lemma WholeBatches(stamp: Bytes -> nat, calls: seq<Call>, db: Db, size: nat) returns (c: nat)
    requires Proper(calls) && Reaches(Events(calls), db) && size <= |LogBytes(stamp, calls)|
    ensures c <= |calls| && Ops(calls[..c]) <= Ops(calls) && LastWithin(stamp, calls, size, c)
    ensures LogBatches(calls[..c]) == LogBatches(calls)[..BatchesLeft(stamp, calls, size)]
    ensures var k := VersionsLeft(stamp, calls, size);
            && db.logs != [] && k <= |CurrentLog(db).entries|
            && CurrentLog(db).entries[..k] == BatchVersions(LogBatches(calls[..c])) && Survived(db, k) == |Ops(calls[..c])|
  {
    hide Proper, Reaches, LogBatches, BatchVersions, Ops, NumberedFrom, AllStorable, BatchesLeft, LogBytes;
    OpsCounted(calls, db);
    LogHolds(calls, db);
    var j := BatchesLeft(stamp, calls, size);
    LeftOfLog(db, LogBatches(calls), j);
    c := WholeCalls(calls, j);
    BytesLeft(stamp, calls, size, c);
  }

  lemma BytesLeft(stamp: Bytes -> nat, calls: seq<Call>, size: nat, c: nat)
    requires c <= |calls| && size <= |LogBytes(stamp, calls)|
    requires var j := BatchesLeft(stamp, calls, size);
             && LogBatches(calls[..c]) == LogBatches(calls)[..j]
             && if j == |LogBatches(calls)| then c == |calls| else c < |calls| && LogBatches(calls[..c + 1]) == LogBatches(calls)[..j + 1]
    ensures LastWithin(stamp, calls, size, c)
  {
    hide LogFormat.WriteAll, LogRecovery.Survivors, LogBatches;
    var batches, j := LogBatches(calls), BatchesLeft(stamp, calls, size);
    RecordsOfPart(batches, j);
    if j > 0 {
      LogRecovery.SurvivorsEndInside(stamp, Records(batches), size, j);
    } else {
      NoBytes(stamp);
    }
    if j < |batches| {
      RecordsOfPart(batches, j + 1);
      LogRecovery.SurvivorsEndInside(stamp, Records(batches), size, j + 1);
    }
  }

  lemma RecordsOfPart(batches: seq<Batch>, j: nat)
    requires j <= |batches|
    ensures Records(batches[..j]) == Records(batches)[..j]
  {
  }

  lemma NoBytes(stamp: Bytes -> nat)
    ensures LogFormat.WriteAll(stamp, []) == []
  {
  }

  lemma FlushedIsWritten(calls: seq<Call>, db: Db, n: nat)
    requires Reaches(Events(calls), db) && Stands(db, n)
    ensures n <= |Ops(calls)|
  {
    hide Reaches, Ops, Stands;
    OpsCounted(calls, db);
    StandsMemory(db, n);
  }

  /** Open on a store whose current log was cut to its first `size` bytes, `n` operations being flushed: replays the log,
      and flushes the last memtable too.  It succeeds exactly if the cut is clean.  Then the tables written are those of
      the engine's reopening step, whose last sequence it sets; what survives are the operations of whole calls, up to
      the last whose log lies within `size` bytes; and the reopened store reads as these left it, or, if more was
      flushed, as the flushed operations did, but for versions that surface.  Memtables are cut off where they are full. */
  method OpenTorn(stamp: Bytes -> nat, file: Bytes, recorded: nat, full: seq<Entry> -> bool, ghost sizeOf: seq<Entry> -> nat,
                  ghost calls: seq<Call>, ghost db: Db, ghost n: nat, ghost size: nat, ghost seen: nat)
    returns (tables: seq<seq<Entry>>, last: nat, ok: bool, ghost c: nat)
    requires Proper(calls) && Reaches(Events(calls), db) && Stands(db, n)
    requires recorded == Recovered(db.vs).core.lastSequence && forall i :: 0 <= i < |db.logs| ==> db.logs[i].number < seen
    requires size <= |LogBytes(stamp, calls)| && file == LogBytes(stamp, calls)[..size]
    ensures ok <==> LogRecovery.CleanCut(stamp, Records(LogBatches(calls)), size)
    ensures ok ==>
              var segments := AllCut(StretchesOf(full, LogBatches(calls)[..BatchesLeft(stamp, calls, size)], []));
              Opened(stamp, calls, db, n, size, tables, last, segments, SizesOf(tables, sizeOf), seen, c)
  {
    hide LogRecovery.CleanCut, LogFormat.WriteAll, LogRecovery.Survivors, LogBatches, Reaches, Stands, Proper, Opened, Memtables, StretchesOf, InsertAll,
      BatchVersions, LastSequence, Recovered, TablesOf, LogIs, LastWithin;
    ghost var batches := LogBatches(calls);
    LogHolds(calls, db);
    LogIsStorable(db, batches);
    InsertedIsEmpty([]);
    var m;
    CutLogReplays(stamp, batches, size);
    tables, m, last, ok := RecoverLogFile(stamp, file, [], recorded, full, []);
    c := 0;
    if !ok {
      return;
    }
    ghost var j, replayed := BatchesLeft(stamp, calls, size), tables;
    if m != [] {
      tables := tables + [m];
    }
    LastTable(full, batches[..j], replayed, m);
    ghost var segments := AllCut(StretchesOf(full, batches[..j], []));
    c := WholeBatches(stamp, calls, db, size);
    OpenedAs(stamp, calls, db, n, size, tables, last, segments, SizesOf(tables, sizeOf), seen, c);
  }

  lemma LogIsStorable(db: Db, batches: seq<Batch>)
    requires LogIs(db, batches)
    ensures AllStorable(batches)
  {
  }

  function SizesOf(tables: seq<seq<Entry>>, sizeOf: seq<Entry> -> nat): (r: seq<nat>)
    ensures |r| == |tables|
  {
    seq(|tables|, i requires 0 <= i < |tables| => sizeOf(tables[i]))
  }

  /** What opening has led to. */
  ghost predicate Opened(stamp: Bytes -> nat, calls: seq<Call>, db: Db, n: nat, size: nat, tables: seq<seq<Entry>>, last: nat,
                         segments: seq<seq<Entry>>, sizes: seq<nat>, seen: nat, c: nat) {
    var k := VersionsLeft(stamp, calls, size);
    && TablesOf(tables, segments) && |sizes| == |segments| && n <= |Ops(calls)|
    && c <= |calls| && LastWithin(stamp, calls, size, c) && Ops(calls[..c]) <= Ops(calls)
    && CutReopen(db, k, segments, sizes, seen) && CutLog(db, k).logs != []
    && var r := ReopenStep(CutLog(db, k), segments, sizes, seen);
       last == r.last && forall u :: ReadsAfterCut(r, db, n, k, Ops(calls), Ops(calls[..c]), u)
  }

  lemma OpenedAs(stamp: Bytes -> nat, calls: seq<Call>, db: Db, n: nat, size: nat, tables: seq<seq<Entry>>, last: nat,
                 segments: seq<seq<Entry>>, sizes: seq<nat>, seen: nat, c: nat)
    requires Proper(calls) && Reaches(Events(calls), db) && Stands(db, n) && LogIs(db, LogBatches(calls))
    requires forall i :: 0 <= i < |db.logs| ==> db.logs[i].number < seen
    requires TablesOf(tables, segments) && |sizes| == |segments|
    requires var j := BatchesLeft(stamp, calls, size);
             && Flatten(segments) == BatchVersions(LogBatches(calls)[..j])
             && last == LastSequence(LogBatches(calls)[..j], Recovered(db.vs).core.lastSequence)
             && c <= |calls| && LastWithin(stamp, calls, size, c) && Ops(calls[..c]) <= Ops(calls)
             && Survived(db, VersionsLeft(stamp, calls, size)) == |Ops(calls[..c])|
    ensures Opened(stamp, calls, db, n, size, tables, last, segments, sizes, seen, c)
  {
    hide LogIs, LogBatches, Reaches, Stands, Proper, BatchVersions, LastSequence, Recovered, Ops, Survived, CutReopen, ReopenStep, Flatten,
      BatchesLeft, InsertAll, Inv, ReadsAfterCut, CutLog, CurrentLog, HistoryInOrder, LogsCover, TablesInOrder,
      LastWithin;
    var j, k := BatchesLeft(stamp, calls, size), VersionsLeft(stamp, calls, size);
    ReachableInv(Events(calls), db);
    InvLogs(db);
    LeftOfLog(db, LogBatches(calls), j);
    CanReopen(db, k, segments, sizes, seen);
    LastIsReopened(db, LogBatches(calls), j, k, segments, sizes, seen);
    FlushedIsWritten(calls, db, n);
    forall u
      ensures ReadsAfterCut(ReopenStep(CutLog(db, k), segments, sizes, seen), db, n, k, Ops(calls), Ops(calls[..c]), u)
    {
      ReadsLeft(calls, db, n, k, c, segments, sizes, seen, u);
    }
  }
}

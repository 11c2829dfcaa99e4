/** DBImpl (db/db_impl.cc): the store's operations, each one a step of the engine. */
module DbImpl {
  import opened Keys
  import opened Files
  import opened Runs
  import opened Versions
  import opened CompactionWork
  import opened InputSelection
  import opened Engine
  import opened Invariants
  import opened Safety
  import opened SafetyMemory
  import opened SafetyCompaction
  import opened SafetyFlush
  import opened SafetyRewrite
  import opened IteratorStack
  import opened PointLookup
  import opened ReadPaths
  import opened Undivided
  import opened VersionSets
  import opened Merger

  /** The versions after a flush: one more table on level 0, logged with the current log and the last sequence. */
  ghost predicate FlushedTo(before: VersionState, after: VersionState, entries: seq<Entry>, size: nat, logs: seq<LogFile>, last: nat) {
    && entries != [] && logs != []
    && Flushed(before, after, TableOf(before.core.nextFile, size, entries), logs[|logs| - 1].number, last)
  }

  /** What a write that needs room makes a table of: the frozen memtable, or else the memtable if it is full. */
  function Frozen(db: Db, full: bool): seq<Entry> {
    if db.imm != [] then db.imm else if full then db.mem else []
  }

  /** The memtable that goes on. */
  function Staying(db: Db, full: bool): seq<Entry> {
    if db.imm == [] && full then [] else db.mem
  }

  ghost predicate RoomMade(before: Db, after: Db, full: bool, size: nat) {
    && after.imm == []
    && if Frozen(before, full) == [] then after.vs == before.vs
       else FlushedTo(before.vs, after.vs, Frozen(before, full), size, before.logs, before.last)
  }

  /** Room was made, and the versions of the batch are in the log and, in order, in the memtable. */
  ghost predicate BatchWritten(before: Db, after: Db, es: seq<Entry>, full: bool, size: nat) {
    && RoomMade(before, after, full, size)
    && before.logs != [] && after.logs == AppendToLog(before.logs, es)
    && Sorted(after.mem) && forall e :: e in after.mem <==> e in Staying(before, full) || e in es
  }

  class DBImpl {
    const versions: VersionSet
    /** Contents of the memtables, in order. */
    var mem: seq<Entry>
    var imm: seq<Entry>
    var logs: seq<LogFile>
    var lastSequence: nat
    var snapshots: multiset<nat>
    var pending: Option<Pending>
    var grandparents: seq<File>
    ghost var reopenedAt: nat
    ghost var history: seq<Entry>
    /** The run so far. */
    ghost var events: seq<Event>

    /** Opening an empty directory. */
    constructor ()
      ensures Ok() && AllQuiet() && events == [] && fresh(versions)
    {
      versions := new VersionSet();
      mem, imm, logs, lastSequence := [], [], [LogFile(1, [])], 0;
      snapshots, pending, grandparents := multiset{}, None, [];
      reopenedAt, history, events := 0, [], [];
    }

    ghost function State(): Db
      reads this, versions
    {
      Db(mem, imm, versions.Value(), logs, lastSequence, snapshots, pending, reopenedAt, history)
    }

    /** The state is the one the run reaches. */
    ghost predicate Ok()
      reads this, versions
    {
      versions.Ok() && Reaches(events, State())
    }

    /** Every compaction so far was picked while no snapshot older than the last sequence was live. */
    ghost predicate AllQuiet()
      reads this, versions
    {
      ReachesQuietly(events, State())
    }

    /** The operations written so far, oldest first. */
    ghost function Operations(): seq<Op>
      reads this
    {
      Written(events)
    }

    ghost method Took(ev: Event, before: Db)
      requires Reaches(events, before) && Enabled(before, ev) && versions.Ok()
      requires State() == After(before, ev)
      modifies this`events
      ensures Ok() && events == old(events) + [ev]
      ensures Written(events) == Written(old(events)) + match ev case Write(ops) => ops case _ => []
      ensures ReachesQuietly(old(events), before) && Quiet(before, ev) ==> AllQuiet()
    {
      hide Reaches, ReachesQuietly, Enabled, Quiet, After, Written, VersionSet.Ok;
      RunGrows(events, before, ev);
      if ReachesQuietly(events, before) && Quiet(before, ev) {
        QuietGrows(events, before, ev);
      }
      events := events + [ev];
    }

    /** One batch: room is made first, then log and memtable get the operations under the next sequence
        numbers.  `full` tells whether the memtable is over its size. */
    method WriteBatch(ops: seq<Op>, full: bool, size: nat)
      requires Ok() && lastSequence + |ops| <= MAX_SEQUENCE
      modifies this, versions
      ensures Ok() && Operations() == old(Operations()) + ops && lastSequence == old(lastSequence) + |ops|
      ensures old(AllQuiet()) ==> AllQuiet()
      ensures snapshots == old(snapshots) && pending == old(pending) && grandparents == old(grandparents)
      ensures ops == [] ==> State() == old(State())
      ensures ops != [] ==> BatchWritten(old(State()), State(), Stamp(ops, old(lastSequence) + 1), full, size)
    {
      hide Reaches, ReachesQuietly, Enabled, Written, LogAndApply, InsertAll, Inv, LevelsInOrder, After, Stamp, FlushedTo, BatchWritten, RoomMade;
      if |ops| == 0 {
        assert Operations() + ops == Operations();
        return;
      }
      MakeRoomForWrite(full, size);
      ghost var before := State();
      Reachable(events, before);
      var es := Stamp(ops, lastSequence + 1);
      var n := |logs| - 1;
      logs := logs[..n] + [logs[n].(entries := logs[n].entries + es)];
      mem := InsertAll(mem, es);
      lastSequence := lastSequence + |ops|;
      history := history + es;
      WriteTaken(before, ops, State());
      Took(Write(ops), before);
      Reachable(events, State());
      BatchIsWritten(old(State()), before, State(), es, full, size);
    }

    method MakeRoomForWrite(full: bool, size: nat)
      requires Ok()
      modifies this, versions
      ensures Ok() && Operations() == old(Operations()) && lastSequence == old(lastSequence) && snapshots == old(snapshots)
      ensures old(AllQuiet()) ==> AllQuiet()
      ensures imm == [] && mem == Staying(old(State()), full) && logs == old(logs)
      ensures pending == old(pending) && grandparents == old(grandparents)
      ensures RoomMade(old(State()), State(), full, size)
    {
      hide FlushedTo;
      if imm != [] {
        FlushMemTable(size);
        return;
      }
      if !full {
        return;
      }
      SwitchMemTable();
      FlushMemTable(size);
    }

    /** The full memtable becomes the frozen one. */
    method SwitchMemTable()
      requires Ok() && imm == []
      modifies this
      ensures Ok() && Operations() == old(Operations()) && lastSequence == old(lastSequence) && snapshots == old(snapshots)
      ensures old(AllQuiet()) ==> AllQuiet()
      ensures imm == old(mem) && mem == [] && logs == old(logs) && pending == old(pending) && grandparents == old(grandparents)
    {
      hide Reaches, ReachesQuietly, Written, LogAndApply;
      ghost var before := State();
      Reachable(events, before);
      imm := mem;
      mem := [];
      Took(Freeze, before);
      assert Written(events) + [] == Written(events);
    }

    /** The frozen memtable becomes a level-0 table. */
    method FlushMemTable(size: nat)
      requires Ok()
      modifies this, versions
      ensures Ok() && Operations() == old(Operations()) && lastSequence == old(lastSequence) && snapshots == old(snapshots)
      ensures old(AllQuiet()) ==> AllQuiet()
      ensures imm == [] && mem == old(mem) && logs == old(logs) && pending == old(pending) && grandparents == old(grandparents)
      ensures if old(imm) == [] then versions.Value() == old(versions.Value())
              else FlushedTo(old(versions.Value()), versions.Value(), old(imm), size, logs, lastSequence)
    {
      hide Reaches, ReachesQuietly, Written, LogAndApply, Inv, LevelsInOrder, After, Flushed;
      if imm == [] {
        return;
      }
      ghost var before := State();
      Reachable(events, before);
      var number := versions.NewFileNumber();
      var edit := Edit(Some(logs[|logs| - 1].number), None, Some(lastSequence), {}, [NewFile(0, TableOf(number, size, imm))], map[]);
      versions.LogAndApplyEdit(edit);
      imm := [];
      FlushTaken(before, size, State());
      FlushIsFlushed(before, size);
      Took(Flush(size), before);
    }

    method GetSnapshot() returns (s: nat)
      requires Ok()
      modifies this
      ensures Ok() && s == lastSequence && State() == old(State()).(snapshots := old(snapshots) + multiset{s})
      ensures old(AllQuiet()) ==> AllQuiet()
      ensures Operations() == old(Operations())
    {
      hide Reaches, ReachesQuietly, Written;
      ghost var before := State();
      Reachable(events, before);
      s := lastSequence;
      snapshots := snapshots + multiset{s};
      Took(TakeSnapshot, before);
    }

    method DropSnapshot(s: nat)
      requires Ok()
      modifies this
      ensures Ok() && Operations() == old(Operations()) && State() == old(State()).(snapshots := old(snapshots) - multiset{s})
      ensures old(AllQuiet()) ==> AllQuiet()
    {
      hide Reaches, ReachesQuietly, Written;
      ghost var before := State();
      Reachable(events, before);
      snapshots := snapshots - multiset{s};
      Took(ReleaseSnapshot(s), before);
    }

    /** The oldest live snapshot, or the last sequence. */
    method SmallestSnapshot() returns (s: nat)
      ensures IsSmallestSnapshot(State(), s)
    {
      if snapshots == multiset{} {
        return lastSequence;
      }
      s :| s in snapshots;
      var rest := snapshots - multiset{s};
      while rest != multiset{}
        invariant s in snapshots && rest <= snapshots
        invariant forall t :: t in snapshots && t !in rest ==> s <= t
        decreases |rest|
      {
        var t: nat :| t in rest;
        rest := rest - multiset{t};
        if t < s {
          s := t;
        }
      }
    }

    /** Sets a compaction up from the files a picker chose: a lone file moves down at once, anything else
        becomes the compaction in flight. */
    method StartCompaction(level: nat, inputs0: seq<File>, expandedLimit: nat, maxGrandparentOverlap: nat)
      returns (ghost a: seq<File>, ghost b: seq<File>, ghost grand: seq<File>, ghost unexpanded: seq<File>)
      requires Ok() && pending.None? && level + 1 < NUM_LEVELS
      requires LevelsInOrder(versions.levels) && Picked(versions.levels, level, inputs0)
      requires lastSequence < MAX_SEQUENCE
      modifies this, versions
      ensures Ok() && Operations() == old(Operations()) && lastSequence == old(lastSequence) && snapshots == old(snapshots)
      ensures old(AllQuiet()) && (forall t :: t in snapshots ==> lastSequence <= t) ==> AllQuiet()
      ensures ClosedSelection(old(versions.levels), level, a, b) && forall f :: f in inputs0 ==> f in a
      ensures ClearBelow(old(versions.levels[level + 1]), a, b) && NeedsBelow(old(versions.levels[level + 1]), a, b)
      ensures WithBoundary(old(versions.levels[level]), inputs0, unexpanded)
      ensures Widened(old(versions.levels), level, unexpanded, b, expandedLimit, a)
      ensures if level + 2 < NUM_LEVELS then OverlapOfAll(old(versions.levels[level + 2]), a + b, grand) else grand == []
      ensures mem == old(mem) && imm == old(imm) && logs == old(logs)
      ensures level in versions.compactPointers && IsLargest(a, versions.compactPointers[level])
              && versions.compactPointers - {level} == old(versions.compactPointers) - {level}
      ensures if |a| == 1 && b == [] && TotalFileSize(grand) <= maxGrandparentOverlap
              then pending == None && LevelsRewritten(old(versions.levels), versions.levels, level, a, [], a)
              else versions.levels == old(versions.levels) && grandparents == grand
                   && exists s, pointer :: IsSmallestSnapshot(State(), s) && IsLargest(a, pointer)
                        && pending == Some(Pending(level, a, b, s, versions.levels[level + 2..], pointer))
    {
      hide Reaches, ReachesQuietly, Written, LogAndApply, Inv, LevelsInOrder, After, ClosedSelection, Picked, PickedClosed, OverlapOfAll, Widened, NeedsBelow,
        ClearBelow, LevelsRewritten, WithBoundary, IsLargest;
      ghost var before := State();
      Reachable(events, before);
      var inputs, below, grand', pointer, chosen := SetupOtherInputs(versions.levels, level, inputs0, expandedLimit);
      a, b, grand, unexpanded := inputs, below, grand', chosen;
      InputsChosen(versions.levels[level], inputs0, unexpanded);
      SelectionIsClear(versions.levels, level, inputs, below);
      var overlap := TotalSize(grand');
      if |inputs| == 1 && |below| == 0 && overlap <= maxGrandparentOverlap {
        assert inputs == [inputs[0]] && below == [];
        MoveFile(level, inputs[0], pointer);
      } else {
        PickFor(level, inputs, below, grand', pointer);
      }
    }

    /** A trivial move. */
    method MoveFile(level: nat, file: File, pointer: InternalKey)
      requires Ok() && pending.None? && level + 1 < NUM_LEVELS && ClosedSelection(versions.levels, level, [file], [])
      modifies this, versions
      ensures Ok() && Operations() == old(Operations()) && lastSequence == old(lastSequence) && snapshots == old(snapshots)
      ensures old(AllQuiet()) && ClearBelow(old(versions.levels[level + 1]), [file], []) ==> AllQuiet()
      ensures pending == None && mem == old(mem) && imm == old(imm) && logs == old(logs)
      ensures LevelsRewritten(old(versions.levels), versions.levels, level, [file], [], [file])
      ensures versions.compactPointers == old(versions.compactPointers)[level := pointer]
    {
      hide Reaches, ReachesQuietly, Written, LogAndApply, Inv, LevelsInOrder, After, ClosedSelection, LevelsRewritten;
      ghost var before := State();
      Reachable(events, before);
      versions.compactPointers := versions.compactPointers[level := pointer];
      versions.LogAndApplyEdit(MoveEdit(level, file, pointer));
      MovedPointer(before.vs, level, file, pointer);
      MoveTaken(before, level, file, pointer, State());
      MovedDown(before, level, file, pointer);
      Took(Move(level, file, pointer), before);
    }

    /** The selection becomes the compaction in flight, with the smallest snapshot of the moment. */
    method PickFor(level: nat, a: seq<File>, b: seq<File>, grand: seq<File>, pointer: InternalKey)
      requires Ok() && pending.None? && level + 1 < NUM_LEVELS && ClosedSelection(versions.levels, level, a, b)
      requires lastSequence < MAX_SEQUENCE
      modifies this, versions
      ensures Ok() && Operations() == old(Operations()) && lastSequence == old(lastSequence) && snapshots == old(snapshots)
      ensures old(AllQuiet()) && ClearBelow(old(versions.levels[level + 1]), a, b) && (forall t :: t in snapshots ==> lastSequence <= t)
              ==> AllQuiet()
      ensures grandparents == grand && mem == old(mem) && imm == old(imm) && logs == old(logs)
      ensures versions.Value() == PointAt(old(versions.Value()), level, pointer)
      ensures exists s :: IsSmallestSnapshot(State(), s) && pending == Some(Pending(level, a, b, s, versions.levels[level + 2..], pointer))
    {
      hide Reaches, ReachesQuietly, Written, LogAndApply, Inv, LevelsInOrder, After, ClosedSelection;
      ghost var before := State();
      Reachable(events, before);
      var s := SmallestSnapshot();
      SmallestIsSmall(events, before, s);
      versions.compactPointers := versions.compactPointers[level := pointer];
      pending := Some(Pending(level, a, b, s, versions.levels[level + 2..], pointer));
      grandparents := grand;
      PickTaken(before, level, a, b, s, pointer, State());
      Took(Pick(level, a, b, s, pointer), before);
      assert IsSmallestSnapshot(State(), s);
    }

    /** Does the work of the compaction in flight and installs its outputs, on whatever version is current
        by then.  `sizeOf` stands for the builder's file size. */
    method FinishCompaction(maxGrandparentOverlap: nat, maxOutputFileSize: nat, sizeOf: seq<Entry> -> nat)
      requires Ok() && pending.Some?
      modifies this, versions
      ensures Ok() && Operations() == old(Operations()) && lastSequence == old(lastSequence) && snapshots == old(snapshots)
      ensures old(AllQuiet()) ==> AllQuiet()
      ensures pending == None && mem == old(mem) && imm == old(imm) && logs == old(logs)
      ensures var p := old(pending).value;
              var limits := Limits(old(grandparents), maxGrandparentOverlap, maxOutputFileSize, sizeOf);
              exists files :: LevelsRewritten(old(versions.levels), versions.levels, p.level, p.a, p.b, files)
                              && MergedInto(files, MergeRuns(p.a + p.b), p.smallestSnapshot, p.deeper, limits)
    {
      hide MergedInto, LevelsRewritten, OutputFiles;
      hide Reaches, ReachesQuietly, Written, LogAndApply, Inv, LevelsInOrder, Kept, MergeRuns, ValidFiles, KeysAgree, WeaklySorted, PiecesAfter, EntriesOfEach;
      ghost var before := State();
      Reachable(events, before);
      var p := pending.value;
      PendingReady(before);
      var compaction := new CompactionWork.Compaction(p.deeper, grandparents, maxGrandparentOverlap, maxOutputFileSize);
      var input := ReadInput(p.a + p.b);
      var outputs := DoCompactionWork(compaction, input, p.smallestSnapshot, sizeOf);
      ghost var number := versions.nextFile;
      var sizes := SizesOf(outputs, sizeOf);
      InstallCompactionResults(outputs, sizes);
      OutputsAreMerged(outputs, sizes, number, input, p.smallestSnapshot, p.deeper,
                       Limits(old(grandparents), maxGrandparentOverlap, maxOutputFileSize, sizeOf));
    }

    /** One edit takes the inputs out and the outputs, under new numbers, in. */
    method InstallCompactionResults(outputs: seq<Output>, sizes: seq<nat>)
      requires Ok() && pending.Some? && |sizes| == |outputs| && forall i :: 0 <= i < |outputs| ==> ValidOutput(outputs[i])
      requires var p := pending.value; Concat(outputs) == Kept(MergeRuns(p.a + p.b), |MergeRuns(p.a + p.b)|, p.smallestSnapshot, p.deeper)
      modifies this, versions
      ensures Ok() && Operations() == old(Operations()) && lastSequence == old(lastSequence) && snapshots == old(snapshots)
      ensures old(AllQuiet()) ==> AllQuiet()
      ensures pending == None && mem == old(mem) && imm == old(imm) && logs == old(logs)
      ensures var p := old(pending).value;
              && p.level + 1 < NUM_LEVELS
              && LevelsRewritten(old(versions.levels), versions.levels, p.level, p.a, p.b, OutputFiles(outputs, sizes, old(versions.nextFile)))
    {
      hide Reaches, ReachesQuietly, Written, LogAndApply, Inv, LevelsInOrder, After, Enabled, Kept, OutputFiles, InputDeletions, Tagged, MergeRuns, LevelsRewritten;
      ghost var before := State();
      Reachable(events, before);
      var p := pending.value;
      PendingReady(before);
      var number := versions.nextFile;
      for i := 0 to |outputs|
        invariant versions.nextFile == number + i && unchanged(this)
        invariant State() == before.(vs := before.vs.(core := before.vs.core.(nextFile := number + i)))
        invariant versions.Ok()
      {
        var taken := versions.NewFileNumber();
      }
      var edit := InstallEdit(p, OutputFiles(outputs, sizes, number));
      InstallEditKnown(p, OutputFiles(outputs, sizes, number));
      versions.LogAndApplyEdit(edit);
      pending := None;
      InstallTaken(before, outputs, sizes, State());
      Installed(before, outputs, sizes);
      Took(Install(outputs, sizes), before);
    }

    /** Closing and opening again: the MANIFEST is replayed, then the live logs, whose versions go to
        level-0 tables as the memtable fills up (`segments`); `seen` is above all numbers in the directory.
        Nothing written is lost. */
    method Reopen(segments: seq<seq<Entry>>, sizes: seq<nat>, seen: nat)
      requires Ok() && Enabled(State(), Event.Reopen(segments, sizes, seen))
      modifies this, versions
      ensures Ok() && Operations() == old(Operations()) && lastSequence == old(lastSequence)
      ensures old(AllQuiet()) ==> AllQuiet()
      ensures snapshots == multiset{} && pending == None && mem == [] && imm == []
      ensures State() == After(old(State()), Event.Reopen(segments, sizes, seen))
    {
      hide Reaches, ReachesQuietly, Written, After, Enabled, ReopenStep;
      ghost var before := State();
      ReopenParts(before, segments, sizes, seen);
      var logNumber, last := RecoverVersions(segments, sizes, seen);
      mem, imm := [], [];
      logs := logs + [LogFile(logNumber, [])];
      lastSequence := last;
      snapshots, pending := multiset{}, None;
      reopenedAt := last;
      ReopenTaken(before, segments, sizes, seen, State());
      Took(Event.Reopen(segments, sizes, seen), before);
      ReopenLosesNothing(before, State(), old(events), events);
    }

    /** What a reopen does to the versions: recover, replay the live logs, log the new log's number. */
    method RecoverVersions(segments: seq<seq<Entry>>, sizes: seq<nat>, seen: nat) returns (logNumber: nat, last: nat)
      requires versions.Ok() && logs != [] && |sizes| == |segments| && forall i :: 0 <= i < |segments| ==> segments[i] != []
      modifies versions
      ensures versions.Ok()
      ensures var r := ReopenStep(old(State()), segments, sizes, seen);
              versions.Value() == r.vs && last == r.last && logs + [LogFile(logNumber, [])] == r.logs
    {
      hide LogAndApply, Replay, ReplayTables, LiveLogs, LogEntries;
      versions.Recover();
      var live := LiveEntries();
      last := if live == [] then versions.lastSequence else Max(versions.lastSequence, live[|live| - 1].k.seqno);
      if seen > 0 {
        versions.MarkFileNumberUsed(seen - 1);
      }
      FlushReplayed(segments, sizes, logs[|logs| - 1].number);
      logNumber := versions.NewFileNumber();
      versions.LogAndApplyEdit(Edit(Some(logNumber), None, Some(last), {}, [], map[]));
    }

    /** The versions in the logs that are not older than the recorded log number; in all logs if there is
        no MANIFEST. */
    method LiveEntries() returns (live: seq<Entry>)
      requires versions.Ok()
      ensures live == LogEntries(LiveLogs(logs, versions.Value()))
    {
      live := [];
      NoLogs(versions.Value());
      for i := 0 to |logs|
        invariant live == LogEntries(LiveLogs(logs[..i], versions.Value()))
      {
        OneMoreLog(logs, versions.Value(), i);
        if versions.manifest == [] || logs[i].number >= versions.logNumber {
          live := live + logs[i].entries;
        }
      }
      assert logs[..|logs|] == logs;
    }

    method FlushReplayed(segments: seq<seq<Entry>>, sizes: seq<nat>, logNumber: nat)
      requires versions.Ok() && |sizes| == |segments| && forall i :: 0 <= i < |segments| ==> segments[i] != []
      modifies versions
      ensures versions.Ok() && versions.Value() == ReplayTables(old(versions.Value()), segments, sizes, logNumber)
    {
      hide LogAndApply, InsertAll;
      NoSegments(versions.Value(), logNumber);
      for i := 0 to |segments|
        invariant versions.Ok() && versions.Value() == ReplayTables(old(versions.Value()), segments[..i], sizes[..i], logNumber)
      {
        OneMoreSegment(old(versions.Value()), segments, sizes, logNumber, i);
        var segment := segments[i];
        var number := versions.NewFileNumber();
        var file := TableOf(number, sizes[i], InsertAll([], segment));
        versions.LogAndApplyEdit(Edit(Some(logNumber), None, Some(segment[|segment| - 1].k.seqno), {}, [NewFile(0, file)], map[]));
      }
      assert segments[..|segments|] == segments && sizes[..|sizes|] == sizes;
    }

    /** At the last sequence Get returns what the map of all operations holds; at a live snapshot what the map held
        then, unless it loses the version it is after at a file boundary, and exactly then it finds another; exactly if
        the value is lost so, it returns something else than the map held. */
    method Get(u: UserKey, s: nat) returns (r: Option<Bytes>)
      requires Ok() && (s in snapshots || s == lastSequence)
      ensures r == ValueOf(StoreGet(State(), u, s))
      ensures s == lastSequence ==> r == Lookup(MapAfter(Operations()), u)
      ensures !Loses(State(), u, s) ==> s <= |Operations()| && r == Lookup(MapAfter(Operations()[..s]), u)
      ensures FindsNewest(All(State()), u, s, StoreGet(State(), u, s)) <==> !Loses(State(), u, s)
      ensures s <= |Operations()| && (r == Lookup(MapAfter(Operations()[..s]), u) <==> !LosesValue(State(), u, s))
      ensures AllQuiet() ==> s <= |Operations()| && r == Lookup(MapAfter(Operations()[..s]), u)
    {
      hide Reaches, ReachesQuietly, Written, MapAfter, StoreGet, LevelsInOrder, Loses, LosesValue, ValueOf, Inv, Readable, FindsNewest;
      Reachable(events, State());
      GetAtLastIsTheMap(events, State(), u);
      if !Loses(State(), u, s) {
        GetIsTheMap(events, State(), u, s);
      }
      LiveIsReadable(State(), s);
      GetCorrectIff(State(), u, s);
      GetIsTheMapIff(events, State(), u, s);
      if AllQuiet() {
        QuietGetIsTheMap(events, State(), u, s);
      }
      r := Search(u, s);
    }

    /** Memtable, frozen memtable, then the current version. */
    method Search(u: UserKey, s: nat) returns (r: Option<Bytes>)
      requires versions.Ok() && LevelsInOrder(versions.levels)
      ensures r == ValueOf(StoreGet(State(), u, s))
    {
      var found := RunGet(mem, u, s);
      if found.None? {
        found := RunGet(imm, u, s);
      }
      if found.None? {
        found := LookUpVersion(versions.levels, u, s);
      }
      r := ValueOf(found);
    }
  }

  // ------------------------------------------------------------------ runs

  /** What the operations need of a reachable state. */
  lemma Reachable(events: seq<Event>, db: Db)
    requires Reaches(events, db)
    ensures Inv(db) && db.logs != [] && LevelsInOrder(db.Levels()) && |db.Levels()| == NUM_LEVELS
  {
    ReachableInv(events, db);
    hide NewerAbove, SharedOld, ReadsHistory, PendingClosed, MemoryFresh, OnlyHistory, Reaches;
  }

  lemma FlushTaken(db: Db, size: nat, db': Db)
    requires db.imm != [] && db.logs != [] && |db.Levels()| == NUM_LEVELS
    requires db' == FlushStep(db, size)
    ensures Enabled(db, Flush(size)) && db' == After(db, Flush(size))
  {
  }

  lemma MovedPointer(vs: VersionState, level: nat, file: File, pointer: InternalKey)
    requires |vs.core.levels| == NUM_LEVELS
    ensures LogAndApply(PointAt(vs, level, pointer), MoveEdit(level, file, pointer)).pointers == vs.pointers[level := pointer]
  {
    hide Apply, RecordsBefore;
  }

  lemma MoveTaken(db: Db, level: nat, file: File, pointer: InternalKey, db': Db)
    requires db.logs != [] && |db.Levels()| == NUM_LEVELS && level + 1 < NUM_LEVELS && db.pending.None?
    requires ClosedSelection(db.Levels(), level, [file], [])
    requires db' == MoveStep(db, level, file, pointer)
    ensures Enabled(db, Move(level, file, pointer)) && db' == After(db, Move(level, file, pointer))
  {
  }

  lemma PickTaken(db: Db, level: nat, a: seq<File>, b: seq<File>, s: nat, pointer: InternalKey, db': Db)
    requires db.logs != [] && |db.Levels()| == NUM_LEVELS && level + 1 < NUM_LEVELS && db.pending.None?
    requires ClosedSelection(db.Levels(), level, a, b) && IsSmallestSnapshot(db, s) && s < MAX_SEQUENCE
    requires db' == PickStep(db, level, a, b, s, pointer)
    ensures Enabled(db, Pick(level, a, b, s, pointer)) && db' == After(db, Pick(level, a, b, s, pointer))
  {
  }

  lemma InstallTaken(db: Db, outputs: seq<Output>, sizes: seq<nat>, db': Db)
    requires db.logs != [] && |db.Levels()| == NUM_LEVELS && db.pending.Some? && |sizes| == |outputs|
    requires forall i :: 0 <= i < |outputs| ==> ValidOutput(outputs[i])
    requires var p := db.pending.value; Concat(outputs) == Kept(MergeRuns(p.a + p.b), |MergeRuns(p.a + p.b)|, p.smallestSnapshot, p.deeper)
    requires db' == InstallStep(db, outputs, sizes)
    ensures Enabled(db, Install(outputs, sizes)) && db' == After(db, Install(outputs, sizes))
  {
  }

  /** Live snapshots are never beyond the last sequence. */
  lemma SmallestIsSmall(events: seq<Event>, db: Db, s: nat)
    requires Reaches(events, db) && IsSmallestSnapshot(db, s)
    ensures s <= db.last
  {
    ReachableInv(events, db);
    hide NewerAbove, SharedOld, ReadsHistory, PendingClosed, MemoryFresh, OnlyHistory, Reaches, TablesInOrder, LogsCover;
  }

  lemma SelectionIsClear(levels: seq<seq<File>>, level: nat, a: seq<File>, b: seq<File>)
    requires LevelsInOrder(levels) && level + 1 < NUM_LEVELS && PickedClosed(levels, level, a) && NeedsBelow(levels[level + 1], a, b)
    ensures ClearBelow(levels[level + 1], a, b)
  {
    hide NeedsBelow, ClearBelow;
    PickedValid(levels, level, a);
    NeededIsClear(levels[level + 1], a, b);
  }

  /** The compaction in flight can be run: its deeper levels are in order, its merged input is sorted. */
  lemma PendingReady(db: Db)
    requires Inv(db) && db.pending.Some?
    ensures var p := db.pending.value;
            && p.level + 1 < NUM_LEVELS
            && (forall l :: 0 <= l < |p.deeper| ==> ValidFiles(p.deeper[l]) && Disjoint(p.deeper[l]))
            && ValidFiles(p.a + p.b) && WeaklySorted(MergeRuns(p.a + p.b)) && KeysAgree(MergeRuns(p.a + p.b))
  {
    hide NewerAbove, LogsCover, ReadsHistory, MemoryFresh, Sound, NumbersUnique, ClosedSelection, Disjoint, ValidFiles, WeaklySorted, RepeatsUpTo,
      OnlyHistory, HistoryInOrder, SharedOld;
    InputSorted(db, db.pending.value);
    InputsValid(db.Levels(), db.pending.value);
    InputAgrees(db, db.pending.value);
  }

  lemma InputAgrees(db: Db, p: Pending)
    requires HistoryInOrder(db) && OnlyHistory(db)
    requires p.level + 1 < |db.Levels()| && ClosedSelection(db.Levels(), p.level, p.a, p.b)
    ensures KeysAgree(MergeRuns(p.a + p.b))
  {
    hide MergeRuns, ClosedSelection;
    InputIsHistory(db, p);
    HistoryConsistent(db);
    var input := MergeRuns(p.a + p.b);
    forall m, n | 0 <= m < n < |input| && input[m].k == input[n].k
      ensures input[m] == input[n]
    {
      assert input[m] in SetOf(input) && input[n] in SetOf(input);
    }
  }

  lemma Installed(db: Db, outputs: seq<Output>, sizes: seq<nat>)
    requires Inv(db) && db.pending.Some? && |db.Levels()| == NUM_LEVELS && |sizes| == |outputs|
    ensures var p := db.pending.value;
            LevelsRewritten(db.Levels(), InstallStep(db, outputs, sizes).Levels(), p.level, p.a, p.b,
                            OutputFiles(outputs, sizes, db.vs.core.nextFile))
  {
    hide LevelsRewritten, Sound, HistoryInOrder, OnlyHistory, NewerAbove, SharedOld, MemoryFresh, LogsCover, SnapshotsInRange, ReadsHistory;
    PendingParts(db);
    OutputNumbers(outputs, sizes, db.vs.core.nextFile);
    InstallIsRewrite(db, db.pending.value, outputs, sizes);
  }

  lemma InputsChosen(files: seq<File>, inputs0: seq<File>, unexpanded: seq<File>)
    requires WithBoundary(files, inputs0, unexpanded)
    ensures forall f :: f in inputs0 ==> f in unexpanded
  {
  }

  lemma FlushIsFlushed(db: Db, size: nat)
    requires Inv(db) && db.imm != [] && db.logs != [] && |db.Levels()| == NUM_LEVELS
    ensures Flushed(db.vs, FlushStep(db, size).vs, TableOf(db.vs.core.nextFile, size, db.imm), CurrentLog(db).number, db.last)
  {
    hide Inv;
    FlushIsFlushedDb(db, size);
  }

  lemma MovedDown(db: Db, level: nat, file: File, pointer: InternalKey)
    requires Inv(db) && level + 1 < NUM_LEVELS && |db.Levels()| == NUM_LEVELS && ClosedSelection(db.Levels(), level, [file], [])
    ensures LevelsRewritten(db.Levels(), MoveStep(db, level, file, pointer).Levels(), level, [file], [], [file])
  {
    hide LevelsRewritten, Sound, HistoryInOrder, OnlyHistory, NewerAbove, SharedOld, MemoryFresh, LogsCover, SnapshotsInRange, ReadsHistory, PendingClosed;
    assert file in [file];
    PointersDoNotMatter(db.vs, PointAt(db.vs, level, pointer).pointers);
    MoveRewrites(PointAt(db.vs, level, pointer), level, file, pointer);
  }

  lemma InstallEditKnown(p: Pending, files: seq<File>)
    requires p.level + 1 < NUM_LEVELS
    ensures KnownLevels(InstallEdit(p, files))
  {
  }

  function SizesOf(outputs: seq<Output>, sizeOf: seq<Entry> -> nat): (r: seq<nat>)
    ensures |r| == |outputs| && forall i :: 0 <= i < |r| ==> r[i] == sizeOf(outputs[i].entries)
  {
    if outputs == [] then [] else SizesOf(outputs[..|outputs| - 1], sizeOf) + [sizeOf(outputs[|outputs| - 1].entries)]
  }

  /** The files installed are what the merge leaves at these limits. */
  lemma OutputsAreMerged(outputs: seq<Output>, sizes: seq<nat>, number: nat, input: seq<Entry>, p: nat, deeper: seq<seq<File>>, limits: Limits)
    requires |sizes| == |outputs| && forall i :: 0 <= i < |sizes| ==> sizes[i] == limits.sizeOf(outputs[i].entries)
    requires forall o :: o in outputs ==> ValidOutput(o)
    requires EntriesOfEach(outputs) == PiecesAfter(input, |input|, p, deeper, limits).entries
    ensures MergedInto(OutputFiles(outputs, sizes, number), input, p, deeper, limits)
  {
    hide EntriesOfEach, PiecesAfter, Small, Spread, CutAsDue, CompactionWork.Kept, KeptAt;
    PiecesCutAsDue(input, |input|, p, deeper, limits);
    PiecesAreSmall(input, |input|, p, deeper, limits);
    var files := OutputFiles(outputs, sizes, number);
    assert FileRuns(files) == EntriesOfEach(outputs);
    forall i | 0 <= i < |files|
      ensures MadeFrom(files[i], limits)
    {
      assert ValidOutput(outputs[i]) && Small(EntriesOfEach(outputs)[i], limits);
    }
  }

  lemma BatchIsWritten(db: Db, room: Db, after: Db, es: seq<Entry>, full: bool, size: nat)
    requires RoomMade(db, room, full, size) && room.mem == Staying(db, full) && room.logs == db.logs != [] && Inv(after)
    requires after.mem == InsertAll(room.mem, es) && after.imm == room.imm && after.vs == room.vs && after.logs == AppendToLog(room.logs, es)
    ensures BatchWritten(db, after, es, full, size)
  {
    hide Inv, FlushedTo, InsertAll;
    MemtableSorted(after);
    forall e
      ensures e in after.mem <==> e in room.mem || e in es
    {
      InsertAllMembers(room.mem, es, e);
    }
  }

  lemma MemtableSorted(db: Db)
    requires Inv(db)
    ensures Sorted(db.mem)
  {
    hide NewerAbove, SharedOld, ReadsHistory, PendingClosed, OnlyHistory, TablesInOrder, LogsCover;
  }

  lemma NoLogs(vs: VersionState)
    ensures LogEntries(LiveLogs([], vs)) == []
  {
  }

  lemma OneMoreLog(logs: seq<LogFile>, vs: VersionState, i: nat)
    requires i < |logs|
    ensures LogEntries(LiveLogs(logs[..i + 1], vs)) ==
            LogEntries(LiveLogs(logs[..i], vs)) + if vs.manifest == [] || logs[i].number >= vs.core.logNumber then logs[i].entries else []
  {
    assert logs[..i + 1][..i] == logs[..i];
    var before := LiveLogs(logs[..i], vs);
    assert (before + [logs[i]])[..|before|] == before;
    assert before + [] == before;
  }

  lemma NoSegments(vs: VersionState, logNumber: nat)
    requires |vs.core.levels| == NUM_LEVELS
    ensures ReplayTables(vs, [], [], logNumber) == vs
  {
  }

  lemma OneMoreSegment(vs: VersionState, segments: seq<seq<Entry>>, sizes: seq<nat>, logNumber: nat, i: nat)
    requires |sizes| == |segments| && |vs.core.levels| == NUM_LEVELS && i < |segments|
    requires forall i :: 0 <= i < |segments| ==> segments[i] != []
    ensures InsertAll([], segments[i]) != []
    ensures ReplayTables(vs, segments[..i + 1], sizes[..i + 1], logNumber) ==
            FlushTable(ReplayTables(vs, segments[..i], sizes[..i], logNumber), InsertAll([], segments[i]), sizes[i], logNumber,
                       segments[i][|segments[i]| - 1].k.seqno)
  {
    hide FlushTable;
    assert segments[..i + 1][..i] == segments[..i] && sizes[..i + 1][..i] == sizes[..i];
    InsertAllMembers([], segments[i], segments[i][0]);
  }

  lemma ReopenParts(db: Db, segments: seq<seq<Entry>>, sizes: seq<nat>, seen: nat)
    requires Enabled(db, Event.Reopen(segments, sizes, seen))
    ensures db.logs != [] && |sizes| == |segments| && forall i :: 0 <= i < |segments| ==> segments[i] != []
  {
  }

  lemma ReopenTaken(db: Db, segments: seq<seq<Entry>>, sizes: seq<nat>, seen: nat, db': Db)
    requires Enabled(db, Event.Reopen(segments, sizes, seen)) && db.logs != [] && |sizes| == |segments|
    requires forall i :: 0 <= i < |segments| ==> segments[i] != []
    requires var r := ReopenStep(db, segments, sizes, seen);
             db' == Db([], [], r.vs, r.logs, r.last, multiset{}, None, r.last, db.history)
    ensures db' == After(db, Event.Reopen(segments, sizes, seen))
  {
  }

  /** A reopen keeps the history, and the last sequence is always its length. */
  lemma ReopenLosesNothing(db: Db, db': Db, events: seq<Event>, events': seq<Event>)
    requires Reaches(events, db) && Reaches(events', db') && db'.history == db.history
    ensures db'.last == db.last
  {
    ReachableInv(events, db);
    ReachableInv(events', db');
    hide Reaches;
    HistoryLength(db);
    HistoryLength(db');
  }

  lemma WriteTaken(db: Db, ops: seq<Op>, db': Db)
    requires db.logs != [] && |db.Levels()| == NUM_LEVELS && db.last + |ops| <= MAX_SEQUENCE
    requires db' == WriteStep(db, ops)
    ensures Enabled(db, Write(ops)) && db' == After(db, Write(ops))
  {
  }
}

/** Compact pointers (db/version_set.cc): where the next compaction of each level starts.  Setting a compaction
    up moves the pointer in memory; the MANIFEST learns of it when the compaction is installed. */
module CompactPointers {
  import opened Keys
  import opened Files
  import opened Versions
  import opened Engine
  import Runs

  /** The MANIFEST rebuilds the pointers in memory, but for that of a compaction in flight. */
  ghost predicate PointersKept(db: Db) {
    match db.pending
    case None => db.vs.pointers == PointersOf(db.vs.manifest)
    case Some(p) => db.vs.pointers == PointersOf(db.vs.manifest)[p.level := p.pointer]
  }

  /** What logging an edit adds to the pointers on either side. */
  lemma LogPointers(vs: VersionState, e: Edit)
    requires |vs.core.levels| == NUM_LEVELS
    ensures var r := LogAndApply(vs, e);
            && r.pointers == vs.pointers + e.pointers
            && PointersOf(r.manifest) == (if vs.open then PointersOf(vs.manifest) else vs.pointers) + e.pointers
  {
    var records, full := RecordsBefore(vs), Completed(Numbered(vs), e);
    assert (records + [full])[..|records|] == records;
    if !vs.open {
      assert records[..0] == [];
      assert PointersOf(records) == map[] + vs.pointers == vs.pointers;
    }
  }

  /** Edits without pointers keep memory and MANIFEST as far apart as they were. */
  lemma {:induction false} ReplayedPointers(vs: VersionState, segments: seq<seq<Entry>>, sizes: seq<nat>, logNumber: nat)
    requires |sizes| == |segments| && |vs.core.levels| == NUM_LEVELS && vs.pointers == PointersOf(vs.manifest)
    requires forall i :: 0 <= i < |segments| ==> segments[i] != []
    ensures var r := ReplayTables(vs, segments, sizes, logNumber); r.pointers == PointersOf(r.manifest)
  {
    hide LogAndApply, PointersOf;
    if segments != [] {
      var n := |segments| - 1;
      ReplayedPointers(vs, segments[..n], sizes[..n], logNumber);
      var before := ReplayTables(vs, segments[..n], sizes[..n], logNumber);
      FlushPointers(before, Runs.InsertAll([], segments[n]), sizes[n], logNumber, segments[n][|segments[n]| - 1].k.seqno);
    }
  }

  lemma FlushPointers(vs: VersionState, entries: seq<Entry>, size: nat, logNumber: nat, last: nat)
    requires entries != [] && |vs.core.levels| == NUM_LEVELS
    ensures var r := FlushTable(vs, entries, size, logNumber, last);
            && r.pointers == vs.pointers
            && PointersOf(r.manifest) == if vs.open then PointersOf(vs.manifest) else vs.pointers
  {
    hide LogAndApply, PointersOf;
    var number := vs.core.nextFile;
    LogPointers(vs.(core := vs.core.(nextFile := number + 1)),
                Edit(Some(logNumber), None, Some(last), {}, [NewFile(0, TableOf(number, size, entries))], map[]));
    assert vs.pointers + map[] == vs.pointers;
  }

  lemma ReopenPointers(db: Db, segments: seq<seq<Entry>>, sizes: seq<nat>, seen: nat)
    requires Enabled(db, Reopen(segments, sizes, seen))
    ensures PointersKept(ReopenStep(db, segments, sizes, seen))
  {
    hide LogAndApply, PointersOf, ReplayTables, Replay, LiveLogs, LogEntries;
    var recovered := Recovered(db.vs);
    var live := LogEntries(LiveLogs(db.logs, recovered));
    var last := if live == [] then recovered.core.lastSequence
                else Max(recovered.core.lastSequence, live[|live| - 1].k.seqno);
    var marked := recovered.(core := recovered.core.(nextFile := Max(recovered.core.nextFile, seen)));
    ReplayedPointers(marked, segments, sizes, CurrentLog(db).number);
    var flushed := ReplayTables(marked, segments, sizes, CurrentLog(db).number);
    var logNumber := flushed.core.nextFile;
    LogPointers(flushed.(core := flushed.core.(nextFile := logNumber + 1)), Edit(Some(logNumber), None, Some(last), {}, [], map[]));
    assert flushed.pointers + map[] == flushed.pointers;
  }

  lemma StepKeepsPointers(db: Db, ev: Event)
    requires PointersKept(db) && Enabled(db, ev)
    ensures PointersKept(After(db, ev))
  {
    hide LogAndApply, PointersOf, ReopenStep, FlushTable;
    match ev {
      case Flush(size) => FlushPointers(db.vs, db.imm, size, CurrentLog(db).number, db.last);
      case Move(level, file, pointer) => LogPointers(PointAt(db.vs, level, pointer), MoveEdit(level, file, pointer));
      case Install(outputs, sizes) =>
        var p := db.pending.value;
        LogPointers(Reserve(db.vs, |outputs|), InstallEdit(p, OutputFiles(outputs, sizes, db.vs.core.nextFile)));
      case Reopen(segments, sizes, seen) => ReopenPointers(db, segments, sizes, seen);
      case _ =>
    }
  }

  /** In every reachable state a replay of the MANIFEST gives back the compact pointers, but for that of a
      compaction in flight. */
  lemma {:induction false} PointersSurvive(events: seq<Event>, db: Db)
    requires Reaches(events, db)
    ensures PointersKept(db)
  {
    hide Enabled, After, PointersKept;
    if events == [] {
      EmptyPointers();
    } else {
      var n := |events| - 1;
      var before :| Reaches(events[..n], before) && Enabled(before, events[n]) && db == After(before, events[n]);
      PointersSurvive(events[..n], before);
      StepKeepsPointers(before, events[n]);
    }
  }

  lemma EmptyPointers()
    ensures PointersKept(EMPTY)
  {
  }
}

/** VersionSet (db/version_set.cc): versions built in place, logged, recovered, and compactions picked. */
module VersionSets {
  import opened Keys
  import opened Files
  import opened Versions
  import opened InputSelection

  /** The levels an edit names exist. */
  ghost predicate KnownLevels(e: Edit) {
    && (forall i :: 0 <= i < |e.added| ==> e.added[i].level < NUM_LEVELS)
    && forall d :: d in e.deleted ==> d.level < NUM_LEVELS
  }

  class VersionSet {
    var levels: seq<seq<File>>
    var nextFile: nat
    var logNumber: nat
    var lastSequence: nat
    /** The records of the MANIFEST named by CURRENT; none if there is no CURRENT. */
    var manifest: seq<Edit>
    var manifestNumber: nat
    var open: bool
    /** Where the next size compaction of each level starts. */
    var compactPointers: map<nat, InternalKey>

    constructor ()
      ensures Ok() && Value() == FRESH
    {
      levels, nextFile, logNumber, lastSequence := NO_FILES, 2, 0, 0;
      manifest, manifestNumber, open := [], 0, false;
      compactPointers := map[];
    }

    ghost predicate Ok()
      reads this
    {
      |levels| == NUM_LEVELS && forall i :: 0 <= i < |manifest| ==> KnownLevels(manifest[i])
    }

    function Metadata(): Core
      reads this
    {
      Core(levels, nextFile, logNumber, lastSequence)
    }

    function Value(): VersionState
      reads this
    {
      VersionState(Metadata(), manifest, manifestNumber, open, compactPointers)
    }

    method NewFileNumber() returns (number: nat)
      modifies this`nextFile
      ensures number == old(nextFile) && nextFile == number + 1
    {
      number := nextFile;
      nextFile := nextFile + 1;
    }

    method MarkFileNumberUsed(number: nat)
      modifies this`nextFile
      ensures nextFile == Max(old(nextFile), number + 1)
    {
      if nextFile <= number {
        nextFile := number + 1;
      }
    }

    /** Builds the next version level by level and takes over the edit's metadata. */
    method ApplyVersionEdit(e: Edit)
      requires Ok() && KnownLevels(e)
      modifies this`levels, this`nextFile, this`logNumber, this`lastSequence, this`compactPointers
      ensures Ok() && Metadata() == Apply(old(Metadata()), e) && compactPointers == old(compactPointers) + e.pointers
    {
      hide SaveLevel, SaveLevels, FilesAt, DeletedAt, MarkUsed;
      compactPointers := compactPointers + e.pointers;
      var deleted, added := SortEdit(e);
      ghost var before := Metadata();
      var next: seq<seq<File>> := [];
      for level := 0 to NUM_LEVELS
        invariant next == SaveLevels(before, e, level) && Metadata() == before && compactPointers == old(compactPointers) + e.pointers
      {
        var numbers := set d | d in deleted && d.level == level :: d.number;
        SaveOneMore(before, e, level);
        var files := SaveTo(levels[level], added[level], numbers);
        next := next + [files];
      }
      if e.logNumber.Some? {
        logNumber := e.logNumber.value;
      }
      if e.nextFile.Some? && nextFile < e.nextFile.value {
        nextFile := e.nextFile.value;
      }
      if e.lastSequence.Some? && lastSequence < e.lastSequence.value {
        lastSequence := e.lastSequence.value;
      }
      ghost var start := nextFile;
      ghost var kept := (logNumber, lastSequence, levels, compactPointers);
      NothingMarked(start, e.added);
      for i := 0 to |e.added|
        invariant nextFile == MarkUsed(start, e.added[..i])
        invariant (logNumber, lastSequence, levels, compactPointers) == kept
      {
        OneMoreMarked(start, e.added, i);
        MarkFileNumberUsed(e.added[i].file.number);
      }
      assert e.added[..|e.added|] == e.added;
      levels := next;
    }

    /** Builder::Apply: deletions first; a file added again is no longer deleted. */
    method SortEdit(e: Edit) returns (deleted: set<DeletedFile>, added: seq<seq<File>>)
      requires KnownLevels(e)
      ensures |added| == NUM_LEVELS
      ensures forall l :: 0 <= l < NUM_LEVELS ==> added[l] == FilesAt(e.added, l)
      ensures forall l :: 0 <= l < NUM_LEVELS ==> (set d | d in deleted && d.level == l :: d.number) == DeletedAt(e, l)
    {
      hide FilesAt, DeletedAt;
      deleted := e.deleted;
      added := [[], [], [], [], [], [], []];
      ghost var seen: seq<NewFile> := [];
      NoneAdded();
      for i := 0 to |e.added|
        invariant |added| == NUM_LEVELS && seen == e.added[..i]
        invariant forall l :: 0 <= l < NUM_LEVELS ==> added[l] == FilesAt(seen, l)
        invariant deleted == e.deleted - NumbersOf(seen)
      {
        var f := e.added[i];
        OneMoreAdded(seen, f);
        deleted := deleted - {DeletedFile(f.level, f.file.number)};
        added := added[f.level := added[f.level] + [f.file]];
        seen := seen + [f];
      }
      assert e.added[..|e.added|] == e.added;
      forall l: nat | l < NUM_LEVELS
        ensures (set d | d in deleted && d.level == l :: d.number) == DeletedAt(e, l)
      {
        DeletedNumbers(e, l);
      }
    }

    /** Writes the whole current version as one record. */
    method WriteSnapshot() returns (e: Edit)
      requires Ok()
      ensures e == SnapshotOf(Metadata(), compactPointers) && KnownLevels(e)
    {
      hide Tagged;
      var files: seq<NewFile> := [];
      for level := 0 to NUM_LEVELS
        invariant files == AllFiles(levels, level)
        invariant forall i :: 0 <= i < |files| ==> files[i].level < NUM_LEVELS
      {
        ghost var before := files;
        TagNone(level);
        for i := 0 to |levels[level]|
          invariant files == before + Tagged(levels[level][..i], level)
          invariant forall i :: 0 <= i < |files| ==> files[i].level < NUM_LEVELS
        {
          TagOneMore(levels[level], level, i);
          files := files + [NewFile(level, levels[level][i])];
        }
        assert levels[level][..|levels[level]|] == levels[level];
      }
      e := Edit(None, None, Some(lastSequence), {}, files, compactPointers);
    }

    /** Logs the edit, after a snapshot if the MANIFEST is not open yet, and applies it. */
    method LogAndApplyEdit(e: Edit)
      requires Ok() && KnownLevels(e)
      modifies this
      ensures Ok() && Value() == LogAndApply(old(Value()), e)
    {
      hide Apply, SnapshotOf;
      ghost var before := Value();
      if !open {
        if manifestNumber == 0 {
          manifestNumber := NewFileNumber();
        }
        var snapshot := WriteSnapshot();
        manifest := [snapshot];
        open := true;
      }
      assert Metadata() == Numbered(before);
      var full := e;
      if full.logNumber.None? {
        full := full.(logNumber := Some(logNumber));
      }
      if full.nextFile.None? {
        full := full.(nextFile := Some(nextFile));
      }
      if full.lastSequence.None? {
        full := full.(lastSequence := Some(lastSequence));
      }
      manifest := manifest + [full];
      ApplyVersionEdit(full);
    }

    /** Rebuilds everything from the MANIFEST that CURRENT names; the file is not open afterwards. */
    method Recover()
      requires Ok()
      modifies this
      ensures Ok() && Value() == Recovered(old(Value()))
    {
      hide Apply;
      levels, nextFile, logNumber, lastSequence := NO_FILES, 2, 0, 0;
      compactPointers := map[];
      open := false;
      ghost var kept := (manifest, manifestNumber);
      for i := 0 to |manifest|
        invariant Ok() && !open && (manifest, manifestNumber) == kept
        invariant Metadata() == Replay(manifest[..i]) && compactPointers == PointersOf(manifest[..i])
      {
        assert manifest[..i + 1][..i] == manifest[..i];
        ApplyVersionEdit(manifest[i]);
      }
      assert manifest[..|manifest|] == manifest;
    }

    /** A size compaction starts at the first file beyond the level's pointer, or at the first; a seek
        compaction at the file whose seeks are used up, here number `seek` of the level. */
    method PickFiles(level: nat, seek: Option<nat>) returns (inputs: seq<File>)
      requires Ok() && LevelsInOrder(levels) && level + 1 < NUM_LEVELS && levels[level] != []
      requires seek.Some? ==> seek.value < |levels[level]|
      ensures Picked(levels, level, inputs)
      ensures exists i: nat ::
                && i < |levels[level]| && PicksFile(levels[level], level, i, inputs)
                && if seek.Some? then i == seek.value else StartsAt(levels[level], level, compactPointers, i)
    {
      var pick := 0;
      if seek.Some? {
        pick := seek.value;
      } else {
        var index := 0;
        while index < |levels[level]|
          invariant index <= |levels[level]| && pick == 0
          invariant forall k :: 0 <= k < index ==> !BeyondPointer(levels[level][k], compactPointers, level)
        {
          if level !in compactPointers || Less(compactPointers[level], levels[level][index].largest) {
            pick := index;
            break;
          }
          index := index + 1;
        }
      }
      inputs := [levels[level][pick]];
      if level == 0 {
        var smallest, largest := GetRange(inputs);
        ghost var b, e;
        inputs, b, e := GetOverlappingInputs(levels[0], 0, Some(smallest), Some(largest));
        RangeOverlaps(levels[0], levels[0][pick], b, e, smallest, largest);
      } else {
        assert inputs == levels[level][pick..pick + 1];
      }
      assert PicksFile(levels[level], level, pick, inputs);
    }

    /** A manual compaction: the overlapping files, below level 0 cut off once they are large enough. */
    method FilesInRange(level: nat, begin: Option<InternalKey>, end: Option<InternalKey>, limit: nat) returns (inputs: seq<File>)
      requires Ok() && LevelsInOrder(levels) && level + 1 < NUM_LEVELS
      ensures inputs != [] ==> Picked(levels, level, inputs)
      ensures level == 0 ==> OverlapsRange(levels[0], 0, UserOf(begin), UserOf(end), inputs)
      ensures level > 0 ==> CutAtLimit(Overlapping(levels[level], UserOf(begin), UserOf(end)), limit, inputs)
    {
      hide LevelsInOrder, Overlapping, TotalFileSize, ClosedRange;
      ghost var b, e;
      inputs, b, e := GetOverlappingInputs(levels[level], level, begin, end);
      ghost var all := inputs;
      if level > 0 {
        inputs := CutOff(inputs, limit);
        if inputs != [] {
          LevelFacts(levels, level);
          ghost var lo, hi := OverlapIsInterval(levels[level], b, e);
          assert inputs == levels[level][lo..lo + |inputs|];
        }
      }
    }
  }

  lemma LevelFacts(levels: seq<seq<File>>, level: nat)
    requires LevelsInOrder(levels) && 1 <= level < NUM_LEVELS
    ensures ValidFiles(levels[level]) && Disjoint(levels[level])
  {
  }

  method CutOff(files: seq<File>, limit: nat) returns (inputs: seq<File>)
    ensures CutAtLimit(files, limit, inputs)
  {
    inputs := files;
    var total := 0;
    for index := 0 to |files|
      invariant inputs == files && total == TotalFileSize(files[..index])
      invariant forall k :: 0 < k <= index ==> TotalFileSize(files[..k]) < limit
    {
      assert files[..index + 1][..index] == files[..index];
      total := total + files[index].size;
      if total >= limit {
        inputs := files[..index + 1];
        assert forall k :: 0 < k < |inputs| ==> inputs[..k] == files[..k];
        return;
      }
    }
  }

  /** The file ends beyond the level's pointer; every file does if there is none. */
  predicate BeyondPointer(f: File, pointers: map<nat, InternalKey>, level: nat) {
    level !in pointers || Less(pointers[level], f.largest)
  }

  /** The first file beyond the pointer, or the level's first if none is. */
  ghost predicate StartsAt(files: seq<File>, level: nat, pointers: map<nat, InternalKey>, i: nat)
    requires i < |files|
  {
    if BeyondPointer(files[i], pointers, level) then forall k :: 0 <= k < i ==> !BeyondPointer(files[k], pointers, level)
    else i == 0 && forall k :: 0 <= k < |files| ==> !BeyondPointer(files[k], pointers, level)
  }

  /** Below level 0 the file itself; on level 0 all it overlaps, directly or through others. */
  ghost predicate PicksFile(files: seq<File>, level: nat, i: nat, inputs: seq<File>)
    requires i < |files|
  {
    if level > 0 then inputs == [files[i]]
    else OverlapsRange(files, 0, Some(files[i].smallest.user), Some(files[i].largest.user), inputs)
  }

  /** The first files, up to the one with which their total size reaches the limit. */
  ghost predicate CutAtLimit(all: seq<File>, limit: nat, inputs: seq<File>) {
    && inputs <= all && (all != [] ==> inputs != [])
    && (forall k :: 0 < k < |inputs| ==> TotalFileSize(inputs[..k]) < limit)
    && (inputs == all || TotalFileSize(inputs) >= limit)
  }

  // ------------------------------------------------------------------ loop steps

  lemma SaveOneMore(c: Core, e: Edit, level: nat)
    requires level < |c.levels|
    ensures SaveLevels(c, e, level + 1) == SaveLevels(c, e, level) + [SaveLevel(c.levels[level], FilesAt(e.added, level), DeletedAt(e, level))]
  {
  }

  lemma NothingMarked(next: nat, added: seq<NewFile>)
    ensures MarkUsed(next, added[..0]) == next
  {
  }

  lemma OneMoreMarked(next: nat, added: seq<NewFile>, i: nat)
    requires i < |added|
    ensures MarkUsed(next, added[..i + 1]) == Max(MarkUsed(next, added[..i]), added[i].file.number + 1)
  {
    assert added[..i + 1][..i] == added[..i];
  }

  lemma NoneAdded()
    ensures forall l :: FilesAt([], l) == []
  {
  }

  lemma OneMoreAdded(seen: seq<NewFile>, f: NewFile)
    ensures forall l :: FilesAt(seen + [f], l) == FilesAt(seen, l) + if f.level == l then [f.file] else []
    ensures NumbersOf(seen + [f]) == NumbersOf(seen) + {DeletedFile(f.level, f.file.number)}
  {
    assert (seen + [f])[..|seen|] == seen;
  }

  function NumbersOf(added: seq<NewFile>): set<DeletedFile> {
    set f | f in added :: DeletedFile(f.level, f.file.number)
  }

  lemma DeletedNumbers(e: Edit, l: nat)
    ensures (set d | d in e.deleted - NumbersOf(e.added) && d.level == l :: d.number) == DeletedAt(e, l)
  {
    var kept := e.deleted - NumbersOf(e.added);
    var left := set d | d in kept && d.level == l :: d.number;
    forall n ensures n in left <==> n in DeletedAt(e, l) {
      var d := DeletedFile(l, n);
      assert n in left <==> d in kept;
      assert n in (set d | d in e.deleted && d.level == l :: d.number) <==> d in e.deleted;
      NumberAdded(e.added, l, n);
    }
  }

  lemma NumberAdded(added: seq<NewFile>, l: nat, n: nat)
    ensures DeletedFile(l, n) in NumbersOf(added) <==> n in (set f | f in FilesAt(added, l) :: f.number)
  {
    if DeletedFile(l, n) in NumbersOf(added) {
      var f :| f in added && DeletedFile(f.level, f.file.number) == DeletedFile(l, n);
      FilesAtHas(added, l, f.file);
      assert f.file in FilesAt(added, l);
    }
    if f :| f in FilesAt(added, l) && f.number == n {
      FilesAtHas(added, l, f);
      assert NewFile(l, f) in added;
    }
  }

  lemma {:induction false} FilesAtHas(added: seq<NewFile>, l: nat, f: File)
    ensures f in FilesAt(added, l) <==> NewFile(l, f) in added
  {
    if added != [] {
      var n := |added| - 1;
      FilesAtHas(added[..n], l, f);
      assert added == added[..n] + [added[n]];
    }
  }

  lemma TagNone(level: nat)
    ensures Tagged([], level) == []
  {
  }

  lemma TagOneMore(files: seq<File>, level: nat, i: nat)
    requires i < |files|
    ensures Tagged(files[..i + 1], level) == Tagged(files[..i], level) + [NewFile(level, files[i])]
  {
  }

  /** A range around a file's own bounds overlaps that file. */
  lemma RangeOverlaps(files: seq<File>, f: File, b: Option<UserKey>, e: Option<UserKey>, smallest: InternalKey, largest: InternalKey)
    requires f in files && ValidFiles(files) && IsSmallest([f], smallest) && IsLargest([f], largest)
    requires Inside(Some(smallest.user), Some(largest.user), b, e)
    ensures Overlapping(files, b, e) != []
  {
    BoundsInOrder(f);
    OverlappingMembers(files, b, e, f);
  }

  /** An open end of the range is as good as the level's own end. */
  lemma OverlapIsInterval(files: seq<File>, b: Option<UserKey>, e: Option<UserKey>) returns (lo: nat, hi: nat)
    requires ValidFiles(files) && Disjoint(files) && Overlapping(files, b, e) != []
    ensures lo <= hi <= |files| && Overlapping(files, b, e) == files[lo..hi]
  {
    hide Less;
    var n := |files| - 1;
    var b' := if b.Some? then b.value else files[0].smallest.user;
    var e' := if e.Some? then e.value else files[n].largest.user;
    forall i | 0 <= i < |files|
      ensures Misses(files[i], b, e) <==> Misses(files[i], Some(b'), Some(e'))
    {
      UserBounds(files, i);
    }
    SameMisses(files, b, e, Some(b'), Some(e'));
    lo, hi := OverlapInterval(files, b', e');
  }

  lemma UserBounds(files: seq<File>, i: nat)
    requires ValidFiles(files) && Disjoint(files) && i < |files|
    ensures files[0].smallest.user <= files[i].smallest.user <= files[i].largest.user <= files[|files| - 1].largest.user
  {
    BoundsInOrder(files[i]);
    if i > 0 {
      EndsAscend(files, 0, i);
    }
    if i < |files| - 1 {
      EndsAscend(files, i, |files| - 1);
    }
  }

  lemma {:induction false} SameMisses(files: seq<File>, b: Option<UserKey>, e: Option<UserKey>, b': Option<UserKey>, e': Option<UserKey>)
    requires forall i :: 0 <= i < |files| ==> (Misses(files[i], b, e) <==> Misses(files[i], b', e'))
    ensures Overlapping(files, b, e) == Overlapping(files, b', e')
  {
    if files != [] {
      var n := |files| - 1;
      assert files[n] == files[n];
      SameMisses(files[..n], b, e, b', e');
    }
  }
}

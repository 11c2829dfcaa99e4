/** Building a version from an edit, and replaying the MANIFEST (db/version_set.cc). */
module Versions {
  import opened Keys
  import opened Files

  // ------------------------------------------------------------------ Builder::SaveTo, one level

  ghost predicate BySmallest(fs: seq<File>) {
    forall i, j :: 0 <= i < j < |fs| ==> !Less(fs[j].smallest, fs[i].smallest)
  }

  /** Inserts behind all files that do not start later. */
  function InsertFile(fs: seq<File>, f: File): seq<File> {
    if fs == [] then [f]
    else
      var n := |fs| - 1;
      if Less(f.smallest, fs[n].smallest) then InsertFile(fs[..n], f) + [fs[n]] else fs + [f]
  }

  /** Stands for std::sort by smallest key. */
  function SortFiles(fs: seq<File>): seq<File> {
    if fs == [] then [] else InsertFile(SortFiles(fs[..|fs| - 1]), fs[|fs| - 1])
  }

  /** Base and added files in order of their smallest keys, the added one first on a tie. */
  function MergeFiles(base: seq<File>, added: seq<File>): seq<File> {
    if added == [] then base
    else if base == [] then added
    else if Less(base[0].smallest, added[0].smallest) then [base[0]] + MergeFiles(base[1..], added)
    else [added[0]] + MergeFiles(base, added[1..])
  }

  function RemoveNumber(fs: seq<File>, number: nat): seq<File> {
    if fs == [] then []
    else
      var n := |fs| - 1;
      var rest := RemoveNumber(fs[..n], number);
      if fs[n].number == number then rest else rest + [fs[n]]
  }

  /** Version::AddFile: a file of the same number is replaced. */
  function AddFile(fs: seq<File>, f: File): seq<File> {
    RemoveNumber(fs, f.number) + [f]
  }

  function AddUnlessDeleted(fs: seq<File>, deleted: set<nat>): seq<File> {
    if fs == [] then []
    else
      var n := |fs| - 1;
      var before := AddUnlessDeleted(fs[..n], deleted);
      if fs[n].number in deleted then before else AddFile(before, fs[n])
  }

  function SaveLevel(base: seq<File>, added: seq<File>, deleted: set<nat>): seq<File> {
    AddUnlessDeleted(MergeFiles(base, SortFiles(added)), deleted)
  }

  /** The merge loop of SaveTo computes SaveLevel. */
  method SaveTo(base: seq<File>, added: seq<File>, deleted: set<nat>) returns (version: seq<File>)
    ensures version == SaveLevel(base, added, deleted)
  {
    var sorted := SortFiles(added);
    version := [];
    var b, a := 0, 0;
    ghost var done := [];
    assert base[0..] == base && sorted[0..] == sorted;
    while b < |base| || a < |sorted|
      invariant 0 <= b <= |base| && 0 <= a <= |sorted|
      invariant MergedSoFar(base, sorted, done, b, a)
      invariant version == AddUnlessDeleted(done, deleted)
      decreases |base| - b + |sorted| - a
    {
      MergeSuffix(base, sorted, done, b, a);
      var file;
      if a >= |sorted| {
        file := base[b];
        b := b + 1;
      } else if b >= |base| {
        file := sorted[a];
        a := a + 1;
      } else if Less(base[b].smallest, sorted[a].smallest) {
        file := base[b];
        b := b + 1;
      } else {
        file := sorted[a];
        a := a + 1;
      }
      version := MaybeAddFile(version, file, deleted, done);
      done := done + [file];
    }
    assert done == MergeFiles(base, sorted);
  }

  ghost predicate MergedSoFar(base: seq<File>, added: seq<File>, done: seq<File>, b: nat, a: nat)
    requires b <= |base| && a <= |added|
  {
    MergeFiles(base, added) == done + MergeFiles(base[b..], added[a..])
  }

  method MaybeAddFile(version: seq<File>, file: File, deleted: set<nat>, ghost done: seq<File>) returns (r: seq<File>)
    requires version == AddUnlessDeleted(done, deleted)
    ensures r == AddUnlessDeleted(done + [file], deleted)
  {
    assert (done + [file])[..|done|] == done;
    r := version;
    if file.number !in deleted {
      r := AddFile(version, file);
    }
  }

  lemma MergeSuffix(base: seq<File>, added: seq<File>, done: seq<File>, b: nat, a: nat)
    requires b <= |base| && a <= |added| && (b < |base| || a < |added|)
    requires MergedSoFar(base, added, done, b, a)
    ensures if b < |base| && (a == |added| || Less(base[b].smallest, added[a].smallest))
            then MergedSoFar(base, added, done + [base[b]], b + 1, a)
            else MergedSoFar(base, added, done + [added[a]], b, a + 1)
  {
    var x, y := base[b..], added[a..];
    assert b < |base| ==> x[0] == base[b] && x[1..] == base[b + 1..];
    assert a < |added| ==> y[0] == added[a] && y[1..] == added[a + 1..];
    if b < |base| && (a == |added| || Less(base[b].smallest, added[a].smallest)) {
      assert MergeFiles(x, y) == [base[b]] + MergeFiles(x[1..], y);
    } else {
      assert MergeFiles(x, y) == [added[a]] + MergeFiles(x, y[1..]);
    }
  }

  // ------------------------------------------------------------------ what SaveLevel yields

  /** Files that are not deleted have pairwise different numbers. */
  ghost predicate DistinctKept(fs: seq<File>, deleted: set<nat>) {
    forall i, j :: 0 <= i < j < |fs| && fs[i].number !in deleted && fs[j].number !in deleted ==> fs[i].number != fs[j].number
  }

  lemma {:induction false} SortFilesProperties(fs: seq<File>)
    ensures BySmallest(SortFiles(fs))
    ensures multiset(SortFiles(fs)) == multiset(fs)
  {
    hide BySmallest, InsertFile, Less;
    if fs != [] {
      var n := |fs| - 1;
      SortFilesProperties(fs[..n]);
      InsertFileProperties(SortFiles(fs[..n]), fs[n]);
      assert fs == fs[..n] + [fs[n]];
    } else {
      EmptyInOrder();
    }
  }

  lemma EmptyInOrder()
    ensures BySmallest([])
  {
  }

  lemma {:induction false} SortedStays(fs: seq<File>)
    requires BySmallest(fs)
    ensures SortFiles(fs) == fs
  {
    hide Less;
    if fs != [] {
      var n := |fs| - 1;
      SortedStays(fs[..n]);
      assert fs == fs[..n] + [fs[n]];
      if n > 0 {
        assert !Less(fs[n].smallest, fs[n - 1].smallest);
      }
    }
  }

  lemma NotLess(a: InternalKey, b: InternalKey, c: InternalKey)
    ensures !Less(b, a) && !Less(c, b) ==> !Less(c, a)
    ensures Less(a, b) ==> !Less(b, a)
  {
  }

  lemma {:induction false} InsertFileProperties(fs: seq<File>, f: File)
    requires BySmallest(fs)
    ensures BySmallest(InsertFile(fs, f))
    ensures multiset(InsertFile(fs, f)) == multiset(fs) + multiset{f}
  {
    hide Less;
    if fs != [] {
      var n := |fs| - 1;
      assert fs == fs[..n] + [fs[n]];
      if Less(f.smallest, fs[n].smallest) {
        InsertFileProperties(fs[..n], f);
        NotLess(f.smallest, fs[n].smallest, f.smallest);
        InsertedBefore(fs, f, InsertFile(fs[..n], f));
      } else {
        forall i | 0 <= i < n
          ensures !Less(f.smallest, fs[i].smallest)
        {
          NotLess(fs[i].smallest, fs[n].smallest, f.smallest);
        }
      }
    }
  }

  lemma InsertedBefore(fs: seq<File>, f: File, r: seq<File>)
    requires BySmallest(fs) && fs != [] && !Less(fs[|fs| - 1].smallest, f.smallest)
    requires multiset(r) == multiset(fs[..|fs| - 1]) + multiset{f}
    ensures forall i :: 0 <= i < |r| ==> !Less(fs[|fs| - 1].smallest, r[i].smallest)
  {
    hide Less;
    forall i | 0 <= i < |r|
      ensures !Less(fs[|fs| - 1].smallest, r[i].smallest)
    {
      assert r[i] in multiset(r);
      assert r[i] in fs[..|fs| - 1] || r[i] == f;
    }
  }

  lemma {:induction false} MergeFilesProperties(base: seq<File>, added: seq<File>)
    requires BySmallest(base) && BySmallest(added)
    ensures BySmallest(MergeFiles(base, added))
    ensures multiset(MergeFiles(base, added)) == multiset(base) + multiset(added)
    decreases |base| + |added|
  {
    if added == [] || base == [] {
    } else if Less(base[0].smallest, added[0].smallest) {
      MergeFilesProperties(base[1..], added);
      assert base == [base[0]] + base[1..];
      HeadFirst(base[0], MergeFiles(base[1..], added), base[1..], added);
    } else {
      MergeFilesProperties(base, added[1..]);
      assert added == [added[0]] + added[1..];
      HeadFirst(added[0], MergeFiles(base, added[1..]), base, added[1..]);
    }
  }

  lemma HeadFirst(h: File, r: seq<File>, x: seq<File>, y: seq<File>)
    requires BySmallest(r) && multiset(r) == multiset(x) + multiset(y)
    requires forall i :: 0 <= i < |x| ==> !Less(x[i].smallest, h.smallest)
    requires forall i :: 0 <= i < |y| ==> !Less(y[i].smallest, h.smallest)
    ensures BySmallest([h] + r)
  {
    forall i | 0 <= i < |r|
      ensures !Less(r[i].smallest, h.smallest)
    {
      assert r[i] in multiset(r);
      assert r[i] in x || r[i] in y;
    }
  }

  lemma {:induction false} RemoveAbsent(fs: seq<File>, number: nat)
    requires forall i :: 0 <= i < |fs| ==> fs[i].number != number
    ensures RemoveNumber(fs, number) == fs
  {
    if fs != [] {
      RemoveAbsent(fs[..|fs| - 1], number);
    }
  }

  function Surviving(fs: seq<File>, deleted: set<nat>): seq<File> {
    if fs == [] then []
    else
      var n := |fs| - 1;
      Surviving(fs[..n], deleted) + if fs[n].number in deleted then [] else [fs[n]]
  }

  lemma {:induction false} SurvivingMembers(fs: seq<File>, deleted: set<nat>)
    ensures forall f :: f in Surviving(fs, deleted) <==> f in fs && f.number !in deleted
    ensures deleted == {} ==> Surviving(fs, deleted) == fs
  {
    if fs != [] {
      var n := |fs| - 1;
      assert fs == fs[..n] + [fs[n]];
      SurvivingMembers(fs[..n], deleted);
    }
  }

  lemma {:induction false} SurvivingInOrder(fs: seq<File>, deleted: set<nat>)
    requires DistinctKept(fs, deleted) && BySmallest(fs)
    ensures BySmallest(Surviving(fs, deleted)) && DistinctNumbers(Surviving(fs, deleted))
  {
    if fs != [] {
      var n := |fs| - 1;
      SurvivingInOrder(fs[..n], deleted);
      var before := Surviving(fs[..n], deleted);
      if fs[n].number !in deleted {
        forall i | 0 <= i < |before|
          ensures before[i].number != fs[n].number && !Less(fs[n].smallest, before[i].smallest)
        {
          SurvivorBefore(fs, n, deleted, i);
        }
      }
    }
  }

  lemma SurvivorBefore(fs: seq<File>, n: nat, deleted: set<nat>, i: nat)
    requires n < |fs| && i < |Surviving(fs[..n], deleted)|
    ensures exists j :: 0 <= j < n && fs[j] == Surviving(fs[..n], deleted)[i] && fs[j].number !in deleted
  {
    var before := Surviving(fs[..n], deleted);
    SurvivingMembers(fs[..n], deleted);
    assert before[i] in before;
    var j :| 0 <= j < n && fs[..n][j] == before[i];
    assert fs[j] == before[i];
  }

  /** With different numbers AddFile replaces nothing. */
  lemma {:induction false} NothingReplaced(fs: seq<File>, deleted: set<nat>)
    requires DistinctKept(fs, deleted)
    ensures AddUnlessDeleted(fs, deleted) == Surviving(fs, deleted)
  {
    if fs != [] {
      var n := |fs| - 1;
      NothingReplaced(fs[..n], deleted);
      if fs[n].number !in deleted {
        var before := Surviving(fs[..n], deleted);
        forall i | 0 <= i < |before|
          ensures before[i].number != fs[n].number
        {
          SurvivorBefore(fs, n, deleted, i);
        }
        RemoveAbsent(before, fs[n].number);
      }
    }
  }

  /** The saved level holds the surviving base files and the added files, in order. */
  lemma SaveLevelProperties(base: seq<File>, added: seq<File>, deleted: set<nat>)
    requires BySmallest(base)
    requires DistinctNumbers(base) && DistinctNumbers(added)
    requires forall f, g :: f in base && g in added && f.number !in deleted ==> f.number != g.number
    requires forall g :: g in added ==> g.number !in deleted
    ensures var r := SaveLevel(base, added, deleted);
            && BySmallest(r) && DistinctNumbers(r)
            && (forall f :: f in r <==> (f in base && f.number !in deleted) || f in added)
  {
    var sorted := SortFiles(added);
    SortFilesProperties(added);
    MergeFilesProperties(base, sorted);
    var all := MergeFiles(base, sorted);
    assert forall f :: f in sorted <==> f in added by {
      forall f ensures f in sorted <==> f in added { assert f in multiset(sorted) <==> f in multiset(added); }
    }
    assert forall f :: f in all <==> f in base || f in added by {
      forall f ensures f in all <==> f in base || f in added { assert f in multiset(all) <==> f in multiset(base) || f in multiset(sorted); }
    }
    MergedDistinct(base, added, all, deleted);
    NothingReplaced(all, deleted);
    SurvivingInOrder(all, deleted);
    SurvivingMembers(all, deleted);
  }

  lemma MergedDistinct(base: seq<File>, added: seq<File>, all: seq<File>, deleted: set<nat>)
    requires multiset(all) == multiset(base) + multiset(added)
    requires DistinctNumbers(base) && DistinctNumbers(added)
    requires forall f, g :: f in base && g in added && f.number !in deleted ==> f.number != g.number
    ensures DistinctKept(all, deleted)
  {
    forall i, j | 0 <= i < j < |all| && all[i].number !in deleted && all[j].number !in deleted
      ensures all[i].number != all[j].number
    {
      assert all[i] in multiset(all) && all[j] in multiset(all);
      assert (all[i] in base || all[i] in added) && (all[j] in base || all[j] in added);
      if all[i] == all[j] {
        TwiceInMultiset(all, i, j);
        AtMostOnce(base, all[i]);
        AtMostOnce(added, all[i]);
      }
    }
  }

  lemma TwiceInMultiset(fs: seq<File>, i: nat, j: nat)
    requires i < j < |fs| && fs[i] == fs[j]
    ensures multiset(fs)[fs[i]] >= 2
  {
    assert fs == fs[..j] + fs[j..];
    assert fs[..j][i] == fs[i] && fs[j..][0] == fs[j];
    assert multiset(fs) == multiset(fs[..j]) + multiset(fs[j..]);
    assert fs[i] in multiset(fs[..j]) && fs[i] in multiset(fs[j..]);
  }

  lemma {:induction false} AtMostOnce(fs: seq<File>, f: File)
    requires DistinctNumbers(fs)
    ensures multiset(fs)[f] <= 1
  {
    if fs != [] {
      var n := |fs| - 1;
      AtMostOnce(fs[..n], f);
      assert fs == fs[..n] + [fs[n]];
      if fs[n] == f {
        assert f !in fs[..n];
        assert f !in multiset(fs[..n]);
      }
    }
  }

  /** Replaying a snapshot of a level onto an empty one restores it, order included. */
  lemma SaveOntoEmpty(files: seq<File>)
    requires BySmallest(files) && DistinctNumbers(files)
    ensures SaveLevel([], files, {}) == files
  {
    SortedStays(files);
    assert MergeFiles([], files) == files;
    NothingReplaced(files, {});
    SurvivingMembers(files, {});
  }

  // ------------------------------------------------------------------ edits and the MANIFEST

  datatype DeletedFile = DeletedFile(level: nat, number: nat)
  datatype NewFile = NewFile(level: nat, file: File)

  /** A change of version, as one MANIFEST record. */
  datatype Edit = Edit(logNumber: Option<nat>, nextFile: Option<nat>, lastSequence: Option<nat>,
                       deleted: set<DeletedFile>, added: seq<NewFile>, pointers: map<nat, InternalKey>)

  /** The metadata a replay of the MANIFEST rebuilds. */
  datatype Core = Core(levels: seq<seq<File>>, nextFile: nat, logNumber: nat, lastSequence: nat)

  /** A version set: its metadata, the records of the MANIFEST that CURRENT names (none if there is no
      CURRENT), that MANIFEST's number (0 if none), whether it is open for appending, and where the next compaction
      of each level starts. */
  datatype VersionState = VersionState(core: Core, manifest: seq<Edit>, manifestNumber: nat, open: bool, pointers: map<nat, InternalKey>)

  function FilesAt(added: seq<NewFile>, level: nat): seq<File> {
    if added == [] then []
    else
      var n := |added| - 1;
      FilesAt(added[..n], level) + if added[n].level == level then [added[n].file] else []
  }

  /** Deletions are recorded first; adding a file takes back a deletion of it. */
  function DeletedAt(e: Edit, level: nat): set<nat> {
    (set d | d in e.deleted && d.level == level :: d.number) - (set f | f in FilesAt(e.added, level) :: f.number)
  }

  function Max(a: nat, b: nat): nat { if a < b then b else a }

  /** MarkFileNumberUsed for every added file. */
  function MarkUsed(next: nat, added: seq<NewFile>): nat {
    if added == [] then next else Max(MarkUsed(next, added[..|added| - 1]), added[|added| - 1].file.number + 1)
  }

  function SaveLevels(c: Core, e: Edit, n: nat): (levels: seq<seq<File>>)
    requires n <= |c.levels|
    ensures |levels| == n
    ensures forall l :: 0 <= l < n ==> levels[l] == SaveLevel(c.levels[l], FilesAt(e.added, l), DeletedAt(e, l))
  {
    if n == 0 then [] else SaveLevels(c, e, n - 1) + [SaveLevel(c.levels[n - 1], FilesAt(e.added, n - 1), DeletedAt(e, n - 1))]
  }

  function Apply(c: Core, e: Edit): Core
    requires |c.levels| == NUM_LEVELS
  {
    Core(SaveLevels(c, e, NUM_LEVELS),
         MarkUsed(if e.nextFile.Some? then Max(c.nextFile, e.nextFile.value) else c.nextFile, e.added),
         if e.logNumber.Some? then e.logNumber.value else c.logNumber,
         if e.lastSequence.Some? then Max(c.lastSequence, e.lastSequence.value) else c.lastSequence)
  }

  const NO_FILES: seq<seq<File>> := [[], [], [], [], [], [], []]
  const INITIAL: Core := Core(NO_FILES, 2, 0, 0)

  function Replay(manifest: seq<Edit>): (c: Core)
    ensures |c.levels| == NUM_LEVELS
  {
    if manifest == [] then INITIAL else Apply(Replay(manifest[..|manifest| - 1]), manifest[|manifest| - 1])
  }

  function Tagged(files: seq<File>, level: nat): seq<NewFile> {
    seq(|files|, i requires 0 <= i < |files| => NewFile(level, files[i]))
  }

  function AllFiles(levels: seq<seq<File>>, n: nat): seq<NewFile>
    requires n <= |levels|
  {
    if n == 0 then [] else AllFiles(levels, n - 1) + Tagged(levels[n - 1], n - 1)
  }

  /** WriteSnapshot: the whole current version, without log and next-file numbers. */
  function SnapshotOf(c: Core, pointers: map<nat, InternalKey>): Edit
    requires |c.levels| == NUM_LEVELS
  {
    Edit(None, None, Some(c.lastSequence), {}, AllFiles(c.levels, NUM_LEVELS), pointers)
  }

  /** The compact pointers a replay leaves: for each level the last one recorded. */
  function PointersOf(manifest: seq<Edit>): map<nat, InternalKey> {
    if manifest == [] then map[] else PointersOf(manifest[..|manifest| - 1]) + manifest[|manifest| - 1].pointers
  }

  /** LogAndApply fills in what the caller left open. */
  function Completed(c: Core, e: Edit): Edit {
    e.(logNumber := if e.logNumber.Some? then e.logNumber else Some(c.logNumber),
       nextFile := if e.nextFile.Some? then e.nextFile else Some(c.nextFile),
       lastSequence := if e.lastSequence.Some? then e.lastSequence else Some(c.lastSequence))
  }

  /** The first MANIFEST takes a fresh file number. */
  predicate TakesNumber(vs: VersionState) {
    !vs.open && vs.manifestNumber == 0
  }

  function Numbered(vs: VersionState): Core {
    if TakesNumber(vs) then vs.core.(nextFile := vs.core.nextFile + 1) else vs.core
  }

  /** What the MANIFEST holds when the edit is appended: a file not open yet starts with a snapshot. */
  function RecordsBefore(vs: VersionState): seq<Edit>
    requires |vs.core.levels| == NUM_LEVELS
  {
    if vs.open then vs.manifest else [SnapshotOf(Numbered(vs), vs.pointers)]
  }

  function LogAndApply(vs: VersionState, e: Edit): (r: VersionState)
    requires |vs.core.levels| == NUM_LEVELS
    ensures |r.core.levels| == NUM_LEVELS
  {
    var full := Completed(Numbered(vs), e);
    VersionState(Apply(Numbered(vs), full), RecordsBefore(vs) + [full],
                 if TakesNumber(vs) then vs.core.nextFile else vs.manifestNumber, true, vs.pointers + e.pointers)
  }

  /** Reopening: metadata from the MANIFEST; the next edit will start the file afresh. */
  function Recovered(vs: VersionState): VersionState {
    VersionState(Replay(vs.manifest), vs.manifest, vs.manifestNumber, false, PointersOf(vs.manifest))
  }

  // ------------------------------------------------------------------ replay equals memory

  ghost predicate LevelsKept(levels: seq<seq<File>>) {
    && |levels| == NUM_LEVELS
    && forall l :: 0 <= l < NUM_LEVELS ==> BySmallest(levels[l]) && DistinctNumbers(levels[l])
  }

  ghost predicate NumbersBelow(levels: seq<seq<File>>, next: nat) {
    forall l, i :: 0 <= l < |levels| && 0 <= i < |levels[l]| ==> levels[l][i].number < next
  }

  /** The MANIFEST rebuilds what is in memory; numbers handed out since its last record may be lost. */
  ghost predicate Durable(vs: VersionState) {
    var c := Replay(vs.manifest);
    && c.levels == vs.core.levels
    && c.logNumber == vs.core.logNumber
    && c.lastSequence == vs.core.lastSequence
    && c.nextFile <= vs.core.nextFile
  }

  lemma {:induction false} FilesAtConcat(x: seq<NewFile>, y: seq<NewFile>, level: nat)
    ensures FilesAt(x + y, level) == FilesAt(x, level) + FilesAt(y, level)
  {
    if y == [] {
      assert x + y == x;
    } else {
      var n := |y| - 1;
      FilesAtConcat(x, y[..n], level);
      assert (x + y)[..|x + y| - 1] == x + y[..n];
    }
  }

  lemma {:induction false} FilesAtTagged(files: seq<File>, level: nat, l: nat)
    ensures FilesAt(Tagged(files, level), l) == if l == level then files else []
  {
    if files != [] {
      var n := |files| - 1;
      FilesAtTagged(files[..n], level, l);
      assert Tagged(files, level)[..n] == Tagged(files[..n], level);
    }
  }

  lemma FilesAtLast(levels: seq<seq<File>>, n: nat, l: nat)
    requires 0 < n <= |levels|
    ensures FilesAt(AllFiles(levels, n), l) == FilesAt(AllFiles(levels, n - 1), l) + if l == n - 1 then levels[l] else []
  {
    FilesAtTagged(levels[n - 1], n - 1, l);
    hide FilesAt, Tagged;
    FilesAtConcat(AllFiles(levels, n - 1), Tagged(levels[n - 1], n - 1), l);
  }

  lemma NoneOfNone(levels: seq<seq<File>>, l: nat)
    ensures FilesAt(AllFiles(levels, 0), l) == []
  {
  }

  lemma {:induction false} FilesAtAll(levels: seq<seq<File>>, n: nat, l: nat)
    requires n <= |levels|
    ensures FilesAt(AllFiles(levels, n), l) == if l < n then levels[l] else []
  {
    hide FilesAt, AllFiles;
    if n > 0 {
      FilesAtAll(levels, n - 1, l);
      FilesAtLast(levels, n, l);
    } else {
      NoneOfNone(levels, l);
    }
  }

  lemma {:induction false} MarkUsedBound(next: nat, added: seq<NewFile>, bound: nat)
    ensures next <= MarkUsed(next, added)
    ensures forall i :: 0 <= i < |added| ==> added[i].file.number < MarkUsed(next, added)
    ensures next <= bound && (forall i :: 0 <= i < |added| ==> added[i].file.number < bound) ==> MarkUsed(next, added) <= bound
  {
    if added != [] {
      MarkUsedBound(next, added[..|added| - 1], bound);
    }
  }

  lemma {:induction false} AllFilesBelow(levels: seq<seq<File>>, n: nat, next: nat)
    requires n <= |levels| && NumbersBelow(levels, next)
    ensures forall i :: 0 <= i < |AllFiles(levels, n)| ==> AllFiles(levels, n)[i].file.number < next
  {
    if n > 0 {
      AllFilesBelow(levels, n - 1, next);
    }
  }

  /** Applying a snapshot to an empty version set restores files and last sequence. */
  lemma SnapshotRestores(c: Core, pointers: map<nat, InternalKey>)
    requires LevelsKept(c.levels) && NumbersBelow(c.levels, c.nextFile) && 2 <= c.nextFile
    ensures var r := Apply(INITIAL, SnapshotOf(c, pointers));
            r.levels == c.levels && r.lastSequence == c.lastSequence && r.nextFile <= c.nextFile
  {
    var e := SnapshotOf(c, pointers);
    var r := Apply(INITIAL, e);
    forall l | 0 <= l < NUM_LEVELS
      ensures r.levels[l] == c.levels[l]
    {
      FilesAtAll(c.levels, NUM_LEVELS, l);
      assert DeletedAt(e, l) == {};
      SaveOntoEmpty(c.levels[l]);
    }
    AllFilesBelow(c.levels, NUM_LEVELS, c.nextFile);
    MarkUsedBound(2, e.added, c.nextFile);
  }

  lemma RecordsBeforeReplay(vs: VersionState)
    requires LevelsKept(vs.core.levels) && NumbersBelow(vs.core.levels, vs.core.nextFile) && 2 <= vs.core.nextFile
    requires Durable(vs)
    ensures var c := Replay(RecordsBefore(vs));
            && c.levels == vs.core.levels && c.lastSequence == vs.core.lastSequence
            && c.nextFile <= Numbered(vs).nextFile
  {
    if !vs.open {
      var records := RecordsBefore(vs);
      assert records[..0] == [];
      assert Replay(records) == Apply(INITIAL, SnapshotOf(Numbered(vs), vs.pointers));
      SnapshotRestores(Numbered(vs), vs.pointers);
    }
  }

  lemma ApplyAgrees(c: Core, d: Core, e: Edit)
    requires |c.levels| == NUM_LEVELS && c.levels == d.levels && c.lastSequence == d.lastSequence
    requires c.nextFile <= d.nextFile && e.nextFile == Some(d.nextFile) && e.logNumber.Some?
    ensures Apply(c, e) == Apply(d, e)
  {
    assert Apply(c, e).levels == Apply(d, e).levels;
  }

  /** After every LogAndApply a replay of the MANIFEST gives back exactly the metadata in memory, next
      file number included, whether the MANIFEST was continued or started afresh. */
  lemma LogAndApplyIsDurable(vs: VersionState, e: Edit)
    requires LevelsKept(vs.core.levels) && NumbersBelow(vs.core.levels, vs.core.nextFile) && 2 <= vs.core.nextFile
    requires Durable(vs)
    requires e.nextFile.None?
    ensures Replay(LogAndApply(vs, e).manifest) == LogAndApply(vs, e).core
    ensures Durable(LogAndApply(vs, e))
  {
    var records, full := RecordsBefore(vs), Completed(Numbered(vs), e);
    RecordsBeforeReplay(vs);
    ApplyAgrees(Replay(records), Numbered(vs), full);
    assert (records + [full])[..|records + [full]| - 1] == records;
  }

  /** A run of edits from a fresh version set, with file numbers handed out in between. */
  datatype VersionStep = LogEdit(e: Edit) | TakeNumber | Recover

  function Step(vs: VersionState, s: VersionStep): (r: VersionState)
    requires |vs.core.levels| == NUM_LEVELS
    ensures |r.core.levels| == NUM_LEVELS
  {
    match s
    case LogEdit(e) => LogAndApply(vs, e)
    case TakeNumber => vs.(core := vs.core.(nextFile := vs.core.nextFile + 1))
    case Recover => Recovered(vs)
  }

  const FRESH: VersionState := VersionState(INITIAL, [], 0, false, map[])

  function Run(steps: seq<VersionStep>): (r: VersionState)
    ensures |r.core.levels| == NUM_LEVELS
  {
    if steps == [] then FRESH else Step(Run(steps[..|steps| - 1]), steps[|steps| - 1])
  }

  ghost predicate NoClash(files: seq<File>, added: seq<File>, deleted: set<nat>) {
    && DistinctNumbers(added)
    && forall f, g :: f in files && g in added && f.number !in deleted ==> f.number != g.number
  }

  /** An edit the engine may log: it leaves the next-file number open, its files carry numbers already
      handed out, and no number occurs twice on a level afterwards. */
  ghost predicate ProperEdit(vs: VersionState, e: Edit)
    requires |vs.core.levels| == NUM_LEVELS
  {
    && e.nextFile.None?
    && (forall i :: 0 <= i < |e.added| ==> e.added[i].file.number < vs.core.nextFile)
    && forall l :: 0 <= l < NUM_LEVELS ==> NoClash(vs.core.levels[l], FilesAt(e.added, l), DeletedAt(e, l))
  }

  ghost predicate ProperRun(steps: seq<VersionStep>) {
    forall n :: 0 <= n < |steps| && steps[n].LogEdit? ==> ProperEdit(Run(steps[..n]), steps[n].e)
  }

  ghost predicate Sound(vs: VersionState) {
    && LevelsKept(vs.core.levels) && NumbersBelow(vs.core.levels, vs.core.nextFile) && 2 <= vs.core.nextFile
    && NumbersBelow(Replay(vs.manifest).levels, Replay(vs.manifest).nextFile) && 2 <= Replay(vs.manifest).nextFile
    && Durable(vs)
  }

  lemma {:induction false} FilesAtMembers(added: seq<NewFile>, l: nat, f: File)
    requires f in FilesAt(added, l)
    ensures exists i :: 0 <= i < |added| && added[i] == NewFile(l, f)
  {
    if added != [] {
      var n := |added| - 1;
      if f in FilesAt(added[..n], l) {
        FilesAtMembers(added[..n], l, f);
        var i :| 0 <= i < n && added[..n][i] == NewFile(l, f);
        assert added[i] == NewFile(l, f);
      }
    }
  }

  lemma ApplyKeepsLevels(c: Core, e: Edit)
    requires LevelsKept(c.levels) && NumbersBelow(c.levels, c.nextFile)
    requires forall l :: 0 <= l < NUM_LEVELS ==> NoClash(c.levels[l], FilesAt(e.added, l), DeletedAt(e, l))
    ensures LevelsKept(Apply(c, e).levels) && NumbersBelow(Apply(c, e).levels, Apply(c, e).nextFile)
    ensures forall l :: 0 <= l < NUM_LEVELS ==> forall f ::
      f in Apply(c, e).levels[l] <==> (f in c.levels[l] && f.number !in DeletedAt(e, l)) || f in FilesAt(e.added, l)
    ensures c.nextFile <= Apply(c, e).nextFile
  {
    var r := Apply(c, e);
    var next := if e.nextFile.Some? then Max(c.nextFile, e.nextFile.value) else c.nextFile;
    MarkUsedBound(next, e.added, next);
    forall l | 0 <= l < NUM_LEVELS
      ensures BySmallest(r.levels[l]) && DistinctNumbers(r.levels[l])
      ensures forall f :: f in r.levels[l] <==> (f in c.levels[l] && f.number !in DeletedAt(e, l)) || f in FilesAt(e.added, l)
      ensures forall i :: 0 <= i < |r.levels[l]| ==> r.levels[l][i].number < r.nextFile
    {
      SaveLevelProperties(c.levels[l], FilesAt(e.added, l), DeletedAt(e, l));
      forall i | 0 <= i < |r.levels[l]|
        ensures r.levels[l][i].number < r.nextFile
      {
        var f := r.levels[l][i];
        assert f in r.levels[l];
        if f in FilesAt(e.added, l) {
          FilesAtMembers(e.added, l, f);
        }
      }
    }
  }

  lemma LogKeepsSound(vs: VersionState, e: Edit)
    requires Sound(vs) && ProperEdit(vs, e)
    ensures Sound(LogAndApply(vs, e))
  {
    hide Durable, Replay;
    LogAndApplyIsDurable(vs, e);
    var full := Completed(Numbered(vs), e);
    assert forall l :: 0 <= l < NUM_LEVELS ==> FilesAt(full.added, l) == FilesAt(e.added, l) && DeletedAt(full, l) == DeletedAt(e, l);
    hide FilesAt, DeletedAt, NoClash, LevelsKept, NumbersBelow;
    ApplyKeepsLevels(Numbered(vs), full);
    hide Apply;
  }

  /** The first edit after a reopen starts the MANIFEST afresh, with a snapshot, in the file it had. */
  lemma RecoveredStartsAfresh(vs: VersionState, e: Edit)
    requires vs.manifestNumber != 0
    ensures var r := LogAndApply(Recovered(vs), e);
            && r.manifest == [SnapshotOf(Replay(vs.manifest), PointersOf(vs.manifest)), Completed(Replay(vs.manifest), e)]
            && r.manifestNumber == vs.manifestNumber && r.open
  {
    hide Replay, SnapshotOf;
  }

  /** What logging an edit does to the metadata, file by file. */
  ghost predicate Logged(c: Core, d: Core, e: Edit) {
    && |c.levels| == |d.levels| == NUM_LEVELS
    && c.nextFile <= d.nextFile
    && d.logNumber == (if e.logNumber.Some? then e.logNumber.value else c.logNumber)
    && d.lastSequence == (if e.lastSequence.Some? then Max(c.lastSequence, e.lastSequence.value) else c.lastSequence)
    && (forall l :: 0 <= l < NUM_LEVELS ==> LevelLogged(c.levels[l], d.levels[l], FilesAt(e.added, l), DeletedAt(e, l)))
  }

  ghost predicate LevelLogged(files: seq<File>, files': seq<File>, added: seq<File>, deleted: set<nat>) {
    && (forall f :: f in files' <==> (f in files && f.number !in deleted) || f in added)
    && (added == [] && deleted == {} ==> files' == files)
  }

  lemma LogEffect(vs: VersionState, e: Edit)
    requires Sound(vs) && ProperEdit(vs, e)
    ensures Sound(LogAndApply(vs, e)) && LogAndApply(vs, e).manifest != []
    ensures Logged(vs.core, LogAndApply(vs, e).core, e)
  {
    LogKeepsSound(vs, e);
    ApplyEffect(vs.core, Numbered(vs), e, Completed(Numbered(vs), e));
  }

  lemma ApplyEffect(c: Core, numbered: Core, e: Edit, full: Edit)
    requires LevelsKept(c.levels) && NumbersBelow(c.levels, c.nextFile)
    requires numbered == c.(nextFile := numbered.nextFile) && c.nextFile <= numbered.nextFile
    requires full == e.(logNumber := full.logNumber, nextFile := Some(numbered.nextFile), lastSequence := full.lastSequence)
    requires full.logNumber == (if e.logNumber.Some? then e.logNumber else Some(c.logNumber))
    requires full.lastSequence == (if e.lastSequence.Some? then e.lastSequence else Some(c.lastSequence))
    requires forall l :: 0 <= l < NUM_LEVELS ==> NoClash(c.levels[l], FilesAt(e.added, l), DeletedAt(e, l))
    ensures Logged(c, Apply(numbered, full), e)
  {
    assert forall l :: 0 <= l < NUM_LEVELS ==> DeletedAt(full, l) == DeletedAt(e, l);
    ApplyKeepsLevels(numbered, full);
    forall l | 0 <= l < NUM_LEVELS
      ensures LevelLogged(c.levels[l], Apply(numbered, full).levels[l], FilesAt(e.added, l), DeletedAt(e, l))
    {
      if FilesAt(e.added, l) == [] && DeletedAt(e, l) == {} {
        SaveUntouched(c.levels[l]);
      }
    }
  }

  lemma SaveUntouched(files: seq<File>)
    requires DistinctNumbers(files)
    ensures SaveLevel(files, [], {}) == files
  {
    assert SortFiles([]) == [];
    NothingReplaced(files, {});
    SurvivingMembers(files, {});
  }

  lemma StepKeepsSound(vs: VersionState, s: VersionStep)
    requires Sound(vs)
    requires s.LogEdit? ==> ProperEdit(vs, s.e)
    ensures Sound(Step(vs, s))
  {
    if s.LogEdit? {
      LogKeepsSound(vs, s.e);
    }
  }

  /** In every state of every run the MANIFEST rebuilds memory. */
  lemma {:induction false} EveryRunIsDurable(steps: seq<VersionStep>)
    requires ProperRun(steps)
    ensures Sound(Run(steps))
  {
    if steps == [] {
      assert Replay([]) == INITIAL;
    } else {
      var n := |steps| - 1;
      assert ProperRun(steps[..n]) by {
        forall k | 0 <= k < n && steps[..n][k].LogEdit?
          ensures ProperEdit(Run(steps[..n][..k]), steps[..n][k].e)
        {
          assert steps[..n][..k] == steps[..k];
        }
      }
      EveryRunIsDurable(steps[..n]);
      StepKeepsSound(Run(steps[..n]), steps[n]);
    }
  }

  lemma NumberTaken(levels: seq<seq<File>>, next: nat, l: nat, f: File)
    requires NumbersBelow(levels, next) && l < |levels| && f in levels[l]
    ensures f.number < next
  {
  }

  lemma SoundNumbers(vs: VersionState)
    requires Sound(vs)
    ensures NumbersBelow(vs.core.levels, vs.core.nextFile) && LevelsKept(vs.core.levels)
  {
  }
}

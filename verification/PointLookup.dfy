/** Point lookups (db/memtable.cc Get, db/version_set.cc FindFileInLevel and Version::Get,
    db/db_impl.cc Get), table reads without a filter. */
module PointLookup {
  import opened Keys
  import opened Files
  import opened Visibility
  import opened Versions
  import opened InputSelection
  import opened Engine
  import opened Invariants

  // ------------------------------------------------------------------ one sorted run

  /** The first entry not before the seek key, if it has the sought user key: a memtable's Get, and a
      table's InternalGet followed by SaveValue. */
  function RunGet(entries: seq<Entry>, u: UserKey, s: nat): Option<Entry> {
    if entries == [] then None
    else if Less(entries[0].k, SeekKey(u, s)) then RunGet(entries[1..], u, s)
    else if entries[0].k.user == u then Some(entries[0])
    else None
  }

  /** `r` is the newest version of `u` visible at `s` among the entries of `S`, or there is none. */
  ghost predicate FindsNewest(S: set<Entry>, u: UserKey, s: nat, r: Option<Entry>) {
    match r
    case None => forall e :: !VersionOf(S, u, s, e)
    case Some(e) => Newest(S, u, s, e)
  }

  lemma {:induction false} RunGetFindsNewest(entries: seq<Entry>, u: UserKey, s: nat)
    requires Sorted(entries)
    ensures FindsNewest(SetOf(entries), u, s, RunGet(entries, u, s))
  {
    if entries != [] {
      assert entries == [entries[0]] + entries[1..];
      if Less(entries[0].k, SeekKey(u, s)) {
        RunGetFindsNewest(entries[1..], u, s);
        assert forall e :: VersionOf(SetOf(entries), u, s, e) <==> VersionOf(SetOf(entries[1..]), u, s, e);
      } else {
        forall e | e in entries
          ensures !Less(e.k, entries[0].k)
        {
          var i :| 0 <= i < |entries| && entries[i] == e;
        }
      }
    }
  }

  // ------------------------------------------------------------------ one level

  /** The files of a level that end before user key `u`. */
  function EndsBefore(files: seq<File>, u: UserKey): nat {
    if files == [] || files[0].largest.user >= u then 0 else 1 + EndsBefore(files[1..], u)
  }

  /** The file FindFileInLevel looks at: the first that does not end before `u`, if it covers `u`. */
  function FileFor(files: seq<File>, u: UserKey): Option<File> {
    var i := EndsBefore(files, u);
    if i < |files| && files[i].smallest.user <= u then Some(files[i]) else None
  }

  lemma {:induction false} EndsBeforeSplits(files: seq<File>, u: UserKey)
    ensures EndsBefore(files, u) <= |files|
    ensures forall i :: 0 <= i < EndsBefore(files, u) ==> files[i].largest.user < u
    ensures EndsBefore(files, u) < |files| ==> u <= files[EndsBefore(files, u)].largest.user
  {
    if files != [] && files[0].largest.user < u {
      EndsBeforeSplits(files[1..], u);
      forall i | 0 <= i < EndsBefore(files, u)
        ensures files[i].largest.user < u
      {
        assert i > 0 ==> files[i] == files[1..][i - 1];
      }
    }
  }

  /** The binary search finds the same file as a scan. */
  method FindFileInLevel(files: seq<File>, u: UserKey) returns (r: Option<File>)
    requires ValidFiles(files) && Disjoint(files)
    ensures r == FileFor(files, u)
  {
    EndsBeforeSplits(files, u);
    var left, right := 0, |files|;
    while left < right
      invariant 0 <= left <= EndsBefore(files, u) <= right <= |files|
    {
      var middle := left + (right - left) / 2;
      if files[middle].largest.user < u {
        if EndsBefore(files, u) <= middle {
          LargestAscend(files, EndsBefore(files, u), middle);
        }
        left := middle + 1;
      } else {
        right := middle;
      }
    }
    if left >= |files| {
      return None;
    }
    if u < files[left].smallest.user {
      return None;
    }
    return Some(files[left]);
  }

  lemma LargestAscend(files: seq<File>, i: nat, j: nat)
    requires ValidFiles(files) && Disjoint(files)
    requires i <= j < |files|
    ensures files[i].largest.user <= files[j].largest.user
  {
    if i < j {
      EndsAscend(files, i, j);
    }
  }

  function LevelGet(files: seq<File>, u: UserKey, s: nat): Option<Entry> {
    match FileFor(files, u)
    case None => None
    case Some(f) => RunGet(f.entries, u, s)
  }

  /** No user key ends one file of the level and starts the next. */
  ghost predicate Separated(files: seq<File>) {
    forall i :: 0 < i < |files| ==> !Touches(files, i)
  }

  /** User key `u` runs on from file `i - 1` into file `i`, and a reader at `s` sees versions of it in the second
      file and not the last one of the first. */
  ghost predicate Straddles(files: seq<File>, i: nat, u: UserKey, s: nat)
    requires 0 < i < |files|
  {
    files[i - 1].largest.user == u && s < files[i - 1].largest.seqno && HasVisible(files[i], u, s)
  }

  ghost predicate HasVisible(f: File, u: UserKey, s: nat) {
    exists e :: e in f.entries && e.k.user == u && e.k.seqno <= s
  }

  ghost predicate Splits(files: seq<File>, u: UserKey, s: nat) {
    exists i :: 0 < i < |files| && Straddles(files, i, u, s)
  }

  /** What a search of a run returns is a visible version of the key in it. */
  lemma {:induction false} RunGetIsThere(entries: seq<Entry>, u: UserKey, s: nat)
    ensures var r := RunGet(entries, u, s); r.Some? ==> r.value in entries && r.value.k.user == u && r.value.k.seqno <= s
  {
    if entries != [] {
      RunGetIsThere(entries[1..], u, s);
    }
  }

  /** No file before the one the search picks holds the key. */
  lemma NotBefore(files: seq<File>, u: UserKey, j: nat, e: Entry)
    requires ValidFiles(files) && j < |files| && e in files[j].entries && e.k.user == u
    ensures EndsBefore(files, u) <= j
  {
    EndsBeforeSplits(files, u);
    BoundsOf(files[j], e);
  }

  /** Between two entries of a level in different files stands the end of the first file. */
  lemma AcrossFiles(files: seq<File>, m: nat, j: nat, x: Entry, y: Entry)
    requires ValidFiles(files) && Disjoint(files) && m < j < |files| && x in files[m].entries && y in files[j].entries
    ensures Less(x.k, y.k) && x.k.user <= files[m].largest.user <= y.k.user
  {
    BoundsOf(files[m], x);
    BoundsOf(files[j], y);
    assert Less(files[m].largest, files[j].smallest);
  }

  /** If the first file with the key has no visible version and a later one has, some file on the way starts
      the visible ones. */
  lemma {:induction false} FirstVisible(files: seq<File>, u: UserKey, s: nat, m: nat, j: nat)
    requires ValidFiles(files) && Disjoint(files) && m < j < |files|
    requires files[m].largest.user >= u && !HasVisible(files[m], u, s) && HasVisible(files[j], u, s)
    ensures Splits(files, u, s)
    decreases j
  {
    var e :| e in files[j].entries && e.k.user == u && e.k.seqno <= s;
    if HasVisible(files[j - 1], u, s) {
      FirstVisible(files, u, s, m, j - 1);
    } else {
      var last := files[j - 1].entries[|files[j - 1].entries| - 1];
      assert last in files[j - 1].entries;
      AcrossFiles(files, j - 1, j, last, e);
      LargestAscend(files, m, j - 1);
      assert Straddles(files, j, u, s);
    }
  }

  /** A level answers a lookup of `u` at `s` correctly if and only if no file boundary separates the versions of
      `u` visible at `s` from newer ones. */
  lemma LevelGetCorrectIff(files: seq<File>, u: UserKey, s: nat)
    requires ValidFiles(files) && Disjoint(files)
    ensures FindsNewest(EntriesOf(files), u, s, LevelGet(files, u, s)) <==> !Splits(files, u, s)
    ensures Splits(files, u, s) ==> LevelGet(files, u, s) == None && exists e :: VersionOf(EntriesOf(files), u, s, e)
  {
    if Splits(files, u, s) {
      SplitIsMissed(files, u, s);
    } else {
      UnsplitIsFound(files, u, s);
    }
  }

  lemma SplitIsMissed(files: seq<File>, u: UserKey, s: nat)
    requires ValidFiles(files) && Disjoint(files) && Splits(files, u, s)
    ensures LevelGet(files, u, s) == None && exists e :: VersionOf(EntriesOf(files), u, s, e)
  {
    hide ValidFiles, Disjoint;
    var i: nat :| 0 < i < |files| && Straddles(files, i, u, s);
    var e :| e in files[i].entries && e.k.user == u && e.k.seqno <= s;
    assert files[i] in files && VersionOf(EntriesOf(files), u, s, e);
    EndsBeforeSplits(files, u);
    NewerBefore(files, u, s, i);
    var m := EndsBefore(files, u);
    RunGetIsThere(files[m].entries, u, s);
  }

  /** The file the search picks ends no later than the boundary, so all its versions of the key are newer. */
  lemma NewerBefore(files: seq<File>, u: UserKey, s: nat, i: nat)
    requires ValidFiles(files) && Disjoint(files) && 0 < i < |files|
    requires files[i - 1].largest.user == u && s < files[i - 1].largest.seqno
    ensures EndsBefore(files, u) < i
    ensures forall x :: x in files[EndsBefore(files, u)].entries && x.k.user == u ==> s < x.k.seqno
  {
    var last := files[i - 1].entries[|files[i - 1].entries| - 1];
    assert last in files[i - 1].entries;
    NotBefore(files, u, i - 1, last);
    var m := EndsBefore(files, u);
    forall x | x in files[m].entries && x.k.user == u
      ensures s < x.k.seqno
    {
      if m < i - 1 {
        AcrossFiles(files, m, i - 1, x, last);
      } else {
        BoundsOf(files[m], x);
      }
    }
  }

  lemma UnsplitIsFound(files: seq<File>, u: UserKey, s: nat)
    requires ValidFiles(files) && Disjoint(files) && !Splits(files, u, s)
    ensures FindsNewest(EntriesOf(files), u, s, LevelGet(files, u, s))
  {
    EndsBeforeSplits(files, u);
    var m, r := EndsBefore(files, u), LevelGet(files, u, s);
    forall e | VersionOf(EntriesOf(files), u, s, e)
      ensures r.Some? && e.k.seqno <= r.value.k.seqno
    {
      var f :| f in files && e in f.entries;
      var j: nat :| j < |files| && files[j] == f;
      NotBefore(files, u, j, e);
      FoundBefore(files, u, s, j, e);
    }
    if r.Some? {
      RunGetIsThere(files[m].entries, u, s);
      assert files[m] in files;
    }
  }

  /** The file the search picks gives a version at least as new as any visible one. */
  lemma FoundBefore(files: seq<File>, u: UserKey, s: nat, j: nat, e: Entry)
    requires ValidFiles(files) && Disjoint(files) && !Splits(files, u, s)
    requires j < |files| && e in files[j].entries && e.k.user == u && e.k.seqno <= s && EndsBefore(files, u) <= j
    ensures var r := LevelGet(files, u, s); r.Some? && e.k.seqno <= r.value.k.seqno
  {
    EndsBeforeSplits(files, u);
    var m := EndsBefore(files, u);
    var first := files[m].entries[0];
    assert first in files[m].entries;
    if m < j {
      AcrossFiles(files, m, j, first, e);
    } else {
      BoundsOf(files[m], e);
    }
    assert FileFor(files, u) == Some(files[m]);
    RunGetFindsNewest(files[m].entries, u, s);
    assert HasVisible(files[j], u, s);
    if m < j && !HasVisible(files[m], u, s) {
      FirstVisible(files, u, s, m, j);
    }
    var x :| x in files[m].entries && x.k.user == u && x.k.seqno <= s;
    assert VersionOf(SetOf(files[m].entries), u, s, x);
    var r := LevelGet(files, u, s);
    if m < j {
      AcrossFiles(files, m, j, r.value, e);
    } else {
      assert VersionOf(SetOf(files[m].entries), u, s, e);
    }
  }

  /** For all keys and sequences together: exactly if the files of the level share no user key. */
  lemma SeparatedIff(files: seq<File>)
    requires ValidFiles(files) && Disjoint(files) && Consistent(EntriesOf(files))
    ensures (forall u, s :: FindsNewest(EntriesOf(files), u, s, LevelGet(files, u, s))) <==> Separated(files)
  {
    forall u, s
      ensures FindsNewest(EntriesOf(files), u, s, LevelGet(files, u, s)) <==> !Splits(files, u, s)
    {
      LevelGetCorrectIff(files, u, s);
    }
    if Separated(files) {
      forall u, s ensures !Splits(files, u, s) {
        SeparatedNeverSplits(files, u, s);
      }
    } else {
      var i :| 0 < i < |files| && Touches(files, i);
      TouchingSplits(files, i);
    }
  }

  lemma SeparatedNeverSplits(files: seq<File>, u: UserKey, s: nat)
    requires ValidFiles(files) && Disjoint(files) && Separated(files)
    ensures !Splits(files, u, s)
  {
    if i :| 0 < i < |files| && Straddles(files, i, u, s) {
      var e :| e in files[i].entries && e.k.user == u && e.k.seqno <= s;
      BoundsOf(files[i], e);
      assert Less(files[i - 1].largest, files[i].smallest);
      assert Touches(files, i);
    }
  }

  lemma TouchingSplits(files: seq<File>, i: nat)
    requires ValidFiles(files) && Disjoint(files) && Consistent(EntriesOf(files))
    requires 0 < i < |files| && Touches(files, i)
    ensures Splits(files, files[i].smallest.user, files[i].smallest.seqno)
  {
    var first, last := files[i].entries[0], files[i - 1].entries[|files[i - 1].entries| - 1];
    assert first in files[i].entries && last in files[i - 1].entries;
    assert files[i] in files && files[i - 1] in files;
    assert first in EntriesOf(files) && last in EntriesOf(files);
    AcrossFiles(files, i - 1, i, last, first);
    assert Straddles(files, i, first.k.user, first.k.seqno);
  }

  // ------------------------------------------------------------------ level 0

  predicate MayContain(f: File, u: UserKey) {
    f.smallest.user <= u <= f.largest.user
  }

  function Candidates(files: seq<File>, u: UserKey): seq<File> {
    if files == [] then []
    else
      var n := |files| - 1;
      Candidates(files[..n], u) + if MayContain(files[n], u) then [files[n]] else []
  }

  function InsertByNumber(files: seq<File>, f: File): seq<File> {
    if files == [] then [f]
    else if f.number > files[0].number then [f] + files
    else [files[0]] + InsertByNumber(files[1..], f)
  }

  /** Stands for std::sort with NewestFileFirst. */
  function NewestFirst(files: seq<File>): seq<File> {
    if files == [] then [] else InsertByNumber(NewestFirst(files[..|files| - 1]), files[|files| - 1])
  }

  ghost predicate ByNumber(files: seq<File>) {
    forall i, j :: 0 <= i < j < |files| ==> files[i].number >= files[j].number
  }

  function FilesGet(files: seq<File>, u: UserKey, s: nat): Option<Entry> {
    if files == [] then None
    else
      var r := RunGet(files[0].entries, u, s);
      if r.Some? then r else FilesGet(files[1..], u, s)
  }

  function LevelsGet(levels: seq<seq<File>>, l: nat, u: UserKey, s: nat): Option<Entry>
    decreases |levels| - l
  {
    if l >= |levels| then None
    else
      var r := LevelGet(levels[l], u, s);
      if r.Some? then r else LevelsGet(levels, l + 1, u, s)
  }

  function VersionGet(levels: seq<seq<File>>, u: UserKey, s: nat): Option<Entry>
    requires levels != []
  {
    var r := FilesGet(NewestFirst(Candidates(levels[0], u)), u, s);
    if r.Some? then r else LevelsGet(levels, 1, u, s)
  }

  /** DBImpl::Get: memtable, frozen memtable, current version. */
  function StoreGet(db: Db, u: UserKey, s: nat): Option<Entry>
    requires db.Levels() != []
  {
    var r := RunGet(db.mem, u, s);
    if r.Some? then r
    else
      var q := RunGet(db.imm, u, s);
      if q.Some? then q else VersionGet(db.Levels(), u, s)
  }

  /** What the caller of Get sees: a deletion is reported as not found. */
  function ValueOf(r: Option<Entry>): Option<Bytes> {
    if r.Some? && r.value.k.kind.Value? then Some(r.value.v) else None
  }

  /** Version::Get, loop by loop. */
  method LookUpVersion(levels: seq<seq<File>>, u: UserKey, s: nat) returns (r: Option<Entry>)
    requires LevelsInOrder(levels)
    ensures r == VersionGet(levels, u, s)
  {
    var candidates := [];
    var i := 0;
    while i < |levels[0]|
      invariant 0 <= i <= |levels[0]|
      invariant candidates == Candidates(levels[0][..i], u)
    {
      assert levels[0][..i + 1][..i] == levels[0][..i];
      if MayContain(levels[0][i], u) {
        candidates := candidates + [levels[0][i]];
      }
      i := i + 1;
    }
    assert levels[0][..i] == levels[0];
    candidates := NewestFirst(candidates);
    i := 0;
    while i < |candidates|
      invariant 0 <= i <= |candidates|
      invariant FilesGet(candidates, u, s) == FilesGet(candidates[i..], u, s)
    {
      assert candidates[i..][1..] == candidates[i + 1..];
      r := RunGet(candidates[i].entries, u, s);
      if r.Some? {
        return;
      }
      i := i + 1;
    }
    var level := 1;
    while level < |levels|
      invariant 1 <= level <= |levels|
      invariant LevelsGet(levels, 1, u, s) == LevelsGet(levels, level, u, s)
    {
      var file := FindFileInLevel(levels[level], u);
      if file.Some? {
        r := RunGet(file.value.entries, u, s);
        if r.Some? {
          return;
        }
      }
      level := level + 1;
    }
    return None;
  }

  // ------------------------------------------------------------------ agreement with brute force

  lemma {:induction false} CandidatesMembers(files: seq<File>, u: UserKey, f: File)
    ensures f in Candidates(files, u) <==> f in files && MayContain(f, u)
  {
    if files != [] {
      var n := |files| - 1;
      assert files == files[..n] + [files[n]];
      CandidatesMembers(files[..n], u, f);
    }
  }

  lemma {:induction false} InsertByNumberProperties(files: seq<File>, f: File)
    requires ByNumber(files)
    ensures ByNumber(InsertByNumber(files, f))
    ensures forall g :: g in InsertByNumber(files, f) <==> g in files || g == f
  {
    if files != [] && f.number <= files[0].number {
      InsertByNumberProperties(files[1..], f);
      var r := InsertByNumber(files[1..], f);
      forall i | 0 <= i < |r|
        ensures files[0].number >= r[i].number
      {
        assert r[i] in r;
      }
      assert files == [files[0]] + files[1..];
    }
  }

  lemma {:induction false} NewestFirstProperties(files: seq<File>)
    ensures ByNumber(NewestFirst(files))
    ensures forall g :: g in NewestFirst(files) <==> g in files
  {
    if files != [] {
      var n := |files| - 1;
      assert files == files[..n] + [files[n]];
      NewestFirstProperties(files[..n]);
      InsertByNumberProperties(NewestFirst(files[..n]), files[n]);
    }
  }

  /** What is found at place `p` is newest overall if nothing visible found up to `p` is newer. */
  lemma FoundIsNewest(db: Db, p: Place, u: UserKey, s: nat, f: Entry)
    requires NewerAbove(db) && Readable(db, s)
    requires Stored(db, p, f) && f.k.user == u && f.k.seqno <= s
    requires forall q, x :: Stored(db, q, x) && NoLater(q, p) && x.k.user == u && x.k.seqno <= s ==> x.k.seqno <= f.k.seqno
    ensures Newest(All(db), u, s, f)
  {
    AllStored(db, f);
    forall e | VersionOf(All(db), u, s, e)
      ensures e.k.seqno <= f.k.seqno
    {
      if f.k.seqno <= e.k.seqno {
        var q, x :| NoLater(q, p) && Stored(db, q, x) && StandsFor(db, x, e);
        assert x.k.seqno <= s;
      }
    }
  }

  lemma RunAtPlace(db: Db, entries: seq<Entry>, p: Place, u: UserKey, s: nat)
    requires Sorted(entries) && NewerAbove(db) && Readable(db, s)
    requires forall e :: Stored(db, p, e) <==> e in entries
    requires forall q, x :: Stored(db, q, x) && NoLater(q, p) && q != p && x.k.user == u ==> s < x.k.seqno
    ensures var r := RunGet(entries, u, s);
            if r.Some? then FindsNewest(All(db), u, s, r) else forall e :: Stored(db, p, e) && e.k.user == u ==> s < e.k.seqno
  {
    RunGetFindsNewest(entries, u, s);
    var r := RunGet(entries, u, s);
    if r.Some? {
      forall q, x | Stored(db, q, x) && NoLater(q, p) && x.k.user == u && x.k.seqno <= s
        ensures x.k.seqno <= r.value.k.seqno
      {
        if q == p {
          assert VersionOf(SetOf(entries), u, s, x);
        }
      }
      FoundIsNewest(db, p, u, s, r.value);
    } else {
      forall e | Stored(db, p, e) && e.k.user == u
        ensures s < e.k.seqno
      {
        assert !VersionOf(SetOf(entries), u, s, e);
      }
    }
  }

  lemma FilePlace(db: Db, l: nat, f: File)
    requires l < |db.Levels()| && DistinctNumbers(db.Levels()[l]) && f in db.Levels()[l]
    ensures forall e :: Stored(db, Place(l, f.number), e) <==> e in f.entries
  {
  }

  /** Searching the remaining candidates in order of falling number. */
  lemma {:induction false} Level0Search(db: Db, files: seq<File>, u: UserKey, s: nat)
    requires NewerAbove(db) && Readable(db, s) && LevelsInOrder(db.Levels())
    requires ByNumber(files) && forall f :: f in files ==> f in db.Levels()[0]
    requires forall q, x :: Stored(db, q, x) && q.level <= 0 && x.k.user == u && x.k.seqno <= s ==>
               q.level == 0 && exists f :: f in files && f.number == q.number
    ensures var r := FilesGet(files, u, s);
            if r.Some? then FindsNewest(All(db), u, s, r)
            else forall q, x :: Stored(db, q, x) && q.level <= 0 && x.k.user == u ==> s < x.k.seqno
  {
    if files != [] {
      var f := files[0];
      var p := Place(0, f.number);
      assert f in db.Levels()[0];
      assert ValidFile(f);
      FilePlace(db, 0, f);
      forall q, x | Stored(db, q, x) && NoLater(q, p) && q != p && x.k.user == u
        ensures s < x.k.seqno
      {
        assert forall g :: g in files ==> g.number <= f.number;
      }
      RunAtPlace(db, f.entries, p, u, s);
      if RunGet(f.entries, u, s).None? {
        forall q, x | Stored(db, q, x) && q.level <= 0 && x.k.user == u && x.k.seqno <= s
          ensures q.level == 0 && exists g :: g in files[1..] && g.number == q.number
        {
          var g :| g in files && g.number == q.number;
          assert q.level == 0;
          assert q == p ==> false;
          var i :| 0 <= i < |files| && files[i] == g;
          assert files[1..][i - 1] == g;
        }
        Level0Search(db, files[1..], u, s);
      }
    }
  }

  lemma LevelPlace(db: Db, l: nat, e: Entry)
    requires l < |db.Levels()|
    ensures e in EntriesOf(db.Levels()[l]) <==> exists q: Place :: q.level == l && Stored(db, q, e)
  {
    if e in EntriesOf(db.Levels()[l]) {
      var f :| f in db.Levels()[l] && e in f.entries;
      assert Stored(db, Place(l, f.number), e);
    }
  }

  /** Nothing visible is stored above level `l`. */
  ghost predicate NothingAbove(db: Db, l: int, u: UserKey, s: nat) {
    forall q, x :: Stored(db, q, x) && q.level < l && x.k.user == u ==> s < x.k.seqno
  }

  /** The search of `u` at `s` comes to level `l` and passes by the versions it should find there. */
  ghost predicate PassesBy(db: Db, l: nat, u: UserKey, s: nat) {
    1 <= l < |db.Levels()| && NothingAbove(db, l, u, s) && Splits(db.Levels()[l], u, s)
  }

  ghost predicate PassesBySome(db: Db, u: UserKey, s: nat) {
    exists l :: 1 <= l < |db.Levels()| && PassesBy(db, l, u, s)
  }

  lemma LevelMembers(db: Db, l: nat, u: UserKey, s: nat, r: Option<Entry>)
    requires NewerAbove(db) && Readable(db, s) && LevelsInOrder(db.Levels())
    requires 1 <= l < NUM_LEVELS && NothingAbove(db, l, u, s)
    requires FindsNewest(EntriesOf(db.Levels()[l]), u, s, r)
    ensures if r.Some? then FindsNewest(All(db), u, s, r) else NothingAbove(db, l + 1, u, s)
  {
    var files := db.Levels()[l];
    forall q, x | Stored(db, q, x) && q.level == l
      ensures x in EntriesOf(files)
    {
      LevelPlace(db, l, x);
    }
    if r.Some? {
      LevelPlace(db, l, r.value);
      var p: Place :| p.level == l && Stored(db, p, r.value);
      forall q, x | Stored(db, q, x) && NoLater(q, p) && x.k.user == u && x.k.seqno <= s
        ensures x.k.seqno <= r.value.k.seqno
      {
        assert q.level == l;
        assert VersionOf(EntriesOf(files), u, s, x);
      }
      FoundIsNewest(db, p, u, s, r.value);
    } else {
      forall q, x | Stored(db, q, x) && q.level < l + 1 && x.k.user == u
        ensures s < x.k.seqno
      {
        if q.level == l {
          assert !VersionOf(EntriesOf(files), u, s, x);
        }
      }
    }
  }

  lemma {:induction false} LevelSearch(db: Db, l: nat, u: UserKey, s: nat)
    requires NewerAbove(db) && Readable(db, s) && LevelsInOrder(db.Levels()) && !PassesBySome(db, u, s)
    requires 1 <= l && NothingAbove(db, l, u, s)
    ensures FindsNewest(All(db), u, s, LevelsGet(db.Levels(), l, u, s))
    decreases NUM_LEVELS - l
  {
    hide NewerAbove, Readable, NothingAbove, Splits, FindsNewest;
    if l < NUM_LEVELS {
      assert !PassesBy(db, l, u, s);
      LevelGetCorrectIff(db.Levels()[l], u, s);
      LevelMembers(db, l, u, s, LevelGet(db.Levels()[l], u, s));
      if LevelGet(db.Levels()[l], u, s).None? {
        LevelSearch(db, l + 1, u, s);
      }
    } else {
      NothingAnywhere(db, l, u, s);
    }
  }

  lemma NothingAnywhere(db: Db, l: nat, u: UserKey, s: nat)
    requires |db.Levels()| <= l && NothingAbove(db, l, u, s)
    ensures FindsNewest(All(db), u, s, None)
  {
    forall e
      ensures !VersionOf(All(db), u, s, e)
    {
      AllStored(db, e);
    }
  }

  lemma VersionSearch(db: Db, u: UserKey, s: nat)
    requires NewerAbove(db) && Readable(db, s) && LevelsInOrder(db.Levels()) && !PassesBySome(db, u, s)
    requires NothingAbove(db, 0, u, s)
    ensures FindsNewest(All(db), u, s, VersionGet(db.Levels(), u, s))
  {
    hide PassesBySome;
    var files := NewestFirst(Candidates(db.Levels()[0], u));
    NewestFirstProperties(Candidates(db.Levels()[0], u));
    forall f
      ensures f in files <==> f in db.Levels()[0] && MayContain(f, u)
    {
      CandidatesMembers(db.Levels()[0], u, f);
    }
    forall q, x | Stored(db, q, x) && q.level <= 0 && x.k.user == u && x.k.seqno <= s
      ensures q.level == 0 && exists f :: f in files && f.number == q.number
    {
      assert q.level == 0;
      var f :| f in db.Levels()[0] && f.number == q.number && x in f.entries;
      BoundsOf(f, x);
    }
    hide MayContain;
    Level0Search(db, files, u, s);
    if FilesGet(files, u, s).None? {
      assert NothingAbove(db, 1, u, s);
      LevelSearch(db, 1, u, s);
    }
  }

  /** In every state that keeps the invariant, Get at a readable sequence finds the newest visible version over
      everything stored, unless the search passes a level by whose files split the visible versions. */
  lemma GetFindsNewest(db: Db, u: UserKey, s: nat)
    requires Inv(db) && Readable(db, s) && !PassesBySome(db, u, s)
    ensures FindsNewest(All(db), u, s, StoreGet(db, u, s))
  {
    hide SharedOld, LogsCover, ReadsHistory, PendingClosed, Sound, NumbersUnique, NewerAbove, LevelsInOrder, MemoryNewer, Readable,
      PassesBySome;
    RunAtPlace(db, db.mem, MEM, u, s);
    if RunGet(db.mem, u, s).None? {
      RunAtPlace(db, db.imm, IMM, u, s);
      if RunGet(db.imm, u, s).None? {
        assert NothingAbove(db, 0, u, s);
        VersionSearch(db, u, s);
      }
    }
  }

  // ------------------------------------------------------------------ exactly when a lookup fails

  /** With nothing visible above level `l`, the search starts there in effect. */
  lemma SearchComesTo(db: Db, l: nat, u: UserKey, s: nat)
    requires 1 <= l <= |db.Levels()| && NothingAbove(db, l, u, s)
    ensures StoreGet(db, u, s) == LevelsGet(db.Levels(), l, u, s)
  {
    RunGetIsThere(db.mem, u, s);
    RunGetIsThere(db.imm, u, s);
    assert forall e :: (e in db.mem ==> Stored(db, MEM, e)) && (e in db.imm ==> Stored(db, IMM, e));
    var files := NewestFirst(Candidates(db.Levels()[0], u));
    NewestFirstProperties(Candidates(db.Levels()[0], u));
    forall f, e | f in files && e in f.entries && e.k.user == u
      ensures s < e.k.seqno
    {
      CandidatesMembers(db.Levels()[0], u, f);
      assert Stored(db, Place(0, f.number), e);
    }
    NothingInFiles(files, u, s);
    LevelsPassed(db, 1, l, u, s);
  }

  lemma {:induction false} NothingInFiles(files: seq<File>, u: UserKey, s: nat)
    requires forall f, e :: f in files && e in f.entries && e.k.user == u ==> s < e.k.seqno
    ensures FilesGet(files, u, s) == None
  {
    if files != [] {
      RunGetIsThere(files[0].entries, u, s);
      assert files[0] in files;
      NothingInFiles(files[1..], u, s);
    }
  }

  lemma {:induction false} LevelsPassed(db: Db, k: nat, l: nat, u: UserKey, s: nat)
    requires 1 <= k <= l <= |db.Levels()| && NothingAbove(db, l, u, s)
    ensures LevelsGet(db.Levels(), k, u, s) == LevelsGet(db.Levels(), l, u, s)
    decreases l - k
  {
    if k < l {
      var files := db.Levels()[k];
      EndsBeforeSplits(files, u);
      if FileFor(files, u).Some? {
        var f := FileFor(files, u).value;
        assert f in files;
        RunGetIsThere(f.entries, u, s);
        assert forall e :: e in f.entries ==> Stored(db, Place(k, f.number), e);
      }
      LevelsPassed(db, k + 1, l, u, s);
    }
  }

  /** The search of these files finds nothing: none of the versions there is visible, or it passes them by. */
  ghost predicate Silent(files: seq<File>, u: UserKey, s: nat) {
    Splits(files, u, s) || forall e :: !VersionOf(EntriesOf(files), u, s, e)
  }

  /** Level `m` is the first from level `l` on that is not silent. */
  ghost predicate FirstToAnswer(levels: seq<seq<File>>, l: nat, m: nat, u: UserKey, s: nat) {
    l <= m < |levels| && !Silent(levels[m], u, s) && forall k :: l <= k < m ==> Silent(levels[k], u, s)
  }

  /** The first level from `l` on that is not silent holds a copy of `y`.  Such copies are left by a reopen alone. */
  ghost predicate CopyAnswers(levels: seq<seq<File>>, l: nat, u: UserKey, s: nat, y: Entry) {
    exists m: nat :: FirstToAnswer(levels, l, m, u, s) && y in EntriesOf(levels[m])
  }

  /** The newest visible version on the first level from `l` on that is not silent reads like `y`; or all are
      silent and `y` is a deletion. */
  ghost predicate ValueAnswers(levels: seq<seq<File>>, l: nat, u: UserKey, s: nat, y: Entry) {
    || (exists m: nat, x :: FirstToAnswer(levels, l, m, u, s) && Newest(EntriesOf(levels[m]), u, s, x)
                            && ValueOf(Some(x)) == ValueOf(Some(y)))
    || (y.k.kind.Deletion? && forall m :: l <= m < |levels| ==> Silent(levels[m], u, s))
  }

  /** The search passes level `l` by, where `y` is the version it is after. */
  ghost predicate MissesAt(db: Db, l: nat, u: UserKey, s: nat, y: Entry) {
    l < |db.Levels()| && PassesBy(db, l, u, s) && Newest(EntriesOf(db.Levels()[l]), u, s, y)
  }

  /** The search passes a level by, and no copy deeper down makes up for the version it misses there. */
  ghost predicate Loses(db: Db, u: UserKey, s: nat) {
    exists l: nat, y :: MissesAt(db, l, u, s, y) && !CopyAnswers(db.Levels(), l + 1, u, s, y)
  }

  /** The search passes a level by, and what it meets deeper down does not read like the version it misses there. */
  ghost predicate LosesValue(db: Db, u: UserKey, s: nat) {
    exists l: nat, y :: MissesAt(db, l, u, s, y) && !ValueAnswers(db.Levels(), l + 1, u, s, y)
  }

  /** A level gives nothing exactly if it is silent, and else its newest visible version. */
  lemma SilentIff(files: seq<File>, u: UserKey, s: nat)
    requires ValidFiles(files) && Disjoint(files)
    ensures LevelGet(files, u, s).None? <==> Silent(files, u, s)
    ensures !Silent(files, u, s) ==> Newest(EntriesOf(files), u, s, LevelGet(files, u, s).value)
  {
    LevelGetCorrectIff(files, u, s);
    hide Splits, LevelGet, ValidFiles, Disjoint;
  }

  /** The search of the levels gives what the first one gives that is not silent. */
  lemma {:induction false} WhoAnswers(levels: seq<seq<File>>, l: nat, u: UserKey, s: nat) returns (m: nat)
    requires |levels| == NUM_LEVELS && LevelsInOrder(levels) && 1 <= l <= |levels|
    ensures l <= m <= |levels| && forall k :: l <= k < m ==> Silent(levels[k], u, s)
    ensures if m == |levels| then LevelsGet(levels, l, u, s) == None
            else FirstToAnswer(levels, l, m, u, s) && LevelsGet(levels, l, u, s).Some?
                 && Newest(EntriesOf(levels[m]), u, s, LevelsGet(levels, l, u, s).value)
    decreases |levels| - l
  {
    hide Silent, Newest, LevelGet;
    if l == |levels| {
      m := l;
    } else {
      SilentIff(levels[l], u, s);
      if Silent(levels[l], u, s) {
        m := WhoAnswers(levels, l + 1, u, s);
      } else {
        m := l;
      }
    }
  }

  lemma NewestIsOne(S: set<Entry>, u: UserKey, s: nat, x: Entry, y: Entry)
    requires Consistent(S) && Newest(S, u, s, x) && Newest(S, u, s, y)
    ensures x == y
  {
    assert VersionOf(S, u, s, x) && VersionOf(S, u, s, y);
  }

  /** The newest of all that is on a level is the newest there. */
  lemma NewestOnLevel(S: set<Entry>, T: set<Entry>, u: UserKey, s: nat, x: Entry, y: Entry)
    requires Consistent(S) && T <= S && Newest(S, u, s, y) && Newest(T, u, s, x) && y in T
    ensures x == y
  {
    assert VersionOf(T, u, s, y) && VersionOf(S, u, s, x);
  }

  /** The search of the levels gives the newest version of all if and only if a copy of it answers. */
  lemma CopyIsFound(db: Db, l: nat, u: UserKey, s: nat, y: Entry)
    requires |db.Levels()| == NUM_LEVELS && LevelsInOrder(db.Levels()) && 1 <= l <= |db.Levels()|
    requires Consistent(All(db)) && Newest(All(db), u, s, y)
    ensures LevelsGet(db.Levels(), l, u, s) == Some(y) <==> CopyAnswers(db.Levels(), l, u, s, y)
  {
    var m := WhoAnswers(db.Levels(), l, u, s);
    hide FirstToAnswer, LevelsGet, All, LevelsInOrder, EntriesOf, Newest;
    if k: nat :| FirstToAnswer(db.Levels(), l, k, u, s) && y in EntriesOf(db.Levels()[k]) {
      FirstIsLast(db.Levels(), l, m, k, u, s);
      LevelInAll(db, m);
      NewestOnLevel(All(db), EntriesOf(db.Levels()[m]), u, s, LevelsGet(db.Levels(), l, u, s).value, y);
    }
    if m < |db.Levels()| {
      NewestIsThere(EntriesOf(db.Levels()[m]), u, s, LevelsGet(db.Levels(), l, u, s).value);
    }
  }

  lemma FirstIsLast(levels: seq<seq<File>>, l: nat, m: nat, k: nat, u: UserKey, s: nat)
    requires l <= m <= |levels| && FirstToAnswer(levels, l, k, u, s)
    requires forall i :: l <= i < m ==> Silent(levels[i], u, s)
    requires m < |levels| ==> FirstToAnswer(levels, l, m, u, s)
    ensures m == k
  {
    hide Silent;
  }

  lemma NewestIsThere(S: set<Entry>, u: UserKey, s: nat, x: Entry)
    requires Newest(S, u, s, x)
    ensures x in S && x.k.user == u && x.k.seqno <= s
  {
  }

  lemma LevelInAll(db: Db, l: nat)
    requires l < |db.Levels()|
    ensures EntriesOf(db.Levels()[l]) <= All(db)
  {
    forall x | x in EntriesOf(db.Levels()[l])
      ensures x in All(db)
    {
      LevelPlace(db, l, x);
      AllStored(db, x);
    }
  }

  /** The value of what the search of the levels gives is that of `y` if and only if the files say so. */
  lemma ValueIsFound(db: Db, l: nat, u: UserKey, s: nat, y: Entry)
    requires |db.Levels()| == NUM_LEVELS && LevelsInOrder(db.Levels()) && 1 <= l <= |db.Levels()|
    requires Consistent(All(db))
    ensures ValueOf(LevelsGet(db.Levels(), l, u, s)) == ValueOf(Some(y)) <==> ValueAnswers(db.Levels(), l, u, s, y)
  {
    var levels := db.Levels();
    var m := WhoAnswers(levels, l, u, s);
    hide FirstToAnswer, LevelsGet, All, LevelsInOrder, EntriesOf, Newest, Silent;
    if k: nat, x :| FirstToAnswer(levels, l, k, u, s) && Newest(EntriesOf(levels[k]), u, s, x) && ValueOf(Some(x)) == ValueOf(Some(y)) {
      FirstIsLast(levels, l, m, k, u, s);
      LevelInAll(db, m);
      NewestIsOne(EntriesOf(levels[m]), u, s, LevelsGet(levels, l, u, s).value, x);
    }
    if m < |levels| {
      NotAllSilent(levels, l, m, u, s);
    }
  }

  lemma NotAllSilent(levels: seq<seq<File>>, l: nat, m: nat, u: UserKey, s: nat)
    requires FirstToAnswer(levels, l, m, u, s)
    ensures !Silent(levels[m], u, s)
  {
  }

  /** What a search that misses `y` returns is what the deeper levels give, and `y` is the newest of all. */
  lemma MissedIs(db: Db, l: nat, u: UserKey, s: nat, y: Entry)
    requires Inv(db) && Readable(db, s) && MissesAt(db, l, u, s, y)
    ensures 1 <= l < |db.Levels()| == NUM_LEVELS && LevelsInOrder(db.Levels())
    ensures Newest(All(db), u, s, y) && StoreGet(db, u, s) == LevelsGet(db.Levels(), l + 1, u, s)
  {
    hide Inv, Readable, NothingAbove, Splits, StoreGet;
    ReadablePlaces(db);
    SearchComesTo(db, l, u, s);
    LevelGetCorrectIff(db.Levels()[l], u, s);
    LevelVisible(db, l, u, s, y, Some(y));
  }

  /** A search that passes a level by misses one version. */
  lemma PassedMisses(db: Db, l: nat, u: UserKey, s: nat) returns (y: Entry)
    requires Inv(db) && l < |db.Levels()| && PassesBy(db, l, u, s)
    ensures MissesAt(db, l, u, s, y)
  {
    ReadablePlaces(db);
    hide Inv, Splits, NothingAbove;
    LevelGetCorrectIff(db.Levels()[l], u, s);
    var e :| VersionOf(EntriesOf(db.Levels()[l]), u, s, e);
    y := NewestOf(EntriesOf(db.Levels()[l]), u, s, e);
  }

  lemma MissesOnce(db: Db, l: nat, y: Entry, k: nat, x: Entry, u: UserKey, s: nat)
    requires Inv(db) && Readable(db, s) && MissesAt(db, l, u, s, y) && MissesAt(db, k, u, s, x)
    ensures k == l && x == y
  {
    MissedIs(db, l, u, s, y);
    MissedIs(db, k, u, s, x);
    AllConsistent(db);
    hide Inv, Readable, PassesBy, All, Newest;
    NewestIsOne(All(db), u, s, x, y);
    PassesByOnce(db, k, l, u, s);
    PassesByOnce(db, l, k, u, s);
  }

  /** Get at a readable sequence finds the newest visible version if and only if it does not lose it so. */
  lemma GetCorrectIff(db: Db, u: UserKey, s: nat)
    requires Inv(db) && Readable(db, s)
    ensures FindsNewest(All(db), u, s, StoreGet(db, u, s)) <==> !Loses(db, u, s)
  {
    hide FindsNewest, StoreGet, LevelsGet, Inv, Readable, All, PassesBy, MissesAt, CopyAnswers, LevelsInOrder;
    ReadablePlaces(db);
    if PassesBySome(db, u, s) {
      var l: nat :| 1 <= l < |db.Levels()| && PassesBy(db, l, u, s);
      var y := PassedMisses(db, l, u, s);
      MissedIff(db, l, u, s, y);
      forall k: nat, x | MissesAt(db, k, u, s, x)
        ensures k == l && x == y
      {
        MissesOnce(db, l, y, k, x, u, s);
      }
    } else {
      GetFindsNewest(db, u, s);
      NoneMissed(db, u, s);
    }
  }

  lemma NoneMissed(db: Db, u: UserKey, s: nat)
    requires !PassesBySome(db, u, s)
    ensures forall l: nat, y :: !MissesAt(db, l, u, s, y)
  {
    hide NothingAbove, Splits;
  }

  lemma MissedIff(db: Db, l: nat, u: UserKey, s: nat, y: Entry)
    requires Inv(db) && Readable(db, s) && MissesAt(db, l, u, s, y) && l < |db.Levels()|
    ensures FindsNewest(All(db), u, s, StoreGet(db, u, s)) <==> CopyAnswers(db.Levels(), l + 1, u, s, y)
  {
    MissedIs(db, l, u, s, y);
    AllConsistent(db);
    hide Inv, Readable, MissesAt, StoreGet, LevelsGet, All, CopyAnswers, LevelsInOrder;
    CopyIsFound(db, l + 1, u, s, y);
    assert VersionOf(All(db), u, s, y);
    if x :| StoreGet(db, u, s) == Some(x) && Newest(All(db), u, s, x) {
      NewestIsOne(All(db), u, s, x, y);
    }
  }

  lemma ReadablePlaces(db: Db)
    requires Inv(db)
    ensures |db.Levels()| == NUM_LEVELS && LevelsInOrder(db.Levels())
  {
    hide SharedOld, LogsCover, ReadsHistory, PendingClosed, Sound, NumbersUnique, NewerAbove, MemoryFresh, OnlyHistory;
  }

  lemma PassesByOnce(db: Db, k: nat, l: nat, u: UserKey, s: nat)
    requires PassesBy(db, k, u, s) && PassesBy(db, l, u, s)
    ensures k >= l
  {
    var i :| 0 < i < |db.Levels()[k]| && Straddles(db.Levels()[k], i, u, s);
    var f := db.Levels()[k][i];
    assert f in db.Levels()[k];
    var e :| e in f.entries && e.k.user == u && e.k.seqno <= s;
    assert Stored(db, Place(k, f.number), e);
  }

  /** If a level has visible versions and no level above has, the newest of them is the newest of all. */
  lemma LevelVisible(db: Db, l: nat, u: UserKey, s: nat, e: Entry, r: Option<Entry>)
    requires Inv(db) && Readable(db, s) && 1 <= l < NUM_LEVELS && NothingAbove(db, l, u, s)
    requires VersionOf(EntriesOf(db.Levels()[l]), u, s, e)
    ensures FindsNewest(All(db), u, s, r) <==> FindsNewest(EntriesOf(db.Levels()[l]), u, s, r)
  {
    hide SharedOld, LogsCover, ReadsHistory, PendingClosed, Sound, NumbersUnique, NewerAbove, MemoryFresh, Readable;
    var files := db.Levels()[l];
    forall x | x in EntriesOf(files)
      ensures x in All(db)
    {
      LevelPlace(db, l, x);
      AllStored(db, x);
    }
    HistoryConsistent(db);
    var y := NewestOf(EntriesOf(files), u, s, e);
    LevelMembers(db, l, u, s, Some(y));
  }

  /** Among visible versions there is a newest. */
  lemma {:induction false} NewestOf(S: set<Entry>, u: UserKey, s: nat, e: Entry) returns (y: Entry)
    requires VersionOf(S, u, s, e)
    ensures Newest(S, u, s, y)
    decreases s - e.k.seqno
  {
    if x :| VersionOf(S, u, s, x) && e.k.seqno < x.k.seqno {
      y := NewestOf(S, u, s, x);
    } else {
      y := e;
    }
  }

  /** No version is newer than the last sequence, so a read there never loses anything. */
  lemma NothingLostAtLast(db: Db, u: UserKey)
    requires Inv(db)
    ensures !PassesBySome(db, u, db.last)
  {
    hide SharedOld, LogsCover, ReadsHistory, PendingClosed, Sound, NumbersUnique, NewerAbove, MemoryFresh;
    if l :| 1 <= l < |db.Levels()| && PassesBy(db, l, u, db.last) {
      var files := db.Levels()[l];
      var i :| 0 < i < |files| && Straddles(files, i, u, db.last);
      var f := files[i - 1];
      assert f in files && ValidFile(f);
      var last := f.entries[|f.entries| - 1];
      assert last in f.entries && Stored(db, Place(l, f.number), last);
      StoredIsHistory(db, Place(l, f.number), last);
    }
  }

  /** `y` is stored at one place only. */
  ghost predicate StoredOnce(db: Db, y: Entry) {
    forall p, q :: Stored(db, p, y) && Stored(db, q, y) ==> p == q
  }

  /** Only a version that a reopen has stored twice can be found after it was missed: if the one sought is newer
      than the last reopen, or stored once, passing a level by is losing. */
  lemma LosesIfStoredOnce(db: Db, u: UserKey, s: nat)
    requires Inv(db) && Readable(db, s)
    requires forall y :: Newest(All(db), u, s, y) ==> db.reopenedAt < y.k.seqno || StoredOnce(db, y)
    ensures Loses(db, u, s) <==> PassesBySome(db, u, s)
  {
    hide Inv, Readable, PassesBy, StoredOnce, All, MissesAt, CopyAnswers;
    if l: nat :| 1 <= l < |db.Levels()| && PassesBy(db, l, u, s) {
      var y := PassedMisses(db, l, u, s);
      MissedIs(db, l, u, s, y);
      if CopyAnswers(db.Levels(), l + 1, u, s, y) {
        StoredTwice(db, l, u, s, y);
      }
    } else {
      NoneMissed(db, u, s);
    }
  }

  lemma StoredTwice(db: Db, l: nat, u: UserKey, s: nat, y: Entry)
    requires Inv(db) && MissesAt(db, l, u, s, y) && CopyAnswers(db.Levels(), l + 1, u, s, y)
    ensures !StoredOnce(db, y) && y.k.seqno <= db.reopenedAt
  {
    assert SharedOld(db);
    hide Inv, FirstToAnswer, PassesBy, Stored;
    var m: nat :| FirstToAnswer(db.Levels(), l + 1, m, u, s) && y in EntriesOf(db.Levels()[m]);
    FirstInRange(db.Levels(), l + 1, m, u, s);
    LevelPlace(db, l, y);
    LevelPlace(db, m, y);
  }

  lemma FirstInRange(levels: seq<seq<File>>, l: nat, m: nat, u: UserKey, s: nat)
    requires FirstToAnswer(levels, l, m, u, s)
    ensures l <= m < |levels|
  {
  }

  /** The value Get reports is the one a brute-force read of everything stored yields, if and only if no value
      is lost: a deletion missed may still read as one. */
  lemma GetAgreesIff(db: Db, u: UserKey, s: nat)
    requires Inv(db) && Readable(db, s)
    ensures ValueOf(StoreGet(db, u, s)) == Read(All(db), u, s) <==> !LosesValue(db, u, s)
  {
    hide StoreGet, LevelsGet, Inv, Readable, All, PassesBy, MissesAt, ValueAnswers, LevelsInOrder, Read, ValueOf, FindsNewest;
    ReadablePlaces(db);
    if PassesBySome(db, u, s) {
      var l: nat :| 1 <= l < |db.Levels()| && PassesBy(db, l, u, s);
      var y := PassedMisses(db, l, u, s);
      MissedValueIff(db, l, u, s, y);
      forall k: nat, x | MissesAt(db, k, u, s, x)
        ensures k == l && x == y
      {
        MissesOnce(db, l, y, k, x, u, s);
      }
    } else {
      GetFindsNewest(db, u, s);
      FoundIsRead(db, u, s);
      NoneMissed(db, u, s);
    }
  }

  lemma MissedValueIff(db: Db, l: nat, u: UserKey, s: nat, y: Entry)
    requires Inv(db) && Readable(db, s) && MissesAt(db, l, u, s, y) && l < |db.Levels()|
    ensures ValueOf(StoreGet(db, u, s)) == Read(All(db), u, s) <==> ValueAnswers(db.Levels(), l + 1, u, s, y)
  {
    MissedIs(db, l, u, s, y);
    AllConsistent(db);
    hide Inv, Readable, MissesAt, StoreGet, LevelsGet, All, ValueAnswers, LevelsInOrder, Read, Newest;
    ValueIsFound(db, l + 1, u, s, y);
    ReadNewest(All(db), u, s, y);
  }

  lemma FoundIsRead(db: Db, u: UserKey, s: nat)
    requires Inv(db) && FindsNewest(All(db), u, s, StoreGet(db, u, s))
    ensures ValueOf(StoreGet(db, u, s)) == Read(All(db), u, s)
  {
    AllConsistent(db);
    hide Inv, All, Read, Newest;
    match StoreGet(db, u, s)
    case None => ReadAbsent(All(db), u, s);
    case Some(e) => ReadNewest(All(db), u, s, e);
  }

  /** In particular it is if the version sought is not lost. */
  lemma GetAgreesWithRead(db: Db, u: UserKey, s: nat)
    requires Inv(db) && Readable(db, s) && !Loses(db, u, s)
    ensures ValueOf(StoreGet(db, u, s)) == Read(All(db), u, s) && !LosesValue(db, u, s)
  {
    hide Inv, Readable, Loses, LosesValue, FindsNewest, StoreGet, Read;
    GetCorrectIff(db, u, s);
    FoundIsRead(db, u, s);
    GetAgreesIff(db, u, s);
  }
}

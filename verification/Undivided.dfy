/** Stores in which no level divides a user key between files, so that Get is right at every snapshot: those whose
    compactions, with inputs as SetupOtherInputs chooses them (db/version_set.cc), were only ever picked while no
    snapshot older than the last sequence was live. */
module Undivided {
  import opened Keys
  import opened Files
  import opened Versions
  import opened CompactionWork
  import opened InputSelection
  import opened Engine
  import opened Invariants
  import opened SafetyFlush
  import opened SafetyRewrite
  import opened SafetyCompaction
  import opened SafetyReopen
  import opened Safety
  import opened PointLookup
  import opened ReadPaths

  /** No two files hold versions of one user key. */
  ghost predicate KeysApart(files: seq<File>) {
    forall f, g :: f in files && g in files && f != g ==> NoSharedKey(f, g)
  }

  ghost predicate LevelsApart(levels: seq<seq<File>>) {
    forall l :: 1 <= l < |levels| ==> KeysApart(levels[l])
  }

  lemma ApartNeverSplits(files: seq<File>, u: UserKey, s: nat)
    requires ValidFiles(files) && Disjoint(files) && KeysApart(files)
    ensures !Splits(files, u, s)
  {
    if i :| 0 < i < |files| && Straddles(files, i, u, s) {
      var e :| e in files[i].entries && e.k.user == u && e.k.seqno <= s;
      var last := files[i - 1].entries[|files[i - 1].entries| - 1];
      assert last in files[i - 1].entries;
      NeighboursApart(files, i);
    }
  }

  lemma NeighboursApart(files: seq<File>, i: nat)
    requires ValidFiles(files) && Disjoint(files) && KeysApart(files) && 0 < i < |files|
    ensures NoSharedKey(files[i - 1], files[i])
  {
    BoundsInOrder(files[i]);
    assert Less(files[i - 1].largest, files[i].smallest);
  }

  // ------------------------------------------------------------------ one version per key

  ghost predicate OnePerKey(s: seq<Entry>) {
    forall i, j :: 0 <= i < j < |s| ==> s[i].k.user != s[j].k.user
  }

  /** A merge whose smallest snapshot is not below its input keeps one version of each key. */
  lemma {:induction false} KeptOnePerKey(input: seq<Entry>, n: nat, p: nat, deeper: seq<seq<File>>)
    requires WeaklySorted(input) && n <= |input| && forall e :: e in input ==> e.k.seqno <= p
    ensures OnePerKey(Kept(input, n, p, deeper))
  {
    if n > 0 {
      KeptOnePerKey(input, n - 1, p, deeper);
      if !Dropped(input, n - 1, p, deeper) {
        var before := Kept(input, n - 1, p, deeper);
        forall i | 0 <= i < |before|
          ensures before[i].k.user != input[n - 1].k.user
        {
          KeptMembers(input, n - 1, p, deeper, before[i]);
          var j :| 0 <= j < n - 1 && input[j] == before[i] && !Dropped(input, j, p, deeper);
          OlderIsDropped(input, j, n - 1, p, deeper);
        }
      }
    }
  }

  ghost predicate UsersDiffer(s: seq<Entry>, t: seq<Entry>) {
    forall e, f :: e in s && f in t ==> e.k.user != f.k.user
  }

  lemma OnePerKeyHalves(s: seq<Entry>, t: seq<Entry>)
    requires OnePerKey(s + t)
    ensures OnePerKey(s) && UsersDiffer(s, t)
  {
    var both := s + t;
    assert forall i :: 0 <= i < |s| ==> s[i] == both[i];
    assert forall i :: 0 <= i < |t| ==> t[i] == both[|s| + i];
  }

  lemma {:induction false} OutputsDiffer(outputs: seq<Output>)
    requires OnePerKey(Concat(outputs))
    ensures forall i, j :: 0 <= i < j < |outputs| ==> UsersDiffer(outputs[i].entries, outputs[j].entries)
  {
    hide OnePerKey, UsersDiffer;
    if outputs != [] {
      var n := |outputs| - 1;
      OnePerKeyHalves(Concat(outputs[..n]), outputs[n].entries);
      OutputsDiffer(outputs[..n]);
      forall i, j | 0 <= i < j < |outputs|
        ensures UsersDiffer(outputs[i].entries, outputs[j].entries)
      {
        assert outputs[..n][i] == outputs[i];
        if j < n {
          assert outputs[..n][j] == outputs[j];
        } else {
          PieceDiffers(outputs[..n], i, outputs[n].entries);
        }
      }
    }
  }

  lemma PieceDiffers(outputs: seq<Output>, i: nat, t: seq<Entry>)
    requires i < |outputs| && UsersDiffer(Concat(outputs), t)
    ensures UsersDiffer(outputs[i].entries, t)
  {
    forall e | e in outputs[i].entries
      ensures e in Concat(outputs)
    {
      ConcatMembers(outputs, e);
    }
  }

  lemma {:induction false} OutputsApart(outputs: seq<Output>, sizes: seq<nat>, number: nat)
    requires |sizes| == |outputs| && OnePerKey(Concat(outputs))
    ensures KeysApart(OutputFiles(outputs, sizes, number))
  {
    OutputsDiffer(outputs);
    var files := OutputFiles(outputs, sizes, number);
    assert forall i :: 0 <= i < |files| ==> files[i].entries == outputs[i].entries;
    hide OutputFiles, OnePerKey;
    forall f, g | f in files && g in files && f != g
      ensures NoSharedKey(f, g)
    {
      var i: nat :| i < |files| && files[i] == f;
      var j: nat :| j < |files| && files[j] == g;
      assert UsersDiffer(outputs[if i < j then i else j].entries, outputs[if i < j then j else i].entries);
    }
  }

  // ------------------------------------------------------------------ rewriting two levels

  lemma RestAndOutput(levels: seq<seq<File>>, level: nat, a: seq<File>, b: seq<File>, outs: seq<File>, f: File, g: File)
    requires level + 1 < |levels| && ClosedSelection(levels, level, a, b) && ClearBelow(levels[level + 1], a, b)
    requires KeysApart(levels[level + 1]) && forall e :: InFiles(outs, e) ==> InFiles(a + b, e)
    requires f in levels[level + 1] && f !in b && g in outs
    ensures NoSharedKey(f, g)
  {
    forall x, y | x in f.entries && y in g.entries
      ensures x.k.user != y.k.user
    {
      assert InFiles(outs, y);
      var h :| h in a + b && y in h.entries;
      assert NoSharedKey(f, h);
    }
  }

  lemma RewriteKeepsApart(levels: seq<seq<File>>, levels': seq<seq<File>>, level: nat, a: seq<File>, b: seq<File>, outs: seq<File>)
    requires LevelsRewritten(levels, levels', level, a, b, outs)
    requires ClosedSelection(levels, level, a, b) && ClearBelow(levels[level + 1], a, b)
    requires LevelsApart(levels) && KeysApart(outs) && forall e :: InFiles(outs, e) ==> InFiles(a + b, e)
    ensures LevelsApart(levels')
  {
    hide ClosedSelection, ClearBelow, NoSharedKey;
    forall l, f, g | 1 <= l < |levels'| && f in levels'[l] && g in levels'[l] && f != g
      ensures NoSharedKey(f, g)
    {
      assert KeysApart(levels[l]);
      if l == level + 1 {
        var fOut, gOut := !(f in levels[l] && f !in b), !(g in levels[l] && g !in b);
        if !fOut && gOut {
          RestAndOutput(levels, level, a, b, outs, f, g);
        } else if fOut && !gOut {
          RestAndOutput(levels, level, a, b, outs, g, f);
          SharedBothWays(g, f);
        }
      }
    }
  }

  lemma SharedBothWays(f: File, g: File)
    requires NoSharedKey(f, g)
    ensures NoSharedKey(g, f)
  {
  }

  // ------------------------------------------------------------------ runs

  /** The picks that divide no key: inputs clear of what stays below, and no old snapshot. */
  ghost predicate Quiet(db: Db, ev: Event) {
    match ev
    case Move(level, file, pointer) => level + 1 < |db.Levels()| && ClearBelow(db.Levels()[level + 1], [file], [])
    case Pick(level, a, b, s, pointer) =>
      level + 1 < |db.Levels()| && ClearBelow(db.Levels()[level + 1], a, b) && forall t :: t in db.snapshots ==> db.last <= t
    case _ => true
  }

  ghost predicate ReachesQuietly(events: seq<Event>, db: Db) {
    if events == [] then db == EMPTY
    else
      var n := |events| - 1;
      exists before :: (&& ReachesQuietly(events[..n], before) && Enabled(before, events[n]) && Quiet(before, events[n])
                        && db == After(before, events[n]))
  }

  lemma {:induction false} QuietIsReached(events: seq<Event>, db: Db)
    requires ReachesQuietly(events, db)
    ensures Reaches(events, db)
  {
    hide Enabled, After, Quiet;
    if events != [] {
      var n := |events| - 1;
      var before :| ReachesQuietly(events[..n], before) && Enabled(before, events[n]) && Quiet(before, events[n])
                    && db == After(before, events[n]);
      QuietIsReached(events[..n], before);
    }
  }

  lemma QuietGrows(events: seq<Event>, db: Db, ev: Event)
    requires ReachesQuietly(events, db) && Enabled(db, ev) && Quiet(db, ev)
    ensures ReachesQuietly(events + [ev], After(db, ev))
  {
    hide Enabled, After, Quiet;
    assert (events + [ev])[..|events|] == events;
    assert (events + [ev])[|events|] == ev;
  }

  /** The compaction in flight will leave one version of each key, all apart from what stays below. */
  ghost predicate PendingApart(db: Db) {
    db.pending.Some? ==>
      var p := db.pending.value;
      && p.level + 1 < |db.Levels()| && ClearBelow(db.Levels()[p.level + 1], p.a, p.b)
      && forall e :: InFiles(p.a + p.b, e) ==> e.k.seqno <= p.smallestSnapshot
  }

  ghost predicate Apart(db: Db) {
    LevelsApart(db.Levels()) && PendingApart(db)
  }

  lemma ApartBelowZero(db: Db, db': Db)
    requires Apart(db) && |db.Levels()| == |db'.Levels()|
    requires forall l :: 1 <= l < |db.Levels()| ==> db'.Levels()[l] == db.Levels()[l]
    requires db'.pending == None || db'.pending == db.pending
    ensures Apart(db')
  {
  }

  lemma PickStaysApart(db: Db, level: nat, a: seq<File>, b: seq<File>, s: nat, pointer: InternalKey)
    requires Inv(db) && Apart(db) && Enabled(db, Pick(level, a, b, s, pointer)) && Quiet(db, Pick(level, a, b, s, pointer))
    ensures Apart(PickStep(db, level, a, b, s, pointer))
  {
    hide NewerAbove, SharedOld, LogsCover, ReadsHistory, PendingClosed, Sound, NumbersUnique, LevelsInOrder, MemoryFresh, LevelsApart, ClearBelow;
    forall e | InFiles(a + b, e)
      ensures e.k.seqno <= s
    {
      var f :| f in a + b && e in f.entries;
      var l := if f in a then level else level + 1;
      assert f in db.Levels()[l];
      assert Stored(db, Place(l, f.number), e);
      StoredIsHistory(db, Place(l, f.number), e);
    }
  }

  lemma MoveStaysApart(db: Db, level: nat, file: File, pointer: InternalKey)
    requires Inv(db) && Apart(db) && Enabled(db, Move(level, file, pointer)) && Quiet(db, Move(level, file, pointer))
    ensures Apart(MoveStep(db, level, file, pointer))
  {
    hide NewerAbove, SharedOld, LogsCover, ReadsHistory, PendingClosed, Sound, NumbersUnique, LevelsInOrder, MemoryFresh, LevelsApart,
      ClearBelow, MoveStep, LevelsRewritten;
    assert file in [file];
    MoveIsRewrite(db, level, file, pointer);
    OneFileApart(file);
    RewriteKeepsApart(db.Levels(), MoveStep(db, level, file, pointer).Levels(), level, [file], [], [file]);
  }

  lemma OneFileApart(file: File)
    ensures KeysApart([file])
    ensures forall e :: InFiles([file], e) ==> InFiles([file] + [], e)
  {
    assert [file] + [] == [file];
  }

  lemma InstallStaysApart(db: Db, outputs: seq<Output>, sizes: seq<nat>)
    requires Installs(db, outputs, sizes) && Apart(db)
    ensures Apart(InstallStep(db, outputs, sizes))
  {
    hide Inv, ClosedSelection, Sound, NumbersUnique, InstallStep, LevelsRewritten, LevelsApart, ClearBelow, OutputFiles, WeaklySorted,
      ProperOutputs, NumbersFrom, Installs, Kept, Disjoint;
    KeptIsOutputs(db, outputs, sizes);
    var p, files := db.pending.value, OutputFiles(outputs, sizes, db.vs.core.nextFile);
    PendingParts(db);
    InstallOutputs(db, outputs, sizes);
    InstallIsRewrite(db, p, outputs, sizes);
    InstalledApart(db, p, outputs, sizes);
    OutputsFromInputs(db, p, files);
    InstalledLevels(db, InstallStep(db, outputs, sizes), p, files);
  }

  lemma InstalledLevels(db: Db, db': Db, p: Pending, files: seq<File>)
    requires Rewritten(db, db', p.level, p.a, p.b, files) && db.pending == Some(p) && Apart(db)
    requires ClosedSelection(db.Levels(), p.level, p.a, p.b) && KeysApart(files)
    requires forall e :: InFiles(files, e) ==> InFiles(p.a + p.b, e)
    ensures Apart(db')
  {
    hide ClosedSelection, LevelsRewritten, LevelsApart, ClearBelow, KeysApart;
    RewriteKeepsApart(db.Levels(), db'.Levels(), p.level, p.a, p.b, files);
  }

  lemma KeptIsOutputs(db: Db, outputs: seq<Output>, sizes: seq<nat>)
    requires Installs(db, outputs, sizes)
    ensures |sizes| == |outputs| && db.pending.Some? && Inv(db)
    ensures var p := db.pending.value; Concat(outputs) == Kept(Input(p), |Input(p)|, p.smallestSnapshot, p.deeper)
  {
    hide Inv;
  }

  lemma OutputsFromInputs(db: Db, p: Pending, files: seq<File>)
    requires ProperOutputs(db, p.level, p.a, p.b, files)
    ensures forall e :: InFiles(files, e) ==> InFiles(p.a + p.b, e)
  {
  }

  lemma InstalledApart(db: Db, p: Pending, outputs: seq<Output>, sizes: seq<nat>)
    requires db.pending == Some(p) && PendingApart(db) && |sizes| == |outputs| && WeaklySorted(Input(p))
    requires Concat(outputs) == Kept(Input(p), |Input(p)|, p.smallestSnapshot, p.deeper)
    ensures KeysApart(OutputFiles(outputs, sizes, db.vs.core.nextFile))
  {
    hide KeysApart, ClearBelow;
    forall e | e in Input(p)
      ensures e.k.seqno <= p.smallestSnapshot
    {
      Runs.MergeRunsMembers(p.a + p.b, e);
    }
    KeptOnePerKey(Input(p), |Input(p)|, p.smallestSnapshot, p.deeper);
    OutputsApart(outputs, sizes, db.vs.core.nextFile);
  }

  lemma FlushStaysApart(db: Db, size: nat)
    requires Inv(db) && Apart(db) && Enabled(db, Flush(size))
    ensures Apart(FlushStep(db, size))
  {
    FlushIsFlushedDb(db, size);
    hide Inv, FlushStep, Apart;
    ApartBelowZero(db, FlushStep(db, size));
  }

  lemma ReopenStaysApart(db: Db, segments: seq<seq<Entry>>, sizes: seq<nat>, seen: nat)
    requires Inv(db) && Apart(db) && Enabled(db, Reopen(segments, sizes, seen))
    ensures Apart(ReopenStep(db, segments, sizes, seen))
  {
    hide Inv, ReopenStep, Apart;
    var files := ReopenLevels(db, segments, sizes, seen);
    ApartBelowZero(db, ReopenStep(db, segments, sizes, seen));
  }

  lemma StepStaysApart(db: Db, ev: Event)
    requires Inv(db) && Apart(db) && Enabled(db, ev) && Quiet(db, ev)
    ensures Apart(After(db, ev))
  {
    hide Inv, Apart;
    match ev
    case Write(ops) => ApartBelowZero(db, After(db, ev));
    case Freeze => ApartBelowZero(db, After(db, ev));
    case Flush(size) => FlushStaysApart(db, size);
    case Move(level, file, pointer) => MoveStaysApart(db, level, file, pointer);
    case Pick(level, a, b, s, pointer) => PickStaysApart(db, level, a, b, s, pointer);
    case Install(outputs, sizes) =>
      assert Installs(db, outputs, sizes);
      InstallStaysApart(db, outputs, sizes);
    case TakeSnapshot => ApartBelowZero(db, After(db, ev));
    case ReleaseSnapshot(s) => ApartBelowZero(db, After(db, ev));
    case Reopen(segments, sizes, seen) => ReopenStaysApart(db, segments, sizes, seen);
  }

  lemma EmptyIsApart()
    ensures Apart(EMPTY)
  {
    forall l | 0 <= l < NUM_LEVELS
      ensures EMPTY.Levels()[l] == []
    {
      NoFilesAnywhere(l);
    }
  }

  /** A store whose compactions were all picked so never divides a user key between two files of a level from 1
      on. */
  lemma {:induction false} QuietStaysApart(events: seq<Event>, db: Db)
    requires ReachesQuietly(events, db)
    ensures LevelsApart(db.Levels()) && Apart(db)
  {
    hide Enabled, After, Quiet, LevelsApart, PendingApart;
    if events == [] {
      EmptyIsApart();
    } else {
      var n := |events| - 1;
      var before :| ReachesQuietly(events[..n], before) && Enabled(before, events[n]) && Quiet(before, events[n])
                    && db == After(before, events[n]);
      QuietStaysApart(events[..n], before);
      QuietIsReached(events[..n], before);
      ReachableInv(events[..n], before);
      StepStaysApart(before, events[n]);
    }
  }

  /** On such a store Get returns, at the last sequence and at every live snapshot, what the map held then. */
  lemma QuietGetIsTheMap(events: seq<Event>, db: Db, u: UserKey, s: nat)
    requires ReachesQuietly(events, db)
    requires s in db.snapshots || s == db.last
    ensures s <= |Written(events)|
    ensures ValueOf(StoreGet(db, u, s)) == Lookup(MapAfter(Written(events)[..s]), u)
  {
    QuietStaysApart(events, db);
    QuietIsReached(events, db);
    ReachableInv(events, db);
    ReadablePlaces(db);
    hide Inv, Reaches, ReachesQuietly, Written, MapAfter, StoreGet, Splits, KeysApart;
    forall l | 1 <= l < |db.Levels()|
      ensures !Splits(db.Levels()[l], u, s)
    {
      ApartNeverSplits(db.Levels()[l], u, s);
    }
    GetIsTheMap(events, db, u, s);
  }
}

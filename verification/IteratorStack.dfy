/** DBImpl::NewIterator (db/db_impl.cc, Version::AddIterators in db/version_set.cc): the children of the
    merging iterator, and what the whole stack shows. */
module IteratorStack {
  import opened Keys
  import opened Files
  import opened Runs
  import opened Versions
  import opened InputSelection
  import opened Engine
  import opened Invariants
  import opened Safety
  import opened DbIterator
  import opened ReadPaths
  import opened Cursors
  import Merger

  /** A child iterator's run, and where it is stored. */
  datatype Child = Child(place: Place, run: seq<Entry>)

  function FileChildren(files: seq<File>, l: nat): seq<Child> {
    if files == [] then []
    else
      var f := files[|files| - 1];
      FileChildren(files[..|files| - 1], l) + [Child(Place(l, f.number), f.entries)]
  }

  function LevelChildren(levels: seq<seq<File>>, n: nat): seq<Child>
    requires n <= |levels|
  {
    if n == 0 then [] else LevelChildren(levels, n - 1) + FileChildren(levels[n - 1], n - 1)
  }

  /** Memtable, frozen memtable, every table. */
  function Children(db: Db): seq<Child> {
    [Child(MEM, db.mem), Child(IMM, db.imm)] + LevelChildren(db.Levels(), |db.Levels()|)
  }

  function RunsOf(children: seq<Child>): (r: seq<seq<Entry>>)
    ensures |r| == |children|
    ensures forall i :: 0 <= i < |children| ==> r[i] == children[i].run
  {
    if children == [] then [] else RunsOf(children[..|children| - 1]) + [children[|children| - 1].run]
  }

  lemma {:induction false} FileChild(files: seq<File>, l: nat, c: Child)
    ensures c in FileChildren(files, l) <==> exists f :: f in files && c == Child(Place(l, f.number), f.entries)
  {
    if files != [] {
      var n := |files| - 1;
      FileChild(files[..n], l, c);
      assert files == files[..n] + [files[n]];
    }
  }

  lemma {:induction false} LevelChild(levels: seq<seq<File>>, n: nat, c: Child)
    requires n <= |levels|
    ensures c in LevelChildren(levels, n) <==> exists l: nat, f :: l < n && f in levels[l] && c == Child(Place(l, f.number), f.entries)
  {
    if n > 0 {
      LevelChild(levels, n - 1, c);
      FileChild(levels[n - 1], n - 1, c);
    }
  }

  /** A child's entries are stored at its place, and every stored entry is some child's. */
  lemma ChildStored(db: Db, i: nat, e: Entry)
    requires i < |Children(db)| && e in Children(db)[i].run
    ensures Stored(db, Children(db)[i].place, e)
  {
    if i >= 2 {
      var c := Children(db)[i];
      LevelChild(db.Levels(), |db.Levels()|, c);
    }
  }

  lemma StoredInChild(db: Db, e: Entry) returns (i: nat)
    requires e in All(db)
    ensures i < |Children(db)| && e in Children(db)[i].run
  {
    var cs := Children(db);
    if e in db.mem {
      i := 0;
    } else if e in db.imm {
      i := 1;
    } else {
      var l, f :| 0 <= l < |db.Levels()| && f in db.Levels()[l] && e in f.entries;
      var c := Child(Place(l, f.number), f.entries);
      LevelChild(db.Levels(), |db.Levels()|, c);
      var k :| 0 <= k < |LevelChildren(db.Levels(), |db.Levels()|)| && LevelChildren(db.Levels(), |db.Levels()|)[k] == c;
      i := k + 2;
      assert cs[i] == c;
    }
  }

  lemma ChildSorted(db: Db, i: nat)
    requires LevelsInOrder(db.Levels()) && Sorted(db.mem) && Sorted(db.imm) && i < |Children(db)|
    ensures Sorted(Children(db)[i].run)
  {
    hide Disjoint, DistinctNumbers, Sorted;
    if i >= 2 {
      var c := Children(db)[i];
      LevelChild(db.Levels(), |db.Levels()|, c);
      var l: nat, f :| l < |db.Levels()| && f in db.Levels()[l] && c == Child(Place(l, f.number), f.entries);
      assert ValidFiles(db.Levels()[l]);
      assert ValidFile(f);
    }
  }

  lemma ChildrenSorted(db: Db)
    requires Inv(db)
    ensures Merger.AllSorted(RunsOf(Children(db)))
  {
    hide HistoryInOrder, OnlyHistory, NewerAbove, SharedOld, LogsCover, ReadsHistory, PendingClosed, SnapshotsInRange;
    hide Sorted, MemoryNewer, LevelsInOrder, Sound, NumbersUnique, Children;
    forall i | 0 <= i < |Children(db)|
      ensures Sorted(Children(db)[i].run)
    {
      ChildSorted(db, i);
    }
  }

  /** All that is stored, as the merging iterator shows it. */
  ghost function Union(db: Db): seq<Entry> {
    MergeAll(RunsOf(Children(db)))
  }

  /** The union holds exactly the stored versions. */
  lemma UnionMembers(db: Db)
    ensures SetOf(Union(db)) == All(db)
  {
    hide Sorted, Children, All, MergeAll;
    var cs, runs := Children(db), RunsOf(Children(db));
    forall e
      ensures e in Union(db) <==> e in All(db)
    {
      Merger.MergeAllMembers(runs, e);
      if e in Union(db) {
        var i :| 0 <= i < |runs| && e in runs[i];
        ChildStored(db, i, e);
        AllStored(db, e);
      }
      if e in All(db) {
        var i := StoredInChild(db, e);
        assert e in runs[i];
      }
    }
  }

  /** What the iterators need of a reachable state: each child in order, the union in order, and a version
      that a reopen has put into two tables the same in both. */
  lemma UnionIsProper(db: Db)
    requires Inv(db)
    ensures Merger.AllSorted(RunsOf(Children(db))) && Merger.KeysAgree(Union(db)) && Proper(Union(db))
  {
    hide Inv, All, Children, MergeAll, Sorted;
    ChildrenSorted(db);
    Merger.MergeAllInOrder(RunsOf(Children(db)));
    UnionMembers(db);
    AllConsistent(db);
    var data := Union(db);
    forall m, n | 0 <= m < n < |data| && data[m].k == data[n].k
      ensures data[m] == data[n]
    {
      assert data[m] in All(db) && data[n] in All(db) by {
        assert data[m] in SetOf(data) && data[n] in SetOf(data);
      }
    }
  }

  /** In every reachable state the union of all children, which the merging iterator runs over as one
      cursor, shows at a live sequence exactly the map the writes left. */
  lemma StackShowsTheMap(events: seq<Event>, db: Db, s: nat)
    requires Reaches(events, db)
    requires s in db.snapshots || s == db.last
    ensures s <= |Written(events)|
    ensures forall i :: 0 <= i < |Union(db)| && Shown(Union(db), s, i) ==>
              Lookup(MapAfter(Written(events)[..s]), Union(db)[i].k.user) == Some(Union(db)[i].v)
    ensures forall u :: u in MapAfter(Written(events)[..s]) ==>
              exists i :: 0 <= i < |Union(db)| && Union(db)[i].k.user == u && Shown(Union(db), s, i)
    ensures forall i, j :: 0 <= i < j < |Union(db)| && Shown(Union(db), s, i) && Shown(Union(db), s, j) ==>
              Union(db)[i].k.user < Union(db)[j].k.user
  {
    hide Reaches, Inv, All, Written, MapAfter, Lookup, Shown, Union;
    ReachableInv(events, db);
    UnionMembers(db);
    UnionIsProper(db);
    ScanIsTheMap(events, db, Union(db), s);
  }

  /** At the last sequence every stored version is visible, so there an iterator may turn around at will. */
  lemma TurnsFreelyAtLast(events: seq<Event>, db: Db, pos: nat, at: nat)
    requires Reaches(events, db)
    requires at < |Union(db)| && BehindKey(Union(db), db.last, pos, at)
    ensures ResumesAtKey(Union(db), pos, at)
  {
    hide Reaches, Inv, Union, All, BehindKey, ResumesAtKey;
    ReachableInv(events, db);
    UnionMembers(db);
    UnionIsProper(db);
    forall i | 0 <= i < |Union(db)|
      ensures Visible(Union(db)[i], db.last)
    {
      assert Union(db)[i] in SetOf(Union(db));
      WrittenBefore(db, Union(db)[i]);
    }
    TurningIsSafe(Union(db), db.last, pos, at);
  }

  /** No stored version is newer than the last sequence. */
  lemma WrittenBefore(db: Db, e: Entry)
    requires Inv(db) && e in All(db)
    ensures Visible(e, db.last)
  {
    hide NewerAbove, SharedOld, LogsCover, ReadsHistory, PendingClosed, SnapshotsInRange, TablesInOrder, MemoryFresh, All;
    assert e in SetOf(db.history);
    var k: nat :| k < |db.history| && db.history[k] == e;
  }

  // ------------------------------------------------------------------ whole scans

  /** NewMergingIterator over one child for each run. */
  method NewMergingIterator(runs: seq<seq<Entry>>) returns (it: Merger.MergingIterator)
    requires Merger.AllSorted(runs) && Merger.KeysAgree(MergeAll(runs))
    ensures fresh(it) && fresh(it.children) && fresh(Merger.Iters(it.children))
    ensures it.Good() && it.merged == MergeAll(runs)
  {
    hide MergeAll, Merger.KeysAgree, Sorted;
    var wrappers: seq<Merger.IteratorWrapper> := [];
    for i := 0 to |runs|
      invariant |wrappers| == i && fresh(wrappers) && fresh(Merger.Iters(wrappers))
      invariant Merger.Separate(wrappers) && Merger.AllOk(wrappers)
      invariant forall k :: 0 <= k < i ==> wrappers[k].iter.data == runs[k]
    {
      var cursor := new Cursor(runs[i]);
      var wrapper := new Merger.IteratorWrapper(cursor);
      assert forall c :: c in Merger.Iters(wrappers + [wrapper]) ==> c in Merger.Iters(wrappers) || c == cursor;
      wrappers := wrappers + [wrapper];
    }
    it := new Merger.MergingIterator(wrappers, runs);
  }

  /** DBImpl::NewIterator: one child for each memtable and table, merged, seen at a sequence number. */
  method NewDBIterator(db: Db, s: nat) returns (it: DBIter)
    requires Inv(db)
    ensures fresh(it) && fresh(it.iter) && fresh(it.iter.children) && fresh(Merger.Iters(it.iter.children))
    ensures it.Ok() && it.sequence == s && it.iter.merged == Union(db)
  {
    hide Inv, MergeAll, Children, Proper;
    UnionIsProper(db);
    var merging := NewMergingIterator(RunsOf(Children(db)));
    it := new DBIter(merging, s);
  }

  /** VersionSet::MakeInputIterator, read to the end as a compaction does: its input is the merged run of its
      files. */
  method ReadInput(files: seq<File>) returns (input: seq<Entry>)
    requires ValidFiles(files) && Merger.KeysAgree(MergeRuns(files))
    ensures input == MergeRuns(files)
  {
    hide MergeAll, Merger.KeysAgree, Sorted, Merger.MergingIterator.Ok, Merger.MergingIterator.Good, Merger.Iters;
    forall i | 0 <= i < |files|
      ensures Sorted(files[i].entries)
    {
      assert ValidFile(files[i]);
    }
    var it := NewMergingIterator(FileRuns(files));
    it.SeekToFirst();
    it.Presents();
    input := [];
    while it.Valid()
      invariant fresh(it) && fresh(it.children) && fresh(Merger.Iters(it.children))
      invariant it.Ok() && it.direction.Forward? && it.at <= |it.merged| && it.Valid() == (it.at < |it.merged|)
      invariant input == it.merged[..it.at]
      decreases |it.merged| - it.at
    {
      it.Presents();
      input := input + [Entry(it.Key(), it.Value())];
      it.Next();
      it.Presents();
    }
  }

  /** Key and value pairs, the keys strictly ascending, that make up a map. */
  ghost predicate Lists(pairs: seq<(UserKey, Bytes)>, m: map<UserKey, Bytes>) {
    && Ascending(pairs)
    && (forall i :: 0 <= i < |pairs| ==> Lookup(m, pairs[i].0) == Some(pairs[i].1))
    && (forall u :: u in m ==> Listed(pairs, u))
  }

  ghost predicate Listed(pairs: seq<(UserKey, Bytes)>, u: UserKey) {
    exists i :: 0 <= i < |pairs| && pairs[i].0 == u
  }

  /** The shown entries of the positions from `low` up to `high`, in order. */
  ghost function ShownPairs(data: seq<Entry>, s: nat, low: nat, high: nat): seq<(UserKey, Bytes)>
    requires low <= high <= |data|
    decreases high - low
  {
    if low == high then []
    else ShownPairs(data, s, low, high - 1) + if Shown(data, s, high - 1) then [(data[high - 1].k.user, data[high - 1].v)] else []
  }

  lemma {:induction false} NoneShownPairs(data: seq<Entry>, s: nat, low: nat, mid: nat, high: nat)
    requires low <= mid <= high <= |data| && forall j :: mid <= j < high ==> !Shown(data, s, j)
    ensures ShownPairs(data, s, low, high) == ShownPairs(data, s, low, mid)
    decreases high - mid
  {
    if mid < high {
      NoneShownPairs(data, s, low, mid, high - 1);
    }
  }

  lemma {:induction false} ShownPairsSplit(data: seq<Entry>, s: nat, low: nat, mid: nat, high: nat)
    requires low <= mid <= high <= |data|
    ensures ShownPairs(data, s, low, high) == ShownPairs(data, s, low, mid) + ShownPairs(data, s, mid, high)
    decreases high - mid
  {
    if mid < high {
      ShownPairsSplit(data, s, low, mid, high - 1);
    }
  }

  lemma {:induction false} ShownPairsMembers(data: seq<Entry>, s: nat, high: nat, u: UserKey, v: Bytes)
    requires high <= |data|
    ensures (u, v) in ShownPairs(data, s, 0, high) <==>
              exists i :: 0 <= i < high && Shown(data, s, i) && data[i].k.user == u && data[i].v == v
  {
    if high > 0 {
      ShownPairsMembers(data, s, high - 1, u, v);
    }
  }

  ghost predicate Ascending(pairs: seq<(UserKey, Bytes)>) {
    forall i, j :: 0 <= i < j < |pairs| ==> pairs[i].0 < pairs[j].0
  }

  lemma {:induction false} ShownPairsAscend(data: seq<Entry>, s: nat, high: nat)
    requires WeaklySorted(data) && high <= |data|
    ensures Ascending(ShownPairs(data, s, 0, high))
  {
    if high > 0 {
      ShownPairsAscend(data, s, high - 1);
      var ps := ShownPairs(data, s, 0, high - 1);
      if Shown(data, s, high - 1) {
        forall i | 0 <= i < |ps|
          ensures ps[i].0 < data[high - 1].k.user
        {
          ShownPairsMembers(data, s, high - 1, ps[i].0, ps[i].1);
          assert ps[i] in ps && ps[i] == (ps[i].0, ps[i].1);
          var k :| 0 <= k < high - 1 && Shown(data, s, k) && data[k].k.user == ps[i].0;
          ShownAscend(data, s, k, high - 1);
        }
      }
    }
  }

  /** Where the entries behind a position found going back begin. */
  ghost function Beyond(data: seq<Entry>, at: nat): nat {
    if at < |data| then at + 1 else 0
  }

  lemma OneMorePair(data: seq<Entry>, s: nat, at: nat, next: nat)
    requires at < |data| && Shown(data, s, at) && FirstShown(data, s, at + 1, next)
    ensures at < next <= |data|
    ensures ShownPairs(data, s, 0, next) == ShownPairs(data, s, 0, at) + [(data[at].k.user, data[at].v)]
  {
    NoneShownPairs(data, s, 0, at + 1, next);
  }

  lemma OneLessPair(data: seq<Entry>, s: nat, at: nat, next: nat)
    requires at < |data| && Shown(data, s, at) && LastShown(data, s, at, next)
    ensures Beyond(data, next) <= at
    ensures ShownPairs(data, s, Beyond(data, next), |data|) == [(data[at].k.user, data[at].v)] + ShownPairs(data, s, at + 1, |data|)
  {
    var low := Beyond(data, next);
    NoneShownPairs(data, s, low, low, at);
    ShownPairsSplit(data, s, low, at, |data|);
    ShownPairsSplit(data, s, at, at + 1, |data|);
    assert ShownPairs(data, s, at, at) == [];
  }

  lemma NothingBefore(data: seq<Entry>, s: nat, at: nat)
    requires FirstShown(data, s, 0, at)
    ensures ShownPairs(data, s, 0, at) == []
  {
    NoneShownPairs(data, s, 0, 0, at);
  }

  lemma NothingBehind(data: seq<Entry>, s: nat, at: nat)
    requires LastShown(data, s, |data|, at)
    ensures ShownPairs(data, s, Beyond(data, at), |data|) == []
  {
    NoneShownPairs(data, s, Beyond(data, at), Beyond(data, at), |data|);
  }

  /** The shown entries of a reachable state list the map. */
  lemma AllShownPairs(events: seq<Event>, db: Db, s: nat)
    requires Reaches(events, db) && (s in db.snapshots || s == db.last)
    ensures s <= |Written(events)| && Lists(ShownPairs(Union(db), s, 0, |Union(db)|), MapAfter(Written(events)[..s]))
  {
    hide Reaches, Inv, All, Written, MapAfter, Lookup, Shown, Union, ShownPairs, WeaklySorted, Proper, Lists;
    StackShowsTheMap(events, db, s);
    ReachableInv(events, db);
    UnionIsProper(db);
    ProperInOrder(Union(db));
    ShownListsMap(Union(db), s, MapAfter(Written(events)[..s]));
  }

  lemma ProperInOrder(data: seq<Entry>)
    requires Proper(data)
    ensures WeaklySorted(data)
  {
  }

  lemma ShownListsMap(data: seq<Entry>, s: nat, m: map<UserKey, Bytes>)
    requires WeaklySorted(data)
    requires forall i :: 0 <= i < |data| && Shown(data, s, i) ==> Lookup(m, data[i].k.user) == Some(data[i].v)
    requires forall u :: u in m ==> exists i :: 0 <= i < |data| && data[i].k.user == u && Shown(data, s, i)
    ensures Lists(ShownPairs(data, s, 0, |data|), m)
  {
    hide Lookup, Shown, ShownPairs, WeaklySorted;
    var ps := ShownPairs(data, s, 0, |data|);
    ShownPairsAscend(data, s, |data|);
    forall i | 0 <= i < |ps|
      ensures Lookup(m, ps[i].0) == Some(ps[i].1)
    {
      ShownPairsMembers(data, s, |data|, ps[i].0, ps[i].1);
      assert ps[i] in ps && ps[i] == (ps[i].0, ps[i].1);
    }
    forall u | u in m
      ensures Listed(ps, u)
    {
      var i :| 0 <= i < |data| && data[i].k.user == u && Shown(data, s, i);
      ShownPairsMembers(data, s, |data|, u, data[i].v);
      var k :| 0 <= k < |ps| && ps[k] == (u, data[i].v);
    }
  }

  /** One step of a forward scan. */
  method TakeNext(it: DBIter, pairs: seq<(UserKey, Bytes)>) returns (r: seq<(UserKey, Bytes)>)
    requires it.Ok() && it.valid && it.direction.Forward?
    requires it.at <= |it.iter.merged| && pairs == ShownPairs(it.iter.merged, it.sequence, 0, it.at)
    modifies it, it.iter, it.iter.children, Merger.Iters(it.iter.children)
    ensures it.Ok() && it.direction.Forward? && it.valid == (it.at < |it.iter.merged|)
    ensures old(it.at) < it.at <= |it.iter.merged| && r == ShownPairs(it.iter.merged, it.sequence, 0, it.at)
  {
    hide Shown, FirstShown, ShownPairs, DBIter.Ok, Merger.Iters, ResumesAtKey;
    it.Presents();
    r := pairs + [(it.Key(), it.Value())];
    ghost var at := it.at;
    it.Next();
    it.ValidInside();
    OneMorePair(it.iter.merged, it.sequence, at, it.at);
  }

  /** SeekToFirst, then Next to the end, on a new iterator at a live sequence of a reachable state: the map. */
  method ScanForward(ghost events: seq<Event>, db: Db, s: nat) returns (pairs: seq<(UserKey, Bytes)>)
    requires Reaches(events, db) && (s in db.snapshots || s == db.last)
    ensures s <= |Written(events)| && Lists(pairs, MapAfter(Written(events)[..s]))
  {
    hide Reaches, Inv, All, Written, MapAfter, Lookup, Shown, FirstShown, Union, ShownPairs, DBIter.Ok, Lists, Merger.Iters;
    ReachableInv(events, db);
    var it := NewDBIterator(db, s);
    it.SeekToFirst();
    it.ValidInside();
    NothingBefore(Union(db), s, it.at);
    pairs := [];
    while it.valid
      invariant fresh(it) && fresh(it.iter) && fresh(it.iter.children) && fresh(Merger.Iters(it.iter.children))
      invariant it.Ok() && it.direction.Forward? && it.at <= |Union(db)| && it.valid == (it.at < |Union(db)|)
      invariant pairs == ShownPairs(Union(db), s, 0, it.at)
      decreases |Union(db)| - it.at
    {
      pairs := TakeNext(it, pairs);
    }
    AllShownPairs(events, db, s);
  }

  /** SeekToLast, then Prev to the front: the same pairs, last first. */
  method ScanBackward(ghost events: seq<Event>, db: Db, s: nat) returns (pairs: seq<(UserKey, Bytes)>)
    requires Reaches(events, db) && (s in db.snapshots || s == db.last)
    ensures s <= |Written(events)| && Lists(pairs, MapAfter(Written(events)[..s]))
  {
    hide Reaches, Inv, All, Written, MapAfter, Lookup, Shown, LastShown, Union, ShownPairs, DBIter.Ok, Lists, Merger.Iters, ResumesAtKey;
    ReachableInv(events, db);
    var it := NewDBIterator(db, s);
    it.SeekToLast();
    it.ValidInside();
    NothingBehind(Union(db), s, it.at);
    pairs := [];
    while it.valid
      invariant fresh(it) && fresh(it.iter) && fresh(it.iter.children) && fresh(Merger.Iters(it.iter.children))
      invariant it.Ok() && it.at <= |Union(db)| && it.valid == (it.at < |Union(db)|)
      invariant pairs == ShownPairs(Union(db), s, Beyond(Union(db), it.at), |Union(db)|)
      decreases Beyond(Union(db), it.at)
    {
      it.Presents();
      pairs := [(it.Key(), it.Value())] + pairs;
      ghost var at := it.at;
      it.Prev();
      it.ValidInside();
      OneLessPair(Union(db), s, at, it.at);
    }
    AllShownPairs(events, db, s);
  }
}

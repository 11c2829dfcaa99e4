/** A run after which an iterator at a live snapshot shows a key twice (db/db_iter.cc, DBIter::Next after a
    reverse move): two keys, a snapshot, and a third key between them written later. */
module RepeatedKey {
  import opened Keys
  import opened Files
  import opened Runs
  import opened Versions
  import opened Engine
  import opened Invariants
  import opened Safety
  import opened DbIterator
  import opened IteratorStack
  import opened Merger

  const LOW: UserKey := 1.0
  const MIDDLE: UserKey := 2.0
  const HIGH: UserKey := 3.0

  const FIRST: seq<Op> := [Put(LOW, []), Put(HIGH, [])]
  const LATER: seq<Op> := [Put(MIDDLE, [])]

  const AT_LOW: Entry := Entry(InternalKey(LOW, 1, Value), [])
  const AT_MIDDLE: Entry := Entry(InternalKey(MIDDLE, 3, Value), [])
  const AT_HIGH: Entry := Entry(InternalKey(HIGH, 2, Value), [])

  const STORED: seq<Entry> := [AT_LOW, AT_MIDDLE, AT_HIGH]

  /** The store after the run. */
  function Store(): Db {
    var one := WriteStep(EMPTY, FIRST);
    WriteStep(one.(snapshots := multiset{2}), LATER)
  }

  lemma Stamped()
    ensures Stamp(FIRST, 1) == [AT_LOW, AT_HIGH] && Stamp(LATER, 3) == [AT_MIDDLE]
  {
  }

  lemma Inserted()
    ensures InsertAll([], [AT_LOW, AT_HIGH]) == [AT_LOW, AT_HIGH]
    ensures InsertAll([AT_LOW, AT_HIGH], [AT_MIDDLE]) == STORED
  {
    assert [AT_LOW, AT_HIGH][..1] == [AT_LOW] && [AT_LOW][..0] == [] && [AT_MIDDLE][..0] == [];
    assert InsertAll([], []) == [] && InsertAll([AT_LOW, AT_HIGH], []) == [AT_LOW, AT_HIGH];
    assert InsertEntry([], AT_LOW) == [AT_LOW];
    assert InsertAll([], [AT_LOW]) == [AT_LOW];
    assert [AT_LOW][1..] == [] && InsertEntry([], AT_HIGH) == [AT_HIGH];
    assert InsertEntry([AT_LOW], AT_HIGH) == [AT_LOW, AT_HIGH];
    assert [AT_LOW, AT_HIGH][1..] == [AT_HIGH];
    assert InsertEntry([AT_HIGH], AT_MIDDLE) == [AT_MIDDLE, AT_HIGH];
    assert InsertEntry([AT_LOW, AT_HIGH], AT_MIDDLE) == STORED;
  }

  lemma StoreIs()
    ensures Store().mem == STORED && Store().imm == [] && Store().last == 3 && Store().snapshots == multiset{2}
    ensures Store().Levels() == NO_FILES
  {
    Stamped();
    Inserted();
  }

  lemma StoreIsReached() returns (events: seq<Event>)
    ensures Reaches(events, Store()) && Written(events) == FIRST + LATER
  {
    hide WriteStep;
    Writes();
    RunGrows([], EMPTY, Write(FIRST));
    var one := [] + [Write(FIRST)];
    RunGrows(one, WriteStep(EMPTY, FIRST), TakeSnapshot);
    var two := one + [TakeSnapshot];
    RunGrows(two, WriteStep(EMPTY, FIRST).(snapshots := multiset{2}), Write(LATER));
    events := two + [Write(LATER)];
    assert Written([]) == [] && [] + FIRST + [] + LATER == FIRST + LATER;
  }

  lemma Writes()
    ensures WriteStep(EMPTY, FIRST).last == 2 && WriteStep(EMPTY, FIRST).logs != [] && |WriteStep(EMPTY, FIRST).Levels()| == NUM_LEVELS
    ensures WriteStep(EMPTY, FIRST).snapshots == multiset{}
  {
  }

  lemma {:induction false} NoChildren(n: nat)
    requires n <= NUM_LEVELS
    ensures LevelChildren(NO_FILES, n) == []
  {
    if n > 0 {
      NoChildren(n - 1);
      NoFilesAnywhere(n - 1);
    }
  }

  lemma UnionIsStored()
    ensures Union(Store()) == STORED
  {
    hide Store;
    StoreIs();
    NoChildren(NUM_LEVELS);
    var children := [Child(MEM, STORED), Child(IMM, [])];
    assert Children(Store()) == children + [];
    var runs := RunsOf(children);
    assert runs == [STORED, []];
    assert runs[..1] == [STORED] && [STORED][..0] == [];
    assert MergeAll([STORED]) == MergeTwo([], STORED) == STORED;
    assert MergeAll(runs) == MergeTwo(STORED, []) == STORED;
  }

  /** The last entry is shown, and the iterator rests before the invisible one. */
  lemma RestsOnLow(pos: nat, at: nat)
    requires LastShown(STORED, 2, 3, at)
    ensures at == 2
    ensures BehindKey(STORED, 2, pos, 2) ==> !ResumesAtKey(STORED, pos, 2)
  {
    assert Shown(STORED, 2, 2);
  }

  /** On an iterator at the snapshot, SeekToLast and then Next both show the highest key. */
  method NextShowsTheKeyAgain() returns (ghost events: seq<Event>, first: UserKey, second: UserKey)
    ensures Reaches(events, Store()) && 2 in Store().snapshots && Written(events) == FIRST + LATER
    ensures first == second == HIGH
  {
    hide Store, Union, Inv, Reaches, Merger.MergingIterator.Ok, Merger.MergingIterator.Good;
    events := StoreIsReached();
    StoreIs();
    ReachableInv(events, Store());
    var it := NewDBIterator(Store(), 2);
    UnionIsStored();
    it.SeekToLast();
    RestsOnLow(it.iter.at, it.at);
    it.Presents();
    first := it.Key();
    it.Next();
    it.Presents();
    second := it.Key();
  }
}

/** Table metadata as a version records it (db/version_edit.h), with the table's contents. */
module Files {
  import opened Keys

  const NUM_LEVELS: nat := 7

  datatype File = File(number: nat, size: nat, smallest: InternalKey, largest: InternalKey, entries: seq<Entry>)

  /** A table holds a nonempty strictly sorted run and its recorded bounds are the run's ends. */
  ghost predicate ValidFile(f: File) {
    && f.entries != []
    && Sorted(f.entries)
    && f.smallest == f.entries[0].k
    && f.largest == f.entries[|f.entries| - 1].k
  }

  function TotalFileSize(files: seq<File>): nat {
    if files == [] then 0 else TotalFileSize(files[..|files| - 1]) + files[|files| - 1].size
  }

  ghost predicate ValidFiles(fs: seq<File>) {
    forall i :: 0 <= i < |fs| ==> ValidFile(fs[i])
  }

  /** Levels 1 and deeper: files in order, with disjoint ranges of internal keys. */
  ghost predicate Disjoint(fs: seq<File>) {
    forall i, j :: 0 <= i < j < |fs| ==> Less(fs[i].largest, fs[j].smallest)
  }

  ghost predicate DistinctNumbers(fs: seq<File>) {
    forall i, j :: 0 <= i < j < |fs| ==> fs[i].number != fs[j].number
  }

  ghost predicate InFiles(fs: seq<File>, e: Entry) {
    exists f :: f in fs && e in f.entries
  }

  ghost function EntriesOf(fs: seq<File>): set<Entry> {
    set f, e | f in fs && e in f.entries :: e
  }

  /** Some file of the level covers `u` with its range of user keys. */
  ghost predicate Covers(fs: seq<File>, u: UserKey) {
    exists i :: 0 <= i < |fs| && fs[i].smallest.user <= u <= fs[i].largest.user
  }

  lemma BoundsOf(f: File, e: Entry)
    requires ValidFile(f) && e in f.entries
    ensures !Less(e.k, f.smallest) && !Less(f.largest, e.k)
    ensures f.smallest.user <= e.k.user <= f.largest.user
  {
    var i :| 0 <= i < |f.entries| && f.entries[i] == e;
    assert i > 0 ==> Less(f.entries[0].k, f.entries[i].k);
    assert i < |f.entries| - 1 ==> Less(f.entries[i].k, f.entries[|f.entries| - 1].k);
  }

  lemma BoundsInOrder(f: File)
    requires ValidFile(f)
    ensures !Less(f.largest, f.smallest)
  {
    BoundsOf(f, f.entries[0]);
  }

  /** In a disjoint level both ends of the files ascend. */
  lemma EndsAscend(fs: seq<File>, i: nat, j: nat)
    requires ValidFiles(fs) && Disjoint(fs)
    requires i < j < |fs|
    ensures Less(fs[i].smallest, fs[j].smallest)
    ensures Less(fs[i].largest, fs[j].largest)
  {
    BoundsInOrder(fs[i]);
    BoundsInOrder(fs[j]);
  }
}

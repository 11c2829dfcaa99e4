/** Sorted runs: inserting one entry, merging several runs. */
module Runs {
  import opened Keys
  import opened Files

  // ------------------------------------------------------------------ insertion (MemTable::Add)

  function InsertEntry(s: seq<Entry>, e: Entry): seq<Entry> {
    if s == [] then [e]
    else
      var n := |s| - 1;
      if Less(e.k, s[n].k) then InsertEntry(s[..n], e) + [s[n]] else s + [e]
  }

  function InsertAll(s: seq<Entry>, es: seq<Entry>): seq<Entry> {
    if es == [] then s else InsertEntry(InsertAll(s, es[..|es| - 1]), es[|es| - 1])
  }

  lemma {:induction false} InsertEntryMembers(s: seq<Entry>, e: Entry, x: Entry)
    ensures x in InsertEntry(s, e) <==> x in s || x == e
  {
    if s != [] {
      var n := |s| - 1;
      assert s == s[..n] + [s[n]];
      InsertEntryMembers(s[..n], e, x);
    }
  }

  /** Inserting a key that is not present keeps the run strictly sorted. */
  lemma {:induction false} InsertEntrySorted(s: seq<Entry>, e: Entry)
    requires Sorted(s) && forall i :: 0 <= i < |s| ==> s[i].k.user != e.k.user || Tag(s[i].k) != Tag(e.k)
    ensures Sorted(InsertEntry(s, e))
  {
    if s != [] {
      var n := |s| - 1;
      if Less(e.k, s[n].k) {
        InsertEntrySorted(s[..n], e);
        var r := InsertEntry(s[..n], e);
        forall i | 0 <= i < |r|
          ensures Less(r[i].k, s[n].k)
        {
          InsertEntryMembers(s[..n], e, r[i]);
        }
      }
    }
  }

  lemma {:induction false} InsertAllMembers(s: seq<Entry>, es: seq<Entry>, x: Entry)
    ensures x in InsertAll(s, es) <==> x in s || x in es
  {
    if es != [] {
      var n := |es| - 1;
      assert es == es[..n] + [es[n]];
      InsertAllMembers(s, es[..n], x);
      InsertEntryMembers(InsertAll(s, es[..n]), es[n], x);
    }
  }

  lemma {:induction false} InsertAllSorted(s: seq<Entry>, es: seq<Entry>)
    requires Sorted(s)
    requires forall i, j :: 0 <= i < |es| && 0 <= j < |s| ==> s[j].k.seqno != es[i].k.seqno
    requires forall i, j :: 0 <= i < j < |es| ==> es[i].k.seqno != es[j].k.seqno
    ensures Sorted(InsertAll(s, es))
  {
    if es != [] {
      var n := |es| - 1;
      InsertAllSorted(s, es[..n]);
      var r := InsertAll(s, es[..n]);
      forall i | 0 <= i < |r|
        ensures r[i].k.seqno != es[n].k.seqno
      {
        InsertAllMembers(s, es[..n], r[i]);
      }
      InsertEntrySorted(r, es[n]);
    }
  }

  // ------------------------------------------------------------------ merging

  /** Two runs merged; the left one goes first on a tie. */
  function MergeTwo(x: seq<Entry>, y: seq<Entry>): seq<Entry> {
    if x == [] then y
    else if y == [] then x
    else if Less(y[0].k, x[0].k) then [y[0]] + MergeTwo(x, y[1..])
    else [x[0]] + MergeTwo(x[1..], y)
  }

  /** All runs merged into one. */
  function MergeAll(runs: seq<seq<Entry>>): seq<Entry> {
    if runs == [] then [] else MergeTwo(MergeAll(runs[..|runs| - 1]), runs[|runs| - 1])
  }

  function FileRuns(files: seq<File>): (r: seq<seq<Entry>>)
    ensures |r| == |files|
    ensures forall i :: 0 <= i < |files| ==> r[i] == files[i].entries
  {
    if files == [] then [] else FileRuns(files[..|files| - 1]) + [files[|files| - 1].entries]
  }

  /** The input of a compaction: the runs of all its input files, merged. */
  function MergeRuns(files: seq<File>): seq<Entry> {
    MergeAll(FileRuns(files))
  }

  lemma MergeRunsStep(files: seq<File>)
    ensures MergeRuns([]) == []
    ensures files != [] ==> MergeRuns(files) == MergeTwo(MergeRuns(files[..|files| - 1]), files[|files| - 1].entries)
  {
    if files != [] {
      assert FileRuns(files)[..|files| - 1] == FileRuns(files[..|files| - 1]);
    }
  }

  lemma {:induction false} MergeTwoMembers(x: seq<Entry>, y: seq<Entry>, e: Entry)
    ensures e in MergeTwo(x, y) <==> e in x || e in y
    decreases |x| + |y|
  {
    if x != [] && y != [] {
      assert x == [x[0]] + x[1..] && y == [y[0]] + y[1..];
      if Less(y[0].k, x[0].k) {
        MergeTwoMembers(x, y[1..], e);
      } else {
        MergeTwoMembers(x[1..], y, e);
      }
    }
  }

  lemma FirstIsLeast(h: Entry, r: seq<Entry>)
    requires WeaklySorted(r)
    requires forall e :: e in r ==> !Less(e.k, h.k)
    ensures WeaklySorted([h] + r)
  {
  }

  lemma {:induction false} MergeTwoSorted(x: seq<Entry>, y: seq<Entry>)
    requires WeaklySorted(x) && WeaklySorted(y)
    ensures WeaklySorted(MergeTwo(x, y))
    decreases |x| + |y|
  {
    if x != [] && y != [] {
      if Less(y[0].k, x[0].k) {
        MergeTwoSorted(x, y[1..]);
        forall e | e in MergeTwo(x, y[1..])
          ensures !Less(e.k, y[0].k)
        {
          MergeTwoMembers(x, y[1..], e);
        }
        FirstIsLeast(y[0], MergeTwo(x, y[1..]));
      } else {
        MergeTwoSorted(x[1..], y);
        forall e | e in MergeTwo(x[1..], y)
          ensures !Less(e.k, x[0].k)
        {
          MergeTwoMembers(x[1..], y, e);
        }
        FirstIsLeast(x[0], MergeTwo(x[1..], y));
      }
    }
  }

  /** Keys that occur twice in the run stay at or below sequence number `p`. */
  ghost predicate RepeatsUpTo(s: seq<Entry>, p: nat) {
    forall i, j :: 0 <= i < j < |s| && s[i].k == s[j].k ==> s[i].k.seqno <= p
  }

  ghost predicate SharedUpTo(x: seq<Entry>, y: seq<Entry>, p: nat) {
    forall e, f :: e in x && f in y && e.k == f.k ==> e.k.seqno <= p
  }

  lemma RepeatsWithHead(h: Entry, r: seq<Entry>, p: nat)
    requires RepeatsUpTo(r, p)
    requires forall e :: e in r && e.k == h.k ==> h.k.seqno <= p
    ensures RepeatsUpTo([h] + r, p)
  {
  }

  lemma {:induction false} MergeTwoRepeats(x: seq<Entry>, y: seq<Entry>, p: nat)
    requires RepeatsUpTo(x, p) && RepeatsUpTo(y, p) && SharedUpTo(x, y, p)
    ensures RepeatsUpTo(MergeTwo(x, y), p)
    decreases |x| + |y|
  {
    if x != [] && y != [] {
      if Less(y[0].k, x[0].k) {
        MergeTwoRepeats(x, y[1..], p);
        forall e | e in MergeTwo(x, y[1..]) && e.k == y[0].k
          ensures y[0].k.seqno <= p
        {
          MergeTwoMembers(x, y[1..], e);
        }
        RepeatsWithHead(y[0], MergeTwo(x, y[1..]), p);
      } else {
        MergeTwoRepeats(x[1..], y, p);
        forall e | e in MergeTwo(x[1..], y) && e.k == x[0].k
          ensures x[0].k.seqno <= p
        {
          MergeTwoMembers(x[1..], y, e);
        }
        RepeatsWithHead(x[0], MergeTwo(x[1..], y), p);
      }
    }
  }

  lemma {:induction false} MergeRunsMembers(files: seq<File>, e: Entry)
    ensures e in MergeRuns(files) <==> InFiles(files, e)
  {
    if files != [] {
      var n := |files| - 1;
      MergeRunsMembers(files[..n], e);
      MergeRunsStep(files);
      MergeTwoMembers(MergeRuns(files[..n]), files[n].entries, e);
      assert files == files[..n] + [files[n]];
      assert InFiles(files, e) <==> InFiles(files[..n], e) || e in files[n].entries by {
        assert files[n] in files;
        assert forall f :: f in files <==> f in files[..n] || f == files[n];
      }
    }
  }

  /** The merged input of a compaction is in order, and a version occurs twice in it only if two input
      files share it. */
  lemma {:induction false} MergeRunsSorted(files: seq<File>, p: nat)
    requires ValidFiles(files)
    requires forall i, j :: 0 <= i < j < |files| ==> SharedUpTo(files[i].entries, files[j].entries, p)
    ensures WeaklySorted(MergeRuns(files)) && RepeatsUpTo(MergeRuns(files), p)
  {
    hide WeaklySorted, RepeatsUpTo, Sorted, Less, MergeTwo, MergeRuns;
    MergeRunsStep(files);
    if files == [] {
      NothingToSort();
      SortedIsWeak([]);
      SortedRepeatsNothing([], p);
    } else {
      var n := |files| - 1;
      var before := files[..n];
      MergeRunsSorted(before, p);
      SortedIsWeak(files[n].entries);
      SortedRepeatsNothing(files[n].entries, p);
      MergeTwoSorted(MergeRuns(before), files[n].entries);
      MergedShares(files, p);
      MergeTwoRepeats(MergeRuns(before), files[n].entries, p);
    }
  }

  lemma MergedShares(files: seq<File>, p: nat)
    requires files != []
    requires forall i, j :: 0 <= i < j < |files| ==> SharedUpTo(files[i].entries, files[j].entries, p)
    ensures SharedUpTo(MergeRuns(files[..|files| - 1]), files[|files| - 1].entries, p)
  {
    hide MergeRuns;
    var n := |files| - 1;
    var before := files[..n];
    forall e, f | e in MergeRuns(before) && f in files[n].entries && e.k == f.k
      ensures e.k.seqno <= p
    {
      MergeRunsMembers(before, e);
      var g :| g in before && e in g.entries;
      var i :| 0 <= i < n && before[i] == g;
      assert SharedUpTo(files[i].entries, files[n].entries, p);
    }
  }

  lemma SortedRepeatsNothing(s: seq<Entry>, p: nat)
    requires Sorted(s)
    ensures RepeatsUpTo(s, p)
  {
  }

  lemma NothingToSort()
    ensures Sorted([])
  {
  }
}

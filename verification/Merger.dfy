/** MergingIterator (db/merger.cc) over wrapped children (db/iterator_wrapper.h): one cursor over the
    sorted union of the children, in which a version that several children hold is repeated. */
module Merger {
  import opened Keys
  import opened Cursors
  import opened Runs

  /** Caches validity and key of the wrapped iterator. */
  class IteratorWrapper {
    const iter: Cursor
    var valid: bool
    var key: InternalKey

    constructor (iter: Cursor)
      requires iter.pos <= |iter.data|
      ensures this.iter == iter && Ok()
    {
      this.iter := iter;
      valid := iter.Valid();
      key := if iter.Valid() then iter.Current().k else InternalKey(0.0, 0, Deletion);
    }

    /** The cache agrees with the iterator. */
    ghost predicate Ok()
      reads this, iter
    {
      valid == iter.Valid() && (valid ==> key == iter.Current().k) && iter.pos <= |iter.data|
    }

    method Update()
      requires iter.pos <= |iter.data|
      modifies this
      ensures Ok()
    {
      valid := iter.Valid();
      if valid {
        key := iter.Current().k;
      }
    }

    method SeekToFirst()
      modifies this, iter
      ensures Ok() && iter.pos == 0
    {
      iter.SeekToFirst();
      Update();
    }

    method SeekToLast()
      modifies this, iter
      ensures Ok() && iter.pos == PrevPos(iter.data, |iter.data|)
    {
      iter.SeekToLast();
      Update();
    }

    method Seek(target: InternalKey)
      modifies this, iter
      ensures Ok() && iter.pos == LowerBound(iter.data, target)
    {
      iter.Seek(target);
      Update();
    }

    method Next()
      requires Ok() && valid
      modifies this, iter
      ensures Ok() && iter.pos == old(iter.pos) + 1
    {
      iter.Next();
      Update();
    }

    method Prev()
      requires Ok() && valid
      modifies this, iter
      ensures Ok() && iter.pos == PrevPos(iter.data, old(iter.pos))
    {
      iter.Prev();
      Update();
    }

    /** What MergingIterator::Next does to a child when it turns around. */
    method SeekPast(target: InternalKey)
      requires Sorted(iter.data)
      modifies this, iter
      ensures Ok() && iter.pos == UpperBound(iter.data, target)
    {
      PastBound(iter.data, target);
      Seek(target);
      if valid && target == key {
        Next();
      }
    }

    /** What MergingIterator::Prev does to a child when it turns around. */
    method SeekBefore(target: InternalKey)
      modifies this, iter
      ensures Ok() && UpTo(iter.data, iter.pos) == LowerBound(iter.data, target)
    {
      Seek(target);
      if valid {
        Prev();
      } else {
        SeekToLast();
      }
    }
  }

  // ------------------------------------------------------------------ the sorted union

  ghost predicate AllSorted(runs: seq<seq<Entry>>) {
    forall i :: 0 <= i < |runs| ==> Sorted(runs[i])
  }

  /** A version that occurs twice is the same both times. */
  ghost predicate KeysAgree(data: seq<Entry>) {
    forall m, n :: 0 <= m < n < |data| && data[m].k == data[n].k ==> data[m] == data[n]
  }

  /** In order, and holding exactly the entries of the runs. */
  lemma {:induction false} MergeAllInOrder(runs: seq<seq<Entry>>)
    requires AllSorted(runs)
    ensures WeaklySorted(MergeAll(runs))
  {
    if runs != [] {
      var n := |runs| - 1;
      MergeAllInOrder(runs[..n]);
      SortedIsWeak(runs[n]);
      MergeTwoSorted(MergeAll(runs[..n]), runs[n]);
    }
  }

  lemma {:induction false} MergeAllMembers(runs: seq<seq<Entry>>, e: Entry)
    ensures e in MergeAll(runs) <==> exists i :: 0 <= i < |runs| && e in runs[i]
  {
    if runs != [] {
      var n := |runs| - 1;
      var before := runs[..n];
      MergeAllMembers(before, e);
      MergeTwoMembers(MergeAll(before), runs[n], e);
      if i :| 0 <= i < |runs| && e in runs[i] {
        assert i < n ==> before[i] == runs[i];
      }
      assert forall i :: 0 <= i < n ==> before[i] == runs[i];
    }
  }

  // ------------------------------------------------------------------ counting entries

  function Sum(counts: seq<nat>): nat {
    if counts == [] then 0 else Sum(counts[..|counts| - 1]) + counts[|counts| - 1]
  }

  lemma {:induction false} SumUpdate(counts: seq<nat>, c: nat, v: nat)
    requires c < |counts|
    ensures Sum(counts[c := v]) + counts[c] == Sum(counts) + v
  {
    var n := |counts| - 1;
    if c == n {
      assert counts[c := v][..n] == counts[..n];
    } else {
      assert counts[c := v][..n] == counts[..n][c := v];
      SumUpdate(counts[..n], c, v);
    }
  }

  /** A larger sum has a larger part somewhere. */
  lemma {:induction false} SumLarger(a: seq<nat>, b: seq<nat>) returns (c: nat)
    requires |a| == |b| && Sum(a) < Sum(b)
    ensures c < |a| && a[c] < b[c]
  {
    var n := |a| - 1;
    if a[n] < b[n] {
      c := n;
    } else {
      c := SumLarger(a[..n], b[..n]);
    }
  }

  lemma {:induction false} SumAtMost(a: seq<nat>, b: seq<nat>)
    requires |a| == |b| && forall i :: 0 <= i < |a| ==> a[i] <= b[i]
    ensures Sum(a) <= Sum(b)
    ensures Sum(a) == Sum(b) ==> a == b
  {
    if a != [] {
      var n := |a| - 1;
      SumAtMost(a[..n], b[..n]);
      if Sum(a) == Sum(b) {
        assert a == a[..n] + [a[n]] && b == b[..n] + [b[n]];
      }
    }
  }

  function Lengths(runs: seq<seq<Entry>>): (r: seq<nat>)
    ensures |r| == |runs| && forall i :: 0 <= i < |runs| ==> r[i] == |runs[i]|
  {
    if runs == [] then [] else Lengths(runs[..|runs| - 1]) + [|runs[|runs| - 1]|]
  }

  function Lowers(runs: seq<seq<Entry>>, target: InternalKey): (r: seq<nat>)
    ensures |r| == |runs| && forall i :: 0 <= i < |runs| ==> r[i] == LowerBound(runs[i], target)
  {
    if runs == [] then [] else Lowers(runs[..|runs| - 1], target) + [LowerBound(runs[|runs| - 1], target)]
  }

  function Uppers(runs: seq<seq<Entry>>, target: InternalKey): (r: seq<nat>)
    ensures |r| == |runs| && forall i :: 0 <= i < |runs| ==> r[i] == UpperBound(runs[i], target)
  {
    if runs == [] then [] else Uppers(runs[..|runs| - 1], target) + [UpperBound(runs[|runs| - 1], target)]
  }

  lemma BoundsFront(h: Entry, t: seq<Entry>, target: InternalKey)
    requires WeaklySorted([h] + t)
    ensures LowerBound([h] + t, target) == if Less(h.k, target) then 1 + LowerBound(t, target) else 0
    ensures UpperBound([h] + t, target) == if Less(target, h.k) then 0 else 1 + UpperBound(t, target)
  {
    var s := [h] + t;
    assert WeaklySorted(t) by {
      assert forall i :: 0 <= i < |t| ==> t[i] == s[i + 1];
    }
    LowerBoundSplits(s, target);
    LowerBoundSplits(t, target);
    UpperBoundSplits(s, target);
    UpperBoundSplits(t, target);
    var l, u := LowerBound(t, target), UpperBound(t, target);
    assert l < |t| ==> t[l] == s[l + 1];
    assert l > 0 ==> t[l - 1] == s[l];
    assert u < |t| ==> t[u] == s[u + 1];
    assert u > 0 ==> t[u - 1] == s[u];
    assert s[0] == h;
    forall i | 0 <= i < |t|
      ensures !Less(t[i].k, h.k)
    {
      assert t[i] == s[i + 1];
    }
  }

  /** Merging adds up how many entries lie before, or not after, a key. */
  lemma {:induction false} MergeTwoCounts(x: seq<Entry>, y: seq<Entry>, target: InternalKey)
    requires WeaklySorted(x) && WeaklySorted(y)
    ensures var r := MergeTwo(x, y);
            && |r| == |x| + |y|
            && LowerBound(r, target) == LowerBound(x, target) + LowerBound(y, target)
            && UpperBound(r, target) == UpperBound(x, target) + UpperBound(y, target)
    decreases |x| + |y|
  {
    hide LowerBound, UpperBound;
    if x == [] || y == [] {
      EmptyBounds(target);
    } else {
      assert x == [x[0]] + x[1..] && y == [y[0]] + y[1..];
      BoundsFront(x[0], x[1..], target);
      BoundsFront(y[0], y[1..], target);
      MergeTwoSorted(x, y);
      if Less(y[0].k, x[0].k) {
        MergeTwoCounts(x, y[1..], target);
        BoundsFront(y[0], MergeTwo(x, y[1..]), target);
      } else {
        MergeTwoCounts(x[1..], y, target);
        BoundsFront(x[0], MergeTwo(x[1..], y), target);
      }
    }
  }

  lemma EmptyBounds(target: InternalKey)
    ensures LowerBound([], target) == 0 && UpperBound([], target) == 0
  {
  }

  lemma {:induction false} MergeAllCounts(runs: seq<seq<Entry>>, target: InternalKey)
    requires AllSorted(runs)
    ensures |MergeAll(runs)| == Sum(Lengths(runs))
    ensures LowerBound(MergeAll(runs), target) == Sum(Lowers(runs, target))
    ensures UpperBound(MergeAll(runs), target) == Sum(Uppers(runs, target))
  {
    hide LowerBound, UpperBound, MergeTwo;
    EmptyBounds(target);
    if runs != [] {
      var n := |runs| - 1;
      MergeAllCounts(runs[..n], target);
      MergeAllInOrder(runs[..n]);
      SortedIsWeak(runs[n]);
      MergeTwoCounts(MergeAll(runs[..n]), runs[n], target);
      assert Lengths(runs)[..n] == Lengths(runs[..n]);
      assert Lowers(runs, target)[..n] == Lowers(runs[..n], target);
      assert Uppers(runs, target)[..n] == Uppers(runs[..n], target);
    }
  }

  // ------------------------------------------------------------------ splits

  /** The next entry of run `g` does not come before the last one counted of run `i`. */
  ghost predicate Follows(runs: seq<seq<Entry>>, counts: seq<nat>, i: nat, g: nat)
    requires |counts| == |runs| && i < |runs| && g < |runs|
  {
    0 < counts[i] <= |runs[i]| && counts[g] < |runs[g]| ==> !Less(runs[g][counts[g]].k, runs[i][counts[i] - 1].k)
  }

  /** The first `counts[i]` entries of each run are together the first `q` of the union. */
  ghost predicate Split(runs: seq<seq<Entry>>, counts: seq<nat>, q: nat) {
    && |counts| == |runs| && Sum(counts) == q
    && (forall i :: 0 <= i < |runs| ==> counts[i] <= |runs[i]|)
    && forall i: nat, g: nat :: i < |runs| && g < |runs| ==> Follows(runs, counts, i, g)
  }

  /** The next entry of run `c` has key `k`, and no run's next comes before it. */
  ghost predicate LeastNext(runs: seq<seq<Entry>>, counts: seq<nat>, c: nat, k: InternalKey) {
    && c < |runs| == |counts| && counts[c] < |runs[c]| && runs[c][counts[c]].k == k
    && forall i :: 0 <= i < |runs| && counts[i] < |runs[i]| ==> !Less(runs[i][counts[i]].k, k)
  }

  ghost predicate GreatestLast(runs: seq<seq<Entry>>, counts: seq<nat>, c: nat, k: InternalKey) {
    && c < |runs| == |counts| && 0 < counts[c] <= |runs[c]| && runs[c][counts[c] - 1].k == k
    && forall i :: 0 <= i < |runs| && 0 < counts[i] <= |runs[i]| ==> !Less(k, runs[i][counts[i] - 1].k)
  }

  lemma BoundsAt(data: seq<Entry>, target: InternalKey, j: nat)
    requires WeaklySorted(data) && j < |data|
    ensures j < LowerBound(data, target) <==> Less(data[j].k, target)
    ensures j < UpperBound(data, target) <==> !Less(target, data[j].k)
  {
    LowerBoundSplits(data, target);
    UpperBoundSplits(data, target);
  }

  lemma RunBounds(runs: seq<seq<Entry>>, i: nat, target: InternalKey, j: nat)
    requires AllSorted(runs) && i < |runs| && j < |runs[i]|
    ensures j < Lowers(runs, target)[i] <==> Less(runs[i][j].k, target)
    ensures j < Uppers(runs, target)[i] <==> !Less(target, runs[i][j].k)
  {
    SortedIsWeak(runs[i]);
    BoundsAt(runs[i], target, j);
  }

  lemma AsManyRuns(runs: seq<seq<Entry>>, target: InternalKey)
    ensures |Lowers(runs, target)| == |Uppers(runs, target)| == |runs|
  {
  }

  /** No run stops short of the entries before the union's next one. */
  lemma NoneBelow(runs: seq<seq<Entry>>, counts: seq<nat>, q: nat, target: InternalKey, i: nat)
    requires AllSorted(runs) && Split(runs, counts, q) && Sum(Lowers(runs, target)) <= q && i < |runs|
    ensures Lowers(runs, target)[i] <= counts[i]
  {
    hide AllSorted, Lowers, Uppers, Sum;
    AsManyRuns(runs, target);
    var lowers := Lowers(runs, target);
    if counts[i] < lowers[i] {
      RunBounds(runs, i, target, counts[i]);
      forall g | 0 <= g < |runs|
        ensures counts[g] <= lowers[g]
      {
        assert Follows(runs, counts, g, i);
        if counts[g] > 0 {
          RunBounds(runs, g, target, counts[g] - 1);
        }
      }
      SumAtMost(counts, lowers);
    }
  }

  lemma NoneAbove(runs: seq<seq<Entry>>, counts: seq<nat>, q: nat, target: InternalKey, i: nat)
    requires AllSorted(runs) && Split(runs, counts, q) && q <= Sum(Uppers(runs, target)) && i < |runs|
    ensures counts[i] <= Uppers(runs, target)[i]
  {
    hide AllSorted, Lowers, Uppers, Sum;
    AsManyRuns(runs, target);
    var uppers := Uppers(runs, target);
    if uppers[i] < counts[i] {
      RunBounds(runs, i, target, counts[i] - 1);
      forall g | 0 <= g < |runs|
        ensures uppers[g] <= counts[g]
      {
        assert Follows(runs, counts, i, g);
        if counts[g] < |runs[g]| {
          RunBounds(runs, g, target, counts[g]);
        }
      }
      SumAtMost(uppers, counts);
    }
  }

  lemma Antisymmetric(a: InternalKey, b: InternalKey)
    ensures !Less(a, b) && !Less(b, a) ==> a == b
    ensures !Less(a, a)
  {
  }

  /** At a split, some run has the key of the union's next entry next, and none has a smaller one. */
  lemma NextAtSplit(runs: seq<seq<Entry>>, counts: seq<nat>, q: nat) returns (c: nat)
    requires AllSorted(runs) && Split(runs, counts, q) && q < |MergeAll(runs)|
    ensures LeastNext(runs, counts, c, MergeAll(runs)[q].k)
  {
    hide MergeAll, LowerBound, UpperBound, Sorted, WeaklySorted, Lowers, Uppers, Follows, Tag, Sum;
    var k := MergeAll(runs)[q].k;
    MergeAllInOrder(runs);
    MergeAllCounts(runs, k);
    BoundsAt(MergeAll(runs), k, q);
    c := SumLarger(counts, Uppers(runs, k));
    RunBounds(runs, c, k, counts[c]);
    NoneBelow(runs, counts, q, k, c);
    Antisymmetric(runs[c][counts[c]].k, k);
    forall i: nat | i < |runs| && counts[i] < |runs[i]|
      ensures !Less(runs[i][counts[i]].k, k)
    {
      NoneBelow(runs, counts, q, k, i);
      RunBounds(runs, i, k, counts[i]);
    }
  }

  /** The same backwards: some run has the key of the entry before the split last, and none a larger one. */
  lemma LastAtSplit(runs: seq<seq<Entry>>, counts: seq<nat>, q: nat) returns (c: nat)
    requires AllSorted(runs) && Split(runs, counts, q) && 0 < q <= |MergeAll(runs)|
    ensures GreatestLast(runs, counts, c, MergeAll(runs)[q - 1].k)
  {
    hide MergeAll, LowerBound, UpperBound, Sorted, WeaklySorted, Lowers, Uppers, Follows, Tag, Sum;
    var k := MergeAll(runs)[q - 1].k;
    MergeAllInOrder(runs);
    MergeAllCounts(runs, k);
    BoundsAt(MergeAll(runs), k, q - 1);
    c := SumLarger(Lowers(runs, k), counts);
    RunBounds(runs, c, k, counts[c] - 1);
    NoneAbove(runs, counts, q, k, c);
    Antisymmetric(runs[c][counts[c] - 1].k, k);
    forall i: nat | i < |runs| && counts[i] > 0
      ensures !Less(k, runs[i][counts[i] - 1].k)
    {
      NoneAbove(runs, counts, q, k, i);
      RunBounds(runs, i, k, counts[i] - 1);
    }
  }

  lemma NextIsLeast(runs: seq<seq<Entry>>, counts: seq<nat>, q: nat, c: nat)
    requires AllSorted(runs) && Split(runs, counts, q) && q < |MergeAll(runs)|
    requires c < |runs| && counts[c] < |runs[c]| && runs[c][counts[c]].k == MergeAll(runs)[q].k
    ensures LeastNext(runs, counts, c, MergeAll(runs)[q].k)
  {
    var d := NextAtSplit(runs, counts, q);
  }

  lemma LastIsGreatest(runs: seq<seq<Entry>>, counts: seq<nat>, q: nat, c: nat)
    requires AllSorted(runs) && Split(runs, counts, q) && 0 < q <= |MergeAll(runs)|
    requires c < |runs| && counts[c] > 0 && runs[c][counts[c] - 1].k == MergeAll(runs)[q - 1].k
    ensures GreatestLast(runs, counts, c, MergeAll(runs)[q - 1].k)
  {
    var d := LastAtSplit(runs, counts, q);
  }

  /** At the ends of the union no run has anything left. */
  lemma EndsAtSplit(runs: seq<seq<Entry>>, counts: seq<nat>, q: nat)
    requires AllSorted(runs) && Split(runs, counts, q)
    ensures q <= |MergeAll(runs)|
    ensures q == |MergeAll(runs)| ==> forall i :: 0 <= i < |runs| ==> counts[i] == |runs[i]|
    ensures q == 0 ==> forall i :: 0 <= i < |runs| ==> counts[i] == 0
  {
    hide MergeAll, Sorted;
    MergeAllCounts(runs, InternalKey(0.0, 0, Deletion));
    SumAtMost(counts, Lengths(runs));
    if q == 0 {
      SumOfNone(counts);
    }
  }

  lemma {:induction false} SumOfNone(counts: seq<nat>)
    requires Sum(counts) == 0
    ensures forall i :: 0 <= i < |counts| ==> counts[i] == 0
  {
    if counts != [] {
      SumOfNone(counts[..|counts| - 1]);
    }
  }

  lemma {:induction false} SumOfZeros(counts: seq<nat>)
    requires forall i :: 0 <= i < |counts| ==> counts[i] == 0
    ensures Sum(counts) == 0
  {
    if counts != [] {
      SumOfZeros(counts[..|counts| - 1]);
    }
  }

  lemma SplitAtStart(runs: seq<seq<Entry>>, counts: seq<nat>)
    requires |counts| == |runs| && forall i :: 0 <= i < |runs| ==> counts[i] == 0
    ensures Split(runs, counts, 0)
  {
    SumOfZeros(counts);
  }

  lemma SplitAtEnd(runs: seq<seq<Entry>>, counts: seq<nat>)
    requires AllSorted(runs)
    requires |counts| == |runs| && forall i :: 0 <= i < |runs| ==> counts[i] == |runs[i]|
    ensures Split(runs, counts, |MergeAll(runs)|)
  {
    MergeAllCounts(runs, InternalKey(0.0, 0, Deletion));
    assert counts == Lengths(runs);
  }

  /** Counting one more of a run with a least next entry. */
  lemma SplitMoves(runs: seq<seq<Entry>>, counts: seq<nat>, q: nat, c: nat, k: InternalKey, next: seq<nat>)
    requires AllSorted(runs) && Split(runs, counts, q) && LeastNext(runs, counts, c, k)
    requires next == counts[c := counts[c] + 1]
    ensures Split(runs, next, q + 1)
  {
    SumUpdate(counts, c, counts[c] + 1);
    forall i: nat, g: nat | i < |runs| && g < |runs|
      ensures Follows(runs, next, i, g)
    {
      assert Follows(runs, counts, i, g) && Follows(runs, counts, i, c);
      if g == c && next[c] < |runs[c]| {
        IndexOrder(runs[c], counts[c], next[c]);
      }
    }
  }

  lemma SplitMovesBack(runs: seq<seq<Entry>>, counts: seq<nat>, q: nat, c: nat, k: InternalKey, next: seq<nat>)
    requires AllSorted(runs) && Split(runs, counts, q) && GreatestLast(runs, counts, c, k)
    requires next == counts[c := counts[c] - 1]
    ensures q > 0 && Split(runs, next, q - 1)
  {
    SumUpdate(counts, c, counts[c] - 1);
    forall i: nat, g: nat | i < |runs| && g < |runs|
      ensures Follows(runs, next, i, g)
    {
      assert Follows(runs, counts, i, g) && Follows(runs, counts, c, g);
      if i == c && next[c] > 0 {
        IndexOrder(runs[c], next[c] - 1, next[c]);
      }
    }
  }

  /** Counting in every run what lies before a key, or not after it. */
  lemma SplitAtKey(runs: seq<seq<Entry>>, target: InternalKey)
    requires AllSorted(runs)
    ensures Split(runs, Lowers(runs, target), LowerBound(MergeAll(runs), target))
    ensures Split(runs, Uppers(runs, target), UpperBound(MergeAll(runs), target))
  {
    hide LowerBound, UpperBound, MergeAll, Sorted;
    MergeAllCounts(runs, target);
    hide AllSorted, Lowers, Uppers, Follows;
    forall i: nat, g: nat | i < |runs| && g < |runs|
      ensures Follows(runs, Lowers(runs, target), i, g) && Follows(runs, Uppers(runs, target), i, g)
    {
      PairFollows(runs, target, i, g);
    }
  }

  lemma PairFollows(runs: seq<seq<Entry>>, target: InternalKey, i: nat, g: nat)
    requires AllSorted(runs) && i < |runs| && g < |runs|
    ensures Follows(runs, Lowers(runs, target), i, g) && Follows(runs, Uppers(runs, target), i, g)
  {
    hide LowerBound, UpperBound, Sorted, AllSorted;
    var lowers, uppers := Lowers(runs, target), Uppers(runs, target);
    if lowers[i] > 0 {
      RunBounds(runs, i, target, lowers[i] - 1);
    }
    if lowers[g] < |runs[g]| {
      RunBounds(runs, g, target, lowers[g]);
    }
    if uppers[i] > 0 {
      RunBounds(runs, i, target, uppers[i] - 1);
    }
    if uppers[g] < |runs[g]| {
      RunBounds(runs, g, target, uppers[g]);
    }
  }

  lemma BoundsHere(data: seq<Entry>, p: nat)
    requires Sorted(data) && p < |data|
    ensures LowerBound(data, data[p].k) == p && UpperBound(data, data[p].k) == p + 1
  {
    LowerBoundAt(data, data[p].k, p);
    PastBound(data, data[p].k);
  }

  /** In a strictly sorted run at most one entry has the target's key. */
  lemma PastBound(data: seq<Entry>, target: InternalKey)
    requires Sorted(data)
    ensures var r := LowerBound(data, target);
            UpperBound(data, target) == if r < |data| && data[r].k == target then r + 1 else r
  {
    SortedIsWeak(data);
    LowerBoundSplits(data, target);
    UpperBoundSplits(data, target);
    var r, u := LowerBound(data, target), UpperBound(data, target);
    if r < |data| {
      BoundsAt(data, target, r);
    }
    if u > 0 {
      BoundsAt(data, target, u - 1);
    }
    if r + 1 < |data| {
      IndexOrder(data, r, r + 1);
      BoundsAt(data, target, r + 1);
    }
    if r > 0 {
      BoundsAt(data, target, r - 1);
    }
  }

  // ------------------------------------------------------------------ the iterator

  datatype Direction = Forward | Reverse

  class MergingIterator {
    const children: seq<IteratorWrapper>
    /** Index of the selected child; the number of children stands for none. */
    var current: nat
    var direction: Direction
    ghost const runs: seq<seq<Entry>>
    ghost const merged: seq<Entry>
    /** Position in the union, or its end. */
    ghost var at: nat

    constructor (children: seq<IteratorWrapper>, ghost runs: seq<seq<Entry>>)
      requires Separate(children) && Over(children, runs) && AllOk(children)
      requires AllSorted(runs) && KeysAgree(MergeAll(runs))
      ensures this.children == children && this.runs == runs && merged == MergeAll(runs)
      ensures Good() && !Valid() && at == |merged|
    {
      this.children, this.runs, this.merged := children, runs, MergeAll(runs);
      current, direction := |children|, Forward;
      at := |MergeAll(runs)|;
    }

    predicate Valid()
      reads this
    {
      current < |children|
    }

    /** What every operation needs and keeps of the children. */
    ghost predicate Good()
      reads this, children, Iters(children)
    {
      && Separate(children) && Over(children, runs) && AllOk(children)
      && AllSorted(runs) && KeysAgree(merged) && merged == MergeAll(runs)
    }

    /** Positioned by a seek: valid exactly inside the union, every child standing where the entry before
        or after the position is. */
    ghost predicate Ok()
      reads this, children, Iters(children)
    {
      && Good() && current <= |children| && at <= |merged|
      && Valid() == (at < |merged|)
      && (Valid() ==>
            && children[current].valid && children[current].iter.Current() == merged[at]
            && if direction.Forward? then Split(runs, Positions(children), at)
               else Split(runs, Reached(children), at + 1))
    }

    function Key(): InternalKey
      requires Valid()
      reads this, children
    {
      children[current].key
    }

    function Value(): Bytes
      requires Valid() && children[current].iter.Valid()
      reads this, if Valid() then {children[current].iter} else {}
    {
      children[current].iter.Current().v
    }

    /** The iterator shows the entry of the union it is at. */
    lemma Presents()
      requires Ok()
      ensures at <= |merged| && Valid() == (at < |merged|)
      ensures Valid() ==> children[current].iter.Valid() && Key() == merged[at].k && Value() == merged[at].v
    {
    }

    /** An entry of a child is the entry of the union with its key. */
    lemma SameEntry(i: nat, j: nat, m: nat)
      requires Good() && i < |runs| && j < |runs[i]| && m < |merged| && runs[i][j].k == merged[m].k
      ensures runs[i][j] == merged[m]
    {
      MergeAllMembers(runs, runs[i][j]);
      var n: nat :| n < |merged| && merged[n] == runs[i][j];
      assert n < m ==> merged[n] == merged[m];
      assert m < n ==> merged[m] == merged[n];
    }

    method FindSmallest(ghost q: nat)
      requires Good() && Split(runs, Positions(children), q) && direction.Forward?
      modifies `current, `at
      ensures Ok() && at == q
    {
      hide Split, Positions, MergeAll, KeysAgree, Sorted;
      ghost var counts := Positions(children);
      ghost var c: nat := |children|;
      EndsAtSplit(runs, counts, q);
      if q < |merged| {
        c := NextAtSplit(runs, counts, q);
      }
      var smallest: nat := |children|;
      for i := 0 to |children|
        invariant smallest <= |children| && (smallest < |children| ==> smallest < i && children[smallest].valid)
        invariant forall k :: 0 <= k < i && children[k].valid ==>
                    smallest < |children| && !Less(children[k].key, children[smallest].key)
      {
        if children[i].valid {
          if smallest == |children| || Less(children[i].key, children[smallest].key) {
            smallest := i;
          }
        }
      }
      current := smallest;
      at := q;
      assert Positions(children) == counts;
      assert Good();
      if q < |merged| {
        assert children[c].valid;
        SameEntry(smallest, counts[smallest], q);
      }
    }

    method FindLargest(ghost q: nat)
      requires Good() && Split(runs, Reached(children), q) && direction.Reverse?
      modifies `current, `at
      ensures Ok() && at == PrevPos(merged, q)
    {
      hide Split, Reached, MergeAll, KeysAgree, Sorted;
      ghost var counts := Reached(children);
      ghost var c: nat := |children|;
      EndsAtSplit(runs, counts, q);
      if q > 0 {
        c := LastAtSplit(runs, counts, q);
      }
      var largest: nat := |children|;
      for i := 0 to |children|
        invariant largest <= |children| && (largest < |children| ==> largest < i && children[largest].valid)
        invariant forall k :: 0 <= k < i && children[k].valid ==>
                    largest < |children| && !Less(children[largest].key, children[k].key)
      {
        if children[i].valid {
          if largest == |children| || Less(children[largest].key, children[i].key) {
            largest := i;
          }
        }
      }
      current := largest;
      at := PrevPos(merged, q);
      assert Reached(children) == counts;
      assert Good();
      if q > 0 {
        assert children[c].valid;
        SameEntry(largest, counts[largest] - 1, q - 1);
      }
    }

    method SeekToFirst()
      requires Good()
      modifies this, children, Iters(children)
      ensures Ok() && at == 0 && direction == Forward
    {
      hide Split, LowerBound, UpperBound, Positions, Reached, Sorted, Less, MergeAll, KeysAgree;
      for i := 0 to |children|
        invariant AllOk(children)
        invariant forall k :: 0 <= k < i ==> children[k].iter.pos == 0
      {
        children[i].SeekToFirst();
      }
      direction := Forward;
      SplitAtStart(runs, Positions(children));
      FindSmallest(0);
    }

    method SeekToLast()
      requires Good()
      modifies this, children, Iters(children)
      ensures Ok() && at == PrevPos(merged, |merged|) && direction == Reverse
    {
      hide Split, LowerBound, UpperBound, Positions, Reached, Sorted, Less, MergeAll, KeysAgree;
      for i := 0 to |children|
        invariant AllOk(children)
        invariant forall k :: 0 <= k < i ==> children[k].iter.pos == PrevPos(runs[k], |runs[k]|)
      {
        children[i].SeekToLast();
      }
      direction := Reverse;
      SplitAtEnd(runs, Reached(children));
      FindLargest(|merged|);
    }

    method Seek(target: InternalKey)
      requires Good()
      modifies this, children, Iters(children)
      ensures Ok() && at == LowerBound(merged, target) && direction == Forward
    {
      hide Split, LowerBound, UpperBound, Positions, Reached, Sorted, Less, MergeAll, KeysAgree;
      for i := 0 to |children|
        invariant AllOk(children)
        invariant forall k :: 0 <= k < i ==> children[k].iter.pos == LowerBound(runs[k], target)
      {
        children[i].Seek(target);
      }
      direction := Forward;
      SplitAtKey(runs, target);
      assert Positions(children) == Lowers(runs, target);
      FindSmallest(LowerBound(merged, target));
    }

    /** Next, turning around: brings the other children to the first entry after the current key. */
    method TurnForward()
      requires Ok() && Valid() && direction.Reverse?
      modifies this, children, Iters(children)
      ensures Good() && direction == Forward && at == old(at) && current == old(current) && children[current].valid
      ensures Split(runs, OneMore(Positions(children), current), UpperBound(merged, merged[at].k))
    {
      hide Split, LowerBound, UpperBound, Positions, Reached, Sorted, Less, MergeAll, KeysAgree;
      SeekOthers(children, current, true);
      direction := Forward;
      BoundsHere(runs[current], children[current].iter.pos);
      SplitAtKey(runs, merged[at].k);
      assert OneMore(Positions(children), current) == Uppers(runs, merged[at].k);
    }

    /** Prev, turning around: brings the other children to the last entry before the current key. */
    method TurnBack()
      requires Ok() && Valid() && direction.Forward?
      modifies this, children, Iters(children)
      ensures Good() && direction == Reverse && at == old(at) && current == old(current) && children[current].valid
      ensures Split(runs, OneLess(Reached(children), current), LowerBound(merged, merged[at].k))
    {
      hide Split, LowerBound, UpperBound, Positions, Reached, Sorted, Less, MergeAll, KeysAgree;
      SeekOthers(children, current, false);
      direction := Reverse;
      BoundsHere(runs[current], children[current].iter.pos);
      SplitAtKey(runs, merged[at].k);
      assert OneLess(Reached(children), current) == Lowers(runs, merged[at].k);
    }

    lemma NextSplit()
      requires Ok() && Valid() && direction.Forward?
      ensures Split(runs, OneMore(Positions(children), current), at + 1)
    {
      NextIsLeast(runs, Positions(children), at, current);
      SplitMoves(runs, Positions(children), at, current, merged[at].k, OneMore(Positions(children), current));
    }

    lemma PrevSplit()
      requires Ok() && Valid() && direction.Reverse?
      ensures Split(runs, OneLess(Reached(children), current), at)
    {
      LastIsGreatest(runs, Reached(children), at + 1, current);
      SplitMovesBack(runs, Reached(children), at + 1, current, merged[at].k, OneLess(Reached(children), current));
    }

    /** The next entry; turning around, the next key: repetitions of the current one are passed. */
    method Next()
      requires Ok() && Valid()
      modifies this, children, Iters(children)
      ensures Ok() && direction == Forward
      ensures at == if old(direction).Forward? then old(at) + 1 else UpperBound(merged, merged[old(at)].k)
    {
      hide Split, LowerBound, UpperBound, Positions, Reached, Sorted, Less, MergeAll, KeysAgree;
      ghost var q := if direction.Forward? then at + 1 else UpperBound(merged, merged[at].k);
      if direction != Forward {
        TurnForward();
      } else {
        NextSplit();
      }
      ghost var next := OneMore(Positions(children), current);
      children[current].Next();
      assert AllOk(children);
      assert Positions(children) == next;
      FindSmallest(q);
    }

    /** The previous entry; turning around, the previous key. */
    method Prev()
      requires Ok() && Valid()
      modifies this, children, Iters(children)
      ensures Ok() && direction == Reverse
      ensures at == PrevPos(merged, if old(direction).Reverse? then old(at) else LowerBound(merged, merged[old(at)].k))
    {
      hide Split, LowerBound, UpperBound, Positions, Reached, Sorted, Less, MergeAll, KeysAgree;
      ghost var q := if direction.Reverse? then at else LowerBound(merged, merged[at].k);
      if direction != Reverse {
        TurnBack();
      } else {
        PrevSplit();
      }
      StepBack();
      FindLargest(q);
    }

    /** The selected child alone goes one entry back. */
    method StepBack()
      requires Good() && Valid() && children[current].valid && Reached(children)[current] > 0
      modifies children, Iters(children)
      ensures Good() && Reached(children) == OneLess(old(Reached(children)), current)
    {
      hide MergeAll, KeysAgree, Sorted, AllSorted;
      ghost var next := OneLess(Reached(children), current);
      children[current].Prev();
      assert AllOk(children);
      assert Reached(children) == next;
    }
  }

  ghost function OneMore(counts: seq<nat>, c: nat): (r: seq<nat>)
    requires c < |counts|
  {
    counts[c := counts[c] + 1]
  }

  ghost function OneLess(counts: seq<nat>, c: nat): (r: seq<nat>)
    requires c < |counts|
  {
    counts[c := if counts[c] > 0 then counts[c] - 1 else 0]
  }

  /** The loop of a turn: every child but the current one is sought to the current key, then past it going
      forward, before it going back. */
  method SeekOthers(children: seq<IteratorWrapper>, current: nat, forward: bool)
    requires Separate(children) && AllOk(children) && current < |children| && children[current].valid
    requires forall i :: 0 <= i < |children| ==> Sorted(children[i].iter.data)
    modifies children, Iters(children)
    ensures AllOk(children) && unchanged(children[current]) && unchanged(children[current].iter)
    ensures forall i :: 0 <= i < |children| && i != current ==>
              if forward then children[i].iter.pos == UpperBound(children[i].iter.data, children[current].key)
              else UpTo(children[i].iter.data, children[i].iter.pos) == LowerBound(children[i].iter.data, children[current].key)
  {
    hide LowerBound, UpperBound, Sorted;
    for i := 0 to |children|
      invariant AllOk(children) && unchanged(children[current]) && unchanged(children[current].iter)
      invariant forall k :: 0 <= k < i && k != current ==>
                  if forward then children[k].iter.pos == UpperBound(children[k].iter.data, children[current].key)
                  else UpTo(children[k].iter.data, children[k].iter.pos) == LowerBound(children[k].iter.data, children[current].key)
    {
      if i != current {
        if forward {
          children[i].SeekPast(children[current].key);
        } else {
          children[i].SeekBefore(children[current].key);
        }
      }
    }
  }

  ghost function Iters(children: seq<IteratorWrapper>): set<Cursor> {
    set c | c in children :: c.iter
  }

  /** No two children share a wrapper or an iterator. */
  ghost predicate Separate(children: seq<IteratorWrapper>) {
    forall i, j :: 0 <= i < j < |children| ==> children[i] != children[j] && children[i].iter != children[j].iter
  }

  ghost predicate Over(children: seq<IteratorWrapper>, runs: seq<seq<Entry>>) {
    |runs| == |children| && forall i :: 0 <= i < |children| ==> children[i].iter.data == runs[i]
  }

  ghost predicate AllOk(children: seq<IteratorWrapper>)
    reads children, Iters(children)
  {
    forall i :: 0 <= i < |children| ==> children[i].Ok()
  }

  ghost function Positions(children: seq<IteratorWrapper>): (r: seq<nat>)
    reads Iters(children)
    ensures |r| == |children|
    ensures forall i :: 0 <= i < |children| ==> r[i] == children[i].iter.pos
  {
    if children == [] then [] else Positions(children[..|children| - 1]) + [children[|children| - 1].iter.pos]
  }

  ghost function Reached(children: seq<IteratorWrapper>): (r: seq<nat>)
    reads Iters(children)
    ensures |r| == |children|
    ensures forall i :: 0 <= i < |children| ==> r[i] == UpTo(children[i].iter.data, children[i].iter.pos)
  {
    if children == [] then []
    else
      var last := children[|children| - 1].iter;
      Reached(children[..|children| - 1]) + [UpTo(last.data, last.pos)]
  }

}

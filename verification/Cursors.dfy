/** Positions in a sorted run: what every internal iterator of the store refines. */
module Cursors {
  import opened Keys

  /** Index of the first entry not before `target`. */
  function LowerBound(data: seq<Entry>, target: InternalKey): (r: nat)
    ensures r <= |data|
  {
    if data == [] then 0
    else
      var n := |data| - 1;
      if Less(data[n].k, target) then |data| else LowerBound(data[..n], target)
  }

  lemma {:induction false} LowerBoundSplits(data: seq<Entry>, target: InternalKey)
    requires WeaklySorted(data)
    ensures forall i :: 0 <= i < LowerBound(data, target) ==> Less(data[i].k, target)
    ensures forall i :: LowerBound(data, target) <= i < |data| ==> !Less(data[i].k, target)
  {
    if data != [] {
      var n := |data| - 1;
      if Less(data[n].k, target) {
        forall i | 0 <= i < n
          ensures Less(data[i].k, target)
        {
          assert !Less(data[n].k, data[i].k);
        }
      } else {
        LowerBoundSplits(data[..n], target);
      }
    }
  }

  /** Index of the first entry after `target`. */
  function UpperBound(data: seq<Entry>, target: InternalKey): (r: nat)
    ensures r <= |data|
  {
    if data == [] then 0
    else
      var n := |data| - 1;
      if Less(target, data[n].k) then UpperBound(data[..n], target) else |data|
  }

  lemma {:induction false} UpperBoundSplits(data: seq<Entry>, target: InternalKey)
    requires WeaklySorted(data)
    ensures forall i :: 0 <= i < UpperBound(data, target) ==> !Less(target, data[i].k)
    ensures forall i :: UpperBound(data, target) <= i < |data| ==> Less(target, data[i].k)
  {
    if data != [] {
      var n := |data| - 1;
      if Less(target, data[n].k) {
        UpperBoundSplits(data[..n], target);
      } else {
        forall i | 0 <= i < n
          ensures !Less(target, data[i].k)
        {
          assert !Less(data[n].k, data[i].k);
        }
      }
    }
  }

  lemma IndexOrder(data: seq<Entry>, m: nat, n: nat)
    requires Sorted(data) && m < |data| && n < |data|
    ensures Less(data[m].k, data[n].k) <==> m < n
    ensures data[m].k == data[n].k <==> m == n
  {
  }

  lemma BelowTarget(data: seq<Entry>, target: InternalKey, j: nat)
    requires Sorted(data) && j < |data|
    ensures j < LowerBound(data, target) <==> Less(data[j].k, target)
  {
    SortedIsWeak(data);
    LowerBoundSplits(data, target);
  }

  /** Between a smaller entry and one that is not smaller lies the lower bound. */
  lemma LowerBoundAt(data: seq<Entry>, target: InternalKey, r: nat)
    requires Sorted(data) && r <= |data|
    requires r > 0 ==> Less(data[r - 1].k, target)
    requires r < |data| ==> !Less(data[r].k, target)
    ensures LowerBound(data, target) == r
  {
    if r > 0 {
      BelowTarget(data, target, r - 1);
    }
    if r < |data| {
      BelowTarget(data, target, r);
    }
  }

  /** One past the end stands for "not valid", wherever the cursor came from. */
  function PrevPos(data: seq<Entry>, pos: nat): nat {
    if pos == 0 then |data| else pos - 1
  }

  /** How many entries lie at or before a position held in reverse; off the run there are none. */
  function UpTo(data: seq<Entry>, pos: nat): nat {
    if pos < |data| then pos + 1 else 0
  }

  /** An internal iterator over `data`, as its clients see it. */
  class Cursor {
    const data: seq<Entry>
    var pos: nat

    constructor (data: seq<Entry>)
      ensures this.data == data && pos == |data|
    {
      this.data := data;
      pos := |data|;
    }

    predicate Valid()
      reads this
    {
      pos < |data|
    }

    function Current(): Entry
      requires Valid()
      reads this
    {
      data[pos]
    }

    method SeekToFirst()
      modifies this
      ensures pos == 0
    {
      pos := 0;
    }

    method SeekToLast()
      modifies this
      ensures pos == PrevPos(data, |data|)
    {
      pos := PrevPos(data, |data|);
    }

    method Seek(target: InternalKey)
      modifies this
      ensures pos == LowerBound(data, target)
    {
      pos := LowerBound(data, target);
    }

    method Next()
      requires Valid()
      modifies this
      ensures pos == old(pos) + 1
    {
      pos := pos + 1;
    }

    method Prev()
      requires Valid()
      modifies this
      ensures pos == PrevPos(data, old(pos))
    {
      pos := PrevPos(data, pos);
    }
  }
}

/** TwoLevelIterator (db/two_level_iterator.cc): an index of blocks as one cursor over all their entries. */
module TwoLevel {
  import opened Keys
  import opened Cursors

  function Joined(parts: seq<seq<Entry>>): seq<Entry> {
    if parts == [] then [] else Joined(parts[..|parts| - 1]) + parts[|parts| - 1]
  }

  /** Where block `i` starts in the whole. */
  function Start(parts: seq<seq<Entry>>, i: nat): nat
    requires i <= |parts|
  {
    |Joined(parts[..i])|
  }

  lemma {:induction false} BlockInJoined(parts: seq<seq<Entry>>, i: nat)
    requires i < |parts|
    ensures Start(parts, i + 1) == Start(parts, i) + |parts[i]| <= |Joined(parts)|
    ensures forall j :: 0 <= j < |parts[i]| ==> Joined(parts)[Start(parts, i) + j] == parts[i][j]
  {
    var n := |parts| - 1;
    assert parts[..i + 1][..i] == parts[..i];
    if i < n {
      BlockInJoined(parts[..n], i);
      assert parts[..n][..i] == parts[..i] && parts[..n][..i + 1] == parts[..i + 1];
    } else {
      assert parts[..n + 1] == parts;
    }
  }

  lemma StartEnds(parts: seq<seq<Entry>>)
    ensures Start(parts, 0) == 0 && Start(parts, |parts|) == |Joined(parts)|
  {
    assert parts[..|parts|] == parts;
  }

  /** Every position of the whole lies in one block. */
  lemma {:induction false} JoinedPosition(parts: seq<seq<Entry>>, p: nat) returns (i: nat, j: nat)
    requires p < |Joined(parts)|
    ensures i < |parts| && j < |parts[i]| && p == Start(parts, i) + j
  {
    var n := |parts| - 1;
    if p < |Joined(parts[..n])| {
      i, j := JoinedPosition(parts[..n], p);
      assert parts[..n][..i] == parts[..i];
    } else {
      i, j := n, p - |Joined(parts[..n])|;
    }
  }

  lemma {:induction false} StartsAscend(parts: seq<seq<Entry>>, i: nat, k: nat)
    requires i <= k <= |parts|
    ensures Start(parts, i) <= Start(parts, k)
    decreases k
  {
    if i < k {
      BlockInJoined(parts, k - 1);
      StartsAscend(parts, i, k - 1);
    }
  }

  /** Index keys bound the blocks: none below its block's last key, each below the next block's first. */
  ghost predicate Bounds(index: seq<Entry>, parts: seq<seq<Entry>>) {
    && |index| == |parts| && WeaklySorted(index)
    && (forall i, j :: 0 <= i < |parts| && 0 <= j < |parts[i]| ==> !Less(index[i].k, parts[i][j].k))
    && (forall i, j :: 1 <= i < |parts| && 0 <= j < |parts[i]| ==> Less(index[i - 1].k, parts[i][j].k))
  }

  /** The index key of block `i` is not below the block's last key, and below the next block's first. */
  ghost predicate Fenced(index: seq<Entry>, parts: seq<seq<Entry>>, i: nat) {
    && i < |index| && i < |parts| && parts[i] != []
    && !Less(index[i].k, parts[i][|parts[i]| - 1].k)
    && (i + 1 < |parts| ==> parts[i + 1] != [] && Less(index[i].k, parts[i + 1][0].k))
  }

  /** A shortened index key even has a smaller user key than the next block. */
  ghost predicate UserFenced(index: seq<Entry>, parts: seq<seq<Entry>>) {
    forall i: nat :: i + 1 < |index| == |parts| ==> UserFence(index, parts, i)
  }

  ghost predicate UserFence(index: seq<Entry>, parts: seq<seq<Entry>>, i: nat)
    requires i + 1 < |index| == |parts|
  {
    && parts[i] != [] && parts[i + 1] != []
    && (index[i].k == parts[i][|parts[i]| - 1].k || index[i].k.user < parts[i + 1][0].k.user)
  }

  lemma BoundsFromFences(index: seq<Entry>, parts: seq<seq<Entry>>)
    requires |index| == |parts| && Sorted(Joined(parts))
    requires forall i: nat :: i < |parts| ==> Fenced(index, parts, i)
    ensures Bounds(index, parts)
  {
    hide Joined, Sorted;
    forall i: nat, j: nat | i < |parts| && j < |parts[i]|
      ensures !Less(index[i].k, parts[i][j].k)
      ensures i > 0 ==> Less(index[i - 1].k, parts[i][j].k)
    {
      WithinFences(index, parts, i, j);
    }
    forall i: nat, j: nat | i < j < |parts|
      ensures !Less(index[j].k, index[i].k)
    {
      assert Fenced(index, parts, i) && Fenced(index, parts, j);
      var a, b := parts[i + 1][0].k, parts[j][|parts[j]| - 1].k;
      BlocksAscend(parts, i + 1, j);
      Trans(a, b, index[j].k);
      Chain(index[i].k, a, b, index[j].k);
    }
  }

  lemma Chain(x: InternalKey, a: InternalKey, b: InternalKey, y: InternalKey)
    requires Less(x, a) && !Less(b, a) && !Less(y, b)
    ensures !Less(y, x)
  {
  }

  lemma WithinFences(index: seq<Entry>, parts: seq<seq<Entry>>, i: nat, j: nat)
    requires |index| == |parts| && Sorted(Joined(parts))
    requires forall i: nat :: i < |parts| ==> Fenced(index, parts, i)
    requires i < |parts| && j < |parts[i]|
    ensures !Less(index[i].k, parts[i][j].k)
    ensures i > 0 ==> Less(index[i - 1].k, parts[i][j].k)
  {
    hide Joined;
    PartSorted(parts, i);
    var n := |parts[i]| - 1;
    assert Fenced(index, parts, i);
    if j < n {
      assert Less(parts[i][j].k, parts[i][n].k);
    }
    if i > 0 {
      assert Fenced(index, parts, i - 1);
      if 0 < j {
        assert Less(parts[i][0].k, parts[i][j].k);
      }
    }
  }

  /** The first key of a block is not above the last key of the same or a later block. */
  lemma BlocksAscend(parts: seq<seq<Entry>>, i: nat, k: nat)
    requires Sorted(Joined(parts)) && i <= k < |parts| && parts[i] != [] && parts[k] != []
    ensures !Less(parts[k][|parts[k]| - 1].k, parts[i][0].k)
  {
    var w := Joined(parts);
    BlockInJoined(parts, i);
    BlockInJoined(parts, k);
    StartsAscend(parts, i, k);
    var p, q := Start(parts, i), Start(parts, k) + |parts[k]| - 1;
    assert w[p] == parts[i][0] && w[q] == parts[k][|parts[k]| - 1] && p <= q;
    if p < q {
      assert Less(w[p].k, w[q].k);
    }
  }

  /** Seeking the index, then the block found, finds the place in the whole. */
  lemma SeekBoth(index: seq<Entry>, parts: seq<seq<Entry>>, target: InternalKey)
    requires Bounds(index, parts) && Sorted(Joined(parts))
    ensures var i := LowerBound(index, target);
            LowerBound(Joined(parts), target) == if i < |parts| then Start(parts, i) + LowerBound(parts[i], target) else |Joined(parts)|
  {
    hide Joined, Start, LowerBound;
    var whole, i := Joined(parts), LowerBound(index, target);
    var r := if i < |parts| then Start(parts, i) + LowerBound(parts[i], target) else |whole|;
    if i < |parts| {
      BlockInJoined(parts, i);
    }
    forall p | 0 <= p < |whole|
      ensures p < r <==> Less(whole[p].k, target)
    {
      SeekBothAt(index, parts, target, p);
    }
    LowerBoundAt(whole, target, r);
  }

  lemma SeekBothAt(index: seq<Entry>, parts: seq<seq<Entry>>, target: InternalKey, p: nat)
    requires Bounds(index, parts) && Sorted(Joined(parts)) && p < |Joined(parts)|
    ensures var i := LowerBound(index, target);
            p < (if i < |parts| then Start(parts, i) + LowerBound(parts[i], target) else |Joined(parts)|) <==> Less(Joined(parts)[p].k, target)
  {
    hide Joined, Start, LowerBound, Sorted;
    var i := LowerBound(index, target);
    LowerBoundSplits(index, target);
    var k, j := JoinedPosition(parts, p);
    BlockInJoined(parts, k);
    if i < |parts| {
      PartSorted(parts, i);
      LowerBoundSplits(parts[i], target);
    }
    if k < i {
      StartsAscend(parts, k + 1, if i < |parts| then i else |parts|);
      StartEnds(parts);
      Trans(parts[k][j].k, index[k].k, target);
    } else if k > i {
      BlockInJoined(parts, i);
      StartsAscend(parts, i + 1, k);
      InLaterBlock(index, parts, target, i, k, j);
    }
  }

  lemma InLaterBlock(index: seq<Entry>, parts: seq<seq<Entry>>, target: InternalKey, i: nat, k: nat, j: nat)
    requires Bounds(index, parts) && i < k < |parts| && j < |parts[k]| && !Less(index[i].k, target)
    ensures !Less(parts[k][j].k, target)
  {
    assert Less(index[k - 1].k, parts[k][j].k);
    if i < k - 1 {
      assert !Less(index[k - 1].k, index[i].k);
    }
  }

  lemma Trans(a: InternalKey, b: InternalKey, c: InternalKey)
    requires !Less(b, a)
    ensures Less(b, c) ==> Less(a, c)
    ensures Less(b, c) ==> !Less(c, a)
  {
  }

  lemma PartSorted(parts: seq<seq<Entry>>, i: nat)
    requires Sorted(Joined(parts)) && i < |parts|
    ensures Sorted(parts[i]) && WeaklySorted(parts[i])
  {
    BlockInJoined(parts, i);
    var w := Joined(parts);
    forall j, k | 0 <= j < k < |parts[i]|
      ensures Less(parts[i][j].k, parts[i][k].k)
    {
      assert Less(w[Start(parts, i) + j].k, w[Start(parts, i) + k].k);
    }
  }

  /** A lookup that looks only into the block the index points to. */
  function GetInOneBlock(index: seq<Entry>, parts: seq<seq<Entry>>, target: InternalKey): Option<Entry>
    requires |index| == |parts|
  {
    var i := LowerBound(index, target);
    if i == |index| then None
    else
      var j := LowerBound(parts[i], target);
      if j == |parts[i]| then None else Some(parts[i][j])
  }

  /** It meets the target's user key exactly if the first entry of the whole not before the target has it. */
  lemma OneBlockFindsUserKey(index: seq<Entry>, parts: seq<seq<Entry>>, target: InternalKey)
    requires Bounds(index, parts) && UserFenced(index, parts) && Sorted(Joined(parts))
    ensures var whole := Joined(parts);
            var r, got := LowerBound(whole, target), GetInOneBlock(index, parts, target);
            && (got.Some? && got.value.k.user == target.user <==> r < |whole| && whole[r].k.user == target.user)
            && (got.Some? && got.value.k.user == target.user ==> got.value == whole[r])
  {
    hide Joined, LowerBound, Start, Sorted;
    SeekBoth(index, parts, target);
    var i := LowerBound(index, target);
    if i < |index| {
      BlockInJoined(parts, i);
      if LowerBound(parts[i], target) == |parts[i]| {
        if i + 1 < |index| {
          assert UserFence(index, parts, i);
          BlockInJoined(parts, i + 1);
          assert Joined(parts)[Start(parts, i + 1) + 0] == parts[i + 1][0];
          PastBlock(index, parts, target, i);
        } else {
          StartEnds(parts);
        }
      }
    }
  }

  /** A target beyond all of a block's entries, but not beyond its index key, has a user key below the next block's. */
  lemma PastBlock(index: seq<Entry>, parts: seq<seq<Entry>>, target: InternalKey, i: nat)
    requires Bounds(index, parts) && Sorted(Joined(parts)) && i + 1 < |index| && UserFence(index, parts, i)
    requires i == LowerBound(index, target) && LowerBound(parts[i], target) == |parts[i]|
    ensures target.user < parts[i + 1][0].k.user
  {
    hide Joined;
    PartSorted(parts, i);
    LowerBoundSplits(index, target);
    LowerBoundSplits(parts[i], target);
    assert Less(parts[i][|parts[i]| - 1].k, target);
    assert !Less(index[i].k, target);
  }

  // ------------------------------------------------------------------ the iterator

  /** The blocks an index points to. */
  function Blocks(index: seq<Entry>, read: Bytes -> seq<Entry>): (r: seq<seq<Entry>>)
    ensures |r| == |index|
    ensures forall i :: 0 <= i < |index| ==> r[i] == read(index[i].v)
  {
    if index == [] then [] else Blocks(index[..|index| - 1], read) + [read(index[|index| - 1].v)]
  }

  class TwoLevelIterator {
    const index: Cursor
    /** The block function: the entries behind a handle. */
    const read: Bytes -> seq<Entry>
    var data: Cursor?
    var handle: Bytes
    ghost const parts: seq<seq<Entry>>
    ghost const whole: seq<Entry>
    /** Position in the whole, or its end. */
    ghost var at: nat

    constructor (index: Cursor, read: Bytes -> seq<Entry>)
      requires index.pos <= |index.data|
      requires Bounds(index.data, Blocks(index.data, read)) && Sorted(Joined(Blocks(index.data, read)))
      ensures this.index == index && whole == Joined(Blocks(index.data, read))
      ensures Ok() && !Valid() && data == null
    {
      this.index, this.read := index, read;
      data, handle := null, [];
      parts := Blocks(index.data, read);
      whole := Joined(Blocks(index.data, read));
      at := |Joined(Blocks(index.data, read))|;
    }

    ghost predicate Good()
      reads this, index, data
    {
      && parts == Blocks(index.data, read) && whole == Joined(parts)
      && Bounds(index.data, parts) && Sorted(whole) && index.pos <= |index.data|
      && (data != null ==> data != index && data.data == read(handle) && data.pos <= |data.data|)
    }

    predicate Valid()
      reads this, data
    {
      data != null && data.Valid()
    }

    /** The data iterator is over the block the index is at. */
    ghost predicate InBlock()
      reads this, index, data
    {
      data != null && index.Valid() && index.pos < |parts| && handle == index.Current().v && data.data == parts[index.pos]
    }

    ghost predicate Ok()
      reads this, index, data
    {
      && Good() && at <= |whole| && Valid() == (at < |whole|)
      && (Valid() ==> InBlock() && at == Start(parts, index.pos) + data.pos)
    }

    function Current(): Entry
      requires Valid()
      reads this, data
    {
      data.Current()
    }

    lemma Presents()
      requires Ok() && Valid()
      ensures Current() == whole[at]
    {
      BlockInJoined(parts, index.pos);
    }

    method InitDataBlock()
      requires Good()
      modifies this`data, this`handle
      ensures Good() && (data == null || data == old(data) || fresh(data))
      ensures if index.Valid() then InBlock() else data == null
    {
      hide Bounds, Sorted, Joined;
      if !index.Valid() {
        data := null;
        return;
      }
      var h := index.Current().v;
      if data != null && h == handle {
        return;
      }
      var iter := new Cursor(read(h));
      handle := h;
      data := iter;
    }

    method SkipEmptyDataBlocksForward(ghost q: nat)
      requires Good() && q <= |whole|
      requires if data == null then !index.Valid() && q == |whole| else InBlock() && q == Start(parts, index.pos) + data.pos
      modifies this`data, this`handle, this`at, index, data
      ensures Ok() && at == q && (data == null || data == old(data) || fresh(data))
    {
      hide Bounds, Sorted, Joined, Start;
      while data == null || !data.Valid()
        invariant Good() && (data == null || data == old(data) || fresh(data))
        invariant if data == null then !index.Valid() && q == |whole| else InBlock() && q == Start(parts, index.pos) + data.pos
        decreases |index.data| - index.pos, data != null
      {
        if !index.Valid() {
          data := null;
          at := q;
          return;
        }
        BlockInJoined(parts, index.pos);
        StartEnds(parts);
        index.Next();
        InitDataBlock();
        if data != null {
          data.SeekToFirst();
        }
      }
      at := q;
      BlockInJoined(parts, index.pos);
    }

    method SkipEmptyDataBlocksBackward(ghost c: nat)
      requires Good() && c <= |whole|
      requires if data == null then !index.Valid() && c == 0 else InBlock() && c == Start(parts, index.pos) + UpTo(data.data, data.pos)
      modifies this`data, this`handle, this`at, index, data
      ensures Ok() && at == PrevPos(whole, c) && (data == null || data == old(data) || fresh(data))
    {
      hide Bounds, Sorted, Joined, Start;
      while data == null || !data.Valid()
        invariant Good() && (data == null || data == old(data) || fresh(data))
        invariant if data == null then !index.Valid() && c == 0 else InBlock() && c == Start(parts, index.pos) + UpTo(data.data, data.pos)
        decreases if index.Valid() then index.pos + 1 else 0, data != null
      {
        if !index.Valid() {
          data := null;
          at := |whole|;
          return;
        }
        StartEnds(parts);
        if index.pos > 0 {
          BlockInJoined(parts, index.pos - 1);
        }
        index.Prev();
        InitDataBlock();
        if data != null {
          data.SeekToLast();
        }
      }
      at := c - 1;
      BlockInJoined(parts, index.pos);
    }

    method SeekToFirst()
      requires Good()
      modifies this`data, this`handle, this`at, index, data
      ensures Ok() && at == 0 && (data == null || data == old(data) || fresh(data))
    {
      hide Bounds, Sorted, Joined, Start;
      StartEnds(parts);
      index.SeekToFirst();
      InitDataBlock();
      if data != null {
        data.SeekToFirst();
      }
      SkipEmptyDataBlocksForward(0);
    }

    method SeekToLast()
      requires Good()
      modifies this`data, this`handle, this`at, index, data
      ensures Ok() && at == PrevPos(whole, |whole|) && (data == null || data == old(data) || fresh(data))
    {
      hide Bounds, Sorted, Joined, Start;
      StartEnds(parts);
      if |parts| > 0 {
        BlockInJoined(parts, |parts| - 1);
      }
      index.SeekToLast();
      InitDataBlock();
      if data != null {
        data.SeekToLast();
      }
      SkipEmptyDataBlocksBackward(|whole|);
    }

    method Seek(target: InternalKey)
      requires Good()
      modifies this`data, this`handle, this`at, index, data
      ensures Ok() && at == LowerBound(whole, target) && (data == null || data == old(data) || fresh(data))
    {
      hide Bounds, Sorted, Joined, Start;
      SeekBoth(index.data, parts, target);
      index.Seek(target);
      InitDataBlock();
      if data != null {
        data.Seek(target);
      }
      SkipEmptyDataBlocksForward(LowerBound(whole, target));
    }

    method Next()
      requires Ok() && Valid()
      modifies this`data, this`handle, this`at, index, data
      ensures Ok() && at == old(at) + 1 && (data == null || data == old(data) || fresh(data))
    {
      hide Bounds, Sorted, Joined, Start;
      data.Next();
      SkipEmptyDataBlocksForward(at + 1);
    }

    method Prev()
      requires Ok() && Valid()
      modifies this`data, this`handle, this`at, index, data
      ensures Ok() && at == PrevPos(whole, old(at)) && (data == null || data == old(data) || fresh(data))
    {
      hide Bounds, Sorted, Joined, Start;
      data.Prev();
      SkipEmptyDataBlocksBackward(at);
    }
  }
}

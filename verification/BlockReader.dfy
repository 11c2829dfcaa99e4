/** BlockIter (db/block.cc): a cursor over the entries of a finished block. */
module BlockReader {
  import opened Keys
  import opened Coding
  import opened Blocks
  import opened Cursors

  /** The entries of a block in terms of a comparator's order. */
  function Entries(order: Bytes -> InternalKey, cells: seq<Cell>): (r: seq<Entry>)
    ensures |r| == |cells|
    ensures forall i :: 0 <= i < |cells| ==> r[i] == Entry(order(cells[i].key), cells[i].value)
  {
    EntriesOf(order, Pairs(cells))
  }

  /** The end of the run of restart keys smaller than the target bounds the lower bound from below. */
  lemma BelowMark(data: seq<Entry>, target: InternalKey, i: nat)
    requires Sorted(data) && i < |data| && Less(data[i].k, target)
    ensures forall j :: 0 <= j <= i ==> Less(data[j].k, target)
  {
  }

  lemma RestartIs(data: Bytes, limit: nat, cells: seq<Cell>, marks: seq<nat>, j: nat)
    requires Finished(data, limit, cells, marks) && j < |marks|
    ensures limit + 4 * j + 4 <= |data|
    ensures Unfixed(data[limit + 4 * j..limit + 4 * j + 4]) == Offset(cells, limit, marks[j])
  {
    assert RestartStored(data, limit, cells, marks, j);
    MarkInside(data, limit, cells, marks, j);
    Fixed32RoundTrip(Offset(cells, limit, marks[j]));
  }

  lemma MarkInside(data: Bytes, limit: nat, cells: seq<Cell>, marks: seq<nat>, j: nat)
    requires Finished(data, limit, cells, marks) && j < |marks|
    ensures Offset(cells, limit, marks[j]) <= limit < LIMIT32
    ensures marks[j] <= |cells| && (marks[j] == |cells| ==> cells == [])
  {
    if marks[j] < |cells| {
      OffsetsAscend(data, limit, cells, marks[j], |cells|);
    }
  }

  /** Offsets compare as cell numbers do. */
  lemma OffsetOrder(data: Bytes, limit: nat, cells: seq<Cell>, marks: seq<nat>, i: nat, j: nat)
    requires Finished(data, limit, cells, marks) && i <= |cells| && j <= |cells|
    ensures Offset(cells, limit, i) < Offset(cells, limit, j) <==> i < j
    ensures Offset(cells, limit, i) <= limit
  {
    if i < j {
      OffsetsAscend(data, limit, cells, i, j);
    } else if j < i {
      OffsetsAscend(data, limit, cells, j, i);
    }
    if i < |cells| {
      OffsetsAscend(data, limit, cells, i, |cells|);
    }
  }

  class BlockIter {
    const order: Bytes -> InternalKey
    const data: Bytes
    const restarts: nat
    const numRestarts: nat
    var current: nat
    var restartIndex: nat
    var key: Bytes
    /** The value slice, as a range of `data`. */
    var valueStart: nat
    var valueEnd: nat
    ghost const cells: seq<Cell>
    ghost const marks: seq<nat>
    /** The cell the iterator is at, or their number. */
    ghost var at: nat

    constructor (order: Bytes -> InternalKey, data: Bytes, restarts: nat, numRestarts: nat, ghost cells: seq<Cell>, ghost marks: seq<nat>)
      requires Finished(data, restarts, cells, marks) && numRestarts == |marks| && Sorted(Entries(order, cells))
      ensures this.order == order && this.data == data && this.cells == cells
      ensures Ok() && at == |cells|
    {
      this.order, this.data, this.restarts, this.numRestarts := order, data, restarts, numRestarts;
      this.cells, this.marks := cells, marks;
      current, restartIndex := restarts, numRestarts;
      key, valueStart, valueEnd := [], 0, 0;
      at := |cells|;
    }

    /** The block is well formed and in order. */
    ghost predicate Good() {
      Finished(data, restarts, cells, marks) && numRestarts == |marks| && Sorted(Entries(order, cells))
    }

    ghost predicate Ok()
      reads this
    {
      && Good() && at <= |cells| && current == Offset(cells, restarts, at)
      && (at < |cells| ==> AtCell(at) && Indexed(at))
    }

    ghost predicate AtCell(i: nat)
      requires i < |cells|
      reads this
    {
      && key == cells[i].key && valueEnd == Offset(cells, restarts, i + 1) && valueEnd <= |data|
      && valueStart <= valueEnd && data[valueStart..valueEnd] == cells[i].value
    }

    /** The remembered restart point is at or before cell `i`, and the next one is not before it. */
    ghost predicate Indexed(i: nat)
      reads this
    {
      && restartIndex < numRestarts == |marks| && marks[restartIndex] <= i
      && (restartIndex + 1 < numRestarts ==> i <= marks[restartIndex + 1])
    }

    /** The parser will read cell `i` next, and has what it needs of the previous key. */
    ghost predicate Poised(i: nat)
      reads this
    {
      && i <= |cells| && valueEnd == Offset(cells, restarts, i)
      && (i < |cells| ==>
            && restartIndex < numRestarts == |marks| && marks[restartIndex] <= i
            && cells[i].shared <= |key| && cells[i].shared <= |cells[i].key|
            && key[..cells[i].shared] == cells[i].key[..cells[i].shared])
    }

    predicate Valid()
      reads this
    {
      current < restarts
    }

    lemma Shape()
      requires Good()
      ensures |marks| == numRestarts > 0 && marks[0] == 0 && |data| == restarts + 4 * numRestarts + 4
    {
    }

    lemma ValidInside()
      requires Ok()
      ensures Valid() <==> at < |cells|
    {
      OffsetOrder(data, restarts, cells, marks, at, |cells|);
    }

    function Value(): Bytes
      requires valueStart <= valueEnd <= |data|
      reads this
    {
      data[valueStart..valueEnd]
    }

    function GetRestartPoint(index: nat): nat
      requires restarts + 4 * index + 4 <= |data|
    {
      Unfixed(data[restarts + 4 * index..restarts + 4 * index + 4])
    }

    function NextEntryOffset(): nat
      reads this
    {
      valueEnd
    }

    method SeekToRestartPoint(index: nat)
      requires Good() && index < numRestarts
      modifies this`key, this`restartIndex, this`valueStart, this`valueEnd
      ensures restartIndex == index && Poised(marks[index])
    {
      RestartIs(data, restarts, cells, marks, index);
      MarkInside(data, restarts, cells, marks, index);
      key := [];
      restartIndex := index;
      valueStart, valueEnd := GetRestartPoint(index), GetRestartPoint(index);
    }

    /** Moves the remembered restart point up to cell `i`. */
    method AdvanceRestart(ghost i: nat)
      requires Good() && i < |cells| && current == Offset(cells, restarts, i)
      requires restartIndex < numRestarts == |marks| && marks[restartIndex] <= i
      modifies `restartIndex
      ensures Indexed(i)
    {
      hide Finished, Sorted, Entries;
      Shape();
      while restartIndex + 1 < numRestarts && GetRestartPoint(restartIndex + 1) < current
        invariant restartIndex < numRestarts && marks[restartIndex] <= i
        decreases numRestarts - restartIndex
      {
        MarkOrder(data, restarts, cells, marks, restartIndex + 1, i);
        restartIndex := restartIndex + 1;
      }
      if restartIndex + 1 < numRestarts {
        MarkOrder(data, restarts, cells, marks, restartIndex + 1, i);
      }
    }

    /** Reads the cell the parser is poised at; false at the end of the block. */
    method ParseNextKey(ghost i: nat) returns (ok: bool)
      requires Good() && Poised(i)
      modifies this
      ensures Ok() && at == i && ok == (i < |cells|)
      ensures ok ==> Poised(i + 1)
    {
      hide Finished, Sorted, Entries, DecodeEntry;
      Shape();
      OffsetOrder(data, restarts, cells, marks, i, |cells|);
      current := NextEntryOffset();
      at := i;
      if current >= restarts {
        current := restarts;
        restartIndex := numRestarts;
        return false;
      }
      CellParts(data, restarts, cells, marks, i);
      var head := DecodeEntry(data[current..restarts]);
      if head.None? || |key| < head.value.shared {
        assert false;
      }
      var h := head.value;
      var p := restarts - |h.rest|;
      key := key[..h.shared] + h.rest[..h.nonShared];
      valueStart := p + h.nonShared;
      valueEnd := valueStart + h.valueLength;
      AdvanceRestart(i);
      NextFollows(data, restarts, cells, marks, i);
      ok := true;
    }

    method SeekToFirst()
      requires Ok()
      modifies this
      ensures Ok() && at == 0
    {
      SeekToRestartPoint(0);
      var ok := ParseNextKey(marks[0]);
    }

    method SeekToLast()
      requires Ok()
      modifies this
      ensures Ok() && at == PrevPos(Entries(order, cells), |cells|)
    {
      hide Finished, Sorted, Entries;
      Shape();
      SeekToRestartPoint(numRestarts - 1);
      ghost var i := marks[numRestarts - 1];
      MarkInside(data, restarts, cells, marks, numRestarts - 1);
      while true
        invariant Good() && Poised(i)
        invariant i < |cells| || cells == []
        decreases |cells| - i
      {
        var ok := ParseNextKey(i);
        if ok {
          OffsetOrder(data, restarts, cells, marks, i + 1, |cells|);
        }
        if !(ok && NextEntryOffset() < restarts) {
          break;
        }
        i := i + 1;
      }
    }

    method Next()
      requires Ok() && Valid()
      modifies this
      ensures Ok() && at == old(at) + 1
    {
      ValidInside();
      NextFollows(data, restarts, cells, marks, at);
      var ok := ParseNextKey(at + 1);
    }

    method Prev()
      requires Ok() && Valid()
      modifies this
      ensures Ok() && at == PrevPos(Entries(order, cells), old(at))
    {
      hide Finished, Sorted, Entries;
      Shape();
      ValidInside();
      ghost var from := at;
      var original := current;
      while GetRestartPoint(restartIndex) >= original
        invariant Good() && restartIndex < numRestarts && marks[restartIndex] <= from == at < |cells|
        invariant original == Offset(cells, restarts, from)
        decreases restartIndex
      {
        MarkOrder(data, restarts, cells, marks, restartIndex, from);
        if restartIndex == 0 {
          current := restarts;
          restartIndex := numRestarts;
          at := |cells|;
          return;
        }
        restartIndex := restartIndex - 1;
        MarkBefore(data, restarts, cells, marks, restartIndex);
      }
      MarkOrder(data, restarts, cells, marks, restartIndex, from);
      SeekToRestartPoint(restartIndex);
      ghost var i := marks[restartIndex];
      while true
        invariant Good() && Poised(i) && i < from < |cells| && original == Offset(cells, restarts, from)
        decreases from - i
      {
        var ok := ParseNextKey(i);
        OffsetOrder(data, restarts, cells, marks, i + 1, from);
        if !(ok && NextEntryOffset() < original) {
          break;
        }
        i := i + 1;
      }
    }

    /** The binary search over the restart points: below the one returned every key is less than the target. */
    method FindRestart(target: Bytes, left0: nat, right0: nat) returns (left: nat)
      requires Good() && left0 <= right0 < numRestarts == |marks|
      requires left0 > 0 ==> marks[left0] < |cells| && Less(Entries(order, cells)[marks[left0]].k, order(target))
      ensures left0 <= left <= right0
      ensures left > 0 ==> marks[left] < |cells| && Less(Entries(order, cells)[marks[left]].k, order(target))
    {
      hide Finished, LowerBound, DecodeEntry, Less, Sorted;
      Shape();
      ghost var es := Entries(order, cells);
      left := left0;
      var right := right0;
      while left < right
        invariant left0 <= left <= right <= right0
        invariant left > 0 ==> marks[left] < |cells| && Less(es[marks[left]].k, order(target))
        decreases right - left
      {
        var mid: nat := (left + right + 1) / 2;
        MarkCell(data, restarts, cells, marks, mid);
        var head := DecodeEntry(data[GetRestartPoint(mid)..restarts]);
        if head.None? || head.value.shared != 0 {
          assert false;
        }
        var midKey := head.value.rest[..head.value.nonShared];
        if Less(order(midKey), order(target)) {
          left := mid;
        } else {
          right := mid - 1;
        }
      }
    }

    /** The first entry not before `target`, from whatever position, with the search narrowed to one side
        of the current entry and the seek skipped when the current restart run is the right one. */
    method Seek(target: Bytes)
      requires Ok()
      modifies this
      ensures Ok() && at == LowerBound(Entries(order, cells), order(target))
    {
      hide Finished, LowerBound, DecodeEntry, Less;
      Shape();
      ghost var es := Entries(order, cells);
      var left: nat, right: nat := 0, numRestarts - 1;
      var before, after := false, false;
      ValidInside();
      if Valid() {
        before, after := Less(order(key), order(target)), Less(order(target), order(key));
        if before {
          left := restartIndex;
          BelowMark(es, order(target), at);
        } else if after {
          right := restartIndex;
        } else {
          SeekHere(es, order(target), at);
          return;
        }
      }
      left := FindRestart(target, left, right);
      var skipSeek := Valid() && left == restartIndex && before;
      ghost var i: nat := at + 1;
      if skipSeek {
        NextFollows(data, restarts, cells, marks, at);
      } else {
        MarkInside(data, restarts, cells, marks, left);
        SeekToRestartPoint(left);
        i := marks[left];
        if left > 0 {
          BelowMark(es, order(target), i);
        }
      }
      ScanTo(target, i);
    }

    /** The linear scan that ends a seek. */
    method ScanTo(target: Bytes, ghost start: nat)
      requires Good() && Poised(start)
      requires forall j :: 0 <= j < start ==> Less(Entries(order, cells)[j].k, order(target))
      modifies this
      ensures Ok() && at == LowerBound(Entries(order, cells), order(target))
    {
      hide Finished, LowerBound, Less;
      ghost var es := Entries(order, cells);
      ghost var i := start;
      while true
        invariant Good() && Poised(i)
        invariant forall j :: 0 <= j < i ==> Less(es[j].k, order(target))
        decreases |cells| - i
      {
        var ok := ParseNextKey(i);
        if !ok {
          LowerBoundAt(es, order(target), i);
          return;
        }
        if !Less(order(key), order(target)) {
          LowerBoundAt(es, order(target), i);
          return;
        }
        i := i + 1;
      }
    }
  }

  // ------------------------------------------------------------------ small facts

  lemma MarkOrder(data: Bytes, limit: nat, cells: seq<Cell>, marks: seq<nat>, j: nat, i: nat)
    requires Finished(data, limit, cells, marks) && j < |marks| && i < |cells|
    ensures limit + 4 * j + 4 <= |data|
    ensures Unfixed(data[limit + 4 * j..limit + 4 * j + 4]) < Offset(cells, limit, i) <==> marks[j] < i
  {
    RestartIs(data, limit, cells, marks, j);
    MarkInside(data, limit, cells, marks, j);
    OffsetOrder(data, limit, cells, marks, marks[j], i);
  }

  lemma MarkBefore(data: Bytes, limit: nat, cells: seq<Cell>, marks: seq<nat>, j: nat)
    requires Finished(data, limit, cells, marks) && j + 1 < |marks|
    ensures marks[j] < marks[j + 1]
  {
  }

  /** With more than one restart point, each stands at a cell stored whole. */
  lemma MarkCell(data: Bytes, limit: nat, cells: seq<Cell>, marks: seq<nat>, j: nat)
    requires Finished(data, limit, cells, marks) && j < |marks| && |marks| > 1
    ensures limit + 4 * j + 4 <= |data| && marks[j] < |cells|
    ensures var offset := Unfixed(data[limit + 4 * j..limit + 4 * j + 4]);
            && offset <= limit
            && var head := DecodeEntry(data[offset..limit]);
               && head.Some? && head.value.shared == 0 && head.value.nonShared <= |head.value.rest|
               && head.value.rest[..head.value.nonShared] == cells[marks[j]].key
  {
    RestartIs(data, limit, cells, marks, j);
    MarkInside(data, limit, cells, marks, j);
    assert cells != [];
    CellParts(data, limit, cells, marks, marks[j]);
  }

  lemma NextFollows(data: Bytes, limit: nat, cells: seq<Cell>, marks: seq<nat>, i: nat)
    requires Finished(data, limit, cells, marks) && i < |cells|
    ensures i + 1 < |cells| ==>
              var c := cells[i + 1];
              c.shared <= |c.key| && c.shared <= |cells[i].key| && c.key[..c.shared] == cells[i].key[..c.shared]
  {
    if i + 1 < |cells| {
      assert CellInPlace(data, limit, cells, i + 1);
    }
  }

  /** What decoding a cell's bytes gives, and where its value lies. */
  lemma CellParts(data: Bytes, limit: nat, cells: seq<Cell>, marks: seq<nat>, i: nat)
    requires Finished(data, limit, cells, marks) && i < |cells|
    ensures var c := cells[i];
            && c.offset <= limit <= |data| && c.shared <= |c.key|
            && var head := DecodeEntry(data[c.offset..limit]);
               && head.Some?
               && var h := head.value;
                  && h.shared == c.shared && h.nonShared == |c.key| - c.shared <= |h.rest| <= limit
                  && h.rest[..h.nonShared] == c.key[c.shared..]
                  && limit - |h.rest| + h.nonShared + h.valueLength == Offset(cells, limit, i + 1) <= |data|
                  && data[limit - |h.rest| + h.nonShared..Offset(cells, limit, i + 1)] == c.value
  {
    CellDecodes(data, limit, cells, i);
    assert CellInPlace(data, limit, cells, i);
    var c, next := cells[i], Offset(cells, limit, i + 1);
    ValueLast(data, c, next);
  }

  lemma ValueLast(data: Bytes, c: Cell, next: nat)
    requires c.offset <= next <= |data| && c.shared <= |c.key| && data[c.offset..next] == CellBytes(c)
    ensures |c.value| <= next - c.offset && data[next - |c.value|..next] == c.value
  {
    var b := CellBytes(c);
    assert data[next - |c.value|..next] == b[|b| - |c.value|..];
  }

  lemma SeekHere(data: seq<Entry>, target: InternalKey, i: nat)
    requires Sorted(data) && i < |data| && !Less(data[i].k, target) && !Less(target, data[i].k)
    ensures LowerBound(data, target) == i
  {
    LowerBoundAt(data, target, i);
  }

  // ------------------------------------------------------------------ opening a block

  /** What Block's constructor and NewIterator make of some bytes. */
  datatype Opened = BadBlock | NoEntries | Iterable(restarts: nat, numRestarts: nat)

  function OpenBlock(data: Bytes): Opened {
    if |data| < 4 then BadBlock
    else
      var n := Unfixed(data[|data| - 4..]);
      if n > (|data| - 4) / 4 then BadBlock
      else if n == 0 then NoEntries
      else Iterable(|data| - (1 + n) * 4, n)
  }

  lemma FinishedOpens(data: Bytes, limit: nat, cells: seq<Cell>, marks: seq<nat>)
    requires Finished(data, limit, cells, marks)
    ensures OpenBlock(data) == Iterable(limit, |marks|)
  {
    Fixed32RoundTrip(|marks|);
  }

  /** All pairs from an offset on, by parsing straight through. */
  function ParseFrom(data: Bytes, limit: nat, p: nat, previous: Bytes): seq<KV>
    requires limit <= |data|
    decreases limit - p
  {
    if p >= limit then []
    else
      match DecodeEntry(data[p..limit])
      case None => []
      case Some(h) =>
        if |h.rest| >= limit - p || |previous| < h.shared || |h.rest| < h.nonShared + h.valueLength then []
        else
          var key := previous[..h.shared] + h.rest[..h.nonShared];
          var value := h.rest[h.nonShared..h.nonShared + h.valueLength];
          [KV(key, value)] + ParseFrom(data, limit, limit - |h.rest| + h.nonShared + h.valueLength, key)
  }

  /** The pairs stored in a block. */
  function ParseBlock(data: Bytes): seq<KV> {
    match OpenBlock(data)
    case Iterable(restarts, n) => ParseFrom(data, restarts, 0, [])
    case _ => []
  }

  lemma {:induction false} ParsesCells(data: Bytes, limit: nat, cells: seq<Cell>, marks: seq<nat>, i: nat)
    requires Finished(data, limit, cells, marks) && i <= |cells| && limit <= |data|
    ensures ParseFrom(data, limit, Offset(cells, limit, i), Previous(cells, i)) == Pairs(cells)[i..]
    decreases |cells| - i
  {
    hide Finished, ParseFrom, Pairs;
    if i < |cells| {
      ParsesOne(data, limit, cells, marks, i);
      ParsesCells(data, limit, cells, marks, i + 1);
      assert Pairs(cells)[i..] == [Pairs(cells)[i]] + Pairs(cells)[i + 1..];
    } else {
      ParsesEnd(data, limit, Previous(cells, i));
    }
  }

  function Previous(cells: seq<Cell>, i: nat): Bytes
    requires i <= |cells|
  {
    if i == 0 then [] else cells[i - 1].key
  }

  lemma ParsesEnd(data: Bytes, limit: nat, previous: Bytes)
    requires limit <= |data|
    ensures ParseFrom(data, limit, limit, previous) == []
  {
  }

  lemma ParsesOne(data: Bytes, limit: nat, cells: seq<Cell>, marks: seq<nat>, i: nat)
    requires Finished(data, limit, cells, marks) && i < |cells| && limit <= |data|
    ensures ParseFrom(data, limit, cells[i].offset, Previous(cells, i)) ==
            [KV(cells[i].key, cells[i].value)] + ParseFrom(data, limit, Offset(cells, limit, i + 1), cells[i].key)
  {
    hide DecodeEntry;
    var c, next := cells[i], Offset(cells, limit, i + 1);
    OffsetOrder(data, limit, cells, marks, i, |cells|);
    CellDecodes(data, limit, cells, i);
    assert CellInPlace(data, limit, cells, i);
    hide Finished, CellBytes;
    var h := DecodeEntry(data[c.offset..limit]).value;
    RestSplits(c, data[next..limit], h.rest);
    assert Previous(cells, i)[..c.shared] == c.key[..c.shared];
    assert c.key == c.key[..c.shared] + c.key[c.shared..];
  }

  lemma RestSplits(c: Cell, tail: Bytes, rest: Bytes)
    requires c.shared <= |c.key| && rest == c.key[c.shared..] + c.value + tail
    ensures rest[..|c.key| - c.shared] == c.key[c.shared..]
    ensures rest[|c.key| - c.shared..|c.key| - c.shared + |c.value|] == c.value
  {
  }

  /** A finished block parses to exactly the pairs it was built from. */
  lemma FinishedParses(data: Bytes, limit: nat, cells: seq<Cell>, marks: seq<nat>)
    requires Finished(data, limit, cells, marks)
    ensures ParseBlock(data) == Pairs(cells)
  {
    FinishedOpens(data, limit, cells, marks);
    ParsesCells(data, limit, cells, marks, 0);
  }

  /** An iterator over a finished block. */
  method NewIterator(order: Bytes -> InternalKey, data: Bytes, ghost limit: nat, ghost cells: seq<Cell>, ghost marks: seq<nat>) returns (iter: BlockIter)
    requires Finished(data, limit, cells, marks) && Sorted(Entries(order, cells))
    ensures fresh(iter) && iter.Ok() && iter.order == order && iter.cells == cells && iter.at == |cells|
    ensures Entries(order, iter.cells) == EntriesOf(order, ParseBlock(data))
  {
    FinishedOpens(data, limit, cells, marks);
    FinishedParses(data, limit, cells, marks);
    var block := OpenBlock(data);
    iter := new BlockIter(order, data, block.restarts, block.numRestarts, cells, marks);
  }
}

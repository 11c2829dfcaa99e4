/** Building and opening a table (db/table_builder.cc, db/table.cc), without filters: the file holds the
    added entries in blocks, under an index of separators. */
module Tables {
  import opened Keys
  import opened Coding
  import opened Comparators
  import opened Blocks
  import opened BlockReader
  import opened TableFormat
  import opened Cursors
  import TwoLevel

  // ------------------------------------------------------------------ what has been written

  /** A block written to the file. */
  datatype Part = Part(handle: Handle, pairs: seq<KV>, data: Bytes)

  ghost predicate PartStored(stamp: Bytes -> nat, file: Bytes, part: Part) {
    part.pairs != [] && HoldsBlock(stamp, file, part.handle, part.data) && ParseBlock(part.data) == part.pairs
  }

  function AllPairs(parts: seq<Part>): seq<KV> {
    if parts == [] then [] else AllPairs(parts[..|parts| - 1]) + parts[|parts| - 1].pairs
  }

  /** The first key after part `j`. */
  function NextKey(parts: seq<Part>, rest: seq<KV>, j: nat): Option<Bytes>
    requires j < |parts|
  {
    if j + 1 < |parts| then
      if parts[j + 1].pairs == [] then None else Some(parts[j + 1].pairs[0].key)
    else if rest == [] then None else Some(rest[0].key)
  }

  /** An index entry: the part's handle under a key between the part's last and the next part's first. */
  ghost predicate IndexesPart(c: Comparator, isKey: Bytes -> bool, parts: seq<Part>, rest: seq<KV>, entry: KV, j: nat)
    requires j < |parts|
  {
    && parts[j].pairs != [] && entry.value == EncodeHandle(parts[j].handle) && isKey(entry.key)
    && !c.Before(entry.key, parts[j].pairs[|parts[j].pairs| - 1].key)
    && match NextKey(parts, rest, j)
       case None => true
       case Some(next) =>
         && c.Before(entry.key, next)
         && (entry.key == parts[j].pairs[|parts[j].pairs| - 1].key || c.order(entry.key).user < c.order(next).user)
  }

  ghost predicate KeysInOrder(c: Comparator, isKey: Bytes -> bool, pairs: seq<KV>) {
    && (forall i, j :: 0 <= i < j < |pairs| ==> c.Before(pairs[i].key, pairs[j].key))
    && forall i :: 0 <= i < |pairs| ==> isKey(pairs[i].key)
  }

  /** The builder's state: written parts, index entries (one short while one is pending), the pairs of the
      open block, and all pairs added. */
  ghost predicate Shape(c: Comparator, isKey: Bytes -> bool, stamp: Bytes -> nat, file: Bytes,
                        parts: seq<Part>, index: seq<KV>, rest: seq<KV>, pending: bool, added: seq<KV>) {
    && KeysInOrder(c, isKey, added) && added == AllPairs(parts) + rest
    && (forall j :: 0 <= j < |parts| ==> PartStored(stamp, file, parts[j]))
    && |index| + (if pending then 1 else 0) == |parts|
    && (forall j :: 0 <= j < |index| ==> IndexesPart(c, isKey, parts, rest, index[j], j))
    && (pending ==> rest == [])
    && (!pending && parts != [] ==> rest != [])
  }

  lemma LastOfAll(parts: seq<Part>)
    requires parts != [] && parts[|parts| - 1].pairs != []
    ensures var all, last := AllPairs(parts), parts[|parts| - 1].pairs; all != [] && all[|all| - 1] == last[|last| - 1]
  {
  }

  /** Adding to the open block, no index entry pending. */
  lemma AddToBlock(c: Comparator, isKey: Bytes -> bool, stamp: Bytes -> nat, file: Bytes,
                   parts: seq<Part>, index: seq<KV>, rest: seq<KV>, added: seq<KV>, pair: KV)
    requires Shape(c, isKey, stamp, file, parts, index, rest, false, added)
    requires KeysInOrder(c, isKey, added + [pair])
    ensures Shape(c, isKey, stamp, file, parts, index, rest + [pair], false, added + [pair])
  {
    assert added + [pair] == AllPairs(parts) + (rest + [pair]);
    forall j | 0 <= j < |index|
      ensures IndexesPart(c, isKey, parts, rest + [pair], index[j], j)
    {
      assert IndexesPart(c, isKey, parts, rest, index[j], j);
    }
  }

  /** Adding when an index entry is pending: it gets a separator between the last key and the new one. */
  lemma AddAfterFlush(c: Comparator, isKey: Bytes -> bool, stamp: Bytes -> nat, file: Bytes,
                      parts: seq<Part>, index: seq<KV>, added: seq<KV>, pair: KV, entry: KV)
    requires Lawful(c, isKey)
    requires Shape(c, isKey, stamp, file, parts, index, [], true, added)
    requires KeysInOrder(c, isKey, added + [pair]) && added != []
    requires entry == KV(c.separator(added[|added| - 1].key, pair.key), EncodeHandle(parts[|parts| - 1].handle))
    ensures Shape(c, isKey, stamp, file, parts, index + [entry], [pair], false, added + [pair])
  {
    hide HoldsBlock, ParseBlock, Lawful, AllPairs, SeparatesAt, KeysInOrder;
    var n, next := |parts| - 1, added + [pair];
    assert PartStored(stamp, file, parts[n]);
    assert added == AllPairs(parts);
    LastOfAll(parts);
    SeparatesNext(c, isKey, added, pair);
    assert next == AllPairs(parts) + [pair];
    SeparatorIndexes(c, isKey, parts, pair, entry);
    forall j | 0 <= j < |index + [entry]|
      ensures IndexesPart(c, isKey, parts, [pair], (index + [entry])[j], j)
    {
      if j < n {
        EarlierIndexes(c, isKey, parts, [], [pair], index[j], j);
      }
    }
  }

  lemma SeparatesNext(c: Comparator, isKey: Bytes -> bool, added: seq<KV>, pair: KV)
    requires Lawful(c, isKey) && KeysInOrder(c, isKey, added + [pair]) && added != []
    ensures SeparatesAt(c, isKey, added[|added| - 1].key, pair.key)
  {
    var next := added + [pair];
    assert c.Before(next[|added| - 1].key, next[|added|].key) && isKey(next[|added| - 1].key) && isKey(next[|added|].key);
  }

  lemma SeparatorIndexes(c: Comparator, isKey: Bytes -> bool, parts: seq<Part>, pair: KV, entry: KV)
    requires parts != [] && parts[|parts| - 1].pairs != []
    requires var last := parts[|parts| - 1];
             && SeparatesAt(c, isKey, last.pairs[|last.pairs| - 1].key, pair.key)
             && entry == KV(c.separator(last.pairs[|last.pairs| - 1].key, pair.key), EncodeHandle(last.handle))
    ensures IndexesPart(c, isKey, parts, [pair], entry, |parts| - 1)
  {
  }

  lemma EarlierIndexes(c: Comparator, isKey: Bytes -> bool, parts: seq<Part>, rest: seq<KV>, rest': seq<KV>, entry: KV, j: nat)
    requires j + 1 < |parts| && IndexesPart(c, isKey, parts, rest, entry, j)
    ensures IndexesPart(c, isKey, parts, rest', entry, j)
  {
  }

  /** Writing the open block: it becomes a part whose index entry is pending. */
  lemma WriteOpenBlock(c: Comparator, isKey: Bytes -> bool, stamp: Bytes -> nat, file: Bytes,
                       parts: seq<Part>, index: seq<KV>, rest: seq<KV>, added: seq<KV>, data: Bytes)
    requires Shape(c, isKey, stamp, file, parts, index, rest, false, added) && rest != []
    requires ParseBlock(data) == rest
    ensures Shape(c, isKey, stamp, file + data + Trailer(stamp, data),
                  parts + [Part(Handle(|file|, |data|), rest, data)], index, [], true, added)
  {
    hide ParseBlock, HoldsBlock, KeysInOrder;
    var part := Part(Handle(|file|, |data|), rest, data);
    var next, tail := parts + [part], data + Trailer(stamp, data);
    assert file + data + Trailer(stamp, data) == file + tail;
    AppendedBlockHeld(stamp, file, data);
    forall j | 0 <= j < |next|
      ensures PartStored(stamp, file + tail, next[j])
    {
      if j < |parts| {
        assert PartStored(stamp, file, parts[j]);
        HeldBlockStays(stamp, file, tail, parts[j].handle, parts[j].data);
      }
    }
    assert next[..|next| - 1] == parts;
    assert added == AllPairs(next) + [];
    forall j | 0 <= j < |index|
      ensures IndexesPart(c, isKey, next, [], index[j], j)
    {
      assert IndexesPart(c, isKey, parts, rest, index[j], j);
      SameNextKey(parts, part, j);
    }
  }

  lemma SameNextKey(parts: seq<Part>, part: Part, j: nat)
    requires j < |parts|
    ensures NextKey(parts + [part], [], j) == NextKey(parts, part.pairs, j)
  {
  }

  /** Closing the index with a successor of the last key. */
  lemma CloseIndex(c: Comparator, isKey: Bytes -> bool, stamp: Bytes -> nat, file: Bytes,
                   parts: seq<Part>, index: seq<KV>, added: seq<KV>, entry: KV)
    requires Lawful(c, isKey)
    requires Shape(c, isKey, stamp, file, parts, index, [], true, added) && added != []
    requires entry == KV(c.successor(added[|added| - 1].key), EncodeHandle(parts[|parts| - 1].handle))
    ensures Indexed(c, isKey, stamp, file, parts, index + [entry], added)
  {
    hide HoldsBlock, ParseBlock, Lawful, AllPairs, SucceedsAt, KeysInOrder;
    var n := |parts| - 1;
    assert PartStored(stamp, file, parts[n]);
    assert added == AllPairs(parts);
    LastOfAll(parts);
    SucceedsLast(c, isKey, added);
    SuccessorIndexes(c, isKey, parts, entry);
    forall j | 0 <= j < |index + [entry]|
      ensures IndexesPart(c, isKey, parts, [], (index + [entry])[j], j)
    {
      if j < n {
        assert IndexesPart(c, isKey, parts, [], index[j], j);
      }
    }
  }

  lemma SucceedsLast(c: Comparator, isKey: Bytes -> bool, added: seq<KV>)
    requires Lawful(c, isKey) && KeysInOrder(c, isKey, added) && added != []
    ensures SucceedsAt(c, isKey, added[|added| - 1].key)
  {
    assert isKey(added[|added| - 1].key);
  }

  lemma LastSucceeds(c: Comparator, isKey: Bytes -> bool, stamp: Bytes -> nat, file: Bytes,
                     parts: seq<Part>, index: seq<KV>, added: seq<KV>)
    requires Lawful(c, isKey) && Shape(c, isKey, stamp, file, parts, index, [], true, added) && added != []
    ensures |c.successor(added[|added| - 1].key)| <= |added[|added| - 1].key|
  {
    SucceedsLast(c, isKey, added);
  }

  lemma SuccessorIndexes(c: Comparator, isKey: Bytes -> bool, parts: seq<Part>, entry: KV)
    requires parts != [] && parts[|parts| - 1].pairs != []
    requires var last := parts[|parts| - 1];
             && SucceedsAt(c, isKey, last.pairs[|last.pairs| - 1].key)
             && entry == KV(c.successor(last.pairs[|last.pairs| - 1].key), EncodeHandle(last.handle))
    ensures IndexesPart(c, isKey, parts, [], entry, |parts| - 1)
  {
  }

  /** A complete table: every part stored and indexed, all pairs in the parts. */
  ghost predicate Indexed(c: Comparator, isKey: Bytes -> bool, stamp: Bytes -> nat, file: Bytes, parts: seq<Part>, index: seq<KV>, added: seq<KV>) {
    && KeysInOrder(c, isKey, added) && added == AllPairs(parts) && |index| == |parts|
    && (forall j :: 0 <= j < |parts| ==> PartStored(stamp, file, parts[j]))
    && (forall j :: 0 <= j < |index| ==> IndexesPart(c, isKey, parts, [], index[j], j))
  }

  // ------------------------------------------------------------------ the builder

  /** One more part. */
  ghost predicate Grown(before: seq<Part>, parts: seq<Part>) {
    |parts| == |before| + 1 && parts[..|before|] == before
  }

  lemma OneMorePart(parts: seq<Part>, part: Part)
    ensures Grown(parts, parts + [part]) && (parts + [part])[|parts|] == part
  {
  }

  class TableBuilder {
    const comparator: Comparator
    const stamp: Bytes -> nat
    const blockSize: nat
    const dataBlock: BlockBuilder
    const indexBlock: BlockBuilder
    var file: Bytes
    var offset: nat
    var lastKey: Bytes
    var numEntries: nat
    var closed: bool
    var pendingIndexEntry: bool
    var pendingHandle: Handle
    ghost const isKey: Bytes -> bool
    ghost var parts: seq<Part>
    ghost var added: seq<KV>

    constructor (comparator: Comparator, stamp: Bytes -> nat, blockSize: nat, restartInterval: nat, ghost isKey: Bytes -> bool)
      requires restartInterval >= 1 && Lawful(comparator, isKey)
      ensures Ok() && !closed && added == [] && file == []
      ensures this.comparator == comparator && this.isKey == isKey && this.stamp == stamp && this.blockSize == blockSize
      ensures fresh(dataBlock) && fresh(indexBlock)
    {
      this.comparator, this.stamp, this.blockSize, this.isKey := comparator, stamp, blockSize, isKey;
      var data := new BlockBuilder(restartInterval);
      var index := new BlockBuilder(1);
      dataBlock, indexBlock := data, index;
      file, offset, lastKey, numEntries := [], 0, [], 0;
      closed, pendingIndexEntry, pendingHandle := false, false, Handle(0, 0);
      parts, added := [], [];
    }

    ghost predicate Ok()
      reads this, dataBlock, indexBlock
    {
      && dataBlock != indexBlock && dataBlock.Ok() && indexBlock.Ok() && !dataBlock.finished
      && Lawful(comparator, isKey)
      && offset == |file| && numEntries == |added| && (added != [] ==> lastKey == added[|added| - 1].key)
      && (!closed ==>
            && !indexBlock.finished
            && Shape(comparator, isKey, stamp, file, parts, Pairs(indexBlock.cells), Pairs(dataBlock.cells), pendingIndexEntry, added)
            && (pendingIndexEntry ==> parts != [] && pendingHandle == parts[|parts| - 1].handle)
            && (Pairs(dataBlock.cells) != [] ==> dataBlock.CurrentSizeEstimate() < blockSize))
    }

    /** The shape of what has been written so far. */
    ghost predicate ShapeOk()
      reads this, dataBlock, indexBlock
    {
      Shape(comparator, isKey, stamp, file, parts, Pairs(indexBlock.cells), Pairs(dataBlock.cells), pendingIndexEntry, added)
    }

    method WriteRawBlock(data: Bytes) returns (handle: Handle)
      requires offset == |file|
      modifies this`file, this`offset
      ensures handle == Handle(old(|file|), |data|)
      ensures file == old(file) + data + Trailer(stamp, data) && offset == |file|
    {
      handle := Handle(offset, |data|);
      file := file + data;
      file := file + Trailer(stamp, data);
      offset := offset + |data| + 5;
    }

    method WriteBlock(block: BlockBuilder) returns (handle: Handle, ghost data: Bytes)
      requires block.Ok() && block.CurrentSizeEstimate() < LIMIT32 && offset == |file|
      modifies this`file, this`offset, block
      ensures block.Ok() && !block.finished && Pairs(block.cells) == [] && block.CurrentSizeEstimate() == 8
      ensures handle == Handle(old(|file|), |data|) && |data| == old(block.CurrentSizeEstimate())
      ensures file == old(file) + data + Trailer(stamp, data) && offset == |file|
      ensures ParseBlock(data) == old(Pairs(block.cells))
    {
      hide Finished, ParseBlock, Pairs, Laid, Marked, Compressed;
      var raw := block.Finish();
      FinishedParses(raw, old(|block.buffer|), block.cells, block.marks);
      handle := WriteRawBlock(raw);
      block.Reset();
      data := raw;
    }

    /** Appends one pair to the table; keys must come in the comparator's order. */
    method Add(key: Bytes, value: Bytes)
      requires Ok() && !closed && isKey(key)
      requires added != [] ==> comparator.Before(added[|added| - 1].key, key)
      requires blockSize + |key| + |value| + 27 < LIMIT32
      modifies this`file, this`offset, this`lastKey, this`numEntries, this`pendingIndexEntry, this`pendingHandle, this`parts, this`added
      modifies dataBlock, indexBlock
      ensures Ok() && !closed
      ensures added == old(added) + [KV(key, value)]
      ensures parts == old(parts) || (Grown(old(parts), parts) && |parts[|parts| - 1].data| >= blockSize)
    {
      hide Finished, ParseBlock, Laid, Marked, Compressed, Shape, Lawful, Pairs, Grown, RestartsMatch, LastKey;
      ghost var pair := KV(key, value);
      dataBlock.EmptyMeansNoPairs();
      AddIndexEntry(key, pair);
      lastKey := key;
      numEntries := numEntries + 1;
      dataBlock.Add(key, value);
      added := added + [pair];
      if dataBlock.CurrentSizeEstimate() >= blockSize {
        FlushBlock();
      }
    }

    /** The pending index entry gets its key now that the next block's first key is known. */
    method AddIndexEntry(key: Bytes, ghost pair: KV)
      requires Ok() && !closed && isKey(key) && pair.key == key
      requires added != [] ==> comparator.Before(added[|added| - 1].key, key)
      modifies this`pendingIndexEntry, indexBlock
      ensures !pendingIndexEntry && indexBlock.Ok() && !indexBlock.finished
      ensures Pairs(indexBlock.cells) == old(Pairs(indexBlock.cells))
                + if old(pendingIndexEntry) then [KV(comparator.separator(lastKey, key), EncodeHandle(pendingHandle))] else []
      ensures Shape(comparator, isKey, stamp, file, parts, Pairs(indexBlock.cells), Pairs(dataBlock.cells) + [pair], false, added + [pair])
    {
      hide Finished, ParseBlock, Laid, Marked, Compressed, Shape, Lawful, Pairs;
      ghost var rest, index := Pairs(dataBlock.cells), Pairs(indexBlock.cells);
      StaysInOrder(comparator, isKey, stamp, file, parts, index, rest, pendingIndexEntry, added, pair);
      if pendingIndexEntry {
        var separator := comparator.separator(lastKey, key);
        PendingMeans(comparator, isKey, stamp, file, parts, index, rest, added);
        AddAfterFlush(comparator, isKey, stamp, file, parts, index, added, pair, KV(separator, EncodeHandle(pendingHandle)));
        indexBlock.Add(separator, EncodeHandle(pendingHandle));
        pendingIndexEntry := false;
        assert rest + [pair] == [pair];
      } else {
        AddToBlock(comparator, isKey, stamp, file, parts, index, rest, added, pair);
      }
    }

    /** Writes the open block, if there is one, and leaves its index entry pending. */
    method FlushBlock()
      requires dataBlock != indexBlock && dataBlock.Ok() && indexBlock.Ok() && !dataBlock.finished && !indexBlock.finished
      requires Lawful(comparator, isKey) && !closed
      requires offset == |file| && numEntries == |added| && (added != [] ==> lastKey == added[|added| - 1].key)
      requires ShapeOk() && (pendingIndexEntry ==> parts != [] && pendingHandle == parts[|parts| - 1].handle)
      requires dataBlock.CurrentSizeEstimate() < LIMIT32
      modifies this`file, this`offset, this`pendingIndexEntry, this`pendingHandle, this`parts, dataBlock
      ensures Ok() && Pairs(dataBlock.cells) == []
      ensures if old(Pairs(dataBlock.cells)) == [] then parts == old(parts)
              else && Grown(old(parts), parts) && parts[|parts| - 1].pairs == old(Pairs(dataBlock.cells))
                   && |parts[|parts| - 1].data| == old(dataBlock.CurrentSizeEstimate())
      ensures |file| <= old(|file|) + old(dataBlock.CurrentSizeEstimate()) + 5
    {
      hide Finished, ParseBlock, Laid, Marked, Compressed, Shape, Lawful, Pairs, Grown, RestartsMatch, LastKey, Trailer;
      dataBlock.EmptyMeansNoPairs();
      if dataBlock.Empty() {
        return;
      }
      ghost var rest, f := Pairs(dataBlock.cells), file;
      NotPending(comparator, isKey, stamp, file, parts, Pairs(indexBlock.cells), rest, pendingIndexEntry, added);
      ghost var data;
      pendingHandle, data := WriteBlock(dataBlock);
      WriteOpenBlock(comparator, isKey, stamp, f, parts, Pairs(indexBlock.cells), rest, added, data);
      OneMorePart(parts, Part(Handle(|f|, |data|), rest, data));
      parts := parts + [Part(Handle(|f|, |data|), rest, data)];
      pendingIndexEntry := true;
    }

    /** Closes the table: open block, empty metaindex, index and footer.  The file then opens, and its two
        levels hold exactly the added pairs in order. */
    method Finish()
      requires Ok() && !closed
      requires blockSize < LIMIT32 && |lastKey| + indexBlock.CurrentSizeEstimate() + 39 < LIMIT32 && |file| < LIMIT64 / 2
      modifies this`file, this`offset, this`closed, this`pendingIndexEntry, this`pendingHandle, this`parts, dataBlock, indexBlock
      ensures closed && (if old(Pairs(dataBlock.cells)) == [] then parts == old(parts) else Grown(old(parts), parts))
      ensures forall verify :: Holds(comparator, stamp, verify, file, added) && NoMetadata(stamp, verify, file)
    {
      hide NoMetadata, HoldsBlock;
      hide Finished, ParseBlock, Laid, Marked, Compressed, Shape, Lawful, Pairs, Indexed, Holds, Trailer, RestartsMatch, Grown, LastKey;
      dataBlock.EmptyMeansNoPairs();
      FlushBlock();
      closed := true;
      var metaindexBlock := new BlockBuilder(dataBlock.restartInterval);
      ghost var f0 := file;
      var metaindexHandle, metaindex := WriteBlock(metaindexBlock);
      ghost var tail := metaindex + Trailer(stamp, metaindex);
      assert file == f0 + tail;
      ShapeGrows(comparator, isKey, stamp, f0, tail, parts, Pairs(indexBlock.cells), pendingIndexEntry, added);
      CloseIndexBlock();
      AppendedBlockHeld(stamp, f0, metaindex);
      assert f0 + tail == f0 + metaindex + Trailer(stamp, metaindex);
      WriteIndexAndFooter(metaindexHandle, metaindex);
    }

    /** Adds the last index entry, under a successor of the last key. */
    method CloseIndexBlock()
      requires indexBlock.Ok() && !indexBlock.finished && Lawful(comparator, isKey) && |file| < LIMIT64
      requires added != [] ==> lastKey == added[|added| - 1].key
      requires pendingIndexEntry ==> parts != [] && pendingHandle == parts[|parts| - 1].handle
      requires Shape(comparator, isKey, stamp, file, parts, Pairs(indexBlock.cells), [], pendingIndexEntry, added)
      modifies this`pendingIndexEntry, indexBlock
      ensures indexBlock.Ok() && Indexed(comparator, isKey, stamp, file, parts, Pairs(indexBlock.cells), added)
      ensures Pairs(indexBlock.cells) == old(Pairs(indexBlock.cells))
                + if old(pendingIndexEntry) then [KV(comparator.successor(lastKey), EncodeHandle(pendingHandle))] else []
      ensures indexBlock.CurrentSizeEstimate() <= old(indexBlock.CurrentSizeEstimate()) + |lastKey| + 39
    {
      hide Finished, ParseBlock, Laid, Marked, Compressed, Shape, Lawful, Pairs, Indexed;
      ghost var index := Pairs(indexBlock.cells);
      if pendingIndexEntry {
        PendingMeans(comparator, isKey, stamp, file, parts, index, [], added);
        HandleFits(comparator, isKey, stamp, file, parts, index, added);
        var successor := comparator.successor(lastKey);
        LastSucceeds(comparator, isKey, stamp, file, parts, index, added);
        CloseIndex(comparator, isKey, stamp, file, parts, index, added, KV(successor, EncodeHandle(pendingHandle)));
        indexBlock.Add(successor, EncodeHandle(pendingHandle));
        pendingIndexEntry := false;
      } else {
        NothingPending(comparator, isKey, stamp, file, parts, index, added);
      }
    }

    method WriteIndexAndFooter(metaindexHandle: Handle, ghost metaindex: Bytes)
      requires indexBlock.Ok() && Indexed(comparator, isKey, stamp, file, parts, Pairs(indexBlock.cells), added)
      requires indexBlock.CurrentSizeEstimate() < LIMIT32 && offset == |file| && |file| < LIMIT64 - LIMIT32
      requires metaindexHandle.offset < LIMIT64 && metaindexHandle.size < LIMIT64
      requires HoldsBlock(stamp, file, metaindexHandle, metaindex) && ParseBlock(metaindex) == []
      modifies this`file, this`offset, indexBlock
      ensures old(file) <= file && forall verify :: Holds(comparator, stamp, verify, file, added) && NoMetadata(stamp, verify, file)
    {
      hide HoldsBlock, NoMetadata;
      hide Finished, ParseBlock, Laid, Marked, Compressed, Pairs, Indexed, Holds, EncodeFooter, Trailer;
      ghost var index, f1 := Pairs(indexBlock.cells), file;
      var indexHandle, indexData := WriteBlock(indexBlock);
      var footer := EncodeFooter(Footer(metaindexHandle, indexHandle));
      file := file + footer;
      offset := offset + |footer|;
      forall verify: bool
        ensures Holds(comparator, stamp, verify, file, added) && NoMetadata(stamp, verify, file)
      {
        MetadataReads(stamp, verify, f1, indexData, metaindexHandle, metaindex, file);
        TableOpens(comparator, isKey, stamp, verify, f1, parts, index, added, indexData, metaindexHandle, file);
      }
      assert file == f1 + (indexData + Trailer(stamp, indexData) + footer);
    }
  }

  // ------------------------------------------------------------------ what the shape gives

  lemma StaysInOrder(c: Comparator, isKey: Bytes -> bool, stamp: Bytes -> nat, file: Bytes,
                     parts: seq<Part>, index: seq<KV>, rest: seq<KV>, pending: bool, added: seq<KV>, pair: KV)
    requires Shape(c, isKey, stamp, file, parts, index, rest, pending, added) && isKey(pair.key)
    requires added != [] ==> c.Before(added[|added| - 1].key, pair.key)
    ensures KeysInOrder(c, isKey, added + [pair])
  {
    var next := added + [pair];
    forall i, j | 0 <= i < j < |next|
      ensures c.Before(next[i].key, next[j].key)
    {
      if j == |added| && i < |added| - 1 {
        assert c.Before(added[i].key, added[|added| - 1].key);
      }
    }
  }

  lemma PendingMeans(c: Comparator, isKey: Bytes -> bool, stamp: Bytes -> nat, file: Bytes,
                     parts: seq<Part>, index: seq<KV>, rest: seq<KV>, added: seq<KV>)
    requires Shape(c, isKey, stamp, file, parts, index, rest, true, added)
    ensures rest == [] && added != [] && parts != []
  {
    assert PartStored(stamp, file, parts[|parts| - 1]);
    LastOfAll(parts);
  }

  lemma NotPending(c: Comparator, isKey: Bytes -> bool, stamp: Bytes -> nat, file: Bytes,
                   parts: seq<Part>, index: seq<KV>, rest: seq<KV>, pending: bool, added: seq<KV>)
    requires Shape(c, isKey, stamp, file, parts, index, rest, pending, added) && rest != []
    ensures !pending
  {
  }

  lemma ShapeGrows(c: Comparator, isKey: Bytes -> bool, stamp: Bytes -> nat, file: Bytes, tail: Bytes,
                   parts: seq<Part>, index: seq<KV>, pending: bool, added: seq<KV>)
    requires Shape(c, isKey, stamp, file, parts, index, [], pending, added)
    ensures Shape(c, isKey, stamp, file + tail, parts, index, [], pending, added)
  {
    hide HoldsBlock, ParseBlock, IndexesPart, KeysInOrder;
    forall j | 0 <= j < |parts|
      ensures PartStored(stamp, file + tail, parts[j])
    {
      assert PartStored(stamp, file, parts[j]);
      HeldBlockStays(stamp, file, tail, parts[j].handle, parts[j].data);
    }
  }

  lemma HandleFits(c: Comparator, isKey: Bytes -> bool, stamp: Bytes -> nat, file: Bytes,
                   parts: seq<Part>, index: seq<KV>, added: seq<KV>)
    requires Shape(c, isKey, stamp, file, parts, index, [], true, added) && |file| < LIMIT64
    ensures parts != [] && |EncodeHandle(parts[|parts| - 1].handle)| <= 20
  {
    assert PartStored(stamp, file, parts[|parts| - 1]);
    HandleRoundTrip(parts[|parts| - 1].handle, []);
  }

  lemma NothingPending(c: Comparator, isKey: Bytes -> bool, stamp: Bytes -> nat, file: Bytes,
                       parts: seq<Part>, index: seq<KV>, added: seq<KV>)
    requires Shape(c, isKey, stamp, file, parts, index, [], false, added)
    ensures Indexed(c, isKey, stamp, file, parts, index, added)
  {
    assert AllPairs(parts) + [] == AllPairs(parts);
  }

  // ------------------------------------------------------------------ opening a table

  /** Table::Open: the pairs of the index block, found through the footer. */
  function OpenTable(stamp: Bytes -> nat, verify: bool, file: Bytes): Option<seq<KV>> {
    if |file| < FOOTER_LENGTH then None
    else
      match DecodeFooter(file[|file| - FOOTER_LENGTH..])
      case None => None
      case Some(footer) =>
        match ReadBlock(stamp, verify, file, footer.index)
        case None => None
        case Some(data) => Some(ParseBlock(data))
  }

  /** Table::BlockReader: the pairs of the block an index value points to. */
  function PairsBehind(stamp: Bytes -> nat, verify: bool, file: Bytes, indexValue: Bytes): seq<KV> {
    match DecodeHandle(indexValue)
    case None => []
    case Some(h) =>
      match ReadBlock(stamp, verify, file, h.handle)
      case None => []
      case Some(data) => ParseBlock(data)
  }

  /** The block function Table::NewIterator hands to the two-level iterator. */
  function ReadEntries(c: Comparator, stamp: Bytes -> nat, verify: bool, file: Bytes): Bytes -> seq<Entry> {
    indexValue => EntriesOf(c.order, PairsBehind(stamp, verify, file, indexValue))
  }

  /** The file opens as a table whose two levels are, in order, exactly `added`. */
  ghost predicate Holds(c: Comparator, stamp: Bytes -> nat, verify: bool, file: Bytes, added: seq<KV>) {
    && OpenTable(stamp, verify, file).Some?
    && var index := EntriesOf(c.order, OpenTable(stamp, verify, file).value);
       var blocks := TwoLevel.Blocks(index, ReadEntries(c, stamp, verify, file));
       && TwoLevel.Bounds(index, blocks) && TwoLevel.UserFenced(index, blocks)
       && Sorted(TwoLevel.Joined(blocks))
       && TwoLevel.Joined(blocks) == EntriesOf(c.order, added)
  }

  lemma TableOpens(c: Comparator, isKey: Bytes -> bool, stamp: Bytes -> nat, verify: bool, before: Bytes,
                   parts: seq<Part>, index: seq<KV>, added: seq<KV>, indexData: Bytes, metaindex: Handle, file: Bytes)
    requires Indexed(c, isKey, stamp, before, parts, index, added) && ParseBlock(indexData) == index
    requires metaindex.offset < LIMIT64 && metaindex.size < LIMIT64 && |before| + |indexData| < LIMIT64
    requires file == before + indexData + Trailer(stamp, indexData) + EncodeFooter(Footer(metaindex, Handle(|before|, |indexData|)))
    ensures Holds(c, stamp, verify, file, added)
  {
    hide ParseBlock, HoldsBlock, ReadBlock, Indexed, EncodeFooter, DecodeFooter, DecodeHandle, EntriesOf;
    IndexOpens(stamp, verify, before, indexData, metaindex, file);
    var es := EntriesOf(c.order, index);
    var read := ReadEntries(c, stamp, verify, file);
    var blocks := TwoLevel.Blocks(es, read);
    IndexedLength(c, isKey, stamp, before, parts, index, added);
    forall j | 0 <= j < |parts|
      ensures blocks[j] == EntriesOf(c.order, parts[j].pairs)
    {
      PartReads(c, isKey, stamp, verify, before, parts, index, added, file, j);
    }
    BlocksInOrder(c, isKey, stamp, before, parts, index, added, blocks);
  }

  /** The footer's other handle leads to a block without entries. */
  ghost predicate NoMetadata(stamp: Bytes -> nat, verify: bool, file: Bytes) {
    && |file| >= FOOTER_LENGTH
    && match DecodeFooter(file[|file| - FOOTER_LENGTH..])
       case None => false
       case Some(footer) =>
         match ReadBlock(stamp, verify, file, footer.metaindex)
         case None => false
         case Some(data) => ParseBlock(data) == []
  }

  lemma MetadataReads(stamp: Bytes -> nat, verify: bool, before: Bytes, indexData: Bytes, h: Handle, metaindex: Bytes, file: Bytes)
    requires h.offset < LIMIT64 && h.size < LIMIT64 && |before| + |indexData| < LIMIT64
    requires HoldsBlock(stamp, before, h, metaindex) && ParseBlock(metaindex) == []
    requires file == before + indexData + Trailer(stamp, indexData) + EncodeFooter(Footer(h, Handle(|before|, |indexData|)))
    ensures NoMetadata(stamp, verify, file)
  {
    hide ParseBlock, ReadBlock, HoldsBlock, EncodeFooter, DecodeFooter;
    var footer := EncodeFooter(Footer(h, Handle(|before|, |indexData|)));
    FooterRoundTrip(Footer(h, Handle(|before|, |indexData|)));
    assert file[|file| - FOOTER_LENGTH..] == footer;
    var tail := indexData + Trailer(stamp, indexData) + footer;
    assert file == before + tail;
    HeldBlockStays(stamp, before, tail, h, metaindex);
    HeldBlockReads(stamp, verify, file, h, metaindex);
  }

  lemma IndexedLength(c: Comparator, isKey: Bytes -> bool, stamp: Bytes -> nat, file: Bytes, parts: seq<Part>, index: seq<KV>, added: seq<KV>)
    requires Indexed(c, isKey, stamp, file, parts, index, added)
    ensures |index| == |parts|
  {
  }

  lemma IndexOpens(stamp: Bytes -> nat, verify: bool, before: Bytes, indexData: Bytes, metaindex: Handle, file: Bytes)
    requires metaindex.offset < LIMIT64 && metaindex.size < LIMIT64 && |before| + |indexData| < LIMIT64
    requires file == before + indexData + Trailer(stamp, indexData) + EncodeFooter(Footer(metaindex, Handle(|before|, |indexData|)))
    ensures OpenTable(stamp, verify, file) == Some(ParseBlock(indexData))
  {
    hide ParseBlock, ReadBlock, HoldsBlock, EncodeFooter, DecodeFooter;
    var h := Handle(|before|, |indexData|);
    var footer := EncodeFooter(Footer(metaindex, h));
    FooterRoundTrip(Footer(metaindex, h));
    assert file[|file| - FOOTER_LENGTH..] == footer;
    AppendedBlockHeld(stamp, before, indexData);
    HeldBlockStays(stamp, before + indexData + Trailer(stamp, indexData), footer, h, indexData);
    HeldBlockReads(stamp, verify, file, h, indexData);
  }

  lemma PartReads(c: Comparator, isKey: Bytes -> bool, stamp: Bytes -> nat, verify: bool, before: Bytes,
                  parts: seq<Part>, index: seq<KV>, added: seq<KV>, file: Bytes, j: nat)
    requires Indexed(c, isKey, stamp, before, parts, index, added) && j < |parts| && before <= file && |before| < LIMIT64
    ensures j < |index| && PairsBehind(stamp, verify, file, index[j].value) == parts[j].pairs
  {
    hide ParseBlock, ReadBlock, DecodeHandle, EncodeHandle, KeysInOrder;
    assert PartStored(stamp, before, parts[j]);
    assert IndexesPart(c, isKey, parts, [], index[j], j);
    var h := parts[j].handle;
    assert file == before + file[|before|..];
    HeldBlockStays(stamp, before, file[|before|..], h, parts[j].data);
    HeldBlockReads(stamp, verify, file, h, parts[j].data);
    assert EncodeHandle(h) + [] == EncodeHandle(h);
    HandleRoundTrip(h, []);
  }

  lemma EntriesConcat(order: Bytes -> InternalKey, a: seq<KV>, b: seq<KV>)
    ensures EntriesOf(order, a + b) == EntriesOf(order, a) + EntriesOf(order, b)
  {
  }

  lemma {:induction false} JoinedIsAll(order: Bytes -> InternalKey, parts: seq<Part>, blocks: seq<seq<Entry>>)
    requires |blocks| == |parts| && forall j :: 0 <= j < |parts| ==> blocks[j] == EntriesOf(order, parts[j].pairs)
    ensures TwoLevel.Joined(blocks) == EntriesOf(order, AllPairs(parts))
  {
    if parts != [] {
      var n := |parts| - 1;
      JoinedIsAll(order, parts[..n], blocks[..n]);
      EntriesConcat(order, AllPairs(parts[..n]), parts[n].pairs);
    }
  }

  lemma BlocksInOrder(c: Comparator, isKey: Bytes -> bool, stamp: Bytes -> nat, file: Bytes,
                      parts: seq<Part>, index: seq<KV>, added: seq<KV>, blocks: seq<seq<Entry>>)
    requires Indexed(c, isKey, stamp, file, parts, index, added)
    requires |blocks| == |parts| && forall j :: 0 <= j < |parts| ==> blocks[j] == EntriesOf(c.order, parts[j].pairs)
    ensures TwoLevel.Bounds(EntriesOf(c.order, index), blocks) && TwoLevel.UserFenced(EntriesOf(c.order, index), blocks)
    ensures Sorted(TwoLevel.Joined(blocks)) && TwoLevel.Joined(blocks) == EntriesOf(c.order, added)
  {
    JoinedIsAll(c.order, parts, blocks);
    InOrderIsSorted(c, isKey, added);
    var es := EntriesOf(c.order, index);
    hide TwoLevel.Joined, TwoLevel.Bounds, KeysInOrder, Sorted, AllPairs;
    forall j: nat | j < |blocks|
      ensures TwoLevel.Fenced(es, blocks, j)
      ensures j + 1 < |es| == |blocks| ==> TwoLevel.UserFence(es, blocks, j)
    {
      EntryFences(c, isKey, stamp, file, parts, index, added, blocks, j);
    }
    TwoLevel.BoundsFromFences(es, blocks);
  }

  lemma InOrderIsSorted(c: Comparator, isKey: Bytes -> bool, added: seq<KV>)
    requires KeysInOrder(c, isKey, added)
    ensures Sorted(EntriesOf(c.order, added))
  {
    forall i, j | 0 <= i < j < |added|
      ensures Less(c.order(added[i].key), c.order(added[j].key))
    {
      assert c.Before(added[i].key, added[j].key);
    }
  }

  lemma EntryFences(c: Comparator, isKey: Bytes -> bool, stamp: Bytes -> nat, file: Bytes,
                    parts: seq<Part>, index: seq<KV>, added: seq<KV>, blocks: seq<seq<Entry>>, j: nat)
    requires Indexed(c, isKey, stamp, file, parts, index, added) && j < |parts|
    requires |blocks| == |parts| && forall j :: 0 <= j < |parts| ==> blocks[j] == EntriesOf(c.order, parts[j].pairs)
    ensures TwoLevel.Fenced(EntriesOf(c.order, index), blocks, j)
    ensures j + 1 < |parts| == |index| ==> TwoLevel.UserFence(EntriesOf(c.order, index), blocks, j)
  {
    hide HoldsBlock, KeysInOrder, ParseBlock, AllPairs, EncodeHandle;
    assert IndexesPart(c, isKey, parts, [], index[j], j);
    assert blocks[j] == EntriesOf(c.order, parts[j].pairs);
    if j + 1 < |parts| {
      assert PartStored(stamp, file, parts[j + 1]);
      assert blocks[j + 1] == EntriesOf(c.order, parts[j + 1].pairs);
    }
  }

  // ------------------------------------------------------------------ reading a table

  /** Table::NewIterator: a cursor over exactly the added entries. */
  method NewTableIterator(c: Comparator, stamp: Bytes -> nat, verify: bool, file: Bytes, ghost added: seq<KV>) returns (iter: TwoLevel.TwoLevelIterator)
    requires Holds(c, stamp, verify, file, added)
    ensures fresh(iter) && iter.Ok() && iter.whole == EntriesOf(c.order, added)
  {
    hide TwoLevel.Bounds, TwoLevel.Joined, OpenTable, Sorted;
    var index := new Cursor(EntriesOf(c.order, OpenTable(stamp, verify, file).value));
    iter := new TwoLevel.TwoLevelIterator(index, ReadEntries(c, stamp, verify, file));
  }

  /** Table::InternalGet without a filter: the entry handed to the callback, if any. */
  function InternalGet(c: Comparator, stamp: Bytes -> nat, verify: bool, file: Bytes, target: Bytes): Option<Entry> {
    match OpenTable(stamp, verify, file)
    case None => None
    case Some(pairs) =>
      var index := EntriesOf(c.order, pairs);
      var i := LowerBound(index, c.order(target));
      if i == |index| then None
      else
        var data := ReadEntries(c, stamp, verify, file)(index[i].v);
        var j := LowerBound(data, c.order(target));
        if j == |data| then None else Some(data[j])
  }

  /** InternalGet looks into one block only, yet reports an entry of the target's user key exactly if the
      table's first entry not before the target has that user key, and then reports that entry. */
  lemma InternalGetFindsUserKey(c: Comparator, stamp: Bytes -> nat, verify: bool, file: Bytes, added: seq<KV>, target: Bytes)
    requires Holds(c, stamp, verify, file, added)
    ensures var whole, t := EntriesOf(c.order, added), c.order(target);
            var r, got := LowerBound(whole, t), InternalGet(c, stamp, verify, file, target);
            && (got.Some? && got.value.k.user == t.user <==> r < |whole| && whole[r].k.user == t.user)
            && (got.Some? && got.value.k.user == t.user ==> got.value == whole[r])
  {
    hide OpenTable, TwoLevel.Joined, LowerBound, TwoLevel.Start, Sorted, TwoLevel.Bounds;
    var index := EntriesOf(c.order, OpenTable(stamp, verify, file).value);
    var blocks := TwoLevel.Blocks(index, ReadEntries(c, stamp, verify, file));
    assert InternalGet(c, stamp, verify, file, target) == TwoLevel.GetInOneBlock(index, blocks, c.order(target));
    TwoLevel.OneBlockFindsUserKey(index, blocks, c.order(target));
  }
}

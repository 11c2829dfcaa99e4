/** DBImpl::RecoverLogFile (db/db_impl.cc): from the bytes of a possibly torn log back to the versions of
    the batches that were written to it. */
module WalReplay {
  import opened Keys
  import opened Coding
  import opened Runs
  import opened LogFormat
  import opened LogRecovery
  import opened Logs
  import opened WriteBatches
  import Engine

  datatype Batch = Batch(seqno: nat, ops: seq<BatchOp>)

  /** A batch the store writes: nonempty operations of storable size, sequence numbers in range. */
  ghost predicate Storable(b: Batch) {
    AllFit(b.ops) && |b.ops| < COUNT_LIMIT && b.seqno + |b.ops| <= MAX_SEQUENCE + 1
  }

  ghost predicate AllStorable(batches: seq<Batch>) {
    forall i :: 0 <= i < |batches| ==> Storable(batches[i])
  }

  /** The log records of the batches. */
  function Records(batches: seq<Batch>): (r: seq<Bytes>)
    ensures |r| == |batches|
  {
    seq(|batches|, i requires 0 <= i < |batches| => BatchBytes(batches[i].seqno, batches[i].ops))
  }

  /** The versions the batches write, in order. */
  function BatchVersions(batches: seq<Batch>): seq<Entry> {
    if batches == [] then []
    else
      var b := batches[|batches| - 1];
      BatchVersions(batches[..|batches| - 1]) + Engine.Stamp(AbstractAll(b.ops), b.seqno)
  }

  lemma {:induction false} FirstBatches(batches: seq<Batch>, j: nat)
    requires j <= |batches|
    ensures BatchVersions(batches[..j]) <= BatchVersions(batches)
  {
    if j < |batches| {
      var n := |batches| - 1;
      FirstBatches(batches[..n], j);
      assert batches[..n][..j] == batches[..j];
    } else {
      assert batches[..j] == batches;
    }
  }

  function LastSequence(batches: seq<Batch>, last: nat): nat {
    if batches == [] then last
    else
      var b := batches[|batches| - 1];
      var before := LastSequence(batches[..|batches| - 1], last);
      if b.ops != [] && before < b.seqno + |b.ops| - 1 then b.seqno + |b.ops| - 1 else before
  }

  lemma {:induction false} InsertAllConcat(s: seq<Entry>, a: seq<Entry>, b: seq<Entry>)
    ensures InsertAll(s, a + b) == InsertAll(InsertAll(s, a), b)
  {
    hide InsertEntry;
    if b == [] {
      assert a + b == a;
    } else {
      var n := |b| - 1;
      InsertAllConcat(s, a, b[..n]);
      assert (a + b)[..|a + b| - 1] == a + b[..n];
    }
  }

  /** Recovery takes the record: it counts its operations right, and their sequence numbers are in range; or it says
      it is empty. */
  predicate Accepted(record: Bytes) {
    && |record| >= BATCH_HEADER
    && var count := Unfixed(record[8..12]);
       && count < COUNT_LIMIT
       && (count > 0 ==>
             && Unfixed(record[..8]) <= MAX_SEQUENCE + 1 - count
             && Replay(record[BATCH_HEADER..]).ok && |Replay(record[BATCH_HEADER..]).ops| == count)
  }

  /** The batch that a record stands for. */
  function BatchOf(record: Bytes): Batch
    requires |record| >= BATCH_HEADER
  {
    Batch(Unfixed(record[..8]), if Unfixed(record[8..12]) == 0 then [] else Replay(record[BATCH_HEADER..]).ops)
  }

  ghost predicate AllAccepted(records: seq<Bytes>) {
    forall i :: 0 <= i < |records| ==> Accepted(records[i])
  }

  function BatchesOf(records: seq<Bytes>): (r: seq<Batch>)
    requires AllAccepted(records)
    ensures |r| == |records|
  {
    seq(|records|, i requires 0 <= i < |records| => BatchOf(records[i]))
  }

  /** The records before the first that is refused. */
  function AcceptedPart(records: seq<Bytes>): (r: seq<Bytes>)
    ensures AllAccepted(r)
  {
    if records == [] || !Accepted(records[0]) then [] else [records[0]] + AcceptedPart(records[1..])
  }

  lemma {:induction false} AcceptedUpTo(done: seq<Bytes>, rest: seq<Bytes>)
    requires AllAccepted(done) && (rest == [] || !Accepted(rest[0]))
    ensures AcceptedPart(done + rest) == done
  {
    hide Accepted;
    if done == [] {
      assert done + rest == rest;
    } else {
      AcceptedUpTo(done[1..], rest);
      assert (done + rest)[1..] == done[1..] + rest && done == [done[0]] + done[1..];
    }
  }

  /** The record of a batch the store writes is accepted, and stands for it. */
  lemma StoredIsAccepted(b: Batch)
    requires Storable(b)
    ensures Accepted(BatchBytes(b.seqno, b.ops)) && BatchOf(BatchBytes(b.seqno, b.ops)) == b
  {
    hide EncodeOps, Replay;
    var record := BatchBytes(b.seqno, b.ops);
    HeaderReads(b.seqno, b.ops);
    ReplayRoundTrip(b.ops);
  }

  lemma FourBytes(s: Bytes)
    requires |s| == 4
    ensures Unfixed(s) < LIMIT32
  {
    var a, b, c, d := s[1..], s[1..][1..], s[1..][1..][1..], s[1..][1..][1..][1..];
    assert d == [] && Unfixed(d) == 0;
    assert Unfixed(c) < 256 && Unfixed(b) < 0x1_0000 && Unfixed(a) < 0x100_0000;
  }

  lemma AcceptedHasHeader(record: Bytes)
    requires Accepted(record)
    ensures |record| >= BATCH_HEADER
  {
  }

  lemma HeaderReads(seqno: nat, ops: seq<BatchOp>)
    requires seqno < LIMIT64 && |ops| < LIMIT32
    ensures var record := BatchBytes(seqno, ops);
            && |record| >= BATCH_HEADER && Unfixed(record[..8]) == seqno && Unfixed(record[8..12]) == |ops|
            && record[BATCH_HEADER..] == EncodeOps(ops)
  {
    hide EncodeOps, Fixed, Unfixed;
    Fixed64RoundTrip(seqno);
    Fixed32RoundTrip(|ops|);
    var record := BatchBytes(seqno, ops);
    assert record[..8] == Fixed(seqno, 8) && record[8..12] == Fixed(|ops|, 4);
  }

  /** One record of the log into the memtable; an empty batch changes nothing, and neither does one that is refused by
      its header. */
  method ReplayRecord(record: Bytes, memtable: seq<Entry>, last: nat) returns (m: seq<Entry>, l: nat, grown: bool, ok: bool)
    ensures ok <==> Accepted(record)
    ensures ok ==>
              var b := BatchOf(record);
              && grown == (b.ops != []) && m == InsertAll(memtable, Engine.Stamp(AbstractAll(b.ops), b.seqno))
              && l == if b.ops != [] && last < b.seqno + |b.ops| - 1 then b.seqno + |b.ops| - 1 else last
    ensures !ok ==> l == last && !grown
  {
    hide InsertAll, AllFit, Replay, Unfixed, Engine.Stamp;
    grown := false;
    if |record| >= BATCH_HEADER {
      FourBytes(record[8..12]);
    }
    if |record| < BATCH_HEADER {
      return memtable, last, false, false;
    }
    var batch := new WriteBatch();
    batch.SetContents(record, 0, []);
    var count := batch.Count();
    if count < 0 {
      return memtable, last, false, false;
    }
    NoVersions(memtable, BatchOf(record));
    if count == 0 {
      return memtable, last, false, true;
    }
    var sequence := batch.Sequence();
    if sequence > MAX_SEQUENCE + 1 - count {
      return memtable, last, false, false;
    }
    m, ok := InsertInto(batch, memtable);
    if !ok {
      return m, last, false, false;
    }
    l := if last < sequence + count - 1 then sequence + count - 1 else last;
    grown := true;
  }

  const BATCH_HEADER: nat := 12

  lemma NoVersions(memtable: seq<Entry>, b: Batch)
    ensures b.ops == [] ==> InsertAll(memtable, Engine.Stamp(AbstractAll(b.ops), b.seqno)) == memtable
  {
  }

  /** The stretches of versions that went into flushed memtables, and those in the memtable since. */
  datatype Stretches = Stretches(cut: seq<seq<Entry>>, rest: seq<Entry>)

  /** A replay of the batches onto a memtable of `held`: it is flushed behind every batch that leaves it over its size. */
  function StretchesOf(full: seq<Entry> -> bool, batches: seq<Batch>, held: seq<Entry>): Stretches {
    if batches == [] then Stretches([], held)
    else StretchOn(full, StretchesOf(full, batches[..|batches| - 1], held), batches[|batches| - 1])
  }

  function StretchOn(full: seq<Entry> -> bool, before: Stretches, b: Batch): Stretches {
    var rest := before.rest + Engine.Stamp(AbstractAll(b.ops), b.seqno);
    if b.ops != [] && full(InsertAll([], rest)) then Stretches(before.cut + [rest], []) else Stretches(before.cut, rest)
  }

  /** Each stretch cut off filled a memtable. */
  ghost predicate AllFull(full: seq<Entry> -> bool, cut: seq<seq<Entry>>) {
    forall i :: 0 <= i < |cut| ==> cut[i] != [] && full(InsertAll([], cut[i]))
  }

  /** In order the stretches are all the versions.  Each one cut off filled a memtable; what is left behind a batch that
      wrote something does not. */
  lemma {:induction false} StretchesAre(full: seq<Entry> -> bool, batches: seq<Batch>, held: seq<Entry>)
    ensures var r := StretchesOf(full, batches, held);
            && Engine.Flatten(r.cut) + r.rest == held + BatchVersions(batches) && AllFull(full, r.cut)
            && (batches != [] && batches[|batches| - 1].ops != [] ==> r.rest == [] || !full(InsertAll([], r.rest)))
  {
    hide InsertAll, Engine.Stamp, Engine.Flatten, AllFull, StretchOn;
    if batches == [] {
      NothingCut(full, held);
    } else {
      var n := |batches| - 1;
      StretchesAre(full, batches[..n], held);
      StretchAdded(full, StretchesOf(full, batches[..n], held), held + BatchVersions(batches[..n]), batches[n]);
      assert held + BatchVersions(batches[..n]) + Engine.Stamp(AbstractAll(batches[n].ops), batches[n].seqno) == held + BatchVersions(batches);
    }
  }

  lemma NothingCut(full: seq<Entry> -> bool, held: seq<Entry>)
    ensures Engine.Flatten([]) + held == held + BatchVersions([]) && AllFull(full, [])
  {
  }

  lemma StretchAdded(full: seq<Entry> -> bool, before: Stretches, versions: seq<Entry>, b: Batch)
    requires Engine.Flatten(before.cut) + before.rest == versions && AllFull(full, before.cut)
    ensures var r := StretchOn(full, before, b);
            && Engine.Flatten(r.cut) + r.rest == versions + Engine.Stamp(AbstractAll(b.ops), b.seqno) && AllFull(full, r.cut)
            && (b.ops != [] ==> r.rest == [] || !full(InsertAll([], r.rest)))
  {
    hide InsertAll, Engine.Stamp, Engine.Flatten, AllFull;
    var es := Engine.Stamp(AbstractAll(b.ops), b.seqno);
    FlattenedOn(before.cut, before.rest, es);
    if b.ops != [] && full(InsertAll([], before.rest + es)) {
      AllFullOn(full, before.cut, before.rest + es);
    }
  }

  lemma FlattenedOn(cut: seq<seq<Entry>>, rest: seq<Entry>, es: seq<Entry>)
    ensures Engine.Flatten(cut) + (rest + es) == Engine.Flatten(cut) + rest + es
    ensures Engine.Flatten(cut + [rest + es]) + [] == Engine.Flatten(cut) + rest + es
  {
    var more := cut + [rest + es];
    assert more[..|cut|] == cut && more[|cut|] == rest + es;
    Regrouped(Engine.Flatten(cut), rest, es, Engine.Flatten(more));
  }

  lemma Regrouped(x: seq<Entry>, y: seq<Entry>, z: seq<Entry>, w: seq<Entry>)
    requires w == x + (y + z)
    ensures x + (y + z) == x + y + z && w + [] == x + y + z
  {
  }

  lemma AllFullOn(full: seq<Entry> -> bool, cut: seq<seq<Entry>>, last: seq<Entry>)
    requires AllFull(full, cut) && last != [] && full(InsertAll([], last))
    ensures AllFull(full, cut + [last])
  {
    hide InsertAll;
  }

  /** Flushed memtables and the last one are what the stretches make of empty ones. */
  ghost predicate Memtables(tables: seq<seq<Entry>>, m: seq<Entry>, r: Stretches) {
    TablesFrom(tables, r) && m == InsertAll([], r.rest)
  }

  ghost predicate TablesFrom(tables: seq<seq<Entry>>, r: Stretches) {
    |tables| == |r.cut| && forall i :: 0 <= i < |tables| ==> tables[i] == InsertAll([], r.cut[i])
  }

  /** Reads and replays records until the first failure, flushing the memtable to level 0 whenever it is over
      its size.  Whatever the file holds: it succeeds exactly if all records are accepted and reading ends without an
      error; flushed tables and memtable get the versions of the batches accepted, in order, after those the
      memtable already held (`held`), cut where the memtable is full.  A record that is refused may have left
      operations in the memtable. */
  method RecoverLogFile(stamp: Bytes -> nat, file: Bytes, memtable: seq<Entry>, last: nat, full: seq<Entry> -> bool, ghost held: seq<Entry>)
    returns (tables: seq<seq<Entry>>, m: seq<Entry>, l: nat, ok: bool)
    requires memtable == InsertAll([], held)
    ensures LogReplayed(ReadAll(stamp, true, file, 0), EndsOk(stamp, true, file, 0), full, held, last, tables, m, l, ok)
  {
    hide ReadLogical, ReadAll, EndsOk, InsertAll, BlockEnd, Accepted, BatchOf, Progress, LogReplayed, Engine.Stamp, AbstractAll, Reader.Ok, Reader.Position;
    var reader := new Reader(stamp, true, file);
    tables, m, l := [], memtable, last;
    ghost var q: nat, done: seq<Bytes> := 0, [];
    Starts(stamp, file, full, held, last);
    var found, record, readOk := reader.ReadRecord();
    while found
      invariant reader.stamp == stamp && reader.checksum && reader.file == file && fresh(reader)
      invariant q <= |file|
      invariant found ==> reader.Ok() && ReadLogical(stamp, true, file, q, None) == Record(record, reader.Position())
      invariant !found ==> ReadLogical(stamp, true, file, q, None) == NoRecord(readOk)
      invariant Progress(stamp, file, q, done, full, held, last, tables, m, l)
      decreases |file| - q
    {
      ghost var next := reader.Position();
      var ok1, grown;
      ghost var m0, l0, was := m, l, tables;
      m, l, grown, ok1 := ReplayRecord(record, m, l);
      if !ok1 {
        StopsAtRefused(stamp, file, q, done, record, next, full, held, last, tables, m0, m, l);
        return tables, m, l, false;
      }
      ghost var grownTo := m;
      if grown && full(m) {
        tables, m := tables + [m], [];
      }
      AcceptedHasHeader(record);
      OneRecordMore(stamp, file, q, done, record, next, full, held, last, was, m0, l0, grownTo, tables, m, l);
      q := next;
      done := done + [record];
      found, record, readOk := reader.ReadRecord();
    }
    StopsAtEnd(stamp, file, q, done, readOk, full, held, last, tables, m, l);
    ok := readOk;
  }

  /** What a replay of these records comes to; `clean` says that reading them ends without an error. */
  ghost predicate LogReplayed(records: seq<Bytes>, clean: bool, full: seq<Entry> -> bool, held: seq<Entry>, last: nat,
                              tables: seq<seq<Entry>>, m: seq<Entry>, l: nat, ok: bool) {
    var batches := BatchesOf(AcceptedPart(records));
    && l == LastSequence(batches, last)
    && TablesFrom(tables, StretchesOf(full, batches, held))
    && (AcceptedPart(records) == records ==> Memtables(tables, m, StretchesOf(full, batches, held)))
    && (ok <==> AcceptedPart(records) == records && clean)
  }

  /** A log of batches the store wrote, cut at some byte, has the records of the batches that survive and no others; it
      ends without an error exactly if the cut is clean. */
  lemma CutLogReplays(stamp: Bytes -> nat, batches: seq<Batch>, size: nat)
    requires AllStorable(batches) && size <= |WriteAll(stamp, Records(batches))|
    ensures var file := WriteAll(stamp, Records(batches))[..size];
            var records := ReadAll(stamp, true, file, 0);
            var k := Survivors(stamp, Records(batches), size);
            && k <= |batches| && AcceptedPart(records) == records && BatchesOf(AcceptedPart(records)) == batches[..k]
            && (EndsOk(stamp, true, file, 0) <==> CleanCut(stamp, Records(batches), size))
  {
    hide WriteAll, ReadAll, EndsOk, CleanCut, Survivors, BatchBytes, Accepted, BatchOf, AcceptedPart, Storable;
    TornTail(stamp, true, Records(batches), size);
    TornTailStatus(stamp, true, Records(batches), size);
    var k := Survivors(stamp, Records(batches), size);
    var records := Records(batches)[..k];
    forall i | 0 <= i < k
      ensures Accepted(records[i]) && |records[i]| >= BATCH_HEADER && BatchOf(records[i]) == batches[i]
    {
      assert Storable(batches[i]);
      StoredIsAccepted(batches[i]);
      AcceptedHasHeader(records[i]);
    }
    AcceptedUpTo(records, []);
    assert records + [] == records;
  }

  /** With the reader at `q`, the records before have been replayed. */
  ghost predicate Progress(stamp: Bytes -> nat, file: Bytes, q: nat, done: seq<Bytes>, full: seq<Entry> -> bool, held: seq<Entry>, last: nat,
                           tables: seq<seq<Entry>>, m: seq<Entry>, l: nat)
    requires q <= |file|
  {
    && AllAccepted(done) && ReadAll(stamp, true, file, 0) == done + ReadAll(stamp, true, file, q)
    && EndsOk(stamp, true, file, q) == EndsOk(stamp, true, file, 0)
    && Behind(full, BatchesOf(done), held, last, tables, m, l)
  }

  /** After these batches. */
  ghost predicate Behind(full: seq<Entry> -> bool, batches: seq<Batch>, held: seq<Entry>, last: nat,
                        tables: seq<seq<Entry>>, m: seq<Entry>, l: nat) {
    Memtables(tables, m, StretchesOf(full, batches, held)) && l == LastSequence(batches, last)
  }

  lemma Starts(stamp: Bytes -> nat, file: Bytes, full: seq<Entry> -> bool, held: seq<Entry>, last: nat)
    ensures Progress(stamp, file, 0, [], full, held, last, [], InsertAll([], held), last)
  {
    hide ReadAll, EndsOk, InsertAll;
    assert BatchesOf([]) == [];
  }

  lemma OneRecordMore(stamp: Bytes -> nat, file: Bytes, q: nat, done: seq<Bytes>, record: Bytes, next: nat, full: seq<Entry> -> bool,
                      held: seq<Entry>, last: nat, tables0: seq<seq<Entry>>, m0: seq<Entry>, l0: nat, grown: seq<Entry>,
                      tables: seq<seq<Entry>>, m: seq<Entry>, l: nat)
    requires q <= |file| && next <= |file| && Progress(stamp, file, q, done, full, held, last, tables0, m0, l0)
    requires ReadLogical(stamp, true, file, q, None) == Record(record, next) && Accepted(record) && |record| >= BATCH_HEADER
    requires var b := BatchOf(record);
             && grown == InsertAll(m0, Engine.Stamp(AbstractAll(b.ops), b.seqno))
             && (if b.ops != [] && full(grown) then tables == tables0 + [grown] && m == [] else tables == tables0 && m == grown)
             && l == if b.ops != [] && l0 < b.seqno + |b.ops| - 1 then b.seqno + |b.ops| - 1 else l0
    ensures Progress(stamp, file, next, done + [record], full, held, last, tables, m, l)
  {
    hide ReadAll, EndsOk, ReadLogical, InsertAll, Behind, Accepted, BatchOf, Engine.Stamp;
    ReadStep(stamp, true, file, q);
    assert BatchesOf(done + [record]) == BatchesOf(done) + [BatchOf(record)];
    OneMore(full, BatchesOf(done), BatchOf(record), held, last, tables0, m0, l0, grown, tables, m, l);
    OneRecordOn(done, record, ReadAll(stamp, true, file, next));
  }

  lemma StopsAtRefused(stamp: Bytes -> nat, file: Bytes, q: nat, done: seq<Bytes>, record: Bytes, next: nat, full: seq<Entry> -> bool,
                       held: seq<Entry>, last: nat, tables: seq<seq<Entry>>, m0: seq<Entry>, m: seq<Entry>, l: nat)
    requires q <= |file| && next <= |file| && Progress(stamp, file, q, done, full, held, last, tables, m0, l)
    requires ReadLogical(stamp, true, file, q, None) == Record(record, next) && !Accepted(record)
    ensures LogReplayed(ReadAll(stamp, true, file, 0), EndsOk(stamp, true, file, 0), full, held, last, tables, m, l, false)
  {
    hide ReadAll, EndsOk, ReadLogical, InsertAll, Accepted, BatchesOf, AcceptedPart, TablesFrom, StretchesOf, LastSequence;
    ReadStep(stamp, true, file, q);
    var rest := [record] + ReadAll(stamp, true, file, next);
    AcceptedUpTo(done, rest);
    assert |done + rest| > |done|;
  }

  lemma StopsAtEnd(stamp: Bytes -> nat, file: Bytes, q: nat, done: seq<Bytes>, readOk: bool, full: seq<Entry> -> bool,
                   held: seq<Entry>, last: nat, tables: seq<seq<Entry>>, m: seq<Entry>, l: nat)
    requires q <= |file| && Progress(stamp, file, q, done, full, held, last, tables, m, l)
    requires ReadLogical(stamp, true, file, q, None) == NoRecord(readOk)
    ensures LogReplayed(ReadAll(stamp, true, file, 0), EndsOk(stamp, true, file, 0), full, held, last, tables, m, l, readOk)
  {
    hide ReadAll, EndsOk, ReadLogical, InsertAll, Accepted, BatchesOf, AcceptedPart, TablesFrom, StretchesOf, LastSequence;
    ReadStep(stamp, true, file, q);
    AcceptedUpTo(done, []);
    assert done + [] == done;
  }

  /** One batch more in the memtable, which becomes a table if that fills it. */
  lemma OneMore(full: seq<Entry> -> bool, batches: seq<Batch>, b: Batch, held: seq<Entry>, last: nat, tables0: seq<seq<Entry>>,
                m0: seq<Entry>, l0: nat, grown: seq<Entry>, tables: seq<seq<Entry>>, m: seq<Entry>, l: nat)
    requires Behind(full, batches, held, last, tables0, m0, l0)
    requires grown == InsertAll(m0, Engine.Stamp(AbstractAll(b.ops), b.seqno))
    requires if b.ops != [] && full(grown) then tables == tables0 + [grown] && m == [] else tables == tables0 && m == grown
    requires l == if b.ops != [] && l0 < b.seqno + |b.ops| - 1 then b.seqno + |b.ops| - 1 else l0
    ensures Behind(full, batches + [b], held, last, tables, m, l)
  {
    hide InsertAll, Engine.Stamp;
    var es, before := Engine.Stamp(AbstractAll(b.ops), b.seqno), StretchesOf(full, batches, held);
    assert (batches + [b])[..|batches|] == batches;
    InsertAllConcat([], before.rest, es);
    NoneInserted();
  }

  lemma NoneInserted()
    ensures InsertAll([], []) == []
  {
  }
}

/** WriteBatch (db/write_batch.cc): operations as bytes, replayed with consecutive sequence numbers. */
module WriteBatches {
  import opened Keys
  import opened Coding
  import opened Runs
  import Engine

  const HEADER_SIZE: nat := 12
  const RECORD_DELETION: byte := 0
  const RECORD_VALUE: byte := 1
  const COUNT_LIMIT: nat := 0x8000_0000

  datatype BatchOp = Put(key: Bytes, value: Bytes) | Delete(key: Bytes)

  function EncodeOp(op: BatchOp): (r: Bytes)
    ensures r != []
  {
    match op
    case Put(key, value) => [RECORD_VALUE] + Prefixed(key) + Prefixed(value)
    case Delete(key) => [RECORD_DELETION] + Prefixed(key)
  }

  function EncodeOps(ops: seq<BatchOp>): Bytes {
    if ops == [] then [] else EncodeOps(ops[..|ops| - 1]) + EncodeOp(ops[|ops| - 1])
  }

  /** Lengths are stored in 32 bits. */
  predicate Fits(op: BatchOp) {
    |op.key| < LIMIT32 && (op.Put? ==> |op.value| < LIMIT32)
  }

  ghost predicate AllFit(ops: seq<BatchOp>) {
    forall i :: 0 <= i < |ops| ==> Fits(ops[i])
  }

  /** The operations a handler sees, and whether the records are well formed to the end. */
  datatype Replayed = Replayed(ops: seq<BatchOp>, ok: bool)

  datatype ParsedOp = ParsedOp(op: BatchOp, rest: Bytes) | Malformed

  function ParseOp(input: Bytes): (r: ParsedOp)
    requires input != []
    ensures r.ParsedOp? ==> |r.rest| < |input|
  {
    if input[0] == RECORD_VALUE then
      match ReadPrefixed(input[1..])
      case None => Malformed
      case Some(key) =>
        match ReadPrefixed(key.rest)
        case None => Malformed
        case Some(value) =>
          ReadPrefixedShrinks(input[1..]);
          ReadPrefixedShrinks(key.rest);
          ParsedOp(Put(key.value, value.value), value.rest)
    else if input[0] == RECORD_DELETION then
      match ReadPrefixed(input[1..])
      case None => Malformed
      case Some(key) =>
        ReadPrefixedShrinks(input[1..]);
        ParsedOp(Delete(key.value), key.rest)
    else Malformed
  }

  function Replay(input: Bytes): Replayed
    decreases |input|
  {
    if input == [] then Replayed([], true)
    else
      match ParseOp(input)
      case Malformed => Replayed([], false)
      case ParsedOp(op, rest) =>
        var tail := Replay(rest);
        Replayed([op] + tail.ops, tail.ok)
  }

  lemma OpRoundTrip(op: BatchOp, rest: Bytes)
    requires Fits(op)
    ensures ParseOp(EncodeOp(op) + rest) == ParsedOp(op, rest)
  {
    hide Prefixed, ReadPrefixed;
    var s := EncodeOp(op) + rest;
    match op
    case Put(key, value) =>
      assert s[1..] == Prefixed(key) + (Prefixed(value) + rest);
      PrefixedRoundTrip(key, Prefixed(value) + rest);
      PrefixedRoundTrip(value, rest);
    case Delete(key) =>
      assert s[1..] == Prefixed(key) + rest;
      PrefixedRoundTrip(key, rest);
  }

  /** Records of any other type are malformed, and each stands for an operation of its own type. */
  lemma ParsedType(input: Bytes)
    requires input != []
    ensures match ParseOp(input)
            case Malformed => true
            case ParsedOp(op, _) => input[0] == if op.Put? then RECORD_VALUE else RECORD_DELETION
  {
    hide ReadPrefixed;
  }

  lemma EncodeOpsFront(ops: seq<BatchOp>)
    requires ops != []
    ensures EncodeOps(ops) == EncodeOp(ops[0]) + EncodeOps(ops[1..])
  {
    hide EncodeOp;
    EncodeOpsConcat([ops[0]], ops[1..]);
    assert ops == [ops[0]] + ops[1..];
    assert [ops[0]][..0] == [];
    assert EncodeOps([ops[0]]) == EncodeOps([]) + EncodeOp(ops[0]);
  }

  lemma {:induction false} EncodeOpsConcat(a: seq<BatchOp>, b: seq<BatchOp>)
    ensures EncodeOps(a + b) == EncodeOps(a) + EncodeOps(b)
  {
    hide EncodeOp;
    if b == [] {
      assert a + b == a;
    } else {
      var n := |b| - 1;
      EncodeOpsConcat(a, b[..n]);
      assert (a + b)[..|a + b| - 1] == a + b[..n];
    }
  }

  /** Iterating over encoded operations replays exactly those. */
  lemma {:induction false} ReplayRoundTrip(ops: seq<BatchOp>)
    requires AllFit(ops)
    ensures Replay(EncodeOps(ops)) == Replayed(ops, true)
  {
    hide EncodeOp, ParseOp, Fits;
    if ops != [] {
      EncodeOpsFront(ops);
      OpRoundTrip(ops[0], EncodeOps(ops[1..]));
      ReplayRoundTrip(ops[1..]);
      assert ops == [ops[0]] + ops[1..];
    }
  }

  /** Bytes behind the operations that are no record end the replay in an error, after those operations. */
  lemma {:induction false} ReplayStops(ops: seq<BatchOp>, bad: Bytes)
    requires AllFit(ops) && bad != [] && ParseOp(bad).Malformed?
    ensures Replay(EncodeOps(ops) + bad) == Replayed(ops, false)
  {
    hide EncodeOp, ParseOp, Fits;
    if ops == [] {
      assert EncodeOps(ops) + bad == bad;
    } else {
      EncodeOpsFront(ops);
      var rest := EncodeOps(ops[1..]) + bad;
      assert EncodeOps(ops) + bad == EncodeOp(ops[0]) + rest;
      OpRoundTrip(ops[0], rest);
      ReplayStops(ops[1..], bad);
      assert ops == [ops[0]] + ops[1..];
    }
  }

  // ------------------------------------------------------------------ the batch

  /** A batch in memory or read back from the log. */
  function BatchBytes(seqno: nat, ops: seq<BatchOp>): Bytes {
    Fixed(seqno, 8) + Fixed(|ops|, 4) + EncodeOps(ops)
  }

  /** Appending a record's pieces appends its encoding. */
  lemma RecordBytes(b: Bytes, op: BatchOp)
    ensures match op
            case Put(key, value) => b + [RECORD_VALUE] + Prefixed(key) + Prefixed(value) == b + EncodeOp(op)
            case Delete(key) => b + [RECORD_DELETION] + Prefixed(key) == b + EncodeOp(op)
  {
    hide Prefixed;
  }

  lemma OpAppended(seqno: nat, ops: seq<BatchOp>, before: Bytes, op: BatchOp)
    requires before == Fixed(seqno, 8) + Fixed(|ops| + 1, 4) + EncodeOps(ops)
    ensures before + EncodeOp(op) == BatchBytes(seqno, ops + [op])
  {
    hide EncodeOp, Fixed, EncodeOps;
    OneMoreOp(ops, op);
  }

  lemma OneMoreOp(ops: seq<BatchOp>, op: BatchOp)
    ensures EncodeOps(ops + [op]) == EncodeOps(ops) + EncodeOp(op)
  {
    hide EncodeOp;
    assert (ops + [op])[..|ops|] == ops;
  }

  lemma AllFitMore(ops: seq<BatchOp>, op: BatchOp)
    requires AllFit(ops) && Fits(op)
    ensures AllFit(ops + [op])
  {
  }

  class WriteBatch {
    var rep: Bytes
    /** The operations put in since the last Clear. */
    ghost var ops: seq<BatchOp>
    ghost var seqno: nat

    constructor ()
      ensures Ok() && ops == [] && seqno == 0
    {
      new;
      Clear();
    }

    ghost predicate Ok()
      reads this
    {
      rep == BatchBytes(seqno, ops) && AllFit(ops) && |ops| < COUNT_LIMIT && seqno < LIMIT64
    }

    function Sequence(): nat
      requires |rep| >= HEADER_SIZE
      reads this
    {
      Unfixed(rep[..8])
    }

    /** The stored count as a signed 32-bit number. */
    function Count(): int
      requires |rep| >= HEADER_SIZE
      reads this
    {
      var n := Unfixed(rep[8..12]);
      if n < COUNT_LIMIT then n else n - LIMIT32
    }

    lemma HeaderMeans()
      requires Ok()
      ensures |rep| >= HEADER_SIZE && Sequence() == seqno && Count() == |ops| && rep[HEADER_SIZE..] == EncodeOps(ops)
    {
      Fixed64RoundTrip(seqno);
      Fixed32RoundTrip(|ops|);
      assert rep[..8] == Fixed(seqno, 8);
      assert rep[8..12] == Fixed(|ops|, 4);
    }

    method Clear()
      modifies this
      ensures Ok() && ops == [] && seqno == 0
    {
      rep := Zeros(HEADER_SIZE);
      rep := Fixed(0, 8) + rep[8..];
      rep := rep[..8] + Fixed(0, 4) + rep[12..];
      ops, seqno := [], 0;
    }

    method SetSequence(s: nat)
      requires Ok() && s < LIMIT64
      modifies this
      ensures Ok() && ops == old(ops) && seqno == s
    {
      hide Fixed, EncodeOps, Fits;
      assert rep[8..] == Fixed(|ops|, 4) + EncodeOps(ops);
      rep := Fixed(s, 8) + rep[8..];
      assert rep == BatchBytes(s, ops);
      seqno := s;
    }

    method SetCount(count: nat)
      requires |rep| >= HEADER_SIZE
      modifies this`rep
      ensures rep == old(rep[..8]) + Fixed(count, 4) + old(rep[12..])
    {
      rep := rep[..8] + Fixed(count, 4) + rep[12..];
    }

    method PutOp(key: Bytes, value: Bytes)
      requires Ok() && |ops| + 1 < COUNT_LIMIT && Fits(Put(key, value))
      modifies this
      ensures Ok() && ops == old(ops) + [Put(key, value)] && seqno == old(seqno)
    {
      hide Prefixed, Fixed, EncodeOp, EncodeOps, Fits;
      HeaderMeans();
      SetCount(Count() + 1);
      ghost var before := rep;
      rep := rep + [RECORD_VALUE];
      rep := rep + Prefixed(key);
      rep := rep + Prefixed(value);
      RecordBytes(before, Put(key, value));
      OpAppended(seqno, ops, before, Put(key, value));
      AllFitMore(ops, Put(key, value));
      ops := ops + [Put(key, value)];
    }

    method DeleteOp(key: Bytes)
      requires Ok() && |ops| + 1 < COUNT_LIMIT && Fits(Delete(key))
      modifies this
      ensures Ok() && ops == old(ops) + [Delete(key)] && seqno == old(seqno)
    {
      hide Prefixed, Fixed, EncodeOp, EncodeOps, Fits;
      HeaderMeans();
      SetCount(Count() + 1);
      ghost var before := rep;
      rep := rep + [RECORD_DELETION];
      rep := rep + Prefixed(key);
      RecordBytes(before, Delete(key));
      OpAppended(seqno, ops, before, Delete(key));
      AllFitMore(ops, Delete(key));
      ops := ops + [Delete(key)];
    }

    /** Takes over bytes read from the log; they may stand for some operations. */
    method SetContents(contents: Bytes, ghost seqno: nat, ghost ops: seq<BatchOp>)
      modifies this
      ensures rep == contents
      ensures contents == BatchBytes(seqno, ops) && AllFit(ops) && |ops| < COUNT_LIMIT && seqno < LIMIT64 ==>
                Ok() && this.seqno == seqno && this.ops == ops
    {
      rep := contents;
      this.seqno, this.ops := seqno, ops;
    }

    /** Appends the other batch's operations, which may be this batch's own. */
    method Append(source: WriteBatch)
      requires Ok() && source.Ok() && |ops| + |source.ops| < COUNT_LIMIT
      modifies this
      ensures Ok() && ops == old(ops) + old(source.ops) && seqno == old(seqno)
    {
      hide EncodeOps, Fixed, Fits;
      HeaderMeans();
      source.HeaderMeans();
      ghost var added := source.ops;
      var tail := source.rep[HEADER_SIZE..];
      SetCount(Count() + source.Count());
      rep := rep + tail;
      EncodeOpsConcat(ops, added);
      ops := ops + added;
      assert rep == BatchBytes(seqno, ops);
    }

    /** What a handler is given, whether or not the records turn out well formed. */
    method Iterate() returns (seen: seq<BatchOp>, ok: bool)
      ensures |rep| < HEADER_SIZE ==> seen == [] && !ok
      ensures |rep| >= HEADER_SIZE ==>
                var r := Replay(rep[HEADER_SIZE..]);
                seen == r.ops && (ok <==> r.ok && |r.ops| == Count())
      ensures Ok() ==> seen == ops && ok
    {
      hide ParseOp, EncodeOps, Fixed, Fits;
      if Ok() {
        HeaderMeans();
        ReplayRoundTrip(ops);
      }
      seen := [];
      if |rep| < HEADER_SIZE {
        return [], false;
      }
      var input := rep[HEADER_SIZE..];
      var found := 0;
      ghost var whole := Replay(input);
      while input != []
        invariant found == |seen|
        invariant whole == Replayed(seen + Replay(input).ops, Replay(input).ok)
        decreases |input|
      {
        match ParseOp(input) {
          case Malformed =>
            return seen, false;
          case ParsedOp(op, rest) =>
            seen := seen + [op];
            found := found + 1;
            input := rest;
        }
      }
      ok := found == Count();
    }
  }

  // ------------------------------------------------------------------ inserting into a memtable

  /** The operation on user keys, in terms of the engine. */
  function Abstract(op: BatchOp): Engine.Op {
    match op
    case Put(key, value) => Engine.Put(Rank(key), value)
    case Delete(key) => Engine.Delete(Rank(key))
  }

  function AbstractAll(ops: seq<BatchOp>): (r: seq<Engine.Op>)
    ensures |r| == |ops|
    ensures forall i :: 0 <= i < |ops| ==> r[i] == Abstract(ops[i])
  {
    if ops == [] then [] else AbstractAll(ops[..|ops| - 1]) + [Abstract(ops[|ops| - 1])]
  }

  /** The versions a batch's bytes stand for. */
  function Versions(rep: Bytes): seq<Entry>
    requires |rep| >= HEADER_SIZE
  {
    Engine.Stamp(AbstractAll(Replay(rep[HEADER_SIZE..]).ops), Unfixed(rep[..8]))
  }

  class MemTableInserter {
    var sequence: nat
    var memtable: seq<Entry>

    constructor (sequence: nat, memtable: seq<Entry>)
      ensures this.sequence == sequence && this.memtable == memtable
    {
      this.sequence, this.memtable := sequence, memtable;
    }

    method Handle(op: BatchOp)
      modifies this
      ensures sequence == old(sequence) + 1
      ensures memtable == InsertEntry(old(memtable), Engine.EntryOf(Abstract(op), old(sequence)))
    {
      match op {
        case Put(key, value) =>
          memtable := InsertEntry(memtable, Entry(InternalKey(Rank(key), sequence, Value), value));
        case Delete(key) =>
          memtable := InsertEntry(memtable, Entry(InternalKey(Rank(key), sequence, Deletion), []));
      }
      sequence := sequence + 1;
    }
  }

  lemma NothingInserted(memtable: seq<Entry>)
    ensures InsertAll(memtable, []) == memtable
  {
  }

  lemma InsertOneMore(memtable: seq<Entry>, es: seq<Entry>, i: nat)
    requires i < |es|
    ensures InsertAll(memtable, es[..i + 1]) == InsertEntry(InsertAll(memtable, es[..i]), es[i])
  {
    assert es[..i + 1][..i] == es[..i];
  }

  /** WriteBatchInternal::InsertInto: the batch's versions, numbered from its sequence on, in order. */
  method InsertInto(batch: WriteBatch, memtable: seq<Entry>) returns (r: seq<Entry>, ok: bool)
    ensures |batch.rep| < HEADER_SIZE ==> r == memtable && !ok
    ensures |batch.rep| >= HEADER_SIZE ==>
              && r == InsertAll(memtable, Versions(batch.rep))
              && (ok <==> Replay(batch.rep[HEADER_SIZE..]).ok && |Replay(batch.rep[HEADER_SIZE..]).ops| == batch.Count())
    ensures batch.Ok() ==> ok && r == InsertAll(memtable, Engine.Stamp(AbstractAll(batch.ops), batch.seqno))
  {
    hide Replay, InsertEntry, InsertAll, Fits, EncodeOps, Fixed, Unfixed, Engine.EntryOf;
    NothingInserted(memtable);
    if |batch.rep| < HEADER_SIZE {
      return memtable, false;
    }
    if batch.Ok() {
      batch.HeaderMeans();
    }
    var inserter := new MemTableInserter(batch.Sequence(), memtable);
    var seen, status := batch.Iterate();
    ghost var es := Engine.Stamp(AbstractAll(seen), batch.Sequence());
    assert es[..0] == [];
    for i := 0 to |seen|
      invariant inserter.sequence == batch.Sequence() + i
      invariant inserter.memtable == InsertAll(memtable, es[..i])
    {
      InsertOneMore(memtable, es, i);
      inserter.Handle(seen[i]);
    }
    assert es[..|seen|] == es;
    return inserter.memtable, status;
  }
}

/** log::Writer and log::Reader (db/log_writer.cc, db/log_reader.cc), proved against the format. */
module Logs {
  import opened Keys
  import opened Coding
  import opened Lists
  import opened LogFormat

  class Writer {
    const stamp: Bytes -> nat
    var dest: Bytes
    var blockOffset: nat

    /** Appends to a file that already holds `dest`. */
    constructor (stamp: Bytes -> nat, dest: Bytes)
      ensures this.stamp == stamp && this.dest == dest && Ok()
    {
      this.stamp, this.dest := stamp, dest;
      blockOffset := |dest| % BLOCK_SIZE;
    }

    ghost predicate Ok()
      reads this
    {
      blockOffset <= BLOCK_SIZE && blockOffset % BLOCK_SIZE == |dest| % BLOCK_SIZE
    }

    method AddRecord(slice: Bytes)
      requires Ok()
      modifies this
      ensures Ok() && dest == old(dest) + Encoded(stamp, slice, |old(dest)|, true)
    {
      hide PhysicalRecord, Encoded, Zeros, Padding;
      var left, begin := slice, true;
      while true
        invariant Ok()
        invariant dest + Encoded(stamp, left, |dest|, begin) == old(dest) + Encoded(stamp, slice, |old(dest)|, true)
        decreases |left|, if |dest| % BLOCK_SIZE == 0 then 0 else 1
      {
        ghost var q, was, before, wasBegin := |dest|, dest, left, begin;
        EncodedStep(stamp, left, q, begin);
        PadBlock();
        var available := BLOCK_SIZE - blockOffset - HEADER_SIZE;
        var fragmentLength := if |left| < available then |left| else available;
        var end := |left| == fragmentLength;
        var kind := FragmentKind(begin, end);
        EmitPhysicalRecord(kind, left[..fragmentLength]);
        left := left[fragmentLength..];
        begin := false;
        assert dest == was + (Zeros(Padding(q)) + PhysicalRecord(stamp, kind, before[..fragmentLength]));
        if left == [] {
          break;
        }
        NextBlock(q, |before|);
        assert dest + Encoded(stamp, left, |dest|, false) == was + Encoded(stamp, before, q, wasBegin);
      }
    }

    /** A block too full for a header is filled up. */
    method PadBlock()
      requires Ok()
      modifies this
      ensures Ok() && dest == old(dest) + Zeros(Padding(|old(dest)|)) && blockOffset + HEADER_SIZE <= BLOCK_SIZE
      ensures blockOffset == (|old(dest)| + Padding(|old(dest)|)) % BLOCK_SIZE
    {
      hide Zeros, Padding;
      ghost var q, was := |dest|, dest;
      OffsetInBlock(q, blockOffset);
      var leftover := BLOCK_SIZE - blockOffset;
      if leftover < HEADER_SIZE {
        if leftover > 0 {
          dest := dest + Zeros(leftover);
        }
        blockOffset := 0;
      }
      PadsBy(was, dest, Padding(q));
    }

    method EmitPhysicalRecord(kind: byte, payload: Bytes)
      requires Ok() && blockOffset + HEADER_SIZE + |payload| <= BLOCK_SIZE
      modifies this
      ensures Ok() && dest == old(dest) + PhysicalRecord(stamp, kind, payload)
      ensures blockOffset == old(blockOffset) + HEADER_SIZE + |payload|
    {
      hide Fixed;
      var header := Fixed(stamp([kind] + payload), 4) + Fixed(|payload|, 2) + [kind];
      RecordInOne(stamp, dest, kind, payload);
      dest := dest + header;
      dest := dest + payload;
      blockOffset := blockOffset + HEADER_SIZE + |payload|;
    }
  }

  lemma RecordInOne(stamp: Bytes -> nat, dest: Bytes, kind: byte, payload: Bytes)
    ensures var header := Fixed(stamp([kind] + payload), 4) + Fixed(|payload|, 2) + [kind];
            dest + header + payload == dest + PhysicalRecord(stamp, kind, payload)
  {
    hide Fixed;
  }

  lemma PadsBy(was: Bytes, now: Bytes, n: nat)
    requires now == was + Zeros(n) || (n == 0 && now == was)
    ensures now == was + Zeros(n)
  {
  }

  lemma EncodedStep(stamp: Bytes -> nat, payload: Bytes, q: nat, begin: bool)
    ensures var n := FragmentLength(q, |payload|);
            Encoded(stamp, payload, q, begin) ==
              Zeros(Padding(q)) + PhysicalRecord(stamp, FragmentKind(begin, n == |payload|), payload[..n]) +
              if n == |payload| then [] else Encoded(stamp, payload[n..], FragmentEnd(q, |payload|), false)
  {
  }

  // ------------------------------------------------------------------ reading

  const EOF: nat := 5
  const BAD: nat := 6

  class Reader {
    const stamp: Bytes -> nat
    const checksum: bool
    /** The log file and how much of it has been fetched. */
    const file: Bytes
    var fetched: nat
    var buffer: Bytes
    var eof: bool

    constructor (stamp: Bytes -> nat, checksum: bool, file: Bytes)
      ensures this.stamp == stamp && this.checksum == checksum && this.file == file
      ensures Ok() && Position() == 0
    {
      this.stamp, this.checksum, this.file := stamp, checksum, file;
      fetched, buffer, eof := 0, [], false;
    }

    /** The buffer is what is left of the block fetched last; only a partial block sets the end of file. */
    ghost predicate Ok()
      reads this
    {
      && |buffer| <= fetched <= |file| && buffer == file[fetched - |buffer|..fetched]
      && (|buffer| > 0 ==> fetched == BlockEnd(|file|, fetched - |buffer|))
      && (!eof ==> fetched % BLOCK_SIZE == 0)
      && (eof ==> fetched == |file| && (fetched % BLOCK_SIZE == 0 ==> buffer == []))
    }

    ghost function Position(): nat
      requires Ok()
      reads this
    {
      fetched - |buffer|
    }

    method ReadPhysicalRecord() returns (kind: nat, result: Bytes, ok: bool)
      requires Ok()
      modifies this
      ensures match ReadPhysical(stamp, checksum, file, old(Position()))
              case Fragment(k, p, n) => kind == k as nat && result == p && ok && Ok() && Position() == n
              case EndOfFile => kind == EOF && ok
              case BadRecord(corrupt) => kind == BAD && ok == !corrupt
    {
      hide ParseHeader, ReadPhysical, BlockEnd;
      if |buffer| < HEADER_SIZE {
        if eof {
          AtPartialBlock(stamp, checksum, file, Position(), fetched);
          if buffer != [] {
            buffer := [];
            return BAD, [], false;
          }
          return EOF, [], true;
        }
        ghost var q := Position();
        var n := if |file| - fetched < BLOCK_SIZE then |file| - fetched else BLOCK_SIZE;
        buffer := file[fetched..fetched + n];
        fetched := fetched + n;
        eof := |buffer| < BLOCK_SIZE;
        FetchedBlock(|file|, fetched - n, fetched);
        SkipsToBlock(stamp, checksum, file, q, fetched - n);
        AtPartialBlock(stamp, checksum, file, fetched - n, fetched);
        if buffer == [] {
          return EOF, [], true;
        }
        if |buffer| < HEADER_SIZE {
          buffer := [];
          return BAD, [], false;
        }
      }
      kind, result, ok := ParseBuffered();
    }

    /** One fragment from the buffered block. */
    method ParseBuffered() returns (kind: nat, result: Bytes, ok: bool)
      requires Ok() && |buffer| >= HEADER_SIZE
      modifies this
      ensures match ReadPhysical(stamp, checksum, file, old(Position()))
              case Fragment(k, p, n) => kind == k as nat && result == p && ok && Ok() && Position() == n
              case EndOfFile => kind == EOF && ok
              case BadRecord(corrupt) => kind == BAD && ok == !corrupt
    {
      hide Fixed, ReadPhysical, BlockEnd, ParseHeader;
      ghost var q := Position();
      BlockBuffered(stamp, checksum, file, q, fetched);
      HeaderInBuffer(stamp, checksum, file, fetched, buffer);
      var length := buffer[4] as nat + 256 * buffer[5] as nat;
      var type_ := buffer[6];
      if HEADER_SIZE + length > |buffer| {
        buffer := [];
        if !eof {
          return BAD, [], false;
        }
        return EOF, [], true;
      }
      if type_ == 0 && length == 0 {
        buffer := [];
        return BAD, [], true;
      }
      PayloadHere(file, fetched, buffer, length);
      SameBlock(|file|, q, q + HEADER_SIZE + length, fetched);
      if type_ > LAST {
        buffer := buffer[HEADER_SIZE + length..];
        return BAD, [], false;
      }
      var payload := buffer[HEADER_SIZE..HEADER_SIZE + length];
      if checksum && buffer[..4] != Fixed(stamp([type_] + payload), 4) {
        buffer := [];
        return BAD, [], false;
      }
      buffer := buffer[HEADER_SIZE + length..];
      return type_ as nat, payload, true;
    }

    method ReadRecord() returns (found: bool, record: Bytes, ok: bool)
      requires Ok()
      modifies this
      ensures found ==> Ok() && ReadLogical(stamp, checksum, file, old(Position()), None) == Record(record, Position())
      ensures !found ==> ReadLogical(stamp, checksum, file, old(Position()), None) == NoRecord(ok)
    {
      hide ReadPhysical, BlockEnd;
      var scratch, inFragmentedRecord := [], false;
      record := [];
      while true
        invariant Ok()
        invariant ReadLogical(stamp, checksum, file, Position(), if inFragmentedRecord then Some(scratch) else None)
                  == ReadLogical(stamp, checksum, file, old(Position()), None)
        decreases |file| - Position()
      {
        var kind, fragment;
        kind, fragment, ok := ReadPhysicalRecord();
        if kind == FULL as nat {
          return true, fragment, true;
        } else if kind == FIRST as nat {
          scratch := fragment;
          inFragmentedRecord := true;
        } else if kind == MIDDLE as nat {
          if !inFragmentedRecord {
            return false, [], false;
          }
          scratch := scratch + fragment;
        } else if kind == LAST as nat {
          if !inFragmentedRecord {
            return false, [], false;
          }
          scratch := scratch + fragment;
          return true, scratch, true;
        } else if kind == BAD {
          return false, [], ok;
        } else if kind == EOF {
          if inFragmentedRecord {
            ok := false;
          }
          return false, [], ok;
        } else {
          return false, [], false;
        }
      }
    }

    /** The loop recovery runs over a log file. */
    method ReadRecords() returns (records: seq<Bytes>, ok: bool)
      requires Ok()
      modifies this
      ensures records == ReadAll(stamp, checksum, file, old(Position()))
      ensures ok == EndsOk(stamp, checksum, file, old(Position()))
    {
      hide ReadLogical, ReadAll, EndsOk, BlockEnd;
      ghost var q := Position();
      assert q <= |file|;
      hide Reader.Ok, Reader.Position;
      records := [];
      assert [] + ReadAll(stamp, checksum, file, q) == ReadAll(stamp, checksum, file, q);
      var found, record;
      found, record, ok := ReadRecord();
      while found
        invariant q <= |file|
        invariant found ==> Ok() && ReadLogical(stamp, checksum, file, q, None) == Record(record, Position())
        invariant !found ==> ReadLogical(stamp, checksum, file, q, None) == NoRecord(ok)
        invariant records + ReadAll(stamp, checksum, file, q) == ReadAll(stamp, checksum, file, old(Position()))
        invariant EndsOk(stamp, checksum, file, q) == EndsOk(stamp, checksum, file, old(Position()))
        decreases |file| - q
      {
        ReadStep(stamp, checksum, file, q);
        ghost var next := Position();
        OneRecordOn(records, record, ReadAll(stamp, checksum, file, next));
        records := records + [record];
        q := next;
        found, record, ok := ReadRecord();
      }
      ReadStep(stamp, checksum, file, q);
    }
  }

  lemma OneRecordOn(done: seq<Bytes>, record: Bytes, rest: seq<Bytes>)
    ensures done + ([record] + rest) == (done + [record]) + rest
  {
  }

  lemma ReadStep(stamp: Bytes -> nat, checksum: bool, file: Bytes, q: nat)
    requires q <= |file|
    ensures ReadAll(stamp, checksum, file, q) ==
              match ReadLogical(stamp, checksum, file, q, None)
              case NoRecord(ok) => []
              case Record(payload, next) => [payload] + ReadAll(stamp, checksum, file, next)
    ensures EndsOk(stamp, checksum, file, q) ==
              match ReadLogical(stamp, checksum, file, q, None)
              case NoRecord(ok) => ok
              case Record(payload, next) => EndsOk(stamp, checksum, file, next)
  {
  }

  /** With the rest of a full block too short for a header, reading goes on at the next block. */
  lemma SkipsToBlock(stamp: Bytes -> nat, checksum: bool, file: Bytes, q: nat, e: nat)
    requires q <= e <= |file| && e % BLOCK_SIZE == 0 && e - q < HEADER_SIZE
    requires q < e ==> e == BlockEnd(|file|, q)
    ensures ReadPhysical(stamp, checksum, file, q) == ReadPhysical(stamp, checksum, file, e)
  {
  }

  /** What the buffered block makes of the header at its front. */
  function ParseBuffer(stamp: Bytes -> nat, checksum: bool, buffer: Bytes, q: nat, partialBlock: bool): Physical
    requires |buffer| >= HEADER_SIZE
  {
    var length := buffer[4] as nat + 256 * buffer[5] as nat;
    var kind := buffer[6];
    if HEADER_SIZE + length > |buffer| then if partialBlock then EndOfFile else BadRecord(true)
    else if kind == 0 && length == 0 then BadRecord(false)
    else if kind > LAST then BadRecord(true)
    else if checksum && buffer[..4] != Fixed(stamp([kind] + buffer[HEADER_SIZE..HEADER_SIZE + length]), 4) then BadRecord(true)
    else Fragment(kind, buffer[HEADER_SIZE..HEADER_SIZE + length], q + HEADER_SIZE + length)
  }

  lemma HeaderInBuffer(stamp: Bytes -> nat, checksum: bool, file: Bytes, fetched: nat, buffer: Bytes)
    requires HEADER_SIZE <= |buffer| <= fetched <= |file| && buffer == file[fetched - |buffer|..fetched]
    ensures ParseHeader(stamp, checksum, file, fetched - |buffer|, fetched) ==
            ParseBuffer(stamp, checksum, buffer, fetched - |buffer|, fetched % BLOCK_SIZE != 0)
  {
    HeaderHere(file, fetched, buffer);
    var length := buffer[4] as nat + 256 * buffer[5] as nat;
    if HEADER_SIZE + length <= |buffer| {
      PayloadHere(file, fetched, buffer, length);
    }
  }

  lemma HeaderHere(file: Bytes, fetched: nat, buffer: Bytes)
    requires HEADER_SIZE <= |buffer| <= fetched <= |file| && buffer == file[fetched - |buffer|..fetched]
    ensures var q := fetched - |buffer|;
            buffer[4] == file[q + 4] && buffer[5] == file[q + 5] && buffer[6] == file[q + 6] && buffer[..4] == file[q..q + 4]
  {
  }

  lemma PayloadHere(file: Bytes, fetched: nat, buffer: Bytes, length: nat)
    requires HEADER_SIZE + length <= |buffer| <= fetched <= |file| && buffer == file[fetched - |buffer|..fetched]
    ensures var q := fetched - |buffer|;
            && buffer[HEADER_SIZE..HEADER_SIZE + length] == file[q + HEADER_SIZE..q + HEADER_SIZE + length]
            && buffer[HEADER_SIZE + length..] == file[q + HEADER_SIZE + length..fetched]
  {
    var q := fetched - |buffer|;
    SliceOfSlice(file, q, fetched, HEADER_SIZE, HEADER_SIZE + length);
    SliceOfSlice(file, q, fetched, HEADER_SIZE + length, |buffer|);
    assert buffer[HEADER_SIZE + length..|buffer|] == buffer[HEADER_SIZE + length..];
  }

  lemma BlockBuffered(stamp: Bytes -> nat, checksum: bool, file: Bytes, q: nat, e: nat)
    requires q + HEADER_SIZE <= e <= |file| && e == BlockEnd(|file|, q)
    ensures ReadPhysical(stamp, checksum, file, q) == ParseHeader(stamp, checksum, file, q, e)
  {
  }

  lemma SameBlock(size: nat, q: nat, r: nat, e: nat)
    requires q <= r < e == BlockEnd(size, q) || r == e
    ensures r < e ==> BlockEnd(size, r) == e
  {
    if r < e {
      assert r / BLOCK_SIZE == q / BLOCK_SIZE;
    }
  }

  /** The block fetched at a block boundary. */
  lemma FetchedBlock(size: nat, q: nat, e: nat)
    requires q % BLOCK_SIZE == 0 && q <= e <= size && e == if size - q < BLOCK_SIZE then size else q + BLOCK_SIZE
    ensures q < e ==> BlockEnd(size, q) == e
    ensures e - q < BLOCK_SIZE ==> e == size
    ensures e - q == BLOCK_SIZE ==> e % BLOCK_SIZE == 0
    ensures 0 < e - q < BLOCK_SIZE ==> e % BLOCK_SIZE != 0
  {
  }

  /** At the end of the file, with less than a header left. */
  lemma AtPartialBlock(stamp: Bytes -> nat, checksum: bool, file: Bytes, q: nat, e: nat)
    requires q <= e <= |file|
    ensures q == |file| ==> ReadPhysical(stamp, checksum, file, q) == EndOfFile
    ensures 0 < e - q < HEADER_SIZE && e == |file| == BlockEnd(|file|, q) && e % BLOCK_SIZE != 0 ==>
              ReadPhysical(stamp, checksum, file, q) == BadRecord(true)
  {
  }

  /** The writer's offset in its block decides padding and room as the file position does. */
  lemma OffsetInBlock(q: nat, blockOffset: nat)
    requires blockOffset <= BLOCK_SIZE && blockOffset % BLOCK_SIZE == q % BLOCK_SIZE
    ensures var leftover := BLOCK_SIZE - blockOffset;
            && Padding(q) == (if leftover < HEADER_SIZE then leftover else 0)
            && (q + Padding(q)) % BLOCK_SIZE == (if leftover < HEADER_SIZE then 0 else blockOffset)
  {
  }
}

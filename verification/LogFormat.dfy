/** The write-ahead log as bytes (db/log_format.h, db/log_writer.cc, db/log_reader.cc): what appending a
    record writes, and what reading from a position returns. */
module LogFormat {
  import opened Keys
  import opened Coding

  const BLOCK_SIZE: nat := 32768
  const HEADER_SIZE: nat := 7
  const FULL: byte := 1
  const FIRST: byte := 2
  const MIDDLE: byte := 3
  const LAST: byte := 4

  // ------------------------------------------------------------------ writing

  /** Header and payload of one fragment; `stamp` stands for the masked checksum. */
  function PhysicalRecord(stamp: Bytes -> nat, kind: byte, payload: Bytes): (r: Bytes)
    ensures |r| == HEADER_SIZE + |payload|
  {
    Fixed(stamp([kind] + payload), 4) + Fixed(|payload|, 2) + [kind] + payload
  }

  /** Bytes left over in a block that cannot hold a header. */
  function Padding(q: nat): (r: nat)
    ensures r < HEADER_SIZE
    ensures BLOCK_SIZE - (q + r) % BLOCK_SIZE >= HEADER_SIZE
  {
    if BLOCK_SIZE - q % BLOCK_SIZE < HEADER_SIZE then BLOCK_SIZE - q % BLOCK_SIZE else 0
  }

  /** How much of the payload the block at position `q` can take. */
  function FragmentLength(q: nat, left: nat): (r: nat)
    ensures r <= left && r <= BLOCK_SIZE - HEADER_SIZE
  {
    var available := BLOCK_SIZE - (q + Padding(q)) % BLOCK_SIZE - HEADER_SIZE;
    if left < available then left else available
  }

  function FragmentKind(begin: bool, end: bool): byte {
    if begin && end then FULL else if begin then FIRST else if end then LAST else MIDDLE
  }

  /** Where the fragment that starts at `q` ends. */
  function FragmentEnd(q: nat, left: nat): nat {
    q + Padding(q) + HEADER_SIZE + FragmentLength(q, left)
  }

  /** The bytes a record (or its remaining payload) takes at position `q` of the file. */
  function Encoded(stamp: Bytes -> nat, payload: Bytes, q: nat, begin: bool): (r: Bytes)
    ensures |r| >= HEADER_SIZE
    decreases |payload|, if q % BLOCK_SIZE == 0 then 0 else 1
  {
    var n := FragmentLength(q, |payload|);
    var fragment := Zeros(Padding(q)) + PhysicalRecord(stamp, FragmentKind(begin, n == |payload|), payload[..n]);
    if n == |payload| then fragment
    else
      NextBlock(q, |payload|);
      fragment + Encoded(stamp, payload[n..], FragmentEnd(q, |payload|), false)
  }

  /** A record that goes on fills its block, so the next fragment takes at least one byte. */
  lemma NextBlock(q: nat, left: nat)
    requires FragmentLength(q, left) < left
    ensures FragmentEnd(q, left) % BLOCK_SIZE == 0
    ensures FragmentLength(q, left) > 0 || q % BLOCK_SIZE != 0
    ensures FragmentLength(q, left) == 0 ==> BLOCK_SIZE - q % BLOCK_SIZE == HEADER_SIZE
  {
    var s := q + Padding(q);
    assert FragmentLength(q, left) == BLOCK_SIZE - s % BLOCK_SIZE - HEADER_SIZE;
    assert FragmentEnd(q, left) == s - s % BLOCK_SIZE + BLOCK_SIZE;
  }

  /** A log of whole records. */
  function WriteAll(stamp: Bytes -> nat, records: seq<Bytes>): Bytes {
    if records == [] then []
    else
      var before := WriteAll(stamp, records[..|records| - 1]);
      before + Encoded(stamp, records[|records| - 1], |before|, true)
  }

  // ------------------------------------------------------------------ reading

  /** What one physical read yields; a bad record normally reports corruption. */
  datatype Physical = Fragment(kind: byte, payload: Bytes, next: nat) | EndOfFile | BadRecord(corrupt: bool)

  /** End of the block position `q` lies in, or of the file. */
  function BlockEnd(size: nat, q: nat): nat {
    var e := q - q % BLOCK_SIZE + BLOCK_SIZE;
    if size < e then size else e
  }

  /** One fragment from the header at `q`, whose block ends at `e`. */
  function ParseHeader(stamp: Bytes -> nat, checksum: bool, file: Bytes, q: nat, e: nat): Physical
    requires q + HEADER_SIZE <= e <= |file|
  {
    var length := file[q + 4] as nat + 256 * file[q + 5] as nat;
    var kind := file[q + 6];
    if q + HEADER_SIZE + length > e then
      if e % BLOCK_SIZE == 0 then BadRecord(true) else EndOfFile
    else if kind == 0 && length == 0 then BadRecord(false)
    else if kind > LAST then BadRecord(true)
    else if checksum && file[q..q + 4] != Fixed(stamp([kind] + file[q + HEADER_SIZE..q + HEADER_SIZE + length]), 4) then BadRecord(true)
    else Fragment(kind, file[q + HEADER_SIZE..q + HEADER_SIZE + length], q + HEADER_SIZE + length)
  }

  /** Reader::ReadPhysicalRecord from position `q`: a full block's last few bytes are skipped, a partial
      block's are an error. */
  function ReadPhysical(stamp: Bytes -> nat, checksum: bool, file: Bytes, q: nat): (r: Physical)
    requires q <= |file|
    ensures r.Fragment? ==> q + HEADER_SIZE <= r.next <= |file| && r.kind <= LAST
    decreases |file| - q
  {
    var e := BlockEnd(|file|, q);
    if e - q >= HEADER_SIZE then ParseHeader(stamp, checksum, file, q, e)
    else if q == |file| then EndOfFile
    else if e % BLOCK_SIZE != 0 then BadRecord(true)
    else ReadPhysical(stamp, checksum, file, e)
  }

  /** What one logical read yields; `ok` tells whether its status is. */
  datatype Logical = Record(payload: Bytes, next: nat) | NoRecord(ok: bool)

  /** Reader::ReadRecord from position `q`, with the fragments collected so far. */
  function ReadLogical(stamp: Bytes -> nat, checksum: bool, file: Bytes, q: nat, partial: Option<Bytes>): (r: Logical)
    requires q <= |file|
    ensures r.Record? ==> q < r.next <= |file|
    decreases |file| - q
  {
    match ReadPhysical(stamp, checksum, file, q)
    case EndOfFile => NoRecord(partial.None?)
    case BadRecord(corrupt) => NoRecord(!corrupt)
    case Fragment(kind, payload, next) =>
      if kind == FULL then Record(payload, next)
      else if kind == FIRST then ReadLogical(stamp, checksum, file, next, Some(payload))
      else if kind == MIDDLE then
        if partial.None? then NoRecord(false) else ReadLogical(stamp, checksum, file, next, Some(partial.value + payload))
      else if kind == LAST then
        if partial.None? then NoRecord(false) else Record(partial.value + payload, next)
      else NoRecord(false)
  }

  /** All records from position `q` on, up to the first failure. */
  function ReadAll(stamp: Bytes -> nat, checksum: bool, file: Bytes, q: nat): seq<Bytes>
    requires q <= |file|
    decreases |file| - q
  {
    match ReadLogical(stamp, checksum, file, q, None)
    case NoRecord(ok) => []
    case Record(payload, next) => [payload] + ReadAll(stamp, checksum, file, next)
  }

  /** Whether reading all records ends without an error, as recovery demands. */
  predicate EndsOk(stamp: Bytes -> nat, checksum: bool, file: Bytes, q: nat)
    requires q <= |file|
    decreases |file| - q
  {
    match ReadLogical(stamp, checksum, file, q, None)
    case NoRecord(ok) => ok
    case Record(payload, next) => EndsOk(stamp, checksum, file, next)
  }
}

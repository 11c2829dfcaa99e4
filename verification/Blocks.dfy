/** The block format: prefix compression with restart points (db/block_builder.cc, db/block.cc). */
module Blocks {
  import opened Keys
  import opened Coding
  import opened Comparators

  // ------------------------------------------------------------------ one entry

  function Header(shared: nat, nonShared: nat, valueLength: nat): Bytes {
    Varint(shared % LIMIT32) + Varint(nonShared % LIMIT32) + Varint(valueLength % LIMIT32)
  }

  datatype Head = Head(shared: nat, nonShared: nat, valueLength: nat, rest: Bytes)

  /** The final check: the word-sized lengths fit what is left. */
  function CheckedHead(shared: nat, nonShared: nat, valueLength: nat, rest: Bytes): Option<Head> {
    if |rest| % LIMIT32 < (nonShared + valueLength) % LIMIT32 then None else Some(Head(shared, nonShared, valueLength, rest))
  }

  /** Three lengths, with a fast path when each is a single byte. */
  function DecodeEntry(p: Bytes): Option<Head> {
    if |p| < 3 then None
    else if p[0] < 128 && p[1] < 128 && p[2] < 128 then CheckedHead(p[0] as nat, p[1] as nat, p[2] as nat, p[3..])
    else
      match ReadVarint32(p)
      case None => None
      case Some(a) =>
        match ReadVarint32(a.rest)
        case None => None
        case Some(b) =>
          match ReadVarint32(b.rest)
          case None => None
          case Some(c) => CheckedHead(a.value, b.value, c.value, c.rest)
  }

  lemma FirstByte(v: nat, rest: Bytes)
    ensures (Varint(v) + rest)[0] < 128 <==> v < 128
    ensures v < 128 ==> (Varint(v) + rest)[0] as nat == v && (Varint(v) + rest)[1..] == rest
  {
  }

  lemma DecodeHeader(a: nat, b: nat, c: nat, rest: Bytes)
    requires a < LIMIT32 && b + c <= |rest| < LIMIT32
    ensures DecodeEntry(Header(a, b, c) + rest) == Some(Head(a, b, c, rest))
  {
    hide Varint, ReadVarint32;
    var p := Header(a, b, c) + rest;
    var p2 := Varint(c) + rest;
    var p1 := Varint(b) + p2;
    assert p == Varint(a) + p1;
    Varint32RoundTrip(a, p1);
    Varint32RoundTrip(b, p2);
    Varint32RoundTrip(c, rest);
    if p[0] < 128 && p[1] < 128 && p[2] < 128 {
      FirstByte(a, p1);
      assert p1 == p[1..];
      FirstByte(b, p2);
      assert p2 == p[2..];
      FirstByte(c, rest);
      assert p[3..] == rest;
    }
  }

  /** An entry as it lies in a block. */
  datatype Cell = Cell(key: Bytes, value: Bytes, shared: nat, offset: nat)

  function CellBytes(c: Cell): Bytes
    requires c.shared <= |c.key|
  {
    Header(c.shared, |c.key| - c.shared, |c.value|) + c.key[c.shared..] + c.value
  }

  function Offset(cells: seq<Cell>, limit: nat, i: nat): nat {
    if i < |cells| then cells[i].offset else limit
  }

  /** A key can be rebuilt from the previous one. */
  ghost predicate Follows(cells: seq<Cell>, i: nat)
    requires i < |cells|
  {
    var c := cells[i];
    && c.shared <= |c.key|
    && (i == 0 ==> c.shared == 0)
    && (i > 0 ==> c.shared <= |cells[i - 1].key| && c.key[..c.shared] == cells[i - 1].key[..c.shared])
  }

  ghost predicate CellInPlace(data: Bytes, limit: nat, cells: seq<Cell>, i: nat)
    requires i < |cells|
  {
    && Follows(cells, i)
    && cells[i].offset + |CellBytes(cells[i])| == Offset(cells, limit, i + 1) <= limit <= |data|
    && data[cells[i].offset..Offset(cells, limit, i + 1)] == CellBytes(cells[i])
    && |cells[i].key| <= Offset(cells, limit, i + 1)
  }

  /** The first `limit` bytes of `data` are the cells, one after the other. */
  ghost predicate Laid(data: Bytes, limit: nat, cells: seq<Cell>) {
    && limit <= |data| && Offset(cells, limit, 0) == 0
    && forall i: nat :: i < |cells| ==> CellInPlace(data, limit, cells, i)
  }

  lemma {:induction false} OffsetsAscend(data: Bytes, limit: nat, cells: seq<Cell>, i: nat, j: nat)
    requires Laid(data, limit, cells) && i < j <= |cells|
    ensures Offset(cells, limit, i) + 3 <= Offset(cells, limit, j) <= limit
    decreases j
  {
    assert CellInPlace(data, limit, cells, j - 1);
    if i < j - 1 {
      OffsetsAscend(data, limit, cells, i, j - 1);
    }
  }

  /** What the parser reads at a cell. */
  lemma CellDecodes(data: Bytes, limit: nat, cells: seq<Cell>, i: nat)
    requires Laid(data, limit, cells) && i < |cells| && limit < LIMIT32
    ensures var c := cells[i];
            var next := Offset(cells, limit, i + 1);
            && c.offset + 3 <= next <= limit && c.shared <= |c.key|
            && DecodeEntry(data[c.offset..limit]) == Some(Head(c.shared, |c.key| - c.shared, |c.value|, c.key[c.shared..] + c.value + data[next..limit]))
            && c.offset + 3 + |c.key| - c.shared + |c.value| <= next
  {
    var c, next := cells[i], Offset(cells, limit, i + 1);
    assert CellInPlace(data, limit, cells, i);
    OffsetsAscend(data, limit, cells, i, i + 1);
    assert |Header(c.shared, |c.key| - c.shared, |c.value|)| >= 3;
    var rest := c.key[c.shared..] + c.value + data[next..limit];
    assert data[c.offset..limit] == data[c.offset..next] + data[next..limit];
    assert data[c.offset..limit] == Header(c.shared, |c.key| - c.shared, |c.value|) + rest;
    DecodeHeader(c.shared, |c.key| - c.shared, |c.value|, rest);
  }

  // ------------------------------------------------------------------ restart points

  /** `marks` are the cells with a restart point: in order, the first always, each stored whole. */
  ghost predicate Marked(cells: seq<Cell>, marks: seq<nat>) {
    && marks != [] && marks[0] == 0
    && (forall j, k :: 0 <= j < k < |marks| ==> marks[j] < marks[k])
    && (forall j :: 0 <= j < |marks| && cells != [] ==> marks[j] < |cells|)
    && (forall j :: 0 <= j < |marks| && marks[j] < |cells| ==> cells[marks[j]].shared == 0)
    && (cells == [] ==> |marks| == 1)
  }

  function RestartArray(restarts: seq<nat>): (r: Bytes)
    ensures |r| == 4 * |restarts|
  {
    if restarts == [] then [] else RestartArray(restarts[..|restarts| - 1]) + Fixed(restarts[|restarts| - 1], 4)
  }

  lemma {:induction false} RestartAt(restarts: seq<nat>, j: nat)
    requires j < |restarts|
    ensures RestartArray(restarts)[4 * j..4 * j + 4] == Fixed(restarts[j], 4)
  {
    var n := |restarts| - 1;
    if j < n {
      RestartAt(restarts[..n], j);
      assert RestartArray(restarts)[4 * j..4 * j + 4] == RestartArray(restarts[..n])[4 * j..4 * j + 4];
    }
  }

  /** A finished block: the cells, the offsets of the restart points, and their number. */
  ghost predicate Finished(data: Bytes, limit: nat, cells: seq<Cell>, marks: seq<nat>) {
    && |data| == limit + 4 * |marks| + 4 && |data| < LIMIT32
    && Laid(data, limit, cells) && Marked(cells, marks)
    && (forall j: nat :: j < |marks| ==> RestartStored(data, limit, cells, marks, j))
    && data[|data| - 4..] == Fixed(|marks|, 4)
  }

  ghost predicate RestartStored(data: Bytes, limit: nat, cells: seq<Cell>, marks: seq<nat>, j: nat)
    requires j < |marks| && |data| >= limit + 4 * |marks|
  {
    data[limit + 4 * j..limit + 4 * j + 4] == Fixed(Offset(cells, limit, marks[j]), 4)
  }

  // ------------------------------------------------------------------ building

  datatype KV = KV(key: Bytes, value: Bytes)

  function Pairs(cells: seq<Cell>): (r: seq<KV>)
    ensures |r| == |cells|
    ensures forall i :: 0 <= i < |cells| ==> r[i] == KV(cells[i].key, cells[i].value)
  {
    if cells == [] then [] else Pairs(cells[..|cells| - 1]) + [KV(cells[|cells| - 1].key, cells[|cells| - 1].value)]
  }

  /** Key-value pairs in terms of a comparator's order. */
  function EntriesOf(order: Bytes -> InternalKey, pairs: seq<KV>): (r: seq<Entry>)
    ensures |r| == |pairs|
    ensures forall i :: 0 <= i < |pairs| ==> r[i] == Entry(order(pairs[i].key), pairs[i].value)
  {
    if pairs == [] then []
    else
      var n := |pairs| - 1;
      EntriesOf(order, pairs[..n]) + [Entry(order(pairs[n].key), pairs[n].value)]
  }

  /** Appending bytes after the last cell leaves the cells in place. */
  lemma LaidExtends(data: Bytes, cells: seq<Cell>, c: Cell)
    requires Laid(data, |data|, cells) && c.offset == |data| && c.shared <= |c.key|
    requires Follows(cells + [c], |cells|)
    requires |cells| > 0 ==> |cells[|cells| - 1].key| <= |data|
    requires |c.key| <= |data| + |CellBytes(c)|
    ensures Laid(data + CellBytes(c), |data| + |CellBytes(c)|, cells + [c])
  {
    var d, n := data + CellBytes(c), |cells|;
    var next := cells + [c];
    forall i: nat | i < |next|
      ensures CellInPlace(d, |d|, next, i)
    {
      if i < n {
        assert CellInPlace(data, |data|, cells, i);
        OffsetsAscend(data, |data|, cells, i, i + 1);
        assert d[cells[i].offset..Offset(cells, |data|, i + 1)] == data[cells[i].offset..Offset(cells, |data|, i + 1)];
        assert Offset(next, |d|, i + 1) == Offset(cells, |data|, i + 1);
      } else {
        assert d[|data|..] == CellBytes(c);
      }
    }
  }

  /** Bytes behind the cells do not matter. */
  lemma LaidBefore(data: Bytes, cells: seq<Cell>, tail: Bytes)
    requires Laid(data, |data|, cells)
    ensures Laid(data + tail, |data|, cells)
  {
    forall i: nat | i < |cells|
      ensures CellInPlace(data + tail, |data|, cells, i)
    {
      assert CellInPlace(data, |data|, cells, i);
      OffsetsAscend(data, |data|, cells, i, i + 1);
      var a, b := cells[i].offset, Offset(cells, |data|, i + 1);
      assert (data + tail)[a..b] == data[a..b];
    }
  }

  /** A restart point every `interval` cells; between them a cell shares all it can with the previous one. */
  ghost predicate Compressed(cells: seq<Cell>, marks: seq<nat>, interval: nat) {
    && (forall j: nat :: j + 1 < |marks| ==> Spaced(marks, interval, j))
    && (forall i :: 0 < i < |cells| && i !in marks ==> cells[i].shared == CommonPrefix(cells[i - 1].key, cells[i].key))
  }

  ghost predicate Spaced(marks: seq<nat>, interval: nat, j: nat)
    requires j + 1 < |marks|
  {
    marks[j + 1] == marks[j] + interval
  }

  function LastKey(cells: seq<Cell>): Bytes {
    if cells == [] then [] else cells[|cells| - 1].key
  }

  lemma LastKeyFits(buffer: Bytes, cells: seq<Cell>)
    requires Laid(buffer, |buffer|, cells)
    ensures |LastKey(cells)| <= |buffer|
  {
    if cells != [] {
      assert CellInPlace(buffer, |buffer|, cells, |cells| - 1);
    }
  }

  lemma AddKeeps(buffer: Bytes, cells: seq<Cell>, marks: seq<nat>, c: Cell, interval: nat, counter: nat, marks': seq<nat>)
    requires Laid(buffer, |buffer|, cells) && Marked(cells, marks) && Compressed(cells, marks, interval)
    requires interval >= 1 && counter <= interval && marks[|marks| - 1] + counter == |cells|
    requires c.offset == |buffer|
    requires if counter < interval then marks' == marks && c.shared == CommonPrefix(LastKey(cells), c.key)
             else marks' == marks + [|cells|] && c.shared == 0
    ensures Laid(buffer + CellBytes(c), |buffer| + |CellBytes(c)|, cells + [c])
    ensures Marked(cells + [c], marks') && Compressed(cells + [c], marks', interval)
  {
    hide CellBytes, Header, Compressed, Marked, CommonPrefix;
    LastMarkBefore(cells, marks);
    MarkedExtends(cells, marks, c, marks');
    CompressedExtends(cells, marks, c, interval, counter, marks');
    hide Laid;
    AddKeepsLaid(buffer, cells, c);
  }

  lemma AddKeepsLaid(buffer: Bytes, cells: seq<Cell>, c: Cell)
    requires Laid(buffer, |buffer|, cells) && c.offset == |buffer|
    requires c.shared == 0 || c.shared == CommonPrefix(LastKey(cells), c.key)
    ensures Laid(buffer + CellBytes(c), |buffer| + |CellBytes(c)|, cells + [c])
  {
    hide CellBytes, Header;
    LastKeyFits(buffer, cells);
    CellHoldsKey(c);
    LaidExtends(buffer, cells, c);
  }

  lemma LastMarkBefore(cells: seq<Cell>, marks: seq<nat>)
    requires Marked(cells, marks)
    ensures marks != [] && marks[|marks| - 1] <= |cells| && (cells != [] ==> marks[|marks| - 1] < |cells|)
  {
  }

  lemma MarkedExtends(cells: seq<Cell>, marks: seq<nat>, c: Cell, marks': seq<nat>)
    requires Marked(cells, marks)
    requires marks' == marks || (marks' == marks + [|cells|] && c.shared == 0 && cells != [])
    requires cells == [] ==> c.shared == 0
    ensures Marked(cells + [c], marks')
  {
    var next := cells + [c];
    assert forall i :: 0 <= i < |cells| ==> next[i] == cells[i];
  }

  lemma CompressedExtends(cells: seq<Cell>, marks: seq<nat>, c: Cell, interval: nat, counter: nat, marks': seq<nat>)
    requires Compressed(cells, marks, interval) && marks != [] && marks[|marks| - 1] + counter == |cells| && counter <= interval
    requires if counter < interval then marks' == marks && c.shared == CommonPrefix(LastKey(cells), c.key)
             else marks' == marks + [|cells|]
    ensures Compressed(cells + [c], marks', interval)
  {
    hide CommonPrefix;
    var n, next := |cells|, cells + [c];
    if counter == interval {
      assert marks'[|marks|] == n;
    }
    forall j: nat | j + 1 < |marks'|
      ensures Spaced(marks', interval, j)
    {
      assert j + 1 < |marks| ==> Spaced(marks, interval, j);
    }
    forall i | 0 < i < |next| && i !in marks'
      ensures next[i].shared == CommonPrefix(next[i - 1].key, next[i].key)
    {
      if i < n {
        assert i !in marks;
      }
    }
  }

  ghost predicate RestartsMatch(cells: seq<Cell>, limit: nat, marks: seq<nat>, restarts: seq<nat>) {
    |restarts| == |marks| && forall j :: 0 <= j < |marks| ==> restarts[j] == Offset(cells, limit, marks[j])
  }

  lemma RestartsGrow(buffer: Bytes, cells: seq<Cell>, marks: seq<nat>, restarts: seq<nat>, c: Cell, limit: nat, marks': seq<nat>, restarts': seq<nat>)
    requires Laid(buffer, |buffer|, cells) && Marked(cells, marks) && RestartsMatch(cells, |buffer|, marks, restarts)
    requires c.offset == |buffer|
    requires (marks' == marks && restarts' == restarts) || (marks' == marks + [|cells|] && restarts' == restarts + [|buffer|])
    ensures RestartsMatch(cells + [c], limit, marks', restarts')
  {
    if cells == [] {
      assert |marks| == 1 && marks[0] == 0 && |buffer| == 0;
    }
  }

  lemma CellHoldsKey(c: Cell)
    requires c.shared <= |c.key|
    ensures |c.key| <= c.shared + |CellBytes(c)|
  {
  }

  lemma FinishedProperties(body: Bytes, cells: seq<Cell>, marks: seq<nat>, restarts: seq<nat>)
    requires Laid(body, |body|, cells) && Marked(cells, marks) && RestartsMatch(cells, |body|, marks, restarts)
    requires |body| + 4 * |restarts| + 4 < LIMIT32
    ensures Finished(body + (RestartArray(restarts) + Fixed(|restarts|, 4)), |body|, cells, marks)
  {
    hide Laid, RestartArray, Fixed;
    var r, t := RestartArray(restarts), Fixed(|restarts|, 4);
    var data := body + (r + t);
    LaidBefore(body, cells, r + t);
    forall j: nat | j < |marks|
      ensures RestartStored(data, |body|, cells, marks, j)
    {
      RestartAt(restarts, j);
      MiddleSlice(body, r, t, 4 * j);
    }
    assert data[|data| - 4..] == t;
  }

  lemma MiddleSlice(a: Bytes, r: Bytes, t: Bytes, at: nat)
    requires at + 4 <= |r|
    ensures (a + (r + t))[|a| + at..|a| + at + 4] == r[at..at + 4]
  {
  }

  class BlockBuilder {
    const restartInterval: nat
    var buffer: Bytes
    var restarts: seq<nat>
    var counter: nat
    var finished: bool
    var lastKey: Bytes
    ghost var cells: seq<Cell>
    ghost var marks: seq<nat>

    constructor (restartInterval: nat)
      requires restartInterval >= 1
      ensures Ok() && Pairs(cells) == [] && !finished && this.restartInterval == restartInterval && CurrentSizeEstimate() == 8
    {
      this.restartInterval := restartInterval;
      buffer, restarts, counter, finished, lastKey := [], [0], 0, false, [];
      cells, marks := [], [0];
    }

    ghost predicate Ok()
      reads this
    {
      && restartInterval >= 1
      && Laid(buffer, |buffer|, cells) && Marked(cells, marks)
      && RestartsMatch(cells, |buffer|, marks, restarts)
      && lastKey == LastKey(cells)
      && counter <= restartInterval && marks[|marks| - 1] + counter == |cells|
      && Compressed(cells, marks, restartInterval)
    }

    method Reset()
      requires restartInterval >= 1
      modifies this
      ensures Ok() && Pairs(cells) == [] && !finished && CurrentSizeEstimate() == 8
    {
      buffer, restarts, counter, finished, lastKey := [], [0], 0, false, [];
      cells, marks := [], [0];
    }

    function CurrentSizeEstimate(): nat
      reads this
    {
      |buffer| + |restarts| * 4 + 4
    }

    predicate Empty()
      reads this
    {
      buffer == []
    }

    lemma EmptyMeansNoPairs()
      requires Ok()
      ensures Empty() <==> Pairs(cells) == []
      ensures Empty() ==> CurrentSizeEstimate() == 8
    {
      if cells != [] {
        OffsetsAscend(buffer, |buffer|, cells, 0, |cells|);
      }
    }

    /** The finished block holds exactly the added pairs. */
    method Finish() returns (data: Bytes)
      requires Ok() && CurrentSizeEstimate() < LIMIT32
      modifies this`buffer, this`finished
      ensures |data| == old(CurrentSizeEstimate())
      ensures Finished(data, old(|buffer|), cells, marks)
    {
      hide Laid, Marked, Compressed, Finished;
      ghost var body := buffer;
      var i := 0;
      while i < |restarts|
        invariant i <= |restarts|
        invariant buffer == body + RestartArray(restarts[..i])
      {
        buffer := buffer + Fixed(restarts[i], 4);
        assert restarts[..i + 1][..i] == restarts[..i];
        i := i + 1;
      }
      assert restarts[..i] == restarts;
      buffer := buffer + Fixed(|restarts|, 4);
      finished := true;
      data := buffer;
      FinishedProperties(body, cells, marks, restarts);
      assert data == body + (RestartArray(restarts) + Fixed(|restarts|, 4));
    }

    /** Appends one pair; its key must come after the previous one in the table's order. */
    method Add(key: Bytes, value: Bytes)
      requires Ok() && !finished
      modifies this
      ensures Ok() && !finished
      ensures Pairs(cells) == old(Pairs(cells)) + [KV(key, value)]
      ensures CurrentSizeEstimate() <= old(CurrentSizeEstimate()) + |key| + |value| + 19
    {
      hide Laid, Marked, Compressed, CommonPrefix, Varint, Header, RestartsMatch, CellBytes;
      ghost var b0, marks0, counter0, restarts0 := buffer, marks, counter, restarts;
      LastMark(cells, marks);
      var shared: nat := 0;
      if counter < restartInterval {
        shared := SharedLength(lastKey, key);
      } else {
        restarts := restarts + [|buffer|];
        counter := 0;
        marks := marks + [|cells|];
      }
      ghost var c := Cell(key, value, shared, |buffer|);
      buffer := buffer + Varint(shared % LIMIT32);
      buffer := buffer + Varint((|key| - shared) % LIMIT32);
      buffer := buffer + Varint(|value| % LIMIT32);
      buffer := buffer + key[shared..];
      buffer := buffer + value;
      CellAppended(b0, c);
      lastKey := lastKey[..shared] + key[shared..];
      counter := counter + 1;
      AddKeeps(b0, cells, marks0, c, restartInterval, counter0, marks);
      RestartsGrow(b0, cells, marks0, restarts0, c, |buffer|, marks, restarts);
      assert lastKey == key;
      ghost var was := cells;
      cells := cells + [c];
      assert cells[..|cells| - 1] == was;
    }
  }

  lemma LastMark(cells: seq<Cell>, marks: seq<nat>)
    requires Marked(cells, marks)
    ensures marks != [] && marks[|marks| - 1] <= |cells|
  {
  }

  method SharedLength(a: Bytes, b: Bytes) returns (shared: nat)
    ensures shared == CommonPrefix(a, b)
  {
    var minLength := if |a| < |b| then |a| else |b|;
    shared := 0;
    while shared < minLength && a[shared] == b[shared]
      invariant shared <= minLength
      invariant CommonPrefix(a, b) == shared + CommonPrefix(a[shared..], b[shared..])
    {
      assert a[shared..][1..] == a[shared + 1..] && b[shared..][1..] == b[shared + 1..];
      shared := shared + 1;
    }
  }

  lemma CellAppended(b: Bytes, c: Cell)
    requires c.shared <= |c.key|
    ensures b + Varint(c.shared % LIMIT32) + Varint((|c.key| - c.shared) % LIMIT32) + Varint(|c.value| % LIMIT32) + c.key[c.shared..] + c.value
            == b + CellBytes(c)
    ensures |CellBytes(c)| <= |c.key| + |c.value| + 15
  {
    HeaderLength(c.shared, |c.key| - c.shared, |c.value|);
  }

  lemma HeaderLength(a: nat, b: nat, c: nat)
    ensures |Header(a, b, c)| <= 15
  {
    Varint32RoundTrip(a % LIMIT32, []);
    Varint32RoundTrip(b % LIMIT32, []);
    Varint32RoundTrip(c % LIMIT32, []);
  }
}

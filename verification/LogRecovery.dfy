/** What a log gives back: every record whose last byte survived, in order, and nothing else. */
module LogRecovery {
  import opened Keys
  import opened Coding
  import opened LogFormat

  /** `whole` has `part` at position `q`. */
  ghost predicate At(whole: Bytes, q: nat, part: Bytes) {
    q + |part| <= |whole| && whole[q..q + |part|] == part
  }

  lemma AtSplits(whole: Bytes, q: nat, a: Bytes, b: Bytes)
    requires At(whole, q, a + b)
    ensures At(whole, q, a) && At(whole, q + |a|, b)
  {
    var s := whole[q..q + |a + b|];
    assert whole[q..q + |a|] == s[..|a|];
    assert whole[q + |a|..q + |a| + |b|] == s[|a|..];
  }

  lemma FixedTwo(v: nat)
    requires v < 0x10000
    ensures Fixed(v, 2)[0] as nat + 256 * Fixed(v, 2)[1] as nat == v
  {
    assert Fixed(v, 2)[1] == Fixed(v / 256, 1)[0];
  }

  /** Header fields of a physical record at a position. */
  lemma HeaderFields(stamp: Bytes -> nat, whole: Bytes, q: nat, kind: byte, payload: Bytes)
    requires At(whole, q, PhysicalRecord(stamp, kind, payload)) && |payload| < 0x10000
    ensures whole[q..q + 4] == Fixed(stamp([kind] + payload), 4)
    ensures whole[q + 4] as nat + 256 * whole[q + 5] as nat == |payload|
    ensures whole[q + 6] == kind
    ensures whole[q + HEADER_SIZE..q + HEADER_SIZE + |payload|] == payload
  {
    var crc, length := Fixed(stamp([kind] + payload), 4), Fixed(|payload|, 2);
    var r := PhysicalRecord(stamp, kind, payload);
    assert whole[q..q + |r|] == r;
    assert whole[q..q + 4] == r[..4] == crc;
    FixedTwo(|payload|);
    assert r[4] == length[0] && r[5] == length[1] && r[6] == kind;
    assert whole[q + 4] == r[4] && whole[q + 5] == r[5] && whole[q + 6] == r[6];
    assert whole[q + HEADER_SIZE..q + HEADER_SIZE + |payload|] == r[HEADER_SIZE..] == payload;
  }

  /** Cut between fragments or behind its header a fragment reads as the end of the file, elsewhere as an error. */
  function CutFragment(size: nat, q: nat): Physical {
    if size == q || size == q + Padding(q) || q + Padding(q) + HEADER_SIZE <= size then EndOfFile else BadRecord(true)
  }

  /** A fragment cut anywhere is not returned; a whole one is returned as written. */
  lemma FragmentReads(stamp: Bytes -> nat, checksum: bool, whole: Bytes, size: nat, q: nat, kind: byte, payload: Bytes)
    requires q <= size <= |whole| && FULL <= kind <= LAST
    requires At(whole, q + Padding(q), PhysicalRecord(stamp, kind, payload))
    requires |payload| <= BLOCK_SIZE - (q + Padding(q)) % BLOCK_SIZE - HEADER_SIZE
    ensures var end := q + Padding(q) + HEADER_SIZE + |payload|;
            ReadPhysical(stamp, checksum, whole[..size], q) ==
              if end <= size then Fragment(kind, payload, end) else CutFragment(size, q)
  {
    var file, s := whole[..size], q + Padding(q);
    if s > size {
      assert BlockEnd(size, q) == size;
    } else {
      SkipsPadding(stamp, checksum, file, q);
      HeaderReads(stamp, checksum, whole, size, s, kind, payload);
    }
  }

  lemma SkipsPadding(stamp: Bytes -> nat, checksum: bool, file: Bytes, q: nat)
    requires q + Padding(q) <= |file|
    ensures ReadPhysical(stamp, checksum, file, q) == ReadPhysical(stamp, checksum, file, q + Padding(q))
  {
    if Padding(q) > 0 {
      var e := BlockEnd(|file|, q);
      assert e == q + Padding(q) && e % BLOCK_SIZE == 0 && e - q < HEADER_SIZE && q < e;
    }
  }

  lemma HeaderReads(stamp: Bytes -> nat, checksum: bool, whole: Bytes, size: nat, s: nat, kind: byte, payload: Bytes)
    requires s <= size <= |whole| && FULL <= kind <= LAST
    requires At(whole, s, PhysicalRecord(stamp, kind, payload))
    requires BLOCK_SIZE - s % BLOCK_SIZE >= HEADER_SIZE && |payload| <= BLOCK_SIZE - s % BLOCK_SIZE - HEADER_SIZE
    ensures var end := s + HEADER_SIZE + |payload|;
            ReadPhysical(stamp, checksum, whole[..size], s) ==
              if end <= size then Fragment(kind, payload, end)
              else if size == s || s + HEADER_SIZE <= size then EndOfFile else BadRecord(true)
  {
    hide PhysicalRecord;
    var file, e := whole[..size], BlockEnd(size, s);
    HeaderFields(stamp, whole, s, kind, payload);
    var end := s + HEADER_SIZE + |payload|;
    if e - s >= HEADER_SIZE {
      assert file[s + 4] == whole[s + 4] && file[s + 5] == whole[s + 5] && file[s + 6] == whole[s + 6];
      assert file[s..s + 4] == whole[s..s + 4];
      if end <= size {
        assert file[s + HEADER_SIZE..end] == payload;
      }
    }
  }

  /** The first fragment of an encoding reads as written, and the rest of the encoding follows it. */
  lemma FirstFragmentReads(stamp: Bytes -> nat, checksum: bool, whole: Bytes, size: nat, q: nat, payload: Bytes, begin: bool)
    requires q <= size <= |whole| && At(whole, q, Encoded(stamp, payload, q, begin))
    ensures var n, end := FragmentLength(q, |payload|), FragmentEnd(q, |payload|);
            && ReadPhysical(stamp, checksum, whole[..size], q) ==
                 (if end <= size then Fragment(FragmentKind(begin, n == |payload|), payload[..n], end) else CutFragment(size, q))
            && (if n == |payload| then q + |Encoded(stamp, payload, q, begin)| == end
                else At(whole, end, Encoded(stamp, payload[n..], end, false))
                     && q + |Encoded(stamp, payload, q, begin)| == end + |Encoded(stamp, payload[n..], end, false)|)
  {
    hide PhysicalRecord, Fixed, ReadPhysical, Zeros;
    var n, end := FragmentLength(q, |payload|), FragmentEnd(q, |payload|);
    var kind := FragmentKind(begin, n == |payload|);
    var fragment := PhysicalRecord(stamp, kind, payload[..n]);
    var padded := Zeros(Padding(q)) + fragment;
    if n < |payload| {
      AtSplits(whole, q, padded, Encoded(stamp, payload[n..], end, false));
    }
    AtSplits(whole, q, Zeros(Padding(q)), fragment);
    FragmentReads(stamp, checksum, whole, size, q, kind, payload[..n]);
  }

  /** Reading from the start of a record, or of its remaining fragments. */
  lemma {:induction false} RecordReads(stamp: Bytes -> nat, checksum: bool, whole: Bytes, size: nat, q: nat, payload: Bytes, partial: Option<Bytes>, begin: bool)
    requires q <= size <= |whole| && At(whole, q, Encoded(stamp, payload, q, begin))
    requires !begin ==> partial.Some?
    ensures var end, got := q + |Encoded(stamp, payload, q, begin)|, ReadLogical(stamp, checksum, whole[..size], q, partial);
            if end <= size then got == Record((if begin then [] else partial.value) + payload, end)
            else got == NoRecord(begin && partial.None? && size < FragmentEnd(q, |payload|) && CutFragment(size, q).EndOfFile?)
    decreases |payload|, if q % BLOCK_SIZE == 0 then 0 else 1
  {
    hide Encoded, ReadPhysical, At;
    var n, end := FragmentLength(q, |payload|), FragmentEnd(q, |payload|);
    FirstFragmentReads(stamp, checksum, whole, size, q, payload, begin);
    assert [] + payload[..n] == payload[..n];
    if n == |payload| {
      assert payload[..n] == payload;
    } else if end <= size {
      NextBlock(q, |payload|);
      var collected := (if begin then [] else partial.value) + payload[..n];
      RecordReads(stamp, checksum, whole, size, end, payload[n..], Some(collected), false);
      assert payload == payload[..n] + payload[n..];
      assert collected + payload[n..] == (if begin then [] else partial.value) + payload;
    }
  }

  // ------------------------------------------------------------------ any file

  /** Whatever the file holds, a fragment is returned only if the file has it there byte for byte, header with its
      length and checksum included; at most a few bytes at the end of a block are skipped before it. */
  lemma OnlyWhatIsThere(stamp: Bytes -> nat, file: Bytes, q: nat)
    requires q <= |file|
    ensures var r := ReadPhysical(stamp, true, file, q);
            r.Fragment? ==>
              var s := r.next - HEADER_SIZE - |r.payload|;
              && q <= s && (s == q || (s % BLOCK_SIZE == 0 && s - q < HEADER_SIZE))
              && r.kind <= LAST && At(file, s, PhysicalRecord(stamp, r.kind, r.payload))
    decreases |file| - q
  {
    var e := BlockEnd(|file|, q);
    if e - q >= HEADER_SIZE {
      HeaderIsThere(stamp, file, q, e);
    } else if q != |file| && e % BLOCK_SIZE == 0 {
      OnlyWhatIsThere(stamp, file, e);
      NextFromBorder(stamp, file, e);
    }
  }

  /** At the start of a block nothing is skipped. */
  lemma NextFromBorder(stamp: Bytes -> nat, file: Bytes, e: nat)
    requires e <= |file| && e % BLOCK_SIZE == 0
    ensures var r := ReadPhysical(stamp, true, file, e); r.Fragment? ==> r.next - HEADER_SIZE - |r.payload| == e
  {
  }

  lemma HeaderIsThere(stamp: Bytes -> nat, file: Bytes, q: nat, e: nat)
    requires q + HEADER_SIZE <= e <= |file|
    ensures var r := ParseHeader(stamp, true, file, q, e);
            r.Fragment? ==> r.next == q + HEADER_SIZE + |r.payload| && r.kind <= LAST && At(file, q, PhysicalRecord(stamp, r.kind, r.payload))
  {
    hide Fixed;
    var r := ParseHeader(stamp, true, file, q, e);
    if r.Fragment? {
      var length := file[q + 4..q + 6];
      TwoBytes(length);
      var crc, rest := file[q..q + 4], file[q + HEADER_SIZE..r.next];
      assert file[q..r.next] == crc + length + [file[q + 6]] + rest;
    }
  }

  lemma TwoBytes(s: Bytes)
    requires |s| == 2
    ensures Fixed(s[0] as nat + 256 * s[1] as nat, 2) == s
  {
    UnfixedRoundTrip(s);
    assert s[1..] == [s[1]] && s[1..][1..] == [];
    assert Unfixed(s[1..]) == s[1] as nat + 256 * Unfixed([]);
  }

  /** A record that does not begin with its first fragment is an error, and so is a fragment of no known kind. */
  lemma StrayFragmentFails(stamp: Bytes -> nat, checksum: bool, file: Bytes, q: nat)
    requires q <= |file|
    ensures var r := ReadPhysical(stamp, checksum, file, q);
            r.Fragment? && r.kind != FULL && r.kind != FIRST ==>
              ReadLogical(stamp, checksum, file, q, None) == NoRecord(false)
              && ReadAll(stamp, checksum, file, q) == [] && !EndsOk(stamp, checksum, file, q)
  {
    hide ReadPhysical;
  }

  /** Zeros where a header should be end the log without an error. */
  lemma ZerosEnd(stamp: Bytes -> nat, checksum: bool, file: Bytes, q: nat)
    requires q + HEADER_SIZE <= BlockEnd(|file|, q) && file[q..q + HEADER_SIZE] == Zeros(HEADER_SIZE)
    ensures ReadAll(stamp, checksum, file, q) == [] && EndsOk(stamp, checksum, file, q)
  {
    var z := file[q..q + HEADER_SIZE];
    assert z[4] == file[q + 4] && z[5] == file[q + 5] && z[6] == file[q + 6];
  }

  // ------------------------------------------------------------------ whole logs

  /** How many records lie within the first `size` bytes. */
  function Survivors(stamp: Bytes -> nat, records: seq<Bytes>, size: nat): (k: nat)
    ensures k <= |records|
  {
    if records == [] then 0
    else if |WriteAll(stamp, records)| <= size then |records|
    else Survivors(stamp, records[..|records| - 1], size)
  }

  lemma {:induction false} PrefixWritten(stamp: Bytes -> nat, records: seq<Bytes>, k: nat)
    requires k <= |records|
    ensures WriteAll(stamp, records[..k]) <= WriteAll(stamp, records)
    ensures k < |records| ==> |WriteAll(stamp, records[..k])| < |WriteAll(stamp, records[..k + 1])|
  {
    hide Encoded;
    var n := |records| - 1;
    if k < |records| {
      assert records[..k + 1][..k] == records[..k];
      if k < n {
        PrefixWritten(stamp, records[..n], k);
        assert records[..n][..k] == records[..k];
      }
    } else {
      assert records[..k] == records;
    }
  }

  /** The survivors are exactly the records that end within the first `size` bytes. */
  lemma {:induction false} SurvivorsEndInside(stamp: Bytes -> nat, records: seq<Bytes>, size: nat, k: nat)
    requires 1 <= k <= |records|
    ensures k <= Survivors(stamp, records, size) <==> |WriteAll(stamp, records[..k])| <= size
  {
    hide WriteAll;
    var n := |records| - 1;
    PrefixWritten(stamp, records, k);
    if |WriteAll(stamp, records)| > size {
      if k <= n {
        SurvivorsEndInside(stamp, records[..n], size, k);
        assert records[..n][..k] == records[..k];
      } else {
        assert records[..k] == records;
      }
    }
  }

  lemma RecordAt(stamp: Bytes -> nat, records: seq<Bytes>, k: nat)
    requires k < |records|
    ensures var q := |WriteAll(stamp, records[..k])|;
            && At(WriteAll(stamp, records), q, Encoded(stamp, records[k], q, true))
            && |WriteAll(stamp, records[..k + 1])| == q + |Encoded(stamp, records[k], q, true)|
  {
    hide Encoded, WriteAll;
    var more := records[..k + 1];
    assert more[..k] == records[..k] && more[k] == records[k];
    LastWritten(stamp, more);
    PrefixWritten(stamp, records, k + 1);
    var before, one := WriteAll(stamp, records[..k]), Encoded(stamp, records[k], |WriteAll(stamp, records[..k])|, true);
    AtBehind(WriteAll(stamp, records), before, one);
  }

  lemma LastWritten(stamp: Bytes -> nat, records: seq<Bytes>)
    requires records != []
    ensures var before := WriteAll(stamp, records[..|records| - 1]);
            WriteAll(stamp, records) == before + Encoded(stamp, records[|records| - 1], |before|, true)
  {
  }

  lemma AtBehind(whole: Bytes, before: Bytes, part: Bytes)
    requires before + part <= whole
    ensures At(whole, |before|, part)
  {
    assert whole[|before|..|before| + |part|] == (before + part)[|before|..];
  }

  /** Whether a log of these records, cut to `size` bytes, ends where recovery accepts it: between records,
      or inside the payload of a record's first fragment. */
  predicate CleanCut(stamp: Bytes -> nat, records: seq<Bytes>, size: nat) {
    var k := Survivors(stamp, records, size);
    var q := |WriteAll(stamp, records[..k])|;
    || size == q
    || (k < |records| &&
          (size == q + Padding(q) || q + Padding(q) + HEADER_SIZE <= size < FragmentEnd(q, |records[k]|)))
  }

  lemma {:induction false} ReadsFrom(stamp: Bytes -> nat, checksum: bool, records: seq<Bytes>, size: nat, k: nat)
    requires size <= |WriteAll(stamp, records)| && k <= Survivors(stamp, records, size)
    requires |WriteAll(stamp, records[..k])| <= size
    ensures ReadAll(stamp, checksum, WriteAll(stamp, records)[..size], |WriteAll(stamp, records[..k])|)
            == records[k..Survivors(stamp, records, size)]
    ensures EndsOk(stamp, checksum, WriteAll(stamp, records)[..size], |WriteAll(stamp, records[..k])|) <==> CleanCut(stamp, records, size)
    decreases |records| - k
  {
    hide Encoded, ReadLogical, WriteAll;
    var whole, q, n := WriteAll(stamp, records), |WriteAll(stamp, records[..k])|, Survivors(stamp, records, size);
    if k < |records| {
      RecordAt(stamp, records, k);
      RecordReads(stamp, checksum, whole, size, q, records[k], None, true);
      SurvivorsEndInside(stamp, records, size, k + 1);
      assert [] + records[k] == records[k];
      if k < n {
        ReadsFrom(stamp, checksum, records, size, k + 1);
        assert records[k..n] == [records[k]] + records[k + 1..n];
      }
    } else {
      assert records[..k] == records;
      AtTheEnd(stamp, checksum, whole[..size]);
    }
  }

  lemma AtTheEnd(stamp: Bytes -> nat, checksum: bool, file: Bytes)
    ensures ReadAll(stamp, checksum, file, |file|) == [] && EndsOk(stamp, checksum, file, |file|)
  {
  }

  /** A log cut at any byte reads back as exactly the records whose last byte is still there. */
  lemma TornTail(stamp: Bytes -> nat, checksum: bool, records: seq<Bytes>, size: nat)
    requires size <= |WriteAll(stamp, records)|
    ensures ReadAll(stamp, checksum, WriteAll(stamp, records)[..size], 0) == records[..Survivors(stamp, records, size)]
  {
    assert WriteAll(stamp, records[..0]) == [];
    ReadsFrom(stamp, checksum, records, size, 0);
  }

  /** Recovery of a log cut at any byte succeeds exactly if the cut is clean; otherwise it reports corruption. */
  lemma TornTailStatus(stamp: Bytes -> nat, checksum: bool, records: seq<Bytes>, size: nat)
    requires size <= |WriteAll(stamp, records)|
    ensures EndsOk(stamp, checksum, WriteAll(stamp, records)[..size], 0) <==> CleanCut(stamp, records, size)
  {
    assert WriteAll(stamp, records[..0]) == [];
    ReadsFrom(stamp, checksum, records, size, 0);
  }

  /** One empty record, cut in the middle of its header: nothing is read, and recovery reports corruption. */
  lemma CutInHeader(stamp: Bytes -> nat, checksum: bool, records: seq<Bytes>)
    requires records == [[]]
    ensures |WriteAll(stamp, records)| == HEADER_SIZE && !CleanCut(stamp, records, 3)
    ensures ReadAll(stamp, checksum, WriteAll(stamp, records)[..3], 0) == []
    ensures !EndsOk(stamp, checksum, WriteAll(stamp, records)[..3], 0)
  {
    assert records[..0] == [] && WriteAll(stamp, []) == [];
  }

  /** An intact log reads back as it was written. */
  lemma LogRoundTrip(stamp: Bytes -> nat, checksum: bool, records: seq<Bytes>)
    ensures ReadAll(stamp, checksum, WriteAll(stamp, records), 0) == records
  {
    var whole := WriteAll(stamp, records);
    TornTail(stamp, checksum, records, |whole|);
    assert whole[..|whole|] == whole;
    assert records[..|records|] == records;
  }
}

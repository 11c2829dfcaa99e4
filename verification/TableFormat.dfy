/** The table file format (db/format.cc): block handles, trailers and the footer. */
module TableFormat {
  import opened Keys
  import opened Coding

  datatype Handle = Handle(offset: nat, size: nat)

  function EncodeHandle(h: Handle): Bytes {
    Varint(h.offset) + Varint(h.size)
  }

  datatype HandleAndRest = HandleAndRest(handle: Handle, rest: Bytes)

  function DecodeHandle(input: Bytes): Option<HandleAndRest> {
    match ReadVarint64(input)
    case None => None
    case Some(a) =>
      match ReadVarint64(a.rest)
      case None => None
      case Some(b) => Some(HandleAndRest(Handle(a.value, b.value), b.rest))
  }

  lemma HandleRoundTrip(h: Handle, rest: Bytes)
    requires h.offset < LIMIT64 && h.size < LIMIT64
    ensures DecodeHandle(EncodeHandle(h) + rest) == Some(HandleAndRest(h, rest))
    ensures |EncodeHandle(h)| <= 20
  {
    assert EncodeHandle(h) + rest == Varint(h.offset) + (Varint(h.size) + rest);
    Varint64RoundTrip(h.offset, Varint(h.size) + rest);
    Varint64RoundTrip(h.size, rest);
  }

  // ------------------------------------------------------------------ footer

  const MAGIC_LOW: nat := 0x8b80fb57
  const MAGIC_HIGH: nat := 0xdb477524
  const FOOTER_LENGTH: nat := 48

  datatype Footer = Footer(metaindex: Handle, index: Handle)

  /** Both handles, padded to 40 bytes, then the magic number. */
  function EncodeFooter(f: Footer): Bytes {
    var handles := EncodeHandle(f.metaindex) + EncodeHandle(f.index);
    handles + Zeros(if |handles| <= 40 then 40 - |handles| else 0) + Fixed(MAGIC_LOW, 4) + Fixed(MAGIC_HIGH, 4)
  }

  function DecodeFooter(input: Bytes): Option<Footer> {
    if |input| < FOOTER_LENGTH then None
    else if Unfixed(input[40..44]) != MAGIC_LOW || Unfixed(input[44..48]) != MAGIC_HIGH then None
    else
      match DecodeHandle(input)
      case None => None
      case Some(m) =>
        match DecodeHandle(m.rest)
        case None => None
        case Some(i) => Some(Footer(m.handle, i.handle))
  }

  lemma FooterRoundTrip(f: Footer)
    requires f.metaindex.offset < LIMIT64 && f.metaindex.size < LIMIT64 && f.index.offset < LIMIT64 && f.index.size < LIMIT64
    ensures |EncodeFooter(f)| == FOOTER_LENGTH && DecodeFooter(EncodeFooter(f)) == Some(f)
  {
    hide EncodeHandle, DecodeHandle, Unfixed, Fixed, Zeros;
    var m, i := EncodeHandle(f.metaindex), EncodeHandle(f.index);
    HandleRoundTrip(f.metaindex, []);
    HandleRoundTrip(f.index, []);
    var pad, low, high := Zeros(40 - |m + i|), Fixed(MAGIC_LOW, 4), Fixed(MAGIC_HIGH, 4);
    var s := EncodeFooter(f);
    assert s[40..44] == low && s[44..48] == high;
    Fixed32RoundTrip(MAGIC_LOW);
    Fixed32RoundTrip(MAGIC_HIGH);
    assert s == m + (i + (pad + low + high));
    HandleRoundTrip(f.metaindex, i + (pad + low + high));
    HandleRoundTrip(f.index, pad + low + high);
  }

  /** Only what ends in the magic number is a footer. */
  lemma FooterHasMagic(input: Bytes)
    requires DecodeFooter(input).Some?
    ensures |input| >= FOOTER_LENGTH && input[40..48] == Fixed(MAGIC_LOW, 4) + Fixed(MAGIC_HIGH, 4)
  {
    hide DecodeHandle, Fixed, Unfixed;
    UnfixedRoundTrip(input[40..44]);
    UnfixedRoundTrip(input[44..48]);
    assert input[40..48] == input[40..44] + input[44..48];
  }

  // ------------------------------------------------------------------ blocks in a file

  /** A type byte (no compression) and the masked checksum of block and type byte; `stamp` stands for the
      masked checksum. */
  function Trailer(stamp: Bytes -> nat, data: Bytes): (r: Bytes)
    ensures |r| == 5
  {
    [0] + Fixed(stamp(data + [0]), 4)
  }

  function Available(file: Bytes, offset: nat, n: nat): Bytes {
    if |file| <= offset then [] else if |file| <= offset + n then file[offset..] else file[offset..offset + n]
  }

  /** ReadBlock: the block behind a handle, or an error. */
  function ReadBlock(stamp: Bytes -> nat, verify: bool, file: Bytes, h: Handle): Option<Bytes> {
    var contents := Available(file, h.offset, h.size + 5);
    if |contents| != h.size + 5 then None
    else if verify && contents[h.size + 1..] != Fixed(stamp(contents[..h.size + 1]), 4) then None
    else if contents[h.size] != 0 then None
    else Some(contents[..h.size])
  }

  /** The file holds the block and its trailer where the handle says. */
  ghost predicate HoldsBlock(stamp: Bytes -> nat, file: Bytes, h: Handle, data: Bytes) {
    && h.size == |data| && h.offset + h.size + 5 <= |file|
    && file[h.offset..h.offset + h.size + 5] == data + Trailer(stamp, data)
  }

  lemma HeldBlockReads(stamp: Bytes -> nat, verify: bool, file: Bytes, h: Handle, data: Bytes)
    requires HoldsBlock(stamp, file, h, data)
    ensures ReadBlock(stamp, verify, file, h) == Some(data)
  {
    var contents := file[h.offset..h.offset + h.size + 5];
    assert Available(file, h.offset, h.size + 5) == contents;
    assert contents[..h.size + 1] == data + [0] && contents[h.size + 1..] == Fixed(stamp(data + [0]), 4);
    assert contents[..h.size] == data;
  }

  /** With its checksum verified, a block is read exactly if the file holds it there, trailer and all. */
  lemma ReadIsHeld(stamp: Bytes -> nat, file: Bytes, h: Handle, data: Bytes)
    ensures ReadBlock(stamp, true, file, h) == Some(data) <==> HoldsBlock(stamp, file, h, data)
  {
    if HoldsBlock(stamp, file, h, data) {
      HeldBlockReads(stamp, true, file, h, data);
    }
    if ReadBlock(stamp, true, file, h) == Some(data) {
      var contents := file[h.offset..h.offset + h.size + 5];
      assert Available(file, h.offset, h.size + 5) == contents;
      assert contents == contents[..h.size] + [contents[h.size]] + contents[h.size + 1..];
      assert contents[..h.size + 1] == data + [0];
    }
  }

  lemma HeldBlockStays(stamp: Bytes -> nat, file: Bytes, tail: Bytes, h: Handle, data: Bytes)
    requires HoldsBlock(stamp, file, h, data)
    ensures HoldsBlock(stamp, file + tail, h, data)
  {
    assert (file + tail)[h.offset..h.offset + h.size + 5] == file[h.offset..h.offset + h.size + 5];
  }

  lemma AppendedBlockHeld(stamp: Bytes -> nat, file: Bytes, data: Bytes)
    ensures HoldsBlock(stamp, file + data + Trailer(stamp, data), Handle(|file|, |data|), data)
  {
    var f := file + data + Trailer(stamp, data);
    assert f[|file|..|file| + |data| + 5] == data + Trailer(stamp, data);
  }
}

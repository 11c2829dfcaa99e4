/** Checksums (util/crc32c.cc): masking is undone by unmasking, and extending composes.  The table is a
    parameter; its entries do not matter here. */
module Crc {
  import opened Keys

  const MASK_DELTA: bv32 := 0xa282ead8

  function Mask(crc: bv32): bv32 {
    ((crc >> 15) | (crc << 17)) + MASK_DELTA
  }

  function Unmask(masked: bv32): bv32 {
    var rotated := masked - MASK_DELTA;
    (rotated >> 17) | (rotated << 15)
  }

  lemma RotateBack(x: bv32)
    ensures var y := (x >> 15) | (x << 17); (y >> 17) | (y << 15) == x
  {
  }

  lemma AddSub(x: bv32, d: bv32)
    ensures x + d - d == x
  {
  }

  lemma FlipTwice(x: bv32)
    ensures Flip(Flip(x)) == x
  {
  }

  lemma MaskRoundTrip(crc: bv32)
    ensures Unmask(Mask(crc)) == crc
  {
    var y := (crc >> 15) | (crc << 17);
    AddSub(y, MASK_DELTA);
    RotateBack(crc);
  }

  lemma RotateForth(x: bv32)
    ensures var y := (x >> 17) | (x << 15); (y >> 15) | (y << 17) == x
  {
  }

  lemma SubAdd(x: bv32, d: bv32)
    ensures x - d + d == x
  {
  }

  /** Comparing an unmasked stored checksum with the actual one is comparing stored with masked. */
  lemma UnmaskRoundTrip(masked: bv32)
    ensures Mask(Unmask(masked)) == masked
  {
    SubAdd(masked, MASK_DELTA);
    RotateForth(masked - MASK_DELTA);
  }

  /** The table entry a byte selects. */
  function Index(crc: bv32, b: bv8): bv8 {
    ((crc ^ (b as bv32)) & 0xff) as bv8
  }

  /** One step of the table-driven division. */
  function Step(table: bv8 -> bv32, crc: bv32, b: byte): bv32 {
    table(Index(crc, b as bv8)) ^ (crc >> 8)
  }

  function Fold(table: bv8 -> bv32, crc: bv32, data: Bytes): bv32 {
    if data == [] then crc else Step(table, Fold(table, crc, data[..|data| - 1]), data[|data| - 1])
  }

  function Flip(x: bv32): bv32 {
    x ^ 0xffff_ffff
  }

  function Extend(table: bv8 -> bv32, init: bv32, data: Bytes): bv32 {
    Flip(Fold(table, Flip(init), data))
  }

  method ExtendLoop(table: bv8 -> bv32, init: bv32, data: Bytes) returns (crc: bv32)
    ensures crc == Extend(table, init, data)
  {
    crc := Flip(init);
    for i := 0 to |data|
      invariant crc == Fold(table, Flip(init), data[..i])
    {
      assert data[..i + 1][..i] == data[..i];
      crc := Step(table, crc, data[i]);
    }
    assert data[..|data|] == data;
    crc := Flip(crc);
  }

  /** Leading zeros count, as the register starts inverted. */
  lemma LeadingZeroCounts(table: bv8 -> bv32)
    requires table(0xff) != 0xff00_0000
    ensures Extend(table, 0, [0]) != Extend(table, 0, [])
  {
    assert [0 as byte][..0] == [];
    assert Fold(table, 0xffff_ffff, [0]) == Step(table, 0xffff_ffff, 0);
    FirstStep(table);
    FlipApart(Step(table, 0xffff_ffff, 0), 0xffff_ffff);
  }

  lemma FirstStep(table: bv8 -> bv32)
    ensures Step(table, 0xffff_ffff, 0) == table(0xff) ^ 0x00ff_ffff
  {
    assert Index(0xffff_ffff, 0) == 0xff;
    assert 0 as byte as bv8 == 0;
  }

  lemma FlipApart(x: bv32, y: bv32)
    ensures x != y ==> Flip(x) != Flip(y)
    ensures x ^ 0x00ff_ffff == 0xffff_ffff ==> x == 0xff00_0000
  {
  }

  lemma {:induction false} FoldConcat(table: bv8 -> bv32, crc: bv32, a: Bytes, b: Bytes)
    ensures Fold(table, crc, a + b) == Fold(table, Fold(table, crc, a), b)
  {
    if b == [] {
      assert a + b == a;
    } else {
      var n := |b| - 1;
      FoldConcat(table, crc, a, b[..n]);
      assert (a + b)[..|a + b| - 1] == a + b[..n];
    }
  }

  /** The entries of the table differ in their top bytes, as those of a CRC do. */
  ghost predicate TopsDiffer(table: bv8 -> bv32) {
    forall i, j :: i != j ==> table(i) >> 24 != table(j) >> 24
  }

  /** A single changed byte always changes the checksum. */
  lemma OneByteShows(table: bv8 -> bv32, init: bv32, a: Bytes, x: byte, y: byte, b: Bytes)
    requires TopsDiffer(table) && x != y
    ensures Extend(table, init, a + [x] + b) != Extend(table, init, a + [y] + b)
  {
    hide TopsDiffer, Flip, Step;
    var c := Fold(table, Flip(init), a);
    LastFold(table, Flip(init), a, x);
    LastFold(table, Flip(init), a, y);
    ByteShows(table, c, x, y);
    FoldConcat(table, Flip(init), a + [x], b);
    FoldConcat(table, Flip(init), a + [y], b);
    FoldApart(table, Step(table, c, x), Step(table, c, y), b);
    FlipApart(Fold(table, Flip(init), a + [x] + b), Fold(table, Flip(init), a + [y] + b));
  }

  lemma LastFold(table: bv8 -> bv32, crc: bv32, a: Bytes, x: byte)
    ensures Fold(table, crc, a + [x]) == Step(table, Fold(table, crc, a), x)
  {
    hide Step;
    assert (a + [x])[..|a|] == a;
  }

  /** Registers that differ keep differing. */
  lemma {:induction false} FoldApart(table: bv8 -> bv32, c: bv32, d: bv32, b: Bytes)
    requires TopsDiffer(table) && c != d
    ensures Fold(table, c, b) != Fold(table, d, b)
  {
    hide TopsDiffer, Step;
    if b != [] {
      var n := |b| - 1;
      FoldApart(table, c, d, b[..n]);
      RegisterShows(table, Fold(table, c, b[..n]), Fold(table, d, b[..n]), b[n]);
    }
  }

  lemma ByteShows(table: bv8 -> bv32, c: bv32, x: byte, y: byte)
    requires TopsDiffer(table) && x != y
    ensures Step(table, c, x) != Step(table, c, y)
  {
    hide Index;
    BytesRoundTrip(x);
    BytesRoundTrip(y);
    IndexApart(c, x as bv8, y as bv8);
    XorApart(table(Index(c, x as bv8)), table(Index(c, y as bv8)), c >> 8);
  }

  /** The bits of a byte, counted up to it. */
  function Bits(x: nat): bv8
    requires x < 256
  {
    if x == 0 then 0 else Bits(x - 1) + 1
  }

  lemma {:induction false} BitsAre(x: nat)
    requires x < 256
    ensures Bits(x) as nat == x
  {
    if x > 0 {
      BitsAre(x - 1);
      OneMore(Bits(x - 1));
    }
  }

  lemma OneMore(v: bv8)
    requires (v as nat) < 255
    ensures (v + 1) as nat == v as nat + 1
  {
  }

  lemma BackToBits(x: byte, v: bv8)
    requires x == v as byte
    ensures x as bv8 == v
  {
  }

  lemma BytesRoundTrip(x: byte)
    ensures (x as bv8) as byte == x
  {
    BitsAre(x as nat);
    BackToBits(x, Bits(x as nat));
  }

  lemma IndexApart(c: bv32, x: bv8, y: bv8)
    ensures x != y ==> Index(c, x) != Index(c, y)
  {
  }

  lemma XorApart(u: bv32, v: bv32, w: bv32)
    ensures u >> 24 != v >> 24 ==> u ^ w != v ^ w
  {
  }

  lemma RegisterShows(table: bv8 -> bv32, c: bv32, d: bv32, b: byte)
    requires TopsDiffer(table) && c != d
    ensures Step(table, c, b) != Step(table, d, b)
  {
    hide Index;
    var i, j := Index(c, b as bv8), Index(d, b as bv8);
    if i == j {
      SameIndex(c, d, b as bv8, table(i));
    } else {
      TopsApart(table(i), table(j), c, d);
    }
  }

  lemma SameIndex(c: bv32, d: bv32, b: bv8, u: bv32)
    ensures Index(c, b) == Index(d, b) && u ^ (c >> 8) == u ^ (d >> 8) ==> c == d
  {
  }

  lemma TopsApart(u: bv32, v: bv32, c: bv32, d: bv32)
    ensures u >> 24 != v >> 24 ==> u ^ (c >> 8) != v ^ (d >> 8)
  {
  }

  /** The checksum of a header byte extended by the payload is the checksum of both. */
  lemma ExtendComposes(table: bv8 -> bv32, init: bv32, a: Bytes, b: Bytes)
    ensures Extend(table, Extend(table, init, a), b) == Extend(table, init, a + b)
  {
    hide Fold, Flip;
    FlipTwice(Fold(table, Flip(init), a));
    FoldConcat(table, Flip(init), a, b);
  }
}

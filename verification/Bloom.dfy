/** The bloom filter policy (util/bloom.cc): a filter matches every key it was built from, and others only where their
    probes coincide. */
module Bloom {
  import opened Keys
  import opened Coding

  /** The bit a number selects in a byte. */
  function BitMask(i: nat): bv8
    requires i < 8
  {
    (1 as bv8) << (i as bv4)
  }

  predicate BitSet(b: bv8, i: nat)
    requires i < 8
  {
    b & BitMask(i) != 0
  }

  lemma JoinedBits(b: bv8, m: bv8, n: bv8)
    ensures (b | m) & n != 0 <==> b & n != 0 || m & n != 0
  {
  }

  lemma NoBits(n: bv8)
    ensures 0 & n == 0
  {
  }

  /** Different numbers select different bits. */
  lemma MasksApart(i: nat, j: nat)
    requires i < 8 && j < 8
    ensures BitMask(i) & BitMask(j) != 0 <==> i == j
  {
    hide BitMask;
    MaskIs(i);
    MaskIs(j);
  }

  lemma MaskIs(i: nat)
    requires i < 8
    ensures BitMask(i) == if i == 0 then 1 else if i == 1 then 2 else if i == 2 then 4 else if i == 3 then 8
                          else if i == 4 then 16 else if i == 5 then 32 else if i == 6 then 64 else 128
  {
    if i == 0 { assert (1 as bv8) << (0 as bv4) == 1; }
    else if i == 1 { assert (1 as bv8) << (1 as bv4) == 2; }
    else if i == 2 { assert (1 as bv8) << (2 as bv4) == 4; }
    else if i == 3 { assert (1 as bv8) << (3 as bv4) == 8; }
    else if i == 4 { assert (1 as bv8) << (4 as bv4) == 16; }
    else if i == 5 { assert (1 as bv8) << (5 as bv4) == 32; }
    else if i == 6 { assert (1 as bv8) << (6 as bv4) == 64; }
    else { assert (1 as bv8) << (7 as bv4) == 128; }
  }

  // ------------------------------------------------------------------ probing

  /** The hash turned right by 17 bits: the two parts share no bit, so joining them is adding. */
  function Delta(hash: nat): nat {
    hash / 0x2_0000 + hash * 0x8000 % LIMIT32
  }

  /** The j-th probe, in 32-bit arithmetic. */
  function Probe(hash: nat, j: nat): nat {
    if j == 0 then hash % LIMIT32 else (Probe(hash, j - 1) + Delta(hash % LIMIT32)) % LIMIT32
  }

  /** The low 17 bits come to the top, the others move down behind them. */
  lemma DeltaRotates(hash: nat)
    requires hash < LIMIT32
    ensures Delta(hash) == hash % 0x2_0000 * 0x8000 + hash / 0x2_0000 < LIMIT32
  {
    var q, r := hash / 0x2_0000, hash % 0x2_0000;
    Halves(hash, q, r);
    Wraps(q, r * 0x8000);
  }

  lemma Halves(hash: nat, q: nat, r: nat)
    requires q == hash / 0x2_0000 && r == hash % 0x2_0000
    ensures hash * 0x8000 == q * LIMIT32 + r * 0x8000 && r * 0x8000 <= LIMIT32 - 0x8000
    ensures hash < LIMIT32 ==> q < 0x8000
  {
    assert hash == q * 0x2_0000 + r;
  }

  lemma Wraps(q: nat, x: nat)
    requires x < LIMIT32
    ensures (q * LIMIT32 + x) % LIMIT32 == x
  {
  }

  /** The probes of a hash are as far apart as its turned self, in 32-bit arithmetic. */
  lemma {:induction false} ProbesStep(hash: nat, j: nat)
    ensures Probe(hash, j) == (hash % LIMIT32 + j * Delta(hash % LIMIT32)) % LIMIT32
  {
    hide Delta;
    var d := Delta(hash % LIMIT32);
    if j > 0 {
      ProbesStep(hash, j - 1);
      AddMod(hash % LIMIT32 + (j - 1) * d, d);
      assert hash % LIMIT32 + (j - 1) * d + d == hash % LIMIT32 + j * d;
    } else {
      assert 0 * d == 0;
    }
  }

  /** The bit at a position is set. */
  predicate BitAt(bits: seq<bv8>, pos: nat)
    requires pos < |bits| * 8
  {
    BitSet(bits[pos / 8], pos % 8)
  }

  /** Where the j-th probe of a hash falls in a filter of so many bytes. */
  function ProbeAt(hash: nat, j: nat, bytes: nat): (r: nat)
    requires bytes > 0
    ensures r < bytes * 8
  {
    Probe(hash, j) % (bytes * 8)
  }

  /** One of the first `k` probes of the hash falls there. */
  ghost predicate Hits(hash: nat, k: nat, bytes: nat, pos: nat)
    requires bytes > 0
  {
    exists j: nat :: j < k && ProbeAt(hash, j, bytes) == pos
  }

  /** A probe of one of the keys falls there. */
  ghost predicate Probed(hashOf: Bytes -> nat, keys: seq<Bytes>, k: nat, bytes: nat, pos: nat)
    requires bytes > 0
  {
    exists h :: 0 <= h < |keys| && Hits(hashOf(keys[h]), k, bytes, pos)
  }

  function SetAt(bits: seq<bv8>, pos: nat): (r: seq<bv8>)
    requires pos < |bits| * 8
    ensures |r| == |bits|
  {
    bits[pos / 8 := bits[pos / 8] | BitMask(pos % 8)]
  }

  /** Setting a bit sets it and no other. */
  lemma SetAtSets(bits: seq<bv8>, pos: nat, other: nat)
    requires pos < |bits| * 8 && other < |bits| * 8
    ensures BitAt(SetAt(bits, pos), other) <==> other == pos || BitAt(bits, other)
  {
    hide BitMask;
    JoinedBits(bits[pos / 8], BitMask(pos % 8), BitMask(other % 8));
    MasksApart(pos % 8, other % 8);
  }

  // ------------------------------------------------------------------ filters as bytes

  function ToBytes(bits: seq<bv8>): (r: Bytes)
    ensures |r| == |bits|
  {
    if bits == [] then [] else ToBytes(bits[..|bits| - 1]) + [bits[|bits| - 1] as byte]
  }

  function ToBits(s: Bytes): (r: seq<bv8>)
    ensures |r| == |s|
  {
    if s == [] then [] else ToBits(s[..|s| - 1]) + [s[|s| - 1] as bv8]
  }

  lemma {:induction false} BitsRoundTrip(bits: seq<bv8>)
    ensures ToBits(ToBytes(bits)) == bits
  {
    if bits != [] {
      var n := |bits| - 1;
      BitsRoundTrip(bits[..n]);
      var s := ToBytes(bits);
      assert s[..|s| - 1] == ToBytes(bits[..n]);
    }
  }

  function ProbeAll(bits: seq<bv8>, hash: nat, j: nat, k: nat): bool
    requires bits != []
    decreases k - j
  {
    j >= k || (BitAt(bits, ProbeAt(hash, j, |bits|)) && ProbeAll(bits, hash, j + 1, k))
  }

  /** BloomFilterPolicy::KeyMayMatch. */
  function KeyMayMatch(hashOf: Bytes -> nat, key: Bytes, filter: Bytes): bool {
    if |filter| < 2 then false
    else
      var k := filter[|filter| - 1] as nat;
      k > 30 || ProbeAll(ToBits(filter[..|filter| - 1]), hashOf(key), 0, k)
  }

  lemma {:induction false} ProbesMatch(bits: seq<bv8>, hash: nat, i: nat, k: nat)
    requires bits != [] && i <= k
    ensures ProbeAll(bits, hash, i, k) <==> forall j :: i <= j < k ==> BitAt(bits, ProbeAt(hash, j, |bits|))
    decreases k - i
  {
    hide BitAt, ProbeAt;
    if i < k {
      ProbesMatch(bits, hash, i + 1, k);
    }
  }

  /** The size of a filter: at least 64 bits, in whole bytes. */
  function FilterBytes(keys: nat, bitsPerKey: nat): nat {
    ((if keys * bitsPerKey < 64 then 64 else keys * bitsPerKey) + 7) / 8
  }

  /** The filter of the keys: `k` behind bytes of which exactly the bits that some probe of some key falls on are set. */
  ghost predicate FilterOf(hashOf: Bytes -> nat, keys: seq<Bytes>, k: nat, bytes: nat, filter: Bytes) {
    && bytes > 0 && |filter| == bytes + 1 && filter[bytes] as nat == k
    && forall pos :: 0 <= pos < bytes * 8 ==> (BitAt(ToBits(filter[..bytes]), pos) <==> Probed(hashOf, keys, k, bytes, pos))
  }

  /** A filter matches a key exactly if each of its probes is one of a key it was made from. */
  lemma MatchesIff(hashOf: Bytes -> nat, keys: seq<Bytes>, k: nat, bytes: nat, filter: Bytes, key: Bytes)
    requires FilterOf(hashOf, keys, k, bytes, filter) && k <= 30
    ensures KeyMayMatch(hashOf, key, filter) <==>
            forall j :: 0 <= j < k ==> Probed(hashOf, keys, k, bytes, ProbeAt(hashOf(key), j, bytes))
  {
    hide Probe, BitAt, Probed, ProbeAll;
    ProbesMatch(ToBits(filter[..bytes]), hashOf(key), 0, k);
  }

  /** So it matches every key it was made from; made from none, it matches none. */
  lemma MatchesItsKeys(hashOf: Bytes -> nat, keys: seq<Bytes>, k: nat, bytes: nat, filter: Bytes, key: Bytes)
    requires FilterOf(hashOf, keys, k, bytes, filter) && 1 <= k <= 30
    ensures key in keys ==> KeyMayMatch(hashOf, key, filter)
    ensures keys == [] ==> !KeyMayMatch(hashOf, key, filter)
  {
    hide KeyMayMatch, FilterOf, ProbeAt;
    FilterIsThere(hashOf, keys, k, bytes, filter);
    MatchesIff(hashOf, keys, k, bytes, filter, key);
    if h :| 0 <= h < |keys| && keys[h] == key {
      forall j: nat | j < k
        ensures Probed(hashOf, keys, k, bytes, ProbeAt(hashOf(key), j, bytes))
      {
        assert Hits(hashOf(keys[h]), k, bytes, ProbeAt(hashOf(key), j, bytes));
      }
    }
    if keys == [] {
      assert !Probed(hashOf, keys, k, bytes, ProbeAt(hashOf(key), 0, bytes));
    }
  }

  lemma FilterIsThere(hashOf: Bytes -> nat, keys: seq<Bytes>, k: nat, bytes: nat, filter: Bytes)
    requires FilterOf(hashOf, keys, k, bytes, filter)
    ensures bytes > 0
  {
  }

  /** Appends the filter of the keys. */
  method CreateFilter(hashOf: Bytes -> nat, bitsPerKey: nat, k: nat, keys: seq<Bytes>, dst: Bytes) returns (r: Bytes)
    requires 1 <= k <= 30
    ensures |dst| <= |r| && r[..|dst|] == dst
    ensures FilterOf(hashOf, keys, k, FilterBytes(|keys|, bitsPerKey), r[|dst|..])
    ensures forall key :: KeyMayMatch(hashOf, key, r[|dst|..]) <==>
              forall j :: 0 <= j < k ==>
                Probed(hashOf, keys, k, FilterBytes(|keys|, bitsPerKey), ProbeAt(hashOf(key), j, FilterBytes(|keys|, bitsPerKey)))
  {
    hide Probe, Delta, BitAt, SetAt, Hits, ProbeAt, KeyMayMatch;
    var bits := |keys| * bitsPerKey;
    if bits < 64 {
      bits := 64;
    }
    var bytes := (bits + 7) / 8;
    var array_ := new bv8[bytes](_ => 0);
    NothingSet(array_[..]);
    for i := 0 to |keys|
      invariant forall pos :: 0 <= pos < bytes * 8 ==> (BitAt(array_[..], pos) <==> Probed(hashOf, keys[..i], k, bytes, pos))
    {
      SetProbes(array_, hashOf(keys[i]), k);
      forall pos: nat | pos < bytes * 8
        ensures Probed(hashOf, keys[..i + 1], k, bytes, pos) <==>
                Probed(hashOf, keys[..i], k, bytes, pos) || Hits(hashOf(keys[i]), k, bytes, pos)
      {
        OneMoreKey(hashOf, keys, i, k, bytes, pos);
      }
    }
    assert keys[..|keys|] == keys;
    r := dst + ToBytes(array_[..]) + [k as byte];
    ghost var filter := ToBytes(array_[..]) + [k as byte];
    assert r == dst + filter && r[|dst|..] == filter;
    assert filter[..bytes] == ToBytes(array_[..]);
    BitsRoundTrip(array_[..]);
    forall key
      ensures KeyMayMatch(hashOf, key, filter) <==> forall j :: 0 <= j < k ==> Probed(hashOf, keys, k, bytes, ProbeAt(hashOf(key), j, bytes))
    {
      MatchesIff(hashOf, keys, k, bytes, filter, key);
    }
  }

  lemma NothingSet(bits: seq<bv8>)
    requires forall i :: 0 <= i < |bits| ==> bits[i] == 0
    ensures forall pos :: 0 <= pos < |bits| * 8 ==> !BitAt(bits, pos)
  {
    hide BitMask;
    forall pos | 0 <= pos < |bits| * 8
      ensures !BitAt(bits, pos)
    {
      NoBits(BitMask(pos % 8));
    }
  }

  lemma OneMoreKey(hashOf: Bytes -> nat, keys: seq<Bytes>, i: nat, k: nat, bytes: nat, pos: nat)
    requires i < |keys| && bytes > 0
    ensures Probed(hashOf, keys[..i + 1], k, bytes, pos) <==>
            Probed(hashOf, keys[..i], k, bytes, pos) || Hits(hashOf(keys[i]), k, bytes, pos)
  {
    hide Hits;
    var more, before := keys[..i + 1], keys[..i];
    assert more[i] == keys[i] && forall h :: 0 <= h < i ==> more[h] == before[h];
    if h :| 0 <= h < |before| && Hits(hashOf(before[h]), k, bytes, pos) {
      assert more[h] == before[h];
    }
  }

  /** The inner loop: sets the bits of one key's probes, and no others. */
  method SetProbes(array_: array<bv8>, hash0: nat, k: nat)
    requires array_.Length > 0
    modifies array_
    ensures forall pos :: 0 <= pos < array_.Length * 8 ==>
              (BitAt(array_[..], pos) <==> old(BitAt(array_[..], pos)) || Hits(hash0, k, array_.Length, pos))
  {
    hide BitAt, Delta;
    var hash := hash0 % LIMIT32;
    var delta := Delta(hash);
    for j := 0 to k
      invariant hash == Probe(hash0, j) && delta == Delta(hash0 % LIMIT32)
      invariant forall pos :: 0 <= pos < array_.Length * 8 ==>
                  (BitAt(array_[..], pos) <==> old(BitAt(array_[..], pos)) || Hits(hash0, j, array_.Length, pos))
    {
      ghost var was := array_[..];
      var bitpos := hash % (array_.Length * 8);
      array_[bitpos / 8] := array_[bitpos / 8] | BitMask(bitpos % 8);
      assert array_[..] == SetAt(was, bitpos);
      forall pos: nat | pos < array_.Length * 8
        ensures BitAt(array_[..], pos) <==> pos == bitpos || BitAt(was, pos)
        ensures Hits(hash0, j + 1, array_.Length, pos) <==> pos == bitpos || Hits(hash0, j, array_.Length, pos)
      {
        SetAtSets(was, bitpos, pos);
        OneMoreProbe(hash0, j, array_.Length, pos);
      }
      hash := (hash + delta) % LIMIT32;
    }
  }

  lemma OneMoreProbe(hash: nat, j: nat, bytes: nat, pos: nat)
    requires bytes > 0
    ensures Hits(hash, j + 1, bytes, pos) <==> ProbeAt(hash, j, bytes) == pos || Hits(hash, j, bytes, pos)
  {
    hide ProbeAt;
  }
}

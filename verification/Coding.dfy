/** Integer and slice encodings (util/coding.cc).  A byte buffer is a sequence; a decoder reads from the
    front of its input and leaves the rest. */
module Coding {
  import opened Keys

  const LIMIT32: nat := 0x1_0000_0000
  const LIMIT64: nat := 0x1_0000_0000_0000_0000

  // ------------------------------------------------------------------ fixed width

  function Zeros(n: nat): (r: Bytes)
    ensures |r| == n
  {
    if n == 0 then [] else [0] + Zeros(n - 1)
  }

  /** The `n` low bytes of `v`, lowest first. */
  function Fixed(v: nat, n: nat): (r: Bytes)
    ensures |r| == n
  {
    if n == 0 then [] else [(v % 256) as byte] + Fixed(v / 256, n - 1)
  }

  function Unfixed(s: Bytes): nat {
    if s == [] then 0 else s[0] as nat + 256 * Unfixed(s[1..])
  }

  function Power(base: nat, n: nat): (r: nat)
    ensures base > 0 ==> r > 0
  {
    if n == 0 then 1 else base * Power(base, n - 1)
  }

  lemma {:induction false} FixedRoundTrip(v: nat, n: nat)
    requires v < Power(256, n)
    ensures Unfixed(Fixed(v, n)) == v
  {
    if n > 0 {
      FixedRoundTrip(v / 256, n - 1);
      assert Fixed(v, n)[1..] == Fixed(v / 256, n - 1);
    }
  }

  lemma {:induction false} UnfixedRoundTrip(s: Bytes)
    ensures Fixed(Unfixed(s), |s|) == s
  {
    if s != [] {
      var v, w := Unfixed(s), Unfixed(s[1..]);
      UnfixedRoundTrip(s[1..]);
      assert v % 256 == s[0] as nat && v / 256 == w;
      assert s == [s[0]] + s[1..];
    }
  }

  lemma Fixed32RoundTrip(v: nat)
    requires v < LIMIT32
    ensures Unfixed(Fixed(v, 4)) == v
  {
    assert Power(256, 4) == 256 * (256 * (256 * (256 * Power(256, 0))));
    FixedRoundTrip(v, 4);
  }

  lemma Fixed64RoundTrip(v: nat)
    requires v < LIMIT64
    ensures Unfixed(Fixed(v, 8)) == v
  {
    assert Power(256, 4) == 256 * (256 * (256 * (256 * Power(256, 0))));
    assert Power(256, 8) == 256 * (256 * (256 * (256 * Power(256, 4))));
    FixedRoundTrip(v, 8);
  }

  // ------------------------------------------------------------------ varints

  /** Seven bits a byte, lowest first; the top bit says that more follow. */
  function Varint(v: nat): (r: Bytes)
    ensures 1 <= |r|
  {
    if v < 128 then [v as byte] else [(128 + v % 128) as byte] + Varint(v / 128)
  }

  datatype Decoded = Decoded(value: nat, rest: Bytes)

  /** The digits of at most `n` bytes, as an unbounded number. */
  function Digits(s: Bytes, n: nat): Option<Decoded> {
    if n == 0 || s == [] then None
    else if s[0] < 128 then Some(Decoded(s[0] as nat, s[1..]))
    else
      match Digits(s[1..], n - 1)
      case None => None
      case Some(d) => Some(Decoded(s[0] as nat % 128 + 128 * d.value, d.rest))
  }

  /** A 32-bit varint takes at most five bytes; bits above the width are lost. */
  function ReadVarint32(s: Bytes): Option<Decoded> {
    match Digits(s, 5)
    case None => None
    case Some(d) => Some(Decoded(d.value % LIMIT32, d.rest))
  }

  function ReadVarint64(s: Bytes): Option<Decoded> {
    match Digits(s, 10)
    case None => None
    case Some(d) => Some(Decoded(d.value % LIMIT64, d.rest))
  }

  /** Decoding undoes encoding whatever follows. */
  lemma {:induction false} DigitsRoundTrip(v: nat, n: nat, rest: Bytes)
    requires n > 0 && v < Power(128, n)
    ensures Digits(Varint(v) + rest, n) == Some(Decoded(v, rest))
    ensures |Varint(v)| <= n
    decreases n
  {
    if v >= 128 {
      assert v / 128 < Power(128, n - 1);
      DigitsRoundTrip(v / 128, n - 1, rest);
      assert (Varint(v) + rest)[1..] == Varint(v / 128) + rest;
    } else {
      assert (Varint(v) + rest)[1..] == rest;
    }
  }

  /** Five groups of seven bits hold 32 bits, and ten hold 64. */
  lemma Powers()
    ensures LIMIT32 <= Power(128, 5) && LIMIT64 <= Power(128, 10)
  {
    assert Power(128, 1) == 128 && Power(128, 2) == 0x4000;
    assert Power(128, 3) == 0x20_0000 && Power(128, 4) == 0x1000_0000;
    assert Power(128, 5) == 0x8_0000_0000 && Power(128, 6) == 0x400_0000_0000;
    assert Power(128, 7) == 0x2_0000_0000_0000 && Power(128, 8) == 0x100_0000_0000_0000;
    assert Power(128, 9) == 0x8000_0000_0000_0000;
  }

  /** Digits end with the first byte below 128; without one among the first `n` bytes there are none. */
  lemma {:induction false} DigitsEnd(s: Bytes, n: nat, i: nat)
    requires i < n && i < |s| && s[i] < 128 && forall j :: 0 <= j < i ==> s[j] >= 128
    ensures Digits(s, n).Some? && Digits(s, n).value.rest == s[i + 1..]
  {
    if i > 0 {
      DigitsEnd(s[1..], n - 1, i - 1);
      assert s[1..][i..] == s[i + 1..];
    }
  }

  lemma {:induction false} NoDigits(s: Bytes, n: nat)
    requires forall j :: 0 <= j < n && j < |s| ==> s[j] >= 128
    ensures Digits(s, n).None?
  {
    if n > 0 && s != [] {
      NoDigits(s[1..], n - 1);
    }
  }

  /** Truncated and overlong numbers are refused: exactly those without a last byte among the first five, or ten. */
  lemma VarintReads(s: Bytes)
    ensures ReadVarint32(s).Some? <==> exists i :: 0 <= i < 5 && i < |s| && s[i] < 128
    ensures ReadVarint64(s).Some? <==> exists i :: 0 <= i < 10 && i < |s| && s[i] < 128
  {
    hide Digits;
    var i := FirstLow(s);
    forall n: nat
      ensures Digits(s, n).Some? <==> i < n && i < |s|
    {
      if i < n && i < |s| {
        DigitsEnd(s, n, i);
      } else {
        NoDigits(s, n);
      }
    }
  }

  lemma {:induction false} FirstLow(s: Bytes) returns (i: nat)
    ensures i <= |s| && (forall j :: 0 <= j < i ==> s[j] >= 128) && (i < |s| ==> s[i] < 128)
  {
    i := 0;
    while i < |s| && s[i] >= 128
      invariant i <= |s| && forall j :: 0 <= j < i ==> s[j] >= 128
    {
      i := i + 1;
    }
  }

  lemma Varint32RoundTrip(v: nat, rest: Bytes)
    requires v < LIMIT32
    ensures ReadVarint32(Varint(v) + rest) == Some(Decoded(v, rest)) && |Varint(v)| <= 5
  {
    Powers();
    hide Power, Digits, Varint;
    DigitsRoundTrip(v, 5, rest);
  }

  lemma Varint64RoundTrip(v: nat, rest: Bytes)
    requires v < LIMIT64
    ensures ReadVarint64(Varint(v) + rest) == Some(Decoded(v, rest)) && |Varint(v)| <= 10
  {
    Powers();
    hide Power, Digits, Varint;
    DigitsRoundTrip(v, 10, rest);
  }

  /** EncodeVarint32 and EncodeVarint64. */
  method PutVarint(dst: Bytes, value: nat) returns (r: Bytes)
    ensures r == dst + Varint(value)
  {
    r := dst;
    var v := value;
    while v >= 128
      invariant r + Varint(v) == dst + Varint(value)
    {
      r := r + [(v % 128 + 128) as byte];
      assert r + Varint(v / 128) == r[..|r| - 1] + Varint(v);
      v := v / 128;
    }
    r := r + [v as byte];
  }

  /** GetVarint32Ptr: the accumulator is a 32-bit word, and each group lands on bits still clear in it, so
      the bitwise or is an addition that may lose high bits. */
  method GetVarint32Ptr(s: Bytes) returns (r: Option<Decoded>)
    ensures r == ReadVarint32(s)
  {
    hide Digits, Remaining;
    var result: nat, scale: nat, p: nat := 0, 1, 0;
    Starts(s);
    ghost var sum: nat := 0;
    while p < 5 && p < |s|
      invariant p <= 5 && p <= |s| && result == sum % LIMIT32
      invariant Remaining(s, p, scale, sum)
    {
      var b := s[p] as nat;
      Continues(s, p, scale, sum);
      AddMod(sum, scale * (b % 128));
      sum := sum + scale * (b % 128);
      result := (result + scale * (b % 128)) % LIMIT32;
      if b < 128 {
        return Some(Decoded(result, s[p + 1..]));
      }
      scale := scale * 128;
      p := p + 1;
    }
    Ends(s, p, scale, sum);
    r := None;
  }

  lemma Starts(s: Bytes)
    ensures Remaining(s, 0, 1, 0)
  {
    assert s[0..] == s;
  }

  lemma Ends(s: Bytes, p: nat, scale: nat, sum: nat)
    requires p <= 5 && p <= |s| && (p == 5 || p == |s|) && Remaining(s, p, scale, sum)
    ensures Digits(s, 5) == None
  {
  }

  lemma AddMod(sum: nat, x: nat)
    ensures (sum % LIMIT32 + x) % LIMIT32 == (sum + x) % LIMIT32
  {
  }

  /** With `sum` accumulated from the first `p` bytes, what the others contribute. */
  ghost predicate Remaining(s: Bytes, p: nat, scale: nat, sum: nat)
    requires p <= 5 && p <= |s|
  {
    match Digits(s[p..], 5 - p)
    case None => Digits(s, 5) == None
    case Some(d) => Digits(s, 5) == Some(Decoded(sum + scale * d.value, d.rest))
  }

  lemma Continues(s: Bytes, p: nat, scale: nat, sum: nat)
    requires p < 5 && p < |s| && Remaining(s, p, scale, sum)
    ensures s[p] < 128 ==> Digits(s, 5) == Some(Decoded(sum + scale * (s[p] as nat % 128), s[p + 1..]))
    ensures s[p] >= 128 ==> Remaining(s, p + 1, scale * 128, sum + scale * (s[p] as nat % 128))
  {
    hide Digits;
    DigitsStep(s, p);
    var low := s[p] as nat % 128;
    if s[p] >= 128 {
      match Digits(s[p + 1..], 4 - p)
      case None =>
      case Some(d) =>
        Distribute(scale, low, d.value);
        assert Digits(s, 5) == Some(Decoded(sum + scale * (low + 128 * d.value), d.rest));
        assert (scale * 128) * d.value == scale * 128 * d.value;
    }
  }

  lemma DigitsStep(s: Bytes, p: nat)
    requires p < 5 && p < |s|
    ensures Digits(s[p..], 5 - p) == if s[p] < 128 then Some(Decoded(s[p] as nat, s[p + 1..]))
                                     else match Digits(s[p + 1..], 4 - p)
                                          case None => None
                                          case Some(d) => Some(Decoded(s[p] as nat % 128 + 128 * d.value, d.rest))
  {
    assert s[p..][1..] == s[p + 1..];
  }

  lemma Distribute(scale: nat, low: nat, high: nat)
    ensures scale * (low + 128 * high) == scale * low + scale * 128 * high
  {
    assert scale * (128 * high) == scale * 128 * high;
  }

  // ------------------------------------------------------------------ length-prefixed slices

  function Prefixed(s: Bytes): Bytes {
    Varint(|s|) + s
  }

  datatype Slice = Slice(value: Bytes, rest: Bytes)

  function ReadPrefixed(s: Bytes): Option<Slice> {
    match ReadVarint32(s)
    case None => None
    case Some(d) => if |d.rest| < d.value then None else Some(Slice(d.rest[..d.value], d.rest[d.value..]))
  }

  lemma PrefixedRoundTrip(s: Bytes, rest: Bytes)
    requires |s| < LIMIT32
    ensures ReadPrefixed(Prefixed(s) + rest) == Some(Slice(s, rest))
  {
    assert Prefixed(s) + rest == Varint(|s|) + (s + rest);
    Varint32RoundTrip(|s|, s + rest);
    assert (s + rest)[..|s|] == s && (s + rest)[|s|..] == rest;
  }

  /** No slice is read from less than all of its bytes. */
  lemma PrefixedTruncated(s: Bytes, n: nat)
    requires |s| < LIMIT32 && n < |Prefixed(s)|
    ensures ReadPrefixed(Prefixed(s)[..n]) == None
  {
    hide Varint, Digits;
    var v := Varint(|s|);
    if n < |v| {
      assert Prefixed(s)[..n] == v[..n];
      VarintTruncated(|s|, n);
    } else {
      assert Prefixed(s)[..n] == v + s[..n - |v|];
      Varint32RoundTrip(|s|, s[..n - |v|]);
    }
  }

  lemma VarintTruncated(v: nat, n: nat)
    requires n < |Varint(v)|
    ensures ReadVarint32(Varint(v)[..n]) == None && ReadVarint64(Varint(v)[..n]) == None
  {
    hide Digits;
    HighBytes(v, n);
    VarintReads(Varint(v)[..n]);
  }

  lemma {:induction false} HighBytes(v: nat, n: nat)
    requires n < |Varint(v)|
    ensures forall i :: 0 <= i < n ==> Varint(v)[i] >= 128
  {
    if n > 0 {
      HighBytes(v / 128, n - 1);
    }
  }

  // ------------------------------------------------------------------ decoding consumes input

  lemma {:induction false} DigitsShrink(s: Bytes, n: nat)
    ensures Digits(s, n).Some? ==> |Digits(s, n).value.rest| < |s|
    decreases n
  {
    if n > 0 && s != [] && s[0] >= 128 {
      DigitsShrink(s[1..], n - 1);
    }
  }

  lemma ReadPrefixedShrinks(s: Bytes)
    ensures ReadPrefixed(s).Some? ==> |ReadPrefixed(s).value.rest| < |s|
  {
    DigitsShrink(s, 5);
  }

  lemma VarintShrinks(s: Bytes)
    ensures ReadVarint32(s).Some? ==> |ReadVarint32(s).value.rest| < |s|
    ensures ReadVarint64(s).Some? ==> |ReadVarint64(s).value.rest| < |s|
  {
    DigitsShrink(s, 5);
    DigitsShrink(s, 10);
  }
}

/** User keys, internal keys and stored entries (db/dbformat.h, util/comparator.cc).

    The engine never looks inside a user key: it only compares keys.  The bytewise order on
    strings embeds in the real line (RankPreservesOrder), so the modules that reason about
    whole-store behaviour take a user key to be its rank, a real number. */
module Keys {
  newtype byte = x: int | 0 <= x < 256
  type Bytes = seq<byte>

  datatype Option<+T> = None | Some(value: T)

  // ------------------------------------------------------------------ bytewise order

  /** Bytewise comparison: memcmp on the common prefix, then the shorter string first. */
  predicate BytesLess(a: Bytes, b: Bytes) {
    if b == [] then false
    else if a == [] then true
    else a[0] < b[0] || (a[0] == b[0] && BytesLess(a[1..], b[1..]))
  }

  /** Position of a string on the line: its digits, shifted up by one, in base 257. */
  function Rank(s: Bytes): (r: real)
    ensures 0.0 <= r < 1.0
  {
    if s == [] then 0.0 else (s[0] as int as real + 1.0 + Rank(s[1..])) / 257.0
  }

  /** The rank respects the bytewise order in both directions, so it is injective as well. */
  lemma {:induction false} RankPreservesOrder(a: Bytes, b: Bytes)
    ensures BytesLess(a, b) <==> Rank(a) < Rank(b)
    ensures a == b <==> Rank(a) == Rank(b)
  {
    if a == [] || b == [] {
      assert a != [] ==> Rank(a) > 0.0;
      assert b != [] ==> Rank(b) > 0.0;
    } else {
      RankPreservesOrder(a[1..], b[1..]);
      assert a == b <==> a[0] == b[0] && a[1..] == b[1..] by {
        assert a == [a[0]] + a[1..] && b == [b[0]] + b[1..];
      }
      if a[0] < b[0] {
        assert a[0] as int as real + 1.0 <= b[0] as int as real;
      } else if b[0] < a[0] {
        assert b[0] as int as real + 1.0 <= a[0] as int as real;
      }
    }
  }

  // ------------------------------------------------------------------ internal keys

  type UserKey = real

  const MAX_SEQUENCE: nat := 0xFF_FFFF_FFFF_FFFF

  datatype Kind = Deletion | Value

  /** A user key with the sequence number and the type of the write that produced it. */
  datatype InternalKey = InternalKey(user: UserKey, seqno: nat, kind: Kind)

  /** One stored version; a deletion stores no bytes. */
  datatype Entry = Entry(k: InternalKey, v: Bytes)

  /** The packed trailer: sequence number shifted left by eight, type in the low byte. */
  function Tag(k: InternalKey): nat {
    k.seqno * 256 + if k.kind.Value? then 1 else 0
  }

  /** Internal key order: user keys ascending, then trailers descending (newest first). */
  predicate Less(a: InternalKey, b: InternalKey) {
    a.user < b.user || (a.user == b.user && Tag(a) > Tag(b))
  }

  /** The key a read at sequence `s` seeks to: kValueTypeForSeek is the largest type. */
  function SeekKey(user: UserKey, s: nat): InternalKey {
    InternalKey(user, s, Value)
  }

  ghost predicate Sorted(s: seq<Entry>) {
    forall i, j :: 0 <= i < j < |s| ==> Less(s[i].k, s[j].k)
  }

  /** Sorted, but equal internal keys may repeat (a replayed log repeats flushed versions). */
  ghost predicate WeaklySorted(s: seq<Entry>) {
    forall i, j :: 0 <= i < j < |s| ==> !Less(s[j].k, s[i].k)
  }

  lemma SortedIsWeak(s: seq<Entry>)
    requires Sorted(s)
    ensures WeaklySorted(s)
  {
    forall i, j | 0 <= i < j < |s|
      ensures !Less(s[j].k, s[i].k)
    {
      assert Less(s[i].k, s[j].k);
    }
  }

  ghost function SetOf(s: seq<Entry>): set<Entry> {
    set e | e in s
  }
}

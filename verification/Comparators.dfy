/** Key orders and shortened separators (util/comparator.cc, db/dbformat.cc), on byte strings. */
module Comparators {
  import opened Keys
  import opened Coding

  /** A comparator: where a string stands in the order, a short string between two others, and a short
      string not before another. */
  datatype Comparator = Comparator(order: Bytes -> InternalKey, separator: (Bytes, Bytes) -> Bytes, successor: Bytes -> Bytes)
  {
    predicate Before(a: Bytes, b: Bytes) { Less(order(a), order(b)) }
  }

  /** What index blocks rely on, for the strings that are keys. */
  ghost predicate Lawful(c: Comparator, isKey: Bytes -> bool) {
    && (forall a, b :: isKey(a) && isKey(b) && c.Before(a, b) ==> SeparatesAt(c, isKey, a, b))
    && (forall a :: isKey(a) ==> SucceedsAt(c, isKey, a))
  }

  ghost predicate SeparatesAt(c: Comparator, isKey: Bytes -> bool, a: Bytes, b: Bytes) {
    var r := c.separator(a, b);
    && isKey(r) && !c.Before(r, a) && c.Before(r, b) && |r| <= |a|
    && (r == a || c.order(r).user < c.order(b).user)
  }

  ghost predicate SucceedsAt(c: Comparator, isKey: Bytes -> bool, a: Bytes) {
    var r := c.successor(a);
    isKey(r) && !c.Before(r, a) && |r| <= |a|
  }

  // ------------------------------------------------------------------ bytewise

  function CommonPrefix(a: Bytes, b: Bytes): (n: nat)
    ensures n <= |a| && n <= |b| && a[..n] == b[..n]
    ensures n < |a| && n < |b| ==> a[n] != b[n]
  {
    if a == [] || b == [] || a[0] != b[0] then 0 else 1 + CommonPrefix(a[1..], b[1..])
  }

  /** The common prefix and one raised byte, if that stays below `limit`; `start` itself otherwise. */
  function ShortestSeparator(start: Bytes, limit: Bytes): Bytes {
    var n := CommonPrefix(start, limit);
    if n < |start| && n < |limit| && start[n] as nat + 1 < limit[n] as nat then start[..n] + [start[n] + 1] else start
  }

  /** Everything up to the first byte that can be raised, raised; the key itself if there is none. */
  function ShortSuccessor(key: Bytes): Bytes {
    if key == [] then []
    else if key[0] != 255 then [key[0] + 1]
    else [key[0]] + ShortSuccessor(key[1..])
  }

  method FindShortestSeparator(start: Bytes, limit: Bytes) returns (r: Bytes)
    ensures r == ShortestSeparator(start, limit)
  {
    var minLength := if |start| < |limit| then |start| else |limit|;
    var diffIndex := 0;
    while diffIndex < minLength && start[diffIndex] == limit[diffIndex]
      invariant diffIndex <= minLength
      invariant CommonPrefix(start, limit) == diffIndex + CommonPrefix(start[diffIndex..], limit[diffIndex..])
    {
      assert start[diffIndex..][1..] == start[diffIndex + 1..] && limit[diffIndex..][1..] == limit[diffIndex + 1..];
      diffIndex := diffIndex + 1;
    }
    if diffIndex >= minLength {
      return start;
    }
    var startByte, limitByte := start[diffIndex], limit[diffIndex];
    if startByte < 255 && startByte as nat + 1 < limitByte as nat {
      r := start[..diffIndex] + [startByte + 1];
    } else {
      r := start;
    }
  }

  method FindShortSuccessor(key: Bytes) returns (r: Bytes)
    ensures r == ShortSuccessor(key)
  {
    hide ShortSuccessor;
    assert key[0..] == key;
    for i := 0 to |key|
      invariant ShortSuccessor(key) == key[..i] + ShortSuccessor(key[i..])
    {
      SuccessorStep(key[i..]);
      assert key[i..][1..] == key[i + 1..];
      assert key[..i + 1] == key[..i] + [key[i]];
      if key[i] != 255 {
        return key[..i] + [key[i] + 1];
      }
    }
    SuccessorStep(key[|key|..]);
    r := key;
  }

  lemma SuccessorStep(key: Bytes)
    ensures ShortSuccessor(key) == if key == [] then [] else if key[0] != 255 then [key[0] + 1] else [key[0]] + ShortSuccessor(key[1..])
  {
  }

  lemma {:induction false} LessFromPrefix(p: Bytes, a: Bytes, b: Bytes)
    ensures BytesLess(p + a, p + b) <==> BytesLess(a, b)
  {
    if p == [] {
      assert p + a == a && p + b == b;
    } else {
      LessFromPrefix(p[1..], a, b);
      assert (p + a)[1..] == p[1..] + a && (p + b)[1..] == p[1..] + b;
      assert (p + a)[0] == p[0] == (p + b)[0];
    }
  }

  /** A shortened separator lies strictly between its arguments. */
  lemma SeparatorBetween(start: Bytes, limit: Bytes)
    ensures var r := ShortestSeparator(start, limit);
            r == start || (BytesLess(start, r) && BytesLess(r, limit) && |r| <= |start|)
  {
    var n := CommonPrefix(start, limit);
    var r := ShortestSeparator(start, limit);
    if r != start {
      var p := start[..n];
      assert start == p + start[n..] && limit == p + limit[n..] && r == p + [start[n] + 1];
      LessFromPrefix(p, start[n..], [start[n] + 1]);
      LessFromPrefix(p, [start[n] + 1], limit[n..]);
    }
  }

  /** If the first byte that differs can be raised below the limit's, the separator is the least of the shortest strings
      strictly between the two. */
  lemma SeparatorIsLeast(start: Bytes, limit: Bytes, n: nat, t: Bytes)
    requires n < |start| && n < |limit| && start[..n] == limit[..n] && start[n] as nat + 1 < limit[n] as nat
    ensures var r := ShortestSeparator(start, limit);
            && r == start[..n] + [start[n] + 1] && BytesLess(start, r) && BytesLess(r, limit)
            && (BytesLess(start, t) && BytesLess(t, limit) ==> |r| < |t| || (|r| == |t| && !BytesLess(t, r)))
  {
    PrefixUpTo(start, limit, n);
    SeparatorBetween(start, limit);
    var r := ShortestSeparator(start, limit);
    RaisedFirst(start, r, n);
    if BytesLess(start, t) && BytesLess(t, limit) {
      BetweenHasPrefix(start, limit, t, n);
      var p := start[..n];
      assert start == p + start[n..] && t == p + t[n..] && r == p + [start[n] + 1];
      LessFromPrefix(p, start[n..], t[n..]);
      LessFromPrefix(p, t[n..], [start[n] + 1]);
    }
  }

  lemma RaisedFirst(start: Bytes, r: Bytes, n: nat)
    requires n < |start| && start[n] < 255 && r == start[..n] + [start[n] + 1]
    ensures r != start
  {
    assert r[n] == start[n] + 1;
  }

  lemma {:induction false} PrefixUpTo(a: Bytes, b: Bytes, n: nat)
    requires n < |a| && n < |b| && a[..n] == b[..n] && a[n] != b[n]
    ensures CommonPrefix(a, b) == n
  {
    if n > 0 {
      assert a[0] == a[..n][0] == b[..n][0] == b[0];
      assert a[1..][..n - 1] == a[..n][1..] && b[1..][..n - 1] == b[..n][1..];
      PrefixUpTo(a[1..], b[1..], n - 1);
    }
  }

  /** What lies between two strings has their common prefix. */
  lemma {:induction false} BetweenHasPrefix(a: Bytes, b: Bytes, t: Bytes, n: nat)
    requires n <= |a| && n <= |b| && a[..n] == b[..n] && BytesLess(a, t) && BytesLess(t, b)
    ensures n <= |t| && t[..n] == a[..n]
  {
    if n > 0 {
      assert a[0] == a[..n][0] == b[..n][0] == b[0];
      assert a[1..][..n - 1] == a[..n][1..] && b[1..][..n - 1] == b[..n][1..];
      BetweenHasPrefix(a[1..], b[1..], t[1..], n - 1);
      assert a[..n] == [a[0]] + a[1..][..n - 1] && t[..n] == [t[0]] + t[1..][..n - 1];
    }
  }

  /** In every other case the start is kept: nothing differs, or the byte cannot be raised. */
  lemma SeparatorElse(start: Bytes, limit: Bytes)
    requires forall n :: 0 <= n < |start| && n < |limit| && start[..n] == limit[..n] ==> start[n] as nat + 1 >= limit[n] as nat
    ensures ShortestSeparator(start, limit) == start
  {
  }

  /** A key with a byte that can be raised is succeeded by the least of the shortest strings strictly behind it; one
      without by itself. */
  lemma {:induction false} SuccessorIsLeast(key: Bytes, t: Bytes)
    ensures var r := ShortSuccessor(key);
            if exists i :: 0 <= i < |key| && key[i] != 255
            then BytesLess(key, r) && (BytesLess(key, t) ==> |r| < |t| || (|r| == |t| && !BytesLess(t, r)))
            else r == key
  {
    if key == [] {
    } else if key[0] != 255 {
      RaisedIsLeast(key, t);
    } else {
      var rest := if t == [] then [] else t[1..];
      SuccessorIsLeast(key[1..], rest);
      var r := ShortSuccessor(key[1..]);
      assert ([key[0]] + r)[1..] == r && key == [key[0]] + key[1..];
      if i :| 0 <= i < |key| && key[i] != 255 {
        assert key[1..][i - 1] == key[i];
      } else {
        assert forall i :: 0 <= i < |key[1..]| ==> key[1..][i] == key[i + 1];
      }
    }
  }

  lemma RaisedIsLeast(key: Bytes, t: Bytes)
    requires key != [] && key[0] != 255
    ensures BytesLess(key, [key[0] + 1]) && (BytesLess(key, t) ==> 1 < |t| || (|t| == 1 && !BytesLess(t, [key[0] + 1])))
  {
    var r := [key[0] + 1];
    assert r[0] == key[0] + 1 && r[1..] == [];
    if t != [] && |t| == 1 && BytesLess(key, t) {
      assert t[1..] == [] && !BytesLess(key[1..], t[1..]) && !BytesLess(t[1..], r[1..]);
      assert key[0] < t[0];
    }
  }

  lemma {:induction false} SuccessorNotBefore(key: Bytes)
    ensures var r := ShortSuccessor(key); (r == key || BytesLess(key, r)) && |r| <= |key|
  {
    if key != [] && key[0] == 255 {
      SuccessorNotBefore(key[1..]);
      assert key == [key[0]] + key[1..];
      LessFromPrefix([key[0]], key[1..], ShortSuccessor(key[1..]));
    }
  }

  function BytewiseOrder(s: Bytes): InternalKey {
    InternalKey(Rank(s), 0, Deletion)
  }

  const BYTEWISE: Comparator := Comparator(BytewiseOrder, ShortestSeparator, ShortSuccessor)

  predicate AnyBytes(s: Bytes) {
    true
  }

  lemma BytewiseIsLawful()
    ensures Lawful(BYTEWISE, AnyBytes)
  {
    forall a, b
      ensures BYTEWISE.Before(a, b) <==> BytesLess(a, b)
    {
      RankPreservesOrder(a, b);
    }
    forall a, b | BYTEWISE.Before(a, b)
      ensures SeparatesAt(BYTEWISE, AnyBytes, a, b)
    {
      SeparatorBetween(a, b);
      RankPreservesOrder(a, ShortestSeparator(a, b));
    }
    forall a | AnyBytes(a)
      ensures SucceedsAt(BYTEWISE, AnyBytes, a)
    {
      SuccessorNotBefore(a);
      RankPreservesOrder(a, ShortSuccessor(a));
    }
  }

  // ------------------------------------------------------------------ internal keys

  function ExtractUserKey(s: Bytes): Bytes {
    if |s| < 8 then [] else s[..|s| - 8]
  }

  function ExtractTag(s: Bytes): nat {
    if |s| < 8 then 0 else Unfixed(s[|s| - 8..])
  }

  /** ParseInternalKey succeeds: an eight-byte trailer with a known type. */
  predicate IsInternalKey(s: Bytes) {
    |s| >= 8 && ExtractTag(s) % 256 <= 1
  }

  function AppendInternalKey(user: Bytes, seqno: nat, kind: Kind): Bytes {
    user + Fixed(seqno * 256 + if kind.Value? then 1 else 0, 8)
  }

  /** The abstract key an encoded one stands for. */
  function InternalOrder(s: Bytes): InternalKey {
    InternalKey(Rank(ExtractUserKey(s)), ExtractTag(s) / 256, if ExtractTag(s) % 256 == 1 then Value else Deletion)
  }

  /** InternalKeyComparator::Compare is negative. */
  predicate InternalLess(a: Bytes, b: Bytes) {
    BytesLess(ExtractUserKey(a), ExtractUserKey(b)) || (ExtractUserKey(a) == ExtractUserKey(b) && ExtractTag(a) > ExtractTag(b))
  }

  lemma InternalLessIsLess(a: Bytes, b: Bytes)
    requires IsInternalKey(a) && IsInternalKey(b)
    ensures InternalLess(a, b) <==> Less(InternalOrder(a), InternalOrder(b))
  {
    RankPreservesOrder(ExtractUserKey(a), ExtractUserKey(b));
  }

  /** Packing and unpacking an internal key. */
  lemma InternalKeyRoundTrip(user: Bytes, seqno: nat, kind: Kind)
    requires seqno <= MAX_SEQUENCE
    ensures var s := AppendInternalKey(user, seqno, kind);
            IsInternalKey(s) && ExtractUserKey(s) == user && InternalOrder(s) == InternalKey(Rank(user), seqno, kind)
  {
    hide Fixed, Unfixed, Rank;
    var tag := seqno * 256 + if kind.Value? then 1 else 0;
    Fixed64RoundTrip(tag);
    var s := AppendInternalKey(user, seqno, kind);
    assert s == user + Fixed(tag, 8);
    assert s[..|s| - 8] == user && s[|s| - 8..] == Fixed(tag, 8);
    hide AppendInternalKey;
    assert ExtractUserKey(s) == user && ExtractTag(s) == tag;
    assert tag / 256 == seqno && tag % 256 == if kind.Value? then 1 else 0;
  }

  function InternalSeparator(start: Bytes, limit: Bytes): Bytes {
    var tmp := ShortestSeparator(ExtractUserKey(start), ExtractUserKey(limit));
    if |tmp| < |ExtractUserKey(start)| && BytesLess(ExtractUserKey(start), tmp)
    then AppendInternalKey(tmp, MAX_SEQUENCE, Value)
    else start
  }

  function InternalSuccessor(key: Bytes): Bytes {
    var tmp := ShortSuccessor(ExtractUserKey(key));
    if |tmp| < |ExtractUserKey(key)| && BytesLess(ExtractUserKey(key), tmp)
    then AppendInternalKey(tmp, MAX_SEQUENCE, Value)
    else key
  }

  /** An internal key gives way to a separator exactly if its user key has a shorter one; that goes first of all
      versions of its user key. */
  lemma InternalSeparatorShortens(start: Bytes, limit: Bytes, n: nat)
    requires IsInternalKey(start) && IsInternalKey(limit) && n < |ExtractUserKey(start)| && n < |ExtractUserKey(limit)|
    requires ExtractUserKey(start)[..n] == ExtractUserKey(limit)[..n]
    requires ExtractUserKey(start)[n] as nat + 1 < ExtractUserKey(limit)[n] as nat
    ensures var a, r := ExtractUserKey(start), InternalSeparator(start, limit);
            if n + 1 < |a| then
              && IsInternalKey(r) && ExtractUserKey(r) == a[..n] + [a[n] + 1]
              && InternalOrder(r) == InternalKey(Rank(a[..n] + [a[n] + 1]), MAX_SEQUENCE, Value)
            else r == start
  {
    hide BytesLess, ShortestSeparator, IsInternalKey, ExtractUserKey, AppendInternalKey, InternalOrder;
    var a := ExtractUserKey(start);
    SeparatorIsLeast(a, ExtractUserKey(limit), n, []);
    InternalKeyRoundTrip(a[..n] + [a[n] + 1], MAX_SEQUENCE, Value);
  }

  /** And to a successor exactly if its user key has a byte to be raised before its last. */
  lemma InternalSuccessorShortens(key: Bytes, n: nat)
    requires IsInternalKey(key) && n < |ExtractUserKey(key)| && ExtractUserKey(key)[n] != 255
    requires forall i :: 0 <= i < n ==> ExtractUserKey(key)[i] == 255
    ensures var a, r := ExtractUserKey(key), InternalSuccessor(key);
            if n + 1 < |a| then
              && IsInternalKey(r) && ExtractUserKey(r) == a[..n] + [a[n] + 1]
              && InternalOrder(r) == InternalKey(Rank(a[..n] + [a[n] + 1]), MAX_SEQUENCE, Value)
            else r == key
  {
    hide BytesLess, ShortSuccessor, IsInternalKey, ExtractUserKey, AppendInternalKey, InternalOrder;
    var a := ExtractUserKey(key);
    SuccessorAt(a, n);
    SuccessorIsLeast(a, []);
    InternalKeyRoundTrip(a[..n] + [a[n] + 1], MAX_SEQUENCE, Value);
  }

  lemma {:induction false} SuccessorAt(key: Bytes, n: nat)
    requires n < |key| && key[n] != 255 && forall i :: 0 <= i < n ==> key[i] == 255
    ensures ShortSuccessor(key) == key[..n] + [key[n] + 1]
  {
    if n > 0 {
      SuccessorAt(key[1..], n - 1);
      assert key[..n] == [key[0]] + key[1..][..n - 1];
    }
  }

  const INTERNAL: Comparator := Comparator(InternalOrder, InternalSeparator, InternalSuccessor)

  lemma InternalIsLawful()
    ensures Lawful(INTERNAL, IsInternalKey)
  {
    forall a, b | IsInternalKey(a) && IsInternalKey(b) && INTERNAL.Before(a, b)
      ensures SeparatesAt(INTERNAL, IsInternalKey, a, b)
    {
      InternalSeparates(a, b);
    }
    forall a | IsInternalKey(a)
      ensures SucceedsAt(INTERNAL, IsInternalKey, a)
    {
      InternalSucceeds(a);
    }
  }

  lemma InternalSeparates(a: Bytes, b: Bytes)
    requires IsInternalKey(a) && IsInternalKey(b) && INTERNAL.Before(a, b)
    ensures SeparatesAt(INTERNAL, IsInternalKey, a, b)
  {
    InternalLessIsLess(a, b);
    InternalSeparatorBetween(a, b);
    var r := InternalSeparator(a, b);
    InternalLessIsLess(r, a);
    InternalLessIsLess(r, b);
    if r != a {
      var tmp := ShortestSeparator(ExtractUserKey(a), ExtractUserKey(b));
      SeparatorBetween(ExtractUserKey(a), ExtractUserKey(b));
      InternalKeyRoundTrip(tmp, MAX_SEQUENCE, Value);
      RankPreservesOrder(tmp, ExtractUserKey(b));
    }
  }

  lemma InternalSucceeds(a: Bytes)
    requires IsInternalKey(a)
    ensures SucceedsAt(INTERNAL, IsInternalKey, a)
  {
    InternalSuccessorNotBefore(a);
    InternalLessIsLess(InternalSuccessor(a), a);
  }

  /** A separator of two internal keys sorts at or after the first and strictly before the second. */
  lemma InternalSeparatorBetween(a: Bytes, b: Bytes)
    requires IsInternalKey(a) && IsInternalKey(b) && InternalLess(a, b)
    ensures var r := InternalSeparator(a, b); IsInternalKey(r) && !InternalLess(r, a) && InternalLess(r, b)
  {
    var u, tmp := ExtractUserKey(a), ShortestSeparator(ExtractUserKey(a), ExtractUserKey(b));
    SeparatorBetween(u, ExtractUserKey(b));
    if InternalSeparator(a, b) != a {
      InternalKeyRoundTrip(tmp, MAX_SEQUENCE, Value);
      RankPreservesOrder(u, tmp);
      RankPreservesOrder(tmp, u);
    } else {
      RankPreservesOrder(u, u);
    }
  }

  lemma InternalSuccessorNotBefore(a: Bytes)
    requires IsInternalKey(a)
    ensures var r := InternalSuccessor(a); IsInternalKey(r) && !InternalLess(r, a)
  {
    var u, tmp := ExtractUserKey(a), ShortSuccessor(ExtractUserKey(a));
    SuccessorNotBefore(u);
    if InternalSuccessor(a) != a {
      InternalKeyRoundTrip(tmp, MAX_SEQUENCE, Value);
      RankPreservesOrder(u, tmp);
      RankPreservesOrder(tmp, u);
    } else {
      RankPreservesOrder(u, u);
    }
  }
}

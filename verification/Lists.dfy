/** Lists without repetition, from which elements are taken out: the linked lists of the store. */
module Lists {
  ghost predicate NoRepeats<T>(s: seq<T>) {
    forall i, j :: 0 <= i < j < |s| ==> s[i] != s[j]
  }

  lemma SliceOfSlice<T>(s: seq<T>, lo: nat, hi: nat, i: nat, j: nat)
    requires lo <= hi <= |s| && i <= j <= hi - lo
    ensures s[lo..hi][i..j] == s[lo + i..lo + j]
  {
    var part, whole := s[lo..hi][i..j], s[lo + i..lo + j];
    assert |part| == |whole|;
    forall k | 0 <= k < |part|
      ensures part[k] == whole[k]
    {
      assert part[k] == s[lo..hi][i + k];
    }
  }

  function Without<T(==)>(s: seq<T>, x: T): seq<T> {
    if s == [] then []
    else
      var n := |s| - 1;
      Without(s[..n], x) + if s[n] == x then [] else [s[n]]
  }

  lemma {:induction false} WithoutMembers<T>(s: seq<T>, x: T)
    ensures forall y :: y in Without(s, x) <==> y in s && y != x
    ensures x !in s ==> Without(s, x) == s
  {
    if s != [] {
      var n := |s| - 1;
      WithoutMembers(s[..n], x);
      assert s == s[..n] + [s[n]];
    }
  }

  lemma {:induction false} WithoutRepeats<T>(s: seq<T>, x: T)
    requires NoRepeats(s)
    ensures NoRepeats(Without(s, x))
  {
    if s != [] {
      var n := |s| - 1;
      WithoutRepeats(s[..n], x);
      WithoutMembers(s[..n], x);
      var r := Without(s[..n], x);
      forall i | 0 <= i < |r|
        ensures r[i] != s[n]
      {
        assert r[i] in r;
      }
    }
  }

  lemma WithoutFirst<T>(s: seq<T>)
    requires s != [] && NoRepeats(s)
    ensures Without(s, s[0]) == s[1..]
  {
    WithoutHead(s[0], s[1..]);
    assert s == [s[0]] + s[1..];
    assert forall i :: 0 <= i < |s[1..]| ==> s[1..][i] == s[i + 1];
    WithoutMembers(s[1..], s[0]);
  }

  lemma {:induction false} WithoutHead<T>(x: T, s: seq<T>)
    ensures Without([x] + s, x) == Without(s, x)
  {
    if s != [] {
      var n := |s| - 1;
      WithoutHead(x, s[..n]);
      assert ([x] + s)[..|s|] == [x] + s[..n];
    } else {
      assert [x] + s == [x] && [x][..0] == [];
      assert Without([x], x) == Without([], x) + [];
    }
  }

  lemma {:induction false} PlaceBefore<T>(s: seq<T>, x: T, i: nat) returns (k: nat)
    requires i < |Without(s, x)|
    ensures k < |s| && s[k] == Without(s, x)[i]
  {
    var n := |s| - 1;
    if i < |Without(s[..n], x)| {
      k := PlaceBefore(s[..n], x, i);
    } else {
      k := n;
    }
  }

  /** Taking out keeps the order of the others. */
  lemma {:induction false} WithoutKeepsOrder<T>(s: seq<T>, x: T, i: nat, j: nat) returns (k: nat, l: nat)
    requires i < j < |Without(s, x)|
    ensures k < l < |s| && s[k] == Without(s, x)[i] && s[l] == Without(s, x)[j]
  {
    var n := |s| - 1;
    var before := s[..n];
    var r := Without(before, x);
    if j < |r| {
      k, l := WithoutKeepsOrder(before, x, i, j);
    } else {
      k := PlaceBefore(before, x, i);
      l := n;
    }
  }

  lemma AppendedRepeats<T>(s: seq<T>, x: T)
    requires NoRepeats(s) && x !in s
    ensures NoRepeats(s + [x])
    ensures forall y :: y in s + [x] <==> y in s || y == x
  {
  }
}

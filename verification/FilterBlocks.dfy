/** Filter blocks (db/filter_block.cc): one filter for each two kilobytes of data block offsets.  A key added
    to a block is never denied for that block's offset, and another is admitted only where its probes coincide. */
module FilterBlocks {
  import opened Keys
  import opened Coding
  import opened Blocks
  import opened Bloom

  const FILTER_BASE_LG: nat := 11
  const FILTER_BASE: nat := 2048

  /** A key and the number of the filter it went into. */
  datatype Added = Added(index: nat, key: Bytes)

  function FilterEnd(offsets: seq<nat>, size: nat, i: nat): nat {
    if i + 1 < |offsets| then offsets[i + 1] else size
  }

  ghost predicate Ascending(offsets: seq<nat>, size: nat) {
    && (forall i, j :: 0 <= i < j < |offsets| ==> offsets[i] <= offsets[j])
    && forall i :: 0 <= i < |offsets| ==> offsets[i] <= size
  }

  /** The keys added for filter `i`, in order. */
  function KeysFor(added: seq<Added>, i: nat): seq<Bytes> {
    if added == [] then []
    else
      var n := |added| - 1;
      KeysFor(added[..n], i) + if added[n].index == i then [added[n].key] else []
  }

  lemma OneMoreAdded(added: seq<Added>, a: Added, i: nat)
    ensures KeysFor(added + [a], i) == KeysFor(added, i) + if a.index == i then [a.key] else []
  {
    assert (added + [a])[..|added|] == added;
  }

  lemma {:induction false} KeysForMembers(added: seq<Added>, i: nat, key: Bytes)
    ensures key in KeysFor(added, i) <==> Added(i, key) in added
  {
    if added != [] {
      var n := |added| - 1;
      KeysForMembers(added[..n], i, key);
      assert added == added[..n] + [added[n]];
    }
  }

  /** What sizes and probes filters have. */
  datatype Policy = Policy(hashOf: Bytes -> nat, bitsPerKey: nat, k: nat)

  /** The bytes are the filter of the keys; without keys there are none. */
  ghost predicate IsFilter(p: Policy, keys: seq<Bytes>, filter: Bytes) {
    if keys == [] then filter == [] else FilterOf(p.hashOf, keys, p.k, FilterBytes(|keys|, p.bitsPerKey), filter)
  }

  /** Filter `i` is that of the keys. */
  ghost predicate Holds(p: Policy, result: Bytes, offsets: seq<nat>, i: nat, keys: seq<Bytes>) {
    && i < |offsets| && offsets[i] <= FilterEnd(offsets, |result|, i) <= |result|
    && IsFilter(p, keys, result[offsets[i]..FilterEnd(offsets, |result|, i)])
  }

  /** The closed filters are those of the keys added for them; the keys of the next one wait. */
  ghost predicate Covered(p: Policy, result: Bytes, offsets: seq<nat>, pending: seq<Bytes>, added: seq<Added>) {
    && Ascending(offsets, |result|) && pending == KeysFor(added, |offsets|)
    && (forall a :: a in added ==> a.index <= |offsets|)
    && forall i: nat :: i < |offsets| ==> Holds(p, result, offsets, i, KeysFor(added, i))
  }

  /** A filter already closed stays when bytes and an offset follow. */
  lemma StillHolds(p: Policy, result: Bytes, offsets: seq<nat>, i: nat, keys: seq<Bytes>, filter: Bytes)
    requires i < |offsets| && Holds(p, result, offsets, i, keys)
    ensures Holds(p, result + filter, offsets + [|result|], i, keys)
  {
    hide IsFilter;
    var from, to := offsets[i], FilterEnd(offsets, |result|, i);
    assert FilterEnd(offsets + [|result|], |result + filter|, i) == to;
    assert (result + filter)[from..to] == result[from..to];
  }

  lemma LastHolds(p: Policy, result: Bytes, offsets: seq<nat>, keys: seq<Bytes>, filter: Bytes)
    requires IsFilter(p, keys, filter)
    ensures Holds(p, result + filter, offsets + [|result|], |offsets|, keys)
  {
    hide IsFilter;
    var r, o := result + filter, offsets + [|result|];
    assert FilterEnd(o, |r|, |offsets|) == |r| && r[|result|..|r|] == filter;
  }

  /** Closing the filter of the pending keys. */
  lemma FilterClosed(p: Policy, result: Bytes, offsets: seq<nat>, pending: seq<Bytes>, added: seq<Added>, filter: Bytes)
    requires Covered(p, result, offsets, pending, added) && IsFilter(p, pending, filter)
    ensures Covered(p, result + filter, offsets + [|result|], [], added)
  {
    hide IsFilter, Holds, KeysFor;
    var r, o := result + filter, offsets + [|result|];
    forall i: nat | i < |o|
      ensures Holds(p, r, o, i, KeysFor(added, i))
    {
      if i < |offsets| {
        StillHolds(p, result, offsets, i, KeysFor(added, i), filter);
      } else {
        LastHolds(p, result, offsets, pending, filter);
      }
    }
    NoneBeyond(added, |o|);
  }

  lemma {:induction false} NoneBeyond(added: seq<Added>, i: nat)
    requires forall a :: a in added ==> a.index < i
    ensures KeysFor(added, i) == []
  {
    if added != [] {
      NoneBeyond(added[..|added| - 1], i);
      assert added[|added| - 1] in added;
    }
  }

  /** A reader of a block with so many filters lets the key through at filter `i`: beyond the filters any, else the keys
      each of whose probes is one of a key added there. */
  ghost predicate Admits(p: Policy, added: seq<Added>, filters: nat, i: nat, key: Bytes) {
    i < filters ==>
      var keys := KeysFor(added, i);
      var bytes := FilterBytes(|keys|, p.bitsPerKey);
      keys != [] && forall j :: 0 <= j < p.k ==> Probed(p.hashOf, keys, p.k, bytes, ProbeAt(p.hashOf(key), j, bytes))
  }

  lemma FilterAdmits(p: Policy, added: seq<Added>, filters: nat, i: nat, key: Bytes, filter: Bytes)
    requires 1 <= p.k <= 30 && i < filters && IsFilter(p, KeysFor(added, i), filter)
    ensures filter == [] <==> KeysFor(added, i) == []
    ensures Admits(p, added, filters, i, key) <==> filter != [] && KeyMayMatch(p.hashOf, key, filter)
  {
    hide KeyMayMatch, KeysFor, Probed, ProbeAt;
    var keys := KeysFor(added, i);
    if keys != [] {
      MatchesIff(p.hashOf, keys, p.k, FilterBytes(|keys|, p.bitsPerKey), filter, key);
    }
  }

  /** So no key is denied where it was added. */
  lemma AddedIsAdmitted(p: Policy, added: seq<Added>, filters: nat, a: Added)
    requires a in added
    ensures Admits(p, added, filters, a.index, a.key)
  {
    hide ProbeAt;
    KeysForMembers(added, a.index, a.key);
    var keys := KeysFor(added, a.index);
    var h :| 0 <= h < |keys| && keys[h] == a.key;
    var bytes := FilterBytes(|keys|, p.bitsPerKey);
    forall j: nat | j < p.k
      ensures Probed(p.hashOf, keys, p.k, bytes, ProbeAt(p.hashOf(a.key), j, bytes))
    {
      assert Hits(p.hashOf(keys[h]), p.k, bytes, ProbeAt(p.hashOf(a.key), j, bytes));
    }
  }

  class FilterBlockBuilder {
    const hashOf: Bytes -> nat
    const bitsPerKey: nat
    const k: nat
    /** The keys collected for the next filter. */
    var keys: seq<Bytes>
    var result: Bytes
    var filterOffsets: seq<nat>
    ghost var added: seq<Added>

    constructor (hashOf: Bytes -> nat, bitsPerKey: nat, k: nat)
      requires 1 <= k <= 30
      ensures Ok() && added == [] && filterOffsets == [] && Rules() == Policy(hashOf, bitsPerKey, k)
    {
      this.hashOf, this.bitsPerKey, this.k := hashOf, bitsPerKey, k;
      keys, result, filterOffsets, added := [], [], [], [];
    }

    ghost predicate Ok()
      reads this
    {
      1 <= k <= 30 && Covered(Rules(), result, filterOffsets, keys, added)
    }

    function Rules(): Policy {
      Policy(hashOf, bitsPerKey, k)
    }

    /** Closes filters until the one for this block's offset is the next. */
    method StartBlock(blockOffset: nat)
      requires Ok() && |filterOffsets| <= blockOffset / FILTER_BASE
      modifies this
      ensures Ok() && |filterOffsets| == blockOffset / FILTER_BASE && added == old(added)
    {
      hide Covered;
      var filterIndex := blockOffset / FILTER_BASE;
      while filterIndex > |filterOffsets|
        invariant Ok() && |filterOffsets| <= filterIndex && added == old(added)
        decreases filterIndex - |filterOffsets|
      {
        GenerateFilter();
      }
    }

    method AddKey(key: Bytes)
      requires Ok()
      modifies this
      ensures Ok() && added == old(added) + [Added(|filterOffsets|, key)] && filterOffsets == old(filterOffsets)
    {
      hide Holds, KeysFor;
      forall i: nat
        ensures KeysFor(added + [Added(|filterOffsets|, key)], i) == KeysFor(added, i) + if |filterOffsets| == i then [key] else []
      {
        OneMoreAdded(added, Added(|filterOffsets|, key), i);
      }
      assert forall i: nat :: i < |filterOffsets| ==> KeysFor(added, i) + [] == KeysFor(added, i);
      keys := keys + [key];
      added := added + [Added(|filterOffsets|, key)];
    }

    method GenerateFilter()
      requires Ok()
      modifies this
      ensures Ok() && keys == [] && added == old(added) && |filterOffsets| == old(|filterOffsets|) + 1
    {
      hide Covered, KeyMayMatch, FilterOf, Probed;
      if |keys| == 0 {
        FilterClosed(Rules(), result, filterOffsets, keys, added, []);
        assert result + [] == result;
        filterOffsets := filterOffsets + [|result|];
        return;
      }
      ghost var before, was, pending := result, filterOffsets, keys;
      filterOffsets := filterOffsets + [|result|];
      result := CreateFilter(hashOf, bitsPerKey, k, keys, result);
      FilterClosed(Rules(), before, was, pending, added, result[|before|..]);
      assert before + result[|before|..] == result;
      keys := [];
    }

    /** The finished block lets through, at an offset its filters serve, exactly the keys whose probes are those of
        keys added for it; so every added key. */
    method Finish() returns (contents: Bytes)
      requires Ok()
      modifies this
      ensures added == old(added) && |filterOffsets| == old(|filterOffsets|) + if old(keys) == [] then 0 else 1
      ensures |contents| < LIMIT32 ==>
                && (forall offset: nat, key :: MayMatch(hashOf, contents, offset, key) <==>
                                                 Admits(Rules(), added, |filterOffsets|, offset / FILTER_BASE, key))
                && (forall a, offset :: a in added && offset / FILTER_BASE == a.index ==> MayMatch(hashOf, contents, offset, a.key))
    {
      hide Covered, KeyMayMatch, MayMatch, RestartArray, Fixed, Admits;
      if keys != [] {
        GenerateFilter();
      }
      ghost var body, offsets := result, filterOffsets;
      assert Covered(Rules(), body, offsets, [], added);
      var arrayOffset := |result|;
      assert filterOffsets[..0] == [];
      NoRestarts();
      for i := 0 to |filterOffsets|
        invariant filterOffsets == offsets && added == old(added)
        invariant result == body + RestartArray(offsets[..i])
      {
        OneMoreOffset(filterOffsets, i);
        result := result + Fixed(filterOffsets[i], 4);
      }
      assert filterOffsets[..|filterOffsets|] == filterOffsets;
      result := result + Fixed(arrayOffset, 4);
      result := result + [FILTER_BASE_LG as byte];
      contents := result;
      assert contents == body + (RestartArray(filterOffsets) + Fixed(|body|, 4)) + [11];
      LastOffset(filterOffsets, |body|);
      assert contents == body + RestartArray(filterOffsets + [|body|]) + [11];
      if |contents| < LIMIT32 {
        FinishedMatches(Rules(), body, filterOffsets, added, contents);
      }
    }
  }

  /** FilterBlockReader: no answer but yes from a malformed block or beyond its filters. */
  function MayMatch(hashOf: Bytes -> nat, contents: Bytes, blockOffset: nat, key: Bytes): bool {
    var n := |contents|;
    if n < 5 then true
    else
      var baseLg := contents[n - 1] as nat;
      var arrayOffset := Unfixed(contents[n - 5..n - 1]);
      if arrayOffset > n - 5 then true
      else
        var num := (n - 5 - arrayOffset) / 4;
        var index := blockOffset / Power(2, baseLg);
        if index >= num then true
        else
          var start := Unfixed(contents[arrayOffset + index * 4..arrayOffset + index * 4 + 4]);
          var limit := Unfixed(contents[arrayOffset + index * 4 + 4..arrayOffset + index * 4 + 8]);
          if start == limit then false
          else if start < limit <= arrayOffset then KeyMayMatch(hashOf, key, contents[start..limit])
          else true
  }

  lemma NoRestarts()
    ensures RestartArray([]) == []
  {
  }

  lemma OneMoreOffset(offsets: seq<nat>, i: nat)
    requires i < |offsets|
    ensures RestartArray(offsets[..i + 1]) == RestartArray(offsets[..i]) + Fixed(offsets[i], 4)
  {
    assert offsets[..i + 1][..i] == offsets[..i];
  }

  lemma LastOffset(offsets: seq<nat>, last: nat)
    ensures RestartArray(offsets + [last]) == RestartArray(offsets) + Fixed(last, 4)
  {
    assert (offsets + [last])[..|offsets|] == offsets;
  }

  /** Entry `i` of the offset array, whose last entry is the array's own offset. */
  lemma OffsetRead(body: Bytes, offsets: seq<nat>, contents: Bytes, i: nat)
    requires Ascending(offsets, |body|) && i <= |offsets| && |contents| < LIMIT32
    requires contents == body + RestartArray(offsets + [|body|]) + [11]
    ensures |body| + 4 * i + 4 <= |contents| - 1
    ensures Unfixed(contents[|body| + 4 * i..|body| + 4 * i + 4]) == if i < |offsets| then offsets[i] else |body|
  {
    hide RestartArray, Fixed, Unfixed;
    var all := offsets + [|body|];
    RestartAt(all, i);
    assert contents[|body| + 4 * i..|body| + 4 * i + 4] == RestartArray(all)[4 * i..4 * i + 4];
    Fixed32RoundTrip(all[i]);
  }

  lemma BasePower()
    ensures Power(2, 11) == FILTER_BASE
  {
    assert Power(2, 4) == 16;
    assert Power(2, 8) == 2 * (2 * (2 * (2 * Power(2, 4))));
    assert Power(2, 11) == 2 * (2 * (2 * Power(2, 8)));
  }

  lemma FinishedMatches(p: Policy, body: Bytes, offsets: seq<nat>, added: seq<Added>, contents: Bytes)
    requires 1 <= p.k <= 30 && Covered(p, body, offsets, [], added) && |contents| < LIMIT32
    requires contents == body + RestartArray(offsets + [|body|]) + [11]
    ensures forall offset: nat, key :: MayMatch(p.hashOf, contents, offset, key) <==> Admits(p, added, |offsets|, offset / FILTER_BASE, key)
    ensures forall a, offset :: a in added && offset / FILTER_BASE == a.index ==> MayMatch(p.hashOf, contents, offset, a.key)
  {
    hide KeyMayMatch, RestartArray, Fixed, Unfixed, Power, MayMatch, Admits, Holds;
    forall offset: nat, key
      ensures MayMatch(p.hashOf, contents, offset, key) <==> Admits(p, added, |offsets|, offset / FILTER_BASE, key)
    {
      OneMatches(p, body, offsets, added, contents, offset, key);
    }
    forall a, offset: nat | a in added && offset / FILTER_BASE == a.index
      ensures MayMatch(p.hashOf, contents, offset, a.key)
    {
      AddedIsAdmitted(p, added, |offsets|, a);
    }
  }

  lemma OneMatches(p: Policy, body: Bytes, offsets: seq<nat>, added: seq<Added>, contents: Bytes, offset: nat, key: Bytes)
    requires 1 <= p.k <= 30 && Ascending(offsets, |body|) && |contents| < LIMIT32
    requires var i := offset / FILTER_BASE; i < |offsets| ==> Holds(p, body, offsets, i, KeysFor(added, i))
    requires contents == body + RestartArray(offsets + [|body|]) + [11]
    ensures MayMatch(p.hashOf, contents, offset, key) <==> Admits(p, added, |offsets|, offset / FILTER_BASE, key)
  {
    hide KeyMayMatch, RestartArray, Fixed, MayMatch, KeysFor, IsFilter, Admits;
    var i := offset / FILTER_BASE;
    if i < |offsets| {
      ReadsFilter(p.hashOf, body, offsets, contents, offset, key, i);
      FilterAdmits(p, added, |offsets|, i, key, body[offsets[i]..FilterEnd(offsets, |body|, i)]);
    } else {
      ReadsBeyond(p.hashOf, body, offsets, contents, offset, key);
      BeyondAdmits(p, added, |offsets|, i, key);
    }
  }

  lemma BeyondAdmits(p: Policy, added: seq<Added>, filters: nat, i: nat, key: Bytes)
    requires filters <= i
    ensures Admits(p, added, filters, i, key)
  {
  }

  /** The offset array's own place, and the number of filters. */
  lemma TrailerRead(body: Bytes, offsets: seq<nat>, contents: Bytes)
    requires Ascending(offsets, |body|) && |contents| < LIMIT32
    requires contents == body + RestartArray(offsets + [|body|]) + [11]
    ensures |contents| == |body| + 4 * |offsets| + 5 && contents[|contents| - 1] == 11
    ensures Unfixed(contents[|contents| - 5..|contents| - 1]) == |body|
  {
    hide RestartArray, Fixed, Unfixed, Ascending;
    ArrayLength(offsets + [|body|]);
    OffsetRead(body, offsets, contents, |offsets|);
    var n := |contents|;
    assert n - 5 == |body| + 4 * |offsets| && n - 1 == |body| + 4 * |offsets| + 4;
  }

  lemma ArrayLength(offsets: seq<nat>)
    ensures |RestartArray(offsets)| == 4 * |offsets|
  {
    hide Fixed;
    if offsets != [] {
      ArrayLength(offsets[..|offsets| - 1]);
    }
  }

  /** What MayMatch makes of the fields it reads. */
  lemma MatchesAt(hashOf: Bytes -> nat, contents: Bytes, blockOffset: nat, key: Bytes, arrayOffset: nat, num: nat, i: nat)
    requires |contents| == arrayOffset + 4 * num + 5 && contents[|contents| - 1] == 11 && i == blockOffset / FILTER_BASE
    requires Unfixed(contents[|contents| - 5..|contents| - 1]) == arrayOffset
    ensures num <= i ==> MayMatch(hashOf, contents, blockOffset, key)
    ensures i < num ==>
              var start, limit := OffsetAt(contents, arrayOffset, i), OffsetAt(contents, arrayOffset, i + 1);
              start <= limit <= arrayOffset ==>
                (MayMatch(hashOf, contents, blockOffset, key) <==>
                   contents[start..limit] != [] && KeyMayMatch(hashOf, key, contents[start..limit]))
  {
    hide KeyMayMatch, Unfixed, Power;
    BasePower();
    assert (|contents| - 5 - arrayOffset) / 4 == num;
  }

  /** Entry `i` of the offset array. */
  function OffsetAt(contents: Bytes, arrayOffset: nat, i: nat): nat
    requires arrayOffset + i * 4 + 4 <= |contents|
  {
    Unfixed(contents[arrayOffset + i * 4..arrayOffset + i * 4 + 4])
  }

  lemma OffsetAtRead(body: Bytes, offsets: seq<nat>, contents: Bytes, i: nat)
    requires Ascending(offsets, |body|) && i <= |offsets| && |contents| < LIMIT32
    requires contents == body + RestartArray(offsets + [|body|]) + [11]
    ensures |body| + i * 4 + 4 <= |contents|
    ensures OffsetAt(contents, |body|, i) == if i < |offsets| then offsets[i] else |body|
  {
    hide RestartArray, Fixed, Unfixed, Ascending;
    OffsetRead(body, offsets, contents, i);
    assert |body| + 4 * i == |body| + i * 4;
  }

  lemma ReadsFilter(hashOf: Bytes -> nat, body: Bytes, offsets: seq<nat>, contents: Bytes, offset: nat, key: Bytes, i: nat)
    requires Ascending(offsets, |body|) && |contents| < LIMIT32 && i == offset / FILTER_BASE && i < |offsets|
    requires contents == body + RestartArray(offsets + [|body|]) + [11]
    ensures offsets[i] <= FilterEnd(offsets, |body|, i) <= |body|
    ensures var filter := body[offsets[i]..FilterEnd(offsets, |body|, i)];
            MayMatch(hashOf, contents, offset, key) <==> filter != [] && KeyMayMatch(hashOf, key, filter)
  {
    hide *;
    FilterBounds(offsets, |body|, i);
    TrailerRead(body, offsets, contents);
    OffsetAtRead(body, offsets, contents, i);
    OffsetAtRead(body, offsets, contents, i + 1);
    MatchesAt(hashOf, contents, offset, key, |body|, |offsets|, i);
    PartOfBody(body, RestartArray(offsets + [|body|]), contents, offsets[i], FilterEnd(offsets, |body|, i));
  }

  lemma FilterBounds(offsets: seq<nat>, size: nat, i: nat)
    requires Ascending(offsets, size) && i < |offsets|
    ensures offsets[i] <= FilterEnd(offsets, size, i) <= size
    ensures FilterEnd(offsets, size, i) == if i + 1 < |offsets| then offsets[i + 1] else size
  {
  }

  lemma PartOfBody(body: Bytes, rest: Bytes, contents: Bytes, start: nat, limit: nat)
    requires start <= limit <= |body| && contents == body + rest + [11]
    ensures contents[start..limit] == body[start..limit]
  {
  }

  lemma ReadsBeyond(hashOf: Bytes -> nat, body: Bytes, offsets: seq<nat>, contents: Bytes, offset: nat, key: Bytes)
    requires Ascending(offsets, |body|) && |contents| < LIMIT32 && offset / FILTER_BASE >= |offsets|
    requires contents == body + RestartArray(offsets + [|body|]) + [11]
    ensures MayMatch(hashOf, contents, offset, key)
  {
    hide KeyMayMatch, RestartArray, Fixed, Unfixed, MayMatch;
    TrailerRead(body, offsets, contents);
    MatchesAt(hashOf, contents, offset, key, |body|, |offsets|, offset / FILTER_BASE);
  }
}

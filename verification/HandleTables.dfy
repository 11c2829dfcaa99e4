/** The cache's hash table (util/cache.cc, HandleTable): chained buckets as a map from keys to entries. */
module HandleTables {
  import opened Keys

  class LRUEntry {
    const key: Bytes
    const hash: nat
    const charge: nat
    const value: Bytes
    var refs: nat
    var inCache: bool

    constructor (key: Bytes, hash: nat, charge: nat, value: Bytes, refs: nat)
      ensures this.key == key && this.hash == hash && this.charge == charge && this.value == value
      ensures this.refs == refs && inCache
    {
      this.key, this.hash, this.charge, this.value := key, hash, charge, value;
      this.refs, inCache := refs, true;
    }
  }

  /** A chain: entries of one bucket, no key twice, each hashed as `hashOf` says. */
  ghost predicate Chain(hashOf: Bytes -> nat, length: nat, bucket: nat, chain: seq<LRUEntry>)
    requires length > 0
  {
    && (forall i :: 0 <= i < |chain| ==> chain[i].hash == hashOf(chain[i].key) && chain[i].hash % length == bucket)
    && forall i, j :: 0 <= i < j < |chain| ==> chain[i].key != chain[j].key
  }

  ghost predicate Chains(hashOf: Bytes -> nat, chains: seq<seq<LRUEntry>>) {
    chains != [] && forall b :: 0 <= b < |chains| ==> Chain(hashOf, |chains|, b, chains[b])
  }

  /** The chains hold exactly the entries of the map. */
  ghost predicate Holds(chains: seq<seq<LRUEntry>>, contents: map<Bytes, LRUEntry>) {
    && (forall k :: k in contents ==> contents[k].key == k)
    && (forall b, i :: 0 <= b < |chains| && 0 <= i < |chains[b]| ==> chains[b][i].key in contents && contents[chains[b][i].key] == chains[b][i])
    && (forall k :: k in contents ==> Stored(chains, contents[k]))
  }

  ghost predicate Stored(chains: seq<seq<LRUEntry>>, e: LRUEntry) {
    chains != [] && e in chains[e.hash % |chains|]
  }

  /** Bucket counts are powers of two, so masking a hash is taking its remainder. */
  ghost predicate PowerOfTwo(n: nat) {
    n == 1 || (n > 1 && n % 2 == 0 && PowerOfTwo(n / 2))
  }

  class HandleTable {
    /** Stands for the hash function; any will do. */
    const hashOf: Bytes -> nat
    var list: array<seq<LRUEntry>>
    var count: nat
    ghost var contents: map<Bytes, LRUEntry>

    constructor (hashOf: Bytes -> nat)
      ensures Ok() && contents == map[] && this.hashOf == hashOf && fresh(list)
    {
      this.hashOf := hashOf;
      list := new seq<LRUEntry>[4](_ => []);
      count := 0;
      contents := map[];
      assert PowerOfTwo(2);
    }

    /** The table holds its map, with no fewer chains than entries. */
    ghost predicate Ok()
      reads this, list
    {
      Sound() && count <= list.Length
    }

    ghost predicate Sound()
      reads this, list
    {
      && PowerOfTwo(list.Length) && count == |contents|
      && Chains(hashOf, list[..]) && Holds(list[..], contents)
    }

    /** The slot of a key in its chain: the entry with that key, or the end of the chain. */
    method FindPointer(key: Bytes, hash: nat) returns (b: nat, p: nat)
      requires Ok() && hash == hashOf(key)
      ensures b == hash % list.Length && p <= |list[b]|
      ensures if key in contents then p < |list[b]| && list[b][p] == contents[key] && list[b][p].key == key else p == |list[b]|
    {
      b := hash % list.Length;
      p := 0;
      ghost var chains := list[..];
      assert Chain(hashOf, |chains|, b, chains[b]);
      if key in contents {
        assert Stored(chains, contents[key]);
      }
      while p < |list[b]| && (list[b][p].hash != hash || list[b][p].key != key)
        invariant p <= |list[b]|
        invariant forall i :: 0 <= i < p ==> list[b][i].key != key
      {
        p := p + 1;
      }
      if p < |list[b]| {
        assert chains[b][p].key in contents;
      }
    }

    method Lookup(key: Bytes, hash: nat) returns (e: LRUEntry?)
      requires Ok() && hash == hashOf(key)
      ensures e == if key in contents then contents[key] else null
    {
      var b, p := FindPointer(key, hash);
      e := if p < |list[b]| then list[b][p] else null;
    }

    /** Maps the entry's key to it; an entry of the same key is replaced and returned. */
    method Insert(entry: LRUEntry) returns (old_: LRUEntry?)
      requires Ok() && entry.hash == hashOf(entry.key)
      modifies this, list
      ensures Ok() && contents == old(contents)[entry.key := entry]
      ensures old_ == if entry.key in old(contents) then old(contents[entry.key]) else null
      ensures if |contents| <= old(list.Length) then list == old(list) else fresh(list)
    {
      hide Chain, Holds, Stored, PowerOfTwo;
      var b, p := FindPointer(entry.key, entry.hash);
      ghost var before, was := list[..], contents;
      if p < |list[b]| {
        old_ := list[b][p];
        list[b] := list[b][p := entry];
        contents := contents[entry.key := entry];
        Replaced(hashOf, before, was, b, p, entry);
        assert list[..] == before[b := before[b][p := entry]];
        SameSize(was, entry);
      } else {
        old_ := null;
        list[b] := list[b] + [entry];
        contents := contents[entry.key := entry];
        Appended(hashOf, before, was, b, entry);
        assert list[..] == before[b := before[b] + [entry]];
        count := count + 1;
        if count > list.Length {
          Resize();
        }
      }
    }

    /** Unmaps a key; its entry is returned. */
    method Remove(key: Bytes, hash: nat) returns (result: LRUEntry?)
      requires Ok() && hash == hashOf(key)
      modifies this, list
      ensures Ok() && contents == old(contents) - {key} && list == old(list)
      ensures result == if key in old(contents) then old(contents[key]) else null
    {
      hide Chains, Holds;
      var b, p := FindPointer(key, hash);
      result := null;
      if p < |list[b]| {
        ghost var before, was := list[..], contents;
        result := list[b][p];
        list[b] := list[b][..p] + list[b][p + 1..];
        count := count - 1;
        contents := contents - {key};
        Removed(hashOf, before, was, b, p);
        assert list[..] == before[b := before[b][..p] + before[b][p + 1..]];
      } else {
        assert contents - {key} == contents;
      }
    }

    /** Doubles the number of buckets until there is one for each entry, and moves every entry to the front
        of its new chain. */
    method Resize()
      requires Sound()
      modifies this
      ensures Ok() && contents == old(contents) && fresh(list) && (list.Length == 4 || list.Length / 2 < count)
    {
      hide Chains, Holds, Moved;
      var newLength := 4;
      assert PowerOfTwo(2);
      while newLength < count
        invariant PowerOfTwo(newLength) && (newLength == 4 || newLength / 2 < count)
      {
        assert newLength * 2 / 2 == newLength;
        newLength := newLength * 2;
      }
      var newList := new seq<LRUEntry>[newLength](_ => []);
      ghost var chains := list[..];
      NothingMoved(hashOf, newList[..]);
      for i := 0 to list.Length
        invariant list[..] == chains && unchanged(this)
        invariant Moved(hashOf, chains, newList[..], i, 0)
      {
        for j := 0 to |list[i]|
          invariant list[..] == chains && unchanged(this)
          invariant Moved(hashOf, chains, newList[..], i, j)
        {
          var entry := list[i][j];
          var bucket := entry.hash % newLength;
          ghost var was := newList[..];
          newList[bucket] := [entry] + newList[bucket];
          assert newList[..] == was[bucket := [entry] + was[bucket]];
          MoveOne(hashOf, chains, was, i, j);
        }
        ChainMoved(hashOf, chains, newList[..], i);
      }
      AllMoved(hashOf, chains, newList[..], contents);
      list := newList;
    }
  }

  // ------------------------------------------------------------------ one change to the chains

  lemma SameSize(m: map<Bytes, LRUEntry>, e: LRUEntry)
    requires e.key in m
    ensures |m[e.key := e]| == |m|
  {
    assert m[e.key := e].Keys == m.Keys;
  }

  lemma Replaced(hashOf: Bytes -> nat, chains: seq<seq<LRUEntry>>, m: map<Bytes, LRUEntry>, b: nat, p: nat, e: LRUEntry)
    requires Chains(hashOf, chains) && Holds(chains, m) && b < |chains| && p < |chains[b]|
    requires chains[b][p].key == e.key && e.hash == hashOf(e.key) && b == e.hash % |chains|
    ensures var next := chains[b := chains[b][p := e]]; Chains(hashOf, next) && Holds(next, m[e.key := e])
  {
    var next, m' := chains[b := chains[b][p := e]], m[e.key := e];
    assert Chain(hashOf, |chains|, b, chains[b]);
    forall c | 0 <= c < |next|
      ensures Chain(hashOf, |next|, c, next[c])
    {
      assert Chain(hashOf, |chains|, c, chains[c]);
    }
    forall k | k in m'
      ensures Stored(next, m'[k])
    {
      if k == e.key {
        assert next[b][p] == e;
      } else {
        assert Stored(chains, m[k]);
        KeptByUpdate(chains[b], p, e, m[k]);
      }
    }
    forall c, i | 0 <= c < |next| && 0 <= i < |next[c]|
      ensures next[c][i].key in m' && m'[next[c][i].key] == next[c][i]
    {
      if !(c == b && i == p) {
        assert chains[c][i].key in m;
        KeyOnce(hashOf, chains, b, p, c, i);
      }
    }
  }

  lemma KeptByUpdate(chain: seq<LRUEntry>, p: nat, e: LRUEntry, x: LRUEntry)
    requires p < |chain|
    ensures x in chain && x != chain[p] ==> x in chain[p := e]
  {
    if x in chain && x != chain[p] {
      var i :| 0 <= i < |chain| && chain[i] == x;
      assert chain[p := e][i] == x;
    }
  }

  /** A key stands at one place only. */
  lemma KeyOnce(hashOf: Bytes -> nat, chains: seq<seq<LRUEntry>>, b: nat, p: nat, c: nat, i: nat)
    requires Chains(hashOf, chains) && b < |chains| && p < |chains[b]| && c < |chains| && i < |chains[c]|
    ensures chains[b][p].key == chains[c][i].key ==> b == c && p == i
  {
    assert Chain(hashOf, |chains|, b, chains[b]) && Chain(hashOf, |chains|, c, chains[c]);
  }

  lemma Appended(hashOf: Bytes -> nat, chains: seq<seq<LRUEntry>>, m: map<Bytes, LRUEntry>, b: nat, e: LRUEntry)
    requires Chains(hashOf, chains) && Holds(chains, m) && b < |chains|
    requires e.key !in m && e.hash == hashOf(e.key) && b == e.hash % |chains|
    ensures var next := chains[b := chains[b] + [e]]; Chains(hashOf, next) && Holds(next, m[e.key := e])
    ensures |m[e.key := e]| == |m| + 1
  {
    var next, m' := chains[b := chains[b] + [e]], m[e.key := e];
    assert m'.Keys == m.Keys + {e.key};
    AppendedChains(hashOf, chains, m, b, e);
    AppendedHolds(hashOf, chains, m, b, e);
  }

  lemma AppendedHolds(hashOf: Bytes -> nat, chains: seq<seq<LRUEntry>>, m: map<Bytes, LRUEntry>, b: nat, e: LRUEntry)
    requires chains != [] && Holds(chains, m) && b < |chains| && e.key !in m && b == e.hash % |chains|
    ensures Holds(chains[b := chains[b] + [e]], m[e.key := e])
  {
    var next, m' := chains[b := chains[b] + [e]], m[e.key := e];
    assert |next| == |chains| && next[b][|chains[b]|] == e;
    forall k | k in m'
      ensures Stored(next, m'[k])
    {
      assert k == e.key || Stored(chains, m[k]);
    }
    forall c, i | 0 <= c < |next| && 0 <= i < |next[c]|
      ensures next[c][i].key in m' && m'[next[c][i].key] == next[c][i]
    {
      assert !(c == b && i == |chains[b]|) ==> next[c][i] == chains[c][i];
    }
  }

  lemma AppendedChains(hashOf: Bytes -> nat, chains: seq<seq<LRUEntry>>, m: map<Bytes, LRUEntry>, b: nat, e: LRUEntry)
    requires Chains(hashOf, chains) && Holds(chains, m) && b < |chains|
    requires e.key !in m && e.hash == hashOf(e.key) && b == e.hash % |chains|
    ensures Chains(hashOf, chains[b := chains[b] + [e]])
  {
    var next := chains[b := chains[b] + [e]];
    forall c | 0 <= c < |next|
      ensures Chain(hashOf, |next|, c, next[c])
    {
      assert Chain(hashOf, |chains|, c, chains[c]);
      assert c == b ==> forall i :: 0 <= i < |chains[b]| ==> chains[b][i].key in m;
    }
  }

  lemma Removed(hashOf: Bytes -> nat, chains: seq<seq<LRUEntry>>, m: map<Bytes, LRUEntry>, b: nat, p: nat)
    requires Chains(hashOf, chains) && Holds(chains, m) && b < |chains| && p < |chains[b]|
    ensures var next, m' := chains[b := chains[b][..p] + chains[b][p + 1..]], m - {chains[b][p].key};
            Chains(hashOf, next) && Holds(next, m') && |m'| == |m| - 1
  {
    var e := chains[b][p];
    var next, m' := chains[b := chains[b][..p] + chains[b][p + 1..]], m - {e.key};
    assert e.key in m;
    assert m.Keys == m'.Keys + {e.key};
    RemovedChains(hashOf, chains, b, p);
    forall k | k in m'
      ensures Stored(next, m'[k])
    {
      assert Stored(chains, m[k]);
      KeptByRemoval(chains[b], p, m[k]);
    }
    forall c, i | 0 <= c < |next| && 0 <= i < |next[c]|
      ensures next[c][i].key in m' && m'[next[c][i].key] == next[c][i]
    {
      RemovedFrom(hashOf, chains, m, b, p, c, i);
    }
  }

  lemma RemovedChains(hashOf: Bytes -> nat, chains: seq<seq<LRUEntry>>, b: nat, p: nat)
    requires Chains(hashOf, chains) && b < |chains| && p < |chains[b]|
    ensures Chains(hashOf, chains[b := chains[b][..p] + chains[b][p + 1..]])
  {
    var next := chains[b := chains[b][..p] + chains[b][p + 1..]];
    forall c | 0 <= c < |next|
      ensures Chain(hashOf, |next|, c, next[c])
    {
      assert Chain(hashOf, |chains|, c, chains[c]);
    }
  }

  lemma RemovedFrom(hashOf: Bytes -> nat, chains: seq<seq<LRUEntry>>, m: map<Bytes, LRUEntry>, b: nat, p: nat, c: nat, i: nat)
    requires Chains(hashOf, chains) && Holds(chains, m) && b < |chains| && p < |chains[b]|
    requires c < |chains| && i < |chains[b := chains[b][..p] + chains[b][p + 1..]][c]|
    ensures var x := chains[b := chains[b][..p] + chains[b][p + 1..]][c][i];
            x.key in m && x.key != chains[b][p].key && m[x.key] == x
  {
    var j := if c == b && i >= p then i + 1 else i;
    assert chains[c][j].key in m;
    KeyOnce(hashOf, chains, b, p, c, j);
  }

  lemma KeptByRemoval(chain: seq<LRUEntry>, p: nat, x: LRUEntry)
    requires p < |chain|
    ensures x in chain && x != chain[p] ==> x in chain[..p] + chain[p + 1..]
  {
    if x in chain && x != chain[p] {
      var i :| 0 <= i < |chain| && chain[i] == x;
      assert (chain[..p] + chain[p + 1..])[if i < p then i else i - 1] == x;
    }
  }

  // ------------------------------------------------------------------ resizing

  /** The entries before place (i, j), chain by chain, are moved, and no others. */
  ghost predicate Moved(hashOf: Bytes -> nat, chains: seq<seq<LRUEntry>>, next: seq<seq<LRUEntry>>, i: nat, j: nat) {
    && Chains(hashOf, chains) && Chains(hashOf, next) && i <= |chains| && (i < |chains| ==> j <= |chains[i]|)
    && (forall c, k :: 0 <= c < |chains| && 0 <= k < |chains[c]| && (c < i || (c == i && k < j)) ==> Stored(next, chains[c][k]))
    && (forall d, k :: 0 <= d < |next| && 0 <= k < |next[d]| ==> Before(chains, next[d][k], i, j))
  }

  ghost predicate Before(chains: seq<seq<LRUEntry>>, e: LRUEntry, i: nat, j: nat) {
    exists c, k :: 0 <= c < |chains| && 0 <= k < |chains[c]| && (c < i || (c == i && k < j)) && chains[c][k] == e
  }

  lemma NothingMoved(hashOf: Bytes -> nat, next: seq<seq<LRUEntry>>)
    requires next != [] && forall b :: 0 <= b < |next| ==> next[b] == []
    ensures forall chains :: Chains(hashOf, chains) ==> Moved(hashOf, chains, next, 0, 0)
  {
    forall b | 0 <= b < |next|
      ensures Chain(hashOf, |next|, b, next[b])
    {
    }
  }

  lemma MoveOne(hashOf: Bytes -> nat, chains: seq<seq<LRUEntry>>, next: seq<seq<LRUEntry>>, i: nat, j: nat)
    requires Moved(hashOf, chains, next, i, j) && i < |chains| && j < |chains[i]|
    ensures var e := chains[i][j];
            var b := e.hash % |next|;
            Moved(hashOf, chains, next[b := [e] + next[b]], i, j + 1)
  {
    var e := chains[i][j];
    var b := e.hash % |next|;
    var next' := next[b := [e] + next[b]];
    assert Chain(hashOf, |chains|, i, chains[i]);
    forall d | 0 <= d < |next'|
      ensures Chain(hashOf, |next'|, d, next'[d])
    {
      assert Chain(hashOf, |next|, d, next[d]);
      if d == b {
        forall k | 0 <= k < |next[b]|
          ensures next[b][k].key != e.key
        {
          assert Before(chains, next[b][k], i, j);
          var c, h :| 0 <= c < |chains| && 0 <= h < |chains[c]| && (c < i || (c == i && h < j)) && chains[c][h] == next[b][k];
          KeyOnce(hashOf, chains, i, j, c, h);
        }
      }
    }
    forall c, k | 0 <= c < |chains| && 0 <= k < |chains[c]| && (c < i || (c == i && k < j + 1))
      ensures Stored(next', chains[c][k])
    {
      if c == i && k == j {
        assert next'[b][0] == e;
      } else {
        assert Stored(next, chains[c][k]);
      }
    }
    forall d, k | 0 <= d < |next'| && 0 <= k < |next'[d]|
      ensures Before(chains, next'[d][k], i, j + 1)
    {
      if d == b && k == 0 {
        assert chains[i][j] == e;
      } else {
        assert Before(chains, next[d][if d == b then k - 1 else k], i, j);
      }
    }
  }

  lemma ChainMoved(hashOf: Bytes -> nat, chains: seq<seq<LRUEntry>>, next: seq<seq<LRUEntry>>, i: nat)
    requires i < |chains| && Moved(hashOf, chains, next, i, |chains[i]|)
    ensures Moved(hashOf, chains, next, i + 1, 0)
  {
    forall d, k | 0 <= d < |next| && 0 <= k < |next[d]|
      ensures Before(chains, next[d][k], i + 1, 0)
    {
      assert Before(chains, next[d][k], i, |chains[i]|);
    }
  }

  lemma AllMoved(hashOf: Bytes -> nat, chains: seq<seq<LRUEntry>>, next: seq<seq<LRUEntry>>, m: map<Bytes, LRUEntry>)
    requires Moved(hashOf, chains, next, |chains|, 0) && Holds(chains, m)
    ensures Chains(hashOf, next) && Holds(next, m)
  {
    forall k | k in m
      ensures Stored(next, m[k])
    {
      assert Stored(chains, m[k]);
      var b := m[k].hash % |chains|;
      var i :| 0 <= i < |chains[b]| && chains[b][i] == m[k];
    }
    forall d, k | 0 <= d < |next| && 0 <= k < |next[d]|
      ensures next[d][k].key in m && m[next[d][k].key] == next[d][k]
    {
      assert Before(chains, next[d][k], |chains|, 0);
    }
  }
}

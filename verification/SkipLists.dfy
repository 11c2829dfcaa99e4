/** The memtable's skip list (db/skiplist.cc): linked nodes with several levels of forward pointers. */
module SkipLists {
  import opened Keys
  import opened Runs
  import opened Cursors

  const MAX_HEIGHT: nat := 12

  class Node {
    const entry: Entry
    var next: seq<Node?>

    constructor (entry: Entry, height: nat)
      ensures this.entry == entry && |next| == height && forall i :: 0 <= i < height ==> next[i] == null
    {
      this.entry := entry;
      next := seq(height, _ => null);
    }
  }

  function Entries(list: seq<Node>): (r: seq<Entry>)
    ensures |r| == |list|
    ensures forall i :: 0 <= i < |list| ==> r[i] == list[i].entry
  {
    if list == [] then [] else Entries(list[..|list| - 1]) + [list[|list| - 1].entry]
  }

  /** Where a key belongs on a level. */
  function Below(list: seq<Node>, target: InternalKey): (r: nat)
    ensures r <= |list|
  {
    LowerBound(Entries(list), target)
  }

  /** The node before position `j` of a level; the head stands before the first. */
  function Before(head: Node, list: seq<Node>, j: nat): Node
    requires j <= |list|
  {
    if j == 0 then head else list[j - 1]
  }

  function AtOrNull(list: seq<Node>, j: nat): Node? {
    if j < |list| then list[j] else null
  }

  // ------------------------------------------------------------------ what the levels look like

  /** Every level is in order and a part of the level below; upper levels may be empty. */
  ghost predicate Tower(head: Node, lists: seq<seq<Node>>) {
    && |lists| == MAX_HEIGHT
    && (forall l :: 0 <= l < MAX_HEIGHT ==> Sorted(Entries(lists[l])))
    && (forall l, n :: 0 <= l < MAX_HEIGHT && n in lists[l] ==> n in lists[0])
    && (forall l: nat :: 1 <= l < MAX_HEIGHT ==> PartOfBelow(lists, l))
    && head !in lists[0]
  }

  ghost predicate PartOfBelow(lists: seq<seq<Node>>, l: nat)
    requires 1 <= l < |lists|
  {
    forall n :: n in lists[l] ==> n in lists[l - 1]
  }

  ghost predicate LinkedAt(head: Node, list: seq<Node>, l: nat, j: nat)
    requires j <= |list|
    reads Before(head, list, j)
  {
    var n := Before(head, list, j);
    l < |n.next| && n.next[l] == AtOrNull(list, j)
  }

  ghost predicate Linked(head: Node, list: seq<Node>, l: nat)
    reads head, list
  {
    forall j :: 0 <= j <= |list| ==> LinkedAt(head, list, l, j)
  }

  lemma BelowIs(list: seq<Node>, target: InternalKey, j: nat)
    requires Sorted(Entries(list)) && j <= |list|
    requires j > 0 ==> Less(list[j - 1].entry.k, target)
    requires j < |list| ==> !Less(list[j].entry.k, target)
    ensures Below(list, target) == j
  {
    hide Sorted, LowerBound, Less, Entries;
    LowerBoundAt(Entries(list), target, j);
  }

  lemma BelowSplits(list: seq<Node>, target: InternalKey)
    requires Sorted(Entries(list))
    ensures forall i :: 0 <= i < Below(list, target) ==> Less(list[i].entry.k, target)
    ensures forall i :: Below(list, target) <= i < |list| ==> !Less(list[i].entry.k, target)
  {
    hide Sorted, LowerBound, Less, Entries;
    forall i: nat | i < |list|
      ensures i < Below(list, target) <==> Less(list[i].entry.k, target)
    {
      BelowTarget(Entries(list), target, i);
    }
  }

  /** A node of a level stands somewhere on the level below. */
  lemma StandsBelow(head: Node, lists: seq<seq<Node>>, l: nat, n: Node) returns (j: nat)
    requires Tower(head, lists) && 1 <= l < MAX_HEIGHT && n in lists[l]
    ensures j < |lists[l - 1]| && lists[l - 1][j] == n
  {
    assert PartOfBelow(lists, l);
    j :| 0 <= j < |lists[l - 1]| && lists[l - 1][j] == n;
  }

  /** An entry of some height is on as many levels, from the bottom up, and on no other. */
  ghost predicate LevelAfter(before: seq<seq<Node>>, lists: seq<seq<Node>>, l: nat, height: nat, entry: Entry)
    requires l < |before| && l < |lists|
  {
    if l < height then Entries(lists[l]) == InsertEntry(Entries(before[l]), entry) else lists[l] == before[l]
  }

  class SkipList {
    const head: Node
    var maxHeight: nat
    /** The nodes of each level in order. */
    ghost var lists: seq<seq<Node>>

    constructor ()
      ensures Ok() && Contents() == [] && fresh(head)
    {
      head := new Node(Entry(InternalKey(0.0, 0, Deletion), []), MAX_HEIGHT);
      maxHeight := 1;
      lists := seq(MAX_HEIGHT, _ => []);
    }

    ghost function Nodes(): set<Node>
      reads this
    {
      if |lists| == 0 then {} else set n | n in lists[0]
    }

    ghost predicate Ok()
      reads this, head, Nodes()
    {
      && Tower(head, lists) && 1 <= maxHeight <= MAX_HEIGHT
      && (forall l :: maxHeight <= l < MAX_HEIGHT ==> lists[l] == [])
      && forall l :: 0 <= l < MAX_HEIGHT ==> Linked(head, lists[l], l)
    }

    /** The stored entries in order. */
    ghost function Contents(): seq<Entry>
      requires |lists| == MAX_HEIGHT
      reads this
    {
      Entries(lists[0])
    }

    /** Every search comes down the levels along the nodes before the target. */
    method FindGreaterOrEqual(target: InternalKey) returns (next: Node?, prev: seq<Node>)
      requires Ok()
      ensures next == AtOrNull(lists[0], Below(lists[0], target))
      ensures |prev| == maxHeight
      ensures forall l :: 0 <= l < maxHeight ==> prev[l] == Before(head, lists[l], Below(lists[l], target))
    {
      hide Sorted, LowerBound, Less, Entries, Below;
      var x, level := head, maxHeight - 1;
      ghost var j: nat := 0;
      prev := seq(maxHeight, _ => head);
      while true
        invariant 0 <= level < maxHeight == |prev|
        invariant j <= |lists[level]| && x == Before(head, lists[level], j)
        invariant j > 0 ==> Less(x.entry.k, target)
        invariant forall l :: level < l < maxHeight ==> prev[l] == Before(head, lists[l], Below(lists[l], target))
        decreases level, |lists[level]| - j
      {
        assert LinkedAt(head, lists[level], level, j);
        next := x.next[level];
        if next != null && Less(next.entry.k, target) {
          x := next;
          j := j + 1;
        } else {
          BelowIs(lists[level], target, j);
          prev := prev[level := x];
          if level == 0 {
            return;
          }
          if j > 0 {
            j := StandsBelow(head, lists, level, x);
            j := j + 1;
          }
          level := level - 1;
        }
      }
    }

    /** The last node before the target, or the head. */
    method FindLessThan(target: InternalKey) returns (x: Node)
      requires Ok()
      ensures x == Before(head, lists[0], Below(lists[0], target))
    {
      x := head;
      var level := maxHeight - 1;
      ghost var j: nat := 0;
      while true
        invariant 0 <= level < maxHeight
        invariant j <= |lists[level]| && x == Before(head, lists[level], j)
        invariant j > 0 ==> Less(x.entry.k, target)
        decreases level, |lists[level]| - j
      {
        assert LinkedAt(head, lists[level], level, j);
        var next := x.next[level];
        if next == null || !Less(next.entry.k, target) {
          BelowIs(lists[level], target, j);
          if level == 0 {
            return;
          }
          if j > 0 {
            j := StandsBelow(head, lists, level, x);
            j := j + 1;
          }
          level := level - 1;
        } else {
          x := next;
          j := j + 1;
        }
      }
    }

    /** The last node, or the head of an empty list. */
    method FindLast() returns (x: Node)
      requires Ok()
      ensures x == Before(head, lists[0], |lists[0]|)
    {
      x := head;
      var level := maxHeight - 1;
      ghost var j: nat := 0;
      while true
        invariant 0 <= level < maxHeight
        invariant j <= |lists[level]| && x == Before(head, lists[level], j)
        decreases level, |lists[level]| - j
      {
        assert LinkedAt(head, lists[level], level, j);
        var next := x.next[level];
        if next == null {
          if level == 0 {
            return;
          }
          if j > 0 {
            j := StandsBelow(head, lists, level, x);
            j := j + 1;
          }
          level := level - 1;
        } else {
          x := next;
          j := j + 1;
        }
      }
    }

    method Contains(key: InternalKey) returns (r: bool)
      requires Ok()
      ensures r <==> exists e :: e in Contents() && e.k == key
    {
      var x, prev := FindGreaterOrEqual(key);
      r := x != null && x.entry.k == key;
      BelowSplits(lists[0], key);
      if r {
        assert Contents()[Below(lists[0], key)].k == key;
      } else {
        forall e | e in Contents()
          ensures e.k != key
        {
          if e.k == key {
            var i :| 0 <= i < |lists[0]| && Contents()[i] == e;
            KeyIsHere(lists[0], key, i);
          }
        }
      }
    }

    /** Adds an entry whose key is not stored yet, on as many levels as the random height says. */
    method Insert(entry: Entry, height: nat)
      requires Ok() && 1 <= height <= MAX_HEIGHT
      requires forall e :: e in Contents() ==> e.k != entry.k
      modifies this, head, Nodes()
      ensures Ok() && Contents() == InsertEntry(old(Contents()), entry)
      ensures forall l :: 0 <= l < MAX_HEIGHT ==> LevelAfter(old(lists), lists, l, height, entry)
      ensures maxHeight == if old(maxHeight) < height then height else old(maxHeight)
      ensures fresh(Nodes() - old(Nodes()))
    {
      hide Sorted, LowerBound, Less, Entries, Below, InsertEntry;
      var next, prev := FindGreaterOrEqual(entry.k);
      assert Absent(lists[0], entry.k) by {
        forall i | 0 <= i < |lists[0]|
          ensures lists[0][i].entry.k != entry.k
        {
          assert Contents()[i] in Contents();
        }
      }
      if height > maxHeight {
        for i := maxHeight to height
          invariant |prev| == i && unchanged(this) && unchanged(head) && unchanged(Nodes())
          invariant forall l :: 0 <= l < i ==> prev[l] == Before(head, lists[l], Below(lists[l], entry.k))
        {
          BelowEmpty(entry.k);
          prev := prev + [head];
        }
        maxHeight := height;
      }
      var x := new Node(entry, height);
      ghost var was := lists[0];
      LinkLevels(x, height, prev);
      InsertedInOrder(was, x);
    }

    /** Links the new node in on its levels, from the bottom up. */
    method LinkLevels(x: Node, height: nat, prev: seq<Node>)
      requires Ok() && 1 <= height <= maxHeight == |prev| && |x.next| == height && x != head
      requires Absent(lists[0], x.entry.k) && x !in lists[0]
      requires forall l :: 0 <= l < maxHeight ==> prev[l] == Before(head, lists[l], Below(lists[l], x.entry.k))
      modifies this`lists, head, Nodes(), x
      ensures Ok() && lists[0] == Inserted(old(lists)[0], Below(old(lists)[0], x.entry.k), x)
      ensures forall l :: 0 <= l < MAX_HEIGHT ==> LevelAfter(old(lists), lists, l, height, x.entry)
    {
      hide Sorted, LowerBound, Less, Entries, Below, InsertEntry;
      ghost var was := lists;
      assert Tower(head, was);
      for i := 0 to height
        invariant Ok() && |x.next| == height
        invariant forall l :: i <= l < MAX_HEIGHT ==> lists[l] == was[l]
        invariant forall l :: 0 <= l < i ==> Entries(lists[l]) == InsertEntry(Entries(was[l]), x.entry)
        invariant i > 0 ==> lists[0] == Inserted(was[0], Below(was[0], x.entry.k), x) && x in lists[i - 1]
        invariant i == 0 ==> lists == was
      {
        assert prev[i] == head || prev[i] in was[0];
        assert x !in was[i];
        Link(x, i, prev[i]);
      }
    }

    /** One level of an insertion: the two pointer stores that put `x` behind `p`.  All searches stay right. */
    method Link(x: Node, i: nat, p: Node)
      requires Ok() && i < maxHeight && x != head && i < |x.next|
      requires if i == 0 then Absent(lists[0], x.entry.k) && x !in lists[0] else x in lists[i - 1] && x !in lists[i]
      requires p == Before(head, lists[i], Below(lists[i], x.entry.k))
      modifies this`lists, x`next, p`next
      ensures Ok() && lists == old(lists)[i := Inserted(old(lists)[i], Below(old(lists)[i], x.entry.k), x)]
      ensures Entries(lists[i]) == InsertEntry(Entries(old(lists)[i]), x.entry)
      ensures |x.next| == old(|x.next|)
    {
      hide Sorted, LowerBound, Less, Entries, Below;
      ghost var list, j := lists[i], Below(lists[i], x.entry.k);
      assert LinkedAt(head, list, i, j);
      TowerGrows(head, lists, i, x);
      NodesDistinct(list);
      x.next := x.next[i := p.next[i]];
      p.next := p.next[i := x];
      lists := lists[i := Inserted(list, j, x)];
      forall l | 0 <= l < MAX_HEIGHT
        ensures Linked(head, lists[l], l)
      {
        if l == i {
          forall k | 0 <= k <= |lists[i]|
            ensures LinkedAt(head, lists[i], i, k)
          {
            if k <= j {
              assert old(LinkedAt(head, list, i, k));
            } else {
              assert old(LinkedAt(head, list, i, k - 1));
            }
          }
        } else {
          forall k | 0 <= k <= |lists[l]|
            ensures LinkedAt(head, lists[l], l, k)
          {
            assert old(LinkedAt(head, lists[l], l, k));
          }
        }
      }
    }
  }

  /** SkipList::Iterator: a cursor over the contents, which a search brings back a step. */
  class SkipListIterator {
    const list: SkipList
    var node: Node?
    /** Position in the contents, or their end. */
    ghost var at: nat

    constructor (list: SkipList)
      requires list.Ok()
      ensures this.list == list && Ok() && at == |list.Contents()|
    {
      this.list, node := list, null;
      at := |list.Contents()|;
    }

    ghost predicate Ok()
      reads this, list, list.head, list.Nodes()
    {
      list.Ok() && at <= |list.lists[0]| && node == AtOrNull(list.lists[0], at)
    }

    predicate Valid()
      reads this
    {
      node != null
    }

    function Current(): Entry
      requires Valid()
      reads this, node
    {
      node.entry
    }

    lemma Presents()
      requires Ok()
      ensures Valid() <==> at < |list.Contents()|
      ensures Valid() ==> Current() == list.Contents()[at]
    {
    }

    method Next()
      requires Ok() && Valid()
      modifies this
      ensures Ok() && at == old(at) + 1
    {
      assert LinkedAt(list.head, list.lists[0], 0, at + 1);
      node := node.next[0];
      at := at + 1;
    }

    method Prev()
      requires Ok() && Valid()
      modifies this
      ensures Ok() && at == PrevPos(list.Contents(), old(at))
    {
      KeyIsHere(list.lists[0], node.entry.k, at);
      var x := list.FindLessThan(node.entry.k);
      ghost var j := at;
      node := x;
      at := PrevPos(list.Contents(), at);
      if x == list.head {
        node := null;
      }
      HeadIsFirst(list.head, list.lists, j);
    }

    method Seek(target: InternalKey)
      requires Ok()
      modifies this
      ensures Ok() && at == LowerBound(list.Contents(), target)
    {
      ghost var prev;
      node, prev := list.FindGreaterOrEqual(target);
      at := Below(list.lists[0], target);
    }

    method SeekToFirst()
      requires Ok()
      modifies this
      ensures Ok() && at == 0
    {
      assert LinkedAt(list.head, list.lists[0], 0, 0);
      node := list.head.next[0];
      at := 0;
    }

    method SeekToLast()
      requires Ok()
      modifies this
      ensures Ok() && at == PrevPos(list.Contents(), |list.Contents()|)
    {
      node := list.FindLast();
      at := PrevPos(list.Contents(), |list.Contents()|);
      ghost var x := node;
      HeadIsFirst(list.head, list.lists, |list.lists[0]|);
      if node == list.head {
        node := null;
      }
    }
  }

  /** Only the position before the first is the head's. */
  lemma HeadIsFirst(head: Node, lists: seq<seq<Node>>, j: nat)
    requires Tower(head, lists) && j <= |lists[0]|
    ensures Before(head, lists[0], j) == head <==> j == 0
  {
    if j > 0 {
      assert lists[0][j - 1] in lists[0];
    }
  }

  // ------------------------------------------------------------------ insertion on the levels

  function Inserted(list: seq<Node>, j: nat, x: Node): seq<Node>
    requires j <= |list|
  {
    list[..j] + [x] + list[j..]
  }

  ghost predicate Absent(list: seq<Node>, key: InternalKey) {
    forall i :: 0 <= i < |list| ==> list[i].entry.k != key
  }

  lemma NodesDistinct(list: seq<Node>)
    requires Sorted(Entries(list))
    ensures forall i, j :: 0 <= i < j < |list| ==> list[i] != list[j]
  {
    hide Entries, Sorted, Less;
    forall i, j | 0 <= i < j < |list|
      ensures list[i] != list[j]
    {
      IndexOrder(Entries(list), i, j);
    }
  }

  lemma BelowEmpty(target: InternalKey)
    ensures Below([], target) == 0
  {
  }

  /** Two nodes of the bottom level have different keys. */
  lemma KeysDiffer(list: seq<Node>, a: Node, b: Node)
    requires Sorted(Entries(list)) && a in list && b in list && a != b
    ensures a.entry.k != b.entry.k
  {
    hide Entries, Sorted;
    var i :| 0 <= i < |list| && list[i] == a;
    var j :| 0 <= j < |list| && list[j] == b;
    IndexOrder(Entries(list), i, j);
  }

  lemma InsertedInOrder(list: seq<Node>, x: Node)
    requires Sorted(Entries(list)) && Absent(list, x.entry.k)
    ensures Sorted(Entries(Inserted(list, Below(list, x.entry.k), x)))
    ensures Entries(Inserted(list, Below(list, x.entry.k), x)) == InsertEntry(Entries(list), x.entry)
  {
    hide Entries, LowerBound, InsertEntry, Sorted, Less;
    var es, j := Entries(list), Below(list, x.entry.k);
    InsertEntryAt(es, x.entry);
    var r := Entries(Inserted(list, j, x));
    assert r == es[..j] + [x.entry] + es[j..];
    InsertEntrySorted(es, x.entry);
  }

  lemma {:induction false} InsertEntryAt(s: seq<Entry>, e: Entry)
    requires Sorted(s) && forall i :: 0 <= i < |s| ==> s[i].k != e.k
    ensures InsertEntry(s, e) == s[..LowerBound(s, e.k)] + [e] + s[LowerBound(s, e.k)..]
  {
    if s != [] {
      var n := |s| - 1;
      if Less(e.k, s[n].k) {
        InsertEntryAt(s[..n], e);
        var r := LowerBound(s[..n], e.k);
        assert s[..n][..r] == s[..r] && s[..n][r..] + [s[n]] == s[r..];
      }
    }
  }

  lemma TowerGrows(head: Node, lists: seq<seq<Node>>, i: nat, x: Node)
    requires Tower(head, lists) && i < MAX_HEIGHT && x != head
    requires if i == 0 then Absent(lists[0], x.entry.k) else x in lists[i - 1] && x !in lists[i]
    ensures Tower(head, lists[i := Inserted(lists[i], Below(lists[i], x.entry.k), x)])
    ensures Entries(Inserted(lists[i], Below(lists[i], x.entry.k), x)) == InsertEntry(Entries(lists[i]), x.entry)
  {
    hide Sorted, Below, Entries;
    var list := lists[i];
    if i > 0 {
      assert x in lists[0];
      forall k | 0 <= k < |list|
        ensures list[k].entry.k != x.entry.k
      {
        KeysDiffer(lists[0], list[k], x);
      }
    }
    InsertedInOrder(list, x);
    var next := lists[i := Inserted(list, Below(list, x.entry.k), x)];
    assert forall n :: n in next[i] <==> n in list || n == x;
    forall l: nat | 1 <= l < MAX_HEIGHT
      ensures PartOfBelow(next, l)
    {
      assert PartOfBelow(lists, l);
    }
  }

  lemma KeyIsHere(list: seq<Node>, key: InternalKey, i: nat)
    requires Sorted(Entries(list)) && i < |list| && list[i].entry.k == key
    ensures Below(list, key) == i
  {
    hide Sorted, LowerBound, Less, Entries;
    if i > 0 {
      IndexOrder(Entries(list), i - 1, i);
    }
    IndexOrder(Entries(list), i, i);
    BelowIs(list, key, i);
  }
}

/** The memtable (db/memtable.cc): a skip list of versions, read by seeking to a lookup key. */
module MemTables {
  import opened Keys
  import opened Runs
  import opened Cursors
  import opened PointLookup
  import opened SkipLists

  class MemTable {
    const table: SkipList

    constructor ()
      ensures Ok() && Contents() == [] && fresh(table) && fresh(table.head)
    {
      table := new SkipList();
    }

    ghost predicate Ok()
      reads this, table, table.head, table.Nodes()
    {
      table.Ok()
    }

    ghost function Contents(): seq<Entry>
      requires |table.lists| == MAX_HEIGHT
      reads this, table
    {
      table.Contents()
    }

    /** One version; its sequence number is new, so its key is. */
    method Add(seqno: nat, kind: Kind, user: UserKey, value: Bytes, height: nat)
      requires Ok() && 1 <= height <= MAX_HEIGHT
      requires forall e :: e in Contents() ==> e.k != InternalKey(user, seqno, kind)
      modifies table, table.head, table.Nodes()
      ensures Ok() && Contents() == InsertEntry(old(Contents()), Entry(InternalKey(user, seqno, kind), value))
      ensures fresh(table.Nodes() - old(table.Nodes()))
    {
      table.Insert(Entry(InternalKey(user, seqno, kind), value), height);
    }

    /** The entry found for `user` at sequence `s`: the newest version not above it, whatever its type. */
    method Get(user: UserKey, s: nat) returns (r: Option<Entry>)
      requires Ok()
      ensures r == RunGet(Contents(), user, s)
      ensures FindsNewest(SetOf(Contents()), user, s, r)
    {
      RunGetFindsNewest(Contents(), user, s);
      RunGetAtBound(Contents(), user, s);
      var iter := new SkipListIterator(table);
      iter.Seek(SeekKey(user, s));
      iter.Presents();
      if !iter.Valid() {
        return None;
      }
      var entry := iter.Current();
      if entry.k.user != user {
        return None;
      }
      r := Some(entry);
    }
  }

  lemma {:induction false} RunGetAtBound(entries: seq<Entry>, u: UserKey, s: nat)
    requires Sorted(entries)
    ensures var j := LowerBound(entries, SeekKey(u, s));
            RunGet(entries, u, s) == if j < |entries| && entries[j].k.user == u then Some(entries[j]) else None
  {
    var target := SeekKey(u, s);
    if entries != [] {
      var rest := entries[1..];
      if Less(entries[0].k, target) {
        RunGetAtBound(rest, u, s);
        var j := LowerBound(rest, target);
        if j > 0 {
          BelowTarget(rest, target, j - 1);
        }
        if j < |rest| {
          BelowTarget(rest, target, j);
        }
        hide Sorted, Less;
        LowerBoundAt(entries, target, j + 1);
      } else {
        LowerBoundAt(entries, target, 0);
      }
    }
  }
}

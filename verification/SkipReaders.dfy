/** Readers of the skip list while a writer links nodes level by level (db/skiplist.cc): every pointer
    load and every publishing store is a step, in any order. */
module SkipReaders {
  import opened Keys
  import opened Runs
  import opened Cursors

  const LEVELS: nat := 12

  ghost predicate Tower(lists: seq<seq<Entry>>) {
    && |lists| == LEVELS
    && (forall l :: 0 <= l < LEVELS ==> Sorted(lists[l]))
    && forall l: nat :: 1 <= l < LEVELS ==> PartOfBelow(lists, l)
  }

  ghost predicate PartOfBelow(lists: seq<seq<Entry>>, l: nat)
    requires 1 <= l < |lists|
  {
    forall e :: e in lists[l] ==> e in lists[l - 1]
  }

  /** A search under way: the node it stands on (none for the head) and its level; or its result. */
  datatype Reader = Seeking(target: InternalKey, at: Option<Entry>, level: nat) | Found(target: InternalKey, next: Option<Entry>)

  /** The forward pointer of a node on a level. */
  function NextOf(list: seq<Entry>, at: Option<Entry>): Option<Entry> {
    var p := if at.None? then 0 else LowerBound(list, at.value.k) + 1;
    if p < |list| then Some(list[p]) else None
  }

  /** One pointer load, and going right, down, or stopping. */
  function ReadStep(lists: seq<seq<Entry>>, r: Reader): Reader
    requires r.Seeking? && r.level < |lists|
  {
    var next := NextOf(lists[r.level], r.at);
    if next.Some? && Less(next.value.k, r.target) then Seeking(r.target, next, r.level)
    else if r.level == 0 then Found(r.target, next)
    else Seeking(r.target, r.at, r.level - 1)
  }

  /** One publishing store of an insertion. */
  function LinkStep(lists: seq<seq<Entry>>, l: nat, e: Entry): seq<seq<Entry>>
    requires l < |lists|
  {
    lists[l := InsertEntry(lists[l], e)]
  }

  datatype Event = Read | Link(level: nat, entry: Entry)

  datatype State = State(lists: seq<seq<Entry>>, reader: Reader)

  ghost predicate KeyAbsent(list: seq<Entry>, e: Entry) {
    forall i :: 0 <= i < |list| ==> list[i].k != e.k
  }

  /** Nodes are published from the bottom level up. */
  ghost predicate Enabled(s: State, ev: Event) {
    && |s.lists| == LEVELS
    && match ev
       case Read => s.reader.Seeking? && s.reader.level < LEVELS
       case Link(l, e) => l < LEVELS && KeyAbsent(s.lists[l], e) && (l == 0 || e in s.lists[l - 1])
  }

  function After(s: State, ev: Event): State
    requires Enabled(s, ev)
  {
    match ev
    case Read => s.(reader := ReadStep(s.lists, s.reader))
    case Link(l, e) => s.(lists := LinkStep(s.lists, l, e))
  }

  ghost predicate Ok(s: State) {
    && Tower(s.lists)
    && match s.reader
       case Seeking(target, at, level) => level < LEVELS && (at.Some? ==> at.value in s.lists[level] && Less(at.value.k, target))
       case Found(target, next) => true
  }

  /** The first stored entry not before the target. */
  function FirstFrom(list: seq<Entry>, target: InternalKey): Option<Entry> {
    var r := LowerBound(list, target);
    if r < |list| then Some(list[r]) else None
  }

  lemma LinkKeepsTower(lists: seq<seq<Entry>>, l: nat, e: Entry)
    requires Tower(lists) && l < LEVELS && KeyAbsent(lists[l], e) && (l == 0 || e in lists[l - 1])
    ensures Tower(LinkStep(lists, l, e))
    ensures forall m, x :: 0 <= m < LEVELS && x in lists[m] ==> x in LinkStep(lists, l, e)[m]
  {
    hide Sorted, InsertEntry;
    var next := LinkStep(lists, l, e);
    SortedByTag(lists[l], e);
    forall x ensures x in next[l] <==> x in lists[l] || x == e {
      InsertEntryMembers(lists[l], e, x);
    }
    forall m: nat | 1 <= m < LEVELS
      ensures PartOfBelow(next, m)
    {
      assert PartOfBelow(lists, m);
    }
  }

  lemma SortedByTag(list: seq<Entry>, e: Entry)
    requires Sorted(list) && KeyAbsent(list, e)
    ensures Sorted(InsertEntry(list, e))
  {
    InsertEntrySorted(list, e);
  }

  lemma PositionOf(list: seq<Entry>, e: Entry) returns (p: nat)
    requires Sorted(list) && e in list
    ensures p < |list| && list[p] == e && LowerBound(list, e.k) == p
  {
    p :| 0 <= p < |list| && list[p] == e;
    if p > 0 {
      IndexOrder(list, p - 1, p);
    }
    IndexOrder(list, p, p);
    hide Sorted;
    LowerBoundAt(list, e.k, p);
  }

  /** A load keeps the reader behind its target; one that stops has found the first entry not before the
      target of the bottom level as it is at that load. */
  lemma ReadKeepsOk(s: State)
    requires Ok(s) && s.reader.Seeking?
    ensures var r := ReadStep(s.lists, s.reader);
            Ok(State(s.lists, r)) && (r.Found? ==> r.next == FirstFrom(s.lists[0], r.target))
  {
    hide Sorted, LowerBound;
    var r, list := s.reader, s.lists[s.reader.level];
    var p: nat := 0;
    if r.at.Some? {
      p := PositionOf(list, r.at.value);
      p := p + 1;
    }
    assert NextOf(list, r.at) == if p < |list| then Some(list[p]) else None;
    if r.level == 0 {
      if p == |list| || !Less(list[p].k, r.target) {
        LowerBoundAt(list, r.target, p);
      }
    } else {
      assert PartOfBelow(s.lists, r.level);
    }
  }

  lemma StepKeepsOk(s: State, ev: Event)
    requires Ok(s) && Enabled(s, ev)
    ensures Ok(After(s, ev)) && After(s, ev).reader.target == s.reader.target
    ensures forall x :: x in s.lists[0] ==> x in After(s, ev).lists[0]
  {
    match ev
    case Read => ReadKeepsOk(s);
    case Link(l, e) => LinkKeepsTower(s.lists, l, e);
  }

  /** States reached from `s` by the given events, each enabled when it happens. */
  ghost predicate Reaches(s: State, events: seq<Event>, t: State) {
    if events == [] then t == s
    else
      var n := |events| - 1;
      exists before :: Reaches(s, events[..n], before) && Enabled(before, events[n]) && t == After(before, events[n])
  }

  lemma {:induction false} RunKeepsOk(s: State, events: seq<Event>, t: State)
    requires Ok(s) && Reaches(s, events, t)
    ensures Ok(t) && t.reader.target == s.reader.target && forall x :: x in s.lists[0] ==> x in t.lists[0]
  {
    if events != [] {
      var n := |events| - 1;
      var before :| Reaches(s, events[..n], before) && Enabled(before, events[n]) && t == After(before, events[n]);
      RunKeepsOk(s, events[..n], before);
      StepKeepsOk(before, events[n]);
    }
  }

  /** Whatever insertions are interleaved, a search that starts at the head on any level and finishes has
      found the first entry not before its target of the set as it was at one moment of the search; that
      set holds everything stored when the search began, and nothing not stored when it is over. */
  lemma {:induction false} SearchIsAtomic(lists: seq<seq<Entry>>, target: InternalKey, level: nat, events: seq<Event>, t: State) returns (k: nat, mid: State)
    requires Tower(lists) && level < LEVELS
    requires Reaches(State(lists, Seeking(target, None, level)), events, t) && t.reader.Found?
    ensures k < |events| && events[k] == Read && Reaches(State(lists, Seeking(target, None, level)), events[..k], mid)
    ensures |mid.lists| == LEVELS && t.reader.next == FirstFrom(mid.lists[0], target)
    ensures forall x :: x in lists[0] ==> x in mid.lists[0]
    ensures forall x :: x in mid.lists[0] ==> x in t.lists[0]
  {
    var s := State(lists, Seeking(target, None, level));
    var n := |events| - 1;
    var before :| Reaches(s, events[..n], before) && Enabled(before, events[n]) && t == After(before, events[n]);
    RunKeepsOk(s, events[..n], before);
    StepKeepsOk(before, events[n]);
    if events[n].Read? {
      ReadKeepsOk(before);
      k, mid := n, before;
    } else {
      k, mid := SearchIsAtomic(lists, target, level, events[..n], before);
      assert events[..n][..k] == events[..k];
    }
  }
}

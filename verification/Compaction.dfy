/** The compaction merge loop (db/db_impl.cc DoCompactionWork) and the two cursors it advances
    (db/version_set.cc IsBaseLevelForKey, ShouldStopBefore). */
module CompactionWork {
  import opened Keys
  import opened Files
  import opened Visibility
  import opened Runs

  // ------------------------------------------------------------------ what is kept

  /** No level below the output level has a file whose range contains `u`. */
  ghost predicate BaseLevel(deeper: seq<seq<File>>, u: UserKey) {
    forall l :: 0 <= l < |deeper| ==> !Covers(deeper[l], u)
  }

  /** Sequence number of the preceding version of the same user key, or the largest one. */
  function LastSequenceForKey(input: seq<Entry>, i: nat): nat
    requires i < |input|
  {
    if i > 0 && input[i - 1].k.user == input[i].k.user then input[i - 1].k.seqno else MAX_SEQUENCE
  }

  ghost predicate Dropped(input: seq<Entry>, i: nat, smallestSnapshot: nat, deeper: seq<seq<File>>)
    requires i < |input|
  {
    || LastSequenceForKey(input, i) <= smallestSnapshot
    || (&& input[i].k.kind.Deletion?
        && input[i].k.seqno <= smallestSnapshot
        && BaseLevel(deeper, input[i].k.user))
  }

  /** The entries among the first `n` that reach an output. */
  ghost function Kept(input: seq<Entry>, n: nat, smallestSnapshot: nat, deeper: seq<seq<File>>): seq<Entry>
    requires n <= |input|
  {
    if n == 0 then []
    else
      var before := Kept(input, n - 1, smallestSnapshot, deeper);
      if Dropped(input, n - 1, smallestSnapshot, deeper) then before else before + [input[n - 1]]
  }

  lemma {:induction false} KeptMembers(input: seq<Entry>, n: nat, p: nat, deeper: seq<seq<File>>, e: Entry)
    requires n <= |input|
    ensures e in Kept(input, n, p, deeper) <==> exists i :: 0 <= i < n && input[i] == e && !Dropped(input, i, p, deeper)
  {
    if n > 0 {
      KeptMembers(input, n - 1, p, deeper, e);
    }
  }

  lemma SameKeyDescends(input: seq<Entry>, i: nat, j: nat)
    requires WeaklySorted(input)
    requires i < j < |input|
    ensures input[i].k.user <= input[j].k.user
    ensures input[i].k.user == input[j].k.user ==> input[i].k.seqno >= input[j].k.seqno
  {
    assert !Less(input[j].k, input[i].k);
  }

  /** Once a version at or below the smallest snapshot was seen, the rest of its key is dropped. */
  lemma OlderIsDropped(input: seq<Entry>, i: nat, j: nat, p: nat, deeper: seq<seq<File>>)
    requires WeaklySorted(input)
    requires i < j < |input|
    ensures input[i].k.user == input[j].k.user && input[i].k.seqno <= p ==> Dropped(input, j, p, deeper)
  {
    if j - 1 > i {
      SameKeyDescends(input, i, j - 1);
    }
    SameKeyDescends(input, j - 1, j);
  }

  /** The output is strictly sorted, so the table builder's order assertion always holds. */
  lemma {:induction false} KeptSorted(input: seq<Entry>, n: nat, p: nat, deeper: seq<seq<File>>)
    requires WeaklySorted(input) && RepeatsUpTo(input, p)
    requires n <= |input|
    ensures Sorted(Kept(input, n, p, deeper))
  {
    if n > 0 {
      KeptSorted(input, n - 1, p, deeper);
      if !Dropped(input, n - 1, p, deeper) {
        var before := Kept(input, n - 1, p, deeper);
        forall i | 0 <= i < |before|
          ensures Less(before[i].k, input[n - 1].k)
        {
          KeptMembers(input, n - 1, p, deeper, before[i]);
          var j :| 0 <= j < n - 1 && input[j] == before[i] && !Dropped(input, j, p, deeper);
          assert !Less(input[n - 1].k, input[j].k);
          OlderIsDropped(input, j, n - 1, p, deeper);
          assert input[j].k == input[n - 1].k ==> input[j].k.seqno <= p;
        }
      }
    }
  }

  /** If a version disappears from the merge, so does every version it hides. */
  lemma DroppedHidesOlder(input: seq<Entry>, p: nat, deeper: seq<seq<File>>, e: Entry, f: Entry)
    requires WeaklySorted(input) && Consistent(SetOf(input))
    requires p < MAX_SEQUENCE
    requires e in input && f in input && e.k.user == f.k.user && f.k.seqno <= e.k.seqno
    requires e !in Kept(input, |input|, p, deeper)
    ensures f !in Kept(input, |input|, p, deeper)
  {
    var i := FirstIndex(input, e);
    KeptMembers(input, |input|, p, deeper, e);
    KeptMembers(input, |input|, p, deeper, f);
    forall j | 0 <= j < |input| && input[j] == f
      ensures Dropped(input, j, p, deeper)
    {
      if f.k.seqno == e.k.seqno {
        assert e in SetOf(input) && f in SetOf(input);
        assert f == e;
      } else {
        if j < i {
          SameKeyDescends(input, j, i);
        }
        assert i < j;
        assert Dropped(input, i, p, deeper);
        if LastSequenceForKey(input, i) <= p {
          OlderIsDropped(input, i - 1, j, p, deeper);
        } else {
          OlderIsDropped(input, i, j, p, deeper);
        }
      }
    }
  }

  lemma FirstIndex(input: seq<Entry>, e: Entry) returns (i: nat)
    requires e in input
    ensures i < |input| && input[i] == e
    ensures forall j :: 0 <= j < i ==> input[j] != e
  {
    i := 0;
    while input[i] != e
      invariant i < |input|
      invariant forall j :: 0 <= j < i ==> input[j] != e
      invariant exists j :: i <= j < |input| && input[j] == e
      decreases |input| - i
    {
      i := i + 1;
    }
  }

  /** For a reader at `s`: if something outside the merge holds a version of a dropped tombstone's key
      that is not newer, the tombstone is stored outside as well, or the reader sees a newer version. */
  ghost predicate TombstonesCovered(rest: set<Entry>, input: seq<Entry>, p: nat, deeper: seq<seq<File>>, s: nat) {
    forall e, r ::
      (&& e in input && r in rest && e.k.kind.Deletion? && e.k.seqno <= p && BaseLevel(deeper, e.k.user)
       && r.k.user == e.k.user && r.k.seqno <= e.k.seqno)
      ==> e in rest || exists y :: VersionOf(rest + SetOf(input), e.k.user, s, y) && e.k.seqno < y.k.seqno
  }

  /** Replacing the merge's inputs by its outputs changes no read at or above the smallest snapshot. */
  lemma CompactionPreservesReads(rest: set<Entry>, input: seq<Entry>, p: nat, deeper: seq<seq<File>>, u: UserKey, s: nat)
    requires WeaklySorted(input) && Consistent(rest + SetOf(input))
    requires p < MAX_SEQUENCE && p <= s
    requires TombstonesCovered(rest, input, p, deeper, s)
    ensures Read(rest + SetOf(Kept(input, |input|, p, deeper)), u, s) == Read(rest + SetOf(input), u, s)
  {
    var kept := Kept(input, |input|, p, deeper);
    var S, S' := rest + SetOf(input), rest + SetOf(kept);
    assert S' <= S by {
      forall e | e in kept ensures e in input { KeptMembers(input, |input|, p, deeper, e); }
    }
    if forall e :: !VersionOf(S, u, s, e) {
      assert forall e :: VersionOf(S', u, s, e) ==> VersionOf(S, u, s, e);
      ReadAbsent(S, u, s);
      ReadAbsent(S', u, s);
    } else {
      var n := NewestExists(S, u, s);
      ReadNewest(S, u, s, n);
      if n in S' {
        assert Newest(S', u, s, n);
        ReadNewest(S', u, s, n);
      } else {
        NewestDroppedIsTombstone(rest, input, p, deeper, u, s, n);
        assert Consistent(SetOf(input));
        forall x | x in kept && x.k.user == u && x.k.seqno <= s
          ensures false
        {
          assert VersionOf(S, u, s, x);
          KeptMembers(input, |input|, p, deeper, x);
          DroppedHidesOlder(input, p, deeper, n, x);
        }
        assert forall x :: VersionOf(S', u, s, x) ==> VersionOf(S, u, s, x) && x.k.seqno <= n.k.seqno;
        ReadAbsent(S', u, s);
      }
    }
  }

  /** A newest visible version can only be dropped by the tombstone rule. */
  lemma NewestDroppedIsTombstone(rest: set<Entry>, input: seq<Entry>, p: nat, deeper: seq<seq<File>>, u: UserKey, s: nat, n: Entry)
    requires WeaklySorted(input) && Consistent(rest + SetOf(input))
    requires p < MAX_SEQUENCE && p <= s
    requires Newest(rest + SetOf(input), u, s, n)
    requires n in input && n !in Kept(input, |input|, p, deeper)
    ensures n.k.kind.Deletion? && n.k.seqno <= p && BaseLevel(deeper, n.k.user)
  {
    var i := FirstIndex(input, n);
    KeptMembers(input, |input|, p, deeper, n);
    assert Dropped(input, i, p, deeper);
    assert i > 0 ==> input[i - 1] != n && input[i - 1] in SetOf(input);
    assert n in SetOf(input);
    if i > 0 && input[i - 1].k.user == u {
      SameKeyDescends(input, i - 1, i);
      assert input[i - 1].k.seqno <= s ==> VersionOf(rest + SetOf(input), u, s, input[i - 1]);
    }
  }

  /** A dropped version of a key that lives deeper is hidden by a kept version at or below the smallest
      snapshot. */
  lemma HiddenByKept(input: seq<Entry>, p: nat, deeper: seq<seq<File>>, x: Entry) returns (y: Entry)
    requires WeaklySorted(input) && p < MAX_SEQUENCE
    requires x in input && x !in Kept(input, |input|, p, deeper)
    requires !BaseLevel(deeper, x.k.user)
    ensures y in Kept(input, |input|, p, deeper)
    ensures y.k.user == x.k.user && x.k.seqno <= y.k.seqno <= p
  {
    var i := FirstIndex(input, x);
    KeptMembers(input, |input|, p, deeper, x);
    assert Dropped(input, i, p, deeper);
    var j := i - 1;
    while j > 0 && input[j - 1].k.user == x.k.user && input[j - 1].k.seqno <= p
      invariant 0 <= j < i && input[j].k.user == x.k.user && input[j].k.seqno <= p
    {
      j := j - 1;
    }
    y := input[j];
    assert !Dropped(input, j, p, deeper);
    KeptMembers(input, |input|, p, deeper, y);
    SameKeyDescends(input, j, i);
  }

  /** What must be kept, and nothing else: every version above the smallest snapshot, and of each key the newest one
      not above it, unless that is a tombstone with nothing below. */
  lemma KeptExactly(input: seq<Entry>, p: nat, deeper: seq<seq<File>>, e: Entry)
    requires WeaklySorted(input) && Consistent(SetOf(input)) && p < MAX_SEQUENCE && e in input
    ensures e in Kept(input, |input|, p, deeper) <==>
              p < e.k.seqno || (Newest(SetOf(input), e.k.user, p, e) && !(e.k.kind.Deletion? && BaseLevel(deeper, e.k.user)))
  {
    hide BaseLevel, Less;
    var i := FirstIndex(input, e);
    KeptMembers(input, |input|, p, deeper, e);
    if p < e.k.seqno {
      KeptAbove(input, p, deeper, i);
    } else if Newest(SetOf(input), e.k.user, p, e) {
      NewestIsFirst(input, p, i);
      if Dropped(input, i, p, deeper) {
        RepeatsDropped(input, p, deeper, e, i);
      }
    } else {
      assert VersionOf(SetOf(input), e.k.user, p, e);
      var f :| VersionOf(SetOf(input), e.k.user, p, f) && e.k.seqno < f.k.seqno;
      HiddenIsDropped(input, p, deeper, e, f);
    }
  }

  lemma KeptAbove(input: seq<Entry>, p: nat, deeper: seq<seq<File>>, i: nat)
    requires WeaklySorted(input) && p < MAX_SEQUENCE && i < |input| && p < input[i].k.seqno
    ensures !Dropped(input, i, p, deeper)
  {
    if i > 0 {
      SameKeyDescends(input, i - 1, i);
    }
  }

  /** Before the first copy of the newest version at or below `p` stand newer ones of its key only. */
  lemma NewestIsFirst(input: seq<Entry>, p: nat, i: nat)
    requires WeaklySorted(input) && Consistent(SetOf(input)) && p < MAX_SEQUENCE && i < |input|
    requires Newest(SetOf(input), input[i].k.user, p, input[i]) && forall j :: 0 <= j < i ==> input[j] != input[i]
    ensures p < LastSequenceForKey(input, i)
  {
    if i > 0 && input[i - 1].k.user == input[i].k.user {
      SameKeyDescends(input, i - 1, i);
      assert input[i - 1] in SetOf(input) && input[i] in SetOf(input);
      assert input[i - 1].k.seqno <= p ==> VersionOf(SetOf(input), input[i].k.user, p, input[i - 1]);
    }
  }

  /** If the first copy of a version at or below `p` is dropped, so are the others. */
  lemma RepeatsDropped(input: seq<Entry>, p: nat, deeper: seq<seq<File>>, e: Entry, i: nat)
    requires WeaklySorted(input) && e.k.seqno <= p && i < |input| && input[i] == e && Dropped(input, i, p, deeper)
    requires forall j :: 0 <= j < i ==> input[j] != e
    ensures forall j :: 0 <= j < |input| && input[j] == e ==> Dropped(input, j, p, deeper)
  {
    forall j | 0 <= j < |input| && input[j] == e
      ensures Dropped(input, j, p, deeper)
    {
      if i < j {
        OlderIsDropped(input, i, j, p, deeper);
      }
    }
  }

  lemma HiddenIsDropped(input: seq<Entry>, p: nat, deeper: seq<seq<File>>, e: Entry, f: Entry)
    requires WeaklySorted(input) && f in input && f.k.user == e.k.user && e.k.seqno < f.k.seqno <= p
    ensures forall j :: 0 <= j < |input| && input[j] == e ==> Dropped(input, j, p, deeper)
  {
    var i := FirstIndex(input, f);
    forall j | 0 <= j < |input| && input[j] == e
      ensures Dropped(input, j, p, deeper)
    {
      if j < i {
        SameKeyDescends(input, j, i);
      }
      OlderIsDropped(input, i, j, p, deeper);
    }
  }

  // ------------------------------------------------------------------ the cut into outputs

  lemma {:induction false} ConcatMembers(outputs: seq<Output>, e: Entry)
    ensures e in Concat(outputs) <==> exists i :: 0 <= i < |outputs| && e in outputs[i].entries
  {
    if outputs != [] {
      ConcatMembers(outputs[..|outputs| - 1], e);
    }
  }

  ghost predicate AllBefore(s: seq<Entry>, t: seq<Entry>) {
    forall e, f :: e in s && f in t ==> Less(e.k, f.k)
  }

  lemma SortedHalves(s: seq<Entry>, t: seq<Entry>)
    requires Sorted(s + t)
    ensures Sorted(s) && Sorted(t) && AllBefore(s, t)
  {
    var both := s + t;
    assert forall i :: 0 <= i < |s| ==> s[i] == both[i];
    assert forall i :: 0 <= i < |t| ==> t[i] == both[|s| + i];
  }

  /** What follows a whole run follows each of its pieces. */
  lemma PieceBefore(outputs: seq<Output>, i: nat, t: seq<Entry>)
    requires i < |outputs| && AllBefore(Concat(outputs), t)
    ensures AllBefore(outputs[i].entries, t)
  {
    forall e | e in outputs[i].entries
      ensures e in Concat(outputs)
    {
      ConcatMembers(outputs, e);
    }
  }

  /** Cutting a sorted run leaves sorted pieces that follow each other. */
  lemma {:induction false} ConcatSorted(outputs: seq<Output>)
    requires Sorted(Concat(outputs))
    ensures forall i :: 0 <= i < |outputs| ==> Sorted(outputs[i].entries)
    ensures forall i, j :: 0 <= i < j < |outputs| ==> AllBefore(outputs[i].entries, outputs[j].entries)
  {
    hide AllBefore, Sorted;
    if outputs != [] {
      var n := |outputs| - 1;
      SortedHalves(Concat(outputs[..n]), outputs[n].entries);
      ConcatSorted(outputs[..n]);
      forall i | 0 <= i < n
        ensures Sorted(outputs[i].entries) && AllBefore(outputs[i].entries, outputs[n].entries)
      {
        assert outputs[..n][i] == outputs[i];
        PieceBefore(outputs[..n], i, outputs[n].entries);
      }
      forall i, j | 0 <= i < j < n
        ensures AllBefore(outputs[i].entries, outputs[j].entries)
      {
        assert outputs[..n][i] == outputs[i] && outputs[..n][j] == outputs[j];
      }
    }
  }

  /** The one snapshot the rule does not survive: at the largest sequence number every entry is
      taken for hidden, and the merge writes nothing. */
  lemma {:induction false} NothingSurvivesAtMaxSequence(input: seq<Entry>, n: nat, deeper: seq<seq<File>>)
    requires n <= |input|
    requires forall e :: e in input ==> e.k.seqno <= MAX_SEQUENCE
    ensures Kept(input, n, MAX_SEQUENCE, deeper) == []
  {
    if n > 0 {
      NothingSurvivesAtMaxSequence(input, n - 1, deeper);
      assert Dropped(input, n - 1, MAX_SEQUENCE, deeper);
    }
  }

  // ------------------------------------------------------------------ where outputs are cut

  /** How far the grandparents are passed, whether a key was seen, and the bytes passed since the last cut. */
  datatype Overlap = Overlap(index: nat, seen: bool, bytes: nat)

  /** The first grandparent from `index` on that does not end before `key`. */
  function Passing(grandparents: seq<File>, index: nat, key: InternalKey): (r: nat)
    requires index <= |grandparents|
    ensures index <= r <= |grandparents|
    decreases |grandparents| - index
  {
    if index < |grandparents| && Less(grandparents[index].largest, key) then Passing(grandparents, index + 1, key) else index
  }

  /** The bytes charged on reaching `key`: nothing for grandparents before the first key. */
  function Charge(grandparents: seq<File>, o: Overlap, key: InternalKey): nat
    requires o.index <= |grandparents|
  {
    o.bytes + if o.seen then TotalFileSize(grandparents[o.index..Passing(grandparents, o.index, key)]) else 0
  }

  function Advance(grandparents: seq<File>, limit: nat, o: Overlap, key: InternalKey): (r: Overlap)
    requires o.index <= |grandparents|
    ensures r.index <= |grandparents|
  {
    var charge := Charge(grandparents, o, key);
    Overlap(Passing(grandparents, o.index, key), true, if charge > limit then 0 else charge)
  }

  function OverlapAfter(grandparents: seq<File>, limit: nat, input: seq<Entry>, n: nat): (r: Overlap)
    requires n <= |input|
    ensures r.index <= |grandparents|
  {
    if n == 0 then Overlap(0, false, 0)
    else Advance(grandparents, limit, OverlapAfter(grandparents, limit, input, n - 1), input[n - 1].k)
  }

  /** The grandparents passed since the last cut weigh more than the limit when entry `i` is reached. */
  predicate StopsAt(grandparents: seq<File>, limit: nat, input: seq<Entry>, i: nat)
    requires i < |input|
  {
    Charge(grandparents, OverlapAfter(grandparents, limit, input, i), input[i].k) > limit
  }

  /** The entry from which passed grandparents are weighed when entry `n` is reached: the last that stopped an output, or
      the first of the input. */
  function WeighedFrom(grandparents: seq<File>, limit: nat, input: seq<Entry>, n: nat): (r: nat)
    requires n <= |input|
    ensures r <= n && (n > 0 ==> r < n)
  {
    if n == 0 then 0
    else if n == 1 || StopsAt(grandparents, limit, input, n - 1) then n - 1
    else WeighedFrom(grandparents, limit, input, n - 1)
  }

  /** The total size of the grandparents that end before `to` but not before `from`. */
  function WeightBetween(grandparents: seq<File>, from: InternalKey, to: InternalKey): nat {
    var a, b := Passing(grandparents, 0, from), Passing(grandparents, 0, to);
    if a <= b then TotalFileSize(grandparents[a..b]) else 0
  }

  /** An output is stopped exactly if the grandparents that end between the keys of the entry weighed from and the entry
      reached weigh more than the limit. */
  lemma StopsIff(grandparents: seq<File>, limit: nat, input: seq<Entry>, i: nat)
    requires WeaklySorted(input) && i < |input|
    ensures StopsAt(grandparents, limit, input, i) <==>
            WeightBetween(grandparents, input[WeighedFrom(grandparents, limit, input, i)].k, input[i].k) > limit
  {
    hide Passing, Less, OverlapAfter, StopsAt, WeighedFrom;
    OverlapIs(grandparents, limit, input, i);
    StopsHere(grandparents, limit, input, i);
    ChargeIs(grandparents, limit, input, i);
  }

  lemma StopsHere(grandparents: seq<File>, limit: nat, input: seq<Entry>, i: nat)
    requires i < |input|
    ensures StopsAt(grandparents, limit, input, i) <==> Charge(grandparents, OverlapAfter(grandparents, limit, input, i), input[i].k) > limit
  {
  }

  ghost predicate OverlapOk(grandparents: seq<File>, limit: nat, input: seq<Entry>, n: nat, o: Overlap)
    requires n <= |input|
  {
    if n == 0 then o == Overlap(0, false, 0)
    else
      && o.index == Passing(grandparents, 0, input[n - 1].k) && o.seen
      && o.bytes == WeightBetween(grandparents, input[WeighedFrom(grandparents, limit, input, n)].k, input[n - 1].k)
  }

  lemma {:induction false} OverlapIs(grandparents: seq<File>, limit: nat, input: seq<Entry>, n: nat)
    requires WeaklySorted(input) && n <= |input|
    ensures OverlapOk(grandparents, limit, input, n, OverlapAfter(grandparents, limit, input, n))
  {
    hide Passing, Less, StopsAt, WeightBetween, Charge;
    if n > 0 {
      OverlapIs(grandparents, limit, input, n - 1);
      StopsHere(grandparents, limit, input, n - 1);
      ChargeIs(grandparents, limit, input, n - 1);
      NoWeight(grandparents, input[n - 1].k);
      var o := OverlapAfter(grandparents, limit, input, n - 1);
      KeyNotBefore(input[n - 1].k);
      assert n > 1 ==> !Less(input[n - 1].k, input[n - 2].k);
      PassingOn(grandparents, o.index, if n == 1 then input[0].k else input[n - 2].k, input[n - 1].k, n == 1);
    }
  }

  lemma NoWeight(grandparents: seq<File>, key: InternalKey)
    ensures WeightBetween(grandparents, key, key) == 0
  {
    var a := Passing(grandparents, 0, key);
    assert grandparents[a..a] == [];
  }

  /** Going on from where an earlier key has led is going from the start. */
  lemma PassingOn(grandparents: seq<File>, index: nat, before: InternalKey, key: InternalKey, start: bool)
    requires !Less(key, before)
    requires if start then index == 0 else index == Passing(grandparents, 0, before)
    ensures index <= |grandparents| && Passing(grandparents, index, key) == Passing(grandparents, 0, key)
  {
    if !start {
      SamePassing(grandparents, 0, before, key);
    }
  }

  lemma {:induction false} SamePassing(grandparents: seq<File>, index: nat, before: InternalKey, key: InternalKey)
    requires index <= |grandparents| && !Less(key, before)
    ensures Passing(grandparents, Passing(grandparents, index, before), key) == Passing(grandparents, index, key)
    ensures Passing(grandparents, index, before) <= Passing(grandparents, index, key)
    decreases |grandparents| - index
  {
    if index < |grandparents| && Less(grandparents[index].largest, before) {
      SamePassing(grandparents, index + 1, before, key);
    }
  }

  lemma ChargeIs(grandparents: seq<File>, limit: nat, input: seq<Entry>, i: nat)
    requires WeaklySorted(input) && i < |input|
    requires OverlapOk(grandparents, limit, input, i, OverlapAfter(grandparents, limit, input, i))
    ensures Charge(grandparents, OverlapAfter(grandparents, limit, input, i), input[i].k) ==
            WeightBetween(grandparents, input[WeighedFrom(grandparents, limit, input, i)].k, input[i].k)
  {
    hide Less, OverlapAfter, StopsAt, TotalFileSize;
    if i == 0 {
      NoWeight(grandparents, input[0].k);
    } else {
      var from := WeighedFrom(grandparents, limit, input, i);
      assert !Less(input[i].k, input[i - 1].k);
      assert from < i - 1 ==> !Less(input[i - 1].k, input[from].k);
      hide WeaklySorted, WeighedFrom, Passing;
      SamePassing(grandparents, 0, input[i - 1].k, input[i].k);
      KeyNotBefore(input[from].k);
      SamePassing(grandparents, 0, input[from].k, input[i - 1].k);
      var a, b, c := Passing(grandparents, 0, input[from].k), Passing(grandparents, 0, input[i - 1].k), Passing(grandparents, 0, input[i].k);
      SizesAdd(grandparents, a, b, c);
    }
  }

  lemma KeyNotBefore(k: InternalKey)
    ensures !Less(k, k)
  {
  }

  lemma {:induction false} SizesAdd(files: seq<File>, a: nat, b: nat, c: nat)
    requires a <= b <= c <= |files|
    ensures TotalFileSize(files[a..c]) == TotalFileSize(files[a..b]) + TotalFileSize(files[b..c])
  {
    if b < c {
      SizesAdd(files, a, b, c - 1);
      assert files[a..c][..c - a - 1] == files[a..c - 1] && files[b..c][..c - b - 1] == files[b..c - 1];
    } else {
      assert files[b..c] == [];
    }
  }

  /** What decides where outputs are cut. */
  datatype Limits = Limits(grandparents: seq<File>, maxOverlap: nat, maxFileSize: nat, sizeOf: seq<Entry> -> nat)

  /** The outputs after `n` entries of the input, and whether the last is still open. */
  datatype Pieces = Pieces(entries: seq<seq<Entry>>, building: bool)

  /** An entry goes to the open output, or opens a new one, which is closed once it reaches the size limit. */
  function Extend(r: Pieces, e: Entry, limits: Limits): Pieces
    requires r.building ==> r.entries != []
  {
    var k := |r.entries| - 1;
    var last := if r.building then r.entries[k] + [e] else [e];
    Pieces((if r.building then r.entries[..k] else r.entries) + [last], limits.sizeOf(last) < limits.maxFileSize)
  }

  function PieceStep(before: Pieces, stop: bool, drop: bool, e: Entry, limits: Limits): Pieces
    requires before.building ==> before.entries != []
  {
    var going := before.(building := before.building && !stop);
    if drop then going else Extend(going, e, limits)
  }

  ghost function PiecesAfter(input: seq<Entry>, n: nat, p: nat, deeper: seq<seq<File>>, limits: Limits): (r: Pieces)
    requires n <= |input|
    ensures r.building ==> r.entries != []
  {
    if n == 0 then Pieces([], false)
    else
      PieceStep(PiecesAfter(input, n - 1, p, deeper, limits), StopsAt(limits.grandparents, limits.maxOverlap, input, n - 1),
                Dropped(input, n - 1, p, deeper), input[n - 1], limits)
  }

  /** The position behind the last kept entry; none is kept if it is 0. */
  ghost function KeptUpTo(input: seq<Entry>, n: nat, p: nat, deeper: seq<seq<File>>): (r: nat)
    requires n <= |input|
    ensures r <= n
  {
    if n == 0 then 0 else if Dropped(input, n - 1, p, deeper) then KeptUpTo(input, n - 1, p, deeper) else n
  }

  /** The last output is open exactly while it is below the size limit and no entry since its last one was
      reached with too much weight of grandparents passed. */
  ghost predicate OpenWhileDue(r: Pieces, kept: nat, input: seq<Entry>, n: nat, limits: Limits)
    requires n <= |input|
  {
    && (kept == 0 <==> r.entries == [])
    && (r.building <==>
          && kept > 0 && limits.sizeOf(r.entries[|r.entries| - 1]) < limits.maxFileSize
          && forall j :: kept <= j < n ==> !StopsAt(limits.grandparents, limits.maxOverlap, input, j))
  }

  /** An output is cut exactly when its size has reached the limit, or when an entry is reached at which the
      grandparents passed weigh too much. */
  lemma {:induction false} CutExactlyWhenDue(input: seq<Entry>, n: nat, p: nat, deeper: seq<seq<File>>, limits: Limits)
    requires n <= |input|
    ensures OpenWhileDue(PiecesAfter(input, n, p, deeper, limits), KeptUpTo(input, n, p, deeper), input, n, limits)
  {
    hide StopsAt, Dropped, OpenWhileDue, PieceStep;
    if n == 0 {
      NothingOpen(input, limits);
    } else {
      CutExactlyWhenDue(input, n - 1, p, deeper, limits);
      StaysDue(PiecesAfter(input, n - 1, p, deeper, limits), KeptUpTo(input, n - 1, p, deeper),
               Dropped(input, n - 1, p, deeper), input, n, limits);
    }
  }

  lemma NothingOpen(input: seq<Entry>, limits: Limits)
    ensures OpenWhileDue(Pieces([], false), 0, input, 0, limits)
  {
  }

  lemma StaysDue(before: Pieces, kept: nat, drop: bool, input: seq<Entry>, n: nat, limits: Limits)
    requires 0 < n <= |input| && kept < n && OpenWhileDue(before, kept, input, n - 1, limits)
    ensures OpenWhileDue(PieceStep(before, StopsAt(limits.grandparents, limits.maxOverlap, input, n - 1), drop, input[n - 1], limits),
                         if drop then kept else n, input, n, limits)
  {
    hide StopsAt;
  }

  /** An output grows only while it is below the size limit, and none is empty. */
  ghost predicate Small(piece: seq<Entry>, limits: Limits) {
    piece != [] && forall k :: 0 < k < |piece| ==> limits.sizeOf(piece[..k]) < limits.maxFileSize
  }

  ghost predicate AllSmall(r: Pieces, limits: Limits) {
    && (forall i :: 0 <= i < |r.entries| ==> Small(r.entries[i], limits))
    && (r.building ==> r.entries != [] && limits.sizeOf(r.entries[|r.entries| - 1]) < limits.maxFileSize)
  }

  lemma {:induction false} PiecesAreSmall(input: seq<Entry>, n: nat, p: nat, deeper: seq<seq<File>>, limits: Limits)
    requires n <= |input|
    ensures AllSmall(PiecesAfter(input, n, p, deeper, limits), limits)
  {
    hide StopsAt, Dropped, PieceStep, AllSmall;
    if n == 0 {
      NoPieces(limits);
    } else {
      PiecesAreSmall(input, n - 1, p, deeper, limits);
      StepStaysSmall(PiecesAfter(input, n - 1, p, deeper, limits), StopsAt(limits.grandparents, limits.maxOverlap, input, n - 1),
                     Dropped(input, n - 1, p, deeper), input[n - 1], limits);
    }
  }

  lemma NoPieces(limits: Limits)
    ensures AllSmall(Pieces([], false), limits)
  {
  }

  lemma StepStaysSmall(before: Pieces, stop: bool, drop: bool, e: Entry, limits: Limits)
    requires AllSmall(before, limits)
    ensures AllSmall(PieceStep(before, stop, drop, e, limits), limits)
  {
    if before.building {
      GrowsSmall(before.entries[|before.entries| - 1], e, limits);
    }
  }

  lemma GrowsSmall(piece: seq<Entry>, e: Entry, limits: Limits)
    requires Small(piece, limits) && limits.sizeOf(piece) < limits.maxFileSize
    ensures Small(piece + [e], limits)
  {
    assert forall k :: 0 < k < |piece| ==> (piece + [e])[..k] == piece[..k];
    assert (piece + [e])[..|piece|] == piece;
  }

  /** Where the kept entries stand in the input. */
  ghost function KeptAt(input: seq<Entry>, n: nat, p: nat, deeper: seq<seq<File>>): (r: seq<nat>)
    requires n <= |input|
    ensures forall i :: 0 <= i < |r| ==> r[i] < n
  {
    if n == 0 then []
    else
      var before := KeptAt(input, n - 1, p, deeper);
      if Dropped(input, n - 1, p, deeper) then before else before + [n - 1]
  }

  lemma {:induction false} KeptAtIs(input: seq<Entry>, n: nat, p: nat, deeper: seq<seq<File>>)
    requires n <= |input|
    ensures |KeptAt(input, n, p, deeper)| == |Kept(input, n, p, deeper)|
    ensures forall i :: 0 <= i < |KeptAt(input, n, p, deeper)| ==> Kept(input, n, p, deeper)[i] == input[KeptAt(input, n, p, deeper)[i]]
    ensures var at := KeptAt(input, n, p, deeper); KeptUpTo(input, n, p, deeper) == if at == [] then 0 else at[|at| - 1] + 1
  {
    hide Dropped;
    if n > 0 {
      KeptAtIs(input, n - 1, p, deeper);
    }
  }

  /** How many entries the first `i` pieces hold. */
  function StartOf(pieces: seq<seq<Entry>>, i: nat): nat
    requires i <= |pieces|
  {
    if i == 0 then 0 else StartOf(pieces, i - 1) + |pieces[i - 1]|
  }

  /** The pieces hold these entries, in order. */
  ghost predicate Spread(pieces: seq<seq<Entry>>, entries: seq<Entry>) {
    StartOf(pieces, |pieces|) == |entries| && forall i: nat :: i < |pieces| ==> InPlace(pieces, entries, i)
  }

  ghost predicate InPlace(pieces: seq<seq<Entry>>, entries: seq<Entry>, i: nat)
    requires i < |pieces|
  {
    var a := StartOf(pieces, i);
    a + |pieces[i]| <= |entries| && entries[a..a + |pieces[i]|] == pieces[i]
  }

  /** On the way from input entry `i` to `j` too much weight of grandparents is passed. */
  ghost predicate StopBetween(limits: Limits, input: seq<Entry>, i: nat, j: nat) {
    exists k :: i < k <= j && k < |input| && StopsAt(limits.grandparents, limits.maxOverlap, input, k)
  }

  /** Piece `i` may not grow beyond `m` entries, the next kept entry being number `b`: its size has reached the limit,
      or too much weight of grandparents lies before that entry. */
  ghost predicate DueAt(piece: seq<Entry>, m: nat, at: seq<nat>, b: nat, input: seq<Entry>, limits: Limits)
    requires m <= |piece| && 0 < b < |at|
  {
    limits.sizeOf(piece[..m]) >= limits.maxFileSize || StopBetween(limits, input, at[b - 1], at[b])
  }

  /** A piece ends before the next kept entry exactly where it is due to. */
  ghost predicate CutAsDue(pieces: seq<seq<Entry>>, at: seq<nat>, input: seq<Entry>, limits: Limits) {
    forall i: nat, m: nat :: i < |pieces| && 0 < m <= |pieces[i]| ==> EndsAsDue(pieces, i, m, at, input, limits)
  }

  ghost predicate EndsAsDue(pieces: seq<seq<Entry>>, i: nat, m: nat, at: seq<nat>, input: seq<Entry>, limits: Limits)
    requires i < |pieces| && 0 < m <= |pieces[i]|
  {
    var b := StartOf(pieces, i) + m;
    b < |at| ==> (m == |pieces[i]| <==> DueAt(pieces[i], m, at, b, input, limits))
  }

  ghost predicate NoneEmpty(pieces: seq<seq<Entry>>) {
    forall i :: 0 <= i < |pieces| ==> pieces[i] != []
  }

  lemma {:induction false} StartOfPrefix(pieces: seq<seq<Entry>>, other: seq<seq<Entry>>, i: nat)
    requires i <= |pieces| && i <= |other| && forall j :: 0 <= j < i ==> pieces[j] == other[j]
    ensures StartOf(pieces, i) == StartOf(other, i)
  {
    if i > 0 {
      StartOfPrefix(pieces, other, i - 1);
    }
  }

  lemma {:induction false} StartsBefore(pieces: seq<seq<Entry>>, i: nat, j: nat)
    requires i < j <= |pieces|
    ensures StartOf(pieces, i) + |pieces[i]| <= StartOf(pieces, j)
  {
    if i + 1 < j {
      StartsBefore(pieces, i, j - 1);
    }
  }

  /** The cut of the whole run: exactly where a piece has reached the size limit, or the grandparents passed since
      the last cut weigh too much on the way to the next kept entry. */
  lemma {:induction false} PiecesCutAsDue(input: seq<Entry>, n: nat, p: nat, deeper: seq<seq<File>>, limits: Limits)
    requires n <= |input|
    ensures Spread(PiecesAfter(input, n, p, deeper, limits).entries, Kept(input, n, p, deeper))
    ensures CutAsDue(PiecesAfter(input, n, p, deeper, limits).entries, KeptAt(input, n, p, deeper), input, limits)
  {
    hide StopsAt, Dropped, OpenWhileDue, Spread, CutAsDue, Extend, NoneEmpty;
    if n == 0 {
      NothingCut(input, limits);
    } else {
      var before := PiecesAfter(input, n - 1, p, deeper, limits);
      PiecesCutAsDue(input, n - 1, p, deeper, limits);
      if !Dropped(input, n - 1, p, deeper) {
        CutExactlyWhenDue(input, n - 1, p, deeper, limits);
        NoPieceEmpty(input, n - 1, p, deeper, limits);
        KeptAtIs(input, n - 1, p, deeper);
        var stop := StopsAt(limits.grandparents, limits.maxOverlap, input, n - 1);
        OneMoreCut(before, stop, input, n, Kept(input, n - 1, p, deeper), KeptAt(input, n - 1, p, deeper), limits);
      }
    }
  }

  lemma NoPieceEmpty(input: seq<Entry>, n: nat, p: nat, deeper: seq<seq<File>>, limits: Limits)
    requires n <= |input|
    ensures NoneEmpty(PiecesAfter(input, n, p, deeper, limits).entries)
  {
    hide PiecesAfter;
    PiecesAreSmall(input, n, p, deeper, limits);
  }

  lemma NothingCut(input: seq<Entry>, limits: Limits)
    ensures Spread([], []) && CutAsDue([], [], input, limits)
  {
  }

  lemma OneMoreCut(before: Pieces, stop: bool, input: seq<Entry>, n: nat, kept: seq<Entry>, at: seq<nat>, limits: Limits)
    requires 0 < n <= |input| && |at| == |kept| && (forall i :: 0 <= i < |at| ==> at[i] < n - 1)
    requires stop == StopsAt(limits.grandparents, limits.maxOverlap, input, n - 1)
    requires OpenWhileDue(before, if at == [] then 0 else at[|at| - 1] + 1, input, n - 1, limits) && (before.building ==> before.entries != [])
    requires Spread(before.entries, kept) && CutAsDue(before.entries, at, input, limits) && NoneEmpty(before.entries)
    ensures var r := Extend(before.(building := before.building && !stop), input[n - 1], limits);
            Spread(r.entries, kept + [input[n - 1]]) && CutAsDue(r.entries, at + [n - 1], input, limits)
  {
    if before.building && !stop {
      GrowsSpread(before.entries, kept, input[n - 1]);
      GrowsUndue(before, input, n, kept, at, limits);
    } else {
      NewSpread(before.entries, kept, input[n - 1]);
      NewIsDue(before, stop, input, n, kept, at, limits);
    }
  }

  lemma GrowsSpread(pieces: seq<seq<Entry>>, kept: seq<Entry>, e: Entry)
    requires pieces != [] && Spread(pieces, kept)
    ensures var k := |pieces| - 1; Spread(pieces[..k] + [pieces[k] + [e]], kept + [e])
  {
    hide StartOf, InPlace;
    var k := |pieces| - 1;
    var r := pieces[..k] + [pieces[k] + [e]];
    StartOfPrefix(r, pieces, k);
    LastStart(r);
    LastStart(pieces);
    forall i: nat | i < |r|
      ensures InPlace(r, kept + [e], i)
    {
      StartOfPrefix(r, pieces, i);
      assert InPlace(pieces, kept, i);
      if i < k {
        StaysInPlace(pieces, r, kept, e, i);
      } else {
        GrowsInPlace(pieces, r, kept, kept + [e], e, pieces[k], k);
      }
    }
  }

  lemma StaysInPlace(pieces: seq<seq<Entry>>, r: seq<seq<Entry>>, kept: seq<Entry>, e: Entry, i: nat)
    requires i < |pieces| && i < |r| && r[i] == pieces[i] && StartOf(r, i) == StartOf(pieces, i) && InPlace(pieces, kept, i)
    ensures InPlace(r, kept + [e], i)
  {
    hide StartOf;
    var a, b := StartOf(pieces, i), StartOf(pieces, i) + |pieces[i]|;
    assert (kept + [e])[a..b] == kept[a..b];
  }

  lemma GrowsInPlace(pieces: seq<seq<Entry>>, r: seq<seq<Entry>>, kept: seq<Entry>, more: seq<Entry>, e: Entry, last: seq<Entry>, k: nat)
    requires k + 1 == |r| == |pieces| && last == pieces[k] && r[k] == last + [e] && more == kept + [e]
    requires StartOf(r, k) == StartOf(pieces, k) && InPlace(pieces, kept, k) && StartOf(pieces, k) + |last| == |kept|
    ensures InPlace(r, more, k)
  {
    hide StartOf;
    TailGrows(kept, last, StartOf(pieces, k), e);
  }

  lemma TailGrows(kept: seq<Entry>, last: seq<Entry>, a: nat, e: Entry)
    requires a + |last| == |kept| && kept[a..a + |last|] == last
    ensures (kept + [e])[a..a + |last + [e]|] == last + [e]
  {
    assert kept == kept[..a] + last;
    assert kept + [e] == kept[..a] + (last + [e]);
  }

  lemma NewSpread(pieces: seq<seq<Entry>>, kept: seq<Entry>, e: Entry)
    requires Spread(pieces, kept)
    ensures Spread(pieces + [[e]], kept + [e])
  {
    hide StartOf, InPlace;
    var r := pieces + [[e]];
    StartOfPrefix(r, pieces, |pieces|);
    LastStart(r);
    forall i: nat | i < |r|
      ensures InPlace(r, kept + [e], i)
    {
      StartOfPrefix(r, pieces, i);
      if i < |pieces| {
        assert InPlace(pieces, kept, i);
        StaysInPlace(pieces, r, kept, e, i);
      } else {
        BeginsInPlace(r, kept, e);
      }
    }
  }

  lemma BeginsInPlace(r: seq<seq<Entry>>, kept: seq<Entry>, e: Entry)
    requires r != [] && r[|r| - 1] == [e] && StartOf(r, |r| - 1) == |kept|
    ensures InPlace(r, kept + [e], |r| - 1)
  {
    hide StartOf;
    assert (kept + [e])[|kept|..|kept| + 1] == [e];
  }

  /** The open piece grows where it is not due to end. */
  lemma GrowsUndue(before: Pieces, input: seq<Entry>, n: nat, kept: seq<Entry>, at: seq<nat>, limits: Limits)
    requires 0 < n <= |input| && |at| == |kept| && before.building && before.entries != []
    requires !StopsAt(limits.grandparents, limits.maxOverlap, input, n - 1)
    requires OpenWhileDue(before, if at == [] then 0 else at[|at| - 1] + 1, input, n - 1, limits)
    requires Spread(before.entries, kept) && CutAsDue(before.entries, at, input, limits) && NoneEmpty(before.entries)
    ensures var k := |before.entries| - 1;
            CutAsDue(before.entries[..k] + [before.entries[k] + [input[n - 1]]], at + [n - 1], input, limits)
  {
    hide StopsAt, DueAt;
    var pieces, k := before.entries, |before.entries| - 1;
    var r, more := pieces[..k] + [pieces[k] + [input[n - 1]]], at + [n - 1];
    forall i: nat, m: nat | i < |r| && 0 < m <= |r[i]|
      ensures EndsAsDue(r, i, m, more, input, limits)
    {
      StartOfPrefix(r, pieces, i);
      if i < k || m < |pieces[k]| {
        StartsBefore(pieces, i, |pieces|);
        assert EndsAsDue(pieces, i, m, at, input, limits);
        StartNext(pieces, i, kept);
        StillDue(pieces[i], r[i], m, at, n - 1, StartOf(r, i) + m, input, limits);
      } else if m == |pieces[k]| {
        assert r[k][..m] == pieces[k];
        NotDue(before, input, n, at, limits, r[k], m);
      }
    }
  }

  /** A piece with another behind it ends before the last kept entry. */
  lemma StartNext(pieces: seq<seq<Entry>>, i: nat, kept: seq<Entry>)
    requires Spread(pieces, kept) && NoneEmpty(pieces) && i < |pieces|
    ensures StartOf(pieces, i) + |pieces[i]| <= |kept|
    ensures i + 1 < |pieces| ==> StartOf(pieces, i) + |pieces[i]| < |kept|
    ensures i + 1 == |pieces| ==> StartOf(pieces, i) + |pieces[i]| == |kept|
  {
    hide Spread, StartOf;
    SpreadLength(pieces, kept);
    StartsBefore(pieces, i, i + 1);
    StartsBefore(pieces, i, |pieces|);
    if i + 1 < |pieces| {
      StartsBefore(pieces, i + 1, |pieces|);
    } else {
      LastStart(pieces);
    }
  }

  lemma SpreadLength(pieces: seq<seq<Entry>>, kept: seq<Entry>)
    requires Spread(pieces, kept)
    ensures StartOf(pieces, |pieces|) == |kept|
  {
  }

  lemma LastStart(pieces: seq<seq<Entry>>)
    requires pieces != []
    ensures StartOf(pieces, |pieces|) == StartOf(pieces, |pieces| - 1) + |pieces[|pieces| - 1]|
  {
  }

  lemma NotDue(before: Pieces, input: seq<Entry>, n: nat, at: seq<nat>, limits: Limits, piece: seq<Entry>, m: nat)
    requires 0 < n <= |input| && at != [] && before.building && before.entries != []
    requires !StopsAt(limits.grandparents, limits.maxOverlap, input, n - 1)
    requires OpenWhileDue(before, at[|at| - 1] + 1, input, n - 1, limits)
    requires m <= |piece| && piece[..m] == before.entries[|before.entries| - 1]
    ensures !DueAt(piece, m, at + [n - 1], |at|, input, limits)
  {
    hide StopsAt;
  }

  lemma StillDue(piece: seq<Entry>, more: seq<Entry>, m: nat, at: seq<nat>, next: nat, b: nat, input: seq<Entry>, limits: Limits)
    requires m <= |piece| && piece <= more && 0 < b < |at|
    ensures DueAt(piece, m, at, b, input, limits) <==> DueAt(more, m, at + [next], b, input, limits)
  {
    hide StopBetween;
    assert piece[..m] == more[..m];
  }

  /** A new piece begins where the last one is due to end. */
  lemma NewIsDue(before: Pieces, stop: bool, input: seq<Entry>, n: nat, kept: seq<Entry>, at: seq<nat>, limits: Limits)
    requires 0 < n <= |input| && |at| == |kept| && (forall i :: 0 <= i < |at| ==> at[i] < n - 1) && !(before.building && !stop)
    requires stop == StopsAt(limits.grandparents, limits.maxOverlap, input, n - 1)
    requires OpenWhileDue(before, if at == [] then 0 else at[|at| - 1] + 1, input, n - 1, limits)
    requires Spread(before.entries, kept) && CutAsDue(before.entries, at, input, limits) && NoneEmpty(before.entries)
    ensures CutAsDue(before.entries + [[input[n - 1]]], at + [n - 1], input, limits)
  {
    hide StopsAt, DueAt;
    var pieces, k := before.entries, |before.entries|;
    var r, more := pieces + [[input[n - 1]]], at + [n - 1];
    StartOfPrefix(r, pieces, k);
    forall i: nat, m: nat | i < |r| && 0 < m <= |r[i]|
      ensures EndsAsDue(r, i, m, more, input, limits)
    {
      StartOfPrefix(r, pieces, i);
      if i < k {
        StartNext(pieces, i, kept);
        if StartOf(r, i) + m < |at| {
          assert EndsAsDue(pieces, i, m, at, input, limits);
          StillDue(pieces[i], r[i], m, at, n - 1, StartOf(r, i) + m, input, limits);
        } else {
          DueBefore(before, stop, input, n, at, limits);
        }
      }
    }
  }

  lemma DueBefore(before: Pieces, stop: bool, input: seq<Entry>, n: nat, at: seq<nat>, limits: Limits)
    requires 0 < n <= |input| && at != [] && at[|at| - 1] < n - 1 && !(before.building && !stop)
    requires stop == StopsAt(limits.grandparents, limits.maxOverlap, input, n - 1)
    requires OpenWhileDue(before, at[|at| - 1] + 1, input, n - 1, limits)
    ensures before.entries != []
    ensures var last := before.entries[|before.entries| - 1]; DueAt(last, |last|, at + [n - 1], |at|, input, limits)
  {
    hide StopsAt;
    var last := before.entries[|before.entries| - 1];
    assert last[..|last|] == last;
    if stop {
      assert StopsAt(limits.grandparents, limits.maxOverlap, input, n - 1);
    }
  }

  /** The files a compaction leaves: they hold the kept entries, in order, each with its size and bounds; none reaches
      the size limit before its last entry, and each ends exactly where it is due to. */
  ghost predicate MergedInto(files: seq<File>, input: seq<Entry>, p: nat, deeper: seq<seq<File>>, limits: Limits) {
    && (forall i :: 0 <= i < |files| ==> MadeFrom(files[i], limits))
    && Spread(FileRuns(files), Kept(input, |input|, p, deeper))
    && CutAsDue(FileRuns(files), KeptAt(input, |input|, p, deeper), input, limits)
  }

  ghost predicate MadeFrom(f: File, limits: Limits) {
    && Small(f.entries, limits) && f.size == limits.sizeOf(f.entries)
    && f.smallest == f.entries[0].k && f.largest == f.entries[|f.entries| - 1].k
  }

  // ------------------------------------------------------------------ the cursors

  class Compaction {
    /** The input version's levels from two below the compacted one downwards. */
    const deeper: seq<seq<File>>
    const grandparents: seq<File>
    const maxGrandparentOverlap: nat
    const maxOutputFileSize: nat
    var levelPtrs: array<nat>
    var grandparentIndex: nat
    var seenKey: bool
    var overlappedBytes: nat

    constructor (deeper: seq<seq<File>>, grandparents: seq<File>, maxGrandparentOverlap: nat, maxOutputFileSize: nat)
      requires forall l :: 0 <= l < |deeper| ==> ValidFiles(deeper[l]) && Disjoint(deeper[l])
      ensures this.deeper == deeper && this.grandparents == grandparents
      ensures this.maxGrandparentOverlap == maxGrandparentOverlap && this.maxOutputFileSize == maxOutputFileSize
      ensures Overlapped() == Overlap(0, false, 0)
      ensures fresh(levelPtrs) && Ready()
      ensures forall u :: CursorsBefore(u)
    {
      this.deeper, this.grandparents := deeper, grandparents;
      this.maxGrandparentOverlap, this.maxOutputFileSize := maxGrandparentOverlap, maxOutputFileSize;
      levelPtrs := new nat[|deeper|](_ => 0);
      grandparentIndex, seenKey, overlappedBytes := 0, false, 0;
    }

    ghost predicate Ready()
      reads this
    {
      && levelPtrs.Length == |deeper|
      && (forall l :: 0 <= l < |deeper| ==> ValidFiles(deeper[l]) && Disjoint(deeper[l]))
      && grandparentIndex <= |grandparents|
    }

    function Overlapped(): Overlap
      reads this
    {
      Overlap(grandparentIndex, seenKey, overlappedBytes)
    }

    /** Every file a cursor has left behind ends before `u`. */
    ghost predicate CursorsBefore(u: UserKey)
      requires levelPtrs.Length == |deeper|
      reads this, levelPtrs
    {
      forall l :: 0 <= l < |deeper| ==> levelPtrs[l] <= |deeper[l]| && Passed(deeper[l], levelPtrs[l], u)
    }

    /** Asked for nondecreasing user keys, the moving cursors answer as a scan of all files would. */
    method IsBaseLevelForKey(u: UserKey) returns (base: bool)
      requires Ready() && CursorsBefore(u)
      modifies levelPtrs
      ensures Ready() && CursorsBefore(u)
      ensures base == BaseLevel(deeper, u)
    {
      var level := 0;
      while level < |deeper|
        invariant 0 <= level <= |deeper|
        invariant CursorsBefore(u)
        invariant forall l :: 0 <= l < level ==> !Covers(deeper[l], u)
      {
        var files := deeper[level];
        while levelPtrs[level] < |files|
          invariant CursorsBefore(u)
          invariant levelPtrs[level] == |files| ==> !Covers(files, u)
          decreases |files| - levelPtrs[level]
        {
          var file := files[levelPtrs[level]];
          if u <= file.largest.user {
            if file.smallest.user <= u {
              assert Covers(files, u);
              return false;
            }
            NotCovered(files, levelPtrs[level], u);
            break;
          }
          levelPtrs[level] := levelPtrs[level] + 1;
          assert Passed(files, levelPtrs[level], u);
        }
        level := level + 1;
      }
      return true;
    }

    /** Advances over the grandparents that end before `key`, charging them once output has begun. */
    method ShouldStopBefore(key: InternalKey) returns (stop: bool)
      requires Ready()
      modifies this`grandparentIndex, this`seenKey, this`overlappedBytes
      ensures Ready() && Overlapped() == Advance(grandparents, maxGrandparentOverlap, old(Overlapped()), key)
      ensures stop == (Charge(grandparents, old(Overlapped()), key) > maxGrandparentOverlap)
    {
      ghost var before := Overlapped();
      while grandparentIndex < |grandparents| && Less(grandparents[grandparentIndex].largest, key)
        invariant before.index <= grandparentIndex <= |grandparents| && seenKey == before.seen
        invariant Passing(grandparents, grandparentIndex, key) == Passing(grandparents, before.index, key)
        invariant overlappedBytes == before.bytes + if seenKey then TotalFileSize(grandparents[before.index..grandparentIndex]) else 0
        decreases |grandparents| - grandparentIndex
      {
        ghost var passed := grandparents[before.index..grandparentIndex + 1];
        assert passed[..|passed| - 1] == grandparents[before.index..grandparentIndex];
        if seenKey {
          overlappedBytes := overlappedBytes + grandparents[grandparentIndex].size;
        }
        grandparentIndex := grandparentIndex + 1;
      }
      seenKey := true;
      if overlappedBytes > maxGrandparentOverlap {
        overlappedBytes := 0;
        return true;
      }
      return false;
    }
  }

  ghost predicate Passed(fs: seq<File>, n: nat, u: UserKey)
    requires n <= |fs|
  {
    forall i :: 0 <= i < n ==> fs[i].largest.user < u
  }

  /** A key that falls in front of file `n`, past all earlier ones, is in no file of the level. */
  lemma NotCovered(fs: seq<File>, n: nat, u: UserKey)
    requires ValidFiles(fs) && Disjoint(fs)
    requires n <= |fs| && Passed(fs, n, u)
    requires n < |fs| ==> u < fs[n].smallest.user
    ensures !Covers(fs, u)
  {
    forall i | 0 <= i < |fs|
      ensures !(fs[i].smallest.user <= u <= fs[i].largest.user)
    {
      if n < i {
        EndsAscend(fs, n, i);
      }
    }
  }

  // ------------------------------------------------------------------ the merge loop

  /** An output table while it is written: what was added, and the bounds recorded for it. */
  datatype Output = Output(smallest: InternalKey, largest: InternalKey, entries: seq<Entry>)

  ghost predicate ValidOutput(o: Output) {
    o.entries != [] && o.smallest == o.entries[0].k && o.largest == o.entries[|o.entries| - 1].k
  }

  ghost function EntriesOfEach(outputs: seq<Output>): (r: seq<seq<Entry>>)
    ensures |r| == |outputs| && forall i :: 0 <= i < |r| ==> r[i] == outputs[i].entries
  {
    if outputs == [] then [] else EntriesOfEach(outputs[..|outputs| - 1]) + [outputs[|outputs| - 1].entries]
  }

  ghost function Concat(outputs: seq<Output>): seq<Entry> {
    if outputs == [] then [] else Concat(outputs[..|outputs| - 1]) + outputs[|outputs| - 1].entries
  }

  /** Together the outputs hold exactly the kept entries, in order, and they are cut where the limits say.
      `sizeOf` stands for the builder's running file size. */
  method DoCompactionWork(compaction: Compaction, input: seq<Entry>, smallestSnapshot: nat, sizeOf: seq<Entry> -> nat)
    returns (outputs: seq<Output>)
    requires compaction.Ready() && forall u :: compaction.CursorsBefore(u)
    requires WeaklySorted(input) && compaction.Overlapped() == Overlap(0, false, 0)
    modifies compaction`grandparentIndex, compaction`seenKey, compaction`overlappedBytes, compaction.levelPtrs
    ensures Concat(outputs) == Kept(input, |input|, smallestSnapshot, compaction.deeper)
    ensures forall o :: o in outputs ==> ValidOutput(o)
    ensures var limits := Limits(compaction.grandparents, compaction.maxGrandparentOverlap, compaction.maxOutputFileSize, sizeOf);
            EntriesOfEach(outputs) == PiecesAfter(input, |input|, smallestSnapshot, compaction.deeper, limits).entries
  {
    hide StopsAt, Dropped, Advance, Charge, Extend, EntriesOfEach, Concat;
    NoOutputs();
    ghost var limits := Limits(compaction.grandparents, compaction.maxGrandparentOverlap, compaction.maxOutputFileSize, sizeOf);
    outputs := [];
    var building := false;
    var hasCurrentUserKey, currentUserKey := false, 0.0;
    var lastSequenceForKey := MAX_SEQUENCE;
    var i := 0;
    while i < |input|
      invariant 0 <= i <= |input|
      invariant compaction.Ready()
      invariant hasCurrentUserKey == (i > 0)
      invariant i > 0 ==> currentUserKey == input[i - 1].k.user && lastSequenceForKey == input[i - 1].k.seqno
      invariant i < |input| ==> compaction.CursorsBefore(input[i].k.user)
      invariant Concat(outputs) == Kept(input, i, smallestSnapshot, compaction.deeper)
      invariant forall o :: o in outputs ==> ValidOutput(o)
      invariant compaction.Overlapped() == OverlapAfter(limits.grandparents, limits.maxOverlap, input, i)
      invariant Pieces(EntriesOfEach(outputs), building) == PiecesAfter(input, i, smallestSnapshot, compaction.deeper, limits)
    {
      var key := input[i].k;
      var stop := compaction.ShouldStopBefore(key);
      StopsHere(limits.grandparents, limits.maxOverlap, input, i);
      ghost var before := Pieces(EntriesOfEach(outputs), building);
      if stop && building {
        building := false;
      }
      if !hasCurrentUserKey || key.user != currentUserKey {
        currentUserKey := key.user;
        hasCurrentUserKey := true;
        lastSequenceForKey := MAX_SEQUENCE;
      }
      var drop := DropEntry(compaction, input, i, lastSequenceForKey, smallestSnapshot);
      lastSequenceForKey := key.seqno;
      if !drop {
        outputs, building := WriteEntry(outputs, building, input[i], compaction.maxOutputFileSize, sizeOf, limits);
      }
      assert Pieces(EntriesOfEach(outputs), building) == PieceStep(before, stop, drop, input[i], limits);
      if i + 1 < |input| {
        SameKeyDescends(input, i, i + 1);
      }
      i := i + 1;
    }
  }

  lemma NoOutputs()
    ensures Concat([]) == [] && EntriesOfEach([]) == []
  {
  }

  /** Adds an entry to the open output, or to a new one, and closes that once it is large enough. */
  method WriteEntry(outputs: seq<Output>, building: bool, e: Entry, maxOutputFileSize: nat, sizeOf: seq<Entry> -> nat, ghost limits: Limits)
    returns (r: seq<Output>, open: bool)
    requires (building ==> outputs != []) && (forall o :: o in outputs ==> ValidOutput(o))
    requires limits.maxFileSize == maxOutputFileSize && limits.sizeOf == sizeOf
    ensures Pieces(EntriesOfEach(r), open) == Extend(Pieces(EntriesOfEach(outputs), building), e, limits)
    ensures Concat(r) == Concat(outputs) + [e] && forall o :: o in r ==> ValidOutput(o)
  {
    hide Concat, EntriesOfEach;
    r := outputs;
    if !building {
      NewOutput(outputs, Output(e.k, e.k, []));
      r := outputs + [Output(e.k, e.k, [])];
    }
    ghost var was := r;
    r := AddToLast(r, e);
    GrownOutput(was, r, e);
    if !building {
      assert EntriesOfEach(was)[..|outputs|] == EntriesOfEach(outputs);
      assert was[|outputs|].entries + [e] == [e];
    }
    open := sizeOf(r[|r| - 1].entries) < maxOutputFileSize;
  }

  lemma NewOutput(outputs: seq<Output>, o: Output)
    ensures EntriesOfEach(outputs + [o]) == EntriesOfEach(outputs) + [o.entries]
    ensures Concat(outputs + [o]) == Concat(outputs) + o.entries
  {
    assert (outputs + [o])[..|outputs|] == outputs;
  }

  lemma GrownOutput(outputs: seq<Output>, r: seq<Output>, e: Entry)
    requires |r| == |outputs| > 0 && r[..|r| - 1] == outputs[..|r| - 1] && r[|r| - 1].entries == outputs[|r| - 1].entries + [e]
    ensures EntriesOfEach(r) == EntriesOfEach(outputs)[..|r| - 1] + [outputs[|r| - 1].entries + [e]]
  {
    assert forall i :: 0 <= i < |r| - 1 ==> r[i] == r[..|r| - 1][i] == outputs[i];
  }

  /** The drop rule as the loop evaluates it: the tombstone test moves the level cursors. */
  method DropEntry(compaction: Compaction, input: seq<Entry>, i: nat, lastSequenceForKey: nat, smallestSnapshot: nat)
    returns (drop: bool)
    requires i < |input| && lastSequenceForKey == LastSequenceForKey(input, i)
    requires compaction.Ready() && compaction.CursorsBefore(input[i].k.user)
    modifies compaction.levelPtrs
    ensures compaction.Ready() && compaction.CursorsBefore(input[i].k.user)
    ensures drop == Dropped(input, i, smallestSnapshot, compaction.deeper)
  {
    drop := false;
    if lastSequenceForKey <= smallestSnapshot {
      drop := true;
    } else if input[i].k.kind.Deletion? && input[i].k.seqno <= smallestSnapshot {
      drop := compaction.IsBaseLevelForKey(input[i].k.user);
    }
  }

  /** builder->Add on the open output, with its recorded bounds brought up to date. */
  method AddToLast(outputs: seq<Output>, e: Entry) returns (r: seq<Output>)
    requires outputs != []
    requires forall i :: 0 <= i < |outputs| - 1 ==> ValidOutput(outputs[i])
    requires outputs[|outputs| - 1].entries != [] ==> ValidOutput(outputs[|outputs| - 1])
    ensures |r| == |outputs| && Concat(r) == Concat(outputs) + [e]
    ensures r[..|r| - 1] == outputs[..|r| - 1] && r[|r| - 1].entries == outputs[|r| - 1].entries + [e]
    ensures forall o :: o in r ==> ValidOutput(o)
  {
    var last := outputs[|outputs| - 1];
    if |last.entries| == 0 {
      last := last.(smallest := e.k);
    }
    last := last.(largest := e.k, entries := last.entries + [e]);
    r := outputs[..|outputs| - 1] + [last];
    assert r[..|r| - 1] == outputs[..|outputs| - 1];
  }
}

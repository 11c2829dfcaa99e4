/** The user-level iterator (db/db_iter.cc): from versions to the map a reader sees. */
module DbIterator {
  import opened Keys
  import opened Visibility
  import opened Cursors
  import opened Merger

  // ------------------------------------------------------------------ what is shown

  predicate Visible(e: Entry, s: nat) {
    e.k.seqno <= s
  }

  /** Entry `i` is the first visible version of its user key, and a value. */
  ghost predicate Shown(data: seq<Entry>, s: nat, i: nat)
    requires i < |data|
  {
    && Visible(data[i], s) && data[i].k.kind.Value?
    && forall j :: 0 <= j < i && data[j].k.user == data[i].k.user ==> !Visible(data[j], s)
  }

  /** `r` is the first shown position from `from` on, or the end. */
  ghost predicate FirstShown(data: seq<Entry>, s: nat, from: nat, r: nat) {
    && from <= |data| && from <= r <= |data|
    && (r < |data| ==> Shown(data, s, r))
    && forall j :: from <= j < r ==> !Shown(data, s, j)
  }

  /** `r` is the last shown position before `before`, or the end if there is none. */
  ghost predicate LastShown(data: seq<Entry>, s: nat, before: nat, r: nat) {
    && before <= |data|
    && (r == |data| || (r < before && Shown(data, s, r)))
    && forall j :: 0 <= j < before && (r == |data| || r < j) ==> !Shown(data, s, j)
  }

  /** The data an iterator runs over: in order, each version possibly at several places. */
  ghost predicate Proper(data: seq<Entry>) {
    WeaklySorted(data) && Consistent(SetOf(data))
  }

  lemma UsersAscend(data: seq<Entry>, i: nat, j: nat)
    requires WeaklySorted(data) && i <= j < |data|
    ensures data[i].k.user <= data[j].k.user
    ensures data[i].k.user == data[j].k.user ==> data[j].k.seqno <= data[i].k.seqno
  {
    assert i < j ==> !Less(data[j].k, data[i].k);
  }

  /** Shown entries have strictly ascending user keys: no key is shown twice. */
  lemma ShownAscend(data: seq<Entry>, s: nat, i: nat, j: nat)
    requires WeaklySorted(data) && i < j < |data| && Shown(data, s, i) && Shown(data, s, j)
    ensures data[i].k.user < data[j].k.user
  {
    UsersAscend(data, i, j);
  }

  /** A key is shown exactly if a reader at `s` finds a value for it, and with that value. */
  lemma ShownIsRead(data: seq<Entry>, s: nat, u: UserKey)
    requires Proper(data)
    ensures Read(SetOf(data), u, s).Some? <==> exists i :: 0 <= i < |data| && data[i].k.user == u && Shown(data, s, i)
    ensures forall i :: 0 <= i < |data| && data[i].k.user == u && Shown(data, s, i) ==> Read(SetOf(data), u, s) == Some(data[i].v)
  {
    var S := SetOf(data);
    forall i | 0 <= i < |data| && data[i].k.user == u && Shown(data, s, i)
      ensures Read(S, u, s) == Some(data[i].v)
    {
      forall f | VersionOf(S, u, s, f)
        ensures f.k.seqno <= data[i].k.seqno
      {
        var j :| 0 <= j < |data| && data[j] == f;
        if i <= j {
          UsersAscend(data, i, j);
        }
      }
      ReadNewest(S, u, s, data[i]);
    }
    if Read(S, u, s).Some? {
      var n :| Newest(S, u, s, n) && n.k.kind.Value?;
      var i := FirstVisible(data, s, n);
      assert VersionOf(S, u, s, data[i]);
      var j :| 0 <= j < |data| && data[j] == n;
      if i < j {
        UsersAscend(data, i, j);
      }
      assert data[i] == n;
    }
  }

  lemma FirstVisible(data: seq<Entry>, s: nat, e: Entry) returns (i: nat)
    requires e in data && Visible(e, s)
    ensures i < |data| && data[i].k.user == e.k.user && Visible(data[i], s)
    ensures forall j :: 0 <= j < i && data[j].k.user == e.k.user ==> !Visible(data[j], s)
    ensures forall j :: 0 <= j < |data| && data[j] == e ==> i <= j
  {
    i := 0;
    while data[i].k.user != e.k.user || !Visible(data[i], s)
      invariant i < |data|
      invariant forall j :: 0 <= j < i && data[j].k.user == e.k.user ==> !Visible(data[j], s)
      invariant exists j :: i <= j < |data| && data[j] == e
      decreases |data| - i
    {
      i := i + 1;
    }
  }

  // ------------------------------------------------------------------ DBIter

  class DBIter {
    const iter: MergingIterator
    const sequence: nat
    var direction: Direction
    var savedKey: UserKey
    var savedValue: Bytes
    var valid: bool
    /** The shown position the iterator is at, or the end. */
    ghost var at: nat

    constructor (iter: MergingIterator, sequence: nat)
      requires iter.Good() && Proper(iter.merged)
      ensures this.iter == iter && this.sequence == sequence
      ensures Ok() && !valid && at == |iter.merged|
    {
      this.iter, this.sequence := iter, sequence;
      direction, valid := Forward, false;
      savedKey, savedValue := 0.0, [];
      at := |iter.merged|;
    }

    ghost predicate Ok()
      reads this, iter, iter.children, Iters(iter.children)
    {
      && Proper(iter.merged) && iter.Good()
      && at <= |iter.merged| && valid == (at < |iter.merged|)
      && (valid ==> iter.Ok() && Shown(iter.merged, sequence, at))
      && (valid && direction.Forward? ==> iter.direction.Forward? && iter.at == at)
      && (valid && direction.Reverse? ==>
            && savedKey == iter.merged[at].k.user && savedValue == iter.merged[at].v
            && iter.direction.Reverse? && BehindKey(iter.merged, sequence, iter.at, at))
    }

    function Key(): UserKey
      requires valid && (direction.Forward? ==> iter.Valid())
      reads this, iter, iter.children
    {
      if direction.Forward? then iter.Key().user else savedKey
    }

    function Value(): Bytes
      requires valid && (direction.Forward? ==> iter.Ok() && iter.Valid())
      reads this, iter, iter.children, Iters(iter.children)
    {
      if direction.Forward? then iter.Value() else savedValue
    }

    /** Key and value are those of the shown entry the iterator is at. */
    lemma Presents()
      requires Ok() && valid
      ensures at < |iter.merged| && Shown(iter.merged, sequence, at)
      ensures direction.Forward? ==> iter.Ok() && iter.Valid()
      ensures Key() == iter.merged[at].k.user && Value() == iter.merged[at].v
      ensures Read(SetOf(iter.merged), Key(), sequence) == Some(Value())
    {
      iter.Presents();
      ShownIsRead(iter.merged, sequence, iter.merged[at].k.user);
    }

    lemma ValidInside()
      requires Ok()
      ensures at <= |iter.merged| && valid == (at < |iter.merged|)
    {
    }

    method FindNextUserEntry(skipping0: bool, skip: UserKey)
      requires Proper(iter.merged) && direction.Forward? && iter.Ok() && iter.Valid() && iter.direction.Forward?
      requires skipping0 ==> skip == iter.merged[iter.at].k.user
      requires !skipping0 ==> FreshFrom(iter.merged, sequence, iter.at)
      modifies this, iter, iter.children, Iters(iter.children)
      ensures Ok() && direction == Forward
      ensures if skipping0 then FirstShownAfterKey(iter.merged, sequence, old(iter.at), skip, at)
              else FirstShown(iter.merged, sequence, old(iter.at), at)
    {
      hide Less, WeaklySorted, Proper, SkipState, NoneShown, Shown, FirstShown, FirstShownAfterKey, FreshFrom, BehindKey;
      hide MergingIterator.Ok, MergingIterator.Good, UpperBound, Iters;
      var skipping := skipping0;
      var skipKey := skip;
      ghost var start := iter.at;
      IsProper();
      iter.Presents();
      ScanBegins(iter.merged, sequence, start, skipping0, skip);
      while true
        invariant iter.Ok() && iter.Valid() && start <= iter.at < |iter.merged|
        invariant direction == Forward && iter.direction.Forward?
        invariant skipping0 ==> skipping
        invariant SkipState(iter.merged, sequence, start, iter.at, skipping0, skip, skipping, skipKey)
        invariant NoneShown(iter.merged, sequence, start, iter.at, skipping0, skip)
        decreases |iter.merged| - iter.at
      {
        iter.Presents();
        var k := iter.Key();
        ghost var wasSkipping, wasKey := skipping, skipKey;
        if k.seqno <= sequence {
          match k.kind {
            case Deletion =>
              skipKey := k.user;
              skipping := true;
            case Value =>
              if skipping && k.user <= skipKey {
              } else {
                StopsAtShown(iter.merged, sequence, start, iter.at, skipping0, skip, skipping, skipKey);
                ScanEnds(iter.merged, sequence, start, iter.at, skipping0, skip);
                valid := true;
                savedKey := 0.0;
                at := iter.at;
                StillGood();
                return;
              }
          }
        }
        PassesOne(iter.merged, sequence, start, iter.at, skipping0, skip, wasSkipping, wasKey);
        iter.Next();
        iter.Presents();
        if !iter.Valid() {
          break;
        }
      }
      ScanEnds(iter.merged, sequence, start, |iter.merged|, skipping0, skip);
      savedKey := 0.0;
      valid := false;
      at := |iter.merged|;
      StillGood();
    }

    lemma IsProper()
      requires Proper(iter.merged)
      ensures WeaklySorted(iter.merged) && Consistent(SetOf(iter.merged))
    {
    }

    lemma StillGood()
      requires iter.Ok()
      ensures iter.Good()
    {
    }

    method FindPrevUserEntry()
      requires Proper(iter.merged) && direction.Reverse? && iter.Ok() && iter.direction.Reverse?
      requires iter.Valid() ==> EndOfKey(iter.merged, iter.at)
      modifies this, iter, iter.children, Iters(iter.children)
      ensures Ok() && direction == if valid then Reverse else Forward
      ensures LastShown(iter.merged, sequence, if old(iter.Valid()) then old(iter.at) + 1 else 0, at)
    {
      hide Less, WeaklySorted, Scanned, Shown, LastShown, BehindKey, EndOfKey;
      hide MergingIterator.Ok, MergingIterator.Good, Iters;
      iter.Presents();
      ghost var before := if iter.Valid() then iter.at + 1 else 0;
      var valueType, key, value;
      ghost var v;
      valueType, key, value, v := ScanBackward(before);
      StillGood();
      if valueType.Deletion? {
        valid := false;
        savedKey := 0.0;
        savedValue := [];
        direction := Forward;
        at := |iter.merged|;
        NothingScanned(iter.merged, sequence, before, v);
      } else {
        savedKey := key;
        savedValue := value;
        ScanStops(iter.merged, sequence, before, iter.at, v);
        valid := true;
        at := v;
        LastIsShown(iter.merged, sequence, before, v);
      }
    }

    /** Remembers the first visible entry of each key passed, until a value is followed by a smaller key. */
    method ScanBackward(ghost before: nat) returns (valueType: Kind, key: UserKey, value: Bytes, ghost v: nat)
      requires Proper(iter.merged) && iter.Ok() && iter.direction.Reverse?
      requires before == if iter.Valid() then iter.at + 1 else 0
      requires iter.Valid() ==> EndOfKey(iter.merged, iter.at)
      modifies iter, iter.children, Iters(iter.children)
      ensures iter.Ok() && iter.direction.Reverse? && iter.at <= |iter.merged|
      ensures v <= |iter.merged| && Scanned(iter.merged, sequence, before, if iter.at < |iter.merged| then iter.at + 1 else 0, v)
      ensures valueType == if v < |iter.merged| then iter.merged[v].k.kind else Deletion
      ensures valueType.Value? ==> key == iter.merged[v].k.user && value == iter.merged[v].v
      ensures iter.at < |iter.merged| ==> valueType.Value? && Visible(iter.merged[iter.at], sequence) && iter.merged[iter.at].k.user < key
    {
      hide Less, WeaklySorted, Scanned, Shown, EndOfKey;
      hide MergingIterator.Ok, MergingIterator.Good, LowerBound, Iters;
      valueType, key, value := Deletion, 0.0, [];
      iter.Presents();
      v := |iter.merged|;
      ScanBeginsBack(iter.merged, sequence, before);
      while iter.Valid()
        invariant iter.Ok() && iter.direction.Reverse?
        invariant iter.at <= |iter.merged| && iter.Valid() == (iter.at < |iter.merged|)
        invariant v <= |iter.merged| && Scanned(iter.merged, sequence, before, if iter.Valid() then iter.at + 1 else 0, v)
        invariant valueType == if v < |iter.merged| then iter.merged[v].k.kind else Deletion
        invariant valueType.Value? ==> key == iter.merged[v].k.user && value == iter.merged[v].v
        decreases if iter.Valid() then iter.at + 1 else 0
      {
        iter.Presents();
        var k := iter.Key();
        if k.seqno <= sequence {
          if valueType.Value? && k.user < key {
            break;
          }
          valueType := k.kind;
          key, value := if valueType.Deletion? then 0.0 else k.user, if valueType.Deletion? then [] else iter.Value();
          ScanVisible(iter.merged, sequence, before, iter.at, v);
          v := iter.at;
        } else {
          ScanInvisible(iter.merged, sequence, before, iter.at, v);
        }
        iter.Prev();
        iter.Presents();
      }
    }

    /** The next shown entry.  After a reverse step this depends on what follows the entry the internal
        iterator rests on: if that belongs to another, invisible key, the same entry comes again. */
    method Next()
      requires Ok() && valid
      modifies this, iter, iter.children, Iters(iter.children)
      ensures Ok() && direction == Forward
      ensures old(direction).Forward? ==> FirstShown(iter.merged, sequence, old(at) + 1, at)
      ensures old(direction).Reverse? ==>
                if ResumesAtKey(iter.merged, old(iter.at), old(at)) then FirstShown(iter.merged, sequence, old(at) + 1, at)
                else at == old(at)
    {
      hide Less, WeaklySorted, Shown, FirstShown, FirstShownAfterKey, FreshFrom, BehindKey;
      hide MergingIterator.Ok, MergingIterator.Good, UpperBound, Iters;
      ghost var from, resting, reverse := at, iter.at, direction.Reverse?;
      iter.Presents();
      if direction.Reverse? {
        direction := Forward;
        RestsBefore(iter.merged, sequence, resting, from);
        if !iter.Valid() {
          iter.SeekToFirst();
        } else {
          NoRepeatBehind(iter.merged, sequence, resting, from);
          iter.Next();
        }
        iter.Presents();
        if !iter.Valid() {
          assert false;
        }
      }
      ghost var q := iter.at;
      FindNextUserEntry(true, iter.Key().user);
      if reverse {
        AfterReverse(iter.merged, sequence, resting, from, q, at);
      } else {
        AfterShown(iter.merged, sequence, from, from, at);
      }
    }

    /** The previous shown entry, from either direction. */
    method Prev()
      requires Ok() && valid
      modifies this, iter, iter.children, Iters(iter.children)
      ensures Ok() && LastShown(iter.merged, sequence, old(at), at)
    {
      hide Less, WeaklySorted, Shown, LastShown, BehindKey, LowerBound;
      hide MergingIterator.Ok, MergingIterator.Good, Iters;
      ghost var from := at;
      iter.Presents();
      if direction.Forward? {
        SkipKeyBackward();
        if !iter.Valid() {
          valid := false;
          savedKey := 0.0;
          savedValue := [];
          at := |iter.merged|;
          StillGood();
          SameKeyHidden(iter.merged, sequence, 0, from);
          return;
        }
        direction := Reverse;
        ghost var p := iter.at;
        FindPrevUserEntry();
        SameKeyHidden(iter.merged, sequence, p + 1, from);
        LastShownFurther(iter.merged, sequence, p + 1, from, at);
      } else {
        ghost var p := iter.at;
        RestsAtEndOfKey(iter.merged, sequence, iter.at, from);
        FindPrevUserEntry();
        LastShownFurther(iter.merged, sequence, if p < |iter.merged| then p + 1 else 0, from, at);
      }
    }

    /** Moves the internal iterator to the last entry before the current user key. */
    method SkipKeyBackward()
      requires Ok() && valid && direction.Forward?
      modifies this`savedKey, iter, iter.children, Iters(iter.children)
      ensures iter.Ok() && iter.direction.Reverse? && iter.Valid() == (iter.at < |iter.merged|)
      ensures iter.Valid() ==> iter.at < at && EndOfKey(iter.merged, iter.at)
      ensures forall k :: (if iter.Valid() then iter.at + 1 else 0) <= k <= at ==> iter.merged[k].k.user == iter.merged[at].k.user
    {
      hide Less, WeaklySorted, Shown, LastShown, BehindKey, LowerBound;
      hide MergingIterator.Ok, MergingIterator.Good, Iters;
      iter.Presents();
      savedKey := iter.Key().user;
      NoRepeatBefore(iter.merged, sequence, at);
      ghost var turned := false;
      while true
        invariant iter.Ok() && iter.Valid() && iter.at <= at && savedKey == iter.merged[at].k.user
        invariant if turned then iter.direction.Reverse? else iter.at == at
        invariant forall k :: iter.at <= k <= at ==> iter.merged[k].k.user == savedKey
        decreases iter.at
      {
        iter.Prev();
        turned := true;
        iter.Presents();
        if !iter.Valid() {
          return;
        }
        if iter.Key().user < savedKey {
          break;
        }
        UsersAscend(iter.merged, iter.at, at);
      }
    }

    /** The first shown entry whose user key is not before `target`. */
    method Seek(target: UserKey)
      requires Ok()
      modifies this, iter, iter.children, Iters(iter.children)
      ensures Ok() && direction == Forward
      ensures valid ==> target <= iter.merged[at].k.user
      ensures forall j :: 0 <= j < at && Shown(iter.merged, sequence, j) ==> iter.merged[j].k.user < target
    {
      direction := Forward;
      savedValue := [];
      savedKey := target;
      iter.Seek(SeekKey(target, sequence));
      iter.Presents();
      ghost var p := iter.at;
      SoughtFresh(iter.merged, sequence, target);
      if iter.Valid() {
        FindNextUserEntry(false, savedKey);
        SoughtShown(iter.merged, sequence, target, p, at);
      } else {
        valid := false;
        at := |iter.merged|;
      }
    }

    method SeekToFirst()
      requires Ok()
      modifies this, iter, iter.children, Iters(iter.children)
      ensures Ok() && direction == Forward
      ensures FirstShown(iter.merged, sequence, 0, at)
    {
      direction := Forward;
      savedValue := [];
      iter.SeekToFirst();
      iter.Presents();
      if iter.Valid() {
        FindNextUserEntry(false, savedKey);
      } else {
        valid := false;
        at := |iter.merged|;
      }
    }

    method SeekToLast()
      requires Ok()
      modifies this, iter, iter.children, Iters(iter.children)
      ensures Ok() && direction == if valid then Reverse else Forward
      ensures LastShown(iter.merged, sequence, |iter.merged|, at)
    {
      direction := Reverse;
      savedValue := [];
      iter.SeekToLast();
      iter.Presents();
      FindPrevUserEntry();
    }
  }

  /** Seeking (target, s): all versions a reader may see of the first key found lie ahead. */
  lemma SoughtFresh(data: seq<Entry>, s: nat, target: UserKey)
    requires WeaklySorted(data)
    ensures var p := LowerBound(data, SeekKey(target, s));
            && (p < |data| ==> FreshFrom(data, s, p))
            && (forall j :: 0 <= j < p ==> data[j].k.user < target || (data[j].k.user == target && !Visible(data[j], s)))
            && (p < |data| ==> target <= data[p].k.user)
  {
    LowerBoundSplits(data, SeekKey(target, s));
  }

  lemma SoughtShown(data: seq<Entry>, s: nat, target: UserKey, p: nat, r: nat)
    requires WeaklySorted(data) && p == LowerBound(data, SeekKey(target, s)) && p < |data| && FirstShown(data, s, p, r)
    ensures r < |data| ==> target <= data[r].k.user
    ensures forall j :: 0 <= j < r && Shown(data, s, j) ==> data[j].k.user < target
  {
    SoughtFresh(data, s, target);
    if r < |data| {
      UsersAscend(data, p, r);
    }
  }

  // ------------------------------------------------------------------ turning around

  /** The entry behind the current key is not repeated, so turning forward moves on by one. */
  lemma NoRepeatBehind(data: seq<Entry>, s: nat, pos: nat, at: nat)
    requires WeaklySorted(data) && pos < |data| && at < |data| && BehindKey(data, s, pos, at)
    ensures UpperBound(data, data[pos].k) == pos + 1
  {
    UpperBoundSplits(data, data[pos].k);
    BoundsAt(data, data[pos].k, pos);
    BoundsAt(data, data[pos].k, pos + 1);
    if !Less(data[pos].k, data[pos + 1].k) {
      UsersAscend(data, pos, pos + 1);
      Antisymmetric(data[pos].k, data[pos + 1].k);
      UsersAscend(data, pos + 1, at);
    }
  }

  /** A shown entry is not repeated before, so turning back moves by one. */
  lemma NoRepeatBefore(data: seq<Entry>, s: nat, at: nat)
    requires WeaklySorted(data) && at < |data| && Shown(data, s, at)
    ensures LowerBound(data, data[at].k) == at
  {
    LowerBoundSplits(data, data[at].k);
    BoundsAt(data, data[at].k, at);
    if at > 0 {
      BoundsAt(data, data[at].k, at - 1);
      Antisymmetric(data[at - 1].k, data[at].k);
      UsersAscend(data, at - 1, at);
    }
  }

  lemma RestsBefore(data: seq<Entry>, s: nat, pos: nat, at: nat)
    requires at < |data| && BehindKey(data, s, pos, at)
    ensures pos < |data| ==> pos < at
  {
  }

  /** Versions of the shown entry's key before it are not shown. */
  lemma SameKeyHidden(data: seq<Entry>, s: nat, low: nat, at: nat)
    requires at < |data| && Shown(data, s, at) && low <= at
    requires forall k :: low <= k <= at ==> data[k].k.user == data[at].k.user
    ensures forall k :: low <= k < at ==> !Shown(data, s, k)
    ensures low == 0 ==> LastShown(data, s, at, |data|)
  {
  }

  lemma ScanBeginsBack(data: seq<Entry>, s: nat, before: nat)
    requires before <= |data| && (before > 0 ==> EndOfKey(data, before - 1))
    ensures Scanned(data, s, before, before, |data|)
  {
  }

  lemma LastIsShown(data: seq<Entry>, s: nat, before: nat, v: nat)
    requires v < |data| && LastShown(data, s, before, v)
    ensures Shown(data, s, v)
  {
  }

  // ------------------------------------------------------------------ reverse scanning

  ghost predicate EndOfKey(data: seq<Entry>, pos: nat)
    requires pos < |data|
  {
    pos + 1 < |data| ==> data[pos].k.user < data[pos + 1].k.user
  }

  /** Entries from `low` up to `before` are scanned; `v` is the first visible one of them, if any, and
      nothing behind it is shown. */
  ghost predicate Scanned(data: seq<Entry>, s: nat, before: nat, low: nat, v: nat) {
    && low <= before <= |data| && v <= |data|
    && (v < |data| ==> low <= v < before && Visible(data[v], s))
    && (forall k :: low <= k < before && k < v ==> !Visible(data[k], s))
    && (forall k :: v < k < before ==> !Shown(data, s, k))
    && (before > 0 ==> EndOfKey(data, before - 1))
  }

  lemma ScanInvisible(data: seq<Entry>, s: nat, before: nat, pos: nat, v: nat)
    requires pos < |data| && Scanned(data, s, before, pos + 1, v) && !Visible(data[pos], s)
    ensures Scanned(data, s, before, pos, v)
  {
  }

  lemma ScanVisible(data: seq<Entry>, s: nat, before: nat, pos: nat, v: nat)
    requires WeaklySorted(data) && pos < |data| && Scanned(data, s, before, pos + 1, v) && Visible(data[pos], s)
    requires v < |data| && data[v].k.kind.Value? ==> !(data[pos].k.user < data[v].k.user)
    ensures Scanned(data, s, before, pos, pos)
  {
    if v < |data| {
      UsersAscend(data, pos, v);
    }
  }

  lemma NothingScanned(data: seq<Entry>, s: nat, before: nat, v: nat)
    requires Scanned(data, s, before, 0, v) && (v < |data| ==> data[v].k.kind.Deletion?)
    ensures LastShown(data, s, before, |data|)
  {
  }

  lemma ScanStops(data: seq<Entry>, s: nat, before: nat, pos: nat, v: nat)
    requires WeaklySorted(data) && v < |data| && data[v].k.kind.Value?
    requires Scanned(data, s, before, if pos < |data| then pos + 1 else 0, v)
    requires pos < |data| ==> Visible(data[pos], s) && data[pos].k.user < data[v].k.user
    ensures LastShown(data, s, before, v) && BehindKey(data, s, pos, v)
  {
    forall j | 0 <= j < v && data[j].k.user == data[v].k.user
      ensures !Visible(data[j], s)
    {
      if pos < |data| && j <= pos {
        UsersAscend(data, j, pos);
      }
    }
  }

  lemma RestsAtEndOfKey(data: seq<Entry>, s: nat, pos: nat, at: nat)
    requires WeaklySorted(data) && at < |data| && BehindKey(data, s, pos, at)
    ensures pos < |data| ==> EndOfKey(data, pos)
    ensures var low := if pos < |data| then pos + 1 else 0; low <= at && forall k :: low <= k < at ==> !Shown(data, s, k)
  {
    if pos < |data| {
      UsersAscend(data, pos, pos + 1);
    }
  }

  /** Entries between `before` and `from` that are not shown do not change the last shown entry. */
  lemma LastShownFurther(data: seq<Entry>, s: nat, before: nat, from: nat, r: nat)
    requires LastShown(data, s, before, r) && before <= from <= |data|
    requires forall k :: before <= k < from ==> !Shown(data, s, k)
    ensures LastShown(data, s, from, r)
  {
  }

  // ------------------------------------------------------------------ changing direction

  /** Where Next starts after a reverse step that left the internal iterator at `pos`. */
  function ResumePos(data: seq<Entry>, pos: nat): nat {
    if pos < |data| then pos + 1 else 0
  }

  /** The entry Next resumes at has the user key just shown. */
  ghost predicate ResumesAtKey(data: seq<Entry>, pos: nat, at: nat)
    requires at < |data|
  {
    ResumePos(data, pos) < |data| && data[ResumePos(data, pos)].k.user == data[at].k.user
  }

  lemma AfterShown(data: seq<Entry>, s: nat, from: nat, q: nat, r: nat)
    requires WeaklySorted(data) && q <= from < |data| && Shown(data, s, from) && data[q].k.user == data[from].k.user
    requires FirstShownAfterKey(data, s, q, data[q].k.user, r)
    ensures FirstShown(data, s, from + 1, r)
  {
    if r < |data| && r <= from {
      UsersAscend(data, r, from);
    }
    forall j | from + 1 <= j < r
      ensures !Shown(data, s, j)
    {
      if Shown(data, s, j) {
        ShownAscend(data, s, from, j);
      }
    }
  }

  lemma AfterReverse(data: seq<Entry>, s: nat, pos: nat, at: nat, q: nat, r: nat)
    requires WeaklySorted(data) && at < |data| && Shown(data, s, at) && BehindKey(data, s, pos, at)
    requires q == ResumePos(data, pos) && q < |data|
    requires FirstShownAfterKey(data, s, q, data[q].k.user, r)
    ensures if data[q].k.user == data[at].k.user then FirstShown(data, s, at + 1, r) else r == at
  {
    UsersAscend(data, q, at);
    if data[q].k.user == data[at].k.user {
      AfterShown(data, s, at, q, r);
    } else {
      assert forall j :: q <= j < at ==> !Visible(data[j], s);
    }
  }

  /** With no version above the reader's sequence, turning around is always right. */
  lemma TurningIsSafe(data: seq<Entry>, s: nat, pos: nat, at: nat)
    requires WeaklySorted(data) && at < |data| && BehindKey(data, s, pos, at)
    requires forall i :: 0 <= i < |data| ==> Visible(data[i], s)
    ensures ResumesAtKey(data, pos, at)
  {
    assert Visible(data[ResumePos(data, pos)], s);
  }

  /** Three keys, the middle one written after the snapshot: stepping back and forth shows the last key
      again instead of reaching the end. */
  lemma TurningCanRepeat()
    ensures exists data: seq<Entry>, s: nat, pos: nat, at: nat ::
      && Proper(data) && at < |data| && Shown(data, s, at) && BehindKey(data, s, pos, at)
      && FirstShown(data, s, at + 1, |data|) && !ResumesAtKey(data, pos, at)
  {
    var data := [Entry(InternalKey(1.0, 1, Value), []), Entry(InternalKey(2.0, 3, Value), []), Entry(InternalKey(3.0, 2, Value), [])];
    assert Shown(data, 2, 2) && BehindKey(data, 2, 0, 2);
    assert FirstShown(data, 2, 2 + 1, |data|) && !ResumesAtKey(data, 0, 2);
    assert Proper(data);
  }

  // ------------------------------------------------------------------ forward scanning

  /** Where the internal iterator stands after a reverse step: on the last visible entry of a smaller
      user key, or off the data if there is none. */
  ghost predicate BehindKey(data: seq<Entry>, s: nat, pos: nat, at: nat)
    requires at < |data|
  {
    if pos < |data| then
      && pos < at && Visible(data[pos], s) && data[pos].k.user < data[at].k.user
      && forall k :: pos < k < at ==> !Visible(data[k], s)
    else
      forall k :: 0 <= k < at ==> !Visible(data[k], s)
  }

  /** No visible version of the user key at `pos` lies before `pos`. */
  ghost predicate FreshFrom(data: seq<Entry>, s: nat, pos: nat)
    requires pos < |data|
  {
    forall k :: 0 <= k < pos && data[k].k.user == data[pos].k.user ==> !Visible(data[k], s)
  }

  ghost predicate FirstShownAfterKey(data: seq<Entry>, s: nat, from: nat, u: UserKey, r: nat) {
    && from <= r <= |data|
    && (r < |data| ==> Shown(data, s, r) && u < data[r].k.user)
    && forall j :: from <= j < r ==> !(Shown(data, s, j) && u < data[j].k.user)
  }

  /** Every visible entry passed so far is covered by the skip key, which is the initial one or that of a
      tombstone passed. */
  ghost predicate SkipState(data: seq<Entry>, s: nat, start: nat, pos: nat, skipping0: bool, skip0: UserKey, skipping: bool, skip: UserKey)
    requires pos <= |data|
  {
    && (forall k :: start <= k < pos && Visible(data[k], s) ==> skipping && data[k].k.user <= skip)
    && (skipping ==> (skipping0 && skip == skip0) || exists d :: start <= d < pos && Visible(data[d], s) && data[d].k.user == skip)
  }

  /** Nothing between `start` and `pos` is shown and beyond the initial skip key. */
  ghost predicate NoneShown(data: seq<Entry>, s: nat, start: nat, pos: nat, skipping0: bool, skip0: UserKey)
    requires pos <= |data|
  {
    forall k :: start <= k < pos ==> !(Shown(data, s, k) && (skipping0 ==> skip0 < data[k].k.user))
  }

  lemma ScanBegins(data: seq<Entry>, s: nat, start: nat, skipping0: bool, skip0: UserKey)
    requires start <= |data|
    ensures SkipState(data, s, start, start, skipping0, skip0, skipping0, skip0) && NoneShown(data, s, start, start, skipping0, skip0)
  {
  }

  lemma ScanEnds(data: seq<Entry>, s: nat, start: nat, r: nat, skipping0: bool, skip0: UserKey)
    requires start <= r <= |data| && NoneShown(data, s, start, r, skipping0, skip0)
    requires r < |data| ==> Shown(data, s, r) && (skipping0 ==> skip0 < data[r].k.user)
    ensures if skipping0 then FirstShownAfterKey(data, s, start, skip0, r) else FirstShown(data, s, start, r)
  {
  }

  lemma PassesOne(data: seq<Entry>, s: nat, start: nat, pos: nat, skipping0: bool, skip0: UserKey, skipping: bool, skip: UserKey)
    requires WeaklySorted(data) && start <= pos < |data|
    requires SkipState(data, s, start, pos, skipping0, skip0, skipping, skip)
    requires NoneShown(data, s, start, pos, skipping0, skip0)
    requires skipping0 ==> skip0 == data[start].k.user
    requires Visible(data[pos], s) && data[pos].k.kind.Value? ==> skipping && data[pos].k.user <= skip
    ensures NoneShown(data, s, start, pos + 1, skipping0, skip0)
    ensures !Visible(data[pos], s) || data[pos].k.kind.Value? ==> SkipState(data, s, start, pos + 1, skipping0, skip0, skipping, skip)
    ensures Visible(data[pos], s) && data[pos].k.kind.Deletion? ==> SkipState(data, s, start, pos + 1, skipping0, skip0, true, data[pos].k.user)
  {
    var e := data[pos];
    forall k | start <= k < pos
      ensures data[k].k.user <= e.k.user
    {
      UsersAscend(data, k, pos);
    }
    if skipping && !(skipping0 && skip == skip0) {
      var d :| start <= d < pos && Visible(data[d], s) && data[d].k.user == skip;
    }
  }

  lemma StopsAtShown(data: seq<Entry>, s: nat, start: nat, pos: nat, skipping0: bool, skip0: UserKey, skipping: bool, skip: UserKey)
    requires WeaklySorted(data) && start <= pos < |data|
    requires SkipState(data, s, start, pos, skipping0, skip0, skipping, skip)
    requires skipping0 ==> skipping && skip0 == data[start].k.user
    requires !skipping0 ==> FreshFrom(data, s, start)
    requires Visible(data[pos], s) && data[pos].k.kind.Value? && !(skipping && data[pos].k.user <= skip)
    ensures Shown(data, s, pos)
    ensures skipping0 ==> skip0 < data[pos].k.user
  {
    if skipping0 && skip != skip0 {
      var d :| start <= d < pos && Visible(data[d], s) && data[d].k.user == skip;
      UsersAscend(data, start, d);
    }
    forall j | 0 <= j < pos && data[j].k.user == data[pos].k.user
      ensures !Visible(data[j], s)
    {
      if j < start {
        UsersAscend(data, j, start);
        UsersAscend(data, start, pos);
      }
    }
  }
}

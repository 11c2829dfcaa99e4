/** Choosing the input files of a compaction (db/version_set.cc). */
module InputSelection {
  import opened Keys
  import opened Files

  // ------------------------------------------------------------------ overlap with a user-key range

  /** The file lies outside a range of user keys; a missing bound is unlimited. */
  predicate Misses(f: File, begin: Option<UserKey>, end: Option<UserKey>) {
    || (begin.Some? && f.largest.user < begin.value)
    || (end.Some? && end.value < f.smallest.user)
  }

  predicate Within(f: File, begin: Option<UserKey>, end: Option<UserKey>) {
    && (begin.Some? ==> begin.value <= f.smallest.user)
    && (end.Some? ==> f.largest.user <= end.value)
  }

  function Overlapping(files: seq<File>, begin: Option<UserKey>, end: Option<UserKey>): seq<File> {
    if files == [] then []
    else
      var rest := Overlapping(files[..|files| - 1], begin, end);
      var f := files[|files| - 1];
      if Misses(f, begin, end) then rest else rest + [f]
  }

  lemma {:induction false} OverlappingMembers(files: seq<File>, b: Option<UserKey>, e: Option<UserKey>, f: File)
    ensures f in Overlapping(files, b, e) <==> f in files && !Misses(f, b, e)
  {
    if files != [] {
      OverlappingMembers(files[..|files| - 1], b, e, f);
      assert files == files[..|files| - 1] + [files[|files| - 1]];
    }
  }

  /** No file sticks out of the range. */
  ghost predicate ClosedRange(files: seq<File>, b: Option<UserKey>, e: Option<UserKey>) {
    forall f :: f in files && !Misses(f, b, e) ==> Within(f, b, e)
  }

  /** Range (b, e) lies inside range (b', e'). */
  predicate Inside(b: Option<UserKey>, e: Option<UserKey>, b': Option<UserKey>, e': Option<UserKey>) {
    && (b'.Some? ==> b.Some? && b'.value <= b.value)
    && (e'.Some? ==> e.Some? && e.value <= e'.value)
  }

  function UserOf(k: Option<InternalKey>): Option<UserKey> {
    if k.Some? then Some(k.value.user) else None
  }

  /** The least range around (b0, e0) out of which no file sticks. */
  ghost predicate LeastClosed(files: seq<File>, b0: Option<UserKey>, e0: Option<UserKey>, b: Option<UserKey>, e: Option<UserKey>) {
    && Inside(b0, e0, b, e) && ClosedRange(files, b, e)
    && forall x, y :: ClosedRange(files, x, y) && Inside(b0, e0, x, y) ==> Inside(b, e, x, y)
  }

  ghost predicate OverlapsRange(files: seq<File>, level: nat, b0: Option<UserKey>, e0: Option<UserKey>, inputs: seq<File>) {
    if level > 0 then inputs == Overlapping(files, b0, e0)
    else exists b, e :: LeastClosed(files, b0, e0, b, e) && inputs == Overlapping(files, b, e)
  }

  /** Below level 0 the files that overlap the given range; at level 0 those that overlap the least
      range around it out of which no file sticks.  The level-0 restarts come to an end. */
  method GetOverlappingInputs(files: seq<File>, level: nat, begin: Option<InternalKey>, end: Option<InternalKey>)
    returns (inputs: seq<File>, ghost b: Option<UserKey>, ghost e: Option<UserKey>)
    ensures OverlapsRange(files, level, UserOf(begin), UserOf(end), inputs)
    ensures inputs == Overlapping(files, b, e)
    ensures level > 0 ==> b == UserOf(begin) && e == UserOf(end)
    ensures Inside(UserOf(begin), UserOf(end), b, e)
    ensures level == 0 ==> ClosedRange(files, b, e)
    ensures level == 0 ==> forall x, y :: ClosedRange(files, x, y) && Inside(UserOf(begin), UserOf(end), x, y) ==> Inside(b, e, x, y)
  {
    inputs := [];
    var userBegin := UserOf(begin);
    var userEnd := UserOf(end);
    var index := 0;
    while index < |files|
      invariant 0 <= index <= |files|
      invariant inputs == Overlapping(files[..index], userBegin, userEnd)
      invariant level > 0 ==> userBegin == UserOf(begin) && userEnd == UserOf(end)
      invariant Inside(UserOf(begin), UserOf(end), userBegin, userEnd)
      invariant userBegin.Some? == begin.Some? && userEnd.Some? == end.Some?
      invariant level == 0 ==> ClosedRange(files[..index], userBegin, userEnd)
      invariant level == 0 ==> forall x, y :: ClosedRange(files, x, y) && Inside(UserOf(begin), UserOf(end), x, y) ==> Inside(userBegin, userEnd, x, y)
      decreases (set f | f in files && userBegin.Some? && f.smallest.user < userBegin.value),
                (set f | f in files && userEnd.Some? && f.largest.user > userEnd.value),
                |files| - index
    {
      var file := files[index];
      assert files[..index + 1][..index] == files[..index];
      index := index + 1;
      if Misses(file, userBegin, userEnd) {
        continue;
      }
      inputs := inputs + [file];
      if level == 0 {
        ghost var belowBefore := set f | f in files && userBegin.Some? && f.smallest.user < userBegin.value;
        ghost var aboveBefore := set f | f in files && userEnd.Some? && f.largest.user > userEnd.value;
        if userBegin.Some? && file.smallest.user < userBegin.value {
          userBegin := Some(file.smallest.user);
          inputs := [];
          index := 0;
          assert file in belowBefore;
        } else if userEnd.Some? && file.largest.user > userEnd.value {
          userEnd := Some(file.largest.user);
          inputs := [];
          index := 0;
          assert file in aboveBefore;
        }
      }
    }
    assert files[..index] == files;
    b, e := userBegin, userEnd;
    assert level == 0 ==> LeastClosed(files, UserOf(begin), UserOf(end), b, e);
  }

  // ------------------------------------------------------------------ key ranges of file lists

  ghost predicate IsSmallest(files: seq<File>, k: InternalKey) {
    (exists i :: 0 <= i < |files| && files[i].smallest == k) && forall i :: 0 <= i < |files| ==> !Less(files[i].smallest, k)
  }

  ghost predicate IsLargest(files: seq<File>, k: InternalKey) {
    (exists i :: 0 <= i < |files| && files[i].largest == k) && forall i :: 0 <= i < |files| ==> !Less(k, files[i].largest)
  }

  method GetRange(inputs: seq<File>) returns (smallest: InternalKey, largest: InternalKey)
    requires inputs != []
    ensures IsSmallest(inputs, smallest) && IsLargest(inputs, largest)
  {
    smallest, largest := inputs[0].smallest, inputs[0].largest;
    var index := 1;
    while index < |inputs|
      invariant 1 <= index <= |inputs|
      invariant exists i :: 0 <= i < |inputs| && inputs[i].smallest == smallest
      invariant exists i :: 0 <= i < |inputs| && inputs[i].largest == largest
      invariant forall i :: 0 <= i < index ==> !Less(inputs[i].smallest, smallest) && !Less(largest, inputs[i].largest)
    {
      if Less(inputs[index].smallest, smallest) {
        smallest := inputs[index].smallest;
      }
      if Less(largest, inputs[index].largest) {
        largest := inputs[index].largest;
      }
      index := index + 1;
    }
  }

  // ------------------------------------------------------------------ boundary files

  /** `f` starts with an older version of the user key that `largest` belongs to. */
  predicate IsBoundary(f: File, largest: InternalKey) {
    Less(largest, f.smallest) && f.smallest.user == largest.user
  }

  ghost predicate SmallestBoundary(level: seq<File>, largest: InternalKey, f: File) {
    && f in level && IsBoundary(f, largest)
    && forall g :: g in level && IsBoundary(g, largest) ==> !Less(g.smallest, f.smallest)
  }

  ghost predicate NoBoundary(level: seq<File>, largest: InternalKey) {
    forall g :: g in level ==> !IsBoundary(g, largest)
  }

  method FindSmallestBoundaryFile(level: seq<File>, largest: InternalKey) returns (r: Option<File>)
    ensures r.None? ==> NoBoundary(level, largest)
    ensures r.Some? ==> SmallestBoundary(level, largest, r.value)
  {
    r := None;
    var i := 0;
    while i < |level|
      invariant 0 <= i <= |level|
      invariant r.None? ==> NoBoundary(level[..i], largest)
      invariant r.Some? ==> SmallestBoundary(level[..i], largest, r.value)
    {
      assert level[..i + 1] == level[..i] + [level[i]];
      if IsBoundary(level[i], largest) {
        if r.None? || Less(level[i].smallest, r.value.smallest) {
          r := Some(level[i]);
        }
      }
      i := i + 1;
    }
    assert level[..i] == level;
  }

  /** The key the i-th step of a boundary chain starts from. */
  function ChainKey(first: InternalKey, chain: seq<File>, i: nat): InternalKey
    requires i <= |chain|
  {
    if i == 0 then first else chain[i - 1].largest
  }

  ghost predicate ChainStep(level: seq<File>, first: InternalKey, chain: seq<File>, i: nat)
    requires i < |chain|
  {
    SmallestBoundary(level, ChainKey(first, chain, i), chain[i])
  }

  ghost predicate BoundaryChain(level: seq<File>, first: InternalKey, chain: seq<File>) {
    forall i :: 0 <= i < |chain| ==> ChainStep(level, first, chain, i)
  }

  lemma ChainGrows(level: seq<File>, first: InternalKey, chain: seq<File>, f: File)
    requires BoundaryChain(level, first, chain)
    requires SmallestBoundary(level, ChainKey(first, chain, |chain|), f)
    ensures BoundaryChain(level, first, chain + [f])
    ensures ChainKey(first, chain + [f], |chain| + 1) == f.largest
  {
    var longer := chain + [f];
    forall i | 0 <= i < |longer|
      ensures ChainStep(level, first, longer, i)
    {
      assert i < |chain| ==> ChainStep(level, first, chain, i);
    }
  }

  /** `r` is `files` and all their boundary files, nearest first. */
  ghost predicate WithBoundary(level: seq<File>, files: seq<File>, r: seq<File>) {
    if files == [] then r == []
    else exists first, chain ::
      && IsLargest(files, first) && BoundaryChain(level, first, chain) && NoBoundary(level, ChainKey(first, chain, |chain|))
      && r == files + chain
  }

  /** Appends boundary files, each the nearest one after the last, until none is left. */
  method AddBoundaryInputs(level: seq<File>, files: seq<File>) returns (r: seq<File>, ghost first: InternalKey, ghost chain: seq<File>)
    requires ValidFiles(level)
    ensures WithBoundary(level, files, r)
    ensures r == files + chain
    ensures files == [] ==> chain == []
    ensures files != [] ==> IsLargest(files, first) && BoundaryChain(level, first, chain) && NoBoundary(level, ChainKey(first, chain, |chain|))
  {
    r := files;
    chain := [];
    if files == [] {
      first := InternalKey(0.0, 0, Value);
      return;
    }
    var smallestKey, largestKey := GetRange(files);
    first := largestKey;
    var boundary := FindSmallestBoundaryFile(level, largestKey);
    while boundary.Some?
      invariant r == files + chain
      invariant BoundaryChain(level, first, chain)
      invariant largestKey == ChainKey(first, chain, |chain|)
      invariant boundary.None? ==> NoBoundary(level, largestKey)
      invariant boundary.Some? ==> SmallestBoundary(level, largestKey, boundary.value)
      decreases set f | f in level && Less(largestKey, f.smallest)
    {
      ghost var before := set f | f in level && Less(largestKey, f.smallest);
      BoundsInOrder(boundary.value);
      r := r + [boundary.value];
      ChainGrows(level, first, chain, boundary.value);
      chain := chain + [boundary.value];
      assert boundary.value in before;
      largestKey := boundary.value.largest;
      boundary := FindSmallestBoundaryFile(level, largestKey);
    }
  }

  // ------------------------------------------------------------------ intervals of a disjoint level

  /** File `j` starts with the user key its left neighbour ends with. */
  predicate Touches(level: seq<File>, j: nat)
    requires 0 < j < |level|
  {
    level[j].smallest.user == level[j - 1].largest.user
  }

  /** In a disjoint level the boundary file of file h - 1 can only be file h. */
  lemma BoundaryIsNext(level: seq<File>, h: nat, f: File)
    requires ValidFiles(level) && Disjoint(level)
    requires 0 < h <= |level|
    requires SmallestBoundary(level, level[h - 1].largest, f)
    ensures h < |level| && f == level[h] && Touches(level, h)
  {
    var k :| 0 <= k < |level| && level[k] == f;
    BoundsInOrder(level[k]);
    if h < k {
      EndsAscend(level, h, k);
      BoundsInOrder(level[h]);
      assert IsBoundary(level[h], level[h - 1].largest);
    }
  }

  lemma NoBoundaryNext(level: seq<File>, h: nat)
    requires ValidFiles(level) && Disjoint(level)
    requires 0 < h < |level|
    requires NoBoundary(level, level[h - 1].largest)
    ensures !Touches(level, h)
  {
    assert level[h] in level;
  }

  /** Boundary files extend an interval of a disjoint level to the right, as far as files touch. */
  lemma {:induction false} ChainExtendsInterval(level: seq<File>, hi: nat, chain: seq<File>)
    requires ValidFiles(level) && Disjoint(level)
    requires 0 < hi <= |level|
    requires BoundaryChain(level, level[hi - 1].largest, chain)
    ensures hi + |chain| <= |level|
    ensures forall i :: 0 <= i < |chain| ==> chain[i] == level[hi + i]
    ensures forall j :: hi <= j < hi + |chain| ==> Touches(level, j)
  {
    if chain != [] {
      var n := |chain| - 1;
      var first := level[hi - 1].largest;
      ChainPrefix(level, first, chain);
      ChainExtendsInterval(level, hi, chain[..n]);
      assert ChainStep(level, first, chain, n);
      if n > 0 {
        assert chain[n - 1] == chain[..n][n - 1];
      }
      BoundaryIsNext(level, hi + n, chain[n]);
      assert forall i :: 0 <= i < n ==> chain[i] == chain[..n][i];
    }
  }

  lemma ChainPrefix(level: seq<File>, first: InternalKey, chain: seq<File>)
    requires chain != [] && BoundaryChain(level, first, chain)
    ensures BoundaryChain(level, first, chain[..|chain| - 1])
  {
    var prefix := chain[..|chain| - 1];
    forall i | 0 <= i < |prefix|
      ensures ChainStep(level, first, prefix, i)
    {
      assert ChainStep(level, first, chain, i);
    }
  }

  /** Files lo to hi, exactly, overlap the range of user keys from b to e. */
  ghost predicate OverlapBounds(level: seq<File>, b: UserKey, e: UserKey, lo: nat, hi: nat) {
    && lo <= hi <= |level|
    && (forall j :: 0 <= j < lo ==> level[j].largest.user < b)
    && (forall j :: lo <= j < |level| ==> b <= level[j].largest.user)
    && (forall j :: hi <= j < |level| ==> e < level[j].smallest.user)
    && (forall j :: lo <= j < hi ==> level[j].smallest.user <= e)
  }

  lemma FirstFrom(level: seq<File>, b: UserKey) returns (lo: nat)
    requires ValidFiles(level) && Disjoint(level)
    ensures lo <= |level|
    ensures forall j :: 0 <= j < lo ==> level[j].largest.user < b
    ensures forall j :: lo <= j < |level| ==> b <= level[j].largest.user
  {
    lo := 0;
    while lo < |level| && level[lo].largest.user < b
      invariant lo <= |level|
      invariant forall j :: 0 <= j < lo ==> level[j].largest.user < b
    {
      lo := lo + 1;
    }
    forall j | lo < j < |level|
      ensures b <= level[j].largest.user
    {
      EndsAscend(level, lo, j);
    }
  }

  lemma FirstBeyond(level: seq<File>, e: UserKey, lo: nat) returns (hi: nat)
    requires ValidFiles(level) && Disjoint(level) && lo <= |level|
    ensures lo <= hi <= |level|
    ensures forall j :: lo <= j < hi ==> level[j].smallest.user <= e
    ensures forall j :: hi <= j < |level| ==> e < level[j].smallest.user
  {
    hi := lo;
    while hi < |level| && level[hi].smallest.user <= e
      invariant lo <= hi <= |level|
      invariant forall j :: lo <= j < hi ==> level[j].smallest.user <= e
    {
      hi := hi + 1;
    }
    forall j | hi < j < |level|
      ensures e < level[j].smallest.user
    {
      EndsAscend(level, hi, j);
    }
  }

  /** The files of a disjoint level that overlap a range form an interval. */
  lemma OverlapInterval(level: seq<File>, b: UserKey, e: UserKey) returns (lo: nat, hi: nat)
    requires ValidFiles(level) && Disjoint(level)
    ensures OverlapBounds(level, b, e, lo, hi)
    ensures Overlapping(level, Some(b), Some(e)) == level[lo..hi]
  {
    hide ValidFiles, Disjoint;
    lo := FirstFrom(level, b);
    hi := FirstBeyond(level, e, lo);
    OverlapSlice(level, b, e, lo, hi, |level|);
    assert level[..|level|] == level;
  }

  lemma OneMoreFile(level: seq<File>, b: UserKey, e: UserKey, n: nat)
    requires 0 < n <= |level|
    ensures Overlapping(level[..n], Some(b), Some(e))
            == Overlapping(level[..n - 1], Some(b), Some(e)) + if Misses(level[n - 1], Some(b), Some(e)) then [] else [level[n - 1]]
  {
    assert level[..n][..n - 1] == level[..n - 1];
  }

  /** The part of the first `n` files that lies between lo and hi. */
  function Part(level: seq<File>, lo: nat, hi: nat, n: nat): seq<File>
    requires lo <= hi <= |level| && n <= |level|
  {
    if n <= lo then [] else level[lo..if n < hi then n else hi]
  }

  lemma PartGrows(level: seq<File>, lo: nat, hi: nat, n: nat)
    requires lo <= hi <= |level| && 0 < n <= |level|
    ensures Part(level, lo, hi, n) == Part(level, lo, hi, n - 1) + if lo <= n - 1 < hi then [level[n - 1]] else []
  {
    if lo <= n - 1 < hi {
      assert level[lo..n] == level[lo..n - 1] + [level[n - 1]];
    }
  }

  lemma PartOfNone(level: seq<File>, b: UserKey, e: UserKey, lo: nat, hi: nat)
    requires lo <= hi <= |level|
    ensures Overlapping(level[..0], Some(b), Some(e)) == [] == Part(level, lo, hi, 0)
  {
  }

  lemma WhoMisses(level: seq<File>, b: UserKey, e: UserKey, lo: nat, hi: nat, k: nat)
    requires OverlapBounds(level, b, e, lo, hi) && k < |level|
    ensures lo <= hi <= |level| && (Misses(level[k], Some(b), Some(e)) <==> !(lo <= k < hi))
  {
  }

  lemma {:induction false} OverlapSlice(level: seq<File>, b: UserKey, e: UserKey, lo: nat, hi: nat, n: nat)
    requires OverlapBounds(level, b, e, lo, hi) && lo <= hi <= |level|
    requires n <= |level|
    ensures Overlapping(level[..n], Some(b), Some(e)) == Part(level, lo, hi, n)
  {
    hide Overlapping, OverlapBounds, Misses, Part;
    if n > 0 {
      OverlapSlice(level, b, e, lo, hi, n - 1);
      WhoMisses(level, b, e, lo, hi, n - 1);
      OneMoreFile(level, b, e, n);
      PartGrows(level, lo, hi, n);
    } else {
      PartOfNone(level, b, e, lo, hi);
    }
  }

  lemma BoundsAscend(level: seq<File>, i: nat, j: nat)
    requires ValidFiles(level) && Disjoint(level) && i < j < |level|
    ensures Less(level[i].smallest, level[j].smallest) && Less(level[i].largest, level[j].largest)
  {
    BoundsInOrder(level[i]);
    BoundsInOrder(level[j]);
  }

  lemma IntervalRange(level: seq<File>, lo: nat, hi: nat, s: InternalKey, t: InternalKey)
    requires ValidFiles(level) && Disjoint(level)
    requires lo < hi <= |level|
    requires IsSmallest(level[lo..hi], s) && IsLargest(level[lo..hi], t)
    ensures s == level[lo].smallest && t == level[hi - 1].largest
  {
    var part := level[lo..hi];
    assert forall k :: 0 <= k < |part| ==> part[k] == level[lo + k];
    hide IsSmallest, IsLargest;
    FirstIsSmallest(level, lo, part, s);
    LastIsLargest(level, lo, part, t);
  }

  lemma FirstIsSmallest(level: seq<File>, lo: nat, part: seq<File>, s: InternalKey)
    requires ValidFiles(level) && Disjoint(level) && lo + |part| <= |level| && part != []
    requires forall k :: 0 <= k < |part| ==> part[k] == level[lo + k]
    requires IsSmallest(part, s)
    ensures s == level[lo].smallest
  {
    hide ValidFiles, Disjoint;
    var i: nat :| i < |part| && part[i].smallest == s;
    assert !Less(part[0].smallest, s);
    if i > 0 {
      BoundsAscend(level, lo, lo + i);
    }
  }

  lemma LastIsLargest(level: seq<File>, lo: nat, part: seq<File>, t: InternalKey)
    requires ValidFiles(level) && Disjoint(level) && lo + |part| <= |level| && part != []
    requires forall k :: 0 <= k < |part| ==> part[k] == level[lo + k]
    requires IsLargest(part, t)
    ensures t == level[lo + |part| - 1].largest
  {
    hide ValidFiles, Disjoint;
    var j: nat :| j < |part| && part[j].largest == t;
    var n := |part| - 1;
    assert !Less(t, part[n].largest);
    if j < n {
      BoundsAscend(level, lo + j, lo + n);
    }
  }

  // ------------------------------------------------------------------ closed selections

  ghost predicate LevelsInOrder(levels: seq<seq<File>>) {
    && |levels| == NUM_LEVELS
    && (forall l :: 0 <= l < NUM_LEVELS ==> ValidFiles(levels[l]) && DistinctNumbers(levels[l]))
    && (forall l :: 1 <= l < NUM_LEVELS ==> Disjoint(levels[l]))
  }

  /** Every version in `f` of a user key that `x` also holds is newer than all versions in `x`. */
  ghost predicate OnlyNewer(f: File, x: File) {
    forall e, y :: e in f.entries && y in x.entries && e.k.user == y.k.user ==> Less(e.k, y.k)
  }

  ghost predicate OnlyNewerThanAll(f: File, xs: seq<File>) {
    forall x :: x in xs ==> OnlyNewer(f, x)
  }

  /** `f` lies wholly to one side of the files `xs`. */
  ghost predicate Beside(f: File, xs: seq<File>) {
    || (forall x :: x in xs ==> Less(f.largest, x.smallest))
    || (forall x :: x in xs ==> Less(x.largest, f.smallest))
  }

  /** The inputs `a` from `level` and `b` from the level below leave no older version of one of their
      user keys behind, and nothing on the lower level inside the merged range. */
  ghost predicate ClosedSelection(levels: seq<seq<File>>, level: nat, a: seq<File>, b: seq<File>)
    requires level + 1 < |levels|
  {
    && a != [] && DistinctNumbers(a) && DistinctNumbers(b)
    && (forall f :: f in a ==> f in levels[level])
    && (forall f :: f in b ==> f in levels[level + 1])
    && (forall f :: f in levels[level] && f !in a ==> OnlyNewerThanAll(f, a))
    && (forall f :: f in levels[level + 1] && f !in b ==> OnlyNewerThanAll(f, a + b) && Beside(f, a + b))
  }

  /** What a picker may hand to SetupOtherInputs: at level 0 all files overlapping a closed range,
      deeper a run of neighbouring files. */
  ghost predicate Picked(levels: seq<seq<File>>, level: nat, inputs: seq<File>)
    requires level < |levels|
  {
    && inputs != []
    && (level == 0 ==> exists b, e :: ClosedRange(levels[0], b, e) && inputs == Overlapping(levels[0], b, e))
    && (level > 0 ==> exists lo, hi :: 0 <= lo < hi <= |levels[level]| && inputs == levels[level][lo..hi])
  }

  /** A picked input list that also has no boundary file left. */
  ghost predicate PickedClosed(levels: seq<seq<File>>, level: nat, inputs: seq<File>)
    requires level < |levels|
  {
    && inputs != []
    && (level == 0 ==> exists b, e :: ClosedRange(levels[0], b, e) && inputs == Overlapping(levels[0], b, e))
    && (level > 0 ==> exists lo: nat, hi: nat :: ClosedInterval(levels[level], inputs, lo, hi))
  }

  ghost predicate ClosedInterval(files: seq<File>, inputs: seq<File>, lo: nat, hi: nat) {
    lo < hi <= |files| && inputs == files[lo..hi] && (hi < |files| ==> !Touches(files, hi))
  }

  /** At level 0 a closed range already contains its boundary files. */
  lemma NoBoundaryOfClosedRange(files: seq<File>, b: Option<UserKey>, e: Option<UserKey>, largest: InternalKey)
    requires ValidFiles(files) && ClosedRange(files, b, e)
    requires IsLargest(Overlapping(files, b, e), largest)
    ensures NoBoundary(files, largest)
  {
    forall g | g in files
      ensures !IsBoundary(g, largest)
    {
      var inputs := Overlapping(files, b, e);
      var i :| 0 <= i < |inputs| && inputs[i].largest == largest;
      OverlappingMembers(files, b, e, inputs[i]);
      OverlappingMembers(files, b, e, g);
      BoundsInOrder(inputs[i]);
      BoundsInOrder(g);
    }
  }

  lemma ChainNeedsBoundary(level: seq<File>, first: InternalKey, chain: seq<File>)
    requires BoundaryChain(level, first, chain) && chain != []
    ensures !NoBoundary(level, first)
  {
    assert ChainStep(level, first, chain, 0);
  }

  lemma PickedWithBoundary(levels: seq<seq<File>>, level: nat, inputs: seq<File>, first: InternalKey, chain: seq<File>)
    requires LevelsInOrder(levels) && level < NUM_LEVELS
    requires Picked(levels, level, inputs)
    requires IsLargest(inputs, first) && BoundaryChain(levels[level], first, chain)
    requires NoBoundary(levels[level], ChainKey(first, chain, |chain|))
    ensures PickedClosed(levels, level, inputs + chain)
  {
    var files := levels[level];
    if level == 0 {
      var b, e :| ClosedRange(levels[0], b, e) && inputs == Overlapping(levels[0], b, e);
      NoBoundaryOfClosedRange(files, b, e, first);
      if chain != [] {
        ChainNeedsBoundary(files, first, chain);
      }
      assert inputs + chain == inputs;
    } else {
      var lo, hi :| 0 <= lo < hi <= |files| && inputs == files[lo..hi];
      IntervalExtended(files, lo, hi, first, chain);
      assert ClosedInterval(files, inputs + chain, lo, hi + |chain|);
    }
  }

  lemma IntervalExtended(files: seq<File>, lo: nat, hi: nat, first: InternalKey, chain: seq<File>)
    requires ValidFiles(files) && Disjoint(files)
    requires lo < hi <= |files|
    requires IsLargest(files[lo..hi], first) && BoundaryChain(files, first, chain)
    requires NoBoundary(files, ChainKey(first, chain, |chain|))
    ensures ClosedInterval(files, files[lo..hi] + chain, lo, hi + |chain|)
    ensures forall j :: hi <= j < hi + |chain| ==> Touches(files, j)
  {
    IntervalLargest(files, lo, hi, first);
    ChainExtendsInterval(files, hi, chain);
    var n := hi + |chain|;
    assert ChainKey(first, chain, |chain|) == files[n - 1].largest by {
      if chain != [] {
        assert chain[|chain| - 1] == files[n - 1];
      }
    }
    if n < |files| {
      NoBoundaryNext(files, n);
    }
    IntervalAppend(files, lo, hi, chain);
  }

  lemma IntervalAppend(files: seq<File>, lo: nat, hi: nat, chain: seq<File>)
    requires lo <= hi && hi + |chain| <= |files|
    requires forall i :: 0 <= i < |chain| ==> chain[i] == files[hi + i]
    ensures files[lo..hi] + chain == files[lo..hi + |chain|]
  {
  }

  lemma IntervalLargest(files: seq<File>, lo: nat, hi: nat, t: InternalKey)
    requires ValidFiles(files) && Disjoint(files)
    requires lo < hi <= |files|
    requires IsLargest(files[lo..hi], t)
    ensures t == files[hi - 1].largest
  {
    var s, t' := GetRangeOf(files[lo..hi]);
    IntervalRange(files, lo, hi, s, t);
  }

  lemma {:induction false} GetRangeOf(inputs: seq<File>) returns (s: InternalKey, t: InternalKey)
    requires inputs != []
    ensures IsSmallest(inputs, s) && IsLargest(inputs, t)
  {
    var f := inputs[|inputs| - 1];
    var rest := inputs[..|inputs| - 1];
    assert inputs == rest + [f];
    if rest == [] {
      s, t := f.smallest, f.largest;
    } else {
      s, t := GetRangeOf(rest);
      if Less(f.smallest, s) { s := f.smallest; }
      if Less(t, f.largest) { t := f.largest; }
      var i :| 0 <= i < |inputs| && inputs[i].smallest == s;
      var j :| 0 <= j < |inputs| && inputs[j].largest == t;
    }
  }

  // ------------------------------------------------------------------ why selections are closed

  lemma ApartOnlyNewer(f: File, x: File)
    requires ValidFile(f) && ValidFile(x)
    requires f.largest.user < x.smallest.user || x.largest.user < f.smallest.user || Less(f.largest, x.smallest)
    ensures OnlyNewer(f, x)
  {
    forall e, y | e in f.entries && y in x.entries && e.k.user == y.k.user
      ensures Less(e.k, y.k)
    {
      BoundsOf(f, e);
      BoundsOf(x, y);
    }
  }

  /** To the right of an interval whose last file is not touched, all user keys are new. */
  lemma RightOfInterval(files: seq<File>, i: nat, hi: nat, k: nat)
    requires ValidFiles(files) && Disjoint(files)
    requires i < hi <= k < |files| && !Touches(files, hi)
    ensures files[i].largest.user < files[k].smallest.user
  {
    if i < hi - 1 {
      EndsAscend(files, i, hi - 1);
    }
    if hi < k {
      EndsAscend(files, hi, k);
    }
  }

  lemma IntervalMembers(files: seq<File>, lo: nat, hi: nat)
    requires lo <= hi <= |files|
    ensures forall k :: lo <= k < hi ==> files[k] in files[lo..hi]
  {
    forall k | lo <= k < hi
      ensures files[k] in files[lo..hi]
    {
      assert files[lo..hi][k - lo] == files[k];
    }
  }

  lemma IntervalLeavesOnlyNewer(files: seq<File>, inputs: seq<File>, lo: nat, hi: nat, k: nat, x: File)
    requires ValidFiles(files) && Disjoint(files)
    requires ClosedInterval(files, inputs, lo, hi)
    requires k < |files| && files[k] !in inputs && x in inputs
    ensures OnlyNewer(files[k], x)
  {
    var i :| 0 <= i < |inputs| && inputs[i] == x;
    assert files[lo + i] == x;
    IntervalMembers(files, lo, hi);
    if hi <= k {
      RightOfInterval(files, lo + i, hi, k);
    }
    ApartOnlyNewer(files[k], x);
  }

  lemma LevelLeavesOnlyNewer(levels: seq<seq<File>>, level: nat, a: seq<File>, f: File)
    requires LevelsInOrder(levels) && level < NUM_LEVELS
    requires PickedClosed(levels, level, a)
    requires f in levels[level] && f !in a
    ensures OnlyNewerThanAll(f, a)
  {
    forall x | x in a
      ensures OnlyNewer(f, x)
    {
      if level == 0 {
        var b, e :| ClosedRange(levels[0], b, e) && a == Overlapping(levels[0], b, e);
        OverlappingMembers(levels[0], b, e, f);
        OverlappingMembers(levels[0], b, e, x);
        ApartOnlyNewer(f, x);
      } else {
        var lo: nat, hi: nat :| ClosedInterval(levels[level], a, lo, hi);
        var k :| 0 <= k < |levels[level]| && levels[level][k] == f;
        IntervalLeavesOnlyNewer(levels[level], a, lo, hi, k, x);
      }
    }
  }

  /** The files of the lower level chosen for the user-key range s to t: those that overlap it, and
      behind them the files that touch. */
  ghost predicate ChosenBelow(files: seq<File>, s: UserKey, t: UserKey, b: seq<File>, lo: nat, h: nat, hi: nat) {
    && OverlapBounds(files, s, t, lo, h)
    && h <= hi <= |files| && b == files[lo..hi]
    && (lo == h ==> hi == h)
    && (forall j :: h <= j < hi ==> 0 < j && Touches(files, j))
    && (lo < hi < |files| ==> !Touches(files, hi))
  }

  lemma ChosenFromChain(files: seq<File>, s: UserKey, t: UserKey, picked: seq<File>, first: InternalKey, chain: seq<File>)
    returns (lo: nat, h: nat, hi: nat)
    requires ValidFiles(files) && Disjoint(files)
    requires picked == Overlapping(files, Some(s), Some(t))
    requires picked == [] ==> chain == []
    requires picked != [] ==> IsLargest(picked, first) && BoundaryChain(files, first, chain) && NoBoundary(files, ChainKey(first, chain, |chain|))
    ensures ChosenBelow(files, s, t, picked + chain, lo, h, hi)
  {
    lo, h := OverlapInterval(files, s, t);
    if lo == h {
      hi := h;
      assert picked + chain == files[lo..hi];
    } else {
      IntervalExtended(files, lo, h, first, chain);
      hi := h + |chain|;
    }
  }

  lemma BelowLeavesOnlyNewer(a: seq<File>, files: seq<File>, s: InternalKey, t: InternalKey, b: seq<File>,
                             lo: nat, h: nat, hi: nat, k: nat, x: File)
    requires ValidFiles(a) && ValidFiles(files) && Disjoint(files)
    requires IsSmallest(a, s) && IsLargest(a, t)
    requires ChosenBelow(files, s.user, t.user, b, lo, h, hi)
    requires k < |files| && files[k] !in b && x in a + b
    ensures k < lo || hi <= k
    ensures k < lo ==> Less(files[k].largest, x.smallest)
    ensures hi <= k ==> Less(x.largest, files[k].smallest)
    ensures OnlyNewer(files[k], x)
  {
    hide OnlyNewer;
    IntervalMembers(files, lo, hi);
    if x in a {
      WithinRange(a, s, t, x);
      BelowLeavesApart(files, s, t, b, lo, h, hi, k, x);
    } else {
      var i :| 0 <= i < |b| && b[i] == x;
      BelowLeavesBeside(files, s, t, b, lo, h, hi, k, i);
    }
    ApartOnlyNewer(files[k], x);
  }

  lemma WithinRange(a: seq<File>, s: InternalKey, t: InternalKey, x: File)
    requires ValidFiles(a) && IsSmallest(a, s) && IsLargest(a, t) && x in a
    ensures ValidFile(x) && !Less(x.smallest, s) && !Less(t, x.largest)
  {
    var i :| 0 <= i < |a| && a[i] == x;
  }

  lemma BelowLeavesApart(files: seq<File>, s: InternalKey, t: InternalKey, b: seq<File>, lo: nat, h: nat, hi: nat, k: nat, x: File)
    requires ValidFiles(files) && Disjoint(files) && ChosenBelow(files, s.user, t.user, b, lo, h, hi)
    requires k < |files| && (k < lo || hi <= k) && !Less(x.smallest, s) && !Less(t, x.largest)
    ensures k < lo ==> Less(files[k].largest, x.smallest)
    ensures hi <= k ==> x.largest.user < files[k].smallest.user
  {
  }

  lemma BelowLeavesBeside(files: seq<File>, s: InternalKey, t: InternalKey, b: seq<File>, lo: nat, h: nat, hi: nat, k: nat, i: nat)
    requires ValidFiles(files) && Disjoint(files) && ChosenBelow(files, s.user, t.user, b, lo, h, hi)
    requires k < |files| && (k < lo || hi <= k) && i < |b|
    ensures ValidFile(b[i])
    ensures k < lo ==> Less(files[k].largest, b[i].smallest)
    ensures hi <= k ==> b[i].largest.user < files[k].smallest.user
  {
    assert files[lo + i] == b[i];
    if hi <= k {
      RightOfInterval(files, lo + i, hi, k);
    }
  }

  lemma SelectionIsClosed(levels: seq<seq<File>>, level: nat, a: seq<File>, b: seq<File>,
                          s: InternalKey, t: InternalKey, lo: nat, h: nat, hi: nat)
    requires LevelsInOrder(levels) && level + 1 < NUM_LEVELS
    requires PickedClosed(levels, level, a) && ValidFiles(a)
    requires IsSmallest(a, s) && IsLargest(a, t)
    requires ChosenBelow(levels[level + 1], s.user, t.user, b, lo, h, hi)
    ensures ClosedSelection(levels, level, a, b)
  {
    var files := levels[level + 1];
    PickedAreLevelFiles(levels, level, a);
    PickedDistinct(levels, level, a);
    assert a != [];
    forall f | f in b ensures f in files {
      var i :| 0 <= i < |b| && b[i] == f;
      assert files[lo + i] == f;
    }
    assert DistinctNumbers(b);
    hide PickedClosed, IsSmallest, IsLargest, ChosenBelow, OnlyNewer, DistinctNumbers;
    forall f | f in levels[level] && f !in a
      ensures OnlyNewerThanAll(f, a)
    {
      LevelLeavesOnlyNewer(levels, level, a, f);
    }
    forall f | f in files && f !in b
      ensures OnlyNewerThanAll(f, a + b) && Beside(f, a + b)
    {
      LeftBelow(a, files, s, t, b, lo, h, hi, f);
    }
  }

  lemma LeftBelow(a: seq<File>, files: seq<File>, s: InternalKey, t: InternalKey, b: seq<File>, lo: nat, h: nat, hi: nat, f: File)
    requires ValidFiles(a) && ValidFiles(files) && Disjoint(files) && a != []
    requires IsSmallest(a, s) && IsLargest(a, t) && ChosenBelow(files, s.user, t.user, b, lo, h, hi)
    requires f in files && f !in b
    ensures OnlyNewerThanAll(f, a + b) && Beside(f, a + b)
  {
    hide IsSmallest, IsLargest, ChosenBelow, OnlyNewer, ValidFiles, Disjoint;
    var k: nat :| k < |files| && files[k] == f;
    forall x | x in a + b
      ensures OnlyNewer(f, x)
      ensures k < lo || hi <= k
      ensures k < lo ==> Less(f.largest, x.smallest)
      ensures hi <= k ==> Less(x.largest, f.smallest)
    {
      BelowLeavesOnlyNewer(a, files, s, t, b, lo, h, hi, k, x);
    }
    assert a[0] in a + b;
  }

  lemma PickedAreLevelFiles(levels: seq<seq<File>>, level: nat, a: seq<File>)
    requires level < |levels|
    requires PickedClosed(levels, level, a)
    ensures forall f :: f in a ==> f in levels[level]
  {
    forall f | f in a
      ensures f in levels[level]
    {
      if level == 0 {
        var b, e :| ClosedRange(levels[0], b, e) && a == Overlapping(levels[0], b, e);
        OverlappingMembers(levels[0], b, e, f);
      } else {
        var lo: nat, hi: nat :| ClosedInterval(levels[level], a, lo, hi);
        var i :| 0 <= i < |a| && a[i] == f;
        assert levels[level][lo + i] == f;
      }
    }
  }

  lemma {:induction false} OverlappingDistinct(files: seq<File>, b: Option<UserKey>, e: Option<UserKey>)
    requires DistinctNumbers(files)
    ensures DistinctNumbers(Overlapping(files, b, e))
  {
    if files != [] {
      var n := |files| - 1;
      OverlappingDistinct(files[..n], b, e);
      var rest := Overlapping(files[..n], b, e);
      forall i | 0 <= i < |rest|
        ensures rest[i].number != files[n].number
      {
        OverlappingMembers(files[..n], b, e, rest[i]);
      }
    }
  }

  lemma PickedDistinct(levels: seq<seq<File>>, level: nat, a: seq<File>)
    requires LevelsInOrder(levels) && level < NUM_LEVELS
    requires PickedClosed(levels, level, a)
    ensures DistinctNumbers(a)
  {
    if level == 0 {
      var b, e :| ClosedRange(levels[0], b, e) && a == Overlapping(levels[0], b, e);
      OverlappingDistinct(levels[0], b, e);
    }
  }

  /** Widening the range without changing the number of files below changes none of them. */
  lemma ExpansionKeepsLowerInputs(files: seq<File>, s: UserKey, t: UserKey, b: seq<File>, lo: nat, h: nat, hi: nat,
                                  s': UserKey, t': UserKey, b': seq<File>, lo': nat, h': nat, hi': nat)
    requires ChosenBelow(files, s, t, b, lo, h, hi) && b != []
    requires ChosenBelow(files, s', t', b', lo', h', hi')
    requires s' <= s && t <= t'
    requires |b'| == |b|
    ensures b' == b
  {
    assert s <= files[lo].largest.user && files[h - 1].smallest.user <= t;
  }

  // ------------------------------------------------------------------ SetupOtherInputs

  /** The files that overlap (s, t), then their boundary files. */
  ghost predicate OverlapsWithBoundary(files: seq<File>, level: nat, s: InternalKey, t: InternalKey, r: seq<File>) {
    exists inputs :: OverlapsRange(files, level, Some(s.user), Some(t.user), inputs) && WithBoundary(files, inputs, r)
  }

  /** What the selection would widen to: the files across the range of `a` and `b`. */
  ghost predicate Wider(files: seq<File>, level: nat, a: seq<File>, b: seq<File>, wide: seq<File>) {
    exists s, t :: IsSmallest(a + b, s) && IsLargest(a + b, t) && OverlapsWithBoundary(files, level, s, t, wide)
  }

  /** The lower files that `wide` would need. */
  ghost predicate NeedsBelow(files: seq<File>, wide: seq<File>, below: seq<File>) {
    exists s, t :: IsSmallest(wide, s) && IsLargest(wide, t) && AllBelow(files, s.user, t.user, below)
  }

  ghost predicate NoSharedKey(f: File, g: File) {
    forall x, y :: x in f.entries && y in g.entries ==> x.k.user != y.k.user
  }

  /** No lower file that stays behind has a user key of the upper inputs. */
  ghost predicate ClearBelow(files: seq<File>, a: seq<File>, b: seq<File>) {
    forall f, x :: f in files && f !in b && x in a ==> NoSharedKey(f, x)
  }

  lemma NeededIsClear(files: seq<File>, a: seq<File>, b: seq<File>)
    requires ValidFiles(files) && ValidFiles(a) && NeedsBelow(files, a, b)
    ensures ClearBelow(files, a, b)
  {
    var s, t :| IsSmallest(a, s) && IsLargest(a, t) && AllBelow(files, s.user, t.user, b);
    var lo, h, hi :| ChosenBelow(files, s.user, t.user, b, lo, h, hi);
    hide ValidFiles;
    forall f, x | f in files && f !in b && x in a
      ensures NoSharedKey(f, x)
    {
      var k :| 0 <= k < |files| && files[k] == f;
      RangeCovers(a, s, t, x);
      OutsideRange(files, s.user, t.user, b, lo, h, hi, k);
      ApartInUser(files, a, f, x);
    }
  }

  lemma OutsideRange(files: seq<File>, s: UserKey, t: UserKey, b: seq<File>, lo: nat, h: nat, hi: nat, k: nat)
    requires ChosenBelow(files, s, t, b, lo, h, hi) && k < |files| && files[k] !in b
    ensures files[k].largest.user < s || t < files[k].smallest.user
  {
    IntervalMembers(files, lo, hi);
  }

  lemma ApartInUser(files: seq<File>, a: seq<File>, f: File, x: File)
    requires ValidFiles(files) && ValidFiles(a) && f in files && x in a
    requires f.largest.user < x.smallest.user || x.largest.user < f.smallest.user
    ensures NoSharedKey(f, x)
  {
    forall e, y | e in f.entries && y in x.entries
      ensures e.k.user != y.k.user
    {
      BoundsOf(f, e);
      BoundsOf(x, y);
    }
  }

  /** Widening is worth trying: more files, and not too many bytes. */
  predicate WorthWidening(a: seq<File>, b: seq<File>, wide: seq<File>, expandedLimit: nat) {
    |wide| > |a| && TotalFileSize(b) + TotalFileSize(wide) < expandedLimit
  }

  /** The wider files are adopted exactly if that is worth trying and needs no more files below. */
  ghost predicate Widened(levels: seq<seq<File>>, level: nat, a0: seq<File>, b: seq<File>, expandedLimit: nat, a: seq<File>)
    requires level + 1 < |levels|
  {
    if b == [] then a == a0
    else exists wide, below ::
      && Wider(levels[level], level, a0, b, wide)
      && (WorthWidening(a0, b, wide, expandedLimit) ==> NeedsBelow(levels[level + 1], wide, below))
      && a == if WorthWidening(a0, b, wide, expandedLimit) && |below| == |b| then wide else a0
  }

  ghost predicate AllBelow(files: seq<File>, s: UserKey, t: UserKey, b: seq<File>) {
    exists lo, h, hi :: ChosenBelow(files, s, t, b, lo, h, hi)
  }

  /** The lower inputs for range (s, t): overlapping files, then boundary files. */
  method ChooseBelow(files: seq<File>, level: nat, s: InternalKey, t: InternalKey)
    returns (b: seq<File>, ghost lo: nat, ghost h: nat, ghost hi: nat)
    requires level > 0 && ValidFiles(files) && Disjoint(files)
    ensures AllBelow(files, s.user, t.user, b)
    ensures ChosenBelow(files, s.user, t.user, b, lo, h, hi)
  {
    var picked, x, y := GetOverlappingInputs(files, level, Some(s), Some(t));
    ghost var first, chain;
    b, first, chain := AddBoundaryInputs(files, picked);
    lo, h, hi := ChosenFromChain(files, s.user, t.user, picked, first, chain);
  }

  /** The files of the picked level that overlap (s, t), then boundary files: again a closed pick. */
  method ExpandAcross(levels: seq<seq<File>>, level: nat, ghost a: seq<File>, s: InternalKey, t: InternalKey) returns (r: seq<File>)
    requires LevelsInOrder(levels) && level < NUM_LEVELS
    requires PickedClosed(levels, level, a)
    requires forall f :: f in a ==> s.user <= f.smallest.user && f.largest.user <= t.user
    ensures PickedClosed(levels, level, r) && OverlapsWithBoundary(levels[level], level, s, t, r)
    ensures forall f :: f in a ==> f in r
  {
    var inputs, b, e := GetOverlappingInputs(levels[level], level, Some(s), Some(t));
    PickedAreLevelFiles(levels, level, a);
    forall f | f in a
      ensures f in inputs
    {
      BoundsOfLevelFile(levels[level], f);
      OverlappingMembers(levels[level], b, e, f);
    }
    assert a[0] in a;
    assert Picked(levels, level, inputs) by {
      if level > 0 {
        var lo, hi := OverlapInterval(levels[level], s.user, t.user);
      }
    }
    ghost var first, chain;
    r, first, chain := AddBoundaryInputs(levels[level], inputs);
    PickedWithBoundary(levels, level, inputs, first, chain);
  }

  lemma BoundsOfLevelFile(files: seq<File>, f: File)
    requires ValidFiles(files) && f in files
    ensures ValidFile(f) && f.smallest.user <= f.largest.user
  {
    BoundsInOrder(f);
  }

  lemma RangeCovers(files: seq<File>, s: InternalKey, t: InternalKey, f: File)
    requires IsSmallest(files, s) && IsLargest(files, t) && f in files
    ensures s.user <= f.smallest.user && f.largest.user <= t.user
  {
    var i :| 0 <= i < |files| && files[i] == f;
    assert !Less(files[i].smallest, s) && !Less(t, files[i].largest);
  }

  lemma PickedValid(levels: seq<seq<File>>, level: nat, a: seq<File>)
    requires LevelsInOrder(levels) && level < NUM_LEVELS
    requires PickedClosed(levels, level, a)
    ensures ValidFiles(a)
  {
    PickedAreLevelFiles(levels, level, a);
    forall i | 0 <= i < |a|
      ensures ValidFile(a[i])
    {
      assert a[i] in a;
    }
  }

  /** The files that overlap the user-key range spanned by `inputs`. */
  ghost predicate OverlapOfAll(files: seq<File>, inputs: seq<File>, r: seq<File>) {
    exists s, t :: (&& IsSmallest(inputs, s) && IsLargest(inputs, t)
                    && r == Overlapping(files, Some(s.user), Some(t.user)))
  }

  /** The picked files with their boundary files, and the lower files these need. */
  method ChooseInputs(levels: seq<seq<File>>, level: nat, inputs0: seq<File>)
    returns (a: seq<File>, b: seq<File>, smallest: InternalKey, largest: InternalKey, ghost lo: nat, ghost h: nat, ghost hi: nat)
    requires LevelsInOrder(levels) && level + 1 < NUM_LEVELS
    requires Picked(levels, level, inputs0)
    ensures a != [] && PickedClosed(levels, level, a) && WithBoundary(levels[level], inputs0, a)
    ensures ClosedSelection(levels, level, a, b) && NeedsBelow(levels[level + 1], a, b)
    ensures IsSmallest(a, smallest) && IsLargest(a, largest) && ChosenBelow(levels[level + 1], smallest.user, largest.user, b, lo, h, hi)
  {
    assert inputs0 != [];
    hide ClosedSelection, Picked, WithBoundary, NeedsBelow, ChosenBelow, AllBelow, BoundaryChain, NoBoundary, IsSmallest, IsLargest,
      Overlapping, ValidFiles, Disjoint;
    ghost var first, chain;
    a, first, chain := AddBoundaryInputs(levels[level], inputs0);
    PickedWithBoundary(levels, level, inputs0, first, chain);
    smallest, largest := GetRange(a);
    b, lo, h, hi := ChooseBelow(levels[level + 1], level + 1, smallest, largest);
    PickedValid(levels, level, a);
    SelectionIsClosed(levels, level, a, b, smallest, largest, lo, h, hi);
    NeededBelow(levels[level + 1], a, smallest, largest, b);
  }

  /** From what the picker chose to the final inputs.  The result contains the picked files and is
      closed; expanding on the upper level is adopted only if it leaves the lower inputs as they are. */
  method SetupOtherInputs(levels: seq<seq<File>>, level: nat, inputs0: seq<File>, expandedLimit: nat)
    returns (a: seq<File>, b: seq<File>, grandparents: seq<File>, compactPointer: InternalKey, ghost unexpanded: seq<File>)
    requires LevelsInOrder(levels) && level + 1 < NUM_LEVELS
    requires Picked(levels, level, inputs0)
    ensures PickedClosed(levels, level, a)
    ensures ClosedSelection(levels, level, a, b)
    ensures ClosedSelection(levels, level, unexpanded, b)
    ensures WithBoundary(levels[level], inputs0, unexpanded) && forall f :: f in unexpanded ==> f in a
    ensures Widened(levels, level, unexpanded, b, expandedLimit, a) && NeedsBelow(levels[level + 1], a, b)
    ensures IsLargest(a, compactPointer)
    ensures level + 2 < NUM_LEVELS ==> OverlapOfAll(levels[level + 2], a + b, grandparents)
    ensures level + 2 >= NUM_LEVELS ==> grandparents == []
  {
    hide PickedClosed, ClosedSelection, Picked, WithBoundary, NeedsBelow, ChosenBelow, IsSmallest, IsLargest, Overlapping, OverlapOfAll;
    ghost var lo, h, hi;
    var smallest, largest;
    a, b, smallest, largest, lo, h, hi := ChooseInputs(levels, level, inputs0);
    unexpanded := a;
    var allStart, allLimit := GetRange(a + b);

    if |b| > 0 {
      a := Widen(levels, level, a, b, smallest, largest, allStart, allLimit, expandedLimit, lo, h, hi);
      smallest, largest := GetRange(a);
      allStart, allLimit := GetRange(a + b);
    }
    grandparents := GrandparentsOf(levels, level, a + b, allStart, allLimit);
    compactPointer := largest;
  }

  /** The files two levels down that overlap the range of all inputs. */
  method GrandparentsOf(levels: seq<seq<File>>, level: nat, ghost inputs: seq<File>, allStart: InternalKey, allLimit: InternalKey)
    returns (grandparents: seq<File>)
    requires |levels| == NUM_LEVELS && IsSmallest(inputs, allStart) && IsLargest(inputs, allLimit)
    ensures level + 2 < NUM_LEVELS ==> OverlapOfAll(levels[level + 2], inputs, grandparents)
    ensures level + 2 >= NUM_LEVELS ==> grandparents == []
  {
    grandparents := [];
    if level + 2 < NUM_LEVELS {
      ghost var x, y;
      grandparents, x, y := GetOverlappingInputs(levels[level + 2], level + 2, Some(allStart), Some(allLimit));
    }
  }

  /** More files of the picked level, if they need no more files below. */
  method Widen(levels: seq<seq<File>>, level: nat, a: seq<File>, b: seq<File>, smallest: InternalKey, largest: InternalKey,
               allStart: InternalKey, allLimit: InternalKey, expandedLimit: nat, ghost lo: nat, ghost h: nat, ghost hi: nat)
    returns (r: seq<File>)
    requires LevelsInOrder(levels) && level + 1 < NUM_LEVELS && b != []
    requires PickedClosed(levels, level, a) && ClosedSelection(levels, level, a, b)
    requires IsSmallest(a, smallest) && IsLargest(a, largest) && IsSmallest(a + b, allStart) && IsLargest(a + b, allLimit)
    requires ChosenBelow(levels[level + 1], smallest.user, largest.user, b, lo, h, hi) && NeedsBelow(levels[level + 1], a, b)
    ensures PickedClosed(levels, level, r) && ClosedSelection(levels, level, r, b)
    ensures (forall f :: f in a ==> f in r) && Widened(levels, level, a, b, expandedLimit, r) && NeedsBelow(levels[level + 1], r, b)
  {
    hide PickedClosed, ClosedSelection, WithBoundary, OverlapsRange, Overlapping, AllBelow, LevelsInOrder, ChosenBelow, Widened;
    hide Wider, OverlapsWithBoundary, NeedsBelow, TotalFileSize, ValidFiles, Disjoint;
    LevelInOrder(levels, level + 1);
    AllCovered(a, b, allStart, allLimit);
    var expanded0 := ExpandAcross(levels, level, a, allStart, allLimit);
    RangeWidened(levels[level], level, a, b, allStart, allLimit, expanded0);
    hide IsSmallest, IsLargest;
    r := a;
    var size1 := TotalSize(b);
    var size0 := TotalSize(expanded0);
    ghost var below := b;
    if |expanded0| > |a| && size1 + size0 < expandedLimit {
      PickedValid(levels, level, expanded0);
      var newStart, newLimit := GetRange(expanded0);
      var expanded1, lo', h', hi' := ChooseBelow(levels[level + 1], level + 1, newStart, newLimit);
      NeededBelow(levels[level + 1], expanded0, newStart, newLimit, expanded1);
      below := expanded1;
      if |expanded1| == |b| {
        NarrowerRange(a, smallest, largest, expanded0, newStart, newLimit);
        ExpansionKeepsLowerInputs(levels[level + 1], smallest.user, largest.user, b, lo, h, hi,
                                  newStart.user, newLimit.user, expanded1, lo', h', hi');
        SelectionIsClosed(levels, level, expanded0, expanded1, newStart, newLimit, lo', h', hi');
        r := expanded0;
      }
    }
    WidenedBy(levels, level, a, b, expandedLimit, r, expanded0, below);
  }

  lemma LevelInOrder(levels: seq<seq<File>>, level: nat)
    requires LevelsInOrder(levels) && 1 <= level < NUM_LEVELS
    ensures |levels| == NUM_LEVELS && ValidFiles(levels[level]) && Disjoint(levels[level])
  {
  }

  lemma AllCovered(a: seq<File>, b: seq<File>, s: InternalKey, t: InternalKey)
    requires IsSmallest(a + b, s) && IsLargest(a + b, t)
    ensures forall f :: f in a ==> s.user <= f.smallest.user && f.largest.user <= t.user
  {
    forall f | f in a
      ensures s.user <= f.smallest.user && f.largest.user <= t.user
    {
      RangeCovers(a + b, s, t, f);
    }
  }

  lemma RangeWidened(files: seq<File>, level: nat, a: seq<File>, b: seq<File>, s: InternalKey, t: InternalKey, wide: seq<File>)
    requires IsSmallest(a + b, s) && IsLargest(a + b, t) && OverlapsWithBoundary(files, level, s, t, wide)
    ensures Wider(files, level, a, b, wide)
  {
  }

  lemma NeededBelow(files: seq<File>, wide: seq<File>, s: InternalKey, t: InternalKey, below: seq<File>)
    requires IsSmallest(wide, s) && IsLargest(wide, t) && AllBelow(files, s.user, t.user, below)
    ensures NeedsBelow(files, wide, below)
  {
  }

  lemma WidenedBy(levels: seq<seq<File>>, level: nat, a: seq<File>, b: seq<File>, expandedLimit: nat, r: seq<File>, wide: seq<File>, below: seq<File>)
    requires level + 1 < |levels| && b != []
    requires Wider(levels[level], level, a, b, wide)
    requires WorthWidening(a, b, wide, expandedLimit) ==> NeedsBelow(levels[level + 1], wide, below)
    requires r == if WorthWidening(a, b, wide, expandedLimit) && |below| == |b| then wide else a
    ensures Widened(levels, level, a, b, expandedLimit, r)
  {
    hide Wider, NeedsBelow, WorthWidening;
  }

  lemma NarrowerRange(a: seq<File>, s: InternalKey, t: InternalKey, wider: seq<File>, s': InternalKey, t': InternalKey)
    requires IsSmallest(a, s) && IsLargest(a, t)
    requires IsSmallest(wider, s') && IsLargest(wider, t')
    requires forall f :: f in a ==> f in wider
    ensures s'.user <= s.user && t.user <= t'.user
  {
    var i :| 0 <= i < |a| && a[i].smallest == s;
    var j :| 0 <= j < |a| && a[j].largest == t;
    assert a[i] in a && a[j] in a;
    RangeCovers(wider, s', t', a[i]);
    RangeCovers(wider, s', t', a[j]);
  }

  method TotalSize(files: seq<File>) returns (total: nat)
    ensures total == TotalFileSize(files)
  {
    total := 0;
    for i := 0 to |files|
      invariant total == TotalFileSize(files[..i])
    {
      assert files[..i + 1][..i] == files[..i];
      total := total + files[i].size;
    }
    assert files[..|files|] == files;
  }
}

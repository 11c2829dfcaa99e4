/** Replacing some files of two neighbouring levels by others one level down: the common part of a
    trivial move and of installing a compaction. */
module SafetyRewrite {
  import opened Keys
  import opened Files
  import opened Versions
  import opened InputSelection
  import opened Engine
  import opened Invariants

  /** `db'` is `db` with the files `a` of `level` and `b` of the next level gone, and `outs` added there. */
  ghost predicate Rewritten(db: Db, db': Db, level: nat, a: seq<File>, b: seq<File>, outs: seq<File>) {
    && db'.mem == db.mem && db'.imm == db.imm && db'.logs == db.logs && db'.last == db.last
    && db'.snapshots == db.snapshots && db'.pending == None && db'.reopenedAt == db.reopenedAt
    && db'.history == db.history
    && db'.vs.manifest != [] && db'.vs.core.logNumber == db.vs.core.logNumber
    && db'.vs.core.lastSequence == db.vs.core.lastSequence
    && LevelsRewritten(db.Levels(), db'.Levels(), level, a, b, outs)
  }

  ghost predicate LevelsRewritten(levels: seq<seq<File>>, levels': seq<seq<File>>, level: nat, a: seq<File>, b: seq<File>, outs: seq<File>) {
    && |levels| == |levels'| == NUM_LEVELS && level + 1 < NUM_LEVELS
    && (forall f :: f in levels'[level] <==> f in levels[level] && f !in a)
    && (forall f :: f in levels'[level + 1] <==> (f in levels[level + 1] && f !in b) || f in outs)
    && (forall l :: 0 <= l < NUM_LEVELS && l != level && l != level + 1 ==> levels'[l] == levels[l])
  }

  /** File `h` of level `l` is not an input. */
  predicate RestFile(level: nat, a: seq<File>, b: seq<File>, l: int, h: File) {
    (l == level ==> h !in a) && (l == level + 1 ==> h !in b)
  }

  /** `e` is stored at `p` in memory or in a file that is not an input. */
  ghost predicate RestAt(db: Db, level: nat, a: seq<File>, b: seq<File>, p: Place, e: Entry) {
    || (p == MEM && e in db.mem)
    || (p == IMM && e in db.imm)
    || (0 <= p.level < |db.Levels()| && exists h ::
         h in db.Levels()[p.level] && h.number == p.number && e in h.entries && RestFile(level, a, b, p.level, h))
  }

  ghost predicate InputAt(level: nat, a: seq<File>, b: seq<File>, p: Place, g: File, e: Entry) {
    && e in g.entries && p.number == g.number
    && ((p.level == level && g in a) || (p.level == level + 1 && g in b))
  }

  ghost predicate OutAt(level: nat, outs: seq<File>, p: Place, e: Entry) {
    p.level == level + 1 && exists o :: o in outs && o.number == p.number && e in o.entries
  }

  // ------------------------------------------------------------------ places before and after

  lemma StoredSplits(db: Db, level: nat, a: seq<File>, b: seq<File>, p: Place, e: Entry)
    requires Stored(db, p, e)
    ensures RestAt(db, level, a, b, p, e) || exists g :: InputAt(level, a, b, p, g, e)
  {
    if 0 <= p.level < |db.Levels()| {
      var h :| h in db.Levels()[p.level] && h.number == p.number && e in h.entries;
      assert RestFile(level, a, b, p.level, h) || InputAt(level, a, b, p, h, e);
    }
  }

  lemma RestIsStored(db: Db, level: nat, a: seq<File>, b: seq<File>, p: Place, e: Entry)
    requires RestAt(db, level, a, b, p, e)
    ensures Stored(db, p, e)
  {
  }

  lemma InputIsStored(db: Db, level: nat, a: seq<File>, b: seq<File>, p: Place, g: File, e: Entry)
    requires InputAt(level, a, b, p, g, e)
    requires level + 1 < |db.Levels()| && ClosedSelection(db.Levels(), level, a, b)
    ensures Stored(db, p, e)
  {
  }

  lemma InputPlace(level: nat, a: seq<File>, b: seq<File>, e: Entry) returns (p: Place, g: File)
    requires InFiles(a + b, e)
    ensures InputAt(level, a, b, p, g, e)
  {
    g :| g in a + b && e in g.entries;
    p := if g in a then Place(level, g.number) else Place(level + 1, g.number);
  }

  lemma StoredAfter(db: Db, db': Db, level: nat, a: seq<File>, b: seq<File>, outs: seq<File>, p: Place, e: Entry)
    requires Rewritten(db, db', level, a, b, outs)
    ensures Stored(db', p, e) <==> RestAt(db, level, a, b, p, e) || OutAt(level, outs, p, e)
  {
    if p.level == level + 1 {
      if OutAt(level, outs, p, e) {
        var o :| o in outs && o.number == p.number && e in o.entries;
        assert o in db'.Levels()[p.level];
      }
    }
  }

  /** Files left on either level hold only newer versions of a user key than the inputs do. */
  lemma RestNotOlder(db: Db, level: nat, a: seq<File>, b: seq<File>, p: Place, f: Entry, r: Place, g: File, x: Entry)
    requires HistoryInOrder(db) && OnlyHistory(db)
    requires level + 1 < |db.Levels()| && ClosedSelection(db.Levels(), level, a, b)
    requires RestAt(db, level, a, b, p, f) && InputAt(level, a, b, r, g, x)
    requires p.level == level || p.level == level + 1
    requires r.level <= p.level && f.k.user == x.k.user
    ensures x.k.seqno < f.k.seqno
  {
    var h :| h in db.Levels()[p.level] && h.number == p.number && f in h.entries && RestFile(level, a, b, p.level, h);
    assert OnlyNewer(h, g) by {
      if p.level == level {
        assert OnlyNewerThanAll(h, a);
      } else {
        assert OnlyNewerThanAll(h, a + b);
        assert g in a + b;
      }
    }
    assert Less(f.k, x.k);
    RestIsStored(db, level, a, b, p, f);
    InputIsStored(db, level, a, b, r, g, x);
    StoredIsHistory(db, p, f);
    StoredIsHistory(db, r, x);
  }

  // ------------------------------------------------------------------ what outputs must satisfy

  /** Some file two or more levels below `level` covers the user key. */
  ghost predicate CoveredDeeper(levels: seq<seq<File>>, level: nat, u: UserKey) {
    exists l :: level + 2 <= l < |levels| && Covers(levels[l], u)
  }

  ghost predicate HidesOlder(inputs: seq<File>, outs: seq<File>) {
    forall x, f :: InFiles(inputs, x) && InFiles(outs, f) && f.k.user == x.k.user && f.k.seqno <= x.k.seqno ==> InFiles(outs, x)
  }

  /** A dropped version whose key lives deeper is hidden by an output version that is old for all readers. */
  ghost predicate DroppedAreHidden(db: Db, level: nat, inputs: seq<File>, outs: seq<File>) {
    forall x :: InFiles(inputs, x) && !InFiles(outs, x) && CoveredDeeper(db.Levels(), level, x.k.user) ==>
      exists y :: InFiles(outs, y) && StandsFor(db, y, x) && Old(db, y)
  }

  ghost predicate ProperOutputs(db: Db, level: nat, a: seq<File>, b: seq<File>, outs: seq<File>) {
    && ValidFiles(outs)
    && (forall e :: InFiles(outs, e) ==> InFiles(a + b, e))
    && HidesOlder(a + b, outs)
    && DroppedAreHidden(db, level, a + b, outs)
    && (forall i, j, e :: 0 <= i < j < |outs| && e in outs[i].entries ==> e !in outs[j].entries)
  }

  // ------------------------------------------------------------------ newer stays above

  /** Where a stored version was before the rewrite, and that it did not move up. */
  lemma WhereBefore(db: Db, db': Db, level: nat, a: seq<File>, b: seq<File>, outs: seq<File>, p: Place, e: Entry) returns (p0: Place)
    requires Rewritten(db, db', level, a, b, outs) && ProperOutputs(db, level, a, b, outs)
    requires ClosedSelection(db.Levels(), level, a, b)
    requires Stored(db', p, e)
    ensures Stored(db, p0, e) && NoLater(p0, p)
    ensures RestAt(db, level, a, b, p, e) ==> p0 == p
    ensures !RestAt(db, level, a, b, p, e) ==> p.level == level + 1 && InFiles(outs, e)
  {
    StoredAfter(db, db', level, a, b, outs, p, e);
    if RestAt(db, level, a, b, p, e) {
      p0 := p;
      RestIsStored(db, level, a, b, p, e);
    } else {
      var o :| o in outs && o.number == p.number && e in o.entries;
      assert InFiles(outs, e);
      var g;
      p0, g := InputPlace(level, a, b, e);
      InputIsStored(db, level, a, b, p0, g, e);
    }
  }

  /** If a version covering `e` above `f` was an input, then `f` is stored at or below the output level,
      and an output covers `e`. */
  lemma InputCovers(db: Db, db': Db, level: nat, a: seq<File>, b: seq<File>, outs: seq<File>,
                    p: Place, f: Entry, e: Entry, p0: Place, q: Place, g: File, x: Entry)
    requires Rewritten(db, db', level, a, b, outs) && ProperOutputs(db, level, a, b, outs)
    requires ClosedSelection(db.Levels(), level, a, b) && LevelsInOrder(db.Levels())
    requires HistoryInOrder(db) && OnlyHistory(db)
    requires Stored(db', p, f) && f.k.user == e.k.user && f.k.seqno <= e.k.seqno
    requires NoLater(p0, p)
    requires RestAt(db, level, a, b, p, f) ==> p0 == p
    requires !RestAt(db, level, a, b, p, f) ==> p.level == level + 1 && InFiles(outs, f)
    requires NoLater(q, p0) && InputAt(level, a, b, q, g, x) && StandsFor(db, x, e)
    ensures p.level >= level + 1
    ensures exists y :: InFiles(outs, y) && StandsFor(db, y, e)
  {
    assert InFiles(a + b, x) by {
      assert g in a + b;
    }
    if RestAt(db, level, a, b, p, f) {
      if p.level <= level + 1 {
        assert q.level <= p.level;
        RestNotOlder(db, level, a, b, p, f, q, g, x);
        assert false;
      }
      var h :| h in db.Levels()[p.level] && h.number == p.number && f in h.entries && RestFile(level, a, b, p.level, h);
      LevelCovers(db.Levels(), p.level, h, f);
    }
    if !InFiles(outs, x) {
      assert RestAt(db, level, a, b, p, f);
      var y :| InFiles(outs, y) && StandsFor(db, y, x) && Old(db, y);
      assert StandsFor(db, y, e);
    }
  }

  lemma LevelCovers(levels: seq<seq<File>>, l: int, h: File, f: Entry)
    requires 0 <= l < |levels| && ValidFiles(levels[l]) && h in levels[l] && f in h.entries
    ensures Covers(levels[l], f.k.user)
  {
    var i :| 0 <= i < |levels[l]| && levels[l][i] == h;
    BoundsOf(h, f);
  }

  lemma OutputPlace(db: Db, db': Db, level: nat, a: seq<File>, b: seq<File>, outs: seq<File>, y: Entry) returns (q: Place)
    requires Rewritten(db, db', level, a, b, outs) && InFiles(outs, y)
    ensures q.level == level + 1 && Stored(db', q, y)
  {
    var o :| o in outs && y in o.entries;
    q := Place(level + 1, o.number);
    assert OutAt(level, outs, q, y);
    StoredAfter(db, db', level, a, b, outs, q, y);
  }

  lemma RewriteCovers(db: Db, db': Db, level: nat, a: seq<File>, b: seq<File>, outs: seq<File>, p: Place, f: Entry, e: Entry)
    requires Rewritten(db, db', level, a, b, outs) && ProperOutputs(db, level, a, b, outs)
    requires ClosedSelection(db.Levels(), level, a, b) && LevelsInOrder(db.Levels())
    requires HistoryInOrder(db) && OnlyHistory(db) && NewerAbove(db)
    requires Stored(db', p, f) && e in All(db) && f.k.user == e.k.user && f.k.seqno <= e.k.seqno
    ensures Covered(db', p, e)
  {
    var p0 := WhereBefore(db, db', level, a, b, outs, p, f);
    assert Covered(db, p0, e);
    var q, x :| NoLater(q, p0) && Stored(db, q, x) && StandsFor(db, x, e);
    hide NewerAbove, ClosedSelection, ProperOutputs, LevelsInOrder, HistoryInOrder, OnlyHistory;
    if RestAt(db, level, a, b, q, x) {
      StoredAfter(db, db', level, a, b, outs, q, x);
      CoveredBy(db, db', p, e, q, x);
    } else {
      StoredSplits(db, level, a, b, q, x);
      var g :| InputAt(level, a, b, q, g, x);
      InputCovers(db, db', level, a, b, outs, p, f, e, p0, q, g, x);
      var y :| InFiles(outs, y) && StandsFor(db, y, e);
      var r := OutputPlace(db, db', level, a, b, outs, y);
      CoveredBy(db, db', p, e, r, y);
    }
  }

  lemma CoveredBy(db: Db, db': Db, p: Place, e: Entry, q: Place, x: Entry)
    requires db'.last == db.last && db'.snapshots == db.snapshots
    requires NoLater(q, p) && Stored(db', q, x) && StandsFor(db, x, e)
    ensures Covered(db', p, e)
  {
    assert StandsFor(db', x, e);
  }

  lemma RewriteAll(db: Db, db': Db, level: nat, a: seq<File>, b: seq<File>, outs: seq<File>)
    requires Rewritten(db, db', level, a, b, outs) && ProperOutputs(db, level, a, b, outs)
    requires ClosedSelection(db.Levels(), level, a, b)
    ensures All(db') <= All(db)
  {
    forall e | e in All(db')
      ensures e in All(db)
    {
      AllStored(db', e);
      var p :| Stored(db', p, e);
      var p0 := WhereBefore(db, db', level, a, b, outs, p, e);
      AllStored(db, e);
    }
  }

  lemma RewriteKeepsNewerAbove(db: Db, db': Db, level: nat, a: seq<File>, b: seq<File>, outs: seq<File>)
    requires Rewritten(db, db', level, a, b, outs) && ProperOutputs(db, level, a, b, outs)
    requires ClosedSelection(db.Levels(), level, a, b) && LevelsInOrder(db.Levels())
    requires HistoryInOrder(db) && OnlyHistory(db) && NewerAbove(db)
    ensures NewerAbove(db')
  {
    RewriteAll(db, db', level, a, b, outs);
    forall p, f, e | Stored(db', p, f) && e in All(db') && f.k.user == e.k.user && f.k.seqno <= e.k.seqno
      ensures Covered(db', p, e)
    {
      RewriteCovers(db, db', level, a, b, outs, p, f, e);
    }
  }

  // ------------------------------------------------------------------ versions at two places

  lemma OutputWasElsewhere(db: Db, level: nat, a: seq<File>, b: seq<File>, e: Entry, q: Place)
    requires level + 1 < NUM_LEVELS && LevelsKept(db.Levels()) && ClosedSelection(db.Levels(), level, a, b)
    requires InFiles(a + b, e) && RestAt(db, level, a, b, q, e)
    ensures exists p0 :: p0 != q && Stored(db, p0, e)
  {
    var p0, g := InputPlace(level, a, b, e);
    InputIsStored(db, level, a, b, p0, g, e);
    assert p0.level == level || p0.level == level + 1;
  }

  lemma RewriteSharedOld(db: Db, db': Db, level: nat, a: seq<File>, b: seq<File>, outs: seq<File>, p: Place, q: Place, e: Entry)
    requires Rewritten(db, db', level, a, b, outs) && ProperOutputs(db, level, a, b, outs)
    requires ClosedSelection(db.Levels(), level, a, b) && LevelsKept(db.Levels())
    requires SharedOld(db)
    requires Stored(db', p, e) && Stored(db', q, e) && p != q
    ensures e.k.seqno <= db.reopenedAt
  {
    StoredAfter(db, db', level, a, b, outs, p, e);
    StoredAfter(db, db', level, a, b, outs, q, e);
    if RestAt(db, level, a, b, p, e) && RestAt(db, level, a, b, q, e) {
      assert Stored(db, p, e) && Stored(db, q, e);
    } else if RestAt(db, level, a, b, p, e) || RestAt(db, level, a, b, q, e) {
      var rest := if RestAt(db, level, a, b, p, e) then p else q;
      var other := if RestAt(db, level, a, b, p, e) then q else p;
      var o :| o in outs && o.number == other.number && e in o.entries;
      assert InFiles(outs, e);
      OutputWasElsewhere(db, level, a, b, e, rest);
      assert Stored(db, rest, e);
    }
  }

  lemma RewriteKeepsShared(db: Db, db': Db, level: nat, a: seq<File>, b: seq<File>, outs: seq<File>)
    requires Rewritten(db, db', level, a, b, outs) && ProperOutputs(db, level, a, b, outs)
    requires ClosedSelection(db.Levels(), level, a, b) && LevelsKept(db.Levels())
    requires SharedOld(db)
    ensures SharedOld(db')
  {
    forall p, q, e | Stored(db', p, e) && Stored(db', q, e) && p != q
      ensures e.k.seqno <= db'.reopenedAt
    {
      RewriteSharedOld(db, db', level, a, b, outs, p, q, e);
    }
  }

  // ------------------------------------------------------------------ level shape

  ghost predicate Apart(f: File, g: File) {
    Less(f.largest, g.smallest) || Less(g.largest, f.smallest)
  }

  lemma ApartInOrder(fs: seq<File>)
    requires ValidFiles(fs) && BySmallest(fs) && DistinctNumbers(fs)
    requires forall f, g :: f in fs && g in fs && f.number != g.number ==> Apart(f, g)
    ensures Disjoint(fs)
  {
    forall i, j | 0 <= i < j < |fs|
      ensures Less(fs[i].largest, fs[j].smallest)
    {
      assert Apart(fs[i], fs[j]);
      BoundsInOrder(fs[i]);
      BoundsInOrder(fs[j]);
    }
  }

  /** A file beside all inputs is apart from every table made of their entries. */
  lemma BesideOutputs(f: File, inputs: seq<File>, o: File)
    requires Beside(f, inputs) && ValidFiles(inputs) && ValidFile(o) && ValidFile(f)
    requires forall e :: e in o.entries ==> InFiles(inputs, e)
    ensures Apart(f, o)
  {
    var first, last := o.entries[0], o.entries[|o.entries| - 1];
    assert InFiles(inputs, first) && InFiles(inputs, last);
    var x :| x in inputs && first in x.entries;
    var y :| y in inputs && last in y.entries;
    BoundsOf(x, first);
    BoundsOf(y, last);
  }

  lemma RewriteKeepsDisjoint(levels: seq<seq<File>>, levels': seq<seq<File>>, level: nat, a: seq<File>, b: seq<File>, outs: seq<File>)
    requires LevelsRewritten(levels, levels', level, a, b, outs)
    requires ClosedSelection(levels, level, a, b) && LevelsInOrder(levels) && LevelsKept(levels')
    requires ValidFiles(outs) && Disjoint(outs)
    requires forall e :: InFiles(outs, e) ==> InFiles(a + b, e)
    ensures LevelsInOrder(levels')
  {
    RewriteKeepsValid(levels, levels', level, a, b, outs);
    assert ValidFiles(a + b) by {
      forall i | 0 <= i < |a + b| ensures ValidFile((a + b)[i]) {
        assert (a + b)[i] in a + b;
      }
    }
    forall l | 1 <= l < NUM_LEVELS
      ensures Disjoint(levels'[l])
    {
      forall f, g | f in levels'[l] && g in levels'[l] && f.number != g.number
        ensures Apart(f, g)
      {
        if f in levels[l] && g in levels[l] {
          PairApart(levels[l], f, g);
        } else if f in outs && g in outs {
          PairApart(outs, f, g);
        } else if f in outs {
          OutApart(levels, level, a, b, outs, g, f);
        } else {
          OutApart(levels, level, a, b, outs, f, g);
        }
      }
      ApartInOrder(levels'[l]);
    }
  }

  lemma PairApart(fs: seq<File>, f: File, g: File)
    requires Disjoint(fs) && f in fs && g in fs && f.number != g.number
    ensures Apart(f, g)
  {
    var i :| 0 <= i < |fs| && fs[i] == f;
    var j :| 0 <= j < |fs| && fs[j] == g;
  }

  lemma OutApart(levels: seq<seq<File>>, level: nat, a: seq<File>, b: seq<File>, outs: seq<File>, f: File, o: File)
    requires level + 1 < NUM_LEVELS && |levels| == NUM_LEVELS
    requires ClosedSelection(levels, level, a, b) && ValidFiles(a + b) && ValidFiles(levels[level + 1]) && ValidFiles(outs)
    requires forall e :: InFiles(outs, e) ==> InFiles(a + b, e)
    requires f in levels[level + 1] && f !in b && o in outs
    ensures Apart(f, o)
  {
    forall e | e in o.entries ensures InFiles(a + b, e) {
      assert InFiles(outs, e);
    }
    BesideOutputs(f, a + b, o);
  }

  lemma RewriteKeepsValid(levels: seq<seq<File>>, levels': seq<seq<File>>, level: nat, a: seq<File>, b: seq<File>, outs: seq<File>)
    requires LevelsRewritten(levels, levels', level, a, b, outs)
    requires LevelsInOrder(levels) && ValidFiles(outs)
    ensures forall l :: 0 <= l < NUM_LEVELS ==> ValidFiles(levels'[l])
  {
    forall l | 0 <= l < NUM_LEVELS
      ensures ValidFiles(levels'[l])
    {
      forall i | 0 <= i < |levels'[l]|
        ensures ValidFile(levels'[l][i])
      {
        var f := levels'[l][i];
        assert f in levels'[l];
        assert f in levels[l] || f in outs;
      }
    }
  }
}

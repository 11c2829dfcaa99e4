/** What a read at a sequence number sees, independently of how versions are laid out. */
module Visibility {
  import opened Keys

  /** No two different versions share a sequence number. */
  ghost predicate Consistent(S: set<Entry>) {
    forall e, f :: e in S && f in S && e.k.seqno == f.k.seqno ==> e == f
  }

  ghost predicate VersionOf(S: set<Entry>, u: UserKey, s: nat, e: Entry) {
    e in S && e.k.user == u && e.k.seqno <= s
  }

  /** `e` is the newest version of `u` in `S` that a reader at sequence `s` may see. */
  ghost predicate Newest(S: set<Entry>, u: UserKey, s: nat, e: Entry) {
    VersionOf(S, u, s, e) && forall f :: VersionOf(S, u, s, f) ==> f.k.seqno <= e.k.seqno
  }

  /** The value a reader at `s` gets for `u`; a newest version that is a deletion reads as absent. */
  ghost function Read(S: set<Entry>, u: UserKey, s: nat): Option<Bytes> {
    if exists e :: Newest(S, u, s, e) && e.k.kind.Value? then
      var e :| Newest(S, u, s, e) && e.k.kind.Value?;
      Some(e.v)
    else None
  }

  lemma ReadNewest(S: set<Entry>, u: UserKey, s: nat, e: Entry)
    requires Consistent(S)
    requires Newest(S, u, s, e)
    ensures Read(S, u, s) == if e.k.kind.Value? then Some(e.v) else None
  {
    forall f | Newest(S, u, s, f)
      ensures f == e
    {
      assert VersionOf(S, u, s, f) && VersionOf(S, u, s, e);
    }
  }

  lemma ReadAbsent(S: set<Entry>, u: UserKey, s: nat)
    requires forall e :: !VersionOf(S, u, s, e)
    ensures Read(S, u, s) == None
  {
  }

  lemma {:induction false} NewestExists(S: set<Entry>, u: UserKey, s: nat) returns (n: Entry)
    requires exists e :: VersionOf(S, u, s, e)
    ensures Newest(S, u, s, n)
    decreases |S|
  {
    var e :| VersionOf(S, u, s, e);
    var T := S - {e};
    if exists f :: VersionOf(T, u, s, f) {
      var m := NewestExists(T, u, s);
      assert VersionOf(S, u, s, m);
      n := if m.k.seqno <= e.k.seqno then e else m;
      forall f | VersionOf(S, u, s, f)
        ensures f.k.seqno <= n.k.seqno
      {
        assert f == e || VersionOf(T, u, s, f);
      }
    } else {
      n := e;
      forall f | VersionOf(S, u, s, f)
        ensures f.k.seqno <= n.k.seqno
      {
        assert f == e || VersionOf(T, u, s, f);
      }
    }
  }

  /** Adding a set of strictly newer writes to two sets that read alike keeps them alike. */
  lemma ReadAfterNewerWrites(S: set<Entry>, T: set<Entry>, N: set<Entry>, u: UserKey, s: nat)
    requires Consistent(S + N) && Consistent(T + N)
    requires forall n, e :: n in N && e in S + T ==> e.k.seqno < n.k.seqno
    requires Read(S, u, s) == Read(T, u, s)
    ensures Read(S + N, u, s) == Read(T + N, u, s)
  {
    if exists e :: VersionOf(N, u, s, e) {
      var n := NewestExists(N, u, s);
      assert Newest(S + N, u, s, n) by {
        forall f | VersionOf(S + N, u, s, f)
          ensures f.k.seqno <= n.k.seqno
        {
          assert f in N ==> VersionOf(N, u, s, f);
        }
      }
      assert Newest(T + N, u, s, n) by {
        forall f | VersionOf(T + N, u, s, f)
          ensures f.k.seqno <= n.k.seqno
        {
          assert f in N ==> VersionOf(N, u, s, f);
        }
      }
      ReadNewest(S + N, u, s, n);
      ReadNewest(T + N, u, s, n);
    } else {
      ReadIgnores(S, N, u, s);
      ReadIgnores(T, N, u, s);
    }
  }

  /** Versions a reader cannot see, or of other keys, do not change its result. */
  lemma ReadIgnores(S: set<Entry>, N: set<Entry>, u: UserKey, s: nat)
    requires forall e :: !VersionOf(N, u, s, e)
    requires Consistent(S + N)
    ensures Read(S + N, u, s) == Read(S, u, s)
  {
    assert forall e :: VersionOf(S + N, u, s, e) <==> VersionOf(S, u, s, e) by {
      forall e ensures VersionOf(S + N, u, s, e) <==> VersionOf(S, u, s, e) {
        assert e in N ==> !VersionOf(N, u, s, e);
      }
    }
    assert Consistent(S);
    if exists e :: VersionOf(S, u, s, e) {
      var n := NewestExists(S, u, s);
      assert Newest(S + N, u, s, n);
      ReadNewest(S, u, s, n);
      ReadNewest(S + N, u, s, n);
    }
  }
}

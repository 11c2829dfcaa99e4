/** Reference counts of versions and their files, and the deletion of obsolete files (db/version_set.cc,
    db/db_impl.cc): a table some version names is never removed. */
module LiveVersions {
  import opened Lists

  class FileMetaData {
    const number: nat
    var refs: nat

    constructor (number: nat, refs: nat)
      ensures this.number == number && this.refs == refs
    {
      this.number, this.refs := number, refs;
    }
  }

  class Version {
    const files: seq<FileMetaData>
    var refs: nat

    constructor (files: seq<FileMetaData>)
      ensures this.files == files && refs == 0
    {
      this.files, refs := files, 0;
    }
  }

  // ------------------------------------------------------------------ counting holders

  function Uses(files: seq<FileMetaData>, f: FileMetaData): nat {
    multiset(files)[f]
  }

  /** How often the versions name the file. */
  function Holders(versions: seq<Version>, f: FileMetaData): nat {
    if versions == [] then 0 else Holders(versions[..|versions| - 1], f) + Uses(versions[|versions| - 1].files, f)
  }

  lemma {:induction false} WithoutHolders(versions: seq<Version>, v: Version, f: FileMetaData)
    requires NoRepeats(versions) && v in versions
    ensures Holders(versions, f) == Holders(Without(versions, v), f) + Uses(v.files, f)
  {
    var n := |versions| - 1;
    assert versions == versions[..n] + [versions[n]];
    if versions[n] == v {
      WithoutMembers(versions[..n], v);
      assert Without(versions[..n], v) + [] == versions[..n];
    } else {
      WithoutHolders(versions[..n], v, f);
      AppendHolders(Without(versions[..n], v), versions[n], f);
    }
  }

  lemma UnlinkHolders(versions: seq<Version>, v: Version, files: set<FileMetaData>)
    requires NoRepeats(versions) && v in versions
    ensures forall x :: x in Without(versions, v) <==> x in versions && x != v
    ensures NoRepeats(Without(versions, v))
    ensures forall f :: f in files ==> Holders(versions, f) == Holders(Without(versions, v), f) + Uses(v.files, f)
  {
    WithoutMembers(versions, v);
    WithoutRepeats(versions, v);
    forall f | f in files
      ensures Holders(versions, f) == Holders(Without(versions, v), f) + Uses(v.files, f)
    {
      WithoutHolders(versions, v, f);
    }
  }

  lemma AppendHolders(versions: seq<Version>, v: Version, f: FileMetaData)
    ensures Holders(versions + [v], f) == Holders(versions, f) + Uses(v.files, f)
  {
    assert (versions + [v])[..|versions|] == versions;
  }

  /** A file some version names has holders. */
  lemma {:induction false} NamedIsHeld(versions: seq<Version>, v: Version, f: FileMetaData)
    requires v in versions && f in v.files
    ensures Holders(versions, f) >= Uses(v.files, f) >= 1
  {
    var n := |versions| - 1;
    assert f in multiset(v.files);
    if versions[n] != v {
      assert v in versions[..n];
      NamedIsHeld(versions[..n], v, f);
    }
  }

  lemma {:induction false} HeldIsNamed(versions: seq<Version>, f: FileMetaData)
    requires Holders(versions, f) > 0
    ensures exists v :: v in versions && f in v.files
  {
    var n := |versions| - 1;
    if f in versions[n].files {
      assert versions[n] in versions;
    } else {
      assert f !in multiset(versions[n].files);
      HeldIsNamed(versions[..n], f);
      var v :| v in versions[..n] && f in v.files;
      assert v in versions;
    }
  }

  // ------------------------------------------------------------------ the list of versions

  class VersionList {
    /** The linked list, oldest first. */
    var versions: seq<Version>
    var current: Version
    /** References other than the list's own to the current version: iterators, compactions, builders. */
    ghost var pins: multiset<Version>
    /** Every file ever added that is not deleted yet. */
    ghost var files: set<FileMetaData>

    constructor ()
      ensures Ok() && pins == multiset{} && current.files == [] && versions == [current] && files == {} && fresh(current)
    {
      var first := new Version([]);
      first.refs := 1;
      versions, current := [first], first;
      pins, files := multiset{}, {};
    }

    /** A version is on the list exactly while it has references: one as current, one for each pin. */
    ghost predicate VersionsOk()
      reads this, versions
    {
      && NoRepeats(versions) && current in versions
      && (forall v :: v in pins ==> v in versions)
      && (forall v :: v in versions ==> v.refs >= 1 && v.refs == pins[v] + if v == current then 1 else 0)
      && (forall v, f :: v in versions && f in v.files ==> f in files)
    }

    /** A file's references are those of the listed versions, and those of a builder at work. */
    ghost predicate FilesOk(building: seq<FileMetaData>)
      reads this, files
    {
      && (forall f :: f in files ==> f.refs >= 1 && f.refs == Holders(versions, f) + Uses(building, f))
      && forall f :: f in building ==> f in files
    }

    ghost predicate Ok()
      reads this, versions, files
    {
      VersionsOk() && FilesOk([])
    }

    /** Version::Ref by a client. */
    method Pin(v: Version)
      requires Ok() && v in versions
      modifies `pins, v`refs
      ensures Ok() && pins == old(pins) + multiset{v}
    {
      v.refs := v.refs + 1;
      pins := pins + multiset{v};
    }

    /** Version::Unref by a client: the last reference takes the version off the list and lets its files go. */
    method Unpin(v: Version)
      requires Ok() && v in pins
      modifies `pins, `versions, `files, v`refs, files
      ensures Ok() && pins == old(pins) - multiset{v} && current == old(current) && files <= old(files)
      ensures versions == if v == current || v in pins then old(versions) else Without(old(versions), v)
    {
      v.refs := v.refs - 1;
      pins := pins - multiset{v};
      if v.refs == 0 {
        Unlink(v);
      }
    }

    /** The end of a version nobody refers to. */
    method Unlink(v: Version)
      requires NoRepeats(versions) && current in versions && v in versions && v != current && v !in pins && v.refs == 0
      requires forall x :: x in pins ==> x in versions
      requires forall x :: x in versions && x != v ==> x.refs >= 1 && x.refs == pins[x] + if x == current then 1 else 0
      requires forall x, f :: x in versions && f in x.files ==> f in files
      requires forall f :: f in files ==> f.refs >= 1 && f.refs == Holders(versions, f)
      modifies `versions, `files, files
      ensures Ok() && versions == Without(old(versions), v) && files <= old(files)
    {
      hide Without, NoRepeats, Holders;
      UnlinkHolders(versions, v, files);
      versions := Without(versions, v);
      UnrefFiles(v.files, files);
      ghost var all := files;
      files := set f | f in all && f.refs > 0;
      forall x, f | x in versions && f in x.files
        ensures f in files
      {
        NamedIsHeld(versions, x, f);
      }
    }

    /** VersionSet::ApplyVersionEdit: a builder pins the current version, its new files start with its own
        reference, the next version takes one on each of its files and becomes current, and the builder
        lets go of everything again. */
    method Install(kept: seq<FileMetaData>, numbers: seq<nat>)
      requires Ok() && forall f :: f in kept ==> f in current.files
      modifies this, versions, files
      ensures Ok() && pins == old(pins) && fresh(current) && fresh(files - old(files))
      ensures forall i :: |kept| <= i < |current.files| ==> fresh(current.files[i])
      ensures |current.files| == |kept| + |numbers| && current.files[..|kept|] == kept
      ensures forall i :: 0 <= i < |numbers| ==> current.files[|kept| + i].number == numbers[i]
      ensures versions == (if old(current) in pins then old(versions) else Without(old(versions), old(current))) + [current]
    {
      hide Holders, NoRepeats, Without, VersionList.FilesOk;
      CurrentFiles();
      hide VersionList.VersionsOk;
      var base := current;
      Pin(base);
      ghost var before := versions;
      AddNext(kept, numbers);
      WithoutBefore(before, base, current);
      assert pins - multiset{base} == old(pins);
      Unpin(base);
    }

    /** The next version, built while the current one is pinned, goes to the end of the list. */
    method AddNext(kept: seq<FileMetaData>, numbers: seq<nat>)
      requires Ok() && current in pins && forall f :: f in kept ==> f in files
      modifies `files, `current, `versions, current`refs, files
      ensures Ok() && fresh(current) && fresh(files - old(files)) && versions == old(versions) + [current]
      ensures forall i :: |kept| <= i < |current.files| ==> fresh(current.files[i])
      ensures |current.files| == |kept| + |numbers| && current.files[..|kept|] == kept
      ensures forall i :: 0 <= i < |numbers| ==> current.files[|kept| + i].number == numbers[i]
    {
      hide VersionList.VersionsOk, VersionList.FilesOk;
      var next, added := Build(kept, numbers);
      AppendVersion(next, added);
      Release(added);
    }

    lemma CurrentFiles()
      requires VersionsOk()
      ensures current in versions && forall f :: f in current.files ==> f in files
    {
    }

    /** The builder's new files and the next version, which takes a reference on all its files. */
    method Build(kept: seq<FileMetaData>, numbers: seq<nat>) returns (next: Version, added: seq<FileMetaData>)
      requires Ok() && forall f :: f in kept ==> f in files
      modifies `files, files
      ensures VersionsOk() && FilesOk(next.files + added)
      ensures fresh(next) && next.refs == 0 && next.files == kept + added && |added| == |numbers|
      ensures forall i :: 0 <= i < |added| ==> fresh(added[i]) && added[i].number == numbers[i]
      ensures fresh(files - old(files))
    {
      added := NewFiles(numbers);
      ghost var news, all := (set f | f in added), files;
      next := new Version(kept + added);
      RefFiles(next.files, all + news);
      files := all + news;
      UsesOfParts(kept, added);
      UsesOfParts(next.files, added);
      forall f | f in files
        ensures f.refs >= 1 && f.refs == Holders(versions, f) + Uses(next.files + added, f)
      {
        if f in news {
          NewFileUnused(versions, f, all);
        } else {
          assert f !in multiset(added);
        }
      }
    }

    /** VersionSet::AppendVersion. */
    method AppendVersion(next: Version, ghost added: seq<FileMetaData>)
      requires VersionsOk() && FilesOk(next.files + added) && current in pins && next !in versions && next.refs == 0
      modifies `current, `versions, current`refs, next`refs
      ensures VersionsOk() && FilesOk(added) && current == next && versions == old(versions) + [next]
    {
      hide NoRepeats, Holders;
      ghost var before := versions;
      AppendedRepeats(versions, next);
      current.refs := current.refs - 1;
      current := next;
      next.refs := next.refs + 1;
      versions := versions + [next];
      UsesOfParts(next.files, added);
      forall f | f in files
        ensures Holders(versions, f) == Holders(before, f) + Uses(next.files, f)
      {
        AppendHolders(before, next, f);
      }
      forall f | f in next.files
        ensures f in files
      {
        assert f in next.files + added;
      }
      forall f | f in added
        ensures f in files
      {
        assert f in next.files + added;
      }
    }

    /** The builder's own references end; the current version still names its new files. */
    method Release(added: seq<FileMetaData>)
      requires VersionsOk() && FilesOk(added) && forall f :: f in added ==> f in current.files
      modifies files
      ensures Ok()
    {
      hide NoRepeats;
      UnrefFiles(added, files);
      forall f | f in files
        ensures f.refs >= 1
      {
        if f in added {
          NamedIsHeld(versions, current, f);
        } else {
          assert f !in multiset(added);
        }
      }
      assert forall f :: Uses([], f) == 0;
    }

    /** VersionSet::AddLiveFiles. */
    method AddLiveFiles() returns (live: set<nat>)
      requires Ok()
      ensures forall n :: n in live <==> exists v, f :: v in versions && f in v.files && f.number == n
    {
      live := {};
      for i := 0 to |versions|
        invariant forall n :: n in live <==> exists v, f :: v in versions[..i] && f in v.files && f.number == n
      {
        var more := set f | f in versions[i].files :: f.number;
        ghost var was := live;
        assert versions[..i + 1] == versions[..i] + [versions[i]];
        live := live + more;
        forall n
          ensures n in live <==> exists v, f :: v in versions[..i + 1] && f in v.files && f.number == n
        {
          if n in more {
            var f :| f in versions[i].files && f.number == n;
            assert versions[i] in versions[..i + 1];
          }
          if v, f :| v in versions[..i + 1] && f in v.files && f.number == n {
            assert v == versions[i] || v in versions[..i];
          }
        }
      }
      assert versions[..|versions|] == versions;
    }

    /** RemoveObsoleteFiles, as far as tables go: what stays in the directory. */
    method RemoveObsoleteTables(tables: set<nat>, pendingOutputs: set<nat>) returns (left: set<nat>)
      requires Ok()
      ensures left <= tables
      ensures forall n :: n in tables && n in pendingOutputs ==> n in left
      ensures forall v, f :: v in versions && f in v.files && f.number in tables ==> f.number in left
      ensures forall n :: n in left && n !in pendingOutputs ==> exists v, f :: v in versions && f in v.files && f.number == n
    {
      var live := AddLiveFiles();
      live := live + pendingOutputs;
      left := tables * live;
    }

    /** A version some client still refers to keeps all its files, whatever has been installed since. */
    lemma PinnedFilesStay(v: Version, f: FileMetaData)
      requires Ok() && (v in pins || v == current) && f in v.files
      ensures v in versions && f in files && f.refs >= 1
    {
    }
  }

  method NewFiles(numbers: seq<nat>) returns (added: seq<FileMetaData>)
    ensures |added| == |numbers|
    ensures forall i :: 0 <= i < |added| ==> fresh(added[i]) && added[i].number == numbers[i] && added[i].refs == 1
    ensures forall f :: f in added ==> Uses(added, f) == 1
  {
    added := [];
    for i := 0 to |numbers|
      invariant |added| == i
      invariant forall k :: 0 <= k < i ==> fresh(added[k]) && added[k].number == numbers[k] && added[k].refs == 1
      invariant forall f :: f in added ==> Uses(added, f) == 1
    {
      var f := new FileMetaData(numbers[i], 1);
      assert f !in multiset(added);
      added := added + [f];
    }
  }

  lemma UsesOfParts(a: seq<FileMetaData>, b: seq<FileMetaData>)
    ensures forall f :: Uses(a + b, f) == Uses(a, f) + Uses(b, f)
  {
  }

  /** A file that is new is named by no version yet. */
  lemma NewFileUnused(versions: seq<Version>, f: FileMetaData, files: set<FileMetaData>)
    requires f !in files && forall v, g :: v in versions && g in v.files ==> g in files
    ensures Holders(versions, f) == 0
  {
    if Holders(versions, f) > 0 {
      HeldIsNamed(versions, f);
    }
  }

  lemma WithoutBefore(versions: seq<Version>, v: Version, next: Version)
    requires v in versions && v != next
    ensures Without(versions + [next], v) == Without(versions, v) + [next]
  {
    assert (versions + [next])[..|versions|] == versions;
  }

  /** One reference fewer for each occurrence. */
  method UnrefFiles(s: seq<FileMetaData>, ghost all: set<FileMetaData>)
    requires forall f :: f in s ==> f in all
    requires forall f :: f in all ==> f.refs >= Uses(s, f)
    modifies all
    ensures forall f :: f in all ==> f.refs == old(f.refs) - Uses(s, f)
  {
    for i := 0 to |s|
      invariant forall f :: f in all ==> f.refs == old(f.refs) - Uses(s[..i], f)
    {
      OneMoreUse(s, i);
      UsesGrow(s, i, all);
      s[i].refs := s[i].refs - 1;
    }
    assert s[..|s|] == s;
  }

  method RefFiles(s: seq<FileMetaData>, ghost all: set<FileMetaData>)
    requires forall f :: f in s ==> f in all
    modifies all
    ensures forall f :: f in all ==> f.refs == old(f.refs) + Uses(s, f)
  {
    for i := 0 to |s|
      invariant forall f :: f in all ==> f.refs == old(f.refs) + Uses(s[..i], f)
    {
      OneMoreUse(s, i);
      s[i].refs := s[i].refs + 1;
    }
    assert s[..|s|] == s;
  }

  lemma OneMoreUse(s: seq<FileMetaData>, i: nat)
    requires i < |s|
    ensures forall f :: Uses(s[..i + 1], f) == Uses(s[..i], f) + if f == s[i] then 1 else 0
  {
    assert s[..i + 1] == s[..i] + [s[i]];
  }

  lemma UsesGrow(s: seq<FileMetaData>, i: nat, all: set<FileMetaData>)
    requires i < |s|
    ensures Uses(s, s[i]) > Uses(s[..i], s[i])
  {
    assert s == s[..i] + [s[i]] + s[i + 1..];
  }
}

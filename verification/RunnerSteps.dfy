/** Every write of the runner keeps what the markers mean. */
module RunnerSteps {
  import opened Base
  import opened RunnerCache

  // ---------- paths ----------

  lemma AboveTarget(v: Version, fs: Files, k: nat, n: nat)
    requires Closed(v, fs) && k < |v.names| && Target(v, k) in fs && n < |PartsOf(v, k)|
    ensures IsDir(fs, SourceDir(v) + PartsOf(v, k)[..n])
  {
    var p, m := Target(v, k), |SourceDir(v)| + n;
    assert p[..m] == SourceDir(v) + PartsOf(v, k)[..n];
  }

  /** The directories above a path, from the source directory on. */
  lemma AboveIsDir(v: Version, fs: Files, p: Path, m: nat)
    requires Closed(v, fs) && p in fs && SourceDir(v) <= p && |SourceDir(v)| <= m < |p|
    ensures IsDir(fs, p[..m])
  {
  }

  ghost function Below(v: Version, i: nat): set<nat>
    requires i < |v.names|
  {
    set l: nat | l < |v.names| && Listed(v, l) && PartsOf(v, i) < PartsOf(v, l)
  }

  /** At or below a member that is neither a marker nor the dependency directory lies a wanted one. */
  lemma {:induction false} SomeWanted(v: Version, i: nat) returns (k: nat)
    requires Listed(v, i) && PartsOf(v, i) != [] && PartsOf(v, i)[0] != EXTRACTED
    requires v.cached || PartsOf(v, i) != [DEPS]
    ensures Wanted(v, k) && PartsOf(v, i) <= PartsOf(v, k)
    decreases |Below(v, i)|, i
  {
    if !Folder(v.names[i]) || (Bare(v, i) && First(v, i)) {
      k := i;
    } else if Bare(v, i) {
      var l: nat :| l < i && Listed(v, l) && Folder(v.names[l]) && PartsOf(v, l) == PartsOf(v, i);
      assert Below(v, l) == Below(v, i);
      k := SomeWanted(v, l);
    } else {
      var l: nat :| Listed(v, l) && PartsOf(v, i) < PartsOf(v, l);
      assert l in Below(v, i) && l !in Below(v, l);
      assert Below(v, l) <= Below(v, i) - {l};
      SubsetIsNoLarger(Below(v, l), Below(v, i) - {l});
      k := SomeWanted(v, l);
    }
  }

  /** The last copy, among the first n members, of a wanted one. */
  lemma {:induction false} LastCopy(v: Version, k: nat, n: nat) returns (l: nat)
    requires Wanted(v, k) && k < n <= |v.names|
    ensures k <= l < n && Due(v, l, n) && PartsOf(v, l) == PartsOf(v, k) && Folder(v.names[l]) == Folder(v.names[k])
    decreases n - k
  {
    if Due(v, k, n) {
      l := k;
    } else {
      var m: nat :| k < m < n && Listed(v, m) && !Folder(v.names[m]) && PartsOf(v, m) == PartsOf(v, k);
      l := LastCopy(v, m, n);
    }
  }

  lemma OneLastCopy(v: Version, k: nat, l: nat, n: nat)
    requires k < n && l < n && Due(v, k, n) && Due(v, l, n) && PartsOf(v, k) == PartsOf(v, l)
    requires !Folder(v.names[k]) && !Folder(v.names[l])
    ensures k == l
  {
  }

  /** A complete tree has every wanted member in some copy. */
  lemma WantedIsThere(v: Version, fs: Files, k: nat)
    requires WellFormed(v) && TreeComplete(v, fs) && Wanted(v, k)
    ensures Target(v, k) in fs && (IsDir(fs, Target(v, k)) <==> Folder(v.names[k]))
  {
    var l := LastCopy(v, k, |v.names|);
    assert HasMember(v, fs, l);
  }

  /** In a cache, sources and dependencies lie side by side. */
  lemma CacheKeepsApart(v: Version, p: Path)
    requires SourceDir(v) <= p && DepsDir(v) <= p
    ensures !v.cached
  {
    assert p[0] == DepsDir(v)[0];
  }

  /** What it means that a directory above member i, or the member itself, is one of the runner's own paths. */
  lemma OwnPath(v: Version, i: nat, n: nat)
    requires Lands(v, i) && Listed(v, i) && n <= |PartsOf(v, i)|
    ensures var p := SourceDir(v) + PartsOf(v, i)[..n];
      (p == Marker(v) ==> MakesMarker(v, i)) && (p == Requirements(v) ==> NeedsDeps(v))
      && (p == InstallMarker(v) ==> !v.cached && exists k: nat :: InDeps(v, k))
  {
    var p, parts := SourceDir(v) + PartsOf(v, i)[..n], PartsOf(v, i);
    if p == Marker(v) || p == Requirements(v) {
      assert p[|SourceDir(v)|..] == parts[..n];
      assert n == 1 && parts[..1] == [parts[0]];
    } else if p == InstallMarker(v) {
      CacheKeepsApart(v, p);
      assert p == parts[..n] && n == 2;
      assert parts[0] == p[0] == DEPS && DEPS != EXTRACTED;
      var k := SomeWanted(v, i);
      assert PartsOf(v, k)[..1] == [DEPS];
      assert InDeps(v, k);
    }
  }

  // ---------- extraction ----------

  lemma SamePrefix(a: Path, b: Path, m: nat, n: nat)
    requires n <= m <= |a| && m <= |b| && a[..m] == b[..m]
    ensures a[..n] == b[..n]
  {
    assert a[..n] == a[..m][..n] && b[..n] == b[..m][..n];
  }

  /** A member before it is in the way of member i: a file above it, or something else in its place. */
  lemma MemberInTheWay(v: Version, fs: Files, j: nat, i: nat) returns (m: nat)
    requires Closed(v, fs) && MadeUpTo(v, fs, i) && j < i < |v.names| && Listed(v, j) && Clash(v, j, i)
    ensures m <= |PartsOf(v, i)| && forall n: nat | n <= m :: SourceDir(v) + PartsOf(v, i)[..n] in fs
    ensures if m < |PartsOf(v, i)| then !IsDir(fs, SourceDir(v) + PartsOf(v, i)[..m])
            else IsDir(fs, Target(v, i)) <==> !Folder(v.names[i])
  {
    var a, b := PartsOf(v, j), PartsOf(v, i);
    assert Target(v, j) in fs;
    m := if a < b then |a| else |b|;
    assert m <= |a| && a[..m] == b[..m];
    WholePath(v, i);
    WholePath(v, j);
    forall n: nat | n <= m ensures SourceDir(v) + b[..n] in fs {
      SamePrefix(a, b, m, n);
      if n < |a| {
        AboveTarget(v, fs, j, n);
      }
    }
    if m == |b| && m < |a| {
      AboveTarget(v, fs, j, m);
    } else if m == |b| {
      assert a == b;
    }
  }

  /** Where the extraction of an excluded member is stopped. */
  lemma Obstacle(v: Version, fs: Files, i: nat) returns (m: nat)
    requires Closed(v, fs) && MadeUpTo(v, fs, i) && Conflict(v, i) && PartsOf(v, i) != []
    ensures m <= |PartsOf(v, i)| && forall n: nat | n <= m :: SourceDir(v) + PartsOf(v, i)[..n] in fs
    ensures if m < |PartsOf(v, i)| then !IsDir(fs, SourceDir(v) + PartsOf(v, i)[..m])
            else IsDir(fs, Target(v, i)) <==> !Folder(v.names[i])
  {
    if ClashesWithZip(v, i) {
      ZipInTheWay(v, fs, i);
      m := 1;
    } else {
      var j: nat :| j < i && Listed(v, j) && Clash(v, j, i);
      m := MemberInTheWay(v, fs, j, i);
    }
  }

  lemma ZipInTheWay(v: Version, fs: Files, i: nat)
    requires Closed(v, fs) && i < |v.names| && ClashesWithZip(v, i) && Zip(v) in fs && !IsDir(fs, Zip(v))
    ensures 1 <= |PartsOf(v, i)| && forall n: nat | n <= 1 :: SourceDir(v) + PartsOf(v, i)[..n] in fs
    ensures !IsDir(fs, SourceDir(v) + PartsOf(v, i)[..1])
    ensures |PartsOf(v, i)| == 1 ==> Folder(v.names[i]) && Target(v, i) == Zip(v)
  {
    var b := PartsOf(v, i);
    assert b[..1] == [SOURCE_ZIP] && SourceDir(v) + b[..0] == SourceDir(v);
  }

  lemma AtZip(v: Version, i: nat)
    requires Listed(v, i) && Target(v, i) == Zip(v) && !Conflict(v, i)
    ensures !Folder(v.names[i])
  {
    assert Target(v, i)[|SourceDir(v)|..] == PartsOf(v, i) && Zip(v)[|SourceDir(v)|..] == [SOURCE_ZIP];
  }

  lemma WholePath(v: Version, i: nat)
    requires i < |v.names|
    ensures SourceDir(v) + PartsOf(v, i)[..|PartsOf(v, i)|] == Target(v, i)
  {
  }

  /** Nothing is written for a member that another one excludes. */
  lemma ConflictBlocks(v: Version, r: Runner, step: Step)
    requires Closed(v, r.fs) && r.phase.Extracting? && MadeUpTo(v, r.fs, r.phase.i)
    requires Enabled(v, r, step) && (step.MakeDir? || step.MakeFolder? || step.Open?)
    ensures !Conflict(v, r.phase.i)
  {
    WholePath(v, r.phase.i);
    if Conflict(v, r.phase.i) && PartsOf(v, r.phase.i) != [] {
      var m := Obstacle(v, r.fs, r.phase.i);
      assert false;
    }
  }

  lemma LandsHere(v: Version, fs: Files, i: nat)
    requires MadeUpTo(v, fs, i) && Listed(v, i) && !Conflict(v, i)
    ensures Lands(v, i)
  {
    forall j: nat | j <= i ensures !Conflict(v, j) {
      if j < i && Listed(v, j) {
        assert Target(v, j) in fs;
      }
    }
  }

  /** Writing one path at or above member i, none of its own files being above. */
  lemma WriteKeepsClosed(v: Version, fs: Files, i: nat, n: nat, node: Node)
    requires Closed(v, fs) && i < |v.names| && n <= |PartsOf(v, i)| && DirsUpTo(v, fs, i, n)
    requires node == Dir || (n > 0 && !IsDir(fs, SourceDir(v) + PartsOf(v, i)[..n]))
    ensures Closed(v, fs[SourceDir(v) + PartsOf(v, i)[..n] := node])
  {
    var s, parts := SourceDir(v), PartsOf(v, i);
    var p := s + parts[..n];
    var fs' := fs[p := node];
    forall q, m: nat | q in fs' && s <= q && |s| <= m < |q| ensures IsDir(fs', q[..m]) {
      if q == p {
        assert p[..m] == s + parts[..m - |s|];
      } else {
        assert q in fs && IsDir(fs, q[..m]);
      }
    }
  }

  /** When member i makes the marker exist, the tree is complete. */
  lemma CompleteAtMarker(v: Version, fs: Files, i: nat)
    requires WellFormed(v) && MarkerComesLast(v) && MakesMarker(v, i) && TreeUpTo(v, fs, i, i)
    ensures TreeComplete(v, fs) && NothingToCome(v, i)
  {
    forall k: nat | Due(v, k, |v.names|) ensures HasMember(v, fs, k) {
      if i <= k {
        assert SameCopy(v, i, k);
        var j: nat, l: nat :| CopyPair(v, i, k, j, l);
        assert HasMember(v, fs, j);
        OneLastCopy(v, k, l, |v.names|);
      } else {
        assert Due(v, k, i);
      }
    }
  }

  /** A complete tree is not touched by a write of something new, of the same, or of the marker. */
  lemma WriteKeepsComplete(v: Version, fs: Files, p: Path, node: Node)
    requires WellFormed(v) && TreeComplete(v, fs) && (p !in fs || fs[p] == node || p == Marker(v))
    ensures TreeComplete(v, fs[p := node])
  {
    forall k: nat | Due(v, k, |v.names|) ensures HasMember(v, fs[p := node], k) {
      assert HasMember(v, fs, k);
      assert Target(v, k)[|SourceDir(v)|..] == PartsOf(v, k) && Marker(v)[|SourceDir(v)|..] == [EXTRACTED];
    }
  }

  /** At the marker itself nothing wanted is replaced. */
  lemma DueAtMarker(v: Version, i: nat, n: nat, k: nat)
    requires Listed(v, i) && n <= |PartsOf(v, i)| && SourceDir(v) + PartsOf(v, i)[..n] == Marker(v)
    requires Due(v, k, i)
    ensures Due(v, k, i + 1) || n < |PartsOf(v, i)|
  {
    if n == |PartsOf(v, i)| {
      WholePath(v, i);
      assert Target(v, i)[|SourceDir(v)|..] == PartsOf(v, i) && Marker(v)[|SourceDir(v)|..] == [EXTRACTED];
    }
  }

  /** The parts of the invariant that look at one of the runner's own paths. */
  lemma WriteKeepsMarkers(v: Version, fs: Files, fs': Files, i: nat, n: nat, node: Node)
    requires WellFormed(v) && MarkerComesLast(v) && Lands(v, i) && Listed(v, i) && n <= |PartsOf(v, i)|
    requires fs' == fs[SourceDir(v) + PartsOf(v, i)[..n] := node]
    requires TreeUpTo(v, fs', i, if n < |PartsOf(v, i)| then i else i + 1)
    requires var p := SourceDir(v) + PartsOf(v, i)[..n];
      Marker(v) in fs ==>
        TreeComplete(v, fs) && !Stuck(v) && NothingToCome(v, i) && (p !in fs || fs[p] == node || p == Marker(v))
    requires Requirements(v) in fs ==> NeedsDeps(v)
    requires InstallTells(v, Runner(fs, None, Idle))
    ensures Marker(v) in fs' ==> TreeComplete(v, fs') && !Stuck(v) && NothingToCome(v, i)
    ensures Requirements(v) in fs' ==> NeedsDeps(v)
    ensures InstallTells(v, Runner(fs', None, Idle))
  {
    OwnPath(v, i, n);
    var p := SourceDir(v) + PartsOf(v, i)[..n];
    if Marker(v) in fs {
      WriteKeepsComplete(v, fs, p, node);
    } else if Marker(v) in fs' {
      assert MakesMarker(v, i);
      forall k: nat | k < i && Due(v, k, i) ensures HasMember(v, fs', k) {
        DueAtMarker(v, i, n, k);
      }
      CompleteAtMarker(v, fs', i);
    }
  }

  /** A file that is not part of the tree is the marker. */
  lemma FileAtMarker(v: Version, i: nat)
    requires Listed(v, i) && !Folder(v.names[i]) && PartsOf(v, i) != [] && Lands(v, i) && NothingToCome(v, i)
    ensures Target(v, i) == Marker(v)
  {
    assert !Wanted(v, i);
  }

  lemma DownloadKeeps(v: Version, r: Runner)
    requires WellFormed(v) && WellBehaved(v) && Invariant(v, r) && Enabled(v, r, Download)
    ensures Invariant(v, Apply(v, r, Download))
  {
    var r' := Apply(v, r, Download);
    ZipIsApart(v);
    forall q, m: nat | q in r'.fs && SourceDir(v) <= q && |SourceDir(v)| <= m < |q| ensures IsDir(r'.fs, q[..m]) {
      if q == Zip(v) {
        assert q[..m] == SourceDir(v);
      } else {
        AboveIsDir(v, r.fs, q, m);
      }
    }
  }

  lemma ZipIsApart(v: Version)
    ensures Zip(v) != Marker(v) && Zip(v) != Requirements(v) && Zip(v) != InstallMarker(v) && !(DepsDir(v) <= Zip(v))
  {
    assert Zip(v)[|Zip(v)| - 1] == SOURCE_ZIP && Marker(v)[|Marker(v)| - 1] == EXTRACTED;
    assert InstallMarker(v)[|InstallMarker(v)| - 1] == INSTALLED;
    assert Requirements(v)[|Requirements(v)| - 1] == REQUIREMENTS;
    assert Zip(v)[0] != DepsDir(v)[0];
  }

  lemma MakeDirKeeps(v: Version, r: Runner, n: nat)
    requires WellFormed(v) && WellBehaved(v) && Invariant(v, r) && Enabled(v, r, MakeDir(n))
    ensures Invariant(v, Apply(v, r, MakeDir(n)))
  {
    var r', i := Apply(v, r, MakeDir(n)), r.phase.i;
    ConflictBlocks(v, r, MakeDir(n));
    LandsHere(v, r.fs, i);
    WriteKeepsClosed(v, r.fs, i, n, Dir);
    assert forall k: nat | k < i && Wanted(v, k) :: HasMember(v, r.fs, k) ==> HasMember(v, r'.fs, k);
    WriteKeepsMarkers(v, r.fs, r'.fs, i, n, Dir);
  }

  /** Writing member i leaves the members before it alone, except for the earlier copies it replaces. */
  lemma WriteSpares(v: Version, fs: Files, i: nat, node: Node, m: nat)
    requires WellFormed(v) && Listed(v, i) && !Conflict(v, i) && MadeUpTo(v, fs, i) && TreeUpTo(v, fs, i, m)
    requires i <= m <= i + 1 && (node == Dir <==> Folder(v.names[i]))
    ensures MadeUpTo(v, fs[Target(v, i) := node], i)
    ensures TreeUpTo(v, fs[Target(v, i) := node], i, i + 1)
  {
    var fs' := fs[Target(v, i) := node];
    if Target(v, i) == Zip(v) {
      AtZip(v, i);
    }
    forall j: nat | j < i && Listed(v, j)
      ensures if PartsOf(v, j) == PartsOf(v, i) then Folder(v.names[j]) == Folder(v.names[i])
              else Target(v, j) != Target(v, i)
    {
      assert !Clash(v, j, i);
      assert Target(v, j)[|SourceDir(v)|..] == PartsOf(v, j);
      assert Target(v, i)[|SourceDir(v)|..] == PartsOf(v, i);
    }
    forall k: nat | k < i && Due(v, k, i + 1) ensures HasMember(v, fs', k) {
      assert Due(v, k, m);
      CopyReplaces(v, k, i);
    }
  }

  lemma CopyReplaces(v: Version, k: nat, i: nat)
    requires k < i && Listed(v, i)
    ensures PartsOf(v, k) == PartsOf(v, i) && !Folder(v.names[i]) ==> Replaced(v, k, i + 1)
  {
  }

  /** With member i in its place, the first i + 1 members are. */
  lemma OneMember(v: Version, fs: Files, i: nat)
    requires WellFormed(v) && Listed(v, i) && !Conflict(v, i) && MadeUpTo(v, fs, i) && TreeUpTo(v, fs, i, i + 1)
    requires Target(v, i) in fs && (IsDir(fs, Target(v, i)) <==> Folder(v.names[i]))
    ensures MadeUpTo(v, fs, i + 1)
    ensures HasMember(v, fs, i) ==> TreeUpTo(v, fs, i + 1, i + 1)
  {
  }

  lemma MakeFolderKeeps(v: Version, r: Runner)
    requires WellFormed(v) && WellBehaved(v) && Invariant(v, r) && Enabled(v, r, MakeFolder)
    ensures Invariant(v, Apply(v, r, MakeFolder))
  {
    var r', i := Apply(v, r, MakeFolder), r.phase.i;
    ConflictBlocks(v, r, MakeFolder);
    LandsHere(v, r.fs, i);
    WholePath(v, i);
    WriteKeepsClosed(v, r.fs, i, |PartsOf(v, i)|, Dir);
    WriteSpares(v, r.fs, i, Dir, i);
    OneMember(v, r'.fs, i);
    WriteKeepsMarkers(v, r.fs, r'.fs, i, |PartsOf(v, i)|, Dir);
  }

  lemma OpenKeeps(v: Version, r: Runner)
    requires WellFormed(v) && WellBehaved(v) && Invariant(v, r) && Enabled(v, r, Open)
    ensures Invariant(v, Apply(v, r, Open))
  {
    var r', i := Apply(v, r, Open), r.phase.i;
    ConflictBlocks(v, r, Open);
    LandsHere(v, r.fs, i);
    WholePath(v, i);
    WriteKeepsClosed(v, r.fs, i, |PartsOf(v, i)|, Part);
    WriteSpares(v, r.fs, i, Part, i);
    OneMember(v, r'.fs, i);
    if Marker(v) in r.fs {
      FileAtMarker(v, i);
    }
    WriteKeepsMarkers(v, r.fs, r'.fs, i, |PartsOf(v, i)|, Part);
  }

  lemma CompleteKeeps(v: Version, r: Runner)
    requires WellFormed(v) && WellBehaved(v) && Invariant(v, r) && Enabled(v, r, Complete)
    ensures Invariant(v, Apply(v, r, Complete))
  {
    var r', i := Apply(v, r, Complete), r.phase.i;
    assert Target(v, i) in r.fs && !Conflict(v, i);
    LandsHere(v, r.fs, i);
    WholePath(v, i);
    forall n: nat | n < |PartsOf(v, i)| ensures IsDir(r.fs, SourceDir(v) + PartsOf(v, i)[..n]) {
      AboveTarget(v, r.fs, i, n);
    }
    var node := Whole(v.bytes[v.names[i]]);
    WriteKeepsClosed(v, r.fs, i, |PartsOf(v, i)|, node);
    WriteSpares(v, r.fs, i, node, i + 1);
    OneMember(v, r'.fs, i);
    if Marker(v) in r.fs {
      FileAtMarker(v, i);
    }
    WriteKeepsMarkers(v, r.fs, r'.fs, i, |PartsOf(v, i)|, node);
  }

  lemma MarkersDiffer(v: Version)
    ensures Marker(v) != InstallMarker(v) && Marker(v) != Requirements(v) && InstallMarker(v) != Requirements(v)
  {
    assert Marker(v)[|Marker(v)| - 1] == EXTRACTED && InstallMarker(v)[|InstallMarker(v)| - 1] == INSTALLED;
    assert Requirements(v)[|Requirements(v)| - 1] == REQUIREMENTS;
  }

  lemma MarkExtractedKeeps(v: Version, r: Runner)
    requires WellFormed(v) && WellBehaved(v) && Invariant(v, r) && Enabled(v, r, MarkExtracted)
    ensures Invariant(v, Apply(v, r, MarkExtracted))
  {
    var r' := Apply(v, r, MarkExtracted);
    forall q, m: nat | q in r'.fs && SourceDir(v) <= q && |SourceDir(v)| <= m < |q| ensures IsDir(r'.fs, q[..m]) {
      if q == Marker(v) {
        assert q[..m] == SourceDir(v);
      } else {
        AboveIsDir(v, r.fs, q, m);
      }
    }
    forall k: nat | Due(v, k, |v.names|) ensures HasMember(v, r'.fs, k) {
      assert Target(v, k)[|SourceDir(v)|..] == PartsOf(v, k) && Marker(v)[|SourceDir(v)|..] == [EXTRACTED];
      assert HasMember(v, r.fs, k);
    }
    assert !Stuck(v) by {
      forall i: nat ensures !Conflict(v, i) {
        if Listed(v, i) {
          assert Target(v, i) in r.fs;
        }
      }
    }
    MarkersDiffer(v);
  }

  // ---------- dependencies ----------

  lemma RequirementsAreThere(v: Version, fs: Files)
    requires WellFormed(v) && Closed(v, fs) && TreeComplete(v, fs) && NeedsDeps(v)
    ensures Requirements(v) in fs
  {
    var i: nat :| Lands(v, i) && Listed(v, i) && [REQUIREMENTS] <= PartsOf(v, i);
    assert PartsOf(v, i)[0] == REQUIREMENTS;
    var k := SomeWanted(v, i);
    WantedIsThere(v, fs, k);
    assert PartsOf(v, k)[0] == REQUIREMENTS;
    assert PartsOf(v, k)[..1] == [REQUIREMENTS];
    if |PartsOf(v, k)| > 1 {
      AboveTarget(v, fs, k, 1);
    } else {
      WholePath(v, k);
    }
  }

  /** With requirements, no wanted member lies in the dependency directory; it is not one itself unless it is a file. */
  lemma StaysOutOfDeps(v: Version, fs: Files, k: nat)
    requires WellFormed(v) && KeepsOutOfDeps(v) && NeedsDeps(v) && !Stuck(v)
    requires Closed(v, fs) && TreeComplete(v, fs) && Wanted(v, k)
    ensures DepsDir(v) < Target(v, k) ==> false
    ensures DepsDir(v) == Target(v, k) ==> DepsDir(v) in fs && !IsDir(fs, DepsDir(v))
  {
    WantedIsThere(v, fs, k);
    if DepsDir(v) <= Target(v, k) {
      CacheKeepsApart(v, Target(v, k));
      if [DEPS] < PartsOf(v, k) {
        assert InDeps(v, k);
        var f: nat :| Wanted(v, f) && PartsOf(v, f) == [DEPS] && !Folder(v.names[f]);
        WantedIsThere(v, fs, f);
        assert Target(v, f) == [DEPS];
        assert PartsOf(v, k)[..1] == [DEPS];
        AboveTarget(v, fs, k, 1);
        assert false;
      }
    }
  }

  lemma CheckKeeps(v: Version, r: Runner)
    requires WellFormed(v) && WellBehaved(v) && Invariant(v, r) && Enabled(v, r, Check)
    ensures Invariant(v, Apply(v, r, Check))
  {
    if NeedsDeps(v) {
      RequirementsAreThere(v, r.fs);
      if InstallMarker(v) in r.fs && !(r.resolved.Some? && DepsHold(v, r.fs, r.resolved.value)) {
        var k: nat :| InDeps(v, k);
        StaysOutOfDeps(v, r.fs, k);
        assert false;
      }
    }
  }

  /** What happens at and below the dependency directory leaves the rest alone. */
  lemma OutsideDeps(v: Version, fs: Files, fs': Files)
    requires WellFormed(v) && KeepsOutOfDeps(v) && NeedsDeps(v) && !Stuck(v)
    requires Closed(v, fs) && TreeComplete(v, fs) && (DepsDir(v) in fs ==> IsDir(fs, DepsDir(v)))
    requires forall p: Path | !(DepsDir(v) <= p) :: (p in fs <==> p in fs') && (p in fs ==> fs'[p] == fs[p])
    ensures TreeComplete(v, fs')
    ensures Marker(v) in fs ==> Marker(v) in fs'
    ensures Requirements(v) in fs <==> Requirements(v) in fs'
    ensures IsDir(fs', SourceDir(v))
  {
    forall k: nat | Due(v, k, |v.names|) ensures HasMember(v, fs', k) {
      assert HasMember(v, fs, k);
      StaysOutOfDeps(v, fs, k);
      assert !(DepsDir(v) <= Target(v, k));
    }
    assert SourceDir(v) != [] ==> SourceDir(v)[0] != DepsDir(v)[0];
    assert Marker(v)[0] != DepsDir(v)[0] && Requirements(v)[0] != DepsDir(v)[0];
  }

  lemma RemoveKeeps(v: Version, r: Runner, p: Path)
    requires WellFormed(v) && WellBehaved(v) && Invariant(v, r) && Enabled(v, r, Remove(p))
    ensures Invariant(v, Apply(v, r, Remove(p)))
  {
    var r' := Apply(v, r, Remove(p));
    OutsideDeps(v, r.fs, r'.fs);
    forall q, m: nat | q in r'.fs && SourceDir(v) <= q && |SourceDir(v)| <= m < |q| ensures IsDir(r'.fs, q[..m]) {
      AboveIsDir(v, r.fs, q, m);
      assert q[..m] == p ==> p < q;
    }
  }

  lemma RunPipKeeps(v: Version, r: Runner)
    requires WellFormed(v) && WellBehaved(v) && Invariant(v, r) && Enabled(v, r, RunPip)
    ensures Invariant(v, Apply(v, r, RunPip))
  {
    var r' := Apply(v, r, RunPip);
    OutsideDeps(v, r.fs, r'.fs);
    forall q, m: nat | q in r'.fs && SourceDir(v) <= q && |SourceDir(v)| <= m < |q| ensures IsDir(r'.fs, q[..m]) {
      if q == DepsDir(v) {
        assert !v.cached && q[..m] == SourceDir(v);
      } else {
        AboveIsDir(v, r.fs, q, m);
      }
    }
    assert |InstallMarker(v)| > |DepsDir(v)|;
  }

  /** A file or directory made inside a directory that is there. */
  lemma PutKeepsClosed(v: Version, fs: Files, p: Path, node: Node)
    requires Closed(v, fs) && p != SourceDir(v) && p != [] && IsDir(fs, p[..|p| - 1]) && (IsDir(fs, p) ==> node == Dir)
    ensures Closed(v, fs[p := node])
  {
    var fs' := fs[p := node];
    forall q, m: nat | q in fs' && SourceDir(v) <= q && |SourceDir(v)| <= m < |q| ensures IsDir(fs', q[..m]) {
      if q != p {
        AboveIsDir(v, fs, q, m);
      } else if m < |p| - 1 {
        var parent := p[..|p| - 1];
        assert SourceDir(v) <= parent && parent[..m] == p[..m];
        AboveIsDir(v, fs, parent, m);
      }
    }
  }

  lemma PipWritesKeeps(v: Version, r: Runner, rel: Path, node: Node)
    requires WellFormed(v) && WellBehaved(v) && Invariant(v, r) && Enabled(v, r, PipWrites(rel, node))
    ensures Invariant(v, Apply(v, r, PipWrites(rel, node)))
  {
    var r', p := Apply(v, r, PipWrites(rel, node)), DepsDir(v) + rel;
    OutsideDeps(v, r.fs, r'.fs);
    assert p[..|p| - 1] == DepsDir(v) + rel[..|rel| - 1];
    assert p[1] == rel[0] && InstallMarker(v)[1] == INSTALLED;
    assert SourceDir(v) != p by { assert |SourceDir(v)| < |p|; }
    PutKeepsClosed(v, r.fs, p, node);
    assert IsDir(r'.fs, DepsDir(v)) by { assert |DepsDir(v)| < |p|; }
  }

  lemma MarkInstalledKeeps(v: Version, r: Runner)
    requires WellFormed(v) && WellBehaved(v) && Invariant(v, r) && Enabled(v, r, MarkInstalled)
    ensures Invariant(v, Apply(v, r, MarkInstalled))
  {
    var r', p := Apply(v, r, MarkInstalled), InstallMarker(v);
    OutsideDeps(v, r.fs, r'.fs);
    assert p[..|p| - 1] == DepsDir(v);
    assert SourceDir(v) != p by { assert |SourceDir(v)| < |p|; }
    PutKeepsClosed(v, r.fs, p, Stamp);
    assert DepsHold(v, r'.fs, r.phase.wheels);
  }

  lemma PipSucceedsKeeps(v: Version, r: Runner, wheels: Wheels)
    requires WellFormed(v) && WellBehaved(v) && Invariant(v, r) && Enabled(v, r, PipSucceeds(wheels))
    ensures Invariant(v, Apply(v, r, PipSucceeds(wheels)))
  {
  }

  // ---------- the dependency directory ----------

  /** What lies below the dependency directory lies in a directory. */
  ghost predicate Rooted(v: Version, r: Runner)
  {
    (forall p | p in r.fs && DepsDir(v) < p :: IsDir(r.fs, DepsDir(v)))
    && (r.phase.Installing? || r.phase.Installed? ==> IsDir(r.fs, DepsDir(v)))
    && (AtMember(v, r, true) ==> Target(v, r.phase.i) in r.fs && !IsDir(r.fs, Target(v, r.phase.i)))
  }

  lemma DirsKeepRooted(v: Version, fs: Files, i: nat, n: nat, node: Node)
    requires Rooted(v, Runner(fs, None, Idle)) && Listed(v, i) && DirsUpTo(v, fs, i, n)
    requires node == Dir || !IsDir(fs, SourceDir(v) + PartsOf(v, i)[..n])
    ensures Rooted(v, Runner(fs[SourceDir(v) + PartsOf(v, i)[..n] := node], None, Idle))
  {
    var parts := PartsOf(v, i);
    var p := SourceDir(v) + parts[..n];
    if DepsDir(v) < p {
      CacheKeepsApart(v, p);
      assert p == parts[..n] && parts[..1] == [parts[0]] && p[0] == parts[0] == DEPS;
      assert SourceDir(v) + parts[..1] == DepsDir(v);
    }
  }

  lemma StepKeepsRooted(v: Version, r: Runner, step: Step)
    requires Rooted(v, r) && Enabled(v, r, step)
    ensures Rooted(v, Apply(v, r, step))
  {
    match step
    case Download => ZipIsApart(v);
    case MakeDir(n) => DirsKeepRooted(v, r.fs, r.phase.i, n, Dir);
    case MakeFolder =>
      WholePath(v, r.phase.i);
      DirsKeepRooted(v, r.fs, r.phase.i, |PartsOf(v, r.phase.i)|, Dir);
    case Open =>
      WholePath(v, r.phase.i);
      DirsKeepRooted(v, r.fs, r.phase.i, |PartsOf(v, r.phase.i)|, Part);
    case MarkExtracted => assert Marker(v)[0] != DepsDir(v)[0];
    case PipWrites(rel, node) => assert rel[..0] == [] && DepsDir(v) + [] == DepsDir(v);
    case _ =>
  }

  lemma {:induction false} RootedHolds(v: Version, steps: seq<Step>)
    requires Feasible(v, steps)
    ensures Rooted(v, After(v, steps))
    decreases |steps|
  {
    if steps == [] {
      assert SourceDir(v) == [] || SourceDir(v)[0] != DepsDir(v)[0];
    } else {
      RootedHolds(v, steps[..|steps| - 1]);
      StepKeepsRooted(v, After(v, steps[..|steps| - 1]), steps[|steps| - 1]);
    }
  }

  /** The archive is never a directory, and is there during extraction. */
  ghost predicate ZipIsFile(v: Version, r: Runner)
  {
    !IsDir(r.fs, Zip(v)) && (r.phase.Extracting? ==> Zip(v) in r.fs)
  }

  lemma StepKeepsZip(v: Version, r: Runner, step: Step)
    requires ZipIsFile(v, r) && Enabled(v, r, step)
    ensures ZipIsFile(v, Apply(v, r, step))
  {
    ZipIsApart(v);
    if step.PipWrites? {
      assert DepsDir(v) <= DepsDir(v) + step.rel;
    }
  }

  lemma {:induction false} ZipHolds(v: Version, steps: seq<Step>)
    requires Feasible(v, steps)
    ensures ZipIsFile(v, After(v, steps))
    decreases |steps|
  {
    if steps == [] {
      assert |Zip(v)| > |SourceDir(v)|;
    } else {
      ZipHolds(v, steps[..|steps| - 1]);
      StepKeepsZip(v, After(v, steps[..|steps| - 1]), steps[|steps| - 1]);
    }
  }

  // ---------- all steps ----------

  lemma SkipKeeps(v: Version, r: Runner)
    requires WellFormed(v) && Invariant(v, r) && Enabled(v, r, Skip)
    ensures Invariant(v, Apply(v, r, Skip))
  {
    assert !Listed(v, r.phase.i);
  }

  lemma StepKeeps(v: Version, r: Runner, step: Step)
    requires WellFormed(v) && WellBehaved(v) && Invariant(v, r) && Enabled(v, r, step)
    ensures Invariant(v, Apply(v, r, step))
  {
    match step
    case Download => DownloadKeeps(v, r);
    case Skip => SkipKeeps(v, r);
    case MakeDir(n) => MakeDirKeeps(v, r, n);
    case MakeFolder => MakeFolderKeeps(v, r);
    case Open => OpenKeeps(v, r);
    case Complete => CompleteKeeps(v, r);
    case MarkExtracted => MarkExtractedKeeps(v, r);
    case Check => CheckKeeps(v, r);
    case Remove(p) => RemoveKeeps(v, r, p);
    case RunPip => RunPipKeeps(v, r);
    case PipWrites(rel, node) => PipWritesKeeps(v, r, rel, node);
    case PipSucceeds(wheels) => PipSucceedsKeeps(v, r, wheels);
    case MarkInstalled => MarkInstalledKeeps(v, r);
    case _ =>
  }

  lemma FreshIsSound(v: Version)
    requires WellFormed(v)
    ensures Invariant(v, Fresh(v))
  {
    assert Marker(v) != SourceDir(v) && Requirements(v) != SourceDir(v) && InstallMarker(v) != SourceDir(v) by {
      assert |Marker(v)| > |SourceDir(v)| && |Requirements(v)| > |SourceDir(v)| && |InstallMarker(v)| > |SourceDir(v)|;
    }
  }

  lemma {:induction false} InvariantHolds(v: Version, steps: seq<Step>)
    requires WellFormed(v) && WellBehaved(v) && Feasible(v, steps)
    ensures Invariant(v, After(v, steps))
    decreases |steps|
  {
    if steps == [] {
      FreshIsSound(v);
    } else {
      InvariantHolds(v, steps[..|steps| - 1]);
      StepKeeps(v, After(v, steps[..|steps| - 1]), steps[|steps| - 1]);
    }
  }

  /** Whatever was killed before: the extraction marker means a complete tree, the installation marker complete
      dependencies, and a handler is loaded only when both are complete. */
  lemma MarkersTell(v: Version, steps: seq<Step>)
    requires WellFormed(v) && WellBehaved(v) && Feasible(v, steps)
    ensures Truthful(v, After(v, steps))
  {
    InvariantHolds(v, steps);
    var r := After(v, steps);
    if Marker(v) in r.fs && InstallMarker(v) in r.fs && NeedsDeps(v)
      && !(r.resolved.Some? && DepsHold(v, r.fs, r.resolved.value)) {
      var k: nat :| InDeps(v, k);
      StaysOutOfDeps(v, r.fs, k);
      assert false;
    }
  }
}

/** Exactly which archives the runner's marker files are safe for. */
module RunnerCacheCases {
  import opened Base
  import opened RunnerCache
  import opened RunnerSteps

  /** Between any two runs the markers tell the truth, and every handler ever loaded finds tree and dependencies
      complete. */
  ghost predicate AlwaysTruthful(v: Version)
    requires WellFormed(v)
  {
    forall steps | Feasible(v, steps) :: Truthful(v, After(v, steps))
  }

  lemma Extend(v: Version, steps: seq<Step>, step: Step) returns (more: seq<Step>)
    requires Feasible(v, steps) && Enabled(v, After(v, steps), step)
    ensures Feasible(v, more) && After(v, more) == Apply(v, After(v, steps), step)
  {
    more := steps + [step];
    assert more[..|steps|] == steps;
  }

  // ---------- a first run ----------

  /** The node at this path below the source directory was made for member j: it lies above it, or is the member. */
  predicate MadeFor(v: Version, rel: Path, node: Node, j: nat)
    requires j < |v.names|
  {
    rel <= PartsOf(v, j) && (node == Dir <==> rel != PartsOf(v, j) || Folder(v.names[j]))
  }

  /** There before the first member: the source directory and the archive. */
  predicate Given(rel: Path, node: Node)
  {
    (rel == [] && node == Dir) || (rel == [SOURCE_ZIP] && node == Stamp)
  }

  ghost predicate ComesFrom(v: Version, rel: Path, node: Node, n: nat)
  {
    Given(rel, node) || exists j: nat :: j < n && Listed(v, j) && MadeFor(v, rel, node, j)
  }

  /** All other files come from the first n members. */
  ghost predicate FilesFrom(v: Version, fs: Files, n: nat)
  {
    (forall p | p in fs :: SourceDir(v) <= p)
    && forall rel {:trigger ComesFrom(v, rel, fs[SourceDir(v) + rel], n)} | SourceDir(v) + rel in fs ::
      ComesFrom(v, rel, fs[SourceDir(v) + rel], n)
  }

  ghost predicate AllThere(v: Version, fs: Files, n: nat)
  {
    forall j: nat | j < n && Listed(v, j) :: Target(v, j) in fs
  }

  ghost predicate Extracted(v: Version, r: Runner, n: nat)
    requires WellFormed(v)
  {
    r.phase == Extracting(n, false) && r.resolved == None
    && FilesFrom(v, r.fs, n) && Closed(v, r.fs) && TreeUpTo(v, r.fs, n, n) && AllThere(v, r.fs, n)
  }

  lemma FilesFromMore(v: Version, fs: Files, n: nat)
    requires FilesFrom(v, fs, n)
    ensures FilesFrom(v, fs, n + 1)
  {
    forall rel | SourceDir(v) + rel in fs ensures ComesFrom(v, rel, fs[SourceDir(v) + rel], n + 1) {
      assert ComesFrom(v, rel, fs[SourceDir(v) + rel], n);
      if !Given(rel, fs[SourceDir(v) + rel]) {
        var j: nat :| j < n && Listed(v, j) && MadeFor(v, rel, fs[SourceDir(v) + rel], j);
        assert j < n + 1;
      }
    }
  }

  /** One more file or directory at or above member i. */
  lemma OneMoreFile(v: Version, fs: Files, i: nat, rel: Path, node: Node)
    requires FilesFrom(v, fs, i + 1) && Listed(v, i) && MadeFor(v, rel, node, i)
    ensures FilesFrom(v, fs[SourceDir(v) + rel := node], i + 1)
  {
    var s, fs' := SourceDir(v), fs[SourceDir(v) + rel := node];
    forall other | s + other in fs' ensures ComesFrom(v, other, fs'[s + other], i + 1) {
      if other == rel {
        assert i < i + 1 && MadeFor(v, rel, node, i);
      } else {
        assert (s + other)[|s|..] == other && (s + rel)[|s|..] == rel;
        assert ComesFrom(v, other, fs[s + other], i + 1);
      }
    }
  }

  /** Parts of two paths, one of which begins the other. */
  lemma NoClash(v: Version, j: nat, i: nat, n: nat)
    requires WellFormed(v) && Listed(v, j) && Listed(v, i) && j < i && !Conflict(v, i)
    requires n <= |PartsOf(v, i)| && PartsOf(v, i)[..n] <= PartsOf(v, j)
    ensures n < |PartsOf(v, i)| && PartsOf(v, i)[..n] == PartsOf(v, j) ==> Folder(v.names[j])
    ensures n == |PartsOf(v, i)| ==>
      if PartsOf(v, i) == PartsOf(v, j) then Folder(v.names[i]) == Folder(v.names[j]) else Folder(v.names[i])
  {
    assert !Clash(v, j, i);
    if n == |PartsOf(v, i)| {
      assert PartsOf(v, i)[..n] == PartsOf(v, i);
    }
  }

  /** In a first run nothing stands in the way of a member that lands. */
  lemma NothingInTheWay(v: Version, fs: Files, i: nat, n: nat)
    requires WellFormed(v) && FilesFrom(v, fs, i + 1) && Listed(v, i) && !Conflict(v, i) && n <= |PartsOf(v, i)|
    requires SourceDir(v) + PartsOf(v, i)[..n] in fs
    ensures fs[SourceDir(v) + PartsOf(v, i)[..n]] == Dir <==> n < |PartsOf(v, i)| || Folder(v.names[i])
  {
    var rel := PartsOf(v, i)[..n];
    var node := fs[SourceDir(v) + rel];
    assert ComesFrom(v, rel, node, i + 1);
    if Given(rel, node) {
      assert !ClashesWithZip(v, i);
      assert n == |PartsOf(v, i)| ==> rel == PartsOf(v, i);
    } else {
      var j: nat :| j < i + 1 && Listed(v, j) && MadeFor(v, rel, node, j);
      assert n == |PartsOf(v, i)| ==> rel == PartsOf(v, i);
      if j < i {
        NoClash(v, j, i, n);
      }
    }
  }

  /** Extracting member i, with the first n directories above it made. */
  ghost predicate Underway(v: Version, r: Runner, i: nat, n: nat)
    requires WellFormed(v) && i < |v.names|
  {
    r.phase == Extracting(i, false) && r.resolved == None && FilesFrom(v, r.fs, i + 1)
    && Closed(v, r.fs) && TreeUpTo(v, r.fs, i, i) && AllThere(v, r.fs, i) && DirsUpTo(v, r.fs, i, n)
  }

  lemma NewDirSpares(v: Version, fs: Files, p: Path, n: nat)
    requires WellFormed(v) && TreeUpTo(v, fs, n, n) && p !in fs
    ensures TreeUpTo(v, fs[p := Dir], n, n)
  {
  }

  lemma OneDirMore(v: Version, fs: Files, i: nat, n: nat)
    requires i < |v.names| && n < |PartsOf(v, i)| && DirsUpTo(v, fs, i, n)
    ensures DirsUpTo(v, fs[SourceDir(v) + PartsOf(v, i)[..n] := Dir], i, n + 1)
  {
  }

  lemma OneDir(v: Version, r: Runner, i: nat, n: nat)
    requires WellFormed(v) && Listed(v, i) && !Conflict(v, i) && n < |PartsOf(v, i)| && Underway(v, r, i, n)
    ensures
      if SourceDir(v) + PartsOf(v, i)[..n] in r.fs then Underway(v, r, i, n + 1)
      else Enabled(v, r, MakeDir(n)) && Underway(v, Apply(v, r, MakeDir(n)), i, n + 1)
  {
    var rel := PartsOf(v, i)[..n];
    if SourceDir(v) + rel in r.fs {
      NothingInTheWay(v, r.fs, i, n);
    } else {
      WriteKeepsClosed(v, r.fs, i, n, Dir);
      OneMoreFile(v, r.fs, i, rel, Dir);
      NewDirSpares(v, r.fs, SourceDir(v) + rel, i);
      OneDirMore(v, r.fs, i, n);
    }
  }

  /** The directories above member i. */
  lemma {:induction false} MakeDirs(v: Version, start: seq<Step>, i: nat, n: nat) returns (steps: seq<Step>)
    requires WellFormed(v) && Feasible(v, start) && Extracted(v, After(v, start), i)
    requires Listed(v, i) && !Conflict(v, i) && n <= |PartsOf(v, i)|
    ensures Feasible(v, steps) && Underway(v, After(v, steps), i, n)
  {
    if n == 0 {
      steps := start;
      FilesFromMore(v, After(v, start).fs, i);
    } else {
      steps := MakeDirs(v, start, i, n - 1);
      OneDir(v, After(v, steps), i, n - 1);
      if SourceDir(v) + PartsOf(v, i)[..n - 1] !in After(v, steps).fs {
        steps := Extend(v, steps, MakeDir(n - 1));
      }
    }
  }

  /** The members before the n-th all land: a first run gets to the n-th. */
  lemma {:induction false} ExtractTo(v: Version, n: nat) returns (steps: seq<Step>)
    requires WellFormed(v) && n <= |v.names| && forall j: nat | j < n :: !Conflict(v, j)
    ensures Feasible(v, steps) && Extracted(v, After(v, steps), n)
  {
    if n == 0 {
      steps := BeginExtraction(v);
    } else {
      var before := ExtractTo(v, n - 1);
      steps := ExtractOne(v, before, n - 1);
    }
  }

  lemma BeginExtraction(v: Version) returns (steps: seq<Step>)
    requires WellFormed(v)
    ensures Feasible(v, steps) && Extracted(v, After(v, steps), 0)
  {
    SourceIsEmpty(v);
    steps := Extend(v, [], Download);
  }

  lemma ExtractOne(v: Version, start: seq<Step>, i: nat) returns (steps: seq<Step>)
    requires WellFormed(v) && i < |v.names| && !Conflict(v, i) && Feasible(v, start) && Extracted(v, After(v, start), i)
    ensures Feasible(v, steps) && Extracted(v, After(v, steps), i + 1)
  {
    if Listed(v, i) {
      steps := WriteMember(v, start, i);
    } else {
      SkippedIsExtracted(v, After(v, start), i);
      steps := Extend(v, start, Skip);
    }
  }

  lemma SkippedIsExtracted(v: Version, r: Runner, i: nat)
    requires WellFormed(v) && i < |v.names| && !Listed(v, i) && Extracted(v, r, i)
    ensures Enabled(v, r, Skip) && Extracted(v, Apply(v, r, Skip), i + 1)
  {
    FilesFromMore(v, r.fs, i);
  }

  lemma SourceIsEmpty(v: Version)
    requires WellFormed(v)
    ensures Enabled(v, Fresh(v), Download) && Extracted(v, Apply(v, Fresh(v), Download), 0)
  {
    assert |Marker(v)| > |SourceDir(v)| && |Zip(v)| > |SourceDir(v)|;
    var fs := Apply(v, Fresh(v), Download).fs;
    forall rel | SourceDir(v) + rel in fs ensures ComesFrom(v, rel, fs[SourceDir(v) + rel], 0) {
      assert rel == (SourceDir(v) + rel)[|SourceDir(v)|..] && Zip(v)[|SourceDir(v)|..] == [SOURCE_ZIP];
    }
    forall q, m: nat | q in fs && SourceDir(v) <= q && |SourceDir(v)| <= m < |q| ensures IsDir(fs, q[..m]) {
      assert q[..m] == SourceDir(v);
    }
  }

  lemma ReadyToWrite(v: Version, r: Runner, i: nat)
    requires WellFormed(v) && Listed(v, i) && !Conflict(v, i) && Underway(v, r, i, |PartsOf(v, i)|)
    ensures Enabled(v, r, if Folder(v.names[i]) then MakeFolder else Open)
  {
    WholePath(v, i);
    if Target(v, i) in r.fs {
      NothingInTheWay(v, r.fs, i, |PartsOf(v, i)|);
    }
  }

  lemma WriteMember(v: Version, start: seq<Step>, i: nat) returns (steps: seq<Step>)
    requires WellFormed(v) && Feasible(v, start) && Extracted(v, After(v, start), i) && Listed(v, i) && !Conflict(v, i)
    ensures Feasible(v, steps) && Extracted(v, After(v, steps), i + 1)
  {
    var above := MakeDirs(v, start, i, |PartsOf(v, i)|);
    var r := After(v, above);
    ReadyToWrite(v, r, i);
    var node := if Folder(v.names[i]) then Dir else Whole(v.bytes[v.names[i]]);
    WrittenIsExtracted(v, r.fs, i, node);
    if Folder(v.names[i]) {
      steps := Extend(v, above, MakeFolder);
    } else {
      steps := WriteFile(v, above, i);
    }
  }

  lemma OpenThenComplete(v: Version, r: Runner, i: nat)
    requires WellFormed(v) && Listed(v, i) && r.phase == Extracting(i, false)
    ensures var half := Apply(v, r, Open);
      Enabled(v, half, Complete)
      && Apply(v, half, Complete) == r.(phase := Extracting(i + 1, false),
                                        fs := r.fs[Target(v, i) := Whole(v.bytes[v.names[i]])])
  {
  }

  lemma WriteFile(v: Version, start: seq<Step>, i: nat) returns (steps: seq<Step>)
    requires WellFormed(v) && Feasible(v, start) && Listed(v, i) && Enabled(v, After(v, start), Open)
    requires After(v, start).phase == Extracting(i, false)
    ensures Feasible(v, steps)
    ensures After(v, steps) == After(v, start).(phase := Extracting(i + 1, false),
                                               fs := After(v, start).fs[Target(v, i) := Whole(v.bytes[v.names[i]])])
  {
    OpenThenComplete(v, After(v, start), i);
    steps := Extend(v, start, Open);
    steps := Extend(v, steps, Complete);
  }

  lemma WrittenIsExtracted(v: Version, fs: Files, i: nat, node: Node)
    requires WellFormed(v) && Listed(v, i) && !Conflict(v, i)
    requires Underway(v, Runner(fs, None, Extracting(i, false)), i, |PartsOf(v, i)|)
    requires node == if Folder(v.names[i]) then Dir else Whole(v.bytes[v.names[i]])
    requires Folder(v.names[i]) || (PartsOf(v, i) != [] && !IsDir(fs, Target(v, i)))
    ensures Extracted(v, Runner(fs[Target(v, i) := node], None, Extracting(i + 1, false)), i + 1)
  {
    WholePath(v, i);
    WriteKeepsClosed(v, fs, i, |PartsOf(v, i)|, node);
    OneMoreFile(v, fs, i, PartsOf(v, i), node);
    var n := i + 1;
    forall k: nat | k < i && Due(v, k, n) ensures HasMember(v, fs[Target(v, i) := node], k) {
      StillThere(v, fs, i, node, k);
    }
  }

  /** Writing member i leaves an earlier member alone that it is no copy of. */
  lemma StillThere(v: Version, fs: Files, i: nat, node: Node, k: nat)
    requires WellFormed(v) && Listed(v, i) && !Conflict(v, i) && TreeUpTo(v, fs, i, i)
    requires node == if Folder(v.names[i]) then Dir else Whole(v.bytes[v.names[i]])
    requires k < i && Due(v, k, i + 1)
    ensures HasMember(v, fs[Target(v, i) := node], k)
  {
    CopyReplaces(v, k, i);
    DueBefore(v, k, i);
    assert HasMember(v, fs, k) && !Clash(v, k, i);
    assert Target(v, k)[|SourceDir(v)|..] == PartsOf(v, k) && Target(v, i)[|SourceDir(v)|..] == PartsOf(v, i);
  }

  lemma DueBefore(v: Version, k: nat, n: nat)
    requires Due(v, k, n + 1)
    ensures Due(v, k, n)
  {
  }

  /** One of the first n members is an earlier copy of the same file. */
  ghost predicate Copied(v: Version, k: nat, n: nat)
    requires k < |v.names|
  {
    !Folder(v.names[k])
    && exists j: nat :: j < n && Listed(v, j) && !Folder(v.names[j]) && PartsOf(v, j) == PartsOf(v, k)
  }

  /** What is still to come is not there yet, unless in an earlier copy. */
  lemma LaterMemberIsMissing(v: Version, fs: Files, i: nat, k: nat)
    requires WellFormed(v) && FilesFrom(v, fs, i) && i <= k && Wanted(v, k)
    ensures !HasMember(v, fs, k) || Copied(v, k, i)
  {
    if HasMember(v, fs, k) {
      var j := Origin(v, fs, i, PartsOf(v, k));
    }
  }

  lemma OnlyOwnRequirements(v: Version, fs: Files, n: nat)
    requires FilesFrom(v, fs, n) && (forall j: nat | j < n :: !Conflict(v, j)) && Requirements(v) in fs
    ensures NeedsDeps(v)
  {
    var j := Origin(v, fs, n, [REQUIREMENTS]);
    assert Lands(v, j);
  }

  // ---------- the two ways to mislead the runner ----------

  /** No path but p differs. */
  ghost predicate SameBut(fs: Files, fs': Files, p: Path)
  {
    forall q | q != p :: (q in fs <==> q in fs') && (q in fs ==> fs'[q] == fs[q])
  }

  /** The first thing at member i that makes the marker exist: the member, or the directory it lies in. */
  lemma MakeMarker(v: Version, start: seq<Step>, i: nat) returns (steps: seq<Step>)
    requires WellFormed(v) && Feasible(v, start) && Extracted(v, After(v, start), i) && MakesMarker(v, i)
    ensures Feasible(v, steps) && After(v, steps).phase != Idle && Marker(v) in After(v, steps).fs
    ensures After(v, steps).resolved == None && Closed(v, After(v, steps).fs)
    ensures SameBut(After(v, start).fs, After(v, steps).fs, Marker(v))
  {
    var r := After(v, start);
    steps := start;
    if Marker(v) !in r.fs {
      var step := MayMakeMarker(v, r, i);
      steps := Extend(v, steps, step);
    }
  }

  lemma MayMakeMarker(v: Version, r: Runner, i: nat) returns (step: Step)
    requires WellFormed(v) && Extracted(v, r, i) && MakesMarker(v, i) && Marker(v) !in r.fs
    ensures Enabled(v, r, step)
    ensures var r' := Apply(v, r, step);
      r'.phase != Idle && Marker(v) in r'.fs && r'.resolved == None && Closed(v, r'.fs)
      && SameBut(r.fs, r'.fs, Marker(v))
  {
    var parts := PartsOf(v, i);
    assert parts[..0] == [] && SourceDir(v) + [] == SourceDir(v);
    assert parts[..1] == [EXTRACTED];
    if |parts| > 1 {
      WriteKeepsClosed(v, r.fs, i, 1, Dir);
      step := MakeDir(1);
    } else {
      WholePath(v, i);
      assert parts == [EXTRACTED];
      WriteKeepsClosed(v, r.fs, i, 1, if Folder(v.names[i]) then Dir else Part);
      step := if Folder(v.names[i]) then MakeFolder else Open;
    }
  }

  /** Member k is not there, or only in a copy with other content, when member i makes the marker exist: a kill at that
      point leaves a tree that passes for complete and is never finished. */
  lemma NothingOfItYet(v: Version, i: nat, k: nat) returns (steps: seq<Step>)
    requires WellFormed(v) && MakesMarker(v, i) && i <= k && Wanted(v, k) && !SameCopy(v, i, k)
    ensures Feasible(v, steps) && After(v, steps).phase == Idle && Marker(v) in After(v, steps).fs
    ensures !TreeComplete(v, After(v, steps).fs) && (Requirements(v) in After(v, steps).fs ==> NeedsDeps(v))
  {
    steps := ExtractTo(v, i);
    var fs := After(v, steps).fs;
    if Requirements(v) in fs {
      OnlyOwnRequirements(v, fs, i);
    }
    MarkersDiffer(v);
    var l := LastCopy(v, k, |v.names|);
    OtherContent(v, fs, i, k, l);
    steps := MakeMarker(v, steps, i);
    assert Target(v, l) != Marker(v) by {
      assert Target(v, l)[|SourceDir(v)|..] == PartsOf(v, l) && Marker(v)[|SourceDir(v)|..] == [EXTRACTED];
    }
    assert !HasMember(v, After(v, steps).fs, l);
    steps := Extend(v, steps, Die);
  }

  lemma OtherContent(v: Version, fs: Files, i: nat, k: nat, l: nat)
    requires WellFormed(v) && FilesFrom(v, fs, i) && TreeUpTo(v, fs, i, i) && i <= k < |v.names| && !SameCopy(v, i, k)
    requires i <= l && Due(v, l, |v.names|) && PartsOf(v, l) == PartsOf(v, k)
    requires Folder(v.names[l]) == Folder(v.names[k])
    ensures !HasMember(v, fs, l)
  {
    LaterMemberIsMissing(v, fs, i, l);
    if Copied(v, l, i) {
      var j: nat :| j < i && Listed(v, j) && !Folder(v.names[j]) && PartsOf(v, j) == PartsOf(v, l);
      j := LastCopy(v, j, i);
      assert HasMember(v, fs, j) && !CopyPair(v, i, k, j, l);
    }
  }

  lemma MarkerStands(v: Version, fs: Files, i: nat, n: nat)
    requires Closed(v, fs) && AllThere(v, fs, n) && MakesMarker(v, i) && i < n
    ensures Marker(v) in fs
  {
    assert Target(v, i) in fs && PartsOf(v, i)[..1] == [EXTRACTED];
    if |PartsOf(v, i)| > 1 {
      AboveTarget(v, fs, i, 1);
    } else {
      WholePath(v, i);
    }
  }

  lemma HalfWritten(v: Version, r: Runner, i: nat, k: nat)
    requires WellFormed(v) && MakesMarker(v, i) && i < k && Wanted(v, k) && !Folder(v.names[k])
    requires (forall j: nat | j <= k :: !Conflict(v, j)) && Underway(v, r, k, |PartsOf(v, k)|)
    ensures Enabled(v, r, Open)
    ensures var fs := Apply(v, r, Open).fs;
      Marker(v) in fs && !TreeComplete(v, fs) && (Requirements(v) in fs ==> NeedsDeps(v))
  {
    ReadyToWrite(v, r, k);
    MarkerStands(v, r.fs, i, k);
    var fs := Apply(v, r, Open).fs;
    OneMoreFile(v, r.fs, k, PartsOf(v, k), Part);
    if Requirements(v) in fs {
      OnlyOwnRequirements(v, fs, k + 1);
    }
    var l := LastCopy(v, k, |v.names|);
    assert !HasMember(v, fs, l);
  }

  /** A later copy of a file that is there: a kill while it is being written leaves half of it. */
  lemma HalfOfIt(v: Version, i: nat, k: nat) returns (steps: seq<Step>)
    requires WellFormed(v) && MakesMarker(v, i) && i < k && Wanted(v, k) && !Folder(v.names[k])
    requires forall j: nat | j <= k :: !Conflict(v, j)
    ensures Feasible(v, steps) && After(v, steps).phase == Idle && Marker(v) in After(v, steps).fs
    ensures !TreeComplete(v, After(v, steps).fs) && (Requirements(v) in After(v, steps).fs ==> NeedsDeps(v))
  {
    steps := ExtractTo(v, k);
    steps := MakeDirs(v, steps, k, |PartsOf(v, k)|);
    HalfWritten(v, After(v, steps), i, k);
    steps := Extend(v, steps, Open);
    steps := Extend(v, steps, Die);
  }

  /** An archive with something left to write when a member makes the marker exist can leave a tree that passes for
      complete and is never finished. */
  lemma ShippedMarkerMisleads(v: Version, i: nat, k: nat) returns (steps: seq<Step>)
    requires WellFormed(v) && MakesMarker(v, i) && i <= k && Wanted(v, k) && !(SameCopy(v, i, k) && !Lands(v, k))
    ensures Feasible(v, steps) && After(v, steps).phase == Idle && Marker(v) in After(v, steps).fs
    ensures !TreeComplete(v, After(v, steps).fs) && (Requirements(v) in After(v, steps).fs ==> NeedsDeps(v))
  {
    if !SameCopy(v, i, k) {
      steps := NothingOfItYet(v, i, k);
    } else {
      var j := EarlierCopy(v, i, k);
      steps := HalfOfIt(v, j, k);
    }
  }

  /** A member before k that makes the marker exist: i itself, or the copy before it. */
  lemma EarlierCopy(v: Version, i: nat, k: nat) returns (j: nat)
    requires WellFormed(v) && MakesMarker(v, i) && i <= k && Wanted(v, k) && SameCopy(v, i, k) && Lands(v, k)
    ensures j < k && MakesMarker(v, j) && !Folder(v.names[k])
  {
    j := i;
    if i == k {
      var l: nat;
      j, l :| CopyPair(v, i, k, j, l);
    }
  }

  /** Without requirements, the next run then loads a handler from that tree. */
  lemma ShippedMarkerLoads(v: Version, i: nat, k: nat) returns (steps: seq<Step>)
    requires WellFormed(v) && MakesMarker(v, i) && i <= k && Wanted(v, k) && !(SameCopy(v, i, k) && !Lands(v, k))
    requires !NeedsDeps(v)
    ensures Feasible(v, steps) && After(v, steps).phase == Ready && !TreeComplete(v, After(v, steps).fs)
  {
    steps := ShippedMarkerMisleads(v, i, k);
    steps := Extend(v, steps, Start);
    steps := Extend(v, steps, Check);
  }

  lemma MarkerIsNotWanted(v: Version, fs: Files, fs': Files)
    requires WellFormed(v) && TreeComplete(v, fs) && SameBut(fs, fs', Marker(v))
    ensures TreeComplete(v, fs')
  {
    forall k: nat | Due(v, k, |v.names|) ensures HasMember(v, fs', k) {
      assert HasMember(v, fs, k);
      assert Target(v, k)[|SourceDir(v)|..] == PartsOf(v, k) && Marker(v)[|SourceDir(v)|..] == [EXTRACTED];
    }
  }

  lemma NoMarkerYet(v: Version, fs: Files, n: nat)
    requires FilesFrom(v, fs, n) && (forall j: nat | j < n :: !Conflict(v, j)) && forall i: nat :: !MakesMarker(v, i)
    ensures Marker(v) !in fs
  {
    if Marker(v) in fs {
      var j := Origin(v, fs, n, [EXTRACTED]);
      assert MakesMarker(v, j);
    }
  }

  lemma ChecksShippedTree(v: Version, i: nat) returns (steps: seq<Step>, fs: Files)
    requires WellFormed(v) && MarkerComesLast(v) && MakesMarker(v, i)
    ensures Feasible(v, steps) && After(v, steps).phase == Checking && After(v, steps).resolved == None
    ensures Closed(v, After(v, steps).fs) && TreeComplete(v, fs) && Marker(v) in After(v, steps).fs
    ensures FilesFrom(v, fs, i) && SameBut(fs, After(v, steps).fs, Marker(v))
  {
    steps := ExtractTo(v, i);
    fs := After(v, steps).fs;
    CompleteAtMarker(v, fs, i);
    steps := MakeMarker(v, steps, i);
    steps := Extend(v, steps, Die);
    steps := Extend(v, steps, Start);
  }

  lemma ChecksMarkedTree(v: Version) returns (steps: seq<Step>, fs: Files)
    requires WellFormed(v) && (forall j: nat :: !Conflict(v, j)) && forall i: nat :: !MakesMarker(v, i)
    ensures Feasible(v, steps) && After(v, steps).phase == Checking && After(v, steps).resolved == None
    ensures Closed(v, After(v, steps).fs) && TreeComplete(v, fs) && Marker(v) in After(v, steps).fs
    ensures FilesFrom(v, fs, |v.names|) && SameBut(fs, After(v, steps).fs, Marker(v))
  {
    steps := ExtractTo(v, |v.names|);
    fs := After(v, steps).fs;
    NoMarkerYet(v, fs, |v.names|);
    assert Marker(v)[..|Marker(v)| - 1] == SourceDir(v);
    PutKeepsClosed(v, fs, Marker(v), Stamp);
    steps := Extend(v, steps, MarkExtracted);
  }

  /** Unless extraction is stuck, a run comes to check the dependencies: over the files of the first n members. */
  lemma ReachChecking(v: Version) returns (steps: seq<Step>, fs: Files, n: nat)
    requires WellFormed(v) && MarkerComesLast(v) && !Stuck(v)
    ensures Feasible(v, steps) && After(v, steps).phase == Checking && After(v, steps).resolved == None
    ensures Closed(v, After(v, steps).fs) && TreeComplete(v, After(v, steps).fs) && Marker(v) in After(v, steps).fs
    ensures FilesFrom(v, fs, n) && SameBut(fs, After(v, steps).fs, Marker(v))
  {
    if i: nat :| MakesMarker(v, i) {
      n := i;
      steps, fs := ChecksShippedTree(v, i);
    } else {
      n := |v.names|;
      steps, fs := ChecksMarkedTree(v);
    }
    MarkerIsNotWanted(v, fs, After(v, steps).fs);
  }

  lemma NothingUnderBare(v: Version, fs: Files, n: nat, k: nat, rel: Path)
    requires FilesFrom(v, fs, n) && k < |v.names| && Bare(v, k) && PartsOf(v, k) != [] && PartsOf(v, k) < rel
    ensures SourceDir(v) + rel !in fs
  {
    if SourceDir(v) + rel in fs {
      var j := Origin(v, fs, n, rel);
      assert false;
    }
  }

  /** The member a file or directory was made for. */
  lemma Origin(v: Version, fs: Files, n: nat, rel: Path) returns (j: nat)
    requires FilesFrom(v, fs, n) && SourceDir(v) + rel in fs && !Given(rel, fs[SourceDir(v) + rel])
    ensures j < n && Listed(v, j) && MadeFor(v, rel, fs[SourceDir(v) + rel], j)
  {
    assert ComesFrom(v, rel, fs[SourceDir(v) + rel], n);
    j :| j < n && Listed(v, j) && MadeFor(v, rel, fs[SourceDir(v) + rel], j);
  }

  lemma ParentIsDir(v: Version, fs: Files, p: Path, q: Path)
    requires Closed(v, fs) && q in fs && SourceDir(v) <= p < q
    ensures IsDir(fs, p)
  {
    assert q[..|p|] == p;
    AboveIsDir(v, fs, q, |p|);
  }

  /** In a first run's files, nothing lies below a wanted member. */
  lemma WantedIsLeaf(v: Version, fs: Files, fs': Files, n: nat, k: nat, q: Path)
    requires WellFormed(v) && FilesFrom(v, fs, n) && SameBut(fs, fs', Marker(v)) && Closed(v, fs')
    requires Wanted(v, k) && HasMember(v, fs', k) && PartsOf(v, k)[0] != EXTRACTED && Target(v, k) < q
    ensures q !in fs'
  {
    if q in fs' && Folder(v.names[k]) {
      var rel := q[|SourceDir(v)|..];
      assert q == SourceDir(v) + rel && PartsOf(v, k) < rel;
      assert rel[0] != EXTRACTED;
      assert q != Marker(v) by { assert Marker(v)[|SourceDir(v)|] == EXTRACTED; }
      NothingUnderBare(v, fs, n, k, rel);
    } else if q in fs' {
      ParentIsDir(v, fs', Target(v, k), q);
      assert false;
    }
  }

  /** An archive without a cache directory, with requirements and with a member inside `.deps`: installing begins by
      removing it, or a shipped installation marker passes for an installation. */
  lemma ShippedDepsMislead(v: Version, k: nat) returns (steps: seq<Step>)
    requires WellFormed(v) && MarkerComesLast(v) && !Stuck(v) && !DepsIsFile(v)
    requires !v.cached && NeedsDeps(v) && InDeps(v, k)
    ensures Feasible(v, steps) && !Truthful(v, After(v, steps))
  {
    var n: nat, fs: Files, l: nat;
    steps, fs, n := ReachChecking(v);
    l := LastCopy(v, k, |v.names|);
    var r := After(v, steps);
    RequirementsAreThere(v, r.fs);
    steps := Extend(v, steps, Check);
    if InstallMarker(v) !in r.fs {
      MayRemove(v, fs, r.fs, n, l);
      RemovalIsNoticed(v, After(v, steps), l);
      steps := Extend(v, steps, Remove(Target(v, l)));
      steps := Extend(v, steps, Die);
    }
  }

  lemma RemovalIsNoticed(v: Version, r: Runner, k: nat)
    requires WellFormed(v) && r.phase == Clearing && Due(v, k, |v.names|)
    requires Marker(v) in r.fs && Target(v, k) != Marker(v)
    ensures var killed := Apply(v, Apply(v, r, Remove(Target(v, k))), Die);
      Enabled(v, Apply(v, r, Remove(Target(v, k))), Die) && !Truthful(v, killed)
  {
    assert !HasMember(v, Apply(v, r, Remove(Target(v, k))).fs, k);
  }

  lemma MayRemove(v: Version, fs: Files, fs': Files, n: nat, k: nat)
    requires WellFormed(v) && !v.cached && InDeps(v, k) && FilesFrom(v, fs, n) && SameBut(fs, fs', Marker(v))
    requires Closed(v, fs') && HasMember(v, fs', k)
    ensures IsDir(fs', DepsDir(v)) && DepsDir(v) <= Target(v, k) && Target(v, k) != Marker(v)
    ensures forall q | q in fs' :: !(Target(v, k) < q)
  {
    assert PartsOf(v, k)[0] == DEPS && PartsOf(v, k)[..1] == [DEPS];
    AboveTarget(v, fs', k, 1);
    assert SourceDir(v) + [DEPS] == DepsDir(v);
    forall q | q in fs' ensures !(Target(v, k) < q) {
      if Target(v, k) < q {
        WantedIsLeaf(v, fs, fs', n, k, q);
      }
    }
    assert Marker(v)[0] == EXTRACTED;
  }

  /** The markers are safe exactly for archives that write nothing of the tree once a member has made the extraction
      marker exist, and that, without a cache directory and with requirements, ship nothing inside `.deps`. */
  lemma AlwaysTruthfulIff(v: Version)
    requires WellFormed(v)
    ensures AlwaysTruthful(v) <==> WellBehaved(v)
  {
    if WellBehaved(v) {
      forall steps | Feasible(v, steps) ensures Truthful(v, After(v, steps)) {
        MarkersTell(v, steps);
      }
    } else if !MarkerComesLast(v) {
      var i: nat, k: nat :| MakesMarker(v, i) && i <= k && Wanted(v, k) && !(SameCopy(v, i, k) && !Lands(v, k));
      var steps := ShippedMarkerMisleads(v, i, k);
    } else {
      var k: nat :| InDeps(v, k);
      var steps := ShippedDepsMislead(v, k);
    }
  }
}

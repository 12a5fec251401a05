/** The runner's code up to loading the handler, as one stretch of the protocol (sandbox/runner.py:43-98,169-224). */
module RunnerMain {
  import opened Base
  import opened RunnerCache
  import opened RunnerSteps

  /** What pip does: the files and directories it makes, in order, and whether it exits with 0. */
  datatype Put = Put(rel: Path, node: Node)

  datatype Pip = Pip(puts: seq<Put>, ok: bool)

  datatype Outcome = Loads | NoArtifact | ExtractionFails | InstallFails

  /** Something stands in the way of member i. */
  ghost predicate Blocked(v: Version, fs: Files, i: nat)
  {
    Listed(v, i)
    && ((exists m: nat :: m < |PartsOf(v, i)| && IsFile(fs, SourceDir(v) + PartsOf(v, i)[..m]))
    || (if Folder(v.names[i]) then IsFile(fs, Target(v, i)) else PartsOf(v, i) == [] || IsDir(fs, Target(v, i))))
  }

  predicate IsFile(fs: Files, p: Path)
  {
    p in fs && fs[p] != Dir
  }

  ghost predicate ExtractionBlocked(v: Version, fs: Files)
  {
    exists i: nat :: Blocked(v, fs, i)
  }

  /** A path at or below d that nothing lies below. */
  lemma {:induction false} SomeLeaf(fs: Files, d: Path, p: Path) returns (leaf: Path)
    requires p in fs && d <= p
    ensures leaf in fs && d <= leaf && forall q | q in fs :: !(leaf < q)
    decreases |set q | q in fs && p < q|
  {
    if q :| q in fs && p < q {
      Fewer2(fs, p, q);
      leaf := SomeLeaf(fs, d, q);
    } else {
      leaf := p;
    }
  }

  lemma Fewer2(fs: Files, p: Path, q: Path)
    requires q in fs && p < q
    ensures |set x | x in fs && q < x| < |set x | x in fs && p < x|
  {
    var a, b := set x | x in fs && q < x, set x | x in fs && p < x;
    assert q in b && q !in a && a <= b;
    assert a <= b - {q};
    SubsetIsNoLarger(a, b - {q});
  }

  class Sandbox {
    const version: Version
    var fs: Files
    ghost var resolved: Option<Wheels>
    ghost var steps: seq<Step>

    constructor (version: Version)
      ensures this.version == version && Follows(Idle)
    {
      this.version, resolved, steps := version, None, [];
      fs := map[SourceDir(version) := Dir];
    }

    /** What has happened is a run of the protocol. */
    ghost predicate Follows(phase: Phase)
      reads this
    {
      Feasible(version, steps) && After(version, steps) == Runner(fs, resolved, phase)
    }

    ghost method Took(step: Step, before: Runner)
      requires Feasible(version, steps) && After(version, steps) == before && Enabled(version, before, step)
      modifies this`steps
      ensures Feasible(version, steps) && After(version, steps) == Apply(version, before, step)
    {
      var more := steps + [step];
      assert more[..|steps|] == steps;
      steps := more;
    }

    method MakeDirectory(i: nat, n: nat)
      requires Follows(Extracting(i, false)) && Listed(version, i) && DirsUpTo(version, fs, i, n)
      requires n < |PartsOf(version, i)| && SourceDir(version) + PartsOf(version, i)[..n] !in fs
      modifies this`fs, this`steps
      ensures Follows(Extracting(i, false)) && DirsUpTo(version, fs, i, n + 1)
    {
      ghost var before := Runner(fs, resolved, Extracting(i, false));
      fs := fs[SourceDir(version) + PartsOf(version, i)[..n] := Dir];
      Took(MakeDir(n), before);
    }

    method OpenFile(i: nat)
      requires Follows(Extracting(i, false)) && Enabled(version, Runner(fs, resolved, Extracting(i, false)), Open)
      modifies this`fs, this`steps
      ensures Follows(Extracting(i, true)) && Listed(version, i)
    {
      ghost var before := Runner(fs, resolved, Extracting(i, false));
      fs := fs[Target(version, i) := Part];
      Took(Open, before);
    }

    method CompleteFile(i: nat)
      requires WellFormed(version) && Follows(Extracting(i, true)) && Listed(version, i)
      modifies this`fs, this`steps
      ensures Follows(Extracting(i + 1, false))
      ensures Target(version, i) in fs && fs[Target(version, i)] == Whole(version.bytes[version.names[i]])
    {
      ghost var before := Runner(fs, resolved, Extracting(i, true));
      var p, node := Target(version, i), Whole(version.bytes[version.names[i]]);
      fs := fs[p := node];
      Took(Complete, before);
    }

    method MakeEmptyFolder(i: nat)
      requires Follows(Extracting(i, false)) && Enabled(version, Runner(fs, resolved, Extracting(i, false)), MakeFolder)
      modifies this`fs, this`steps
      ensures Follows(Extracting(i + 1, false)) && IsDir(fs, Target(version, i))
    {
      ghost var before := Runner(fs, resolved, Extracting(i, false));
      fs := fs[Target(version, i) := Dir];
      Took(MakeFolder, before);
    }

    method SkipMember(i: nat)
      requires Follows(Extracting(i, false)) && i < |version.names| && !Listed(version, i)
      modifies this`steps
      ensures Follows(Extracting(i + 1, false))
    {
      Took(Skip, Runner(fs, resolved, Extracting(i, false)));
    }

    /** os.makedirs of the directory above member i. */
    method MakeParents(i: nat) returns (ok: bool)
      requires Follows(Extracting(i, false)) && Listed(version, i)
      modifies this`fs, this`steps
      ensures Follows(Extracting(i, false))
      ensures ok ==> DirsUpTo(version, fs, i, |PartsOf(version, i)|)
      ensures !ok ==> Blocked(version, fs, i)
    {
      var parts := PartsOf(version, i);
      for n := 0 to |parts|
        invariant Follows(Extracting(i, false)) && DirsUpTo(version, fs, i, n)
      {
        var p := SourceDir(version) + parts[..n];
        if p !in fs {
          MakeDirectory(i, n);
        } else if fs[p] != Dir {
          return false;
        }
      }
      return true;
    }

    /** ZipFile.extract of one member; false is an exception. */
    method ExtractMember(i: nat) returns (ok: bool)
      requires WellFormed(version) && Follows(Extracting(i, false)) && Listed(version, i)
      modifies this`fs, this`steps
      ensures ok ==> Follows(Extracting(i + 1, false))
      ensures ok && !Folder(version.names[i]) ==>
        Target(version, i) in fs && fs[Target(version, i)] == Whole(version.bytes[version.names[i]])
      ensures ok && Folder(version.names[i]) ==> IsDir(fs, Target(version, i))
      ensures !ok ==> Follows(Extracting(i, false)) && Blocked(version, fs, i)
    {
      ok := MakeParents(i);
      if !ok {
        return;
      }
      var p := Target(version, i);
      if Folder(version.names[i]) {
        if p in fs && fs[p] != Dir {
          return false;
        }
        MakeEmptyFolder(i);
      } else {
        if PartsOf(version, i) == [] || (p in fs && fs[p] == Dir) {
          return false;
        }
        OpenFile(i);
        CompleteFile(i);
      }
      return true;
    }

    method ExtractArchive() returns (ok: bool, ghost reached: nat)
      requires WellFormed(version) && Follows(Extracting(0, false))
      modifies this`fs, this`steps
      ensures Follows(Extracting(reached, false))
      ensures ok ==> reached == |version.names|
      ensures !ok ==> Blocked(version, fs, reached)
    {
      reached := 0;
      for i := 0 to |version.names|
        invariant Follows(Extracting(i, false)) && reached == i
      {
        var member := version.names[i];
        if Contains(member, "..") || (member != "" && member[0] == '/') {
          SkipMember(i);
        } else {
          ok := ExtractMember(i);
          if !ok {
            return;
          }
        }
        reached := i + 1;
      }
      return true, reached;
    }

    /** shutil.rmtree of the dependency directory, which is there and is one. */
    method RemoveDeps()
      requires Follows(Clearing) && (DepsDir(version) in fs ==> fs[DepsDir(version)] == Dir)
      modifies this`fs, this`steps
      ensures Follows(Clearing)
      ensures forall p ::
        (p in fs <==> p in old(fs) && !(DepsDir(version) <= p)) && (p in fs ==> fs[p] == old(fs)[p])
    {
      var d := DepsDir(version);
      var todo := set p | p in fs && d <= p;
      while todo != {}
        invariant Follows(Clearing) && (d in fs ==> fs[d] == Dir)
        invariant todo == set p | p in fs && d <= p
        invariant forall p | !(d <= p) :: (p in fs <==> p in old(fs)) && (p in fs ==> fs[p] == old(fs)[p])
        decreases todo
      {
        ghost var some :| some in todo;
        ghost var leaf := SomeLeaf(fs, d, some);
        assert leaf in todo;
        var p :| p in todo && forall q | q in fs :: !(p < q);
        RemoveLeaf(p);
        todo := todo - {p};
      }
      forall p | p in fs ensures !(d <= p) {
        assert p !in todo;
      }
    }

    method RemoveLeaf(p: Path)
      requires Follows(Clearing) && p in fs && DepsDir(version) <= p && forall q | q in fs :: !(p < q)
      requires DepsDir(version) in fs ==> fs[DepsDir(version)] == Dir
      modifies this`fs, this`steps
      ensures Follows(Clearing) && fs == old(fs) - {p}
    {
      RootedHolds(version, steps);
      ghost var before := Runner(fs, resolved, Clearing);
      assert p == DepsDir(version) || DepsDir(version) < p;
      fs := fs - {p};
      Took(Remove(p), before);
    }

    method PutOne(rel: Path, node: Node)
      requires Follows(Installing) && rel != [] && rel[0] != INSTALLED
      modifies this`fs, this`steps
      ensures Follows(Installing) && (Requirements(version) in fs <==> Requirements(version) in old(fs))
    {
      var d := DepsDir(version);
      var p, parent := d + rel, d + rel[..|rel| - 1];
      if parent in fs && fs[parent] == Dir && (node == Dir || !(p in fs && fs[p] == Dir)) {
        assert p[0] == d[0] && Requirements(version)[0] != d[0];
        ghost var before := Runner(fs, resolved, Installing);
        fs := fs[p := node];
        Took(PipWrites(rel, node), before);
      }
    }

    ghost method Report()
      requires Follows(Installing) && !IsDir(fs, Requirements(version))
      modifies this`steps, this`resolved
      ensures resolved.Some? && Follows(Installed(resolved.value))
    {
      var wheels := Reported(fs, DepsDir(version));
      var before := Runner(fs, resolved, Installing);
      resolved := Some(wheels);
      Took(PipSucceeds(wheels), before);
    }

    /** pip install: what it writes below the dependency directory, as far as it can. */
    method RunInstaller(pip: Pip) returns (ok: bool)
      requires Follows(Installing)
      modifies this`fs, this`steps, this`resolved
      ensures if ok then resolved.Some? && Follows(Installed(resolved.value)) else Follows(Installing)
      ensures ok <==> pip.ok && !IsDir(fs, Requirements(version))
      ensures Requirements(version) in fs <==> Requirements(version) in old(fs)
      ensures !ok ==> resolved == old(resolved)
    {
      for i := 0 to |pip.puts|
        invariant Follows(Installing) && resolved == old(resolved)
        invariant Requirements(version) in fs <==> Requirements(version) in old(fs)
      {
        var rel, node := pip.puts[i].rel, pip.puts[i].node;
        if rel != [] && rel[0] != INSTALLED {
          PutOne(rel, node);
        }
      }
      var requirements := Requirements(version);
      if !pip.ok || (requirements in fs && fs[requirements] == Dir) {
        return false;
      }
      Report();
      return true;
    }

    method MakeDepsDir()
      requires Follows(Clearing) && forall p | p in fs :: !(DepsDir(version) <= p)
      modifies this`fs, this`steps
      ensures Follows(Installing) && fs == old(fs)[DepsDir(version) := Dir]
    {
      ghost var before := Runner(fs, resolved, Clearing);
      fs := fs[DepsDir(version) := Dir];
      Took(RunPip, before);
    }

    method MarkInstallation()
      requires resolved.Some? && Follows(Installed(resolved.value))
      modifies this`fs, this`steps
      ensures InstallMarker(version) in fs
      ensures Follows(Ready) && (IsDir(fs, Requirements(version)) <==> IsDir(old(fs), Requirements(version)))
    {
      ghost var before := Runner(fs, resolved, Installed(resolved.value));
      MarkersDiffer(version);
      fs := fs[InstallMarker(version) := Stamp];
      Took(MarkInstalled, before);
    }

    /** The part that runs pip; false is an exception. */
    method Install(pip: Pip) returns (ok: bool)
      requires Follows(Clearing)
      modifies this`fs, this`steps, this`resolved
      ensures ok ==> Follows(Ready) && InstallMarker(version) in fs
      ensures !ok ==> Follows(Clearing) || Follows(Installing)
      ensures ok <==> pip.ok && !IsFile(old(fs), DepsDir(version)) && !IsDir(fs, Requirements(version))
      ensures IsFile(old(fs), DepsDir(version)) ==> fs == old(fs)
    {
      var d := DepsDir(version);
      if d in fs && fs[d] != Dir {
        return false;
      }
      RemoveDeps();
      MakeDepsDir();
      ok := RunInstaller(pip);
      if ok {
        MarkInstallation();
      }
    }

    /** False is the RuntimeError. */
    method InstallRequirementsIfNeeded(pip: Pip) returns (ok: bool)
      requires Follows(Checking)
      modifies this`fs, this`steps, this`resolved
      ensures ok ==> Follows(Ready) && (Requirements(version) !in fs || InstallMarker(version) in fs)
      ensures !ok ==> Follows(Clearing) || Follows(Installing)
      ensures Requirements(version) !in old(fs) || InstallMarker(version) in old(fs) ==>
        ok && fs == old(fs) && resolved == old(resolved)
      ensures Requirements(version) in old(fs) && InstallMarker(version) !in old(fs) ==>
        (ok <==> pip.ok && !IsFile(old(fs), DepsDir(version)) && !IsDir(fs, Requirements(version)))
      ensures !ok ==> !pip.ok || IsFile(fs, DepsDir(version)) || IsDir(fs, Requirements(version))
    {
      Took(Check, Runner(fs, resolved, Checking));
      if Requirements(version) !in fs {
        return true;
      }
      if InstallMarker(version) in fs {
        return true;
      }
      ok := Install(pip);
    }

    /** The end of a run, or an exception that ends it. */
    ghost method Stop(phase: Phase)
      requires Follows(phase) && phase != Idle
      modifies this`steps
      ensures Follows(Idle)
    {
      Took(Die, Runner(fs, resolved, phase));
    }

    /** Download, extract and mark; false is an exception. */
    method Extract() returns (ok: bool)
      requires WellFormed(version) && Follows(Idle) && Marker(version) !in fs
      modifies this`fs, this`steps
      ensures ok ==> Follows(Checking)
      ensures !ok ==> Follows(Idle) && (ExtractionBlocked(version, fs) || IsDir(fs, Marker(version)))
    {
      ZipHolds(version, steps);
      ghost var before := Runner(fs, resolved, Idle);
      fs := fs[Zip(version) := Stamp];
      Took(Download, before);
      ghost var reached;
      ok, reached := ExtractArchive();
      if ok && Marker(version) in fs && fs[Marker(version)] == Dir {
        ok := false;
      }
      if !ok {
        Stop(Extracting(reached, false));
        return;
      }
      before := Runner(fs, resolved, Extracting(reached, false));
      fs := fs[Marker(version) := Stamp];
      Took(MarkExtracted, before);
    }

    /** main without inline source, up to _load_handler; artifact says whether a path is given and the download
        works. */
    method Prepare(artifact: bool, pip: Pip) returns (r: Outcome)
      requires WellFormed(version) && Follows(Idle)
      modifies this`fs, this`steps, this`resolved
      ensures if r == Loads then Follows(Ready) else Follows(Idle)
      ensures r == Loads ==> Requirements(version) !in fs || InstallMarker(version) in fs
      ensures r == NoArtifact <==> Marker(version) !in old(fs) && !artifact
      ensures r == NoArtifact ==> fs == old(fs)
      ensures r == ExtractionFails ==>
        Marker(version) !in old(fs) && (ExtractionBlocked(version, fs) || IsDir(fs, Marker(version)))
      ensures r == InstallFails ==> !pip.ok || IsFile(fs, DepsDir(version)) || IsDir(fs, Requirements(version))
      ensures Marker(version) in old(fs) && (Requirements(version) !in old(fs) || InstallMarker(version) in old(fs)) ==>
        r == Loads && fs == old(fs)
      ensures WellBehaved(version) && r == Loads ==> Loadable(version, Runner(fs, resolved, Ready))
    {
      if Marker(version) !in fs {
        if !artifact {
          return NoArtifact;
        }
        var extracted := Extract();
        if !extracted {
          return ExtractionFails;
        }
      } else {
        Took(Start, Runner(fs, resolved, Idle));
      }
      var installed := InstallRequirementsIfNeeded(pip);
      if !installed {
        Stop(After(version, steps).phase);
        return InstallFails;
      }
      LoadsSafely(version, steps);
      return Loads;
    }
  }

  lemma LoadsSafely(v: Version, steps: seq<Step>)
    requires WellFormed(v) && Feasible(v, steps) && After(v, steps).phase == Ready
    ensures WellBehaved(v) ==> Loadable(v, After(v, steps))
  {
    if WellBehaved(v) {
      MarkersTell(v, steps);
    }
  }

  /** The files pip left below the dependency directory. */
  ghost function Reported(fs: Files, d: Path): (wheels: Wheels)
    ensures forall rel | rel in wheels :: d + rel in fs && fs[d + rel] == Whole(wheels[rel])
  {
    map rel | rel in (set p | p in fs && d <= p :: p[|d|..]) && d + rel in fs && fs[d + rel].Whole? :: fs[d + rel].bytes
  }
}

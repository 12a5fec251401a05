/** Member names and the paths they are written to (sandbox/runner.py:43-49,169-184). */
module RunnerPaths {
  import opened Base
  import opened RunnerCache

  // ---------- which members are extracted ----------

  lemma ExtractableIff(name: string)
    ensures Extractable(name) <==> (forall a, b :: name != a + ".." + b) && !("/" <= name)
  {
    ContainsIff(name, "..");
    if name != "" && name[0] == '/' {
      assert name[..1] == "/";
    }
  }

  // ---------- from a name to its path ----------

  lemma {:induction false} PieceEnds(a: string, rest: string)
    requires '/' !in a && (rest == "" || rest[0] == '/')
    ensures PieceLen(a + rest) == |a|
    decreases |a|
  {
    if a == "" {
      assert a + rest == rest;
    } else {
      assert (a + rest)[1..] == a[1..] + rest;
      PieceEnds(a[1..], rest);
    }
  }

  /** A name without a slash is one part, unless it is empty or a dot. */
  lemma PartsOfPiece(name: string)
    requires '/' !in name
    ensures Parts(name) == if name == "" || name == "." then [] else [name]
  {
    PieceEnds(name, "");
    assert name + "" == name && name[..|name|] == name;
  }

  /** A name without a slash, then one, then the rest. */
  lemma PartsOfFirst(a: string, b: string)
    requires '/' !in a
    ensures Parts(a + "/" + b) == Parts(a) + Parts(b)
  {
    PieceEnds(a, "/" + b);
    PartsOfPiece(a);
    var name := a + "/" + b;
    assert name == a + ("/" + b) && name[..|a|] == a && name[|a| + 1..] == b;
  }

  lemma PieceIsPlain(name: string)
    ensures '/' !in name[..PieceLen(name)]
    ensures PieceLen(name) < |name| ==> name[PieceLen(name)] == '/'
    decreases |name|
  {
    if name != "" && name[0] != '/' {
      PieceIsPlain(name[1..]);
      assert name[..PieceLen(name)] == [name[0]] + name[1..][..PieceLen(name) - 1];
    }
  }

  /** The cut at the first slash. */
  lemma FirstCut(name: string) returns (first: string, rest: string)
    requires '/' in name
    ensures '/' !in first && name == first + "/" + rest && Parts(name) == Parts(first) + Parts(rest)
  {
    var n := PieceLen(name);
    PieceIsPlain(name);
    assert name[..n] + name[n..] == name;
    first, rest := name[..n], name[n + 1..];
    assert name == first + "/" + rest;
    PartsOfFirst(first, rest);
  }

  lemma Regroup<T>(a: seq<T>, b: seq<T>, c: seq<T>, d: seq<T>, e: seq<T>)
    ensures (a + b + c) + d + e == a + b + (c + d + e)
  {
  }

  lemma Associates<T>(x: seq<T>, a: seq<T>, b: seq<T>, c: seq<T>, d: seq<T>)
    requires x == a + d && d == b + c
    ensures x == (a + b) + c
  {
  }

  /** At a slash a path is put together from the paths on both sides: with PartsOfPiece, this determines every path. */
  lemma {:induction false} PartsOfJoin(a: string, b: string)
    ensures Parts(a + "/" + b) == Parts(a) + Parts(b)
    decreases |a|
  {
    if '/' in a {
      var first, rest := FirstCut(a);
      var tail := rest + "/" + b;
      PartsOfJoin(rest, b);
      PartsOfFirst(first, tail);
      Regroup(first, "/", rest, "/", b);
      assert a + "/" + b == first + "/" + tail;
      Associates(Parts(first + "/" + tail), Parts(first), Parts(rest), Parts(b), Parts(tail));
    } else {
      PartsOfFirst(a, b);
    }
  }

  /** Every part is a piece of the name, and a name of its own: not empty, not a dot, without a slash. */
  lemma {:induction false} PartIsPiece(name: string, p: string) returns (a: string, b: string)
    requires p in Parts(name)
    ensures p != "" && p != "." && '/' !in p && name == a + p + b
    decreases |name|
  {
    if '/' in name {
      var first, rest := FirstCut(name);
      if p in Parts(first) {
        PartsOfPiece(first);
        a, b := "", "/" + rest;
        assert name == "" + p + b;
      } else {
        a, b := PartIsPiece(rest, p);
        Wrapped(first + "/", a, p, b);
        a := first + "/" + a;
      }
    } else {
      PartsOfPiece(name);
      a, b := "", "";
    }
  }

  lemma Wrapped<T>(x: seq<T>, a: seq<T>, p: seq<T>, b: seq<T>)
    ensures x + (a + p + b) == (x + a) + p + b
  {
  }

  /** Nothing is written outside the source directory: no part of an extracted member's path is a step up. */
  lemma NothingOutside(v: Version, i: nat)
    requires Listed(v, i)
    ensures SourceDir(v) <= Target(v, i)
    ensures forall p | p in Target(v, i)[|SourceDir(v)|..] :: p !in {"", ".", ".."} && '/' !in p
  {
    assert Target(v, i)[|SourceDir(v)|..] == Parts(v.names[i]);
    forall p | p in Parts(v.names[i]) ensures p !in {"", ".", ".."} && '/' !in p {
      var a, b := PartIsPiece(v.names[i], p);
      ExtractableIff(v.names[i]);
    }
  }

  /** The runner's own paths, with and without a cache directory. */
  lemma OwnPaths(v: Version)
    ensures v.cached ==>
      Zip(v) == ["src", "source.zip"] && Marker(v) == ["src", ".sopm-extracted"]
      && Requirements(v) == ["src", "requirements.txt"] && InstallMarker(v) == ["deps", ".sopm-installed"]
    ensures !v.cached ==>
      Zip(v) == ["source.zip"] && Marker(v) == [".sopm-extracted"]
      && Requirements(v) == ["requirements.txt"] && InstallMarker(v) == [".deps", ".sopm-installed"]
  {
  }

  // ---------- a clean installation ----------

  /** The step before: pip at work as well, and p there unless it was just written. */
  lemma LastOfPip(v: Version, before: seq<Step>, step: Step, p: Path)
    requires Enabled(v, After(v, before), step) && p in Apply(v, After(v, before), step).fs && DepsDir(v) < p
    requires Apply(v, After(v, before), step).phase.Installing? || Apply(v, After(v, before), step).phase.Installed?
    ensures step.PipWrites? || step.PipSucceeds?
    ensures After(v, before).phase.Installing?
    ensures step.PipWrites? && p == DepsDir(v) + step.rel ==> Apply(v, After(v, before), step).fs[p] == step.node
    ensures !(step.PipWrites? && p == DepsDir(v) + step.rel) ==>
      p in After(v, before).fs && After(v, before).fs[p] == Apply(v, After(v, before), step).fs[p]
  {
  }

  /** What pip finds and leaves below the dependency directory is of its own making: nothing of an earlier, interrupted
      installation or of the archive is left there. */
  lemma {:induction false} OnlyThisPips(v: Version, steps: seq<Step>, p: Path) returns (k: nat)
    requires Feasible(v, steps) && p in After(v, steps).fs && DepsDir(v) < p
    requires After(v, steps).phase.Installing? || After(v, steps).phase.Installed?
    ensures k < |steps| && steps[k].PipWrites? && p == DepsDir(v) + steps[k].rel
    ensures After(v, steps).fs[p] == steps[k].node
    ensures forall j | k < j < |steps| :: steps[j].PipWrites? || steps[j].PipSucceeds?
    decreases |steps|
  {
    var n := |steps| - 1;
    var before := steps[..n];
    LastOfPip(v, before, steps[n], p);
    if steps[n].PipWrites? && p == DepsDir(v) + steps[n].rel {
      k := n;
    } else {
      k := OnlyThisPips(v, before, p);
      assert before[k] == steps[k];
      forall j | k < j < |steps| ensures steps[j].PipWrites? || steps[j].PipSucceeds? {
        assert j < n ==> steps[j] == before[j];
      }
    }
  }
}

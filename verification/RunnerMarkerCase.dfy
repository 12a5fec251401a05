/** A marker that exists as a directory: a concrete archive, and what becomes of it. */
module RunnerMarkerCase {
  import opened Base
  import opened RunnerCache
  import opened RunnerPaths
  import opened RunnerSteps
  import opened RunnerCacheCases

  // ---------- paths of concrete names ----------

  lemma TwoParts(a: string, b: string)
    requires '/' !in a && '/' !in b && a !in {"", "."} && b !in {"", "."}
    ensures Parts(a + ("/" + b)) == [a, b]
  {
    PartsOfPiece(a);
    PartsOfPiece(b);
    PartsOfFirst(a, b);
    assert a + ("/" + b) == a + "/" + b;
  }

  lemma NoDots(name: string)
    requires name != "" && name[0] != '/'
    requires forall i | 0 <= i < |name| - 1 :: !(name[i] == '.' && name[i + 1] == '.')
    ensures Extractable(name)
  {
    forall i: nat | i <= |name| ensures !OccursAt(name, "..", i) {
      if i + 2 <= |name| {
        var piece := name[i..i + 2];
        assert piece[0] == name[i] && piece[1] == name[i + 1];
      }
    }
  }

  // ---------- the archive ----------

  /** Three files, the first inside a directory with the marker's name. */
  const NESTED := Version(
    [EXTRACTED + ("/" + "a.txt"), "handler.py", "helper.py"],
    map[EXTRACTED + ("/" + "a.txt") := 0, "handler.py" := 1, "helper.py" := 2],
    true)

  ghost predicate IsFile(v: Version, i: nat, parts: Path)
  {
    i < |v.names| && NamesFile(v.names[i], parts)
  }

  predicate NamesFile(name: string, parts: Path)
  {
    Extractable(name) && !Folder(name) && Parts(name) == parts
  }

  lemma FirstName(name: string)
    requires name == EXTRACTED + ("/" + "a.txt")
    ensures NamesFile(name, [EXTRACTED, "a.txt"])
  {
    TwoParts(EXTRACTED, "a.txt");
    var tail := "/" + "a.txt";
    forall i | 0 <= i < |name| - 1 ensures !(name[i] == '.' && name[i + 1] == '.') {
      assert i < |EXTRACTED| ==> name[i] == EXTRACTED[i];
      assert i >= |EXTRACTED| ==> name[i] == tail[i - |EXTRACTED|];
      assert i + 1 >= |EXTRACTED| ==> name[i + 1] == tail[i + 1 - |EXTRACTED|];
    }
    NoDots(name);
  }

  lemma HandlerName(name: string)
    requires name == "handler.py"
    ensures NamesFile(name, [name])
  {
    PartsOfPiece(name);
    NoDots(name);
  }

  lemma HelperName(name: string)
    requires name == "helper.py"
    ensures NamesFile(name, [name])
  {
    PartsOfPiece(name);
    NoDots(name);
  }

  /** A directory of the marker's name, a handler, a helper. */
  ghost predicate LikeNested(v: Version)
  {
    |v.names| == 3 && IsFile(v, 0, [EXTRACTED, "a.txt"]) && IsFile(v, 1, ["handler.py"]) && IsFile(v, 2, ["helper.py"])
    && forall i: nat | i < 3 :: v.names[i] in v.bytes
  }

  /** The three paths differ in their first part. */
  lemma FirstParts(v: Version, i: nat)
    requires LikeNested(v) && Listed(v, i)
    ensures PartsOf(v, i) != [] && PartsOf(v, i)[0] != SOURCE_ZIP && PartsOf(v, i)[0] != REQUIREMENTS
    ensures forall j: nat | Listed(v, j) && j != i :: PartsOf(v, j) != [] && PartsOf(v, j)[0] != PartsOf(v, i)[0]
  {
    assert i == 0 || i == 1 || i == 2;
  }

  lemma NestedIsPlain(v: Version)
    requires LikeNested(v)
    ensures WellFormed(v) && forall i: nat :: !Conflict(v, i)
  {
    forall i: nat | Listed(v, i) ensures !Conflict(v, i) {
      FirstParts(v, i);
    }
  }

  lemma NestedMakesMarker(v: Version)
    requires LikeNested(v) && forall i: nat :: !Conflict(v, i)
    ensures !NeedsDeps(v) && MakesMarker(v, 0) && Wanted(v, 0) && Wanted(v, 1) && Wanted(v, 2)
  {
    assert PartsOf(v, 0)[..1] == [EXTRACTED];
    forall i: nat | Listed(v, i) ensures !([REQUIREMENTS] <= PartsOf(v, i)) {
      FirstParts(v, i);
    }
  }

  /** The directory, the handler, no helper and no requirements. */
  lemma TwoOfThree(v: Version, r: Runner)
    requires LikeNested(v) && WellFormed(v) && Extracted(v, r, 2)
    ensures Marker(v) in r.fs && Requirements(v) !in r.fs && HasMember(v, r.fs, 1) && !HasMember(v, r.fs, 2)
  {
    NestedIsPlain(v);
    NestedMakesMarker(v);
    MarkerStands(v, r.fs, 0, 2);
    FirstParts(v, 1);
    assert Due(v, 1, 2);
    FirstParts(v, 2);
    LaterMemberIsMissing(v, r.fs, 2, 2);
    if Requirements(v) in r.fs {
      OnlyOwnRequirements(v, r.fs, 2);
      assert false;
    }
  }

  /** Killed after the handler is written, the runner finds the marker's directory, skips extraction, and loads the
      handler without its helper. */
  lemma LoadsWithoutHelper(v: Version) returns (steps: seq<Step>)
    requires LikeNested(v) && WellFormed(v)
    ensures Feasible(v, steps) && After(v, steps).phase == Ready
    ensures HasMember(v, After(v, steps).fs, 1) && !HasMember(v, After(v, steps).fs, 2)
  {
    NestedIsPlain(v);
    steps := ExtractTo(v, 2);
    TwoOfThree(v, After(v, steps));
    steps := Extend(v, steps, Die);
    steps := Extend(v, steps, Start);
    steps := Extend(v, steps, Check);
  }

  /** The archive is judged unsafe, and rightly. */
  lemma NestedMarkerMisleads() returns (steps: seq<Step>)
    ensures WellFormed(NESTED) && !WellBehaved(NESTED) && !AlwaysTruthful(NESTED)
    ensures Feasible(NESTED, steps) && After(NESTED, steps).phase == Ready
    ensures HasMember(NESTED, After(NESTED, steps).fs, 1) && !HasMember(NESTED, After(NESTED, steps).fs, 2)
  {
    FirstName(NESTED.names[0]);
    HandlerName(NESTED.names[1]);
    HelperName(NESTED.names[2]);
    NestedIsPlain(NESTED);
    NestedMakesMarker(NESTED);
    AlwaysTruthfulIff(NESTED);
    steps := LoadsWithoutHelper(NESTED);
  }
}

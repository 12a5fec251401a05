/**
 The runner's source tree, dependencies and marker files (sandbox/runner.py:43-98,142-221), over any number of runs
 of one version, one after the other, each of which may be killed between any two writes.
 */
module RunnerCache {
  import opened Base

  /** A path below the mounted directory, as its parts. */
  type Path = seq<string>

  /** A directory; a file half-written or fully written; or a file with a time stamp. */
  datatype Node = Dir | Part | Whole(bytes: nat) | Stamp

  type Files = map<Path, Node>

  /** What an installation leaves below the dependency directory. */
  type Wheels = map<Path, nat>

  /** The version's archive: member names in order and their contents. Without a cache directory the dependency
      directory is `.deps` inside the source directory. */
  datatype Version = Version(names: seq<string>, bytes: map<string, nat>, cached: bool)

  const EXTRACTED := ".sopm-extracted"
  const INSTALLED := ".sopm-installed"
  const REQUIREMENTS := "requirements.txt"
  const SOURCE_ZIP := "source.zip"
  const DEPS := ".deps"

  // ---------- members and their paths ----------

  predicate Extractable(name: string)
  {
    !Contains(name, "..") && !(name != "" && name[0] == '/')
  }

  /** An entry for a directory. */
  predicate Folder(name: string)
  {
    name != "" && name[|name| - 1] == '/'
  }

  function PieceLen(name: string): (n: nat)
    ensures n <= |name|
  {
    if name == "" || name[0] == '/' then 0 else 1 + PieceLen(name[1..])
  }

  /** The path ZipFile.extract writes to: empty pieces and single dots are dropped. */
  function Parts(name: string): Path
    decreases |name|
  {
    if name == "" then []
    else
      var n := PieceLen(name);
      var rest := if n == |name| then [] else Parts(name[n + 1..]);
      if name[..n] == "" || name[..n] == "." then rest else [name[..n]] + rest
  }

  function SourceDir(v: Version): Path
  {
    if v.cached then ["src"] else []
  }

  function DepsDir(v: Version): Path
  {
    if v.cached then ["deps"] else [DEPS]
  }

  predicate Listed(v: Version, i: nat)
  {
    i < |v.names| && Extractable(v.names[i])
  }

  function PartsOf(v: Version, i: nat): Path
    requires i < |v.names|
  {
    Parts(v.names[i])
  }

  function Target(v: Version, i: nat): Path
    requires i < |v.names|
  {
    SourceDir(v) + PartsOf(v, i)
  }

  function Marker(v: Version): Path
  {
    SourceDir(v) + [EXTRACTED]
  }

  function InstallMarker(v: Version): Path
  {
    DepsDir(v) + [INSTALLED]
  }

  function Requirements(v: Version): Path
  {
    SourceDir(v) + [REQUIREMENTS]
  }

  /** Where the archive is downloaded to. */
  function Zip(v: Version): Path
  {
    SourceDir(v) + [SOURCE_ZIP]
  }

  /** Every member has its content. */
  ghost predicate WellFormed(v: Version)
  {
    forall i: nat | i < |v.names| :: v.names[i] in v.bytes
  }

  /** Two members of which one is a file where the other needs a directory. */
  predicate Clash(v: Version, i: nat, j: nat)
    requires i < |v.names| && j < |v.names|
  {
    (!Folder(v.names[i]) && PartsOf(v, i) < PartsOf(v, j)) || (!Folder(v.names[j]) && PartsOf(v, j) < PartsOf(v, i))
    || (PartsOf(v, i) == PartsOf(v, j) && Folder(v.names[i]) != Folder(v.names[j]))
  }

  /** It needs a directory where the downloaded archive is. */
  predicate ClashesWithZip(v: Version, i: nat)
    requires i < |v.names|
  {
    [SOURCE_ZIP] < PartsOf(v, i) || (PartsOf(v, i) == [SOURCE_ZIP] && Folder(v.names[i]))
  }

  /** Extracting member i raises, because of a member before it or the archive itself, or because its path is empty. */
  ghost predicate Conflict(v: Version, i: nat)
  {
    Listed(v, i)
    && ((PartsOf(v, i) == [] && !Folder(v.names[i])) || ClashesWithZip(v, i)
        || exists j: nat :: j < i && Listed(v, j) && Clash(v, j, i))
  }

  /** Extraction gets past member i. */
  ghost predicate Lands(v: Version, i: nat)
  {
    i < |v.names| && forall j: nat | j <= i :: !Conflict(v, j)
  }

  // ---------- complete trees ----------

  ghost predicate Bare(v: Version, k: nat)
    requires k < |v.names|
  {
    forall l: nat | Listed(v, l) :: !(PartsOf(v, k) < PartsOf(v, l))
  }

  /** The directory's first entry. */
  ghost predicate First(v: Version, k: nat)
    requires k < |v.names|
  {
    forall l: nat | l < k && Listed(v, l) && Folder(v.names[l]) :: PartsOf(v, l) != PartsOf(v, k)
  }

  /** Members that make up the tree: files, and directories nothing else lies in; but not the extraction marker, and not
      the dependency directory itself. */
  ghost predicate Wanted(v: Version, k: nat)
  {
    Listed(v, k) && PartsOf(v, k) != [] && PartsOf(v, k) != [EXTRACTED]
    && (Folder(v.names[k]) ==> Bare(v, k) && First(v, k) && (v.cached || PartsOf(v, k) != [DEPS]))
  }

  /** Another of the first n members is a later copy of the same file. */
  ghost predicate Replaced(v: Version, k: nat, n: nat)
    requires k < |v.names|
  {
    exists l: nat :: k < l < n && Listed(v, l) && !Folder(v.names[l]) && PartsOf(v, l) == PartsOf(v, k)
  }

  /** What is to be there once the first n members are extracted: of several copies of a file, the last. */
  ghost predicate Due(v: Version, k: nat, n: nat)
  {
    Wanted(v, k) && (Folder(v.names[k]) || !Replaced(v, k, n))
  }

  ghost predicate HasMember(v: Version, fs: Files, k: nat)
    requires WellFormed(v) && k < |v.names|
  {
    Target(v, k) in fs && fs[Target(v, k)] == if Folder(v.names[k]) then Dir else Whole(v.bytes[v.names[k]])
  }

  /** Of the first n members, what is due after the first m. */
  ghost predicate TreeUpTo(v: Version, fs: Files, n: nat, m: nat)
    requires WellFormed(v)
  {
    forall k: nat | k < n && Due(v, k, m) :: HasMember(v, fs, k)
  }

  ghost predicate TreeComplete(v: Version, fs: Files)
    requires WellFormed(v)
  {
    TreeUpTo(v, fs, |v.names|, |v.names|)
  }

  /** The archive makes `requirements.txt` exist. */
  ghost predicate NeedsDeps(v: Version)
  {
    exists i: nat :: Lands(v, i) && Listed(v, i) && [REQUIREMENTS] <= PartsOf(v, i)
  }

  ghost predicate DepsHold(v: Version, fs: Files, wheels: Wheels)
  {
    forall rel | rel in wheels :: DepsDir(v) + rel in fs && fs[DepsDir(v) + rel] == Whole(wheels[rel])
  }

  predicate IsDir(fs: Files, p: Path)
  {
    p in fs && fs[p] == Dir
  }

  // ---------- the steps of a run ----------

  datatype Phase =
    | Idle
    | Extracting(i: nat, half: bool)
    | Checking
    | Clearing
    | Installing
    | Installed(wheels: Wheels)
    | Ready

  /** resolved is what the last successful installation reported to be in the dependency directory. */
  datatype Runner = Runner(fs: Files, resolved: Option<Wheels>, phase: Phase)

  function Fresh(v: Version): Runner
  {
    Runner(map[SourceDir(v) := Dir], None, Idle)
  }

  /**
   Start finds the marker, Download does not, and puts the archive into the source directory. MakeDir makes the first
   missing directory above the member, of n parts.
   Die is the process killed, or an exception ending the run.
   */
  datatype Step =
    | Start
    | Download
    | Skip
    | MakeDir(n: nat)
    | MakeFolder
    | Open
    | Complete
    | MarkExtracted
    | Check
    | Remove(p: Path)
    | RunPip
    | PipWrites(rel: Path, node: Node)
    | PipSucceeds(wheels: Wheels)
    | MarkInstalled
    | Load
    | Die

  predicate AtMember(v: Version, r: Runner, half: bool)
  {
    r.phase.Extracting? && r.phase.half == half && Listed(v, r.phase.i)
  }

  /** The directories above member i that have fewer than n parts are there. */
  predicate DirsUpTo(v: Version, fs: Files, i: nat, n: nat)
    requires i < |v.names|
  {
    n <= |PartsOf(v, i)| && forall m: nat | m < n :: IsDir(fs, SourceDir(v) + PartsOf(v, i)[..m])
  }

  ghost predicate Enabled(v: Version, r: Runner, step: Step)
  {
    match step
    case Start => r.phase == Idle && Marker(v) in r.fs
    case Download => r.phase == Idle && Marker(v) !in r.fs && !IsDir(r.fs, Zip(v))
    case Skip => r.phase.Extracting? && !r.phase.half && r.phase.i < |v.names| && !Extractable(v.names[r.phase.i])
    case MakeDir(n) =>
      AtMember(v, r, false) && n < |PartsOf(v, r.phase.i)| && DirsUpTo(v, r.fs, r.phase.i, n)
      && SourceDir(v) + PartsOf(v, r.phase.i)[..n] !in r.fs
    case MakeFolder =>
      AtMember(v, r, false) && Folder(v.names[r.phase.i])
      && DirsUpTo(v, r.fs, r.phase.i, |PartsOf(v, r.phase.i)|)
      && (Target(v, r.phase.i) in r.fs ==> IsDir(r.fs, Target(v, r.phase.i)))
    case Open =>
      AtMember(v, r, false) && !Folder(v.names[r.phase.i]) && PartsOf(v, r.phase.i) != []
      && DirsUpTo(v, r.fs, r.phase.i, |PartsOf(v, r.phase.i)|)
      && !IsDir(r.fs, Target(v, r.phase.i))
    case Complete => AtMember(v, r, true) && v.names[r.phase.i] in v.bytes
    case MarkExtracted => r.phase == Extracting(|v.names|, false) && !IsDir(r.fs, Marker(v))
    case Check => r.phase == Checking
    case Remove(p) =>
      r.phase == Clearing && IsDir(r.fs, DepsDir(v)) && p in r.fs && DepsDir(v) <= p
      && forall q | q in r.fs :: !(p < q)
    case RunPip => r.phase == Clearing && forall p | p in r.fs :: !(DepsDir(v) <= p)
    case PipWrites(rel, node) =>
      r.phase.Installing? && rel != [] && rel[0] != INSTALLED && IsDir(r.fs, DepsDir(v) + rel[..|rel| - 1])
      && (IsDir(r.fs, DepsDir(v) + rel) ==> node == Dir)
    case PipSucceeds(wheels) =>
      r.phase.Installing? && DepsHold(v, r.fs, wheels) && !IsDir(r.fs, Requirements(v))
    case MarkInstalled => r.phase.Installed?
    case Load => r.phase == Ready
    case Die => r.phase != Idle
  }

  function Apply(v: Version, r: Runner, step: Step): Runner
  {
    match step
    case Start => r.(phase := Checking)
    case Download => r.(fs := r.fs[Zip(v) := Stamp], phase := Extracting(0, false))
    case Skip => if r.phase.Extracting? then r.(phase := Extracting(r.phase.i + 1, false)) else r
    case MakeDir(n) =>
      if AtMember(v, r, false) && n < |PartsOf(v, r.phase.i)|
      then r.(fs := r.fs[SourceDir(v) + PartsOf(v, r.phase.i)[..n] := Dir]) else r
    case MakeFolder =>
      if AtMember(v, r, false)
      then r.(fs := r.fs[Target(v, r.phase.i) := Dir], phase := Extracting(r.phase.i + 1, false)) else r
    case Open =>
      if AtMember(v, r, false)
      then r.(fs := r.fs[Target(v, r.phase.i) := Part], phase := Extracting(r.phase.i, true)) else r
    case Complete =>
      if AtMember(v, r, true) && v.names[r.phase.i] in v.bytes
      then
        r.(fs := r.fs[Target(v, r.phase.i) := Whole(v.bytes[v.names[r.phase.i]])],
        phase := Extracting(r.phase.i + 1, false))
      else r
    case MarkExtracted => r.(fs := r.fs[Marker(v) := Stamp], phase := Checking)
    case Check =>
      if Requirements(v) !in r.fs || InstallMarker(v) in r.fs then r.(phase := Ready) else r.(phase := Clearing)
    case Remove(p) => r.(fs := r.fs - {p})
    case RunPip => r.(fs := r.fs[DepsDir(v) := Dir], phase := Installing)
    case PipWrites(rel, node) => r.(fs := r.fs[DepsDir(v) + rel := node])
    case PipSucceeds(wheels) => r.(resolved := Some(wheels), phase := Installed(wheels))
    case MarkInstalled => r.(fs := r.fs[InstallMarker(v) := Stamp], phase := Ready)
    case Load => r.(phase := Idle)
    case Die => r.(phase := Idle)
  }

  function After(v: Version, steps: seq<Step>): Runner
  {
    if steps == [] then Fresh(v) else Apply(v, After(v, steps[..|steps| - 1]), steps[|steps| - 1])
  }

  ghost predicate Feasible(v: Version, steps: seq<Step>)
  {
    if steps == [] then true
    else
      var before := steps[..|steps| - 1];
      Feasible(v, before) && Enabled(v, After(v, before), steps[|steps| - 1])
  }

  // ---------- the promise ----------

  ghost predicate DepsComplete(v: Version, r: Runner)
  {
    NeedsDeps(v) ==> r.resolved.Some? && DepsHold(v, r.fs, r.resolved.value)
  }

  /** What loading the handler relies on. */
  ghost predicate Loadable(v: Version, r: Runner)
    requires WellFormed(v)
  {
    TreeComplete(v, r.fs) && DepsComplete(v, r)
  }

  /** Between runs the extraction marker means a complete tree, and then the installation marker complete
      dependencies; and a handler is loaded only when both are complete. */
  ghost predicate Truthful(v: Version, r: Runner)
    requires WellFormed(v)
  {
    (r.phase == Idle && Marker(v) in r.fs ==>
      TreeComplete(v, r.fs) && (InstallMarker(v) in r.fs ==> DepsComplete(v, r)))
    && (r.phase == Ready ==> Loadable(v, r))
  }

  // ---------- which archives are safe ----------

  /** Extracting member i makes the extraction marker exist: as a file, or as a directory with something in it. */
  ghost predicate MakesMarker(v: Version, i: nat)
  {
    Lands(v, i) && Listed(v, i) && [EXTRACTED] <= PartsOf(v, i)
  }

  /** Of the copies of file k, j is the last before member i, l the last of all, and they have the same content. */
  ghost predicate CopyPair(v: Version, i: nat, k: nat, j: nat, l: nat)
    requires WellFormed(v) && k < |v.names|
  {
    j < i && Due(v, j, i) && Due(v, l, |v.names|) && !Folder(v.names[j]) && !Folder(v.names[l])
    && PartsOf(v, j) == PartsOf(v, k) == PartsOf(v, l) && v.bytes[v.names[j]] == v.bytes[v.names[l]]
  }

  ghost predicate SameCopy(v: Version, i: nat, k: nat)
    requires WellFormed(v) && k < |v.names|
  {
    !Folder(v.names[k]) && exists j: nat, l: nat :: CopyPair(v, i, k, j, l)
  }

  /** When a member makes the marker exist, nothing of the tree is still to be written: at most copies, of files there
      with the right content, that extraction raises before. */
  ghost predicate MarkerComesLast(v: Version)
    requires WellFormed(v)
  {
    forall i: nat, k: nat | MakesMarker(v, i) && i <= k && Wanted(v, k) :: SameCopy(v, i, k) && !Lands(v, k)
  }

  /** Extraction raises every time, and nothing makes the marker exist before. */
  ghost predicate Stuck(v: Version)
  {
    (exists i: nat :: Conflict(v, i)) && forall i: nat :: !MakesMarker(v, i)
  }

  ghost predicate InDeps(v: Version, k: nat)
  {
    Wanted(v, k) && [DEPS] < PartsOf(v, k)
  }

  ghost predicate DepsIsFile(v: Version)
  {
    exists k: nat :: Wanted(v, k) && PartsOf(v, k) == [DEPS] && !Folder(v.names[k])
  }

  /** An archive with requirements ships nothing inside the dependency directory, unless nothing can come of it. */
  ghost predicate KeepsOutOfDeps(v: Version)
  {
    v.cached || !NeedsDeps(v) || Stuck(v) || DepsIsFile(v) || forall k: nat :: !InDeps(v, k)
  }

  ghost predicate WellBehaved(v: Version)
    requires WellFormed(v)
  {
    MarkerComesLast(v) && KeepsOutOfDeps(v)
  }

  // ---------- what every step keeps ----------

  /** Below the source directory, what lies in something lies in a directory. */
  ghost predicate Closed(v: Version, fs: Files)
  {
    IsDir(fs, SourceDir(v))
    && forall p, m: nat {:trigger p[..m]} | p in fs && SourceDir(v) <= p && |SourceDir(v)| <= m < |p| ::
         IsDir(fs, p[..m])
  }

  /** The members before the n-th are there, each as what it is. */
  ghost predicate MembersMade(v: Version, fs: Files, n: nat)
  {
    forall j: nat | j < n && Listed(v, j) :: !Conflict(v, j) && Target(v, j) in fs
      && (IsDir(fs, Target(v, j)) <==> Folder(v.names[j]))
  }

  /** So is the archive. */
  ghost predicate MadeUpTo(v: Version, fs: Files, n: nat)
  {
    MembersMade(v, fs, n) && Zip(v) in fs && !IsDir(fs, Zip(v))
  }

  ghost predicate InstallTells(v: Version, r: Runner)
  {
    InstallMarker(v) in r.fs ==>
      (r.resolved.Some? && DepsHold(v, r.fs, r.resolved.value)) || (!v.cached && exists k: nat :: InDeps(v, k))
  }

  /** Extraction gets to nothing of the tree from member i on. */
  ghost predicate NothingToCome(v: Version, i: nat)
  {
    forall k: nat | i <= k && Wanted(v, k) :: !Lands(v, k)
  }

  ghost predicate PhaseTells(v: Version, r: Runner)
    requires WellFormed(v)
  {
    match r.phase
    case Idle => true
    case Extracting(i, half) =>
      i <= |v.names| && (half ==> Listed(v, i) && !Folder(v.names[i]) && PartsOf(v, i) != [])
      && r.resolved == None && MadeUpTo(v, r.fs, if half then i + 1 else i)
      && TreeUpTo(v, r.fs, i, if half then i + 1 else i)
      && (Marker(v) in r.fs ==> NothingToCome(v, i))
    case Checking => Marker(v) in r.fs
    case Ready => Marker(v) in r.fs && DepsComplete(v, r)
    case Installed(wheels) =>
      Marker(v) in r.fs && Requirements(v) in r.fs && InstallMarker(v) !in r.fs
      && IsDir(r.fs, DepsDir(v)) && DepsHold(v, r.fs, wheels) && r.resolved == Some(wheels)
    case Clearing => Marker(v) in r.fs && Requirements(v) in r.fs && InstallMarker(v) !in r.fs
    case Installing =>
      Marker(v) in r.fs && Requirements(v) in r.fs && InstallMarker(v) !in r.fs && IsDir(r.fs, DepsDir(v))
  }

  ghost predicate Invariant(v: Version, r: Runner)
    requires WellFormed(v)
  {
    Closed(v, r.fs)
    && (Marker(v) in r.fs ==> TreeComplete(v, r.fs) && !Stuck(v))
    && (Marker(v) !in r.fs ==> r.resolved == None)
    && (Requirements(v) in r.fs ==> NeedsDeps(v))
    && InstallTells(v, r) && PhaseTells(v, r)
  }
}

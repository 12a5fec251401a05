/** The stored archives behind the versions, when uploads are vetted and deletions can be interrupted
    (api/routers/functions.py:354-419,268-317). */
module Archives {
  import opened Base
  import opened Lifecycle
  import opened Tables
  import opened FunctionDeletion
  import opened Versions
  import opened Catalog
  import CodeValidator

  type Store = map<nat, CodeValidator.Upload>

  const MAX_ARCHIVE := 10 * 1024 * 1024

  ghost function ChecksOf(p: CodeValidator.Policy, form: bool, archive: CodeValidator.Upload, size: int, stored: bool)
    : Checks
    requires CodeValidator.Readable(archive)
  {
    Checks(form, size <= MAX_ARCHIVE, CodeValidator.Accepts(p, archive), stored)
  }

  /** The upload gets as far as putting the archive into the store. */
  ghost predicate Puts(p: CodeValidator.Policy, t: Tables, f: nat, user: nat, form: bool, archive: CodeValidator.Upload,
                       size: int)
    requires CodeValidator.Readable(archive)
  {
    UploadOutcome(t, f, user, ChecksOf(p, form, archive, size, true)) == Done
  }

  ghost predicate Approved(p: CodeValidator.Policy, archive: CodeValidator.Upload)
  {
    CodeValidator.Readable(archive) && CodeValidator.Accepts(p, archive)
  }

  /** Every version's archive is in the store and passed the validator. */
  ghost predicate Vetted(p: CodeValidator.Policy, t: Tables, artifacts: Store)
  {
    forall v | v in t.versions :: v in artifacts && Approved(p, artifacts[v])
  }

  lemma UploadKeepsVetted(p: CodeValidator.Policy, t: Tables, artifacts: Store, f: nat, v: nat,
                          archive: CodeValidator.Upload)
    requires Vetted(p, t, artifacts) && f in t.functions && Approved(p, archive)
    ensures Vetted(p, Uploaded(t, f, v), artifacts[v := archive])
  {
  }

  // ---------- deletion ----------

  /** A call of delete_function: the order in which the query lists the versions, what becomes of the removal of each
      one's archive, and whether the session's commit at the end takes effect. */
  datatype Deletion = Deletion(f: nat, user: nat, listed: seq<nat>, fates: seq<Fate>, commits: bool)

  /** The query lists the function's versions. */
  ghost predicate Lists(t: Tables, d: Deletion)
  {
    |d.fates| == |d.listed| && NoDuplicates(d.listed) && forall v :: v in d.listed <==> v in VersionsOf(t, d.f)
  }

  /** What is removed: up to the first archive whose removal raises, and that one too if only the answer was lost. */
  function UpTo(listed: seq<nat>, fates: seq<Fate>): (r: seq<nat>)
    requires |fates| == |listed|
    ensures forall v | v in r :: v in listed
  {
    if listed == [] || fates[0].Refused? then []
    else [listed[0]] + if fates[0].ReplyLost? then [] else UpTo(listed[1..], fates[1..])
  }

  ghost predicate Rejected(t: Tables, d: Deletion)
  {
    !OwnedBy(t, d.f, d.user) || Busy(t, d.f)
  }

  predicate AllReplied(fates: seq<Fate>)
  {
    forall i | 0 <= i < |fates| :: fates[i].Replied?
  }

  ghost function DeleteOutcome(t: Tables, d: Deletion): Response
  {
    if !OwnedBy(t, d.f, d.user) then NotFound
    else if Busy(t, d.f) then Conflict
    else if AllReplied(d.fates) then Done
    else BadGateway
  }

  /** 404 for a function that is not the user's, 409 while one of its executions is not over, 502 when a removal
      raises. */
  lemma DeletionAnswers(t: Tables, d: Deletion)
    ensures var r := DeleteOutcome(t, d);
      var own := d.f in t.functions && t.functions[d.f].owner == d.user;
      var busy := exists e | e in t.executions ::
        t.executions[e].fid == Some(d.f) && t.executions[e].status in {Pending, Queued, Running};
      && (r == NotFound <==> !own)
      && (r == Conflict <==> own && busy)
      && (r == Done <==> own && !busy && forall i | 0 <= i < |d.fates| :: d.fates[i] == Replied)
      && r in {NotFound, Conflict, Done, BadGateway}
  {
  }

  /** The call is refused, or there is nothing to remove, or the first removal raises without having taken effect, or
      none raises and the commit takes effect. */
  ghost predicate Harmless(t: Tables, d: Deletion)
  {
    Rejected(t, d) || d.fates == [] || d.fates[0].Refused? || (AllReplied(d.fates) && d.commits)
  }

  ghost function TablesAfter(t: Tables, d: Deletion): Tables
  {
    if DeleteOutcome(t, d) == Done && d.commits then Pruned(t, d.f, d.user) else t
  }

  /** What is removed stays removed, whatever becomes of the transaction. */
  ghost function StoreAfter(t: Tables, artifacts: Store, d: Deletion): Store
    requires |d.fates| == |d.listed|
  {
    if Rejected(t, d) then artifacts else artifacts - Elements(UpTo(d.listed, d.fates))
  }

  lemma {:induction false} NothingRaises(listed: seq<nat>, fates: seq<Fate>)
    requires |fates| == |listed| && AllReplied(fates)
    ensures UpTo(listed, fates) == listed
  {
    if listed != [] {
      NothingRaises(listed[1..], fates[1..]);
    }
  }

  lemma {:induction false} StopsAt(listed: seq<nat>, fates: seq<Fate>, i: nat)
    requires |fates| == |listed| && i <= |listed| && forall k | 0 <= k < i :: fates[k].Replied?
    requires i < |listed| ==> !fates[i].Replied?
    ensures UpTo(listed, fates) == listed[..if i < |listed| && fates[i].ReplyLost? then i + 1 else i]
  {
    if i > 0 {
      StopsAt(listed[1..], fates[1..], i - 1);
    }
  }

  /** Every removal before the i-th was answered, and the i-th was not refused. */
  ghost predicate Goes(fates: seq<Fate>, i: nat)
  {
    i < |fates| && !fates[i].Refused? && forall k | 0 <= k < i :: fates[k].Replied?
  }

  lemma {:induction false} UpToIs(listed: seq<nat>, fates: seq<Fate>)
    requires |fates| == |listed|
    ensures forall i: nat | i < |listed| && Goes(fates, i) :: listed[i] in UpTo(listed, fates)
    ensures forall v | v in UpTo(listed, fates) :: exists i: nat :: Goes(fates, i) && listed[i] == v
  {
    var n := 0;
    while n < |listed| && fates[n].Replied?
      invariant n <= |listed| && forall k | 0 <= k < n :: fates[k].Replied?
    {
      n := n + 1;
    }
    StopsAt(listed, fates, n);
    var m := if n < |listed| && fates[n].ReplyLost? then n + 1 else n;
    assert forall i: nat | i < |listed| :: Goes(fates, i) <==> i < m;
    forall v | v in listed[..m] ensures exists i: nat :: Goes(fates, i) && listed[i] == v {
      var i: nat :| i < m && listed[..m][i] == v;
      assert Goes(fates, i);
    }
    forall i: nat | i < |listed| && Goes(fates, i) ensures listed[i] in UpTo(listed, fates) {
      assert listed[..m][i] == listed[i];
    }
  }

  /** Starting with every archive in its place, a deletion leaves every remaining version its archive exactly if it is
      harmless; and a function that is gone leaves no archive behind. */
  lemma DeletionKeepsVettedIff(p: CodeValidator.Policy, t: Tables, artifacts: Store, d: Deletion)
    requires Vetted(p, t, artifacts) && Lists(t, d)
    ensures Vetted(p, TablesAfter(t, d), StoreAfter(t, artifacts, d)) <==> Harmless(t, d)
    ensures d.f in t.functions && d.f !in TablesAfter(t, d).functions ==>
      forall v | v in VersionsOf(t, d.f) :: v !in StoreAfter(t, artifacts, d)
  {
    var store := StoreAfter(t, artifacts, d);
    if !Rejected(t, d) && d.listed != [] {
      if d.fates[0].Refused? {
        assert Elements(UpTo(d.listed, d.fates)) == {};
        assert store == artifacts;
      } else {
        assert UpTo(d.listed, d.fates)[0] == d.listed[0];
        assert d.listed[0] in Elements(UpTo(d.listed, d.fates));
        assert d.listed[0] in t.versions && d.listed[0] !in store;
        if DeleteOutcome(t, d) == Done {
          NothingRaises(d.listed, d.fates);
        }
      }
    }
  }

  lemma VettedAfterDeletion(p: CodeValidator.Policy, t: Tables, artifacts: Store, d: Deletion)
    requires Lists(t, d)
    ensures Vetted(p, t, artifacts) ==>
      (Vetted(p, TablesAfter(t, d), StoreAfter(t, artifacts, d)) <==> Harmless(t, d))
  {
    if Vetted(p, t, artifacts) {
      DeletionKeepsVettedIff(p, t, artifacts, d);
    }
  }

  // ---------- whole runs ----------

  /** lost are the versions whose archive an interrupted deletion removed. */
  datatype SState = SState(t: Tables, artifacts: Store, lost: set<nat>)

  datatype SOp =
    | Other(op: Op)
    | Upload(f: nat, user: nat, form: bool, archive: CodeValidator.Upload, size: int, put: Fate, v: nat, commits: bool)
    | Delete(d: Deletion)

  ghost predicate SEnabled(s: SState, op: SOp)
  {
    match op
    case Other(o) => Enabled(s.t, o) && !o.UploadVersion? && !o.DeleteFunction?
    case Upload(_, _, _, archive, _, _, v, _) => CodeValidator.Readable(archive) && v !in s.t.versions && v !in s.lost
    case Delete(d) => Lists(s.t, d)
  }

  ghost function SApply(p: CodeValidator.Policy, s: SState, op: SOp): SState
    requires SEnabled(s, op)
  {
    match op
    case Other(o) => s.(t := Apply(s.t, o))
    case Upload(f, user, form, archive, size, put, v, commits) =>
      if Puts(p, s.t, f, user, form, archive, size) && !put.Refused? then
        var checks := ChecksOf(p, form, archive, size, put.Replied?);
        s.(t := if commits then Apply(s.t, UploadVersion(f, user, checks, v)) else s.t,
        artifacts := s.artifacts[v := archive])
      else s
    case Delete(d) =>
      SState(
        TablesAfter(s.t, d),
        StoreAfter(s.t, s.artifacts, d),
        if Rejected(s.t, d) || (DeleteOutcome(s.t, d) == Done && d.commits) then s.lost
        else s.lost + Elements(UpTo(d.listed, d.fates)))
  }

  /** Exactly the versions not lost have their archive, and nothing unapproved is ever stored. */
  ghost predicate Stocked(p: CodeValidator.Policy, t: Tables, artifacts: Store, lost: set<nat>)
  {
    (forall v | v in t.versions :: v in artifacts <==> v !in lost)
    && forall v | v in artifacts :: Approved(p, artifacts[v])
  }

  lemma TakenOut(p: CodeValidator.Policy, t: Tables, artifacts: Store, lost: set<nat>, gone: set<nat>)
    requires Stocked(p, t, artifacts, lost)
    ensures Stocked(p, t, artifacts - gone, lost + gone)
  {
  }

  lemma DeletionKeepsStock(p: CodeValidator.Policy, s: SState, d: Deletion)
    requires Stocked(p, s.t, s.artifacts, s.lost) && Lists(s.t, d)
    ensures var s' := SApply(p, s, Delete(d)); Stocked(p, s'.t, s'.artifacts, s'.lost)
  {
    if DeleteOutcome(s.t, d) == Done && d.commits {
      NothingRaises(d.listed, d.fates);
      assert Elements(d.listed) == VersionsOf(s.t, d.f);
    } else {
      TakenOut(p, s.t, s.artifacts, s.lost, Elements(UpTo(d.listed, d.fates)));
    }
  }

  lemma VersionsStay(t: Tables, op: Op)
    requires !op.UploadVersion? && !op.DeleteFunction?
    ensures Apply(t, op).versions == t.versions
  {
  }

  lemma StepKeepsStock(p: CodeValidator.Policy, s: SState, op: SOp)
    requires Stocked(p, s.t, s.artifacts, s.lost) && SEnabled(s, op)
    ensures var s' := SApply(p, s, op); Stocked(p, s'.t, s'.artifacts, s'.lost)
  {
    match op
    case Other(o) => VersionsStay(s.t, o);
    case Upload(_, _, _, _, _, _, _, _) =>
    case Delete(d) => DeletionKeepsStock(p, s, d);
  }

  /** What a step does to the tables, as an operation of the catalogue. */
  ghost function TableOp(p: CodeValidator.Policy, s: SState, op: SOp): Option<Op>
    requires SEnabled(s, op)
  {
    match op
    case Other(o) => Some(o)
    case Upload(f, user, form, archive, size, put, v, commits) =>
      if commits then Some(UploadVersion(f, user, ChecksOf(p, form, archive, size, put.Replied?), v)) else None
    case Delete(d) => if DeleteOutcome(s.t, d) == Done && d.commits then Some(DeleteFunction(d.f, d.user)) else None
  }

  lemma TablesFollow(p: CodeValidator.Policy, s: SState, op: SOp)
    requires SEnabled(s, op)
    ensures var o := TableOp(p, s, op);
      (o.Some? ==> Enabled(s.t, o.value))
      && SApply(p, s, op).t == if o.Some? then Apply(s.t, o.value) else s.t
  {
  }

  lemma StepKeepsSound(p: CodeValidator.Policy, s: SState, op: SOp)
    requires Sound(s.t) && SEnabled(s, op)
    ensures Sound(SApply(p, s, op).t)
  {
    TablesFollow(p, s, op);
    var o := TableOp(p, s, op);
    if o.Some? {
      StepIsSound(s.t, o.value);
    }
  }

  ghost predicate SStepAt(p: CodeValidator.Policy, run: seq<SState>, ops: seq<SOp>, i: nat)
    requires i < |ops| < |run|
  {
    SEnabled(run[i], ops[i]) && run[i + 1] == SApply(p, run[i], ops[i])
  }

  ghost predicate STrace(p: CodeValidator.Policy, run: seq<SState>, ops: seq<SOp>)
  {
    |run| == |ops| + 1 && run[0] == SState(EMPTY, map[], {}) && forall i: nat | i < |ops| :: SStepAt(p, run, ops, i)
  }

  lemma VettedIffNotLost(p: CodeValidator.Policy, t: Tables, artifacts: Store, lost: set<nat>)
    requires Stocked(p, t, artifacts, lost)
    ensures Vetted(p, t, artifacts) <==> lost !! t.versions.Keys
  {
    assert forall v :: v in lost * t.versions.Keys <==> v in t.versions && v in lost;
  }

  lemma {:induction false} SoundHolds(p: CodeValidator.Policy, run: seq<SState>, ops: seq<SOp>, i: nat)
    requires STrace(p, run, ops) && i < |run|
    ensures Sound(run[i].t)
  {
    if i == 0 {
      EmptyIsSound();
    } else {
      SoundHolds(p, run, ops, i - 1);
      assert SStepAt(p, run, ops, i - 1);
      StepKeepsSound(p, run[i - 1], ops[i - 1]);
    }
  }

  lemma {:induction false} StockHolds(p: CodeValidator.Policy, run: seq<SState>, ops: seq<SOp>, i: nat)
    requires STrace(p, run, ops) && i < |run|
    ensures Stocked(p, run[i].t, run[i].artifacts, run[i].lost)
  {
    if i > 0 {
      StockHolds(p, run, ops, i - 1);
      assert SStepAt(p, run, ops, i - 1);
      StepKeepsStock(p, run[i - 1], ops[i - 1]);
    }
  }

  /** In every state of every run, interrupted deletions included: all invariants of the tables; no stored archive
      that the validator would refuse; and every version has its archive exactly if none of them was lost to an
      interruption. */
  lemma ArchivesAreVetted(p: CodeValidator.Policy, run: seq<SState>, ops: seq<SOp>, i: nat)
    requires STrace(p, run, ops) && i < |run|
    ensures Sound(run[i].t) && forall v | v in run[i].artifacts :: Approved(p, run[i].artifacts[v])
    ensures Vetted(p, run[i].t, run[i].artifacts) <==> run[i].lost !! run[i].t.versions.Keys
  {
    SoundHolds(p, run, ops, i);
    StockHolds(p, run, ops, i);
    VettedIffNotLost(p, run[i].t, run[i].artifacts, run[i].lost);
  }

  ghost predicate HarmlessOp(s: SState, op: SOp)
  {
    op.Delete? ==> Harmless(s.t, op.d)
  }

  lemma HarmlessLosesNothing(p: CodeValidator.Policy, s: SState, op: SOp)
    requires SEnabled(s, op) && HarmlessOp(s, op)
    ensures SApply(p, s, op).lost == s.lost
  {
  }

  lemma {:induction false} NothingLost(p: CodeValidator.Policy, run: seq<SState>, ops: seq<SOp>, i: nat)
    requires STrace(p, run, ops) && i < |run|
    requires forall k | 0 <= k < i :: HarmlessOp(run[k], ops[k])
    ensures run[i].lost == {}
  {
    if i > 0 {
      NothingLost(p, run, ops, i - 1);
      assert SStepAt(p, run, ops, i - 1) && HarmlessOp(run[i - 1], ops[i - 1]);
      HarmlessLosesNothing(p, run[i - 1], ops[i - 1]);
    }
  }

  /** Without a deletion interrupted half-way, every version always has its approved archive. */
  lemma HarmlessRunsStayVetted(p: CodeValidator.Policy, run: seq<SState>, ops: seq<SOp>, i: nat)
    requires STrace(p, run, ops) && i < |run|
    requires forall k | 0 <= k < i :: HarmlessOp(run[k], ops[k])
    ensures Vetted(p, run[i].t, run[i].artifacts)
  {
    NothingLost(p, run, ops, i);
    ArchivesAreVetted(p, run, ops, i);
  }

  /** An interrupted deletion, called again when nothing fails any more, leaves no version without its archive. */
  lemma RetryRepairs(p: CodeValidator.Policy, s: SState, d: Deletion)
    requires Stocked(p, s.t, s.artifacts, s.lost) && Lists(s.t, d)
    requires !Rejected(s.t, d) && AllReplied(d.fates) && d.commits
    requires s.lost * s.t.versions.Keys <= VersionsOf(s.t, d.f)
    ensures var s' := SApply(p, s, Delete(d)); d.f !in s'.t.functions && Vetted(p, s'.t, s'.artifacts)
  {
    DeletionKeepsStock(p, s, d);
    var s' := SApply(p, s, Delete(d));
    forall v | v in s'.t.versions ensures v !in s'.lost {
      assert v in s.t.versions && v !in VersionsOf(s.t, d.f);
      assert v in s.lost ==> v in s.lost * s.t.versions.Keys;
    }
  }

  // ---------- a concrete order ----------

  /** A function with two versions; the second one's archive cannot be removed. */
  const TWO := Tables(
    map[0 := FunctionRow(7, Some(2), None, 0)],
    map[1 := VersionRow(0, 1, true, 0), 2 := VersionRow(0, 2, true, 1)],
    map[], map[], map[], 2)

  lemma TwoAreListed(d: Deletion)
    requires d.f == 0 && d.user == 7 && d.listed in {[1, 2], [2, 1]} && |d.fates| == 2
    ensures Lists(TWO, d) && !Rejected(TWO, d)
  {
  }

  /** Rolled back, with the first version's archive gone; in the other order nothing is lost. */
  lemma InterruptedDeletion(artifacts: Store)
    requires artifacts.Keys == {1, 2}
    ensures var d := Deletion(0, 7, [1, 2], [Replied, Refused], true);
      Lists(TWO, d) && DeleteOutcome(TWO, d) == BadGateway
      && TablesAfter(TWO, d) == TWO && StoreAfter(TWO, artifacts, d).Keys == {2}
    ensures var d := Deletion(0, 7, [2, 1], [Refused, Replied], true);
      Lists(TWO, d) && DeleteOutcome(TWO, d) == BadGateway
      && TablesAfter(TWO, d) == TWO && StoreAfter(TWO, artifacts, d) == artifacts
  {
    TwoAreListed(Deletion(0, 7, [1, 2], [Replied, Refused], true));
    TwoAreListed(Deletion(0, 7, [2, 1], [Refused, Replied], true));
    assert ![Replied, Refused][1].Replied? && ![Refused, Replied][0].Replied?;
    StopsAt([1, 2], [Replied, Refused], 1);
    StopsAt([2, 1], [Refused, Replied], 0);
  }

  /** It is also gone when its removal is the first to fail, but was done and only not answered. */
  lemma UnheardDeletion(artifacts: Store)
    requires artifacts.Keys == {1, 2}
    ensures var d := Deletion(0, 7, [1, 2], [ReplyLost, Replied], true);
      Lists(TWO, d) && DeleteOutcome(TWO, d) == BadGateway
      && TablesAfter(TWO, d) == TWO && StoreAfter(TWO, artifacts, d).Keys == {2}
  {
    TwoAreListed(Deletion(0, 7, [1, 2], [ReplyLost, Replied], true));
    assert ![ReplyLost, Replied][0].Replied?;
    StopsAt([1, 2], [ReplyLost, Replied], 0);
  }

  /** If only the commit fails, every archive is gone. */
  lemma UncommittedDeletion(artifacts: Store)
    requires artifacts.Keys == {1, 2}
    ensures var d := Deletion(0, 7, [1, 2], [Replied, Replied], false);
      Lists(TWO, d) && DeleteOutcome(TWO, d) == Done
      && TablesAfter(TWO, d) == TWO && StoreAfter(TWO, artifacts, d) == map[]
  {
    TwoAreListed(Deletion(0, 7, [1, 2], [Replied, Replied], false));
    NothingRaises([1, 2], [Replied, Replied]);
  }
}

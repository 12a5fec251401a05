/** Deleting a function statement by statement (api/routers/functions.py:241-302). */
module FunctionDeletion {
  import opened Base
  import opened Lifecycle
  import opened Tables

  // ---------- rows belong to one function ----------

  predicate Within(key: Option<nat>, own: set<nat>)
  {
    key.Some? ==> key.value in own
  }

  predicate FunctionOwns(r: FunctionRow, f: nat, t: Tables)
  {
    Within(r.active, VersionsOf(t, f)) && Within(r.canary, VersionsOf(t, f))
  }

  predicate ExecutionOwns(r: ExecutionRow, t: Tables)
  {
    (r.version.Some? ==> r.fid.Some? && r.version.value in VersionsOf(t, r.fid.value))
    && (r.schedule.Some? ==> r.fid.Some? && r.schedule.value in SchedulesOf(t, r.fid.value))
  }

  predicate ActivationOwns(r: ActivationRow, t: Tables)
  {
    var own := VersionsOf(t, r.fid);
    Within(r.previous, own) && Within(r.activated, own) && Within(r.canary, own)
  }

  /** A function's pointers, executions and audit rows name only its own versions and schedules. */
  ghost predicate Owned(t: Tables)
  {
    (forall f | f in t.functions :: FunctionOwns(t.functions[f], f, t))
    && (forall e | e in t.executions :: ExecutionOwns(t.executions[e], t))
    && (forall a | a in t.activations :: ActivationOwns(t.activations[a], t))
  }

  ghost predicate Consistent(t: Tables)
  {
    Integrity(t) && Owned(t)
  }

  ghost predicate Busy(t: Tables, f: nat)
  {
    exists e | e in t.executions :: t.executions[e].fid == Some(f) && Active(t.executions[e].status)
  }

  // ---------- what deleting means ----------

  /** No definition of f is left, its executions are kept but detached, and every other row is as before. */
  function Pruned(t: Tables, f: nat, user: nat): Tables
  {
    t.(functions := t.functions - {f},
    versions := t.versions - VersionsOf(t, f),
    schedules := t.schedules - SchedulesOf(t, f),
    activations := t.activations - ActivationsOf(t, f),
    executions := map e | e in t.executions :: DetachedFrom(t.executions[e], f, user))
  }

  // ---------- the statements, one after the other ----------

  function Detached(t: Tables, f: nat, user: nat): Tables
  {
    var t1 := DetachExecutions(t, f, user);
    if VersionsOf(t, f) != {} then ClearVersions(t1, VersionsOf(t, f)) else t1
  }

  function Unpointed(t: Tables, f: nat, user: nat): Tables
  {
    ClearPointers(Detached(t, f, user), f)
  }

  function Unscheduled(t: Tables, f: nat, user: nat): Tables
  {
    var t1 := Unpointed(t, f, user);
    DeleteSchedules(t1, SchedulesOf(t1, f))
  }

  function Unaudited(t: Tables, f: nat, user: nat): Tables
  {
    var t1 := Unscheduled(t, f, user);
    DeleteActivations(t1, ActivationsOf(t1, f))
  }

  function Unversioned(t: Tables, f: nat, user: nat): Option<Tables>
  {
    var t1 := Unaudited(t, f, user);
    DeleteVersions(t1, VersionsOf(t1, f))
  }

  /** The second update of executions finds nothing left to clear. */
  lemma DetachingIsEnough(t: Tables, f: nat, user: nat)
    requires Consistent(t)
    ensures Detached(t, f, user) == DetachExecutions(t, f, user)
  {
  }

  lemma SchedulesGoUnnoticed(t: Tables, f: nat, user: nat)
    requires Consistent(t)
    ensures Unscheduled(t, f, user) == Unpointed(t, f, user).(schedules := t.schedules - SchedulesOf(t, f))
  {
    DetachingIsEnough(t, f, user);
    var t1 := Unpointed(t, f, user);
    assert SchedulesOf(t1, f) == SchedulesOf(t, f);
    forall e | e in t1.executions
      ensures t1.executions[e].schedule == Unless(t1.executions[e].schedule, SchedulesOf(t, f))
    {
      assert ExecutionOwns(t.executions[e], t);
    }
    assert Unscheduled(t, f, user).executions == t1.executions;
  }

  lemma UnreferencedVersionsGo(t: Tables, gone: set<nat>)
    requires forall g | g in t.functions :: !PointsInto(t.functions[g], gone)
    requires forall e | e in t.executions :: t.executions[e].version == Unless(t.executions[e].version, gone)
    requires forall a | a in t.activations :: Forgetting(t.activations[a], gone) == t.activations[a]
    ensures DeleteVersions(t, gone) == Some(t.(versions := t.versions - gone))
  {
    var t1 := DeleteVersions(t, gone).value;
    assert t1.executions == t.executions && t1.activations == t.activations;
  }

  /** Once the pointers are cleared, no foreign key refuses to let the versions go. */
  lemma VersionsMayGo(t: Tables, f: nat, user: nat)
    requires Consistent(t) && f in t.functions
    ensures Unversioned(t, f, user) == Some(Unaudited(t, f, user).(versions := t.versions - VersionsOf(t, f)))
  {
    DetachingIsEnough(t, f, user);
    SchedulesGoUnnoticed(t, f, user);
    var t1, gone := Unaudited(t, f, user), VersionsOf(t, f);
    assert VersionsOf(t1, f) == gone && ActivationsOf(Unscheduled(t, f, user), f) == ActivationsOf(t, f);
    forall g | g in t1.functions ensures !PointsInto(t1.functions[g], gone) {
      assert FunctionOwns(t.functions[g], g, t);
    }
    forall e | e in t1.executions ensures t1.executions[e].version == Unless(t1.executions[e].version, gone) {
      assert ExecutionOwns(t.executions[e], t);
    }
    forall a | a in t1.activations ensures Forgetting(t1.activations[a], gone) == t1.activations[a] {
      assert ActivationOwns(t.activations[a], t);
    }
    UnreferencedVersionsGo(t1, gone);
  }

  /** The last statement cascades over nothing. */
  lemma NothingLeftToCascade(t: Tables, f: nat)
    requires Integrity(t)
    requires VersionsOf(t, f) == {} && SchedulesOf(t, f) == {} && ActivationsOf(t, f) == {}
    requires forall e | e in t.executions :: t.executions[e].fid != Some(f)
    ensures DeleteFunctionRow(t, f) == Some(t.(functions := t.functions - {f}))
  {
    var row := t.(functions := t.functions - {f});
    assert (map e | e in t.executions :: t.executions[e].(fid := Unless(t.executions[e].fid, {f})))
        == t.executions;
    assert SchedulesOf(row, f) == {} && VersionsOf(row, f) == {} && ActivationsOf(row, f) == {};
    SubtractNothing(row);
  }

  lemma SubtractNothing(t: Tables)
    ensures DeleteSchedules(t, {}) == t && DeleteActivations(t, {}) == t && DeleteVersions(t, {}) == Some(t)
  {
    assert DeleteSchedules(t, {}).executions == t.executions;
    assert ClearVersions(t, {}).executions == t.executions;
    var t1 := DeleteVersions(t, {}).value;
    assert t1.versions == t.versions && t1.activations == t.activations;
  }

  /** The statements all succeed, and together they prune. */
  lemma DeletionPrunes(t: Tables, f: nat, user: nat)
    requires Consistent(t) && f in t.functions
    ensures Unversioned(t, f, user).Some?
    ensures DeleteFunctionRow(Unversioned(t, f, user).value, f) == Some(Pruned(t, f, user))
  {
    DetachingIsEnough(t, f, user);
    SchedulesGoUnnoticed(t, f, user);
    VersionsMayGo(t, f, user);
    StagesKeepIntegrity(t, f, user);
    var t6 := Unversioned(t, f, user).value;
    assert ActivationsOf(Unscheduled(t, f, user), f) == ActivationsOf(t, f);
    NothingLeftToCascade(t6, f);
    assert t6.functions - {f} == t.functions - {f};
  }

  /** Foreign keys hold after each statement, not just at the end. */
  lemma StagesKeepIntegrity(t: Tables, f: nat, user: nat)
    requires Consistent(t) && f in t.functions
    ensures Integrity(DetachExecutions(t, f, user)) && Integrity(Detached(t, f, user))
    ensures Integrity(Unpointed(t, f, user)) && Integrity(Unscheduled(t, f, user)) && Integrity(Unaudited(t, f, user))
    ensures Unversioned(t, f, user).Some? && Integrity(Unversioned(t, f, user).value)
  {
    var t1 := DetachExecutions(t, f, user);
    DetachKeepsIntegrity(t, f, user);
    ClearVersionsKeepsIntegrity(t1, VersionsOf(t, f));
    ClearPointersKeepsIntegrity(Detached(t, f, user), f);
    var t3 := Unpointed(t, f, user);
    DeletesKeepIntegrity(t3, SchedulesOf(t3, f));
    var t4 := Unscheduled(t, f, user);
    DeletesKeepIntegrity(t4, ActivationsOf(t4, f));
    var t5 := Unaudited(t, f, user);
    VersionDeleteKeepsIntegrity(t5, VersionsOf(t5, f));
    VersionsMayGo(t, f, user);
  }

  /** Deleting the versions before clearing the pointers is refused exactly when the function has an active or a
      canary version: the order of the statements matters. */
  lemma PointersMustGoFirst(t: Tables, f: nat)
    requires Consistent(t) && f in t.functions
    ensures DeleteVersions(t, VersionsOf(t, f)).None? <==> t.functions[f].active.Some? || t.functions[f].canary.Some?
  {
  }

  /** What pruning leaves of each execution: detached from the function and handed to the user who deleted it, but with
      its status; those of other functions as they were. */
  lemma PrunedExecutions(t: Tables, f: nat, user: nat)
    ensures var t' := Pruned(t, f, user);
      t'.executions.Keys == t.executions.Keys
      && forall e | e in t.executions ::
           var r, r' := t.executions[e], t'.executions[e];
           if r.fid == Some(f)
           then r'.fid == None && r'.version == None && r'.schedule == None && r'.triggeredBy == Some(user)
                && r'.status == r.status
           else r' == r
  {
  }

  /** What pruning leaves of the other tables: the rows of other functions, as they were. */
  lemma PrunedDefinitions(t: Tables, f: nat, user: nat)
    ensures var t' := Pruned(t, f, user);
      && t'.clock == t.clock
      && (forall g :: g in t'.functions <==> g in t.functions && g != f)
      && (forall v :: v in t'.versions <==> v in t.versions && t.versions[v].fid != f)
      && (forall s :: s in t'.schedules <==> s in t.schedules && t.schedules[s].fid != f)
      && (forall a :: a in t'.activations <==> a in t.activations && t.activations[a].fid != f)
      && (forall g | g in t'.functions :: t'.functions[g] == t.functions[g])
      && (forall v | v in t'.versions :: t'.versions[v] == t.versions[v])
      && (forall s | s in t'.schedules :: t'.schedules[s] == t.schedules[s])
      && (forall a | a in t'.activations :: t'.activations[a] == t.activations[a])
  {
  }

  /** What pruning keeps: every execution row, and all rows of every other function. */
  lemma PruningSparesOthers(t: Tables, f: nat, user: nat)
    requires Consistent(t)
    ensures var t' := Pruned(t, f, user);
      t'.executions.Keys == t.executions.Keys
      && (forall e | e in t.executions && t.executions[e].fid != Some(f) :: t'.executions[e] == t.executions[e])
      && (forall g | g != f :: VersionsOf(t', g) == VersionsOf(t, g) && SchedulesOf(t', g) == SchedulesOf(t, g)
           && ActivationsOf(t', g) == ActivationsOf(t, g) && (g in t'.functions <==> g in t.functions))
      && VersionsOf(t', f) == {} && SchedulesOf(t', f) == {} && ActivationsOf(t', f) == {} && f !in t'.functions
      && forall e | e in t'.executions :: t'.executions[e].fid != Some(f)
  {
  }

  lemma PruningKeepsOwned(t: Tables, f: nat, user: nat)
    requires Consistent(t)
    ensures Owned(Pruned(t, f, user))
  {
    var t' := Pruned(t, f, user);
    forall g | g in t'.functions ensures FunctionOwns(t'.functions[g], g, t') {
      assert FunctionOwns(t.functions[g], g, t);
    }
    forall e | e in t'.executions ensures ExecutionOwns(t'.executions[e], t') {
      assert ExecutionOwns(t.executions[e], t);
    }
    forall a | a in t'.activations ensures ActivationOwns(t'.activations[a], t') {
      assert ActivationOwns(t.activations[a], t);
    }
  }

  /** Ownership and foreign keys both survive. */
  lemma PruningKeepsConsistent(t: Tables, f: nat, user: nat)
    requires Consistent(t) && f in t.functions
    ensures Consistent(Pruned(t, f, user))
  {
    StagesKeepIntegrity(t, f, user);
    DeletionPrunes(t, f, user);
    RowDeleteKeepsIntegrity(Unversioned(t, f, user).value, f);
    PruningKeepsOwned(t, f, user);
  }
}

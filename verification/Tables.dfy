/** The relational tables behind functions, versions and executions, with their foreign keys (shared/db/models.py). */
module Tables {
  import opened Base
  import opened Lifecycle

  datatype FunctionRow = FunctionRow(owner: nat, active: Option<nat>, canary: Option<nat>, percent: int)

  datatype VersionRow = VersionRow(fid: nat, number: nat, enabled: bool, created: nat)

  datatype ScheduleRow = ScheduleRow(fid: nat, owner: nat)

  datatype ExecutionRow = ExecutionRow(
    fid: Option<nat>,
    version: Option<nat>,
    schedule: Option<nat>,
    triggeredBy: Option<nat>,
    status: Status)

  datatype Action = Activate | CanaryClear | Promote | CanaryUpdate

  datatype ActivationRow = ActivationRow(
    fid: nat,
    actor: Option<nat>,
    action: Action,
    previous: Option<nat>,
    activated: Option<nat>,
    canary: Option<nat>,
    percent: int,
    created: nat)

  /** One database state; clock is the next creation stamp. */
  datatype Tables = Tables(
    functions: map<nat, FunctionRow>,
    versions: map<nat, VersionRow>,
    schedules: map<nat, ScheduleRow>,
    executions: map<nat, ExecutionRow>,
    activations: map<nat, ActivationRow>,
    clock: nat)

  // ---------- foreign keys ----------

  predicate Refers<T>(key: Option<nat>, table: map<nat, T>)
  {
    key.Some? ==> key.value in table
  }

  predicate FunctionRefs(r: FunctionRow, t: Tables)
  {
    Refers(r.active, t.versions) && Refers(r.canary, t.versions)
  }

  predicate ExecutionRefs(r: ExecutionRow, t: Tables)
  {
    Refers(r.fid, t.functions) && Refers(r.version, t.versions) && Refers(r.schedule, t.schedules)
  }

  predicate ActivationRefs(r: ActivationRow, t: Tables)
  {
    r.fid in t.functions
    && Refers(r.previous, t.versions) && Refers(r.activated, t.versions) && Refers(r.canary, t.versions)
  }

  /** Every foreign key points at a row that exists. */
  ghost predicate Integrity(t: Tables)
  {
    (forall f | f in t.functions :: FunctionRefs(t.functions[f], t))
    && (forall v | v in t.versions :: t.versions[v].fid in t.functions)
    && (forall s | s in t.schedules :: t.schedules[s].fid in t.functions)
    && (forall e | e in t.executions :: ExecutionRefs(t.executions[e], t))
    && (forall a | a in t.activations :: ActivationRefs(t.activations[a], t))
  }

  // ---------- statements ----------

  function Unless(key: Option<nat>, gone: set<nat>): Option<nat>
  {
    if key.Some? && key.value in gone then None else key
  }

  function VersionsOf(t: Tables, f: nat): set<nat>
  {
    set v | v in t.versions && t.versions[v].fid == f
  }

  function SchedulesOf(t: Tables, f: nat): set<nat>
  {
    set s | s in t.schedules && t.schedules[s].fid == f
  }

  function ActivationsOf(t: Tables, f: nat): set<nat>
  {
    set a | a in t.activations && t.activations[a].fid == f
  }

  function DetachedFrom(r: ExecutionRow, f: nat, user: nat): ExecutionRow
  {
    if r.fid == Some(f)
    then r.(fid := None, version := None, schedule := None, triggeredBy := Some(user))
    else r
  }

  function DetachExecutions(t: Tables, f: nat, user: nat): Tables
  {
    t.(executions := map e | e in t.executions :: DetachedFrom(t.executions[e], f, user))
  }

  function ClearVersions(t: Tables, gone: set<nat>): Tables
  {
    t.(executions := map e | e in t.executions :: t.executions[e].(version := Unless(t.executions[e].version, gone)))
  }

  function ClearPointers(t: Tables, f: nat): Tables
  {
    if f in t.functions
    then t.(functions := t.functions[f := t.functions[f].(active := None, canary := None, percent := 0)])
    else t
  }

  /** Executions of the deleted schedules keep their rows: ON DELETE SET NULL. */
  function DeleteSchedules(t: Tables, gone: set<nat>): Tables
  {
    t.(schedules := t.schedules - gone,
    executions := map e | e in t.executions :: t.executions[e].(schedule := Unless(t.executions[e].schedule, gone)))
  }

  function DeleteActivations(t: Tables, gone: set<nat>): Tables
  {
    t.(activations := t.activations - gone)
  }

  predicate PointsInto(r: FunctionRow, gone: set<nat>)
  {
    (r.active.Some? && r.active.value in gone) || (r.canary.Some? && r.canary.value in gone)
  }

  function Forgetting(r: ActivationRow, gone: set<nat>): ActivationRow
  {
    r.(previous := Unless(r.previous, gone), activated := Unless(r.activated, gone), canary := Unless(r.canary, gone))
  }

  /** Refused while a function still points at one of the versions; executions and audit rows are set to NULL. */
  function DeleteVersions(t: Tables, gone: set<nat>): Option<Tables>
  {
    if exists f | f in t.functions :: PointsInto(t.functions[f], gone) then None
    else Some(ClearVersions(t, gone).(
              versions := t.versions - gone,
              activations := map a | a in t.activations :: Forgetting(t.activations[a], gone)))
  }

  /** The row itself, with ON DELETE CASCADE for what belongs to it and SET NULL for its executions. */
  function DeleteFunctionRow(t: Tables, f: nat): Option<Tables>
  {
    var row := t.(
      functions := t.functions - {f},
      executions := map e | e in t.executions :: t.executions[e].(fid := Unless(t.executions[e].fid, {f})));
    var dependents := DeleteActivations(DeleteSchedules(row, SchedulesOf(row, f)), ActivationsOf(row, f));
    DeleteVersions(dependents, VersionsOf(row, f))
  }

  // ---------- every statement keeps every foreign key ----------

  lemma DetachKeepsIntegrity(t: Tables, f: nat, user: nat)
    requires Integrity(t)
    ensures Integrity(DetachExecutions(t, f, user))
  {
  }

  lemma ClearVersionsKeepsIntegrity(t: Tables, gone: set<nat>)
    requires Integrity(t)
    ensures Integrity(ClearVersions(t, gone))
  {
  }

  lemma ClearPointersKeepsIntegrity(t: Tables, f: nat)
    requires Integrity(t)
    ensures Integrity(ClearPointers(t, f))
  {
  }

  lemma DeletesKeepIntegrity(t: Tables, gone: set<nat>)
    requires Integrity(t)
    ensures Integrity(DeleteSchedules(t, gone))
    ensures Integrity(DeleteActivations(t, gone))
  {
  }

  lemma VersionDeleteKeepsIntegrity(t: Tables, gone: set<nat>)
    requires Integrity(t)
    ensures DeleteVersions(t, gone).Some? ==> Integrity(DeleteVersions(t, gone).value)
  {
    var r := DeleteVersions(t, gone);
    if r.Some? {
      var t' := r.value;
      forall f | f in t'.functions ensures FunctionRefs(t'.functions[f], t') {
        assert FunctionRefs(t.functions[f], t) && !PointsInto(t.functions[f], gone);
      }
      forall e | e in t'.executions ensures ExecutionRefs(t'.executions[e], t') {
        assert ExecutionRefs(t.executions[e], t);
      }
      forall a | a in t'.activations ensures ActivationRefs(t'.activations[a], t') {
        assert ActivationRefs(t.activations[a], t);
      }
    }
  }

  lemma RowDeleteKeepsIntegrity(t: Tables, f: nat)
    requires Integrity(t)
    ensures DeleteFunctionRow(t, f).Some? ==> Integrity(DeleteFunctionRow(t, f).value)
  {
    var r := DeleteFunctionRow(t, f);
    if r.Some? {
      var t' := r.value;
      forall g | g in t'.functions ensures FunctionRefs(t'.functions[g], t') {
        assert FunctionRefs(t.functions[g], t) && !PointsInto(t.functions[g], VersionsOf(t, f));
      }
      forall e | e in t'.executions ensures ExecutionRefs(t'.executions[e], t') {
        assert ExecutionRefs(t.executions[e], t);
      }
      forall a | a in t'.activations ensures ActivationRefs(t'.activations[a], t') {
        assert ActivationRefs(t.activations[a], t);
      }
    }
  }
}

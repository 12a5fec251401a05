/** Every operation on functions, versions, schedules and executions, in any order (api/routers/functions.py,
    schedules.py, executions.py, ephemeral.py; scheduler/scheduler.py:131-162). */
module Catalog {
  import opened Base
  import opened Lifecycle
  import opened Tables
  import opened FunctionDeletion
  import opened Versions
  import opened AuditTrail
  import opened Routing

  datatype Op =
    | CreateFunction(f: nat, user: nat)
    | UploadVersion(f: nat, user: nat, checks: Checks, v: nat)
    | ActivateVersion(f: nat, user: nat, v: nat, a: nat)
    | UpdateCanary(f: nat, user: nat, canary: Option<nat>, percent: int, a: nat)
    | CreateSchedule(f: nat, user: nat, s: nat)
    | DeleteSchedule(s: nat, user: nat)
    | Trigger(f: nat, user: nat, explicit: Option<nat>, draw: nat, e: nat)
    | FireSchedule(s: nat, draw: nat, e: nat)
    | RunEphemeral(user: nat, e: nat)
    | Progress(e: nat, status: Status)
    | DeleteFunction(f: nat, user: nat)

  /** New rows get identifiers no row has. */
  predicate Enabled(t: Tables, op: Op)
  {
    match op
    case CreateFunction(f, _) => f !in t.functions
    case UploadVersion(_, _, _, v) => v !in t.versions
    case ActivateVersion(_, _, _, a) => a !in t.activations
    case UpdateCanary(_, _, _, _, a) => a !in t.activations
    case CreateSchedule(_, _, s) => s !in t.schedules
    case Trigger(_, _, _, _, e) => e !in t.executions
    case FireSchedule(_, _, e) => e !in t.executions
    case RunEphemeral(_, e) => e !in t.executions
    case _ => true
  }

  function Inserted(t: Tables, e: nat, r: ExecutionRow): Tables
  {
    t.(executions := t.executions[e := r])
  }

  function WithFunction(t: Tables, f: nat, user: nat): Tables
  {
    t.(functions := t.functions[f := FunctionRow(user, None, None, 0)])
  }

  ghost function Apply(t: Tables, op: Op): Tables
  {
    match op
    case CreateFunction(f, user) => WithFunction(t, f, user)
    case UploadVersion(f, user, checks, v) =>
      if UploadOutcome(t, f, user, checks) == Done then Uploaded(t, f, v) else t
    case ActivateVersion(f, user, v, a) =>
      if ActivateOutcome(t, f, user, v) == Done then Activated(t, f, user, v, a) else t
    case UpdateCanary(f, user, canary, percent, a) =>
      if CanaryOutcome(t, f, user, canary, percent) == Done then CanarySet(t, f, user, canary, percent, a) else t
    case CreateSchedule(f, user, s) =>
      if OwnedBy(t, f, user) then t.(schedules := t.schedules[s := ScheduleRow(f, user)]) else t
    case DeleteSchedule(s, user) =>
      if s in t.schedules && t.schedules[s].owner == user then DeleteSchedules(t, {s}) else t
    case Trigger(f, user, explicit, draw, e) =>
      if OwnedBy(t, f, user) && Choose(t, f, explicit, draw).Some?
      then Inserted(t, e, ExecutionRow(Some(f), Choose(t, f, explicit, draw), None, Some(user), Queued)) else t
    case FireSchedule(s, draw, e) =>
      if s in t.schedules && t.schedules[s].fid in t.functions
         && Choose(t, t.schedules[s].fid, None, draw).Some?
      then
        var f := t.schedules[s].fid;
        Inserted(t, e, ExecutionRow(Some(f), Choose(t, f, None, draw), Some(s), None, Queued))
      else t
    case RunEphemeral(user, e) => Inserted(t, e, ExecutionRow(None, None, None, Some(user), Queued))
    case Progress(e, status) =>
      if e in t.executions then Inserted(t, e, t.executions[e].(status := status)) else t
    case DeleteFunction(f, user) => if OwnedBy(t, f, user) && !Busy(t, f) then Pruned(t, f, user) else t
  }

  // ---------- what every operation keeps ----------

  /** Creation stamps lie in the past. */
  ghost predicate Stamped(t: Tables)
  {
    (forall v | v in t.versions :: t.versions[v].created < t.clock)
    && (forall a | a in t.activations :: t.activations[a].created < t.clock)
  }

  ghost predicate FunctionSound(t: Tables, f: nat)
    requires f in t.functions
  {
    VersionState(t, f) && TrailSound(t, f)
  }

  ghost predicate AllSound(t: Tables)
  {
    forall f | f in t.functions :: FunctionSound(t, f)
  }

  ghost predicate Sound(t: Tables)
  {
    Consistent(t) && Stamped(t) && AllSound(t)
  }

  /** The rows that decide a function's state are the same. */
  ghost predicate Untouched(t: Tables, t': Tables, f: nat)
  {
    f in t.functions && f in t'.functions && t'.functions[f] == t.functions[f]
    && VersionsOf(t', f) == VersionsOf(t, f) && ActivationsOf(t', f) == ActivationsOf(t, f)
    && SameRows(t, t', f)
  }

  lemma UntouchedStaysSound(t: Tables, t': Tables, f: nat)
    requires Untouched(t, t', f) && FunctionSound(t, f)
    ensures FunctionSound(t', f)
  {
    assert forall v :: v in VersionsOf(t, f) <==> v in VersionsOf(t', f);
    assert forall a :: a in ActivationsOf(t, f) <==> a in ActivationsOf(t', f);
    StateIsLocal(t, t', f);
    forall x ensures Occurs(t', f, x) <==> Occurs(t, f, x) {
      match x
      case Upload(v) => assert v in VersionsOf(t, f) <==> v in VersionsOf(t', f);
      case Audit(a) => assert a in ActivationsOf(t, f) <==> a in ActivationsOf(t', f);
    }
    TrailIsLocal(t, t', f);
  }

  /** All functions but f, if that, are untouched. */
  ghost predicate OnlyTouches(t: Tables, t': Tables, f: nat)
  {
    forall g | g in t'.functions && g != f :: Untouched(t, t', g)
  }

  lemma OthersStaySound(t: Tables, t': Tables, f: nat)
    requires AllSound(t) && OnlyTouches(t, t', f) && (f in t'.functions ==> FunctionSound(t', f))
    ensures AllSound(t')
  {
    forall g | g in t'.functions && g != f ensures FunctionSound(t', g) {
      UntouchedStaysSound(t, t', g);
    }
  }

  /** Operations that only add or change executions or schedules. */
  lemma QuietIsSound(t: Tables, t': Tables)
    requires Sound(t) && Consistent(t')
    requires t'.functions == t.functions && t'.versions == t.versions && t'.activations == t.activations
    requires t'.clock == t.clock
    ensures Sound(t')
  {
    QuietStaysSound(t, t');
  }

  lemma QuietStaysSound(t: Tables, t': Tables)
    requires AllSound(t)
    requires t'.functions == t.functions && t'.versions == t.versions && t'.activations == t.activations
    ensures AllSound(t')
  {
    forall f | f in t'.functions ensures FunctionSound(t', f) {
      assert VersionsOf(t', f) == VersionsOf(t, f) && ActivationsOf(t', f) == ActivationsOf(t, f);
      UntouchedStaysSound(t, t', f);
    }
  }

  lemma InsertKeepsConsistent(t: Tables, e: nat, r: ExecutionRow)
    requires Consistent(t) && ExecutionRefs(r, t) && ExecutionOwns(r, t)
    ensures Consistent(Inserted(t, e, r))
  {
  }

  lemma SchedulesKeepConsistent(t: Tables, schedules: map<nat, ScheduleRow>)
    requires Consistent(t) && forall s | s in t.schedules :: s in schedules && schedules[s] == t.schedules[s]
    requires forall s | s in schedules :: schedules[s].fid in t.functions
    ensures Consistent(t.(schedules := schedules))
  {
  }

  lemma ScheduleDeleteKeepsConsistent(t: Tables, gone: set<nat>)
    requires Consistent(t)
    ensures Consistent(DeleteSchedules(t, gone))
  {
    DeletesKeepIntegrity(t, gone);
    var t' := DeleteSchedules(t, gone);
    assert forall g :: VersionsOf(t', g) == VersionsOf(t, g);
    forall x | x in t'.executions ensures ExecutionOwns(t'.executions[x], t') {
      assert ExecutionOwns(t.executions[x], t);
    }
    forall f | f in t'.functions ensures FunctionOwns(t'.functions[f], f, t') {
      assert FunctionOwns(t.functions[f], f, t);
    }
    forall a | a in t'.activations ensures ActivationOwns(t'.activations[a], t') {
      assert ActivationOwns(t.activations[a], t);
    }
  }

  lemma NoFunctionNoEvents(t: Tables, f: nat)
    requires Integrity(t) && f !in t.functions
    ensures VersionsOf(t, f) == {} && forall x :: !Occurs(t, f, x)
  {
  }

  lemma NewFunctionIsSound(t: Tables, f: nat, user: nat)
    requires Sound(t) && f !in t.functions
    ensures Sound(WithFunction(t, f, user))
  {
    var t' := WithFunction(t, f, user);
    NewFunctionKeepsConsistent(t, f, user);
    NoFunctionNoEvents(t, f);
    NewFunctionStartsSound(t, f, user);
    NewFunctionElsewhere(t, f, user);
    OthersStaySound(t, t', f);
  }

  lemma NewFunctionElsewhere(t: Tables, f: nat, user: nat)
    ensures OnlyTouches(t, WithFunction(t, f, user), f)
  {
  }

  lemma NewFunctionStartsSound(t: Tables, f: nat, user: nat)
    requires VersionsOf(t, f) == {} && forall x :: !Occurs(t, f, x)
    ensures FunctionSound(WithFunction(t, f, user), f)
  {
    var t' := WithFunction(t, f, user);
    assert VersionsOf(t', f) == {};
    forall x ensures !Occurs(t', f, x) {
      assert !Occurs(t, f, x);
    }
    EmptyTrail(t', f);
  }

  lemma NewFunctionKeepsConsistent(t: Tables, f: nat, user: nat)
    requires Consistent(t) && f !in t.functions
    ensures Consistent(WithFunction(t, f, user))
  {
    var t' := WithFunction(t, f, user);
    assert forall g :: VersionsOf(t', g) == VersionsOf(t, g) && SchedulesOf(t', g) == SchedulesOf(t, g);
    forall x | x in t'.executions ensures ExecutionRefs(t'.executions[x], t') && ExecutionOwns(t'.executions[x], t') {
      assert ExecutionRefs(t.executions[x], t) && ExecutionOwns(t.executions[x], t);
    }
    forall g | g in t'.functions ensures FunctionRefs(t'.functions[g], t') && FunctionOwns(t'.functions[g], g, t') {
      if g != f {
        assert FunctionRefs(t.functions[g], t) && FunctionOwns(t.functions[g], g, t);
      }
    }
    forall a | a in t'.activations
      ensures ActivationRefs(t'.activations[a], t') && ActivationOwns(t'.activations[a], t') {
      assert ActivationRefs(t.activations[a], t) && ActivationOwns(t.activations[a], t);
    }
  }

  lemma EmptyTrail(t: Tables, f: nat)
    requires f in t.functions && PointersOf(t.functions[f]) == Pointers(None, None, 0)
    requires forall x :: !Occurs(t, f, x)
    ensures TrailSound(t, f)
  {
    assert IsJournal(t, f, []);
    forall j | IsJournal(t, f, j) ensures Tells(t, f, j) {
      if j != [] {
        SomeMember(j);
        assert false;
      }
    }
  }

  lemma SomeMember<T>(s: seq<T>)
    requires s != []
    ensures exists x :: x in s
  {
    assert s[0] in s;
  }

  // ---------- uploads ----------

  lemma UploadKeepsConsistent(t: Tables, f: nat, v: nat)
    requires Consistent(t) && f in t.functions && v !in t.versions
    ensures Consistent(Uploaded(t, f, v))
  {
    var t' := Uploaded(t, f, v);
    assert forall g :: SchedulesOf(t', g) == SchedulesOf(t, g) && VersionsOf(t, g) <= VersionsOf(t', g);
    assert v in VersionsOf(t', f);
    forall g | g in t'.functions ensures FunctionRefs(t'.functions[g], t') && FunctionOwns(t'.functions[g], g, t') {
      assert FunctionRefs(t.functions[g], t) && FunctionOwns(t.functions[g], g, t);
    }
    forall x | x in t'.executions ensures ExecutionRefs(t'.executions[x], t') && ExecutionOwns(t'.executions[x], t') {
      assert ExecutionRefs(t.executions[x], t) && ExecutionOwns(t.executions[x], t);
    }
    forall a | a in t'.activations
      ensures ActivationRefs(t'.activations[a], t') && ActivationOwns(t'.activations[a], t') {
      assert ActivationRefs(t.activations[a], t) && ActivationOwns(t.activations[a], t);
    }
  }

  lemma UploadGains(t: Tables, f: nat, v: nat)
    requires f in t.functions && v !in t.versions && Stamped(t)
    ensures Gains(t, Uploaded(t, f, v), f, Upload(v))
  {
  }

  lemma UploadIsSound(t: Tables, f: nat, v: nat)
    requires Sound(t) && f in t.functions && v !in t.versions && |VersionsOf(t, f)| < MAX_VERSIONS
    ensures Sound(Uploaded(t, f, v))
  {
    var t' := Uploaded(t, f, v);
    UploadKeepsConsistent(t, f, v);
    UploadKeepsFunction(t, f, v);
    UploadElsewhere(t, f, v);
    OthersStaySound(t, t', f);
    UploadKeepsStamps(t, f, v);
  }

  lemma UploadKeepsStamps(t: Tables, f: nat, v: nat)
    requires Stamped(t) && f in t.functions
    ensures Stamped(Uploaded(t, f, v))
  {
  }

  lemma UploadKeepsFunction(t: Tables, f: nat, v: nat)
    requires f in t.functions && v !in t.versions && |VersionsOf(t, f)| < MAX_VERSIONS
    requires Stamped(t) && FunctionSound(t, f) && FunctionOwns(t.functions[f], f, t)
    ensures FunctionSound(Uploaded(t, f, v), f)
  {
    UploadKeepsState(t, f, v);
    UploadGains(t, f, v);
    TrailGrows(t, Uploaded(t, f, v), f, Upload(v));
  }

  lemma UploadElsewhere(t: Tables, f: nat, v: nat)
    requires f in t.functions && v !in t.versions
    ensures OnlyTouches(t, Uploaded(t, f, v), f)
  {
  }

  // ---------- activations ----------

  lemma PointersKeepConsistent(t: Tables, f: nat, r: FunctionRow, a: nat, audit: ActivationRow)
    requires Consistent(t) && f in t.functions && a !in t.activations && audit.fid == f
    requires FunctionOwns(r, f, t) && ActivationOwns(audit, t)
    ensures Consistent(WithPointers(t, f, r, a, audit))
  {
    var t' := WithPointers(t, f, r, a, audit);
    assert forall g :: SchedulesOf(t', g) == SchedulesOf(t, g) && VersionsOf(t', g) == VersionsOf(t, g);
    forall g | g in t'.functions ensures FunctionRefs(t'.functions[g], t') && FunctionOwns(t'.functions[g], g, t') {
      assert FunctionRefs(t.functions[g], t) && FunctionOwns(t.functions[g], g, t);
    }
    forall x | x in t'.executions ensures ExecutionRefs(t'.executions[x], t') && ExecutionOwns(t'.executions[x], t') {
      assert ExecutionRefs(t.executions[x], t) && ExecutionOwns(t.executions[x], t);
    }
    forall b | b in t'.activations
      ensures ActivationRefs(t'.activations[b], t') && ActivationOwns(t'.activations[b], t') {
      if b != a {
        assert ActivationRefs(t.activations[b], t) && ActivationOwns(t.activations[b], t);
      }
    }
  }

  lemma PointersGain(t: Tables, f: nat, r: FunctionRow, a: nat, audit: ActivationRow)
    requires f in t.functions && a !in t.activations && Stamped(t)
    requires audit.fid == f && audit.created == t.clock
    ensures Gains(t, WithPointers(t, f, r, a, audit), f, Audit(a))
  {
  }

  lemma PointersAreSound(t: Tables, f: nat, r: FunctionRow, a: nat, audit: ActivationRow)
    requires Sound(t) && f in t.functions && a !in t.activations
    requires audit.fid == f && audit.created == t.clock
    requires Explains(audit, PointersOf(t.functions[f]), PointersOf(r))
    requires FunctionOwns(r, f, t) && ActivationOwns(audit, t) && PointersSound(r, VersionsOf(t, f))
    requires PointersOf(r) == After(WithPointers(t, f, r, a, audit), PointersOf(t.functions[f]), Audit(a))
    ensures Sound(WithPointers(t, f, r, a, audit))
  {
    var t' := WithPointers(t, f, r, a, audit);
    PointersKeepConsistent(t, f, r, a, audit);
    PointersKeepState(t, f, r, a, audit);
    PointersGain(t, f, r, a, audit);
    TrailGrows(t, t', f, Audit(a));
    PointersElsewhere(t, f, r, a, audit);
    OthersStaySound(t, t', f);
  }

  lemma PointersElsewhere(t: Tables, f: nat, r: FunctionRow, a: nat, audit: ActivationRow)
    requires f in t.functions && a !in t.activations && audit.fid == f
    ensures OnlyTouches(t, WithPointers(t, f, r, a, audit), f)
  {
  }

  lemma ActivateIsSound(t: Tables, f: nat, user: nat, v: nat, a: nat)
    requires Sound(t) && a !in t.activations && ActivateOutcome(t, f, user, v) == Done
    ensures Sound(Activated(t, f, user, v, a))
  {
    var r := t.functions[f];
    assert FunctionOwns(r, f, t) && FunctionSound(t, f);
    PointersAreSound(t, f, r.(active := Some(v), canary := None, percent := 0), a,
                     ActivationRow(f, Some(user), Activate, r.active, Some(v), None, 0, t.clock));
  }

  lemma CanaryIsSound(t: Tables, f: nat, user: nat, canary: Option<nat>, percent: int, a: nat)
    requires Sound(t) && a !in t.activations && CanaryOutcome(t, f, user, canary, percent) == Done
    ensures Sound(CanarySet(t, f, user, canary, percent, a))
  {
    var t' := CanarySet(t, f, user, canary, percent, a);
    assert FunctionOwns(t.functions[f], f, t) && FunctionSound(t, f);
    CanaryIsExplained(t, f, user, canary, percent, a);
    PointersAreSound(t, f, t'.functions[f], a, t'.activations[a]);
  }

  /** The audit row of a canary update says what the update did. */
  lemma CanaryIsExplained(t: Tables, f: nat, user: nat, canary: Option<nat>, percent: int, a: nat)
    requires f in t.functions && FunctionOwns(t.functions[f], f, t) && PointersSound(t.functions[f], VersionsOf(t, f))
    requires CanaryOutcome(t, f, user, canary, percent) == Done
    ensures var t' := CanarySet(t, f, user, canary, percent, a);
      var r, audit := t'.functions[f], t'.activations[a];
      t' == WithPointers(t, f, r, a, audit)
      && audit.fid == f && audit.created == t.clock && Explains(audit, PointersOf(t.functions[f]), PointersOf(r))
      && FunctionOwns(r, f, t) && ActivationOwns(audit, t) && PointersSound(r, VersionsOf(t, f))
      && PointersOf(r) == After(t', PointersOf(t.functions[f]), Audit(a))
  {
  }

  // ---------- deletion ----------

  lemma PruningIsSound(t: Tables, f: nat, user: nat)
    requires Sound(t) && f in t.functions
    ensures Sound(Pruned(t, f, user))
  {
    var t' := Pruned(t, f, user);
    PruningKeepsConsistent(t, f, user);
    PruningElsewhere(t, f, user);
    OthersStaySound(t, t', f);
  }

  lemma PruningElsewhere(t: Tables, f: nat, user: nat)
    ensures OnlyTouches(t, Pruned(t, f, user), f)
  {
  }

  // ---------- runs ----------

  const EMPTY := Tables(map[], map[], map[], map[], map[], 0)

  lemma StepIsSound(t: Tables, op: Op)
    requires Sound(t) && Enabled(t, op)
    ensures Sound(Apply(t, op))
  {
    match op
    case CreateFunction(f, user) => NewFunctionIsSound(t, f, user);
    case UploadVersion(f, user, checks, v) =>
      if UploadOutcome(t, f, user, checks) == Done { UploadIsSound(t, f, v); }
    case ActivateVersion(f, user, v, a) =>
      if ActivateOutcome(t, f, user, v) == Done { ActivateIsSound(t, f, user, v, a); }
    case UpdateCanary(f, user, canary, percent, a) =>
      if CanaryOutcome(t, f, user, canary, percent) == Done { CanaryIsSound(t, f, user, canary, percent, a); }
    case DeleteFunction(f, user) =>
      if OwnedBy(t, f, user) && !Busy(t, f) { PruningIsSound(t, f, user); }
    case CreateSchedule(_, _, _) => ScheduleStepIsSound(t, op);
    case DeleteSchedule(_, _) => ScheduleStepIsSound(t, op);
    case _ => ExecutionStepIsSound(t, op);
  }

  lemma ScheduleStepIsSound(t: Tables, op: Op)
    requires Sound(t) && Enabled(t, op) && (op.CreateSchedule? || op.DeleteSchedule?)
    ensures Sound(Apply(t, op))
  {
    match op
    case CreateSchedule(f, user, s) =>
      if OwnedBy(t, f, user) {
        SchedulesKeepConsistent(t, t.schedules[s := ScheduleRow(f, user)]);
        QuietIsSound(t, Apply(t, op));
      }
    case DeleteSchedule(s, user) =>
      ScheduleDeleteKeepsConsistent(t, {s});
      QuietIsSound(t, DeleteSchedules(t, {s}));
  }

  lemma InsertIsSound(t: Tables, e: nat, r: ExecutionRow)
    requires Sound(t) && ExecutionRefs(r, t) && ExecutionOwns(r, t)
    ensures Sound(Inserted(t, e, r))
  {
    InsertKeepsConsistent(t, e, r);
    QuietIsSound(t, Inserted(t, e, r));
  }

  lemma ExecutionStepIsSound(t: Tables, op: Op)
    requires Sound(t) && Enabled(t, op) && (op.Trigger? || op.FireSchedule? || op.RunEphemeral? || op.Progress?)
    ensures Sound(Apply(t, op))
  {
    var t' := Apply(t, op);
    if t' != t {
      var e := op.e;
      if op.Progress? {
        assert ExecutionRefs(t.executions[e], t) && ExecutionOwns(t.executions[e], t);
      }
      InsertIsSound(t, e, t'.executions[e]);
    }
  }

  ghost predicate StepAt(run: seq<Tables>, ops: seq<Op>, i: nat)
    requires i < |ops| < |run|
  {
    Enabled(run[i], ops[i]) && run[i + 1] == Apply(run[i], ops[i])
  }

  ghost predicate Trace(run: seq<Tables>, ops: seq<Op>)
  {
    |run| == |ops| + 1 && forall i: nat | i < |ops| :: StepAt(run, ops, i)
  }

  lemma EmptyIsSound()
    ensures Sound(EMPTY)
  {
  }

  /** In every state of every run: foreign keys and ownership hold, canary and active are as promised, version numbers
      are 1..n within the limit, and the audit trail explains the pointers. */
  lemma {:induction false} RunsAreSound(run: seq<Tables>, ops: seq<Op>, i: nat)
    requires Trace(run, ops) && run[0] == EMPTY && i < |run|
    ensures Sound(run[i])
  {
    if i == 0 {
      EmptyIsSound();
    } else {
      RunsAreSound(run, ops, i - 1);
      assert StepAt(run, ops, i - 1);
      StepIsSound(run[i - 1], ops[i - 1]);
    }
  }

  /** No operation loses an execution row. */
  lemma {:induction false} ExecutionsStay(run: seq<Tables>, ops: seq<Op>, i: nat, k: nat)
    requires Trace(run, ops) && i <= k < |run|
    ensures run[i].executions.Keys <= run[k].executions.Keys
    decreases k - i
  {
    if i < k {
      assert StepAt(run, ops, i);
      StepKeepsExecutions(run[i], ops[i]);
      ExecutionsStay(run, ops, i + 1, k);
    }
  }

  lemma StepKeepsExecutions(t: Tables, op: Op)
    ensures t.executions.Keys <= Apply(t, op).executions.Keys
  {
  }

  // ---------- what becomes of an execution's status, and of a function's routing ----------

  /** Only Progress changes a status: deleting a function, in particular, does not. */
  lemma StatusStep(t: Tables, op: Op, e: nat)
    requires Enabled(t, op) && e in t.executions && !(op.Progress? && op.e == e)
    ensures e in Apply(t, op).executions && Apply(t, op).executions[e].status == t.executions[e].status
  {
  }

  lemma {:induction false} StatusStays(run: seq<Tables>, ops: seq<Op>, i: nat, k: nat, e: nat)
    requires Trace(run, ops) && i <= k < |run| && e in run[i].executions
    requires forall j | i <= j < k :: !(ops[j].Progress? && ops[j].e == e)
    ensures e in run[k].executions && run[k].executions[e].status == run[i].executions[e].status
    decreases k
  {
    if i < k {
      StatusStays(run, ops, i, k - 1, e);
      assert StepAt(run, ops, k - 1);
      StatusStep(run[k - 1], ops[k - 1], e);
    }
  }

  predicate Repoints(op: Op, f: nat)
  {
    match op
    case CreateFunction(g, _) => g == f
    case UploadVersion(g, _, _, _) => g == f
    case ActivateVersion(g, _, _, _) => g == f
    case UpdateCanary(g, _, _, _, _) => g == f
    case DeleteFunction(g, _) => g == f
    case _ => false
  }

  lemma PointersStep(t: Tables, op: Op, f: nat)
    requires Enabled(t, op) && f in t.functions && !Repoints(op, f)
    ensures var t' := Apply(t, op);
      f in t'.functions && t'.functions[f] == t.functions[f]
      && (forall v :: v in t'.versions && t'.versions[v].fid == f <==> v in t.versions && t.versions[v].fid == f)
      && forall v | v in t.versions && t.versions[v].fid == f :: t'.versions[v] == t.versions[v]
  {
  }

  lemma SameRoutes(t: Tables, t': Tables, f: nat, explicit: Option<nat>, draw: nat)
    requires f in t.functions && f in t'.functions && t'.functions[f] == t.functions[f]
    requires forall v :: v in t'.versions && t'.versions[v].fid == f <==> v in t.versions && t.versions[v].fid == f
    requires forall v | v in t.versions && t.versions[v].fid == f :: t'.versions[v] == t.versions[v]
    ensures Choose(t', f, explicit, draw) == Choose(t, f, explicit, draw)
  {
  }

  /** A draw leads to the same version until the function's own pointers are changed. */
  lemma {:induction false} RoutesStay(run: seq<Tables>, ops: seq<Op>, i: nat, k: nat, f: nat, draw: nat)
    requires Trace(run, ops) && i <= k < |run| && f in run[i].functions
    requires forall j | i <= j < k :: !Repoints(ops[j], f)
    ensures f in run[k].functions && Choose(run[k], f, None, draw) == Choose(run[i], f, None, draw)
    decreases k
  {
    if i < k {
      RoutesStay(run, ops, i, k - 1, f, draw);
      assert StepAt(run, ops, k - 1);
      PointersStep(run[k - 1], ops[k - 1], f);
      SameRoutes(run[k - 1], run[k], f, None, draw);
    }
  }

  /** Once a version is activated, every execution triggered without naming one runs it, until the function is uploaded
      to, activated, canaried or deleted again. */
  lemma ActivatedVersionRuns(run: seq<Tables>, ops: seq<Op>, i: nat, k: nat, f: nat, user: nat, v: nat, a: nat,
                             caller: nat, draw: nat, e: nat)
    requires Trace(run, ops) && i < k < |ops|
    requires ops[i] == ActivateVersion(f, user, v, a) && ActivateOutcome(run[i], f, user, v) == Done
    requires forall j | i < j < k :: !Repoints(ops[j], f)
    requires ops[k] == Trigger(f, caller, None, draw, e) && OwnedBy(run[k], f, caller)
    ensures e in run[k + 1].executions && run[k + 1].executions[e].fid == Some(f)
      && run[k + 1].executions[e].version == Some(v) && run[k + 1].executions[e].status == Queued
  {
    assert StepAt(run, ops, i) && StepAt(run, ops, k);
    ActivationRoutes(run[i], f, user, v, a, draw);
    RoutesStay(run, ops, i + 1, k, f, draw);
  }

  // ---------- what the other operations write ----------

  lemma FunctionAndScheduleWrites(t: Tables, op: Op)
    requires Enabled(t, op) && (op.CreateFunction? || op.CreateSchedule?)
    ensures var t' := Apply(t, op);
      t'.versions == t.versions && t'.executions == t.executions && t'.activations == t.activations
      && t'.clock == t.clock
      && t'.functions ==
         (if op.CreateFunction? then t.functions[op.f := FunctionRow(op.user, None, None, 0)] else t.functions)
      && t'.schedules == if op.CreateSchedule? && op.f in t.functions && t.functions[op.f].owner == op.user
         then t.schedules[op.s := ScheduleRow(op.f, op.user)] else t.schedules
  {
  }

  /** Deleting a schedule: its executions stay, without it. */
  lemma ScheduleDeleteWrites(t: Tables, s: nat, user: nat)
    ensures var t' := Apply(t, DeleteSchedule(s, user));
      var mine := s in t.schedules && t.schedules[s].owner == user;
      t'.functions == t.functions && t'.versions == t.versions && t'.activations == t.activations && t'.clock == t.clock
      && t'.schedules == (if mine then t.schedules - {s} else t.schedules)
      && t'.executions.Keys == t.executions.Keys
      && forall e | e in t.executions ::
           t'.executions[e] ==
             if mine && t.executions[e].schedule == Some(s) then t.executions[e].(schedule := None) else t.executions[e]
  {
  }

  /** An execution's own progress changes its status and nothing else. */
  lemma ProgressWrites(t: Tables, e: nat, status: Status)
    ensures var t' := Apply(t, Progress(e, status));
      t' == t.(executions := t'.executions) && t'.executions.Keys == t.executions.Keys
      && (forall x | x in t.executions && x != e :: t'.executions[x] == t.executions[x])
      && (e in t.executions ==>
            var r, r' := t.executions[e], t'.executions[e];
            r'.status == status && r'.fid == r.fid && r'.version == r.version && r'.schedule == r.schedule
            && r'.triggeredBy == r.triggeredBy)
  {
  }

  /** An execution is created QUEUED, for the function, version, schedule and user it is for, exactly if a version is
      found. */
  lemma ExecutionWrites(t: Tables, op: Op)
    requires Enabled(t, op) && (op.Trigger? || op.FireSchedule? || op.RunEphemeral?)
    ensures var t' := Apply(t, op);
      t' == t.(executions := t'.executions)
      && (forall e | e in t.executions && e != op.e :: e in t'.executions && t'.executions[e] == t.executions[e])
      && t'.executions.Keys <= t.executions.Keys + {op.e}
      && (op.Trigger? ==>
            if op.f in t.functions && t.functions[op.f].owner == op.user && Choose(t, op.f, op.explicit, op.draw).Some?
            then op.e in t'.executions && t'.executions[op.e] ==
              ExecutionRow(Some(op.f), Choose(t, op.f, op.explicit, op.draw), None, Some(op.user), Queued)
            else t' == t)
      && (op.FireSchedule? ==>
            if op.s in t.schedules && t.schedules[op.s].fid in t.functions
               && Choose(t, t.schedules[op.s].fid, None, op.draw).Some?
            then
              var f := t.schedules[op.s].fid;
              op.e in t'.executions
              && t'.executions[op.e] == ExecutionRow(Some(f), Choose(t, f, None, op.draw), Some(op.s), None, Queued)
            else t' == t)
      && (op.RunEphemeral? ==>
            op.e in t'.executions && t'.executions[op.e] == ExecutionRow(None, None, None, Some(op.user), Queued))
  {
  }
}

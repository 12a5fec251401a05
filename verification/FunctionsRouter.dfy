/** The request handlers that change functions and versions (api/routers/functions.py). */
module FunctionsRouter {
  import opened Base
  import opened Lifecycle
  import opened Tables
  import opened FunctionDeletion
  import opened Versions
  import opened Routing
  import opened Archives
  import CodeValidator

  /** The tables as the current transaction sees them, and the object store (keyed by version). */
  class Session {
    var functions: map<nat, FunctionRow>
    var versions: map<nat, VersionRow>
    var schedules: map<nat, ScheduleRow>
    var executions: map<nat, ExecutionRow>
    var activations: map<nat, ActivationRow>
    var clock: nat
    var artifacts: map<nat, CodeValidator.Upload>

    function Values(): Tables
      reads this
    {
      Tables(functions, versions, schedules, executions, activations, clock)
    }

    method Rollback(t: Tables)
      modifies this`functions, this`versions, this`schedules, this`executions, this`activations, this`clock
      ensures Values() == t
    {
      functions, versions, schedules := t.functions, t.versions, t.schedules;
      executions, activations, clock := t.executions, t.activations, t.clock;
    }

    method MaxVersionNumber(f: nat) returns (m: nat)
      ensures m == MaxNumber(Values(), VersionsOf(Values(), f))
    {
      var own := VersionsOf(Values(), f);
      var todo := own;
      m := 0;
      while todo != {}
        invariant todo <= own
        invariant IsMaxNumber(Values(), own - todo, m)
      {
        var v :| v in todo;
        var number := versions[v].number;
        assert own - (todo - {v}) == (own - todo) + {v};
        if number > m {
          m := number;
        } else if own - todo == {} {
          assert number == m;
        }
        todo := todo - {v};
      }
      assert own - {} == own;
      OneMaximum(Values(), own, m, MaxNumber(Values(), own));
    }

    // ---------- SQL statements ----------

    method UpdateExecutionsOf(f: nat, user: nat)
      modifies this`executions
      ensures Values() == DetachExecutions(old(Values()), f, user)
    {
      executions := map e | e in executions :: DetachedFrom(executions[e], f, user);
    }

    method UpdateExecutionsAt(ids: set<nat>)
      modifies this`executions
      ensures Values() == ClearVersions(old(Values()), ids)
    {
      executions := map e | e in executions :: executions[e].(version := Unless(executions[e].version, ids));
    }

    method DeleteSchedulesOf(f: nat)
      modifies this`schedules, this`executions
      ensures Values() == DeleteSchedules(old(Values()), SchedulesOf(old(Values()), f))
    {
      var gone := SchedulesOf(Values(), f);
      schedules := schedules - gone;
      executions := map e | e in executions :: executions[e].(schedule := Unless(executions[e].schedule, gone));
    }

    method DeleteActivationsOf(f: nat)
      modifies this`activations
      ensures Values() == DeleteActivations(old(Values()), ActivationsOf(old(Values()), f))
    {
      activations := activations - ActivationsOf(Values(), f);
    }

    /** False is an IntegrityError. */
    method DeleteVersionsOf(f: nat) returns (ok: bool)
      modifies this`versions, this`executions, this`activations
      ensures ok <==> DeleteVersions(old(Values()), VersionsOf(old(Values()), f)).Some?
      ensures Values() ==
        if ok then DeleteVersions(old(Values()), VersionsOf(old(Values()), f)).value else old(Values())
    {
      var gone := VersionsOf(Values(), f);
      ok := !exists g | g in functions :: PointsInto(functions[g], gone);
      if ok {
        executions := map e | e in executions :: executions[e].(version := Unless(executions[e].version, gone));
        versions := versions - gone;
        activations := map a | a in activations :: Forgetting(activations[a], gone);
      }
    }

    method DeleteFunctionAt(f: nat) returns (ok: bool)
      modifies this`functions, this`versions, this`schedules, this`executions, this`activations
      ensures ok <==> DeleteFunctionRow(old(Values()), f).Some?
      ensures ok ==> Values() == DeleteFunctionRow(old(Values()), f).value
    {
      functions := functions - {f};
      executions := map e | e in executions :: executions[e].(fid := Unless(executions[e].fid, {f}));
      var row := Values();
      DeleteSchedulesOf(f);
      assert ActivationsOf(Values(), f) == ActivationsOf(row, f);
      DeleteActivationsOf(f);
      assert VersionsOf(Values(), f) == VersionsOf(row, f);
      ok := DeleteVersionsOf(f);
    }
  }

  lemma OneMaximum(t: Tables, vs: set<nat>, m: nat, n: nat)
    requires vs <= t.versions.Keys && IsMaxNumber(t, vs, m) && IsMaxNumber(t, vs, n)
    ensures m == n
  {
  }

  class Handlers {
    const db: Session
    const policy: CodeValidator.Policy

    constructor (db: Session, policy: CodeValidator.Policy)
      ensures this.db == db && this.policy == policy
    {
      this.db, this.policy := db, policy;
    }

    /** create_version; v is the uuid drawn for it, `form` whether the form parameters are valid, `put` what
        becomes of storing the archive, `commits` whether the session's commit takes effect once the handler is done. */
    method CreateVersion(f: nat, user: nat, form: bool, archive: CodeValidator.Upload, size: int, put: Fate, v: nat,
                         commits: bool)
      returns (r: Response)
      requires CodeValidator.Readable(archive) && "__import__" in policy.builtins
      modifies db
      ensures r == UploadOutcome(old(db.Values()), f, user, ChecksOf(policy, form, archive, size, put.Replied?))
      ensures db.Values() == if r == Done && commits then Uploaded(old(db.Values()), f, v) else old(db.Values())
      ensures db.artifacts == if Puts(policy, old(db.Values()), f, user, form, archive, size) && !put.Refused?
        then old(db.artifacts)[v := archive] else old(db.artifacts)
      ensures var own := f in old(db.functions) && old(db.functions)[f].owner == user;
        var accepted := form && size <= 10 * 1024 * 1024 && CodeValidator.Accepts(policy, archive);
        var count := |VersionsOf(old(db.Values()), f)|;
        && (r == NotFound <==> !own)
        && (r == TooLarge <==> own && form && size > 10 * 1024 * 1024)
        && (r == Unprocessable <==> own && form && size <= 10 * 1024 * 1024 && !CodeValidator.Accepts(policy, archive))
        && (r == TooMany <==> own && accepted && count >= 50)
        && (r == Done <==> own && accepted && count < 50 && put == Replied)
      ensures r == Done && commits ==>
        f in db.functions && db.functions[f].active == Some(v) && v in db.versions && db.versions[v].fid == f
    {
      if f !in db.functions || db.functions[f].owner != user {
        return NotFound;
      }
      if !form {
        return ServerError;
      }
      if size > MAX_ARCHIVE {
        return TooLarge;
      }
      var validation := CodeValidator.ValidateArchive(policy, archive);
      if !validation.isValid {
        return Unprocessable;
      }
      var count := |VersionsOf(db.Values(), f)|;
      if count >= MAX_VERSIONS {
        return TooMany;
      }
      if !put.Replied? {
        db.artifacts := if put.ReplyLost? then db.artifacts[v := archive] else db.artifacts;
        return ServerError;
      }
      var saved := db.Values();
      StoreVersion(f, archive, v);
      if !commits {
        db.Rollback(saved);
      }
      return Done;
    }

    /** The number is assigned, the archive stored, the version row inserted, and only then the pointer moved. */
    method StoreVersion(f: nat, archive: CodeValidator.Upload, v: nat)
      requires f in db.functions
      modifies db
      ensures db.Values() == Uploaded(old(db.Values()), f, v) && db.artifacts == old(db.artifacts)[v := archive]
    {
      var maxVersion := db.MaxVersionNumber(f);
      db.artifacts := db.artifacts[v := archive];
      db.versions := db.versions[v := VersionRow(f, maxVersion + 1, true, db.clock)];
      db.clock := db.clock + 1;
      db.functions := db.functions[f := db.functions[f].(active := Some(v))];
    }

    /** _record_activation. */
    method RecordActivation(f: nat, user: nat, action: Action, previous: Option<nat>, activated: Option<nat>,
                            canary: Option<nat>, percent: int, a: nat)
      modifies db`activations, db`clock
      ensures db.activations == old(db.activations)[a :=
        ActivationRow(f, Some(user), action, previous, activated, canary, percent, old(db.clock))]
      ensures db.clock == old(db.clock) + 1
    {
      var row := ActivationRow(f, Some(user), action, previous, activated, canary, percent, db.clock);
      db.activations := db.activations[a := row];
      db.clock := db.clock + 1;
    }

    method ActivateVersion(f: nat, user: nat, v: nat, a: nat) returns (r: Response)
      modifies db`functions, db`activations, db`clock
      ensures r == ActivateOutcome(old(db.Values()), f, user, v)
      ensures db.Values() == if r == Done then Activated(old(db.Values()), f, user, v, a) else old(db.Values())
      ensures r == Done <==>
        f in old(db.functions) && old(db.functions)[f].owner == user
        && v in old(db.versions) && old(db.versions)[v].fid == f && old(db.versions)[v].enabled
      ensures r == Done ==>
        f in db.functions && a in db.activations
        && db.functions[f].active == Some(v) && db.functions[f].canary == None && db.functions[f].percent == 0
        && db.activations[a].activated == Some(v) && db.activations[a].previous == old(db.functions)[f].active
      ensures r == Done ==> forall draw: nat :: Choose(db.Values(), f, None, draw) == Some(v)
    {
      if f !in db.functions || db.functions[f].owner != user {
        return NotFound;
      }
      if v !in db.versions || db.versions[v].fid != f || !db.versions[v].enabled {
        return NotFound;
      }
      var previous := db.functions[f].active;
      db.functions := db.functions[f := db.functions[f].(active := Some(v))];
      db.functions := db.functions[f := db.functions[f].(canary := None)];
      db.functions := db.functions[f := db.functions[f].(percent := 0)];
      RecordActivation(f, user, Activate, previous, Some(v), None, 0, a);
      return Done;
    }

    method UpdateCanary(f: nat, user: nat, canary: Option<nat>, percent: int, a: nat) returns (r: Response)
      modifies db`functions, db`activations, db`clock
      ensures r == CanaryOutcome(old(db.Values()), f, user, canary, percent)
      ensures db.Values() ==
        if r == Done then CanarySet(old(db.Values()), f, user, canary, percent, a) else old(db.Values())
      ensures r == Done ==>
        f in old(db.functions) && f in db.functions && a in db.activations
        && db.activations[a].previous == old(db.functions)[f].active
        && var before, after := old(db.functions)[f], db.functions[f];
           if percent == 0 || canary == None
           then after.active == before.active && after.canary == None && after.percent == 0
           else if percent == 100 then after.active == canary && after.canary == None && after.percent == 0
           else after.active == before.active && after.canary == canary && after.percent == percent
      ensures r == Done && canary.Some? && percent > 0 ==>
        f in db.functions && |DrawsTo(db.Values(), f, canary.value)| == percent
    {
      if CanaryOutcome(db.Values(), f, user, canary, percent) == Done && canary.Some? && percent > 0 {
        CanaryRoutes(db.Values(), f, user, canary.value, percent, a);
      }
      if percent < 0 || percent > 100 {
        return Unprocessable;
      }
      if f !in db.functions || db.functions[f].owner != user {
        return NotFound;
      }
      var previous := db.functions[f].active;
      if percent == 0 || canary == None {
        db.functions := db.functions[f := db.functions[f].(canary := None, percent := 0)];
        RecordActivation(f, user, CanaryClear, previous, None, None, 0, a);
        return Done;
      }
      var id := canary.value;
      if id !in db.versions || db.versions[id].fid != f || !db.versions[id].enabled {
        return NotFound;
      }
      if canary == db.functions[f].active && percent < 100 {
        return Unprocessable;
      }
      if percent == 100 {
        db.functions := db.functions[f := db.functions[f].(active := canary)];
        db.functions := db.functions[f := db.functions[f].(canary := None, percent := 0)];
        RecordActivation(f, user, Promote, previous, canary, None, 0, a);
      } else {
        db.functions := db.functions[f := db.functions[f].(canary := canary, percent := percent)];
        RecordActivation(f, user, CanaryUpdate, previous, db.functions[f].active, canary, percent, a);
      }
      return Done;
    }

    /** delete_function, and the commit or rollback of its session. Starting with every archive in its place, it ends
        that way exactly if it is harmless. */
    method DeleteFunction(d: Deletion) returns (r: Response)
      requires Consistent(db.Values()) && Lists(db.Values(), d)
      modifies db
      ensures r == DeleteOutcome(old(db.Values()), d)
      ensures db.Values() == if r == Done && d.commits then Pruned(old(db.Values()), d.f, d.user) else old(db.Values())
      ensures db.artifacts == if r == NotFound || r == Conflict then old(db.artifacts)
        else old(db.artifacts) - Elements(UpTo(d.listed, d.fates))
      ensures Vetted(policy, old(db.Values()), old(db.artifacts)) ==>
        (Vetted(policy, db.Values(), db.artifacts) <==> Harmless(old(db.Values()), d))
      ensures db.executions.Keys == old(db.executions).Keys && forall e | e in db.executions ::
        var before, after := old(db.executions)[e], db.executions[e];
        if r == Done && d.commits && before.fid == Some(d.f)
        then after == ExecutionRow(None, None, None, Some(d.user), before.status)
        else after == before
    {
      PrunedExecutions(db.Values(), d.f, d.user);
      var f, user := d.f, d.user;
      var saved := db.Values();
      VettedAfterDeletion(policy, saved, db.artifacts, d);
      if f !in db.functions || db.functions[f].owner != user {
        return NotFound;
      }
      if exists e | e in db.executions :: db.executions[e].fid == Some(f) && Active(db.executions[e].status) {
        return Conflict;
      }
      RunStatements(f, user, VersionsOf(db.Values(), f));
      var removed := RemoveArchives(d.listed, d.fates);
      if !removed || !d.commits {
        db.Rollback(saved);
      }
      return if removed then Done else BadGateway;
    }

    /** One archive after the other; false is an exception. */
    method RemoveArchives(listed: seq<nat>, fates: seq<Fate>) returns (ok: bool)
      requires |fates| == |listed|
      modifies db`artifacts
      ensures db.artifacts == old(db.artifacts) - Elements(UpTo(listed, fates))
      ensures ok <==> AllReplied(fates)
      ensures forall v | v in old(db.artifacts) ::
        v in db.artifacts <==> !exists i: nat :: Goes(fates, i) && listed[i] == v
      ensures forall v | v in db.artifacts :: v in old(db.artifacts) && db.artifacts[v] == old(db.artifacts)[v]
    {
      UpToIs(listed, fates);
      assert old(db.artifacts) - Elements(listed[..0]) == db.artifacts;
      for i := 0 to |listed|
        invariant db.artifacts == old(db.artifacts) - Elements(listed[..i])
        invariant forall k | 0 <= k < i :: fates[k].Replied?
      {
        if !fates[i].Replied? {
          StopsAt(listed, fates, i);
          if fates[i].ReplyLost? {
            RemoveOne(listed, i, old(db.artifacts));
          }
          return false;
        }
        RemoveOne(listed, i, old(db.artifacts));
      }
      StopsAt(listed, fates, |listed|);
      return true;
    }

    method RemoveOne(listed: seq<nat>, i: nat, ghost before: Store)
      requires i < |listed| && db.artifacts == before - Elements(listed[..i])
      modifies db`artifacts
      ensures db.artifacts == before - Elements(listed[..i + 1])
    {
      assert listed[..i + 1] == listed[..i] + [listed[i]];
      assert Elements(listed[..i + 1]) == Elements(listed[..i]) + {listed[i]};
      db.artifacts := db.artifacts - {listed[i]};
    }

    /** The ordered update and delete statements; none is refused. */
    method RunStatements(f: nat, user: nat, ids: set<nat>)
      requires Consistent(db.Values()) && f in db.functions && ids == VersionsOf(db.Values(), f)
      modifies db`functions, db`versions, db`schedules, db`executions, db`activations
      ensures db.Values() == Pruned(old(db.Values()), f, user)
    {
      ghost var t := db.Values();
      db.UpdateExecutionsOf(f, user);
      if ids != {} {
        db.UpdateExecutionsAt(ids);
      }
      assert db.Values() == Detached(t, f, user);
      db.functions := db.functions[f := db.functions[f].(active := None, canary := None, percent := 0)];
      assert db.Values() == Unpointed(t, f, user);
      db.DeleteSchedulesOf(f);
      assert db.Values() == Unscheduled(t, f, user);
      db.DeleteActivationsOf(f);
      assert db.Values() == Unaudited(t, f, user);
      DeletionPrunes(t, f, user);
      var versionsGone := db.DeleteVersionsOf(f);
      assert db.Values() == Unversioned(t, f, user).value;
      var functionGone := db.DeleteFunctionAt(f);
      assert versionsGone && functionGone;
    }
  }
}

/** How long a finished row stays as it is (worker/worker.py:167-220, api/routers/executions.py:117-123). */
module TerminalRows {
  import opened Base
  import opened Lifecycle
  import opened WorkerTransactions
  import opened Pipeline

  ghost predicate Finished(s: State, id: nat)
  {
    id in s.rows && Terminal(s.rows[id].status)
  }

  /** A worker's report on the execution, or the handler of its failed enqueue. */
  ghost predicate Rewrites(s: State, step: Step, id: nat)
  {
    match step
    case Report(w, _) => LiveOn(s, w, id)
    case GiveUp(x, _) => x == id
    case _ => false
  }

  /** What these two leave of a finished row: a report takes every result column but keeps the status, a failed enqueue
      takes status, error and failure kind. */
  ghost function Rewritten(s: State, step: Step, id: nat): Row
    requires Enabled(s, step) && Rewrites(s, step, id) && id in s.rows
  {
    var r := s.rows[id];
    match step
    case Report(w, elapsedMs) =>
      var o := ProcOf(s, w).outcome;
      Row(r.status, r.timeout, r.startedAt, Some(s.now), Some(DurationOf(o, elapsedMs)), o.result, o.error,
          FailureKindOf(o), r.workerId, o.k8sJob)
    case GiveUp(_, error) =>
      Row(Failed, r.timeout, r.startedAt, r.completedAt, r.durationMs, r.result, Some(error), Some("queue"),
          r.workerId, r.k8sJob)
  }

  /** Every other step leaves every column alone. */
  lemma FinishedStep(s: State, step: Step, id: nat)
    requires Enabled(s, step) && Finished(s, id)
    ensures Finished(Apply(s, step), id)
    ensures Apply(s, step).rows[id] == if Rewrites(s, step, id) then Rewritten(s, step, id) else s.rows[id]
  {
  }

  // ---------- over runs ----------

  lemma {:induction false} StaysFinished(run: seq<State>, steps: seq<Step>, i: nat, k: nat, id: nat)
    requires Trace(run, steps) && i <= k < |run| && Finished(run[i], id)
    ensures Finished(run[k], id)
    ensures (forall j | i <= j < k :: !Rewrites(run[j], steps[j], id)) ==> run[k].rows[id] == run[i].rows[id]
    decreases k
  {
    if i < k {
      StaysFinished(run, steps, i, k - 1, id);
      assert StepAt(run, steps, k - 1);
      FinishedStep(run[k - 1], steps[k - 1], id);
    }
  }

  /** In any run a finished row is what its last rewriting left, or what it was if there was none. */
  lemma FinishedRowIsLastRewrite(run: seq<State>, steps: seq<Step>, i: nat, k: nat, id: nat)
    requires Trace(run, steps) && i <= k < |run| && Finished(run[i], id)
    ensures Finished(run[k], id)
    ensures (forall j | i <= j < k :: !Rewrites(run[j], steps[j], id)) ==> run[k].rows[id] == run[i].rows[id]
    ensures forall j | i <= j < k && Rewrites(run[j], steps[j], id)
              && (forall l | j < l < k :: !Rewrites(run[l], steps[l], id)) ::
      Enabled(run[j], steps[j]) && id in run[j].rows && run[k].rows[id] == Rewritten(run[j], steps[j], id)
  {
    StaysFinished(run, steps, i, k, id);
    forall j | i <= j < k && Rewrites(run[j], steps[j], id)
      && (forall l | j < l < k :: !Rewrites(run[l], steps[l], id))
      ensures Enabled(run[j], steps[j]) && id in run[j].rows && run[k].rows[id] == Rewritten(run[j], steps[j], id)
    {
      StaysFinished(run, steps, i, j, id);
      assert StepAt(run, steps, j);
      FinishedStep(run[j], steps[j], id);
      StaysFinished(run, steps, j + 1, k, id);
    }
  }

  // ---------- whatever happens next ----------

  /** The steps lead from s to s'. */
  ghost predicate Leads(s: State, steps: seq<Step>, s': State)
    decreases |steps|
  {
    if steps == [] then s' == s else Enabled(s, steps[0]) && Leads(Apply(s, steps[0]), steps[1..], s')
  }

  /** The row stays as it is in every continuation. */
  ghost predicate Frozen(s: State, id: nat)
    requires id in s.rows
  {
    forall steps, s' | Leads(s, steps, s') :: id in s'.rows && s'.rows[id] == s.rows[id]
  }

  /** No worker is busy with the execution, and its enqueuer is through. */
  ghost predicate Unattended(s: State, id: nat)
  {
    (forall w: nat :: !LiveOn(s, w, id)) && (id in s.producers ==> s.producers[id].Done?)
  }

  lemma UnattendedStep(s: State, step: Step, id: nat)
    requires Enabled(s, step) && Finished(s, id) && Unattended(s, id)
    ensures Finished(Apply(s, step), id) && Unattended(Apply(s, step), id)
    ensures Apply(s, step).rows[id] == s.rows[id]
  {
    FinishedStep(s, step, id);
    var s' := Apply(s, step);
    forall w: nat ensures !LiveOn(s', w, id) {
      assert !LiveOn(s, w, id);
    }
  }

  lemma {:induction false} UnattendedStays(s: State, steps: seq<Step>, s': State, id: nat)
    requires Leads(s, steps, s') && Finished(s, id) && Unattended(s, id)
    ensures id in s'.rows && s'.rows[id] == s.rows[id]
    decreases |steps|
  {
    if steps != [] {
      UnattendedStep(s, steps[0], id);
      UnattendedStays(Apply(s, steps[0]), steps[1..], s', id);
    }
  }

  lemma Before(s: State, step: Step, steps: seq<Step>, s': State)
    requires Enabled(s, step) && Leads(Apply(s, step), steps, s')
    ensures Leads(s, [step] + steps, s')
  {
    assert ([step] + steps)[1..] == steps;
  }

  /** A worker about to report can do so now or a second later; one of the two completion times is another than the
      row's. */
  lemma ReturnedSpoils(s: State, w: nat, id: nat) returns (steps: seq<Step>, s': State)
    requires Finished(s, id) && LiveOn(s, w, id) && ProcOf(s, w).Returned?
    ensures Leads(s, steps, s') && id in s'.rows && s'.rows[id] != s.rows[id]
  {
    var wait: nat := if s.rows[id].completedAt == Some(s.now) then 1 else 0;
    var s1 := Apply(s, Elapse(wait));
    FinishedStep(s, Elapse(wait), id);
    s' := Apply(s1, Report(w, 0));
    FinishedStep(s1, Report(w, 0), id);
    Before(s1, Report(w, 0), [], s');
    Before(s, Elapse(wait), [Report(w, 0)], s');
    steps := [Elapse(wait), Report(w, 0)];
    assert steps == [Elapse(wait)] + [Report(w, 0)];
  }

  const NOTHING := Outcome(true, false, None, None, None, None, [])

  /** A worker busy with it in any way can still report. */
  lemma BusyWorkerSpoils(s: State, w: nat, id: nat) returns (steps: seq<Step>, s': State)
    requires Finished(s, id) && LiveOn(s, w, id)
    ensures Leads(s, steps, s') && id in s'.rows && s'.rows[id] != s.rows[id]
    decreases if ProcOf(s, w).Holding? then 2 else if ProcOf(s, w).Sandboxed? then 1 else 0
  {
    if ProcOf(s, w).Returned? {
      steps, s' := ReturnedSpoils(s, w, id);
    } else {
      var step := if ProcOf(s, w).Holding? then Invoke(w) else Return(w, NOTHING);
      var rest;
      FinishedStep(s, step, id);
      rest, s' := BusyWorkerSpoils(Apply(s, step), w, id);
      Before(s, step, rest, s');
      steps := [step] + rest;
    }
  }

  /** An enqueuer not through can still fail. */
  lemma {:induction false} EnqueuerSpoils(s: State, id: nat) returns (steps: seq<Step>, s': State)
    requires Finished(s, id) && id in s.producers && !s.producers[id].Done?
    requires s.producers[id].Pushing? ==> s.producers[id].left > 0
    ensures Leads(s, steps, s') && id in s'.rows && s'.rows[id] != s.rows[id]
    decreases if s.producers[id].Pushing? then s.producers[id].left else 0
  {
    if s.producers[id].Failing? {
      var step := GiveUp(id, if s.rows[id].error == Some("") then "down" else "");
      s' := Apply(s, step);
      steps := [step];
      FinishedStep(s, step, id);
      Before(s, step, [], s');
    } else {
      var step, rest := PushJob(id, 0, Refused), [];
      FinishedStep(s, step, id);
      rest, s' := EnqueuerSpoils(Apply(s, step), id);
      Before(s, step, rest, s');
      steps := [step] + rest;
    }
  }

  ghost predicate PushesLeft(s: State)
  {
    forall id | id in s.producers && s.producers[id].Pushing? :: s.producers[id].left > 0
  }

  lemma {:induction false} PushesAreLeft(run: seq<State>, steps: seq<Step>, i: nat)
    requires Trace(run, steps) && i < |run|
    ensures PushesLeft(run[i])
  {
    if i > 0 {
      PushesAreLeft(run, steps, i - 1);
      assert StepAt(run, steps, i - 1);
    }
  }

  /** A finished row is frozen exactly when no worker is busy with it any more and its enqueuer is through. */
  lemma FrozenIff(run: seq<State>, steps: seq<Step>, i: nat, id: nat)
    requires Trace(run, steps) && i < |run| && Finished(run[i], id)
    ensures Frozen(run[i], id) <==> Unattended(run[i], id)
  {
    var s := run[i];
    if Unattended(s, id) {
      forall more, s' | Leads(s, more, s') ensures id in s'.rows && s'.rows[id] == s.rows[id] {
        UnattendedStays(s, more, s', id);
      }
    } else if w: nat :| LiveOn(s, w, id) {
      var more, s' := BusyWorkerSpoils(s, w, id);
    } else {
      PushesAreLeft(run, steps, i);
      var more, s' := EnqueuerSpoils(s, id);
    }
  }
}

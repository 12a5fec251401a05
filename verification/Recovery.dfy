/** Stale recovery against the clock: which rows a sweep can fail (worker/worker.py). */
module StaleRecovery {
  import opened Base
  import opened Lifecycle
  import opened WorkerTransactions
  import opened Pipeline

  const GRACE := 60
  const WAIT_MARGIN := 30

  /** Seconds a worker has spent on a job outside the sandbox's own time. */
  function Overhead(p: Proc, now: int): int
    requires Live(p)
  {
    match p
    case Holding(_, claimAt, _) => now - claimAt
    case Sandboxed(_, claimAt, _, invokeAt) => invokeAt - claimAt
    case Returned(_, claimAt, _, invokeAt, endAt, _) => invokeAt - claimAt + now - endAt
  }

  /** The sandbox call is cut off after timeout + 30 seconds, and starting, cleaning up and writing the result take
      less than timeout + 30 seconds together. */
  ghost predicate OnTime(p: Proc, now: int)
    requires Live(p)
  {
    && Overhead(p, now) < p.timeout + WAIT_MARGIN
    && (p.Sandboxed? ==> now <= p.invokeAt + p.timeout + WAIT_MARGIN)
    && (p.Returned? ==> p.endAt <= p.invokeAt + p.timeout + WAIT_MARGIN)
  }

  /** What a worker remembers of its job agrees with the row. */
  ghost predicate Remembers(s: State, p: Proc)
    requires Live(p)
  {
    && p.id in s.rows && s.rows[p.id].timeout == p.timeout
    && (s.rows[p.id].status == Running ==> s.rows[p.id].startedAt == Some(p.claimAt))
  }

  lemma StepRemembers(s: State, step: Step, w: nat)
    requires Enabled(s, step) && RunsOnce(s)
    requires Live(ProcOf(Apply(s, step), w))
    requires Live(ProcOf(s, w)) ==> Remembers(s, ProcOf(s, w))
    ensures Remembers(Apply(s, step), ProcOf(Apply(s, step), w))
  {
    if Live(ProcOf(s, w)) {
      assert LiveOn(s, w, ProcOf(s, w).id);
    }
  }

  lemma {:induction false} WorkersRemember(run: seq<State>, steps: seq<Step>, i: nat, w: nat)
    requires Trace(run, steps) && i < |run|
    ensures Live(ProcOf(run[i], w)) ==> Remembers(run[i], ProcOf(run[i], w))
  {
    if i > 0 && Live(ProcOf(run[i], w)) {
      WorkersRemember(run, steps, i - 1, w);
      SandboxAtMostOnce(run, steps, i - 1);
      assert StepAt(run, steps, i - 1);
      StepRemembers(run[i - 1], steps[i - 1], w);
    }
  }

  /** The deadline arithmetic: a worker on time is ahead of 2 * max(1, timeout) + grace. */
  lemma OnTimeIsNotStale(p: Proc, now: int, grace: int)
    requires Live(p) && OnTime(p, now) && grace >= GRACE
    ensures now < p.claimAt + StaleAfter(p.timeout, grace)
  {
  }

  /** A sweep takes the row from a live worker exactly when it comes 2 * max(1, timeout) + grace seconds or more after
      the claim. */
  lemma SweepTakesRowIff(s: State, w: nat, grace: int)
    requires Live(ProcOf(s, w)) && Remembers(s, ProcOf(s, w))
    requires s.rows[ProcOf(s, w).id].status == Running
    ensures var p := ProcOf(s, w);
      Apply(s, Sweep(grace)).rows[p.id].status == Failed <==>
        s.now >= p.claimAt + 2 * (if p.timeout < 1 then 1 else p.timeout) + grace
  {
  }

  /** A sweep never touches the row of a worker that is on time, whatever the other workers do. */
  lemma SweepFailsOnlyOrphans(run: seq<State>, steps: seq<Step>, k: nat, w: nat, grace: int)
    requires Trace(run, steps) && k < |steps| && steps[k] == Sweep(grace) && grace >= GRACE
    requires Live(ProcOf(run[k], w)) && OnTime(ProcOf(run[k], w), run[k].now)
    ensures var id := ProcOf(run[k], w).id;
      id in run[k].rows && id in run[k + 1].rows && run[k + 1].rows[id] == run[k].rows[id]
  {
    assert StepAt(run, steps, k);
    WorkersRemember(run, steps, k, w);
    OnTimeIsNotStale(ProcOf(run[k], w), run[k].now, grace);
  }

  // ---------- what takes a row from its worker ----------

  /** A cancellation, the handler of a failed enqueue, or a sweep past the deadline of w's claim. */
  ghost predicate TakesRow(s: State, step: Step, w: nat, id: nat)
    requires LiveOn(s, w, id)
  {
    match step
    case Cancel(x) => x == id
    case GiveUp(x, _) => x == id
    case Sweep(grace) => s.now >= ProcOf(s, w).claimAt + StaleAfter(ProcOf(s, w).timeout, grace)
    case _ => false
  }

  /** Whose the row still is, or who took it. */
  ghost predicate HeldOrTaken(rows: Rows, id: nat)
  {
    id in rows && rows[id].status in {Running, Cancelled, Failed}
  }

  lemma StepTakesRowIff(s: State, step: Step, w: nat, id: nat)
    requires Enabled(s, step) && RunsOnce(s) && LiveOn(s, w, id) && LiveOn(Apply(s, step), w, id)
    requires Remembers(s, ProcOf(s, w)) && HeldOrTaken(s.rows, id)
    ensures HeldOrTaken(Apply(s, step).rows, id)
    ensures Apply(s, step).rows[id].status == Running <==>
      s.rows[id].status == Running && !TakesRow(s, step, w, id)
  {
    if step.Report? && ProcOf(s, step.w).id == id {
      assert LiveOn(s, step.w, id);
    }
    if step.Sweep? && s.rows[id].status == Running {
      SweepTakesRowIff(s, w, step.grace);
    }
  }

  /** From the claim on, the row is its worker's exactly as long as nothing of the three has happened: in every
      interleaving, with any other workers, prompt or not. */
  lemma {:induction false} ClaimHoldsIff(run: seq<State>, steps: seq<Step>, i: nat, k: nat, w: nat, id: nat)
    requires Trace(run, steps) && i < k < |run| && steps[i] == Claim(w)
    requires forall j | i < j <= k :: LiveOn(run[j], w, id)
    ensures HeldOrTaken(run[k].rows, id)
    ensures run[k].rows[id].status == Running <==> forall j | i < j < k :: !TakesRow(run[j], steps[j], w, id)
    decreases k
  {
    assert StepAt(run, steps, k - 1);
    assert LiveOn(run[k], w, id);
    if i + 1 < k {
      ClaimHoldsIff(run, steps, i, k - 1, w, id);
      SandboxAtMostOnce(run, steps, k - 1);
      WorkersRemember(run, steps, k - 1, w);
      assert LiveOn(run[k - 1], w, id);
      StepTakesRowIff(run[k - 1], steps[k - 1], w, id);
    }
  }

  /** What becomes of a worker's outcome: it is the row's status after the report exactly if nothing took the row since
      the claim; otherwise the report leaves the status CANCELLED or FAILED as it finds it. */
  lemma ReportLandsUnlessTaken(run: seq<State>, steps: seq<Step>, i: nat, k: nat, w: nat, id: nat, elapsedMs: int)
    requires Trace(run, steps) && i < k < |steps|
    requires steps[i] == Claim(w) && steps[k] == Report(w, elapsedMs)
    requires forall j | i < j <= k :: LiveOn(run[j], w, id)
    ensures ProcOf(run[k], w).Returned? && id in run[k].rows && id in run[k + 1].rows
    ensures var before, after := run[k].rows[id].status, run[k + 1].rows[id].status;
      var o := ProcOf(run[k], w).outcome;
      if forall j | i < j < k :: !TakesRow(run[j], steps[j], w, id)
      then before == Running && (after == TimedOut <==> o.timedOut)
           && (after == Completed <==> o.success && !o.timedOut) && (after == Failed <==> !o.success && !o.timedOut)
      else before in {Cancelled, Failed} && after == before
  {
    assert StepAt(run, steps, k);
    assert LiveOn(run[k], w, id);
    ClaimHoldsIff(run, steps, i, k, w, id);
    ReportedColumns(run[k].rows[id], ProcOf(run[k], w).outcome, elapsedMs, run[k].now);
  }

  /** A worker on time at every sweep since its claim gets its outcome recorded, unless the job is cancelled or its
      enqueuer gives up: no sweep in any interleaving takes the row away, however slow other workers are. */
  lemma PromptReportLands(run: seq<State>, steps: seq<Step>, i: nat, k: nat, w: nat, id: nat, elapsedMs: int)
    requires Trace(run, steps) && i < k < |steps|
    requires steps[i] == Claim(w) && steps[k] == Report(w, elapsedMs)
    requires forall j | i < j <= k :: LiveOn(run[j], w, id)
    requires forall j | i < j < k :: steps[j] != Cancel(id) && !(steps[j].GiveUp? && steps[j].id == id)
    requires forall j | i < j < k && steps[j].Sweep? ::
      steps[j].grace >= GRACE && LiveOn(run[j], w, id) && OnTime(ProcOf(run[j], w), run[j].now)
    ensures ProcOf(run[k], w).Returned? && id in run[k + 1].rows
    ensures var o, after := ProcOf(run[k], w).outcome, run[k + 1].rows[id].status;
      (after == TimedOut <==> o.timedOut) && (after == Completed <==> o.success && !o.timedOut)
      && (after == Failed <==> !o.success && !o.timedOut)
  {
    forall j | i < j < k ensures LiveOn(run[j], w, id) && !TakesRow(run[j], steps[j], w, id) {
      assert LiveOn(run[j], w, id);
      if steps[j].Sweep? {
        OnTimeIsNotStale(ProcOf(run[j], w), run[j].now, steps[j].grace);
      }
    }
    ReportLandsUnlessTaken(run, steps, i, k, w, id, elapsedMs);
  }
}

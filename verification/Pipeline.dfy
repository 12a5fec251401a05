/**
 The whole job pipeline as one state machine: producers, Redis commands, workers' transactions, cancellation, stale
 recovery, deaths and the clock, in every interleaving. One step is one Redis command or one database transaction;
 rows change by the same functions the worker's transactions are proved to compute.
 */
module Pipeline {
  import opened Base
  import opened Lifecycle
  import opened JobQueue
  import opened WorkerTransactions
  import opened Handoff

  /** A request handler between its commit of the QUEUED row and its return. */
  datatype Producer = Pushing(body: nat, left: nat) | Failing | Done

  /** Where a worker stands with the job in its hand; `claimAt` is the row's started_at. */
  datatype Proc =
    | Resting
    | Holding(id: nat, claimAt: int, timeout: int)
    | Sandboxed(id: nat, claimAt: int, timeout: int, invokeAt: int)
    | Returned(id: nat, claimAt: int, timeout: int, invokeAt: int, endAt: int, outcome: Outcome)
    | Settled

  datatype State = State(
    q: QState,
    now: int,
    rows: Rows,
    producers: map<nat, Producer>,
    procs: map<nat, Proc>,
    invoked: seq<nat>,
    history: map<nat, seq<Status>>)

  datatype Step =
    | Create(id: nat, timeout: int, body: nat)
    | PushJob(id: nat, priority: int, fate: Fate)
    | GiveUp(id: nat, error: string)
    | ProducerDies(id: nat)
    | Queue(qs: QStep)
    | Claim(w: nat)
    | Invoke(w: nat)
    | Return(w: nat, outcome: Outcome)
    | Report(w: nat, elapsedMs: int)
    | Acknowledge(w: nat, qs: QStep)
    | Die(w: nat)
    | Cancel(id: nat)
    | Sweep(grace: int)
    | Elapse(seconds: nat)

  ghost function ProcOf(s: State, w: nat): Proc
  {
    if w in s.procs then s.procs[w] else Resting
  }

  ghost predicate Live(p: Proc)
  {
    p.Holding? || p.Sandboxed? || p.Returned?
  }

  ghost predicate Initial(s: State)
  {
    s == State(EMPTY, s.now, map[], map[], map[], [], map[])
  }

  ghost predicate Enabled(s: State, step: Step)
  {
    match step
    case Create(id, _, _) => id !in s.rows && id !in s.producers
    case PushJob(id, _, _) => id in s.producers && s.producers[id].Pushing? && s.producers[id].left > 0
    case GiveUp(id, _) => id in s.producers && s.producers[id].Failing? && id in s.rows
    case ProducerDies(id) => id in s.producers
    case Queue(qs) => !qs.Add? && !qs.Ack? && !qs.AckNothing? && !qs.Abandon? && QEnabled(s.q, qs)
    case Claim(w) => ProcOf(s, w).Resting? && HandOf(s.q, w).Delivered? && HandOf(s.q, w).m.Job?
    case Invoke(w) => ProcOf(s, w).Holding?
    case Return(w, _) => ProcOf(s, w).Sandboxed?
    case Report(w, _) => ProcOf(s, w).Returned?
    case Acknowledge(w, qs) =>
      ProcOf(s, w).Settled? && ((qs.Ack? && qs.w == w) || qs == AckNothing(w)) && QEnabled(s.q, qs)
    case Die(w) => true
    case Cancel(id) => id in s.rows
    case Sweep(_) => true
    case Elapse(_) => true
  }

  ghost function AfterAttempt(p: Producer, fate: Fate): Producer
    requires p.Pushing? && p.left > 0
  {
    if fate.Replied? then Done else if p.left == 1 then Failing else Pushing(p.body, p.left - 1)
  }

  /** Cancelling a row that cannot be cancelled is refused and changes nothing. */
  ghost function CancelledRow(r: Row): Row
  {
    if Cancelled in Allowed(r.status) then r.(status := Cancelled) else r
  }

  /** The handler of a failed enqueue assigns FAILED without looking at the status it overwrites. */
  ghost function GivenUpRow(r: Row, error: string): Row
  {
    r.(status := Failed, error := Some(error), failureKind := Some("queue"))
  }

  ghost function Effect(s: State, step: Step): State
    requires Enabled(s, step)
  {
    match step
    case Create(id, timeout, body) =>
      s.(rows := s.rows[id := NewRow(timeout)], producers := s.producers[id := Pushing(body, ATTEMPTS)])
    case PushJob(id, priority, fate) =>
      var p := s.producers[id];
      s.(q := if fate.Refused? then s.q else QApply(s.q, Add(Job(id, p.body), Score(s.now, priority))),
      producers := s.producers[id := AfterAttempt(p, fate)])
    case GiveUp(id, error) =>
      s.(rows := s.rows[id := GivenUpRow(s.rows[id], error)], producers := s.producers[id := Done])
    case ProducerDies(id) => s.(producers := s.producers[id := Done])
    case Queue(qs) => s.(q := QApply(s.q, qs))
    case Claim(w) =>
      var id := HandOf(s.q, w).m.id;
      s.(rows := Claimed(s.rows, id, w, s.now),
      procs := s.procs[w := if Claimable(s.rows, id) then Holding(id, s.now, s.rows[id].timeout) else Settled])
    case Invoke(w) =>
      var p := ProcOf(s, w);
      s.(procs := s.procs[w := Sandboxed(p.id, p.claimAt, p.timeout, s.now)], invoked := s.invoked + [p.id])
    case Return(w, o) =>
      var p := ProcOf(s, w);
      s.(procs := s.procs[w := Returned(p.id, p.claimAt, p.timeout, p.invokeAt, s.now, o)])
    case Report(w, elapsedMs) =>
      var p := ProcOf(s, w);
      s.(rows := Reported(s.rows, p.id, p.outcome, elapsedMs, s.now), procs := s.procs[w := Settled])
    case Acknowledge(w, qs) => s.(q := QApply(s.q, qs), procs := s.procs[w := Resting])
    case Die(w) => s.(q := QApply(s.q, Abandon(w)), procs := s.procs[w := Resting])
    case Cancel(id) => s.(rows := s.rows[id := CancelledRow(s.rows[id])])
    case Sweep(grace) => s.(rows := Swept(s.rows, s.now, grace))
    case Elapse(seconds) => s.(now := s.now + seconds)
  }

  /** The statuses each row has gone through, kept on the side. */
  ghost function Recorded(h: map<nat, seq<Status>>, rows: Rows, rows': Rows): map<nat, seq<Status>>
  {
    map id | id in rows' ::
      if id !in rows || id !in h then [rows'[id].status]
      else if rows'[id].status == rows[id].status then h[id]
      else h[id] + [rows'[id].status]
  }

  ghost function Apply(s: State, step: Step): State
    requires Enabled(s, step)
  {
    var t := Effect(s, step);
    t.(history := Recorded(s.history, s.rows, t.rows))
  }

  ghost predicate StepAt(run: seq<State>, steps: seq<Step>, i: nat)
    requires i < |steps| < |run|
  {
    Enabled(run[i], steps[i]) && run[i + 1] == Apply(run[i], steps[i])
  }

  /** A run: its states and the steps between them. */
  ghost predicate Trace(run: seq<State>, steps: seq<Step>)
  {
    && |run| == |steps| + 1
    && Initial(run[0])
    && forall i: nat | i < |steps| :: StepAt(run, steps, i)
  }

  // ---------- statuses ----------

  /** A failed enqueue's handler overwriting a row that had already finished some other way. */
  ghost predicate Clobbers(s: State, step: Step, id: nat)
  {
    step.GiveUp? && step.id == id && id in s.rows && s.rows[id].status in {Completed, TimedOut, Cancelled}
  }

  lemma RowStays(s: State, step: Step, id: nat)
    requires Enabled(s, step) && id in s.rows
    ensures id in Apply(s, step).rows
  {
  }

  /** One step's effect on one row's status: along the table, or a clobber, and nothing else. */
  lemma StatusStep(s: State, step: Step, id: nat)
    requires Enabled(s, step) && id in s.rows && s.rows[id].status != Pending
    ensures id in Apply(s, step).rows
    ensures var a, b := s.rows[id].status, Apply(s, step).rows[id].status;
      && (Clobbers(s, step, id) ==> b == Failed && b !in Allowed(a))
      && (!Clobbers(s, step, id) ==> b == a || b in Allowed(a))
      && (b == Queued ==> a == Queued) && b != Pending
  {
  }

  /** A row that has left QUEUED never comes back to it. */
  ghost predicate Started(rows: Rows, id: nat)
  {
    id in rows && rows[id].status != Pending && rows[id].status != Queued
  }

  lemma StartedForever(s: State, step: Step, id: nat)
    requires Enabled(s, step) && Started(s.rows, id)
    ensures Started(Apply(s, step).rows, id)
  {
  }

  // ---------- at most one sandbox run per execution ----------

  ghost predicate LiveOn(s: State, w: nat, id: nat)
  {
    Live(ProcOf(s, w)) && ProcOf(s, w).id == id
  }

  ghost predicate RunsOnce(s: State)
  {
    && NoDuplicates(s.invoked)
    && (forall id | id in s.invoked :: Started(s.rows, id))
    && (forall w, id | LiveOn(s, w, id) :: Started(s.rows, id))
    && (forall w, id | LiveOn(s, w, id) && ProcOf(s, w).Holding? :: id !in s.invoked)
    && (forall w, v, id | LiveOn(s, w, id) && LiveOn(s, v, id) :: w == v)
  }

  lemma InvokeRunsOnce(s: State, w: nat)
    requires RunsOnce(s) && Enabled(s, Invoke(w))
    ensures RunsOnce(Apply(s, Invoke(w)))
  {
    var s' := Apply(s, Invoke(w));
    assert LiveOn(s, w, ProcOf(s, w).id);
    assert forall v, id :: LiveOn(s', v, id) <==> LiveOn(s, v, id);
  }

  lemma ClaimRunsOnce(s: State, w: nat)
    requires RunsOnce(s) && Enabled(s, Claim(w))
    ensures RunsOnce(Apply(s, Claim(w)))
  {
    var s' := Apply(s, Claim(w));
    forall id | Started(s.rows, id) ensures Started(s'.rows, id) {
      StartedForever(s, Claim(w), id);
    }
    assert forall v, id | LiveOn(s', v, id) :: if v == w then Claimable(s.rows, id) else LiveOn(s, v, id);
  }

  lemma StepRunsOnce(s: State, step: Step)
    requires RunsOnce(s) && Enabled(s, step)
    ensures RunsOnce(Apply(s, step))
  {
    if step.Invoke? {
      InvokeRunsOnce(s, step.w);
    } else if step.Claim? {
      ClaimRunsOnce(s, step.w);
    } else {
      var s' := Apply(s, step);
      forall id | Started(s.rows, id) ensures Started(s'.rows, id) {
        StartedForever(s, step, id);
      }
      assert forall v, id | LiveOn(s', v, id) :: LiveOn(s, v, id);
    }
  }

  /** However often the queue delivers a job, and whatever crashes, cancels and sweeps happen in between, the sandbox
      is entered at most once for it. */
  lemma {:induction false} SandboxAtMostOnce(run: seq<State>, steps: seq<Step>, i: nat)
    requires Trace(run, steps) && i < |run|
    ensures RunsOnce(run[i])
  {
    if i > 0 {
      SandboxAtMostOnce(run, steps, i - 1);
      assert StepAt(run, steps, i - 1);
      StepRunsOnce(run[i - 1], steps[i - 1]);
    }
  }

  // ---------- conservation carries over ----------

  lemma StepKeepsBooks(s: State, step: Step)
    requires Conserved(s.q) && Enabled(s, step)
    ensures Conserved(Apply(s, step).q)
  {
    match step
    case PushJob(id, priority, fate) =>
      StepConserves(s.q, Add(Job(id, s.producers[id].body), Score(s.now, priority)));
    case Queue(qs) => StepConserves(s.q, qs);
    case Acknowledge(w, qs) => StepConserves(s.q, qs);
    case Die(w) => StepConserves(s.q, Abandon(w));
    case _ =>
  }

  lemma {:induction false} JobsConserved(run: seq<State>, steps: seq<Step>, i: nat)
    requires Trace(run, steps) && i < |run|
    ensures Conserved(run[i].q)
  {
    if i == 0 {
      assert LostTickets(EMPTY.tickets) == {};
    } else {
      JobsConserved(run, steps, i - 1);
      assert StepAt(run, steps, i - 1);
      StepKeepsBooks(run[i - 1], steps[i - 1]);
    }
  }

  // ---------- status histories ----------

  /** The history is a path through the table, possibly followed by one clobber. */
  ghost predicate AlmostPath(h: seq<Status>)
  {
    h != [] && h[0] == Queued &&
    (Path(h) || (|h| >= 2 && Path(h[..|h| - 1]) && Terminal(h[|h| - 2]) && h[|h| - 1] == Failed))
  }

  ghost predicate HistoryOf(s: State, id: nat)
  {
    && id in s.rows && id in s.history && id in s.producers
    && AlmostPath(s.history[id])
    && s.history[id][|s.history[id]| - 1] == s.rows[id].status
    && s.rows[id].status != Pending
    && (!s.producers[id].Done? ==> Path(s.history[id]))
  }

  lemma HistoryStep(s: State, step: Step, id: nat)
    requires Enabled(s, step) && HistoryOf(s, id)
    ensures HistoryOf(Apply(s, step), id)
    ensures Path(Apply(s, step).history[id]) <==> Path(s.history[id]) && !Clobbers(s, step, id)
  {
    var s' := Apply(s, step);
    var h, b := s.history[id], s'.rows[id].status;
    StatusStep(s, step, id);
    PathExtends(h, b);
    TransitionsClimb(s.rows[id].status, b);
    assert (h + [b])[..|h|] == h;
    if s'.history[id] != h {
      assert s'.history[id] == h + [b];
    }
  }

  lemma {:induction false} HistoryAt(run: seq<State>, steps: seq<Step>, i: nat, id: nat)
    requires Trace(run, steps) && i < |run| && id in run[i].rows
    ensures HistoryOf(run[i], id)
  {
    if i > 0 {
      assert StepAt(run, steps, i - 1);
      if id in run[i - 1].rows {
        HistoryAt(run, steps, i - 1, id);
        HistoryStep(run[i - 1], steps[i - 1], id);
      }
    }
  }

  lemma {:induction false} NotBornYet(run: seq<State>, steps: seq<Step>, i: nat, id: nat)
    requires Trace(run, steps) && i < |run| && id !in run[i].rows
    ensures forall k | 0 <= k <= i :: id !in run[k].rows
  {
    if i > 0 {
      assert StepAt(run, steps, i - 1);
      if id in run[i - 1].rows {
        RowStays(run[i - 1], steps[i - 1], id);
        assert false;
      }
      NotBornYet(run, steps, i - 1, id);
    }
  }

  /** No execution changes its status more than three times. */
  lemma AtMostThreeChanges(run: seq<State>, steps: seq<Step>, i: nat, id: nat)
    requires Trace(run, steps) && i < |run| && id in run[i].rows
    ensures id in run[i].history && |run[i].history[id]| - 1 <= 3
  {
    HistoryAt(run, steps, i, id);
    var h := run[i].history[id];
    PathIsShort(if Path(h) then h else h[..|h| - 1]);
  }

  /** Over any run, an execution's statuses follow the transition table exactly when no failed enqueue ever overwrote
      it after it had completed, timed out or been cancelled. */
  lemma {:induction false} HistoryIsAPathIffNotClobbered(run: seq<State>, steps: seq<Step>, i: nat, id: nat)
    requires Trace(run, steps) && i < |run| && id in run[i].rows
    ensures id in run[i].history
    ensures Path(run[i].history[id]) <==> forall k | 0 <= k < i :: !Clobbers(run[k], steps[k], id)
  {
    HistoryAt(run, steps, i, id);
    if i > 0 {
      assert StepAt(run, steps, i - 1);
      if id in run[i - 1].rows {
        HistoryIsAPathIffNotClobbered(run, steps, i - 1, id);
        HistoryAt(run, steps, i - 1, id);
        HistoryStep(run[i - 1], steps[i - 1], id);
      } else {
        NotBornYet(run, steps, i - 1, id);
        assert run[i].history[id] == [run[i].rows[id].status];
      }
    }
  }

  /** The first terminal writer among worker, cancel and recovery wins: its status stays, and the one thing that can
      still replace it is a failed enqueue's handler, which leaves FAILED. */
  lemma {:induction false} FirstTerminalStatusStays(run: seq<State>, steps: seq<Step>, i: nat, k: nat, id: nat)
    requires Trace(run, steps) && i <= k < |run|
    requires id in run[i].rows && Terminal(run[i].rows[id].status)
    ensures id in run[k].rows
    ensures run[k].rows[id].status == run[i].rows[id].status <==>
      forall j | i <= j < k :: !Clobbers(run[j], steps[j], id)
    ensures run[k].rows[id].status == run[i].rows[id].status || run[k].rows[id].status == Failed
    decreases k
  {
    if i < k {
      FirstTerminalStatusStays(run, steps, i, k - 1, id);
      assert StepAt(run, steps, k - 1);
      StatusStep(run[k - 1], steps[k - 1], id);
    }
  }

  /** Only the status is protected: a report on a RUNNING row gives it the status the outcome says, a report that
      finds it no longer RUNNING leaves the status alone, and both rewrite result, error, failure kind, duration and
      completion time. */
  lemma LateReportRewritesAllButStatus(s: State, w: nat, elapsedMs: int)
    requires RunsOnce(s) && Enabled(s, Report(w, elapsedMs)) && ProcOf(s, w).id in s.rows
    ensures var p := ProcOf(s, w);
      var r, r', o := s.rows[p.id], Apply(s, Report(w, elapsedMs)).rows[p.id], p.outcome;
      && (r.status == Running ==>
            (r'.status == TimedOut <==> o.timedOut)
            && (r'.status == Completed <==> o.success && !o.timedOut)
            && (r'.status == Failed <==> !o.success && !o.timedOut))
      && (r.status != Running ==> r'.status == r.status)
      && r'.result == o.result && r'.error == o.error && r'.completedAt == Some(s.now)
      && (r'.failureKind == None <==> o.success) && r'.durationMs.Some? && r'.k8sJob == o.k8sJob
      && r'.startedAt == r.startedAt && r'.workerId == r.workerId && r'.timeout == r.timeout
  {
    assert LiveOn(s, w, ProcOf(s, w).id);
    ReportedColumns(s.rows[ProcOf(s, w).id], ProcOf(s, w).outcome, elapsedMs, s.now);
  }

  // ---------- what each step writes ----------

  /** The rows each step writes, column by column; every other row stays as it is. */
  lemma CreateWrites(s: State, id: nat, timeout: int, body: nat)
    requires Enabled(s, Create(id, timeout, body))
    ensures var rows := Apply(s, Create(id, timeout, body)).rows;
      rows.Keys == s.rows.Keys + {id} && (forall x | x in s.rows :: rows[x] == s.rows[x])
      && rows[id] == Row(Queued, timeout, None, None, None, None, None, None, None, None)
  {
  }

  lemma GiveUpWrites(s: State, id: nat, error: string)
    requires Enabled(s, GiveUp(id, error))
    ensures var rows := Apply(s, GiveUp(id, error)).rows;
      rows.Keys == s.rows.Keys && (forall x | x in s.rows && x != id :: rows[x] == s.rows[x])
      && rows[id].status == Failed && rows[id].error == Some(error) && rows[id].failureKind == Some("queue")
      && rows[id].(status := s.rows[id].status, error := s.rows[id].error, failureKind := s.rows[id].failureKind)
         == s.rows[id]
  {
  }

  lemma CancelWrites(s: State, id: nat)
    requires Enabled(s, Cancel(id))
    ensures var rows := Apply(s, Cancel(id)).rows;
      rows.Keys == s.rows.Keys && (forall x | x in s.rows && x != id :: rows[x] == s.rows[x])
      && rows[id].status == (if s.rows[id].status in {Pending, Queued, Running} then Cancelled else s.rows[id].status)
      && rows[id].(status := s.rows[id].status) == s.rows[id]
  {
  }

  lemma ClaimWrites(s: State, w: nat)
    requires Enabled(s, Claim(w))
    ensures var rows, id := Apply(s, Claim(w)).rows, HandOf(s.q, w).m.id;
      rows.Keys == s.rows.Keys && (forall x | x in s.rows && x != id :: rows[x] == s.rows[x])
      && (id in s.rows ==>
            if s.rows[id].status == Queued
            then rows[id].status == Running && rows[id].startedAt == Some(s.now) && rows[id].workerId == Some(w)
                 && LiveOn(Apply(s, Claim(w)), w, id)
            else rows[id] == s.rows[id] && Apply(s, Claim(w)).procs[w].Settled?)
  {
  }

  lemma SweepWrites(s: State, grace: int, id: nat)
    requires id in s.rows
    ensures var r, rows := s.rows[id], Apply(s, Step.Sweep(grace)).rows;
      rows.Keys == s.rows.Keys
      && if r.status == Running && r.startedAt.Some?
            && s.now >= r.startedAt.value + 2 * (if r.timeout < 1 then 1 else r.timeout) + grace
         then rows[id].status == Failed && rows[id].completedAt == Some(s.now) && rows[id].failureKind == Some("infra")
         else rows[id] == r
  {
    SweptColumns(s.rows[id], s.now, grace);
  }

  lemma OthersWriteNothing(s: State, step: Step)
    requires Enabled(s, step)
    requires !step.Create? && !step.GiveUp? && !step.Cancel? && !step.Claim? && !step.Sweep? && !step.Report?
    ensures Apply(s, step).rows == s.rows
  {
  }

  /** The list of sandbox runs grows by one with every Invoke and otherwise not at all. */
  lemma InvokesAreRecorded(s: State, step: Step)
    requires Enabled(s, step)
    ensures Apply(s, step).invoked == s.invoked + if step.Invoke? then [ProcOf(s, step.w).id] else []
  {
  }

  /** A worker reports what the sandbox returned to it. */
  lemma ReturnIsKept(s: State, step: Step, w: nat)
    requires Enabled(s, step) && ProcOf(Apply(s, step), w).Returned?
    ensures var p' := ProcOf(Apply(s, step), w);
      if step.Return? && step.w == w
      then ProcOf(s, w).Sandboxed? && p'.outcome == step.outcome && p'.id == ProcOf(s, w).id && p'.endAt == s.now
      else ProcOf(s, w) == p'
  {
  }

  /** A row's history gains every new status, once. */
  lemma HistoryRecords(s: State, step: Step, id: nat)
    requires Enabled(s, step) && id in Apply(s, step).rows
    ensures id in Apply(s, step).history
    ensures var h', b := Apply(s, step).history[id], Apply(s, step).rows[id].status;
      if id !in s.rows || id !in s.history then h' == [b]
      else if b == s.rows[id].status then h' == s.history[id] else h' == s.history[id] + [b]
  {
  }

  /** A push that reaches Redis scores the job by the clock and its priority; a job is pushed at most three times before
      its enqueuer fails. */
  lemma PushWrites(s: State, id: nat, priority: int, fate: Fate)
    requires Enabled(s, PushJob(id, priority, fate))
    ensures var s', job := Apply(s, PushJob(id, priority, fate)), Job(id, s.producers[id].body);
      s'.rows == s.rows && s'.q.processing == s.q.processing
      && s'.q.queue == (if fate == Refused then s.q.queue else s.q.queue[job := s.now - 1_000_000 * priority])
      && s'.producers[id] == if fate == Replied then Done
         else if s.producers[id].left == 1 then Failing else Pushing(s.producers[id].body, s.producers[id].left - 1)
  {
  }
}

/** The execution row and its status table (shared/db/models.py). */
module Lifecycle {
  import opened Base

  datatype Status = Pending | Queued | Running | Completed | Failed | TimedOut | Cancelled

  function Allowed(s: Status): set<Status>
  {
    match s
    case Pending => {Queued, Cancelled}
    case Queued => {Running, Cancelled, Failed}
    case Running => {Completed, Failed, TimedOut, Cancelled}
    case Completed => {}
    case Failed => {}
    case TimedOut => {}
    case Cancelled => {}
  }

  predicate Terminal(s: Status)
  {
    s in {Completed, Failed, TimedOut, Cancelled}
  }

  /** Statuses of an execution that is not over, as the handlers list them. */
  predicate Active(s: Status)
  {
    s in {Pending, Queued, Running}
  }

  /** How far along its life a row is; every allowed transition moves strictly up. */
  function Rank(s: Status): nat
  {
    match s
    case Pending => 0
    case Queued => 1
    case Running => 2
    case _ => 3
  }

  datatype TransitionError = InvalidTransition(current: Status, next: Status, allowed: set<Status>)

  /** The table is acyclic, terminal rows have no way out, and only a PENDING row can become QUEUED. */
  lemma TransitionsClimb(a: Status, b: Status)
    ensures b in Allowed(a) ==> Rank(a) < Rank(b)
    ensures Terminal(a) <==> Allowed(a) == {}
    ensures Active(a) <==> !Terminal(a)
    ensures b in Allowed(a) && b == Queued ==> a == Pending
    ensures !Terminal(a) ==> Cancelled in Allowed(a)
  {
  }

  /** The table by target: from where each status is entered. */
  lemma EnteredFrom(a: Status, b: Status)
    ensures b in Allowed(a) <==>
      match b
      case Pending => false
      case Queued => a == Pending
      case Running => a == Queued
      case Completed => a == Running
      case TimedOut => a == Running
      case Failed => a == Queued || a == Running
      case Cancelled => a == Pending || a == Queued || a == Running
  {
  }

  /** Consecutive statuses follow the transition table. */
  ghost predicate Path(h: seq<Status>)
  {
    forall i | 0 <= i < |h| - 1 :: h[i + 1] in Allowed(h[i])
  }

  lemma PathExtends(h: seq<Status>, s: Status)
    requires h != []
    ensures Path(h + [s]) <==> Path(h) && s in Allowed(h[|h| - 1])
  {
    var g := h + [s];
    if Path(g) {
      assert g[|h|] in Allowed(g[|h| - 1]);
      forall i | 0 <= i < |h| - 1 ensures h[i + 1] in Allowed(h[i]) {
        assert g[i + 1] in Allowed(g[i]);
      }
    }
  }

  /** A status history that follows the table changes at most three times. */
  lemma {:induction false} PathIsShort(h: seq<Status>)
    requires h != [] && Path(h)
    ensures |h| - 1 <= Rank(h[|h| - 1]) - Rank(h[0]) <= 3
    decreases |h|
  {
    if |h| > 1 {
      var n := |h| - 1;
      PathIsShort(h[..n]);
      TransitionsClimb(h[n - 1], h[n]);
      assert h[n - 1 + 1] in Allowed(h[n - 1]);
    }
  }

  /** The stored columns of one execution. */
  datatype Row = Row(
    status: Status,
    timeout: int,
    startedAt: Option<int>,
    completedAt: Option<int>,
    durationMs: Option<int>,
    result: Option<nat>,
    error: Option<string>,
    failureKind: Option<string>,
    workerId: Option<nat>,
    k8sJob: Option<nat>)

  function NewRow(timeout: int): Row
  {
    Row(Queued, timeout, None, None, None, None, None, None, None, None)
  }

  /** A row loaded into a session: assigning its fields changes nothing until it is written back. */
  class Execution {
    var status: Status
    var timeout: int
    var startedAt: Option<int>
    var completedAt: Option<int>
    var durationMs: Option<int>
    var result: Option<nat>
    var error: Option<string>
    var failureKind: Option<string>
    var workerId: Option<nat>
    var k8sJob: Option<nat>

    function Values(): Row
      reads this
    {
      Row(status, timeout, startedAt, completedAt, durationMs, result, error, failureKind, workerId, k8sJob)
    }

    constructor (r: Row)
      ensures Values() == r
    {
      status, timeout, startedAt, completedAt := r.status, r.timeout, r.startedAt, r.completedAt;
      durationMs, result, error, failureKind := r.durationMs, r.result, r.error, r.failureKind;
      workerId, k8sJob := r.workerId, r.k8sJob;
    }

    method TransitionTo(next: Status) returns (r: Result<(), TransitionError>)
      modifies this`status
      ensures r.Ok? <==> next in Allowed(old(status))
      ensures r.Ok? ==> Values() == old(Values()).(status := next)
      ensures r.Err? ==> Values() == old(Values())
      ensures r.Err? ==> r.error == InvalidTransition(old(status), next, Allowed(old(status)))
    {
      var allowed := Allowed(status);
      if next !in allowed {
        return Err(InvalidTransition(status, next, allowed));
      }
      status := next;
      return Ok(());
    }
  }
}

/** The worker's two transactions around the sandbox, and stale recovery (worker/worker.py). */
module WorkerTransactions {
  import opened Base
  import opened Lifecycle

  datatype LogEntry = LogEntry(level: string, stream: string, message: Text)

  datatype LogRow = LogRow(execution: nat, sequence: int, entry: LogEntry)

  /** What the sandbox reports back. */
  datatype Outcome = Outcome(
    success: bool,
    timedOut: bool,
    result: Option<nat>,
    error: Option<string>,
    durationMs: Option<int>,
    k8sJob: Option<nat>,
    logs: seq<LogEntry>)

  type Rows = map<nat, Row>

  // ---------- first transaction ----------

  ghost predicate Claimable(rows: Rows, id: nat)
  {
    id in rows && rows[id].status == Queued
  }

  ghost function Claimed(rows: Rows, id: nat, worker: nat, now: int): Rows
  {
    if Claimable(rows, id)
    then rows[id := rows[id].(status := Running, startedAt := Some(now), workerId := Some(worker))]
    else rows
  }

  // ---------- second transaction ----------

  function OutcomeStatus(o: Outcome): Status
  {
    if o.timedOut then TimedOut else if o.success then Completed else Failed
  }

  /** An error text that blames the platform rather than the handler. */
  predicate BlamesPlatform(error: string)
  {
    Contains(error, "Sandbox error") || Contains(error, "Kubernetes API") || Contains(error, "worker timeout")
  }

  function FailureKindOf(o: Outcome): Option<string>
  {
    if o.success then None
    else if o.error.Some? && BlamesPlatform(o.error.value) then Some("infra")
    else Some("handler")
  }

  /** What the worker itself reports, for its own timeout and for any exception of the sandbox, counts as the platform's
      failure, whatever the exception says. */
  lemma WorkerErrorsAreInfra(exc: string, o: Outcome)
    requires !o.success
    requires o.error == Some("Execution timed out (worker timeout)") || o.error == Some("Sandbox error: " + exc)
    ensures FailureKindOf(o) == Some("infra")
  {
    if o.error == Some("Sandbox error: " + exc) {
      var text := "Sandbox error: " + exc;
      assert text[0..0 + |"Sandbox error"|] == "Sandbox error";
      assert OccursAt(text, "Sandbox error", 0);
    } else {
      var text := "Execution timed out (worker timeout)";
      assert text[21..21 + |"worker timeout"|] == "worker timeout";
      assert OccursAt(text, "worker timeout", 21);
    }
  }

  function DurationOf(o: Outcome, elapsedMs: int): int
  {
    if o.durationMs.Some? && o.durationMs.value != 0 then o.durationMs.value else elapsedMs
  }

  /** The status moves only along the table; every other column is rewritten whatever the status was. */
  ghost function ReportedRow(r: Row, o: Outcome, elapsedMs: int, now: int): Row
  {
    r.(status := if OutcomeStatus(o) in Allowed(r.status) then OutcomeStatus(o) else r.status,
    completedAt := Some(now),
    durationMs := Some(DurationOf(o, elapsedMs)),
    result := o.result,
    error := o.error,
    failureKind := FailureKindOf(o),
    k8sJob := o.k8sJob)
  }

  ghost function Reported(rows: Rows, id: nat, o: Outcome, elapsedMs: int, now: int): Rows
  {
    if id in rows then rows[id := ReportedRow(rows[id], o, elapsedMs, now)] else rows
  }

  /** What a report leaves, column by column, by what the outcome says. */
  lemma ReportedColumns(r: Row, o: Outcome, elapsedMs: int, now: int)
    ensures var r' := ReportedRow(r, o, elapsedMs, now);
      && (r.status == Running ==>
            (r'.status == TimedOut <==> o.timedOut)
            && (r'.status == Completed <==> o.success && !o.timedOut)
            && (r'.status == Failed <==> !o.success && !o.timedOut))
      && (r.status == Queued ==> r'.status == if !o.success && !o.timedOut then Failed else Queued)
      && (r.status != Running && r.status != Queued ==> r'.status == r.status)
      && (r'.failureKind == None <==> o.success)
      && (r'.failureKind == Some("infra") <==>
            !o.success && o.error.Some?
            && exists a, b :: o.error.value == a + "Sandbox error" + b || o.error.value == a + "Kubernetes API" + b
                           || o.error.value == a + "worker timeout" + b)
      && (r'.failureKind == None || r'.failureKind == Some("infra") || r'.failureKind == Some("handler"))
      && r'.durationMs == (if o.durationMs in {None, Some(0)} then Some(elapsedMs) else o.durationMs)
      && r'.completedAt == Some(now) && r'.result == o.result && r'.error == o.error && r'.k8sJob == o.k8sJob
      && r'.timeout == r.timeout && r'.startedAt == r.startedAt && r'.workerId == r.workerId
  {
    if o.error.Some? {
      ContainsIff(o.error.value, "Sandbox error");
      ContainsIff(o.error.value, "Kubernetes API");
      ContainsIff(o.error.value, "worker timeout");
    }
  }

  function NumberedLogs(id: nat, entries: seq<LogEntry>): seq<LogRow>
  {
    seq(|entries|, i requires 0 <= i < |entries| => LogRow(id, i, entries[i]))
  }

  // ---------- stale recovery ----------

  /** What a sweep leaves: a RUNNING row fails from twice its timeout (at least one second) plus the grace on. */
  lemma SweptColumns(r: Row, now: int, grace: int)
    ensures var r' := SweptRow(r, now, grace);
      if r.status == Running && r.startedAt.Some?
         && now >= r.startedAt.value + 2 * (if r.timeout < 1 then 1 else r.timeout) + grace then
        r'.status == Failed && r'.completedAt == Some(now) && r'.failureKind == Some("infra")
        && r'.error == Some("Worker did not report completion before stale recovery deadline")
        && r'.durationMs == Some(1000 * (now - r.startedAt.value))
        && r'.result == r.result && r'.timeout == r.timeout && r'.startedAt == r.startedAt
        && r'.workerId == r.workerId && r'.k8sJob == r.k8sJob
      else r' == r
  {
  }

  function StaleAfter(timeout: int, grace: int): int
  {
    Max(1, timeout) * 2 + grace
  }

  predicate Stale(r: Row, now: int, grace: int)
  {
    r.status == Running && r.startedAt.Some? && r.startedAt.value + StaleAfter(r.timeout, grace) <= now
  }

  const STALE_ERROR := "Worker did not report completion before stale recovery deadline"
  const STALE_LOG := LogEntry("ERROR", "system",
      FromAscii("Stale execution recovered: worker did not report completion"))

  ghost function SweptRow(r: Row, now: int, grace: int): Row
  {
    if Stale(r, now, grace)
    then r.(status := Failed, completedAt := Some(now), failureKind := Some("infra"),
      error := Some(STALE_ERROR), durationMs := Some((now - r.startedAt.value) * 1000))
    else r
  }

  ghost function Swept(rows: Rows, now: int, grace: int): Rows
  {
    map id | id in rows :: SweptRow(rows[id], now, grace)
  }

  ghost function PartlySwept(rows: Rows, done: seq<nat>, now: int, grace: int): Rows
  {
    map id | id in rows :: if id in done then SweptRow(rows[id], now, grace) else rows[id]
  }

  ghost function RecoveryLogs(order: seq<nat>): seq<LogRow>
  {
    seq(|order|, i requires 0 <= i < |order| => LogRow(order[i], 0, STALE_LOG))
  }

  /** The query's result: every RUNNING row with a start time, once, in some order. */
  ghost predicate ListsRunning(listing: seq<nat>, rows: Rows)
  {
    NoDuplicates(listing) &&
    forall id :: id in listing <==> id in rows && rows[id].status == Running && rows[id].startedAt.Some?
  }

  /** The stale ones among the listed rows, in the listed order. */
  function StaleAmong(listing: seq<nat>, rows: Rows, now: int, grace: int): (stale: seq<nat>)
    requires forall id | id in listing :: id in rows
    ensures forall id :: id in stale <==> id in listing && Stale(rows[id], now, grace)
  {
    if listing == [] then []
    else
      var last := listing[|listing| - 1];
      var before := StaleAmong(listing[..|listing| - 1], rows, now, grace);
      if Stale(rows[last], now, grace) then before + [last] else before
  }

  lemma OneMoreSwept(rows: Rows, done: seq<nat>, id: nat, now: int, grace: int)
    requires id in rows && id !in done && forall x | x in done :: x in rows
    ensures PartlySwept(rows, done + [id], now, grace) ==
      PartlySwept(rows, done, now, grace)[id := SweptRow(rows[id], now, grace)]
    ensures StaleAmong(done + [id], rows, now, grace) ==
      StaleAmong(done, rows, now, grace) + if Stale(rows[id], now, grace) then [id] else []
  {
    assert (done + [id])[..|done|] == done;
  }

  lemma OneMoreLog(stale: seq<nat>, id: nat)
    ensures RecoveryLogs(stale + [id]) == RecoveryLogs(stale) + RecoveryLogs([id])
  {
  }

  /** The two tables a worker touches. */
  class Database {
    var rows: Rows
    var logs: seq<LogRow>

    constructor ()
      ensures rows == map[] && logs == []
    {
      rows, logs := map[], [];
    }

    method Load(id: nat) returns (e: Execution?)
      ensures e == null <==> id !in rows
      ensures e != null ==> fresh(e) && e.Values() == rows[id]
    {
      if id in rows {
        e := new Execution(rows[id]);
      } else {
        e := null;
      }
    }
  }

  class Worker {
    const id: nat
    const db: Database

    constructor (id: nat, db: Database)
      ensures this.id == id && this.db == db
    {
      this.id, this.db := id, db;
    }

    /** First transaction: true when the sandbox is to be run. */
    method Claim(execution: nat, now: int) returns (run: bool)
      modifies db
      ensures run <==> Claimable(old(db.rows), execution)
      ensures db.rows == Claimed(old(db.rows), execution, id, now)
      ensures run <==> execution in old(db.rows) && old(db.rows)[execution].status == Queued
      ensures db.rows.Keys == old(db.rows).Keys && forall e | e in old(db.rows) && !(run && e == execution) ::
        db.rows[e] == old(db.rows)[e]
      ensures run ==> var r, r' := old(db.rows)[execution], db.rows[execution];
        r'.status == Running && r'.startedAt == Some(now) && r'.workerId == Some(id)
        && r' == r.(status := r'.status, startedAt := r'.startedAt, workerId := r'.workerId)
      ensures db.logs == old(db.logs)
    {
      var e := db.Load(execution);
      if e == null || e.status == Cancelled {
        return false;
      }
      var moved := e.TransitionTo(Running);
      if moved.Err? {
        return false;
      }
      e.startedAt := Some(now);
      e.workerId := Some(id);
      db.rows := db.rows[execution := e.Values()];
      return true;
    }

    method AppendLogs(execution: nat, entries: seq<LogEntry>)
      modifies db`logs
      ensures db.logs == old(db.logs) + NumberedLogs(execution, entries)
      ensures |db.logs| == |old(db.logs)| + |entries| && db.logs[..|old(db.logs)|] == old(db.logs)
      ensures forall k | 0 <= k < |entries| ::
        db.logs[|old(db.logs)| + k].execution == execution && db.logs[|old(db.logs)| + k].sequence == k
        && db.logs[|old(db.logs)| + k].entry == entries[k]
    {
      var sequence := 0;
      while sequence < |entries|
        invariant 0 <= sequence <= |entries|
        invariant db.logs == old(db.logs) + NumberedLogs(execution, entries)[..sequence]
      {
        db.logs := db.logs + [LogRow(execution, sequence, entries[sequence])];
        sequence := sequence + 1;
      }
    }

    static method ClassifyFailure(o: Outcome) returns (kind: Option<string>)
      ensures kind == FailureKindOf(o)
    {
      if o.success {
        kind := None;
      } else if o.error.Some? && BlamesPlatform(o.error.value) {
        kind := Some("infra");
      } else {
        kind := Some("handler");
      }
    }

    /** The row's columns, then its log rows. */
    method StoreReport(execution: nat, o: Outcome, elapsedMs: int, now: int)
      modifies db
      ensures db.rows == Reported(old(db.rows), execution, o, elapsedMs, now)
      ensures db.logs == old(db.logs) + if execution in old(db.rows) then NumberedLogs(execution, o.logs) else []
    {
      var e := db.Load(execution);
      if e == null {
        return;
      }
      var status := if o.success then Completed else Failed;
      if o.timedOut {
        status := TimedOut;
      }
      var _ := e.TransitionTo(status);
      e.completedAt := Some(now);
      e.durationMs := Some(DurationOf(o, elapsedMs));
      e.result := o.result;
      e.error := o.error;
      e.failureKind := ClassifyFailure(o);
      e.k8sJob := o.k8sJob;

      db.rows := db.rows[execution := e.Values()];
      AppendLogs(execution, o.logs);
    }

    /** Second transaction. */
    method Report(execution: nat, o: Outcome, elapsedMs: int, now: int)
      modifies db
      ensures db.rows == Reported(old(db.rows), execution, o, elapsedMs, now)
      ensures db.rows.Keys == old(db.rows).Keys && forall e | e in old(db.rows) && e != execution ::
        db.rows[e] == old(db.rows)[e]
      ensures execution in old(db.rows) ==> var r, r' := old(db.rows)[execution], db.rows[execution];
        && (r.status == Running ==>
              (r'.status == TimedOut <==> o.timedOut)
              && (r'.status == Completed <==> o.success && !o.timedOut)
              && (r'.status == Failed <==> !o.success && !o.timedOut))
        && (r.status == Queued ==> r'.status == if !o.success && !o.timedOut then Failed else Queued)
        && (r.status != Running && r.status != Queued ==> r'.status == r.status)
        && (r'.failureKind == None <==> o.success)
        && (r'.failureKind in {None, Some("infra"), Some("handler")})
        && r'.durationMs == (if o.durationMs in {None, Some(0)} then Some(elapsedMs) else o.durationMs)
        && r'.completedAt == Some(now) && r'.result == o.result && r'.error == o.error && r'.k8sJob == o.k8sJob
        && r'.timeout == r.timeout && r'.startedAt == r.startedAt && r'.workerId == r.workerId
      ensures db.logs == old(db.logs) + if execution in old(db.rows) then NumberedLogs(execution, o.logs) else []
    {
      if execution in db.rows {
        ReportedColumns(db.rows[execution], o, elapsedMs, now);
      }
      StoreReport(execution, o, elapsedMs, now);
    }

    /** The body of the recovery loop, for one row of the query's result. */
    method RecoverOne(execution: nat, now: int, grace: int) returns (swept: bool)
      requires execution in db.rows && db.rows[execution].startedAt.Some?
      requires db.rows[execution].status == Running
      modifies db
      ensures swept <==> Stale(old(db.rows)[execution], now, grace)
      ensures db.rows == old(db.rows)[execution := SweptRow(old(db.rows)[execution], now, grace)]
      ensures db.logs == old(db.logs) + if swept then RecoveryLogs([execution]) else []
    {
      var e := new Execution(db.rows[execution]);
      if e.startedAt.value > now - StaleAfter(e.timeout, grace) {
        return false;
      }
      var moved := e.TransitionTo(Failed);
      if moved.Err? {
        return false;
      }
      e.completedAt := Some(now);
      e.failureKind := Some("infra");
      e.error := Some(STALE_ERROR);
      e.durationMs := Some((now - e.startedAt.value) * 1000);
      db.rows := db.rows[execution := e.Values()];
      db.logs := db.logs + [LogRow(execution, 0, STALE_LOG)];
      return true;
    }

    /** The loop over the rows the query lists. */
    method RecoverListed(listing: seq<nat>, now: int, grace: int) returns (recovered: nat)
      requires ListsRunning(listing, db.rows)
      modifies db
      ensures db.rows == Swept(old(db.rows), now, grace)
      ensures db.logs == old(db.logs) + RecoveryLogs(StaleAmong(listing, old(db.rows), now, grace))
      ensures recovered == |StaleAmong(listing, old(db.rows), now, grace)|
    {
      ghost var rows0, logs0 := db.rows, db.logs;
      recovered := 0;
      for i := 0 to |listing|
        invariant db.rows == PartlySwept(rows0, listing[..i], now, grace)
        invariant db.logs == logs0 + RecoveryLogs(StaleAmong(listing[..i], rows0, now, grace))
        invariant recovered == |StaleAmong(listing[..i], rows0, now, grace)|
      {
        assert listing[..i + 1] == listing[..i] + [listing[i]] && listing[i] !in listing[..i];
        OneMoreSwept(rows0, listing[..i], listing[i], now, grace);
        OneMoreLog(StaleAmong(listing[..i], rows0, now, grace), listing[i]);
        var swept := RecoverOne(listing[i], now, grace);
        if swept {
          recovered := recovered + 1;
        }
      }
      assert listing[..|listing|] == listing;
    }

    /** One recovery transaction. */
    method RecoverStale(listing: seq<nat>, now: int, grace: int) returns (recovered: nat)
      requires ListsRunning(listing, db.rows)
      modifies db
      ensures db.rows == Swept(old(db.rows), now, grace)
      ensures db.logs == old(db.logs) + RecoveryLogs(StaleAmong(listing, old(db.rows), now, grace))
      ensures db.rows.Keys == old(db.rows).Keys
      ensures forall e | e in old(db.rows) ::
        var r, r' := old(db.rows)[e], db.rows[e];
        if r.status == Running && r.startedAt.Some?
           && now >= r.startedAt.value + 2 * (if r.timeout < 1 then 1 else r.timeout) + grace
        then r'.status == Failed && r'.completedAt == Some(now) && r'.failureKind == Some("infra")
             && r'.durationMs == Some(1000 * (now - r.startedAt.value)) && r'.result == r.result
        else r' == r
      ensures recovered == |Changed(old(db.rows), db.rows)|
      ensures |db.logs| == |old(db.logs)| + recovered && db.logs[..|old(db.logs)|] == old(db.logs)
      ensures forall e :: e in Changed(old(db.rows), db.rows) <==>
        exists k :: |old(db.logs)| <= k < |db.logs| && db.logs[k] == LogRow(e, 0, STALE_LOG)
    {
      SweepChanges(listing, db.rows, now, grace);
      SweepLogs(db.logs, StaleAmong(listing, db.rows, now, grace));
      recovered := RecoverListed(listing, now, grace);
    }
  }

  lemma {:induction false} StaleOnce(listing: seq<nat>, rows: Rows, now: int, grace: int)
    requires NoDuplicates(listing) && forall id | id in listing :: id in rows
    ensures NoDuplicates(StaleAmong(listing, rows, now, grace))
    decreases |listing|
  {
    if listing != [] {
      StaleOnce(listing[..|listing| - 1], rows, now, grace);
    }
  }

  function Changed(rows: Rows, rows': Rows): set<nat>
    requires rows.Keys == rows'.Keys
  {
    set id | id in rows && rows'[id] != rows[id]
  }

  /** The stale rows are those a sweep changes, each once. */
  lemma SweepChanges(listing: seq<nat>, rows: Rows, now: int, grace: int)
    requires ListsRunning(listing, rows)
    ensures var stale, rows' := StaleAmong(listing, rows, now, grace), Swept(rows, now, grace);
      (forall id :: id in stale <==> id in Changed(rows, rows')) && |stale| == |Changed(rows, rows')|
  {
    var stale, rows' := StaleAmong(listing, rows, now, grace), Swept(rows, now, grace);
    forall id ensures id in stale <==> id in Changed(rows, rows') {
      if id in rows {
        SweptColumns(rows[id], now, grace);
      }
    }
    StaleOnce(listing, rows, now, grace);
    ElementsSize(stale);
    assert Elements(stale) == Changed(rows, rows');
  }

  /** One log row for each. */
  lemma SweepLogs(logs: seq<LogRow>, stale: seq<nat>)
    ensures var logs' := logs + RecoveryLogs(stale);
      logs'[..|logs|] == logs
      && forall e :: e in stale <==> exists k :: |logs| <= k < |logs'| && logs'[k] == LogRow(e, 0, STALE_LOG)
  {
    var logs' := logs + RecoveryLogs(stale);
    forall e ensures e in stale <==> exists k :: |logs| <= k < |logs'| && logs'[k] == LogRow(e, 0, STALE_LOG) {
      if e in stale {
        var i :| 0 <= i < |stale| && stale[i] == e;
        assert logs'[|logs| + i] == LogRow(e, 0, STALE_LOG);
      }
    }
  }
}

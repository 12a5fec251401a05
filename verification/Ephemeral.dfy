/** Admission of ephemeral executions: rate, concurrency, insert (api/routers/ephemeral.py:64-178). */
module Ephemeral {
  import opened Base
  import opened Lifecycle
  import opened RateLimit

  // ---------- concurrency under interleaving ----------

  /** One API key's active executions, and the requests between their count and their commit. */
  datatype CState = CState(active: set<nat>, waiting: set<nat>)

  datatype CStep =
    | Check(r: nat)
    | Commit(r: nat)
    | Finish(r: nat)
    | Abandon(r: nat)

  const IDLE := CState({}, {})

  /** A request passes its count only below the limit, and at most k requests are between count and commit. */
  ghost predicate CEnabled(s: CState, step: CStep, limit: nat, k: nat)
  {
    match step
    case Check(r) => r !in s.active && r !in s.waiting && |s.active| < limit && |s.waiting| < k
    case Commit(r) => r in s.waiting
    case Finish(r) => r in s.active
    case Abandon(r) => r in s.waiting
  }

  function CApply(s: CState, step: CStep): CState
  {
    match step
    case Check(r) => s.(waiting := s.waiting + {r})
    case Commit(r) => CState(s.active + {r}, s.waiting - {r})
    case Finish(r) => s.(active := s.active - {r})
    case Abandon(r) => s.(waiting := s.waiting - {r})
  }

  function CAfter(steps: seq<CStep>): CState
  {
    if steps == [] then IDLE else CApply(CAfter(steps[..|steps| - 1]), steps[|steps| - 1])
  }

  ghost predicate Feasible(steps: seq<CStep>, limit: nat, k: nat)
  {
    if steps == [] then true
    else
      var before := steps[..|steps| - 1];
      Feasible(before, limit, k) && CEnabled(CAfter(before), steps[|steps| - 1], limit, k)
  }

  ghost predicate CInvariant(s: CState, limit: nat, k: nat)
  {
    s.active !! s.waiting && |s.waiting| <= k
    && (|s.active| + |s.waiting| <= limit - 1 + k || s == IDLE)
  }

  lemma StepKeepsBound(s: CState, step: CStep, limit: nat, k: nat)
    requires CInvariant(s, limit, k) && CEnabled(s, step, limit, k)
    ensures CInvariant(CApply(s, step), limit, k)
  {
  }

  /** Active executions never exceed limit - 1 + k, and with serial requests (k = 1) never the limit. */
  lemma {:induction false} ActiveIsBounded(steps: seq<CStep>, limit: nat, k: nat)
    requires Feasible(steps, limit, k)
    ensures CInvariant(CAfter(steps), limit, k)
    ensures k >= 1 ==> |CAfter(steps).active| <= limit - 1 + k
    decreases |steps|
  {
    if steps != [] {
      ActiveIsBounded(steps[..|steps| - 1], limit, k);
      StepKeepsBound(CAfter(steps[..|steps| - 1]), steps[|steps| - 1], limit, k);
    }
  }

  lemma Extend(steps: seq<CStep>, step: CStep, limit: nat, k: nat)
    requires Feasible(steps, limit, k) && CEnabled(CAfter(steps), step, limit, k)
    ensures Feasible(steps + [step], limit, k) && CAfter(steps + [step]) == CApply(CAfter(steps), step)
  {
    assert (steps + [step])[..|steps|] == steps;
  }

  ghost predicate Sized(s: CState, active: nat, waiting: nat, next: nat)
  {
    |s.active| == active && |s.waiting| == waiting && forall r | r in s.active + s.waiting :: r < next
  }

  lemma CheckNext(s: CState, active: nat, waiting: nat, next: nat, limit: nat, k: nat)
    requires Sized(s, active, waiting, next) && active < limit && waiting < k
    ensures CEnabled(s, Check(next), limit, k) && Sized(CApply(s, Check(next)), active, waiting + 1, next + 1)
  {
    assert next !in s.active + s.waiting;
  }

  lemma CommitSome(s: CState, active: nat, waiting: nat, next: nat, limit: nat, k: nat) returns (r: nat)
    requires Sized(s, active, waiting, next) && waiting > 0 && s.active !! s.waiting
    ensures CEnabled(s, Commit(r), limit, k) && Sized(CApply(s, Commit(r)), active + 1, waiting - 1, next)
  {
    r :| r in s.waiting;
    var s' := CApply(s, Commit(r));
    assert s'.active + s'.waiting == s.active + s.waiting;
  }

  /** Requests one after the other, until one is missing to the limit. */
  lemma {:induction false} FillUp(limit: nat, k: nat, n: nat) returns (steps: seq<CStep>, next: nat)
    requires k >= 1 && n < limit
    ensures Feasible(steps, limit, k) && Sized(CAfter(steps), n, 0, next)
  {
    if n == 0 {
      steps, next := [], 0;
    } else {
      var before, r := FillUp(limit, k, n - 1);
      CheckNext(CAfter(before), n - 1, 0, r, limit, k);
      Extend(before, Check(r), limit, k);
      steps, next := before + [Check(r)], r + 1;
      ActiveIsBounded(steps, limit, k);
      var c := CommitSome(CAfter(steps), n - 1, 1, next, limit, k);
      Extend(steps, Commit(c), limit, k);
      steps := steps + [Commit(c)];
    }
  }

  /** Then j requests are counted before any of them commits. */
  lemma {:induction false} CheckMany(limit: nat, k: nat, j: nat) returns (steps: seq<CStep>, next: nat)
    requires k >= 1 && limit >= 1 && j <= k
    ensures Feasible(steps, limit, k) && Sized(CAfter(steps), limit - 1, j, next)
  {
    if j == 0 {
      steps, next := FillUp(limit, k, limit - 1);
    } else {
      var before, r := CheckMany(limit, k, j - 1);
      CheckNext(CAfter(before), limit - 1, j - 1, r, limit, k);
      Extend(before, Check(r), limit, k);
      steps, next := before + [Check(r)], r + 1;
    }
  }

  /** And then they commit. */
  lemma {:induction false} CommitMany(limit: nat, k: nat, j: nat) returns (steps: seq<CStep>, next: nat)
    requires k >= 1 && limit >= 1 && j <= k
    ensures Feasible(steps, limit, k) && Sized(CAfter(steps), limit - 1 + j, k - j, next)
  {
    if j == 0 {
      steps, next := CheckMany(limit, k, k);
    } else {
      var before, n := CommitMany(limit, k, j - 1);
      ActiveIsBounded(before, limit, k);
      var r := CommitSome(CAfter(before), limit - 1 + (j - 1), k - (j - 1), n, limit, k);
      Extend(before, Commit(r), limit, k);
      steps, next := before + [Commit(r)], n;
    }
  }

  /** Every run stays within a bound. */
  ghost predicate Bounds(limit: nat, k: nat, bound: int)
  {
    forall steps | Feasible(steps, limit, k) :: |CAfter(steps).active| <= bound
  }

  /** limit - 1 + k is the exact bound; in particular the limit itself holds exactly when requests are serial. */
  lemma BoundIsExact(limit: nat, k: nat, bound: int)
    requires limit >= 1 && k >= 1
    ensures Bounds(limit, k, bound) <==> limit - 1 + k <= bound
    ensures Bounds(limit, k, limit) <==> k == 1
  {
    forall steps | Feasible(steps, limit, k) ensures |CAfter(steps).active| <= limit - 1 + k {
      ActiveIsBounded(steps, limit, k);
    }
    var worst, next := CommitMany(limit, k, k);
    assert |CAfter(worst).active| == limit - 1 + k;
  }

  // ---------- the request handler ----------

  datatype EphemeralRow = EphemeralRow(key: nat, status: Status, failureKind: Option<string>)

  datatype Refusal = GateClosed | RateExceeded(limit: nat) | ConcurrencyExceeded(limit: nat)

  function ActiveOf(rows: map<nat, EphemeralRow>, key: nat): set<nat>
  {
    set e | e in rows && rows[e].key == key && Active(rows[e].status)
  }

  /** The counters after one uninterrupted rate check. */
  function Checked(counters: Counters, slot: Slot, now: int): Counters
  {
    if LiveValue(counters, slot, now) == 0
    then WithExpiry(Incremented(counters, slot, now), slot, now + COUNTER_TTL)
    else Incremented(counters, slot, now)
  }

  lemma OneMoreAtMost(a: set<nat>, b: set<nat>, e: nat)
    requires a <= b + {e}
    ensures |a| <= |b| + 1
  {
    SubsetIsNoLarger(a, b + {e});
  }

  function Verdict(count: nat, active: nat, rateLimit: nat, concurrencyLimit: nat): Result<(), Refusal>
  {
    if count > rateLimit then Err(RateExceeded(rateLimit))
    else if active >= concurrencyLimit then Err(ConcurrencyExceeded(concurrencyLimit))
    else Ok(())
  }

  /** What a caller that waits is told: the statuses are those read before the deadline, one every tenth of a second. */
  function Awaited(first: Status, looks: seq<Status>): Status
    decreases |looks|
  {
    if looks == [] then first
    else if Terminal(looks[0]) then looks[0]
    else Awaited(looks[0], looks[1..])
  }

  /** The first finished status read, or else the last one read. */
  lemma {:induction false} AwaitedIsFirstFinished(first: Status, looks: seq<Status>, k: nat)
    requires k <= |looks| && forall i | 0 <= i < k :: !Terminal(looks[i])
    ensures k < |looks| && Terminal(looks[k]) ==> Awaited(first, looks) == looks[k]
    ensures k == |looks| ==> Awaited(first, looks) == if k == 0 then first else looks[k - 1]
    decreases k
  {
    if k > 0 {
      AwaitedIsFirstFinished(looks[0], looks[1..], k - 1);
    }
  }

  class Endpoint {
    const rateLimit: nat
    const concurrencyLimit: nat
    const gateOpen: bool
    var counters: Counters
    var rows: map<nat, EphemeralRow>

    constructor (rateLimit: nat, concurrencyLimit: nat, sandboxEnabled: bool, localEnabled: bool)
      ensures this.rateLimit == rateLimit && this.concurrencyLimit == concurrencyLimit
      ensures gateOpen <==> sandboxEnabled || localEnabled
      ensures counters == map[] && rows == map[]
    {
      this.rateLimit, this.concurrencyLimit := rateLimit, concurrencyLimit;
      gateOpen := if sandboxEnabled then true else localEnabled;
      counters, rows := map[], map[];
    }

    method EnforceRateLimits(key: nat, now: int) returns (r: Result<(), Refusal>)
      modifies this`counters
      ensures counters == Checked(old(counters), Slot(key, MinuteOf(now)), now)
      ensures r == Verdict(LiveValue(old(counters), Slot(key, MinuteOf(now)), now) + 1, |ActiveOf(rows, key)|,
                           rateLimit, concurrencyLimit)
      ensures var slot := Slot(key, now / 60);
        var counted := slot in old(counters)
                       && (old(counters)[slot].expiresAt == None || now < old(counters)[slot].expiresAt.value);
        var before := if counted then old(counters)[slot].value else 0;
        var active := |set e | e in rows && rows[e].key == key && rows[e].status in {Pending, Queued, Running}|;
        && counters.Keys == old(counters).Keys + {slot}
        && (forall x | x in old(counters) && x != slot :: counters[x] == old(counters)[x])
        && counters[slot].value == before + 1
        && counters[slot].expiresAt == (if before == 0 then Some(now + 120) else old(counters)[slot].expiresAt)
        && (r == Err(RateExceeded(rateLimit)) <==> before >= rateLimit)
        && (r == Err(ConcurrencyExceeded(concurrencyLimit)) <==> before < rateLimit && active >= concurrencyLimit)
        && (r == Ok(()) <==> before < rateLimit && active < concurrencyLimit)
    {
      assert ActiveOf(rows, key) ==
        set e | e in rows && rows[e].key == key && rows[e].status in {Pending, Queued, Running};
      var rateKey := Slot(key, MinuteOf(now));
      counters := Incremented(counters, rateKey, now);
      var count := counters[rateKey].value;
      if count == 1 {
        counters := WithExpiry(counters, rateKey, now + COUNTER_TTL);
      }
      if count > rateLimit {
        return Err(RateExceeded(rateLimit));
      }
      var activeCount := |ActiveOf(rows, key)|;
      if activeCount >= concurrencyLimit {
        return Err(ConcurrencyExceeded(concurrencyLimit));
      }
      return Ok(());
    }

    /** The wait loop. */
    method AwaitOutcome(first: Status, looks: seq<Status>) returns (s: Status)
      ensures s == Awaited(first, looks)
    {
      s := first;
      for i := 0 to |looks|
        invariant Awaited(first, looks) == Awaited(s, looks[i..])
      {
        s := looks[i];
        if Terminal(s) {
          return;
        }
      }
    }

    /** execute_ephemeral without interference: e is the new row's id, `enqueued` whether the queue took the job. */
    method ExecuteEphemeral(key: nat, now: int, e: nat, enqueued: bool, wait: bool, looks: seq<Status>)
      returns (r: Result<Status, Refusal>)
      requires e !in rows
      modifies this`counters, this`rows
      ensures var verdict := Verdict(LiveValue(old(counters), Slot(key, MinuteOf(now)), now) + 1,
                                     |ActiveOf(old(rows), key)|, rateLimit, concurrencyLimit);
        if !gateOpen then r == Err(GateClosed)
        else if verdict.Err? then r == Err(verdict.error)
        else r.Ok?
      ensures r.Ok? ==> r.value == Awaited(if enqueued then Queued else Failed, if wait then looks else [])
      ensures r.Err? ==> rows == old(rows)
      ensures !gateOpen ==> counters == old(counters)
      ensures gateOpen ==> counters == Checked(old(counters), Slot(key, MinuteOf(now)), now)
      ensures r.Ok? ==> rows == old(rows)[e :=
        if enqueued then EphemeralRow(key, Queued, None) else EphemeralRow(key, Failed, Some("queue"))]
      ensures forall k | |ActiveOf(old(rows), k)| <= concurrencyLimit :: |ActiveOf(rows, k)| <= concurrencyLimit
    {
      if !gateOpen {
        return Err(GateClosed);
      }
      var check := EnforceRateLimits(key, now);
      if check.Err? {
        return Err(check.error);
      }
      rows := rows[e := EphemeralRow(key, Queued, None)];
      if !enqueued {
        rows := rows[e := rows[e].(status := Failed, failureKind := Some("queue"))];
      }
      forall k ensures ActiveOf(rows, k) <= ActiveOf(old(rows), k) + if k == key then {e} else {} {
      }
      forall k | |ActiveOf(old(rows), k)| <= concurrencyLimit ensures |ActiveOf(rows, k)| <= concurrencyLimit {
        OneMoreAtMost(ActiveOf(rows, k), ActiveOf(old(rows), k), e);
        if k != key {
          assert ActiveOf(rows, k) <= ActiveOf(old(rows), k) + {};
          SubsetIsNoLarger(ActiveOf(rows, k), ActiveOf(old(rows), k));
        }
      }
      var status := rows[e].status;
      if wait {
        status := AwaitOutcome(status, looks);
      }
      return Ok(status);
    }
  }
}

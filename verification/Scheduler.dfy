/**
 Cron schedules fired by several scheduler replicas behind the lease (scheduler/scheduler.py, api/routers/schedules.py).
 A cron expression is its "next matching instant strictly after" function. Each transaction is one step; firing a
 schedule is two, because the execution row is committed before the schedule row.
 */
module Scheduling {
  import opened Base
  import opened Lease

  type Cron = int -> int

  /** The least matching instant strictly after t, for every t. */
  ghost predicate IsCron(cron: Cron)
  {
    forall t :: cron(t) > t && forall u | t <= u < cron(t) :: cron(u) == cron(t)
  }

  datatype Schedule =
    Schedule(cron: Cron, active: bool, nextRun: Option<int>, lastRun: Option<int>, missedRuns: int)

  /** An execution created for a schedule's slot. */
  datatype Fired = Fired(sid: nat, slot: int, at: int)

  datatype Config = Config(pollInterval: int, maxMissedRuns: int)

  type Schedules = map<nat, Schedule>

  // ---------- one schedule, first transaction ----------

  datatype Verdict = Leave | Advance | Fire(slot: int)

  /** What the first transaction meets: a function with or without a version to run, or an error that rolls it back. */
  datatype Lookup = Version | NoVersion | Fails

  /** What the first transaction decides at time `now` for one schedule id. */
  function Judge(schedules: Schedules, sid: nat, found: Lookup, now: int, cfg: Config): Verdict
  {
    if found.Fails? || sid !in schedules || !schedules[sid].active || schedules[sid].nextRun.None?
      || schedules[sid].nextRun.value > now then Leave
    else if found.NoVersion? then Advance
    else if now - schedules[sid].nextRun.value > cfg.pollInterval * cfg.maxMissedRuns then Advance
    else Fire(schedules[sid].nextRun.value)
  }

  function Advanced(sched: Schedule, now: int): Schedule
  {
    sched.(nextRun := Some(sched.cron(now)))
  }

  // ---------- one schedule, second transaction ----------

  /** The schedule row after the firing begun at `at`, which still uses the cron expression it read then. */
  function Finished(sched: Schedule, cron: Cron, at: int): Schedule
  {
    sched.(lastRun := Some(at), nextRun := Some(cron(at)), missedRuns := 0)
  }

  /** n is the first matching instant after t: none lies in between. */
  ghost predicate NextMatch(cron: Cron, t: int, n: int)
  {
    t < n && forall u | t <= u < n :: cron(u) == n
  }

  // ---------- the protocol ----------

  /** A replica's pass over the due schedules. */
  datatype Progress =
    | Off
    | Walking(todo: seq<nat>)
    | Halfway(sid: nat, slot: int, at: int, cron: Cron, todo: seq<nat>)

  datatype SState = SState(
    l: LState,
    cfg: Config,
    schedules: Schedules,
    passes: map<nat, Progress>,
    ledger: seq<Fired>,
    settled: set<(nat, int)>,
    broken: multiset<(nat, int)>,
    known: set<nat>)

  /**
   ListDue (of any schedules due), Visit, Finish and Abort are the pass of one replica; Abort is the second transaction
   failing, Die the replica dying anywhere. The last four are the API's writes.
   */
  datatype SStep =
    | Lock(ls: LStep)
    | ListDue(c: nat, todo: seq<nat>)
    | Visit(c: nat, found: Lookup)
    | Finish(c: nat)
    | Abort(c: nat)
    | Die(c: nat)
    | AddSchedule(sid: nat, cron: Cron)
    | ChangeCron(sid: nat, cron: Cron)
    | SetActive(sid: nat, active: bool)
    | RemoveSchedule(sid: nat)

  ghost function PassOf(s: SState, c: nat): Progress
  {
    if c in s.passes then s.passes[c] else Off
  }

  ghost predicate Due(s: SState, sid: nat)
  {
    && sid in s.schedules && s.schedules[sid].active
    && s.schedules[sid].nextRun.Some? && s.schedules[sid].nextRun.value <= s.l.now
  }

  ghost predicate SEnabled(s: SState, step: SStep)
  {
    match step
    case Lock(ls) =>
      && LEnabled(s.l, ls) && !ls.Drop?
      && (ls.Release? ==> PassOf(s, ls.c).Off? || PassOf(s, ls.c) == Walking([]))
    case ListDue(c, todo) =>
      && ClientOf(s.l, c).Owner? && PassOf(s, c).Off?
      && NoDuplicates(todo) && forall sid | sid in todo :: Due(s, sid)
    case Visit(c, _) => PassOf(s, c).Walking? && PassOf(s, c).todo != []
    case Finish(c) => PassOf(s, c).Halfway? && PassOf(s, c).sid in s.schedules
    case Abort(c) => PassOf(s, c).Halfway?
    case Die(c) => true
    case AddSchedule(sid, cron) => sid !in s.known && IsCron(cron)
    case ChangeCron(sid, cron) => sid in s.schedules && IsCron(cron)
    case SetActive(sid, _) => sid in s.schedules
    case RemoveSchedule(sid) => sid in s.schedules
  }

  ghost function SApply(s: SState, step: SStep): SState
    requires SEnabled(s, step)
  {
    match step
    case Lock(ls) =>
      var t := s.(l := LApply(s.l, ls));
      if ls.Release? then t.(passes := s.passes[ls.c := Off]) else t
    case ListDue(c, todo) => s.(passes := s.passes[c := Walking(todo)])
    case Visit(c, found) =>
      var sid, rest := PassOf(s, c).todo[0], PassOf(s, c).todo[1..];
      (match Judge(s.schedules, sid, found, s.l.now, s.cfg)
      case Leave => s.(passes := s.passes[c := Walking(rest)])
      case Advance =>
        s.(schedules := s.schedules[sid := Advanced(s.schedules[sid], s.l.now)], passes := s.passes[c := Walking(rest)])
      case Fire(slot) =>
        s.(ledger := s.ledger + [Fired(sid, slot, s.l.now)],
        passes := s.passes[c := Halfway(sid, slot, s.l.now, s.schedules[sid].cron, rest)]))
    case Finish(c) =>
      var p := PassOf(s, c);
      s.(schedules := s.schedules[p.sid := Finished(s.schedules[p.sid], p.cron, p.at)],
      settled := s.settled + {(p.sid, p.slot)}, passes := s.passes[c := Walking(p.todo)])
    case Abort(c) =>
      var p := PassOf(s, c);
      s.(broken := s.broken + multiset{(p.sid, p.slot)}, passes := s.passes[c := Walking(p.todo)])
    case Die(c) =>
      var p := PassOf(s, c);
      var t := s.(l := LApply(s.l, Drop(c)), passes := s.passes[c := Off]);
      if p.Halfway? then t.(broken := s.broken + multiset{(p.sid, p.slot)}) else t
    case AddSchedule(sid, cron) =>
      s.(schedules := s.schedules[sid := Schedule(cron, true, Some(cron(s.l.now)), None, 0)], known := s.known + {sid})
    case ChangeCron(sid, cron) =>
      s.(schedules := s.schedules[sid := s.schedules[sid].(cron := cron, nextRun := Some(cron(s.l.now)))])
    case SetActive(sid, active) => s.(schedules := s.schedules[sid := s.schedules[sid].(active := active)])
    case RemoveSchedule(sid) => s.(schedules := s.schedules - {sid})
  }

  // ---------- invariants ----------

  ghost function TimesFired(ledger: seq<Fired>, sid: nat, slot: int): nat
  {
    if ledger == [] then 0
    else
      var last := ledger[|ledger| - 1];
      TimesFired(ledger[..|ledger| - 1], sid, slot) + if last.sid == sid && last.slot == slot then 1 else 0
  }

  /** Some replica is between its two transactions for this slot. */
  ghost predicate Pending(s: SState, c: nat, sid: nat, slot: int)
  {
    PassOf(s, c).Halfway? && PassOf(s, c).sid == sid && PassOf(s, c).slot == slot
  }

  ghost predicate AnyPending(s: SState, sid: nat, slot: int)
  {
    exists c: nat :: Pending(s, c, sid, slot)
  }

  ghost predicate PassOk(s: SState, c: nat)
  {
    var p := PassOf(s, c);
    && (p.Off? || ClientOf(s.l, c).Owner?)
    && (p.Halfway? ==> IsCron(p.cron) && p.slot <= p.at <= s.l.now)
  }

  /** Replicas in their pass own the lock; what a pass remembers is in the past. */
  ghost predicate PassesOwn(s: SState)
  {
    && LockInvariant(s.l)
    && (forall c: nat :: PassOk(s, c))
    && (forall sid | sid in s.schedules :: sid in s.known && IsCron(s.schedules[sid].cron))
    && (forall i | 0 <= i < |s.ledger| :: s.ledger[i].sid in s.known && s.ledger[i].at <= s.l.now)
  }

  /** Firings per slot: one if it was finished, one per broken firing, one if under way. */
  ghost predicate Counted(s: SState)
  {
    forall sid: nat, slot: int ::
      TimesFired(s.ledger, sid, slot) <=
        (if (sid, slot) in s.settled then 1 else 0) + s.broken[(sid, slot)]
        + (if AnyPending(s, sid, slot) then 1 else 0)
  }

  ghost predicate BehindNext(s: SState, k: (nat, int))
  {
    && k.0 in s.known && k.1 <= s.l.now
    && (k.0 in s.schedules && s.schedules[k.0].nextRun.Some? ==> k.1 < s.schedules[k.0].nextRun.value)
  }

  ghost predicate BehindPass(s: SState, k: (nat, int), c: nat)
  {
    PassOf(s, c).Halfway? && PassOf(s, c).sid == k.0 ==> k.1 < PassOf(s, c).slot
  }

  /** Finished slots lie before the schedule's next one, and before one under way. */
  ghost predicate SettledBehind(s: SState)
  {
    forall k | k in s.settled :: BehindNext(s, k) && forall c: nat :: BehindPass(s, k, c)
  }

  ghost predicate EntryBehindNext(s: SState, e: Fired)
  {
    e.sid in s.schedules && s.schedules[e.sid].nextRun.Some? ==>
      s.schedules[e.sid].nextRun.value == e.slot || s.schedules[e.sid].nextRun.value > e.at
  }

  ghost predicate EntryBehindPass(s: SState, e: Fired, c: nat)
  {
    PassOf(s, c).Halfway? ==> e.at <= PassOf(s, c).at
  }

  /** A schedule's next slot is the one last fired, or lies after every firing so far; and nothing was fired since a
      firing under way. */
  ghost predicate LedgerBehind(s: SState)
  {
    forall i | 0 <= i < |s.ledger| ::
      EntryBehindNext(s, s.ledger[i]) && forall c: nat :: EntryBehindPass(s, s.ledger[i], c)
  }

  /** No firing is late by more than the missed-run limit, or early. */
  ghost predicate Punctual(s: SState)
  {
    forall i | 0 <= i < |s.ledger| ::
      s.ledger[i].slot <= s.ledger[i].at <= s.ledger[i].slot + s.cfg.pollInterval * s.cfg.maxMissedRuns
  }

  /** Successive firings of a schedule repeat a slot or move past the previous firing's own time. */
  ghost predicate MovesOn(s: SState)
  {
    forall i, j | 0 <= i < j < |s.ledger| && s.ledger[i].sid == s.ledger[j].sid ::
      s.ledger[i].slot == s.ledger[j].slot || s.ledger[i].at < s.ledger[j].slot
  }

  ghost predicate SInvariant(s: SState)
  {
    PassesOwn(s) && Counted(s) && SettledBehind(s) && LedgerBehind(s) && Punctual(s) && MovesOn(s)
  }

  // ---------- what each step keeps ----------

  lemma OnePass(s: SState, c: nat, d: nat)
    requires PassesOwn(s) && SectionsFit(s.l) && !PassOf(s, c).Off? && !PassOf(s, d).Off?
    ensures c == d
  {
    assert PassOk(s, c) && PassOk(s, d);
    SectionsExclude(s.l, c, d);
  }

  lemma LockKeepsPasses(s: SState, step: SStep)
    requires PassesOwn(s) && SEnabled(s, step) && (step.Lock? || step.Die?)
    ensures PassesOwn(SApply(s, step))
  {
    StepKeepsLock(s.l, if step.Lock? then step.ls else Drop(step.c));
    var s' := SApply(s, step);
    forall c: nat ensures PassOk(s', c) {
      assert PassOk(s, c);
    }
  }

  lemma WalkKeepsPasses(s: SState, step: SStep)
    requires PassesOwn(s) && SEnabled(s, step) && (step.ListDue? || step.Visit? || step.Finish? || step.Abort?)
    ensures PassesOwn(SApply(s, step))
  {
    var s' := SApply(s, step);
    forall c: nat ensures PassOk(s', c) {
      assert PassOk(s, c);
      if step.Visit? && step.c == c && PassOf(s', c).Halfway? {
        assert IsCron(s.schedules[PassOf(s, c).todo[0]].cron);
      }
    }
  }

  lemma ApiKeepsPasses(s: SState, step: SStep)
    requires PassesOwn(s) && SEnabled(s, step)
    requires step.AddSchedule? || step.ChangeCron? || step.SetActive? || step.RemoveSchedule?
    ensures PassesOwn(SApply(s, step))
  {
    var s' := SApply(s, step);
    forall c: nat ensures PassOk(s', c) {
      assert PassOk(s, c);
    }
  }

  lemma PassesStayOwned(s: SState, step: SStep)
    requires PassesOwn(s) && SEnabled(s, step)
    ensures PassesOwn(SApply(s, step))
  {
    if step.Lock? || step.Die? {
      LockKeepsPasses(s, step);
    } else if step.ListDue? || step.Visit? || step.Finish? || step.Abort? {
      WalkKeepsPasses(s, step);
    } else {
      ApiKeepsPasses(s, step);
    }
  }

  /** Steps that neither fire nor finish anything: a schedule's next slot stays or moves past the clock. */
  lemma QuietStep(s: SState, s': SState)
    requires SInvariant(s)
    requires s'.ledger == s.ledger && s'.settled == s.settled && s'.broken == s.broken && s'.cfg == s.cfg
    requires s'.l.now >= s.l.now && s'.known >= s.known
    requires forall c: nat :: PassOf(s', c).Halfway? == PassOf(s, c).Halfway?
    requires forall c: nat | PassOf(s', c).Halfway? :: PassOf(s', c) == PassOf(s, c)
    requires forall sid | sid in s'.schedules && s'.schedules[sid].nextRun.Some? ::
      sid !in s.known || s'.schedules[sid].nextRun.value > s.l.now
      || (sid in s.schedules && s'.schedules[sid].nextRun == s.schedules[sid].nextRun)
    ensures Counted(s') && SettledBehind(s') && LedgerBehind(s') && Punctual(s') && MovesOn(s')
  {
    forall sid: nat, slot: int ensures AnyPending(s, sid, slot) ==> AnyPending(s', sid, slot) {
      if AnyPending(s, sid, slot) {
        var c: nat :| Pending(s, c, sid, slot);
        assert Pending(s', c, sid, slot);
      }
    }
    forall k | k in s'.settled ensures BehindNext(s', k) && forall d: nat :: BehindPass(s', k, d) {
      assert BehindNext(s, k);
      forall d: nat ensures BehindPass(s', k, d) {
        assert BehindPass(s, k, d);
      }
    }
    forall i | 0 <= i < |s'.ledger|
      ensures EntryBehindNext(s', s'.ledger[i]) && forall d: nat :: EntryBehindPass(s', s'.ledger[i], d)
    {
      assert EntryBehindNext(s, s.ledger[i]);
      forall d: nat ensures EntryBehindPass(s', s'.ledger[i], d) {
        assert EntryBehindPass(s, s.ledger[i], d);
      }
    }
  }

  /** While c is in its pass, no other replica is under way. */
  lemma OnlyPending(s: SState, c: nat, x: nat, t: int)
    requires PassesOwn(s) && SectionsFit(s.l) && !PassOf(s, c).Off?
    ensures AnyPending(s, x, t) <==> Pending(s, c, x, t)
  {
    if AnyPending(s, x, t) {
      var d: nat :| Pending(s, d, x, t);
      OnePass(s, c, d);
    }
  }

  lemma OnlyHalfway(s: SState, s': SState, c: nat)
    requires PassesOwn(s) && SectionsFit(s.l) && !PassOf(s, c).Off?
    requires forall d: nat | d != c :: PassOf(s', d) == PassOf(s, d)
    ensures forall d: nat | d != c :: PassOf(s', d).Off?
  {
    forall d: nat | d != c ensures PassOf(s', d).Off? {
      if !PassOf(s, d).Off? {
        OnePass(s, c, d);
      }
    }
  }

  lemma FireStep(s: SState, c: nat)
    requires SInvariant(s) && SectionsFit(s.l) && SEnabled(s, Visit(c, Version))
    requires Judge(s.schedules, PassOf(s, c).todo[0], Version, s.l.now, s.cfg).Fire?
    ensures SInvariant(SApply(s, Visit(c, Version)))
  {
    var s' := SApply(s, Visit(c, Version));
    PassesStayOwned(s, Visit(c, Version));
    OnlyHalfway(s, s', c);
    forall x: nat, t: int
      ensures TimesFired(s'.ledger, x, t) <=
        (if (x, t) in s'.settled then 1 else 0) + s'.broken[(x, t)] + (if AnyPending(s', x, t) then 1 else 0)
    {
      assert s'.ledger[..|s.ledger|] == s.ledger;
      OnlyPending(s, c, x, t);
      assert Pending(s', c, x, t) ==> AnyPending(s', x, t);
    }
    forall k | k in s'.settled ensures BehindNext(s', k) && forall d: nat :: BehindPass(s', k, d) {
      assert BehindNext(s, k);
    }
    forall i | 0 <= i < |s'.ledger|
      ensures EntryBehindNext(s', s'.ledger[i]) && forall d: nat :: EntryBehindPass(s', s'.ledger[i], d)
    {
      assert i < |s.ledger| ==> EntryBehindNext(s, s.ledger[i]);
    }
  }

  lemma FinishStep(s: SState, c: nat)
    requires SInvariant(s) && SectionsFit(s.l) && SEnabled(s, Finish(c))
    ensures SInvariant(SApply(s, Finish(c)))
  {
    var s', p := SApply(s, Finish(c)), PassOf(s, c);
    PassesStayOwned(s, Finish(c));
    OnlyHalfway(s, s', c);
    assert PassOk(s, c);
    assert p.cron(p.at) > p.at;
    assert (p.sid, p.slot) in s.settled ==> BehindPass(s, (p.sid, p.slot), c);
    forall x: nat, t: int
      ensures TimesFired(s'.ledger, x, t) <=
        (if (x, t) in s'.settled then 1 else 0) + s'.broken[(x, t)] + (if AnyPending(s', x, t) then 1 else 0)
    {
      OnlyPending(s, c, x, t);
    }
    forall k | k in s'.settled ensures BehindNext(s', k) && forall d: nat :: BehindPass(s', k, d) {
      assert k in s.settled ==> BehindNext(s, k) && BehindPass(s, k, c);
    }
    forall i | 0 <= i < |s'.ledger|
      ensures EntryBehindNext(s', s'.ledger[i]) && forall d: nat :: EntryBehindPass(s', s'.ledger[i], d)
    {
      assert EntryBehindNext(s, s.ledger[i]) && EntryBehindPass(s, s.ledger[i], c);
    }
  }

  /** A firing that never reaches its second transaction. */
  lemma BreakStep(s: SState, step: SStep, c: nat)
    requires SInvariant(s) && SectionsFit(s.l) && SEnabled(s, step)
    requires (step == Abort(c) || step == Die(c)) && PassOf(s, c).Halfway?
    ensures SInvariant(SApply(s, step))
  {
    var s', p := SApply(s, step), PassOf(s, c);
    PassesStayOwned(s, step);
    OnlyHalfway(s, s', c);
    forall x: nat, t: int
      ensures TimesFired(s'.ledger, x, t) <=
        (if (x, t) in s'.settled then 1 else 0) + s'.broken[(x, t)] + (if AnyPending(s', x, t) then 1 else 0)
    {
      OnlyPending(s, c, x, t);
    }
    forall k | k in s'.settled ensures BehindNext(s', k) && forall d: nat :: BehindPass(s', k, d) {
      assert BehindNext(s, k);
    }
    forall i | 0 <= i < |s'.ledger|
      ensures EntryBehindNext(s', s'.ledger[i]) && forall d: nat :: EntryBehindPass(s', s'.ledger[i], d)
    {
      assert EntryBehindNext(s, s.ledger[i]);
    }
  }

  ghost predicate Quiet(s: SState, step: SStep)
  {
    match step
    case Visit(c, found) =>
      PassOf(s, c).Walking? && PassOf(s, c).todo != []
      && !Judge(s.schedules, PassOf(s, c).todo[0], found, s.l.now, s.cfg).Fire?
    case Finish(_) => false
    case Abort(_) => false
    case Die(c) => !PassOf(s, c).Halfway?
    case _ => true
  }

  lemma QuietStepsKeep(s: SState, step: SStep)
    requires SInvariant(s) && SEnabled(s, step) && Quiet(s, step)
    ensures SInvariant(SApply(s, step))
  {
    var s' := SApply(s, step);
    PassesStayOwned(s, step);
    if step.Lock? && step.ls.Release? {
      assert !PassOf(s, step.ls.c).Halfway?;
    }
    if step.AddSchedule? || step.ChangeCron? {
      assert step.cron(s.l.now) > s.l.now;
    }
    if step.Visit? {
      assert PassOf(s, step.c).todo[0] in s.schedules ==>
        s.schedules[PassOf(s, step.c).todo[0]].cron(s.l.now) > s.l.now;
    }
    QuietStep(s, s');
  }

  lemma StepKeepsSchedules(s: SState, step: SStep)
    requires SInvariant(s) && SectionsFit(s.l) && SEnabled(s, step)
    ensures SInvariant(SApply(s, step))
  {
    if Quiet(s, step) {
      QuietStepsKeep(s, step);
    } else if step.Visit? {
      FireStep(s, step.c);
    } else if step.Finish? {
      FinishStep(s, step.c);
    } else {
      BreakStep(s, step, step.c);
    }
  }

  // ---------- whole runs ----------

  ghost predicate SStepAt(run: seq<SState>, steps: seq<SStep>, i: nat)
    requires i < |steps| < |run|
  {
    SEnabled(run[i], steps[i]) && run[i + 1] == SApply(run[i], steps[i])
  }

  ghost predicate SInitial(s: SState)
  {
    && s.l.key == None && s.l.clients == map[] && s.l.ttl == s.cfg.pollInterval * 2
    && s == SState(s.l, s.cfg, map[], map[], [], {}, multiset{}, {})
  }

  ghost predicate STrace(run: seq<SState>, steps: seq<SStep>)
  {
    |run| == |steps| + 1 && SInitial(run[0]) && forall i: nat | i < |steps| :: SStepAt(run, steps, i)
  }

  lemma {:induction false} SchedulesHold(run: seq<SState>, steps: seq<SStep>, i: nat)
    requires STrace(run, steps) && i < |run|
    requires forall j | 0 <= j < i :: SectionsFit(run[j].l)
    ensures SInvariant(run[i])
  {
    if i > 0 {
      SchedulesHold(run, steps, i - 1);
      assert SStepAt(run, steps, i - 1);
      StepKeepsSchedules(run[i - 1], steps[i - 1]);
    }
  }

  /** With any number of replicas, as long as no pass outlives its lease, a slot creates one execution, plus one for
      each time a firing broke off between its two transactions. */
  lemma SlotFiresOnce(run: seq<SState>, steps: seq<SStep>, i: nat, sid: nat, slot: int)
    requires STrace(run, steps) && i < |run|
    requires forall j | 0 <= j < i :: SectionsFit(run[j].l)
    ensures TimesFired(run[i].ledger, sid, slot) <= 1 + run[i].broken[(sid, slot)]
  {
    SchedulesHold(run, steps, i);
    var s := run[i];
    forall c: nat ensures (sid, slot) in s.settled ==> !Pending(s, c, sid, slot) {
      assert (sid, slot) in s.settled ==> BehindPass(s, (sid, slot), c);
    }
  }

  lemma {:induction false} TwoFirings(ledger: seq<Fired>, a: nat, b: nat)
    requires a < b < |ledger| && ledger[a].sid == ledger[b].sid && ledger[a].slot == ledger[b].slot
    ensures TimesFired(ledger, ledger[a].sid, ledger[a].slot) >= 2
    decreases |ledger|
  {
    var n := |ledger| - 1;
    if b < n {
      TwoFirings(ledger[..n], a, b);
    } else {
      OneFiring(ledger[..n], a);
    }
  }

  lemma {:induction false} OneFiring(ledger: seq<Fired>, a: nat)
    requires a < |ledger|
    ensures TimesFired(ledger, ledger[a].sid, ledger[a].slot) >= 1
    decreases |ledger|
  {
    var n := |ledger| - 1;
    if a < n {
      OneFiring(ledger[..n], a);
    }
  }

  /** A schedule's fired slots go up: a later firing is for a slot after the earlier firing's own time, or repeats
      a slot whose firing broke off. Every firing comes 0 to pollInterval * maxMissedRuns after its slot. */
  lemma FiredSlotsIncrease(run: seq<SState>, steps: seq<SStep>, i: nat, a: nat, b: nat)
    requires STrace(run, steps) && i < |run| && a < b < |run[i].ledger|
    requires forall j | 0 <= j < i :: SectionsFit(run[j].l)
    requires run[i].ledger[a].sid == run[i].ledger[b].sid
    ensures var x, y := run[i].ledger[a], run[i].ledger[b];
      && (x.at < y.slot || (x.slot == y.slot && run[i].broken[(x.sid, x.slot)] >= 1))
      && x.slot <= x.at <= x.slot + run[i].cfg.pollInterval * run[i].cfg.maxMissedRuns
      && y.slot <= y.at <= y.slot + run[i].cfg.pollInterval * run[i].cfg.maxMissedRuns
  {
    SchedulesHold(run, steps, i);
    var x, y := run[i].ledger[a], run[i].ledger[b];
    if x.slot == y.slot {
      TwoFirings(run[i].ledger, a, b);
      SlotFiresOnce(run, steps, i, x.sid, x.slot);
    }
  }

  // ---------- no slot is left out ----------

  /** The step can change when this schedule is due next. */
  ghost predicate Reschedules(s: SState, step: SStep, sid: nat)
  {
    match step
    case Visit(c, found) =>
      PassOf(s, c).Walking? && PassOf(s, c).todo != [] && PassOf(s, c).todo[0] == sid
      && Judge(s.schedules, sid, found, s.l.now, s.cfg).Advance?
    case Finish(c) => PassOf(s, c).Halfway? && PassOf(s, c).sid == sid
    case AddSchedule(x, _) => x == sid
    case ChangeCron(x, _) => x == sid
    case RemoveSchedule(x) => x == sid
    case _ => false
  }

  /** Replica c fires the schedule's slot in this step. */
  ghost predicate Fires(s: SState, step: SStep, c: nat, sid: nat)
  {
    step == Visit(c, Version) && PassOf(s, c).Walking? && PassOf(s, c).todo != [] && PassOf(s, c).todo[0] == sid
    && sid in s.schedules && s.schedules[sid].active && s.schedules[sid].nextRun.Some?
    && 0 <= s.l.now - s.schedules[sid].nextRun.value <= s.cfg.pollInterval * s.cfg.maxMissedRuns
  }

  lemma FiringIsRecorded(s: SState, step: SStep, c: nat, sid: nat)
    requires SEnabled(s, step) && Fires(s, step, c, sid)
    ensures SApply(s, step).ledger == s.ledger + [Fired(sid, s.schedules[sid].nextRun.value, s.l.now)]
    ensures var p := PassOf(SApply(s, step), c);
      p.Halfway? && p.sid == sid && p.slot == s.schedules[sid].nextRun.value && p.at == s.l.now
      && p.cron == s.schedules[sid].cron
    ensures SApply(s, step).schedules == s.schedules
  {
  }

  lemma HalfwayStays(s: SState, step: SStep, c: nat)
    requires SEnabled(s, step) && PassOf(s, c).Halfway?
    requires step != Finish(c) && step != Abort(c) && step != Die(c)
    ensures PassOf(SApply(s, step), c) == PassOf(s, c)
  {
  }

  lemma NextRunStays(s: SState, step: SStep, sid: nat)
    requires SEnabled(s, step) && sid in s.schedules && !Reschedules(s, step, sid)
    ensures sid in SApply(s, step).schedules
    ensures SApply(s, step).schedules[sid].nextRun == s.schedules[sid].nextRun
  {
  }

  lemma {:induction false} FiringLasts(run: seq<SState>, steps: seq<SStep>, i: nat, k: nat, c: nat, sid: nat)
    requires STrace(run, steps) && i < k < |run| && Fires(run[i], steps[i], c, sid)
    requires forall l | i < l < k :: steps[l] != Finish(c) && steps[l] != Abort(c) && steps[l] != Die(c)
    ensures var p := PassOf(run[k], c);
      p.Halfway? && p.sid == sid && p.at == run[i].l.now && p.cron == run[i].schedules[sid].cron
    decreases k
  {
    if i + 1 == k {
      assert SStepAt(run, steps, i);
      FiringIsRecorded(run[i], steps[i], c, sid);
    } else {
      FiringLasts(run, steps, i, k - 1, c, sid);
      assert SStepAt(run, steps, k - 1);
      HalfwayStays(run[k - 1], steps[k - 1], c);
    }
  }

  lemma {:induction false} NextRunLasts(run: seq<SState>, steps: seq<SStep>, i: nat, k: nat, sid: nat)
    requires STrace(run, steps) && i <= k < |run| && sid in run[i].schedules
    requires forall l | i <= l < k :: !Reschedules(run[l], steps[l], sid)
    ensures sid in run[k].schedules && run[k].schedules[sid].nextRun == run[i].schedules[sid].nextRun
    decreases k
  {
    if i < k {
      NextRunLasts(run, steps, i, k - 1, sid);
      assert SStepAt(run, steps, k - 1);
      NextRunStays(run[k - 1], steps[k - 1], sid);
    }
  }

  ghost predicate AllCron(schedules: Schedules)
  {
    forall sid | sid in schedules :: IsCron(schedules[sid].cron)
  }

  lemma StepKeepsCrons(s: SState, step: SStep)
    requires AllCron(s.schedules) && SEnabled(s, step)
    ensures AllCron(SApply(s, step).schedules)
  {
  }

  lemma {:induction false} CronsHold(run: seq<SState>, steps: seq<SStep>, i: nat)
    requires STrace(run, steps) && i < |run|
    ensures AllCron(run[i].schedules)
  {
    if i > 0 {
      CronsHold(run, steps, i - 1);
      assert SStepAt(run, steps, i - 1);
      StepKeepsCrons(run[i - 1], steps[i - 1]);
    }
  }

  /** In any run, with any replicas: a firing at step i that is finished at step k is followed, unless something else
      reschedules, by the firing of the very next matching instant. */
  lemma NoSlotIsLeftOut(run: seq<SState>, steps: seq<SStep>, i: nat, k: nat, j: nat, c: nat, d: nat, sid: nat)
    requires STrace(run, steps) && i < k < j < |steps|
    requires Fires(run[i], steps[i], c, sid) && steps[k] == Finish(c) && Fires(run[j], steps[j], d, sid)
    requires forall l | i < l < k :: steps[l] != Finish(c) && steps[l] != Abort(c) && steps[l] != Die(c)
    requires forall l | k < l < j :: !Reschedules(run[l], steps[l], sid)
    ensures |run[j + 1].ledger| > 0
    ensures var y := run[j + 1].ledger[|run[j + 1].ledger| - 1];
      y.sid == sid && NextMatch(run[i].schedules[sid].cron, run[i].l.now, y.slot)
  {
    CronsHold(run, steps, i);
    FiringLasts(run, steps, i, k, c, sid);
    assert SStepAt(run, steps, k);
    NextRunLasts(run, steps, k + 1, j, sid);
    assert SStepAt(run, steps, j);
    FiringIsRecorded(run[j], steps[j], d, sid);
  }

  /** A slot passed over, for want of a version or for being too late, is followed by the very next one as well. */
  lemma AdvanceGoesToNext(s: SState, c: nat, found: Lookup)
    requires SEnabled(s, Visit(c, found)) && PassOf(s, c).todo[0] in s.schedules && !found.Fails?
    requires var r := s.schedules[PassOf(s, c).todo[0]];
      r.active && r.nextRun.Some? && r.nextRun.value <= s.l.now && IsCron(r.cron)
      && (found.NoVersion? || s.l.now - r.nextRun.value > s.cfg.pollInterval * s.cfg.maxMissedRuns)
    ensures var sid, s' := PassOf(s, c).todo[0], SApply(s, Visit(c, found));
      s'.ledger == s.ledger && s'.schedules[sid].nextRun.Some?
      && NextMatch(s.schedules[sid].cron, s.l.now, s'.schedules[sid].nextRun.value)
  {
  }

  /** A schedule added, or given another expression, is due at the next matching instant; switching it on or off leaves
      it due when it was. */
  lemma ApiSchedulesNext(s: SState, step: SStep)
    requires SEnabled(s, step) && (step.AddSchedule? || step.ChangeCron? || step.SetActive?)
    ensures var r' := SApply(s, step).schedules[step.sid];
      (step.SetActive? ==> r' == s.schedules[step.sid].(active := step.active))
      && (!step.SetActive? ==>
            r'.cron == step.cron && r'.nextRun.Some? && NextMatch(step.cron, s.l.now, r'.nextRun.value))
    ensures forall x | x in s.schedules && x != step.sid ::
      x in SApply(s, step).schedules && SApply(s, step).schedules[x] == s.schedules[x]
  {
  }

  // ---------- one replica's code ----------

  /** The schedule rows after both transactions of one schedule, the second one possibly failing. */
  ghost function Handled(schedules: Schedules, sid: nat, found: Lookup, commits: bool, now: int, cfg: Config)
    : Schedules
  {
    match Judge(schedules, sid, found, now, cfg)
    case Leave => schedules
    case Advance => schedules[sid := Advanced(schedules[sid], now)]
    case Fire(_) =>
      if commits then schedules[sid := Finished(schedules[sid], schedules[sid].cron, now)] else schedules
  }

  /** What one schedule of the pass meets: the clock, what the first transaction finds, whether the queue took the job,
      whether the last commit succeeds. */
  datatype Turn = Turn(sid: nat, now: int, found: Lookup, queued: bool, commits: bool)

  /** No transaction of the pass fails. */
  ghost predicate AllCommit(turns: seq<Turn>)
  {
    forall t | t in turns :: t.commits && !t.found.Fails?
  }

  /** Every schedule that ran names the execution created for it when it last ran. */
  ghost predicate NamesLast(schedules: Schedules, ledger: seq<Fired>, lastExecution: map<nat, nat>)
  {
    forall sid | sid in schedules ::
      if sid in lastExecution then
        var e := lastExecution[sid];
        e < |ledger| && ledger[e].sid == sid && schedules[sid].lastRun == Some(ledger[e].at)
      else schedules[sid].lastRun == None
  }

  ghost function Walked(schedules: Schedules, turns: seq<Turn>, cfg: Config): Schedules
  {
    if turns == [] then schedules
    else
      var n := |turns| - 1;
      var t := turns[n];
      Handled(Walked(schedules, turns[..n], cfg), t.sid, t.found, t.commits, t.now, cfg)
  }

  ghost function WalkLedger(schedules: Schedules, turns: seq<Turn>, cfg: Config): seq<Fired>
  {
    if turns == [] then []
    else
      var n := |turns| - 1;
      var t := turns[n];
      var verdict := Judge(Walked(schedules, turns[..n], cfg), t.sid, t.found, t.now, cfg);
      WalkLedger(schedules, turns[..n], cfg) + if verdict.Fire? then [Fired(t.sid, verdict.slot, t.now)] else []
  }

  /** The ledger is the executions created, each named by its place; lastExecution is a column of the schedules,
      failed the executions whose status says that the queue refused them. */
  class Scheduler {
    const cfg: Config
    var schedules: Schedules
    var ledger: seq<Fired>
    var lastExecution: map<nat, nat>
    var failed: set<nat>

    constructor (cfg: Config)
      ensures this.cfg == cfg && schedules == map[] && ledger == [] && lastExecution == map[] && failed == {}
    {
      this.cfg, schedules, ledger, lastExecution, failed := cfg, map[], [], map[], {};
    }

    method FireSchedule(t: Turn)
      requires cfg.pollInterval * cfg.maxMissedRuns >= 0
      modifies this
      ensures schedules == Handled(old(schedules), t.sid, t.found, t.commits, t.now, cfg)
      ensures var verdict := Judge(old(schedules), t.sid, t.found, t.now, cfg);
        && ledger == old(ledger) + (if verdict.Fire? then [Fired(t.sid, verdict.slot, t.now)] else [])
        && lastExecution == (if verdict.Fire? && t.commits
           then old(lastExecution)[t.sid := |old(ledger)|] else old(lastExecution))
        && failed == old(failed) + if verdict.Fire? && t.commits && !t.queued then {|old(ledger)|} else {}
      ensures schedules.Keys == old(schedules).Keys && forall x | x in schedules && x != t.sid ::
        schedules[x] == old(schedules)[x]
      ensures t.sid !in old(schedules) ==> ledger == old(ledger)
      ensures t.sid in old(schedules) ==>
        var r, r' := old(schedules)[t.sid], schedules[t.sid];
        var due := r.active && r.nextRun.Some? && r.nextRun.value <= t.now && !t.found.Fails?;
        var fires := due && t.found.Version? && t.now - r.nextRun.value <= cfg.pollInterval * cfg.maxMissedRuns;
        && ledger == (if fires then old(ledger) + [Fired(t.sid, r.nextRun.value, t.now)] else old(ledger))
        && (!due || (fires && !t.commits) ==> r' == r)
        && (due && (fires ==> t.commits) ==>
              r'.nextRun.Some? && (IsCron(r.cron) ==> NextMatch(r.cron, t.now, r'.nextRun.value))
              && r'.cron == r.cron && r'.active == r.active)
        && (due && !fires ==> r'.lastRun == r.lastRun && r'.missedRuns == r.missedRuns)
        && (fires && t.commits ==> r'.lastRun == Some(t.now) && r'.missedRuns == 0)
      ensures old(NamesLast(schedules, ledger, lastExecution)) ==> NamesLast(schedules, ledger, lastExecution)
    {
      if t.found.Fails? {
        return;
      }
      if t.sid !in schedules || !schedules[t.sid].active {
        return;
      }
      var row := schedules[t.sid];
      if row.nextRun.None? || row.nextRun.value > t.now {
        return;
      }
      if t.found.NoVersion? {
        schedules := schedules[t.sid := row.(nextRun := Some(row.cron(t.now)))];
        return;
      }
      if row.nextRun.value < t.now {
        var gap := t.now - row.nextRun.value;
        if gap > cfg.pollInterval * cfg.maxMissedRuns {
          schedules := schedules[t.sid := row.(nextRun := Some(row.cron(t.now)))];
          return;
        }
      }
      var execution := |ledger|;
      ledger := ledger + [Fired(t.sid, row.nextRun.value, t.now)];
      if t.commits {
        if !t.queued {
          failed := failed + {execution};
        }
        lastExecution := lastExecution[t.sid := execution];
        schedules := schedules[t.sid := row.(
          lastRun := Some(t.now), nextRun := Some(row.cron(t.now)), missedRuns := 0)];
      }
    }

    /** The loop over the due schedules; a failing one does not stop the others. */
    method FireAll(turns: seq<Turn>)
      requires cfg.pollInterval * cfg.maxMissedRuns >= 0
      modifies this
      ensures schedules == Walked(old(schedules), turns, cfg)
      ensures ledger == old(ledger) + WalkLedger(old(schedules), turns, cfg)
      ensures old(NamesLast(schedules, ledger, lastExecution)) ==> NamesLast(schedules, ledger, lastExecution)
      ensures old(failed) <= failed
    {
      for i := 0 to |turns|
        invariant schedules == Walked(old(schedules), turns[..i], cfg)
        invariant ledger == old(ledger) + WalkLedger(old(schedules), turns[..i], cfg)
        invariant old(NamesLast(schedules, ledger, lastExecution)) ==> NamesLast(schedules, ledger, lastExecution)
        invariant old(failed) <= failed
      {
        assert turns[..i + 1][..i] == turns[..i];
        FireSchedule(turns[i]);
      }
      assert turns[..|turns|] == turns;
    }

    /** The query at `now`, and the loop over what it found. If no schedule fails, nothing is due any more at the
        time of the query. */
    method ProcessDueSchedules(now: int, turns: seq<Turn>)
      requires cfg.pollInterval * cfg.maxMissedRuns >= 0 && AnswersQuery(schedules, turns, now)
      modifies this
      ensures AllCron(old(schedules)) && AllCommit(turns) ==>
        forall sid: nat :: !DueAt(schedules, sid, now)
      ensures schedules == Walked(old(schedules), turns, cfg)
      ensures ledger == old(ledger) + WalkLedger(old(schedules), turns, cfg)
      ensures old(NamesLast(schedules, ledger, lastExecution)) ==> NamesLast(schedules, ledger, lastExecution)
    {
      NothingIsDue(schedules, turns, cfg, now);
      if turns == [] {
        return;
      }
      FireAll(turns);
    }
  }

  /** The code for one schedule is the protocol's Visit, followed by Finish or Abort when it fired. */
  lemma FireScheduleIsVisitThenFinish(s: SState, c: nat, found: Lookup, commits: bool)
    requires SEnabled(s, Visit(c, found))
    ensures var sid := PassOf(s, c).todo[0];
      var s1 := SApply(s, Visit(c, found));
      if PassOf(s1, c).Halfway? then
        && SEnabled(s1, if commits then Finish(c) else Abort(c))
        && (var s2 := SApply(s1, if commits then Finish(c) else Abort(c));
          && s2.schedules == Handled(s.schedules, sid, found, commits, s.l.now, s.cfg)
          && sid in s.schedules && s.schedules[sid].nextRun.Some?
          && s2.ledger == s.ledger + [Fired(sid, s.schedules[sid].nextRun.value, s.l.now)])
      else s1.schedules == Handled(s.schedules, sid, found, commits, s.l.now, s.cfg) && s1.ledger == s.ledger
  {
  }

  /** A pass that meets each due schedule with working commits leaves each of them due only in the future, and fires
      no schedule twice. */
  lemma {:induction false} WalkMovesEveryScheduleOn(schedules: Schedules, turns: seq<Turn>, cfg: Config, k: nat)
    requires k < |turns| && AllCommit(turns)
    requires forall sid | sid in schedules :: IsCron(schedules[sid].cron)
    requires forall i, j | 0 <= i < j < |turns| :: turns[i].sid != turns[j].sid
    ensures var after, sid := Walked(schedules, turns, cfg), turns[k].sid;
      && (sid in after <==> sid in schedules)
      && (sid in after && after[sid].active && after[sid].nextRun.Some? ==> after[sid].nextRun.value > turns[k].now)
    decreases |turns|
  {
    var n := |turns| - 1;
    WalkTouchesOnlyItsTurns(schedules, turns[..n], cfg, turns[n].sid);
    if k < n {
      WalkMovesEveryScheduleOn(schedules, turns[..n], cfg, k);
      assert turns[..n][k] == turns[k];
    } else {
      var before, t := Walked(schedules, turns[..n], cfg), turns[n];
      if t.sid in before {
        assert before[t.sid].cron(t.now) > t.now;
      }
    }
  }

  lemma {:induction false} WalkTouchesOnlyItsTurns(schedules: Schedules, turns: seq<Turn>, cfg: Config, sid: nat)
    requires forall t | t in turns :: t.sid != sid
    ensures var after := Walked(schedules, turns, cfg);
      (sid in after <==> sid in schedules) && (sid in after ==> after[sid] == schedules[sid])
    decreases |turns|
  {
    if turns != [] {
      WalkTouchesOnlyItsTurns(schedules, turns[..|turns| - 1], cfg, sid);
    }
  }

  predicate DueAt(schedules: Schedules, sid: nat, now: int)
  {
    sid in schedules && schedules[sid].active && schedules[sid].nextRun.Some? && schedules[sid].nextRun.value <= now
  }

  /** The turns are the answer of the query at `now`, each schedule once, each handled later. */
  ghost predicate AnswersQuery(schedules: Schedules, turns: seq<Turn>, now: int)
  {
    (forall i, j | 0 <= i < j < |turns| :: turns[i].sid != turns[j].sid)
    && (forall t | t in turns :: DueAt(schedules, t.sid, now) && t.now >= now)
    && forall sid: nat | DueAt(schedules, sid, now) :: exists t :: t in turns && t.sid == sid
  }

  /** After a pass over what the query found, with working commits, nothing is due any more at the time of the query. */
  lemma PassLeavesNothingDue(schedules: Schedules, turns: seq<Turn>, cfg: Config, now: int, sid: nat)
    requires AnswersQuery(schedules, turns, now) && AllCommit(turns)
    requires AllCron(schedules)
    ensures !DueAt(Walked(schedules, turns, cfg), sid, now)
  {
    if t :| t in turns && t.sid == sid {
      var k :| 0 <= k < |turns| && turns[k] == t;
      WalkMovesEveryScheduleOn(schedules, turns, cfg, k);
    } else {
      WalkTouchesOnlyItsTurns(schedules, turns, cfg, sid);
      assert !DueAt(schedules, sid, now);
    }
  }

  lemma NothingIsDue(schedules: Schedules, turns: seq<Turn>, cfg: Config, now: int)
    requires AnswersQuery(schedules, turns, now)
    ensures AllCron(schedules) && AllCommit(turns) ==>
      forall sid: nat :: !DueAt(Walked(schedules, turns, cfg), sid, now)
  {
    if AllCron(schedules) && AllCommit(turns) {
      forall sid: nat ensures !DueAt(Walked(schedules, turns, cfg), sid, now) {
        PassLeavesNothingDue(schedules, turns, cfg, now, sid);
      }
    }
  }
}

/** How long a pass may take: exactly less than the lease. */
module SchedulerCases {
  import opened Base
  import opened Lease
  import opened Scheduling

  // ---------- the promise, for sections of a given length ----------

  /** No replica has been in its section for more than d seconds. */
  ghost predicate SectionsLast(s: LState, d: int)
  {
    forall c: nat | ClientOf(s, c).Owner? :: s.now - ClientOf(s, c).since <= d
  }

  ghost predicate ShortSections(run: seq<SState>, d: int)
  {
    forall j: nat | j < |run| :: SectionsLast(run[j].l, d)
  }

  ghost predicate FiredOnce(s: SState)
  {
    forall sid: nat, slot: int :: TimesFired(s.ledger, sid, slot) <= 1 + s.broken[(sid, slot)]
  }

  /** In every run of this configuration whose sections last at most d seconds, every slot fires once, plus once for
      each firing broken off. */
  ghost predicate OncePerSlot(cfg: Config, d: int)
  {
    forall run: seq<SState>, steps: seq<SStep> | STrace(run, steps) && run[0].cfg == cfg && ShortSections(run, d) ::
      forall i: nat | i < |run| :: FiredOnce(run[i])
  }

  lemma {:induction false} LeaseIsFixed(run: seq<SState>, steps: seq<SStep>, i: nat)
    requires STrace(run, steps) && i < |run|
    ensures run[i].l.ttl == run[0].cfg.pollInterval * 2 && run[i].cfg == run[0].cfg
  {
    if i > 0 {
      LeaseIsFixed(run, steps, i - 1);
      assert SStepAt(run, steps, i - 1);
    }
  }

  lemma ShortSectionsFire(run: seq<SState>, steps: seq<SStep>, d: int, i: nat)
    requires STrace(run, steps) && ShortSections(run, d) && d < run[0].cfg.pollInterval * 2 && i < |run|
    ensures FiredOnce(run[i])
  {
    forall j: nat | j < i ensures SectionsFit(run[j].l) {
      LeaseIsFixed(run, steps, j);
      assert SectionsLast(run[j].l, d);
    }
    forall sid: nat, slot: int ensures TimesFired(run[i].ledger, sid, slot) <= 1 + run[i].broken[(sid, slot)] {
      SlotFiresOnce(run, steps, i, sid, slot);
    }
  }

  // ---------- a pass as long as its lease ----------

  /** Due at second t, and every second from then on. */
  function From(t: int): Cron
  {
    u => if u < t then t else u + 1
  }

  lemma FromIsCron(t: int)
    ensures IsCron(From(t))
  {
  }

  /** The states of the run: one schedule, next due at second t, which is the length of the lease. */
  ghost function At(cfg: Config, t: int, now: int, key: Option<Entry>, clients: map<nat, Client>, nextToken: nat,
    passes: map<nat, Progress>, ledger: seq<Fired>): SState
  {
    SState(LState(now, t, key, clients, nextToken), cfg,
      map[0 := Schedule(From(t), true, Some(t), None, 0)], passes, ledger, {}, multiset{}, {0})
  }

  lemma Extend(run: seq<SState>, steps: seq<SStep>, step: SStep, s': SState, d: int)
    requires STrace(run, steps) && ShortSections(run, d)
    requires SEnabled(run[|steps|], step) && s' == SApply(run[|steps|], step) && SectionsLast(s'.l, d)
    ensures STrace(run + [s'], steps + [step]) && ShortSections(run + [s'], d)
  {
    var run', steps' := run + [s'], steps + [step];
    forall i: nat | i < |steps'| ensures SStepAt(run', steps', i) {
      if i < |steps| {
        assert SStepAt(run, steps, i);
      }
    }
  }

  /** A lease of t seconds, with the first firing due when it ends. */
  ghost predicate Fits(cfg: Config, t: int, d: int)
  {
    t == cfg.pollInterval * 2 && 0 < t <= d && 0 <= cfg.pollInterval * cfg.maxMissedRuns
  }

  ghost predicate Ends(run: seq<SState>, steps: seq<SStep>, cfg: Config, d: int, s: SState)
  {
    STrace(run, steps) && run[0].cfg == cfg && ShortSections(run, d) && run[|steps|] == s
  }

  lemma Begun(cfg: Config, t: int, d: int) returns (run: seq<SState>, steps: seq<SStep>)
    requires Fits(cfg, t, d)
    ensures Ends(run, steps, cfg, d, At(cfg, t, 0, None, map[], 0, map[], []))
  {
    FromIsCron(t);
    var s0 := SState(LState(0, t, None, map[], 0), cfg, map[], map[], [], {}, multiset{}, {});
    var s1 := At(cfg, t, 0, None, map[], 0, map[], []);
    assert SApply(s0, AddSchedule(0, From(t))) == s1;
    Extend([s0], [], AddSchedule(0, From(t)), s1, d);
    return [s0] + [s1], [] + [AddSchedule(0, From(t))];
  }

  /** A replica whose turn it is finds the key free and takes the lease. */
  lemma TakesLease(run: seq<SState>, steps: seq<SStep>, cfg: Config, t: int, d: int, c: nat, now: int,
    key: Option<Entry>, clients: map<nat, Client>, passes: map<nat, Progress>, ledger: seq<Fired>)
    returns (run': seq<SState>, steps': seq<SStep>)
    requires Fits(cfg, t, d) && Ends(run, steps, cfg, d, At(cfg, t, now, key, clients, c, passes, ledger))
    requires Visible(key, now).None? && c !in clients
    ensures Ends(run', steps', cfg, d,
                 At(cfg, t, now, Some(Entry(c, now + t)), clients[c := Owner(c, now)], c + 1, passes, ledger))
  {
    assert SectionsLast(run[|steps|].l, d);
    var s1 := At(cfg, t, now, key, clients[c := Trying(c, now + 10)], c + 1, passes, ledger);
    assert forall b: nat | b != c :: ClientOf(s1.l, b) == ClientOf(run[|steps|].l, b);
    Extend(run, steps, Lock(Begin(c, 10)), s1, d);
    var s2 := At(cfg, t, now, Some(Entry(c, now + t)), clients[c := Owner(c, now)], c + 1, passes, ledger);
    assert clients[c := Trying(c, now + 10)][c := Owner(c, now)] == clients[c := Owner(c, now)];
    assert forall b: nat | b != c :: ClientOf(s2.l, b) == ClientOf(s1.l, b);
    assert SApply(s1, Lock(TrySet(c, SetAnswered))) == s2;
    Extend(run + [s1], steps + [Lock(Begin(c, 10))], Lock(TrySet(c, SetAnswered)), s2, d);
    run', steps' := run + [s1] + [s2], steps + [Lock(Begin(c, 10))] + [Lock(TrySet(c, SetAnswered))];
  }

  /** An owner at second t fires the slot due then. */
  lemma FiresSlot(run: seq<SState>, steps: seq<SStep>, cfg: Config, t: int, d: int, c: nat,
    key: Option<Entry>, clients: map<nat, Client>, next: nat, passes: map<nat, Progress>, ledger: seq<Fired>)
    returns (run': seq<SState>, steps': seq<SStep>)
    requires Fits(cfg, t, d) && Ends(run, steps, cfg, d, At(cfg, t, t, key, clients, next, passes, ledger))
    requires c in clients && clients[c].Owner? && c !in passes
    ensures Ends(run', steps', cfg, d,
                 At(cfg, t, t, key, clients, next,
                    passes[c := Halfway(0, t, t, From(t), [])], ledger + [Fired(0, t, t)]))
  {
    assert SectionsLast(run[|steps|].l, d);
    var todo: seq<nat>, done: seq<nat> := [0], [];
    var s1 := At(cfg, t, t, key, clients, next, passes[c := Walking(todo)], ledger);
    assert SApply(run[|steps|], ListDue(c, todo)) == s1;
    Extend(run, steps, ListDue(c, todo), s1, d);
    var half := Halfway(0, t, t, From(t), done);
    var s2 := At(cfg, t, t, key, clients, next, passes[c := half], ledger + [Fired(0, t, t)]);
    assert todo[1..] == done;
    assert passes[c := Walking(todo)][c := half] == passes[c := half];
    assert SApply(s1, Visit(c, Version)) == s2;
    Extend(run + [s1], steps + [ListDue(c, todo)], Visit(c, Version), s2, d);
    run', steps' := run + [s1] + [s2], steps + [ListDue(c, todo)] + [Visit(c, Version)];
  }

  /** A pass as long as its lease: a second replica takes over between the first one's two transactions and fires
      the same slot again, although no firing broke off. */
  lemma LongPassFiresTwice(cfg: Config, t: int, d: int) returns (run: seq<SState>, steps: seq<SStep>)
    requires Fits(cfg, t, d)
    ensures STrace(run, steps) && run[0].cfg == cfg && ShortSections(run, d)
    ensures TimesFired(run[|steps|].ledger, 0, t) == 2 && run[|steps|].broken == multiset{}
  {
    run, steps := Begun(cfg, t, d);
    run, steps := TakesLease(run, steps, cfg, t, d, 0, 0, None, map[], map[], []);
    var key, clients: map<nat, Client> := Some(Entry(0, t)), map[0 := Owner(0, 0)];
    var s := At(cfg, t, t, key, clients, 1, map[], []);
    assert SApply(run[|steps|], Lock(Pass(t))) == s;
    Extend(run, steps, Lock(Pass(t)), s, d);
    run, steps := run + [s], steps + [Lock(Pass(t))];
    run, steps := FiresSlot(run, steps, cfg, t, d, 0, key, clients, 1, map[], []);
    var passes := map[0 := Halfway(0, t, t, From(t), [])];
    run, steps := TakesLease(run, steps, cfg, t, d, 1, t, key, clients, passes, [Fired(0, t, t)]);
    run, steps := FiresSlot(run, steps, cfg, t, d, 1, Some(Entry(1, t + t)), clients[1 := Owner(1, t)], 2, passes,
                            [Fired(0, t, t)]);
    TwiceFired(t);
  }

  lemma TwiceFired(t: int)
    ensures TimesFired([Fired(0, t, t)] + [Fired(0, t, t)], 0, t) == 2
  {
    var one := [Fired(0, t, t)];
    assert one[..0] == [] && (one + one)[..1] == one;
    assert TimesFired(one, 0, t) == 1;
  }

  /** Every slot fires once (plus once for each firing broken off) in all runs whose passes last at most d seconds,
      exactly if that is less than the lease of twice the poll interval. */
  lemma OncePerSlotIff(cfg: Config, d: int)
    requires cfg.pollInterval > 0 && cfg.maxMissedRuns > 0
    ensures OncePerSlot(cfg, d) <==> d < cfg.pollInterval * 2
  {
    if d < cfg.pollInterval * 2 {
      forall run: seq<SState>, steps: seq<SStep>, i: nat
        | STrace(run, steps) && run[0].cfg == cfg && ShortSections(run, d) && i < |run|
        ensures FiredOnce(run[i])
      {
        ShortSectionsFire(run, steps, d, i);
      }
    } else {
      var t := cfg.pollInterval * 2;
      assert cfg.pollInterval * cfg.maxMissedRuns >= 0;
      var run, steps := LongPassFiresTwice(cfg, t, d);
      assert !FiredOnce(run[|steps|]);
    }
  }
}

/**
 The per-minute rate check of ephemeral executions (api/routers/ephemeral.py:91-102). Each Redis command is one step;
 any number of requests are in flight, and one may stop between any two of its steps. Times are whole seconds.
 */
module RateLimit {
  import opened Base

  /** The counter key: API key and UTC minute. */
  datatype Slot = Slot(key: nat, minute: int)

  datatype Counter = Counter(value: nat, expiresAt: Option<int>)

  type Counters = map<Slot, Counter>

  const COUNTER_TTL := 120

  /** A request that has formatted its counter key, or that still owes the counter its expiry. */
  datatype Request = Named(slot: Slot) | Owing(slot: Slot)

  /** The answer of one INCR, for a request that arrived at `at`. */
  datatype Reply = Reply(slot: Slot, at: int, count: nat)

  datatype RState = RState(now: int, counters: Counters, requests: map<nat, Arrival>, replies: seq<Reply>)

  datatype Arrival = Arrival(at: int, request: Request)

  datatype RStep =
    | Tick(d: nat)
    | Arrive(r: nat, key: nat)
    | Incr(r: nat)
    | Expire(r: nat)
    | Vanish(r: nat)

  function MinuteOf(at: int): int
  {
    at / 60
  }

  function LiveValue(counters: Counters, slot: Slot, now: int): nat
  {
    if slot in counters && (counters[slot].expiresAt.None? || now < counters[slot].expiresAt.value)
    then counters[slot].value else 0
  }

  function Incremented(counters: Counters, slot: Slot, now: int): Counters
  {
    var live := LiveValue(counters, slot, now);
    counters[slot := Counter(live + 1, if live == 0 then None else counters[slot].expiresAt)]
  }

  function WithExpiry(counters: Counters, slot: Slot, at: int): Counters
  {
    if slot in counters then counters[slot := counters[slot].(expiresAt := Some(at))] else counters
  }

  ghost predicate REnabled(s: RState, step: RStep)
  {
    match step
    case Tick(_) => true
    case Arrive(r, _) => r !in s.requests
    case Incr(r) => r in s.requests && s.requests[r].request.Named?
    case Expire(r) => r in s.requests && s.requests[r].request.Owing?
    case Vanish(r) => r in s.requests
  }

  function RApply(s: RState, step: RStep): RState
  {
    match step
    case Tick(d) => s.(now := s.now + d)
    case Arrive(r, key) => s.(requests := s.requests[r := Arrival(s.now, Named(Slot(key, MinuteOf(s.now))))])
    case Incr(r) =>
      if r !in s.requests then s
      else
        var slot, at := s.requests[r].request.slot, s.requests[r].at;
        var count := LiveValue(s.counters, slot, s.now) + 1;
        s.(counters := Incremented(s.counters, slot, s.now),
        requests := if count == 1 then s.requests[r := Arrival(at, Owing(slot))] else s.requests - {r},
        replies := s.replies + [Reply(slot, at, count)])
    case Expire(r) =>
      if r !in s.requests then s
      else s.(counters := WithExpiry(s.counters, s.requests[r].request.slot, s.now + COUNTER_TTL),
           requests := s.requests - {r})
    case Vanish(r) => s.(requests := s.requests - {r})
  }

  ghost predicate RStepAt(run: seq<RState>, steps: seq<RStep>, i: nat)
    requires i < |steps| < |run|
  {
    REnabled(run[i], steps[i]) && run[i + 1] == RApply(run[i], steps[i])
  }

  /** A run from an empty Redis. */
  ghost predicate RTrace(run: seq<RState>, steps: seq<RStep>)
  {
    |run| == |steps| + 1
    && run[0].counters == map[] && run[0].requests == map[] && run[0].replies == []
    && forall i: nat | i < |steps| :: RStepAt(run, steps, i)
  }

  /** The step is an INCR of this counter, `slack` or more seconds after the end of its minute. */
  predicate LateBy(s: RState, step: RStep, slot: Slot, slack: int)
  {
    step.Incr? && step.r in s.requests && s.requests[step.r].request.slot == slot
    && s.now >= (slot.minute + 1) * 60 + slack
  }

  /** This counter's INCRs so far each came less than `slack` seconds after the end of its minute. */
  ghost predicate PromptFor(run: seq<RState>, steps: seq<RStep>, i: nat, slot: Slot, slack: int)
    requires i <= |steps| < |run|
  {
    forall j | 0 <= j < i :: !LateBy(run[j], steps[j], slot, slack)
  }

  // ---------- how many pass ----------

  /** Requests of a slot that were counted. */
  function Asked(replies: seq<Reply>, slot: Slot): nat
  {
    if replies == [] then 0
    else
      var n := |replies| - 1;
      Asked(replies[..n], slot) + if replies[n].slot == slot then 1 else 0
  }

  /** Those of them whose count was within the limit. */
  function Passed(replies: seq<Reply>, slot: Slot, limit: nat): nat
  {
    if replies == [] then 0
    else
      var n := |replies| - 1;
      Passed(replies[..n], slot, limit) + if replies[n].slot == slot && replies[n].count <= limit then 1 else 0
  }

  /** Those within the limit that arrived in a window of time. */
  function PassedBetween(replies: seq<Reply>, key: nat, lo: int, hi: int, limit: nat): nat
  {
    if replies == [] then 0
    else
      var n := |replies| - 1;
      var last := replies[n];
      PassedBetween(replies[..n], key, lo, hi, limit)
      + if last.slot.key == key && lo <= last.at < hi && last.count <= limit then 1 else 0
  }

  function Min(a: nat, b: nat): nat
  {
    if a < b then a else b
  }

  ghost predicate Tallied(s: RState, slot: Slot, limit: nat)
  {
    var value := if slot in s.counters then s.counters[slot].value else 0;
    Asked(s.replies, slot) == value && Passed(s.replies, slot, limit) == Min(value, limit)
  }

  ghost predicate CounterLasts(s: RState, slot: Slot)
    requires slot in s.counters
  {
    s.counters[slot].value >= 1
    && (s.counters[slot].expiresAt.Some? ==> s.counters[slot].expiresAt.value >= slot.minute * 60 + COUNTER_TTL)
  }

  ghost predicate Timely(s: RState, a: Arrival)
  {
    a.at <= s.now && a.request.slot.minute == MinuteOf(a.at)
  }

  /** What holds however late INCRs are. */
  ghost predicate RInvariant(s: RState)
  {
    (forall slot | slot in s.counters :: CounterLasts(s, slot))
    && (forall r | r in s.requests :: Timely(s, s.requests[r]))
    && (forall i | 0 <= i < |s.replies| :: s.replies[i].slot.minute == MinuteOf(s.replies[i].at))
  }

  lemma StepKeepsCounters(s: RState, step: RStep)
    requires RInvariant(s) && REnabled(s, step)
    ensures RInvariant(RApply(s, step))
  {
    var s' := RApply(s, step);
    if step.Incr? || step.Expire? {
      assert Timely(s, s.requests[step.r]);
    }
    forall slot | slot in s'.counters ensures CounterLasts(s', slot) {
      if slot in s.counters {
        assert CounterLasts(s, slot);
      }
    }
    forall r | r in s'.requests ensures Timely(s', s'.requests[r]) {
      if r in s.requests {
        assert Timely(s, s.requests[r]);
      }
    }
  }

  lemma {:induction false} CountersHold(run: seq<RState>, steps: seq<RStep>, i: nat)
    requires RTrace(run, steps) && i < |run|
    ensures RInvariant(run[i])
  {
    if i > 0 {
      CountersHold(run, steps, i - 1);
      assert RStepAt(run, steps, i - 1);
      StepKeepsCounters(run[i - 1], steps[i - 1]);
    }
  }

  /** INCR and EXPIRE: the counter grows by one, from 0 when it is not there or has expired, and is to live 120 seconds
      from its EXPIRE on. */
  lemma CommandsWrite(s: RState, step: RStep)
    requires REnabled(s, step) && (step.Incr? || step.Expire?)
    ensures var slot, s' := s.requests[step.r].request.slot, RApply(s, step);
      var there := slot in s.counters
                   && (s.counters[slot].expiresAt == None || s.now < s.counters[slot].expiresAt.value);
      var before := if there then s.counters[slot].value else 0;
      && (forall x | x in s.counters && x != slot :: x in s'.counters && s'.counters[x] == s.counters[x])
      && (step.Incr? ==>
            slot in s'.counters && s'.counters[slot].value == before + 1
            && s'.counters[slot].expiresAt == (if before == 0 then None else s.counters[slot].expiresAt)
            && s'.replies == s.replies + [Reply(slot, s.requests[step.r].at, before + 1)])
      && (step.Expire? && slot in s.counters ==>
            s'.counters[slot] == Counter(s.counters[slot].value, Some(s.now + 120)))
  {
  }

  /** A request is counted for the minute it arrives in. */
  lemma ArrivalNamesMinute(s: RState, r: nat, key: nat)
    requires REnabled(s, Arrive(r, key))
    ensures var a := RApply(s, Arrive(r, key)).requests[r];
      a.at == s.now && a.request.Named? && a.request.slot.key == key
      && a.request.slot.minute * 60 <= s.now < a.request.slot.minute * 60 + 60
  {
  }

  /** A prompt INCR finds the counter its minute started with, so its answer is one more than all earlier ones; an INCR
      of another counter, late or not, does not touch this one. */
  lemma PromptIncrCounts(s: RState, r: nat, slot: Slot, limit: nat)
    requires RInvariant(s) && Tallied(s, slot, limit) && REnabled(s, Incr(r)) && !LateBy(s, Incr(r), slot, 60)
    ensures Tallied(RApply(s, Incr(r)), slot, limit)
  {
    var mine := s.requests[r].request.slot;
    OneMoreReply(s.replies, Reply(mine, s.requests[r].at, LiveValue(s.counters, mine, s.now) + 1), slot, limit);
    if mine == slot {
      PromptIsLive(s, slot);
    }
  }

  lemma OneMoreReply(replies: seq<Reply>, reply: Reply, slot: Slot, limit: nat)
    ensures Asked(replies + [reply], slot) == Asked(replies, slot) + if reply.slot == slot then 1 else 0
    ensures Passed(replies + [reply], slot, limit) ==
      Passed(replies, slot, limit) + if reply.slot == slot && reply.count <= limit then 1 else 0
  {
    assert (replies + [reply])[..|replies|] == replies;
  }

  /** Until a minute after its own, a counter has not expired. */
  lemma PromptIsLive(s: RState, slot: Slot)
    requires RInvariant(s) && s.now < (slot.minute + 1) * 60 + 60
    ensures LiveValue(s.counters, slot, s.now) == if slot in s.counters then s.counters[slot].value else 0
  {
    if slot in s.counters {
      assert CounterLasts(s, slot);
    }
  }

  lemma StepKeepsTally(s: RState, step: RStep, slot: Slot, limit: nat)
    requires RInvariant(s) && Tallied(s, slot, limit) && REnabled(s, step) && !LateBy(s, step, slot, 60)
    ensures Tallied(RApply(s, step), slot, limit)
  {
    if step.Incr? {
      PromptIncrCounts(s, step.r, slot, limit);
    }
  }

  /** A counter whose own INCRs are prompt equals the requests counted, whatever happens to other counters. */
  lemma {:induction false} TallyHolds(run: seq<RState>, steps: seq<RStep>, i: nat, slot: Slot, limit: nat)
    requires RTrace(run, steps) && i < |run| && PromptFor(run, steps, i, slot, 60)
    ensures Tallied(run[i], slot, limit)
  {
    if i > 0 {
      TallyHolds(run, steps, i - 1, slot, limit);
      CountersHold(run, steps, i - 1);
      assert RStepAt(run, steps, i - 1);
      StepKeepsTally(run[i - 1], steps[i - 1], slot, limit);
    }
  }

  /** Of the requests counted for a key's minute exactly the first `limit` pass, if none of its own INCRs is late:
      whatever the interleaving, however requests stop half-way, whenever counters expire, and however late other keys'
      INCRs are. */
  lemma MinuteIsLimited(run: seq<RState>, steps: seq<RStep>, i: nat, slot: Slot, limit: nat)
    requires RTrace(run, steps) && i < |run| && PromptFor(run, steps, i, slot, 60)
    ensures Passed(run[i].replies, slot, limit) == Min(Asked(run[i].replies, slot), limit)
  {
    TallyHolds(run, steps, i, slot, limit);
  }

  lemma {:induction false} WindowMeetsTwoMinutes(replies: seq<Reply>, key: nat, lo: int, limit: nat)
    requires forall i | 0 <= i < |replies| :: replies[i].slot.minute == MinuteOf(replies[i].at)
    ensures PassedBetween(replies, key, lo, lo + 60, limit) <=
      Passed(replies, Slot(key, MinuteOf(lo)), limit) + Passed(replies, Slot(key, MinuteOf(lo) + 1), limit)
  {
    if replies != [] {
      WindowMeetsTwoMinutes(replies[..|replies| - 1], key, lo, limit);
    }
  }

  /** At most twice the limit arrives and passes in any sixty seconds, if the INCRs of the two minutes the window meets
      are not late. */
  lemma WindowIsLimited(run: seq<RState>, steps: seq<RStep>, i: nat, key: nat, lo: int, limit: nat)
    requires RTrace(run, steps) && i < |run|
    requires PromptFor(run, steps, i, Slot(key, MinuteOf(lo)), 60)
    requires PromptFor(run, steps, i, Slot(key, MinuteOf(lo) + 1), 60)
    ensures PassedBetween(run[i].replies, key, lo, lo + 60, limit) <= 2 * limit
  {
    CountersHold(run, steps, i);
    WindowMeetsTwoMinutes(run[i].replies, key, lo, limit);
    MinuteIsLimited(run, steps, i, Slot(key, MinuteOf(lo)), limit);
    MinuteIsLimited(run, steps, i, Slot(key, MinuteOf(lo) + 1), limit);
  }

  // ---------- how late is too late ----------

  /** In every run, a counter whose INCRs each come less than `slack` seconds after the end of its minute keeps every
      limit. */
  ghost predicate SlackIsSafe(slack: int)
  {
    forall run: seq<RState>, steps: seq<RStep>, i: nat, slot: Slot
      | RTrace(run, steps) && i < |run| && PromptFor(run, steps, i, slot, slack) ::
      forall limit: nat :: Passed(run[i].replies, slot, limit) <= limit
  }

  /** Two requests of one minute; the second one's INCR comes when the counter has just expired. */
  function LateSteps(): seq<RStep>
  {
    [Arrive(0, 7), Incr(0), Expire(0), Tick(59), Arrive(1, 7), Tick(61), Incr(1)]
  }

  function LateRun(): seq<RState>
  {
    var slot := Slot(7, 0);
    var first, second := Reply(slot, 0, 1), Reply(slot, 59, 1);
    var ended := map[slot := Counter(1, Some(120))];
    [RState(0, map[], map[], []),
     RState(0, map[], map[0 := Arrival(0, Named(slot))], []),
     RState(0, map[slot := Counter(1, None)], map[0 := Arrival(0, Owing(slot))], [first]),
     RState(0, ended, map[], [first]),
     RState(59, ended, map[], [first]),
     RState(59, ended, map[1 := Arrival(59, Named(slot))], [first]),
     RState(120, ended, map[1 := Arrival(59, Named(slot))], [first]),
     RState(120, map[slot := Counter(1, None)], map[1 := Arrival(59, Owing(slot))], [first, second])]
  }

  lemma LateStep(i: nat)
    requires i < 7
    ensures RStepAt(LateRun(), LateSteps(), i)
  {
  }

  lemma LateIncrPasses(slack: int)
    requires slack > 60
    ensures RTrace(LateRun(), LateSteps()) && PromptFor(LateRun(), LateSteps(), 7, Slot(7, 0), slack)
    ensures Passed(LateRun()[7].replies, Slot(7, 0), 1) == 2
  {
    var run := LateRun();
    forall i: nat | i < 7 ensures RStepAt(run, LateSteps(), i) {
      LateStep(i);
    }
    assert run[7].replies[..1] == [Reply(Slot(7, 0), 0, 1)];
    assert Passed(run[7].replies[..1], Slot(7, 0), 1) == 1;
  }

  lemma PromptForLess(run: seq<RState>, steps: seq<RStep>, i: nat, slot: Slot, slack: int)
    requires i <= |steps| < |run| && PromptFor(run, steps, i, slot, slack) && slack <= 60
    ensures PromptFor(run, steps, i, slot, 60)
  {
    forall j | 0 <= j < i ensures !LateBy(run[j], steps[j], slot, 60) {
      assert !LateBy(run[j], steps[j], slot, slack);
    }
  }

  /** The two-minute expiry tolerates every INCR less than sixty seconds after its minute's end, and not one at
      sixty. */
  lemma SlackIsSafeIff(slack: int)
    ensures SlackIsSafe(slack) <==> slack <= 60
  {
    if slack <= 60 {
      forall run: seq<RState>, steps: seq<RStep>, i: nat, slot: Slot
        | RTrace(run, steps) && i < |run| && PromptFor(run, steps, i, slot, slack)
        ensures forall limit: nat :: Passed(run[i].replies, slot, limit) <= limit
      {
        PromptForLess(run, steps, i, slot, slack);
        forall limit: nat ensures Passed(run[i].replies, slot, limit) <= limit {
          MinuteIsLimited(run, steps, i, slot, limit);
        }
      }
    } else {
      LateIncrPasses(slack);
      assert 7 < |LateRun()| && !(Passed(LateRun()[7].replies, Slot(7, 0), 1) <= 1);
    }
  }
}

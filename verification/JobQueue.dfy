/** The Redis sorted sets behind the queue, and the client calls over them (shared/queue/redis_client.py). */
module JobQueue {
  import opened Base

  /** A sorted-set member: the JSON text of a job, or some other text found in the processing set. */
  datatype Member = Job(id: nat, body: nat) | Foreign(text: nat)

  /** Byte order of the texts: a job's text begins with its fixed-width id. */
  predicate TextBefore(a: Member, b: Member)
  {
    match (a, b)
    case (Job(i, x), Job(j, y)) => i < j || (i == j && x < y)
    case (Job(_, _), Foreign(_)) => true
    case (Foreign(_), Job(_, _)) => false
    case (Foreign(x), Foreign(y)) => x < y
  }

  type ZSet = map<Member, int>

  const PRIORITY_STEP := 1_000_000

  function Score(at: int, priority: int): int
  {
    at - priority * PRIORITY_STEP
  }

  /** Redis order inside a sorted set: by score, then by text. */
  predicate Before(z: ZSet, a: Member, b: Member)
    requires a in z && b in z
  {
    z[a] < z[b] || (z[a] == z[b] && TextBefore(a, b))
  }

  ghost predicate IsMin(z: ZSet, m: Member)
  {
    m in z && forall o | o in z && o != m :: Before(z, m, o)
  }

  predicate HasId(m: Member, id: nat)
  {
    m.Job? && m.id == id
  }

  datatype Push = Push(at: int, fate: Fate)

  datatype Pull = Pull(pop: Fate, move: Fate)

  datatype Dequeued = Nothing | Got(job: Member) | Raised

  /** One ZSCAN call: what others have made of the processing set by then, the page, and whether an answer came back. */
  datatype Look = Look(view: ZSet, page: seq<Member>, answered: bool)

  /** One attempt to acknowledge: the calls of its scan, what others have made of the set when it removes, and the fate
      of that command. */
  datatype Sweep = Sweep(looks: seq<Look>, atRemoval: ZSet, fate: Fate)

  const ATTEMPTS := 3

  /** What one dequeue attempt did, seen from the server. */
  datatype Effect = Empty | Untouched | Dropped(m: Member) | Stranded(m: Member) | Handed(m: Member)

  ghost predicate Moved(m: Member, q: ZSet, q': ZSet, p: ZSet, p': ZSet)
  {
    IsMin(q, m) && q' == q - {m} && p' == p[m := q[m]]
  }

  /** Everything that left q is either lost or now in p with its score, and nothing else changed. */
  ghost predicate Accounted(q: ZSet, q': ZSet, p: ZSet, p': ZSet, lost: seq<Member>, moved: seq<Member>)
  {
    && NoDuplicates(lost) && NoDuplicates(moved) && (forall m | m in lost :: m !in moved)
    && (forall m | m in lost || m in moved :: m in q)
    && (forall m :: m in q' <==> m in q && m !in lost && m !in moved)
    && (forall m | m in q' :: q'[m] == q[m])
    && (forall m :: m in p' <==> m in p || m in moved)
    && (forall m | m in p' :: p'[m] == if m in moved then q[m] else p[m])
  }

  lemma AccountMore(q: ZSet, q1: ZSet, q2: ZSet, p: ZSet, p1: ZSet, p2: ZSet,
    lost: seq<Member>, moved: seq<Member>, m: Member)
    requires Accounted(q, q1, p, p1, lost, moved)
    requires IsMin(q1, m) && q2 == q1 - {m}
    ensures forall o | o in q2 :: o in q && m in q && Before(q, m, o)
    ensures p2 == p1 ==> Accounted(q, q2, p, p2, lost + [m], moved)
    ensures p2 == p1[m := q1[m]] ==> Accounted(q, q2, p, p2, lost, moved + [m])
  {
    assert forall x :: x in lost + [m] <==> x in lost || x == m;
    assert forall x :: x in moved + [m] <==> x in moved || x == m;
  }

  function Handover(r: Dequeued): seq<Member>
  {
    if r.Got? then [r.job] else []
  }

  /** The queue after the attempts of one enqueue, the first answered one being the last made. */
  ghost function AfterPushes(z: ZSet, m: Member, priority: int, pushes: seq<Push>): ZSet
    decreases |pushes|
  {
    if pushes == [] then z
    else
      var applied := if pushes[0].fate.Refused? then z else z[m := Score(pushes[0].at, priority)];
      if pushes[0].fate.Replied? then applied else AfterPushes(applied, m, priority, pushes[1..])
  }

  predicate Faulty(p: Pull)
  {
    !(p.pop.Replied? && p.move.Replied?)
  }

  /** Number of these attempts in which some command did not come back answered. */
  function Faults(pulls: seq<Pull>): nat
  {
    if pulls == [] then 0
    else
      var n := |pulls| - 1;
      Faults(pulls[..n]) + if Faulty(pulls[n]) then 1 else 0
  }

  /** Adding the attempts in front of i adds their faults. */
  lemma {:induction false} FaultsGrow(pulls: seq<Pull>, i: nat)
    requires i < |pulls|
    ensures Faults(pulls[..i]) + (if Faulty(pulls[i]) then 1 else 0) == Faults(pulls[..i + 1]) <= Faults(pulls)
    decreases |pulls|
  {
    var n := |pulls| - 1;
    assert pulls[..i + 1][..i] == pulls[..i];
    if i < n {
      FaultsGrow(pulls[..n], i);
      assert pulls[..n][..i] == pulls[..i] && pulls[..n][..i + 1] == pulls[..i + 1];
    } else {
      assert pulls[..i + 1] == pulls;
    }
  }

  /** Retrying an enqueue never adds a second entry: at most the member itself appears, rescored by the last
      attempt that reached Redis; every other entry keeps its place. */
  lemma {:induction false} RetriedPushIsOneEntry(z: ZSet, m: Member, priority: int, pushes: seq<Push>)
    ensures var z' := AfterPushes(z, m, priority, pushes);
      && z'.Keys - {m} == z.Keys - {m}
      && (forall o | o in z && o != m :: o in z' && z'[o] == z[o])
      && ((exists i | 0 <= i < |pushes| :: pushes[i].fate.Replied?) ==> m in z')
      && (m in z' && (m !in z || z'[m] != z[m]) ==>
        exists i | 0 <= i < |pushes| :: !pushes[i].fate.Refused? && z'[m] == Score(pushes[i].at, priority))
    decreases |pushes|
  {
    if pushes != [] && !pushes[0].fate.Replied? {
      var applied := if pushes[0].fate.Refused? then z else z[m := Score(pushes[0].at, priority)];
      RetriedPushIsOneEntry(applied, m, priority, pushes[1..]);
      assert forall i | 1 <= i < |pushes| :: pushes[i] == pushes[1..][i - 1];
      var z' := AfterPushes(z, m, priority, pushes);
      if m in z' && (m !in applied || z'[m] != applied[m]) {
        var i :| 0 <= i < |pushes| - 1 && !pushes[1..][i].fate.Refused? && z'[m] == Score(pushes[1..][i].at, priority);
        assert pushes[i + 1] == pushes[1..][i];
      }
    }
  }

  ghost predicate Stays(m: Member, looks: seq<Look>)
  {
    forall i | 0 <= i < |looks| :: m in looks[i].view
  }

  /** What ZSCAN promises: only members that are there, and every member that is there throughout. */
  ghost predicate Scans(looks: seq<Look>)
  {
    looks != []
    && (forall i, m | 0 <= i < |looks| && m in looks[i].page :: m in looks[i].view)
    && forall m | Stays(m, looks) :: exists i :: 0 <= i < |looks| && m in looks[i].page
  }

  /** Every command of the attempt is answered, and nobody else writes. */
  ghost predicate Calm(s: Sweep, z: ZSet)
  {
    (forall i | 0 <= i < |s.looks| :: s.looks[i].view == z && s.looks[i].answered)
    && s.atRemoval == z && s.fate.Replied?
  }

  /** Some command of the attempt is not answered. */
  ghost predicate Troubled(s: Sweep)
  {
    (exists i :: 0 <= i < |s.looks| && !s.looks[i].answered) || !s.fate.Replied?
  }

  ghost predicate LeftByOthers(z: ZSet, s: Sweep)
  {
    z == s.atRemoval || exists i :: 0 <= i < |s.looks| && s.looks[i].view == z
  }

  /** The scan finds an entry with the id that somebody else has taken out when it is to be removed. */
  ghost predicate BeatenTo(s: Sweep, id: nat)
  {
    exists i, m :: 0 <= i < |s.looks| && m in s.looks[i].page && HasId(m, id) && m !in s.atRemoval
  }

  /** Of the first n attempts, those whose removal was done but not answered. */
  function LostReplies(sweeps: seq<Sweep>, n: nat): nat
    requires n <= |sweeps|
  {
    if n == 0 then 0 else LostReplies(sweeps, n - 1) + if sweeps[n - 1].fate.ReplyLost? then 1 else 0
  }

  lemma {:induction false} LostRepliesGrow(sweeps: seq<Sweep>, i: nat, n: nat)
    requires i <= n <= |sweeps|
    ensures LostReplies(sweeps, i) <= LostReplies(sweeps, n)
  {
    if i < n {
      LostRepliesGrow(sweeps, i, n - 1);
    }
  }

  /** An undisturbed acknowledgement: one entry with the id is gone, or there was none. */
  ghost predicate Acknowledged(z: ZSet, z': ZSet, id: nat, removed: seq<Member>)
  {
    if removed == [] then z' == z && forall m | m in z :: !HasId(m, id)
    else |removed| == 1 && removed[0] in z && HasId(removed[0], id) && z' == z - {removed[0]}
  }

  /** The one entry an attempt took out, if any. */
  function Taken(m: Option<Member>): (r: seq<Member>)
  {
    if m.Some? then [m.value] else []
  }

  /** The last attempt made that reached Redis. */
  ghost predicate LastPush(pushes: seq<Push>, k: nat)
    requires k < |pushes|
  {
    (forall j | 0 <= j < k :: !pushes[j].fate.Replied?) && !pushes[k].fate.Refused?
    && (pushes[k].fate.Replied? || forall j | k < j < |pushes| :: pushes[j].fate.Refused?)
  }

  /** The queue after an enqueue: the last of the attempts made that reached Redis counts, and none is made after one
      that was answered. */
  lemma {:induction false} LastPushCounts(z: ZSet, m: Member, priority: int, pushes: seq<Push>, k: nat)
    requires k < |pushes| && LastPush(pushes, k)
    ensures AfterPushes(z, m, priority, pushes) == z[m := pushes[k].at - 1_000_000 * priority]
    decreases |pushes|
  {
    var applied := if pushes[0].fate.Refused? then z else z[m := Score(pushes[0].at, priority)];
    if k > 0 {
      LastPushCounts(applied, m, priority, pushes[1..], k - 1);
    } else if !pushes[0].fate.Replied? {
      AllRefused(applied, m, priority, pushes[1..]);
    }
  }

  lemma {:induction false} AllRefused(z: ZSet, m: Member, priority: int, pushes: seq<Push>)
    requires forall j | 0 <= j < |pushes| :: pushes[j].fate.Refused?
    ensures AfterPushes(z, m, priority, pushes) == z
    decreases |pushes|
  {
    if pushes != [] {
      AllRefused(z, m, priority, pushes[1..]);
    }
  }

  lemma OneMinimum(z: ZSet, a: Member, b: Member)
    requires IsMin(z, a) && IsMin(z, b)
    ensures a == b
  {
  }

  class Redis {
    var queue: ZSet
    var processing: ZSet

    constructor ()
      ensures queue == map[] && processing == map[]
    {
      queue, processing := map[], map[];
    }

    /** BZPOPMIN on the queue (the empty answer stands for its timeout). */
    method PopMin() returns (r: Option<(Member, int)>)
      modifies this`queue
      ensures r.None? <==> old(queue) == map[]
      ensures r.None? ==> queue == old(queue)
      ensures r.Some? ==> var (m, score) := r.value;
        IsMin(old(queue), m) && score == old(queue)[m] && queue == old(queue) - {m}
        && forall o | o in old(queue) && o != m ::
          score < old(queue)[o]
          || (score == old(queue)[o] && (m.Job? && o.Job? ==> m.id < o.id || (m.id == o.id && m.body < o.body)))
    {
      if queue == map[] {
        return None;
      }
      var best :| best in queue.Keys;
      var todo := queue.Keys - {best};
      while todo != {}
        invariant best in queue && best !in todo && todo <= queue.Keys
        invariant forall o | o in queue && o !in todo && o != best :: Before(queue, best, o)
        decreases todo
      {
        var o :| o in todo;
        todo := todo - {o};
        if Before(queue, o, best) {
          best := o;
        }
      }
      r := Some((best, queue[best]));
      queue := queue - {best};
    }

    /** One call of ZSCAN, after what others wrote, and the cursor to continue from (0 at the end). */
    method ZScan(looks: seq<Look>, cursor: nat) returns (next: nat, look: Look)
      requires cursor < |looks|
      modifies this`processing
      ensures look == looks[cursor] && processing == look.view
      ensures next == if cursor + 1 == |looks| then 0 else cursor + 1
    {
      look := looks[cursor];
      processing := look.view;
      next := if cursor + 1 == |looks| then 0 else cursor + 1;
    }

    /** Push with up to three attempts; false when the last one raised. */
    method EnqueueJob(id: nat, body: nat, priority: int, pushes: seq<Push>) returns (ok: bool)
      requires |pushes| == ATTEMPTS
      modifies this`queue
      ensures queue == AfterPushes(old(queue), Job(id, body), priority, pushes)
      ensures ok <==> exists i | 0 <= i < ATTEMPTS :: pushes[i].fate.Replied?
      ensures forall k | 0 <= k < ATTEMPTS && LastPush(pushes, k) ::
        queue == old(queue)[Job(id, body) := pushes[k].at - 1_000_000 * priority]
      ensures (forall k | 0 <= k < ATTEMPTS :: pushes[k].fate.Refused?) ==> queue == old(queue)
    {
      if forall k | 0 <= k < ATTEMPTS :: pushes[k].fate.Refused? {
        AllRefused(queue, Job(id, body), priority, pushes);
      }
      forall k | 0 <= k < ATTEMPTS && LastPush(pushes, k)
        ensures AfterPushes(queue, Job(id, body), priority, pushes) ==
          queue[Job(id, body) := pushes[k].at - 1_000_000 * priority]
      {
        LastPushCounts(queue, Job(id, body), priority, pushes, k);
      }
      var attempt := 0;
      while attempt < ATTEMPTS
        invariant 0 <= attempt <= ATTEMPTS
        invariant forall i | 0 <= i < attempt :: !pushes[i].fate.Replied?
        invariant AfterPushes(old(queue), Job(id, body), priority, pushes)
               == AfterPushes(queue, Job(id, body), priority, pushes[attempt..])
      {
        var p := pushes[attempt];
        if !p.fate.Refused? {
          queue := queue[Job(id, body) := Score(p.at, priority)];
        }
        if p.fate.Replied? {
          return true;
        }
        attempt := attempt + 1;
      }
      return false;
    }

    /** One attempt: BZPOPMIN, then ZADD to the processing set. */
    method TryDequeue(p: Pull) returns (r: Dequeued, ghost effect: Effect)
      modifies this
      ensures r.Nothing? <==> effect.Empty?
      ensures r.Got? <==> effect.Handed?
      ensures r.Got? ==> r.job == effect.m
      ensures effect.Dropped? || effect.Stranded? ==> Faulty(p)
      ensures effect.Empty? ==> old(queue) == map[]
      ensures match effect {
        case Empty => queue == old(queue) && processing == old(processing)
        case Untouched => queue == old(queue) && processing == old(processing)
        case Dropped(m) => IsMin(old(queue), m) && queue == old(queue) - {m} && processing == old(processing)
        case Stranded(m) => Moved(m, old(queue), queue, old(processing), processing)
        case Handed(m) => Moved(m, old(queue), queue, old(processing), processing)
      }
    {
      if p.pop.Refused? {
        return Raised, Untouched;
      }
      var popped := PopMin();
      if p.pop.ReplyLost? {
        return Raised, if popped.Some? then Dropped(popped.value.0) else Untouched;
      }
      if popped.None? {
        return Nothing, Empty;
      }
      var (m, score) := popped.value;
      if p.move.Refused? {
        return Raised, Dropped(m);
      }
      processing := processing[m := score];
      if p.move.ReplyLost? {
        return Raised, Stranded(m);
      }
      return Got(m), Handed(m);
    }

    /** Pop and move to processing, with up to three attempts. Nothing leaves the queue unaccounted for: what was
        popped is handed back, or is in processing without the caller knowing, or is lost; and the last two cost one
        failed command each. */
    method DequeueJob(pulls: seq<Pull>)
      returns (r: Dequeued, ghost lost: seq<Member>, ghost unreported: seq<Member>)
      requires |pulls| == ATTEMPTS
      modifies this
      ensures Accounted(old(queue), queue, old(processing), processing, lost, unreported + Handover(r))
      ensures |lost| + |unreported| <= Faults(pulls)
      ensures r.Got? ==> forall m | m in queue :: Before(old(queue), r.job, m)
      ensures r.Nothing? ==> queue == map[]
    {
      r, lost, unreported := Raised, [], [];
      assert pulls[..ATTEMPTS] == pulls;
      var attempt := 0;
      while attempt < ATTEMPTS
        invariant 0 <= attempt <= ATTEMPTS && r.Raised?
        invariant Accounted(old(queue), queue, old(processing), processing, lost, unreported)
        invariant |lost| + |unreported| <= Faults(pulls[..attempt])
      {
        ghost var q1, p1 := queue, processing;
        ghost var effect;
        r, effect := TryDequeue(pulls[attempt]);
        FaultsGrow(pulls, attempt);
        if effect.Dropped? || effect.Stranded? || effect.Handed? {
          AccountMore(old(queue), q1, queue, old(processing), p1, processing, lost, unreported, effect.m);
        }
        if !r.Raised? {
          assert unreported + Handover(r) == if r.Got? then unreported + [r.job] else unreported;
          return;
        }
        if effect.Dropped? {
          lost := lost + [effect.m];
        } else if effect.Stranded? {
          unreported := unreported + [effect.m];
        }
        attempt := attempt + 1;
      }
      assert unreported + Handover(r) == unreported;
    }

    /** One attempt: scan page by page, remove the first member carrying the id. Others write in between. */
    method TryAck(id: nat, s: Sweep) returns (ok: bool, ghost removed: Option<Member>, ghost others: ZSet)
      requires Scans(s.looks)
      modifies this`processing
      ensures LeftByOthers(others, s)
      ensures processing == if removed.Some? then others - {removed.value} else others
      ensures removed.Some? ==> removed.value in others && HasId(removed.value, id) && others == s.atRemoval
      ensures !ok ==> Troubled(s)
      ensures !ok && removed.Some? ==> s.fate.ReplyLost?
      ensures ok && removed.None? ==> BeatenTo(s, id) || forall m | Stays(m, s.looks) :: !HasId(m, id)
      ensures Calm(s, old(processing)) ==> Acknowledged(old(processing), processing, id, Taken(removed))
    {
      var cursor := 0;
      while true
        invariant 0 <= cursor < |s.looks|
        invariant forall i, m | 0 <= i < cursor && m in s.looks[i].page :: !HasId(m, id)
        decreases |s.looks| - cursor
      {
        var next, look := ZScan(s.looks, cursor);
        if !look.answered {
          return false, None, processing;
        }
        for k := 0 to |look.page|
          invariant forall j | 0 <= j < k :: !HasId(look.page[j], id)
        {
          if HasId(look.page[k], id) {
            assert look.page[k] in s.looks[cursor].view;
            processing := s.atRemoval;
            if s.fate.Refused? {
              return false, None, processing;
            }
            processing := processing - {look.page[k]};
            return s.fate.Replied?, if look.page[k] in s.atRemoval then Some(look.page[k]) else None, s.atRemoval;
          }
        }
        assert forall i, m | 0 <= i < cursor + 1 && m in s.looks[i].page :: !HasId(m, id);
        if next == 0 {
          break;
        }
        cursor := next;
      }
      return true, None, processing;
    }

    /** Acknowledge with up to three attempts, whatever others write in between. Every member taken out was there and
        carries the id; more than one goes only when the reply to a removal was lost; when none goes, no entry with the
        id was there throughout some scan, or the one found was taken out by somebody else. An attempt without faults or
        interference is the last, and takes out exactly one entry. */
    method AckJob(id: nat, sweeps: seq<Sweep>) returns (ok: bool, ghost removed: seq<Member>, ghost others: ZSet)
      requires |sweeps| == ATTEMPTS && forall s | s in sweeps :: Scans(s.looks)
      modifies this`processing
      ensures exists i :: 0 <= i < ATTEMPTS && LeftByOthers(others, sweeps[i])
      ensures processing == others || (removed != [] && processing == others - {removed[|removed| - 1]})
      ensures forall m | m in removed :: HasId(m, id)
      ensures |removed| <= (if ok then 1 else 0) + LostReplies(sweeps, ATTEMPTS)
      ensures !ok ==> forall i | 0 <= i < ATTEMPTS :: Troubled(sweeps[i])
      ensures ok && removed == [] ==>
        exists i :: 0 <= i < ATTEMPTS &&
          (BeatenTo(sweeps[i], id) || forall m | Stays(m, sweeps[i].looks) :: !HasId(m, id))
      ensures Calm(sweeps[0], old(processing)) ==>
        ok && Acknowledged(old(processing), processing, id, removed)
    {
      ok, removed, others := false, [], processing;
      var attempt := 0;
      while attempt < ATTEMPTS
        invariant 0 <= attempt <= ATTEMPTS && !ok
        invariant attempt > 0 ==> exists i :: 0 <= i < attempt && LeftByOthers(others, sweeps[i])
        invariant processing == others || (removed != [] && processing == others - {removed[|removed| - 1]})
        invariant forall m | m in removed :: HasId(m, id)
        invariant |removed| <= LostReplies(sweeps, attempt)
        invariant forall i | 0 <= i < attempt :: Troubled(sweeps[i])
        invariant attempt == 0 ==> processing == old(processing) && removed == []
      {
        ghost var taken;
        ok, taken, others := TryAck(id, sweeps[attempt]);
        LostRepliesGrow(sweeps, attempt, ATTEMPTS);
        removed := removed + Taken(taken);
        if ok {
          return;
        }
        attempt := attempt + 1;
      }
    }
  }
}

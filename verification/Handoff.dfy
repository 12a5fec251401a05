/**
 The hand-off of jobs between the two sorted sets and the workers, under every interleaving of single Redis
 commands, lost replies, refused commands and dead workers (shared/queue/redis_client.py, worker/worker.py).

 A ticket stands for one delivery: it is issued when a push puts a member into the queue that was not there.
 Tickets are bookkeeping only; no step looks at them to decide anything.
 */
module Handoff {
  import opened JobQueue

  datatype Hand = Free | Popped(m: Member, score: int) | Delivered(m: Member)

  datatype Place = InQueue | InHand(w: nat) | InProcessing | Acked | Lost

  datatype Ticket = Ticket(m: Member, place: Place)

  datatype QState = QState(
    queue: ZSet,
    processing: ZSet,
    hands: map<nat, Hand>,
    tickets: seq<Ticket>,
    drops: nat)

  /**
   Add: a ZADD to the queue that reached Redis.  Take: BZPOPMIN answered.  TakeDropped: BZPOPMIN whose reply got
   lost.  Move: ZADD to processing answered.  MoveRefused / MoveUnheard: that ZADD failing without or with effect.
   Ack: ZREM of an entry with the job's id.  AckNothing: the scan found none.  Abandon: the worker dies, or leaves
   the job without acknowledging it.
   */
  datatype QStep =
    | Add(m: Member, score: int)
    | Take(w: nat, m: Member)
    | TakeDropped(m: Member)
    | Move(w: nat)
    | MoveRefused(w: nat)
    | MoveUnheard(w: nat)
    | Ack(w: nat, m: Member)
    | AckNothing(w: nat)
    | Abandon(w: nat)

  const EMPTY := QState(map[], map[], map[], [], 0)

  ghost function HandOf(s: QState, w: nat): Hand
  {
    if w in s.hands then s.hands[w] else Free
  }

  ghost predicate QEnabled(s: QState, step: QStep)
  {
    match step
    case Add(_, _) => true
    case Take(w, m) => HandOf(s, w).Free? && IsMin(s.queue, m)
    case TakeDropped(m) => IsMin(s.queue, m)
    case Move(w) => HandOf(s, w).Popped?
    case MoveRefused(w) => HandOf(s, w).Popped?
    case MoveUnheard(w) => HandOf(s, w).Popped?
    case Ack(w, m) =>
      HandOf(s, w).Delivered? && m in s.processing && m.Job? && HasId(HandOf(s, w).m, m.id)
    case AckNothing(w) =>
      HandOf(s, w).Delivered? && forall m | m in s.processing && m.Job? :: !HasId(HandOf(s, w).m, m.id)
    case Abandon(w) => true
  }

  ghost function Relabel(t: seq<Ticket>, m: Member, from: Place, to: Place): (t': seq<Ticket>)
    ensures |t'| == |t|
  {
    seq(|t|, i requires 0 <= i < |t| => if t[i] == Ticket(m, from) then Ticket(m, to) else t[i])
  }

  ghost function QApply(s: QState, step: QStep): QState
    requires QEnabled(s, step)
  {
    match step
    case Add(m, score) =>
      s.(queue := s.queue[m := score],
      tickets := if m in s.queue then s.tickets else s.tickets + [Ticket(m, InQueue)])
    case Take(w, m) =>
      s.(queue := s.queue - {m}, hands := s.hands[w := Popped(m, s.queue[m])],
      tickets := Relabel(s.tickets, m, InQueue, InHand(w)))
    case TakeDropped(m) =>
      s.(queue := s.queue - {m}, drops := s.drops + 1, tickets := Relabel(s.tickets, m, InQueue, Lost))
    case Move(w) =>
      var h := HandOf(s, w);
      s.(processing := s.processing[h.m := h.score], hands := s.hands[w := Delivered(h.m)],
      tickets := Relabel(s.tickets, h.m, InHand(w), InProcessing))
    case MoveRefused(w) =>
      var h := HandOf(s, w);
      s.(hands := s.hands[w := Free], drops := s.drops + 1, tickets := Relabel(s.tickets, h.m, InHand(w), Lost))
    case MoveUnheard(w) =>
      var h := HandOf(s, w);
      s.(processing := s.processing[h.m := h.score], hands := s.hands[w := Free],
      tickets := Relabel(s.tickets, h.m, InHand(w), InProcessing))
    case Ack(w, m) =>
      s.(processing := s.processing - {m}, hands := s.hands[w := Free],
      tickets := Relabel(s.tickets, m, InProcessing, Acked))
    case AckNothing(w) => s.(hands := s.hands[w := Free])
    case Abandon(w) =>
      var h := HandOf(s, w);
      if h.Popped?
      then s.(hands := s.hands[w := Free], drops := s.drops + 1, tickets := Relabel(s.tickets, h.m, InHand(w), Lost))
      else s.(hands := s.hands[w := Free])
  }

  ghost predicate QStepAt(run: seq<QState>, steps: seq<QStep>, i: nat)
    requires i < |steps| < |run|
  {
    QEnabled(run[i], steps[i]) && run[i + 1] == QApply(run[i], steps[i])
  }

  /** A stretch of a run: the states and the steps between them. */
  ghost predicate QTrace(run: seq<QState>, steps: seq<QStep>)
  {
    |run| == |steps| + 1 && forall i: nat | i < |steps| :: QStepAt(run, steps, i)
  }

  // ---------- conservation ----------

  ghost predicate At(t: seq<Ticket>, i: nat, m: Member, p: Place)
  {
    i < |t| && t[i] == Ticket(m, p)
  }

  ghost function LostTickets(t: seq<Ticket>): set<nat>
  {
    set i: nat | i < |t| && t[i].place == Lost
  }

  /** Member m is physically at place p. */
  ghost predicate Present(s: QState, m: Member, p: Place)
  {
    match p
    case InQueue => m in s.queue
    case InHand(w) => HandOf(s, w).Popped? && HandOf(s, w).m == m
    case InProcessing => m in s.processing
    case Acked => false
    case Lost => false
  }

  /** Places that hold a delivery exclusively: a processing entry may stand for several deliveries of one member. */
  ghost predicate Exclusive(p: Place)
  {
    p.InQueue? || p.InHand?
  }

  ghost predicate Held(t: seq<Ticket>, m: Member, p: Place)
  {
    exists i :: At(t, i, m, p)
  }

  /** Everything physically present carries a ticket, what is queued or in a hand carries exactly one, every ticket
      is where it says, and exactly as many tickets are lost as there were drops. */
  ghost predicate Conserved(s: QState)
  {
    && (forall m, p | Present(s, m, p) :: Held(s.tickets, m, p))
    && (forall m, p | Held(s.tickets, m, p) :: p == Acked || p == Lost || Present(s, m, p))
    && (forall i, j, m, p | At(s.tickets, i, m, p) && At(s.tickets, j, m, p) && Exclusive(p) :: i == j)
    && |LostTickets(s.tickets)| == s.drops
  }

  lemma RelabelHeld(t: seq<Ticket>, m: Member, from: Place, to: Place, o: Member, p: Place)
    requires from != to && Held(t, m, from)
    ensures Held(Relabel(t, m, from, to), o, p) <==>
      (Held(t, o, p) && !(o == m && p == from)) || (o == m && p == to)
  {
    var t' := Relabel(t, m, from, to);
    if Held(t, o, p) && !(o == m && p == from) {
      var i :| At(t, i, o, p);
      assert At(t', i, o, p);
    }
    var k :| At(t, k, m, from);
    assert At(t', k, m, to);
    if Held(t', o, p) {
      var i :| At(t', i, o, p);
      assert At(t, i, o, p) || At(t, i, m, from);
    }
  }

  lemma OneMoreLost(t: seq<Ticket>, m: Member, from: Place, i: nat)
    requires At(t, i, m, from) && from != Lost
    requires forall j | At(t, j, m, from) :: j == i
    ensures |LostTickets(Relabel(t, m, from, Lost))| == |LostTickets(t)| + 1
  {
    var t' := Relabel(t, m, from, Lost);
    forall j: nat | j < |t| ensures t'[j].place == Lost <==> t[j].place == Lost || j == i {
      assert t[j] == Ticket(m, from) ==> At(t, j, m, from);
    }
    assert LostTickets(t') == LostTickets(t) + {i};
  }

  lemma DropLosesOne(s: QState, m: Member, from: Place)
    requires Conserved(s) && Present(s, m, from) && Exclusive(from)
    ensures |LostTickets(Relabel(s.tickets, m, from, Lost))| == s.drops + 1
  {
    var i :| At(s.tickets, i, m, from);
    OneMoreLost(s.tickets, m, from, i);
  }

  /** Moving one delivery from one place to another. */
  lemma MoveOneConserves(s: QState, s': QState, m: Member, from: Place, to: Place)
    requires Conserved(s) && from != to && from != Lost && Present(s, m, from)
    requires to.InQueue? || to.InHand? ==> !Present(s, m, to)
    requires s'.tickets == Relabel(s.tickets, m, from, to)
    requires forall o, p :: Present(s', o, p) <==>
      (Present(s, o, p) && !(o == m && p == from)) || (o == m && p == to && to != Acked && to != Lost)
    requires s'.drops == s.drops + (if to == Lost then 1 else 0)
    requires to == Lost || Exclusive(to) ==> Exclusive(from)
    ensures Conserved(s')
  {
    var t, t' := s.tickets, s'.tickets;
    forall o, p ensures Held(t', o, p) <==> (Held(t, o, p) && !(o == m && p == from)) || (o == m && p == to) {
      RelabelHeld(t, m, from, to, o, p);
    }
    forall i, j, o, p | At(t', i, o, p) && At(t', j, o, p) && Exclusive(p) ensures i == j {
      if o == m && p == to {
        assert !Held(t, m, to);
        assert !At(t, i, m, to) && !At(t, j, m, to);
        assert At(t, i, m, from) && At(t, j, m, from);
      } else {
        assert At(t, i, o, p) && At(t, j, o, p);
      }
    }
    if to == Lost {
      DropLosesOne(s, m, from);
    } else {
      assert LostTickets(t') == LostTickets(t);
    }
  }

  lemma AddConserves(s: QState, m: Member, score: int)
    requires Conserved(s)
    ensures Conserved(QApply(s, Add(m, score)))
  {
    var s', t := QApply(s, Add(m, score)), s.tickets;
    assert forall i, o, p | At(t, i, o, p) :: At(s'.tickets, i, o, p);
    forall o, p | Present(s', o, p) ensures Held(s'.tickets, o, p) {
      if Present(s, o, p) {
        assert Held(t, o, p);
      } else {
        assert At(s'.tickets, |t|, m, InQueue);
      }
    }
    forall i, o, p | At(s'.tickets, i, o, p) ensures At(t, i, o, p) || (o == m && p == InQueue && m !in s.queue) {
    }
    forall o, p | Held(s'.tickets, o, p) ensures p == Acked || p == Lost || Present(s', o, p) {
      if Held(t, o, p) {
        assert Present(s, o, p) ==> Present(s', o, p);
      }
    }
    forall i, j, o, p | At(s'.tickets, i, o, p) && At(s'.tickets, j, o, p) && Exclusive(p) ensures i == j {
      if o == m && p == InQueue && m !in s.queue {
        assert !Held(t, m, InQueue);
        assert !At(t, i, m, InQueue) && !At(t, j, m, InQueue);
      } else {
        assert At(t, i, o, p) && At(t, j, o, p);
      }
    }
    assert LostTickets(s'.tickets) == LostTickets(t);
  }

  /** Every single command, failure or death keeps the books balanced. */
  lemma StepConserves(s: QState, step: QStep)
    requires Conserved(s) && QEnabled(s, step)
    ensures Conserved(QApply(s, step))
  {
    var s' := QApply(s, step);
    match step
    case Add(m, score) => AddConserves(s, m, score);
    case Take(w, m) => MoveOneConserves(s, s', m, InQueue, InHand(w));
    case TakeDropped(m) => MoveOneConserves(s, s', m, InQueue, Lost);
    case Move(w) => MoveOneConserves(s, s', HandOf(s, w).m, InHand(w), InProcessing);
    case MoveRefused(w) => MoveOneConserves(s, s', HandOf(s, w).m, InHand(w), Lost);
    case MoveUnheard(w) => MoveOneConserves(s, s', HandOf(s, w).m, InHand(w), InProcessing);
    case Ack(w, m) => MoveOneConserves(s, s', m, InProcessing, Acked);
    case AckNothing(w) => assert forall o, p :: Present(s', o, p) <==> Present(s, o, p);
    case Abandon(w) =>
      if HandOf(s, w).Popped? {
        MoveOneConserves(s, s', HandOf(s, w).m, InHand(w), Lost);
      } else {
        assert forall o, p :: Present(s', o, p) <==> Present(s, o, p);
      }
  }

  /** Conservation over every run: deliveries are neither duplicated nor lost, except one per drop. */
  lemma {:induction false} RunsConserve(run: seq<QState>, steps: seq<QStep>, i: nat)
    requires QTrace(run, steps) && run[0] == EMPTY && i < |run|
    ensures Conserved(run[i])
  {
    if i == 0 {
      assert LostTickets(EMPTY.tickets) == {};
    } else {
      RunsConserve(run, steps, i - 1);
      assert QStepAt(run, steps, i - 1);
      StepConserves(run[i - 1], steps[i - 1]);
    }
  }

  // ---------- order ----------

  ghost predicate Takes(step: QStep, m: Member)
  {
    step == TakeDropped(m) || (step.Take? && step.m == m)
  }

  ghost predicate Adds(step: QStep, m: Member)
  {
    step.Add? && step.m == m
  }

  /** A queued member that is neither taken nor pushed again stays queued with its score. */
  lemma {:induction false} StaysQueued(run: seq<QState>, steps: seq<QStep>, i: nat, k: nat, a: Member)
    requires QTrace(run, steps) && i <= k <= |steps|
    requires a in run[i].queue
    requires forall j | i <= j < k :: !Adds(steps[j], a) && !Takes(steps[j], a)
    ensures a in run[k].queue && run[k].queue[a] == run[i].queue[a]
    decreases k - i
  {
    if i < k {
      assert QStepAt(run, steps, i);
      StaysQueued(run, steps, i + 1, k, a);
    }
  }

  /** A member queued later on was queued all along, if nobody pushed it in between. */
  lemma {:induction false} WasQueued(run: seq<QState>, steps: seq<QStep>, i: nat, k: nat, b: Member)
    requires QTrace(run, steps) && i <= k <= |steps|
    requires b in run[k].queue
    requires forall j | i <= j < k :: !Adds(steps[j], b)
    ensures b in run[i].queue && run[i].queue[b] == run[k].queue[b]
    decreases k - i
  {
    if i < k {
      WasQueued(run, steps, i + 1, k, b);
      assert QStepAt(run, steps, i);
    }
  }

  /** Between pushes, jobs leave in the order of (time - 1,000,000 * priority, text), whoever pops them. */
  lemma PopsAreSorted(run: seq<QState>, steps: seq<QStep>, j: nat, k: nat, a: Member, b: Member)
    requires QTrace(run, steps) && j < k < |steps|
    requires Takes(steps[j], a) && Takes(steps[k], b)
    requires forall l | j <= l < k :: !Adds(steps[l], b)
    ensures a != b && a in run[j].queue && b in run[j].queue && Before(run[j].queue, a, b)
  {
    assert QStepAt(run, steps, j) && QStepAt(run, steps, k);
    WasQueued(run, steps, j + 1, k, b);
  }

  /** A job pushed at ta with priority p is gone from the queue before any job of priority q pushed later than
      ta + (q - p) * 1,000,000 is popped; with q == p this is first in, first out. */
  lemma NeverOvertaken(run: seq<QState>, steps: seq<QStep>, i: nat, k: nat,
    a: Member, ta: int, p: int, b: Member, tb: int, q: int)
    requires QTrace(run, steps) && i <= k < |steps| && a != b
    requires a in run[i].queue && run[i].queue[a] == Score(ta, p)
    requires Takes(steps[k], b) && b in run[k].queue && run[k].queue[b] == Score(tb, q)
    requires tb > ta + (q - p) * PRIORITY_STEP
    requires forall j | i <= j < k :: !Adds(steps[j], a)
    ensures exists j | i <= j < k :: Takes(steps[j], a)
  {
    assert QStepAt(run, steps, k);
    if forall j | i <= j < k :: !Takes(steps[j], a) {
      StaysQueued(run, steps, i, k, a);
      assert false;
    }
  }

  /** The client's dequeue attempt is one or two of these steps (or none), taken by a worker with free hands. */
  lemma AttemptIsSteps(s: QState, w: nat, e: Effect, q': ZSet, p': ZSet)
    returns (run: seq<QState>, steps: seq<QStep>)
    requires HandOf(s, w).Free?
    requires match e {
      case Empty => q' == s.queue && p' == s.processing
      case Untouched => q' == s.queue && p' == s.processing
      case Dropped(m) => IsMin(s.queue, m) && q' == s.queue - {m} && p' == s.processing
      case Stranded(m) => Moved(m, s.queue, q', s.processing, p')
      case Handed(m) => Moved(m, s.queue, q', s.processing, p')
    }
    ensures QTrace(run, steps) && run[0] == s && |steps| <= 2
    ensures var last := run[|steps|];
      && last.queue == q' && last.processing == p'
      && HandOf(last, w) == (if e.Handed? then Delivered(e.m) else Free)
      && last.drops == s.drops + if e.Dropped? then 1 else 0
  {
    match e
    case Empty => return [s], [];
    case Untouched => return [s], [];
    case Dropped(m) => return [s, QApply(s, TakeDropped(m))], [TakeDropped(m)];
    case Stranded(m) =>
      var s1 := QApply(s, Take(w, m));
      return [s, s1, QApply(s1, MoveUnheard(w))], [Take(w, m), MoveUnheard(w)];
    case Handed(m) =>
      var s1 := QApply(s, Take(w, m));
      return [s, s1, QApply(s1, Move(w))], [Take(w, m), Move(w)];
  }

  /** One push and one attempt whose second command never happens: the job is in no set and in no hand. */
  lemma TwoCommandsCanLose(m: Member, score: int) returns (run: seq<QState>, steps: seq<QStep>)
    ensures QTrace(run, steps) && run[0] == EMPTY
    ensures var last := run[|steps|];
      last.tickets == [Ticket(m, Lost)] && last.drops == 1 && (forall p: Place :: !Present(last, m, p))
  {
    var s1 := QApply(EMPTY, Add(m, score));
    var s2 := QApply(s1, TakeDropped(m));
    run, steps := [EMPTY, s1, s2], [Add(m, score), TakeDropped(m)];
  }
}

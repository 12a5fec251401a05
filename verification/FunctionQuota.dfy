/** Names and number of a user's functions (api/routers/functions.py:148-225). */
module FunctionQuota {
  import opened Base

  datatype Life = Active | Inactive | Deprecated

  datatype Fn = Fn(owner: nat, name: string, life: Life)

  type Fns = map<nat, Fn>

  datatype Answer = Done | NotFound | TooMany | NameTaken | Busy

  /** The functions that count towards the limit. */
  function Counted(fns: Fns, user: nat): set<nat>
  {
    set f | f in fns && fns[f].owner == user && fns[f].life != Deprecated
  }

  ghost predicate Taken(fns: Fns, user: nat, name: string)
  {
    exists f :: f in fns && fns[f].owner == user && fns[f].name == name
  }

  /** busy: the function has active executions. */
  datatype Op =
    | Create(user: nat, name: string, f: nat)
    | Update(user: nat, f: nat, life: Option<Life>)
    | Delete(user: nat, f: nat, busy: bool)

  ghost predicate Enabled(fns: Fns, op: Op)
  {
    op.Create? ==> op.f !in fns
  }

  predicate Owned(fns: Fns, user: nat, f: nat)
  {
    f in fns && fns[f].owner == user
  }

  ghost function Outcome(fns: Fns, op: Op, limit: nat): Answer
  {
    match op
    case Create(user, name, _) =>
      if |Counted(fns, user)| >= limit then TooMany else if Taken(fns, user, name) then NameTaken else Done
    case Update(user, f, _) => if Owned(fns, user, f) then Done else NotFound
    case Delete(user, f, busy) => if !Owned(fns, user, f) then NotFound else if busy then Busy else Done
  }

  ghost function Apply(fns: Fns, op: Op, limit: nat): Fns
  {
    if Outcome(fns, op, limit) != Done then fns
    else
      match op
      case Create(user, name, f) => fns[f := Fn(user, name, Active)]
      case Update(user, f, life) => if life.Some? then fns[f := fns[f].(life := life.value)] else fns
      case Delete(user, f, _) => fns - {f}
  }

  /** f is there, and the other functions are as they were. */
  ghost predicate OnlyAt(fns: Fns, fns': Fns, f: nat)
  {
    f in fns' && forall g | g != f :: (g in fns' <==> g in fns) && (g in fns ==> fns'[g] == fns[g])
  }

  /** Deleting: 404 for a function that is not the user's, 409 for a busy one, else it is gone and no other. */
  lemma DeletionIs(fns: Fns, user: nat, f: nat, busy: bool, limit: nat)
    ensures var op := Delete(user, f, busy);
      && Outcome(fns, op, limit) == (
        if !(f in fns && fns[f].owner == user) then NotFound else if busy then Busy else Done)
      && (Outcome(fns, op, limit) != Done ==> Apply(fns, op, limit) == fns)
      && (Outcome(fns, op, limit) == Done ==>
        f !in Apply(fns, op, limit) && OnlyAt(Apply(fns, op, limit), fns, f))
  {
  }

  // ---------- one name, one function ----------

  ghost predicate NamesUnique(fns: Fns)
  {
    forall f, g | f in fns && g in fns && fns[f].owner == fns[g].owner && fns[f].name == fns[g].name :: f == g
  }

  lemma StepKeepsNames(fns: Fns, op: Op, limit: nat)
    requires NamesUnique(fns) && Enabled(fns, op)
    ensures NamesUnique(Apply(fns, op, limit))
  {
  }

  // ---------- the limit ----------

  ghost predicate WithinLimit(fns: Fns, limit: nat)
  {
    forall user: nat :: |Counted(fns, user)| <= limit
  }

  /** Taking a function out of DEPRECATED while its owner has no room for another. */
  ghost predicate Revives(fns: Fns, op: Op, limit: nat)
  {
    op.Update? && Owned(fns, op.user, op.f) && fns[op.f].life == Deprecated
    && op.life.Some? && op.life.value != Deprecated && |Counted(fns, op.user)| >= limit
  }

  /** What an operation adds to or takes from a user's count. */
  lemma StepCounts(fns: Fns, op: Op, limit: nat, user: nat)
    requires Enabled(fns, op) && |Counted(fns, user)| <= limit
    ensures |Counted(Apply(fns, op, limit), user)| <= limit <==> !(Revives(fns, op, limit) && op.user == user)
  {
    var before, after := Counted(fns, user), Counted(Apply(fns, op, limit), user);
    if op.user == user && op.f in after && op.f !in before {
      assert after == before + {op.f};
    } else {
      assert after <= before;
      SubsetIsNoLarger(after, before);
    }
  }

  lemma StepKeepsLimitIff(fns: Fns, op: Op, limit: nat)
    requires WithinLimit(fns, limit) && Enabled(fns, op)
    ensures WithinLimit(Apply(fns, op, limit), limit) <==> !Revives(fns, op, limit)
  {
    forall user: nat
      ensures |Counted(Apply(fns, op, limit), user)| <= limit <==> !(Revives(fns, op, limit) && op.user == user)
    {
      StepCounts(fns, op, limit, user);
    }
    if Revives(fns, op, limit) {
      assert |Counted(Apply(fns, op, limit), op.user)| > limit;
    }
  }

  // ---------- whole runs ----------

  ghost predicate StepAt(run: seq<Fns>, ops: seq<Op>, limit: nat, i: nat)
    requires i < |ops| < |run|
  {
    Enabled(run[i], ops[i]) && run[i + 1] == Apply(run[i], ops[i], limit)
  }

  ghost predicate Trace(run: seq<Fns>, ops: seq<Op>, limit: nat)
  {
    |run| == |ops| + 1 && run[0] == map[] && forall i: nat | i < |ops| :: StepAt(run, ops, limit, i)
  }

  lemma {:induction false} NamesHold(run: seq<Fns>, ops: seq<Op>, limit: nat, i: nat)
    requires Trace(run, ops, limit) && i < |run|
    ensures NamesUnique(run[i])
  {
    if i > 0 {
      NamesHold(run, ops, limit, i - 1);
      assert StepAt(run, ops, limit, i - 1);
      StepKeepsNames(run[i - 1], ops[i - 1], limit);
    }
  }

  /** Every user stays within the limit up to state i exactly if no function is revived at the limit before. */
  lemma {:induction false} LimitHoldsIff(run: seq<Fns>, ops: seq<Op>, limit: nat, i: nat)
    requires Trace(run, ops, limit) && i < |run|
    ensures (forall j | 0 <= j <= i :: WithinLimit(run[j], limit)) <==>
      forall j | 0 <= j < i :: !Revives(run[j], ops[j], limit)
  {
    if i == 0 {
      assert forall user: nat :: Counted(run[0], user) == {};
    } else {
      LimitHoldsIff(run, ops, limit, i - 1);
      assert StepAt(run, ops, limit, i - 1);
      if WithinLimit(run[i - 1], limit) {
        StepKeepsLimitIff(run[i - 1], ops[i - 1], limit);
      }
    }
  }

  // ---------- no bound at all ----------

  ghost predicate Leads(fns: Fns, ops: seq<Op>, limit: nat, fns': Fns)
    decreases |ops|
  {
    if ops == [] then fns' == fns
    else
      var n := |ops| - 1;
      exists mid :: Leads(fns, ops[..n], limit, mid) && Enabled(mid, ops[n]) && fns' == Apply(mid, ops[n], limit)
  }

  lemma Then(fns: Fns, ops: seq<Op>, limit: nat, mid: Fns, op: Op) returns (more: seq<Op>)
    requires Leads(fns, ops, limit, mid) && Enabled(mid, op)
    ensures Leads(fns, more, limit, Apply(mid, op, limit))
  {
    more := ops + [op];
    assert more[..|ops|] == ops;
  }

  function Name(k: nat): (s: string)
    ensures |s| == k
  {
    seq(k, i => 'f')
  }

  /** n functions of user 7, the first m of them active, the others deprecated. */
  ghost function Heap(n: nat, m: nat): Fns
  {
    map f: nat | f < n :: Fn(7, Name(f), if f < m then Active else Deprecated)
  }

  lemma CreateAndDeprecate(n: nat, limit: nat)
    requires limit >= 1
    ensures var op := Create(7, Name(n), n);
      Enabled(Heap(n, 0), op)
      && Apply(Apply(Heap(n, 0), op, limit), Update(7, n, Some(Deprecated)), limit) == Heap(n + 1, 0)
  {
    var fns := Heap(n, 0);
    assert Counted(fns, 7) == {};
    forall f | f in fns ensures fns[f].name != Name(n) {
      assert |fns[f].name| == f;
    }
    assert !Taken(fns, 7, Name(n));
  }

  lemma {:induction false} PileUp(n: nat, limit: nat) returns (ops: seq<Op>)
    requires limit >= 1
    ensures Leads(map[], ops, limit, Heap(n, 0))
  {
    if n == 0 {
      ops := [];
      assert Heap(0, 0) == map[];
    } else {
      ops := PileUp(n - 1, limit);
      CreateAndDeprecate(n - 1, limit);
      var op := Create(7, Name(n - 1), n - 1);
      ops := Then(map[], ops, limit, Heap(n - 1, 0), op);
      ops := Then(map[], ops, limit, Apply(Heap(n - 1, 0), op, limit), Update(7, n - 1, Some(Deprecated)));
    }
  }

  lemma {:induction false} ReviveAll(n: nat, m: nat, limit: nat) returns (ops: seq<Op>)
    requires limit >= 1 && m <= n
    ensures Leads(map[], ops, limit, Heap(n, m))
  {
    if m == 0 {
      ops := PileUp(n, limit);
    } else {
      ops := ReviveAll(n, m - 1, limit);
      var op := Update(7, m - 1, Some(Active));
      assert Apply(Heap(n, m - 1), op, limit) == Heap(n, m);
      ops := Then(map[], ops, limit, Heap(n, m - 1), op);
    }
  }

  /** Whatever the limit, one user can come to any number of functions that count towards it. */
  lemma NoBound(n: nat, limit: nat) returns (ops: seq<Op>, fns: Fns)
    requires limit >= 1
    ensures Leads(map[], ops, limit, fns) && |Counted(fns, 7)| == n
  {
    ops := ReviveAll(n, n, limit);
    fns := Heap(n, n);
    assert Counted(fns, 7) == Interval(0, n);
    IntervalSize(0, n);
  }

  // ---------- the handlers ----------

  class Functions {
    const limit: nat
    var fns: Fns

    constructor (limit: nat)
      ensures this.limit == limit && fns == map[]
    {
      this.limit, fns := limit, map[];
    }

    /** create_function; f is the uuid drawn for it. */
    method CreateFunction(user: nat, name: string, f: nat) returns (r: Answer)
      requires f !in fns
      modifies this`fns
      ensures r == Outcome(old(fns), Create(user, name, f), limit)
      ensures fns == Apply(old(fns), Create(user, name, f), limit)
      ensures old(NamesUnique(fns)) ==> NamesUnique(fns)
      ensures r == TooMany <==> |Counted(old(fns), user)| >= limit
      ensures r == NameTaken <==>
        |Counted(old(fns), user)| < limit
        && exists g :: g in old(fns) && old(fns)[g].owner == user && old(fns)[g].name == name
      ensures r in {TooMany, NameTaken, Done}
      ensures if r == Done then OnlyAt(old(fns), fns, f) && fns[f] == Fn(user, name, Active) else fns == old(fns)
    {
      if NamesUnique(fns) {
        StepKeepsNames(fns, Create(user, name, f), limit);
      }
      var count := |Counted(fns, user)|;
      if count >= limit {
        return TooMany;
      }
      if exists g | g in fns :: fns[g].owner == user && fns[g].name == name {
        return NameTaken;
      }
      fns := fns[f := Fn(user, name, Active)];
      return Done;
    }

    method UpdateFunction(user: nat, f: nat, life: Option<Life>) returns (r: Answer)
      modifies this`fns
      ensures r == Outcome(old(fns), Update(user, f, life), limit)
      ensures fns == Apply(old(fns), Update(user, f, life), limit)
      ensures old(WithinLimit(fns, limit)) ==>
        (WithinLimit(fns, limit) <==> !Revives(old(fns), Update(user, f, life), limit))
      ensures r == if f in old(fns) && old(fns)[f].owner == user then Done else NotFound
      ensures if r == Done then OnlyAt(old(fns), fns, f) else fns == old(fns)
      ensures r == Done ==>
        fns[f].owner == user && fns[f].name == old(fns)[f].name
        && fns[f].life == if life.Some? then life.value else old(fns)[f].life
    {
      if WithinLimit(fns, limit) {
        StepKeepsLimitIff(fns, Update(user, f, life), limit);
      }
      if f !in fns || fns[f].owner != user {
        return NotFound;
      }
      if life.Some? {
        fns := fns[f := fns[f].(life := life.value)];
      }
      return Done;
    }
  }
}

/** The SET-NX lease with expiry and token-checked release (shared/queue/redis_client.py, DistributedLock). */
module Lease {
  import opened Base

  datatype Entry = Entry(token: nat, expires: int)

  /** One replica's lock object: what its coroutine is doing and the token it drew last. */
  datatype Client =
    | Idle
    | Trying(token: nat, deadline: int)
    | Owner(token: nat, since: int)
    | Through(token: nat)

  datatype LState = LState(now: int, ttl: int, key: Option<Entry>, clients: map<nat, Client>, nextToken: nat)

  /** How a SET ends for the client; on SetUnheard it took effect and the client, told it failed, polls on. */
  datatype SetFate = SetAnswered | SetUnheard | SetRaised

  /**
   Begin draws a fresh token.  TrySet is one turn of the polling loop.  GiveUp is its deadline passing.  Release is
   the scripted compare-and-delete, which may be called again.  Drop is the replica dying or an exception leaving
   the lock without a release.
   */
  datatype LStep =
    | Begin(c: nat, wait: int)
    | TrySet(c: nat, fate: SetFate)
    | GiveUp(c: nat)
    | Release(c: nat)
    | Drop(c: nat)
    | Pass(seconds: nat)

  function ClientOf(s: LState, c: nat): Client
  {
    if c in s.clients then s.clients[c] else Idle
  }

  /** The value GET sees: an expired entry is gone. */
  function Visible(key: Option<Entry>, now: int): Option<Entry>
  {
    if key.Some? && now < key.value.expires then key else None
  }

  /** The script: delete the entry only if it carries this token. */
  function AfterRelease(key: Option<Entry>, token: nat, now: int): Option<Entry>
  {
    if Visible(key, now).Some? && key.value.token == token then None else key
  }

  ghost predicate LEnabled(s: LState, step: LStep)
  {
    match step
    case Begin(c, _) => ClientOf(s, c).Idle? || ClientOf(s, c).Through?
    case TrySet(c, _) => ClientOf(s, c).Trying? && s.now < ClientOf(s, c).deadline
    case GiveUp(c) => ClientOf(s, c).Trying? && s.now >= ClientOf(s, c).deadline
    case Release(c) => ClientOf(s, c).Owner? || ClientOf(s, c).Through?
    case Drop(c) => true
    case Pass(_) => true
  }

  ghost function LApply(s: LState, step: LStep): LState
    requires LEnabled(s, step)
  {
    match step
    case Begin(c, wait) =>
      s.(clients := s.clients[c := Trying(s.nextToken, s.now + wait)], nextToken := s.nextToken + 1)
    case TrySet(c, fate) =>
      var token := ClientOf(s, c).token;
      if fate.SetRaised? then s.(clients := s.clients[c := Idle])
      else if Visible(s.key, s.now).Some? then s
      else
        var t := s.(key := Some(Entry(token, s.now + s.ttl)));
        if fate.SetAnswered? then t.(clients := t.clients[c := Owner(token, s.now)]) else t
    case GiveUp(c) => s.(clients := s.clients[c := Through(ClientOf(s, c).token)])
    case Release(c) =>
      var token := ClientOf(s, c).token;
      s.(key := AfterRelease(s.key, token, s.now), clients := s.clients[c := Through(token)])
    case Drop(c) => s.(clients := s.clients[c := Idle])
    case Pass(seconds) => s.(now := s.now + seconds)
  }

  /** The client believes it holds the lock and its lease has not run out. */
  ghost predicate Holds(s: LState, c: nat)
  {
    ClientOf(s, c).Owner? && s.now < ClientOf(s, c).since + s.ttl
  }

  ghost predicate Tokened(s: LState, c: nat, token: nat)
  {
    !ClientOf(s, c).Idle? && ClientOf(s, c).token == token
  }

  ghost predicate LockInvariant(s: LState)
  {
    && (s.key.Some? ==> s.key.value.token < s.nextToken)
    && (forall c: nat, t: nat | Tokened(s, c, t) :: t < s.nextToken)
    && (forall c: nat, d: nat, t: nat | Tokened(s, c, t) && Tokened(s, d, t) :: c == d)
    && (forall c: nat | ClientOf(s, c).Owner? :: ClientOf(s, c).since <= s.now)
    && (forall c: nat | Holds(s, c) :: s.key == Some(Entry(ClientOf(s, c).token, ClientOf(s, c).since + s.ttl)))
  }

  lemma StepKeepsLock(s: LState, step: LStep)
    requires LockInvariant(s) && LEnabled(s, step)
    ensures LockInvariant(LApply(s, step))
  {
    var s' := LApply(s, step);
    forall c: nat, t: nat | Tokened(s', c, t)
      ensures Tokened(s, c, t) || (step.Begin? && c == step.c && t == s.nextToken) {
    }
    if step.TrySet? {
      assert Tokened(s, step.c, ClientOf(s, step.c).token);
    }
    forall c: nat | ClientOf(s', c).Owner? ensures ClientOf(s', c).since <= s'.now {
      assert ClientOf(s', c) == ClientOf(s, c) || ClientOf(s', c).since == s.now;
    }
    forall c: nat | Holds(s', c)
      ensures s'.key == Some(Entry(ClientOf(s', c).token, ClientOf(s', c).since + s'.ttl))
    {
      assert Tokened(s', c, ClientOf(s', c).token);
      if ClientOf(s', c) == ClientOf(s, c) {
        assert Holds(s, c);
        if step.Release? {
          assert Tokened(s, step.c, ClientOf(s, step.c).token) && Tokened(s, c, ClientOf(s, c).token);
        }
      }
    }
  }

  /** A turn of the polling loop: the key is set, for ttl seconds and with the client's token, exactly if there is
      none or the one there has expired; the client owns the lock exactly if it hears so. */
  lemma TurnTakesFreeKey(s: LState, c: nat, fate: SetFate)
    requires LEnabled(s, TrySet(c, fate))
    ensures var s', token := LApply(s, TrySet(c, fate)), ClientOf(s, c).token;
      var free := s.key.None? || s.key.value.expires <= s.now;
      s'.key == (if free && fate != SetRaised then Some(Entry(token, s.now + s.ttl)) else s.key)
      && (ClientOf(s', c) == Owner(token, s.now) <==> free && fate == SetAnswered)
      && forall d: nat | d != c :: ClientOf(s', d) == ClientOf(s, d)
  {
  }

  /** At any moment at most one client owns the unexpired lease. */
  lemma OneHolder(s: LState, c: nat, d: nat)
    requires LockInvariant(s) && Holds(s, c) && Holds(s, d)
    ensures c == d
  {
    assert Tokened(s, c, ClientOf(s, c).token) && Tokened(s, d, ClientOf(s, d).token);
  }

  /** No release, by a failed acquirer, an expired holder or a repeated call, deletes an entry some other client put
      there: the entry goes only if it carries the caller's own token, which nobody else has. */
  lemma ReleaseSparesOthers(s: LState, c: nat)
    requires LockInvariant(s) && LEnabled(s, Release(c))
    ensures var s' := LApply(s, Release(c));
      && (s'.key != s.key ==> s.key.Some? && Tokened(s, c, s.key.value.token) && s'.key == None)
      && (forall d: nat | d != c && Holds(s, d) :: Holds(s', d) && s'.key == s.key)
      && !Holds(s', c)
  {
    var s' := LApply(s, Release(c));
    assert Tokened(s, c, ClientOf(s, c).token);
    forall d: nat | d != c && Holds(s, d) ensures Holds(s', d) && s'.key == s.key {
      assert Tokened(s, d, ClientOf(s, d).token);
    }
  }

  /** Every section so far has ended, or its lease has time left. */
  ghost predicate SectionsFit(s: LState)
  {
    forall c: nat | ClientOf(s, c).Owner? :: Holds(s, c)
  }

  /** Sections shorter than the lease never overlap. */
  lemma SectionsExclude(s: LState, c: nat, d: nat)
    requires LockInvariant(s) && SectionsFit(s)
    requires ClientOf(s, c).Owner? && ClientOf(s, d).Owner?
    ensures c == d
  {
    OneHolder(s, c, d);
  }

  ghost predicate LStepAt(run: seq<LState>, steps: seq<LStep>, i: nat)
    requires i < |steps| < |run|
  {
    LEnabled(run[i], steps[i]) && run[i + 1] == LApply(run[i], steps[i])
  }

  /** A run from a server without the key and clients that have not begun. */
  ghost predicate LTrace(run: seq<LState>, steps: seq<LStep>)
  {
    && |run| == |steps| + 1
    && run[0].key == None && run[0].clients == map[]
    && forall i: nat | i < |steps| :: LStepAt(run, steps, i)
  }

  lemma {:induction false} LockInvariantHolds(run: seq<LState>, steps: seq<LStep>, i: nat)
    requires LTrace(run, steps) && i < |run|
    ensures LockInvariant(run[i])
  {
    if i > 0 {
      LockInvariantHolds(run, steps, i - 1);
      assert LStepAt(run, steps, i - 1);
      StepKeepsLock(run[i - 1], steps[i - 1]);
    }
  }

  /** In every reachable state one client at most owns the unexpired lease, and whatever step comes next, a lease that
      is not its own client's to release stays. */
  lemma MutualExclusion(run: seq<LState>, steps: seq<LStep>, i: nat, c: nat, d: nat)
    requires LTrace(run, steps) && i < |steps| && Holds(run[i], c)
    ensures Holds(run[i], d) ==> c == d
    ensures steps[i] == Release(d) && d != c ==> run[i + 1].key == run[i].key && Holds(run[i + 1], c)
  {
    LockInvariantHolds(run, steps, i);
    assert LStepAt(run, steps, i);
    if Holds(run[i], d) {
      OneHolder(run[i], c, d);
    }
    if steps[i] == Release(d) && d != c {
      ReleaseSparesOthers(run[i], d);
    }
  }

  // ---------- the client code ----------

  /** What one turn of the polling loop meets: the clock, and the entry other clients left. */
  datatype Look = Look(clock: int, found: Option<Entry>)

  class Server {
    var now: int
    var key: Option<Entry>

    /** SET key token NX EX ttl. */
    method SetNx(token: nat, ttl: int) returns (ok: bool)
      modifies this`key
      ensures ok <==> Visible(old(key), now).None?
      ensures ok <==> old(key).None? || old(key).value.expires <= now
      ensures key == if ok then Some(Entry(token, now + ttl)) else old(key)
    {
      ok := Visible(key, now).None?;
      if ok {
        key := Some(Entry(token, now + ttl));
      }
    }
  }

  predicate Unused(key: Option<Entry>, token: nat)
  {
    key.Some? ==> key.value.token != token
  }

  class DistributedLock {
    const server: Server
    const ttl: int
    const wait: int
    var token: Option<nat>

    constructor (server: Server, ttl: int, wait: int)
      ensures this.server == server && this.ttl == ttl && this.wait == wait && token == None
    {
      this.server, this.ttl, this.wait, token := server, ttl, wait, None;
    }

    /** Poll until the deadline. The lock is obtained exactly if some turn before the deadline finds the key free,
        and then at the first such turn. No entry anyone else leaves carries the token drawn; so after a failure the key
        holds no entry of this client. */
    method Acquire(drawn: nat, start: int, looks: seq<Look>) returns (acquired: bool, ghost turn: nat)
      requires exists i | 0 <= i < |looks| :: looks[i].clock >= start + wait
      requires Unused(server.key, drawn) && forall i | 0 <= i < |looks| :: Unused(looks[i].found, drawn)
      modifies this`token, server
      ensures token == Some(drawn)
      ensures turn < |looks|
      ensures forall j | 0 <= j < turn :: looks[j].clock < start + wait && Visible(looks[j].found, looks[j].clock).Some?
      ensures acquired <==> looks[turn].clock < start + wait
      ensures acquired ==> Visible(looks[turn].found, looks[turn].clock).None?
      ensures acquired ==> server.now == looks[turn].clock && server.key == Some(Entry(drawn, server.now + ttl))
      ensures !acquired ==> Unused(server.key, drawn)
    {
      token := Some(drawn);
      var deadline := start + wait;
      turn := 0;
      var i := 0;
      while looks[i].clock < deadline
        invariant turn == i < |looks|
        invariant token == Some(drawn) && Unused(server.key, drawn)
        invariant forall j | 0 <= j < i :: looks[j].clock < deadline && Visible(looks[j].found, looks[j].clock).Some?
        decreases |looks| - i
      {
        server.now, server.key := looks[i].clock, looks[i].found;
        var ok := server.SetNx(drawn, ttl);
        if ok {
          return true, turn;
        }
        i, turn := i + 1, turn + 1;
      }
      return false, turn;
    }

    method ReleaseLock()
      modifies server`key
      ensures server.key ==
        if token.None? then old(server.key) else AfterRelease(old(server.key), token.value, server.now)
      ensures server.key == if old(server.key).Some? && token == Some(old(server.key).value.token)
                               && server.now < old(server.key).value.expires
        then None else old(server.key)
    {
      if token.None? {
        return;
      }
      server.key := AfterRelease(server.key, token.value, server.now);
    }
  }
}

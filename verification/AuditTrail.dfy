/** What the version rows and audit rows of a function say about its pointers (api/routers/functions.py:75-95). */
module AuditTrail {
  import opened Base
  import opened Tables

  datatype Event = Upload(version: nat) | Audit(activation: nat)

  datatype Pointers = Pointers(active: Option<nat>, canary: Option<nat>, percent: int)

  function PointersOf(r: FunctionRow): Pointers
  {
    Pointers(r.active, r.canary, r.percent)
  }

  predicate Occurs(t: Tables, f: nat, e: Event)
  {
    match e
    case Upload(v) => v in t.versions && t.versions[v].fid == f
    case Audit(a) => a in t.activations && t.activations[a].fid == f
  }

  function Stamp(t: Tables, e: Event): nat
  {
    match e
    case Upload(v) => if v in t.versions then t.versions[v].created else 0
    case Audit(a) => if a in t.activations then t.activations[a].created else 0
  }

  ghost predicate Ordered(t: Tables, j: seq<Event>)
  {
    forall i, k | 0 <= i < k < |j| :: Stamp(t, j[i]) < Stamp(t, j[k])
  }

  /** The uploads and audit rows of f in the order of their creation. */
  ghost predicate IsJournal(t: Tables, f: nat, j: seq<Event>)
  {
    (forall e :: Occurs(t, f, e) <==> e in j) && Ordered(t, j)
  }

  function After(t: Tables, p: Pointers, e: Event): Pointers
  {
    match e
    case Upload(v) => p.(active := Some(v))
    case Audit(a) =>
      if a !in t.activations then p
      else
        var row := t.activations[a];
        match row.action
        case Activate => Pointers(row.activated, None, 0)
        case Promote => Pointers(row.activated, None, 0)
        case CanaryClear => p.(canary := None, percent := 0)
        case CanaryUpdate => p.(canary := row.canary, percent := row.percent)
  }

  /** The pointers a reader of the journal arrives at. */
  function Replay(t: Tables, j: seq<Event>): Pointers
  {
    if j == [] then Pointers(None, None, 0) else After(t, Replay(t, j[..|j| - 1]), j[|j| - 1])
  }

  /** An audit row names the version that was active before, and the pointers that hold after; clearing a canary names
      no version. */
  predicate Explains(row: ActivationRow, before: Pointers, after: Pointers)
  {
    row.previous == before.active && row.canary == after.canary && row.percent == after.percent
    && row.activated == if row.action.CanaryClear? then None else after.active
  }

  /** The i-th entry, if an audit row, explains the change it stands for. */
  ghost predicate RecordsChange(t: Tables, j: seq<Event>, i: nat)
    requires i < |j|
  {
    j[i].Audit? && j[i].activation in t.activations ==>
      Explains(t.activations[j[i].activation], Replay(t, j[..i]), Replay(t, j[..i + 1]))
  }

  ghost predicate Tells(t: Tables, f: nat, j: seq<Event>)
    requires f in t.functions
  {
    Replay(t, j) == PointersOf(t.functions[f]) && forall i: nat | i < |j| :: RecordsChange(t, j, i)
  }

  /** Replaying the uploads and audit rows of f gives its pointers, and every audit row explains its change. */
  ghost predicate TrailSound(t: Tables, f: nat)
    requires f in t.functions
  {
    (exists j :: IsJournal(t, f, j)) && forall j | IsJournal(t, f, j) :: Tells(t, f, j)
  }

  /** Same events of f, with the same rows. */
  ghost predicate SameRows(t: Tables, t': Tables, f: nat)
  {
    (forall v | v in t.versions && t.versions[v].fid == f :: v in t'.versions && t'.versions[v] == t.versions[v])
    && (forall a | a in t.activations && t.activations[a].fid == f ::
          a in t'.activations && t'.activations[a] == t.activations[a])
  }

  ghost predicate Gains(t: Tables, t': Tables, f: nat, e: Event)
  {
    SameRows(t, t', f) && !Occurs(t, f, e)
    && (forall x :: Occurs(t', f, x) <==> Occurs(t, f, x) || x == e)
    && (forall x | Occurs(t, f, x) :: Stamp(t, x) < Stamp(t', e))
  }

  lemma {:induction false} ReplayIsLocal(t: Tables, t': Tables, f: nat, j: seq<Event>)
    requires SameRows(t, t', f) && forall i | 0 <= i < |j| :: Occurs(t, f, j[i])
    ensures Replay(t', j) == Replay(t, j)
    decreases |j|
  {
    if j != [] {
      ReplayIsLocal(t, t', f, j[..|j| - 1]);
      assert Occurs(t, f, j[|j| - 1]);
    }
  }

  lemma NewestIsLast(t: Tables, t': Tables, f: nat, e: Event, j: seq<Event>)
    requires Gains(t, t', f, e) && IsJournal(t', f, j)
    ensures j != [] && j[|j| - 1] == e && e !in j[..|j| - 1]
  {
    assert Occurs(t', f, e);
    var k :| 0 <= k < |j| && j[k] == e;
    var n := |j| - 1;
    assert j[n] in j;
    assert k == n;
  }

  /** A journal of the grown tables is a journal of the old ones with the new event at its end. */
  lemma NewestComesLast(t: Tables, t': Tables, f: nat, e: Event, j: seq<Event>)
    requires Gains(t, t', f, e) && IsJournal(t', f, j)
    ensures j != [] && j[|j| - 1] == e && IsJournal(t, f, j[..|j| - 1])
  {
    NewestIsLast(t, t', f, e, j);
    var n := |j| - 1;
    var i := j[..n];
    assert j == i + [e];
    forall x ensures Occurs(t, f, x) <==> x in i {
      assert x in j <==> x in i || x == e;
    }
    forall a, b | 0 <= a < b < n ensures Stamp(t, i[a]) < Stamp(t, i[b]) {
      assert Stamp(t', j[a]) < Stamp(t', j[b]) && i[a] in i && i[b] in i;
    }
  }

  lemma JournalExtends(t: Tables, t': Tables, f: nat, e: Event, j: seq<Event>)
    requires Gains(t, t', f, e) && IsJournal(t, f, j)
    ensures IsJournal(t', f, j + [e])
  {
    var j' := j + [e];
    forall x ensures Occurs(t', f, x) <==> x in j' {
    }
    forall a, b | 0 <= a < b < |j'| ensures Stamp(t', j'[a]) < Stamp(t', j'[b]) {
      assert j[a] in j;
      if b < |j| {
        assert j[b] in j && Stamp(t, j[a]) < Stamp(t, j[b]);
      }
    }
  }

  /** The trail stays sound when an event is added that explains the new pointers. */
  lemma TrailGrows(t: Tables, t': Tables, f: nat, e: Event)
    requires f in t.functions && f in t'.functions && TrailSound(t, f) && Gains(t, t', f, e)
    requires PointersOf(t'.functions[f]) == After(t', PointersOf(t.functions[f]), e)
    requires e.Audit? ==>
      e.activation in t'.activations
      && Explains(t'.activations[e.activation], PointersOf(t.functions[f]), PointersOf(t'.functions[f]))
    ensures TrailSound(t', f)
  {
    var j :| IsJournal(t, f, j);
    JournalExtends(t, t', f, e, j);
    forall j' | IsJournal(t', f, j') ensures Tells(t', f, j') {
      NewestComesLast(t, t', f, e, j');
      TellsMore(t, t', f, e, j'[..|j'| - 1]);
      assert j' == j'[..|j'| - 1] + [e];
    }
  }

  lemma TellsMore(t: Tables, t': Tables, f: nat, e: Event, j: seq<Event>)
    requires f in t.functions && f in t'.functions && IsJournal(t, f, j) && Tells(t, f, j) && SameRows(t, t', f)
    requires PointersOf(t'.functions[f]) == After(t', PointersOf(t.functions[f]), e)
    requires e.Audit? ==>
      e.activation in t'.activations
      && Explains(t'.activations[e.activation], PointersOf(t.functions[f]), PointersOf(t'.functions[f]))
    ensures Tells(t', f, j + [e])
  {
    var j' := j + [e];
    assert forall i | 0 <= i < |j| :: j[i] in j;
    ReplayIsLocal(t, t', f, j);
    assert j'[..|j|] == j;
    forall i: nat | i < |j'| ensures RecordsChange(t', j', i) {
      if i < |j| {
        assert RecordsChange(t, j, i) && Occurs(t, f, j[i]);
        assert j'[..i] == j[..i] && j'[..i + 1] == j[..i + 1];
        ReplayIsLocal(t, t', f, j[..i]);
        ReplayIsLocal(t, t', f, j[..i + 1]);
      } else {
        assert j'[..i] == j && j'[..i + 1] == j';
      }
    }
  }

  /** What happens to other functions' rows does not touch the trail. */
  lemma TrailIsLocal(t: Tables, t': Tables, f: nat)
    requires f in t.functions && f in t'.functions && TrailSound(t, f) && SameRows(t, t', f)
    requires PointersOf(t'.functions[f]) == PointersOf(t.functions[f])
    requires forall x :: Occurs(t', f, x) <==> Occurs(t, f, x)
    ensures TrailSound(t', f)
  {
    forall j ensures IsJournal(t', f, j) <==> IsJournal(t, f, j) {
      SameJournals(t, t', f, j);
    }
    forall j | IsJournal(t', f, j) ensures Tells(t', f, j) {
      assert forall i | 0 <= i < |j| :: j[i] in j;
      ReplayIsLocal(t, t', f, j);
      forall i: nat | i < |j| ensures RecordsChange(t', j, i) {
        assert RecordsChange(t, j, i) && Occurs(t, f, j[i]);
        ReplayIsLocal(t, t', f, j[..i]);
        ReplayIsLocal(t, t', f, j[..i + 1]);
      }
    }
  }

  lemma SameJournals(t: Tables, t': Tables, f: nat, j: seq<Event>)
    requires SameRows(t, t', f) && forall x :: Occurs(t', f, x) <==> Occurs(t, f, x)
    ensures IsJournal(t', f, j) <==> IsJournal(t, f, j)
  {
    if forall e :: Occurs(t, f, e) <==> e in j {
      forall i | 0 <= i < |j| ensures Stamp(t', j[i]) == Stamp(t, j[i]) {
        assert j[i] in j;
      }
    }
  }

  /** There is only one journal: the tables determine the order. */
  lemma {:induction false} OneJournal(t: Tables, f: nat, j: seq<Event>, k: seq<Event>)
    requires IsJournal(t, f, j) && IsJournal(t, f, k)
    ensures j == k
  {
    SamePrefix(t, j, k, |j|);
    SamePrefix(t, k, j, |k|);
  }

  lemma {:induction false} SamePrefix(t: Tables, j: seq<Event>, k: seq<Event>, n: nat)
    requires Ordered(t, j) && Ordered(t, k) && n <= |j| && forall e :: e in j <==> e in k
    ensures n <= |k| && j[..n] == k[..n]
  {
    if n > 0 {
      SamePrefix(t, j, k, n - 1);
      var e := j[n - 1];
      assert e in j;
      var m :| 0 <= m < |k| && k[m] == e;
      var e' := k[n - 1];
      assert e' in k;
      var i :| 0 <= i < |j| && j[i] == e';
      assert m >= n - 1 && i >= n - 1;
      assert j[..n] == j[..n - 1] + [e] && k[..n] == k[..n - 1] + [e'];
    }
  }
}

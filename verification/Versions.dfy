/** Uploading, activating and canarying versions, and the audit trail
    (api/routers/functions.py:75-95,378-428,498-583). */
module Versions {
  import opened Base
  import opened Tables
  import opened FunctionDeletion

  const MAX_VERSIONS := 50

  datatype Response = Done | NotFound | Conflict | TooLarge | Unprocessable | TooMany | BadGateway | ServerError

  predicate OwnedBy(t: Tables, f: nat, user: nat)
  {
    f in t.functions && t.functions[f].owner == user
  }

  // ---------- upload ----------

  predicate IsMaxNumber(t: Tables, vs: set<nat>, m: nat)
    requires vs <= t.versions.Keys
  {
    (forall v | v in vs :: t.versions[v].number <= m)
    && (if vs == {} then m == 0 else exists v | v in vs :: t.versions[v].number == m)
  }

  /** max(version_number), or 0. */
  ghost function MaxNumber(t: Tables, vs: set<nat>): (m: nat)
    requires vs <= t.versions.Keys
    ensures IsMaxNumber(t, vs, m)
  {
    if vs == {} then 0
    else
      var v :| v in vs;
      var rest := MaxNumber(t, vs - {v});
      assert vs == (vs - {v}) + {v};
      if t.versions[v].number > rest || vs - {v} == {} then t.versions[v].number else rest
  }

  /** What an upload meets: a valid form, the size limit, the validator, and an object store that takes the archive. */
  datatype Checks = Checks(form: bool, fits: bool, accepted: bool, stored: bool)

  function UploadOutcome(t: Tables, f: nat, user: nat, c: Checks): Response
  {
    if !OwnedBy(t, f, user) then NotFound
    else if !c.form then ServerError
    else if !c.fits then TooLarge
    else if !c.accepted then Unprocessable
    else if |VersionsOf(t, f)| >= MAX_VERSIONS then TooMany
    else if !c.stored then ServerError
    else Done
  }

  /** The new version becomes active; canary and percent stay, and no audit row is written. */
  ghost function Uploaded(t: Tables, f: nat, v: nat): Tables
    requires f in t.functions
  {
    t.(versions := t.versions[v := VersionRow(f, MaxNumber(t, VersionsOf(t, f)) + 1, true, t.clock)],
    functions := t.functions[f := t.functions[f].(active := Some(v))],
    clock := t.clock + 1)
  }

  // ---------- activate and canary ----------

  predicate Usable(t: Tables, f: nat, v: nat)
  {
    v in VersionsOf(t, f) && t.versions[v].enabled
  }

  function WithPointers(t: Tables, f: nat, r: FunctionRow, a: nat, audit: ActivationRow): Tables
  {
    t.(functions := t.functions[f := r], activations := t.activations[a := audit], clock := t.clock + 1)
  }

  function ActivateOutcome(t: Tables, f: nat, user: nat, v: nat): Response
  {
    if OwnedBy(t, f, user) && Usable(t, f, v) then Done else NotFound
  }

  function Activated(t: Tables, f: nat, user: nat, v: nat, a: nat): Tables
    requires f in t.functions
  {
    var r := t.functions[f];
    WithPointers(t, f, r.(active := Some(v), canary := None, percent := 0), a,
                 ActivationRow(f, Some(user), Activate, r.active, Some(v), None, 0, t.clock))
  }

  function CanaryOutcome(t: Tables, f: nat, user: nat, canary: Option<nat>, percent: int): Response
  {
    if !(0 <= percent <= 100) then Unprocessable
    else if !OwnedBy(t, f, user) then NotFound
    else if percent == 0 || canary.None? then Done
    else if !Usable(t, f, canary.value) then NotFound
    else if canary == t.functions[f].active && percent < 100 then Unprocessable
    else Done
  }

  function CanarySet(t: Tables, f: nat, user: nat, canary: Option<nat>, percent: int, a: nat): Tables
    requires f in t.functions
  {
    var r := t.functions[f];
    if percent == 0 || canary.None? then
      WithPointers(t, f, r.(canary := None, percent := 0), a,
                   ActivationRow(f, Some(user), CanaryClear, r.active, None, None, 0, t.clock))
    else if percent == 100 then
      WithPointers(t, f, r.(active := canary, canary := None, percent := 0), a,
                   ActivationRow(f, Some(user), Promote, r.active, canary, None, 0, t.clock))
    else
      WithPointers(t, f, r.(canary := canary, percent := percent), a,
                   ActivationRow(f, Some(user), CanaryUpdate, r.active, r.active, canary, percent, t.clock))
  }

  // ---------- what the three operations write ----------

  /** Nothing but function f, one new audit row and the clock differs. */
  ghost predicate OnlyPoints(t: Tables, t': Tables, f: nat, a: nat)
    requires f in t.functions
  {
    t'.versions == t.versions && t'.schedules == t.schedules && t'.executions == t.executions
    && t'.clock == t.clock + 1
    && t'.functions.Keys == t.functions.Keys
    && (forall g | g in t.functions && g != f :: t'.functions[g] == t.functions[g])
    && t'.activations.Keys == t.activations.Keys + {a}
    && (forall b | b in t.activations && b != a :: t'.activations[b] == t.activations[b])
  }

  /** An activation: answered if the function is the user's and the version its own and enabled; then that version is
      active, there is no canary, and the audit row says so. */
  lemma ActivationWrites(t: Tables, f: nat, user: nat, v: nat, a: nat)
    ensures ActivateOutcome(t, f, user, v) == Done <==>
      f in t.functions && t.functions[f].owner == user
      && v in t.versions && t.versions[v].fid == f && t.versions[v].enabled
    ensures ActivateOutcome(t, f, user, v) in {Done, NotFound}
    ensures f in t.functions ==> var t' := Activated(t, f, user, v, a);
      OnlyPoints(t, t', f, a)
      && t'.functions[f].owner == t.functions[f].owner && t'.functions[f].active == Some(v)
      && t'.functions[f].canary == None && t'.functions[f].percent == 0
      && t'.activations[a].fid == f && t'.activations[a].actor == Some(user) && t'.activations[a].action == Activate
      && t'.activations[a].previous == t.functions[f].active && t'.activations[a].activated == Some(v)
      && t'.activations[a].canary == None && t'.activations[a].percent == 0 && t'.activations[a].created == t.clock
  {
  }

  /** A canary update: 422 for a percentage out of range or for the active version below 100; 404 for a function or
      version that is not there to use. */
  lemma CanaryAnswers(t: Tables, f: nat, user: nat, canary: Option<nat>, percent: int)
    ensures var r := CanaryOutcome(t, f, user, canary, percent);
      var own := f in t.functions && t.functions[f].owner == user;
      var usable := canary.Some? && canary.value in t.versions && t.versions[canary.value].fid == f
                    && t.versions[canary.value].enabled;
      var clears := percent == 0 || canary == None;
      && (percent < 0 || percent > 100 ==> r == Unprocessable)
      && (0 <= percent <= 100 && !own ==> r == NotFound)
      && (0 <= percent <= 100 && own && clears ==> r == Done)
      && (0 < percent <= 100 && own && !clears && !usable ==> r == NotFound)
      && (0 < percent < 100 && own && !clears && usable ==>
            r == if t.functions[f].active == canary then Unprocessable else Done)
      && (percent == 100 && own && !clears && usable ==> r == Done)
  {
  }

  /** Then: no canary at 0 percent or without a version, the version itself active at 100, and otherwise the version
      canary with that percentage and the active one as before. */
  lemma CanaryWrites(t: Tables, f: nat, user: nat, canary: Option<nat>, percent: int, a: nat)
    requires f in t.functions
    ensures var t' := CanarySet(t, f, user, canary, percent, a);
      var r, r', audit := t.functions[f], t'.functions[f], t'.activations[a];
      r'.owner == r.owner
      && audit.fid == f && audit.actor == Some(user) && audit.previous == r.active && audit.created == t.clock
      && if percent == 0 || canary == None
         then r'.active == r.active && r'.canary == None && r'.percent == 0
              && audit.action == CanaryClear && audit.activated == None && audit.canary == None && audit.percent == 0
         else if percent == 100
         then r'.active == canary && r'.canary == None && r'.percent == 0
              && audit.action == Promote && audit.activated == canary && audit.canary == None && audit.percent == 0
         else r'.active == r.active && r'.canary == canary && r'.percent == percent
              && audit.action == CanaryUpdate && audit.activated == r.active
              && audit.canary == canary && audit.percent == percent
  {
  }

  lemma CanaryTouches(t: Tables, f: nat, user: nat, canary: Option<nat>, percent: int, a: nat)
    requires f in t.functions
    ensures OnlyPoints(t, CanarySet(t, f, user, canary, percent, a), f, a)
  {
  }

  /** An upload: the first check that fails decides the answer. */
  lemma UploadAnswers(t: Tables, f: nat, user: nat, c: Checks)
    ensures var r := UploadOutcome(t, f, user, c);
      var own := f in t.functions && t.functions[f].owner == user;
      var count := |set v | v in t.versions && t.versions[v].fid == f|;
      && (r == NotFound <==> !own)
      && (r == TooLarge <==> own && c.form && !c.fits)
      && (r == Unprocessable <==> own && c.form && c.fits && !c.accepted)
      && (r == TooMany <==> own && c.form && c.fits && c.accepted && count >= 50)
      && (r == ServerError <==> own && (!c.form || (c.fits && c.accepted && count < 50 && !c.stored)))
      && (r == Done <==> own && c.form && c.fits && c.accepted && count < 50 && c.stored)
  {
    assert VersionsOf(t, f) == set v | v in t.versions && t.versions[v].fid == f;
  }

  /** The new version is the function's next, enabled and active; the canary stays. */
  lemma UploadWrites(t: Tables, f: nat, v: nat)
    requires f in t.functions
    ensures var t' := Uploaded(t, f, v);
      t'.schedules == t.schedules && t'.executions == t.executions && t'.activations == t.activations
      && t'.clock == t.clock + 1
      && t'.functions.Keys == t.functions.Keys
      && (forall g | g in t.functions && g != f :: t'.functions[g] == t.functions[g])
      && t'.functions[f].active == Some(v) && t'.functions[f].owner == t.functions[f].owner
      && t'.functions[f].canary == t.functions[f].canary && t'.functions[f].percent == t.functions[f].percent
      && t'.versions.Keys == t.versions.Keys + {v}
      && (forall w | w in t.versions && w != v :: t'.versions[w] == t.versions[w])
      && t'.versions[v].fid == f && t'.versions[v].enabled && t'.versions[v].created == t.clock
      && (forall w | w in t.versions && t.versions[w].fid == f :: t.versions[w].number < t'.versions[v].number)
      && (t'.versions[v].number == 1
          || exists w :: w in t.versions && t.versions[w].fid == f && t.versions[w].number == t'.versions[v].number - 1)
  {
    var own := VersionsOf(t, f);
    assert IsMaxNumber(t, own, MaxNumber(t, own));
    forall w | w in t.versions && t.versions[w].fid == f
      ensures t.versions[w].number < Uploaded(t, f, v).versions[v].number
    {
      assert w in own;
    }
  }

  // ---------- the state of one function ----------

  predicate PointersSound(r: FunctionRow, own: set<nat>)
  {
    0 <= r.percent < 100 && (r.canary.None? <==> r.percent == 0)
    && (r.canary.Some? ==> r.canary != r.active)
    && (r.active.Some? <==> own != {})
  }

  ghost predicate HasNumber(t: Tables, own: set<nat>, k: nat)
    requires own <= t.versions.Keys
  {
    exists v | v in own :: t.versions[v].number == k
  }

  /** The version numbers are exactly 1..n. */
  ghost predicate Numbered(t: Tables, own: set<nat>)
    requires own <= t.versions.Keys
  {
    (forall v | v in own :: 1 <= t.versions[v].number <= |own| && t.versions[v].enabled)
    && (forall v, w | v in own && w in own && t.versions[v].number == t.versions[w].number :: v == w)
    && (forall k: nat | 1 <= k <= |own| :: HasNumber(t, own, k))
  }

  ghost predicate VersionState(t: Tables, f: nat)
    requires f in t.functions
  {
    PointersSound(t.functions[f], VersionsOf(t, f))
    && |VersionsOf(t, f)| <= MAX_VERSIONS
    && Numbered(t, VersionsOf(t, f))
  }

  lemma NextNumberIsCount(t: Tables, own: set<nat>)
    requires own <= t.versions.Keys && Numbered(t, own)
    ensures MaxNumber(t, own) == |own|
  {
    if own != {} {
      var v :| v in own && t.versions[v].number == MaxNumber(t, own);
      assert 1 <= |own|;
      assert HasNumber(t, own, |own|);
    }
  }

  lemma NumberedGrows(t: Tables, t': Tables, own: set<nat>, v: nat)
    requires own <= t.versions.Keys && Numbered(t, own) && v !in own && v in t'.versions
    requires forall w | w in own :: w in t'.versions && t'.versions[w] == t.versions[w]
    requires t'.versions[v].number == |own| + 1 && t'.versions[v].enabled
    ensures Numbered(t', own + {v})
  {
    var own' := own + {v};
    assert |own'| == |own| + 1;
    forall k: nat | 1 <= k <= |own'| ensures HasNumber(t', own', k) {
      if k <= |own| {
        assert HasNumber(t, own, k);
        var w :| w in own && t.versions[w].number == k;
        assert w in own' && t'.versions[w].number == k;
      } else {
        assert v in own';
      }
    }
  }

  /** An upload keeps the state sound: the next number, a new active version, the canary untouched. */
  lemma UploadKeepsState(t: Tables, f: nat, v: nat)
    requires f in t.functions && FunctionOwns(t.functions[f], f, t) && VersionState(t, f)
    requires v !in t.versions && |VersionsOf(t, f)| < MAX_VERSIONS
    ensures VersionState(Uploaded(t, f, v), f)
    ensures VersionsOf(Uploaded(t, f, v), f) == VersionsOf(t, f) + {v}
  {
    var t', own := Uploaded(t, f, v), VersionsOf(t, f);
    assert VersionsOf(t', f) == own + {v};
    NextNumberIsCount(t, own);
    NumberedGrows(t, t', own, v);
  }

  lemma PointersKeepState(t: Tables, f: nat, r: FunctionRow, a: nat, audit: ActivationRow)
    requires f in t.functions && VersionState(t, f) && PointersSound(r, VersionsOf(t, f))
    ensures VersionState(WithPointers(t, f, r, a, audit), f)
  {
    var t' := WithPointers(t, f, r, a, audit);
    assert VersionsOf(t', f) == VersionsOf(t, f);
    NumbersAreLocal(t, t', VersionsOf(t, f));
  }

  lemma ActivateKeepsState(t: Tables, f: nat, user: nat, v: nat, a: nat)
    requires f in t.functions && VersionState(t, f) && ActivateOutcome(t, f, user, v) == Done
    ensures VersionState(Activated(t, f, user, v, a), f)
  {
    var r := t.functions[f];
    PointersKeepState(t, f, r.(active := Some(v), canary := None, percent := 0), a,
                      ActivationRow(f, Some(user), Activate, r.active, Some(v), None, 0, t.clock));
  }

  lemma CanaryKeepsState(t: Tables, f: nat, user: nat, canary: Option<nat>, percent: int, a: nat)
    requires f in t.functions && VersionState(t, f) && CanaryOutcome(t, f, user, canary, percent) == Done
    ensures VersionState(CanarySet(t, f, user, canary, percent, a), f)
  {
    var t' := CanarySet(t, f, user, canary, percent, a);
    PointersKeepState(t, f, t'.functions[f], a, t'.activations[a]);
  }

  lemma StateIsLocal(t: Tables, t': Tables, f: nat)
    requires f in t.functions && VersionState(t, f) && f in t'.functions && t'.functions[f] == t.functions[f]
    requires VersionsOf(t', f) == VersionsOf(t, f)
    requires forall v | v in VersionsOf(t, f) :: t'.versions[v] == t.versions[v]
    ensures VersionState(t', f)
  {
    NumbersAreLocal(t, t', VersionsOf(t, f));
  }

  lemma NumbersAreLocal(t: Tables, t': Tables, own: set<nat>)
    requires own <= t.versions.Keys && own <= t'.versions.Keys && Numbered(t, own)
    requires forall v | v in own :: t'.versions[v] == t.versions[v]
    ensures Numbered(t', own)
  {
    forall k: nat | 1 <= k <= |own| ensures HasNumber(t', own, k) {
      assert HasNumber(t, own, k);
    }
  }
}

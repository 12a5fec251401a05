/** Which version an execution runs (shared/execution/version_routing.py). */
module Routing {
  import opened Base
  import opened Tables
  import opened FunctionDeletion
  import opened Versions

  /** The version chosen, where draw is the value of secrets.randbelow(100). */
  function Choose(t: Tables, f: nat, explicit: Option<nat>, draw: nat): Option<nat>
    requires f in t.functions
  {
    var r := t.functions[f];
    var wanted :=
      if explicit.Some? then explicit
      else if r.canary.Some? && r.percent > 0 && (r.percent >= 100 || draw < r.percent) then r.canary
      else r.active;
    if wanted.Some? && Usable(t, f, wanted.value) then wanted else None
  }

  /** The draws among 0..99 that lead to a given version. */
  function DrawsTo(t: Tables, f: nat, v: nat): set<nat>
    requires f in t.functions
  {
    set d: nat | d < 100 && Choose(t, f, None, d) == Some(v)
  }

  /** Exactly `percent` of the hundred draws go to the canary and all others to the active version; once a version
      exists, every draw finds one. */
  lemma SplitIsExact(t: Tables, f: nat)
    requires f in t.functions && FunctionOwns(t.functions[f], f, t) && VersionState(t, f)
    ensures var r := t.functions[f];
      (r.canary.Some? ==> r.active.Some? && |DrawsTo(t, f, r.canary.value)| == r.percent > 0)
      && (r.active.Some? ==> |DrawsTo(t, f, r.active.value)| == 100 - r.percent)
      && (VersionsOf(t, f) != {} ==> forall d: nat | d < 100 :: Choose(t, f, None, d).Some?)
      && (VersionsOf(t, f) == {} ==> forall d: nat :: Choose(t, f, None, d).None?)
  {
    var r := t.functions[f];
    IntervalSize(0, r.percent);
    IntervalSize(r.percent, 100);
    if r.canary.Some? {
      assert r.canary.value in VersionsOf(t, f);
      assert DrawsTo(t, f, r.canary.value) == Interval(0, r.percent);
    }
    if r.active.Some? {
      assert DrawsTo(t, f, r.active.value) == Interval(r.percent, 100);
    }
  }

  /** Which draws: those below the percentage go to the canary. */
  lemma DrawDecides(t: Tables, f: nat, draw: nat)
    requires f in t.functions && FunctionOwns(t.functions[f], f, t) && VersionState(t, f)
    ensures var r := t.functions[f];
      Choose(t, f, None, draw) == if r.canary.Some? && draw < r.percent then r.canary else r.active
  {
  }

  /** After an activation every draw leads to the version activated. */
  lemma ActivationRoutes(t: Tables, f: nat, user: nat, v: nat, a: nat, draw: nat)
    requires ActivateOutcome(t, f, user, v) == Done
    ensures Choose(Activated(t, f, user, v, a), f, None, draw) == Some(v)
  {
  }

  /** After a canary update exactly `percent` of the hundred draws lead to the version asked for, all of them at
      100; and the others where all would lead without a canary. */
  lemma CanaryRoutes(t: Tables, f: nat, user: nat, v: nat, percent: int, a: nat)
    requires CanaryOutcome(t, f, user, Some(v), percent) == Done && percent > 0
    ensures |DrawsTo(CanarySet(t, f, user, Some(v), percent, a), f, v)| == percent
    ensures forall draw: nat | percent <= draw < 100 ::
      Choose(CanarySet(t, f, user, Some(v), percent, a), f, None, draw) ==
        if t.functions[f].active.Some? && Usable(t, f, t.functions[f].active.value) then t.functions[f].active else None
  {
    var t' := CanarySet(t, f, user, Some(v), percent, a);
    IntervalSize(0, percent);
    assert DrawsTo(t', f, v) == Interval(0, percent);
  }

  /** After an upload every draw that does not go to the canary leads to the new version. */
  lemma UploadRoutes(t: Tables, f: nat, v: nat, draw: nat)
    requires f in t.functions && v !in t.versions
    requires t.functions[f].canary.Some? ==> draw >= t.functions[f].percent && t.functions[f].percent < 100
    ensures Choose(Uploaded(t, f, v), f, None, draw) == Some(v)
  {
  }

  /** An explicit version is honoured exactly when it is one of the function's own. */
  lemma ExplicitIsHonoured(t: Tables, f: nat, v: nat, draw: nat)
    requires f in t.functions && VersionState(t, f)
    ensures Choose(t, f, Some(v), draw) == if v in VersionsOf(t, f) then Some(v) else None
  {
  }
}

/** Small datatypes and predicates shared by the other modules. */
module Base {

  datatype Option<+T> = None | Some(value: T)

  datatype Result<+T, +E> = Ok(value: T) | Err(error: E)

  /** What becomes of a command sent to another process: done and answered, done without an answer, not done. The caller
      gets an exception in the last two cases. */
  datatype Fate = Replied | ReplyLost | Refused

  /** A Python string, as its sequence of code points (lone surrogates included). */
  type Text = seq<nat>

  function FromAscii(s: string): (t: Text)
  {
    seq(|s|, i requires 0 <= i < |s| => s[i] as int)
  }

  predicate OccursAt<T(==)>(hay: seq<T>, needle: seq<T>, i: nat)
  {
    i + |needle| <= |hay| && hay[i..i + |needle|] == needle
  }

  /** The `in` operator on Python strings. */
  predicate Contains<T(==)>(hay: seq<T>, needle: seq<T>)
  {
    exists i: nat | i <= |hay| :: OccursAt(hay, needle, i)
  }

  lemma ContainsIff<T>(hay: seq<T>, needle: seq<T>)
    ensures Contains(hay, needle) <==> exists a, b :: hay == a + needle + b
  {
    if i: nat :| i <= |hay| && OccursAt(hay, needle, i) {
      assert hay == hay[..i] + needle + hay[i + |needle|..];
    }
    if a, b :| hay == a + needle + b {
      assert hay[|a|..|a| + |needle|] == needle;
      assert OccursAt(hay, needle, |a|);
    }
  }

  /** Positions in a sequence of length n, in order. */
  ghost predicate Places(at: seq<nat>, n: nat)
  {
    (forall i | 0 <= i < |at| :: at[i] < n) && forall i, j | 0 <= i < j < |at| :: at[i] < at[j]
  }

  /** Taking one more element, or leaving it out, after a selection from the elements before it. */
  lemma PlacesExtend<T>(at: seq<nat>, s: seq<T>, r: seq<T>, x: T)
    requires Places(at, |s|) && |at| == |r| && forall k | 0 <= k < |at| :: r[k] == s[at[k]]
    ensures Places(at, |s| + 1) && forall k | 0 <= k < |at| :: r[k] == (s + [x])[at[k]]
    ensures Places(at + [|s|], |s| + 1)
    ensures forall k | 0 <= k <= |at| :: (r + [x])[k] == (s + [x])[(at + [|s|])[k]]
    ensures |s| !in at && forall i | 0 <= i < |s| :: i in at + [|s|] <==> i in at
  {
  }

  ghost predicate NoDuplicates<T>(s: seq<T>)
  {
    forall i, j | 0 <= i < j < |s| :: s[i] != s[j]
  }

  function Max(a: int, b: int): int
  {
    if a < b then b else a
  }

  function Elements<T(==)>(s: seq<T>): set<T>
  {
    set x | x in s
  }

  lemma {:induction false} ElementsSize<T>(s: seq<T>)
    requires NoDuplicates(s)
    ensures |Elements(s)| == |s|
    decreases |s|
  {
    if s == [] {
      assert Elements(s) == {};
    } else {
      var n := |s| - 1;
      ElementsSize(s[..n]);
      assert s == s[..n] + [s[n]];
      assert Elements(s) == Elements(s[..n]) + {s[n]};
    }
  }

  lemma {:induction false} SubsetIsNoLarger<T>(a: set<T>, b: set<T>)
    requires a <= b
    ensures |a| <= |b|
  {
    if a != {} {
      var x :| x in a;
      SubsetIsNoLarger(a - {x}, b - {x});
    }
  }

  predicate Between(lo: nat, d: nat, hi: nat)
  {
    lo <= d < hi
  }

  function Interval(lo: nat, hi: nat): set<nat>
  {
    set d: nat | d < hi && Between(lo, d, hi)
  }

  lemma {:induction false} IntervalSize(lo: nat, hi: nat)
    requires lo <= hi
    ensures |Interval(lo, hi)| == hi - lo
    decreases hi
  {
    if lo < hi {
      IntervalSize(lo, hi - 1);
      assert Interval(lo, hi) == Interval(lo, hi - 1) + {hi - 1};
    } else {
      assert Interval(lo, hi) == {};
    }
  }
}

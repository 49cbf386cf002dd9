/**
  Integer vectors of the partition-identity search, with the few operations
  the extension step applies to them. The source indexes vectors 1-based
  (`v(i)`); here they are 0-based sequences, so `v(i)` is `v[i - 1]`.
 */
module Vectors {

  type Vector = seq<int>

  /** Elementwise negation `-v`. */
  function Neg(v: Vector): (r: Vector)
    ensures |r| == |v|
    ensures forall i :: 0 <= i < |v| ==> r[i] == -v[i]
  {
    seq(|v|, i requires 0 <= i < |v| => -v[i])
  }

  /** The (n+1)-vector with the n coordinates of `v` and a zero appended. */
  function Lift(v: Vector): Vector
  {
    v + [0]
  }

  /** Lifts every vector of a set. */
  function LiftAll(vs: set<Vector>): set<Vector>
  {
    set v | v in vs :: Lift(v)
  }

  /** `sum i * v(i)` over the 1-based positions: zero exactly for a partition identity. */
  function WeightedSum(v: Vector): int
  {
    if |v| == 0 then 0 else WeightedSum(v[..|v| - 1]) + |v| * v[|v| - 1]
  }

  /** The raise `w = v + e(n+1) - e(j) - e(k)` of a vector of length n+1, positions 1-based. */
  function Raise(v: Vector, j: int, k: int): (w: Vector)
    requires 1 <= j <= |v| && 1 <= k <= |v|
    ensures |w| == |v|
    ensures j < |v| && k < |v| ==> w[|v| - 1] == v[|v| - 1] + 1
  {
    var n := |v| - 1;
    var w := v[n := v[n] + 1];
    var w := w[j - 1 := w[j - 1] - 1];
    w[k - 1 := w[k - 1] - 1]
  }

  /**
    The source of a raise at the pair (i, n+1-i): `w - e(n+1) + e(i) + e(n+1-i)`
    for a vector of length n+1 and 1 <= i < n+1-i.
   */
  function Source(w: Vector, i: int): (s: Vector)
    requires 1 <= i && 2 * i < |w|
    ensures |s| == |w|
  {
    var n := |w| - 1;
    var s := w[n := w[n] - 1];
    var s := s[i - 1 := s[i - 1] + 1];
    s[n - i := s[n - i] + 1]
  }

  /** `lo[i] <= p[i] <= hi[i]` for every position at or below `level`. */
  ghost predicate InBoxUpTo(p: Vector, lo: Vector, hi: Vector, level: int)
  {
    forall l :: 0 <= l <= level && l < |p| && l < |lo| && l < |hi| ==> lo[l] <= p[l] <= hi[l]
  }

  /** Membership in the inclusive axis-aligned box `[lo, hi]`. */
  ghost predicate InBox(p: Vector, lo: Vector, hi: Vector)
  {
    |p| == |lo| == |hi| && forall l :: 0 <= l < |p| ==> lo[l] <= p[l] <= hi[l]
  }

  lemma {:induction false} NegNeg(v: Vector)
    ensures Neg(Neg(v)) == v
  {
  }

  lemma {:induction false} LiftInjective(a: Vector, b: Vector)
    ensures Lift(a) == Lift(b) <==> a == b
  {
    if Lift(a) == Lift(b) {
      assert a == Lift(a)[..|a|];
      assert b == Lift(b)[..|b|];
    }
  }

  /** Appending a zero coordinate does not change the weighted sum. */
  lemma LiftWeightedSum(v: Vector)
    ensures WeightedSum(Lift(v)) == WeightedSum(v)
  {
    assert Lift(v)[..|v|] == v;
  }

  /** Changing coordinate i (0-based) by d changes the weighted sum by (i+1)*d. */
  lemma {:induction false} UpdateWeightedSum(v: Vector, i: int, d: int)
    requires 0 <= i < |v|
    ensures WeightedSum(v[i := v[i] + d]) == WeightedSum(v) + (i + 1) * d
    decreases |v|
  {
    var u := v[i := v[i] + d];
    if i == |v| - 1 {
      assert u[..|u| - 1] == v[..|v| - 1];
    } else {
      assert u[..|u| - 1] == v[..|v| - 1][i := v[i] + d];
      UpdateWeightedSum(v[..|v| - 1], i, d);
    }
  }

  lemma {:induction false} NegWeightedSum(v: Vector)
    ensures WeightedSum(Neg(v)) == -WeightedSum(v)
    decreases |v|
  {
    if |v| > 0 {
      assert Neg(v)[..|v| - 1] == Neg(v[..|v| - 1]);
      NegWeightedSum(v[..|v| - 1]);
    }
  }

  /**
    A raise at a pair (j, k) with j + k == n + 1 keeps the weighted sum,
    lifts the last coordinate by one and lowers j and k by one.
   */
  lemma RaiseKeepsWeightedSum(v: Vector, j: int, k: int)
    requires 1 <= j < k < |v| && j + k == |v|
    ensures WeightedSum(Raise(v, j, k)) == WeightedSum(v)
    ensures Raise(v, j, k)[|v| - 1] == v[|v| - 1] + 1
    ensures Raise(v, j, k)[j - 1] == v[j - 1] - 1 && Raise(v, j, k)[k - 1] == v[k - 1] - 1
    ensures forall i :: 0 <= i < |v| - 1 && i != j - 1 && i != k - 1 ==> Raise(v, j, k)[i] == v[i]
  {
    var n := |v| - 1;
    var w1 := v[n := v[n] + 1];
    UpdateWeightedSum(v, n, 1);
    var w2 := w1[j - 1 := w1[j - 1] - 1];
    UpdateWeightedSum(w1, j - 1, -1);
    UpdateWeightedSum(w2, k - 1, -1);
  }

  /** Raising the source of `w` at the pair (i, n+1-i) gives `w` back. */
  lemma RaiseOfSource(w: Vector, i: int)
    requires 1 <= i && 2 * i < |w|
    ensures Raise(Source(w, i), i, |w| - i) == w
  {
    var r := Raise(Source(w, i), i, |w| - i);
    forall l | 0 <= l < |w| ensures r[l] == w[l] {
    }
  }

  /** The source of a raise at (j, n+1-j) is the vector raised. */
  lemma SourceOfRaise(v: Vector, j: int)
    requires 1 <= j && 2 * j < |v|
    ensures Source(Raise(v, j, |v| - j), j) == v
  {
    var s := Source(Raise(v, j, |v| - j), j);
    forall l | 0 <= l < |v| ensures s[l] == v[l] {
    }
  }
}

/**
  The reducibility tests, phrased as range queries on the digital tree of
  known identities: a vector is reducible when some stored vector is
  conformal to it (fits under it with matching signs) and the query box is
  built so that exactly those vectors fall inside it.
 */
module Reduction {
  import opened Vectors
  import opened Hilbert
  import opened TrieSearch
  import opened DigitalTrees

  /** The inclusive query box `[lo, hi]`. */
  datatype Box = Box(lo: Vector, hi: Vector)

  ghost predicate InsideBox(x: Vector, b: Box)
  {
    InBox(x, b.lo, b.hi)
  }

  /** The visitor of the reducibility queries: stop at the first vector in the box. */
  function False(y: Vector): bool
  {
    false
  }

  ghost predicate NonZero(z: Vector)
  {
    exists i :: 0 <= i < |z| && z[i] != 0
  }

  /** The 1-based position of the last nonzero entry. */
  function LastNonzero(z: Vector): (p: int)
    requires NonZero(z)
    ensures 1 <= p <= |z| && z[p - 1] != 0
    ensures forall i :: p <= i < |z| ==> z[i] == 0
    decreases |z|
  {
    if z[|z| - 1] != 0 then |z|
    else
      var i :| 0 <= i < |z| && z[i] != 0;
      assert z[..|z| - 1][i] != 0;
      LastNonzero(z[..|z| - 1])
  }

  /**
    The box of the reducibility test: zero after the last nonzero position
    `p`, between 1 and `z(p)` at `p`, and between 0 and `z(i)` before it. A
    vector lies in it exactly when it is conformal to `z` and has a positive
    entry at `p`.
   */
  function ReducibleBox(z: Vector): (b: Box)
    requires NonZero(z)
    ensures forall y {:trigger InsideBox(y, b)} ::
              InsideBox(y, b) <==> |y| == |z| && y[LastNonzero(z) - 1] >= 1 && Conformal(y, z)
  {
    var p := LastNonzero(z);
    var b := Box(seq(|z|, i requires 0 <= i < |z| =>
                       if i >= p then 0 else if i == p - 1 then 1 else if z[i] >= 0 then 0 else z[i]),
                 seq(|z|, i requires 0 <= i < |z| =>
                       if i >= p then 0 else if i == p - 1 then z[i] else if z[i] >= 0 then z[i] else 0));
    assert forall y {:trigger InsideBox(y, b)} ::
             InsideBox(y, b) <==> |y| == |z| && y[p - 1] >= 1 && Conformal(y, z) by {
      forall y
        ensures InsideBox(y, b) <==> |y| == |z| && y[p - 1] >= 1 && Conformal(y, z)
      {
        if InsideBox(y, b) {
          forall i | 0 <= i < |z| && i < |y|
            ensures FitsAt(y[i], z[i], 1)
          {
            assert b.lo[i] <= y[i] <= b.hi[i];
          }
          assert b.lo[p - 1] <= y[p - 1];
        }
        if |y| == |z| && y[p - 1] >= 1 && Conformal(y, z) {
          forall i | 0 <= i < |y|
            ensures b.lo[i] <= y[i] <= b.hi[i]
          {
            assert FitsAt(y[i], z[i], 1);
          }
        }
      }
    }
    b
  }

  /**
    `z` is reducible by the stored vectors: the query over the box finds
    some stored `y` conformal to `z` with `y(p) >= 1`, which is to say with
    `HilbertDivide(z, y) >= 1`. A zero `z` has no last nonzero position, and
    the source does not handle it.
   */
  function IsReducible(z: Vector, s: DigitalTree): (r: bool)
    requires QueryState(s) && |z| == s.dimension && NonZero(z)
    ensures r <==> exists y :: y in Contents(s) && |y| == |z| && y[LastNonzero(z) - 1] >= 1 && Conformal(y, z)
  {
    var b := ReducibleBox(z);
    ReducerInBox(z, s);
    !OrthogonalRangeSearch(s, b.lo, b.hi, False)
  }

  lemma ReducerInBox(z: Vector, s: DigitalTree)
    requires QueryState(s) && |z| == s.dimension && NonZero(z)
    ensures var b := ReducibleBox(z);
      !OrthogonalRangeSearch(s, b.lo, b.hi, False) <==>
        exists y :: y in Contents(s) && |y| == |z| && y[LastNonzero(z) - 1] >= 1 && Conformal(y, z)
  {
    var b := ReducibleBox(z);
    var p := LastNonzero(z);
    RangeSearchFindsBoxVector(s, b.lo, b.hi, False);
    if !OrthogonalRangeSearch(s, b.lo, b.hi, False) {
      var y :| y in Contents(s) && InBox(y, b.lo, b.hi);
      assert InsideBox(y, b);
    }
    if y :| y in Contents(s) && |y| == |z| && y[p - 1] >= 1 && Conformal(y, z) {
      assert InsideBox(y, b);
    }
  }

  /**
    When the last nonzero entry of `z` is negative the box is empty at that
    position, so the test never finds a reducer.
   */
  lemma NegativeLeadIsNeverReducible(z: Vector, s: DigitalTree)
    requires QueryState(s) && |z| == s.dimension && NonZero(z)
    requires z[LastNonzero(z) - 1] < 0
    ensures !IsReducible(z, s)
  {
    var p := LastNonzero(z);
    forall y | y in Contents(s) && |y| == |z| && Conformal(y, z)
      ensures y[p - 1] < 1
    {
      assert FitsAt(y[p - 1], z[p - 1], 1);
    }
  }

  /** The position the raise test pins: `k` when `w(k)` is negative, otherwise `j` (0-based). */
  function Pin(w: Vector, j: int, k: int): int
    requires 1 <= j < |w| && 1 <= k < |w|
  {
    if w[k - 1] < 0 then k - 1 else j - 1
  }

  /**
    The box of the positive reducibility query of a raised vector `w` of
    length n+1: zero at position n+1, equal to `w` at the pinned position,
    and between 0 and `w(i)` elsewhere. A vector lies in it exactly when it
    has last coordinate 0, is conformal to `w` and agrees with `w` at the
    pinned position.
   */
  function RaiseBox(w: Vector, j: int, k: int): (b: Box)
    requires 1 <= j < |w| && 1 <= k < |w|
    ensures forall x {:trigger InsideBox(x, b)} :: InsideBox(x, b) <==>
              |x| == |w| && x[|w| - 1] == 0 && Conformal(x, w) && x[Pin(w, j, k)] == w[Pin(w, j, k)]
  {
    var n := |w| - 1;
    var pin := Pin(w, j, k);
    var b := Box(seq(|w|, i requires 0 <= i < |w| =>
                       if i == n then 0 else if i == pin then w[i] else if w[i] >= 0 then 0 else w[i]),
                 seq(|w|, i requires 0 <= i < |w| =>
                       if i == n then 0 else if i == pin then w[i] else if w[i] >= 0 then w[i] else 0));
    assert forall x {:trigger InsideBox(x, b)} ::
             InsideBox(x, b) <==> |x| == |w| && x[n] == 0 && Conformal(x, w) && x[pin] == w[pin] by {
      forall x
        ensures InsideBox(x, b) <==> |x| == |w| && x[n] == 0 && Conformal(x, w) && x[pin] == w[pin]
      {
        if InsideBox(x, b) {
          forall i | 0 <= i < |w| && i < |x|
            ensures FitsAt(x[i], w[i], 1)
          {
            assert b.lo[i] <= x[i] <= b.hi[i];
          }
          assert b.lo[pin] <= x[pin] <= b.hi[pin];
          assert b.lo[n] <= x[n] <= b.hi[n];
        }
        if |x| == |w| && x[n] == 0 && Conformal(x, w) && x[pin] == w[pin] {
          forall i | 0 <= i < |x|
            ensures b.lo[i] <= x[i] <= b.hi[i]
          {
            assert FitsAt(x[i], w[i], 1);
          }
        }
      }
    }
    b
  }

  /**
    The box of the negative query, built coordinate by coordinate as the
    source does: a vector lies in it exactly when its negation lies in the
    positive box.
   */
  function NegatedRaiseBox(w: Vector, j: int, k: int): (nb: Box)
    requires 1 <= j < |w| && 1 <= k < |w|
    ensures forall x {:trigger InsideBox(x, nb)} :: InsideBox(x, nb) <==>
              |x| == |w| && x[|w| - 1] == 0 && Conformal(Neg(x), w) && -x[Pin(w, j, k)] == w[Pin(w, j, k)]
  {
    var n := |w| - 1;
    var pin := Pin(w, j, k);
    var nb := Box(seq(|w|, i requires 0 <= i < |w| =>
                        if i == n then 0 else if i == pin then -w[i] else if w[i] <= 0 then 0 else -w[i]),
                  seq(|w|, i requires 0 <= i < |w| =>
                        if i == n then 0 else if i == pin then -w[i] else if w[i] <= 0 then -w[i] else 0));
    assert forall x {:trigger InsideBox(x, nb)} ::
             InsideBox(x, nb) <==> |x| == |w| && x[n] == 0 && Conformal(Neg(x), w) && -x[pin] == w[pin] by {
      forall x
        ensures InsideBox(x, nb) <==> |x| == |w| && x[n] == 0 && Conformal(Neg(x), w) && -x[pin] == w[pin]
      {
        if InsideBox(x, nb) {
          forall i | 0 <= i < |w| && i < |x|
            ensures FitsAt(Neg(x)[i], w[i], 1)
          {
            assert nb.lo[i] <= x[i] <= nb.hi[i];
          }
          assert nb.lo[pin] <= x[pin] <= nb.hi[pin];
          assert nb.lo[n] <= x[n] <= nb.hi[n];
        }
        if |x| == |w| && x[n] == 0 && Conformal(Neg(x), w) && -x[pin] == w[pin] {
          forall i | 0 <= i < |x|
            ensures nb.lo[i] <= x[i] <= nb.hi[i]
          {
            assert FitsAt(Neg(x)[i], w[i], 1);
          }
        }
      }
    }
    nb
  }

  /** Some stored vector, or its negation, lies in the positive box of `w`. */
  ghost predicate HasRaiseReducer(pool: set<Vector>, w: Vector, j: int, k: int)
    requires 1 <= j < |w| && 1 <= k < |w|
  {
    exists p :: p in pool && (InsideBox(p, RaiseBox(w, j, k)) || InsideBox(Neg(p), RaiseBox(w, j, k)))
  }

  /**
    Both queries of the raise test come back empty exactly when no stored
    vector reduces `w` with either sign.
   */
  lemma RaiseQueries(s: DigitalTree, w: Vector, j: int, k: int)
    requires QueryState(s) && |w| == s.dimension
    requires 1 <= j < |w| && 1 <= k < |w|
    ensures var b := RaiseBox(w, j, k);
            var nb := NegatedRaiseBox(w, j, k);
      (OrthogonalRangeSearch(s, b.lo, b.hi, False) && OrthogonalRangeSearch(s, nb.lo, nb.hi, False))
      <==> !HasRaiseReducer(Contents(s), w, j, k)
  {
    var b := RaiseBox(w, j, k);
    var nb := NegatedRaiseBox(w, j, k);
    RangeSearchFindsBoxVector(s, b.lo, b.hi, False);
    RangeSearchFindsBoxVector(s, nb.lo, nb.hi, False);
  }
}

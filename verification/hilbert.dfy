/**
  Conformal division of integer vectors: the largest factor `f` such that
  `f * y` fits under `z` coordinate by coordinate with matching signs (the
  Hilbert-basis order), capped at the largest C `int`.
 */
module Hilbert {
  import opened Vectors

  /** The largest value of a C `int`, which the factor starts from. */
  const INT_MAX: int := 2147483647

  function Abs(a: int): nat
  {
    if a < 0 then -a else a
  }

  /** C's `/` on `int`: the quotient rounded toward zero, whatever the signs. */
  function TruncDiv(a: int, b: int): (q: int)
    requires b != 0
    ensures Abs(a - q * b) < Abs(b)
    ensures a - q * b == 0 || (a - q * b < 0 <==> a < 0)
  {
    var q := Abs(a) / Abs(b);
    TruncDivCases(a, b, q, Abs(a) % Abs(b));
    if (a < 0) == (b < 0) then q else -q
  }

  lemma TruncDivCases(a: int, b: int, q: int, r: int)
    requires b != 0 && Abs(a) == q * Abs(b) + r && 0 <= r < Abs(b)
    ensures (a < 0) == (b < 0) ==> a - q * b == (if a < 0 then -r else r)
    ensures (a < 0) != (b < 0) ==> a - (-q) * b == (if a < 0 then -r else r)
  {
    if a >= 0 && b > 0 {
    } else if a < 0 && b < 0 {
      assert q * b == -(q * Abs(b));
    } else if a >= 0 {
      assert (-q) * b == q * Abs(b);
    } else {
      assert (-q) * b == -(q * Abs(b));
    }
  }

  /** `f * yi` lies under `zi` with the sign of `yi` (no constraint where `yi` is zero). */
  ghost predicate FitsAt(yi: int, zi: int, f: int)
  {
    (yi > 0 ==> f * yi <= zi) && (yi < 0 ==> zi <= f * yi)
  }

  /** `f * y` fits under `z` at the first `m` positions of `z`. */
  ghost predicate FitsUpTo(y: Vector, z: Vector, f: int, m: int)
  {
    forall i :: 0 <= i < m && i < |z| && i < |y| ==> FitsAt(y[i], z[i], f)
  }

  /** `f * y` fits under `z` at every position of `z`. */
  ghost predicate Fits(y: Vector, z: Vector, f: int)
  {
    FitsUpTo(y, z, f, |z|)
  }

  /** `y` is conformal to `z`: every nonzero entry of `y` has the sign of `z` there and is no larger. */
  ghost predicate Conformal(y: Vector, z: Vector)
  {
    Fits(y, z, 1)
  }

  /** No factor above `f`, up to `INT_MAX`, fits at the first `m` positions. */
  ghost predicate NoneLargerFits(y: Vector, z: Vector, f: int, m: int)
  {
    forall g :: f < g <= INT_MAX ==> !FitsUpTo(y, z, g, m)
  }

  /** A factor that fits keeps fitting when made smaller. */
  lemma FitsAtSmaller(yi: int, zi: int, f: int, g: int)
    requires FitsAt(yi, zi, f) && g <= f
    ensures FitsAt(yi, zi, g)
  {
    if yi > 0 {
      assert g * yi <= f * yi;
    } else if yi < 0 {
      assert f * yi <= g * yi;
    }
  }

  /** At a position with matching signs, the factors that fit are exactly those up to the truncated quotient. */
  lemma FitsAtQuotient(yi: int, zi: int, g: int)
    requires (0 < yi <= zi) || (zi <= yi < 0)
    ensures FitsAt(yi, zi, g) <==> g <= TruncDiv(zi, yi)
  {
    var q := TruncDiv(zi, yi);
    if yi > 0 {
      assert q == zi / yi;
      if g <= q {
        assert g * yi <= q * yi;
      } else {
        assert g >= q + 1;
        assert g * yi >= (q + 1) * yi;
      }
    } else {
      assert q == (-zi) / (-yi);
      if g <= q {
        assert g * (-yi) <= q * (-yi);
      } else {
        assert g >= q + 1;
        assert g * (-yi) >= (q + 1) * (-yi);
      }
    }
  }

  /**
    The loop of the source: 0 as soon as some entry of `y` is larger than
    `z` there or has the other sign, otherwise the smallest quotient over the
    nonzero entries of `y`, starting from `INT_MAX`.
   */
  method HilbertDivide(z: Vector, y: Vector) returns (f: int)
    requires |z| <= |y|
    ensures 0 <= f <= INT_MAX
    ensures f >= 1 <==> Conformal(y, z)
    ensures f >= 1 ==> Fits(y, z, f)
    ensures f >= 1 ==> forall g :: f < g <= INT_MAX ==> !Fits(y, z, g)
  {
    var maxfactor := INT_MAX;
    var i := 0;
    while i < |z|
      invariant 0 <= i <= |z|
      invariant 1 <= maxfactor <= INT_MAX
      invariant FitsUpTo(y, z, maxfactor, i)
      invariant NoneLargerFits(y, z, maxfactor, i)
    {
      if y[i] > 0 {
        if y[i] > z[i] {
          assert !FitsAt(y[i], z[i], 1);
          return 0;
        }
        maxfactor := Step(y, z, i, maxfactor);
      } else if y[i] < 0 {
        if y[i] < z[i] {
          assert !FitsAt(y[i], z[i], 1);
          return 0;
        }
        maxfactor := Step(y, z, i, maxfactor);
      } else {
        KeepFits(y, z, i, maxfactor);
      }
      i := i + 1;
    }
    FitsUpTo1(y, z, maxfactor, i);
    f := maxfactor;
  }

  /** One step of the loop where the signs match: the factor becomes the smaller of itself and the quotient. */
  method Step(y: Vector, z: Vector, i: int, maxfactor: int) returns (m: int)
    requires 0 <= i < |z| && i < |y|
    requires (0 < y[i] <= z[i]) || (z[i] <= y[i] < 0)
    requires 1 <= maxfactor <= INT_MAX
    requires FitsUpTo(y, z, maxfactor, i)
    requires NoneLargerFits(y, z, maxfactor, i)
    ensures 1 <= m <= INT_MAX
    ensures FitsUpTo(y, z, m, i + 1)
    ensures NoneLargerFits(y, z, m, i + 1)
  {
    var q := TruncDiv(z[i], y[i]);
    FitsAtQuotient(y[i], z[i], 1);
    m := if maxfactor <= q then maxfactor else q;
    forall k | 0 <= k < i + 1 && k < |z| && k < |y|
      ensures FitsAt(y[k], z[k], m)
    {
      if k < i {
        FitsAtSmaller(y[k], z[k], maxfactor, m);
      } else {
        FitsAtQuotient(y[i], z[i], m);
      }
    }
    var next := i + 1;
    forall g | m < g <= INT_MAX
      ensures !FitsUpTo(y, z, g, next)
    {
      if g > maxfactor {
        assert !FitsUpTo(y, z, g, i);
      } else {
        FitsAtQuotient(y[i], z[i], g);
        assert !FitsAt(y[i], z[i], g);
      }
    }
  }

  /** A zero entry of `y` constrains nothing. */
  lemma KeepFits(y: Vector, z: Vector, i: int, maxfactor: int)
    requires 0 <= i < |z| && i < |y| && y[i] == 0
    requires FitsUpTo(y, z, maxfactor, i)
    requires NoneLargerFits(y, z, maxfactor, i)
    ensures FitsUpTo(y, z, maxfactor, i + 1)
    ensures NoneLargerFits(y, z, maxfactor, i + 1)
  {
    var next := i + 1;
    forall g | maxfactor < g <= INT_MAX
      ensures !FitsUpTo(y, z, g, next)
    {
      assert !FitsUpTo(y, z, g, i);
    }
  }

  /** A factor of at least one that fits makes `y` conformal to `z`. */
  lemma FitsUpTo1(y: Vector, z: Vector, f: int, m: int)
    requires m == |z| && f >= 1 && FitsUpTo(y, z, f, m)
    ensures Conformal(y, z)
  {
    forall i | 0 <= i < m && i < |y|
      ensures FitsAt(y[i], z[i], 1)
    {
      FitsAtSmaller(y[i], z[i], f, 1);
    }
  }
}

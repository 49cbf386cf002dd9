/**
  The per-vector attribute word of the extension step. Bit `j-1` (for
  `1 <= j <= n/2`) says that raising the vector at the pair (j, n+1-j) is
  still worth trying; bit `16+j-1` says the same of its negation. Erasing a
  source clears the bit of every stored vector whose raise gives a vector
  already found, so the raise is not repeated. Two 16-bit halves of a 32-bit
  word limit the pairs to `n/2 <= 16`.
 */
module Attributes {
  import opened Vectors

  /**
    An attribute word, given by the positions of its set bits: `|= 1<<b`
    adds `b`, `&= ~(1<<b)` removes it, `& (1<<b)` tests it.
   */
  type Attribute = set<int>

  /** Some entry of the pair (j, n+1-j) is positive. */
  predicate PositivePair(v: Vector, n: int, j: int)
    requires 1 <= j <= n - j + 1 <= |v|
  {
    v[j - 1] > 0 || v[n - j] > 0
  }

  /** Some entry of the pair (j, n+1-j) is negative. */
  predicate NegativePair(v: Vector, n: int, j: int)
    requires 1 <= j <= n - j + 1 <= |v|
  {
    v[j - 1] < 0 || v[n - j] < 0
  }

  /** Which bits the attribute of `v` has, looking at the first `m` pairs. */
  ghost predicate AttributeBit(v: Vector, n: int, withNegative: bool, m: int, b: int)
    requires 0 <= m <= n / 2 && n <= |v|
  {
    || (0 <= b < m && PositivePair(v, n, b + 1))
    || (withNegative && 16 <= b < 16 + m && NegativePair(v, n, b - 15))
  }

  /** The loop over the pairs `1..m`, each setting its positive and (optionally) negative bit. */
  function SetupPairs(v: Vector, n: int, withNegative: bool, m: int): (a: Attribute)
    requires 0 <= m <= n / 2 <= 16 && n <= |v|
    ensures forall b :: b in a <==> AttributeBit(v, n, withNegative, m, b)
    decreases m
  {
    if m == 0 then {}
    else
      var a := SetupPairs(v, n, withNegative, m - 1);
      var a1 := if PositivePair(v, n, m) then a + {m - 1} else a;
      if withNegative && NegativePair(v, n, m) then a1 + {16 + m - 1} else a1
  }

  /**
    The attribute of a fresh vector: bit `j-1` when `v(j)` or `v(n+1-j)` is
    positive and, with negatives, bit `16+j-1` when one of them is negative.
   */
  function SetupAttribute(v: Vector, n: int, withNegative: bool): (a: Attribute)
    requires 0 <= n && n / 2 <= 16 && n <= |v|
    ensures forall b :: b in a <==> AttributeBit(v, n, withNegative, n / 2, b)
  {
    SetupPairs(v, n, withNegative, n / 2)
  }

  /** `w(i)` or `w(n+1-i)` is negative: the raise at pair i may have come from a source. */
  predicate Touched(w: Vector, n: int, i: int)
    requires 1 <= i <= n - i + 1 <= |w|
  {
    w[i - 1] < 0 || w[n - i] < 0
  }

  /** Bit `b` of the stored vector `s` is erased on account of the new vector `w`. */
  ghost predicate Erased(w: Vector, n: int, s: Vector, b: int, irreducible: bool, withNegative: bool)
    requires |w| == n + 1
  {
    && irreducible
    && (|| (0 <= b < n / 2 && Touched(w, n, b + 1) && s == Source(w, b + 1))
        || (withNegative && 16 <= b < 16 + n / 2 && Touched(w, n, b - 15) && s == Neg(Source(w, b - 15))))
  }

  /** The positive pass over the pairs `1..m`. */
  function ErasePositive(w: Vector, n: int, pold: map<Vector, Attribute>, m: int): (r: map<Vector, Attribute>)
    requires |w| == n + 1 && 0 <= m <= n / 2 <= 16
    ensures r.Keys == pold.Keys
    ensures forall s, b :: s in pold ==>
              (b in r[s] <==> b in pold[s] && !(0 <= b < m && Touched(w, n, b + 1) && s == Source(w, b + 1)))
    decreases m
  {
    if m == 0 then pold
    else
      var r := ErasePositive(w, n, pold, m - 1);
      var s := Source(w, m);
      if Touched(w, n, m) && s in r then r[s := r[s] - {m - 1}] else r
  }

  /** The negative pass over the pairs `1..m`: the sources are negated. */
  function EraseNegative(w: Vector, n: int, pold: map<Vector, Attribute>, m: int): (r: map<Vector, Attribute>)
    requires |w| == n + 1 && 0 <= m <= n / 2 <= 16
    ensures r.Keys == pold.Keys
    ensures forall s, b :: s in pold ==>
              (b in r[s] <==> b in pold[s] && !(16 <= b < 16 + m && Touched(w, n, b - 15) && s == Neg(Source(w, b - 15))))
    decreases m
  {
    if m == 0 then pold
    else
      var r := EraseNegative(w, n, pold, m - 1);
      var s := Neg(Source(w, m));
      if Touched(w, n, m) && s in r then r[s := r[s] - {16 + m - 1}] else r
  }

  /**
    Source erasing for a new vector `w` (of length n+1): nothing unless `w`
    was found irreducible; otherwise the stored vectors keep their keys and
    lose exactly the bits of the raises that lead to `w`.
   */
  function EraseSource(w: Vector, n: int, pold: map<Vector, Attribute>, irreducible: bool, withNegative: bool)
    : (r: map<Vector, Attribute>)
    requires |w| == n + 1 && 0 <= n && n / 2 <= 16
    ensures r.Keys == pold.Keys
    ensures !irreducible ==> r == pold
    ensures forall s, b :: s in pold ==>
              (b in r[s] <==> b in pold[s] && !Erased(w, n, s, b, irreducible, withNegative))
  {
    if !irreducible then pold
    else
      var m := ErasePositive(w, n, pold, n / 2);
      if withNegative then EraseNegative(w, n, m, n / 2) else m
  }

  /**
    The bit erased at pair i belongs to the vector whose raise at that pair
    is `w` (or, for the negative half, whose negation raises to `w`).
   */
  lemma ErasedBitsLeadToW(w: Vector, n: int, s: Vector, b: int, irreducible: bool, withNegative: bool)
    requires |w| == n + 1 && n / 2 <= 16
    requires Erased(w, n, s, b, irreducible, withNegative)
    ensures b < 16 ==> Raise(s, b + 1, n - b) == w
    ensures b >= 16 ==> Raise(Neg(s), b - 15, n + 1 - (b - 15)) == w
  {
    if b < 16 {
      RaiseOfSource(w, b + 1);
    } else {
      NegNeg(Source(w, b - 15));
      assert Neg(s) == Source(w, b - 15);
      RaiseOfSource(w, b - 15);
    }
  }
}

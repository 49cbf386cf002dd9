/**
  One step of the enumeration of primitive partition identities: from the
  identities over `1..n` to those over `1..n+1`. The known identities are
  lifted (a zero appended) and stored in a finished digital tree for the
  reducibility queries; the identities `n+1 = p + (n+1-p)` are added; then
  stage by stage each identity with `t` parts equal to `n+1` is raised at
  every pair `(j, n+1-j)` whose attribute bit is still set, and the raise
  is kept when it is irreducible by sign or no stored vector reduces it.
 */
module Extend {
  import opened Vectors
  import opened TrieInsert
  import opened DigitalTrees
  import opened Reduction
  import opened Attributes

  /** The two hash sets of the stage being raised and the stage being built, with attributes. */
  datatype Pools = Pools(pold: map<Vector, Attribute>, pnew: map<Vector, Attribute>)

  /** Hash-set insertion: a vector already present keeps its attribute. */
  function InsertNew(m: map<Vector, Attribute>, v: Vector, a: Attribute): (r: map<Vector, Attribute>)
    ensures r.Keys == m.Keys + {v}
    ensures forall x :: x in m ==> r[x] == m[x]
    ensures v !in m ==> r[v] == a
  {
    if v in m then m else m[v := a]
  }

  /**
    The insertion test of a raise `w` at the pair (j, k): it is kept when
    neither `w(j)` nor `w(k)` went negative, or else when no stored vector,
    with either sign, lies in the raise box of `w`.
   */
  ghost predicate Admitted(pool: set<Vector>, w: Vector, j: int, k: int)
    requires 1 <= j < |w| && 1 <= k < |w|
  {
    (w[j - 1] >= 0 && w[k - 1] >= 0) || !HasRaiseReducer(pool, w, j, k)
  }

  /**
    Raises `v` at the pair (j, k), k = n+1-j, and files the result: the new
    vector enters `pnew` when admitted (keeping the attribute of an earlier
    copy) and then erases its sources in `pold`; a reducible raise changes
    nothing. In the sign-irreducible case the sources are erased even when
    the vector was already known.
   */
  function RaisePPI(v: Vector, j: int, k: int, n: int, p: DigitalTree, pools: Pools, withNegative: bool): (r: Pools)
    requires 1 <= n && n / 2 <= 16 && |v| == n + 1
    requires 1 <= j < k && j + k == n + 1
    requires QueryState(p) && p.dimension == n + 1
    ensures r.pnew.Keys ==
              if Admitted(Contents(p), Raise(v, j, k), j, k) then pools.pnew.Keys + {Raise(v, j, k)} else pools.pnew.Keys
    ensures forall x :: x in pools.pnew ==> r.pnew[x] == pools.pnew[x]
    ensures Raise(v, j, k) !in pools.pnew && Raise(v, j, k) in r.pnew ==>
              r.pnew[Raise(v, j, k)] == SetupAttribute(Raise(v, j, k), n, false)
    ensures !Admitted(Contents(p), Raise(v, j, k), j, k) ==> r.pold == pools.pold
    ensures Admitted(Contents(p), Raise(v, j, k), j, k) && Raise(v, j, k) !in pools.pnew ==>
              r.pold == EraseSource(Raise(v, j, k), n, pools.pold, true, withNegative)
    ensures Admitted(Contents(p), Raise(v, j, k), j, k) && Raise(v, j, k) in pools.pnew ==>
              r.pold == if Raise(v, j, k)[j - 1] >= 0 && Raise(v, j, k)[k - 1] >= 0
                        then EraseSource(Raise(v, j, k), n, pools.pold, true, withNegative)
                        else pools.pold
    ensures r.pold == pools.pold || r.pold == EraseSource(Raise(v, j, k), n, pools.pold, true, withNegative)
  {
    var w := Raise(v, j, k);
    var attribute := SetupAttribute(w, n, false);
    if w[j - 1] >= 0 && w[k - 1] >= 0 then
      Pools(EraseSource(w, n, pools.pold, true, withNegative), InsertNew(pools.pnew, w, attribute))
    else
      var b := RaiseBox(w, j, k);
      var nb := NegatedRaiseBox(w, j, k);
      RaiseQueries(p, w, j, k);
      if OrthogonalRangeSearch(p, b.lo, b.hi, False) && OrthogonalRangeSearch(p, nb.lo, nb.hi, False) then
        if w in pools.pnew then pools
        else Pools(EraseSource(w, n, pools.pold, true, withNegative), pools.pnew[w := attribute])
      else
        Pools(EraseSource(w, n, pools.pold, false, withNegative), pools.pnew)
  }

  /**
    `w` is an admitted raise, at some pair (j, n+1-j), of a vector `x` of
    `src` or (when `withNegative`) of its negation, and the attribute
    `src[x]` selects that pair.
   */
  ghost predicate RaisedFrom(w: Vector, src: map<Vector, Attribute>, n: int, withNegative: bool, pool: set<Vector>)
  {
    exists x, j :: x in src && RaisedAt(w, x, src[x], j, n, withNegative, pool)
  }

  /**
    `w` is the admitted raise of `x` at the pair (j, n+1-j) whose positive
    bit j-1 `a` holds, or of `Neg(x)` at a pair whose negative bit 16+j-1
    `a` holds.
   */
  ghost predicate RaisedAt(w: Vector, x: Vector, a: Attribute, j: int, n: int, withNegative: bool, pool: set<Vector>)
  {
    && |x| == n + 1 && 1 <= j && 2 * j <= n
    && ((j - 1 in a && w == Raise(x, j, n + 1 - j))
        || (withNegative && 16 + j - 1 in a && w == Raise(Neg(x), j, n + 1 - j)))
    && Admitted(pool, w, j, n + 1 - j)
  }

  /** `w` entered the new pool with attribute `a` as an admitted raise from `src`. */
  ghost predicate Added(w: Vector, a: Attribute, src: map<Vector, Attribute>, n: int, withNegative: bool, pool: set<Vector>)
    requires 0 <= n && n / 2 <= 16
  {
    |w| == n + 1 && a == SetupAttribute(w, n, false) && RaisedFrom(w, src, n, withNegative, pool)
  }

  /**
    `after` extends `before` without touching its entries, and every added
    vector is an admitted raise from `src` carrying its fresh attribute.
   */
  ghost predicate Grows(src: map<Vector, Attribute>, before: map<Vector, Attribute>, after: map<Vector, Attribute>,
                        n: int, withNegative: bool, pool: set<Vector>)
    requires 0 <= n && n / 2 <= 16
  {
    && (forall x :: x in before ==> x in after && after[x] == before[x])
    && (forall w :: w in after && w !in before ==> Added(w, after[w], src, n, withNegative, pool))
  }

  lemma GrowsTrans(src: map<Vector, Attribute>, a: map<Vector, Attribute>, b: map<Vector, Attribute>, c: map<Vector, Attribute>,
                   n: int, withNegative: bool, pool: set<Vector>)
    requires 0 <= n && n / 2 <= 16
    requires Grows(src, a, b, n, withNegative, pool) && Grows(src, b, c, n, withNegative, pool)
    ensures Grows(src, a, c, n, withNegative, pool)
  {
  }

  /** One call of `RaisePPI` on `v` (or its negation) grows `pnew` by raises from `src`. */
  lemma RaisePPIGrows(v: Vector, x: Vector, j: int, n: int, p: DigitalTree, pools: Pools, withNegative: bool,
                      src: map<Vector, Attribute>)
    requires 1 <= n && n / 2 <= 16 && |x| == n + 1 && x in src
    requires (v == x && j - 1 in src[x]) || (withNegative && v == Neg(x) && 16 + j - 1 in src[x])
    requires 1 <= j && 2 * j <= n
    requires QueryState(p) && p.dimension == n + 1
    ensures |v| == n + 1
    ensures Grows(src, pools.pnew, RaisePPI(v, j, n + 1 - j, n, p, pools, withNegative).pnew, n, withNegative, Contents(p))
  {
    var k := n + 1 - j;
    assert |v| == n + 1;
    var w := Raise(v, j, k);
    var r := RaisePPI(v, j, k, n, p, pools, withNegative);
    assert w in r.pnew && w !in pools.pnew ==> RaisedAt(w, x, src[x], j, n, withNegative, Contents(p));
    GrowsByOne(src, pools.pnew, r.pnew, w, n, withNegative, Contents(p));
  }

  /** Adding at most the one key `w`, as an admitted raise with its fresh attribute, grows the pool. */
  lemma GrowsByOne(src: map<Vector, Attribute>, before: map<Vector, Attribute>, after: map<Vector, Attribute>, w: Vector,
                   n: int, withNegative: bool, pool: set<Vector>)
    requires 0 <= n && n / 2 <= 16 && |w| == n + 1
    requires after.Keys <= before.Keys + {w}
    requires forall x :: x in before ==> x in after && after[x] == before[x]
    requires w in after && w !in before ==>
               after[w] == SetupAttribute(w, n, false) && RaisedFrom(w, src, n, withNegative, pool)
    ensures Grows(src, before, after, n, withNegative, pool)
  {
  }

  /** The raise of `v` at the pair (j, n+1-j) is in `found` whenever it is admitted. */
  ghost predicate RaisedIn(v: Vector, j: int, n: int, pool: set<Vector>, found: set<Vector>)
    requires |v| == n + 1 && 1 <= j && 2 * j <= n
  {
    Admitted(pool, Raise(v, j, n + 1 - j), j, n + 1 - j) ==> Raise(v, j, n + 1 - j) in found
  }

  /**
    The pair j of `x` is done: if its bit is set in `a` the raise of `x` at
    the pair is in `found` when admitted, and likewise for the raise of `-x`
    when its negative bit is set and negatives are raised.
   */
  ghost predicate PairDone(x: Vector, a: Attribute, j: int, n: int, pool: set<Vector>, found: set<Vector>,
                           withNegative: bool)
    requires |x| == n + 1 && 1 <= j && 2 * j <= n
  {
    && (j - 1 in a ==> RaisedIn(x, j, n, pool, found))
    && (withNegative && 16 + j - 1 in a ==> RaisedIn(Neg(x), j, n, pool, found))
  }

  /** Every pair of `x` selected by `a` is done. */
  ghost predicate Complete(x: Vector, a: Attribute, n: int, pool: set<Vector>, found: set<Vector>, withNegative: bool)
    requires |x| == n + 1
  {
    forall j :: 1 <= j && 2 * j <= n ==> PairDone(x, a, j, n, pool, found, withNegative)
  }

  /** Bit `b` of `x` may be dropped: the raise it selects is already in `found`. */
  ghost predicate Covered(x: Vector, b: int, n: int, found: set<Vector>)
  {
    && |x| == n + 1
    && (|| (0 <= b < 16 && 2 * (b + 1) <= n && Raise(x, b + 1, n - b) in found)
        || (16 <= b && 2 * (b - 15) <= n && Raise(Neg(x), b - 15, n + 1 - (b - 15)) in found))
  }

  /**
    Every vector of `before` is in `after` with no bit gained, and each of
    its bits is still set or covered.
   */
  ghost predicate BitsKept(before: map<Vector, Attribute>, after: map<Vector, Attribute>, n: int, found: set<Vector>)
  {
    && before.Keys <= after.Keys
    && (forall x :: x in before ==> after[x] <= before[x])
    && forall x, b :: x in before && b in before[x] ==> b in after[x] || Covered(x, b, n, found)
  }

  lemma BitsKeptTrans(a: map<Vector, Attribute>, b: map<Vector, Attribute>, c: map<Vector, Attribute>, n: int,
                      found: set<Vector>, found': set<Vector>)
    requires BitsKept(a, b, n, found) && BitsKept(b, c, n, found') && found <= found'
    ensures BitsKept(a, c, n, found')
  {
    forall x, i | x in a && i in a[x]
      ensures i in c[x] || Covered(x, i, n, found')
    {
      if i !in b[x] {
        assert Covered(x, i, n, found);
      }
    }
  }

  lemma CompleteMore(x: Vector, a: Attribute, n: int, pool: set<Vector>, found: set<Vector>, found': set<Vector>,
                     withNegative: bool)
    requires |x| == n + 1 && found <= found'
    requires Complete(x, a, n, pool, found, withNegative)
    ensures Complete(x, a, n, pool, found', withNegative)
  {
    forall j | 1 <= j && 2 * j <= n
      ensures PairDone(x, a, j, n, pool, found', withNegative)
    {
      assert PairDone(x, a, j, n, pool, found, withNegative);
    }
  }

  /** A bit erased for the sake of `w` selects the raise `w`, so it is covered once `w` is found. */
  lemma EraseCovered(w: Vector, n: int, pold: map<Vector, Attribute>, withNegative: bool, found: set<Vector>)
    requires |w| == n + 1 && 0 <= n && n / 2 <= 16 && w in found
    ensures BitsKept(pold, EraseSource(w, n, pold, true, withNegative), n, found)
  {
    var r := EraseSource(w, n, pold, true, withNegative);
    forall x, b | x in pold && b in pold[x] && b !in r[x]
      ensures Covered(x, b, n, found)
    {
      assert Erased(w, n, x, b, true, withNegative);
      ErasedBitsLeadToW(w, n, x, b, true, withNegative);
    }
  }

  lemma KeptItself(pold: map<Vector, Attribute>, n: int, found: set<Vector>)
    ensures BitsKept(pold, pold, n, found)
  {
  }

  lemma KeptOrCovered(w: Vector, n: int, pold: map<Vector, Attribute>, pold': map<Vector, Attribute>,
                      withNegative: bool, found: set<Vector>)
    requires |w| == n + 1 && 0 <= n && n / 2 <= 16
    requires pold' == pold || (pold' == EraseSource(w, n, pold, true, withNegative) && w in found)
    ensures BitsKept(pold, pold', n, found)
  {
    if pold' != pold {
      EraseCovered(w, n, pold, withNegative, found);
    }
  }

  /** An admitted raise is in the new pool after `RaisePPI`. */
  lemma RaisePPIFinds(v: Vector, j: int, n: int, p: DigitalTree, pools: Pools, withNegative: bool)
    requires 1 <= n && n / 2 <= 16 && |v| == n + 1
    requires 1 <= j && 2 * j <= n
    requires QueryState(p) && p.dimension == n + 1
    ensures RaisedIn(v, j, n, Contents(p), RaisePPI(v, j, n + 1 - j, n, p, pools, withNegative).pnew.Keys)
  {
  }

  /** `RaisePPI` erases the sources of a raise only when that raise ends up in the new pool. */
  lemma RaisePPIErases(v: Vector, j: int, n: int, p: DigitalTree, pools: Pools, withNegative: bool)
    requires 1 <= n && n / 2 <= 16 && |v| == n + 1
    requires 1 <= j && 2 * j <= n
    requires QueryState(p) && p.dimension == n + 1
    ensures var r := RaisePPI(v, j, n + 1 - j, n, p, pools, withNegative);
            || r.pold == pools.pold
            || (r.pold == EraseSource(Raise(v, j, n + 1 - j), n, pools.pold, true, withNegative)
                && Raise(v, j, n + 1 - j) in r.pnew)
  {
  }

  /** A bit dropped by `RaisePPI` is covered by the raise that call put in the new pool. */
  lemma RaisePPICovers(v: Vector, j: int, n: int, p: DigitalTree, pools: Pools, withNegative: bool)
    requires 1 <= n && n / 2 <= 16 && |v| == n + 1
    requires 1 <= j && 2 * j <= n
    requires QueryState(p) && p.dimension == n + 1
    ensures BitsKept(pools.pold, RaisePPI(v, j, n + 1 - j, n, p, pools, withNegative).pold, n,
                     RaisePPI(v, j, n + 1 - j, n, p, pools, withNegative).pnew.Keys)
  {
    var r := RaisePPI(v, j, n + 1 - j, n, p, pools, withNegative);
    RaisePPIErases(v, j, n, p, pools, withNegative);
    KeptOrCovered(Raise(v, j, n + 1 - j), n, pools.pold, r.pold, withNegative, r.pnew.Keys);
  }

  /** The call `RaisePPI(v, j, n+1-j)` for `v` a stored vector `x` or its negation. */
  method RaiseAt(p: DigitalTree, n: int, v: Vector, x: Vector, j: int, pools: Pools, withNegative: bool,
                 ghost src: map<Vector, Attribute>)
    returns (r: Pools)
    requires 1 <= n && n / 2 <= 16 && |x| == n + 1 && x in src
    requires (v == x && j - 1 in src[x]) || (withNegative && v == Neg(x) && 16 + j - 1 in src[x])
    requires 1 <= j && 2 * j <= n
    requires QueryState(p) && p.dimension == n + 1
    ensures r.pold.Keys == pools.pold.Keys
    ensures Grows(src, pools.pnew, r.pnew, n, withNegative, Contents(p))
    ensures |v| == n + 1 && RaisedIn(v, j, n, Contents(p), r.pnew.Keys)
    ensures r.pnew.Keys <= pools.pnew.Keys + {Raise(v, j, n + 1 - j)}
    ensures BitsKept(pools.pold, r.pold, n, r.pnew.Keys)
  {
    RaisePPIGrows(v, x, j, n, p, pools, withNegative, src);
    RaisePPIFinds(v, j, n, p, pools, withNegative);
    RaisePPICovers(v, j, n, p, pools, withNegative);
    r := RaisePPI(v, j, n + 1 - j, n, p, pools, withNegative);
  }

  /**
    The raises of one stored vector: for each pair whose bit is set in the
    attribute read when the vector was reached, raise it (and, in the first
    stage, its negation for the negative bits).
   */
  method RaiseVector(p: DigitalTree, n: int, v: Vector, attribute: Attribute, pools: Pools, withNegative: bool,
                     ghost src: map<Vector, Attribute>)
    returns (r: Pools)
    requires 1 <= n && n / 2 <= 16 && |v| == n + 1 && v in src && attribute <= src[v]
    requires QueryState(p) && p.dimension == n + 1
    ensures r.pold.Keys == pools.pold.Keys
    ensures Grows(src, pools.pnew, r.pnew, n, withNegative, Contents(p))
    ensures Complete(v, attribute, n, Contents(p), r.pnew.Keys, withNegative)
    ensures BitsKept(pools.pold, r.pold, n, r.pnew.Keys)
  {
    r := pools;
    KeptItself(pools.pold, n, pools.pnew.Keys);
    if attribute != {} {
      var j := 1;
      while j <= n / 2
        invariant 1 <= j <= n / 2 + 1
        invariant r.pold.Keys == pools.pold.Keys
        invariant Grows(src, pools.pnew, r.pnew, n, withNegative, Contents(p))
        invariant forall i :: 1 <= i < j ==> PairDone(v, attribute, i, n, Contents(p), r.pnew.Keys, withNegative)
        invariant BitsKept(pools.pold, r.pold, n, r.pnew.Keys)
      {
        r := RaisePair(p, n, v, attribute, j, r, withNegative, src, pools);
        j := j + 1;
      }
    }
  }

  /** The raises of `v` at the pair j, as selected by its attribute. */
  method RaisePair(p: DigitalTree, n: int, v: Vector, attribute: Attribute, j: int, pools: Pools, withNegative: bool,
                   ghost src: map<Vector, Attribute>, ghost start: Pools)
    returns (r: Pools)
    requires 1 <= n && n / 2 <= 16 && |v| == n + 1 && v in src && attribute <= src[v]
    requires 1 <= j && 2 * j <= n
    requires QueryState(p) && p.dimension == n + 1
    requires Grows(src, start.pnew, pools.pnew, n, withNegative, Contents(p))
    requires forall i :: 1 <= i < j ==> PairDone(v, attribute, i, n, Contents(p), pools.pnew.Keys, withNegative)
    requires BitsKept(start.pold, pools.pold, n, pools.pnew.Keys)
    ensures r.pold.Keys == pools.pold.Keys
    ensures Grows(src, start.pnew, r.pnew, n, withNegative, Contents(p))
    ensures forall i :: 1 <= i <= j ==> PairDone(v, attribute, i, n, Contents(p), r.pnew.Keys, withNegative)
    ensures BitsKept(start.pold, r.pold, n, r.pnew.Keys)
  {
    r := pools;
    if j - 1 in attribute {
      r := RaiseStep(p, n, v, v, j, r, withNegative, src, start);
    }
    ghost var mid := r.pnew.Keys;
    if withNegative && 16 + j - 1 in attribute {
      r := RaiseStep(p, n, Neg(v), v, j, r, withNegative, src, start);
    }
    PairDoneStep(v, attribute, j, n, Contents(p), pools.pnew.Keys, mid, r.pnew.Keys, withNegative);
  }

  /** `RaiseAt`, with its growth and kept bits counted from the start of the vector's raises. */
  method RaiseStep(p: DigitalTree, n: int, v: Vector, x: Vector, j: int, pools: Pools, withNegative: bool,
                   ghost src: map<Vector, Attribute>, ghost start: Pools)
    returns (r: Pools)
    requires 1 <= n && n / 2 <= 16 && |x| == n + 1 && x in src
    requires (v == x && j - 1 in src[x]) || (withNegative && v == Neg(x) && 16 + j - 1 in src[x])
    requires 1 <= j && 2 * j <= n
    requires QueryState(p) && p.dimension == n + 1
    requires Grows(src, start.pnew, pools.pnew, n, withNegative, Contents(p))
    requires BitsKept(start.pold, pools.pold, n, pools.pnew.Keys)
    ensures r.pold.Keys == pools.pold.Keys && pools.pnew.Keys <= r.pnew.Keys
    ensures r.pnew.Keys <= pools.pnew.Keys + {Raise(v, j, n + 1 - j)}
    ensures Grows(src, start.pnew, r.pnew, n, withNegative, Contents(p))
    ensures BitsKept(start.pold, r.pold, n, r.pnew.Keys)
    ensures |v| == n + 1 && RaisedIn(v, j, n, Contents(p), r.pnew.Keys)
  {
    r := RaiseAt(p, n, v, x, j, pools, withNegative, src);
    GrowsTrans(src, start.pnew, pools.pnew, r.pnew, n, withNegative, Contents(p));
    BitsKeptTrans(start.pold, pools.pold, r.pold, n, pools.pnew.Keys, r.pnew.Keys);
  }

  /** The pairs below j stay done as `found` grows, and pair j is done by the raises just made. */
  lemma PairDoneStep(v: Vector, a: Attribute, j: int, n: int, pool: set<Vector>, found: set<Vector>,
                     mid: set<Vector>, found': set<Vector>, withNegative: bool)
    requires |v| == n + 1 && 1 <= j && 2 * j <= n && found <= mid <= found'
    requires forall i :: 1 <= i < j ==> PairDone(v, a, i, n, pool, found, withNegative)
    requires j - 1 in a ==> RaisedIn(v, j, n, pool, mid)
    requires withNegative && 16 + j - 1 in a ==> RaisedIn(Neg(v), j, n, pool, found')
    ensures forall i :: 1 <= i <= j ==> PairDone(v, a, i, n, pool, found', withNegative)
  {
    PairsDoneMore(v, a, j, n, pool, found, found', withNegative);
  }

  lemma PairsDoneMore(v: Vector, a: Attribute, j: int, n: int, pool: set<Vector>, found: set<Vector>,
                      found': set<Vector>, withNegative: bool)
    requires |v| == n + 1 && 2 * j <= n + 2 && found <= found'
    requires forall i :: 1 <= i < j ==> PairDone(v, a, i, n, pool, found, withNegative)
    ensures forall i :: 1 <= i < j ==> PairDone(v, a, i, n, pool, found', withNegative)
  {
    forall i | 1 <= i < j
      ensures PairDone(v, a, i, n, pool, found', withNegative)
    {
      assert PairDone(v, a, i, n, pool, found, withNegative);
    }
  }

  /**
    One stage: every vector of `pold`, in the unspecified order of the hash
    set, is raised by the bits its attribute still has when it is reached.
   */
  method RaisePass(p: DigitalTree, n: int, pools: Pools, withNegative: bool) returns (r: Pools)
    requires 1 <= n && n / 2 <= 16
    requires QueryState(p) && p.dimension == n + 1
    requires forall x :: x in pools.pold ==> |x| == n + 1
    ensures r.pold.Keys == pools.pold.Keys
    ensures Grows(pools.pold, pools.pnew, r.pnew, n, withNegative, Contents(p))
    ensures forall x :: x in pools.pold ==> Complete(x, pools.pold[x], n, Contents(p), r.pnew.Keys, withNegative)
  {
    r := pools;
    KeptItself(pools.pold, n, pools.pnew.Keys);
    var todo := pools.pold.Keys;
    while todo != {}
      invariant todo <= pools.pold.Keys
      invariant r.pold.Keys == pools.pold.Keys
      invariant Grows(pools.pold, pools.pnew, r.pnew, n, withNegative, Contents(p))
      invariant BitsKept(pools.pold, r.pold, n, r.pnew.Keys)
      invariant forall x :: x in pools.pold && x !in todo ==>
                  Complete(x, pools.pold[x], n, Contents(p), r.pnew.Keys, withNegative)
      decreases |todo|
    {
      var v :| v in todo;
      r := Visit(p, n, v, todo, r, withNegative, pools);
      todo := todo - {v};
    }
  }

  /** Raising the vector `v` of `todo` keeps the loop facts of `RaisePass` for `todo - {v}`. */
  method Visit(p: DigitalTree, n: int, v: Vector, ghost todo: set<Vector>, pools: Pools, withNegative: bool,
               ghost start: Pools)
    returns (r: Pools)
    requires 1 <= n && n / 2 <= 16
    requires QueryState(p) && p.dimension == n + 1
    requires forall x :: x in start.pold ==> |x| == n + 1
    requires v in todo && todo <= start.pold.Keys && pools.pold.Keys == start.pold.Keys
    requires Grows(start.pold, start.pnew, pools.pnew, n, withNegative, Contents(p))
    requires BitsKept(start.pold, pools.pold, n, pools.pnew.Keys)
    requires forall x :: x in start.pold && x !in todo ==>
               Complete(x, start.pold[x], n, Contents(p), pools.pnew.Keys, withNegative)
    ensures r.pold.Keys == start.pold.Keys
    ensures Grows(start.pold, start.pnew, r.pnew, n, withNegative, Contents(p))
    ensures BitsKept(start.pold, r.pold, n, r.pnew.Keys)
    ensures forall x :: x in start.pold && x !in todo - {v} ==>
              Complete(x, start.pold[x], n, Contents(p), r.pnew.Keys, withNegative)
  {
    r := RaiseVector(p, n, v, pools.pold[v], pools, withNegative, start.pold);
    GrowsTrans(start.pold, start.pnew, pools.pnew, r.pnew, n, withNegative, Contents(p));
    BitsKeptTrans(start.pold, pools.pold, r.pold, n, pools.pnew.Keys, r.pnew.Keys);
    forall x | x in start.pold && x !in todo - {v}
      ensures Complete(x, start.pold[x], n, Contents(p), r.pnew.Keys, withNegative)
    {
      if x == v {
        VisitComplete(v, start.pold[v], pools.pold[v], n, Contents(p), pools.pnew.Keys, r.pnew.Keys, withNegative);
      } else {
        CompleteMore(x, start.pold[x], n, Contents(p), pools.pnew.Keys, r.pnew.Keys, withNegative);
      }
    }
  }

  /**
    A vector raised by the bits its attribute still had is complete for the
    attribute it started the stage with: each bit dropped meanwhile was
    covered by a raise already found.
   */
  lemma VisitComplete(v: Vector, a0: Attribute, a: Attribute, n: int, pool: set<Vector>, found: set<Vector>,
                      found': set<Vector>, withNegative: bool)
    requires |v| == n + 1 && n / 2 <= 16 && found <= found'
    requires forall b :: b in a0 ==> b in a || Covered(v, b, n, found)
    requires Complete(v, a, n, pool, found', withNegative)
    ensures Complete(v, a0, n, pool, found', withNegative)
  {
    forall j | 1 <= j && 2 * j <= n
      ensures PairDone(v, a0, j, n, pool, found', withNegative)
    {
      assert PairDone(v, a, j, n, pool, found', withNegative);
      if j - 1 in a0 && j - 1 !in a {
        assert Covered(v, j - 1, n, found);
        assert Raise(v, j, n - (j - 1)) == Raise(v, j, n + 1 - j);
      }
      if withNegative && 16 + j - 1 in a0 && 16 + j - 1 !in a {
        assert Covered(v, 16 + j - 1, n, found);
      }
    }
  }

  /** The identity `n+1 = p + (n+1-p)` as a vector of length n+1 (with -2 at p when p = n+1-p). */
  function Boundary(n: int, p: int): (v: Vector)
    requires 1 <= p && 2 * p <= n + 1
    ensures |v| == n + 1 && v[n] == 1
    ensures forall i :: 0 <= i < n ==> v[i] == (if i == p - 1 then -1 else 0) + (if i == n - p then -1 else 0)
  {
    var v := seq(n + 1, i requires 0 <= i < n + 1 => if i == n then 1 else 0);
    var v := v[p - 1 := v[p - 1] - 1];
    v[n - p := v[n - p] - 1]
  }

  lemma {:induction false} ZerosWeightedSum(m: nat)
    ensures WeightedSum(seq(m, i => 0)) == 0
  {
    if m > 0 {
      assert seq(m, i => 0)[..m - 1] == seq(m - 1, i => 0);
      ZerosWeightedSum(m - 1);
    }
  }

  /** The boundary identities are partition identities: their weighted sum is zero. */
  lemma BoundaryWeightedSum(n: int, p: int)
    requires 1 <= p && 2 * p <= n + 1
    ensures WeightedSum(Boundary(n, p)) == 0
  {
    var v0 := seq(n + 1, i requires 0 <= i < n + 1 => if i == n then 1 else 0);
    assert v0[..n] == seq(n, i => 0);
    ZerosWeightedSum(n);
    assert WeightedSum(v0) == n + 1;
    UpdateWeightedSum(v0, p - 1, -1);
    UpdateWeightedSum(v0[p - 1 := v0[p - 1] - 1], n - p, -1);
  }

  /** `x` is one of the boundary identities. */
  ghost predicate IsBoundary(n: int, x: Vector)
  {
    exists p :: 1 <= p && 2 * p <= n + 1 && x == Boundary(n, p)
  }

  /** The second phase: the boundary identities `1..(n+1)/2`, each with its attribute, form the new pool. */
  method Boundaries(n: int) returns (pnew: map<Vector, Attribute>)
    requires 1 <= n && n / 2 <= 16
    ensures forall x :: x in pnew ==> |x| == n + 1 && IsBoundary(n, x) && pnew[x] == SetupAttribute(x, n, false)
    ensures forall p :: 1 <= p && 2 * p <= n + 1 ==> Boundary(n, p) in pnew
  {
    pnew := map[];
    var p := 1;
    while p <= (n + 1) / 2
      invariant 1 <= p <= (n + 1) / 2 + 1
      invariant forall x :: x in pnew ==> |x| == n + 1 && IsBoundary(n, x) && pnew[x] == SetupAttribute(x, n, false)
      invariant forall q :: 1 <= q < p ==> Boundary(n, q) in pnew
    {
      var b := Boundary(n, p);
      assert IsBoundary(n, b);
      pnew := InsertNew(pnew, b, SetupAttribute(b, n, false));
      p := p + 1;
    }
  }

  /**
    The first phase: every input identity is lifted, given its attribute
    with negatives and stored both in the tree and in `pold`.
   */
  method LiftInput(pn: set<Vector>, n: int) returns (tree: DigitalTree, pold: map<Vector, Attribute>)
    requires 1 <= n && n / 2 <= 16
    requires forall v :: v in pn ==> |v| == n && CoordinatesWithin(v, n + 1)
    ensures tree.dimension == n + 1 && BuildState(tree) && Bounded(tree)
    ensures Contents(tree) == LiftAll(pn) && pold.Keys == LiftAll(pn)
    ensures forall x :: x in pold ==> |x| == n + 1 && pold[x] == SetupAttribute(x, n, true)
  {
    tree := Empty(n + 1);
    pold := map[];
    var todo := pn;
    ghost var done: set<Vector> := {};
    while todo != {}
      invariant todo <= pn && done == pn - todo
      invariant tree.dimension == n + 1 && BuildState(tree) && Bounded(tree)
      invariant Contents(tree) == LiftAll(done) && pold.Keys == LiftAll(done)
      invariant forall x :: x in pold ==> |x| == n + 1 && pold[x] == SetupAttribute(x, n, true)
      decreases |todo|
    {
      var v :| v in todo;
      tree, pold := StoreLifted(tree, pold, v, n, done);
      done := done + {v};
      todo := todo - {v};
    }
  }

  /** Stores the lift of one more input vector in the tree and in `pold`. */
  method StoreLifted(tree: DigitalTree, pold: map<Vector, Attribute>, v: Vector, n: int, ghost done: set<Vector>)
    returns (tree': DigitalTree, pold': map<Vector, Attribute>)
    requires 1 <= n && n / 2 <= 16 && |v| == n && CoordinatesWithin(v, n + 1) && v !in done
    requires tree.dimension == n + 1 && BuildState(tree) && Bounded(tree)
    requires Contents(tree) == LiftAll(done) && pold.Keys == LiftAll(done)
    requires forall x :: x in pold ==> |x| == n + 1 && pold[x] == SetupAttribute(x, n, true)
    ensures tree'.dimension == n + 1 && BuildState(tree') && Bounded(tree')
    ensures Contents(tree') == LiftAll(done + {v}) && pold'.Keys == LiftAll(done + {v})
    ensures forall x :: x in pold' ==> |x| == n + 1 && pold'[x] == SetupAttribute(x, n, true)
  {
    var u := Lift(v);
    LiftFresh(done, v);
    assert LiftAll(done + {v}) == LiftAll(done) + {u};
    assert CoordinatesWithin(u, n + 1);
    AbsentIsInsertable(tree, u);
    tree' := Insert(tree, u);
    pold' := InsertNew(pold, u, SetupAttribute(u, n, true));
  }

  lemma LiftFresh(done: set<Vector>, v: Vector)
    requires v !in done
    ensures Lift(v) !in LiftAll(done)
  {
    forall x | x in done ensures Lift(x) != Lift(v) {
      LiftInjective(x, v);
    }
  }

  /** Every vector of the set is a partition identity. */
  ghost predicate Balanced(s: set<Vector>)
  {
    forall w :: w in s ==> WeightedSum(w) == 0
  }

  /** The vectors of `all` of length n+1 whose last coordinate is `t`. */
  ghost function Layer(all: set<Vector>, n: int, t: int): set<Vector>
    requires 0 <= n
  {
    set x | x in all && |x| == n + 1 && x[n] == t
  }

  /**
    `w` is an admitted raise of a vector `x` of `layer` at a pair that the
    attribute `x` is given when it is stored selects: a positive pair of
    `x`, or (when `withNegative`) a negative pair raised from `Neg(x)`.
   */
  ghost predicate DerivedFrom(w: Vector, layer: set<Vector>, n: int, withNegative: bool, pool: set<Vector>)
    requires 0 <= n && n / 2 <= 16
  {
    exists x, j :: x in layer && |x| == n + 1 && RaisedAt(w, x, SetupAttribute(x, n, withNegative), j, n, withNegative, pool)
  }

  /**
    How an identity with a part `n+1` came about: it is a boundary
    identity, or an admitted raise of an identity one layer below at a pair
    that identity's attribute selects (of its negation too, for the first
    layer).
   */
  ghost predicate Derived(w: Vector, all: set<Vector>, n: int, pool: set<Vector>)
    requires 0 <= n && n / 2 <= 16 && |w| == n + 1
  {
    IsBoundary(n, w) || DerivedFrom(w, Layer(all, n, w[n] - 1), n, w[n] == 1, pool)
  }

  /**
    The state between stages: `done` holds the layers below `t`, `stage`
    the layer `t`; the lifted input is layer 0, and every vector above it is
    derived from the layer below.
   */
  ghost predicate StageInvariant(pn: set<Vector>, n: int, done: set<Vector>, stage: set<Vector>, t: int)
    requires n / 2 <= 16
  {
    && 1 <= t <= n
    && (forall w :: w in done ==> |w| == n + 1 && 0 <= w[n] < t)
    && (forall w :: w in stage ==> |w| == n + 1 && w[n] == t)
    && LiftAll(pn) <= done
    && (forall w :: w in done && w[n] == 0 ==> w in LiftAll(pn))
    && (forall p :: 1 <= p && 2 * p <= n + 1 ==> Boundary(n, p) in done + stage)
    && (Balanced(pn) ==> Balanced(done + stage))
    && (forall w :: w in done + stage && w[n] >= 1 ==> Derived(w, done + stage, n, LiftAll(pn)))
  }

  lemma DerivedFromMore(w: Vector, s1: set<Vector>, s2: set<Vector>, n: int, withNegative: bool, pool: set<Vector>)
    requires 0 <= n && n / 2 <= 16
    requires DerivedFrom(w, s1, n, withNegative, pool) && s1 <= s2
    ensures DerivedFrom(w, s2, n, withNegative, pool)
  {
    var x, j :| x in s1 && |x| == n + 1 && RaisedAt(w, x, SetupAttribute(x, n, withNegative), j, n, withNegative, pool);
    assert x in s2;
  }

  /** A raise from a pool whose attributes are the stored ones is derived from any layer holding the pool. */
  lemma PoolDerived(w: Vector, src: map<Vector, Attribute>, layer: set<Vector>, n: int, withNegative: bool,
                    pool: set<Vector>)
    requires 0 <= n && n / 2 <= 16
    requires RaisedFrom(w, src, n, withNegative, pool)
    requires forall x :: x in src ==> x in layer && |x| == n + 1 && src[x] == SetupAttribute(x, n, withNegative)
    ensures DerivedFrom(w, layer, n, withNegative, pool)
  {
    var x, j :| x in src && RaisedAt(w, x, src[x], j, n, withNegative, pool);
    assert x in layer && src[x] == SetupAttribute(x, n, withNegative);
  }

  /** A derivation stays valid when more vectors are known. */
  lemma DerivedMore(w: Vector, all: set<Vector>, all': set<Vector>, n: int, pool: set<Vector>)
    requires 0 <= n && n / 2 <= 16 && |w| == n + 1 && all <= all'
    requires Derived(w, all, n, pool)
    ensures Derived(w, all', n, pool)
  {
    if !IsBoundary(n, w) {
      DerivedFromMore(w, Layer(all, n, w[n] - 1), Layer(all', n, w[n] - 1), n, w[n] == 1, pool);
    }
  }

  /** What a raise from layer `t` looks like: layer t+1, length n+1, balanced when its source is. */
  lemma RaisedShape(w: Vector, src: map<Vector, Attribute>, n: int, wn: bool, pool: set<Vector>, t: int)
    requires RaisedFrom(w, src, n, wn, pool)
    requires forall x :: x in src ==> |x| == n + 1 && x[n] == t
    requires wn ==> t == 0
    ensures |w| == n + 1 && w[n] == t + 1
    ensures Balanced(src.Keys) ==> WeightedSum(w) == 0
  {
    var x, j :| x in src && RaisedAt(w, x, src[x], j, n, wn, pool);
    if w == Raise(x, j, n + 1 - j) {
      RaiseOfLayer(x, j, n, t);
    } else {
      NegWeightedSum(x);
      RaiseOfLayer(Neg(x), j, n, 0);
    }
  }

  /** A raise at a pair (j, n+1-j) moves a vector one layer up and keeps its weighted sum. */
  lemma RaiseOfLayer(x: Vector, j: int, n: int, t: int)
    requires 0 <= n && |x| == n + 1 && x[n] == t && 1 <= j && 2 * j <= n
    ensures |Raise(x, j, n + 1 - j)| == n + 1 && Raise(x, j, n + 1 - j)[n] == t + 1
    ensures WeightedSum(Raise(x, j, n + 1 - j)) == WeightedSum(x)
  {
    RaiseKeepsWeightedSum(x, j, n + 1 - j);
  }

  /** The state after the first stage: the lifted input below, the first layer in `next`. */
  lemma FirstStage(pn: set<Vector>, n: int, pold: map<Vector, Attribute>, boundaries: map<Vector, Attribute>,
                   next: map<Vector, Attribute>)
    requires 1 <= n && n / 2 <= 16
    requires forall v :: v in pn ==> |v| == n
    requires pold.Keys == LiftAll(pn)
    requires forall x :: x in pold ==> |x| == n + 1 && pold[x] == SetupAttribute(x, n, true)
    requires forall x :: x in boundaries ==> |x| == n + 1 && IsBoundary(n, x)
    requires forall p :: 1 <= p && 2 * p <= n + 1 ==> Boundary(n, p) in boundaries
    requires Grows(pold, boundaries, next, n, true, LiftAll(pn))
    ensures StageInvariant(pn, n, LiftAll(pn), next.Keys, 1)
  {
    var lifted := LiftAll(pn);
    var all := lifted + next.Keys;
    forall x | x in lifted ensures |x| == n + 1 && x[n] == 0 && (Balanced(pn) ==> WeightedSum(x) == 0) {
      var v :| v in pn && x == Lift(v);
      LiftWeightedSum(v);
    }
    assert Layer(all, n, 0) >= lifted;
    forall w | w in next.Keys
      ensures |w| == n + 1 && w[n] == 1
      ensures Balanced(pn) ==> WeightedSum(w) == 0
      ensures Derived(w, all, n, lifted)
    {
      if w in boundaries {
        var p :| 1 <= p && 2 * p <= n + 1 && w == Boundary(n, p);
        BoundaryWeightedSum(n, p);
      } else {
        assert Added(w, next[w], pold, n, true, lifted);
        RaisedShape(w, pold, n, true, lifted, 0);
        PoolDerived(w, pold, Layer(all, n, 0), n, true, lifted);
      }
    }
  }

  /** The vectors of the next layer are raises of the current one and keep the invariant's promises. */
  lemma NextLayer(pn: set<Vector>, n: int, stage: map<Vector, Attribute>, next: map<Vector, Attribute>,
                  all': set<Vector>, t: int)
    requires 1 <= n && n / 2 <= 16 && 1 <= t
    requires forall w :: w in stage ==> |w| == n + 1 && w[n] == t
    requires FreshAttributes(stage, n)
    requires Grows(stage, map[], next, n, false, LiftAll(pn))
    requires stage.Keys <= all'
    ensures forall w :: w in next.Keys ==> |w| == n + 1 && w[n] == t + 1 && Derived(w, all', n, LiftAll(pn))
    ensures Balanced(stage.Keys) ==> Balanced(next.Keys)
  {
    assert Layer(all', n, t) >= stage.Keys;
    forall w | w in next.Keys
      ensures |w| == n + 1 && w[n] == t + 1
      ensures Balanced(stage.Keys) ==> WeightedSum(w) == 0
      ensures Derived(w, all', n, LiftAll(pn))
    {
      assert Added(w, next[w], stage, n, false, LiftAll(pn));
      RaisedShape(w, stage, n, false, LiftAll(pn), t);
      PoolDerived(w, stage, Layer(all', n, t), n, false, LiftAll(pn));
    }
  }

  /** One more stage keeps the invariant. */
  lemma NextStage(pn: set<Vector>, n: int, done: set<Vector>, stage: map<Vector, Attribute>,
                  next: map<Vector, Attribute>, t: int)
    requires 1 <= n && n / 2 <= 16 && t < n
    requires StageInvariant(pn, n, done, stage.Keys, t)
    requires FreshAttributes(stage, n)
    requires Grows(stage, map[], next, n, false, LiftAll(pn))
    ensures StageInvariant(pn, n, done + stage.Keys, next.Keys, t + 1)
  {
    var all := done + stage.Keys;
    var all' := all + next.Keys;
    NextLayer(pn, n, stage, next, all', t);
    forall w | w in all && w[n] >= 1
      ensures Derived(w, all', n, LiftAll(pn))
    {
      DerivedMore(w, all, all', n, LiftAll(pn));
    }
  }

  /** Every vector of the pool carries the fresh attribute of a raised vector (no negative bits). */
  ghost predicate FreshAttributes(m: map<Vector, Attribute>, n: int)
    requires 0 <= n && n / 2 <= 16
  {
    forall x :: x in m ==> |x| == n + 1 && m[x] == SetupAttribute(x, n, false)
  }

  lemma GrowsFresh(src: map<Vector, Attribute>, before: map<Vector, Attribute>, after: map<Vector, Attribute>, n: int,
                   withNegative: bool, pool: set<Vector>)
    requires 0 <= n && n / 2 <= 16
    requires Grows(src, before, after, n, withNegative, pool) && FreshAttributes(before, n)
    ensures FreshAttributes(after, n)
  {
    forall x | x in after
      ensures |x| == n + 1 && after[x] == SetupAttribute(x, n, false)
    {
      if x !in before {
        assert Added(x, after[x], src, n, withNegative, pool);
      }
    }
  }

  /**
    Every vector of `done` was raised at each pair its attribute selected
    when it was reached (with the negative pairs for layer 0), and each of
    those raises that was admitted is in `all`.
   */
  ghost predicate StageComplete(pn: set<Vector>, n: int, done: set<Vector>, all: set<Vector>)
    requires 0 <= n && n / 2 <= 16
  {
    forall x :: x in done && |x| == n + 1 ==>
      Complete(x, SetupAttribute(x, n, x[n] == 0), n, LiftAll(pn), all, x[n] == 0)
  }

  /** After the first stage the lifted input is complete. */
  lemma FirstComplete(pn: set<Vector>, n: int, pold: map<Vector, Attribute>, next: set<Vector>)
    requires 1 <= n && n / 2 <= 16
    requires forall v :: v in pn ==> |v| == n
    requires pold.Keys == LiftAll(pn)
    requires forall x :: x in pold ==> |x| == n + 1 && pold[x] == SetupAttribute(x, n, true)
    requires forall x :: x in pold ==> Complete(x, pold[x], n, LiftAll(pn), next, true)
    ensures StageComplete(pn, n, LiftAll(pn), LiftAll(pn) + next)
  {
    forall x | x in LiftAll(pn) && |x| == n + 1
      ensures Complete(x, SetupAttribute(x, n, x[n] == 0), n, LiftAll(pn), LiftAll(pn) + next, x[n] == 0)
    {
      var v :| v in pn && x == Lift(v);
      assert x[n] == 0;
      CompleteMore(x, pold[x], n, LiftAll(pn), next, LiftAll(pn) + next, true);
    }
  }

  /** After the stage of layer t, the vectors of that layer are complete too. */
  lemma NextComplete(pn: set<Vector>, n: int, done: set<Vector>, stage: map<Vector, Attribute>, next: set<Vector>,
                     t: int)
    requires 1 <= n && n / 2 <= 16 && 1 <= t
    requires StageComplete(pn, n, done, done + stage.Keys)
    requires FreshAttributes(stage, n)
    requires forall x :: x in stage ==> |x| == n + 1 && x[n] == t
    requires forall x :: x in stage ==> Complete(x, stage[x], n, LiftAll(pn), next, false)
    ensures StageComplete(pn, n, done + stage.Keys, done + stage.Keys + next)
  {
    var all := done + stage.Keys;
    forall x | x in all && |x| == n + 1
      ensures Complete(x, SetupAttribute(x, n, x[n] == 0), n, LiftAll(pn), all + next, x[n] == 0)
    {
      if x in stage {
        CompleteMore(x, stage[x], n, LiftAll(pn), next, all + next, false);
      } else {
        CompleteMore(x, SetupAttribute(x, n, x[n] == 0), n, LiftAll(pn), all, all + next, x[n] == 0);
      }
    }
  }

  /** When the top layer is n, completeness of the layers below holds for the whole result. */
  lemma LastComplete(pn: set<Vector>, n: int, done: set<Vector>, stage: set<Vector>)
    requires 1 <= n && n / 2 <= 16
    requires StageComplete(pn, n, done, done + stage)
    requires forall x :: x in stage ==> |x| == n + 1 && x[n] == n
    ensures forall x :: x in done + stage && |x| == n + 1 && x[n] < n ==>
              Complete(x, SetupAttribute(x, n, x[n] == 0), n, LiftAll(pn), done + stage, x[n] == 0)
  {
  }

  /**
    The extension step of the enumeration. The result holds the lifted
    input as its layer 0, the boundary identities, and layers 1..n of raises,
    each derived from the layer below by an admitted raise; it keeps the
    weighted sum zero when the input has it.
   */
  method ExtendPPI(pn: set<Vector>, n: int) returns (result: set<Vector>)
    requires 1 <= n && n / 2 <= 16
    requires forall v :: v in pn ==> |v| == n && CoordinatesWithin(v, n + 1)
    ensures forall w :: w in result ==> |w| == n + 1 && 0 <= w[n] <= n
    ensures LiftAll(pn) <= result
    ensures forall w :: w in result && |w| == n + 1 && w[n] == 0 ==> w in LiftAll(pn)
    ensures forall p :: 1 <= p && 2 * p <= n + 1 ==> Boundary(n, p) in result
    ensures Balanced(pn) ==> Balanced(result)
    ensures forall w :: w in result && |w| == n + 1 && w[n] >= 1 ==> Derived(w, result, n, LiftAll(pn))
    ensures forall x :: x in result && |x| == n + 1 && x[n] < n ==>
              Complete(x, SetupAttribute(x, n, x[n] == 0), n, LiftAll(pn), result, x[n] == 0)
  {
    // (1) the lifted input, in the tree and in the first pool
    var tree, pold := LiftInput(pn, n);
    var p := Finish(tree);
    // (2) the identities n+1 = p + (n+1-p)
    var boundaries := Boundaries(n);
    // (3) the first layer, raising the input and its negation
    var pools := RaisePass(p, n, Pools(pold, boundaries), true);
    FirstStage(pn, n, pold, boundaries, pools.pnew);
    GrowsFresh(pold, boundaries, pools.pnew, n, true, LiftAll(pn));
    FirstComplete(pn, n, pold, pools.pnew.Keys);
    result := pold.Keys;
    var stage := pools.pnew;
    // (4) the layers 2..n
    var t := 1;
    while t < n
      invariant StageInvariant(pn, n, result, stage.Keys, t)
      invariant FreshAttributes(stage, n)
      invariant StageComplete(pn, n, result, result + stage.Keys)
    {
      var next := RaisePass(p, n, Pools(stage, map[]), false);
      NextStage(pn, n, result, stage, next.pnew, t);
      GrowsFresh(stage, map[], next.pnew, n, false, LiftAll(pn));
      NextComplete(pn, n, result, stage, next.pnew.Keys, t);
      result := result + stage.Keys;
      stage := next.pnew;
      t := t + 1;
    }
    LastComplete(pn, n, result, stage.Keys);
    result := result + stage.Keys;
  }
}

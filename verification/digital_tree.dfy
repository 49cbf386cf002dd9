/**
  The digital tree as a whole: a dimension and a root inner node keyed on the
  last coordinate. Vectors are inserted while the tree is under construction;
  `Finish` then prepares it for inclusive orthogonal range queries.
 */
module DigitalTrees {
  import opened Wrappers
  import opened Vectors
  import opened TrieNodes
  import opened TrieInsert
  import opened TrieFinish
  import opened TrieSearch

  datatype DigitalTree = DigitalTree(dimension: nat, root: Node)

  /** The vectors stored in the tree. */
  ghost function Contents(t: DigitalTree): set<Vector>
  {
    Points(t.root)
  }

  /** A tree under construction: a valid root with no placeholders yet. */
  ghost predicate BuildState(t: DigitalTree)
  {
    t.dimension >= 1 && Valid(t.root, t.dimension - 1, t.dimension) && Building(t.root)
  }

  /**
    Every key of the tree and every coordinate of a stored vector lies in
    `[-dimension, dimension]`, so no gap between occupied slots exceeds
    `2*dimension+1`.
   */
  ghost predicate Bounded(t: DigitalTree)
  {
    && KeysWithin(t.root, t.dimension)
    && forall p :: p in Contents(t) ==> CoordinatesWithin(p, t.dimension)
  }

  /** A finished tree, ready for range queries. */
  ghost predicate QueryState(t: DigitalTree)
  {
    t.dimension >= 1 && Valid(t.root, t.dimension - 1, t.dimension) && Finished(t.root)
  }

  /** The new tree: a root over the single key 0 and nothing stored. */
  function Empty(dimension: nat): (t: DigitalTree)
    requires dimension >= 1
    ensures t.dimension == dimension && Contents(t) == {}
    ensures BuildState(t) && Bounded(t)
  {
    NewInnerPoints(0, 0);
    EmptyRoot(dimension);
    DigitalTree(dimension, NewInner(0, 0))
  }

  lemma EmptyRoot(dimension: nat)
    requires dimension >= 1
    ensures Valid(NewInner(0, 0), dimension - 1, dimension)
    ensures Building(NewInner(0, 0)) && KeysWithin(NewInner(0, 0), dimension)
  {
    var r := Inner(0, [None], 1);
    assert NewInner(0, 0) == r;
    assert Valid(r, dimension - 1, dimension);
    assert KeysWithin(r, dimension);
  }

  /**
    Insertion walks down from the last coordinate and either fills an empty
    slot or splits a leaf by a chain of inner nodes. The walk is well defined
    unless it would have to split a leaf at level 0 or pass through one there;
    `AbsentIsInsertable` shows that a vector not yet stored is always fine.
   */
  function Insert(t: DigitalTree, v: Vector): (r: DigitalTree)
    requires BuildState(t) && |v| == t.dimension
    requires InsertDefined(t.root, t.dimension - 1, v)
    ensures r.dimension == t.dimension
    ensures Contents(r) == Contents(t) + {v}
    ensures BuildState(r)
    ensures Bounded(t) && CoordinatesWithin(v, t.dimension) ==> Bounded(r)
  {
    var level := t.dimension - 1;
    InsertPoints(t.root, level, v);
    InsertValid(t.root, level, v);
    InsertBuilding(t.root, level, v);
    InsertKeepsBound(t, v);
    DigitalTree(t.dimension, InsertAt(t.root, level, v))
  }

  lemma InsertKeepsBound(t: DigitalTree, v: Vector)
    requires BuildState(t) && |v| == t.dimension
    requires InsertDefined(t.root, t.dimension - 1, v)
    ensures Bounded(t) && CoordinatesWithin(v, t.dimension) ==>
              KeysWithin(InsertAt(t.root, t.dimension - 1, v), t.dimension)
  {
    if Bounded(t) && CoordinatesWithin(v, t.dimension) {
      InsertKeys(t.root, t.dimension - 1, v, t.dimension);
    }
  }

  /** A vector of the right length that is not stored yet can always be inserted. */
  lemma AbsentIsInsertable(t: DigitalTree, v: Vector)
    requires BuildState(t) && |v| == t.dimension && v !in Contents(t)
    ensures InsertDefined(t.root, t.dimension - 1, v)
  {
    AbsentInsertDefined(t.root, t.dimension - 1, v);
  }

  /** Every stored vector is found by following its own coordinates from the root. */
  lemma StoredIsReachable(t: DigitalTree, v: Vector)
    requires BuildState(t) && |v| == t.dimension
    ensures v in Contents(t) <==> Locate(t.root, t.dimension - 1, v) >= 0
  {
    StoredIffLocated(t.root, t.dimension - 1, v);
  }

  /**
    Finishing records the advances and fills the empty slots with the shared
    placeholders; the stored vectors and the shape of the tree stay the same.
   */
  function Finish(t: DigitalTree): (r: DigitalTree)
    requires BuildState(t)
    ensures r.dimension == t.dimension
    ensures SameSkeleton(r.root, t.root)
    ensures Contents(r) == Contents(t)
    ensures Bounded(t) ==> QueryState(r)
  {
    var f := DoFinish(t.root, t.dimension);
    FinishKeepsSkeleton(t.root, t.dimension);
    SkeletonPoints(f, t.root);
    SkeletonValid(f, t.root, t.dimension - 1, t.dimension);
    FinishBoundedIsFinished(t);
    DigitalTree(t.dimension, f)
  }

  lemma FinishBoundedIsFinished(t: DigitalTree)
    requires BuildState(t)
    ensures Bounded(t) ==> Finished(DoFinish(t.root, t.dimension))
  {
    if Bounded(t) {
      FinishIsFinished(t.root, t.dimension);
    }
  }

  /**
    The inclusive range query, starting at the root on the last coordinate.
    `false` means the visitor stopped the search.
   */
  function OrthogonalRangeSearch(t: DigitalTree, lo: Vector, hi: Vector, report: Vector -> bool): bool
    requires QueryState(t) && |lo| == t.dimension && |hi| == t.dimension
    requires IgnoresArgument(report)
  {
    DoSearch(lo, hi, report, t.dimension - 1, t.root)
  }

  /**
    With a visitor that does not look at its argument, the query answers
    `false` exactly when some stored vector lies in the box `[lo, hi]` and the
    visitor says stop.
   */
  lemma RangeSearchFindsBoxVector(t: DigitalTree, lo: Vector, hi: Vector, report: Vector -> bool)
    requires QueryState(t) && |lo| == t.dimension && |hi| == t.dimension
    requires IgnoresArgument(report)
    ensures !OrthogonalRangeSearch(t, lo, hi, report) <==>
              (exists p :: p in Contents(t) && InBox(p, lo, hi)) && !report(lo)
  {
    var level := t.dimension - 1;
    if report(lo) {
      SearchAccepts(lo, hi, report, level, t.root);
    } else {
      SearchFindsBoxPoint(lo, hi, report, level, t.root);
      forall p | p in Contents(t)
        ensures InBoxUpTo(p, lo, hi, level) <==> InBox(p, lo, hi)
      {
        ValidPoint(t.root, level, t.dimension, p);
      }
    }
  }
}

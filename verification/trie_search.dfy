/**
  Inclusive orthogonal range search over a finished digital tree. At each
  inner node only the slots whose keys fall in `[lo[level], hi[level]]` are
  visited, hopping from real slot to real slot by the finished advances; at a
  leaf only the coordinates below the current level are compared, because the
  path to the leaf already fixed the others. The visitor is called on a leaf
  in the box and its answer ends the scan of that node.
 */
module TrieSearch {
  import opened Wrappers
  import opened Vectors
  import opened TrieNodes
  import opened TrieFinish

  function Max(a: int, b: int): int { if a >= b then a else b }

  function Min(a: int, b: int): int { if a <= b then a else b }

  /** The visitor is called on a leaf but never looks at it. */
  ghost predicate IgnoresArgument(report: Vector -> bool)
  {
    forall a, b :: report(a) == report(b)
  }

  /** The leaf test: positions `count-1` down to 0 lie within `[lo, hi]`. */
  function LeafInRange(p: Vector, lo: Vector, hi: Vector, count: int): (r: bool)
    requires 0 <= count <= |p| && count <= |lo| && count <= |hi|
    ensures r <==> forall l :: 0 <= l < count ==> lo[l] <= p[l] <= hi[l]
  {
    if count == 0 then true
    else if p[count - 1] < lo[count - 1] || p[count - 1] > hi[count - 1] then false
    else LeafInRange(p, lo, hi, count - 1)
  }

  /**
    Searches the node `n` keyed on coordinate `level`; `false` means the
    visitor stopped the search, and only the visitor can stop it.
   */
  function DoSearch(lo: Vector, hi: Vector, report: Vector -> bool, level: int, n: Node): (r: bool)
    requires Finished(n) && Valid(n, level, |lo|) && |lo| == |hi|
    requires IgnoresArgument(report)
    ensures !r ==> !report(lo)
    decreases n, 1
  {
    var mi := Max(lo[level] + n.delta, 0);
    var ma := Min(hi[level] + n.delta, |n.children| - 1);
    var count := ma - mi + 1;
    if count <= 0 then true else Scan(lo, hi, report, level, n, mi, count)
  }

  /** The scan of `count` slots of `n` starting at index `ci`. */
  function Scan(lo: Vector, hi: Vector, report: Vector -> bool, level: int, n: Node, ci: int, count: int): (r: bool)
    requires Finished(n) && Valid(n, level, |lo|) && |lo| == |hi|
    requires IgnoresArgument(report)
    requires 0 <= ci && ci + count <= |n.children|
    ensures !r ==> !report(lo)
    decreases n, 0, count
  {
    if count <= 0 then true
    else
      assert SlotFinished(n, ci);
      var c := n.children[ci].value;
      assert ChildValid(c, ci - n.delta, level, |lo|);
      if c.Leaf? && LeafInRange(c.point, lo, hi, level) then report(c.point)
      else if c.Inner? && !DoSearch(lo, hi, report, level - 1, c) then false
      else Scan(lo, hi, report, level, n, ci + c.advance, count - c.advance)
  }

  /** Slot `i` holds a point inside the box at every level below `level`. */
  ghost predicate Hit(lo: Vector, hi: Vector, level: int, n: Node, i: int)
    requires n.Inner? && 0 <= i < |n.children|
  {
    && Real(n.children[i])
    && exists p :: p in Points(n.children[i].value) && InBoxUpTo(p, lo, hi, level - 1)
  }

  /**
    With a visitor that always stops, the search of a node answers `false`
    exactly when some stored point lies in the box on every level up to
    its own.
   */
  lemma {:induction false} SearchFindsBoxPoint(lo: Vector, hi: Vector, report: Vector -> bool, level: int, n: Node)
    requires Finished(n) && Valid(n, level, |lo|) && |lo| == |hi|
    requires forall x :: !report(x)
    ensures !DoSearch(lo, hi, report, level, n) <==> exists p :: p in Points(n) && InBoxUpTo(p, lo, hi, level)
    decreases n, 1
  {
    var mi := Max(lo[level] + n.delta, 0);
    var ma := Min(hi[level] + n.delta, |n.children| - 1);
    if ma < mi {
      if p :| p in Points(n) && InBoxUpTo(p, lo, hi, level) {
        var i := PointGivesHit(lo, hi, level, n, p);
        assert false;
      }
    } else {
      ScanFindsHit(lo, hi, report, level, n, mi, ma - mi + 1);
      if p :| p in Points(n) && InBoxUpTo(p, lo, hi, level) {
        var i := PointGivesHit(lo, hi, level, n, p);
      } else if !DoSearch(lo, hi, report, level, n) {
        var i :| mi <= i <= ma && Hit(lo, hi, level, n, i);
        HitGivesPoint(lo, hi, level, n, i);
      }
    }
  }

  /** A point in the box is below a hit slot whose key is in the range of the level. */
  lemma PointGivesHit(lo: Vector, hi: Vector, level: int, n: Node, p: Vector) returns (i: int)
    requires Valid(n, level, |lo|) && |lo| == |hi|
    requires p in Points(n) && InBoxUpTo(p, lo, hi, level)
    ensures Max(lo[level] + n.delta, 0) <= i <= Min(hi[level] + n.delta, |n.children| - 1)
    ensures Hit(lo, hi, level, n, i)
  {
    ValidPoint(n, level, |lo|, p);
    i := p[level] + n.delta;
    assert Get(n, p[level]) == n.children[i];
    assert p in Points(n.children[i].value);
    assert InBoxUpTo(p, lo, hi, level - 1);
  }

  /** A hit slot in the range of the level yields a point in the box. */
  lemma HitGivesPoint(lo: Vector, hi: Vector, level: int, n: Node, i: int)
    requires Valid(n, level, |lo|) && |lo| == |hi|
    requires Max(lo[level] + n.delta, 0) <= i <= Min(hi[level] + n.delta, |n.children| - 1)
    requires Hit(lo, hi, level, n, i)
    ensures exists p :: p in Points(n) && InBoxUpTo(p, lo, hi, level)
  {
    var cs := n.children;
    var p :| p in Points(cs[i].value) && InBoxUpTo(p, lo, hi, level - 1);
    assert ChildValid(cs[i].value, i - n.delta, level, |lo|);
    assert p in Points(n);
    assert InBoxUpTo(p, lo, hi, level);
  }

  /** Between a slot and the slot its advance reaches, nothing is hit. */
  lemma NoHitInsideAdvance(lo: Vector, hi: Vector, level: int, n: Node, ci: int)
    requires Finished(n) && 0 <= ci < |n.children| && n.children[ci].Some?
    ensures forall i :: ci < i < ci + n.children[ci].value.advance && i < |n.children| ==> !Hit(lo, hi, level, n, i)
  {
    assert SlotFinished(n, ci);
    NextRealIsNext(n.children, ci + 1);
  }

  /** The scan stops early exactly when one of its slots is hit. */
  lemma {:induction false} ScanFindsHit(lo: Vector, hi: Vector, report: Vector -> bool, level: int, n: Node, ci: int, count: int)
    requires Finished(n) && Valid(n, level, |lo|) && |lo| == |hi|
    requires forall x :: !report(x)
    requires 0 <= ci && ci + count <= |n.children|
    ensures !Scan(lo, hi, report, level, n, ci, count) <==> exists i :: ci <= i < ci + count && Hit(lo, hi, level, n, i)
    decreases n, 0, count
  {
    if count > 0 {
      assert SlotFinished(n, ci);
      var c := n.children[ci].value;
      assert ChildValid(c, ci - n.delta, level, |lo|);
      if c.Inner? {
        SearchFindsBoxPoint(lo, hi, report, level - 1, c);
      }
      if c.Leaf? && LeafInRange(c.point, lo, hi, level) {
        assert c.point in Points(c);
        assert Hit(lo, hi, level, n, ci);
      } else if c.Inner? && !DoSearch(lo, hi, report, level - 1, c) {
        assert Hit(lo, hi, level, n, ci);
      } else {
        assert !Hit(lo, hi, level, n, ci);
        NoHitInsideAdvance(lo, hi, level, n, ci);
        ScanFindsHit(lo, hi, report, level, n, ci + c.advance, count - c.advance);
      }
    }
  }

  /** With a visitor that always continues, the search never stops early. */
  lemma {:induction false} SearchAccepts(lo: Vector, hi: Vector, report: Vector -> bool, level: int, n: Node)
    requires Finished(n) && Valid(n, level, |lo|) && |lo| == |hi|
    requires forall x :: report(x)
    ensures DoSearch(lo, hi, report, level, n)
    decreases n, 1
  {
    var mi := Max(lo[level] + n.delta, 0);
    var ma := Min(hi[level] + n.delta, |n.children| - 1);
    if mi <= ma {
      ScanAccepts(lo, hi, report, level, n, mi, ma - mi + 1);
    }
  }

  lemma {:induction false} ScanAccepts(lo: Vector, hi: Vector, report: Vector -> bool, level: int, n: Node, ci: int, count: int)
    requires Finished(n) && Valid(n, level, |lo|) && |lo| == |hi|
    requires forall x :: report(x)
    requires 0 <= ci && ci + count <= |n.children|
    ensures Scan(lo, hi, report, level, n, ci, count)
    decreases n, 0, count
  {
    if count > 0 {
      assert SlotFinished(n, ci);
      var c := n.children[ci].value;
      assert ChildValid(c, ci - n.delta, level, |lo|);
      if c.Inner? {
        SearchAccepts(lo, hi, report, level - 1, c);
      }
      ScanAccepts(lo, hi, report, level, n, ci + c.advance, count - c.advance);
    }
  }
}

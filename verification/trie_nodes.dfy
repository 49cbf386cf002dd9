/**
  Nodes of the digital tree (compressed trie) that stores the vectors of one
  dimension. An inner node at level `l` is keyed on coordinate `l` of the
  stored vectors; its children live in a contiguous array whose index is the
  key plus a bias `delta`, and the array grows on demand to either side.
 */
module TrieNodes {
  import opened Wrappers
  import opened Vectors

  /**
    `Leaf` holds a stored vector, `Inner` a biased child array, and
    `Placeholder` is one of the shared skip nodes that finishing puts into
    empty slots. Every node carries the `advance` distance used by searches.
   */
  datatype Node =
    | Leaf(point: Vector, advance: nat)
    | Inner(delta: int, children: seq<Option<Node>>, advance: nat)
    | Placeholder(advance: nat)

  /** The inner node `InnerNode(from, to)`: one empty slot per key in `[from, to]`. */
  function NewInner(from: int, to: int): (r: Node)
    requires from <= to
    ensures r.Inner? && LowKey(r) == from && HighKey(r) == to
    ensures forall u :: Get(r, u) == None
  {
    Inner(-from, seq(to - from + 1, _ => None), 1)
  }

  /** The smallest key the child array covers. */
  function LowKey(n: Node): int
    requires n.Inner?
  {
    -n.delta
  }

  /** The largest key the child array covers. */
  function HighKey(n: Node): int
    requires n.Inner?
  {
    |n.children| - 1 - n.delta
  }

  /** The child stored under key `where`; `None` for an empty slot or a key outside the array. */
  function Get(n: Node, where: int): (r: Option<Node>)
    requires n.Inner?
    ensures where < LowKey(n) || where > HighKey(n) ==> r == None
    ensures LowKey(n) <= where <= HighKey(n) ==> r == n.children[where + n.delta]
  {
    var i := where + n.delta;
    if i < 0 || i >= |n.children| then None else n.children[i]
  }

  /**
    Stores `c` under key `where`, growing the child array to the left (and
    moving the bias) or to the right with empty slots when the key is outside it.
   */
  function Put(n: Node, where: int, c: Node): (r: Node)
    requires n.Inner?
    ensures r.Inner? && r.advance == n.advance
    ensures Get(r, where) == Some(c)
    ensures forall u :: u != where ==> Get(r, u) == Get(n, u)
    ensures LowKey(r) == if where < LowKey(n) then where else LowKey(n)
    ensures HighKey(r) == if where > HighKey(n) then where else HighKey(n)
  {
    var i := where + n.delta;
    if i < 0 then
      Inner(n.delta - i, [Some(c)] + seq(-i - 1, _ => None) + n.children, n.advance)
    else if i >= |n.children| then
      Inner(n.delta, n.children + seq(i - |n.children|, _ => None) + [Some(c)], n.advance)
    else
      Inner(n.delta, n.children[i := Some(c)], n.advance)
  }

  /** The vectors stored in the leaves below a node. */
  ghost function Points(n: Node): set<Vector>
    decreases n
  {
    match n
    case Leaf(p, _) => {p}
    case Placeholder(_) => {}
    case Inner(_, cs, _) => set i, p | 0 <= i < |cs| && cs[i].Some? && p in Points(cs[i].value) :: p
  }

  /** The vectors below a possibly empty slot. */
  ghost function SlotPoints(o: Option<Node>): set<Vector>
  {
    if o.Some? then Points(o.value) else {}
  }

  lemma NewInnerPoints(from: int, to: int)
    requires from <= to
    ensures Points(NewInner(from, to)) == {}
  {
    forall p | p in Points(NewInner(from, to)) ensures false {
      PointsByKey(NewInner(from, to), p);
    }
  }

  /** A point below an inner node is below the child under some key, and conversely. */
  lemma PointsByKey(n: Node, p: Vector)
    requires n.Inner?
    ensures p in Points(n) <==> exists u :: p in SlotPoints(Get(n, u))
  {
    if p in Points(n) {
      var i :| 0 <= i < |n.children| && n.children[i].Some? && p in Points(n.children[i].value);
      assert p in SlotPoints(Get(n, i - n.delta));
    }
    if exists u :: p in SlotPoints(Get(n, u)) {
      var u :| p in SlotPoints(Get(n, u));
      var i := u + n.delta;
      assert n.children[i].Some? && p in Points(n.children[i].value);
    }
  }

  /** The points below a child are points of its parent. */
  lemma ChildPoints(n: Node, u: int)
    requires n.Inner?
    ensures SlotPoints(Get(n, u)) <= Points(n)
  {
    forall p | p in SlotPoints(Get(n, u))
      ensures p in Points(n)
    {
      PointsByKey(n, p);
    }
  }

  /**
    Replacing the child under `w` by one that keeps every point it had adds
    exactly that child's points.
   */
  lemma {:induction false} PointsPut(n: Node, w: int, c: Node)
    requires n.Inner?
    requires SlotPoints(Get(n, w)) <= Points(c)
    ensures Points(Put(n, w, c)) == Points(n) + Points(c)
  {
    var r := Put(n, w, c);
    forall p | p in Points(r)
      ensures p in Points(n) + Points(c)
    {
      PointsByKey(r, p);
      var u :| p in SlotPoints(Get(r, u));
      if u != w {
        PointsByKey(n, p);
      }
    }
    forall p | p in Points(n) + Points(c)
      ensures p in Points(r)
    {
      PointsByKey(r, p);
      if p in Points(c) {
        assert p in SlotPoints(Get(r, w));
      } else {
        PointsByKey(n, p);
        var u :| p in SlotPoints(Get(n, u));
        assert p in SlotPoints(Get(r, u));
      }
    }
  }

  /**
    Structural invariant of a subtree whose root is keyed on coordinate
    `level`: every child sits under the key equal to that coordinate of all
    its points, leaves are full-length vectors, and inner children are valid
    one level lower (so no inner node lives below level 0).
   */
  ghost predicate Valid(n: Node, level: int, dim: nat)
    decreases n, 0
  {
    && n.Inner?
    && 0 <= level < dim
    && forall i :: 0 <= i < |n.children| && n.children[i].Some? ==>
         ChildValid(n.children[i].value, i - n.delta, level, dim)
  }

  /** What `Valid` demands of the child stored under `key` of a node at `level`. */
  ghost predicate ChildValid(c: Node, key: int, level: int, dim: nat)
    decreases c, 1
  {
    match c
    case Leaf(p, _) => 0 <= level < dim && |p| == dim && p[level] == key
    case Placeholder(_) => true
    case Inner(_, _, _) =>
      && 0 < level < dim
      && Valid(c, level - 1, dim)
      && forall p :: p in Points(c) ==> |p| == dim && p[level] == key
  }

  lemma ValidGet(n: Node, level: int, dim: nat, u: int)
    requires Valid(n, level, dim)
    ensures Get(n, u).Some? ==> ChildValid(Get(n, u).value, u, level, dim)
  {
  }

  /** Storing a child that fits its key keeps a node valid. */
  lemma ValidPut(n: Node, level: int, dim: nat, w: int, c: Node)
    requires Valid(n, level, dim)
    requires ChildValid(c, w, level, dim)
    ensures Valid(Put(n, w, c), level, dim)
  {
    var r := Put(n, w, c);
    forall i | 0 <= i < |r.children| && r.children[i].Some?
      ensures ChildValid(r.children[i].value, i - r.delta, level, dim)
    {
      var u := i - r.delta;
      assert Get(r, u) == r.children[i];
      if u != w {
        ValidGet(n, level, dim, u);
      }
    }
  }

  /**
    Every point below a valid node has full length and is found below the
    child under its own coordinate at that level.
   */
  lemma ValidPoint(n: Node, level: int, dim: nat, p: Vector)
    requires Valid(n, level, dim)
    requires p in Points(n)
    ensures |p| == dim && p in SlotPoints(Get(n, p[level]))
  {
    PointsByKey(n, p);
    var u :| p in SlotPoints(Get(n, u));
    ValidGet(n, level, dim, u);
  }

  /**
    A subtree still being built: no placeholders yet and every advance is
    the constructor default of one.
   */
  ghost predicate Building(n: Node)
    decreases n
  {
    match n
    case Leaf(_, a) => a == 1
    case Placeholder(_) => false
    case Inner(_, cs, a) => a == 1 && forall i :: 0 <= i < |cs| && cs[i].Some? ==> Building(cs[i].value)
  }

  lemma BuildingGet(n: Node, u: int)
    requires n.Inner? && Building(n)
    ensures Get(n, u).Some? ==> Building(Get(n, u).value)
  {
  }

  lemma BuildingPut(n: Node, w: int, c: Node)
    requires n.Inner? && Building(n) && Building(c)
    ensures Building(Put(n, w, c))
  {
    var r := Put(n, w, c);
    forall i | 0 <= i < |r.children| && r.children[i].Some?
      ensures Building(r.children[i].value)
    {
      assert Get(r, i - r.delta) == r.children[i];
    }
  }

  /** Every child array below `n` covers only keys in `[-b, b]`. */
  ghost predicate KeysWithin(n: Node, b: int)
    decreases n
  {
    match n
    case Leaf(_, _) => true
    case Placeholder(_) => true
    case Inner(_, cs, _) =>
      && -b <= LowKey(n) && HighKey(n) <= b
      && forall i :: 0 <= i < |cs| && cs[i].Some? ==> KeysWithin(cs[i].value, b)
  }

  lemma KeysWithinGet(n: Node, b: int, u: int)
    requires n.Inner? && KeysWithin(n, b)
    ensures Get(n, u).Some? ==> KeysWithin(Get(n, u).value, b)
  {
  }

  lemma KeysWithinPut(n: Node, b: int, w: int, c: Node)
    requires n.Inner? && KeysWithin(n, b) && KeysWithin(c, b)
    requires -b <= w <= b
    ensures KeysWithin(Put(n, w, c), b)
  {
    var r := Put(n, w, c);
    forall i | 0 <= i < |r.children| && r.children[i].Some?
      ensures KeysWithin(r.children[i].value, b)
    {
      assert Get(r, i - r.delta) == r.children[i];
    }
  }
}

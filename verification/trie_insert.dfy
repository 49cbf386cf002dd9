/**
  Insertion into the digital tree: walk the path of the new vector from the
  top level down; an empty slot takes the new leaf, and a slot holding a leaf
  is split into a chain of inner nodes down to the first level where the two
  vectors differ.
 */
module TrieInsert {
  import opened Wrappers
  import opened Vectors
  import opened TrieNodes

  /**
    The chain built when the new vector `v` meets the leaf `twin` one level
    above `level`: single-slot inner nodes for as long as the two agree, then
    both leaves in the node of the first level where they differ (level 0 at
    the latest, where the old leaf is put last and so wins the slot).
   */
  function Chain(twin: Node, v: Vector, level: int): (r: Node)
    requires twin.Leaf? && |twin.point| == |v| && 0 <= level < |v|
    ensures r.Inner?
    decreases level
  {
    var node := NewInner(v[level], v[level]);
    if level > 0 && twin.point[level] == v[level] then
      Put(node, v[level], Chain(twin, v, level - 1))
    else
      Put(Put(node, v[level], Leaf(v, 1)), twin.point[level], twin)
  }

  /**
    The walk never needs a level below 0: the source reads coordinate -1 when
    the leaf it meets sits at level 0, and has no return when it passes an
    inner node there.
   */
  ghost predicate InsertDefined(n: Node, level: int, v: Vector)
    decreases level
  {
    && n.Inner?
    && 0 <= level < |v|
    && match Get(n, v[level])
       case None => true
       case Some(c) => level > 0 && (c.Leaf? || (c.Inner? && InsertDefined(c, level - 1, v)))
  }

  /** Inserts `v` below the node `n` keyed on coordinate `level`. */
  function InsertAt(n: Node, level: int, v: Vector): (r: Node)
    requires Valid(n, level, |v|) && InsertDefined(n, level, v)
    ensures r.Inner?
    decreases level
  {
    var pos := v[level];
    ValidGet(n, level, |v|, pos);
    match Get(n, pos)
    case None => Put(n, pos, Leaf(v, 1))
    case Some(c) =>
      if c.Leaf? then Put(n, pos, Chain(c, v, level - 1))
      else Put(n, pos, InsertAt(c, level - 1, v))
  }

  /** The level of the node whose slot holds `v`, following `v`'s own coordinates; -1 if there is none. */
  ghost function Locate(n: Node, level: int, v: Vector): int
    decreases level
  {
    if !n.Inner? || !(0 <= level < |v|) then -1
    else match Get(n, v[level])
      case None => -1
      case Some(c) =>
        if c.Leaf? then (if c.point == v then level else -1)
        else if c.Inner? then Locate(c, level - 1, v)
        else -1
  }

  /** `a` and `b` have the same coordinates at every level above `level`. */
  ghost predicate AgreeAbove(a: Vector, b: Vector, level: int)
  {
    forall l :: 0 <= l && level < l < |a| && l < |b| ==> a[l] == b[l]
  }

  /** Every coordinate of `v` lies in `[-b, b]`. */
  ghost predicate CoordinatesWithin(v: Vector, b: int)
  {
    forall i :: 0 <= i < |v| ==> -b <= v[i] <= b
  }

  /** A chain is a valid subtree keyed on coordinate `level`. */
  lemma {:induction false} ChainValid(twin: Node, v: Vector, level: int)
    requires twin.Leaf? && |twin.point| == |v| && 0 <= level < |v|
    ensures Valid(Chain(twin, v, level), level, |v|)
    decreases level
  {
    var node := NewInner(v[level], v[level]);
    if level > 0 && twin.point[level] == v[level] {
      var sub := Chain(twin, v, level - 1);
      ChainValid(twin, v, level - 1);
      ChainLeavesKeyed(twin, v, level - 1);
      ValidPut(node, level, |v|, v[level], sub);
    } else {
      var leaf := Leaf(v, 1);
      ValidPut(node, level, |v|, v[level], leaf);
      ValidPut(Put(node, v[level], leaf), level, |v|, twin.point[level], twin);
    }
  }

  /** A chain of two vectors that agree above `level` holds exactly the two leaves. */
  lemma {:induction false} ChainPoints(twin: Node, v: Vector, level: int)
    requires twin.Leaf? && |twin.point| == |v| && 0 <= level < |v|
    requires AgreeAbove(twin.point, v, level)
    ensures Points(Chain(twin, v, level)) == {twin.point, v}
    decreases level
  {
    var node := NewInner(v[level], v[level]);
    NewInnerPoints(v[level], v[level]);
    if level > 0 && twin.point[level] == v[level] {
      ChainPoints(twin, v, level - 1);
      PointsPut(node, v[level], Chain(twin, v, level - 1));
    } else {
      var leaf := Leaf(v, 1);
      var node1 := Put(node, v[level], leaf);
      PointsPut(node, v[level], leaf);
      if twin.point[level] == v[level] {
        assert twin.point == v by {
          assert level == 0;
          forall l | 0 <= l < |v| ensures twin.point[l] == v[l] {
          }
        }
      }
      PointsPut(node1, twin.point[level], twin);
    }
  }

  /** Every point of a chain is one of the two leaves. */
  lemma {:induction false} ChainLeavesKeyed(twin: Node, v: Vector, level: int)
    requires twin.Leaf? && |twin.point| == |v| && 0 <= level < |v|
    ensures Points(Chain(twin, v, level)) <= {twin.point, v}
    decreases level
  {
    var node := NewInner(v[level], v[level]);
    NewInnerPoints(v[level], v[level]);
    if level > 0 && twin.point[level] == v[level] {
      ChainLeavesKeyed(twin, v, level - 1);
      var sub := Chain(twin, v, level - 1);
      forall p | p in Points(Put(node, v[level], sub)) ensures p in {twin.point, v} {
        PointsByKey(Put(node, v[level], sub), p);
      }
    } else {
      var leaf := Leaf(v, 1);
      var node1 := Put(node, v[level], leaf);
      forall p | p in Points(Put(node1, twin.point[level], twin)) ensures p in {twin.point, v} {
        PointsByKey(Put(node1, twin.point[level], twin), p);
        var u :| p in SlotPoints(Get(Put(node1, twin.point[level], twin), u));
      }
    }
  }

  /** A chain built from a leaf under construction is under construction. */
  lemma {:induction false} ChainBuilding(twin: Node, v: Vector, level: int)
    requires twin.Leaf? && |twin.point| == |v| && 0 <= level < |v|
    requires Building(twin)
    ensures Building(Chain(twin, v, level))
    decreases level
  {
    var node := NewInner(v[level], v[level]);
    if level > 0 && twin.point[level] == v[level] {
      ChainBuilding(twin, v, level - 1);
      BuildingPut(node, v[level], Chain(twin, v, level - 1));
    } else {
      var leaf := Leaf(v, 1);
      BuildingPut(node, v[level], leaf);
      BuildingPut(Put(node, v[level], leaf), twin.point[level], twin);
    }
  }

  /** A chain of two vectors with coordinates in `[-b, b]` has keys in `[-b, b]`. */
  lemma {:induction false} ChainKeys(twin: Node, v: Vector, level: int, b: int)
    requires twin.Leaf? && |twin.point| == |v| && 0 <= level < |v|
    requires CoordinatesWithin(v, b) && CoordinatesWithin(twin.point, b)
    ensures KeysWithin(Chain(twin, v, level), b)
    decreases level
  {
    var node := NewInner(v[level], v[level]);
    if level > 0 && twin.point[level] == v[level] {
      ChainKeys(twin, v, level - 1, b);
      KeysWithinPut(node, b, v[level], Chain(twin, v, level - 1));
    } else {
      var leaf := Leaf(v, 1);
      KeysWithinPut(node, b, v[level], leaf);
      KeysWithinPut(Put(node, v[level], leaf), b, twin.point[level], twin);
    }
  }

  /**
    When the two vectors differ, both leaves of a chain are found by their own
    coordinates, at the same level, which is the first level (from the top)
    where they differ.
   */
  lemma {:induction false} ChainSplitsAtFirstDifference(twin: Node, v: Vector, level: int)
    requires twin.Leaf? && |twin.point| == |v| && 0 <= level < |v|
    requires AgreeAbove(twin.point, v, level) && twin.point != v
    ensures var m := Locate(Chain(twin, v, level), level, v);
      && 0 <= m <= level
      && Locate(Chain(twin, v, level), level, twin.point) == m
      && twin.point[m] != v[m]
      && forall l :: m < l <= level ==> twin.point[l] == v[l]
    decreases level
  {
    var node := NewInner(v[level], v[level]);
    if level > 0 && twin.point[level] == v[level] {
      ChainSplitsAtFirstDifference(twin, v, level - 1);
    }
  }

  /** A stored vector is exactly one reached by following its own coordinates. */
  lemma {:induction false} StoredIffLocated(n: Node, level: int, v: Vector)
    requires Valid(n, level, |v|)
    ensures v in Points(n) <==> Locate(n, level, v) >= 0
    decreases level
  {
    ValidGet(n, level, |v|, v[level]);
    ChildPoints(n, v[level]);
    if v in Points(n) {
      ValidPoint(n, level, |v|, v);
    }
    match Get(n, v[level])
    case None =>
    case Some(c) =>
      if c.Inner? {
        StoredIffLocated(c, level - 1, v);
      }
  }

  /**
    Inserting a vector that is not stored never needs a level below 0,
    provided the walk so far followed its coordinates.
   */
  lemma {:induction false} AbsentInsertDefined(n: Node, level: int, v: Vector)
    requires Valid(n, level, |v|) && Building(n)
    requires v !in Points(n)
    requires forall p :: p in Points(n) ==> AgreeAbove(p, v, level)
    ensures InsertDefined(n, level, v)
    decreases level
  {
    ValidGet(n, level, |v|, v[level]);
    BuildingGet(n, v[level]);
    ChildPoints(n, v[level]);
    if level == 0 {
      BottomLeafIsStored(n, v);
    }
    match Get(n, v[level])
    case None =>
    case Some(c) =>
      if c.Inner? {
        AbsentInsertDefined(c, level - 1, v);
      }
  }

  /** A leaf met at level 0 by a vector agreeing with every point above level 0 is that vector. */
  lemma BottomLeafIsStored(n: Node, v: Vector)
    requires Valid(n, 0, |v|)
    requires forall p :: p in Points(n) ==> AgreeAbove(p, v, 0)
    ensures Get(n, v[0]).Some? && Get(n, v[0]).value.Leaf? ==> v in Points(n)
  {
    ValidGet(n, 0, |v|, v[0]);
    ChildPoints(n, v[0]);
    if Get(n, v[0]).Some? && Get(n, v[0]).value.Leaf? {
      var c := Get(n, v[0]).value;
      assert c.point in Points(n);
      assert c.point == v by {
        forall l | 0 <= l < |v| ensures c.point[l] == v[l] {
        }
      }
    }
  }

  /** Insertion adds exactly the new vector to the stored set. */
  lemma {:induction false} InsertPoints(n: Node, level: int, v: Vector)
    requires Valid(n, level, |v|) && InsertDefined(n, level, v)
    requires forall p :: p in Points(n) ==> AgreeAbove(p, v, level)
    ensures Points(InsertAt(n, level, v)) == Points(n) + {v}
    decreases level
  {
    var pos := v[level];
    ValidGet(n, level, |v|, pos);
    ChildPoints(n, pos);
    match Get(n, pos)
    case None =>
      PointsPut(n, pos, Leaf(v, 1));
    case Some(c) =>
      if c.Leaf? {
        assert c.point in Points(n);
        ChainPoints(c, v, level - 1);
        PointsPut(n, pos, Chain(c, v, level - 1));
      } else {
        InsertPoints(c, level - 1, v);
        PointsPut(n, pos, InsertAt(c, level - 1, v));
      }
  }

  /** Insertion keeps the structural invariant. */
  lemma {:induction false} InsertValid(n: Node, level: int, v: Vector)
    requires Valid(n, level, |v|) && InsertDefined(n, level, v)
    requires forall p :: p in Points(n) ==> AgreeAbove(p, v, level)
    ensures Valid(InsertAt(n, level, v), level, |v|)
    decreases level
  {
    var pos := v[level];
    ValidGet(n, level, |v|, pos);
    ChildPoints(n, pos);
    match Get(n, pos)
    case None =>
      ValidPut(n, level, |v|, pos, Leaf(v, 1));
    case Some(c) =>
      if c.Leaf? {
        ChainValid(c, v, level - 1);
        ChainLeavesKeyed(c, v, level - 1);
        ValidPut(n, level, |v|, pos, Chain(c, v, level - 1));
      } else {
        InsertValid(c, level - 1, v);
        InsertPoints(c, level - 1, v);
        ValidPut(n, level, |v|, pos, InsertAt(c, level - 1, v));
      }
  }

  /** Insertion before finishing leaves a tree under construction. */
  lemma {:induction false} InsertBuilding(n: Node, level: int, v: Vector)
    requires Valid(n, level, |v|) && InsertDefined(n, level, v) && Building(n)
    ensures Building(InsertAt(n, level, v))
    decreases level
  {
    var pos := v[level];
    ValidGet(n, level, |v|, pos);
    BuildingGet(n, pos);
    match Get(n, pos)
    case None =>
      BuildingPut(n, pos, Leaf(v, 1));
    case Some(c) =>
      if c.Leaf? {
        ChainBuilding(c, v, level - 1);
        BuildingPut(n, pos, Chain(c, v, level - 1));
      } else {
        InsertBuilding(c, level - 1, v);
        BuildingPut(n, pos, InsertAt(c, level - 1, v));
      }
  }

  /** Inserting a vector with coordinates in `[-b, b]` keeps every key in `[-b, b]`. */
  lemma {:induction false} InsertKeys(n: Node, level: int, v: Vector, b: int)
    requires Valid(n, level, |v|) && InsertDefined(n, level, v) && KeysWithin(n, b)
    requires CoordinatesWithin(v, b)
    requires forall p :: p in Points(n) ==> CoordinatesWithin(p, b)
    ensures KeysWithin(InsertAt(n, level, v), b)
    decreases level
  {
    var pos := v[level];
    ValidGet(n, level, |v|, pos);
    KeysWithinGet(n, b, pos);
    ChildPoints(n, pos);
    match Get(n, pos)
    case None =>
      KeysWithinPut(n, b, pos, Leaf(v, 1));
    case Some(c) =>
      if c.Leaf? {
        assert c.point in Points(n);
        ChainKeys(c, v, level - 1, b);
        KeysWithinPut(n, b, pos, Chain(c, v, level - 1));
      } else {
        InsertKeys(c, level - 1, v, b);
        KeysWithinPut(n, b, pos, InsertAt(c, level - 1, v));
      }
  }
}

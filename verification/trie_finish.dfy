/**
  Finishing the digital tree once all insertions are done: every occupied
  slot records the distance to the next occupied slot on its right (or to one
  past the end of the array), and every empty slot is filled with a shared
  placeholder carrying that same distance, so that a search can hop over
  empty stretches.
 */
module TrieFinish {
  import opened Wrappers
  import opened Vectors
  import opened TrieNodes

  /** Keys `1..i` of `table` filled with the placeholder of that distance, in increasing order. */
  function FillAdvance(table: Node, i: int): (r: Node)
    requires table.Inner?
    ensures r.Inner?
    decreases i
  {
    if i < 1 then table else Put(FillAdvance(table, i - 1), i, Placeholder(i))
  }

  /**
    The shared advance nodes: an inner node over keys `1..2*dim+1` whose key
    `d` holds the placeholder with advance `d`.
   */
  function AdvanceTable(dim: nat): (r: Node)
    ensures r.Inner?
  {
    FillAdvance(NewInner(1, 2 * dim + 1), 2 * dim + 1)
  }

  lemma {:induction false} FillAdvanceGet(table: Node, i: int, d: int)
    requires table.Inner?
    ensures Get(FillAdvance(table, i), d) == if 1 <= d <= i then Some(Placeholder(d)) else Get(table, d)
    decreases i
  {
    if i >= 1 {
      FillAdvanceGet(table, i - 1, d);
    }
  }

  /** The table has a placeholder for exactly the distances `1..2*dim+1`. */
  lemma AdvanceTableGet(dim: nat, d: int)
    ensures Get(AdvanceTable(dim), d) == if 1 <= d <= 2 * dim + 1 then Some(Placeholder(d)) else None
  {
    FillAdvanceGet(NewInner(1, 2 * dim + 1), 2 * dim + 1, d);
  }

  /** Finishes an inner node and, recursively, every inner node below it. */
  function DoFinish(n: Node, dim: nat): (r: Node)
    requires n.Inner?
    ensures r.Inner? && r.delta == n.delta && |r.children| == |n.children|
    decreases n, 1
  {
    Inner(n.delta, FinishSlots(n, dim, |n.children| - 1, |n.children|, []), n.advance)
  }

  /**
    The right-to-left pass over the slots `j, j-1, ..., 0` of `n`; `next` is
    the nearest occupied slot to the right of `j` (or the array length) and
    `done` the already finished slots `j+1..`.
   */
  function FinishSlots(n: Node, dim: nat, j: int, next: int, done: seq<Option<Node>>): (r: seq<Option<Node>>)
    requires n.Inner? && -1 <= j < |n.children| && j < next <= |n.children|
    ensures |r| == j + 1 + |done|
    ensures r[j + 1..] == done
    decreases n, 0, j + 1
  {
    if j < 0 then done
    else
      var next' := if n.children[j].Some? then j else next;
      FinishSlots(n, dim, j - 1, next', [FinishSlot(n, dim, j, next)] + done)
  }

  /**
    One step of the pass: an occupied slot is finished (recursively when it
    is inner) and gets the advance `next - j`; an empty slot takes the shared
    placeholder for that distance, if the table has one.
   */
  function FinishSlot(n: Node, dim: nat, j: int, next: int): Option<Node>
    requires n.Inner? && 0 <= j < next <= |n.children|
    decreases n, 0, 0
  {
    match n.children[j]
    case None => Get(AdvanceTable(dim), next - j)
    case Some(Leaf(p, _)) => Some(Leaf(p, next - j))
    case Some(Placeholder(_)) => Some(Placeholder(next - j))
    case Some(c) =>
      var f := DoFinish(c, dim);
      Some(Inner(f.delta, f.children, next - j))
  }

  /** A slot holding a leaf or an inner node (not empty, not a placeholder). */
  predicate Real(o: Option<Node>)
  {
    o.Some? && !o.value.Placeholder?
  }

  /** The first real slot at or after `i`, or the array length if there is none. */
  ghost function NextReal(cs: seq<Option<Node>>, i: int): (r: int)
    requires 0 <= i <= |cs|
    ensures i <= r <= |cs|
    decreases |cs| - i
  {
    if i == |cs| then |cs| else if Real(cs[i]) then i else NextReal(cs, i + 1)
  }

  /** The first occupied slot at or after `i`, or the array length if there is none. */
  ghost function NextSome(cs: seq<Option<Node>>, i: int): (r: int)
    requires 0 <= i <= |cs|
    ensures i <= r <= |cs|
    decreases |cs| - i
  {
    if i == |cs| then |cs| else if cs[i].Some? then i else NextSome(cs, i + 1)
  }

  lemma {:induction false} NextRealIsNext(cs: seq<Option<Node>>, i: int)
    requires 0 <= i <= |cs|
    ensures forall k :: i <= k < NextReal(cs, i) ==> !Real(cs[k])
    ensures NextReal(cs, i) < |cs| ==> Real(cs[NextReal(cs, i)])
    decreases |cs| - i
  {
    if i < |cs| && !Real(cs[i]) {
      NextRealIsNext(cs, i + 1);
    }
  }

  /**
    A finished tree: every slot is occupied, each slot's advance reaches the
    next real slot (or one past the end), and inner children are finished.
   */
  ghost predicate Finished(n: Node)
    decreases n, 1
  {
    n.Inner? && forall i :: 0 <= i < |n.children| ==> SlotFinished(n, i)
  }

  /** What `Finished` demands of slot `i`. */
  ghost predicate SlotFinished(n: Node, i: int)
    requires n.Inner?
    decreases n, 0
  {
    && 0 <= i < |n.children|
    && n.children[i].Some?
    && n.children[i].value.advance == NextReal(n.children, i + 1) - i
    && (n.children[i].value.Inner? ==> Finished(n.children[i].value))
  }

  /**
    `f` has the leaves and inner nodes of `n` at the same places; only empty
    slots may have become placeholders (advances are not compared).
   */
  ghost predicate SameSkeleton(f: Node, n: Node)
    decreases n
  {
    match n
    case Leaf(p, _) => f.Leaf? && f.point == p
    case Placeholder(_) => f.Placeholder?
    case Inner(d, cs, _) =>
      && f.Inner? && f.delta == d && |f.children| == |cs|
      && forall i :: 0 <= i < |cs| ==>
           && (cs[i].None? ==> f.children[i].None? || f.children[i].value.Placeholder?)
           && (cs[i].Some? ==> f.children[i].Some? && SameSkeleton(f.children[i].value, cs[i].value))
  }

  lemma {:induction false} FinishSlotsAt(n: Node, dim: nat, j: int, next: int, done: seq<Option<Node>>)
    requires n.Inner? && -1 <= j < |n.children|
    requires next == NextSome(n.children, j + 1)
    requires |done| == |n.children| - 1 - j
    requires forall k :: 0 <= k < |done| ==>
      done[k] == FinishSlot(n, dim, j + 1 + k, NextSome(n.children, j + 2 + k))
    ensures forall i :: 0 <= i < |n.children| ==>
      FinishSlots(n, dim, j, next, done)[i] == FinishSlot(n, dim, i, NextSome(n.children, i + 1))
    decreases j + 1
  {
    if j >= 0 {
      var cs := n.children;
      var next' := if cs[j].Some? then j else next;
      assert next' == NextSome(cs, j);
      var done' := [FinishSlot(n, dim, j, next)] + done;
      forall k | 0 <= k < |done'|
        ensures done'[k] == FinishSlot(n, dim, j + k, NextSome(n.children, j + 1 + k))
      {
        if k > 0 {
          assert done'[k] == done[k - 1];
        }
      }
      FinishSlotsAt(n, dim, j - 1, next', done');
      assert FinishSlots(n, dim, j, next, done) == FinishSlots(n, dim, j - 1, next', done');
    }
  }

  /** Every slot of a finished node is the one the pass computes for it. */
  lemma DoFinishSlots(n: Node, dim: nat)
    requires n.Inner?
    ensures forall i :: 0 <= i < |n.children| ==>
      DoFinish(n, dim).children[i] == FinishSlot(n, dim, i, NextSome(n.children, i + 1))
  {
    FinishSlotsAt(n, dim, |n.children| - 1, |n.children|, []);
    assert DoFinish(n, dim).children == FinishSlots(n, dim, |n.children| - 1, |n.children|, []);
  }

  /** Finishing adds and removes no leaf and no inner node. */
  lemma {:induction false} FinishKeepsSkeleton(n: Node, dim: nat)
    requires n.Inner?
    ensures SameSkeleton(DoFinish(n, dim), n)
    decreases n
  {
    DoFinishSlots(n, dim);
    forall i | 0 <= i < |n.children|
      ensures var f := DoFinish(n, dim).children[i];
        && (n.children[i].None? ==> f.None? || f.value.Placeholder?)
        && (n.children[i].Some? ==> f.Some? && SameSkeleton(f.value, n.children[i].value))
    {
      match n.children[i]
      case None =>
        AdvanceTableGet(dim, NextSome(n.children, i + 1) - i);
      case Some(c) =>
        if c.Inner? {
          FinishKeepsSkeleton(c, dim);
        }
    }
  }

  /** Trees with the same skeleton store the same vectors. */
  lemma {:induction false} SkeletonPoints(f: Node, n: Node)
    requires SameSkeleton(f, n)
    ensures Points(f) == Points(n)
    decreases n
  {
    if n.Inner? {
      forall p | p in Points(f) ensures p in Points(n) {
        var i :| 0 <= i < |f.children| && f.children[i].Some? && p in Points(f.children[i].value);
        SkeletonPoints(f.children[i].value, n.children[i].value);
      }
      forall p | p in Points(n) ensures p in Points(f) {
        var i :| 0 <= i < |n.children| && n.children[i].Some? && p in Points(n.children[i].value);
        SkeletonPoints(f.children[i].value, n.children[i].value);
      }
    }
  }

  /** Trees with the same skeleton are valid together. */
  lemma {:induction false} SkeletonValid(f: Node, n: Node, level: int, dim: nat)
    requires SameSkeleton(f, n) && Valid(n, level, dim)
    ensures Valid(f, level, dim)
    decreases n
  {
    forall i | 0 <= i < |f.children| && f.children[i].Some?
      ensures ChildValid(f.children[i].value, i - f.delta, level, dim)
    {
      if n.children[i].Some? {
        var c := n.children[i].value;
        if c.Inner? {
          SkeletonValid(f.children[i].value, c, level - 1, dim);
          SkeletonPoints(f.children[i].value, c);
        }
      }
    }
  }

  /** Where nothing is a placeholder yet, the next real slot is the next occupied slot of the original. */
  lemma {:induction false} NextRealOfFinished(n: Node, dim: nat, i: int)
    requires n.Inner? && Building(n) && 0 <= i <= |n.children|
    ensures NextReal(DoFinish(n, dim).children, i) == NextSome(n.children, i)
    decreases |n.children| - i
  {
    if i < |n.children| {
      DoFinishSlots(n, dim);
      AdvanceTableGet(dim, NextSome(n.children, i + 1) - i);
      NextRealOfFinished(n, dim, i + 1);
    }
  }

  /**
    Finishing a tree under construction whose keys lie in `[-dim, dim]`
    leaves no empty slot and gives every slot the advance to the next real slot.
   */
  lemma {:induction false} FinishIsFinished(n: Node, dim: nat)
    requires n.Inner? && Building(n) && KeysWithin(n, dim)
    ensures Finished(DoFinish(n, dim))
    decreases n
  {
    var f := DoFinish(n, dim);
    DoFinishSlots(n, dim);
    forall i | 0 <= i < |n.children|
      ensures SlotFinished(f, i)
    {
      NextRealOfFinished(n, dim, i + 1);
      match n.children[i]
      case None =>
        AdvanceTableGet(dim, NextSome(n.children, i + 1) - i);
      case Some(c) =>
        if c.Inner? {
          FinishIsFinished(c, dim);
          FinishedIgnoresAdvance(DoFinish(c, dim), NextSome(n.children, i + 1) - i);
        }
    }
  }

  /** Being finished does not depend on the node's own advance. */
  lemma FinishedIgnoresAdvance(n: Node, k: nat)
    requires Finished(n)
    ensures Finished(Inner(n.delta, n.children, k))
  {
    var m := Inner(n.delta, n.children, k);
    forall i | 0 <= i < |m.children|
      ensures SlotFinished(m, i)
    {
      assert SlotFinished(n, i);
    }
  }
}

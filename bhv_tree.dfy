// UnsafeBHVTree: the dynamic bounding-volume tree. An arena of nodes addressed
// by integer handles, a stack of freed handles, the root handle and the number
// of stored elements (leaves). The abstract tree the links describe is kept in
// a ghost field and tied to the arena by the validity predicate.
module BHVTree {
  import opened Volumes
  import opened BHVShape
  import opened BHVRotation
  import opened BHVWalk
  import opened BHVEdit
  import opened BHVCost
  import opened Wrappers

  /** float.MaxValue, the best cost the sibling search starts from. */
  const FloatMax: real := 340282346638528859811704183484516925440.0

  /** An entry of the search queue: a lower-bound cost and the handle to visit. */
  datatype Entry = Entry(key: real, handle: int)

  predicate NoDuplicates(s: seq<int>)
  {
    forall i, j :: 0 <= i < j < |s| ==> s[i] != s[j]
  }

  /**
   * The free stack holds distinct handles of arena slots that are not live,
   * and every arena slot is either live or on the stack.
   */
  ghost predicate FreeStack(nodes: seq<Node>, free: seq<int>, live: set<int>)
  {
    NoDuplicates(free) &&
    (forall i :: 0 <= i < |free| ==> 0 <= free[i] < |nodes| && free[i] !in live) &&
    (forall k :: 0 <= k < |nodes| ==> k in live || k in free)
  }

  /**
   * A new leaf below its parent `q`: the path to the leaf runs through `q`,
   * and the leaf is the only node on it below `q`, refitted for having no
   * children.
   */
  lemma NewLeafPath(n: seq<Node>, t: Shape, l: int, q: int)
    requires Linked(n, t, Null) && Distinct(t) && l in Handles(t) && q in Handles(t)
    requires 0 <= l < |n| && n[l].left == Null && ParentOf(n, l) == q
    ensures q in PathTo(t, l) && PathRefitted(n, t, l, q)
  {
    LinkedInRange(n, t, Null);
    PathToParent(n, t, Null, l);
    PathToEnds(t, q);
  }

  /** Allocation takes the top of the free stack, or a new slot when the stack is empty; either way a slot that was not live. */
  lemma AllocateFree(nodes: seq<Node>, free: seq<int>, live: set<int>, nodes': seq<Node>, free': seq<int>, h: int)
    requires FreeStack(nodes, free, live) && forall k :: k in live ==> 0 <= k < |nodes|
    requires (|free| > 0 && h == free[|free| - 1] && free' == free[..|free| - 1] && |nodes'| == |nodes|) ||
             (|free| == 0 && h == |nodes| && free' == free && |nodes'| == |nodes| + 1)
    ensures h !in live && 0 <= h < |nodes'|
    ensures FreeStack(nodes', free', live + {h}) && forall k :: k in live + {h} ==> 0 <= k < |nodes'|
  {
    forall k | 0 <= k < |nodes'| && k !in live + {h} ensures k in free' {
      assert k < |nodes| && k in free;
      var i :| 0 <= i < |free| && free[i] == k;
      assert i < |free'| && free'[i] == k;
    }
  }

  /** Pushing a live handle makes its slot free. */
  lemma ReleaseFree(nodes: seq<Node>, free: seq<int>, live: set<int>, h: int)
    requires FreeStack(nodes, free, live) && h in live && 0 <= h < |nodes|
    ensures FreeStack(nodes, free + [h], live - {h})
  {
    forall k | 0 <= k < |nodes| && k !in live - {h} ensures k in free + [h] {
      if k != h {
        var i :| 0 <= i < |free| && free[i] == k;
        assert (free + [h])[i] == k;
      } else {
        assert (free + [h])[|free|] == k;
      }
    }
  }

  /** The free stack speaks of slot indices only, so it survives writes that keep the arena's length. */
  lemma FreeStackFrame(nodes: seq<Node>, nodes': seq<Node>, free: seq<int>, live: set<int>, live': set<int>)
    requires FreeStack(nodes, free, live) && |nodes'| == |nodes| && live' == live
    ensures FreeStack(nodes', free, live')
  {
  }

  /**
   * The node and leaf sets across Add's stages: the splice adds the new leaf
   * `l` and the new parent `q` (both new), and the walk keeps both sets.
   */
  lemma GrowBy(h0: set<int>, l0: set<int>, h1: set<int>, l1: set<int>, h2: set<int>, l2: set<int>, l: int, q: int)
    requires l0 <= h0 && l !in h0 && q !in h0 && l != q
    requires h1 == h0 + {l} + {q} && l1 == l0 + {l} && h2 == h1 && l2 == l1
    ensures h2 == h0 + {l} + {q} && l2 == l0 + {l} && h0 + {l} <= h2
    ensures |l2| == |l0| + 1 && |h2| == |h0| + 2
  {
  }

  /** Adding a new leaf raises the leaf count by one. */
  lemma AddCount(leaves: set<int>, h: int)
    requires h !in leaves
    ensures |leaves + {h}| == |leaves| + 1
  {
  }

  /** Removing a stored leaf lowers the leaf count by one. */
  lemma RemoveCount(leaves: set<int>, h: int)
    requires h in leaves
    ensures |leaves - {h}| == |leaves| - 1
  {
  }

  /**
   * CheckHandle as written: the debug check throws for a handle above the
   * node count or below zero, and lets every other handle through.
   */
  predicate CheckHandleAccepts(count: int, handle: int)
  {
    !(handle > count || handle < 0)
  }

  /** The check as written lets through the handle equal to the node count, one past the last slot. */
  lemma CheckHandleAdmitsCount(count: nat)
    ensures CheckHandleAccepts(count, count) && !(0 <= count < count)
  {
  }

  /** The check as intended: it throws for a handle at or above the node count or below zero. */
  predicate HandleInRange(count: int, handle: int)
  {
    !(handle >= count || handle < 0)
  }

  /** The intended check lets through exactly the handles that name an arena slot. */
  lemma HandleInRangeExact(count: int, handle: int)
    ensures HandleInRange(count, handle) <==> 0 <= handle < count
    ensures HandleInRange(count, handle) ==> CheckHandleAccepts(count, handle)
  {
  }

  /** A tree always has at least one leaf. */
  lemma {:induction false} LeavesNonEmpty(t: Shape)
    ensures Leaves(t) != {}
  {
    match t
    case Leaf(h) => assert h in Leaves(t);
    case Branch(_, l, r) =>
      LeavesNonEmpty(l);
      assert Leaves(t) == Leaves(l) + Leaves(r);
  }

  /** Writing slots outside a linked tree leaves it linked and its boxes enclosing. */
  lemma KeepTree(n: seq<Node>, n': seq<Node>, t: Shape)
    requires Linked(n, t, Null) && Distinct(t) && |n| <= |n'|
    requires forall k :: k in Handles(t) ==> 0 <= k < |n| && n'[k] == n[k]
    ensures Linked(n', t, Null) && (Enclosed(n, t, []) ==> Enclosed(n', t, []))
  {
    assert Unchanged(n, n', Handles(t));
    LinkedFrame(n, n', t, Null);
    if Enclosed(n, t, []) {
      forall k | k in Handles(t) ensures EnclosesChildren(n', k) {
        assert EnclosesChildren(n, k);
        if n[k].left != Null {
          ChildrenOf(n, t, Null, k);
        }
      }
    }
  }

  /** A tree whose root is one of its leaves is that single leaf. */
  lemma RootLeaf(t: Shape)
    requires Distinct(t) && t.h in Leaves(t)
    ensures t == Leaf(t.h)
  {
    if t.Branch? {
      LeavesInHandles(t.l);
      LeavesInHandles(t.r);
    }
  }

  /** A tree with exactly one leaf is that leaf. */
  lemma OneLeaf(t: Shape)
    requires Distinct(t) && |Leaves(t)| == 1
    ensures t == Leaf(t.h)
  {
    BranchLeaves(t);
  }

  /** A branch has at least two leaves. */
  lemma BranchLeaves(t: Shape)
    requires Distinct(t)
    ensures t.Branch? ==> |Leaves(t)| >= 2
  {
    if t.Branch? {
      LeavesInHandles(t.l);
      LeavesInHandles(t.r);
      LeafCountPositive(t.l);
      LeafCountPositive(t.r);
      assert Leaves(t.l) !! Leaves(t.r);
    }
  }

  lemma {:induction false} LeafCountPositive(t: Shape)
    ensures |Leaves(t)| >= 1
  {
    match t
    case Leaf(_) =>
    case Branch(_, l, r) =>
      LeafCountPositive(l);
      assert Leaves(l) <= Leaves(t);
  }

  /** The handles Rotate reads are in the arena, and a grandparent is never a leaf. */
  lemma RotateRanges(n: seq<Node>, t: Shape, x: int)
    requires Linked(n, t, Null) && Distinct(t) && x in Handles(t) && x != t.h
    ensures var p := ParentOf(n, x);
      0 <= x < |n| && p in Handles(t) && 0 <= p < |n| && 0 <= Brother(n, x) < |n| &&
      (p != t.h ==>
        var g := ParentOf(n, p);
        0 <= g < |n| && n[g].left != Null && 0 <= Uncle(n, x) < |n|)
  {
    SubtreeLinked(n, t, Null, x);
    LinkedInRange(n, t, Null);
    var p := ParentOf(n, x);
    LeafIff(n, t, Null, p);
    if p in Leaves(t) { LeafSubtree(t, p); }
    ChildrenOf(n, t, Null, p);
    if p != t.h {
      Neighbourhood(n, t, x);
    }
  }

  /** The handles at or below the entry for `h`. */
  ghost function Below(t: Shape, h: int): set<int>
  {
    if h in Handles(t) then Handles(Subtree(t, h)) else {}
  }

  ghost function SizeBelow(t: Shape, h: int): nat
  {
    if h in Handles(t) then Size(Subtree(t, h)) else 0
  }

  /** The handles the queued entries still stand for: every handle at or below one of them. */
  ghost function Covered(t: Shape, queue: seq<Entry>): set<int>
  {
    if |queue| == 0 then {} else Covered(t, queue[..|queue| - 1]) + Below(t, queue[|queue| - 1].handle)
  }

  /** The number of nodes at or below the queued entries, counted once per entry; the search's termination measure. */
  ghost function Weight(t: Shape, queue: seq<Entry>): nat
  {
    if |queue| == 0 then 0 else Weight(t, queue[..|queue| - 1]) + SizeBelow(t, queue[|queue| - 1].handle)
  }

  lemma {:induction false} CoveredAppend(t: Shape, a: seq<Entry>, b: seq<Entry>)
    ensures Covered(t, a + b) == Covered(t, a) + Covered(t, b)
    ensures Weight(t, a + b) == Weight(t, a) + Weight(t, b)
    decreases |b|
  {
    if |b| == 0 {
      assert a + b == a;
    } else {
      assert (a + b)[..|a + b| - 1] == a + b[..|b| - 1];
      CoveredAppend(t, a, b[..|b| - 1]);
    }
  }

  /** Taking entry `i` out of the queue takes exactly its part out of the cover and the measure. */
  lemma QueuePop(t: Shape, queue: seq<Entry>, i: int)
    requires 0 <= i < |queue|
    ensures var rest := queue[..i] + queue[i + 1..];
      Covered(t, queue) == Covered(t, rest) + Below(t, queue[i].handle) &&
      Weight(t, queue) == Weight(t, rest) + SizeBelow(t, queue[i].handle)
  {
    assert queue == queue[..i] + [queue[i]] + queue[i + 1..];
    CoveredAppend(t, queue[..i] + [queue[i]], queue[i + 1..]);
    CoveredAppend(t, queue[..i], [queue[i]]);
    CoveredAppend(t, queue[..i], queue[i + 1..]);
    assert [queue[i]][..0] == [];
  }

  /** Pushing both children of internal node `h` in place of `h` covers what `h` covered, and weighs one less. */
  lemma QueuePush(n: seq<Node>, t: Shape, rest: seq<Entry>, h: int, key: real)
    requires Linked(n, t, Null) && Distinct(t) && h in Handles(t) && 0 <= h < |n| && n[h].left != Null
    ensures var queue := rest + [Entry(key, n[h].left)] + [Entry(key, n[h].right)];
      Covered(t, queue) == Covered(t, rest) + Below(t, n[h].left) + Below(t, n[h].right) &&
      Weight(t, queue) < Weight(t, rest) + SizeBelow(t, h)
  {
    ChildrenOf(n, t, Null, h);
    SubtreeShape(t, h);
    var e1, e2 := Entry(key, n[h].left), Entry(key, n[h].right);
    assert rest + [e1] + [e2] == rest + [e1, e2];
    CoveredAppend(t, rest, [e1, e2]);
    assert [e1, e2][..1] == [e1];
    assert [e1][..0] == [];
  }

  lemma SizePositive(t: Shape)
    ensures Size(t) >= 1
  {
  }

  /** Every queued handle is a node of the tree. */
  ghost predicate InTree(t: Shape, queue: seq<Entry>)
  {
    forall i :: 0 <= i < |queue| ==> queue[i].handle in Handles(t)
  }

  lemma InTreePop(t: Shape, queue: seq<Entry>, i: int)
    requires InTree(t, queue) && 0 <= i < |queue|
    ensures queue[i].handle in Handles(t) && InTree(t, queue[..i] + queue[i + 1..])
  {
    var rest := queue[..i] + queue[i + 1..];
    forall j | 0 <= j < |rest| ensures rest[j].handle in Handles(t) {
      if j < i { assert rest[j] == queue[j]; } else { assert rest[j] == queue[j + 1]; }
    }
  }

  lemma InTreePush(t: Shape, queue: seq<Entry>, e: Entry)
    requires InTree(t, queue) && e.handle in Handles(t)
    ensures InTree(t, queue + [e])
  {
  }

  /** The position of an entry of least key in a non-empty queue: the one a min-heap pops. */
  function MinIndex(queue: seq<Entry>): (i: int)
    requires |queue| > 0
    ensures 0 <= i < |queue| && forall j :: 0 <= j < |queue| ==> queue[i].key <= queue[j].key
  {
    if |queue| == 1 then 0
    else
      var i := MinIndex(queue[..|queue| - 1]);
      if queue[i].key <= queue[|queue| - 1].key then i else |queue| - 1
  }


  /**
   * After visiting `h` with best cost `best`: every handle at or below `h`
   * costs at least `best`, unless the children were pushed and it lies below
   * one of them.
   */
  lemma CoverStep(n: seq<Node>, t: Shape, h: int, value: AABB, best: real, pushed: bool)
    requires Linked(n, t, Null) && Distinct(t) && h in Handles(t) && 0 <= h < |n|
    requires WellFormedVolumes(n, t) && WellFormed(value)
    requires InsertCost(n, t, h, value) >= best
    requires pushed ==> n[h].left != Null
    requires n[h].left != Null && !pushed ==> LowerBound(n, t, h, value) >= best
    ensures forall k :: k in Below(t, h) ==>
      InsertCost(n, t, k, value) >= best ||
      (pushed && k in Below(t, n[h].left) + Below(t, n[h].right))
  {
    SubtreeShape(t, h);
    LeafIff(n, t, Null, h);
    if n[h].left == Null {
      LeafSubtree(t, h);
    } else {
      Children(n, t, h, n[h].left, n[h].right);
      forall k | k in Below(t, h) && k != h && !pushed ensures InsertCost(n, t, k, value) >= best {
        BelowBound(n, t, h, k, value);
      }
    }
  }

  /** The costs a visit computes are the insertion cost and the lower bound of the visited node. */
  lemma VisitCosts(n: seq<Node>, t: Shape, h: int, value: AABB, inherited: real)
    requires 0 <= h < |n| && inherited == PathCost(n, PathTo(t, n[h].parent), value)
    ensures UnionArea(n[h].volume, value) + inherited == InsertCost(n, t, h, value)
    ensures SurfaceArea(value) + DeltaSurfaceArea(n[h].volume, value) + inherited == LowerBound(n, t, h, value)
  {
  }

  /** Every node of the tree costs at least `best`, or is still covered by the queue. */
  ghost predicate Bounded(n: seq<Node>, t: Shape, value: AABB, best: real, queue: seq<Entry>)
  {
    forall k {:trigger InsertCost(n, t, k, value)} :: k in Handles(t) ==> InsertCost(n, t, k, value) >= best || k in Covered(t, queue)
  }

  /** One visit of the search keeps its invariant: every handle costs at least the best cost, or is still covered by the queue. */
  lemma SearchStep(n: seq<Node>, t: Shape, value: AABB, before: seq<Entry>, rest: seq<Entry>, after: seq<Entry>,
                   h: int, oldBest: real, best: real, pushed: bool)
    requires Linked(n, t, Null) && Distinct(t) && h in Handles(t) && 0 <= h < |n|
    requires WellFormedVolumes(n, t) && WellFormed(value)
    requires Covered(t, before) == Covered(t, rest) + Below(t, h)
    requires Bounded(n, t, value, oldBest, before)
    requires best <= oldBest && InsertCost(n, t, h, value) >= best
    requires pushed ==> n[h].left != Null && Covered(t, after) == Covered(t, rest) + Below(t, n[h].left) + Below(t, n[h].right)
    requires !pushed ==> after == rest
    requires n[h].left != Null && !pushed ==> LowerBound(n, t, h, value) >= best
    ensures Bounded(n, t, value, best, after)
  {
    CoverStep(n, t, h, value, best, pushed);
  }

  /** The best candidate so far: still the root at float.MaxValue, or a handle whose insertion cost is the best cost. */
  ghost predicate BestSoFar(n: seq<Node>, t: Shape, value: AABB, best: int, bestCost: real)
  {
    (bestCost == FloatMax && best == t.h) || bestCost == InsertCost(n, t, best, value)
  }

  /** Once the queue is empty, the best candidate costs no more than any node below float.MaxValue. */
  lemma SearchDone(n: seq<Node>, t: Shape, value: AABB, best: int, bestCost: real)
    requires BestSoFar(n, t, value, best, bestCost) && Bounded(n, t, value, bestCost, [])
    ensures forall k :: k in Handles(t) ==>
      InsertCost(n, t, best, value) <= InsertCost(n, t, k, value) || FloatMax <= InsertCost(n, t, k, value)
  {
    forall k | k in Handles(t)
      ensures InsertCost(n, t, best, value) <= InsertCost(n, t, k, value) || FloatMax <= InsertCost(n, t, k, value)
    {
      assert InsertCost(n, t, k, value) >= bestCost;
    }
  }

  lemma BestIs(n: seq<Node>, t: Shape, value: AABB, h: int, cost: real)
    requires cost == InsertCost(n, t, h, value)
    ensures BestSoFar(n, t, value, h, cost)
  {
  }

  class Tree {
    var nodes: seq<Node>
    var freeHandles: seq<int>
    var length: int
    var root: int
    ghost var shape: Option<Shape>

    /** The handles of the nodes in the tree, internal ones included. */
    ghost function Live(): set<int>
      reads this
    {
      if shape.Some? then Handles(shape.value) else {}
    }

    /** The handles of the stored elements. */
    ghost function Elements(): set<int>
      reads this
    {
      if shape.Some? then Leaves(shape.value) else {}
    }

    /**
     * The tree invariant: parent and child links agree with a binary tree
     * whose internal nodes all have two children, `length` counts its
     * leaves, no live node is on the free stack, and every internal box
     * encloses its children's boxes.
     */
    ghost predicate Valid()
      reads this
    {
      FreeStack(nodes, freeHandles, Live()) &&
      match shape
      case None => root == Null && length == 0
      case Some(t) =>
        root == t.h && Linked(nodes, t, Null) && Distinct(t) &&
        length == |Leaves(t)| && Enclosed(nodes, t, [])
    }

    /** The tree with nothing stored (the UnsafeBHVTree constructor). */
    constructor ()
      ensures Valid() && shape == None && nodes == [] && freeHandles == [] && length == 0 && root == Null
    {
      nodes := [];
      freeHandles := [];
      length := 0;
      root := Null;
      shape := None;
    }

    /** Clear: drops every node and every free handle. */
    method Clear()
      modifies this
      ensures Valid() && shape == None && nodes == [] && freeHandles == [] && length == 0 && root == Null
    {
      nodes := [];
      freeHandles := [];
      length := 0;
      root := Null;
      shape := None;
    }

    /**
     * Allocate: reuses the most recently freed handle when there is one,
     * otherwise appends a slot. The node gets the volume and value and zero
     * links; no other slot changes.
     */
    method Allocate(volume: AABB, value: int) returns (handle: int)
      requires forall i :: 0 <= i < |freeHandles| ==> 0 <= freeHandles[i] < |nodes|
      modifies this
      ensures root == old(root) && length == old(length) && shape == old(shape)
      ensures old(|freeHandles|) > 0 ==>
        handle == old(freeHandles[|freeHandles| - 1]) && freeHandles == old(freeHandles[..|freeHandles| - 1]) &&
        |nodes| == old(|nodes|)
      ensures old(|freeHandles|) == 0 ==>
        handle == old(|nodes|) && freeHandles == old(freeHandles) && |nodes| == old(|nodes|) + 1
      ensures 0 <= handle < |nodes| && nodes[handle] == Node(volume, value, 0, 0, 0)
      ensures forall k :: 0 <= k < old(|nodes|) && k != handle ==> nodes[k] == old(nodes[k])
    {
      if |freeHandles| > 0 {
        handle := freeHandles[|freeHandles| - 1];
        freeHandles := freeHandles[..|freeHandles| - 1];
        nodes := nodes[handle := Node(volume, value, 0, 0, 0)];
      } else {
        handle := |nodes|;
        nodes := nodes + [Node(volume, value, 0, 0, 0)];
      }
    }

    /** Free: pushes the handle on the free stack and changes nothing else. */
    method Free(handle: int)
      modifies this
      ensures freeHandles == old(freeHandles) + [handle]
      ensures nodes == old(nodes) && root == old(root) && length == old(length) && shape == old(shape)
    {
      freeHandles := freeHandles + [handle];
    }

    /** IsEmpty: no element is stored. */
    predicate IsEmpty()
      reads this
    {
      length == 0
    }

    /** In a valid tree, emptiness means there is no tree and no element. */
    lemma EmptyIff()
      requires Valid()
      ensures IsEmpty() <==> shape.None?
      ensures IsEmpty() <==> Elements() == {}
    {
      if shape.Some? {
        LeavesNonEmpty(shape.value);
      }
    }

    /** GetNode and the indexer: the node stored at an in-range handle; an element's handle reads a leaf. */
    method GetNode(handle: int) returns (node: Node)
      requires HandleInRange(|nodes|, handle)
      ensures node == nodes[handle]
      ensures Valid() && handle in Elements() ==> node.IsLeaf()
    {
      node := nodes[handle];
      if Valid() && shape.Some? && handle in Leaves(shape.value) {
        LeavesInHandles(shape.value);
        LeafIff(nodes, shape.value, Null, handle);
      }
    }

    /** CountLeafs: the number of leaves, which is the stored element count. Reads the root, so the tree is non-empty. */
    method CountLeafs() returns (count: int)
      requires Valid() && shape.Some?
      ensures count == length == |Elements()|
    {
      count := CountLeafsBelow(root, shape.value, Null, 0);
    }

    /** CountLeafsRecursive: adds the leaves of the subtree `s` stored at `h` to `count`. */
    method CountLeafsBelow(h: int, ghost s: Shape, ghost p: int, count: int) returns (total: int)
      requires Linked(nodes, s, p) && Distinct(s) && s.h == h
      ensures total == count + |Leaves(s)|
      decreases s
    {
      if nodes[h].IsLeaf() {
        total := count + 1;
      } else {
        LeavesInHandles(s.l);
        LeavesInHandles(s.r);
        total := CountLeafsBelow(nodes[h].left, s.l, h, count);
        total := CountLeafsBelow(nodes[h].right, s.r, h, total);
      }
    }

    /** CountNodes: every internal node has two children, so the tree holds 2 * length - 1 nodes. */
    method CountNodes() returns (count: int)
      requires Valid() && shape.Some?
      ensures count == |Live()| == 2 * length - 1
    {
      NodeCount(shape.value);
      count := CountNodesBelow(root, shape.value, Null, 0);
    }

    /** CountNodesRecursive: adds the nodes of the subtree `s` stored at `h` to `count`. */
    method CountNodesBelow(h: int, ghost s: Shape, ghost p: int, count: int) returns (total: int)
      requires Linked(nodes, s, p) && Distinct(s) && s.h == h
      ensures total == count + |Handles(s)|
      decreases s
    {
      total := count + 1;
      if !nodes[h].IsLeaf() {
        assert Handles(s) == {h} + (Handles(s.l) + Handles(s.r));
        total := CountNodesBelow(nodes[h].left, s.l, h, total);
        total := CountNodesBelow(nodes[h].right, s.r, h, total);
      }
    }

    /** GetDepth: the number of edges on the longest root-to-leaf path, which is below the element count. */
    method GetDepth() returns (depth: int)
      requires Valid() && shape.Some?
      ensures depth == Height(shape.value) && 0 <= depth < length
    {
      HeightBound(shape.value);
      depth := GetDepthBelow(root, shape.value, Null, 0, 0);
    }

    /**
     * GetDepthRecursive: the subtree `s` stored at `h` starts `depth` edges
     * below the root; the deepest leaf seen so far is raised to the depth of
     * the deepest leaf of `s`.
     */
    method GetDepthBelow(h: int, ghost s: Shape, ghost p: int, depth: int, maxDepth: int) returns (deepest: int)
      requires Linked(nodes, s, p) && s.h == h
      ensures deepest == (if maxDepth >= depth + Height(s) then maxDepth else depth + Height(s))
      decreases s
    {
      if nodes[h].IsLeaf() {
        deepest := maxDepth;
        if maxDepth < depth {
          deepest := depth;
        }
      } else {
        var below := depth + 1;
        deepest := GetDepthBelow(nodes[h].left, s.l, h, below, maxDepth);
        deepest := GetDepthBelow(nodes[h].right, s.r, h, below, deepest);
      }
    }

    /** Cost: the sum of the surface areas of the internal nodes' boxes. */
    method Cost() returns (cost: real)
      requires Valid() && shape.Some?
      ensures cost == InternalArea(nodes, shape.value)
      ensures WellFormedVolumes(nodes, shape.value) ==> cost >= 0.0
    {
      cost := CostBelow(root, shape.value, Null, 0.0);
      if WellFormedVolumes(nodes, shape.value) {
        InternalAreaNonNegative(nodes, shape.value);
      }
    }

    /** CostRecursive: adds the internal areas of the subtree `s` stored at `h` to `cost`. */
    method CostBelow(h: int, ghost s: Shape, ghost p: int, cost: real) returns (total: real)
      requires Linked(nodes, s, p) && s.h == h
      ensures total == cost + InternalArea(nodes, s)
      decreases s
    {
      if nodes[h].IsLeaf() {
        total := cost;
      } else {
        total := cost + SurfaceArea(nodes[h].volume);
        total := CostBelow(nodes[h].left, s.l, h, total);
        total := CostBelow(nodes[h].right, s.r, h, total);
      }
    }

    /**
     * Rotate: when `handle` and its parent are not the root and the swap does
     * not make the parent's box larger in area than `handle`'s, `handle`
     * trades places with its uncle and the parent takes the union of the uncle
     * and the brother; otherwise nothing changes.
     */
    method Rotate(handle: int) returns (ghost rotated: bool)
      requires shape.Some? && root == shape.value.h
      requires Linked(nodes, shape.value, Null) && Distinct(shape.value) && handle in Handles(shape.value)
      modifies this
      ensures root == old(root) && freeHandles == old(freeHandles) && length == old(length)
      ensures rotated <==> Rotatable(old(nodes), old(shape.value), handle) && RotationPays(old(nodes), handle)
      ensures rotated ==>
        nodes == RotatedNodes(old(nodes), handle) && shape == Some(RotatedShape(old(nodes), old(shape.value), handle))
      ensures !rotated ==> nodes == old(nodes) && shape == old(shape)
    {
      if root == handle {
        return false;
      }
      ghost var t := shape.value;
      var n := nodes;
      RotateRanges(n, t, handle);
      var parentHandle := n[handle].parent;
      var isBrotherOnRight := n[parentHandle].left == handle;
      var brother := if isBrotherOnRight then n[parentHandle].right else n[parentHandle].left;
      if root == parentHandle {
        return false;
      }
      var grandParentHandle := n[parentHandle].parent;
      if n[grandParentHandle].left == Null {
        assert false;
        return;
      }
      var isUncleOnRight := n[grandParentHandle].left == parentHandle;
      var uncleHandle := if isUncleOnRight then n[grandParentHandle].right else n[grandParentHandle].left;
      var balanced := Union(n[uncleHandle].volume, n[brother].volume);
      if SurfaceArea(n[handle].volume) < SurfaceArea(balanced) {
        return false;
      }
      // The writes land in the arena in the order the source makes them.
      if isUncleOnRight {
        n := n[grandParentHandle := n[grandParentHandle].(right := handle)];
        n := n[handle := n[handle].(parent := grandParentHandle)];
      } else {
        n := n[grandParentHandle := n[grandParentHandle].(left := handle)];
        n := n[handle := n[handle].(parent := grandParentHandle)];
      }
      if isBrotherOnRight {
        n := n[parentHandle := n[parentHandle].(left := uncleHandle)];
        n := n[uncleHandle := n[uncleHandle].(parent := parentHandle)];
      } else {
        n := n[parentHandle := n[parentHandle].(right := uncleHandle)];
        n := n[uncleHandle := n[uncleHandle].(parent := parentHandle)];
      }
      n := n[parentHandle := n[parentHandle].(volume := balanced)];
      nodes := n;
      shape := Some(RotatedShape(old(nodes), t, handle));
      rotated := true;
    }

    /**
     * InheritedCost: the growth of the boxes of `handle` and all its
     * ancestors once they must enclose `value`.
     */
    method InheritedCost(handle: int, value: AABB) returns (cost: real)
      requires shape.Some? && Linked(nodes, shape.value, Null) && Distinct(shape.value)
      requires handle == Null || handle in Handles(shape.value)
      ensures cost == PathCost(nodes, PathTo(shape.value, handle), value)
    {
      ghost var t := shape.value;
      LinkedInRange(nodes, t, Null);
      cost := 0.0;
      var h := handle;
      while h != Null
        invariant h == Null || h in Handles(t)
        invariant cost + PathCost(nodes, PathTo(t, h), value) == PathCost(nodes, PathTo(t, handle), value)
        decreases |PathTo(t, h)|
      {
        PathToParent(nodes, t, Null, h);
        SubtreeLinked(nodes, t, Null, h);
        PathCostSnoc(nodes, PathTo(t, nodes[h].parent), h, value);
        cost := cost + DeltaSurfaceArea(nodes[h].volume, value);
        h := nodes[h].parent;
      }
      PathToAbsent(t, Null);
    }

    /**
     * One pass of FindBestHandle's loop on the popped `handle`: its insertion
     * cost may become the best, and when its lower bound still beats the best
     * cost its two children are queued with that bound as key. With
     * well-formed boxes the search invariant carries over from the queue before
     * the pop to the queue after the pushes.
     */
    method Visit(value: AABB, handle: int, best: int, bestCost: real, queue: seq<Entry>, ghost before: seq<Entry>)
      returns (best': int, bestCost': real, queue': seq<Entry>)
      requires shape.Some? && Linked(nodes, shape.value, Null) && Distinct(shape.value)
      requires handle in Handles(shape.value) && best in Handles(shape.value) && bestCost <= FloatMax
      requires BestSoFar(nodes, shape.value, value, best, bestCost) && InTree(shape.value, queue)
      requires Covered(shape.value, before) == Covered(shape.value, queue) + Below(shape.value, handle)
      ensures best' in Handles(shape.value) && bestCost' <= bestCost
      ensures BestSoFar(nodes, shape.value, value, best', bestCost') && InTree(shape.value, queue')
      ensures Weight(shape.value, queue') < Weight(shape.value, queue) + SizeBelow(shape.value, handle)
      ensures WellFormedVolumes(nodes, shape.value) && WellFormed(value) && Bounded(nodes, shape.value, value, bestCost, before) ==>
        Bounded(nodes, shape.value, value, bestCost', queue')
    {
      ghost var t := shape.value;
      SizePositive(Subtree(t, handle));
      SubtreeLinked(nodes, t, Null, handle);
      LinkedInRange(nodes, t, Null);
      var directCost := UnionArea(nodes[handle].volume, value);
      var inheritedCost := InheritedCost(nodes[handle].parent, value);
      VisitCosts(nodes, t, handle, value, inheritedCost);
      var cost := directCost + inheritedCost;
      best', bestCost', queue' := best, bestCost, queue;
      if cost < bestCost' {
        bestCost' := cost;
        best' := handle;
        BestIs(nodes, t, value, handle, cost);
      }
      ghost var pushed := false;
      if nodes[handle].left != Null {
        var lowerBoundCost := SurfaceArea(value) + DeltaSurfaceArea(nodes[handle].volume, value) + inheritedCost;
        if lowerBoundCost < bestCost' {
          QueuePush(nodes, t, queue', handle, lowerBoundCost);
          ChildrenOf(nodes, t, Null, handle);
          InTreePush(t, queue', Entry(lowerBoundCost, nodes[handle].left));
          queue' := queue' + [Entry(lowerBoundCost, nodes[handle].left)];
          InTreePush(t, queue', Entry(lowerBoundCost, nodes[handle].right));
          queue' := queue' + [Entry(lowerBoundCost, nodes[handle].right)];
          pushed := true;
        }
      }
      if WellFormedVolumes(nodes, t) && WellFormed(value) && Bounded(nodes, t, value, bestCost, before) {
        SearchStep(nodes, t, value, before, queue, queue', handle, bestCost, bestCost', pushed);
      }
    }

    /**
     * FindBestHandle: branch-and-bound search for the sibling of least
     * insertion cost. With well-formed boxes the handle found costs no more
     * than any node of the tree (below float.MaxValue).
     */
    method FindBestHandle(value: AABB) returns (bestHandle: int)
      requires shape.Some? && root == shape.value.h && Linked(nodes, shape.value, Null) && Distinct(shape.value)
      requires length == |Leaves(shape.value)|
      ensures bestHandle in Handles(shape.value)
      ensures length == 1 ==> bestHandle == root
      ensures WellFormedVolumes(nodes, shape.value) && WellFormed(value) ==>
        forall k :: k in Handles(shape.value) ==>
          InsertCost(nodes, shape.value, bestHandle, value) <= InsertCost(nodes, shape.value, k, value) ||
          FloatMax <= InsertCost(nodes, shape.value, k, value)
    {
      ghost var t := shape.value;
      LeavesInHandles(t);
      bestHandle := root;
      var bestCost := FloatMax;
      if length == 1 {
        OneLeaf(t);
        return;
      }
      var branches := [Entry(bestCost, bestHandle)];
      assert Covered(t, branches) == Handles(t) by {
        assert branches[..0] == [];
      }
      while |branches| > 0
        invariant bestHandle in Handles(t) && bestCost <= FloatMax
        invariant BestSoFar(nodes, t, value, bestHandle, bestCost)
        invariant InTree(t, branches)
        invariant WellFormedVolumes(nodes, t) && WellFormed(value) ==> Bounded(nodes, t, value, bestCost, branches)
        decreases Weight(t, branches)
      {
        var i := MinIndex(branches);
        var handle := branches[i].handle;
        QueuePop(t, branches, i);
        InTreePop(t, branches, i);
        ghost var before := branches;
        branches := branches[..i] + branches[i + 1..];
        bestHandle, bestCost, branches := Visit(value, handle, bestHandle, bestCost, branches, before);
      }
      if WellFormedVolumes(nodes, t) && WellFormed(value) {
        SearchDone(nodes, t, value, bestHandle, bestCost);
      }
    }

    /**
     * Add, stage 2: the new parent `q` takes `best`'s place (as the root when
     * `best` is the root), with `best` as its left and the new leaf `l` as its
     * right child; the links are written in the order the source writes them.
     */
    method Splice(best: int, l: int, q: int)
      requires shape.Some? && root == shape.value.h && Linked(nodes, shape.value, Null) && Distinct(shape.value)
      requires Enclosed(nodes, shape.value, [])
      requires best in Handles(shape.value) && l !in Handles(shape.value) && q !in Handles(shape.value) && l != q
      requires 0 <= l < |nodes| && 0 <= q < |nodes| && 0 <= best < |nodes|
      requires best != root ==> 0 <= nodes[best].parent < |nodes|
      modifies this
      ensures nodes == SplicedNodes(old(nodes), old(root), best, l, q)
      ensures 0 <= l < |nodes| && nodes[l].parent == q
      ensures shape == Some(Replace(old(shape.value), best, Grafted(old(shape.value), best, l, q)))
      ensures root == (if best == old(root) then q else old(root))
      ensures freeHandles == old(freeHandles) && length == old(length)
      ensures |nodes| == old(|nodes|) && Linked(nodes, shape.value, Null) && Distinct(shape.value) && root == shape.value.h
      ensures Handles(shape.value) == old(Handles(shape.value)) + {l} + {q} && Leaves(shape.value) == old(Leaves(shape.value)) + {l}
      ensures q in Handles(shape.value) && Enclosed(nodes, shape.value, PathTo(shape.value, q))
      ensures forall k :: 0 <= k < |nodes| ==> nodes[k].volume == old(nodes)[k].volume && nodes[k].value == old(nodes)[k].value
    {
      SpliceStep(nodes, shape.value, best, l, q);
      var n := nodes;
      if best == root {
        root := q;
        n := n[q := n[q].(parent := Null)];
      } else {
        var grandParentHandle := n[best].parent;
        if n[grandParentHandle].left == best {
          n := n[grandParentHandle := n[grandParentHandle].(left := q)];
        } else {
          n := n[grandParentHandle := n[grandParentHandle].(right := q)];
        }
        n := n[q := n[q].(parent := grandParentHandle)];
      }
      n := n[q := n[q].(left := best, right := l)];
      n := n[best := n[best].(parent := q)];
      n := n[l := n[l].(parent := q, left := Null, right := Null)];
      nodes := n;
      shape := Some(Replace(shape.value, best, Grafted(shape.value, best, l, q)));
    }

    /**
     * One step of Add's stage 3 at internal node `h`: refits its box to the
     * union of its children's and, when `rebalance` is set, offers it a
     * rotation; the walk goes on at the node's parent afterwards, which is
     * closer to the root.
     */
    method WalkStep(h: int, rebalance: bool, ghost target: int) returns (next: int)
      requires shape.Some? && root == shape.value.h && Linked(nodes, shape.value, Null) && Distinct(shape.value)
      requires h in Handles(shape.value) && 0 <= h < |nodes| && nodes[h].left != Null
      requires Enclosed(nodes, shape.value, PathTo(shape.value, h))
      requires h in PathTo(shape.value, target) && PathRefitted(nodes, shape.value, target, h)
      modifies this
      ensures shape.Some? && root == old(root) == shape.value.h && Linked(nodes, shape.value, Null) && Distinct(shape.value)
      ensures Handles(shape.value) == old(Handles(shape.value)) && Leaves(shape.value) == old(Leaves(shape.value))
      ensures next == Null || (next in Handles(shape.value) && 0 <= next < |nodes| && nodes[next].left != Null)
      ensures Enclosed(nodes, shape.value, PathTo(shape.value, next))
      ensures |PathTo(shape.value, next)| < old(|PathTo(shape.value, h)|)
      ensures |nodes| == old(|nodes|) && freeHandles == old(freeHandles) && length == old(length)
      ensures forall k :: 0 <= k < |nodes| && old(nodes)[k].left == Null ==>
        nodes[k].left == Null && nodes[k].volume == old(nodes)[k].volume && nodes[k].value == old(nodes)[k].value
      ensures Refitted(nodes, h)
      ensures (next == Null || next in PathTo(shape.value, target)) && PathRefitted(nodes, shape.value, target, next)
    {
      ghost var n0, t := nodes, shape.value;
      RefitStep(nodes, t, h);
      nodes := nodes[h := nodes[h].(volume := Union(nodes[nodes[h].left].volume, nodes[nodes[h].right].volume))];
      ghost var rotated := false;
      if rebalance {
        rotated := Rotate(h);
      }
      next := nodes[h].parent;
      WalkStepSound(n0, t, h, rotated, nodes, shape.value);
      WalkStepRefits(n0, t, h, rotated, nodes, shape.value, target);
    }

    /**
     * Add, stage 3: from internal node `start` up to the root, each node's box
     * becomes the union of its children's boxes and, when `rebalance` is set,
     * the node is offered a rotation. Afterwards every internal box encloses
     * its children again; the tree keeps its nodes and leaves, and leaves
     * keep their boxes and values.
     */
    method WalkUp(start: int, rebalance: bool, ghost target: int)
      requires shape.Some? && root == shape.value.h && Linked(nodes, shape.value, Null) && Distinct(shape.value)
      requires start in Handles(shape.value) && 0 <= start < |nodes| && nodes[start].left != Null
      requires Enclosed(nodes, shape.value, PathTo(shape.value, start))
      requires start in PathTo(shape.value, target) && PathRefitted(nodes, shape.value, target, start)
      requires FreeStack(nodes, freeHandles, Handles(shape.value))
      modifies this
      ensures shape.Some? && root == old(root) == shape.value.h && Linked(nodes, shape.value, Null) && Distinct(shape.value)
      ensures FreeStack(nodes, freeHandles, Handles(shape.value))
      ensures Handles(shape.value) == old(Handles(shape.value)) && Leaves(shape.value) == old(Leaves(shape.value))
      ensures Enclosed(nodes, shape.value, [])
      ensures |nodes| == old(|nodes|) && freeHandles == old(freeHandles) && length == old(length)
      ensures forall k :: 0 <= k < |nodes| && old(nodes)[k].left == Null ==>
        nodes[k].left == Null && nodes[k].volume == old(nodes)[k].volume && nodes[k].value == old(nodes)[k].value
      ensures forall k :: k in PathTo(shape.value, target) ==> Refitted(nodes, k)
    {
      var h := start;
      while h != Null
        invariant shape.Some? && root == shape.value.h && Linked(nodes, shape.value, Null) && Distinct(shape.value)
        invariant Handles(shape.value) == old(Handles(shape.value)) && Leaves(shape.value) == old(Leaves(shape.value))
        invariant h == Null || (h in Handles(shape.value) && 0 <= h < |nodes| && nodes[h].left != Null)
        invariant Enclosed(nodes, shape.value, PathTo(shape.value, h))
        invariant |nodes| == old(|nodes|) && freeHandles == old(freeHandles) && length == old(length) && root == old(root)
        invariant forall k :: 0 <= k < |nodes| && old(nodes)[k].left == Null ==>
          nodes[k].left == Null && nodes[k].volume == old(nodes)[k].volume && nodes[k].value == old(nodes)[k].value
        invariant (h == Null || h in PathTo(shape.value, target)) && PathRefitted(nodes, shape.value, target, h)
        decreases |PathTo(shape.value, h)|
      {
        h := WalkStep(h, rebalance, target);
      }
      LinkedInRange(nodes, shape.value, Null);
      PathToAbsent(shape.value, Null);
      FreeStackFrame(old(nodes), nodes, freeHandles, old(Handles(shape.value)), Handles(shape.value));
    }

    /**
     * Add, stage 1b: allocates the new leaf, then the new parent (with a zero
     * box). Both slots are outside the tree, which keeps its links and boxes.
     */
    method AllocatePair(volume: AABB, value: int) returns (handle: int, q: int)
      requires Valid() && shape.Some?
      modifies this
      ensures shape == old(shape) && root == old(root) && length == old(length)
      ensures Linked(nodes, shape.value, Null) && Enclosed(nodes, shape.value, [])
      ensures handle !in Handles(shape.value) && q !in Handles(shape.value) && handle != q
      ensures 0 <= handle < |nodes| && 0 <= q < |nodes| && |old(nodes)| <= |nodes|
      ensures FreeStack(nodes, freeHandles, Handles(shape.value) + {handle} + {q})
      ensures nodes[handle] == Node(volume, value, 0, 0, 0) && nodes[q] == Node(Zero, 0, 0, 0, 0)
      ensures forall k :: k in Handles(shape.value) ==> 0 <= k < |old(nodes)| && nodes[k] == old(nodes)[k]
    {
      ghost var t := shape.value;
      LinkedInRange(nodes, t, Null);
      ghost var n0, f0 := nodes, freeHandles;
      handle := Allocate(volume, value);
      AllocateFree(n0, f0, Handles(t), nodes, freeHandles, handle);
      KeepTree(n0, nodes, t);
      ghost var n1, f1 := nodes, freeHandles;
      q := Allocate(Zero, 0);
      AllocateFree(n1, f1, Handles(t) + {handle}, nodes, freeHandles, q);
      KeepTree(n1, nodes, t);
    }

    /**
     * Add, stages 1b and 2: allocates the new leaf and the new parent and
     * splices them in next to `best`. The tree gains exactly those two nodes,
     * the leaf as its one new element, and only the path from the new parent
     * to the root may hold stale boxes.
     */
    method Graft(volume: AABB, value: int, best: int) returns (handle: int, q: int)
      requires Valid() && shape.Some? && best in Handles(shape.value)
      modifies this
      ensures shape.Some? && root == shape.value.h && Linked(nodes, shape.value, Null) && Distinct(shape.value)
      ensures handle !in old(Handles(shape.value)) && q !in old(Handles(shape.value)) && handle != q
      ensures Handles(shape.value) == old(Handles(shape.value)) + {handle} + {q}
      ensures Leaves(shape.value) == old(Leaves(shape.value)) + {handle}
      ensures FreeStack(nodes, freeHandles, Handles(shape.value)) && length == old(length)
      ensures q in Handles(shape.value) && 0 <= q < |nodes| && nodes[q].left != Null
      ensures Enclosed(nodes, shape.value, PathTo(shape.value, q))
      ensures 0 <= handle < |nodes| && nodes[handle].left == Null && nodes[handle].volume == volume && nodes[handle].value == value
      ensures forall k :: k in old(Leaves(shape.value)) ==>
        0 <= k < |old(nodes)| <= |nodes| && nodes[k].left == Null &&
        nodes[k].volume == old(nodes)[k].volume && nodes[k].value == old(nodes)[k].value
      ensures ParentOf(nodes, handle) == q
    {
      ghost var t := shape.value;
      ghost var n0 := nodes;
      LeavesInHandles(t);
      handle, q := AllocatePair(volume, value);
      SubtreeLinked(nodes, t, Null, best);
      LinkedInRange(nodes, t, Null);
      Splice(best, handle, q);
      LeafIff(nodes, shape.value, Null, q);
      LeafIff(nodes, shape.value, Null, handle);
      forall k | k in Leaves(t)
        ensures 0 <= k < |n0| <= |nodes| && nodes[k].left == Null && nodes[k].volume == n0[k].volume && nodes[k].value == n0[k].value
      {
        LeafIff(nodes, shape.value, Null, k);
      }
    }

    /**
     * Add, stages 1b to 3 once the sibling `best` is chosen: splices in the
     * new leaf and its new parent `q`, then walks up from `q` refitting.
     * Every internal box encloses its children again.
     */
    method Grow(volume: AABB, value: int, best: int, rebalance: bool) returns (handle: int, q: int)
      requires Valid() && shape.Some? && best in Handles(shape.value)
      modifies this
      ensures shape.Some? && root == shape.value.h && Linked(nodes, shape.value, Null) && Distinct(shape.value)
      ensures FreeStack(nodes, freeHandles, Handles(shape.value)) && Enclosed(nodes, shape.value, []) && length == old(length)
      ensures handle !in old(Handles(shape.value)) && q !in old(Handles(shape.value)) && handle != q
      ensures Handles(shape.value) == old(Handles(shape.value)) + {handle} + {q}
      ensures Leaves(shape.value) == old(Leaves(shape.value)) + {handle}
      ensures 0 <= handle < |nodes| && nodes[handle].volume == volume && nodes[handle].value == value
      ensures forall k :: k in old(Leaves(shape.value)) ==>
        0 <= k < |old(nodes)| <= |nodes| && nodes[k].volume == old(nodes)[k].volume && nodes[k].value == old(nodes)[k].value
      ensures forall k :: k in PathTo(shape.value, handle) ==> Refitted(nodes, k)
    {
      handle, q := Graft(volume, value, best);
      NewLeafPath(nodes, shape.value, handle, q);
      WalkUp(q, rebalance, handle);
    }

    /** Add on a non-empty tree once the sibling `best` is chosen: the tree holds one element more. */
    method Place(volume: AABB, value: int, best: int, rebalance: bool) returns (handle: int, ghost q: int)
      requires Valid() && shape.Some? && best in Handles(shape.value)
      modifies this
      ensures Valid() && shape.Some? && length == old(length) + 1
      ensures handle !in old(Handles(shape.value)) && q !in old(Handles(shape.value)) && handle != q
      ensures Handles(shape.value) == old(Handles(shape.value)) + {handle} + {q}
      ensures Leaves(shape.value) == old(Leaves(shape.value)) + {handle}
      ensures 0 <= handle < |nodes| && nodes[handle].volume == volume && nodes[handle].value == value
      ensures forall k :: k in old(Leaves(shape.value)) ==>
        0 <= k < |old(nodes)| <= |nodes| && nodes[k].volume == old(nodes)[k].volume && nodes[k].value == old(nodes)[k].value
      ensures forall k :: k in PathTo(shape.value, handle) ==> Refitted(nodes, k)
    {
      ghost var t := shape.value;
      LeavesInHandles(t);
      handle, q := Grow(volume, value, best, rebalance);
      AddCount(Leaves(t), handle);
      CountAdded();
    }

    /** Add, the last step: the tree counts one element more and nothing else changes. */
    method CountAdded()
      modifies this
      ensures length == old(length) + 1
      ensures nodes == old(nodes) && freeHandles == old(freeHandles) && root == old(root) && shape == old(shape)
    {
      length := length + 1;
    }

    /** Add on a non-empty tree: stage 1 chooses the sibling, then the leaf is placed next to it. */
    method Insert(volume: AABB, value: int, rebalance: bool) returns (handle: int)
      requires Valid() && shape.Some?
      modifies this
      ensures Valid() && shape.Some?
      ensures length == old(length) + 1
      ensures handle !in old(Live()) && Elements() == old(Elements()) + {handle}
      ensures old(Live()) + {handle} <= Live() && |Live()| == |old(Live())| + 2
      ensures 0 <= handle < |nodes| && nodes[handle].volume == volume && nodes[handle].value == value
      ensures forall k :: k in old(Elements()) ==>
        0 <= k < |old(nodes)| <= |nodes| && nodes[k].volume == old(nodes)[k].volume && nodes[k].value == old(nodes)[k].value
      ensures forall k :: k in PathTo(shape.value, handle) ==> Refitted(nodes, k)
    {
      ghost var t := shape.value;
      LeavesInHandles(t);
      var bestHandle := FindBestHandle(volume);
      ghost var q;
      handle, q := Place(volume, value, bestHandle, rebalance);
      GrowBy(Handles(t), Leaves(t), Handles(shape.value), Leaves(shape.value), Handles(shape.value), Leaves(shape.value), handle, q);
    }

    /**
     * RemoveAt, the link surgery: the sibling of leaf `handle` takes the
     * parent's place, in the grandparent's slot or as the root.
     */
    method Detach(handle: int) returns (parentHandle: int)
      requires shape.Some? && root == shape.value.h && Linked(nodes, shape.value, Null) && Distinct(shape.value)
      requires Enclosed(nodes, shape.value, [])
      requires handle in Leaves(shape.value) && handle != root
      modifies this
      ensures |nodes| == old(|nodes|) && 0 <= handle < |nodes| && 0 <= parentHandle < |nodes| && parentHandle == old(nodes)[handle].parent
      ensures Sibling(old(nodes), handle) in old(Handles(shape.value))
      ensures nodes == RemovedNodes(old(nodes), old(root), handle)
      ensures shape == Some(Replace(old(shape.value), parentHandle, Subtree(old(shape.value), Sibling(old(nodes), handle))))
      ensures freeHandles == old(freeHandles) && length == old(length)
      ensures Linked(nodes, shape.value, Null) && Distinct(shape.value) && root == shape.value.h
      ensures handle in old(Handles(shape.value)) && parentHandle in old(Handles(shape.value)) && handle != parentHandle
      ensures Handles(shape.value) == old(Handles(shape.value)) - {handle} - {parentHandle}
      ensures Leaves(shape.value) == old(Leaves(shape.value)) - {handle}
      ensures Enclosed(nodes, shape.value, [])
      ensures forall k :: 0 <= k < |nodes| ==> nodes[k].volume == old(nodes)[k].volume && nodes[k].value == old(nodes)[k].value
    {
      RemoveStep(nodes, shape.value, handle);
      var n := nodes;
      parentHandle := n[handle].parent;
      var siblingHandle := if n[parentHandle].left == handle then n[parentHandle].right else n[parentHandle].left;
      if parentHandle == root {
        root := siblingHandle;
        n := n[siblingHandle := n[siblingHandle].(parent := Null)];
      } else {
        var grandParentHandle := n[parentHandle].parent;
        if n[grandParentHandle].left == parentHandle {
          n := n[grandParentHandle := n[grandParentHandle].(left := siblingHandle)];
        } else {
          n := n[grandParentHandle := n[grandParentHandle].(right := siblingHandle)];
        }
        n := n[siblingHandle := n[siblingHandle].(parent := grandParentHandle)];
      }
      shape := Some(Replace(shape.value, parentHandle, Subtree(shape.value, Sibling(nodes, handle))));
      nodes := n;
    }

    /** RemoveAt's last steps: frees the leaf, then its parent, and counts one element less. */
    method Release(handle: int, parentHandle: int, ghost live: set<int>)
      requires FreeStack(nodes, freeHandles, live) && handle in live && parentHandle in live && handle != parentHandle
      requires 0 <= handle < |nodes| && 0 <= parentHandle < |nodes|
      modifies this
      ensures freeHandles == old(freeHandles) + [handle] + [parentHandle] && length == old(length) - 1
      ensures FreeStack(nodes, freeHandles, live - {handle} - {parentHandle})
      ensures nodes == old(nodes) && root == old(root) && shape == old(shape)
    {
      ReleaseFree(nodes, freeHandles, live, handle);
      ReleaseFree(nodes, freeHandles + [handle], live - {handle}, parentHandle);
      Free(handle);
      Free(parentHandle);
      length := length - 1;
    }

    /**
     * RemoveAt of a leaf that is not the root: the sibling takes the parent's
     * place, then the leaf and its parent go on the free stack, in that order.
     */
    method Unsplice(handle: int)
      requires Valid() && shape.Some? && handle in Leaves(shape.value) && handle != root
      modifies this
      ensures Valid() && shape.Some? && length == old(length) - 1
      ensures 0 <= handle < old(|nodes|)
      ensures nodes == RemovedNodes(old(nodes), old(root), handle)
      ensures freeHandles == old(freeHandles) + [handle] + [old(nodes)[handle].parent]
      ensures Live() == old(Live()) - {handle} - {old(nodes)[handle].parent}
      ensures Elements() == old(Elements()) - {handle}
      ensures |nodes| == old(|nodes|) &&
        forall k :: 0 <= k < |nodes| ==> nodes[k].volume == old(nodes)[k].volume && nodes[k].value == old(nodes)[k].value
    {
      ghost var t := shape.value;
      ghost var n0 := nodes;
      var parentHandle := Detach(handle);
      FreeStackFrame(n0, nodes, freeHandles, Handles(t), Handles(t));
      Release(handle, parentHandle, Handles(t));
      RemoveCount(Leaves(t), handle);
    }

    /**
     * RemoveAt: removes the element at leaf `handle`. Removing the root leaf
     * empties the tree; otherwise the sibling takes the parent's place and
     * the leaf and its parent are freed. No box is recomputed: the boxes
     * above still enclose, just not tightly.
     */
    method RemoveAt(handle: int)
      requires Valid() && handle in Elements()
      modifies this
      ensures Valid() && length == old(length) - 1
      ensures Elements() == old(Elements()) - {handle}
      ensures handle == old(root) ==>
        shape == None && root == Null && nodes == old(nodes) && freeHandles == old(freeHandles) + [handle]
      ensures handle != old(root) ==>
        0 <= handle < old(|nodes|) &&
        nodes == RemovedNodes(old(nodes), old(root), handle) &&
        freeHandles == old(freeHandles) + [handle] + [old(nodes)[handle].parent] &&
        Live() == old(Live()) - {handle} - {old(nodes)[handle].parent}
      ensures |nodes| == old(|nodes|) &&
        forall k :: 0 <= k < |nodes| ==> nodes[k].volume == old(nodes)[k].volume && nodes[k].value == old(nodes)[k].value
    {
      if handle == root {
        ghost var t := shape.value;
        RootLeaf(t);
        ReleaseFree(nodes, freeHandles, Handles(t), handle);
        root := Null;
        length := 0;
        Free(handle);
        shape := None;
        assert Handles(t) - {handle} == {};
        return;
      }
      Unsplice(handle);
    }

    /**
     * Add: stores `volume` and `value` in a new leaf and returns its handle.
     * An empty tree gets the leaf as its root. Otherwise the leaf is spliced
     * in next to the cheapest sibling under a new parent, and every node from
     * the new parent up to the root is refitted (and, when `rebalance` is set,
     * rotated). The tree stays valid, gains exactly the new leaf as an element
     * and one more internal node, and no stored element changes.
     */
    method Add(volume: AABB, value: int, rebalance: bool) returns (handle: int)
      requires Valid()
      modifies this
      ensures Valid() && shape.Some?
      ensures length == old(length) + 1
      ensures handle !in old(Live()) && Elements() == old(Elements()) + {handle}
      ensures old(Live()) + {handle} <= Live() && |Live()| == |old(Live())| + (if old(shape).None? then 1 else 2)
      ensures 0 <= handle < |nodes| && nodes[handle].volume == volume && nodes[handle].value == value
      ensures old(shape).None? ==> shape == Some(Leaf(handle)) && root == handle
      ensures forall k :: k in old(Elements()) ==>
        0 <= k < |old(nodes)| <= |nodes| && nodes[k].volume == old(nodes)[k].volume && nodes[k].value == old(nodes)[k].value
      ensures forall k :: k in PathTo(shape.value, handle) ==> Refitted(nodes, k)
    {
      if root == Null {
        ghost var n0, f0 := nodes, freeHandles;
        handle := Allocate(volume, value);
        AllocateFree(n0, f0, {}, nodes, freeHandles, handle);
        ghost var n1 := nodes;
        root := handle;
        length := 1;
        nodes := nodes[handle := nodes[handle].(parent := Null, left := Null, right := Null)];
        shape := Some(Leaf(handle));
        FreeStackFrame(n1, nodes, freeHandles, {} + {handle}, Live());
        assert Enclosed(nodes, Leaf(handle), []) by {
          assert EnclosesChildren(nodes, handle);
        }
        return;
      }
      handle := Insert(volume, value, rebalance);
    }
  }
}

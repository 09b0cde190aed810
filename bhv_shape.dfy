// The node arena of the bounding-volume tree and the abstract binary tree that
// its parent/child handles describe. The abstract tree (`Shape`) exists only in
// the proofs: the tree class keeps one as a ghost field and its validity
// predicate ties it to the handles stored in the arena.
module BHVShape {
  import opened Volumes

  /** The handle value that marks "no node" (Node.Null). */
  const Null: int := -1

  /** One arena slot (UnsafeBHVTree.Node); `value` is the `int` payload the agent index stores. */
  datatype Node = Node(volume: AABB, value: int, parent: int, left: int, right: int)
  {
    /** A node is a leaf when it has no left child (Node.IsLeaf). */
    predicate IsLeaf() { left == Null }
  }

  /** The abstract tree: every node is named by its arena handle. */
  datatype Shape = Leaf(h: int) | Branch(h: int, l: Shape, r: Shape)

  ghost function Handles(t: Shape): set<int>
  {
    match t
    case Leaf(h) => {h}
    case Branch(h, l, r) => {h} + Handles(l) + Handles(r)
  }

  ghost function Leaves(t: Shape): set<int>
  {
    match t
    case Leaf(h) => {h}
    case Branch(_, l, r) => Leaves(l) + Leaves(r)
  }

  ghost function Size(t: Shape): nat
  {
    match t
    case Leaf(_) => 1
    case Branch(_, l, r) => 1 + Size(l) + Size(r)
  }

  /** No handle names two nodes of the tree. */
  ghost predicate Distinct(t: Shape)
  {
    match t
    case Leaf(_) => true
    case Branch(h, l, r) =>
      h !in Handles(l) && h !in Handles(r) && Handles(l) !! Handles(r) && Distinct(l) && Distinct(r)
  }

  /** The arena stores `t` below parent handle `p`: parent and child handles agree with the tree. */
  ghost predicate Linked(nodes: seq<Node>, t: Shape, p: int)
  {
    0 <= t.h < |nodes| && nodes[t.h].parent == p &&
    match t
    case Leaf(h) => nodes[h].left == Null && nodes[h].right == Null
    case Branch(h, l, r) =>
      nodes[h].left == l.h && nodes[h].right == r.h && Linked(nodes, l, h) && Linked(nodes, r, h)
  }

  /** The subtree rooted at handle `k`. */
  ghost function Subtree(t: Shape, k: int): Shape
    requires k in Handles(t)
  {
    if t.h == k then t
    else match t
      case Leaf(_) => t
      case Branch(_, l, r) => if k in Handles(l) then Subtree(l, k) else Subtree(r, k)
  }

  /** `t` with the subtree rooted at `k` replaced by `s`. */
  ghost function Replace(t: Shape, k: int, s: Shape): Shape
  {
    if t.h == k then s
    else match t
      case Leaf(_) => t
      case Branch(h, l, r) => Branch(h, Replace(l, k, s), Replace(r, k, s))
  }

  /** The handles from the root down to `k`, or `[]` when `k` is not in the tree. */
  ghost function PathTo(t: Shape, k: int): seq<int>
  {
    if t.h == k then [k]
    else match t
      case Leaf(_) => []
      case Branch(h, l, r) =>
        if k in Handles(l) then [h] + PathTo(l, k)
        else if k in Handles(r) then [h] + PathTo(r, k)
        else []
  }

  /** Number of edges on the longest root-to-leaf path. */
  ghost function Height(t: Shape): nat
  {
    match t
    case Leaf(_) => 0
    case Branch(_, l, r) => 1 + (if Height(l) >= Height(r) then Height(l) else Height(r))
  }

  /** The parent handle stored at `k`, or Null outside the arena. */
  ghost function ParentOf(nodes: seq<Node>, k: int): int
  {
    if 0 <= k < |nodes| then nodes[k].parent else Null
  }

  ghost predicate SameLinks(a: Node, b: Node)
  {
    a.parent == b.parent && a.left == b.left && a.right == b.right
  }

  /** The links of every node in `hs` are the same in both arenas. */
  ghost predicate Unchanged(nodes: seq<Node>, nodes': seq<Node>, hs: set<int>)
  {
    forall h :: h in hs ==> 0 <= h < |nodes| && h < |nodes'| && SameLinks(nodes[h], nodes'[h])
  }

  /** `b` is `a` with its child `k` replaced by `c`, the parent kept. */
  ghost predicate SlotReplaced(a: Node, b: Node, k: int, c: int)
  {
    a.parent == b.parent &&
    if a.left == k then b.left == c && b.right == a.right else b.left == a.left && b.right == c
  }

  // ---------------------------------------------------------------------------
  // Volumes stated node by node.

  /** An internal node's volume encloses the volumes of both of its children. */
  ghost predicate EnclosesChildren(nodes: seq<Node>, h: int)
  {
    0 <= h < |nodes| &&
    (nodes[h].left == Null ||
     (0 <= nodes[h].left < |nodes| && 0 <= nodes[h].right < |nodes| &&
      Encloses(nodes[h].volume, nodes[nodes[h].left].volume) &&
      Encloses(nodes[h].volume, nodes[nodes[h].right].volume)))
  }

  /** An internal node's volume is exactly the union of its children's volumes. */
  ghost predicate Refitted(nodes: seq<Node>, h: int)
  {
    0 <= h < |nodes| &&
    (nodes[h].left == Null ||
     (0 <= nodes[h].left < |nodes| && 0 <= nodes[h].right < |nodes| &&
      nodes[h].volume == Union(nodes[nodes[h].left].volume, nodes[nodes[h].right].volume)))
  }

  lemma RefittedEncloses(nodes: seq<Node>, h: int)
    requires Refitted(nodes, h)
    ensures EnclosesChildren(nodes, h)
  {
  }

  // ---------------------------------------------------------------------------
  // Facts about the abstract tree alone.

  lemma {:induction false} LeavesInHandles(t: Shape)
    ensures Leaves(t) <= Handles(t) && t.h in Handles(t)
  {
    match t
    case Leaf(_) =>
    case Branch(_, l, r) => LeavesInHandles(l); LeavesInHandles(r);
  }

  lemma {:induction false} SizeIsHandleCount(t: Shape)
    requires Distinct(t)
    ensures Size(t) == |Handles(t)|
  {
    match t
    case Leaf(_) =>
    case Branch(h, l, r) =>
      SizeIsHandleCount(l); SizeIsHandleCount(r);
      assert Handles(t) == {h} + (Handles(l) + Handles(r));
  }

  /** A tree in which every internal node has two children has one node fewer than twice its leaves. */
  lemma {:induction false} NodeCount(t: Shape)
    requires Distinct(t)
    ensures |Handles(t)| == 2 * |Leaves(t)| - 1
  {
    match t
    case Leaf(_) =>
    case Branch(h, l, r) =>
      NodeCount(l); NodeCount(r);
      LeavesInHandles(l); LeavesInHandles(r);
      assert Leaves(l) !! Leaves(r);
      assert Handles(t) == {h} + (Handles(l) + Handles(r));
  }

  /** The longest root-to-leaf path has fewer edges than the tree has leaves. */
  lemma {:induction false} HeightBound(t: Shape)
    requires Distinct(t)
    ensures Height(t) < |Leaves(t)|
  {
    match t
    case Leaf(_) =>
    case Branch(h, l, r) =>
      HeightBound(l); HeightBound(r);
      LeavesInHandles(l); LeavesInHandles(r);
      assert Leaves(l) !! Leaves(r);
      assert |Leaves(t)| == |Leaves(l)| + |Leaves(r)|;
  }

  lemma {:induction false} ReplaceAbsent(t: Shape, k: int, s: Shape)
    requires k !in Handles(t)
    ensures Replace(t, k, s) == t
  {
    LeavesInHandles(t);
    match t
    case Leaf(_) =>
    case Branch(h, l, r) => ReplaceAbsent(l, k, s); ReplaceAbsent(r, k, s);
  }

  lemma {:induction false} SubtreeShape(t: Shape, k: int)
    requires Distinct(t) && k in Handles(t)
    ensures Subtree(t, k).h == k && Distinct(Subtree(t, k))
    ensures Handles(Subtree(t, k)) <= Handles(t) && Leaves(Subtree(t, k)) <= Leaves(t)
  {
    if t.h != k {
      match t
      case Branch(_, l, r) => if k in Handles(l) { SubtreeShape(l, k); } else { SubtreeShape(r, k); }
    }
  }

  /** Replacing a subtree by itself changes nothing. */
  lemma {:induction false} ReplaceSelf(t: Shape, k: int)
    requires Distinct(t) && k in Handles(t)
    ensures Replace(t, k, Subtree(t, k)) == t
  {
    if t.h != k {
      match t
      case Branch(h, l, r) =>
        if k in Handles(l) {
          ReplaceSelf(l, k); ReplaceAbsent(r, k, Subtree(t, k));
        } else {
          ReplaceSelf(r, k); ReplaceAbsent(l, k, Subtree(t, k));
        }
    }
  }

  lemma {:induction false} PathToAbsent(t: Shape, k: int)
    requires k !in Handles(t)
    ensures PathTo(t, k) == []
  {
    LeavesInHandles(t);
  }

  /** The path to a node of the tree starts at the root and ends at the node. */
  lemma {:induction false} PathToEnds(t: Shape, k: int)
    requires k in Handles(t)
    ensures |PathTo(t, k)| >= 1 && PathTo(t, k)[0] == t.h && PathTo(t, k)[|PathTo(t, k)| - 1] == k
  {
    if t.h != k {
      match t
      case Branch(h, l, r) =>
        if k in Handles(l) { PathToEnds(l, k); } else { PathToEnds(r, k); }
    }
  }

  /** The path to a node of the tree starts at the root, ends at the node and stays in the tree. */
  lemma {:induction false} PathToShape(t: Shape, k: int)
    requires Distinct(t) && k in Handles(t)
    ensures |PathTo(t, k)| >= 1 && PathTo(t, k)[0] == t.h && PathTo(t, k)[|PathTo(t, k)| - 1] == k
    ensures forall i :: 0 <= i < |PathTo(t, k)| ==> PathTo(t, k)[i] in Handles(t)
    ensures forall i, j :: 0 <= i < j < |PathTo(t, k)| ==> PathTo(t, k)[i] != PathTo(t, k)[j]
    ensures forall i :: 0 <= i < |PathTo(t, k)| - 1 ==> PathTo(t, k)[i] !in Leaves(t)
  {
    LeavesInHandles(t);
    if t.h != k {
      match t
      case Branch(h, l, r) =>
        LeavesInHandles(l); LeavesInHandles(r);
        var c, o := if k in Handles(l) then l else r, if k in Handles(l) then r else l;
        PathToShape(c, k);
        var pc := PathTo(c, k);
        assert PathTo(t, k) == [h] + pc;
        assert Leaves(t) == Leaves(c) + Leaves(o);
        forall i | 0 <= i < |pc| - 1 ensures pc[i] !in Leaves(t) {
          assert pc[i] in Handles(c);
        }
    }
  }

  /** Replacing the subtree at `k` keeps the path above `k` and continues it inside the new subtree. */
  lemma {:induction false} PathToReplace(t: Shape, k: int, s: Shape, j: int)
    requires Distinct(t) && k in Handles(t) && j in Handles(s) && Distinct(s)
    requires Handles(s) !! (Handles(t) - Handles(Subtree(t, k)))
    ensures |PathTo(t, k)| >= 1
    ensures PathTo(Replace(t, k, s), j) == PathTo(t, k)[..|PathTo(t, k)| - 1] + PathTo(s, j)
  {
    PathToEnds(t, k);
    if t.h != k {
      match t
      case Branch(h, l, r) =>
        var c, o := if k in Handles(l) then l else r, if k in Handles(l) then r else l;
        SubtreeShape(c, k);
        assert Subtree(t, k) == Subtree(c, k);
        PathToReplace(c, k, s, j);
        ReplaceAbsent(o, k, s);
        ReplaceHandleSet(c, k, s);
        var pc := PathTo(c, k);
        assert PathTo(t, k) == [h] + pc;
        ConsDropLast(h, pc, PathTo(s, j));
        assert j !in Handles(o) && j != h;
    }
  }

  lemma ConsDropLast(h: int, pc: seq<int>, q: seq<int>)
    requires |pc| >= 1
    ensures [h] + (pc[..|pc| - 1] + q) == ([h] + pc)[..|[h] + pc| - 1] + q
  {
    assert ([h] + pc)[..|pc|] == [h] + pc[..|pc| - 1];
  }

  /** Dropping the last element `g` of a path and then continuing from `g`. */
  lemma DropLast(pt: seq<int>, g: int, q: seq<int>)
    requires |pt| >= 1 && pt[|pt| - 1] == g
    ensures pt[..|pt| - 1] + [g] == pt && pt[..|pt| - 1] + ([g] + q) == pt + q
  {
    assert pt[..|pt| - 1] + [g] == pt;
  }

  lemma ReplaceHandles(t: Shape, k: int, s: Shape)
    requires Distinct(t) && k in Handles(t)
    ensures Handles(Replace(t, k, s)) == Handles(t) - Handles(Subtree(t, k)) + Handles(s)
    ensures Leaves(Replace(t, k, s)) == Leaves(t) - Leaves(Subtree(t, k)) + Leaves(s)
    ensures Replace(t, k, s).h == (if t.h == k then s.h else t.h)
  {
    ReplaceHandleSet(t, k, s);
    ReplaceLeafSet(t, k, s);
  }

  lemma {:induction false} ReplaceHandleSet(t: Shape, k: int, s: Shape)
    requires Distinct(t) && k in Handles(t)
    ensures Handles(Replace(t, k, s)) == Handles(t) - Handles(Subtree(t, k)) + Handles(s)
  {
    if t.h != k {
      match t
      case Branch(h, l, r) =>
        var c, o := if k in Handles(l) then l else r, if k in Handles(l) then r else l;
        ReplaceHandleSet(c, k, s); ReplaceAbsent(o, k, s);
        SubtreeShape(c, k);
        assert Subtree(t, k) == Subtree(c, k);
        SetSwap({h}, Handles(c), Handles(o), Handles(Subtree(c, k)), Handles(s));
    }
  }

  lemma {:induction false} ReplaceLeafSet(t: Shape, k: int, s: Shape)
    requires Distinct(t) && k in Handles(t)
    ensures Leaves(Replace(t, k, s)) == Leaves(t) - Leaves(Subtree(t, k)) + Leaves(s)
  {
    if t.h != k {
      match t
      case Branch(h, l, r) =>
        LeavesInHandles(l); LeavesInHandles(r);
        var c, o := if k in Handles(l) then l else r, if k in Handles(l) then r else l;
        ReplaceLeafSet(c, k, s); ReplaceAbsent(o, k, s);
        SubtreeShape(c, k);
        assert Subtree(t, k) == Subtree(c, k);
        SetSwap({}, Leaves(c), Leaves(o), Leaves(Subtree(c, k)), Leaves(s));
    }
  }

  /** Swapping a part `sub` of `a` for `ns` inside a union of disjoint pieces. */
  lemma SetSwap(h: set<int>, a: set<int>, o: set<int>, sub: set<int>, ns: set<int>)
    requires sub <= a && sub !! o && sub !! h
    ensures h + (a - sub + ns) + o == h + a + o - sub + ns
    ensures h + o + (a - sub + ns) == h + o + a - sub + ns
  {
  }

  // ---------------------------------------------------------------------------
  // Facts linking the abstract tree to the arena.

  lemma {:induction false} LinkedInRange(nodes: seq<Node>, t: Shape, p: int)
    requires Linked(nodes, t, p)
    ensures forall h :: h in Handles(t) ==> 0 <= h < |nodes|
  {
    match t
    case Leaf(_) =>
    case Branch(h, l, r) => LinkedInRange(nodes, l, h); LinkedInRange(nodes, r, h);
  }

  /** Inside a linked tree a handle names a leaf exactly when its node has no left child. */
  lemma {:induction false} LeafIff(nodes: seq<Node>, t: Shape, p: int, k: int)
    requires Linked(nodes, t, p) && Distinct(t) && k in Handles(t)
    ensures 0 <= k < |nodes| && (k in Leaves(t) <==> nodes[k].left == Null)
  {
    LeavesInHandles(t);
    match t
    case Leaf(_) =>
    case Branch(h, l, r) =>
      LinkedInRange(nodes, l, h); LinkedInRange(nodes, r, h);
      LeavesInHandles(l); LeavesInHandles(r);
      if k in Handles(l) { LeafIff(nodes, l, h, k); }
      else if k in Handles(r) { LeafIff(nodes, r, h, k); }
  }

  /** The subtree at a handle is linked below that node's stored parent, which is its parent in the tree. */
  lemma {:induction false} SubtreeLinked(nodes: seq<Node>, t: Shape, p: int, k: int)
    requires Linked(nodes, t, p) && Distinct(t) && k in Handles(t)
    ensures Subtree(t, k).h == k && Linked(nodes, Subtree(t, k), ParentOf(nodes, k))
    ensures k == t.h ==> ParentOf(nodes, k) == p
    ensures k != t.h ==>
      var q := ParentOf(nodes, k);
      q in Handles(t) && q !in Handles(Subtree(t, k)) && Subtree(t, q).Branch? &&
      (Subtree(t, q).l == Subtree(t, k) || Subtree(t, q).r == Subtree(t, k))
  {
    SubtreeShape(t, k);
    if t.h != k {
      match t
      case Branch(h, l, r) =>
        var c := if k in Handles(l) then l else r;
        SubtreeLinked(nodes, c, h, k);
        SubtreeShape(c, k);
        if c.h == k {
          assert Subtree(t, h) == t;
        } else {
          var q := ParentOf(nodes, k);
          assert Subtree(t, q) == Subtree(c, q);
        }
    }
  }

  /** The child handles of an internal node name its children, whose parent handle points back. */
  lemma ChildrenOf(nodes: seq<Node>, t: Shape, p: int, k: int)
    requires Linked(nodes, t, p) && Distinct(t) && k in Handles(t) && 0 <= k < |nodes| && nodes[k].left != Null
    ensures 0 <= k < |nodes| && Subtree(t, k).Branch?
    ensures nodes[k].left in Handles(t) && nodes[k].right in Handles(t)
    ensures nodes[k].left != nodes[k].right && k != nodes[k].left && k != nodes[k].right
    ensures ParentOf(nodes, nodes[k].left) == k && ParentOf(nodes, nodes[k].right) == k
    ensures Subtree(t, nodes[k].left) == Subtree(t, k).l && Subtree(t, nodes[k].right) == Subtree(t, k).r
  {
    SubtreeLinked(nodes, t, p, k);
    SubtreeShape(t, k);
    var s := Subtree(t, k);
    assert s.Branch?;
    LeavesInHandles(s.l); LeavesInHandles(s.r);
    SubtreeOfChild(t, k);
  }

  lemma {:induction false} SubtreeOfChild(t: Shape, k: int)
    requires Distinct(t) && k in Handles(t) && Subtree(t, k).Branch?
    ensures Subtree(t, k).l.h in Handles(t) && Subtree(t, Subtree(t, k).l.h) == Subtree(t, k).l
    ensures Subtree(t, k).r.h in Handles(t) && Subtree(t, Subtree(t, k).r.h) == Subtree(t, k).r
  {
    SubtreeShape(t, k);
    if t.h == k {
      match t
      case Branch(h, l, r) => LeavesInHandles(l); LeavesInHandles(r);
    } else {
      match t
      case Branch(h, l, r) =>
        LeavesInHandles(l); LeavesInHandles(r);
        if k in Handles(l) { SubtreeOfChild(l, k); SubtreeShape(l, k); }
        else { SubtreeOfChild(r, k); SubtreeShape(r, k); }
    }
  }

  /** A node only some of whose links changed, children first, parent last. */
  lemma {:induction false} LinkedFrame(nodes: seq<Node>, nodes': seq<Node>, t: Shape, p: int)
    requires Linked(nodes, t, p) && Unchanged(nodes, nodes', Handles(t))
    ensures Linked(nodes', t, p)
  {
    match t
    case Leaf(_) =>
    case Branch(h, l, r) => LinkedFrame(nodes, nodes', l, h); LinkedFrame(nodes, nodes', r, h);
  }

  /** Moving a subtree under a new parent only needs its root's parent handle updated. */
  lemma LinkedReparent(nodes: seq<Node>, nodes': seq<Node>, t: Shape, p: int, p': int)
    requires Linked(nodes, t, p) && Distinct(t)
    requires Unchanged(nodes, nodes', Handles(t) - {t.h})
    requires t.h < |nodes'| && nodes'[t.h].parent == p'
    requires nodes'[t.h].left == nodes[t.h].left && nodes'[t.h].right == nodes[t.h].right
    ensures Linked(nodes', t, p')
  {
    match t
    case Leaf(_) =>
    case Branch(h, l, r) =>
      assert Handles(l) <= Handles(t) - {h} && Handles(r) <= Handles(t) - {h};
      LinkedFrame(nodes, nodes', l, h);
      LinkedFrame(nodes, nodes', r, h);
  }

  /**
   * Replacing the subtree at `k` by a subtree `s` that the new arena links below
   * `k`'s old parent: the whole tree stays linked when every other node keeps its
   * links and the old parent's slot now names `s`.
   */
  lemma {:induction false} ReplaceLinked(nodes: seq<Node>, nodes': seq<Node>, t: Shape, p: int, k: int, s: Shape)
    requires Linked(nodes, t, p) && Distinct(t) && k in Handles(t)
    requires Linked(nodes', s, ParentOf(nodes, k)) && Distinct(s)
    requires Handles(s) !! (Handles(t) - Handles(Subtree(t, k)))
    requires Unchanged(nodes, nodes', Handles(t) - Handles(Subtree(t, k)) - {ParentOf(nodes, k)})
    requires k != t.h ==>
      (0 <= ParentOf(nodes, k) < |nodes| && ParentOf(nodes, k) < |nodes'| &&
       SlotReplaced(nodes[ParentOf(nodes, k)], nodes'[ParentOf(nodes, k)], k, s.h))
    ensures Linked(nodes', Replace(t, k, s), p) && Distinct(Replace(t, k, s))
    decreases t, 1
  {
    if t.h != k {
      match t
      case Branch(h, l, r) =>
        LeavesInHandles(l); LeavesInHandles(r);
        if k in Handles(l) {
          ReplaceAbsent(r, k, s);
          ReplaceLinkedStep(nodes, nodes', h, l, r, p, k, s);
        } else {
          ReplaceAbsent(l, k, s);
          assert Subtree(t, k) == Subtree(r, k);
          assert Handles(t) == {h} + Handles(r) + Handles(l);
          ReplaceLinkedStep(nodes, nodes', h, r, l, p, k, s);
        }
    }
  }

  /** One level of ReplaceLinked: `k` lies in child `c` of node `h`, whose other child is `o`. */
  lemma {:induction false} ReplaceLinkedStep(nodes: seq<Node>, nodes': seq<Node>, h: int, c: Shape, o: Shape, p: int, k: int, s: Shape)
    requires Linked(nodes, Branch(h, c, o), p) || Linked(nodes, Branch(h, o, c), p)
    requires Distinct(Branch(h, c, o)) && k in Handles(c) && k != h
    requires Linked(nodes', s, ParentOf(nodes, k)) && Distinct(s)
    requires Handles(s) !! ({h} + Handles(c) + Handles(o) - Handles(Subtree(c, k)))
    requires Unchanged(nodes, nodes', {h} + Handles(c) + Handles(o) - Handles(Subtree(c, k)) - {ParentOf(nodes, k)})
    requires 0 <= ParentOf(nodes, k) < |nodes| && ParentOf(nodes, k) < |nodes'| &&
      SlotReplaced(nodes[ParentOf(nodes, k)], nodes'[ParentOf(nodes, k)], k, s.h)
    ensures Linked(nodes, Branch(h, c, o), p) ==> Linked(nodes', Branch(h, Replace(c, k, s), o), p)
    ensures Linked(nodes, Branch(h, o, c), p) ==> Linked(nodes', Branch(h, o, Replace(c, k, s)), p)
    ensures Distinct(Branch(h, Replace(c, k, s), o))
    decreases c, 2
  {
    LeavesInHandles(c); LeavesInHandles(o);
    assert Linked(nodes, c, h) && Linked(nodes, o, h);
    SubtreeShape(c, k);
    SubtreeLinked(nodes, c, h, k);
    var q := ParentOf(nodes, k);
    assert q == h || q in Handles(c);
    var sub := Handles(Subtree(c, k));
    assert Unchanged(nodes, nodes', Handles(o)) by {
      forall x | x in Handles(o) ensures 0 <= x < |nodes| && x < |nodes'| && SameLinks(nodes[x], nodes'[x]) {
        assert x !in sub && x != q;
        assert x in {h} + Handles(c) + Handles(o) - sub - {q};
      }
    }
    LinkedFrame(nodes, nodes', o, h);
    if c.h != k {
      assert Unchanged(nodes, nodes', Handles(c) - sub - {q}) by {
        forall x | x in Handles(c) - sub - {q} ensures 0 <= x < |nodes| && x < |nodes'| && SameLinks(nodes[x], nodes'[x]) {
          assert x in {h} + Handles(c) + Handles(o) - sub - {q};
        }
      }
      assert Handles(s) !! (Handles(c) - sub) by {
        forall x | x in Handles(c) - sub ensures x !in Handles(s) {
          assert x in {h} + Handles(c) + Handles(o) - sub;
        }
      }
      ReplaceLinked(nodes, nodes', c, h, k, s);
    }
    var c' := Replace(c, k, s);
    ReplaceHandles(c, k, s);
    assert Linked(nodes', c', h);
    assert h !in Handles(s) by { assert h in {h} + Handles(c) + Handles(o) - sub; }
    assert Handles(s) !! Handles(o) by {
      forall x | x in Handles(o) ensures x !in Handles(s) {
        assert x in {h} + Handles(c) + Handles(o) - sub;
      }
    }
    if q == h {
      assert c.h == k;
    } else {
      assert c.h != k;
      assert h in {h} + Handles(c) + Handles(o) - sub - {q};
    }
  }

  /** Along a linked tree the path to a node is the path to its stored parent followed by the node. */
  lemma {:induction false} PathToParent(nodes: seq<Node>, t: Shape, p: int, k: int)
    requires Linked(nodes, t, p) && Distinct(t) && k in Handles(t) && p !in Handles(t)
    ensures PathTo(t, k) == PathTo(t, ParentOf(nodes, k)) + [k]
  {
    LeavesInHandles(t);
    if t.h == k {
      PathToAbsent(t, p);
    } else {
      match t
      case Branch(h, l, r) =>
        LeavesInHandles(l); LeavesInHandles(r);
        var c := if k in Handles(l) then l else r;
        PathToParent(nodes, c, h, k);
        var q := ParentOf(nodes, k);
        if q == h {
          PathToAbsent(c, h);
        } else {
          SubtreeLinked(nodes, c, h, k);
          assert q in Handles(c);
        }
    }
  }
}

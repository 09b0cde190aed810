// The refit walk of UnsafeBHVTree.Add: the enclosure invariant it keeps while it
// climbs from the new parent to the root, refitting and rotating on the way.
module BHVWalk {
  import opened Volumes
  import opened BHVShape
  import opened BHVRotation

  /** Every node of `t` that is not on `path` encloses its children's volumes. */
  ghost predicate Enclosed(n: seq<Node>, t: Shape, path: seq<int>)
  {
    forall k {:trigger EnclosesChildren(n, k)} :: k in Handles(t) && k !in path ==> EnclosesChildren(n, k)
  }

  /** The arena after the walk sets the volume of internal node `h` to the union of its children's. */
  ghost function Refit(n: seq<Node>, h: int): seq<Node>
    requires 0 <= h < |n| && 0 <= n[h].left < |n| && 0 <= n[h].right < |n|
  {
    n[h := n[h].(volume := Union(n[n[h].left].volume, n[n[h].right].volume))]
  }

  /**
   * Refitting the walk's current node `h`: the tree stays linked, `h` now holds
   * exactly the union of its children, and only the path above `h` may still
   * hold stale volumes.
   */
  lemma RefitStep(n: seq<Node>, t: Shape, h: int)
    requires Linked(n, t, Null) && Distinct(t) && h in Handles(t)
    requires 0 <= h < |n| && n[h].left != Null
    requires Enclosed(n, t, PathTo(t, h))
    ensures 0 <= n[h].left < |n| && 0 <= n[h].right < |n|
    ensures var n' := Refit(n, h);
      |n'| == |n| && Linked(n', t, Null) && Refitted(n', h) &&
      Enclosed(n', t, PathTo(t, ParentOf(n, h)))
    ensures var q := ParentOf(n, h);
      (q == Null || (q in Handles(t) && 0 <= q < |n| && n[q].left != Null)) &&
      |PathTo(t, q)| < |PathTo(t, h)|
  {
    LinkedInRange(n, t, Null);
    ChildrenOf(n, t, Null, h);
    var n' := Refit(n, h);
    assert Unchanged(n, n', Handles(t));
    LinkedFrame(n, n', t, Null);
    PathToParent(n, t, Null, h);
    var q := ParentOf(n, h);
    if h != t.h {
      SubtreeLinked(n, t, Null, h);
      PathToEnds(t, q);
      LeafIff(n, t, Null, q);
      if q in Leaves(t) { LeafSubtree(t, q); }
    }
    forall k | k in Handles(t) && k !in PathTo(t, q) ensures EnclosesChildren(n', k) {
      if k != h {
        assert k !in PathTo(t, h);
        RefitKeeps(n, t, h, k);
      }
    }
  }

  /** A node other than the refitted one, and other than its parent, still encloses its children. */
  lemma RefitKeeps(n: seq<Node>, t: Shape, h: int, k: int)
    requires Linked(n, t, Null) && Distinct(t) && h in Handles(t) && k in Handles(t)
    requires 0 <= h < |n| && 0 <= n[h].left < |n| && 0 <= n[h].right < |n|
    requires k != h && k != ParentOf(n, h) && EnclosesChildren(n, k)
    ensures EnclosesChildren(Refit(n, h), k)
  {
    if n[k].left != Null {
      Children(n, t, k, n[k].left, n[k].right);
    }
  }

  /**
   * One step of the walk, on values: refitting `h` in `n` and then rotating at
   * `h` or not leaves a linked tree with the same nodes and leaves, in which
   * only the path from `h`'s new parent up may hold stale volumes, that path
   * is shorter than the one from `h`, and leaves keep their volumes and values.
   */
  lemma WalkStepSound(n: seq<Node>, t: Shape, h: int, rotated: bool, n2: seq<Node>, t2: Shape)
    requires Linked(n, t, Null) && Distinct(t) && h in Handles(t)
    requires 0 <= h < |n| && n[h].left != Null
    requires Enclosed(n, t, PathTo(t, h))
    requires 0 <= n[h].left < |n| && 0 <= n[h].right < |n|
    requires rotated ==> (Rotatable(Refit(n, h), t, h) &&
      n2 == RotatedNodes(Refit(n, h), h) && t2 == RotatedShape(Refit(n, h), t, h))
    requires !rotated ==> n2 == Refit(n, h) && t2 == t
    ensures |n2| == |n| && t2.h == t.h && Linked(n2, t2, Null) && Distinct(t2)
    ensures Handles(t2) == Handles(t) && Leaves(t2) == Leaves(t)
    ensures var next := n2[h].parent;
      (next == Null || (next in Handles(t2) && 0 <= next < |n2| && n2[next].left != Null)) &&
      Enclosed(n2, t2, PathTo(t2, next)) && |PathTo(t2, next)| < |PathTo(t, h)|
    ensures forall k :: 0 <= k < |n2| && n[k].left == Null ==>
      n2[k].left == Null && n2[k].volume == n[k].volume && n2[k].value == n[k].value
  {
    if rotated {
      WalkRotated(n, t, h);
    } else {
      WalkRefitted(n, t, h);
    }
  }

  /** WalkStepSound without a rotation: the refitted arena. */
  lemma WalkRefitted(n: seq<Node>, t: Shape, h: int)
    requires Linked(n, t, Null) && Distinct(t) && h in Handles(t)
    requires 0 <= h < |n| && n[h].left != Null
    requires Enclosed(n, t, PathTo(t, h))
    requires 0 <= n[h].left < |n| && 0 <= n[h].right < |n|
    ensures var n2 := Refit(n, h); var next := n2[h].parent;
      |n2| == |n| && Linked(n2, t, Null) &&
      (next == Null || (next in Handles(t) && 0 <= next < |n2| && n2[next].left != Null)) &&
      Enclosed(n2, t, PathTo(t, next)) && |PathTo(t, next)| < |PathTo(t, h)|
    ensures var n2 := Refit(n, h); forall k :: 0 <= k < |n2| && n[k].left == Null ==>
      n2[k].left == Null && n2[k].volume == n[k].volume && n2[k].value == n[k].value
  {
    RefitStep(n, t, h);
  }

  /** WalkStepSound with a rotation: the refitted arena, rotated at `h`. */
  lemma WalkRotated(n: seq<Node>, t: Shape, h: int)
    requires Linked(n, t, Null) && Distinct(t) && h in Handles(t)
    requires 0 <= h < |n| && n[h].left != Null
    requires Enclosed(n, t, PathTo(t, h))
    requires 0 <= n[h].left < |n| && 0 <= n[h].right < |n|
    requires Rotatable(Refit(n, h), t, h)
    ensures var n1 := Refit(n, h); var n2, t2 := RotatedNodes(n1, h), RotatedShape(n1, t, h);
      var next := n2[h].parent;
      |n2| == |n| && t2.h == t.h && Linked(n2, t2, Null) && Distinct(t2) &&
      Handles(t2) == Handles(t) && Leaves(t2) == Leaves(t) &&
      (next == Null || (next in Handles(t2) && 0 <= next < |n2| && n2[next].left != Null)) &&
      Enclosed(n2, t2, PathTo(t2, next)) && |PathTo(t2, next)| < |PathTo(t, h)|
    ensures var n1 := Refit(n, h); var n2 := RotatedNodes(n1, h);
      forall k :: 0 <= k < |n2| && n[k].left == Null ==>
        n2[k].left == Null && n2[k].volume == n[k].volume && n2[k].value == n[k].value
  {
    RefitStep(n, t, h);
    var n1 := Refit(n, h);
    assert ParentOf(n1, h) == ParentOf(n, h);
    RotateStep(n1, t, h);
    var n2 := RotatedNodes(n1, h);
    assert n2[h].parent == ParentOf(n2, h);
    forall k | 0 <= k < |n2| && n[k].left == Null
      ensures n2[k].left == Null && n2[k].volume == n[k].volume && n2[k].value == n[k].value
    {
      assert n1[k] == n[k];
    }
  }

  /**
   * A rotation at the walk's current node `x`, made once `x` is refitted: the
   * tree stays linked with the same nodes and leaves, `x` moves up under its
   * grandparent `g`, the old parent holds exactly the union of its new
   * children, and the walk continues at `g` with only the path above and at `g`
   * possibly stale. Leaves keep their volumes, and values do not change.
   */
  lemma RotateStep(n: seq<Node>, t: Shape, x: int)
    requires Linked(n, t, Null) && Distinct(t) && Rotatable(n, t, x)
    requires Enclosed(n, t, PathTo(t, ParentOf(n, x)))
    ensures var n', t' := RotatedNodes(n, x), RotatedShape(n, t, x);
      var g := ParentOf(n, ParentOf(n, x));
      |n'| == |n| && Linked(n', t', Null) && Distinct(t') && t'.h == t.h &&
      Handles(t') == Handles(t) && Leaves(t') == Leaves(t) &&
      ParentOf(n', x) == g && g in Handles(t') && 0 <= g < |n'| && n'[g].left != Null &&
      |PathTo(t', g)| < |PathTo(t, x)| &&
      Refitted(n', ParentOf(n, x)) &&
      Enclosed(n', t', PathTo(t', g))
    ensures var n' := RotatedNodes(n, x);
      forall k :: 0 <= k < |n| ==>
        (n'[k].value == n[k].value && (n[k].left == Null ==> n'[k].volume == n[k].volume && n'[k].left == Null))
  {
    var p, g, u, b := Decompose(n, t, x);
    var n' := RotatedNodes(n, x);
    RotatedEntries(n, x, p, g, u, b);
    RotationLinked(n, t, x);
    RotationPaths(n, t, x);
    RotatedRefitted(n, n', x, p, g, u, b);
    RotateEnclosed(n, n', t, RotatedShape(n, t, x), x, p, g, u, b);
    RotateLeaves(n, n', x, p, g, u, b);
  }

  /** Off the path that ends at the grandparent, every node encloses its children after the swap. */
  lemma RotateEnclosed(n: seq<Node>, n': seq<Node>, t: Shape, t': Shape, x: int, p: int, g: int, u: int, b: int)
    requires Linked(n, t, Null) && Distinct(t) && Handles(t') == Handles(t) && PathTo(t', g) == PathTo(t, g)
    requires Around(n, t, x, p, g, u, b) && RotatedAt(n, n', x, p, g, u, b) && Refitted(n', p)
    requires Enclosed(n, t, PathTo(t, p))
    ensures Enclosed(n', t', PathTo(t', g))
  {
    LinkedInRange(n, t, Null);
    PathToParent(n, t, Null, p);
    PathToEnds(t, g);
    forall k | k in Handles(t) && k !in PathTo(t, g) ensures EnclosesChildren(n', k) {
      if k != p {
        assert k !in PathTo(t, p);
        if n[k].left != Null {
          Children(n, t, k, n[k].left, n[k].right);
        }
        RotateKeeps(n, n', x, p, g, u, b, k);
      }
    }
  }

  /** A rotation writes only links of internal nodes and the parent's volume. */
  lemma RotateLeaves(n: seq<Node>, n': seq<Node>, x: int, p: int, g: int, u: int, b: int)
    requires RotatedAt(n, n', x, p, g, u, b) && n[g].left != Null && n[p].left != Null
    ensures forall k :: 0 <= k < |n| ==>
      (n'[k].value == n[k].value && (n[k].left == Null ==> n'[k].volume == n[k].volume && n'[k].left == Null))
  {
  }

  /** After the swap the old parent holds exactly the union of the uncle and the brother, in whichever order it stores them. */
  lemma RotatedRefitted(n: seq<Node>, n': seq<Node>, x: int, p: int, g: int, u: int, b: int)
    requires RotatedAt(n, n', x, p, g, u, b) && Apart(x, p, g, u, b)
    requires (n[p].left == x && n[p].right == b) || (n[p].left == b && n[p].right == x)
    ensures Refitted(n', p)
  {
    UnionCommutes(n[u].volume, n[b].volume);
  }

  /** Nodes other than the grandparent and the parent keep their links and their children's volumes. */
  lemma RotateKeeps(n: seq<Node>, n': seq<Node>, x: int, p: int, g: int, u: int, b: int, k: int)
    requires RotatedAt(n, n', x, p, g, u, b) && Apart(x, p, g, u, b)
    requires 0 <= k < |n| && k != g && k != p && EnclosesChildren(n, k)
    requires n[k].left != Null ==> n[k].left != p && n[k].right != p
    ensures EnclosesChildren(n', k)
  {
    assert k == x || k == u || n'[k] == n[k];
  }

  // ---------------------------------------------------------------------------
  // The path the walk refits: every node it leaves behind on the way from the
  // new leaf up holds exactly the union of its children.

  /**
   * Every node on the path from the root to `target` that the walk has left
   * behind (it is no longer on the path to the walk's current node `h`)
   * holds exactly the union of its children.
   */
  ghost predicate PathRefitted(n: seq<Node>, t: Shape, target: int, h: int)
  {
    forall k :: k in PathTo(t, target) && k !in PathTo(t, h) ==> Refitted(n, k)
  }

  /** A node on the path to `j` is in the tree, `j` lies in its subtree, and its own path is part of `j`'s. */
  lemma {:induction false} PathPrefix(t: Shape, x: int, j: int)
    requires Distinct(t) && x in PathTo(t, j)
    ensures x in Handles(t) && j in Handles(t) && j in Handles(Subtree(t, x))
    ensures forall k :: k in PathTo(t, x) ==> k in PathTo(t, j)
  {
    LeavesInHandles(t);
    if t.h != j {
      match t
      case Branch(h, l, r) =>
        LeavesInHandles(l); LeavesInHandles(r);
        var c := if j in Handles(l) then l else r;
        assert PathTo(t, j) == [h] + PathTo(c, j);
        if x != h {
          PathPrefix(c, x, j);
          assert PathTo(t, x) == [h] + PathTo(c, x);
          assert Subtree(t, x) == Subtree(c, x);
        }
    }
  }

  /** An element of the second part of a sequence without repeats is not in the first part. */
  lemma SecondPart(a: seq<int>, b: seq<int>, k: int)
    requires forall i, j :: 0 <= i < j < |a + b| ==> (a + b)[i] != (a + b)[j]
    requires k in b
    ensures k !in a
  {
    var i :| 0 <= i < |b| && b[i] == k;
    assert (a + b)[|a| + i] == k;
    forall j | 0 <= j < |a|
      ensures a[j] != k
    {
      assert (a + b)[j] == a[j];
    }
  }

  /** Refitting a node other than `k` and `k`'s parent keeps `k` refitted. */
  lemma RefitKeepsRefitted(n: seq<Node>, t: Shape, h: int, k: int)
    requires Linked(n, t, Null) && Distinct(t) && h in Handles(t) && k in Handles(t)
    requires 0 <= h < |n| && 0 <= n[h].left < |n| && 0 <= n[h].right < |n|
    requires k != h && k != ParentOf(n, h) && Refitted(n, k)
    ensures Refitted(Refit(n, h), k)
  {
    if n[k].left != Null {
      ChildrenOf(n, t, Null, k);
    }
  }

  /** A rotation keeps refitted every node other than the parent and grandparent that is no parent of the parent. */
  lemma RotateKeepsRefitted(n: seq<Node>, n': seq<Node>, x: int, p: int, g: int, u: int, b: int, k: int)
    requires RotatedAt(n, n', x, p, g, u, b) && Apart(x, p, g, u, b)
    requires 0 <= k < |n| && k != g && k != p && Refitted(n, k)
    requires n[k].left != Null ==> n[k].left != p && n[k].right != p
    ensures Refitted(n', k)
  {
    assert k == x || k == u || n'[k] == n[k];
  }

  /**
   * Refitting the walk's current node `h`, which lies on the path to
   * `target`: `h` is refitted, and the walk moves to `h`'s parent with every
   * node below it on that path refitted.
   */
  lemma RefitPath(n: seq<Node>, t: Shape, h: int, target: int)
    requires Linked(n, t, Null) && Distinct(t) && h in Handles(t)
    requires 0 <= h < |n| && n[h].left != Null
    requires Enclosed(n, t, PathTo(t, h))
    requires h in PathTo(t, target) && PathRefitted(n, t, target, h)
    ensures 0 <= n[h].left < |n| && 0 <= n[h].right < |n|
    ensures var q := ParentOf(n, h);
      Refitted(Refit(n, h), h) && (q == Null || q in PathTo(t, target)) && PathRefitted(Refit(n, h), t, target, q)
  {
    RefitStep(n, t, h);
    LinkedInRange(n, t, Null);
    PathToParent(n, t, Null, h);
    PathPrefix(t, h, target);
    PathToShape(t, target);
    var q := ParentOf(n, h);
    if q != Null {
      PathToEnds(t, q);
    }
    forall k | k in PathTo(t, target) && k !in PathTo(t, q)
      ensures Refitted(Refit(n, h), k)
    {
      if k != h {
        assert k !in PathTo(t, h);
        RefitKeepsRefitted(n, t, h, k);
      }
    }
  }

  /**
   * A rotation at the walk's node `x` on the path to `target`, once every
   * node from `x` down that path is refitted: `x` moves under its
   * grandparent `g`, and from `g` down the path is refitted.
   */
  lemma RotatePath(n: seq<Node>, t: Shape, x: int, target: int)
    requires Linked(n, t, Null) && Distinct(t) && Rotatable(n, t, x)
    requires x in PathTo(t, target) && PathRefitted(n, t, target, ParentOf(n, x))
    ensures var n', t' := RotatedNodes(n, x), RotatedShape(n, t, x);
      var g := ParentOf(n, ParentOf(n, x));
      0 <= x < |n'| && n'[x].parent == g &&
      Refitted(n', x) && g in PathTo(t', target) && PathRefitted(n', t', target, g)
  {
    var p, g, u, b := Decompose(n, t, x);
    var n', t' := RotatedNodes(n, x), RotatedShape(n, t, x);
    RotatedEntries(n, x, p, g, u, b);
    var X := Subtree(t, x);
    var above, below := PathThrough(n, t, x, target);
    RotationPathBelow(n, t, x, target);
    PathToEnds(t, g);
    forall k | k in PathTo(t', target) && k !in PathTo(t', g)
      ensures Refitted(n', k)
    {
      assert k in below;
      SecondPart(above, below, k);
      RotatedBelow(n, n', t, x, p, g, u, b, k);
    }
    PathToEnds(X, target);
    SecondPart(above, below, x);
  }

  /**
   * The path to a node `target` below a rotatable `x` splits into the path
   * to `x`'s parent and the path inside `x`'s subtree, with no handle twice.
   */
  lemma PathThrough(n: seq<Node>, t: Shape, x: int, target: int) returns (above: seq<int>, below: seq<int>)
    requires Linked(n, t, Null) && Distinct(t) && Rotatable(n, t, x) && x in PathTo(t, target)
    ensures var p := ParentOf(n, x); var g := ParentOf(n, p);
      x in Handles(t) && target in Handles(Subtree(t, x)) && Distinct(Subtree(t, x)) &&
      above == PathTo(t, g) + [p] && above == PathTo(t, p) && below == PathTo(Subtree(t, x), target) &&
      PathTo(t, target) == above + below && PathTo(RotatedShape(n, t, x), g) == PathTo(t, g)
    ensures forall i, j :: 0 <= i < j < |above + below| ==> (above + below)[i] != (above + below)[j]
    ensures forall k :: k in below ==> k in Handles(Subtree(t, x))
  {
    var p := ParentOf(n, x);
    var g := ParentOf(n, p);
    Neighbourhood(n, t, x);
    RotationPaths(n, t, x);
    PathPrefix(t, x, target);
    LinkedInRange(n, t, Null);
    PathToParent(n, t, Null, p);
    var X := Subtree(t, x);
    SubtreeShape(t, x);
    below := PathTo(X, target);
    above := PathTo(t, g) + [p];
    ReplaceSelf(t, x);
    PathToReplace(t, x, X, target);
    assert PathTo(t, x)[..|PathTo(t, x)| - 1] == above;
    PathToShape(t, target);
    PathToShape(X, target);
  }

  /** A node of the rotated node's subtree that was refitted stays refitted. */
  lemma RotatedBelow(n: seq<Node>, n': seq<Node>, t: Shape, x: int, p: int, g: int, u: int, b: int, k: int)
    requires Linked(n, t, Null) && Distinct(t) && Around(n, t, x, p, g, u, b) && RotatedAt(n, n', x, p, g, u, b)
    requires k in Handles(Subtree(t, x)) && Refitted(n, k)
    ensures Refitted(n', k)
  {
    SubtreeShape(t, x);
    if n[k].left != Null {
      ChildrenOf(n, t, Null, k);
    }
    RotateKeepsRefitted(n, n', x, p, g, u, b, k);
  }

  /**
   * One step of the walk keeps the path to `target` refitted below the
   * walk's next node, and leaves the node it worked on refitted.
   */
  lemma WalkStepRefits(n: seq<Node>, t: Shape, h: int, rotated: bool, n2: seq<Node>, t2: Shape, target: int)
    requires Linked(n, t, Null) && Distinct(t) && h in Handles(t)
    requires 0 <= h < |n| && n[h].left != Null
    requires Enclosed(n, t, PathTo(t, h))
    requires 0 <= n[h].left < |n| && 0 <= n[h].right < |n|
    requires h in PathTo(t, target) && PathRefitted(n, t, target, h)
    requires rotated ==> (Rotatable(Refit(n, h), t, h) &&
      n2 == RotatedNodes(Refit(n, h), h) && t2 == RotatedShape(Refit(n, h), t, h))
    requires !rotated ==> n2 == Refit(n, h) && t2 == t
    ensures 0 <= h < |n2| && Refitted(n2, h)
    ensures var next := n2[h].parent;
      (next == Null || next in PathTo(t2, target)) && PathRefitted(n2, t2, target, next)
  {
    RefitPath(n, t, h, target);
    RefitStep(n, t, h);
    var n1 := Refit(n, h);
    assert ParentOf(n1, h) == ParentOf(n, h);
    if rotated {
      RotatePath(n1, t, h, target);
    }
  }
}

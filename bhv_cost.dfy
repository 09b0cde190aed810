// The insertion cost that UnsafeBHVTree.FindBestHandle minimises, the lower
// bound its branch-and-bound search prunes with, and the per-tree sums the
// diagnostics compute.
module BHVCost {
  import opened Volumes
  import opened BHVShape
  import opened BHVRotation

  /** Area of the box enclosing both operands (the two-argument SurfaceArea). */
  function UnionArea(a: AABB, b: AABB): real
  {
    SurfaceArea(Union(a, b))
  }

  /** How much the area of `a` grows once it must also enclose `b` (DeltaSurfaceArea). */
  function DeltaSurfaceArea(a: AABB, b: AABB): real
  {
    SurfaceArea(Union(a, b)) - SurfaceArea(a)
  }

  /** Growing a well-formed box never shrinks it. */
  lemma DeltaNonNegative(a: AABB, b: AABB)
    requires WellFormed(a)
    ensures DeltaSurfaceArea(a, b) >= 0.0
  {
    SurfaceAreaMonotone(Union(a, b), a);
  }

  /** The box enclosing a well-formed `b` has at least `b`'s area. */
  lemma UnionAreaBound(a: AABB, b: AABB)
    requires WellFormed(b)
    ensures UnionArea(a, b) >= SurfaceArea(b)
  {
    SurfaceAreaMonotone(Union(a, b), b);
  }

  /** Every live node's box is well formed. */
  ghost predicate WellFormedVolumes(n: seq<Node>, t: Shape)
  {
    forall k :: k in Handles(t) ==> 0 <= k < |n| && WellFormed(n[k].volume)
  }

  /** The growth of every box on `path` once it must enclose `value` (InheritedCost along a path). */
  ghost function PathCost(n: seq<Node>, path: seq<int>, value: AABB): real
  {
    if |path| == 0 then 0.0
    else PathCost(n, path[..|path| - 1], value) + DeltaSurfaceArea(VolumeOf(n, path[|path| - 1]), value)
  }

  /**
   * The cost of choosing `k` as the new leaf's sibling: the area of the new
   * parent plus the growth of every ancestor of `k`.
   */
  ghost function InsertCost(n: seq<Node>, t: Shape, k: int, value: AABB): real
  {
    UnionArea(VolumeOf(n, k), value) + PathCost(n, PathTo(t, ParentOf(n, k)), value)
  }

  /** The bound the search compares against before it looks below internal node `k`. */
  ghost function LowerBound(n: seq<Node>, t: Shape, k: int, value: AABB): real
  {
    SurfaceArea(value) + DeltaSurfaceArea(VolumeOf(n, k), value) + PathCost(n, PathTo(t, ParentOf(n, k)), value)
  }

  lemma PathCostSnoc(n: seq<Node>, path: seq<int>, k: int, value: AABB)
    ensures PathCost(n, path + [k], value) == PathCost(n, path, value) + DeltaSurfaceArea(VolumeOf(n, k), value)
  {
    assert (path + [k])[..|path + [k]| - 1] == path;
  }

  /** Extending a path by well-formed boxes cannot lower its cost. */
  lemma {:induction false} PathCostGrows(n: seq<Node>, a: seq<int>, c: seq<int>, value: AABB)
    requires forall i :: 0 <= i < |c| ==> WellFormed(VolumeOf(n, c[i]))
    ensures PathCost(n, a + c, value) >= PathCost(n, a, value)
    decreases |c|
  {
    if |c| > 0 {
      var c' := c[..|c| - 1];
      var x := c[|c| - 1];
      assert a + c == (a + c') + [x];
      PathCostSnoc(n, a + c', x, value);
      DeltaNonNegative(VolumeOf(n, x), value);
      PathCostGrows(n, a, c', value);
    } else {
      assert a + c == a;
    }
  }

  /** Dropping the last handle of `a[..|a|-1] + b`, where `b` starts at `a`'s last handle, leaves `a` plus the inside of `b`. */
  lemma SplicePrefix(a: seq<int>, b: seq<int>)
    requires |a| >= 1 && |b| >= 2 && b[0] == a[|a| - 1]
    ensures var p := a[..|a| - 1] + b; p[..|p| - 1] == a + b[1..|b| - 1]
  {
    var p := a[..|a| - 1] + b;
    assert p[..|p| - 1] == a[..|a| - 1] + b[..|b| - 1];
    assert b[..|b| - 1] == [b[0]] + b[1..|b| - 1];
    assert a == a[..|a| - 1] + [a[|a| - 1]];
  }

  /**
   * Branch-and-bound soundness: with well-formed boxes, every sibling
   * strictly below internal node `k` costs at least `k`'s lower bound, so a
   * subtree whose bound is no better than the best cost found holds nothing
   * better.
   */
  lemma BelowBound(n: seq<Node>, t: Shape, k: int, d: int, value: AABB)
    requires Linked(n, t, Null) && Distinct(t) && k in Handles(t)
    requires d in Handles(Subtree(t, k)) && d != k
    requires WellFormedVolumes(n, t) && WellFormed(value)
    ensures InsertCost(n, t, d, value) >= LowerBound(n, t, k, value)
  {
    LinkedInRange(n, t, Null);
    SubtreeShape(t, k);
    var S := Subtree(t, k);
    var A := PathTo(t, k);
    var B := PathTo(S, d);
    PathToEnds(t, k);
    PathToEnds(S, d);
    PathToShape(S, d);
    ReplaceSelf(t, k);
    PathToReplace(t, k, S, d);
    assert PathTo(t, d) == A[..|A| - 1] + B;
    SplicePrefix(A, B);
    PathToParent(n, t, Null, d);
    PathToParent(n, t, Null, k);
    var c := B[1..|B| - 1];
    forall i | 0 <= i < |c| ensures WellFormed(VolumeOf(n, c[i])) {
      assert c[i] == B[i + 1];
    }
    assert PathTo(t, ParentOf(n, d)) == A + c;
    PathCostGrows(n, A, c, value);
    PathCostSnoc(n, PathTo(t, ParentOf(n, k)), k, value);
    UnionAreaBound(VolumeOf(n, d), value);
  }

  /** The areas of the internal nodes of `t` (UnsafeBHVTree.Cost). */
  ghost function InternalArea(n: seq<Node>, t: Shape): real
  {
    match t
    case Leaf(_) => 0.0
    case Branch(h, l, r) => SurfaceArea(VolumeOf(n, h)) + InternalArea(n, l) + InternalArea(n, r)
  }

  /** With well-formed boxes the tree cost is never negative. */
  lemma {:induction false} InternalAreaNonNegative(n: seq<Node>, t: Shape)
    requires WellFormedVolumes(n, t)
    ensures InternalArea(n, t) >= 0.0
  {
    match t
    case Leaf(_) =>
    case Branch(h, l, r) =>
      assert h in Handles(t);
      SurfaceAreaNonNegative(VolumeOf(n, h));
      InternalAreaNonNegative(n, l);
      InternalAreaNonNegative(n, r);
  }
}

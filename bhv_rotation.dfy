// The tree rotation of UnsafeBHVTree.Rotate, stated on arena values, and the
// facts the insertion walk needs about it.
module BHVRotation {
  import opened Volumes
  import opened BHVShape

  ghost function VolumeOf(nodes: seq<Node>, k: int): AABB
  {
    if 0 <= k < |nodes| then nodes[k].volume else Zero
  }

  ghost function LeftOf(nodes: seq<Node>, k: int): int
  {
    if 0 <= k < |nodes| then nodes[k].left else Null
  }

  ghost function RightOf(nodes: seq<Node>, k: int): int
  {
    if 0 <= k < |nodes| then nodes[k].right else Null
  }

  /** The other child of `x`'s parent. */
  ghost function Brother(nodes: seq<Node>, x: int): int
  {
    var p := ParentOf(nodes, x);
    if LeftOf(nodes, p) == x then RightOf(nodes, p) else LeftOf(nodes, p)
  }

  /** The other child of `x`'s grandparent. */
  ghost function Uncle(nodes: seq<Node>, x: int): int
  {
    var p := ParentOf(nodes, x);
    var g := ParentOf(nodes, p);
    if LeftOf(nodes, g) == p then RightOf(nodes, g) else LeftOf(nodes, g)
  }

  /** The parent's volume after the swap: the union of the uncle and the brother. */
  ghost function Balanced(nodes: seq<Node>, x: int): AABB
  {
    Union(VolumeOf(nodes, Uncle(nodes, x)), VolumeOf(nodes, Brother(nodes, x)))
  }

  /** `x` has a grandparent: neither `x` nor its parent is the root. */
  ghost predicate Rotatable(nodes: seq<Node>, t: Shape, x: int)
  {
    x in Handles(t) && x != t.h && ParentOf(nodes, x) != t.h
  }

  /** The swap is made unless it would make the parent's box larger in area than `x`'s. */
  ghost predicate RotationPays(nodes: seq<Node>, x: int)
  {
    SurfaceArea(VolumeOf(nodes, x)) >= SurfaceArea(Balanced(nodes, x))
  }

  /** The arena after `x` trades places with its uncle and the parent is refitted. */
  ghost function RotatedNodes(n: seq<Node>, x: int): seq<Node>
  {
    var p := ParentOf(n, x);
    var g := ParentOf(n, p);
    var u := Uncle(n, x);
    var b := Brother(n, x);
    if !(0 <= x < |n| && 0 <= p < |n| && 0 <= g < |n| && 0 <= u < |n| && 0 <= b < |n|) then n
    else
      var n1 := n[g := if n[g].left == p then n[g].(right := x) else n[g].(left := x)];
      var n2 := n1[x := n1[x].(parent := g)];
      var n3 := n2[p := if n[p].left == x then n2[p].(left := u) else n2[p].(right := u)];
      var n4 := n3[u := n3[u].(parent := p)];
      n4[p := n4[p].(volume := Union(n[u].volume, n[b].volume))]
  }

  /**
   * The grandparent's subtree after the swap: `x` takes the uncle's place and
   * the uncle takes `x`'s place beside the brother.
   */
  ghost function RotatedSubtree(n: seq<Node>, t: Shape, x: int): Shape
    requires x in Handles(t) && Uncle(n, x) in Handles(t) && Brother(n, x) in Handles(t)
  {
    var p := ParentOf(n, x);
    var g := ParentOf(n, p);
    var U, B, X := Subtree(t, Uncle(n, x)), Subtree(t, Brother(n, x)), Subtree(t, x);
    var np := if LeftOf(n, p) == x then Branch(p, U, B) else Branch(p, B, U);
    if LeftOf(n, g) == p then Branch(g, np, X) else Branch(g, X, np)
  }

  /** The abstract tree after the same swap. */
  ghost function RotatedShape(n: seq<Node>, t: Shape, x: int): Shape
  {
    if x in Handles(t) && Uncle(n, x) in Handles(t) && Brother(n, x) in Handles(t) then
      Replace(t, ParentOf(n, ParentOf(n, x)), RotatedSubtree(n, t, x))
    else t
  }

  /** Facts about the neighbourhood of a rotatable node. */
  lemma Neighbourhood(n: seq<Node>, t: Shape, x: int)
    requires Linked(n, t, Null) && Distinct(t) && Rotatable(n, t, x)
    ensures var p := ParentOf(n, x); var g := ParentOf(n, p);
      p in Handles(t) && g in Handles(t) && 0 <= x < |n| && 0 <= p < |n| && 0 <= g < |n| &&
      Subtree(t, p).Branch? && Subtree(t, g).Branch? &&
      (Subtree(t, p).l == Subtree(t, x) || Subtree(t, p).r == Subtree(t, x)) &&
      (Subtree(t, g).l == Subtree(t, p) || Subtree(t, g).r == Subtree(t, p)) &&
      n[p].left != Null && n[g].left != Null &&
      Uncle(n, x) in Handles(t) && Brother(n, x) in Handles(t) &&
      0 <= Uncle(n, x) < |n| && 0 <= Brother(n, x) < |n|
  {
    var p := ParentOf(n, x);
    LinkedInRange(n, t, Null);
    SubtreeLinked(n, t, Null, x);
    SubtreeLinked(n, t, Null, p);
    var g := ParentOf(n, p);
    LeafIff(n, t, Null, p);
    LeafIff(n, t, Null, g);
    SubtreeShape(t, p);
    SubtreeShape(t, g);
    LeavesInHandles(t);
    assert p !in Leaves(t) by {
      SubtreeLinked(n, t, Null, p);
      if p in Leaves(t) { LeafSubtree(t, p); }
    }
    assert g !in Leaves(t) by {
      if g in Leaves(t) { LeafSubtree(t, g); }
    }
    ChildrenOf(n, t, Null, p);
    ChildrenOf(n, t, Null, g);
  }

  lemma {:induction false} LeafSubtree(t: Shape, k: int)
    requires Distinct(t) && k in Leaves(t)
    ensures k in Handles(t) && Subtree(t, k) == Leaf(k)
  {
    LeavesInHandles(t);
    match t
    case Leaf(_) =>
    case Branch(h, l, r) =>
      LeavesInHandles(l); LeavesInHandles(r);
      if k in Leaves(l) { LeafSubtree(l, k); } else { LeafSubtree(r, k); }
  }

  /** The handle sets of the three subtrees a rotation moves, and of the grandparent's subtree that holds them. */
  ghost predicate Split(g: int, p: int, hg: set<int>, hu: set<int>, hx: set<int>, hb: set<int>)
  {
    hu !! hx && hu !! hb && hx !! hb && g !in hu + hx + hb + {p} && p !in hu + hx + hb &&
    hg == {g, p} + hu + hx + hb
  }

  lemma SplitSets(g: int, p: int, hg: set<int>, hp: set<int>, hu: set<int>, hx: set<int>, hb: set<int>,
                  lg: set<int>, lp: set<int>, lu: set<int>, lx: set<int>, lb: set<int>)
    requires hp !! hu && g !in hp + hu && hg == {g} + hp + hu && lg == lp + lu
    requires hx !! hb && p !in hx + hb && hp == {p} + hx + hb && lp == lx + lb
    ensures Split(g, p, hg, hu, hx, hb) && lg == lu + lx + lb
  {
  }

  lemma SwapUnion(a: set<int>, b: set<int>, c: set<int>, d: set<int>, a': set<int>, b': set<int>, c': set<int>, d': set<int>)
    requires (a == c && b == d && a' == c' && b' == d') || (a == d && b == c && a' == d' && b' == c')
    ensures a + b == c + d && a' + b' == c' + d' && (a !! b <==> c !! d)
  {
  }

  lemma BranchParts(t: Shape)
    requires t.Branch? && Distinct(t)
    ensures Distinct(t.l) && Distinct(t.r) && t.h !in Handles(t.l) + Handles(t.r) && Handles(t.l) !! Handles(t.r)
    ensures Handles(t) == {t.h} + Handles(t.l) + Handles(t.r) && Leaves(t) == Leaves(t.l) + Leaves(t.r)
  {
  }

  /** The children of internal node `k` and their subtrees, in the order the arena stores them. */
  lemma Children(n: seq<Node>, t: Shape, k: int, c: int, o: int)
    requires Linked(n, t, Null) && Distinct(t) && k in Handles(t) && 0 <= k < |n|
    requires (n[k].left == c && n[k].right == o) || (n[k].left == o && n[k].right == c)
    requires n[k].left != Null
    ensures c in Handles(t) && o in Handles(t) && c != o && c != k && o != k
    ensures ParentOf(n, c) == k && ParentOf(n, o) == k
    ensures Subtree(t, k).h == k && Subtree(t, c).h == c && Subtree(t, o).h == o
    ensures Linked(n, Subtree(t, c), k) && Linked(n, Subtree(t, o), k)
    ensures Distinct(Subtree(t, k)) && Distinct(Subtree(t, c)) && Distinct(Subtree(t, o))
    ensures Handles(Subtree(t, c)) !! Handles(Subtree(t, o)) && k !in Handles(Subtree(t, c)) + Handles(Subtree(t, o))
    ensures Handles(Subtree(t, k)) == {k} + Handles(Subtree(t, c)) + Handles(Subtree(t, o))
    ensures Leaves(Subtree(t, k)) == Leaves(Subtree(t, c)) + Leaves(Subtree(t, o))
  {
    ChildrenOf(n, t, Null, k);
    SubtreeShape(t, k);
    var K := Subtree(t, k);
    SubtreeShape(t, c); SubtreeShape(t, o);
    SubtreeLinked(n, t, Null, c); SubtreeLinked(n, t, Null, o);
    BranchParts(K);
    SwapUnion(Handles(K.l), Handles(K.r), Handles(Subtree(t, c)), Handles(Subtree(t, o)),
              Leaves(K.l), Leaves(K.r), Leaves(Subtree(t, c)), Leaves(Subtree(t, o)));
  }

  /** What a rotatable node's neighbourhood looks like, with `p`, `g`, `u` and `b` its parent, grandparent, uncle and brother. */
  ghost predicate Around(n: seq<Node>, t: Shape, x: int, p: int, g: int, u: int, b: int)
  {
    (p == ParentOf(n, x) && g == ParentOf(n, p) && u == Uncle(n, x) && b == Brother(n, x)) &&
    (0 <= x < |n| && 0 <= p < |n| && 0 <= g < |n| && 0 <= u < |n| && 0 <= b < |n|) &&
    (x in Handles(t) && p in Handles(t) && g in Handles(t) && u in Handles(t) && b in Handles(t)) &&
    ((n[g].left == p && n[g].right == u) || (n[g].left == u && n[g].right == p)) &&
    ((n[p].left == x && n[p].right == b) || (n[p].left == b && n[p].right == x)) &&
    (n[p].parent == g && n[x].parent == p && n[u].parent == g && n[b].parent == p) &&
    (Subtree(t, g).h == g && Subtree(t, u).h == u && Subtree(t, x).h == x && Subtree(t, b).h == b) &&
    (Linked(n, Subtree(t, g), ParentOf(n, g)) && Distinct(Subtree(t, g))) &&
    (Linked(n, Subtree(t, u), g) && Linked(n, Subtree(t, x), p) && Linked(n, Subtree(t, b), p)) &&
    (Distinct(Subtree(t, u)) && Distinct(Subtree(t, x)) && Distinct(Subtree(t, b))) &&
    (Split(g, p, Handles(Subtree(t, g)), Handles(Subtree(t, u)), Handles(Subtree(t, x)), Handles(Subtree(t, b)))) &&
    (Leaves(Subtree(t, g)) == Leaves(Subtree(t, u)) + Leaves(Subtree(t, x)) + Leaves(Subtree(t, b))) &&
    (Handles(Subtree(t, g)) <= Handles(t) && Leaves(Subtree(t, g)) <= Leaves(t)) &&
    (g != t.h ==> ParentOf(n, g) in Handles(t) - Handles(Subtree(t, g))) &&
    (g == t.h ==> ParentOf(n, g) == Null) &&
    (g != t.h ==> 0 <= ParentOf(n, g) < |n| && (n[ParentOf(n, g)].left == g || n[ParentOf(n, g)].right == g)) &&
    Apart(x, p, g, u, b)
  }

  /** The five handles a rotation touches are pairwise different. */
  ghost predicate Apart(x: int, p: int, g: int, u: int, b: int)
  {
    x != p && x != g && x != u && x != b && p != g && p != u && p != b && g != u && g != b && u != b
  }

  /** The neighbourhood of a rotatable node, named. */
  lemma Decompose(n: seq<Node>, t: Shape, x: int) returns (p: int, g: int, u: int, b: int)
    requires Linked(n, t, Null) && Distinct(t) && Rotatable(n, t, x)
    ensures Around(n, t, x, p, g, u, b)
  {
    Neighbourhood(n, t, x);
    p := ParentOf(n, x);
    g := ParentOf(n, p);
    u := Uncle(n, x);
    b := Brother(n, x);
    SubtreeLinked(n, t, Null, x);
    SubtreeLinked(n, t, Null, p);
    SubtreeLinked(n, t, Null, g);
    ChildrenOf(n, t, Null, p);
    ChildrenOf(n, t, Null, g);
    Children(n, t, g, p, u);
    Children(n, t, p, x, b);
    SubtreeShape(t, g);
    SplitSets(g, p, Handles(Subtree(t, g)), Handles(Subtree(t, p)), Handles(Subtree(t, u)), Handles(Subtree(t, x)), Handles(Subtree(t, b)),
              Leaves(Subtree(t, g)), Leaves(Subtree(t, p)), Leaves(Subtree(t, u)), Leaves(Subtree(t, x)), Leaves(Subtree(t, b)));
    if g != t.h {
      var q := ParentOf(n, g);
      SubtreeLinked(n, t, Null, q);
      LinkedInRange(n, t, Null);
    }
    LeavesInHandles(Subtree(t, u)); LeavesInHandles(Subtree(t, x)); LeavesInHandles(Subtree(t, b));
  }

  /** `n'` holds the entries a rotation of `x` writes, and `n`'s everywhere else. */
  ghost predicate RotatedAt(n: seq<Node>, n': seq<Node>, x: int, p: int, g: int, u: int, b: int)
  {
    |n'| == |n| && 0 <= x < |n| && 0 <= p < |n| && 0 <= g < |n| && 0 <= u < |n| && 0 <= b < |n| &&
    n'[g] == (if n[g].left == p then n[g].(right := x) else n[g].(left := x)) &&
    n'[x] == n[x].(parent := g) &&
    n'[p] == (if n[p].left == x then n[p].(left := u) else n[p].(right := u)).(volume := Union(n[u].volume, n[b].volume)) &&
    n'[u] == n[u].(parent := p) &&
    forall k :: 0 <= k < |n| && k !in {x, p, g, u} ==> n'[k] == n[k]
  }

  /** The arena entries a rotation writes, one by one. */
  lemma RotatedEntries(n: seq<Node>, x: int, p: int, g: int, u: int, b: int)
    requires p == ParentOf(n, x) && g == ParentOf(n, p) && u == Uncle(n, x) && b == Brother(n, x)
    requires 0 <= x < |n| && 0 <= p < |n| && 0 <= g < |n| && 0 <= u < |n| && 0 <= b < |n|
    requires Apart(x, p, g, u, b)
    ensures RotatedAt(n, RotatedNodes(n, x), x, p, g, u, b)
  {
  }

  lemma NewSets(g: int, p: int, hg: set<int>, hu: set<int>, hx: set<int>, hb: set<int>, hp': set<int>, hg': set<int>)
    requires Split(g, p, hg, hu, hx, hb)
    requires hp' == {p} + hu + hb && hg' == {g} + hp' + hx
    ensures hu !! hb && p !in hu + hb && hp' !! hx && g !in hp' + hx && hg' == hg
  {
  }

  /** Outside the four handles it writes, a rotation leaves every link as it was. */
  lemma RotatedFrame(n: seq<Node>, n': seq<Node>, x: int, p: int, g: int, u: int, b: int, hs: set<int>)
    requires RotatedAt(n, n', x, p, g, u, b)
    requires forall k :: k in hs ==> 0 <= k < |n| && k != x && k != p && k != g && k != u
    ensures Unchanged(n, n', hs)
  {
  }

  /** The rearranged subtree holds the same nodes and leaves as the grandparent's subtree did. */
  lemma RotatedSubtreeHandles(n: seq<Node>, t: Shape, x: int, p: int, g: int, u: int, b: int)
    requires Around(n, t, x, p, g, u, b)
    ensures x in Handles(t) && Uncle(n, x) in Handles(t) && Brother(n, x) in Handles(t)
    ensures var G' := RotatedSubtree(n, t, x);
      G'.h == g && Distinct(G') &&
      Handles(G') == Handles(Subtree(t, g)) && Leaves(G') == Leaves(Subtree(t, g)) &&
      Handles(Subtree(t, x)) <= Handles(G') &&
      forall j :: j in Handles(Subtree(t, x)) ==> PathTo(G', j) == [g] + PathTo(Subtree(t, x), j)
  {
    var G, U, X, B := Subtree(t, g), Subtree(t, u), Subtree(t, x), Subtree(t, b);
    var nP := if n[p].left == x then Branch(p, U, B) else Branch(p, B, U);
    var nG := RotatedSubtree(n, t, x);
    assert nG == if n[g].left == p then Branch(g, nP, X) else Branch(g, X, nP);
    NewSets(g, p, Handles(G), Handles(U), Handles(X), Handles(B), Handles(nP), Handles(nG));
  }

  /** The rearranged subtree is linked in the rotated arena. */
  lemma RotatedSubtreeLinked(n: seq<Node>, n': seq<Node>, t: Shape, x: int, p: int, g: int, u: int, b: int)
    requires Around(n, t, x, p, g, u, b) && RotatedAt(n, n', x, p, g, u, b)
    ensures x in Handles(t) && Uncle(n, x) in Handles(t) && Brother(n, x) in Handles(t)
    ensures Linked(n', RotatedSubtree(n, t, x), ParentOf(n, g))
  {
    var G, U, X, B := Subtree(t, g), Subtree(t, u), Subtree(t, x), Subtree(t, b);
    LeavesInHandles(U); LeavesInHandles(X); LeavesInHandles(B);
    LinkedInRange(n, U, g); LinkedInRange(n, X, p); LinkedInRange(n, B, p);
    RotatedFrame(n, n', x, p, g, u, b, Handles(U) - {u});
    RotatedFrame(n, n', x, p, g, u, b, Handles(X) - {x});
    RotatedFrame(n, n', x, p, g, u, b, Handles(B));
    var nP := if n[p].left == x then Branch(p, U, B) else Branch(p, B, U);
    var nG := RotatedSubtree(n, t, x);
    assert nG == if n[g].left == p then Branch(g, nP, X) else Branch(g, X, nP);
    LinkedReparent(n, n', U, g, p);
    LinkedReparent(n, n', X, p, g);
    LinkedFrame(n, n', B, p);
    assert Linked(n', nP, g);
  }

  /** Rotation keeps the arena a linked tree with the same nodes and leaves, and moves `x` up under its grandparent. */
  lemma RotationLinked(n: seq<Node>, t: Shape, x: int)
    requires Linked(n, t, Null) && Distinct(t) && Rotatable(n, t, x)
    ensures var n' := RotatedNodes(n, x);
      var t' := RotatedShape(n, t, x);
      |n'| == |n| && Linked(n', t', Null) && Distinct(t') && t'.h == t.h &&
      Handles(t') == Handles(t) && Leaves(t') == Leaves(t) &&
      ParentOf(n', x) == ParentOf(n, ParentOf(n, x))
  {
    var p, g, u, b := Decompose(n, t, x);
    RotatedEntries(n, x, p, g, u, b);
    RotatedSubtreeHandles(n, t, x, p, g, u, b);
    RotationLinkedAt(n, RotatedNodes(n, x), t, x, p, g, u, b);
  }

  /** The handles outside the grandparent's subtree are none of the four a rotation writes. */
  lemma OutsideSubtree(n: seq<Node>, t: Shape, x: int, p: int, g: int, u: int, b: int)
    requires Linked(n, t, Null) && Around(n, t, x, p, g, u, b)
    ensures forall k :: k in Handles(t) - Handles(Subtree(t, g)) ==> 0 <= k < |n| && k != x && k != p && k != g && k != u
  {
    LinkedInRange(n, t, Null);
    LeavesInHandles(Subtree(t, u)); LeavesInHandles(Subtree(t, x));
  }

  lemma RotationLinkedAt(n: seq<Node>, n': seq<Node>, t: Shape, x: int, p: int, g: int, u: int, b: int)
    requires Linked(n, t, Null) && Distinct(t)
    requires Around(n, t, x, p, g, u, b) && RotatedAt(n, n', x, p, g, u, b)
    ensures x in Handles(t) && Uncle(n, x) in Handles(t) && Brother(n, x) in Handles(t)
    ensures var t' := Replace(t, g, RotatedSubtree(n, t, x));
      Linked(n', t', Null) && Distinct(t') && t'.h == t.h &&
      Handles(t') == Handles(t) && Leaves(t') == Leaves(t)
  {
    RotatedSubtreeHandles(n, t, x, p, g, u, b);
    RotatedSubtreeLinked(n, n', t, x, p, g, u, b);
    var nG := RotatedSubtree(n, t, x);
    var G := Subtree(t, g);
    OutsideSubtree(n, t, x, p, g, u, b);
    RotatedFrame(n, n', x, p, g, u, b, Handles(t) - Handles(G) - {ParentOf(n, g)});
    ReplaceLinked(n, n', t, Null, g, nG);
    ReplaceHandles(t, g, nG);
    SwapSame(Handles(t), Handles(G), Handles(nG));
    SwapSame(Leaves(t), Leaves(G), Leaves(nG));
  }

  lemma SwapSame(a: set<int>, b: set<int>, c: set<int>)
    requires b <= a && c == b
    ensures a - b + c == a
  {
  }

  /** The path to a node with a grandparent ends with the grandparent, the parent and the node. */
  lemma PathTwoUp(n: seq<Node>, t: Shape, x: int)
    requires Linked(n, t, Null) && Distinct(t) && Rotatable(n, t, x)
    ensures PathTo(t, x) == PathTo(t, ParentOf(n, ParentOf(n, x))) + [ParentOf(n, x), x]
  {
    LinkedInRange(n, t, Null);
    SubtreeLinked(n, t, Null, x);
    PathToParent(n, t, Null, x);
    PathToParent(n, t, Null, ParentOf(n, x));
  }

  /** Replacing a subtree by one with the same handles at the same root keeps the path to that root. */
  lemma ReplaceRootPath(t: Shape, g: int, s: Shape)
    requires Distinct(t) && g in Handles(t) && Distinct(s) && s.h == g
    requires Handles(s) == Handles(Subtree(t, g))
    ensures PathTo(Replace(t, g, s), g) == PathTo(t, g)
  {
    LeavesInHandles(s);
    PathToEnds(t, g);
    PathToReplace(t, g, s, g);
    DropLast(PathTo(t, g), g, []);
  }

  /** ... and below that root, paths run through the new subtree. */
  lemma ReplacePath(t: Shape, g: int, s: Shape, j: int)
    requires Distinct(t) && g in Handles(t) && Distinct(s)
    requires Handles(s) == Handles(Subtree(t, g)) && j in Handles(s)
    ensures |PathTo(t, g)| >= 1
    ensures PathTo(Replace(t, g, s), j) == PathTo(t, g)[..|PathTo(t, g)| - 1] + PathTo(s, j)
  {
    assert Handles(s) !! (Handles(t) - Handles(Subtree(t, g)));
    PathToReplace(t, g, s, j);
  }

  /** After rotation the path to the grandparent is unchanged, and the path to `x` is one step shorter. */
  lemma RotationPaths(n: seq<Node>, t: Shape, x: int)
    requires Linked(n, t, Null) && Distinct(t) && Rotatable(n, t, x)
    ensures var g := ParentOf(n, ParentOf(n, x));
      var t' := RotatedShape(n, t, x);
      g in Handles(t) && x in Handles(t) &&
      PathTo(t, x) == PathTo(t, g) + [ParentOf(n, x), x] &&
      PathTo(t', g) == PathTo(t, g)
  {
    var p, g, u, b := Decompose(n, t, x);
    RotatedSubtreeHandles(n, t, x, p, g, u, b);
    PathTwoUp(n, t, x);
    ReplaceRootPath(t, g, RotatedSubtree(n, t, x));
  }

  /** Below `x`, every path runs from the grandparent straight into `x`'s subtree. */
  lemma RotationPathBelow(n: seq<Node>, t: Shape, x: int, j: int)
    requires Linked(n, t, Null) && Distinct(t) && Rotatable(n, t, x)
    requires j in Handles(Subtree(t, x))
    ensures var g := ParentOf(n, ParentOf(n, x));
      g in Handles(t) &&
      PathTo(RotatedShape(n, t, x), j) == PathTo(t, g) + PathTo(Subtree(t, x), j)
  {
    var p, g, u, b := Decompose(n, t, x);
    RotatedSubtreeHandles(n, t, x, p, g, u, b);
    PathBelow(t, g, RotatedSubtree(n, t, x), Subtree(t, x), j);
  }

  lemma PathBelow(t: Shape, g: int, s: Shape, X: Shape, j: int)
    requires Distinct(t) && g in Handles(t) && Distinct(s)
    requires Handles(s) == Handles(Subtree(t, g)) && j in Handles(X) && Handles(X) <= Handles(s)
    requires PathTo(s, j) == [g] + PathTo(X, j)
    ensures PathTo(Replace(t, g, s), j) == PathTo(t, g) + PathTo(X, j)
  {
    PathToEnds(t, g);
    ReplacePath(t, g, s, j);
    DropLast(PathTo(t, g), g, PathTo(X, j));
  }
}

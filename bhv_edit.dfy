// The link surgery of UnsafeBHVTree.Add (splicing a new parent in above the
// chosen sibling) and of UnsafeBHVTree.RemoveAt (splicing the sibling into the
// removed parent's place), stated on arena values.
module BHVEdit {
  import opened Volumes
  import opened BHVShape
  import opened BHVRotation
  import opened BHVWalk

  // ---------------------------------------------------------------------------
  // Add, stage 2.

  /**
   * The arena after `Add` links the new parent `q` in `best`'s place (as the
   * root when `best` is the root) with `best` as its left and the new leaf `l`
   * as its right child, in the order the source writes the links.
   */
  ghost function SplicedNodes(n: seq<Node>, root: int, best: int, l: int, q: int): seq<Node>
    requires 0 <= best < |n| && 0 <= l < |n| && 0 <= q < |n|
    requires best != root ==> 0 <= n[best].parent < |n|
  {
    var g := n[best].parent;
    var n1 := if best == root then n[q := n[q].(parent := Null)]
      else
        var g1 := if n[g].left == best then n[g].(left := q) else n[g].(right := q);
        var n0 := n[g := g1];
        n0[q := n0[q].(parent := g)];
    var n2 := n1[q := n1[q].(left := best, right := l)];
    var n3 := n2[best := n2[best].(parent := q)];
    n3[l := n3[l].(parent := q, left := Null, right := Null)]
  }

  /** The spliced subtree: the new parent over the old subtree at `best` and the new leaf. */
  ghost function Grafted(t: Shape, best: int, l: int, q: int): Shape
    requires best in Handles(t)
  {
    Branch(q, Subtree(t, best), Leaf(l))
  }

  /** `n'` holds the entries the splice writes, and `n`'s everywhere else; no volume changes. */
  ghost predicate SplicedAt(n: seq<Node>, n': seq<Node>, best: int, l: int, q: int, g: int)
  {
    |n'| == |n| && 0 <= best < |n| && 0 <= l < |n| && 0 <= q < |n| &&
    (g != Null ==> 0 <= g < |n| && n'[g] == (if n[g].left == best then n[g].(left := q) else n[g].(right := q))) &&
    n'[q] == n[q].(parent := g, left := best, right := l) &&
    n'[best] == n[best].(parent := q) &&
    n'[l] == n[l].(parent := q, left := Null, right := Null) &&
    (forall k :: 0 <= k < |n| && k != g && k != q && k != best && k != l ==> n'[k] == n[k]) &&
    (forall k :: 0 <= k < |n| ==> n'[k].volume == n[k].volume && n'[k].value == n[k].value)
  }

  lemma SplicedEntries(n: seq<Node>, root: int, best: int, l: int, q: int, g: int)
    requires 0 <= best < |n| && 0 <= l < |n| && 0 <= q < |n|
    requires g == (if best == root then Null else n[best].parent)
    requires best != root ==> 0 <= g < |n| && g != q && g != l && g != best
    requires best != l && best != q && l != q
    ensures SplicedAt(n, SplicedNodes(n, root, best, l, q), best, l, q, g)
  {
  }

  /** What the tree looks like around the chosen sibling `best`, whose parent is `g` (Null at the root). */
  ghost predicate SpliceAround(n: seq<Node>, t: Shape, best: int, l: int, q: int, g: int)
  {
    (0 <= best < |n| && 0 <= l < |n| && 0 <= q < |n|) &&
    (best in Handles(t) && l !in Handles(t) && q !in Handles(t) && l != q && best != l && best != q) &&
    (forall k :: k in Handles(t) ==> 0 <= k < |n|) &&
    g == (if best == t.h then Null else n[best].parent) && ParentOf(n, best) == g &&
    (Subtree(t, best).h == best && Linked(n, Subtree(t, best), g) && Distinct(Subtree(t, best))) &&
    (Handles(Subtree(t, best)) <= Handles(t) && Leaves(Subtree(t, best)) <= Handles(Subtree(t, best))) &&
    (Leaves(Subtree(t, best)) <= Leaves(t)) &&
    (best != t.h ==>
      (g in Handles(t) - Handles(Subtree(t, best)) && 0 <= g < |n| && (n[g].left == best || n[g].right == best) &&
       g != q && g != l && g in PathTo(t, g))) &&
    PathTo(t, best) == PathTo(t, g) + [best]
  }

  /** The neighbourhood of the chosen sibling, named. */
  lemma Graft(n: seq<Node>, t: Shape, best: int, l: int, q: int) returns (g: int)
    requires Linked(n, t, Null) && Distinct(t)
    requires best in Handles(t) && l !in Handles(t) && q !in Handles(t) && l != q
    requires 0 <= l < |n| && 0 <= q < |n|
    ensures SpliceAround(n, t, best, l, q, g)
  {
    LinkedInRange(n, t, Null);
    LeavesInHandles(t);
    SubtreeLinked(n, t, Null, best);
    SubtreeShape(t, best);
    LeavesInHandles(Subtree(t, best));
    g := if best == t.h then Null else n[best].parent;
    if best != t.h {
      LeafIff(n, t, Null, g);
      assert n[g].left != Null by {
        SubtreeShape(t, g);
        if n[g].left == Null {
          LeafSubtree(t, g);
        }
      }
      ChildrenOf(n, t, Null, g);
      SubtreeShape(t, n[g].left);
      SubtreeShape(t, n[g].right);
      SubtreeShape(t, g);
      PathToEnds(t, g);
    }
    PathToParent(n, t, Null, best);
  }

  /**
   * Splicing keeps the arena a linked tree that gains the new parent and the
   * new leaf, with the new parent in `best`'s old place; off the path to the
   * new parent every node still encloses its children.
   */
  lemma SpliceStep(n: seq<Node>, t: Shape, best: int, l: int, q: int)
    requires Linked(n, t, Null) && Distinct(t) && Enclosed(n, t, [])
    requires best in Handles(t) && l !in Handles(t) && q !in Handles(t) && l != q
    requires 0 <= l < |n| && 0 <= q < |n|
    ensures 0 <= best < |n| && (best != t.h ==> 0 <= n[best].parent < |n|)
    ensures var n', t' := SplicedNodes(n, t.h, best, l, q), Replace(t, best, Grafted(t, best, l, q));
      |n'| == |n| && Linked(n', t', Null) && Distinct(t') &&
      t'.h == (if best == t.h then q else t.h) &&
      Handles(t') == Handles(t) + {l} + {q} && Leaves(t') == Leaves(t) + {l} &&
      q in Handles(t') && Enclosed(n', t', PathTo(t', q))
    ensures var n' := SplicedNodes(n, t.h, best, l, q);
      forall k :: 0 <= k < |n| ==> n'[k].volume == n[k].volume && n'[k].value == n[k].value
  {
    var g := Graft(n, t, best, l, q);
    var n' := SplicedNodes(n, t.h, best, l, q);
    SplicedEntries(n, t.h, best, l, q, g);
    SpliceLinked(n, n', t, best, l, q, g);
    SpliceShape(t, best, l, q);
    SplicePath(t, best, l, q, g);
    SpliceEnclosed(n, n', t, Replace(t, best, Grafted(t, best, l, q)), best, l, q, g);
  }

  /** The spliced tree gains exactly the new parent and the new leaf. */
  lemma SpliceShape(t: Shape, best: int, l: int, q: int)
    requires Distinct(t) && best in Handles(t) && l !in Handles(t) && q !in Handles(t) && l != q
    ensures var t' := Replace(t, best, Grafted(t, best, l, q));
      t'.h == (if best == t.h then q else t.h) && q in Handles(t') &&
      Handles(t') == Handles(t) + {l} + {q} && Leaves(t') == Leaves(t) + {l}
  {
    SubtreeShape(t, best);
    var B := Subtree(t, best);
    LeavesInHandles(B);
    LeavesInHandles(t);
    ReplaceHandles(t, best, Grafted(t, best, l, q));
    SpliceSets(Handles(t), Handles(B), q, l);
    SpliceSets(Leaves(t), Leaves(B), q, l);
  }

  lemma SpliceSets(a: set<int>, b: set<int>, q: int, l: int)
    requires b <= a && q !in a && l !in a
    ensures a - b + ({q} + b + {l}) == a + {l} + {q}
    ensures a - b + (b + {l}) == a + {l}
  {
  }

  lemma SplicedFrame(n: seq<Node>, n': seq<Node>, best: int, l: int, q: int, g: int, hs: set<int>)
    requires SplicedAt(n, n', best, l, q, g)
    requires forall k :: k in hs ==> 0 <= k < |n| && k != g && k != q && k != best && k != l
    ensures Unchanged(n, n', hs)
  {
  }

  /** The spliced tree is linked in the spliced arena. */
  lemma SpliceLinked(n: seq<Node>, n': seq<Node>, t: Shape, best: int, l: int, q: int, g: int)
    requires Linked(n, t, Null) && Distinct(t)
    requires SpliceAround(n, t, best, l, q, g) && SplicedAt(n, n', best, l, q, g)
    ensures Linked(n', Replace(t, best, Grafted(t, best, l, q)), Null)
    ensures Distinct(Replace(t, best, Grafted(t, best, l, q)))
  {
    var B := Subtree(t, best);
    var s := Grafted(t, best, l, q);
    SplicedFrame(n, n', best, l, q, g, Handles(B) - {best});
    LinkedReparent(n, n', B, g, q);
    assert Linked(n', Leaf(l), q);
    assert Linked(n', s, g);
    SplicedFrame(n, n', best, l, q, g, Handles(t) - Handles(B) - {g});
    if best != t.h {
      assert SlotReplaced(n[g], n'[g], best, q);
    }
    ReplaceLinked(n, n', t, Null, best, s);
  }

  lemma DropLastOf(pt: seq<int>, x: int)
    ensures (pt + [x])[..|pt + [x]| - 1] == pt
  {
    assert (pt + [x])[..|pt|] == pt;
  }

  /** The path to the new parent is the path to the old parent of `best`, followed by the new parent. */
  lemma SplicePath(t: Shape, best: int, l: int, q: int, g: int)
    requires Distinct(t) && best in Handles(t) && l !in Handles(t) && q !in Handles(t) && l != q
    requires PathTo(t, best) == PathTo(t, g) + [best]
    ensures PathTo(Replace(t, best, Grafted(t, best, l, q)), q) == PathTo(t, g) + [q]
  {
    SubtreeShape(t, best);
    var B := Subtree(t, best);
    LeavesInHandles(B);
    var s := Grafted(t, best, l, q);
    assert PathTo(s, q) == [q];
    PathToReplace(t, best, s, q);
    DropLastOf(PathTo(t, g), best);
  }

  /** Off the path to the new parent, every node of the spliced tree encloses its children. */
  lemma SpliceEnclosed(n: seq<Node>, n': seq<Node>, t: Shape, t': Shape, best: int, l: int, q: int, g: int)
    requires Enclosed(n, t, []) && SpliceAround(n, t, best, l, q, g) && SplicedAt(n, n', best, l, q, g)
    requires Handles(t') == Handles(t) + {l} + {q} && PathTo(t', q) == PathTo(t, g) + [q]
    ensures Enclosed(n', t', PathTo(t', q))
  {
    forall k | k in Handles(t') && k !in PathTo(t', q) ensures EnclosesChildren(n', k) {
      if k != l {
        assert k in Handles(t) && k != g && k != q;
        SpliceKeeps(n, n', best, l, q, g, k);
      }
    }
  }

  lemma SpliceKeeps(n: seq<Node>, n': seq<Node>, best: int, l: int, q: int, g: int, k: int)
    requires SplicedAt(n, n', best, l, q, g) && EnclosesChildren(n, k) && k != g && k != q && k != l
    ensures EnclosesChildren(n', k)
  {
  }

  // ---------------------------------------------------------------------------
  // RemoveAt.

  /** The other child of `h`'s parent, as RemoveAt picks it. */
  ghost function Sibling(n: seq<Node>, h: int): int
  {
    Brother(n, h)
  }

  /**
   * The arena after RemoveAt unlinks leaf `h` and its parent: the sibling
   * takes the parent's slot in the grandparent, or becomes the root.
   */
  ghost function RemovedNodes(n: seq<Node>, root: int, h: int): seq<Node>
  {
    var p := ParentOf(n, h);
    var s := Sibling(n, h);
    if !(0 <= p < |n| && 0 <= s < |n|) then n
    else if p == root then n[s := n[s].(parent := Null)]
    else
      var g := n[p].parent;
      if !(0 <= g < |n|) then n
      else
        var n1 := n[g := if n[g].left == p then n[g].(left := s) else n[g].(right := s)];
        n1[s := n1[s].(parent := g)]
  }

  /** `n'` holds the entries RemoveAt writes, and `n`'s everywhere else; no volume changes. */
  ghost predicate RemovedAt(n: seq<Node>, n': seq<Node>, p: int, s: int, g: int)
  {
    |n'| == |n| && 0 <= p < |n| && 0 <= s < |n| &&
    (g != Null ==> 0 <= g < |n| && n'[g] == (if n[g].left == p then n[g].(left := s) else n[g].(right := s))) &&
    n'[s] == n[s].(parent := g) &&
    (forall k :: 0 <= k < |n| && k != g && k != s ==> n'[k] == n[k]) &&
    (forall k :: 0 <= k < |n| ==> n'[k].volume == n[k].volume && n'[k].value == n[k].value)
  }

  /** What the neighbourhood of a non-root leaf `h` looks like, with `p`, `s`, `g` and `o` its parent, sibling, grandparent and uncle. */
  ghost predicate RemoveAround(n: seq<Node>, t: Shape, h: int, p: int, s: int, g: int, o: int)
  {
    (p == ParentOf(n, h) && s == Sibling(n, h) && g == (if p == t.h then Null else ParentOf(n, p))) &&
    (0 <= h < |n| && 0 <= p < |n| && 0 <= s < |n|) &&
    (h in Handles(t) && p in Handles(t) && s in Handles(t) && h != p && s != p && s != h) &&
    ((n[p].left == h && n[p].right == s) || (n[p].left == s && n[p].right == h)) &&
    (n[s].parent == p && n[h].parent == p) &&
    (Subtree(t, p).h == p && Subtree(t, s).h == s && Subtree(t, h) == Leaf(h)) &&
    (Linked(n, Subtree(t, s), p) && Distinct(Subtree(t, s)) && Distinct(Subtree(t, p))) &&
    Handles(Subtree(t, p)) == {p} + Handles(Subtree(t, s)) + {h} &&
    p !in Handles(Subtree(t, s)) && h !in Handles(Subtree(t, s)) &&
    Leaves(Subtree(t, p)) == Leaves(Subtree(t, s)) + {h} && h !in Leaves(Subtree(t, s)) &&
    Handles(Subtree(t, p)) <= Handles(t) && Leaves(Subtree(t, p)) <= Leaves(t) &&
    (g != Null ==>
      (g in Handles(t) - Handles(Subtree(t, p)) && 0 <= g < |n| && 0 <= o < |n| &&
       ((n[g].left == p && n[g].right == o) || (n[g].left == o && n[g].right == p)) && o != g && o != s)) &&
    (g == Null <==> p == t.h)
  }

  /** The neighbourhood of a non-root leaf, named. */
  lemma Unlink(n: seq<Node>, t: Shape, h: int) returns (p: int, s: int, g: int, o: int)
    requires Linked(n, t, Null) && Distinct(t) && h in Leaves(t) && h != t.h
    ensures RemoveAround(n, t, h, p, s, g, o)
  {
    LeavesInHandles(t);
    LinkedInRange(n, t, Null);
    LeafIff(n, t, Null, h);
    SubtreeLinked(n, t, Null, h);
    p := ParentOf(n, h);
    LeafIff(n, t, Null, p);
    assert n[p].left != Null by {
      SubtreeShape(t, p);
      if n[p].left == Null {
        LeafSubtree(t, p);
      }
    }
    s := Sibling(n, h);
    ChildrenOf(n, t, Null, p);
    SubtreeShape(t, h);
    SubtreeShape(t, n[p].left);
    SubtreeShape(t, n[p].right);
    Children(n, t, p, h, s);
    LeafSubtree(t, h);
    SubtreeShape(t, p);
    LeavesInHandles(Subtree(t, s));
    g := if p == t.h then Null else n[p].parent;
    o := Null;
    if p != t.h {
      SubtreeLinked(n, t, Null, p);
      SubtreeLinked(n, t, Null, g);
      SubtreeShape(t, g);
      LinkedInRange(n, Subtree(t, g), ParentOf(n, g));
      LeavesInHandles(Subtree(t, g).l);
      o := if n[g].left == p then n[g].right else n[g].left;
      Children(n, t, g, p, o);
      LeavesInHandles(Subtree(t, o));
    }
  }

  lemma RemovedEntries(n: seq<Node>, root: int, h: int, p: int, s: int, g: int)
    requires p == ParentOf(n, h) && s == Sibling(n, h) && 0 <= p < |n| && 0 <= s < |n| && s != p
    requires g == (if p == root then Null else n[p].parent)
    requires p != root ==> 0 <= g < |n| && g != s
    ensures RemovedAt(n, RemovedNodes(n, root, h), p, s, g)
  {
  }

  /** Removing a non-root leaf keeps a linked tree without the leaf and its parent; volumes, all left as they were, still enclose. */
  lemma RemoveStep(n: seq<Node>, t: Shape, h: int)
    requires Linked(n, t, Null) && Distinct(t) && Enclosed(n, t, [])
    requires h in Leaves(t) && h != t.h
    ensures ParentOf(n, h) in Handles(t) && Sibling(n, h) in Handles(t)
    ensures var p := ParentOf(n, h);
      0 <= h < |n| && 0 <= p < |n| && 0 <= Sibling(n, h) < |n| &&
      Sibling(n, h) == (if n[p].left == h then n[p].right else n[p].left) &&
      (p != t.h ==> 0 <= n[p].parent < |n|)
    ensures var p := ParentOf(n, h);
      var n', t' := RemovedNodes(n, t.h, h), Replace(t, p, Subtree(t, Sibling(n, h)));
      p != h && h in Handles(t) &&
      |n'| == |n| && Linked(n', t', Null) && Distinct(t') &&
      t'.h == (if p == t.h then Sibling(n, h) else t.h) &&
      Handles(t') == Handles(t) - {h} - {p} && Leaves(t') == Leaves(t) - {h} &&
      Enclosed(n', t', []) &&
      forall k :: 0 <= k < |n| ==> n'[k].volume == n[k].volume && n'[k].value == n[k].value
  {
    var p, s, g, o := Unlink(n, t, h);
    var n' := RemovedNodes(n, t.h, h);
    RemovedEntries(n, t.h, h, p, s, g);
    RemoveLinked(n, n', t, h, p, s, g, o);
    var S := Subtree(t, s);
    var t' := Replace(t, p, S);
    ReplaceHandles(t, p, S);
    LeavesInHandles(S);
    RemoveSets(Handles(t), Handles(Subtree(t, p)), Handles(S), p, h);
    RemoveSets(Leaves(t), Leaves(Subtree(t, p)), Leaves(S), p, h);
    RemoveEnclosed(n, n', t, t', h, p, s, g, o);
  }

  lemma RemoveSets(a: set<int>, sp: set<int>, ss: set<int>, p: int, h: int)
    requires sp <= a && p !in ss && h !in ss && (sp == {p} + ss + {h} || sp == ss + {h})
    ensures sp == {p} + ss + {h} ==> a - sp + ss == a - {h} - {p}
    ensures sp == ss + {h} ==> a - sp + ss == a - {h}
  {
  }

  /** The tree with the parent's subtree replaced by the sibling's is linked in the new arena. */
  lemma RemoveLinked(n: seq<Node>, n': seq<Node>, t: Shape, h: int, p: int, s: int, g: int, o: int)
    requires Linked(n, t, Null) && Distinct(t)
    requires RemoveAround(n, t, h, p, s, g, o) && RemovedAt(n, n', p, s, g)
    ensures Linked(n', Replace(t, p, Subtree(t, s)), Null) && Distinct(Replace(t, p, Subtree(t, s)))
  {
    var S := Subtree(t, s);
    LinkedInRange(n, t, Null);
    LinkedInRange(n, S, p);
    RemovedFrame(n, n', p, s, g, Handles(S) - {s});
    LinkedReparent(n, n', S, p, g);
    if p != t.h {
      SubtreeLinked(n, t, Null, p);
      assert SlotReplaced(n[g], n'[g], p, s);
    }
    RemovedFrame(n, n', p, s, g, Handles(t) - Handles(Subtree(t, p)) - {ParentOf(n, p)});
    ReplaceLinked(n, n', t, Null, p, S);
  }

  lemma RemovedFrame(n: seq<Node>, n': seq<Node>, p: int, s: int, g: int, hs: set<int>)
    requires RemovedAt(n, n', p, s, g)
    requires forall k :: k in hs ==> 0 <= k < |n| && k != s && k != g
    ensures Unchanged(n, n', hs)
  {
  }

  /** Every node of the shrunk tree still encloses its children: the grandparent's old box enclosed the parent's, which enclosed the sibling's. */
  lemma RemoveEnclosed(n: seq<Node>, n': seq<Node>, t: Shape, t': Shape, h: int, p: int, s: int, g: int, o: int)
    requires Enclosed(n, t, []) && RemoveAround(n, t, h, p, s, g, o) && RemovedAt(n, n', p, s, g)
    requires Handles(t') <= Handles(t)
    ensures Enclosed(n', t', [])
  {
    assert EnclosesChildren(n, p);
    if g != Null {
      assert EnclosesChildren(n, g);
    }
    forall k | k in Handles(t') ensures EnclosesChildren(n', k) {
      assert EnclosesChildren(n, k);
      RemoveKeeps(n, n', h, p, s, g, o, k);
    }
  }

  lemma RemoveKeeps(n: seq<Node>, n': seq<Node>, h: int, p: int, s: int, g: int, o: int, k: int)
    requires RemovedAt(n, n', p, s, g) && EnclosesChildren(n, k) && EnclosesChildren(n, p) && 0 <= h
    requires (n[p].left == h && n[p].right == s) || (n[p].left == s && n[p].right == h)
    requires g != Null ==>
      (0 <= g < |n| && 0 <= o < |n| && EnclosesChildren(n, g) &&
       ((n[g].left == p && n[g].right == o) || (n[g].left == o && n[g].right == p)) && o != g && o != s)
    ensures EnclosesChildren(n', k)
  {
    if k == g {
      assert Encloses(n[g].volume, n[p].volume) by {
        if n[g].left == p { assert n[n[g].left] == n[p]; } else { assert n[n[g].right] == n[p]; }
      }
      assert Encloses(n[p].volume, n[s].volume) by {
        if n[p].left == s { assert n[n[p].left] == n[s]; } else { assert n[n[p].right] == n[s]; }
      }
      EnclosesTransitive(n[g].volume, n[p].volume, n[s].volume);
    }
  }
}

// The overlap queries of the agent spatial index over the bounding-volume
// tree (Singleton.QuerySphere, QueryCircle and QueryCylinder and their
// maxCount variants): an explicit stack of handles, starting at the root,
// that skips every subtree whose box misses the query box and calls the
// action once for each leaf whose agent shares a layer with the query.
module SpatialQuery {
  import opened Volumes
  import opened BHVShape
  import opened BHVRotation
  import opened BHVWalk
  import opened BHVTree
  import opened Wrappers

  /** The components of an agent the index reads; only its navigation layers matter here. */
  datatype Agent = Agent(layers: bv32)

  /** NavigationLayers.Any: the two layer masks share a layer. */
  predicate LayersAny(a: bv32, b: bv32)
  {
    a & b != 0
  }

  /** The query box of QuerySphere and QueryCircle: `radius` around `center` on every axis. */
  function SphereBox(center: Vec3, radius: real): AABB
  {
    AABB(Sub3(center, Vec3(radius, radius, radius)), Add3(center, Vec3(radius, radius, radius)))
  }

  /** The query box of QueryCylinder: `radius` around `center` across, from `center` up by `height`. */
  function CylinderBox(center: Vec3, radius: real, height: real): AABB
  {
    AABB(Sub3(center, Vec3(radius, 0.0, radius)), Add3(center, Vec3(radius, height, radius)))
  }

  /**
   * What a traversal is asked: the query box, the layer mask, the point the
   * maxCount variants measure children against, and whether the nearer child
   * is visited first (the maxCount variants) or the right child is (the others).
   */
  datatype Query = Query(box: AABB, layers: bv32, center: Vec3, nearFirst: bool)

  /** A stored element is reported: its box overlaps the query box and its agent shares a layer. */
  ghost predicate Reports(n: seq<Node>, agents: seq<Agent>, q: Query, k: int)
  {
    0 <= k < |n| && Overlap(n[k].volume, q.box) &&
    0 <= n[k].value < |agents| && LayersAny(q.layers, agents[n[k].value].layers)
  }

  /** The stored elements of `s` that a query reports. */
  ghost function Matching(n: seq<Node>, agents: seq<Agent>, q: Query, s: Shape): set<int>
  {
    set k | k in Leaves(s) && Reports(n, agents, q, k)
  }

  /**
   * The leaves the traversal reports for subtree `s`, in the order it reports
   * them: nothing below a box that misses the query box; the right subtree
   * before the left, or the nearer (by DistanceToPoint) first when `nearFirst`.
   */
  ghost function Reported(n: seq<Node>, agents: seq<Agent>, q: Query, s: Shape): seq<int>
  {
    if !(0 <= s.h < |n|) || !Overlap(n[s.h].volume, q.box) then []
    else match s
      case Leaf(h) => if Reports(n, agents, q, h) then [h] else []
      case Branch(_, l, r) =>
        if q.nearFirst && 0 <= l.h < |n| && 0 <= r.h < |n| &&
           DistanceToPoint(n[l.h].volume, q.center) < DistanceToPoint(n[r.h].volume, q.center)
        then Reported(n, agents, q, l) + Reported(n, agents, q, r)
        else Reported(n, agents, q, r) + Reported(n, agents, q, l)
  }

  /** What is still to be reported from the subtrees whose roots are on the stack, top first. */
  ghost function Pending(n: seq<Node>, agents: seq<Agent>, q: Query, t: Shape, stack: seq<int>): seq<int>
    requires forall i :: 0 <= i < |stack| ==> stack[i] in Handles(t)
  {
    if |stack| == 0 then []
    else Reported(n, agents, q, Subtree(t, stack[|stack| - 1])) + Pending(n, agents, q, t, stack[..|stack| - 1])
  }

  /** The number of nodes in the subtrees on the stack, which every step lowers. */
  ghost function Work(t: Shape, stack: seq<int>): nat
    requires forall i :: 0 <= i < |stack| ==> stack[i] in Handles(t)
  {
    if |stack| == 0 then 0 else Size(Subtree(t, stack[|stack| - 1])) + Work(t, stack[..|stack| - 1])
  }

  /** The agent indices stored at the given handles, which the action is called with. */
  ghost function Values(n: seq<Node>, hs: seq<int>): seq<int>
  {
    if |hs| == 0 then [] else Values(n, hs[..|hs| - 1]) + [if 0 <= hs[|hs| - 1] < |n| then n[hs[|hs| - 1]].value else 0]
  }

  /** The longest prefix of `s` with at most `maxCount` entries; no limit unless `maxCount` is positive. */
  function Limit(s: seq<int>, maxCount: int): (r: seq<int>)
    ensures r <= s && (maxCount > 0 ==> |r| == MinInt(maxCount, |s|)) && (maxCount <= 0 ==> r == s)
  {
    if maxCount > 0 && maxCount < |s| then s[..maxCount] else s
  }

  function MinInt(a: int, b: int): int { if a <= b then a else b }

  /** Every leaf of a tree whose internal boxes enclose their children lies inside the root's box. */
  lemma {:induction false} LeafEnclosed(n: seq<Node>, s: Shape, p: int, k: int)
    requires Linked(n, s, p) && k in Leaves(s)
    requires forall j :: j in Handles(s) ==> EnclosesChildren(n, j)
    ensures 0 <= s.h < |n| && 0 <= k < |n| && Encloses(n[s.h].volume, n[k].volume)
  {
    match s
    case Leaf(_) =>
    case Branch(h, l, r) =>
      assert EnclosesChildren(n, h);
      if k in Leaves(l) {
        LeafEnclosed(n, l, h, k);
        EnclosesTransitive(n[h].volume, n[l.h].volume, n[k].volume);
      } else {
        LeafEnclosed(n, r, h, k);
        EnclosesTransitive(n[h].volume, n[r.h].volume, n[k].volume);
      }
  }

  /**
   * The traversal reports exactly the matching elements of `s`, each once:
   * skipping a subtree whose box misses the query box loses nothing, because
   * that box encloses every element box below it.
   */
  lemma {:induction false} ReportedExactly(n: seq<Node>, agents: seq<Agent>, q: Query, s: Shape, p: int)
    requires Linked(n, s, p) && Distinct(s)
    requires forall j :: j in Handles(s) ==> EnclosesChildren(n, j)
    ensures forall k :: k in Reported(n, agents, q, s) <==> k in Matching(n, agents, q, s)
    ensures NoDuplicates(Reported(n, agents, q, s))
  {
    var R := Reported(n, agents, q, s);
    if !Overlap(n[s.h].volume, q.box) {
      forall k | k in Leaves(s) ensures !Reports(n, agents, q, k) {
        LeafEnclosed(n, s, p, k);
        if Overlap(n[k].volume, q.box) {
          OverlapMonotone(n[s.h].volume, n[k].volume, q.box);
        }
      }
    } else {
      match s
      case Leaf(h) =>
      case Branch(h, l, r) =>
        ReportedExactly(n, agents, q, l, h);
        ReportedExactly(n, agents, q, r, h);
        LeavesInHandles(l);
        LeavesInHandles(r);
        var A, B := Reported(n, agents, q, l), Reported(n, agents, q, r);
        assert forall k :: k in A ==> k in Leaves(l);
        assert forall k :: k in B ==> k in Leaves(r);
        if R == A + B {
          JoinDistinct(A, B);
        } else {
          JoinDistinct(B, A);
        }
    }
  }

  /** Two duplicate-free sequences with no common entry join into one. */
  lemma JoinDistinct(a: seq<int>, b: seq<int>)
    requires NoDuplicates(a) && NoDuplicates(b) && forall k :: k in a ==> k !in b
    ensures NoDuplicates(a + b)
  {
    forall i, j | 0 <= i < j < |a + b| ensures (a + b)[i] != (a + b)[j] {
      if j >= |a| && i < |a| {
        assert (a + b)[i] in a && (a + b)[j] in b;
      }
    }
  }

  /** The matching set is finite and the traversal reports it without repeats, so its count is the set's size. */
  lemma CountIsMatching(n: seq<Node>, agents: seq<Agent>, q: Query, s: Shape, p: int)
    requires Linked(n, s, p) && Distinct(s)
    requires forall j :: j in Handles(s) ==> EnclosesChildren(n, j)
    ensures |Reported(n, agents, q, s)| == |Matching(n, agents, q, s)|
  {
    ReportedExactly(n, agents, q, s, p);
    DistinctCard(Reported(n, agents, q, s), Matching(n, agents, q, s));
  }

  /** A duplicate-free sequence has as many entries as the set of its entries. */
  lemma {:induction false} DistinctCard(s: seq<int>, m: set<int>)
    requires NoDuplicates(s) && forall k :: k in s <==> k in m
    ensures |s| == |m|
    decreases |s|
  {
    if |s| > 0 {
      var x := s[|s| - 1];
      var s' := s[..|s| - 1];
      assert NoDuplicates(s');
      forall i | 0 <= i < |s'| ensures s'[i] != x {
        assert s'[i] == s[i];
      }
      forall k ensures k in s' <==> k in m - {x} {
        if k in s' { assert k in s; }
        if k in m - {x} {
          assert k in s;
          var i :| 0 <= i < |s| && s[i] == k;
          assert i < |s| - 1 && s'[i] == k;
        }
      }
      DistinctCard(s', m - {x});
    } else {
      assert forall k :: k !in m;
    }
  }

  /** Values distributes over concatenation. */
  lemma {:induction false} ValuesAppend(n: seq<Node>, a: seq<int>, b: seq<int>)
    ensures Values(n, a + b) == Values(n, a) + Values(n, b)
    decreases |b|
  {
    if |b| > 0 {
      assert (a + b)[..|a + b| - 1] == a + b[..|b| - 1];
      ValuesAppend(n, a, b[..|b| - 1]);
    } else {
      assert a + b == a;
    }
  }

  /** Popping the top of the stack: its subtree is reported first, then the rest of the stack. */
  lemma PendingPop(n: seq<Node>, agents: seq<Agent>, q: Query, t: Shape, stack: seq<int>, rest: seq<int>)
    requires |stack| > 0 && forall i :: 0 <= i < |stack| ==> stack[i] in Handles(t)
    requires rest == stack[..|stack| - 1]
    ensures forall i :: 0 <= i < |rest| ==> rest[i] in Handles(t)
    ensures Pending(n, agents, q, t, stack) ==
      Reported(n, agents, q, Subtree(t, stack[|stack| - 1])) + Pending(n, agents, q, t, rest)
    ensures Work(t, stack) == Size(Subtree(t, stack[|stack| - 1])) + Work(t, rest)
  {
  }

  /** The stack `a + b` reports what `b` reports, then what `a` does. */
  lemma {:induction false} PendingConcat(n: seq<Node>, agents: seq<Agent>, q: Query, t: Shape, a: seq<int>, b: seq<int>)
    requires forall i :: 0 <= i < |a| ==> a[i] in Handles(t)
    requires forall i :: 0 <= i < |b| ==> b[i] in Handles(t)
    ensures forall i :: 0 <= i < |a + b| ==> (a + b)[i] in Handles(t)
    ensures Pending(n, agents, q, t, a + b) == Pending(n, agents, q, t, b) + Pending(n, agents, q, t, a)
    ensures Work(t, a + b) == Work(t, b) + Work(t, a)
    decreases |b|
  {
    if |b| == 0 {
      assert a + b == a;
    } else {
      var b' := b[..|b| - 1];
      assert (a + b)[..|a + b| - 1] == a + b';
      PendingConcat(n, agents, q, t, a, b');
      var top := Reported(n, agents, q, Subtree(t, b[|b| - 1]));
      assert top + (Pending(n, agents, q, t, b') + Pending(n, agents, q, t, a)) ==
        (top + Pending(n, agents, q, t, b')) + Pending(n, agents, q, t, a);
    }
  }

  /**
   * An internal node whose box overlaps the query box reports its second
   * popped child's elements after its first popped child's: the traversal
   * pushes `first` and then `second`, so `second` is visited first.
   */
  lemma BranchReported(n: seq<Node>, agents: seq<Agent>, q: Query, t: Shape, h: int, first: int, second: int)
    requires Linked(n, t, Null) && Distinct(t) && h in Handles(t)
    requires 0 <= h < |n| && n[h].left != Null && Overlap(n[h].volume, q.box)
    requires 0 <= n[h].left < |n| && 0 <= n[h].right < |n|
    requires if q.nearFirst && DistanceToPoint(n[n[h].left].volume, q.center) < DistanceToPoint(n[n[h].right].volume, q.center)
      then first == n[h].right && second == n[h].left
      else first == n[h].left && second == n[h].right
    ensures first in Handles(t) && second in Handles(t)
    ensures Reported(n, agents, q, Subtree(t, h)) ==
      Reported(n, agents, q, Subtree(t, second)) + Reported(n, agents, q, Subtree(t, first))
    ensures Size(Subtree(t, h)) == 1 + Size(Subtree(t, first)) + Size(Subtree(t, second))
  {
    ChildrenOf(n, t, Null, h);
    SubtreeShape(t, n[h].left);
    SubtreeShape(t, n[h].right);
    assert Subtree(t, h) == Branch(h, Subtree(t, n[h].left), Subtree(t, n[h].right)) by {
      SubtreeShape(t, h);
    }
  }

  /** Moving a step's report from the stack to the reported prefix keeps their concatenation. */
  lemma Shift(hits: seq<int>, x: seq<int>, here: seq<int>, later: seq<int>)
    ensures hits + ((x + here) + later) == (hits + x) + (here + later)
  {
  }

  /** The traversal reports the limited prefix: it ran out of handles below the limit, or reached it. */
  lemma Finish(hits: seq<int>, rest: seq<int>, all: seq<int>, maxCount: int)
    requires hits + rest == all
    requires (rest == [] && (maxCount > 0 ==> |hits| < maxCount)) || (maxCount > 0 && |hits| == maxCount)
    ensures hits == Limit(all, maxCount)
  {
    if rest != [] || (maxCount > 0 && |hits| == maxCount) {
      assert all[..|hits|] == hits;
    } else {
      assert all == hits;
    }
  }

  /**
   * One turn of the traversal loop: popping the top handle, reporting it when
   * it is a hit and pushing its children keeps what is reported and what is
   * pending equal to the whole report, and lowers the work left.
   */
  lemma Advance(n: seq<Node>, agents: seq<Agent>, q: Query, t: Shape, stack: seq<int>, hit: bool, push: seq<int>,
                hits: seq<int>, all: seq<int>)
    requires |stack| > 0 && forall i :: 0 <= i < |stack| ==> stack[i] in Handles(t)
    requires hits + Pending(n, agents, q, t, stack) == all
    requires forall i :: 0 <= i < |push| ==> push[i] in Handles(t)
    requires var h := stack[|stack| - 1];
      Reported(n, agents, q, Subtree(t, h)) == (if hit then [h] else []) + Pending(n, agents, q, t, push) &&
      Work(t, push) < Size(Subtree(t, h))
    ensures var next := stack[..|stack| - 1] + push;
      (forall i :: 0 <= i < |next| ==> next[i] in Handles(t)) &&
      (hits + (if hit then [stack[|stack| - 1]] else [])) + Pending(n, agents, q, t, next) == all &&
      Work(t, next) < Work(t, stack)
  {
    var rest := stack[..|stack| - 1];
    PendingPop(n, agents, q, t, stack, rest);
    PendingConcat(n, agents, q, t, rest, push);
    Shift(hits, if hit then [stack[|stack| - 1]] else [], Pending(n, agents, q, t, push), Pending(n, agents, q, t, rest));
  }

  /** The traversal starts with the root alone on the stack, which stands for the whole tree. */
  lemma PendingRoot(n: seq<Node>, agents: seq<Agent>, q: Query, t: Shape)
    ensures t.h in Handles(t) && Pending(n, agents, q, t, [t.h]) == Reported(n, agents, q, t)
    ensures |[t.h]| > 0
  {
    assert Subtree(t, t.h) == t;
    assert [t.h][..0] == [];
  }

  /**
   * The traversal shared by every tree query; the queries without maxCount
   * are this with `nearFirst` false and no limit. An empty tree reports
   * nothing. Otherwise the action is called with the agent indices of the
   * reported elements, in the traversal's order, until `maxCount` calls have
   * been made when `maxCount` is positive; the count of calls is returned.
   */
  method Traverse(tree: Tree, agents: seq<Agent>, q: Query, maxCount: int) returns (count: int, calls: seq<int>)
    requires tree.Valid() && Indexed(tree, agents)
    ensures tree.shape.None? ==> count == 0 && calls == []
    ensures tree.shape.Some? ==>
      var hits := Limit(Reported(tree.nodes, agents, q, tree.shape.value), maxCount);
      calls == Values(tree.nodes, hits) && count == |hits|
  {
    tree.EmptyIff();
    if tree.IsEmpty() {
      return 0, [];
    }
    count, calls := Search(tree, agents, q, maxCount, tree.shape.value);
  }

  /** The traversal of a non-empty tree `t`, as Traverse describes it. */
  method Search(tree: Tree, agents: seq<Agent>, q: Query, maxCount: int, ghost t: Shape) returns (count: int, calls: seq<int>)
    requires Linked(tree.nodes, t, Null) && Distinct(t) && tree.root == t.h
    requires forall k :: k in Leaves(t) ==> 0 <= k < |tree.nodes| && 0 <= tree.nodes[k].value < |agents|
    ensures var hits := Limit(Reported(tree.nodes, agents, q, t), maxCount);
      calls == Values(tree.nodes, hits) && count == |hits|
  {
    ghost var n := tree.nodes;
    ghost var all := Reported(n, agents, q, t);
    count, calls := 0, [];
    ghost var hits: seq<int> := [];
    var handles := [tree.root];
    PendingRoot(n, agents, q, t);
    while |handles| > 0
      invariant forall i :: 0 <= i < |handles| ==> handles[i] in Handles(t)
      invariant hits + Pending(n, agents, q, t, handles) == all
      invariant calls == Values(n, hits) && count == |hits|
      invariant maxCount > 0 ==> count < maxCount
      decreases Work(t, handles)
    {
      var hit;
      handles, hit, count, calls, hits := Turn(tree, agents, q, handles, count, calls, t, hits, all);
      if hit && count == maxCount {
        break;
      }
    }
    Finish(hits, Pending(n, agents, q, t, handles), all, maxCount);
  }

  /**
   * One turn of the traversal loop: pops the top handle, expands it, and
   * pushes what it expands to; a popped leaf the query reports is added to
   * the reported handles, and its agent index to the action's calls.
   */
  method Turn(tree: Tree, agents: seq<Agent>, q: Query, handles: seq<int>, count: int, calls: seq<int>,
              ghost t: Shape, ghost hits: seq<int>, ghost all: seq<int>)
    returns (next: seq<int>, hit: bool, count': int, calls': seq<int>, ghost hits': seq<int>)
    requires Linked(tree.nodes, t, Null) && Distinct(t)
    requires forall k :: k in Leaves(t) ==> 0 <= k < |tree.nodes| && 0 <= tree.nodes[k].value < |agents|
    requires |handles| > 0 && forall i :: 0 <= i < |handles| ==> handles[i] in Handles(t)
    requires hits + Pending(tree.nodes, agents, q, t, handles) == all
    requires calls == Values(tree.nodes, hits) && count == |hits|
    ensures forall i :: 0 <= i < |next| ==> next[i] in Handles(t)
    ensures hits' + Pending(tree.nodes, agents, q, t, next) == all
    ensures calls' == Values(tree.nodes, hits') && count' == |hits'|
    ensures count' == if hit then count + 1 else count
    ensures Work(t, next) < Work(t, handles)
  {
    var handle := handles[|handles| - 1];
    var index, push;
    hit, index, push := Expand(tree, agents, q, handle, t);
    Advance(tree.nodes, agents, q, t, handles, hit, push, hits, all);
    next := handles[..|handles| - 1] + push;
    hits' := hits + (if hit then [handle] else []);
    if hit {
      ValuesAppend(tree.nodes, hits, [handle]);
      count', calls' := count + 1, calls + [index];
    } else {
      assert hits' == hits;
      count', calls' := count, calls;
    }
  }

  /**
   * One step of the traversal at the popped handle: whether it is a leaf the
   * query reports (with its agent index), and the children to push when it is
   * an internal node whose box overlaps the query box, the one to visit first
   * pushed last.
   */
  method Expand(tree: Tree, agents: seq<Agent>, q: Query, handle: int, ghost t: Shape)
    returns (hit: bool, index: int, push: seq<int>)
    requires Linked(tree.nodes, t, Null) && Distinct(t) && handle in Handles(t)
    requires forall k :: k in Leaves(t) ==> 0 <= k < |tree.nodes| && 0 <= tree.nodes[k].value < |agents|
    ensures forall i :: 0 <= i < |push| ==> push[i] in Handles(t)
    ensures hit ==> push == [] && 0 <= handle < |tree.nodes| && index == tree.nodes[handle].value
    ensures Reported(tree.nodes, agents, q, Subtree(t, handle)) ==
      (if hit then [handle] else []) + Pending(tree.nodes, agents, q, t, push)
    ensures Work(t, push) < Size(Subtree(t, handle))
  {
    ghost var n := tree.nodes;
    LinkedInRange(n, t, Null);
    SubtreeShape(t, handle);
    hit, index, push := false, 0, [];
    var node := tree.GetNode(handle);
    if !Overlap(node.volume, q.box) {
      assert Reported(n, agents, q, Subtree(t, handle)) == [];
      return;
    }
    if node.IsLeaf() {
      LeafIff(n, t, Null, handle);
      LeafSubtree(t, handle);
      if LayersAny(q.layers, agents[node.value].layers) {
        hit, index := true, node.value;
      }
      return;
    }
    ChildrenOf(n, t, Null, handle);
    var left, right := node.left, node.right;
    var first, second := left, right;
    if q.nearFirst {
      var distanceToLeft := DistanceToPoint(tree.nodes[left].volume, q.center);
      var distanceToRight := DistanceToPoint(tree.nodes[right].volume, q.center);
      if distanceToLeft < distanceToRight {
        first, second := right, left;
      }
    }
    BranchReported(n, agents, q, t, handle, first, second);
    push := [first, second];
    assert push[..1] == [first] && [first][..0] == [];
    assert Pending(n, agents, q, t, [first]) == Reported(n, agents, q, Subtree(t, first));
    assert Pending(n, agents, q, t, push) == Reported(n, agents, q, Subtree(t, second)) + Reported(n, agents, q, Subtree(t, first));
    assert Work(t, [first]) == Size(Subtree(t, first));
  }

  // ---------------------------------------------------------------------------
  // The queries.

  /** `hits` lists every element of `m` exactly once. */
  ghost predicate Enumerates(hits: seq<int>, m: set<int>)
  {
    NoDuplicates(hits) && forall k :: k in hits <==> k in m
  }

  /**
   * On a tree whose internal boxes enclose their children, the traversal
   * reports every stored element that matches the query exactly once.
   */
  lemma QueryExact(n: seq<Node>, agents: seq<Agent>, q: Query, t: Shape)
    requires Linked(n, t, Null) && Distinct(t) && Enclosed(n, t, [])
    ensures Enumerates(Reported(n, agents, q, t), Matching(n, agents, q, t))
    ensures |Reported(n, agents, q, t)| == |Matching(n, agents, q, t)|
  {
    assert forall j :: j in Handles(t) ==> EnclosesChildren(n, j);
    ReportedExactly(n, agents, q, t, Null);
    CountIsMatching(n, agents, q, t, Null);
  }

  /** The requirement every query puts on the index: each element's agent index names an agent. */
  ghost predicate Indexed(tree: Tree, agents: seq<Agent>)
    reads tree
  {
    forall k :: k in tree.Elements() ==> 0 <= k < |tree.nodes| && 0 <= tree.nodes[k].value < |agents|
  }

  /**
   * An unlimited query: the action is called once for each matching element,
   * with its agent index, and the number of calls is returned.
   */
  method Unlimited(tree: Tree, agents: seq<Agent>, q: Query) returns (count: int, calls: seq<int>)
    requires tree.Valid() && Indexed(tree, agents) && !q.nearFirst
    ensures tree.shape.None? ==> count == 0 && calls == []
    ensures tree.shape.Some? ==>
      var hits := Reported(tree.nodes, agents, q, tree.shape.value);
      Enumerates(hits, Matching(tree.nodes, agents, q, tree.shape.value)) &&
      calls == Values(tree.nodes, hits) && count == |Matching(tree.nodes, agents, q, tree.shape.value)|
  {
    count, calls := Traverse(tree, agents, q, 0);
    if tree.shape.Some? {
      QueryExact(tree.nodes, agents, q, tree.shape.value);
    }
  }

  /**
   * A limited query: the nearer child is visited first and the walk stops
   * after `maxCount` calls when `maxCount` is positive; every call is for a
   * distinct matching element.
   */
  method Limited(tree: Tree, agents: seq<Agent>, q: Query, maxCount: int) returns (count: int, calls: seq<int>)
    requires tree.Valid() && Indexed(tree, agents) && q.nearFirst
    ensures tree.shape.None? ==> count == 0 && calls == []
    ensures tree.shape.Some? ==>
      var all := Reported(tree.nodes, agents, q, tree.shape.value);
      var m := Matching(tree.nodes, agents, q, tree.shape.value);
      var hits := Limit(all, maxCount);
      hits <= all && Enumerates(all, m) && calls == Values(tree.nodes, hits) &&
      count == (if maxCount > 0 then MinInt(maxCount, |m|) else |m|)
  {
    count, calls := Traverse(tree, agents, q, maxCount);
    if tree.shape.Some? {
      QueryExact(tree.nodes, agents, q, tree.shape.value);
    }
  }

  /** QuerySphere: the elements whose boxes overlap the cube of half-side `radius` around `center`. */
  method QuerySphere(tree: Tree, agents: seq<Agent>, center: Vec3, radius: real, layers: bv32)
    returns (count: int, calls: seq<int>)
    requires tree.Valid() && Indexed(tree, agents)
    ensures var q := Query(SphereBox(center, radius), layers, center, false);
      (tree.shape.None? ==> count == 0 && calls == []) &&
      (tree.shape.Some? ==>
        var hits := Reported(tree.nodes, agents, q, tree.shape.value);
        Enumerates(hits, Matching(tree.nodes, agents, q, tree.shape.value)) &&
        calls == Values(tree.nodes, hits) && count == |Matching(tree.nodes, agents, q, tree.shape.value)|)
  {
    count, calls := Unlimited(tree, agents, Query(SphereBox(center, radius), layers, center, false));
  }

  /** QueryCircle: builds the same box as QuerySphere. */
  method QueryCircle(tree: Tree, agents: seq<Agent>, center: Vec3, radius: real, layers: bv32)
    returns (count: int, calls: seq<int>)
    requires tree.Valid() && Indexed(tree, agents)
    ensures var q := Query(SphereBox(center, radius), layers, center, false);
      (tree.shape.None? ==> count == 0 && calls == []) &&
      (tree.shape.Some? ==>
        var hits := Reported(tree.nodes, agents, q, tree.shape.value);
        Enumerates(hits, Matching(tree.nodes, agents, q, tree.shape.value)) &&
        calls == Values(tree.nodes, hits) && count == |Matching(tree.nodes, agents, q, tree.shape.value)|)
  {
    count, calls := Unlimited(tree, agents, Query(SphereBox(center, radius), layers, center, false));
  }

  /** QueryCylinder: the elements whose boxes overlap the upright box of the cylinder. */
  method QueryCylinder(tree: Tree, agents: seq<Agent>, center: Vec3, radius: real, height: real, layers: bv32)
    returns (count: int, calls: seq<int>)
    requires tree.Valid() && Indexed(tree, agents)
    ensures var q := Query(CylinderBox(center, radius, height), layers, center, false);
      (tree.shape.None? ==> count == 0 && calls == []) &&
      (tree.shape.Some? ==>
        var hits := Reported(tree.nodes, agents, q, tree.shape.value);
        Enumerates(hits, Matching(tree.nodes, agents, q, tree.shape.value)) &&
        calls == Values(tree.nodes, hits) && count == |Matching(tree.nodes, agents, q, tree.shape.value)|)
  {
    count, calls := Unlimited(tree, agents, Query(CylinderBox(center, radius, height), layers, center, false));
  }

  /** QueryCircle with maxCount: at most `maxCount` matching elements, nearer subtrees first. */
  method QueryCircleLimited(tree: Tree, agents: seq<Agent>, center: Vec3, radius: real, maxCount: int, layers: bv32)
    returns (count: int, calls: seq<int>)
    requires tree.Valid() && Indexed(tree, agents)
    ensures var q := Query(SphereBox(center, radius), layers, center, true);
      (tree.shape.None? ==> count == 0 && calls == []) &&
      (tree.shape.Some? ==>
        var all := Reported(tree.nodes, agents, q, tree.shape.value);
        var m := Matching(tree.nodes, agents, q, tree.shape.value);
        Limit(all, maxCount) <= all && Enumerates(all, m) && calls == Values(tree.nodes, Limit(all, maxCount)) &&
        count == (if maxCount > 0 then MinInt(maxCount, |m|) else |m|))
  {
    count, calls := Limited(tree, agents, Query(SphereBox(center, radius), layers, center, true), maxCount);
  }

  /** QueryCylinder with maxCount: at most `maxCount` matching elements, nearer subtrees first. */
  method QueryCylinderLimited(tree: Tree, agents: seq<Agent>, center: Vec3, radius: real, height: real, maxCount: int, layers: bv32)
    returns (count: int, calls: seq<int>)
    requires tree.Valid() && Indexed(tree, agents)
    ensures var q := Query(CylinderBox(center, radius, height), layers, center, true);
      (tree.shape.None? ==> count == 0 && calls == []) &&
      (tree.shape.Some? ==>
        var all := Reported(tree.nodes, agents, q, tree.shape.value);
        var m := Matching(tree.nodes, agents, q, tree.shape.value);
        Limit(all, maxCount) <= all && Enumerates(all, m) && calls == Values(tree.nodes, Limit(all, maxCount)) &&
        count == (if maxCount > 0 then MinInt(maxCount, |m|) else |m|))
  {
    count, calls := Limited(tree, agents, Query(CylinderBox(center, radius, height), layers, center, true), maxCount);
  }
}

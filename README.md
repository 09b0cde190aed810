# HFOZ_V2 core, modelled in Dafny

This project models and verifies the sequential core of two Unity packages from the HFOZ_V2 repository.

**Agents Navigation (ProjectDawn), four parts:**
- **The dynamic bounding-volume tree (`UnsafeBHVTree`).** It is an arena of nodes addressed by integer handles, with a stack of freed handles. `Add` picks the cheapest sibling by branch and bound over surface-area cost, splices in a new parent, then walks to the root: it refits each volume and may rotate. `RemoveAt` splices the sibling into the grandparent's slot and frees the leaf and its parent. A ghost tree shape is tied to the arena links, and every operation keeps it consistent: links agree, internal nodes have two children, `Length` counts the leaves, and no live node is on the free stack.
- **The tree branch of the agent spatial index (`AgentSpatialPartitioningSystem`).** This covers the `AABB` volume and the stack-based overlap queries, including their `maxCount` early stop. It also covers the bounded nearest-entries buffer `FixedEntries`, and the add, update and remove jobs. Those jobs manage agent slots through a free-index stack and re-insert an agent only when it has left its padded box.
- **The scripting define popup (`ScriptingDefinePopupField`).** This is the detection, addition and removal of symbols in the define string, and the remove-all-then-add sequence of `Draw`.

**Rukhanka animation:**
- **The wayback machine recorder (`WaybackMachineRecordSystem`).** Each frame it records animations, animator states and transitions, animator events and animation events into the history lists of `WaybackMachineData`. A history entry is continued when it ended on the previous frame and is otherwise appended. The model also covers the history record types and their display names.
- **`RuntimeAnimatorData`.** This is the motion-id counter and the bounded state-snapshot list that evicts its lightest entry.
- **The wayback timeline editor.** This covers the frame and position mapping and ruler ticks of `TimelinePortalData`, and the shape layout job `BuildRectanglesJob`. That job assigns rows, lanes, colours and counters. It also covers the knob hit-testing filters and `ComputeShapes` of `TimelineContent`, the defaults of `WaybackMachineSettings`, and the colour packing and hex formatting of `ColorTools`.

**How the model is written.**
- Imperative code stays imperative: classes with `modifies` frames, `seq` fields for the native lists, arrays for the fixed buffers, and loops with invariants.
- Each method is proved against a specification function, and the source's promises are proved as lemmas about those functions.
- Floats are exact reals, and 32-bit integers are written out where their width matters (motion ids, packed colours).
- Inputs from the engine become parameters: ECS buffers, the player settings string, the popup and dialog answers.

The model follows the code, with two exceptions: the two timeline searches listed under Findings are modelled as written and as corrected, and the layout job uses the corrected ones. Two facts about the code shape the tree and query contracts:
- **Removal and stale bounds.** After `RemoveAt` the ancestors of the removed leaf keep their old boxes, which may be larger than needed. They still enclose their children, since removal only takes volume away. The tree invariant states enclosure rather than equality, so every query reports exactly the matching leaves: `SpatialQuery.ReportedExactly`.
- **Nearest-first queries.** A query with `maxCount` visits the nearer child first and stops at the `maxCount`-th reported entry, without pruning by distance. A `maxCount` of zero or less means no limit.

## Model

| member | source | states |
|---|---|---|
| Volumes.Union | HFOZ_V2/Packages/com.projectdawn.navigation/ProjectDawn.Navigation/SpatialPartitioning/AgentSpatialPartitioningSystem.cs:1243-1250 | The union encloses both boxes. |
| Volumes.UnionIsLeast | HFOZ_V2/Packages/com.projectdawn.navigation/ProjectDawn.Navigation/SpatialPartitioning/AgentSpatialPartitioningSystem.cs:1243-1250 | Any box enclosing both operands encloses their union, so the union is the least enclosing box. |
| Volumes.UnionCommutes | HFOZ_V2/Packages/com.projectdawn.navigation/ProjectDawn.Navigation/SpatialPartitioning/AgentSpatialPartitioningSystem.cs:1243-1250 | Union(a, b) == Union(b, a). |
| Volumes.UnionWellFormed | HFOZ_V2/Packages/com.projectdawn.navigation/ProjectDawn.Navigation/SpatialPartitioning/AgentSpatialPartitioningSystem.cs:1243-1250 | The union of two boxes is well formed when either of them is. |
| Volumes.OverlapMonotone | HFOZ_V2/Packages/com.projectdawn.navigation/ProjectDawn.Navigation/SpatialPartitioning/AgentSpatialPartitioningSystem.cs:1306-1309 | A box that encloses one overlapping the query box overlaps it too. This is why a query may skip a subtree whose box misses the query box. |
| Volumes.Overlap | HFOZ_V2/Packages/com.projectdawn.navigation/ProjectDawn.Navigation/SpatialPartitioning/AgentSpatialPartitioningSystem.cs:1306-1309 | The predicate itself: on every axis the first box's maximum lies strictly above the second's minimum and its minimum at or below the second's maximum. OverlapMonotone is the fact about it that the query relies on. |
| Volumes.DistanceToPoint | HFOZ_V2/Packages/com.projectdawn.navigation/ProjectDawn.Navigation/SpatialPartitioning/AgentSpatialPartitioningSystem.cs:1311-1317 | The distance used to order children is never negative. |
| Volumes.SurfaceAreaMonotone | HFOZ_V2/Packages/com.projectdawn.navigation/ProjectDawn.Navigation/SpatialPartitioning/AgentSpatialPartitioningSystem.cs:1237-1241 | A box enclosing a well-formed box has at least its surface area. |
| Volumes.SurfaceAreaNonNegative | HFOZ_V2/Packages/com.projectdawn.navigation/ProjectDawn.Navigation/SpatialPartitioning/AgentSpatialPartitioningSystem.cs:1237-1241 | A well-formed box has non-negative surface area. |
| Volumes.SurfaceArea | HFOZ_V2/Packages/com.projectdawn.navigation/ProjectDawn.Navigation/SpatialPartitioning/AgentSpatialPartitioningSystem.cs:1237-1241 | Twice the sum of the three face areas. SurfaceAreaMonotone and SurfaceAreaNonNegative are the facts about it that the cost search relies on. |
| BHVShape.NodeCount | HFOZ_V2/Packages/com.projectdawn.navigation/ProjectDawn.Navigation/SpatialPartitioning/AABBTree/UnsafeBHVTree.cs:308-324 | A tree whose internal nodes all have two children has 2 * leaves - 1 nodes. |
| BHVShape.HeightBound | HFOZ_V2/Packages/com.projectdawn.navigation/ProjectDawn.Navigation/SpatialPartitioning/AABBTree/UnsafeBHVTree.cs:329-349 | The longest root-to-leaf path has fewer edges than the tree has leaves. |
| BHVShape.LeafIff | HFOZ_V2/Packages/com.projectdawn.navigation/ProjectDawn.Navigation/SpatialPartitioning/AABBTree/UnsafeBHVTree.cs:656 | Inside a linked tree, a handle names a leaf exactly when its node's left child is Null. |
| BHVShape.SubtreeLinked | HFOZ_V2/Packages/com.projectdawn.navigation/ProjectDawn.Navigation/SpatialPartitioning/AABBTree/UnsafeBHVTree.cs:653-655 | The subtree at a handle is linked below the node's stored parent, and that parent is its parent in the tree. |
| BHVShape.ChildrenOf | HFOZ_V2/Packages/com.projectdawn.navigation/ProjectDawn.Navigation/SpatialPartitioning/AABBTree/UnsafeBHVTree.cs:653-655 | An internal node's child handles name its two children, and their parent handles point back to it. |
| BHVShape.PathToShape | HFOZ_V2/Packages/com.projectdawn.navigation/ProjectDawn.Navigation/SpatialPartitioning/AABBTree/UnsafeBHVTree.cs:186-197 | The path to a node starts at the root, ends at the node and stays inside the tree: the route of Add's refit walk. |
| BHVShape.PathToParent | HFOZ_V2/Packages/com.projectdawn.navigation/ProjectDawn.Navigation/SpatialPartitioning/AABBTree/UnsafeBHVTree.cs:196 | In a linked tree, the path to a node is the path to its stored parent followed by the node. This makes the walk's `handle = parent` step follow the path. |
| BHVShape.ReplaceHandles | HFOZ_V2/Packages/com.projectdawn.navigation/ProjectDawn.Navigation/SpatialPartitioning/AABBTree/UnsafeBHVTree.cs:153-181 | Replacing the subtree at k by s swaps exactly k's nodes and leaves for those of s, and moves the root to s when k was the root. |
| BHVShape.ReplaceLinked | HFOZ_V2/Packages/com.projectdawn.navigation/ProjectDawn.Navigation/SpatialPartitioning/AABBTree/UnsafeBHVTree.cs:153-181 | A subtree that the new arena links below k's old parent can replace the subtree at k, and the whole tree stays linked, provided every other node keeps its links. |
| BHVRotation.RotationLinked | HFOZ_V2/Packages/com.projectdawn.navigation/ProjectDawn.Navigation/SpatialPartitioning/AABBTree/UnsafeBHVTree.cs:445-468 | The swap keeps the arena a linked tree with the same nodes and leaves, and moves the node up under its grandparent. |
| BHVRotation.RotatedFrame | HFOZ_V2/Packages/com.projectdawn.navigation/ProjectDawn.Navigation/SpatialPartitioning/AABBTree/UnsafeBHVTree.cs:445-468 | A rotation writes no links outside the four handles it touches. |
| BHVRotation.RotatedSubtreeHandles | HFOZ_V2/Packages/com.projectdawn.navigation/ProjectDawn.Navigation/SpatialPartitioning/AABBTree/UnsafeBHVTree.cs:445-468 | The rearranged subtree holds the same nodes and leaves as the grandparent's subtree did. |
| BHVRotation.RotationPaths | HFOZ_V2/Packages/com.projectdawn.navigation/ProjectDawn.Navigation/SpatialPartitioning/AABBTree/UnsafeBHVTree.cs:445-468 | After rotation the path to the grandparent is unchanged, and the path to the rotated node is one step shorter. |
| BHVRotation.Neighbourhood | HFOZ_V2/Packages/com.projectdawn.navigation/ProjectDawn.Navigation/SpatialPartitioning/AABBTree/UnsafeBHVTree.cs:410-434 | A rotatable node (not the root, and its parent not the root) has a parent, a brother, an internal grandparent and an uncle, all distinct. |
| BHVWalk.RefitStep | HFOZ_V2/Packages/com.projectdawn.navigation/ProjectDawn.Navigation/SpatialPartitioning/AABBTree/UnsafeBHVTree.cs:188-189 | Refitting node h keeps the tree linked and gives h exactly the union of its children's boxes. Only the path above h may still hold stale boxes. |
| BHVWalk.RotateStep | HFOZ_V2/Packages/com.projectdawn.navigation/ProjectDawn.Navigation/SpatialPartitioning/AABBTree/UnsafeBHVTree.cs:193-194 | A rotation at a refitted node keeps the tree linked with the same nodes and leaves. It moves the node up, and every box off the path to the grandparent still encloses its children. |
| BHVWalk.RotatedRefitted | HFOZ_V2/Packages/com.projectdawn.navigation/ProjectDawn.Navigation/SpatialPartitioning/AABBTree/UnsafeBHVTree.cs:436-468 | After the swap, the old parent holds exactly the union of uncle and brother. |
| BHVEdit.SpliceStep | HFOZ_V2/Packages/com.projectdawn.navigation/ProjectDawn.Navigation/SpatialPartitioning/AABBTree/UnsafeBHVTree.cs:152-182 | Splicing keeps a linked tree that gains exactly the new parent and the new leaf, with the new parent in best's old place. Boxes off the path to the new parent still enclose their children. |
| BHVEdit.SpliceShape | HFOZ_V2/Packages/com.projectdawn.navigation/ProjectDawn.Navigation/SpatialPartitioning/AABBTree/UnsafeBHVTree.cs:174-182 | The spliced tree gains exactly the new parent and the new leaf. |
| BHVEdit.SplicePath | HFOZ_V2/Packages/com.projectdawn.navigation/ProjectDawn.Navigation/SpatialPartitioning/AABBTree/UnsafeBHVTree.cs:154-171 | The path to the new parent is the path to best's old parent followed by the new parent. |
| BHVEdit.RemoveStep | HFOZ_V2/Packages/com.projectdawn.navigation/ProjectDawn.Navigation/SpatialPartitioning/AABBTree/UnsafeBHVTree.cs:225-250 | Removing a non-root leaf leaves a linked tree without the leaf and its parent, and the stale boxes still enclose their children. |
| BHVEdit.RemoveEnclosed | HFOZ_V2/Packages/com.projectdawn.navigation/ProjectDawn.Navigation/SpatialPartitioning/AABBTree/UnsafeBHVTree.cs:238-250 | Every node of the shrunk tree still encloses its children: the grandparent's old box enclosed the parent's, which enclosed the sibling's. |
| BHVCost.DeltaNonNegative | HFOZ_V2/Packages/com.projectdawn.navigation/ProjectDawn.Navigation/SpatialPartitioning/AABBTree/UnsafeBHVTree.cs:539 | DeltaSurfaceArea of a well-formed box is never negative. |
| BHVCost.DeltaSurfaceArea | HFOZ_V2/Packages/com.projectdawn.navigation/ProjectDawn.Navigation/SpatialPartitioning/AABBTree/UnsafeBHVTree.cs:539 | How much a box's area grows once it must also hold the new volume. DeltaNonNegative shows it is never negative for a well-formed box. |
| BHVCost.PathCostGrows | HFOZ_V2/Packages/com.projectdawn.navigation/ProjectDawn.Navigation/SpatialPartitioning/AABBTree/UnsafeBHVTree.cs:527-538 | Extending the ancestor path by well-formed boxes cannot lower the inherited cost. |
| BHVCost.BelowBound | HFOZ_V2/Packages/com.projectdawn.navigation/ProjectDawn.Navigation/SpatialPartitioning/AABBTree/UnsafeBHVTree.cs:512-521 | Branch-and-bound soundness. Every handle strictly below internal node k costs at least k's lower bound, so a pruned subtree holds no better sibling. |
| BHVCost.InternalAreaNonNegative | HFOZ_V2/Packages/com.projectdawn.navigation/ProjectDawn.Navigation/SpatialPartitioning/AABBTree/UnsafeBHVTree.cs:262-278 | With well-formed boxes the tree cost is never negative. |
| BHVTree.AllocateFree | HFOZ_V2/Packages/com.projectdawn.navigation/ProjectDawn.Navigation/SpatialPartitioning/AABBTree/UnsafeBHVTree.cs:552-574 | Allocation takes the top of the free stack, or a new slot when the stack is empty. Either way the slot was not live. |
| BHVTree.ReleaseFree | HFOZ_V2/Packages/com.projectdawn.navigation/ProjectDawn.Navigation/SpatialPartitioning/AABBTree/UnsafeBHVTree.cs:580-586 | Pushing a live handle makes its slot free. |
| BHVTree.CheckHandleAdmitsCount | HFOZ_V2/Packages/com.projectdawn.navigation/ProjectDawn.Navigation/SpatialPartitioning/AABBTree/UnsafeBHVTree.cs:597-600 | As written, the check lets through the handle equal to the node count, one past the last slot. |
| BHVTree.HandleInRangeExact | HFOZ_V2/Packages/com.projectdawn.navigation/ProjectDawn.Navigation/SpatialPartitioning/AABBTree/UnsafeBHVTree.cs:597-600 | The corrected check admits exactly the handles 0 <= h < \|nodes\|. |
| BHVTree.LeavesNonEmpty | HFOZ_V2/Packages/com.projectdawn.navigation/ProjectDawn.Navigation/SpatialPartitioning/AABBTree/UnsafeBHVTree.cs:38-44 | Every tree has at least one leaf. This is why a tree with a root has a positive Length. |
| BHVTree.OneLeaf | HFOZ_V2/Packages/com.projectdawn.navigation/ProjectDawn.Navigation/SpatialPartitioning/AABBTree/UnsafeBHVTree.cs:216-223 | A tree with exactly one leaf is that leaf, as the root removal assumes. |
| BHVTree.RotateRanges | HFOZ_V2/Packages/com.projectdawn.navigation/ProjectDawn.Navigation/SpatialPartitioning/AABBTree/UnsafeBHVTree.cs:410-434 | The handles that Rotate reads are in the arena, and a grandparent is never a leaf, so the source's `grandParent->IsLeaf` return cannot fire in a valid tree. |
| BHVTree.QueuePush | HFOZ_V2/Packages/com.projectdawn.navigation/ProjectDawn.Navigation/SpatialPartitioning/AABBTree/UnsafeBHVTree.cs:518-519 | Pushing both children of h in place of h covers what h covered, and weighs one less. |
| BHVTree.MinIndex | HFOZ_V2/Packages/com.projectdawn.navigation/ProjectDawn.Navigation/SpatialPartitioning/AABBTree/UnsafeBHVTree.cs:487 | The entry a min-heap pops has the least key in the queue. |
| BHVTree.CoverStep | HFOZ_V2/Packages/com.projectdawn.navigation/ProjectDawn.Navigation/SpatialPartitioning/AABBTree/UnsafeBHVTree.cs:497-521 | After visiting h with best cost `best`, every handle at or below h costs at least `best`, unless its children were pushed and it lies below one of them. |
| BHVTree.SearchStep | HFOZ_V2/Packages/com.projectdawn.navigation/ProjectDawn.Navigation/SpatialPartitioning/AABBTree/UnsafeBHVTree.cs:487-522 | One visit keeps the search invariant: every handle costs at least the best cost, or is still covered by the queue. |
| BHVTree.SearchDone | HFOZ_V2/Packages/com.projectdawn.navigation/ProjectDawn.Navigation/SpatialPartitioning/AABBTree/UnsafeBHVTree.cs:523 | Once the queue is empty, the best candidate costs no more than any node of the tree whose cost is below float.MaxValue. |
| BHVTree.Tree.constructor | HFOZ_V2/Packages/com.projectdawn.navigation/ProjectDawn.Navigation/SpatialPartitioning/AABBTree/UnsafeBHVTree.cs:87-94 | A new tree has no nodes, no free handles, no root and length 0. |
| BHVTree.Tree.Clear | HFOZ_V2/Packages/com.projectdawn.navigation/ProjectDawn.Navigation/SpatialPartitioning/AABBTree/UnsafeBHVTree.cs:392-398 | Clear drops every node and every free handle, leaving an empty valid tree. |
| BHVTree.Tree.Allocate | HFOZ_V2/Packages/com.projectdawn.navigation/ProjectDawn.Navigation/SpatialPartitioning/AABBTree/UnsafeBHVTree.cs:552-574 | It reuses the most recently freed handle when there is one, and otherwise appends a slot. The node gets the volume and the value with zero links, and no other slot changes. |
| BHVTree.Tree.Free | HFOZ_V2/Packages/com.projectdawn.navigation/ProjectDawn.Navigation/SpatialPartitioning/AABBTree/UnsafeBHVTree.cs:580-586 | The handle goes on the free stack, and nothing else changes. |
| BHVTree.Tree.EmptyIff | HFOZ_V2/Packages/com.projectdawn.navigation/ProjectDawn.Navigation/SpatialPartitioning/AABBTree/UnsafeBHVTree.cs:38 | In a valid tree, IsEmpty holds exactly when there is no root and no element. |
| BHVTree.Tree.IsEmpty | HFOZ_V2/Packages/com.projectdawn.navigation/ProjectDawn.Navigation/SpatialPartitioning/AABBTree/UnsafeBHVTree.cs:38 | No element is stored. EmptyIff ties it to the shape and the element set. |
| BHVTree.Tree.GetNode | HFOZ_V2/Packages/com.projectdawn.navigation/ProjectDawn.Navigation/SpatialPartitioning/AABBTree/UnsafeBHVTree.cs:67-80 | It returns the node stored at an in-range handle, and an element's handle reads a leaf. |
| BHVTree.Tree.CountLeafs | HFOZ_V2/Packages/com.projectdawn.navigation/ProjectDawn.Navigation/SpatialPartitioning/AABBTree/UnsafeBHVTree.cs:284-289 | The result is the number of leaves, which equals Length. |
| BHVTree.Tree.CountLeafsBelow | HFOZ_V2/Packages/com.projectdawn.navigation/ProjectDawn.Navigation/SpatialPartitioning/AABBTree/UnsafeBHVTree.cs:291-302 | It adds the leaf count of the subtree at h to count. |
| BHVTree.Tree.CountNodes | HFOZ_V2/Packages/com.projectdawn.navigation/ProjectDawn.Navigation/SpatialPartitioning/AABBTree/UnsafeBHVTree.cs:308-313 | The result is 2 * Length - 1, the number of nodes in the tree. |
| BHVTree.Tree.CountNodesBelow | HFOZ_V2/Packages/com.projectdawn.navigation/ProjectDawn.Navigation/SpatialPartitioning/AABBTree/UnsafeBHVTree.cs:315-324 | It adds the node count of the subtree at h to count. |
| BHVTree.Tree.GetDepth | HFOZ_V2/Packages/com.projectdawn.navigation/ProjectDawn.Navigation/SpatialPartitioning/AABBTree/UnsafeBHVTree.cs:329-334 | The result is the number of edges on the longest root-to-leaf path, which is below Length. |
| BHVTree.Tree.GetDepthBelow | HFOZ_V2/Packages/com.projectdawn.navigation/ProjectDawn.Navigation/SpatialPartitioning/AABBTree/UnsafeBHVTree.cs:336-349 | It raises maxDepth to the depth of the subtree's deepest leaf. |
| BHVTree.Tree.Cost | HFOZ_V2/Packages/com.projectdawn.navigation/ProjectDawn.Navigation/SpatialPartitioning/AABBTree/UnsafeBHVTree.cs:262-267 | The result is the sum of the surface areas of the internal nodes' boxes. For well-formed boxes it is non-negative. |
| BHVTree.Tree.CostBelow | HFOZ_V2/Packages/com.projectdawn.navigation/ProjectDawn.Navigation/SpatialPartitioning/AABBTree/UnsafeBHVTree.cs:269-278 | It adds the internal-node areas of the subtree at h to cost. |
| BHVTree.Tree.Rotate | HFOZ_V2/Packages/com.projectdawn.navigation/ProjectDawn.Navigation/SpatialPartitioning/AABBTree/UnsafeBHVTree.cs:410-469 | Rotation happens exactly when handle and its parent are not the root and the swap does not grow the area. Then the arena and shape are the rotated ones: handle trades places with its uncle, and the parent gets the union of uncle and brother. Otherwise nothing changes. The root, the free stack and Length are kept in both cases. |
| BHVTree.Tree.InheritedCost | HFOZ_V2/Packages/com.projectdawn.navigation/ProjectDawn.Navigation/SpatialPartitioning/AABBTree/UnsafeBHVTree.cs:527-538 | The result is the total growth of the boxes of handle and all its ancestors once they must enclose value. |
| BHVTree.Tree.Visit | HFOZ_V2/Packages/com.projectdawn.navigation/ProjectDawn.Navigation/SpatialPartitioning/AABBTree/UnsafeBHVTree.cs:489-521 | One pass of the loop. The insertion cost may become the best. When the lower bound still beats the best cost, both children are pushed with that bound. The search invariant is kept. |
| BHVTree.Tree.FindBestHandle | HFOZ_V2/Packages/com.projectdawn.navigation/ProjectDawn.Navigation/SpatialPartitioning/AABBTree/UnsafeBHVTree.cs:475-524 | The result is a tree handle, and the root when there is a single element. For well-formed boxes, the handle found costs no more to insert next to than any other node whose cost is below float.MaxValue. |
| BHVTree.Tree.Splice | HFOZ_V2/Packages/com.projectdawn.navigation/ProjectDawn.Navigation/SpatialPartitioning/AABBTree/UnsafeBHVTree.cs:152-182 | The new parent takes best's place, as the root when best is the root. Best becomes its left child and the new leaf its right child, and only those links change. The new leaf's parent is the new parent. |
| BHVTree.NewLeafPath | HFOZ_V2/Packages/com.projectdawn.navigation/ProjectDawn.Navigation/SpatialPartitioning/AABBTree/UnsafeBHVTree.cs:179-184 | Just after the splice the new parent is on the path to the new leaf, and no node below it on that path has a stale box. |
| BHVTree.Tree.WalkStep | HFOZ_V2/Packages/com.projectdawn.navigation/ProjectDawn.Navigation/SpatialPartitioning/AABBTree/UnsafeBHVTree.cs:188-196 | It refits h, so h's box becomes exactly the union of its children's boxes, optionally rotates, then moves to h's parent, one step closer to the root. The next node is on the path to the new leaf, and every node of that path below it holds exactly the union of its children. The tree stays linked with the same nodes and leaves, only the path above the next node may hold stale boxes, and leaves keep their boxes and values. |
| BHVTree.Tree.WalkUp | HFOZ_V2/Packages/com.projectdawn.navigation/ProjectDawn.Navigation/SpatialPartitioning/AABBTree/UnsafeBHVTree.cs:184-197 | From the new parent up to the root, each node on the way is refitted, with a rotation offered when rebalance is set. Afterwards every internal node on the path from the root to the new leaf holds exactly the union of its children's boxes, every internal box encloses its children, and the nodes and leaves are unchanged. |
| BHVTree.Tree.AllocatePair | HFOZ_V2/Packages/com.projectdawn.navigation/ProjectDawn.Navigation/SpatialPartitioning/AABBTree/UnsafeBHVTree.cs:145-146 | It allocates the new leaf, then the new parent with a zero box. Both slots are outside the tree. |
| BHVTree.Tree.Graft | HFOZ_V2/Packages/com.projectdawn.navigation/ProjectDawn.Navigation/SpatialPartitioning/AABBTree/UnsafeBHVTree.cs:145-182 | The tree gains exactly the new leaf and the new parent, the leaf as its one new leaf. |
| BHVTree.Tree.Grow | HFOZ_V2/Packages/com.projectdawn.navigation/ProjectDawn.Navigation/SpatialPartitioning/AABBTree/UnsafeBHVTree.cs:145-197 | It splices in the leaf and its parent and then walks up. The tree is left valid with the leaf stored, and every internal node on the path from the root to the new leaf holds exactly the union of its children's boxes. |
| BHVTree.Tree.Place | HFOZ_V2/Packages/com.projectdawn.navigation/ProjectDawn.Navigation/SpatialPartitioning/AABBTree/UnsafeBHVTree.cs:145-199 | Once best is chosen, the tree holds one element more, and every internal node on the path from the root to the new leaf holds exactly the union of its children's boxes. |
| BHVTree.Tree.CountAdded | HFOZ_V2/Packages/com.projectdawn.navigation/ProjectDawn.Navigation/SpatialPartitioning/AABBTree/UnsafeBHVTree.cs:199 | Length goes up by one, and nothing else changes. |
| BHVTree.Tree.Insert | HFOZ_V2/Packages/com.projectdawn.navigation/ProjectDawn.Navigation/SpatialPartitioning/AABBTree/UnsafeBHVTree.cs:140-201 | On a non-empty tree it chooses the sibling by FindBestHandle and places the leaf next to it. The tree gains exactly one element and two live nodes, and every internal node on the path from the root to the new leaf holds exactly the union of its children's boxes. |
| BHVTree.Tree.Detach | HFOZ_V2/Packages/com.projectdawn.navigation/ProjectDawn.Navigation/SpatialPartitioning/AABBTree/UnsafeBHVTree.cs:225-250 | The sibling of the leaf takes the parent's place, in the grandparent's slot or as the root. |
| BHVTree.Tree.Release | HFOZ_V2/Packages/com.projectdawn.navigation/ProjectDawn.Navigation/SpatialPartitioning/AABBTree/UnsafeBHVTree.cs:252-255 | It frees the leaf, then its parent, and counts one element less. |
| BHVTree.Tree.Unsplice | HFOZ_V2/Packages/com.projectdawn.navigation/ProjectDawn.Navigation/SpatialPartitioning/AABBTree/UnsafeBHVTree.cs:225-256 | For a non-root leaf, the sibling takes the parent's place and the leaf and its parent go on the free stack, in that order. |
| BHVTree.Tree.RemoveAt | HFOZ_V2/Packages/com.projectdawn.navigation/ProjectDawn.Navigation/SpatialPartitioning/AABBTree/UnsafeBHVTree.cs:208-256 | It removes the element at leaf handle, and Length drops by one. Removing the root leaf empties the tree and frees that one slot. Otherwise the arena is the sibling-promoted one, the leaf and then its parent go on the free stack, and the two slots leave the tree. No box or value is written, and the tree stays valid. |
| BHVTree.Tree.Add | HFOZ_V2/Packages/com.projectdawn.navigation/ProjectDawn.Navigation/SpatialPartitioning/AABBTree/UnsafeBHVTree.cs:126-202 | It stores volume and value in a fresh slot and returns its handle. The elements gain exactly that handle, and the live nodes gain one slot (empty tree) or two. An empty tree gets the leaf as its root. Existing elements keep their boxes and values, every internal node on the path from the root to the new leaf holds exactly the union of its children's boxes, and the tree stays valid. |
| BHVWalk.WalkStepSound | HFOZ_V2/Packages/com.projectdawn.navigation/ProjectDawn.Navigation/SpatialPartitioning/AABBTree/UnsafeBHVTree.cs:188-196 | One step of the walk on values: after the refit and an optional rotation the tree is linked with the same nodes and leaves, only the path from h's new parent up may be stale, that path is strictly shorter, and leaves keep their boxes and values. |
| BHVWalk.RefitPath | HFOZ_V2/Packages/com.projectdawn.navigation/ProjectDawn.Navigation/SpatialPartitioning/AABBTree/UnsafeBHVTree.cs:188-189 | Refitting a node of the path to the new leaf makes it exactly the union of its children's boxes. The nodes of the path below it that already held the union still do, and its parent is on the path. |
| BHVWalk.RotatePath | HFOZ_V2/Packages/com.projectdawn.navigation/ProjectDawn.Navigation/SpatialPartitioning/AABBTree/UnsafeBHVTree.cs:192-193 | A rotation at a node of the path to the new leaf keeps every node of that path that held the union of its children holding it. The rotated node, now under its grandparent, holds it too, and the grandparent is on the new path. |
| BHVWalk.PathThrough | HFOZ_V2/Packages/com.projectdawn.navigation/ProjectDawn.Navigation/SpatialPartitioning/AABBTree/UnsafeBHVTree.cs:192-193 | The path to the new leaf through a rotatable node splits into the path to its parent and the path inside its subtree, with no node twice. Rotation leaves the path to the grandparent as it was. |
| BHVWalk.RotatedBelow | HFOZ_V2/Packages/com.projectdawn.navigation/ProjectDawn.Navigation/SpatialPartitioning/AABBTree/UnsafeBHVTree.cs:445-468 | A rotation leaves every node inside the rotated node's subtree holding what it held. |
| BHVWalk.RefitKeepsRefitted | HFOZ_V2/Packages/com.projectdawn.navigation/ProjectDawn.Navigation/SpatialPartitioning/AABBTree/UnsafeBHVTree.cs:188-189 | Refitting one node changes no other node's box, except possibly its parent's union. |
| BHVWalk.WalkStepRefits | HFOZ_V2/Packages/com.projectdawn.navigation/ProjectDawn.Navigation/SpatialPartitioning/AABBTree/UnsafeBHVTree.cs:185-197 | One step of the walk on values: afterwards h holds exactly the union of its children, the next node is on the path to the new leaf, and every node of that path below the next node holds the union of its children. |
| SpatialQuery.Limit | HFOZ_V2/Packages/com.projectdawn.navigation/ProjectDawn.Navigation/SpatialPartitioning/AgentSpatialPartitioningSystem.cs:572-573 | The result is the prefix the walk reports before it stops. It holds min(maxCount, \|s\|) entries when maxCount is positive; otherwise there is no limit, because `count == maxCount` never holds after an increment. |
| SpatialQuery.LeafEnclosed | HFOZ_V2/Packages/com.projectdawn.navigation/ProjectDawn.Navigation/SpatialPartitioning/AgentSpatialPartitioningSystem.cs:399-400 | In a tree whose internal boxes enclose their children, every leaf lies inside the root's box. |
| SpatialQuery.ReportedExactly | HFOZ_V2/Packages/com.projectdawn.navigation/ProjectDawn.Navigation/SpatialPartitioning/AgentSpatialPartitioningSystem.cs:395-415 | The traversal reports exactly the elements that match the query (box overlap and layer mask), each once. A subtree whose box misses the query box holds no match. |
| SpatialQuery.CountIsMatching | HFOZ_V2/Packages/com.projectdawn.navigation/ProjectDawn.Navigation/SpatialPartitioning/AgentSpatialPartitioningSystem.cs:408-418 | The count the traversal returns is the number of matching elements. |
| SpatialQuery.PendingPop | HFOZ_V2/Packages/com.projectdawn.navigation/ProjectDawn.Navigation/SpatialPartitioning/AgentSpatialPartitioningSystem.cs:395-397 | Popping the top of the stack reports its subtree first, then the rest of the stack. |
| SpatialQuery.BranchReported | HFOZ_V2/Packages/com.projectdawn.navigation/ProjectDawn.Navigation/SpatialPartitioning/AgentSpatialPartitioningSystem.cs:579-589 | An internal node that overlaps the query reports its children's elements in pop order: the first child pushed is popped second. |
| SpatialQuery.Advance | HFOZ_V2/Packages/com.projectdawn.navigation/ProjectDawn.Navigation/SpatialPartitioning/AgentSpatialPartitioningSystem.cs:395-415 | One turn of the loop (pop, report a hit, push the children) keeps the reported prefix plus what the stack will report equal to the whole traversal. |
| SpatialQuery.Finish | HFOZ_V2/Packages/com.projectdawn.navigation/ProjectDawn.Navigation/SpatialPartitioning/AgentSpatialPartitioningSystem.cs:395 | The loop ends either because the stack ran out before the limit or because the limit was reached. Either way it has reported the limited prefix. |
| SpatialQuery.PendingRoot | HFOZ_V2/Packages/com.projectdawn.navigation/ProjectDawn.Navigation/SpatialPartitioning/AgentSpatialPartitioningSystem.cs:393-394 | The stack holding only the root stands for the whole tree's traversal. |
| SpatialQuery.Traverse | HFOZ_V2/Packages/com.projectdawn.navigation/ProjectDawn.Navigation/SpatialPartitioning/AgentSpatialPartitioningSystem.cs:381-418 | An empty tree reports nothing and counts 0. Otherwise the calls are the agent indices of the limited traversal, in traversal order, and the count is their number. |
| SpatialQuery.Search | HFOZ_V2/Packages/com.projectdawn.navigation/ProjectDawn.Navigation/SpatialPartitioning/AgentSpatialPartitioningSystem.cs:393-416 | On a non-empty tree, the loop's calls and count are those of the limited traversal. |
| SpatialQuery.Turn | HFOZ_V2/Packages/com.projectdawn.navigation/ProjectDawn.Navigation/SpatialPartitioning/AgentSpatialPartitioningSystem.cs:395-415 | The top handle is popped and expanded. A hit is appended to the calls and counted, and the children are pushed; the reference traversal is kept. |
| SpatialQuery.Expand | HFOZ_V2/Packages/com.projectdawn.navigation/ProjectDawn.Navigation/SpatialPartitioning/AgentSpatialPartitioningSystem.cs:397-414 | The popped node is a hit exactly when it is a leaf whose box overlaps the query and whose agent's layers match. An overlapping internal node yields its two children, the nearer one popped first when the query asks for that. |
| SpatialQuery.QueryExact | HFOZ_V2/Packages/com.projectdawn.navigation/ProjectDawn.Navigation/SpatialPartitioning/AgentSpatialPartitioningSystem.cs:395-418 | On a tree whose internal boxes enclose their children, the traversal enumerates every matching element exactly once, and its length is the number of matches. |
| SpatialQuery.Unlimited | HFOZ_V2/Packages/com.projectdawn.navigation/ProjectDawn.Navigation/SpatialPartitioning/AgentSpatialPartitioningSystem.cs:381-418 | One action call per matching element, each with its agent index. The count is the number of matches. |
| SpatialQuery.Limited | HFOZ_V2/Packages/com.projectdawn.navigation/ProjectDawn.Navigation/SpatialPartitioning/AgentSpatialPartitioningSystem.cs:543-595 | The calls are distinct matching elements, nearer subtrees first, stopping after maxCount calls. The count is min(maxCount, matches) for a positive maxCount, and all the matches otherwise. |
| SpatialQuery.QuerySphere | HFOZ_V2/Packages/com.projectdawn.navigation/ProjectDawn.Navigation/SpatialPartitioning/AgentSpatialPartitioningSystem.cs:378-418 | The query box is the cube of half-side radius around center. Every matching element is called once, and the count is the number of matches. |
| SpatialQuery.QueryCircle | HFOZ_V2/Packages/com.projectdawn.navigation/ProjectDawn.Navigation/SpatialPartitioning/AgentSpatialPartitioningSystem.cs:461-501 | It uses the same box as QuerySphere and returns the same calls and count. |
| SpatialQuery.QueryCylinder | HFOZ_V2/Packages/com.projectdawn.navigation/ProjectDawn.Navigation/SpatialPartitioning/AgentSpatialPartitioningSystem.cs:674-714 | The box is the upright cylinder's [center - (r,0,r), center + (r,h,r)]. Every match is called once. |
| SpatialQuery.QueryCircleLimited | HFOZ_V2/Packages/com.projectdawn.navigation/ProjectDawn.Navigation/SpatialPartitioning/AgentSpatialPartitioningSystem.cs:540-595 | At most maxCount distinct matches, nearer subtrees first. The count is min(maxCount, matches) when maxCount > 0. |
| SpatialQuery.QueryCylinderLimited | HFOZ_V2/Packages/com.projectdawn.navigation/ProjectDawn.Navigation/SpatialPartitioning/AgentSpatialPartitioningSystem.cs:755-810 | The same limit for the cylinder's box. |
| NearestEntries.DistanceSq | HFOZ_V2/Packages/com.projectdawn.navigation/ProjectDawn.Navigation/SpatialPartitioning/AgentSpatialPartitioningSystem.cs:1086 | The squared distance is non-negative, and zero from a point to itself. |
| NearestEntries.Pick | HFOZ_V2/Packages/com.projectdawn.navigation/ProjectDawn.Navigation/SpatialPartitioning/AgentSpatialPartitioningSystem.cs:1088-1103 | The downward scan picks -1 exactly when every live distance is below d. Otherwise it picks the lowest slot holding the largest distance, and that distance is at least d. |
| NearestEntries.FixedEntries.constructor | HFOZ_V2/Packages/com.projectdawn.navigation/ProjectDawn.Navigation/SpatialPartitioning/AgentSpatialPartitioningSystem.cs:1066-1081 | The length live slots and the one after them hold the default index and distance. |
| NearestEntries.FixedEntries.At | HFOZ_V2/Packages/com.projectdawn.navigation/ProjectDawn.Navigation/SpatialPartitioning/AgentSpatialPartitioningSystem.cs:1064 | Reading the slot after the live ones yields the terminator. |
| NearestEntries.FixedEntries.Add | HFOZ_V2/Packages/com.projectdawn.navigation/ProjectDawn.Navigation/SpatialPartitioning/AgentSpatialPartitioningSystem.cs:1084-1114 | The result is false exactly when index is already in a live slot, and then nothing changes. Otherwise the picked slot takes the new index and distance, or nothing changes when every live distance is below the new one. Validity is kept: every distance dropped, evicted or never admitted, is at least every live one, so the live slots hold the nearest entries seen. |
| SpatialJobs.AgentBox | HFOZ_V2/Packages/com.projectdawn.navigation/ProjectDawn.Navigation/SpatialPartitioning/AgentSpatialPartitioningSystem.cs:1155-1159 | The agent's upright cylinder box, grown by padding on every side. |
| SpatialJobs.SlotsPop | HFOZ_V2/Packages/com.projectdawn.navigation/ProjectDawn.Navigation/SpatialPartitioning/AgentSpatialPartitioningSystem.cs:1145 | Popping the most recently freed slot yields an unused slot and keeps the rest of the bookkeeping consistent. |
| SpatialJobs.SlotsGrow | HFOZ_V2/Packages/com.projectdawn.navigation/ProjectDawn.Navigation/SpatialPartitioning/AgentSpatialPartitioningSystem.cs:1147-1152 | Growing the lists by one yields a new last slot that nobody owns. |
| SpatialJobs.SlotsRemove | HFOZ_V2/Packages/com.projectdawn.navigation/ProjectDawn.Navigation/SpatialPartitioning/AgentSpatialPartitioningSystem.cs:1224-1227 | Removing an element frees its slot; the others keep theirs. |
| SpatialJobs.SpatialIndex.constructor | HFOZ_V2/Packages/com.projectdawn.navigation/ProjectDawn.Navigation/SpatialPartitioning/AgentSpatialPartitioningSystem.cs:1127-1141 | All lists are empty and no slot is free, the tree is empty, and the padding is the one given. |
| SpatialJobs.SpatialIndex.QueriesAllowed | HFOZ_V2/Packages/com.projectdawn.navigation/ProjectDawn.Navigation/SpatialPartitioning/AgentSpatialPartitioningSystem.cs:397-407 | Every stored element's slot names an agent, so each query's `m_Agents[index]` is in range. |
| SpatialJobs.SpatialIndex.AddNode | HFOZ_V2/Packages/com.projectdawn.navigation/ProjectDawn.Navigation/SpatialPartitioning/AgentSpatialPartitioningSystem.cs:1143-1162 | It takes the most recently freed slot, or grows all five lists by one and takes the new last slot. The tree gains exactly the new leaf, whose value is that slot and whose box is the padded agent box. The returned Spatial records the position. |
| SpatialJobs.SpatialIndex.PopSlot | HFOZ_V2/Packages/com.projectdawn.navigation/ProjectDawn.Navigation/SpatialPartitioning/AgentSpatialPartitioningSystem.cs:1145 | It reuses the most recently freed slot, and the lists are unchanged. |
| SpatialJobs.SpatialIndex.GrowSlot | HFOZ_V2/Packages/com.projectdawn.navigation/ProjectDawn.Navigation/SpatialPartitioning/AgentSpatialPartitioningSystem.cs:1146-1153 | With no free slot it grows all five lists by one and takes the new last slot. |
| SpatialJobs.SpatialIndex.UpdateNode | HFOZ_V2/Packages/com.projectdawn.navigation/ProjectDawn.Navigation/SpatialPartitioning/AgentSpatialPartitioningSystem.cs:1178-1206 | It writes the agent's components into its slot in all five lists. If the agent stayed within its padding, the tree is unchanged. Otherwise the old leaf is replaced by a new one with the same slot, the new padded box and the new position. |
| SpatialJobs.SpatialIndex.WriteSlot | HFOZ_V2/Packages/com.projectdawn.navigation/ProjectDawn.Navigation/SpatialPartitioning/AgentSpatialPartitioningSystem.cs:1182-1186 | Each of the five lists changes at the agent's slot only. |
| SpatialJobs.SpatialIndex.RemoveNode | HFOZ_V2/Packages/com.projectdawn.navigation/ProjectDawn.Navigation/SpatialPartitioning/AgentSpatialPartitioningSystem.cs:1220-1229 | A Null handle changes nothing. Otherwise the leaf leaves the tree, its slot is pushed onto the free slots, and the handle becomes Null. The lists are untouched. |
| SpatialJobs.SpatialIndex.PushFree | HFOZ_V2/Packages/com.projectdawn.navigation/ProjectDawn.Navigation/SpatialPartitioning/AgentSpatialPartitioningSystem.cs:1227 | The removed agent's slot becomes the most recently freed one. |
| AnimatorRuntime.NextMotionId | HFOZ_V2/Packages/com.rukhanka.animation/Rukhanka.Runtime/AnimatorController/RuntimeAnimatorData.cs:47-51 | The counter moves 0xff forward modulo 2^32, and with no wrap it is exactly counter + 0xff. |
| AnimatorRuntime.MotionIdClosedForm | HFOZ_V2/Packages/com.rukhanka.animation/Rukhanka.Runtime/AnimatorController/RuntimeAnimatorData.cs:47-51 | From a zero counter, the n-th motion id is n * 0xff mod 2^32. |
| AnimatorRuntime.DefaultTransition | HFOZ_V2/Packages/com.rukhanka.animation/Rukhanka.Runtime/AnimatorController/RuntimeAnimatorData.cs:43 | No transition (a negative id), with zero length and zero duration. |
| AnimatorRuntime.MinScan | HFOZ_V2/Packages/com.rukhanka.animation/Rukhanka.Runtime/AnimatorController/RuntimeAnimatorData.cs:76-86 | The scan's minimum starts at 1.0. It is the lowest weight below 1.0 together with the first slot holding it, and slot 0 when no weight is below 1.0. |
| AnimatorRuntime.EvictIndex | HFOZ_V2/Packages/com.rukhanka.animation/Rukhanka.Runtime/AnimatorController/RuntimeAnimatorData.cs:74-86 | In a full list, the evicted slot is the first with the lowest weight when some weight is below 1.0, and slot 0 otherwise. |
| AnimatorRuntime.Removed | HFOZ_V2/Packages/com.rukhanka.animation/Rukhanka.Runtime/AnimatorController/RuntimeAnimatorData.cs:87-89 | Removing slot k (the last snapshot moves into it) drops exactly that snapshot, as a multiset, and shortens the list by one. |
| AnimatorRuntime.Survivors | HFOZ_V2/Packages/com.rukhanka.animation/Rukhanka.Runtime/AnimatorController/RuntimeAnimatorData.cs:74-90 | A list that is not full keeps every snapshot. A full list loses exactly the evicted one. |
| AnimatorRuntime.Pushed | HFOZ_V2/Packages/com.rukhanka.animation/Rukhanka.Runtime/AnimatorController/RuntimeAnimatorData.cs:71-101 | The list keeps its capacity when full, and otherwise grows by one. The new snapshot is last. |
| AnimatorRuntime.ScaledTotal | HFOZ_V2/Packages/com.rukhanka.animation/Rukhanka.Runtime/AnimatorController/RuntimeAnimatorData.cs:93-97 | Scaling multiplies the total weight by (1 - weight). |
| AnimatorRuntime.PushedTotal | HFOZ_V2/Packages/com.rukhanka.animation/Rukhanka.Runtime/AnimatorController/RuntimeAnimatorData.cs:71-101 | The total after a push is (1 - w) times the survivors' total plus w. |
| AnimatorRuntime.PushedUnitTotal | HFOZ_V2/Packages/com.rukhanka.animation/Rukhanka.Runtime/AnimatorController/RuntimeAnimatorData.cs:71-101 | Weights that sum to 1 in a list that is not full still sum to 1 after a push. |
| AnimatorRuntime.RuntimeAnimatorData.constructor | HFOZ_V2/Packages/com.rukhanka.animation/Rukhanka.Runtime/AnimatorController/RuntimeAnimatorData.cs:106 | `new RuntimeAnimatorData()` sets every field to zero and holds no snapshots. |
| AnimatorRuntime.RuntimeAnimatorData.GetNextMotionID | HFOZ_V2/Packages/com.rukhanka.animation/Rukhanka.Runtime/AnimatorController/RuntimeAnimatorData.cs:47-51 | The counter becomes NextMotionId of the old value and is returned. Nothing else changes. |
| AnimatorRuntime.RuntimeAnimatorData.MakeDefaultState | HFOZ_V2/Packages/com.rukhanka.animation/Rukhanka.Runtime/AnimatorController/RuntimeAnimatorData.cs:42 | A state with id -1, zero duration and a fresh motion id. Only the counter changes. |
| AnimatorRuntime.RuntimeAnimatorData.MakeDefault | HFOZ_V2/Packages/com.rukhanka.animation/Rukhanka.Runtime/AnimatorController/RuntimeAnimatorData.cs:104-112 | Both states are empty with motion ids 0xff and 0x1fe, the counter is 0x1fe, there is no active transition and there are no snapshots. |
| AnimatorRuntime.RuntimeAnimatorData.ClearStateSnapshots | HFOZ_V2/Packages/com.rukhanka.animation/Rukhanka.Runtime/AnimatorController/RuntimeAnimatorData.cs:67 | The snapshots are emptied, and nothing else changes. |
| AnimatorRuntime.RuntimeAnimatorData.PushStateSnapshot | HFOZ_V2/Packages/com.rukhanka.animation/Rukhanka.Runtime/AnimatorController/RuntimeAnimatorData.cs:71-101 | The snapshots become Pushed(old, capacity, new snapshot), and nothing else changes. |
| AnimatorRuntime.RuntimeAnimatorData.EvictLowest | HFOZ_V2/Packages/com.rukhanka.animation/Rukhanka.Runtime/AnimatorController/RuntimeAnimatorData.cs:74-91 | A full list loses the snapshot at EvictIndex, and the last snapshot fills its slot. |
| AnimatorRuntime.RuntimeAnimatorData.ScaleWeights | HFOZ_V2/Packages/com.rukhanka.animation/Rukhanka.Runtime/AnimatorController/RuntimeAnimatorData.cs:93-97 | Every weight is multiplied by (1 - weight). |
| ColorTools.ToInt | HFOZ_V2/Packages/com.rukhanka.animation/Rukhanka.Toolbox/ColorTools.cs:9-13 | The packed int is negative exactly when red has its top bit set (a two's-complement int). |
| ColorTools.FromIntToInt | HFOZ_V2/Packages/com.rukhanka.animation/Rukhanka.Toolbox/ColorTools.cs:9-21 | Unpacking a packed colour gives the colour back. |
| ColorTools.ToIntFromInt | HFOZ_V2/Packages/com.rukhanka.animation/Rukhanka.Toolbox/ColorTools.cs:9-21 | Packing the unpacked channels gives back every int. |
| ColorTools.FromInt | HFOZ_V2/Packages/com.rukhanka.animation/Rukhanka.Toolbox/ColorTools.cs:17-21 | The four bytes of an int read with an arithmetic shift and a mask, most significant first. ToIntFromInt and FromIntToInt show it inverts ToInt. |
| ColorTools.Hex2 | HFOZ_V2/Packages/com.rukhanka.animation/Rukhanka.Toolbox/ColorTools.cs:28 | `X2` writes two uppercase hexadecimal digits whose value is the byte. |
| ColorTools.ToWebColor | HFOZ_V2/Packages/com.rukhanka.animation/Rukhanka.Toolbox/ColorTools.cs:25-30 | The result is "#" followed by six hexadecimal digits. |
| ColorTools.WebColorRoundTrip | HFOZ_V2/Packages/com.rukhanka.animation/Rukhanka.Toolbox/ColorTools.cs:25-30 | The web colour determines red, green and blue, and ignores alpha. |
| HistoryNames.Digits | HFOZ_V2/Packages/com.rukhanka.animation/Rukhanka.Runtime/WaybackMachine/AnimatorControllerHistoryData.cs:45 | The decimal digits of a natural number: non-empty, all digits. |
| HistoryNames.DigitsRoundTrip | HFOZ_V2/Packages/com.rukhanka.animation/Rukhanka.Runtime/WaybackMachine/AnimatorControllerHistoryData.cs:45 | Reading the digits back gives the number. |
| HistoryNames.Decimal | HFOZ_V2/Packages/com.rukhanka.animation/Rukhanka.Runtime/WaybackMachine/AnimatorControllerHistoryData.cs:45 | int.ToString() puts a minus sign first exactly for negatives, followed by digits only. |
| HistoryNames.DecimalInjective | HFOZ_V2/Packages/com.rukhanka.animation/Rukhanka.Runtime/WaybackMachine/AnimatorControllerHistoryData.cs:45 | Distinct ints print differently. |
| HistoryNames.StateNameInjective | HFOZ_V2/Packages/com.rukhanka.animation/Rukhanka.Runtime/WaybackMachine/AnimatorControllerHistoryData.cs:40-47 | Two state records share a name exactly when they share a state id. |
| HistoryNames.StateName | HFOZ_V2/Packages/com.rukhanka.animation/Rukhanka.Runtime/WaybackMachine/AnimatorControllerHistoryData.cs:40-47 | The decimal state id, with a leading minus sign exactly when the id is negative and digits everywhere else. |
| HistoryNames.TransitionName | HFOZ_V2/Packages/com.rukhanka.animation/Rukhanka.Runtime/WaybackMachine/AnimatorControllerHistoryData.cs:66-73 | The source id, then "->", then the destination id. The only '>' in the name is the one right after the source id. |
| HistoryNames.TransitionNameInjective | HFOZ_V2/Packages/com.rukhanka.animation/Rukhanka.Runtime/WaybackMachine/AnimatorControllerHistoryData.cs:66-73 | "src->dst" names determine both states, in both directions. |
| HistoryNames.EventName | HFOZ_V2/Packages/com.rukhanka.animation/Rukhanka.Runtime/WaybackMachine/AnimatorEventHistoryData.cs:36-48 | "Enter ", "Exit " or nothing, then "layer:state". The first two characters of the name tell the event type. |
| HistoryNames.EventNameInjective | HFOZ_V2/Packages/com.rukhanka.animation/Rukhanka.Runtime/WaybackMachine/AnimatorEventHistoryData.cs:36-48 | "Enter "/"Exit "/"" + layer:state names determine the event type, layer and state, in both directions. |
| HistoryNames.AnimationEventName | HFOZ_V2/Packages/com.rukhanka.animation/Rukhanka.Runtime/WaybackMachine/AnimationEventHistoryData.cs:38-45 | The decimal name hash: a non-empty string of digits, since the hash is unsigned. |
| HistoryNames.AnimationEventNameInjective | HFOZ_V2/Packages/com.rukhanka.animation/Rukhanka.Runtime/WaybackMachine/AnimationEventHistoryData.cs:38-45 | Two animation-event records share a name exactly when they share a name hash. |
| HistoryNames.AnimationEventStringParam | HFOZ_V2/Packages/com.rukhanka.animation/Rukhanka.Runtime/WaybackMachine/AnimationEventHistoryData.cs:49-56 | The decimal string-parameter hash: a non-empty string of digits. |
| HistoryNames.AnimationEventStringParamInjective | HFOZ_V2/Packages/com.rukhanka.animation/Rukhanka.Runtime/WaybackMachine/AnimationEventHistoryData.cs:49-56 | Two animation-event records show the same string parameter exactly when they share its hash. |
| HistoryNames.SplitAt | HFOZ_V2/Packages/com.rukhanka.animation/Rukhanka.Runtime/WaybackMachine/AnimatorControllerHistoryData.cs:71 | Splitting at the first separator recovers both parts. |
| HistoryNames.PrefixInjective | HFOZ_V2/Packages/com.rukhanka.animation/Rukhanka.Runtime/WaybackMachine/AnimatorEventHistoryData.cs:41-46 | A prefixed name determines its prefix and the rest. |
| WaybackHistory.NewAnimationHistory | HFOZ_V2/Packages/com.rukhanka.animation/Rukhanka.Runtime/WaybackMachine/AnimationHistoryData.cs:38-56 | The span is the single given frame, both histories are empty, and a missing animation or avatar mask hashes to zero. |
| WaybackHistory.HashIgnoresHistory | HFOZ_V2/Packages/com.rukhanka.animation/Rukhanka.Runtime/WaybackMachine/AnimationHistoryData.cs:60-70 | ComputeHash depends only on the identity fields, not on the span or the histories. |
| WaybackHistory.ComputeHash | HFOZ_V2/Packages/com.rukhanka.animation/Rukhanka.Runtime/WaybackMachine/AnimationHistoryData.cs:60-70 | The six identity fields in the order they are fed to the hash, so two entries hash alike exactly when those fields agree: the hash is taken as collision-free. HashIgnoresHistory shows that the span and the histories do not enter it. |
| WaybackHistory.FirstAtOrAfter | HFOZ_V2/Packages/com.rukhanka.animation/Rukhanka.Runtime/WaybackMachine/AnimationHistoryData.cs:89-95 | The first index from `from` on whose frame is at or after frameIndex, or the length when there is none. |
| WaybackHistory.GetHistoryValueForFrame | HFOZ_V2/Packages/com.rukhanka.animation/Rukhanka.Runtime/WaybackMachine/AnimationHistoryData.cs:83-97 | The loop returns HistoryValueForFrame: 0 for an empty history, otherwise the first value tagged at or after the frame, and the last value when there is none. |
| WaybackHistory.ConsecutiveValue | HFOZ_V2/Packages/com.rukhanka.animation/Rukhanka.Runtime/WaybackMachine/AnimationHistoryData.cs:83-97 | On a history with one value per frame from `first` on, the frame's own value is returned, the first value before the range and the last value after it. |
| WaybackHistory.NewAnimatorEventHistory | HFOZ_V2/Packages/com.rukhanka.animation/Rukhanka.Runtime/WaybackMachine/AnimatorEventHistoryData.cs:21-32 | The event's type, layer and state over a one-frame range, with no begin index (-1). |
| WaybackHistory.NewAnimationEventHistory | HFOZ_V2/Packages/com.rukhanka.animation/Rukhanka.Runtime/WaybackMachine/AnimationEventHistoryData.cs:20-34 | The event's hashes and parameters, tagged with the frame. |
| WaybackHistory.NewStateHistory | HFOZ_V2/Packages/com.rukhanka.animation/Rukhanka.Runtime/WaybackMachine/AnimatorControllerHistoryData.cs:21-36 | A one-frame span at frameIndex, weight 1, the given state and motion, and the layer's index. |
| WaybackData.FramesPerSecond | HFOZ_V2/Packages/com.rukhanka.animation/Rukhanka.Runtime/WaybackMachine/WaybackMachineComponents.cs:75-81 | Each mode stands for 30, 60 or 120 frames per second, and 60 exactly for FPS60. |
| WaybackData.GetFrameDuration | HFOZ_V2/Packages/com.rukhanka.animation/Rukhanka.Runtime/WaybackMachine/WaybackMachineComponents.cs:75-81 | The duration is positive and is the inverse of the frame rate. |
| WaybackData.WaybackMachineData.constructor | HFOZ_V2/Packages/com.rukhanka.animation/Rukhanka.Runtime/WaybackMachine/WaybackMachineComponents.cs:13-31 | A default value: the first mode (FPS120), frame 0, every list empty. |
| WaybackData.WaybackMachineData.Construct | HFOZ_V2/Packages/com.rukhanka.animation/Rukhanka.Runtime/WaybackMachine/WaybackMachineComponents.cs:61-71 | FPS60 and all seven lists new and empty. The last frame is kept. |
| WaybackData.WaybackMachineData.EndFrame | HFOZ_V2/Packages/com.rukhanka.animation/Rukhanka.Runtime/WaybackMachine/WaybackMachineComponents.cs:53-57 | The two emitted-event lists are cleared, and nothing else changes. |
| WaybackData.WaybackMachineData.Clear | HFOZ_V2/Packages/com.rukhanka.animation/Rukhanka.Runtime/WaybackMachine/WaybackMachineComponents.cs:35-49 | Frame 0, every list empty, the mode kept. The recording then takes no space (DataSize 0) whatever the element sizes, which the window reads as nothing to save. |
| WaybackData.WaybackMachineData.GetDataSize | HFOZ_V2/Packages/com.rukhanka.animation/Rukhanka.Runtime/WaybackMachine/WaybackMachineComponents.cs:85-99 | The loop's sum equals DataSize: the element sizes of every list, plus the two history lists of every animation entry. |
| WaybackRules.LastIndex | HFOZ_V2/Packages/com.rukhanka.animation/Rukhanka.Runtime/WaybackMachine/WaybackMachineRecordSystem.cs:50-61 | The last index whose element satisfies p, or -1, with no later element satisfying it. |
| WaybackRules.RecordedAnimation | HFOZ_V2/Packages/com.rukhanka.animation/Rukhanka.Runtime/WaybackMachine/WaybackMachineRecordSystem.cs:43-77 | The entry continued is the last one that ended on the previous frame with the same hash; otherwise one is appended. It ends at this frame with one weight and one time value added. Every other entry is unchanged. |
| WaybackRules.RecordedAnimationChronicled | HFOZ_V2/Packages/com.rukhanka.animation/Rukhanka.Runtime/WaybackMachine/WaybackMachineRecordSystem.cs:43-77 | Recording keeps every entry holding exactly one value per frame of its span. |
| WaybackRules.RecordedAnimationsChronicled | HFOZ_V2/Packages/com.rukhanka.animation/Rukhanka.Runtime/WaybackMachine/WaybackMachineRecordSystem.cs:99-110 | The same holds for a whole frame's animations. |
| WaybackRules.RecordedAnimationCount | HFOZ_V2/Packages/com.rukhanka.animation/Rukhanka.Runtime/WaybackMachine/WaybackMachineRecordSystem.cs:73-76 | Each RecordAnimation adds exactly two history values. |
| WaybackRules.RecordedAnimationsCount | HFOZ_V2/Packages/com.rukhanka.animation/Rukhanka.Runtime/WaybackMachine/WaybackMachineRecordSystem.cs:99-110 | A frame adds exactly two values per animation. |
| WaybackRules.RecordedState | HFOZ_V2/Packages/com.rukhanka.animation/Rukhanka.Runtime/WaybackMachine/WaybackMachineRecordSystem.cs:160-190 | A negative state id records nothing and returns -1. Otherwise the returned index names an entry with that state, layer and motion ending at this frame. It is a continued entry that had ended on the previous frame, or a new one appended at the end. Every other entry is unchanged. |
| WaybackRules.RecordedStateSpanned | HFOZ_V2/Packages/com.rukhanka.animation/Rukhanka.Runtime/WaybackMachine/WaybackMachineRecordSystem.cs:160-190 | Recording a state keeps every state entry spanning at least one frame, its start at or before its end. |
| WaybackRules.RecordedTransition | HFOZ_V2/Packages/com.rukhanka.animation/Rukhanka.Runtime/WaybackMachine/WaybackMachineRecordSystem.cs:114-156 | Without an active transition nothing changes. Otherwise the last entry of the same layer and states that ended on the previous frame is continued, or a new one is appended. It then ends at this frame with the new weight end and the two state indices given. Other entries are unchanged. |
| WaybackRules.RecordedLayerLinked | HFOZ_V2/Packages/com.rukhanka.animation/Rukhanka.Runtime/WaybackMachine/WaybackMachineRecordSystem.cs:200-205 | Recording one layer keeps every transition entry pointing at state entries of its own two states. |
| WaybackRules.RecordedLayersLinked | HFOZ_V2/Packages/com.rukhanka.animation/Rukhanka.Runtime/WaybackMachine/WaybackMachineRecordSystem.cs:194-207 | The same holds over all layers, and spans stay well formed. |
| WaybackRules.RecordedAnimatorEvent | HFOZ_V2/Packages/com.rukhanka.animation/Rukhanka.Runtime/WaybackMachine/WaybackMachineRecordSystem.cs:219-256 | A StateUpdate with an earlier StateUpdate entry of the same layer and state stretches the last such entry to this frame, and nothing is appended. Any other event is appended over this single frame. Its begin index is the last StateEnter entry of its layer and state, or -1, and StateEnter itself gets none. |
| WaybackRules.RecordedAnimatorEventBegins | HFOZ_V2/Packages/com.rukhanka.animation/Rukhanka.Runtime/WaybackMachine/WaybackMachineRecordSystem.cs:237-250 | Recording one event keeps every begin index pointing at an earlier StateEnter of the same layer and state. |
| WaybackRules.RecordedAnimatorEventUnique | HFOZ_V2/Packages/com.rukhanka.animation/Rukhanka.Runtime/WaybackMachine/WaybackMachineRecordSystem.cs:223-256 | Recording never adds a second StateUpdate entry for a layer and state. |
| WaybackRules.RecordedAnimatorEventsLinks | HFOZ_V2/Packages/com.rukhanka.animation/Rukhanka.Runtime/WaybackMachine/WaybackMachineRecordSystem.cs:211-258 | A frame's animator events keep both invariants. |
| WaybackRules.RecordedAnimationEvents | HFOZ_V2/Packages/com.rukhanka.animation/Rukhanka.Runtime/WaybackMachine/WaybackMachineRecordSystem.cs:81-95 | One entry per emitted animation event, in order and tagged with the frame, appended after the old ones. |
| WaybackRules.RecordedAnimationEventsOrdered | HFOZ_V2/Packages/com.rukhanka.animation/Rukhanka.Runtime/WaybackMachine/WaybackMachineRecordSystem.cs:89-94 | Entries stay in frame order, all before the next frame. |
| WaybackRules.RecordedFrame | HFOZ_V2/Packages/com.rukhanka.animation/Rukhanka.Runtime/WaybackMachine/WaybackMachineRecordSystem.cs:263-279 | It marks the frame recorded and clears the emitted lists. Each history changes only when its buffer is present. |
| WaybackRules.EmptyConsistent | HFOZ_V2/Packages/com.rukhanka.animation/Rukhanka.Runtime/WaybackMachine/WaybackMachineComponents.cs:35-49 | An empty recording is consistent. |
| WaybackRules.RecordedFrameConsistent | HFOZ_V2/Packages/com.rukhanka.animation/Rukhanka.Runtime/WaybackMachine/WaybackMachineRecordSystem.cs:263-279 | Every recorded frame keeps the recording consistent: chronicled animations, spanned states, linked transitions, ordered animation events, and sound begin indices with unique StateUpdate entries. |
| WaybackRecord.WaybackMachineRecordSystem.OnStartRunning | HFOZ_V2/Packages/com.rukhanka.animation/Rukhanka.Runtime/WaybackMachine/WaybackMachineRecordSystem.cs:22-25 | The frame counter is reset to 0. |
| WaybackRecord.WaybackMachineRecordSystem.RecordAnimation | HFOZ_V2/Packages/com.rukhanka.animation/Rukhanka.Runtime/WaybackMachine/WaybackMachineRecordSystem.cs:43-77 | The animation history becomes RecordedAnimation, and nothing else changes. |
| WaybackRecord.WaybackMachineRecordSystem.RecordAnimationEvents | HFOZ_V2/Packages/com.rukhanka.animation/Rukhanka.Runtime/WaybackMachine/WaybackMachineRecordSystem.cs:81-95 | Without the buffer nothing changes. Otherwise the animation-event history becomes RecordedAnimationEvents. |
| WaybackRecord.WaybackMachineRecordSystem.RecordAnimations | HFOZ_V2/Packages/com.rukhanka.animation/Rukhanka.Runtime/WaybackMachine/WaybackMachineRecordSystem.cs:99-110 | Without the buffer nothing changes. Otherwise each animation is recorded at the current frame. |
| WaybackRecord.WaybackMachineRecordSystem.RecordAnimatorTransition | HFOZ_V2/Packages/com.rukhanka.animation/Rukhanka.Runtime/WaybackMachine/WaybackMachineRecordSystem.cs:114-156 | The transition history becomes RecordedTransition. |
| WaybackRecord.WaybackMachineRecordSystem.RecordAnimatorState | HFOZ_V2/Packages/com.rukhanka.animation/Rukhanka.Runtime/WaybackMachine/WaybackMachineRecordSystem.cs:160-190 | The state history and the index are those of RecordedState. |
| WaybackRecord.WaybackMachineRecordSystem.RecordAnimatorLayer | HFOZ_V2/Packages/com.rukhanka.animation/Rukhanka.Runtime/WaybackMachine/WaybackMachineRecordSystem.cs:202-205 | The layer's two states, then its transition, as RecordedLayer. |
| WaybackRecord.WaybackMachineRecordSystem.RecordAnimatorStates | HFOZ_V2/Packages/com.rukhanka.animation/Rukhanka.Runtime/WaybackMachine/WaybackMachineRecordSystem.cs:194-207 | Without layers nothing changes. Otherwise both histories become RecordedLayers. |
| WaybackRecord.WaybackMachineRecordSystem.StretchUpdate | HFOZ_V2/Packages/com.rukhanka.animation/Rukhanka.Runtime/WaybackMachine/WaybackMachineRecordSystem.cs:221-235 | It finds the last StateUpdate entry of the layer and state, if any, and stretches it to this frame. |
| WaybackRecord.WaybackMachineRecordSystem.FindBegin | HFOZ_V2/Packages/com.rukhanka.animation/Rukhanka.Runtime/WaybackMachine/WaybackMachineRecordSystem.cs:238-250 | It returns the last StateEnter entry of the layer and state, or -1. |
| WaybackRecord.WaybackMachineRecordSystem.RecordAnimatorEvent | HFOZ_V2/Packages/com.rukhanka.animation/Rukhanka.Runtime/WaybackMachine/WaybackMachineRecordSystem.cs:219-256 | The history becomes RecordedAnimatorEvent. |
| WaybackRecord.WaybackMachineRecordSystem.RecordAnimatorEvents | HFOZ_V2/Packages/com.rukhanka.animation/Rukhanka.Runtime/WaybackMachine/WaybackMachineRecordSystem.cs:211-258 | Without the buffer nothing changes. Otherwise every emitted event is recorded in order. |
| WaybackRecord.WaybackMachineRecordSystem.RecordFrame | HFOZ_V2/Packages/com.rukhanka.animation/Rukhanka.Runtime/WaybackMachine/WaybackMachineRecordSystem.cs:265-278 | The recording becomes RecordedFrame at the current counter. |
| WaybackRecord.WaybackMachineRecordSystem.OnUpdate | HFOZ_V2/Packages/com.rukhanka.animation/Rukhanka.Runtime/WaybackMachine/WaybackMachineRecordSystem.cs:263-279 | One frame is recorded as RecordedFrame and the counter moves on by one. A consistent recording stays consistent. |
| WaybackSettings.MakeDefault | HFOZ_V2/Packages/com.rukhanka.animation/Rukhanka.Editor/WaybackMachine/WaybackMachineSettings.cs:28-41 | Every section is shown with flags 0/1, the ruler is in frames, event labels are on and both graphs are off. |
| WaybackSettings.ShownByFlag | HFOZ_V2/Packages/com.rukhanka.animation/Rukhanka.Editor/WaybackMachine/WaybackMachineSettings.cs:15-20 | With 0/1 flags, `length * flag` is the whole list when the section is visible and 0 otherwise. |
| WaybackSettings.IsEventsVisible | HFOZ_V2/Packages/com.rukhanka.animation/Rukhanka.Editor/WaybackMachine/WaybackMachineSettings.cs:18 | The events section is shown when its flag is non-zero; with 0/1 flags, exactly when the flag is 1, the multiplier that keeps the section's length. |
| WaybackSettings.IsAnimationsVisible | HFOZ_V2/Packages/com.rukhanka.animation/Rukhanka.Editor/WaybackMachine/WaybackMachineSettings.cs:19 | The animations section is shown when its flag is non-zero; with 0/1 flags, exactly when the flag is 1, the multiplier that keeps the section's length. |
| WaybackSettings.IsStatesVisible | HFOZ_V2/Packages/com.rukhanka.animation/Rukhanka.Editor/WaybackMachine/WaybackMachineSettings.cs:20 | The states section is shown when its flag is non-zero; with 0/1 flags, exactly when the flag is 1, the multiplier that keeps the section's length. |
| WaybackRules.LastIndexSkip | HFOZ_V2/Packages/com.rukhanka.animation/Rukhanka.Runtime/WaybackMachine/WaybackMachineRecordSystem.cs:50-61 | A backward search that passes over a failing element finds the same index in the shorter prefix. |
| WaybackRules.LastIndexHit | HFOZ_V2/Packages/com.rukhanka.animation/Rukhanka.Runtime/WaybackMachine/WaybackMachineRecordSystem.cs:50-61 | A backward search stops at the first element from the end that satisfies the predicate. |
| WaybackRules.ExtendedChronicle | HFOZ_V2/Packages/com.rukhanka.animation/Rukhanka.Runtime/WaybackMachine/WaybackMachineRecordSystem.cs:69-76 | Extending an entry that ended on the previous frame keeps one value per frame of its span. |
| WaybackRules.GrowsLinked | HFOZ_V2/Packages/com.rukhanka.animation/Rukhanka.Runtime/WaybackMachine/WaybackMachineRecordSystem.cs:160-190 | Growing the state history by continuing or appending entries keeps every transition link. |
| WaybackRules.StretchedBeginLinks | HFOZ_V2/Packages/com.rukhanka.animation/Rukhanka.Runtime/WaybackMachine/WaybackMachineRecordSystem.cs:223-235 | Stretching an entry's frame range keeps every begin index. |
| WaybackRules.AppendedBeginLinks | HFOZ_V2/Packages/com.rukhanka.animation/Rukhanka.Runtime/WaybackMachine/WaybackMachineRecordSystem.cs:253-256 | Appending an entry whose begin index is right keeps every begin index. |
| WaybackRules.RecordedAnimatorEventLinks | HFOZ_V2/Packages/com.rukhanka.animation/Rukhanka.Runtime/WaybackMachine/WaybackMachineRecordSystem.cs:219-256 | Recording one event keeps both the begin links and the uniqueness of StateUpdate entries. |
| ColorTools.HexDigit | HFOZ_V2/Packages/com.rukhanka.animation/Rukhanka.Toolbox/ColorTools.cs:28 | A value 0..15 becomes an uppercase hexadecimal digit. |
| ColorTools.HexValue | HFOZ_V2/Packages/com.rukhanka.animation/Rukhanka.Toolbox/ColorTools.cs:28 | An uppercase hexadecimal digit has a value 0..15. |
| HistoryNames.PrefixKind | HFOZ_V2/Packages/com.rukhanka.animation/Rukhanka.Runtime/WaybackMachine/AnimatorEventHistoryData.cs:41-44 | The first characters of an event name tell its event type. |
| WaybackHistory.BlobHash | HFOZ_V2/Packages/com.rukhanka.animation/Rukhanka.Runtime/WaybackMachine/AnimationHistoryData.cs:41-42 | A blob reference that is not created hashes to zero. |
| WaybackRecord.WaybackMachineRecordSystem.constructor | HFOZ_V2/Packages/com.rukhanka.animation/Rukhanka.Runtime/WaybackMachine/WaybackMachineRecordSystem.cs:15-17 | A new system, a struct with its counter at the default 0. |
| TimelinePortal.Truncate | HFOZ_V2/Packages/com.rukhanka.animation/Rukhanka.Editor/WaybackMachine/TimelinePortalData.cs:42 | A C# `(int)` cast of a float rounds toward zero. Whole numbers are kept. |
| TimelinePortal.Ceil | HFOZ_V2/Packages/com.rukhanka.animation/Rukhanka.Editor/WaybackMachine/TimelinePortalData.cs:98-103 | math.ceil gives the least integer at or above its argument. |
| TimelinePortal.Round | HFOZ_V2/Packages/com.rukhanka.animation/Rukhanka.Editor/WaybackMachine/TimelinePortalData.cs:41 | math.round lands within one half of its argument and keeps whole numbers. |
| TimelinePortal.Clamp | HFOZ_V2/Packages/com.rukhanka.animation/Rukhanka.Editor/WaybackMachine/TimelinePortalData.cs:42 | math.clamp stays within [lo, hi] and leaves values already inside alone. |
| TimelinePortal.CeilPow2 | HFOZ_V2/Packages/com.rukhanka.animation/Rukhanka.Editor/WaybackMachine/TimelinePortalData.cs:98 | math.ceilpow2 gives the least power of two at or above n. |
| TimelinePortal.FloorStep | HFOZ_V2/Packages/com.rukhanka.animation/Rukhanka.Editor/WaybackMachine/TimelinePortalData.cs:102 | floor(x / step) * step is a multiple of the step at or before x, within one step of it. |
| TimelinePortal.SpacingCovered | HFOZ_V2/Packages/com.rukhanka.animation/Rukhanka.Editor/WaybackMachine/TimelinePortalData.cs:97-98 | A step of at least the minimum spacing over the frame width spans at least that spacing. |
| TimelinePortal.FrameMapping.OneFrameWidth | HFOZ_V2/Packages/com.rukhanka.animation/Rukhanka.Editor/WaybackMachine/TimelinePortalData.cs:83-88 | The frame width times the number of visible frames is the content width. It is positive for a positive width and span. |
| TimelinePortal.FrameMapping.GetPosXForFrame | HFOZ_V2/Packages/com.rukhanka.animation/Rukhanka.Editor/WaybackMachine/TimelinePortalData.cs:59-65 | A frame sits (frame - first visible frame) frame widths from the left edge. |
| TimelinePortal.TimelinePortalData.constructor | HFOZ_V2/Packages/com.rukhanka.animation/Rukhanka.Editor/WaybackMachine/TimelinePortalData.cs:14-33 | A portal with the given frame size, ranges and width, the knob at frame 0 and no tick lines. |
| TimelinePortal.TimelinePortalData.OneFrameWidth | HFOZ_V2/Packages/com.rukhanka.animation/Rukhanka.Editor/WaybackMachine/TimelinePortalData.cs:83-88 | The frame width times the number of visible frames is the content width. It is positive for a positive width and span. |
| TimelinePortal.TimelinePortalData.GetPosXForFrame | HFOZ_V2/Packages/com.rukhanka.animation/Rukhanka.Editor/WaybackMachine/TimelinePortalData.cs:59-65 | A frame sits (frame - first visible frame) frame widths from the left edge. |
| TimelinePortal.TimelinePortalData.TickStep | HFOZ_V2/Packages/com.rukhanka.animation/Rukhanka.Editor/WaybackMachine/TimelinePortalData.cs:97-98 | The tick step is a power of two, and ticks that far apart are at least TIMELINE_TICKS_MIN_SKIP_SPACE wide. |
| TimelinePortal.TimelinePortalData.TickStart | HFOZ_V2/Packages/com.rukhanka.animation/Rukhanka.Editor/WaybackMachine/TimelinePortalData.cs:102 | The first tick is a multiple of the step, at or before the first visible frame and less than one step before it. |
| TimelinePortal.TimelinePortalData.TickAt | HFOZ_V2/Packages/com.rukhanka.animation/Rukhanka.Editor/WaybackMachine/TimelinePortalData.cs:106-120 | A tick carries its frame and is vertical up to y = 1. It is major exactly when the step is 1 or its step number is even, and a major tick starts at y = 0. Its x is the frame's position truncated plus 0.5. |
| TimelinePortal.TimelinePortalData.TicksShape | HFOZ_V2/Packages/com.rukhanka.animation/Rukhanka.Editor/WaybackMachine/TimelinePortalData.cs:105-122 | The loop yields one tick per step from the start frame, each TickAt its frame, all before the end frame. None is yielded exactly when start >= end, and the last tick is within one step of the end. |
| TimelinePortal.TimelinePortalData.TickLinesCoverRange | HFOZ_V2/Packages/com.rukhanka.animation/Rukhanka.Editor/WaybackMachine/TimelinePortalData.cs:102-105 | The ticks are multiples of the step, from one at or before the first visible frame. |
| TimelinePortal.TimelinePortalData.ComputeTicks | HFOZ_V2/Packages/com.rukhanka.animation/Rukhanka.Editor/WaybackMachine/TimelinePortalData.cs:92-123 | The tick list is replaced by the ticks from TickStart to the rounded-up end of the visible range. Every other field is kept. |
| TimelinePortal.TimelinePortalData.SetKnobFromPos | HFOZ_V2/Packages/com.rukhanka.animation/Rukhanka.Editor/WaybackMachine/TimelinePortalData.cs:37-43 | The knob moves to the frame nearest the position, clamped into the recorded range, then truncated. Nothing else changes. |
| TimelinePortal.FrameSpacing | HFOZ_V2/Packages/com.rukhanka.animation/Rukhanka.Editor/WaybackMachine/TimelinePortalData.cs:59-65 | Consecutive frames lie one frame width apart, and the first visible frame is at x = 0. |
| TimelinePortal.PosXIncreasing | HFOZ_V2/Packages/com.rukhanka.animation/Rukhanka.Editor/WaybackMachine/TimelinePortalData.cs:59-65 | With a positive width, later frames lie further to the right. |
| TimelinePortal.TimelinePortalData.GetFrameForTime | HFOZ_V2/Packages/com.rukhanka.animation/Rukhanka.Editor/WaybackMachine/TimelinePortalData.cs:47 | The frame returned, times the frame length, gives back the time. |
| TimelinePortal.TimelinePortalData.GetTimeForFrame | HFOZ_V2/Packages/com.rukhanka.animation/Rukhanka.Editor/WaybackMachine/TimelinePortalData.cs:51 | With a non-zero frame length, the time returned, divided by the frame length, gives back the frame. |
| TimelinePortal.TimelinePortalData.GetFrameForPosX | HFOZ_V2/Packages/com.rukhanka.animation/Rukhanka.Editor/WaybackMachine/TimelinePortalData.cs:55 | The fractional frame returned is drawn exactly at the given position, so it inverts GetPosXForFrame. |
| TimelinePortal.TimelinePortalData.GetKnobPosX | HFOZ_V2/Packages/com.rukhanka.animation/Rukhanka.Editor/WaybackMachine/TimelinePortalData.cs:69 | When the knob is inside the recorded range, SetKnobFromPos at the knob's drawn position keeps the knob where it is. |
| TimelinePortal.TimelinePortalData.GetTimeForPosX | HFOZ_V2/Packages/com.rukhanka.animation/Rukhanka.Editor/WaybackMachine/TimelinePortalData.cs:73-79 | With a non-zero frame length, the time returned is that of the fractional frame drawn exactly at the given position. |
| TimelinePortal.FrameTimeInverse | HFOZ_V2/Packages/com.rukhanka.animation/Rukhanka.Editor/WaybackMachine/TimelinePortalData.cs:47-51 | Frames and seconds convert into each other exactly. |
| TimelinePortal.PosXRoundTrip | HFOZ_V2/Packages/com.rukhanka.animation/Rukhanka.Editor/WaybackMachine/TimelinePortalData.cs:55-79 | A frame's position converts back to the frame's time and to the frame. |
| TimelinePortal.KnobAtFrame | HFOZ_V2/Packages/com.rukhanka.animation/Rukhanka.Editor/WaybackMachine/TimelinePortalData.cs:37-43 | Clicking the position of a recorded frame puts the knob on that frame. |
| TimelinePortal.KnobInRange | HFOZ_V2/Packages/com.rukhanka.animation/Rukhanka.Editor/WaybackMachine/TimelinePortalData.cs:37-43 | With a whole-frame recorded range, the knob always lands inside it. |
| TimelinePortal.TruncateBetween | HFOZ_V2/Packages/com.rukhanka.animation/Rukhanka.Editor/WaybackMachine/TimelinePortalData.cs:42 | Truncating a value between two integers stays between them. |
| TimelineShapes.Filtered | HFOZ_V2/Packages/com.rukhanka.animation/Rukhanka.Editor/WaybackMachine/TimelineContent.cs:547-604 | A filter yields at most one output per input. |
| TimelineShapes.FilteredAppend | HFOZ_V2/Packages/com.rukhanka.animation/Rukhanka.Editor/WaybackMachine/TimelineContent.cs:547-604 | Filtering distributes over concatenation, so the outputs keep their inputs' order. |
| TimelineShapes.FilteredKeeps | HFOZ_V2/Packages/com.rukhanka.animation/Rukhanka.Editor/WaybackMachine/TimelineContent.cs:547-604 | Every accepted element contributes its image. |
| TimelineShapes.FilteredOnly | HFOZ_V2/Packages/com.rukhanka.animation/Rukhanka.Editor/WaybackMachine/TimelineContent.cs:547-604 | Every output comes from an accepted element. |
| TimelineShapes.FilteredNone | HFOZ_V2/Packages/com.rukhanka.animation/Rukhanka.Editor/WaybackMachine/TimelineContent.cs:547-604 | With nothing accepted the result is empty. |
| TimelineShapes.GetAnimationEventShapeIndicesForPosBurst | HFOZ_V2/Packages/com.rukhanka.animation/Rukhanka.Editor/WaybackMachine/TimelineContent.cs:547-556 | The loop's output is EventsUnder: the (eventId, rowIndex) of each marker under the knob, in list order. |
| TimelineShapes.GetStateShapeIndicesForPosBurst | HFOZ_V2/Packages/com.rukhanka.animation/Rukhanka.Editor/WaybackMachine/TimelineContent.cs:561-572 | The loop's output is StatesUnder: each bar under the knob, with its packed colour, in list order. |
| TimelineShapes.GetTransitionShapeIndicesForPosBurst | HFOZ_V2/Packages/com.rukhanka.animation/Rukhanka.Editor/WaybackMachine/TimelineContent.cs:577-588 | The loop's output is TransitionsUnder: each transition under the knob, with both packed colours. |
| TimelineShapes.GetAnimationShapeIndicesForPosBurst | HFOZ_V2/Packages/com.rukhanka.animation/Rukhanka.Editor/WaybackMachine/TimelineContent.cs:593-604 | The loop's output is AnimationsUnder: each animation bar under the knob, in list order. |
| TimelineShapes.EventsUnderExactly | HFOZ_V2/Packages/com.rukhanka.animation/Rukhanka.Editor/WaybackMachine/TimelineContent.cs:553-554 | A marker is reported exactly when the knob is within EVENT_SHAPE_RADIUS of it, both ends included. |
| TimelineShapes.AnimationsUnderExactly | HFOZ_V2/Packages/com.rukhanka.animation/Rukhanka.Editor/WaybackMachine/TimelineContent.cs:599-601 | An animation bar is reported exactly when the knob lies between its edges, both included. |
| TimelineShapes.StatesUnderExactly | HFOZ_V2/Packages/com.rukhanka.animation/Rukhanka.Editor/WaybackMachine/TimelineContent.cs:567-569 | A state bar is reported exactly when the knob lies between its edges. The reported int unpacks to the bar's colour. |
| TimelineShapes.TransitionsUnderExactly | HFOZ_V2/Packages/com.rukhanka.animation/Rukhanka.Editor/WaybackMachine/TimelineContent.cs:583-585 | A transition is reported exactly when the knob lies between its edges. Both reported ints unpack to its colours. |
| TimelineLayout.FirstFreeRowUnique | HFOZ_V2/Packages/com.rukhanka.animation/Rukhanka.Editor/WaybackMachine/TimelineContent_Jobs.cs:112-138 | The first free row a search reports is unique. |
| TimelineLayout.RowCeiling | HFOZ_V2/Packages/com.rukhanka.animation/Rukhanka.Editor/WaybackMachine/TimelineContent_Jobs.cs:116-137 | Every taken row's probe lies below a bound, so the row search ends. |
| TimelineLayout.TakenRowBelowCeiling | HFOZ_V2/Packages/com.rukhanka.animation/Rukhanka.Editor/WaybackMachine/TimelineContent_Jobs.cs:116-137 | A taken row (intended probe) lies below the ceiling. |
| TimelineLayout.AsWrittenTakenRowBelowCeiling | HFOZ_V2/Packages/com.rukhanka.animation/Rukhanka.Editor/WaybackMachine/TimelineContent_Jobs.cs:116-137 | A taken row (as-written probe) lies below the same ceiling. |
| TimelineLayout.AsWrittenRowOffsetBound | HFOZ_V2/Packages/com.rukhanka.animation/Rukhanka.Editor/WaybackMachine/TimelineContent_Jobs.cs:122 | The as-written probe offset is at least the row's own offset. |
| TimelineLayout.NearBelow | HFOZ_V2/Packages/com.rukhanka.animation/Rukhanka.Editor/WaybackMachine/TimelineContent_Jobs.cs:127-130 | A probe near a marker lies less than a radius above it. |
| TimelineLayout.RowsChosenAppend | HFOZ_V2/Packages/com.rukhanka.animation/Rukhanka.Editor/WaybackMachine/TimelineContent_Jobs.cs:142-159 | A marker placed by the row search against the earlier ones extends a placed list. |
| TimelineLayout.RowsChosenSeparated | HFOZ_V2/Packages/com.rukhanka.animation/Rukhanka.Editor/WaybackMachine/TimelineContent_Jobs.cs:112-159 | Markers placed by the row search never lie within the radius of any of the 32 markers before them, and never above the base row. |
| TimelineLayout.LaneCeiling | HFOZ_V2/Packages/com.rukhanka.animation/Rukhanka.Editor/WaybackMachine/TimelineContent_Jobs.cs:163-183 | Every taken lane lies below a bound, so the lane search ends. |
| TimelineLayout.TakenLaneBelowCeiling | HFOZ_V2/Packages/com.rukhanka.animation/Rukhanka.Editor/WaybackMachine/TimelineContent_Jobs.cs:163-183 | A lane whose probe (either one) is taken lies below the ceiling. |
| TimelineLayout.FreeLaneIsFree | HFOZ_V2/Packages/com.rukhanka.animation/Rukhanka.Editor/WaybackMachine/TimelineContent_Jobs.cs:163-183 | With the intended probe, a lane reported free has no earlier bar in it covering x0. |
| TimelineLayout.LaneChosenExtend | HFOZ_V2/Packages/com.rukhanka.animation/Rukhanka.Editor/WaybackMachine/TimelineContent_Jobs.cs:163-183 | Bars added later do not change what the lane search saw. |
| TimelineLayout.LanesChosenAppend | HFOZ_V2/Packages/com.rukhanka.animation/Rukhanka.Editor/WaybackMachine/TimelineContent_Jobs.cs:304-331 | A bar placed by the lane search against the earlier ones extends a placed list. |
| TimelineLayout.LanesChosenDisjoint | HFOZ_V2/Packages/com.rukhanka.animation/Rukhanka.Editor/WaybackMachine/TimelineContent_Jobs.cs:304-331 | No two bars placed in the same lane overlap at the later bar's start. |
| TimelineLayout.AsWrittenRowOverlaps | HFOZ_V2/Packages/com.rukhanka.animation/Rukhanka.Editor/WaybackMachine/TimelineContent_Jobs.cs:122 | With three markers stacked on one frame, the search as written puts the fourth marker at row 2, on top of the third. |
| TimelineLayout.IntendedRowSeparates | HFOZ_V2/Packages/com.rukhanka.animation/Rukhanka.Editor/WaybackMachine/TimelineContent_Jobs.cs:112-138 | The corrected search puts the fourth marker in row 3. |
| TimelineLayout.AsWrittenLaneOverlaps | HFOZ_V2/Packages/com.rukhanka.animation/Rukhanka.Editor/WaybackMachine/TimelineContent_Jobs.cs:173 | With nine stacked bars, the probe as written picks lane 8, which the ninth bar occupies. |
| TimelineLayout.IntendedLaneSeparates | HFOZ_V2/Packages/com.rukhanka.animation/Rukhanka.Editor/WaybackMachine/TimelineContent_Jobs.cs:163-183 | The corrected probe puts the tenth bar in lane 9. |
| TimelineLayout.CutSpanShrinks | HFOZ_V2/Packages/com.rukhanka.animation/Rukhanka.Editor/WaybackMachine/TimelineContent_Jobs.cs:216-240 | Cutting transitions only shrinks a state's span, and leaves it alone when no transition of its layer overlaps it. |
| TimelineLayout.NeighbouringBarsAlternate | HFOZ_V2/Packages/com.rukhanka.animation/Rukhanka.Editor/WaybackMachine/TimelineContent_Jobs.cs:294-295 | Consecutive state bars of one layer get different colours. |
| TimelineLayout.LayerCountSkip | HFOZ_V2/Packages/com.rukhanka.animation/Rukhanka.Editor/WaybackMachine/TimelineContent_Jobs.cs:294 | Records of other layers leave a layer's counter unchanged. |
| TimelineLayout.Frac | HFOZ_V2/Packages/com.rukhanka.animation/Rukhanka.Editor/WaybackMachine/TimelineContent_Jobs.cs:205-206 | math.frac lies in [0, 1). |
| TimelineLayout.HistoryPoints | HFOZ_V2/Packages/com.rukhanka.animation/Rukhanka.Editor/WaybackMachine/TimelineContent_Jobs.cs:198-212 | ComputeHistoryLine plots one point per value. |
| TimelineLayout.HistoryPointsInBar | HFOZ_V2/Packages/com.rukhanka.animation/Rukhanka.Editor/WaybackMachine/TimelineContent_Jobs.cs:187-212 | A non-negative value plots inside its bar, between 2 below the top and the bottom. For bars at least 4 wide it is within 2 of either edge. |
| TimelineLayout.PosXMonotone | HFOZ_V2/Packages/com.rukhanka.animation/Rukhanka.Editor/WaybackMachine/TimelinePortalData.cs:59-65 | With a positive width, positions do not decrease with the frame. |
| TimelineLayout.StateBarWithinSpan | HFOZ_V2/Packages/com.rukhanka.animation/Rukhanka.Editor/WaybackMachine/TimelineContent_Jobs.cs:274-300 | A state bar never reaches past its own first and last frames, give or take one pixel, and is STATE_BAR_HEIGHT high. |
| TimelineLayout.CountsCover | HFOZ_V2/Packages/com.rukhanka.animation/Rukhanka.Editor/WaybackMachine/TimelineContent_Jobs.cs:55-108 | Counts raised over the rows cover every row of every section. |
| TimelineLayout.MarkedEvents | HFOZ_V2/Packages/com.rukhanka.animation/Rukhanka.Editor/WaybackMachine/TimelineContent_Jobs.cs:70-81 | The animator events that get markers are exactly the ones that are not StateUpdate. |
| TimelineLayout.RowCount | HFOZ_V2/Packages/com.rukhanka.animation/Rukhanka.Editor/WaybackMachine/TimelineContent_Jobs.cs:154-157 | A count raised over rows never drops below its start. |
| TimelineLayout.RowCountBounds | HFOZ_V2/Packages/com.rukhanka.animation/Rukhanka.Editor/WaybackMachine/TimelineContent_Jobs.cs:154-157 | The raised count covers every row, and is its start or one past some row. |
| TimelineLayout.BuildRectanglesJob.constructor | HFOZ_V2/Packages/com.rukhanka.animation/Rukhanka.Editor/WaybackMachine/TimelineContent.cs:206-230 | The job as ComputeShapes sets it up, with the given inputs, output lists and counters. |
| TimelineLayout.BuildRectanglesJob.IsOverlapped | HFOZ_V2/Packages/com.rukhanka.animation/Rukhanka.Editor/WaybackMachine/TimelineContent_Jobs.cs:123-133 | The inner scan reports exactly whether the probe is near one of the last 32 markers. |
| TimelineLayout.BuildRectanglesJob.GetEventRow | HFOZ_V2/Packages/com.rukhanka.animation/Rukhanka.Editor/WaybackMachine/TimelineContent_Jobs.cs:112-138 | It returns the first row from the base on whose probe, one row height per row below the first, is free (corrected offset). |
| TimelineLayout.BuildRectanglesJob.GetEventRowAsWritten | HFOZ_V2/Packages/com.rukhanka.animation/Rukhanka.Editor/WaybackMachine/TimelineContent_Jobs.cs:112-138 | It returns the first row from the base on whose cumulative as-written probe is free. |
| TimelineLayout.BuildRectanglesJob.EventShapeAt | HFOZ_V2/Packages/com.rukhanka.animation/Rukhanka.Editor/WaybackMachine/TimelineContent_Jobs.cs:142-159 | A marker carries its event id and row, and sits at its frame's x, row rows below the section's first row. |
| TimelineLayout.BuildRectanglesJob.ComputeEventShape | HFOZ_V2/Packages/com.rukhanka.animation/Rukhanka.Editor/WaybackMachine/TimelineContent_Jobs.cs:142-159 | One marker is appended and the row count is raised to cover it. Its row is the first one from the base in which it does not overlap a recent marker. The row comes from the corrected search GetEventRow, which probes row r at r rows below the first row; the search as written probes elsewhere (see Findings). |
| TimelineLayout.BuildRectanglesJob.AnimationEventStep | HFOZ_V2/Packages/com.rukhanka.animation/Rukhanka.Editor/WaybackMachine/TimelineContent_Jobs.cs:61-65 | One loop iteration adds the marker of event k and keeps the loop invariants. |
| TimelineLayout.BuildRectanglesJob.ComputeAnimationEventShapes | HFOZ_V2/Packages/com.rukhanka.animation/Rukhanka.Editor/WaybackMachine/TimelineContent_Jobs.cs:60-65 | One marker per animation event, or none when events are hidden. Each is placed by the row search from row 0, and the count covers them. |
| TimelineLayout.BuildRectanglesJob.AnimatorEventStep | HFOZ_V2/Packages/com.rukhanka.animation/Rukhanka.Editor/WaybackMachine/TimelineContent_Jobs.cs:70-81 | One loop iteration adds a marker for event k unless it is a StateUpdate. |
| TimelineLayout.BuildRectanglesJob.ComputeAnimatorEventShapes | HFOZ_V2/Packages/com.rukhanka.animation/Rukhanka.Editor/WaybackMachine/TimelineContent_Jobs.cs:68-81 | One marker per animator event that is not a StateUpdate, starting at the row count the animation events left. |
| TimelineLayout.BuildRectanglesJob.LaneCollides | HFOZ_V2/Packages/com.rukhanka.animation/Rukhanka.Editor/WaybackMachine/TimelineContent_Jobs.cs:170-180 | The inner scan reports exactly whether one of the first curIdx bars contains the point. |
| TimelineLayout.BuildRectanglesJob.GetFreeLaneIndex | HFOZ_V2/Packages/com.rukhanka.animation/Rukhanka.Editor/WaybackMachine/TimelineContent_Jobs.cs:163-183 | The first lane whose probe at the lane's middle (corrected) no earlier bar contains. |
| TimelineLayout.BuildRectanglesJob.GetFreeLaneIndexAsWritten | HFOZ_V2/Packages/com.rukhanka.animation/Rukhanka.Editor/WaybackMachine/TimelineContent_Jobs.cs:163-183 | The first lane whose probe at l + 0.5 bar heights down (as written) no earlier bar contains. |
| TimelineLayout.BuildRectanglesJob.AddPoint | HFOZ_V2/Packages/com.rukhanka.animation/Rukhanka.Editor/WaybackMachine/TimelineContent_Jobs.cs:187-194 | AddPoint appends one point and changes nothing else. |
| TimelineLayout.BuildRectanglesJob.ComputeHistoryLine | HFOZ_V2/Packages/com.rukhanka.animation/Rukhanka.Editor/WaybackMachine/TimelineContent_Jobs.cs:198-212 | One point per value is appended, in order, and the range of their indices is returned. |
| TimelineLayout.BuildRectanglesJob.CutTransitionArea | HFOZ_V2/Packages/com.rukhanka.animation/Rukhanka.Editor/WaybackMachine/TimelineContent_Jobs.cs:216-240 | The result is CutSpan: every overlapping transition of the layer cut off the state's span, in history order. |
| TimelineLayout.BuildRectanglesJob.StateShapeFor | HFOZ_V2/Packages/com.rukhanka.animation/Rukhanka.Editor/WaybackMachine/TimelineContent_Jobs.cs:274-300 | A state bar lies in its layer's lane, STATE_BAR_HEIGHT high. Its colour is STATE_BAR_COLOR1 or 2 by the parity of the earlier bars of its layer. |
| TimelineLayout.BuildRectanglesJob.ComputeControllerStateShape | HFOZ_V2/Packages/com.rukhanka.animation/Rukhanka.Editor/WaybackMachine/TimelineContent_Jobs.cs:274-300 | The state's bar is appended, its layer's counter goes up by one and no other counter changes, and the lane count covers the layer. |
| TimelineLayout.BuildRectanglesJob.StateStep | HFOZ_V2/Packages/com.rukhanka.animation/Rukhanka.Editor/WaybackMachine/TimelineContent_Jobs.cs:88-91 | One loop iteration adds the bar of record k and keeps the per-layer counters right. |
| TimelineLayout.BuildRectanglesJob.ComputeControllerStateShapes | HFOZ_V2/Packages/com.rukhanka.animation/Rukhanka.Editor/WaybackMachine/TimelineContent_Jobs.cs:86-91 | One bar per state record, or none when states are hidden, coloured by layer, with the count covering their lanes. |
| TimelineLayout.BuildRectanglesJob.TransitionShapeFor | HFOZ_V2/Packages/com.rukhanka.animation/Rukhanka.Editor/WaybackMachine/TimelineContent_Jobs.cs:244-270 | A transition bar lies in its layer's lane, coloured from the destination and source state bars. |
| TimelineLayout.BuildRectanglesJob.ComputeControllerTransitionShape | HFOZ_V2/Packages/com.rukhanka.animation/Rukhanka.Editor/WaybackMachine/TimelineContent_Jobs.cs:244-270 | The transition's bar is appended and the lane count covers its layer. |
| TimelineLayout.BuildRectanglesJob.TransitionStep | HFOZ_V2/Packages/com.rukhanka.animation/Rukhanka.Editor/WaybackMachine/TimelineContent_Jobs.cs:95-98 | One loop iteration adds the bar of record k. |
| TimelineLayout.BuildRectanglesJob.ComputeControllerTransitionShapes | HFOZ_V2/Packages/com.rukhanka.animation/Rukhanka.Editor/WaybackMachine/TimelineContent_Jobs.cs:94-98 | One bar per transition record, or none when states are hidden. |
| TimelineLayout.BuildRectanglesJob.AnimationShapeFor | HFOZ_V2/Packages/com.rukhanka.animation/Rukhanka.Editor/WaybackMachine/TimelineContent_Jobs.cs:304-331 | An animation bar is ANIMATION_BAR_HEIGHT high at its lane's row. Its two point ranges are adjacent and as long as its two histories. |
| TimelineLayout.BuildRectanglesJob.AnimationPoints | HFOZ_V2/Packages/com.rukhanka.animation/Rukhanka.Editor/WaybackMachine/TimelineContent_Jobs.cs:326-328 | An animation's curves have one point per recorded weight and time value. |
| TimelineLayout.BuildRectanglesJob.ComputeAnimationCurves | HFOZ_V2/Packages/com.rukhanka.animation/Rukhanka.Editor/WaybackMachine/TimelineContent_Jobs.cs:325-328 | The weight curve, then the time curve, are appended, and their adjacent ranges are returned. |
| TimelineLayout.BuildRectanglesJob.AppendAnimationShape | HFOZ_V2/Packages/com.rukhanka.animation/Rukhanka.Editor/WaybackMachine/TimelineContent_Jobs.cs:315-330 | The bar is appended and the lane count raised to cover it. Nothing else changes. |
| TimelineLayout.BuildRectanglesJob.AddAnimationShape | HFOZ_V2/Packages/com.rukhanka.animation/Rukhanka.Editor/WaybackMachine/TimelineContent_Jobs.cs:310-330 | Once the lane is chosen, the bar, its curves and the raised lane count. |
| TimelineLayout.BuildRectanglesJob.ComputeAnimationShape | HFOZ_V2/Packages/com.rukhanka.animation/Rukhanka.Editor/WaybackMachine/TimelineContent_Jobs.cs:304-331 | The bar is appended in the first lane free just right of its first frame, and its curves are added. The lane comes from the corrected probe GetFreeLaneIndex, which looks at the middle of each lane; the probe as written misses lanes from the ninth on (see Findings). |
| TimelineLayout.BuildRectanglesJob.CurvePoints | HFOZ_V2/Packages/com.rukhanka.animation/Rukhanka.Editor/WaybackMachine/TimelineContent_Jobs.cs:326-328 | The curves of the first records hold one point per history value. |
| TimelineLayout.BuildRectanglesJob.AnimationStep | HFOZ_V2/Packages/com.rukhanka.animation/Rukhanka.Editor/WaybackMachine/TimelineContent_Jobs.cs:104-107 | One loop iteration adds the bar of record i with its curves. |
| TimelineLayout.BuildRectanglesJob.ComputeAnimationShapes | HFOZ_V2/Packages/com.rukhanka.animation/Rukhanka.Editor/WaybackMachine/TimelineContent_Jobs.cs:103-107 | One bar per animation record, or none when animations are hidden, in lanes chosen by the search, with the points of every curve. |
| TimelineLayout.BuildRectanglesJob.EventSections | HFOZ_V2/Packages/com.rukhanka.animation/Rukhanka.Editor/WaybackMachine/TimelineContent_Jobs.cs:59-81 | The animation-event markers come first. The animator-event markers start below every animation-event row. |
| TimelineLayout.BuildRectanglesJob.StateSections | HFOZ_V2/Packages/com.rukhanka.animation/Rukhanka.Editor/WaybackMachine/TimelineContent_Jobs.cs:83-98 | The state bars, then the transition bars, are counted in one lane count. |
| TimelineLayout.BuildRectanglesJob.LowerSections | HFOZ_V2/Packages/com.rukhanka.animation/Rukhanka.Editor/WaybackMachine/TimelineContent_Jobs.cs:84-107 | The state section starts below the event rows and its header. The animation section starts below the state lanes and its header. |
| TimelineLayout.BuildRectanglesJob.Execute | HFOZ_V2/Packages/com.rukhanka.animation/Rukhanka.Editor/WaybackMachine/TimelineContent_Jobs.cs:55-108 | Each section is laid out by the corrected row and lane searches, and nothing is laid out for a hidden section. The counts cover every row. |
| TimelineLayout.BuildRectanglesJob.LaidOutApart | HFOZ_V2/Packages/com.rukhanka.animation/Rukhanka.Editor/WaybackMachine/TimelineContent_Jobs.cs:55-108 | With the corrected searches, a finished layout keeps markers apart. The animator-event rows lie below every animation-event row, and bars of one lane do not collide. |
| TimelineLayout.BuildRectanglesJob.StatesAtAppend | HFOZ_V2/Packages/com.rukhanka.animation/Rukhanka.Editor/WaybackMachine/TimelineContent_Jobs.cs:88-91 | Appending the next state's bar keeps the list in history order. |
| TimelineLayout.BuildRectanglesJob.TransitionsAtAppend | HFOZ_V2/Packages/com.rukhanka.animation/Rukhanka.Editor/WaybackMachine/TimelineContent_Jobs.cs:95-98 | Appending the next transition's bar keeps the list in history order. |
| TimelineLayout.BuildRectanglesJob.AnimationsAtAppend | HFOZ_V2/Packages/com.rukhanka.animation/Rukhanka.Editor/WaybackMachine/TimelineContent_Jobs.cs:104-107 | Appending the next animation's bar keeps the list in history order. |
| TimelineLayout.BuildRectanglesJob.AnimationEventsAtAppend | HFOZ_V2/Packages/com.rukhanka.animation/Rukhanka.Editor/WaybackMachine/TimelineContent_Jobs.cs:61-65 | Appending the next event's marker keeps the list in history order. |
| TimelineLayout.BuildRectanglesJob.AnimatorEventsAtAppend | HFOZ_V2/Packages/com.rukhanka.animation/Rukhanka.Editor/WaybackMachine/TimelineContent_Jobs.cs:70-81 | Appending the next marked event's marker keeps the list in order. |
| TimelineView.TimelineContent.constructor | HFOZ_V2/Packages/com.rukhanka.animation/Rukhanka.Editor/WaybackMachine/TimelineContent.cs:89-101 | A view of the portal with no recording, no shapes and zero counts. |
| TimelineView.TimelineContent.ComputeShapes | HFOZ_V2/Packages/com.rukhanka.animation/Rukhanka.Editor/WaybackMachine/TimelineContent.cs:193-231 | Every shape list is cleared. Without a recording holding animations nothing else happens. Otherwise a job over the recording, the portal's frame mapping, the rectangle, the header heights and the settings leaves its shapes and counts in the view. The job is the one with the corrected row and lane searches. |
| TimelineView.TimelineContent.ClearShapes | HFOZ_V2/Packages/com.rukhanka.animation/Rukhanka.Editor/WaybackMachine/TimelineContent.cs:195-201 | Every shape list and the event lines are emptied. |
| TimelineView.TimelineContent.RunJob | HFOZ_V2/Packages/com.rukhanka.animation/Rukhanka.Editor/WaybackMachine/TimelineContent.cs:206-230 | The cleared lists are filled by a job over this view's inputs. |
| TimelineView.TimelineContent.Lay | HFOZ_V2/Packages/com.rukhanka.animation/Rukhanka.Editor/WaybackMachine/TimelineContent.cs:206-228 | The job set up from the current counts is run, and its contents are returned. |
| TimelineView.TimelineContent.Adopt | HFOZ_V2/Packages/com.rukhanka.animation/Rukhanka.Editor/WaybackMachine/TimelineContent.cs:195-230 | The view takes the layout's lists and counts, with no event lines. |
| TimelineView.TimelineContent.GetAnimationShapeIndicesForPos | HFOZ_V2/Packages/com.rukhanka.animation/Rukhanka.Editor/WaybackMachine/TimelineContent.cs:608-611 | It returns the animation bars under the knob. |
| TimelineView.TimelineContent.GetTransitionShapeIndicesForPos | HFOZ_V2/Packages/com.rukhanka.animation/Rukhanka.Editor/WaybackMachine/TimelineContent.cs:615-618 | It returns the transition bars under the knob. |
| TimelineView.TimelineContent.GetStateShapeIndicesForPos | HFOZ_V2/Packages/com.rukhanka.animation/Rukhanka.Editor/WaybackMachine/TimelineContent.cs:622-625 | It returns the state bars under the knob. |
| TimelineView.TimelineContent.GetAnimationEventShapeIndicesForPos | HFOZ_V2/Packages/com.rukhanka.animation/Rukhanka.Editor/WaybackMachine/TimelineContent.cs:629-632 | It returns the animation-event markers under the knob. |
| TimelineView.TimelineContent.GetAnimatorEventShapeIndicesForPos | HFOZ_V2/Packages/com.rukhanka.animation/Rukhanka.Editor/WaybackMachine/TimelineContent.cs:636-639 | It returns the animator-event markers under the knob, through the animation-event filter. |
| ScriptingDefines.ContainsAt | HFOZ_V2/Packages/com.projectdawn.navigation/ProjectDawn.Navigation.Editor/ScriptingDefinePopupField.cs:35 | An occurrence at index k makes t a substring. |
| ScriptingDefines.Occurrence | HFOZ_V2/Packages/com.projectdawn.navigation/ProjectDawn.Navigation.Editor/ScriptingDefinePopupField.cs:35 | A substring occurs at some index. |
| ScriptingDefines.ContainsPrefixOf | HFOZ_V2/Packages/com.projectdawn.navigation/ProjectDawn.Navigation.Editor/ScriptingDefinePopupField.cs:54-56 | A string holding t + u holds t. |
| ScriptingDefines.Replace | HFOZ_V2/Packages/com.projectdawn.navigation/ProjectDawn.Navigation.Editor/ScriptingDefinePopupField.cs:56 | String.Replace leaves a string without p alone. With an empty replacement, any occurrence shrinks the result by at least \|p\|. |
| ScriptingDefines.ReplaceTail | HFOZ_V2/Packages/com.projectdawn.navigation/ProjectDawn.Navigation.Editor/ScriptingDefinePopupField.cs:56 | When p first occurs as the tail of d + p, replacing p turns d + p into d + r. |
| ScriptingDefines.FirstFromIsFirst | HFOZ_V2/Packages/com.projectdawn.navigation/ProjectDawn.Navigation.Editor/ScriptingDefinePopupField.cs:33-38 | The scan stops at the first symbol from i on that the define string contains, or gives 0 when there is none. |
| ScriptingDefines.FirstDefinedIsFirst | HFOZ_V2/Packages/com.projectdawn.navigation/ProjectDawn.Navigation.Editor/ScriptingDefinePopupField.cs:30-39 | The popup's starting index names the first contained symbol, and is 0 when none is contained. |
| ScriptingDefines.AddedDefines | HFOZ_V2/Packages/com.projectdawn.navigation/ProjectDawn.Navigation.Editor/ScriptingDefinePopupField.cs:41-49 | After adding, the symbol occurs, and adding it again changes nothing. |
| ScriptingDefines.RemovedFails | HFOZ_V2/Packages/com.projectdawn.navigation/ProjectDawn.Navigation.Editor/ScriptingDefinePopupField.cs:51-59 | Removal fails (String.Replace throws) exactly for the empty symbol, and does nothing when the symbol does not occur. |
| ScriptingDefines.RemovedShrinks | HFOZ_V2/Packages/com.projectdawn.navigation/ProjectDawn.Navigation.Editor/ScriptingDefinePopupField.cs:51-59 | Removing a symbol that occurs takes out at least its length. |
| ScriptingDefines.TailOnly | HFOZ_V2/Packages/com.projectdawn.navigation/ProjectDawn.Navigation.Editor/ScriptingDefinePopupField.cs:46-56 | In d + ";" + s, with s absent from d and free of ';', the first ";" + s is the appended one. |
| ScriptingDefines.RemoveAfterAdd | HFOZ_V2/Packages/com.projectdawn.navigation/ProjectDawn.Navigation.Editor/ScriptingDefinePopupField.cs:41-59 | Adding a new ';'-free symbol and removing it gives back the define string. |
| ScriptingDefines.RemoveEach | HFOZ_V2/Packages/com.projectdawn.navigation/ProjectDawn.Navigation.Editor/ScriptingDefinePopupField.cs:24-25 | The removal loop succeeds exactly when no symbol is empty, and never un-writes. |
| ScriptingDefines.SwitchedDefinesChosen | HFOZ_V2/Packages/com.projectdawn.navigation/ProjectDawn.Navigation.Editor/ScriptingDefinePopupField.cs:9-28 | A cancelled dialog changes nothing. A confirmed switch succeeds exactly when no symbol is empty, and then leaves the chosen symbol defined. |
| ScriptingDefines.DefineSettings.constructor | HFOZ_V2/Packages/com.projectdawn.navigation/ProjectDawn.Navigation.Editor/ScriptingDefinePopupField.cs:61-68 | The define string as the player settings hold it, with no writes yet. |
| ScriptingDefines.DefineSettings.SetDefines | HFOZ_V2/Packages/com.projectdawn.navigation/ProjectDawn.Navigation.Editor/ScriptingDefinePopupField.cs:70-77 | Writing replaces the define string and counts one write. |
| ScriptingDefines.DefineSettings.HasScriptingDefineSymbol | HFOZ_V2/Packages/com.projectdawn.navigation/ProjectDawn.Navigation.Editor/ScriptingDefinePopupField.cs:30-39 | It returns FirstDefined: the index of the first symbol contained, else 0. |
| ScriptingDefines.DefineSettings.AddScriptingDefineSymbol | HFOZ_V2/Packages/com.projectdawn.navigation/ProjectDawn.Navigation.Editor/ScriptingDefinePopupField.cs:41-49 | The define string becomes Added, with a write only when the symbol was missing. |
| ScriptingDefines.DefineSettings.RemoveScriptingDefineSymbol | HFOZ_V2/Packages/com.projectdawn.navigation/ProjectDawn.Navigation.Editor/ScriptingDefinePopupField.cs:51-59 | With a non-empty symbol, the define string becomes Removed, with a write only when the symbol occurred. With an empty one it fails and changes nothing. |
| ScriptingDefines.DefineSettings.Draw | HFOZ_V2/Packages/com.projectdawn.navigation/ProjectDawn.Navigation.Editor/ScriptingDefinePopupField.cs:9-28 | The define string, the write count and success are those of Switched, given the popup's answer and the dialog's. |
| TimelineLayout.PointInBar | HFOZ_V2/Packages/com.rukhanka.animation/Rukhanka.Editor/WaybackMachine/TimelineContent_Jobs.cs:187-206 | One recorded value plotted against a bar: a non-negative value lands between 2 below the bar's top and its bottom, and for bars at least 4 wide its x is within the bar less a 2-unit margin on either side. |
## Left out

**Float arithmetic, hashing and names**
- Floating-point rounding, NaN and infinity are not modelled: volumes, positions, weights and times are exact reals. No float conversion of `Color` is modelled, only `Color32` packing.
- `UnsafeBHVTree.GetBalancedTreeFactor` is left out because it is a `Mathf.Log` float diagnostic. So is `AABB.Overlap` against a line segment, with `QueryLine` that uses it: its slab test divides by direction components that may be zero.
- WaybackData.WaybackMachineData.GetDataSize: the 32-bit wrap of each `Length * SizeOf<T>()` product is not modelled. Each product is an `int` multiplication, which wraps once a list passes 2^31 bytes, before it is added to the `long` total. The model sums unbounded integers, so it gives the intended size. The value is only shown in the window.
- xxHash3 in `ComputeHash` becomes the tuple of its six inputs, taken as collision-free, and blob hashes become optional values.
- The `GetName` of animation histories is left out: it formats a `Hash128`, whose string form is not part of this model. The debug-info variants of every `GetName` and of `GetStringParam` are also left out.

**Engine plumbing and foreign code**
- The grid backend of the spatial index, ECS scheduling, command buffers, allocators and `Create`/`Destroy`/`Dispose` are left out. The tree is built with the `AGENTS_NAVIGATION_AABB_TREE` branch only.
- `SystemAPI` buffer and singleton lookups become a `FrameInput` of optional lists passed to `OnUpdate`. `UnsafeHeap`, `UnsafeStack`, `NativeList` and `FixedList64Bytes` become sequences.
- `FindBestHandle` pops any entry of least cost, because the heap's order among equal keys is not visible. Its result is proved no costlier than any node whose insert cost is below `float.MaxValue`.
- `EditorGUI`, `EditorUtility.DisplayDialog` and `PlayerSettings` become the parameters of `Draw` and the `defines` field. An exception thrown by `String.Replace` for an empty symbol becomes `ok == false`.

**Parts of the timeline and tree not modelled**
- TimelineLayout.BuildRectanglesJob.ComputeEventShape, TimelineLayout.BuildRectanglesJob.ComputeAnimationShape, TimelineLayout.BuildRectanglesJob.Execute, TimelineLayout.BuildRectanglesJob.LaidOutApart, TimelineView.TimelineContent.ComputeShapes: the layout uses the corrected searches `GetEventRow` and `GetFreeLaneIndex`, not the row search at `TimelineContent_Jobs.cs:119-137` and the lane probe at `TimelineContent_Jobs.cs:173` as written. The as-written searches are modelled beside them and shown wrong under Findings. The source's layout can therefore stack markers and bars that the model keeps apart.
- BHVTree.Tree.IsEmpty: the `!IsCreated` half is left out, because allocation is not modelled and a tree here always exists.
- The `Draw*` methods of `TimelineContent`, which read the `visible` flags the layout computes, are not modelled. `WaybackMachineWindow.cs` is not part of this model either. It zeroes the bar counts before a redraw, so `ComputeShapes` is modelled from whatever counts the view holds.
- `ComputeEventLine` is left out: its call is commented out in the job, so the model only states that `animatorEventLines` stays empty. The unused `frameSpan` parameter of `ComputeHistoryLine` is dropped.
- The grandparent-is-leaf guard of `Rotate` cannot fire in a valid tree, so it is not a branch of the model. A lemma shows why.

**Requirements stronger than the source's checks**
- TimelinePortal.TimelinePortalData.TickStep, TimelinePortal.TimelinePortalData.ComputeTicks: require a positive frame width. For a width that is not positive the source still computes a step of 1. The caller in `WaybackMachineWindow.cs` keeps the visible span at 4 frames or more and passes a rectangle width, so the requirement fails only at width 0. There the source would divide by zero and get infinity, which the model does not admit.
- `RuntimeAnimatorData` takes the `FixedList64Bytes` capacity as a constructor parameter, because its byte layout is not visible.
- NearestEntries.FixedEntries.constructor: requires `length < Capacity`, which the source leaves as a TODO. A longer length would write past the fixed buffers.
- WaybackHistory.NewStateHistory: requires the state id to index the layer's states, as the source's blob lookup does without a check. The recorder's methods carry the same requirements (`ValidLayer`, `ValidInput`).
- TimelinePortal.TimelinePortalData.SetKnobFromPos: requires a non-empty visible span and a non-zero content width. The float division would otherwise give infinity or NaN.
- TimelineLayout.BuildRectanglesJob.Execute: requires the recording to be indexable (`Indexable`): the states' layers index the 255 per-layer counters, and the transitions' state indices name existing state bars. The source would index out of range otherwise.
- TimelineView.TimelineContent.ComputeShapes: when there is a recording with an animation record, requires the same (`Indexable`), plus section flags of 0 or 1 (`FlagsBinary`), which the settings always hold, and a non-empty visible span (`HasSpan`), which the window keeps at 4 frames or more. Without such a recording it requires nothing, as the source returns before it reads the portal.
- BHVTree.Tree.RemoveAt: requires a live leaf handle, which the source checks only in debug builds (see Findings).

## Findings

| source | as written | input that shows it | evidently intended | confidence | as-written member | corrected member |
|---|---|---|---|---|---|---|
| HFOZ_V2/Packages/com.projectdawn.navigation/ProjectDawn.Navigation/SpatialPartitioning/AABBTree/UnsafeBHVTree.cs:597-605 | `CheckHandle` rejects `handle > m_Nodes.Length`, so a handle equal to the node count passes. | A tree with n nodes and handle n: the check accepts it, and the next read `m_Nodes[handle]` is out of range. | `handle >= m_Nodes.Length`, accepting exactly 0 <= handle < n | not executed | BHVTree.CheckHandleAdmitsCount | BHVTree.HandleInRangeExact |
| HFOZ_V2/Packages/com.rukhanka.animation/Rukhanka.Editor/WaybackMachine/TimelineContent_Jobs.cs:119-137 | `eventPos.y += ++rv * EVENT_ROW_HEIGHT` adds to the probe already moved, so row r is probed at the sum of the rows tried, not at r rows down. | Three markers on one frame in rows 0, 1 and 2, with the first row at y = 13. The probe for row 2 is at y = 91, which is free, so the fourth marker lands in row 2, on the third. | Probe row r at r rows below the first row, where `ComputeEventShape` puts the marker. The fourth marker then goes to row 3. | not executed | TimelineLayout.AsWrittenRowOverlaps (with TimelineLayout.BuildRectanglesJob.GetEventRowAsWritten) | TimelineLayout.IntendedRowSeparates (with TimelineLayout.BuildRectanglesJob.GetEventRow) |
| HFOZ_V2/Packages/com.rukhanka.animation/Rukhanka.Editor/WaybackMachine/TimelineContent_Jobs.cs:173 | `GetFreeLaneIndex` probes lane l at (l + 0.5) * ANIMATION_BAR_HEIGHT (60), while `ComputeAnimationShape` places lanes every ANIMATION_ROW_HEIGHT (64). | Nine bars starting at x = 0 in lanes 0 to 8. The probe for lane 8 is at y = 510, in the gap between lane 7 (448 to 508) and lane 8 (512 to 572), so a tenth bar at x = 0 is put in lane 8, on the ninth. | Probe the middle of lane l at l * ANIMATION_ROW_HEIGHT + ANIMATION_BAR_HEIGHT / 2. The tenth bar then goes to lane 9. | not executed | TimelineLayout.AsWrittenLaneOverlaps (with TimelineLayout.BuildRectanglesJob.GetFreeLaneIndexAsWritten) | TimelineLayout.IntendedLaneSeparates (with TimelineLayout.BuildRectanglesJob.GetFreeLaneIndex) |

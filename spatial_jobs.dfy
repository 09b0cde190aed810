// The jobs that keep the agent spatial index in step with the agents:
// AddAABBTreeNodesJob, UpdateAABBTreeNodesJob and RemoveAABBTreeNodesJob.
// Each agent owns a slot index into five parallel lists; the tree stores one
// padded box per agent with the slot index as its value, and a stack of free
// slot indices recycles the slots of removed agents.
module SpatialJobs {
  import opened Volumes
  import opened BHVShape
  import opened BHVTree
  import opened Wrappers
  import opened SpatialQuery

  /** The per-agent components the jobs copy; only the fields they read are modelled. */
  datatype AgentShape = AgentShape(radius: real, height: real)
  datatype Transform = Transform(position: Vec3)
  /** AgentBody is copied and never read here; it stands for the whole component. */
  datatype AgentBody = AgentBody(data: int)

  /** The Spatial cleanup component: the agent's tree handle and the position it was inserted at. */
  datatype Spatial = Spatial(handle: int, position: Vec3)

  /** The box the add and update jobs insert: the agent's upright cylinder, enlarged by `padding` on every side. */
  function AgentBox(position: Vec3, shape: AgentShape, padding: Vec3): (box: AABB)
    ensures var c := CylinderBox(position, shape.radius, shape.height);
      box == AABB(Sub3(c.min, padding), Add3(c.max, padding))
  {
    AABB(Sub3(Sub3(position, Vec3(shape.radius, 0.0, shape.radius)), padding),
         Add3(Add3(position, Vec3(shape.radius, shape.height, shape.radius)), padding))
  }

  /** all(abs(position - previous) < padding): the agent has stayed within its padding on every axis. */
  predicate WithinPadding(position: Vec3, previous: Vec3, padding: Vec3)
  {
    var delta := Sub3(position, previous);
    Abs(delta.x) < padding.x && Abs(delta.y) < padding.y && Abs(delta.z) < padding.z
  }

  /**
   * The slot bookkeeping: free slots are distinct and below `size`; every
   * element's slot is below `size`, not free, and owned by that element alone.
   */
  ghost predicate Slots(n: seq<Node>, elements: set<int>, size: int, free: seq<int>)
  {
    NoDuplicates(free) &&
    (forall i :: 0 <= i < |free| ==> 0 <= free[i] < size) &&
    (forall k :: k in elements ==> 0 <= k < |n| && 0 <= n[k].value < size && n[k].value !in free) &&
    (forall k, j :: k in elements && j in elements && k != j ==> n[k].value != n[j].value)
  }

  /** A slot below `size` that is neither free nor owned by an element. */
  ghost predicate Unused(n: seq<Node>, elements: set<int>, size: int, free: seq<int>, index: int)
  {
    0 <= index < size && index !in free && forall k :: k in elements && 0 <= k < |n| ==> n[k].value != index
  }

  /** Popping the most recently freed slot leaves the rest consistent and yields an unused slot. */
  lemma SlotsPop(n: seq<Node>, elements: set<int>, size: int, free: seq<int>)
    requires Slots(n, elements, size, free) && |free| > 0
    ensures Slots(n, elements, size, free[..|free| - 1])
    ensures Unused(n, elements, size, free[..|free| - 1], free[|free| - 1])
  {
    var rest := free[..|free| - 1];
    assert forall i :: 0 <= i < |rest| ==> rest[i] == free[i];
    forall k | k in elements && 0 <= k < |n| ensures n[k].value != free[|free| - 1] {
      assert free[|free| - 1] in free;
    }
  }

  /** Growing the lists by one yields the new last slot unused. */
  lemma SlotsGrow(n: seq<Node>, elements: set<int>, size: nat, free: seq<int>)
    requires Slots(n, elements, size, free)
    ensures Slots(n, elements, size + 1, free) && Unused(n, elements, size + 1, free, size)
  {
    forall x | x in free ensures x < size {
      var i :| 0 <= i < |free| && free[i] == x;
    }
  }

  /** Storing a new element that owns an unused slot keeps the bookkeeping. */
  lemma SlotsInsert(n: seq<Node>, elements: set<int>, size: int, free: seq<int>, n': seq<Node>, h: int)
    requires Slots(n, elements, size, free) && 0 <= h < |n'| && Unused(n, elements, size, free, n'[h].value)
    requires forall k :: k in elements ==> 0 <= k < |n| <= |n'| && n'[k].value == n[k].value
    ensures Slots(n', elements + {h}, size, free)
  {
  }

  /** Removing an element frees its slot from ownership; the others keep theirs. */
  lemma SlotsRemove(n: seq<Node>, elements: set<int>, size: int, free: seq<int>, n': seq<Node>, h: int)
    requires Slots(n, elements, size, free) && h in elements
    requires |n'| == |n| && forall k :: 0 <= k < |n| ==> n'[k].value == n[k].value
    ensures Slots(n', elements - {h}, size, free)
    ensures Unused(n', elements - {h}, size, free, n[h].value)
  {
  }

  /** A slot nobody owns can be pushed onto the free slots. */
  lemma SlotsRelease(n: seq<Node>, elements: set<int>, size: int, free: seq<int>, index: int)
    requires Slots(n, elements, size, free) && Unused(n, elements, size, free, index)
    ensures Slots(n, elements, size, free + [index])
  {
    forall i, j | 0 <= i < j < |free + [index]| ensures (free + [index])[i] != (free + [index])[j] {
      if j == |free| {
        assert (free + [index])[i] == free[i];
      }
    }
  }

  class SpatialIndex {
    const tree: Tree
    const padding: Vec3
    var entities: seq<int>
    var agents: seq<Agent>
    var bodies: seq<AgentBody>
    var shapes: seq<AgentShape>
    var transforms: seq<Transform>
    /** FreeIndices: slot indices of removed agents, most recent last. */
    var freeIndices: seq<int>

    /**
     * The five lists have one length; free slots are distinct and in range;
     * every stored element's slot is in range, not free, and owned by that
     * element alone.
     */
    ghost predicate Valid()
      reads this, tree
    {
      tree.Valid() &&
      |agents| == |entities| && |bodies| == |entities| && |shapes| == |entities| && |transforms| == |entities| &&
      Slots(tree.nodes, tree.Elements(), |entities|, freeIndices)
    }

    /** The lists and the tree of a fresh system: all empty, with the given padding. */
    constructor (padding: Vec3)
      ensures Valid() && fresh(tree) && this.padding == padding && tree.shape.None?
      ensures entities == [] && freeIndices == []
    {
      this.padding := padding;
      tree := new Tree();
      entities, agents, bodies, shapes, transforms := [], [], [], [], [];
      freeIndices := [];
    }

    /** An index in this state answers every query: each element's slot names an agent. */
    lemma QueriesAllowed()
      requires Valid()
      ensures Indexed(tree, agents)
    {
    }

    /**
     * AddAABBTreeNodesJob.Execute: takes the most recently freed slot, or
     * grows all five lists by one and takes the new last slot; inserts the
     * agent's padded box with the slot as its value; and returns the Spatial
     * component to attach. The lists are not written at the slot.
     */
    method AddNode(entity: int, agent: Agent, body: AgentBody, shape: AgentShape, transform: Transform)
      returns (spatial: Spatial, index: int)
      requires Valid()
      modifies this, tree
      ensures Valid()
      ensures old(|freeIndices|) > 0 ==>
        index == old(freeIndices[|freeIndices| - 1]) && freeIndices == old(freeIndices[..|freeIndices| - 1]) &&
        entities == old(entities) && agents == old(agents) && bodies == old(bodies) &&
        shapes == old(shapes) && transforms == old(transforms)
      ensures old(|freeIndices|) == 0 ==>
        index == old(|entities|) && |entities| == index + 1 && freeIndices == [] &&
        entities[..index] == old(entities) && agents[..index] == old(agents) && bodies[..index] == old(bodies) &&
        shapes[..index] == old(shapes) && transforms[..index] == old(transforms)
      ensures tree.Elements() == old(tree.Elements()) + {spatial.handle} && spatial.handle !in old(tree.Elements())
      ensures 0 <= spatial.handle < |tree.nodes| && tree.nodes[spatial.handle].value == index &&
        tree.nodes[spatial.handle].volume == AgentBox(transform.position, shape, padding)
      ensures spatial.position == transform.position
    {
      ghost var n, elements := tree.nodes, tree.Elements();
      if |freeIndices| > 0 {
        index := PopSlot(n, elements);
      } else {
        index := GrowSlot(n, elements);
      }
      var handle := tree.Add(AgentBox(transform.position, shape, padding), index, true);
      SlotsInsert(n, elements, |entities|, freeIndices, tree.nodes, handle);
      spatial := Spatial(handle, transform.position);
    }

    /** FreeIndices.TryPop: AddNode reuses the most recently freed slot. */
    method PopSlot(ghost n: seq<Node>, ghost elements: set<int>) returns (index: int)
      requires Slots(n, elements, |entities|, freeIndices) && |freeIndices| > 0
      modifies this
      ensures Slots(n, elements, |entities|, freeIndices) && Unused(n, elements, |entities|, freeIndices, index)
      ensures index == old(freeIndices[|freeIndices| - 1]) && freeIndices == old(freeIndices[..|freeIndices| - 1])
      ensures entities == old(entities) && agents == old(agents) && bodies == old(bodies) &&
        shapes == old(shapes) && transforms == old(transforms)
    {
      SlotsPop(n, elements, |entities|, freeIndices);
      index := freeIndices[|freeIndices| - 1];
      freeIndices := freeIndices[..|freeIndices| - 1];
    }

    /** With no free slot, AddNode grows all five lists by one and takes the new last slot. */
    method GrowSlot(ghost n: seq<Node>, ghost elements: set<int>) returns (index: int)
      requires Slots(n, elements, |entities|, freeIndices) && |agents| == |entities| && |bodies| == |entities| && |shapes| == |entities| && |transforms| == |entities|
      modifies this
      ensures Slots(n, elements, |entities|, freeIndices) && Unused(n, elements, |entities|, freeIndices, index)
      ensures |agents| == |entities| && |bodies| == |entities| && |shapes| == |entities| && |transforms| == |entities|
      ensures index == old(|entities|) && |entities| == index + 1 && freeIndices == old(freeIndices)
      ensures entities[..index] == old(entities) && agents[..index] == old(agents) && bodies[..index] == old(bodies) &&
        shapes[..index] == old(shapes) && transforms[..index] == old(transforms)
    {
      SlotsGrow(n, elements, |entities|, freeIndices);
      index := |entities|;
      entities, agents, bodies, shapes, transforms :=
        entities + [0], agents + [Agent(0)], bodies + [AgentBody(0)],
        shapes + [AgentShape(0.0, 0.0)], transforms + [Transform(Vec3(0.0, 0.0, 0.0))];
    }

    /**
     * UpdateAABBTreeNodesJob.Execute: writes the agent's components into its
     * slot in all five lists; then, unless the agent stayed within its padding
     * of the position it was inserted at, removes its leaf and inserts the new
     * padded box with the same slot, returning the new handle and position.
     */
    method UpdateNode(entity: int, agent: Agent, body: AgentBody, shape: AgentShape, transform: Transform, spatial: Spatial)
      returns (spatial': Spatial)
      requires Valid() && spatial.handle in tree.Elements()
      modifies this, tree
      ensures Valid() && freeIndices == old(freeIndices)
      ensures var index := old(tree.nodes[spatial.handle].value);
        entities == old(entities)[index := entity] && agents == old(agents)[index := agent] &&
        bodies == old(bodies)[index := body] && shapes == old(shapes)[index := shape] &&
        transforms == old(transforms)[index := transform]
      ensures WithinPadding(transform.position, spatial.position, padding) ==>
        spatial' == spatial && tree.nodes == old(tree.nodes) && tree.shape == old(tree.shape) && tree.root == old(tree.root)
      ensures !WithinPadding(transform.position, spatial.position, padding) ==>
        tree.Elements() == old(tree.Elements()) - {spatial.handle} + {spatial'.handle} &&
        spatial'.handle !in old(tree.Elements()) - {spatial.handle} &&
        0 <= spatial'.handle < |tree.nodes| && tree.nodes[spatial'.handle].value == old(tree.nodes[spatial.handle].value) &&
        tree.nodes[spatial'.handle].volume == AgentBox(transform.position, shape, padding) &&
        spatial'.position == transform.position
    {
      HandleInRangeExact(|tree.nodes|, spatial.handle);
      var node := tree.GetNode(spatial.handle);
      var index := node.value;
      WriteSlot(index, entity, agent, body, shape, transform);
      if WithinPadding(transform.position, spatial.position, padding) {
        return spatial;
      }
      ghost var n, elements := tree.nodes, tree.Elements();
      tree.RemoveAt(spatial.handle);
      SlotsRemove(n, elements, |entities|, freeIndices, tree.nodes, spatial.handle);
      ghost var n1, elements1 := tree.nodes, tree.Elements();
      var handle := tree.Add(AgentBox(transform.position, shape, padding), index, true);
      SlotsInsert(n1, elements1, |entities|, freeIndices, tree.nodes, handle);
      spatial' := Spatial(handle, transform.position);
    }

    /** The writes of UpdateNode into the agent's slot of all five lists. */
    method WriteSlot(index: int, entity: int, agent: Agent, body: AgentBody, shape: AgentShape, transform: Transform)
      requires Valid() && 0 <= index < |entities|
      modifies this
      ensures Valid() && freeIndices == old(freeIndices)
      ensures entities == old(entities)[index := entity] && agents == old(agents)[index := agent] &&
        bodies == old(bodies)[index := body] && shapes == old(shapes)[index := shape] &&
        transforms == old(transforms)[index := transform]
    {
      entities := entities[index := entity];
      agents := agents[index := agent];
      bodies := bodies[index := body];
      shapes := shapes[index := shape];
      transforms := transforms[index := transform];
    }

    /**
     * RemoveAABBTreeNodesJob.Execute: nothing for a Null handle; otherwise
     * removes the agent's leaf, pushes its slot onto the free slots and
     * returns the component with a Null handle.
     */
    method RemoveNode(spatial: Spatial) returns (spatial': Spatial)
      requires Valid() && (spatial.handle == Null || spatial.handle in tree.Elements())
      modifies this, tree
      ensures Valid()
      ensures entities == old(entities) && agents == old(agents) && bodies == old(bodies) &&
        shapes == old(shapes) && transforms == old(transforms)
      ensures spatial.handle == Null ==>
        spatial' == spatial && freeIndices == old(freeIndices) &&
        tree.nodes == old(tree.nodes) && tree.shape == old(tree.shape) && tree.root == old(tree.root)
      ensures spatial.handle != Null ==>
        spatial' == spatial.(handle := Null) &&
        freeIndices == old(freeIndices) + [old(tree.nodes[spatial.handle].value)] &&
        tree.Elements() == old(tree.Elements()) - {spatial.handle}
    {
      if spatial.handle == Null {
        return spatial;
      }
      HandleInRangeExact(|tree.nodes|, spatial.handle);
      var node := tree.GetNode(spatial.handle);
      var index := node.value;
      ghost var n, elements := tree.nodes, tree.Elements();
      tree.RemoveAt(spatial.handle);
      SlotsRemove(n, elements, |entities|, freeIndices, tree.nodes, spatial.handle);
      SlotsRelease(tree.nodes, tree.Elements(), |entities|, freeIndices, index);
      PushFree(index);
      spatial' := spatial.(handle := Null);
    }

    /** FreeIndices.Push: the removed agent's slot becomes the most recently freed one. */
    method PushFree(index: int)
      requires tree.Valid() && |agents| == |entities| && |bodies| == |entities| && |shapes| == |entities| && |transforms| == |entities|
      requires Slots(tree.nodes, tree.Elements(), |entities|, freeIndices + [index])
      modifies this
      ensures Valid() && freeIndices == old(freeIndices) + [index]
      ensures entities == old(entities) && agents == old(agents) && bodies == old(bodies) &&
        shapes == old(shapes) && transforms == old(transforms)
    {
      freeIndices := freeIndices + [index];
    }
  }
}

// RuntimeAnimatorData: the runtime state of one animator controller layer.
// It holds the source and destination states, the active transition, a
// motion id counter and a bounded list of snapshots of the states that are
// being blended out.
module AnimatorRuntime {

  /** The number of values of a C# uint. */
  const U32: int := 0x1_0000_0000

  type u32 = x: int | 0 <= x < 0x1_0000_0000

  /** The step GetNextMotionID adds to the counter. */
  const MotionIdStep: int := 0xff

  datatype StateSnapshot = StateSnapshot(id: int, motionId: u32, weight: real, normalizedTime: real)

  datatype StateData = StateData(id: int, motionId: u32, normalizedDuration: real)

  datatype TransitionData = TransitionData(id: int, normalizedDuration: real, length: real)

  /** The counter after one GetNextMotionID: 0xff further on, wrapping at 2^32. */
  function NextMotionId(counter: u32): (r: u32)
    ensures (r - counter - MotionIdStep) % U32 == 0
    ensures counter + MotionIdStep < U32 ==> r == counter + MotionIdStep
  {
    (counter + MotionIdStep) % U32
  }

  /** The counter after n calls of GetNextMotionID starting from `counter`. */
  function MotionIdAfter(counter: u32, n: nat): u32
  {
    if n == 0 then counter else NextMotionId(MotionIdAfter(counter, n - 1))
  }

  lemma ModStep(a: int)
    requires a >= 0
    ensures (a % U32 + MotionIdStep) % U32 == (a + MotionIdStep) % U32
  {
    var q := a / U32;
    assert a == q * U32 + a % U32;
    assert a + MotionIdStep == q * U32 + (a % U32 + MotionIdStep);
  }

  /** From a zero counter, the n-th motion id is n * 0xff modulo 2^32. */
  lemma {:induction false} MotionIdClosedForm(n: nat)
    ensures MotionIdAfter(0, n) == (n * MotionIdStep) % U32
  {
    if n > 0 {
      MotionIdClosedForm(n - 1);
      ModStep((n - 1) * MotionIdStep);
    }
  }

  /** MakeDefaultTransition: no transition (id -1), zero length and duration. */
  function DefaultTransition(): (t: TransitionData)
    ensures t.id < 0 && t.length == 0.0 && t.normalizedDuration == 0.0
  {
    TransitionData(-1, 0.0, 0.0)
  }

  /**
   * The scan PushStateSnapshot makes over the first i snapshots, starting
   * from weight 1.0 at slot 0: the lowest weight below 1.0 and the first slot
   * holding it, or (1.0, 0) when no weight is below 1.0.
   */
  function MinScan(s: seq<StateSnapshot>, i: nat): (r: (real, nat))
    requires i <= |s|
    ensures r.0 <= 1.0
    ensures r.0 == 1.0 ==> r.1 == 0
    ensures r.0 < 1.0 ==> r.1 < i && s[r.1].weight == r.0
    ensures forall j :: 0 <= j < i ==> r.0 <= s[j].weight
    ensures forall j :: 0 <= j < r.1 ==> r.0 < s[j].weight
  {
    if i == 0 then (1.0, 0)
    else
      var m := MinScan(s, i - 1);
      if m.0 > s[i - 1].weight then (s[i - 1].weight, i - 1) else m
  }

  /**
   * The snapshot a full list evicts: the first one with the lowest weight
   * when some weight is below 1.0, otherwise the first snapshot.
   */
  function EvictIndex(s: seq<StateSnapshot>): (k: nat)
    requires |s| > 0
    ensures k < |s|
    ensures (exists j :: 0 <= j < |s| && s[j].weight < 1.0) ==>
      s[k].weight < 1.0 &&
      (forall j :: 0 <= j < |s| ==> s[k].weight <= s[j].weight) &&
      (forall j :: 0 <= j < k ==> s[k].weight < s[j].weight)
    ensures (forall j :: 0 <= j < |s| ==> 1.0 <= s[j].weight) ==> k == 0
  {
    MinScan(s, |s|).1
  }

  /** The list without slot k: the last snapshot moves into slot k, then the length drops by one. */
  function Removed(s: seq<StateSnapshot>, k: nat): (r: seq<StateSnapshot>)
    requires k < |s|
    ensures |r| == |s| - 1
    ensures multiset(r) == multiset(s) - multiset{s[k]}
  {
    var moved := if k != |s| - 1 then s[k := s[|s| - 1]] else s;
    assert s == s[..|s| - 1] + [s[|s| - 1]];
    assert moved == moved[..|s| - 1] + [moved[|s| - 1]];
    moved[..|s| - 1]
  }

  /** Every snapshot with its weight multiplied by (1 - weight). */
  function Scaled(s: seq<StateSnapshot>, weight: real): (r: seq<StateSnapshot>)
    ensures |r| == |s|
  {
    seq(|s|, j requires 0 <= j < |s| => s[j].(weight := s[j].weight * (1.0 - weight)))
  }

  /** The snapshots PushStateSnapshot keeps before scaling: all of them unless the list is full. */
  function Survivors(s: seq<StateSnapshot>, capacity: nat): (r: seq<StateSnapshot>)
    requires 0 < capacity && |s| <= capacity
    ensures |s| < capacity ==> r == s
    ensures |s| == capacity ==> multiset(r) == multiset(s) - multiset{s[EvictIndex(s)]}
  {
    if |s| == capacity then Removed(s, EvictIndex(s)) else s
  }

  /** The snapshot list after PushStateSnapshot(snap). */
  function Pushed(s: seq<StateSnapshot>, capacity: nat, snap: StateSnapshot): (r: seq<StateSnapshot>)
    requires 0 < capacity && |s| <= capacity
    ensures |r| == if |s| == capacity then capacity else |s| + 1
    ensures r[|r| - 1] == snap
  {
    Scaled(Survivors(s, capacity), snap.weight) + [snap]
  }

  /** The sum of the weights of a snapshot list. */
  function TotalWeight(s: seq<StateSnapshot>): real
  {
    if s == [] then 0.0 else TotalWeight(s[..|s| - 1]) + s[|s| - 1].weight
  }

  lemma {:induction false} ScaledTotal(s: seq<StateSnapshot>, weight: real)
    ensures TotalWeight(Scaled(s, weight)) == (1.0 - weight) * TotalWeight(s)
  {
    if s != [] {
      var n := |s| - 1;
      var r := Scaled(s, weight);
      assert r[..n] == Scaled(s[..n], weight) by {
        forall j | 0 <= j < n
          ensures r[..n][j] == Scaled(s[..n], weight)[j]
        {
          assert s[..n][j] == s[j];
        }
      }
      ScaledTotal(s[..n], weight);
      assert r[n].weight == s[n].weight * (1.0 - weight);
      Distribute(1.0 - weight, TotalWeight(s[..n]), s[n].weight);
    }
  }

  lemma Distribute(f: real, t: real, x: real)
    ensures f * (t + x) == f * t + x * f
  {
  }

  lemma AppendTotal(s: seq<StateSnapshot>, x: StateSnapshot)
    ensures TotalWeight(s + [x]) == TotalWeight(s) + x.weight
  {
    assert (s + [x])[..|s|] == s;
  }

  /** Pushing blends the survivors out by (1 - weight) and adds the new snapshot's weight. */
  lemma PushedTotal(s: seq<StateSnapshot>, capacity: nat, snap: StateSnapshot)
    requires 0 < capacity && |s| <= capacity
    ensures TotalWeight(Pushed(s, capacity, snap)) ==
      (1.0 - snap.weight) * TotalWeight(Survivors(s, capacity)) + snap.weight
  {
    var scaled := Scaled(Survivors(s, capacity), snap.weight);
    ScaledTotal(Survivors(s, capacity), snap.weight);
    AppendTotal(scaled, snap);
  }

  /** So weights that sum to 1 in a list that is not full still sum to 1 after a push. */
  lemma PushedUnitTotal(s: seq<StateSnapshot>, capacity: nat, snap: StateSnapshot)
    requires 0 < capacity && |s| < capacity && TotalWeight(s) == 1.0
    ensures TotalWeight(Pushed(s, capacity, snap)) == 1.0
  {
    PushedTotal(s, capacity, snap);
    Unit(1.0 - snap.weight);
  }

  lemma Unit(f: real)
    ensures f * 1.0 == f
  {
  }

  class RuntimeAnimatorData {
    /** FixedList64Bytes<StateSnapshot>.Capacity. */
    const capacity: nat
    var motionIdCounter: u32
    var srcState: StateData
    var dstState: StateData
    var activeTransition: TransitionData
    var srcStateSnapshots: seq<StateSnapshot>

    ghost predicate Valid()
      reads this
    {
      0 < capacity && |srcStateSnapshots| <= capacity
    }

    /** `new RuntimeAnimatorData()`: every field zero and no snapshots. */
    constructor (capacity: nat)
      requires 0 < capacity
      ensures Valid() && this.capacity == capacity
      ensures motionIdCounter == 0 && srcStateSnapshots == []
      ensures srcState == StateData(0, 0, 0.0) && dstState == StateData(0, 0, 0.0)
      ensures activeTransition == TransitionData(0, 0.0, 0.0)
    {
      this.capacity := capacity;
      motionIdCounter := 0;
      srcState := StateData(0, 0, 0.0);
      dstState := StateData(0, 0, 0.0);
      activeTransition := TransitionData(0, 0.0, 0.0);
      srcStateSnapshots := [];
    }

    /** GetNextMotionID: advances the counter by 0xff modulo 2^32 and returns it. */
    method GetNextMotionID() returns (id: u32)
      modifies this
      ensures motionIdCounter == NextMotionId(old(motionIdCounter)) && id == motionIdCounter
      ensures srcState == old(srcState) && dstState == old(dstState)
      ensures activeTransition == old(activeTransition) && srcStateSnapshots == old(srcStateSnapshots)
    {
      motionIdCounter := (motionIdCounter + MotionIdStep) % U32;
      id := motionIdCounter;
    }

    /** MakeDefaultState: no state (id -1), zero duration, a fresh motion id. */
    method MakeDefaultState() returns (s: StateData)
      modifies this
      ensures motionIdCounter == NextMotionId(old(motionIdCounter))
      ensures s == StateData(-1, motionIdCounter, 0.0)
      ensures srcState == old(srcState) && dstState == old(dstState)
      ensures activeTransition == old(activeTransition) && srcStateSnapshots == old(srcStateSnapshots)
    {
      var id := GetNextMotionID();
      s := StateData(-1, id, 0.0);
    }

    /**
     * MakeDefault: both states empty with the first two motion ids, 0xff and
     * 0x1fe, no active transition and no snapshots.
     */
    static method MakeDefault(capacity: nat) returns (rv: RuntimeAnimatorData)
      requires 0 < capacity
      ensures fresh(rv) && rv.Valid() && rv.capacity == capacity
      ensures rv.srcState == StateData(-1, 0xff, 0.0) && rv.dstState == StateData(-1, 0x1fe, 0.0)
      ensures rv.activeTransition == DefaultTransition()
      ensures rv.motionIdCounter == 0x1fe && rv.srcStateSnapshots == []
    {
      rv := new RuntimeAnimatorData(capacity);
      var s := rv.MakeDefaultState();
      assert s == StateData(-1, 0xff, 0.0);
      rv.srcState := s;
      s := rv.MakeDefaultState();
      assert s == StateData(-1, 0x1fe, 0.0);
      rv.dstState := s;
      rv.activeTransition := DefaultTransition();
      assert rv.srcState == StateData(-1, 0xff, 0.0);
    }

    /** ClearStateSnapshots: the snapshot list becomes empty; nothing else changes. */
    method ClearStateSnapshots()
      requires Valid()
      modifies this
      ensures Valid() && srcStateSnapshots == []
      ensures motionIdCounter == old(motionIdCounter) && srcState == old(srcState)
      ensures dstState == old(dstState) && activeTransition == old(activeTransition)
    {
      srcStateSnapshots := [];
    }

    /**
     * PushStateSnapshot: a full list first evicts one snapshot (the last one
     * moves into its slot); every remaining weight is multiplied by
     * (1 - weight); the new snapshot is appended. The list never exceeds the
     * capacity.
     */
    method PushStateSnapshot(stateID: int, weight: real, normalizedTime: real, motionId: u32)
      requires Valid()
      modifies this
      ensures Valid()
      ensures srcStateSnapshots ==
        Pushed(old(srcStateSnapshots), capacity, StateSnapshot(stateID, motionId, weight, normalizedTime))
      ensures motionIdCounter == old(motionIdCounter) && srcState == old(srcState)
      ensures dstState == old(dstState) && activeTransition == old(activeTransition)
    {
      if |srcStateSnapshots| == capacity {
        EvictLowest();
      }
      ScaleWeights(weight);
      srcStateSnapshots := srcStateSnapshots + [StateSnapshot(stateID, motionId, weight, normalizedTime)];
    }

    /** The eviction step of PushStateSnapshot on a full list. */
    method EvictLowest()
      requires Valid() && |srcStateSnapshots| == capacity
      modifies this
      ensures srcStateSnapshots == Removed(old(srcStateSnapshots), EvictIndex(old(srcStateSnapshots)))
      ensures motionIdCounter == old(motionIdCounter) && srcState == old(srcState)
      ensures dstState == old(dstState) && activeTransition == old(activeTransition)
    {
      var s := srcStateSnapshots;
      var minWeight := 1.0;
      var minWeightIndex := 0;
      var i := 0;
      while i < |s|
        invariant 0 <= i <= |s|
        invariant (minWeight, minWeightIndex) == MinScan(s, i)
      {
        var w := s[i].weight;
        if minWeight > w {
          minWeight := w;
          minWeightIndex := i;
        }
        i := i + 1;
      }
      var last := |s| - 1;
      if minWeightIndex != last {
        s := s[minWeightIndex := s[last]];
      }
      srcStateSnapshots := s[..last];
    }

    /** The scaling step of PushStateSnapshot: every weight times (1 - weight). */
    method ScaleWeights(weight: real)
      modifies this
      ensures srcStateSnapshots == Scaled(old(srcStateSnapshots), weight)
      ensures motionIdCounter == old(motionIdCounter) && srcState == old(srcState)
      ensures dstState == old(dstState) && activeTransition == old(activeTransition)
    {
      var s := srcStateSnapshots;
      ghost var kept := s;
      ghost var target := Scaled(kept, weight);
      var i := 0;
      while i < |s|
        invariant 0 <= i <= |s| == |kept| == |target|
        invariant forall j :: 0 <= j < i ==> s[j] == target[j]
        invariant forall j :: i <= j < |kept| ==> s[j] == kept[j]
      {
        s := s[i := s[i].(weight := s[i].weight * (1.0 - weight))];
        i := i + 1;
      }
      assert s == target;
      srcStateSnapshots := s;
    }
  }
}

// FixedEntries: the bounded buffer of the nearest agents that the grid
// branch of the maxCount queries fills. It holds `length` live slots in two
// fixed arrays of 32 entries (indices and squared distances), plus one slot
// past them acting as a terminator for the reader.
module NearestEntries {

  /** The size of the two fixed buffers. */
  const Capacity: int := 32

  /** A point in the plane of the query (float2). */
  datatype Vec2 = Vec2(x: real, y: real)

  /** math.distancesq on float2: the squared Euclidean distance. */
  function DistanceSq(a: Vec2, b: Vec2): (d: real)
    ensures d >= 0.0
    ensures a == b ==> d == 0.0
  {
    (a.x - b.x) * (a.x - b.x) + (a.y - b.y) * (a.y - b.y)
  }

  /**
   * The slot the downward scan of Add picks among `ds[lo..hi]` for a new
   * distance `d`: the lowest slot holding the largest distance, when that
   * distance is at least `d`; otherwise -1.
   */
  function Pick(ds: seq<real>, lo: int, hi: int, d: real): (r: int)
    requires 0 <= lo <= hi <= |ds|
    ensures r == -1 <==> forall e :: lo <= e < hi ==> ds[e] < d
    ensures r != -1 ==> lo <= r < hi && d <= ds[r]
    ensures r != -1 ==> forall e :: lo <= e < hi ==> ds[e] <= ds[r]
    ensures r != -1 ==> forall e :: lo <= e < r ==> ds[e] < ds[r]
    decreases hi - lo
  {
    if lo == hi then -1
    else
      var r := Pick(ds, lo + 1, hi, d);
      if (if r == -1 then d else ds[r]) <= ds[lo] then lo else r
  }

  function NonNegative(n: int): nat { if n < 0 then 0 else n }

  class FixedEntries {
    const center: Vec2
    const indices: array<int>
    const distances: array<real>
    /** The number of live slots; a negative length leaves none. */
    const length: int
    /** The default index written into the slot after the live ones. */
    ghost const terminator: int
    /** Every distance Add has dropped: one evicted from a slot, or one that did not fit. */
    ghost var dropped: seq<real>

    /** The live slots, which Add scans. */
    function Live(): nat
    {
      NonNegative(length)
    }

    /**
     * The buffers have the fixed capacity, the live slots and the terminator
     * fit in them, the terminator slot is intact, and every dropped distance
     * is at least every live one: the live slots hold the nearest entries
     * seen.
     */
    ghost predicate Valid()
      reads this, indices, distances
    {
      indices.Length == Capacity && distances.Length == Capacity && length < Capacity &&
      (length >= 0 ==> indices[length] == terminator) &&
      forall x, e :: x in dropped && 0 <= e < Live() ==> distances[e] <= x
    }

    /**
     * The FixedEntries constructor: fills the `length` live slots and the one
     * after them with the default index and distance. The source leaves the
     * check that `length` is below the capacity undone; past it the fill would
     * write outside the buffers.
     */
    constructor (center: Vec2, defaultIndex: int, defaultDistance: real, length: int)
      requires length < Capacity
      ensures Valid() && this.center == center && this.length == length && terminator == defaultIndex
      ensures forall e :: 0 <= e <= length ==> indices[e] == defaultIndex && distances[e] == defaultDistance
      ensures dropped == [] && fresh(indices) && fresh(distances)
    {
      this.center := center;
      this.length := length;
      terminator := defaultIndex;
      dropped := [];
      var ix := new int[Capacity];
      var ds := new real[Capacity];
      var entryIndex := 0;
      while entryIndex < length + 1
        invariant 0 <= entryIndex <= NonNegative(length + 1)
        invariant forall e :: 0 <= e < entryIndex ==> ix[e] == defaultIndex && ds[e] == defaultDistance
      {
        ix[entryIndex] := defaultIndex;
        ds[entryIndex] := defaultDistance;
        entryIndex := entryIndex + 1;
      }
      indices := ix;
      distances := ds;
    }

    /** The indexer `this[index]`: reading the slot after the live ones yields the terminator. */
    function At(i: int): (r: int)
      reads this, indices, distances
      requires Valid() && 0 <= i < Capacity
      ensures i == length ==> r == terminator
    {
      indices[i]
    }

    /**
     * Add: an index already in a live slot is refused and nothing changes.
     * Otherwise the live slot holding the largest distance (the lowest such
     * slot) takes the new entry when its distance is at least the new one's,
     * and that distance is dropped; when every live distance is smaller the
     * new entry itself is dropped. Either way Add reports true.
     */
    method Add(index: int, point: Vec2) returns (added: bool)
      requires Valid()
      modifies this, indices, distances
      ensures Valid()
      ensures added <==> index !in old(indices[..Live()])
      ensures !added ==> indices[..] == old(indices[..]) && distances[..] == old(distances[..]) && dropped == old(dropped)
      ensures added ==>
        var d := DistanceSq(center, point);
        var s := Pick(old(distances[..]), 0, Live(), d);
        if s == -1 then
          indices[..] == old(indices[..]) && distances[..] == old(distances[..]) && dropped == old(dropped) + [d]
        else
          indices[..] == old(indices[..])[s := index] && distances[..] == old(distances[..])[s := d] &&
          dropped == old(dropped) + [old(distances[s])]
    {
      var distance := DistanceSq(center, point);
      ghost var ds := distances[..];
      var minEntryIndex := -1;
      var minDistance := distance;
      var entryIndex := length;
      while entryIndex > 0
        invariant (length < 0 && entryIndex == length) || 0 <= entryIndex <= length
        invariant minEntryIndex == Pick(ds, NonNegative(entryIndex), Live(), distance)
        invariant minDistance == if minEntryIndex == -1 then distance else ds[minEntryIndex]
        invariant forall e :: NonNegative(entryIndex) <= e < Live() ==> indices[e] != index
      {
        entryIndex := entryIndex - 1;
        if index == indices[entryIndex] {
          assert indices[..Live()][entryIndex] == index;
          return false;
        }
        if minDistance <= distances[entryIndex] {
          minEntryIndex := entryIndex;
          minDistance := distances[entryIndex];
        }
      }
      assert index !in indices[..Live()];
      if minEntryIndex == -1 {
        dropped := dropped + [distance];
        return true;
      }
      indices[minEntryIndex] := index;
      distances[minEntryIndex] := distance;
      dropped := dropped + [ds[minEntryIndex]];
      return true;
    }
  }
}

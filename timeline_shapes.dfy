// The shapes the timeline lays out (one per recorded animation, animator
// state, transition and event), the rectangle tests they are placed and hit
// with, and the lookups that report the shapes under the knob.
module TimelineShapes {
  import opened ColorTools
  import opened WaybackHistory

  /** UnityEngine.Rect: a corner and a size; xMax is x + width and yMax is y + height. */
  datatype Rect = Rect(x: real, y: real, width: real, height: real)
  {
    function XMin(): real { x }
    function XMax(): real { x + width }
    function YMin(): real { y }
    function YMax(): real { y + height }

    /** Rect.Contains: the point lies in the rectangle, its far edges excluded. */
    predicate Contains(p: Real2)
    {
      XMin() <= p.x < XMax() && YMin() <= p.y < YMax()
    }

    /** Rect.Overlaps: the open rectangles meet. */
    predicate Overlaps(other: Rect)
    {
      other.XMax() > XMin() && other.XMin() < XMax() && other.YMax() > YMin() && other.YMin() < YMax()
    }
  }

  /** int3 and int4, as the lookups report them. */
  datatype Int3 = Int3(x: int, y: int, z: int)
  datatype Int4 = Int4(x: int, y: int, z: int, w: int)

  const EVENT_SHAPE_RADIUS: real := 5.0
  const EVENT_ROW_HEIGHT: real := 26.0
  const ANIMATION_BAR_HEIGHT: real := 60.0
  const ANIMATION_BAR_HORIZONTAL_SPACE: real := 4.0
  const ANIMATION_ROW_HEIGHT: real := ANIMATION_BAR_HEIGHT + ANIMATION_BAR_HORIZONTAL_SPACE
  const STATE_BAR_HEIGHT: real := 60.0
  const STATE_BAR_HORIZONTAL_SPACE: real := 4.0
  const STATE_ROW_HEIGHT: real := STATE_BAR_HEIGHT + STATE_BAR_HORIZONTAL_SPACE

  /** The two state-bar colours, (0.8, 0.447, 0, 1) and (0.2, 0.447, 0.8, 1), as the Color32 they convert to. */
  const STATE_BAR_COLOR1: Color32 := Color32(204, 114, 0, 255)
  const STATE_BAR_COLOR2: Color32 := Color32(51, 114, 204, 255)

  datatype AnimationRect = AnimationRect(
    rect: Rect, visible: bool, eventId: int, rowIndex: int,
    weightHistoryPointRange: Int2, animTimeHistoryPointRange: Int2)

  datatype AnimatorStateRect = AnimatorStateRect(rect: Rect, visible: bool, eventId: int, rowIndex: int, color: Color32)

  datatype AnimatorTransitionRect = AnimatorTransitionRect(
    rect: Rect, visible: bool, eventId: int, rowIndex: int, colorA: Color32, colorB: Color32, yAB: Real2)

  datatype EventShape = EventShape(pos: Real2, visible: bool, eventId: int, rowIndex: int)

  /** The images, in order, of the elements of s that `keep` accepts. */
  function Filtered<T, U>(s: seq<T>, keep: T -> bool, image: T -> U): (r: seq<U>)
    ensures |r| <= |s|
  {
    if s == [] then []
    else Filtered(s[..|s| - 1], keep, image) + (if keep(s[|s| - 1]) then [image(s[|s| - 1])] else [])
  }

  /** Filtering distributes over concatenation, so the images keep the order of their elements. */
  lemma {:induction false} FilteredAppend<T, U>(s: seq<T>, t: seq<T>, keep: T -> bool, image: T -> U)
    ensures Filtered(s + t, keep, image) == Filtered(s, keep, image) + Filtered(t, keep, image)
    decreases |t|
  {
    if t == [] {
      assert s + t == s;
    } else {
      var t' := t[..|t| - 1];
      assert (s + t)[..|s + t| - 1] == s + t';
      FilteredAppend(s, t', keep, image);
    }
  }

  /** Every accepted element contributes its image. */
  lemma {:induction false} FilteredKeeps<T, U>(s: seq<T>, keep: T -> bool, image: T -> U, i: int)
    requires 0 <= i < |s| && keep(s[i])
    ensures image(s[i]) in Filtered(s, keep, image)
    decreases |s|
  {
    if i < |s| - 1 {
      FilteredKeeps(s[..|s| - 1], keep, image, i);
    }
  }

  /** Every image in the result comes from an accepted element. */
  lemma {:induction false} FilteredOnly<T, U>(s: seq<T>, keep: T -> bool, image: T -> U, u: U)
    requires u in Filtered(s, keep, image)
    ensures exists i :: 0 <= i < |s| && keep(s[i]) && image(s[i]) == u
    decreases |s|
  {
    var n := |s| - 1;
    if u in Filtered(s[..n], keep, image) {
      FilteredOnly(s[..n], keep, image, u);
      var i :| 0 <= i < n && keep(s[..n][i]) && image(s[..n][i]) == u;
      assert s[i] == s[..n][i];
    } else {
      assert keep(s[n]) && image(s[n]) == u;
    }
  }

  /** With nothing accepted the result is empty. */
  lemma {:induction false} FilteredNone<T, U>(s: seq<T>, keep: T -> bool, image: T -> U)
    requires forall i :: 0 <= i < |s| ==> !keep(s[i])
    ensures Filtered(s, keep, image) == []
    decreases |s|
  {
    if s != [] {
      FilteredNone(s[..|s| - 1], keep, image);
    }
  }

  /** The knob at posX is over an event marker: within the radius on either side, both ends included. */
  predicate EventUnder(posX: real, e: EventShape)
  {
    posX >= e.pos.x - EVENT_SHAPE_RADIUS && posX <= e.pos.x + EVENT_SHAPE_RADIUS
  }

  /** The knob at posX is over a rectangle: between its left and right edges, both included. */
  predicate RectUnder(posX: real, r: Rect)
  {
    r.XMin() <= posX && r.XMax() >= posX
  }

  function EventIndex(e: EventShape): Int2 { Int2(e.eventId, e.rowIndex) }
  function AnimationIndex(a: AnimationRect): Int2 { Int2(a.eventId, a.rowIndex) }
  function StateIndex(s: AnimatorStateRect): Int3 { Int3(s.eventId, s.rowIndex, ToInt(s.color)) }
  function TransitionIndex(t: AnimatorTransitionRect): Int4 { Int4(t.eventId, t.rowIndex, ToInt(t.colorA), ToInt(t.colorB)) }

  /** The (eventId, rowIndex) of the event markers under the knob, in list order. */
  function EventsUnder(hd: seq<EventShape>, posX: real): seq<Int2>
  {
    Filtered(hd, (e: EventShape) => EventUnder(posX, e), EventIndex)
  }

  function AnimationsUnder(hd: seq<AnimationRect>, posX: real): seq<Int2>
  {
    Filtered(hd, (a: AnimationRect) => RectUnder(posX, a.rect), AnimationIndex)
  }

  function StatesUnder(hd: seq<AnimatorStateRect>, posX: real): seq<Int3>
  {
    Filtered(hd, (s: AnimatorStateRect) => RectUnder(posX, s.rect), StateIndex)
  }

  function TransitionsUnder(hd: seq<AnimatorTransitionRect>, posX: real): seq<Int4>
  {
    Filtered(hd, (t: AnimatorTransitionRect) => RectUnder(posX, t.rect), TransitionIndex)
  }

  /** GetAnimationEventShapeIndicesForPosBurst: the list cleared, then one entry per marker under the knob. */
  method GetAnimationEventShapeIndicesForPosBurst(hd: seq<EventShape>, posX: real) returns (outIndices: seq<Int2>)
    ensures outIndices == EventsUnder(hd, posX)
  {
    outIndices := [];
    for i := 0 to |hd|
      invariant outIndices == EventsUnder(hd[..i], posX)
    {
      var hv := hd[i];
      assert hd[..i + 1][..i] == hd[..i];
      if posX >= hv.pos.x - EVENT_SHAPE_RADIUS && posX <= hv.pos.x + EVENT_SHAPE_RADIUS {
        outIndices := outIndices + [Int2(hv.eventId, hv.rowIndex)];
      }
    }
    assert hd[..|hd|] == hd;
  }

  /** GetStateShapeIndicesForPosBurst: the list cleared, then one entry with the packed colour per bar under the knob. */
  method GetStateShapeIndicesForPosBurst(hd: seq<AnimatorStateRect>, posX: real) returns (outIndices: seq<Int3>)
    ensures outIndices == StatesUnder(hd, posX)
  {
    outIndices := [];
    for i := 0 to |hd|
      invariant outIndices == StatesUnder(hd[..i], posX)
    {
      var hv := hd[i];
      assert hd[..i + 1][..i] == hd[..i];
      if hv.rect.XMin() <= posX && hv.rect.XMax() >= posX {
        outIndices := outIndices + [Int3(hv.eventId, hv.rowIndex, ToInt(hv.color))];
      }
    }
    assert hd[..|hd|] == hd;
  }

  /** GetTransitionShapeIndicesForPosBurst: as for states, with both packed colours. */
  method GetTransitionShapeIndicesForPosBurst(hd: seq<AnimatorTransitionRect>, posX: real) returns (outIndices: seq<Int4>)
    ensures outIndices == TransitionsUnder(hd, posX)
  {
    outIndices := [];
    for i := 0 to |hd|
      invariant outIndices == TransitionsUnder(hd[..i], posX)
    {
      var hv := hd[i];
      assert hd[..i + 1][..i] == hd[..i];
      if hv.rect.XMin() <= posX && hv.rect.XMax() >= posX {
        outIndices := outIndices + [Int4(hv.eventId, hv.rowIndex, ToInt(hv.colorA), ToInt(hv.colorB))];
      }
    }
    assert hd[..|hd|] == hd;
  }

  /** GetAnimationShapeIndicesForPosBurst: the list cleared, then one entry per animation bar under the knob. */
  method GetAnimationShapeIndicesForPosBurst(hd: seq<AnimationRect>, posX: real) returns (outIndices: seq<Int2>)
    ensures outIndices == AnimationsUnder(hd, posX)
  {
    outIndices := [];
    for i := 0 to |hd|
      invariant outIndices == AnimationsUnder(hd[..i], posX)
    {
      var hv := hd[i];
      assert hd[..i + 1][..i] == hd[..i];
      if hv.rect.XMin() <= posX && hv.rect.XMax() >= posX {
        outIndices := outIndices + [Int2(hv.eventId, hv.rowIndex)];
      }
    }
    assert hd[..|hd|] == hd;
  }

  /** An event marker is reported exactly when the knob is within the radius of it. */
  lemma EventsUnderExactly(hd: seq<EventShape>, posX: real, u: Int2)
    ensures u in EventsUnder(hd, posX) <==>
      exists i :: 0 <= i < |hd| && EventUnder(posX, hd[i]) && u == Int2(hd[i].eventId, hd[i].rowIndex)
  {
    var keep := (e: EventShape) => EventUnder(posX, e);
    if u in EventsUnder(hd, posX) {
      FilteredOnly(hd, keep, EventIndex, u);
    }
    if exists i :: 0 <= i < |hd| && EventUnder(posX, hd[i]) && u == Int2(hd[i].eventId, hd[i].rowIndex) {
      var i :| 0 <= i < |hd| && EventUnder(posX, hd[i]) && u == Int2(hd[i].eventId, hd[i].rowIndex);
      FilteredKeeps(hd, keep, EventIndex, i);
    }
  }

  /** An animation bar is reported exactly when the knob lies between its edges. */
  lemma AnimationsUnderExactly(hd: seq<AnimationRect>, posX: real, u: Int2)
    ensures u in AnimationsUnder(hd, posX) <==>
      exists i :: 0 <= i < |hd| && hd[i].rect.XMin() <= posX <= hd[i].rect.XMax() && u == Int2(hd[i].eventId, hd[i].rowIndex)
  {
    var keep := (a: AnimationRect) => RectUnder(posX, a.rect);
    if u in AnimationsUnder(hd, posX) {
      FilteredOnly(hd, keep, AnimationIndex, u);
    }
    if exists i :: 0 <= i < |hd| && hd[i].rect.XMin() <= posX <= hd[i].rect.XMax() && u == Int2(hd[i].eventId, hd[i].rowIndex) {
      var i :| 0 <= i < |hd| && hd[i].rect.XMin() <= posX <= hd[i].rect.XMax() && u == Int2(hd[i].eventId, hd[i].rowIndex);
      FilteredKeeps(hd, keep, AnimationIndex, i);
    }
  }

  /**
   * A state bar is reported exactly when the knob lies between its edges, and
   * the colour it is reported with unpacks to the bar's colour.
   */
  lemma StatesUnderExactly(hd: seq<AnimatorStateRect>, posX: real, u: Int3)
    ensures u in StatesUnder(hd, posX) <==>
      exists i :: 0 <= i < |hd| && RectUnder(posX, hd[i].rect) && u == Int3(hd[i].eventId, hd[i].rowIndex, ToInt(hd[i].color))
    ensures u in StatesUnder(hd, posX) ==>
      -0x8000_0000 <= u.z < 0x8000_0000 && exists i :: 0 <= i < |hd| && RectUnder(posX, hd[i].rect) && FromInt(u.z) == hd[i].color
  {
    var keep := (s: AnimatorStateRect) => RectUnder(posX, s.rect);
    if u in StatesUnder(hd, posX) {
      FilteredOnly(hd, keep, StateIndex, u);
      var i :| 0 <= i < |hd| && keep(hd[i]) && StateIndex(hd[i]) == u;
      FromIntToInt(hd[i].color);
    }
    if exists i :: 0 <= i < |hd| && RectUnder(posX, hd[i].rect) && u == Int3(hd[i].eventId, hd[i].rowIndex, ToInt(hd[i].color)) {
      var i :| 0 <= i < |hd| && RectUnder(posX, hd[i].rect) && u == Int3(hd[i].eventId, hd[i].rowIndex, ToInt(hd[i].color));
      FilteredKeeps(hd, keep, StateIndex, i);
    }
  }

  /** A transition is reported exactly when the knob lies between its edges, with both colours packed. */
  lemma TransitionsUnderExactly(hd: seq<AnimatorTransitionRect>, posX: real, u: Int4)
    ensures u in TransitionsUnder(hd, posX) <==>
      exists i :: 0 <= i < |hd| && RectUnder(posX, hd[i].rect) && u == TransitionIndex(hd[i])
    ensures u in TransitionsUnder(hd, posX) ==>
      -0x8000_0000 <= u.z < 0x8000_0000 && -0x8000_0000 <= u.w < 0x8000_0000 &&
      exists i :: 0 <= i < |hd| && FromInt(u.z) == hd[i].colorA && FromInt(u.w) == hd[i].colorB
  {
    var keep := (t: AnimatorTransitionRect) => RectUnder(posX, t.rect);
    if u in TransitionsUnder(hd, posX) {
      FilteredOnly(hd, keep, TransitionIndex, u);
      var i :| 0 <= i < |hd| && keep(hd[i]) && TransitionIndex(hd[i]) == u;
      FromIntToInt(hd[i].colorA);
      FromIntToInt(hd[i].colorB);
    }
    if exists i :: 0 <= i < |hd| && RectUnder(posX, hd[i].rect) && u == TransitionIndex(hd[i]) {
      var i :| 0 <= i < |hd| && RectUnder(posX, hd[i].rect) && u == TransitionIndex(hd[i]);
      FilteredKeeps(hd, keep, TransitionIndex, i);
    }
  }
}

// BuildRectanglesJob: lays out the recorded history as timeline shapes.
// Event markers are stacked into rows so that nearby markers do not cover
// each other, animator states and transitions get one lane per controller
// layer, and animation bars are stacked into the first lane that is free at
// their start. Three counters report how many rows or lanes each section
// uses.
module TimelineLayout {
  import opened Wrappers
  import opened WaybackHistory
  import opened WaybackData
  import opened WaybackSettings
  import opened ColorTools
  import opened TimelinePortal
  import opened TimelineShapes

  function Max(a: int, b: int): int { if a < b then b else a }

  // ---------------------------------------------------------------------
  // Event rows

  /** The test GetEventRow applies: the probe lies closer to the marker than its radius. */
  predicate Near(es: EventShape, p: Real2)
  {
    (es.pos.x - p.x) * (es.pos.x - p.x) + (es.pos.y - p.y) * (es.pos.y - p.y) < EVENT_SHAPE_RADIUS * EVENT_SHAPE_RADIUS
  }

  /** The first of the (at most) 32 last shapes GetEventRow compares against. */
  function WindowStart(shapes: seq<EventShape>): nat
  {
    if |shapes| < 32 then 0 else |shapes| - 32
  }

  /** The probe point is near one of the last 32 markers. */
  predicate Taken(shapes: seq<EventShape>, p: Real2)
  {
    exists i :: WindowStart(shapes) <= i < |shapes| && Near(shapes[i], p)
  }

  /**
   * `rv` is the first row from baseRowIndex on whose probe point is free:
   * the probes of every row before it are taken and its own is not.
   */
  predicate FirstFreeRow(shapes: seq<EventShape>, baseRowIndex: int, probe: int -> Real2, rv: int)
  {
    rv >= baseRowIndex && !Taken(shapes, probe(rv)) &&
    forall r :: baseRowIndex <= r < rv ==> Taken(shapes, probe(r))
  }

  /** A search that stops at the first free row has one answer. */
  lemma FirstFreeRowUnique(shapes: seq<EventShape>, baseRowIndex: int, probe: int -> Real2, rv: int, rv': int)
    requires FirstFreeRow(shapes, baseRowIndex, probe, rv) && FirstFreeRow(shapes, baseRowIndex, probe, rv')
    ensures rv == rv'
  {
  }

  /** Where a marker in row `row` sits: `row` rows below the first row's position. */
  function RowProbe(eventPos: Real2, row: int): Real2
  {
    Real2(eventPos.x, eventPos.y + row as real * EVENT_ROW_HEIGHT)
  }

  /**
   * The offset GetEventRow as written has moved its probe by when it tests
   * row rv: `eventPos.y += ++rv * EVENT_ROW_HEIGHT` adds every row index
   * from baseRowIndex to rv, not just rv.
   */
  function AsWrittenRowOffset(baseRowIndex: int, rv: int): real
    decreases rv - baseRowIndex
  {
    if rv < baseRowIndex then 0.0 else AsWrittenRowOffset(baseRowIndex, rv - 1) + rv as real * EVENT_ROW_HEIGHT
  }

  function AsWrittenRowProbe(eventPos: Real2, baseRowIndex: int, rv: int): Real2
  {
    Real2(eventPos.x, eventPos.y + AsWrittenRowOffset(baseRowIndex, rv))
  }

  /** From a non-negative base row on, the accumulated offset is at least the row's own offset. */
  lemma {:induction false} AsWrittenRowOffsetBound(baseRowIndex: int, rv: int)
    requires baseRowIndex >= 0
    ensures AsWrittenRowOffset(baseRowIndex, rv) >= 0.0
    ensures rv >= baseRowIndex ==> AsWrittenRowOffset(baseRowIndex, rv) >= rv as real * EVENT_ROW_HEIGHT
    decreases rv - baseRowIndex
  {
    if rv >= baseRowIndex {
      AsWrittenRowOffsetBound(baseRowIndex, rv - 1);
    }
  }

  /** A probe near a marker lies less than a radius above it. */
  lemma NearBelow(es: EventShape, p: Real2)
    requires Near(es, p)
    ensures p.y < es.pos.y + EVENT_SHAPE_RADIUS
  {
    var dy := es.pos.y - p.y;
    var dx := es.pos.x - p.x;
    assert dx * dx >= 0.0;
    SquareAtLeast(dy, EVENT_SHAPE_RADIUS);
  }

  /** A number at or below -b, for b >= 0, squares to at least b * b. */
  lemma SquareAtLeast(a: real, b: real)
    requires b >= 0.0
    ensures a <= -b ==> a * a >= b * b
  {
    assert a * a - b * b == (a - b) * (a + b);
  }

  /** One past the last row whose probe can still be near a marker of the window. */
  function RowCeiling(shapes: seq<EventShape>, eventPos: Real2, from: nat, floor: int): (m: int)
    requires from <= |shapes|
    ensures m >= floor
    ensures forall i :: from <= i < |shapes| ==>
      (shapes[i].pos.y - eventPos.y + EVENT_SHAPE_RADIUS) / EVENT_ROW_HEIGHT <= m as real
    decreases |shapes| - from
  {
    if from == |shapes| then floor
    else Max(Ceil((shapes[from].pos.y - eventPos.y + EVENT_SHAPE_RADIUS) / EVENT_ROW_HEIGHT),
             RowCeiling(shapes, eventPos, from + 1, floor))
  }

  /** A taken row lies below the ceiling, for the probe as intended. */
  lemma TakenRowBelowCeiling(shapes: seq<EventShape>, eventPos: Real2, baseRowIndex: int, rv: int)
    requires Taken(shapes, RowProbe(eventPos, rv))
    ensures rv < RowCeiling(shapes, eventPos, WindowStart(shapes), baseRowIndex)
  {
    var i :| WindowStart(shapes) <= i < |shapes| && Near(shapes[i], RowProbe(eventPos, rv));
    NearBelow(shapes[i], RowProbe(eventPos, rv));
  }

  /** A taken row lies below the same ceiling for the probe as written. */
  lemma AsWrittenTakenRowBelowCeiling(shapes: seq<EventShape>, eventPos: Real2, baseRowIndex: int, rv: int)
    requires baseRowIndex >= 0 && rv >= baseRowIndex
    requires Taken(shapes, AsWrittenRowProbe(eventPos, baseRowIndex, rv))
    ensures rv < RowCeiling(shapes, eventPos, WindowStart(shapes), baseRowIndex)
  {
    var p := AsWrittenRowProbe(eventPos, baseRowIndex, rv);
    var i :| WindowStart(shapes) <= i < |shapes| && Near(shapes[i], p);
    NearBelow(shapes[i], p);
    AsWrittenRowOffsetBound(baseRowIndex, rv);
  }

  /**
   * Marker e, in a section whose first row is at `top`, sits in the first
   * free row from baseRowIndex on among the markers before it.
   */
  predicate RowChosen(before: seq<EventShape>, e: EventShape, baseRowIndex: int, top: real)
  {
    var p0 := Real2(e.pos.x, top + EVENT_ROW_HEIGHT * 0.5);
    e.pos == RowProbe(p0, e.rowIndex) && FirstFreeRow(before, baseRowIndex, (r: int) => RowProbe(p0, r), e.rowIndex)
  }

  /** Every marker of a list was placed by the row search against the markers before it. */
  predicate RowsChosen(shapes: seq<EventShape>, baseRowIndex: int, top: real)
  {
    forall j :: 0 <= j < |shapes| ==> RowChosen(shapes[..j], shapes[j], baseRowIndex, top)
  }

  /** No marker lies near any of the 32 markers placed just before it. */
  predicate Separated(shapes: seq<EventShape>)
  {
    forall i, j :: 0 <= i < j < |shapes| && j - i <= 32 ==> !Near(shapes[i], shapes[j].pos)
  }

  lemma RowsChosenAppend(shapes: seq<EventShape>, e: EventShape, baseRowIndex: int, top: real)
    requires RowsChosen(shapes, baseRowIndex, top) && RowChosen(shapes, e, baseRowIndex, top)
    ensures RowsChosen(shapes + [e], baseRowIndex, top)
  {
    var t := shapes + [e];
    forall j | 0 <= j < |t|
      ensures RowChosen(t[..j], t[j], baseRowIndex, top)
    {
      if j < |shapes| {
        assert t[..j] == shapes[..j] && t[j] == shapes[j];
      } else {
        assert t[..j] == shapes;
      }
    }
  }

  /**
   * Markers placed by the row search never overlap: each one is further
   * than the marker radius from the 32 before it, and all are in rows from
   * baseRowIndex on.
   */
  lemma RowsChosenSeparated(shapes: seq<EventShape>, baseRowIndex: int, top: real)
    requires RowsChosen(shapes, baseRowIndex, top)
    ensures Separated(shapes)
    ensures forall j :: 0 <= j < |shapes| ==> shapes[j].rowIndex >= baseRowIndex
  {
    forall i, j | 0 <= i < j < |shapes| && j - i <= 32
      ensures !Near(shapes[i], shapes[j].pos)
    {
      var before := shapes[..j];
      assert RowChosen(before, shapes[j], baseRowIndex, top);
      assert !Taken(before, shapes[j].pos);
      assert WindowStart(before) <= i && before[i] == shapes[i];
    }
    forall j | 0 <= j < |shapes|
      ensures shapes[j].rowIndex >= baseRowIndex
    {
      assert RowChosen(shapes[..j], shapes[j], baseRowIndex, top);
    }
  }

  // ---------------------------------------------------------------------
  // Animation lanes

  /** One of the first curIdx animation bars contains the probe point. */
  predicate LaneTaken(shapes: seq<AnimationRect>, curIdx: int, p: Real2)
    requires 0 <= curIdx <= |shapes|
  {
    exists i :: 0 <= i < curIdx && shapes[i].rect.Contains(p)
  }

  /** `lane` is the first lane, counting from 0, whose probe point no earlier bar contains. */
  predicate FirstFreeLane(shapes: seq<AnimationRect>, curIdx: int, probe: int -> Real2, lane: int)
    requires 0 <= curIdx <= |shapes|
  {
    lane >= 0 && !LaneTaken(shapes, curIdx, probe(lane)) &&
    forall l :: 0 <= l < lane ==> LaneTaken(shapes, curIdx, probe(l))
  }

  /** The middle of lane `lane` at x0: lanes start every ANIMATION_ROW_HEIGHT and are a bar high. */
  function LaneProbe(baseY: real, x0: real, lane: int): Real2
  {
    Real2(x0, baseY + lane as real * ANIMATION_ROW_HEIGHT + ANIMATION_BAR_HEIGHT * 0.5)
  }

  /** The probe as written: the lane's middle measured in bar heights, without the spacing between lanes. */
  function AsWrittenLaneProbe(baseY: real, x0: real, lane: int): Real2
  {
    Real2(x0, baseY + (0.5 + lane as real) * ANIMATION_BAR_HEIGHT)
  }

  /** One past the last lane whose probe (either one) can lie inside one of the first curIdx bars. */
  function LaneCeiling(shapes: seq<AnimationRect>, baseY: real, curIdx: int): (m: int)
    requires 0 <= curIdx <= |shapes|
    ensures m >= 0
    ensures forall i :: 0 <= i < curIdx ==> (shapes[i].rect.YMax() - baseY) / ANIMATION_BAR_HEIGHT <= m as real
    decreases curIdx
  {
    if curIdx == 0 then 0
    else Max(Ceil((shapes[curIdx - 1].rect.YMax() - baseY) / ANIMATION_BAR_HEIGHT), LaneCeiling(shapes, baseY, curIdx - 1))
  }

  lemma TakenLaneBelowCeiling(shapes: seq<AnimationRect>, baseY: real, x0: real, curIdx: int, lane: int)
    requires 0 <= curIdx <= |shapes| && lane >= 0
    requires LaneTaken(shapes, curIdx, LaneProbe(baseY, x0, lane)) || LaneTaken(shapes, curIdx, AsWrittenLaneProbe(baseY, x0, lane))
    ensures lane < LaneCeiling(shapes, baseY, curIdx)
  {
    var i :| 0 <= i < curIdx && (shapes[i].rect.Contains(LaneProbe(baseY, x0, lane)) ||
                                shapes[i].rect.Contains(AsWrittenLaneProbe(baseY, x0, lane)));
  }

  /** A bar placed in lane `lane` covers that lane's rows from its top, one bar high. */
  predicate InLane(s: AnimationRect, baseY: real, lane: int)
  {
    s.rect.y == baseY + lane as real * ANIMATION_ROW_HEIGHT && s.rect.height == ANIMATION_BAR_HEIGHT
  }

  /**
   * The intended probe finds every bar of its lane: a lane reported free has
   * no earlier bar in it that spans x0.
   */
  lemma FreeLaneIsFree(shapes: seq<AnimationRect>, curIdx: int, baseY: real, x0: real, lane: int)
    requires 0 <= curIdx <= |shapes|
    requires FirstFreeLane(shapes, curIdx, (l: int) => LaneProbe(baseY, x0, l), lane)
    ensures forall i :: 0 <= i < curIdx && InLane(shapes[i], baseY, lane) ==>
      !(shapes[i].rect.XMin() <= x0 < shapes[i].rect.XMax())
  {
    forall i | 0 <= i < curIdx && InLane(shapes[i], baseY, lane)
      ensures !(shapes[i].rect.XMin() <= x0 < shapes[i].rect.XMax())
    {
      assert shapes[i].rect.XMin() <= x0 < shapes[i].rect.XMax() ==> shapes[i].rect.Contains(LaneProbe(baseY, x0, lane));
    }
  }

  // ---------------------------------------------------------------------
  // Two inputs on which the searches as written place a shape on top of another

  /** Three markers of one frame in rows 0, 1 and 2 of a section whose first row is at y = 13. */
  function StackedMarkers(): seq<EventShape>
  {
    [EventShape(Real2(0.0, 13.0), true, 0, 0), EventShape(Real2(0.0, 39.0), true, 1, 1),
     EventShape(Real2(0.0, 65.0), true, 2, 2)]
  }

  /**
   * A fourth marker on the same frame: the search as written probes rows 0,
   * 1 and then y = 91 for row 2, finds that free and puts the marker in row
   * 2, exactly on the third one.
   */
  lemma AsWrittenRowOverlaps(rv: int)
    requires FirstFreeRow(StackedMarkers(), 0, (r: int) => AsWrittenRowProbe(Real2(0.0, 13.0), 0, r), rv)
    ensures rv == 2 && RowProbe(Real2(0.0, 13.0), rv) == StackedMarkers()[2].pos
  {
    var shapes := StackedMarkers();
    var probe := (r: int) => AsWrittenRowProbe(Real2(0.0, 13.0), 0, r);
    assert AsWrittenRowOffset(0, 2) == 78.0 by {
      assert AsWrittenRowOffset(0, -1) == 0.0;
      assert AsWrittenRowOffset(0, 0) == 0.0;
      assert AsWrittenRowOffset(0, 1) == 26.0;
    }
    assert probe(0) == shapes[0].pos && probe(1) == shapes[1].pos && probe(2) == Real2(0.0, 91.0);
    StackedTaken(probe(0), 0);
    StackedTaken(probe(1), 1);
    StackedFree(probe(2));
  }

  /** A probe on one of the stacked markers is taken. */
  lemma StackedTaken(p: Real2, k: int)
    requires 0 <= k < 3 && p == StackedMarkers()[k].pos
    ensures Taken(StackedMarkers(), p)
  {
    assert Near(StackedMarkers()[k], p);
  }

  /** A probe more than a radius below every stacked marker is free. */
  lemma StackedFree(p: Real2)
    requires p.x == 0.0 && p.y >= 65.0 + EVENT_SHAPE_RADIUS
    ensures !Taken(StackedMarkers(), p)
  {
    var shapes := StackedMarkers();
    forall i | 0 <= i < |shapes|
      ensures !Near(shapes[i], p)
    {
      var dy := p.y - shapes[i].pos.y;
      assert dy >= EVENT_SHAPE_RADIUS;
      assert dy * dy >= EVENT_SHAPE_RADIUS * EVENT_SHAPE_RADIUS by { SquareAtLeast(-dy, EVENT_SHAPE_RADIUS); }
    }
  }

  /** The intended search puts the fourth marker in a row of its own, row 3. */
  lemma IntendedRowSeparates(rv: int)
    requires FirstFreeRow(StackedMarkers(), 0, (r: int) => RowProbe(Real2(0.0, 13.0), r), rv)
    ensures rv == 3
  {
    var shapes := StackedMarkers();
    var probe := (r: int) => RowProbe(Real2(0.0, 13.0), r);
    assert Near(shapes[0], probe(0)) && Near(shapes[1], probe(1)) && Near(shapes[2], probe(2));
    assert Taken(shapes, probe(0)) && Taken(shapes, probe(1)) && Taken(shapes, probe(2));
    assert !Near(shapes[0], probe(3)) && !Near(shapes[1], probe(3)) && !Near(shapes[2], probe(3));
    assert !Taken(shapes, probe(3));
  }

  /** Nine animation bars over x = 0.001, one in each of lanes 0 to 8 of a section at y = 0. */
  function StackedBars(): seq<AnimationRect>
  {
    seq(9, k => AnimationRect(Rect(0.0, k as real * ANIMATION_ROW_HEIGHT, 10.0, ANIMATION_BAR_HEIGHT), true, k, k, Int2(0, 0), Int2(0, 0)))
  }

  /**
   * A tenth bar starting there: the probe as written for lane 8 is y = 510,
   * in the gap between lane 7 (448 to 508) and lane 8 (512 to 572), so lane 8
   * is reported free although the ninth bar occupies it.
   */
  lemma AsWrittenLaneOverlaps(lane: int)
    requires FirstFreeLane(StackedBars(), 9, (l: int) => AsWrittenLaneProbe(0.0, 0.001, l), lane)
    ensures lane == 8 && StackedBars()[8].rect.Contains(LaneProbe(0.0, 0.001, lane))
  {
    var shapes := StackedBars();
    var probe := (l: int) => AsWrittenLaneProbe(0.0, 0.001, l);
    forall l | 0 <= l < 8
      ensures LaneTaken(shapes, 9, probe(l))
    {
      assert shapes[l].rect.Contains(probe(l));
    }
    forall k | 0 <= k < 9
      ensures !shapes[k].rect.Contains(probe(8))
    {
      if k <= 7 {
        assert shapes[k].rect.YMax() <= 508.0;
      } else {
        assert shapes[k].rect.YMin() == 512.0;
      }
    }
    assert !LaneTaken(shapes, 9, probe(8));
  }

  /** The intended probe sees all nine bars and puts the tenth in lane 9. */
  lemma IntendedLaneSeparates(lane: int)
    requires FirstFreeLane(StackedBars(), 9, (l: int) => LaneProbe(0.0, 0.001, l), lane)
    ensures lane == 9
  {
    var shapes := StackedBars();
    var probe := (l: int) => LaneProbe(0.0, 0.001, l);
    forall l | 0 <= l < 9
      ensures LaneTaken(shapes, 9, probe(l))
    {
      assert shapes[l].rect.Contains(probe(l));
    }
    forall k | 0 <= k < 9
      ensures !shapes[k].rect.Contains(probe(9))
    {
      assert shapes[k].rect.YMax() <= 572.0;
    }
    assert !LaneTaken(shapes, 9, probe(9));
  }

  // ---------------------------------------------------------------------
  // Transitions cut out of state bars

  /**
   * One step of CutTransitionArea: a transition of the same layer overlapping
   * the state's span moves the start past the transition when the state is
   * its destination, and the end back to the transition's start when the
   * state is its source.
   */
  function CutStep(rv: Int2, td: AnimatorControllerTransitionHistoryData, frameSpan: Int2, layerIndex: int): Int2
  {
    if td.layerIndex != layerIndex then rv
    else if td.frameSpan.y >= frameSpan.x && td.frameSpan.x <= frameSpan.y then
      var rx := if rv.x >= td.frameSpan.x then Max(td.frameSpan.y, rv.x) else rv.x;
      var ry := if rv.y <= td.frameSpan.y then (if td.frameSpan.x < rv.y then td.frameSpan.x else rv.y) else rv.y;
      Int2(rx, ry)
    else rv
  }

  /** The span CutTransitionArea returns: each transition applied in history order. */
  function CutSpan(cth: seq<AnimatorControllerTransitionHistoryData>, frameSpan: Int2, layerIndex: int): Int2
  {
    if cth == [] then frameSpan
    else CutStep(CutSpan(cth[..|cth| - 1], frameSpan, layerIndex), cth[|cth| - 1], frameSpan, layerIndex)
  }

  /** A transition on the layer shares a frame with the span. */
  predicate Overlapping(td: AnimatorControllerTransitionHistoryData, frameSpan: Int2, layerIndex: int)
  {
    td.layerIndex == layerIndex && td.frameSpan.y >= frameSpan.x && td.frameSpan.x <= frameSpan.y
  }

  /** Cutting only shrinks the span, and leaves it alone when nothing on the layer overlaps it. */
  lemma {:induction false} CutSpanShrinks(cth: seq<AnimatorControllerTransitionHistoryData>, frameSpan: Int2, layerIndex: int)
    ensures CutSpan(cth, frameSpan, layerIndex).x >= frameSpan.x
    ensures CutSpan(cth, frameSpan, layerIndex).y <= frameSpan.y
    ensures (forall i :: 0 <= i < |cth| ==> !Overlapping(cth[i], frameSpan, layerIndex)) ==>
      CutSpan(cth, frameSpan, layerIndex) == frameSpan
  {
    if cth != [] {
      var init := cth[..|cth| - 1];
      CutSpanShrinks(init, frameSpan, layerIndex);
      if forall i :: 0 <= i < |cth| ==> !Overlapping(cth[i], frameSpan, layerIndex) {
        assert forall i :: 0 <= i < |init| ==> init[i] == cth[i];
        assert !Overlapping(cth[|cth| - 1], frameSpan, layerIndex);
      }
    }
  }

  // ---------------------------------------------------------------------
  // State bar colours

  /** The number of state records of layer `layer`. */
  function LayerCount(csh: seq<AnimatorControllerStateHistoryData>, layer: int): nat
  {
    if csh == [] then 0
    else LayerCount(csh[..|csh| - 1], layer) + (if csh[|csh| - 1].layerIndex == layer then 1 else 0)
  }

  /** A state bar's colour by the parity of the number of bars before it on its layer. */
  function ParityColor(counter: int): Color32
  {
    if counter % 2 == 0 then STATE_BAR_COLOR1 else STATE_BAR_COLOR2
  }

  /**
   * Two states of the same layer with no state of that layer between them get
   * different colours, so neighbouring bars on a lane always alternate.
   */
  lemma NeighbouringBarsAlternate(csh: seq<AnimatorControllerStateHistoryData>, j: int, k: int)
    requires 0 <= j < k < |csh| && csh[j].layerIndex == csh[k].layerIndex
    requires forall m :: j < m < k ==> csh[m].layerIndex != csh[k].layerIndex
    ensures ParityColor(LayerCount(csh[..j], csh[j].layerIndex)) != ParityColor(LayerCount(csh[..k], csh[k].layerIndex))
  {
    LayerCountSkip(csh, j + 1, k, csh[k].layerIndex);
    assert csh[..j + 1][..j] == csh[..j];
  }

  /** Records of other layers between j and k leave a layer's count unchanged. */
  lemma {:induction false} LayerCountSkip(csh: seq<AnimatorControllerStateHistoryData>, j: int, k: int, layer: int)
    requires 0 <= j <= k <= |csh|
    requires forall m :: j <= m < k ==> csh[m].layerIndex != layer
    ensures LayerCount(csh[..k], layer) == LayerCount(csh[..j], layer)
    decreases k - j
  {
    if j < k {
      LayerCountSkip(csh, j, k - 1, layer);
      assert csh[..k][..k - 1] == csh[..k - 1];
    }
  }

  // ---------------------------------------------------------------------
  // History lines

  /** math.frac: the part above the floor. */
  function Frac(x: real): (f: real)
    ensures 0.0 <= f < 1.0
  {
    x - x.Floor as real
  }

  /** The value ComputeHistoryLine plots: a value above 1 wraps to its fractional part. */
  function Plotted(hv: HistoryValue): real
  {
    if hv.value > 1.0 then Frac(hv.value) else hv.value
  }

  /** The point AddPoint plots for a value: x clamped to the bounds, y from the bar's bottom up to 2 below its top. */
  function PointFor(portal: FrameMapping, hv: HistoryValue, dy: real, y0: real, xBounds: Real2): Real2
    requires portal.HasSpan()
  {
    Real2(Clamp(portal.GetPosXForFrame(hv.frameIndex), xBounds.x, xBounds.y), (1.0 - hv.value) * (dy - 2.0) + y0 + 2.0)
  }

  /** The points ComputeHistoryLine appends for a bar, one per value in order. */
  function HistoryPoints(portal: FrameMapping, hvs: seq<HistoryValue>, r: Rect): (pts: seq<Real2>)
    requires portal.HasSpan()
    ensures |pts| == |hvs|
  {
    if hvs == [] then []
    else
      var hv := hvs[|hvs| - 1];
      HistoryPoints(portal, hvs[..|hvs| - 1], r) + [PointFor(portal, hv.(value := Plotted(hv)), r.height, r.y, Real2(r.XMin() + 2.0, r.XMax() - 2.0))]
  }

  /**
   * A non-negative value plots inside its bar: between 2 below the top and
   * the bottom, and horizontally within 2 of the edges when the bar is at
   * least 4 wide.
   */
  lemma {:induction false} HistoryPointsInBar(portal: FrameMapping, hvs: seq<HistoryValue>, r: Rect)
    requires portal.HasSpan() && r.height >= 2.0
    requires forall i :: 0 <= i < |hvs| ==> hvs[i].value >= 0.0
    ensures forall i :: 0 <= i < |hvs| ==>
      r.y + 2.0 <= HistoryPoints(portal, hvs, r)[i].y <= r.y + r.height
    ensures r.width >= 4.0 ==> forall i :: 0 <= i < |hvs| ==>
      r.XMin() + 2.0 <= HistoryPoints(portal, hvs, r)[i].x <= r.XMax() - 2.0
  {
    if hvs != [] {
      var init := hvs[..|hvs| - 1];
      assert forall i :: 0 <= i < |init| ==> init[i] == hvs[i];
      HistoryPointsInBar(portal, init, r);
      var hv := hvs[|hvs| - 1];
      PointInBar(portal, hv, r);
      var last := PointFor(portal, hv.(value := Plotted(hv)), r.height, r.y, Real2(r.XMin() + 2.0, r.XMax() - 2.0));
      var pts := HistoryPoints(portal, hvs, r);
      assert pts == HistoryPoints(portal, init, r) + [last];
      assert pts[|pts| - 1] == last;
    }
  }

  /** One value's point lies inside the bar. */
  lemma PointInBar(portal: FrameMapping, hv: HistoryValue, r: Rect)
    requires portal.HasSpan() && r.height >= 2.0 && hv.value >= 0.0
    ensures r.y + 2.0 <= PointFor(portal, hv.(value := Plotted(hv)), r.height, r.y, Real2(r.XMin() + 2.0, r.XMax() - 2.0)).y
    ensures PointFor(portal, hv.(value := Plotted(hv)), r.height, r.y, Real2(r.XMin() + 2.0, r.XMax() - 2.0)).y <= r.y + r.height
    ensures r.width >= 4.0 ==>
      r.XMin() + 2.0 <= PointFor(portal, hv.(value := Plotted(hv)), r.height, r.y, Real2(r.XMin() + 2.0, r.XMax() - 2.0)).x <= r.XMax() - 2.0
  {
    var v := Plotted(hv);
    assert 0.0 <= v <= 1.0;
    var lift := (1.0 - v) * (r.height - 2.0);
    MulBetween(1.0 - v, r.height - 2.0);
    assert 0.0 <= lift <= r.height - 2.0;
    assert PointFor(portal, hv.(value := v), r.height, r.y, Real2(r.XMin() + 2.0, r.XMax() - 2.0)).y == lift + r.y + 2.0;
  }

  lemma MulBetween(a: real, b: real)
    requires 0.0 <= a <= 1.0 && b >= 0.0
    ensures 0.0 <= a * b <= b
  {
  }

  // ---------------------------------------------------------------------
  // Bars

  /**
   * The bar of a state record in a section whose top is at `top`: its lane is
   * its layer, and it spans its frames with the transitions into and out of
   * it cut away, one pixel wider on either side.
   */
  function StateBar(portal: FrameMapping, cth: seq<AnimatorControllerTransitionHistoryData>,
                    rd: AnimatorControllerStateHistoryData, top: real): Rect
    requires portal.HasSpan()
  {
    var ts := CutSpan(cth, rd.frameSpan, rd.layerIndex);
    var x0 := portal.GetPosXForFrame(ts.x);
    var x1 := portal.GetPosXForFrame(ts.y);
    Rect(x0 - 1.0, top + rd.layerIndex as real * STATE_ROW_HEIGHT, x1 - x0 + 2.0, STATE_BAR_HEIGHT)
  }

  /** The bar of a transition record: its lane is its layer, and it spans its frames. */
  function TransitionBar(portal: FrameMapping, rd: AnimatorControllerTransitionHistoryData, top: real): Rect
    requires portal.HasSpan()
  {
    var x0 := portal.GetPosXForFrame(rd.frameSpan.x);
    Rect(x0, top + rd.layerIndex as real * STATE_ROW_HEIGHT, portal.GetPosXForFrame(rd.frameSpan.y) - x0, STATE_BAR_HEIGHT)
  }

  /** The bar of an animation record in lane `lane`: it spans the animation's frames. */
  function AnimationBar(portal: FrameMapping, rd: AnimationHistoryData, top: real, lane: int): Rect
    requires portal.HasSpan()
  {
    var x0 := portal.GetPosXForFrame(rd.frameSpan.x);
    Rect(x0, top + lane as real * ANIMATION_ROW_HEIGHT, portal.GetPosXForFrame(rd.frameSpan.y) - x0, ANIMATION_BAR_HEIGHT)
  }

  /** With a positive frame width, positions do not decrease with the frame. */
  lemma PosXMonotone(portal: FrameMapping, f: int, g: int)
    requires portal.HasSpan() && portal.OneFrameWidth() > 0.0 && f <= g
    ensures portal.GetPosXForFrame(f) <= portal.GetPosXForFrame(g)
  {
    if f < g {
      PosXIncreasing(portal, f, g);
    }
  }

  /**
   * Cutting transitions only shortens a state's bar: it never reaches past
   * the positions of the state's own first and last frames by more than the
   * one-pixel margin.
   */
  lemma StateBarWithinSpan(portal: FrameMapping, cth: seq<AnimatorControllerTransitionHistoryData>,
                           rd: AnimatorControllerStateHistoryData, top: real)
    requires portal.HasSpan() && portal.OneFrameWidth() > 0.0
    ensures StateBar(portal, cth, rd, top).XMin() >= portal.GetPosXForFrame(rd.frameSpan.x) - 1.0
    ensures StateBar(portal, cth, rd, top).XMax() <= portal.GetPosXForFrame(rd.frameSpan.y) + 1.0
    ensures StateBar(portal, cth, rd, top).height == STATE_BAR_HEIGHT
  {
    var ts := CutSpan(cth, rd.frameSpan, rd.layerIndex);
    CutSpanShrinks(cth, rd.frameSpan, rd.layerIndex);
    PosXMonotone(portal, rd.frameSpan.x, ts.x);
    PosXMonotone(portal, ts.y, rd.frameSpan.y);
  }

  // ---------------------------------------------------------------------
  // The layout state

  /** The fields of BuildRectanglesJob that change while it runs. */
  datatype Layout = Layout(
    animationShapes: seq<AnimationRect>, animatorStateShapes: seq<AnimatorStateRect>,
    animatorTransitionShapes: seq<AnimatorTransitionRect>, animatorEventShapes: seq<EventShape>,
    animationEventShapes: seq<EventShape>, timelinePoints: seq<Real2>,
    eventBarsCount: int, animBarCount: int, statesBarCount: int, baseY: real)

  /** Every shape's row or lane is below the count its section reports. */
  predicate Covered(l: Layout)
  {
    (forall i :: 0 <= i < |l.animationEventShapes| ==> l.animationEventShapes[i].rowIndex < l.eventBarsCount) &&
    (forall i :: 0 <= i < |l.animatorEventShapes| ==> l.animatorEventShapes[i].rowIndex < l.eventBarsCount) &&
    (forall i :: 0 <= i < |l.animatorStateShapes| ==> l.animatorStateShapes[i].rowIndex < l.statesBarCount) &&
    (forall i :: 0 <= i < |l.animatorTransitionShapes| ==> l.animatorTransitionShapes[i].rowIndex < l.statesBarCount) &&
    (forall i :: 0 <= i < |l.animationShapes| ==> l.animationShapes[i].rowIndex < l.animBarCount)
  }

  /**
   * The counts of a finished layout: the event count raised over the
   * animation-event rows and then the animator-event rows, the state count
   * over the state and then the transition lanes, the animation count over
   * the animation lanes, each from where it started.
   */
  predicate CountsFollowRows(l: Layout, events0: int, states0: int, anims0: int)
  {
    l.eventBarsCount == RowCount(EventRows(l.animatorEventShapes), RowCount(EventRows(l.animationEventShapes), events0)) &&
    l.statesBarCount == RowCount(TransitionRows(l.animatorTransitionShapes), RowCount(StateRows(l.animatorStateShapes), states0)) &&
    l.animBarCount == RowCount(AnimationRows(l.animationShapes), anims0)
  }

  /** Counts raised over the rows cover every row, whatever they started at. */
  lemma CountsCover(l: Layout, events0: int, states0: int, anims0: int)
    requires CountsFollowRows(l, events0, states0, anims0)
    ensures Covered(l)
  {
    var c1 := RowCount(EventRows(l.animationEventShapes), events0);
    var c2 := RowCount(StateRows(l.animatorStateShapes), states0);
    RowCountBounds(EventRows(l.animationEventShapes), events0);
    RowCountBounds(EventRows(l.animatorEventShapes), c1);
    RowCountBounds(StateRows(l.animatorStateShapes), states0);
    RowCountBounds(TransitionRows(l.animatorTransitionShapes), c2);
    RowCountBounds(AnimationRows(l.animationShapes), anims0);
  }

  /** The top of the section after one that starts at `top`: its rows, then the next section's header. */
  function Below(top: real, rows: int, rowHeight: real, headerHeight: real): real
  {
    top + rows as real * rowHeight + headerHeight
  }

  /** The indices, in order, of the animator events that are not StateUpdate. */
  function MarkedEvents(hist: seq<AnimatorEventHistoryData>): (ids: seq<int>)
    ensures forall k :: 0 <= k < |ids| ==> 0 <= ids[k] < |hist| && hist[ids[k]].eventType != StateUpdate
  {
    if hist == [] then []
    else
      var n := |hist| - 1;
      MarkedEvents(hist[..n]) + (if hist[n].eventType != StateUpdate then [n] else [])
  }

  /**
   * The row count a section reports after shapes in `rows` are added in
   * order to a count that started at init: each raises it to cover its row.
   */
  function RowCount(rows: seq<int>, init: int): (m: int)
    ensures m >= init
  {
    if rows == [] then init
    else Max(RowCount(rows[..|rows| - 1], init), rows[|rows| - 1] + 1)
  }

  /** The count covers every row, and is init or one past some row. */
  lemma {:induction false} RowCountBounds(rows: seq<int>, init: int)
    ensures forall j :: 0 <= j < |rows| ==> rows[j] < RowCount(rows, init)
    ensures RowCount(rows, init) == init || exists j :: 0 <= j < |rows| && RowCount(rows, init) == rows[j] + 1
  {
    if rows != [] {
      var n := |rows| - 1;
      RowCountBounds(rows[..n], init);
      assert forall j :: 0 <= j < n ==> rows[..n][j] == rows[j];
    }
  }

  lemma RowCountAppend(rows: seq<int>, r: int, init: int)
    ensures RowCount(rows + [r], init) == Max(RowCount(rows, init), r + 1)
  {
    assert (rows + [r])[..|rows|] == rows;
  }

  function EventRows(shapes: seq<EventShape>): (rows: seq<int>)
    ensures |rows| == |shapes| && forall j :: 0 <= j < |shapes| ==> rows[j] == shapes[j].rowIndex
  {
    seq(|shapes|, j requires 0 <= j < |shapes| => shapes[j].rowIndex)
  }

  function StateRows(shapes: seq<AnimatorStateRect>): (rows: seq<int>)
    ensures |rows| == |shapes| && forall j :: 0 <= j < |shapes| ==> rows[j] == shapes[j].rowIndex
  {
    seq(|shapes|, j requires 0 <= j < |shapes| => shapes[j].rowIndex)
  }

  function TransitionRows(shapes: seq<AnimatorTransitionRect>): (rows: seq<int>)
    ensures |rows| == |shapes| && forall j :: 0 <= j < |shapes| ==> rows[j] == shapes[j].rowIndex
  {
    seq(|shapes|, j requires 0 <= j < |shapes| => shapes[j].rowIndex)
  }

  function AnimationRows(shapes: seq<AnimationRect>): (rows: seq<int>)
    ensures |rows| == |shapes| && forall j :: 0 <= j < |shapes| ==> rows[j] == shapes[j].rowIndex
  {
    seq(|shapes|, j requires 0 <= j < |shapes| => shapes[j].rowIndex)
  }

  /** A sequence one longer than a prefix of it is that prefix and its last element. */
  lemma PrefixAndLast<T>(s: seq<T>, p: seq<T>)
    requires |s| == |p| + 1 && s[..|p|] == p
    ensures s == p + [s[|p|]]
  {
  }

  lemma EventCountAppend(shapes: seq<EventShape>, e: EventShape, init: int)
    ensures RowCount(EventRows(shapes + [e]), init) == Max(RowCount(EventRows(shapes), init), e.rowIndex + 1)
  {
    assert EventRows(shapes + [e]) == EventRows(shapes) + [e.rowIndex];
    RowCountAppend(EventRows(shapes), e.rowIndex, init);
  }

  lemma StateCountAppend(shapes: seq<AnimatorStateRect>, e: AnimatorStateRect, init: int)
    ensures RowCount(StateRows(shapes + [e]), init) == Max(RowCount(StateRows(shapes), init), e.rowIndex + 1)
  {
    assert StateRows(shapes + [e]) == StateRows(shapes) + [e.rowIndex];
    RowCountAppend(StateRows(shapes), e.rowIndex, init);
  }

  lemma TransitionCountAppend(shapes: seq<AnimatorTransitionRect>, e: AnimatorTransitionRect, init: int)
    ensures RowCount(TransitionRows(shapes + [e]), init) == Max(RowCount(TransitionRows(shapes), init), e.rowIndex + 1)
  {
    assert TransitionRows(shapes + [e]) == TransitionRows(shapes) + [e.rowIndex];
    RowCountAppend(TransitionRows(shapes), e.rowIndex, init);
  }

  lemma AnimationCountAppend(shapes: seq<AnimationRect>, e: AnimationRect, init: int)
    ensures RowCount(AnimationRows(shapes + [e]), init) == Max(RowCount(AnimationRows(shapes), init), e.rowIndex + 1)
  {
    assert AnimationRows(shapes + [e]) == AnimationRows(shapes) + [e.rowIndex];
    RowCountAppend(AnimationRows(shapes), e.rowIndex, init);
  }

  /** Both state bars a transition record points at exist among n. */
  predicate StatesLinked(td: AnimatorControllerTransitionHistoryData, n: int)
  {
    0 <= td.dstStateDataIndex < n && 0 <= td.srcStateDataIndex < n
  }

  /** Every state record's layer indexes the 255 per-layer counters. */
  predicate LayersInRange(csh: seq<AnimatorControllerStateHistoryData>)
  {
    forall j :: 0 <= j < |csh| ==> 0 <= csh[j].layerIndex < 0xff
  }

  /**
   * What the job needs of the recording when the states section is shown:
   * every state record's layer indexes the 255 per-layer counters, and
   * every transition's two state indices name state records.
   */
  predicate Indexable(r: Recording, settings: WaybackMachineSettings)
  {
    IsStatesVisible(settings) ==>
      LayersInRange(r.controllerStateHistory) &&
      forall j :: 0 <= j < |r.controllerTransitionHistory| ==>
        StatesLinked(r.controllerTransitionHistory[j], |r.controllerStateHistory|)
  }

  /**
   * Bar e, in a section whose top is at `top`, lies in its lane and that lane
   * is the first whose probe just right of the bar's start no bar among the
   * first curIdx contains.
   */
  predicate LaneChosen(shapes: seq<AnimationRect>, curIdx: int, e: AnimationRect, top: real)
    requires 0 <= curIdx <= |shapes|
  {
    var x0 := e.rect.x + 0.001;
    InLane(e, top, e.rowIndex) && FirstFreeLane(shapes, curIdx, (l: int) => LaneProbe(top, x0, l), e.rowIndex)
  }

  /** Every bar of a list was placed by the lane search against the bars before it. */
  predicate LanesChosen(shapes: seq<AnimationRect>, top: real)
  {
    forall j :: 0 <= j < |shapes| ==> LaneChosen(shapes, j, shapes[j], top)
  }

  /** Bars added after the first curIdx do not change what the search saw. */
  lemma LaneChosenExtend(shapes: seq<AnimationRect>, more: seq<AnimationRect>, curIdx: int, e: AnimationRect, top: real)
    requires 0 <= curIdx <= |shapes| && LaneChosen(shapes, curIdx, e, top)
    ensures LaneChosen(shapes + more, curIdx, e, top)
  {
    var t := shapes + more;
    var x0 := e.rect.x + 0.001;
    forall l | 0 <= l <= e.rowIndex
      ensures LaneTaken(t, curIdx, LaneProbe(top, x0, l)) == LaneTaken(shapes, curIdx, LaneProbe(top, x0, l))
    {
      assert forall i :: 0 <= i < curIdx ==> t[i] == shapes[i];
    }
  }

  lemma LanesChosenAppend(shapes: seq<AnimationRect>, e: AnimationRect, top: real)
    requires LanesChosen(shapes, top) && LaneChosen(shapes, |shapes|, e, top)
    ensures LanesChosen(shapes + [e], top)
  {
    var t := shapes + [e];
    forall j | 0 <= j < |t|
      ensures LaneChosen(t, j, t[j], top)
    {
      LaneChosenExtend(shapes, [e], j, t[j], top);
    }
  }

  /**
   * Bars placed by the lane search do not collide: no earlier bar in the
   * same lane spans the point just right of a later bar's start.
   */
  lemma LanesChosenDisjoint(shapes: seq<AnimationRect>, top: real)
    requires LanesChosen(shapes, top)
    ensures forall i, j :: 0 <= i < j < |shapes| && shapes[i].rowIndex == shapes[j].rowIndex ==>
      !(shapes[i].rect.XMin() <= shapes[j].rect.x + 0.001 < shapes[i].rect.XMax())
  {
    forall i, j | 0 <= i < j < |shapes| && shapes[i].rowIndex == shapes[j].rowIndex
      ensures !(shapes[i].rect.XMin() <= shapes[j].rect.x + 0.001 < shapes[i].rect.XMax())
    {
      assert LaneChosen(shapes, i, shapes[i], top) && LaneChosen(shapes, j, shapes[j], top);
      FreeLaneIsFree(shapes, j, top, shapes[j].rect.x + 0.001, shapes[j].rowIndex);
    }
  }

  // ---------------------------------------------------------------------
  // The job

  class BuildRectanglesJob {
    const wbData: Recording
    const timelinePortal: FrameMapping
    const contentRect: Rect
    const animHeaderHeight: real
    const eventsHeaderHeight: real
    const statesHeaderHeight: real
    const settings: WaybackMachineSettings

    var animationShapes: seq<AnimationRect>
    var animatorStateShapes: seq<AnimatorStateRect>
    var animatorTransitionShapes: seq<AnimatorTransitionRect>
    var animatorEventShapes: seq<EventShape>
    var animationEventShapes: seq<EventShape>
    var timelinePoints: seq<Real2>
    var outEventBarsCount: int
    var outAnimBarCount: int
    var outStatesBarCount: int
    var baseY: real

    function Contents(): Layout
      reads this
    {
      Layout(animationShapes, animatorStateShapes, animatorTransitionShapes, animatorEventShapes,
        animationEventShapes, timelinePoints, outEventBarsCount, outAnimBarCount, outStatesBarCount, baseY)
    }

    /** The job as ComputeShapes sets it up: the given inputs, output lists and counters. */
    constructor (wbData: Recording, timelinePortal: FrameMapping, contentRect: Rect,
                 animHeaderHeight: real, eventsHeaderHeight: real, statesHeaderHeight: real,
                 settings: WaybackMachineSettings, start: Layout)
      ensures this.wbData == wbData && this.timelinePortal == timelinePortal && this.contentRect == contentRect
      ensures this.animHeaderHeight == animHeaderHeight && this.eventsHeaderHeight == eventsHeaderHeight
      ensures this.statesHeaderHeight == statesHeaderHeight && this.settings == settings
      ensures Contents() == start
    {
      this.wbData := wbData;
      this.timelinePortal := timelinePortal;
      this.contentRect := contentRect;
      this.animHeaderHeight := animHeaderHeight;
      this.eventsHeaderHeight := eventsHeaderHeight;
      this.statesHeaderHeight := statesHeaderHeight;
      this.settings := settings;
      animationShapes := start.animationShapes;
      animatorStateShapes := start.animatorStateShapes;
      animatorTransitionShapes := start.animatorTransitionShapes;
      animatorEventShapes := start.animatorEventShapes;
      animationEventShapes := start.animationEventShapes;
      timelinePoints := start.timelinePoints;
      outEventBarsCount := start.eventBarsCount;
      outAnimBarCount := start.animBarCount;
      outStatesBarCount := start.statesBarCount;
      baseY := start.baseY;
    }

    /** The inner scan of GetEventRow: from the newest shape back over the last 32, stopping at the first near one. */
    static method IsOverlapped(eventShapes: seq<EventShape>, eventPos: Real2) returns (isOverlapped: bool)
      ensures isOverlapped == Taken(eventShapes, eventPos)
    {
      var minI := if 0 < |eventShapes| - 32 then |eventShapes| - 32 else 0;
      var esr2 := EVENT_SHAPE_RADIUS * EVENT_SHAPE_RADIUS;
      isOverlapped := false;
      var i := |eventShapes| - 1;
      while i >= minI
        invariant minI - 1 <= i < |eventShapes|
        invariant forall j :: i < j < |eventShapes| ==> !Near(eventShapes[j], eventPos)
        decreases i
      {
        var es := eventShapes[i];
        var dv := Real2(es.pos.x - eventPos.x, es.pos.y - eventPos.y);
        var d := dv.x * dv.x + dv.y * dv.y;
        if d < esr2 {
          isOverlapped := true;
          break;
        }
        i := i - 1;
      }
    }

    /**
     * GetEventRow, with the probe for row rv at rv rows below the first row,
     * where ComputeEventShape puts the marker: the first row from
     * baseRowIndex on whose position no recent marker is near.
     */
    static method GetEventRow(eventPos: Real2, baseRowIndex: int, eventShapes: seq<EventShape>) returns (rv: int)
      ensures FirstFreeRow(eventShapes, baseRowIndex, (r: int) => RowProbe(eventPos, r), rv)
    {
      ghost var probe := (r: int) => RowProbe(eventPos, r);
      ghost var ceiling := RowCeiling(eventShapes, eventPos, WindowStart(eventShapes), baseRowIndex);
      rv := baseRowIndex - 1;
      var isOverlapped := true;
      while isOverlapped
        invariant baseRowIndex - 1 <= rv <= ceiling
        invariant isOverlapped ==> rv == baseRowIndex - 1 || (Taken(eventShapes, probe(rv)) && rv < ceiling)
        invariant !isOverlapped ==> rv >= baseRowIndex && !Taken(eventShapes, probe(rv))
        invariant forall r :: baseRowIndex <= r < rv ==> Taken(eventShapes, probe(r))
        decreases ceiling - rv
      {
        rv := rv + 1;
        isOverlapped := IsOverlapped(eventShapes, RowProbe(eventPos, rv));
        if isOverlapped {
          TakenRowBelowCeiling(eventShapes, eventPos, baseRowIndex, rv);
        }
      }
    }

    /**
     * GetEventRow as written: the probe's offset grows by every row index
     * tried, so from row 2 on it tests a position below the one the marker
     * is then placed at.
     */
    static method GetEventRowAsWritten(eventPos: Real2, baseRowIndex: int, eventShapes: seq<EventShape>) returns (rv: int)
      requires baseRowIndex >= 0
      ensures FirstFreeRow(eventShapes, baseRowIndex, (r: int) => AsWrittenRowProbe(eventPos, baseRowIndex, r), rv)
    {
      ghost var probe := (r: int) => AsWrittenRowProbe(eventPos, baseRowIndex, r);
      ghost var ceiling := RowCeiling(eventShapes, eventPos, WindowStart(eventShapes), baseRowIndex);
      var pos := eventPos;
      rv := baseRowIndex - 1;
      var isOverlapped := true;
      while isOverlapped
        invariant baseRowIndex - 1 <= rv <= ceiling
        invariant pos == probe(rv)
        invariant isOverlapped ==> rv == baseRowIndex - 1 || (Taken(eventShapes, probe(rv)) && rv < ceiling)
        invariant !isOverlapped ==> rv >= baseRowIndex && !Taken(eventShapes, probe(rv))
        invariant forall r :: baseRowIndex <= r < rv ==> Taken(eventShapes, probe(r))
        decreases ceiling - rv
      {
        rv := rv + 1;
        pos := pos.(y := pos.y + rv as real * EVENT_ROW_HEIGHT);
        isOverlapped := IsOverlapped(eventShapes, pos);
        if isOverlapped {
          AsWrittenTakenRowBelowCeiling(eventShapes, eventPos, baseRowIndex, rv);
        }
      }
    }

    /** The marker ComputeEventShape adds for an event in row `row` of a section whose top is at `top`. */
    function EventShapeAt(idx: int, frameIndex: int, top: real, row: int): (e: EventShape)
      requires timelinePortal.HasSpan()
      ensures e.eventId == idx && e.rowIndex == row
      ensures e.pos == RowProbe(Real2(timelinePortal.GetPosXForFrame(frameIndex), top + EVENT_ROW_HEIGHT * 0.5), row)
    {
      var x0 := timelinePortal.GetPosXForFrame(frameIndex);
      var pos := Real2(x0, top + EVENT_ROW_HEIGHT * 0.5 + row as real * EVENT_ROW_HEIGHT);
      var r := Rect(pos.x - EVENT_SHAPE_RADIUS * 2.0, pos.y, EVENT_SHAPE_RADIUS * 4.0, 1.0);
      EventShape(pos, contentRect.Overlaps(r), idx, row)
    }

    /**
     * ComputeEventShape: appends the marker of an event at its frame's
     * position, in the first free row from baseRowIndex on, and raises the
     * event row count to cover that row.
     */
    method ComputeEventShape(idx: int, frameIndex: int, baseRowIndex: int, outEventShapes: seq<EventShape>)
      returns (shapes: seq<EventShape>)
      requires timelinePortal.HasSpan()
      modifies this`outEventBarsCount
      ensures |shapes| == |outEventShapes| + 1 && shapes[..|outEventShapes|] == outEventShapes
      ensures var e := shapes[|outEventShapes|];
        e == EventShapeAt(idx, frameIndex, baseY, e.rowIndex) && RowChosen(outEventShapes, e, baseRowIndex, baseY)
      ensures outEventBarsCount == Max(shapes[|outEventShapes|].rowIndex + 1, old(outEventBarsCount))
    {
      var x0 := timelinePortal.GetPosXForFrame(frameIndex);
      var pos := Real2(x0, baseY + EVENT_ROW_HEIGHT * 0.5);
      var eventRow := GetEventRow(pos, baseRowIndex, outEventShapes);
      pos := pos.(y := pos.y + eventRow as real * EVENT_ROW_HEIGHT);
      var r := Rect(pos.x - EVENT_SHAPE_RADIUS * 2.0, pos.y, EVENT_SHAPE_RADIUS * 4.0, 1.0);
      var eventShape := EventShape(pos, contentRect.Overlaps(r), idx, eventRow);
      assert eventShape == EventShapeAt(idx, frameIndex, baseY, eventRow);
      assert RowProbe(Real2(x0, baseY + EVENT_ROW_HEIGHT * 0.5), eventRow) == pos;
      outEventBarsCount := Max(eventRow + 1, outEventBarsCount);
      shapes := outEventShapes + [eventShape];
    }

    /** The markers of the animation events, in history order: marker j is event j's, at its frame. */
    predicate AnimationEventsAt(shapes: seq<EventShape>, top: real)
      requires timelinePortal.HasSpan()
    {
      |shapes| <= |wbData.animationEventHistory| &&
      forall j :: 0 <= j < |shapes| ==>
        shapes[j] == EventShapeAt(j, wbData.animationEventHistory[j].frameIndex, top, shapes[j].rowIndex)
    }

    /** The markers of the animator events listed in ids, in order, each at the first frame of its event. */
    predicate AnimatorEventsAt(shapes: seq<EventShape>, ids: seq<int>, top: real)
      requires timelinePortal.HasSpan()
    {
      |shapes| == |ids| &&
      forall j :: 0 <= j < |shapes| ==>
        0 <= ids[j] < |wbData.animatorEventHistory| &&
        shapes[j] == EventShapeAt(ids[j], wbData.animatorEventHistory[ids[j]].frameRange.x, top, shapes[j].rowIndex)
    }

    /**
     * The animation-event loop of Execute: one marker per animation event
     * (none when events are hidden), each in the first free row from row 0.
     */
    method ComputeAnimationEventShapes()
      requires timelinePortal.HasSpan() && FlagsBinary(settings)
      requires animationEventShapes == []
      modifies this`animationEventShapes, this`outEventBarsCount
      ensures |animationEventShapes| == (if IsEventsVisible(settings) then |wbData.animationEventHistory| else 0)
      ensures AnimationEventsAt(animationEventShapes, baseY) && RowsChosen(animationEventShapes, 0, baseY)
      ensures outEventBarsCount == RowCount(EventRows(animationEventShapes), old(outEventBarsCount))
    {
      var l2 := |wbData.animationEventHistory| * settings.eventsVisible;
      ShownByFlag(settings, |wbData.animationEventHistory|);
      ghost var init := outEventBarsCount;
      for k := 0 to l2
        invariant |animationEventShapes| == k
        invariant AnimationEventsAt(animationEventShapes, baseY) && RowsChosen(animationEventShapes, 0, baseY)
        invariant outEventBarsCount == RowCount(EventRows(animationEventShapes), init)
      {
        AnimationEventStep(k, init);
      }
    }

    /**
     * The animator-event loop of Execute: one marker per event that is not a
     * StateUpdate (none when events are hidden), each in the first free row
     * from the first row below the animation events.
     */
    method ComputeAnimatorEventShapes()
      requires timelinePortal.HasSpan() && FlagsBinary(settings)
      requires animatorEventShapes == []
      modifies this`animatorEventShapes, this`outEventBarsCount
      ensures var ids := MarkedEvents(if IsEventsVisible(settings) then wbData.animatorEventHistory else []);
        AnimatorEventsAt(animatorEventShapes, ids, baseY) && RowsChosen(animatorEventShapes, old(outEventBarsCount), baseY)
      ensures outEventBarsCount == RowCount(EventRows(animatorEventShapes), old(outEventBarsCount))
    {
      var hist := wbData.animatorEventHistory;
      var l3 := |hist| * settings.eventsVisible;
      ShownByFlag(settings, |hist|);
      var baseRowIndex := outEventBarsCount;
      for k := 0 to l3
        invariant AnimatorEventsAt(animatorEventShapes, MarkedEvents(hist[..k]), baseY)
        invariant RowsChosen(animatorEventShapes, baseRowIndex, baseY)
        invariant outEventBarsCount == RowCount(EventRows(animatorEventShapes), baseRowIndex)
      {
        AnimatorEventStep(k, baseRowIndex);
      }
      assert hist[..l3] == if IsEventsVisible(settings) then hist else [];
    }

    /** One iteration of the animator-event loop: a marker for event k unless it is a StateUpdate. */
    method AnimatorEventStep(k: int, baseRowIndex: int)
      requires timelinePortal.HasSpan() && 0 <= k < |wbData.animatorEventHistory|
      requires AnimatorEventsAt(animatorEventShapes, MarkedEvents(wbData.animatorEventHistory[..k]), baseY)
      requires RowsChosen(animatorEventShapes, baseRowIndex, baseY)
      requires outEventBarsCount == RowCount(EventRows(animatorEventShapes), baseRowIndex)
      modifies this`animatorEventShapes, this`outEventBarsCount
      ensures AnimatorEventsAt(animatorEventShapes, MarkedEvents(wbData.animatorEventHistory[..k + 1]), baseY)
      ensures RowsChosen(animatorEventShapes, baseRowIndex, baseY)
      ensures outEventBarsCount == RowCount(EventRows(animatorEventShapes), baseRowIndex)
    {
      var hist := wbData.animatorEventHistory;
      var eh := hist[k];
      assert hist[..k + 1][..k] == hist[..k];
      if eh.eventType != StateUpdate {
        var n := |animatorEventShapes|;
        ghost var ids := MarkedEvents(hist[..k]);
        assert MarkedEvents(hist[..k + 1]) == ids + [k];
        ghost var before := animatorEventShapes;
        var shapes := ComputeEventShape(k, eh.frameRange.x, baseRowIndex, animatorEventShapes);
        ghost var e := shapes[n];
        RowsChosenAppend(before, e, baseRowIndex, baseY);
        AnimatorEventsAtAppend(before, ids, k, e, baseY);
        EventCountAppend(before, e, baseRowIndex);
        assert shapes == before + [e];
        animatorEventShapes := shapes;
      } else {
        assert MarkedEvents(hist[..k + 1]) == MarkedEvents(hist[..k]);
      }
    }

    /** The inner scan of GetFreeLaneIndex: whether one of the first curIdx bars contains the point. */
    static method LaneCollides(shapes: seq<AnimationRect>, curIdx: int, pt: Real2) returns (collision: bool)
      requires 0 <= curIdx <= |shapes|
      ensures collision == LaneTaken(shapes, curIdx, pt)
    {
      collision := false;
      var i := 0;
      while i < curIdx
        invariant 0 <= i <= curIdx
        invariant forall j :: 0 <= j < i ==> !shapes[j].rect.Contains(pt)
      {
        if shapes[i].rect.Contains(pt) {
          collision := true;
          break;
        }
        i := i + 1;
      }
    }

    /**
     * GetFreeLaneIndex, with the probe in the middle of each lane as lanes
     * are laid out: the first lane whose probe at x0 no earlier bar contains.
     */
    static method GetFreeLaneIndex(shapes: seq<AnimationRect>, curIdx: int, baseY: real, x0: real) returns (laneIndex: int)
      requires 0 <= curIdx <= |shapes|
      ensures FirstFreeLane(shapes, curIdx, (l: int) => LaneProbe(baseY, x0, l), laneIndex)
    {
      ghost var ceiling := LaneCeiling(shapes, baseY, curIdx);
      laneIndex := 0;
      var collision := true;
      while collision
        invariant 0 <= laneIndex <= ceiling
        invariant forall l :: 0 <= l < laneIndex ==> LaneTaken(shapes, curIdx, LaneProbe(baseY, x0, l))
        invariant !collision ==> !LaneTaken(shapes, curIdx, LaneProbe(baseY, x0, laneIndex))
        decreases ceiling - laneIndex, collision
      {
        collision := LaneCollides(shapes, curIdx, LaneProbe(baseY, x0, laneIndex));
        if collision {
          TakenLaneBelowCeiling(shapes, baseY, x0, curIdx, laneIndex);
          laneIndex := laneIndex + 1;
        }
      }
    }

    /** GetFreeLaneIndex as written: the probe for lane l is l + 0.5 bar heights down, ignoring the space between lanes. */
    static method GetFreeLaneIndexAsWritten(shapes: seq<AnimationRect>, curIdx: int, baseY: real, x0: real) returns (laneIndex: int)
      requires 0 <= curIdx <= |shapes|
      ensures FirstFreeLane(shapes, curIdx, (l: int) => AsWrittenLaneProbe(baseY, x0, l), laneIndex)
    {
      ghost var ceiling := LaneCeiling(shapes, baseY, curIdx);
      laneIndex := 0;
      var collision := true;
      while collision
        invariant 0 <= laneIndex <= ceiling
        invariant forall l :: 0 <= l < laneIndex ==> LaneTaken(shapes, curIdx, AsWrittenLaneProbe(baseY, x0, l))
        invariant !collision ==> !LaneTaken(shapes, curIdx, AsWrittenLaneProbe(baseY, x0, laneIndex))
        decreases ceiling - laneIndex, collision
      {
        collision := LaneCollides(shapes, curIdx, AsWrittenLaneProbe(baseY, x0, laneIndex));
        if collision {
          TakenLaneBelowCeiling(shapes, baseY, x0, curIdx, laneIndex);
          laneIndex := laneIndex + 1;
        }
      }
    }

    /** AddPoint: appends the point of one history value and changes nothing else. */
    method AddPoint(hv: HistoryValue, dy: real, y0: real, xBounds: Real2)
      requires timelinePortal.HasSpan()
      modifies this`timelinePoints
      ensures Contents() == old(Contents()).(timelinePoints := old(timelinePoints) + [PointFor(timelinePortal, hv, dy, y0, xBounds)])
    {
      var x := timelinePortal.GetPosXForFrame(hv.frameIndex);
      x := Clamp(x, xBounds.x, xBounds.y);
      var pt := Real2(x, (1.0 - hv.value) * (dy - 2.0) + y0 + 2.0);
      assert pt == PointFor(timelinePortal, hv, dy, y0, xBounds);
      timelinePoints := timelinePoints + [pt];
    }

    /**
     * ComputeHistoryLine: appends one point per value, in order, inside the
     * bar r, and returns the range of indices the new points take.
     */
    method ComputeHistoryLine(r: Rect, hvs: seq<HistoryValue>) returns (pointRange: Int2)
      requires timelinePortal.HasSpan()
      modifies this`timelinePoints
      ensures pointRange == Int2(|old(timelinePoints)|, |old(timelinePoints)| + |hvs|)
      ensures Contents() == old(Contents()).(timelinePoints := old(timelinePoints) + HistoryPoints(timelinePortal, hvs, r))
    {
      var first := |timelinePoints|;
      var xBounds := Real2(r.XMin() + 2.0, r.XMax() - 2.0);
      ghost var before := timelinePoints;
      for i := 0 to |hvs|
        invariant Contents() == old(Contents()).(timelinePoints := before + HistoryPoints(timelinePortal, hvs[..i], r))
      {
        var hv := hvs[i];
        if hv.value > 1.0 {
          hv := hv.(value := Frac(hv.value));
        }
        assert hvs[..i + 1][..i] == hvs[..i];
        AddPoint(hv, r.height, r.y, xBounds);
      }
      assert hvs[..|hvs|] == hvs;
      pointRange := Int2(first, |timelinePoints|);
    }

    /** CutTransitionArea: the state's span with every overlapping transition of its layer cut out, in history order. */
    method CutTransitionArea(frameSpan: Int2, layerIndex: int) returns (rv: Int2)
      ensures rv == CutSpan(wbData.controllerTransitionHistory, frameSpan, layerIndex)
    {
      var cth := wbData.controllerTransitionHistory;
      rv := frameSpan;
      for i := 0 to |cth|
        invariant rv == CutSpan(cth[..i], frameSpan, layerIndex)
      {
        var td := cth[i];
        assert cth[..i + 1][..i] == cth[..i];
        if td.layerIndex != layerIndex {
          continue;
        }
        if td.frameSpan.y >= frameSpan.x && td.frameSpan.x <= frameSpan.y {
          if rv.x >= td.frameSpan.x {
            rv := rv.(x := Max(td.frameSpan.y, rv.x));
          }
          if rv.y <= td.frameSpan.y {
            rv := rv.(y := if td.frameSpan.x < rv.y then td.frameSpan.x else rv.y);
          }
        }
      }
      assert cth[..|cth|] == cth;
    }
  
    /**
     * ComputeControllerStateShape: appends the state's bar, coloured by the
     * parity of the number of bars already on its layer, counts that bar on
     * the layer and raises the state lane count to cover the layer.
     */
    method ComputeControllerStateShape(idx: int, layerCounters: array<int>)
      requires timelinePortal.HasSpan()
      requires 0 <= idx < |wbData.controllerStateHistory|
      requires layerCounters.Length == 0xff && 0 <= wbData.controllerStateHistory[idx].layerIndex < 0xff
      modifies this`animatorStateShapes, this`outStatesBarCount, layerCounters
      ensures var layer := wbData.controllerStateHistory[idx].layerIndex;
        layerCounters[..] == old(layerCounters[..])[layer := old(layerCounters[layer]) + 1]
      ensures var rd := wbData.controllerStateHistory[idx];
        animatorStateShapes == old(animatorStateShapes) + [StateShapeFor(idx, baseY, old(layerCounters[rd.layerIndex]))]
      ensures outStatesBarCount == Max(old(outStatesBarCount), wbData.controllerStateHistory[idx].layerIndex + 1)
    {
      var rd := wbData.controllerStateHistory[idx];
      var ts := CutTransitionArea(rd.frameSpan, rd.layerIndex);
      var x0 := timelinePortal.GetPosXForFrame(ts.x);
      var x1 := timelinePortal.GetPosXForFrame(ts.y);
      var laneIndex := rd.layerIndex;
      var y0 := baseY + laneIndex as real * (STATE_BAR_HEIGHT + STATE_BAR_HORIZONTAL_SPACE);
      var y1 := y0 + STATE_BAR_HEIGHT;
      var r := Rect(x0 - 1.0, y0, x1 - x0 + 2.0, y1 - y0);
      var counter := layerCounters[laneIndex];
      layerCounters[laneIndex] := counter + 1;
      // `counter & 1` on a two's-complement int is 0 exactly for even counters
      var color := if counter % 2 == 0 then STATE_BAR_COLOR1 else STATE_BAR_COLOR2;
      var dr := AnimatorStateRect(r, contentRect.Overlaps(r), idx, laneIndex, color);
      assert dr == StateShapeFor(idx, baseY, counter);
      outStatesBarCount := Max(outStatesBarCount, laneIndex + 1);
      animatorStateShapes := animatorStateShapes + [dr];
    }

    /**
     * ComputeControllerTransitionShape: appends the transition's bar, its two
     * colours those of its destination and source state bars, its weight
     * range scaled to the bar's height.
     */
    method ComputeControllerTransitionShape(idx: int)
      requires timelinePortal.HasSpan()
      requires 0 <= idx < |wbData.controllerTransitionHistory|
      requires StatesLinked(wbData.controllerTransitionHistory[idx], |animatorStateShapes|)
      modifies this`animatorTransitionShapes, this`outStatesBarCount
      ensures animatorTransitionShapes == old(animatorTransitionShapes) + [TransitionShapeFor(idx, animatorStateShapes, baseY)]
      ensures outStatesBarCount == Max(old(outStatesBarCount), wbData.controllerTransitionHistory[idx].layerIndex + 1)
    {
      var rd := wbData.controllerTransitionHistory[idx];
      var x0 := timelinePortal.GetPosXForFrame(rd.frameSpan.x);
      var x1 := timelinePortal.GetPosXForFrame(rd.frameSpan.y);
      var laneIndex := rd.layerIndex;
      var y0 := baseY + laneIndex as real * STATE_ROW_HEIGHT;
      var y1 := y0 + STATE_BAR_HEIGHT;
      var dx := x1 - x0;
      var dy := y1 - y0;
      var r := Rect(x0, y0, dx, dy);
      var dr := AnimatorTransitionRect(r, contentRect.Overlaps(r), idx, laneIndex,
        animatorStateShapes[rd.dstStateDataIndex].color, animatorStateShapes[rd.srcStateDataIndex].color,
        Real2(rd.weightRange.x * dy, rd.weightRange.y * dy));
      assert dr == TransitionShapeFor(idx, animatorStateShapes, baseY);
      outStatesBarCount := Max(outStatesBarCount, laneIndex + 1);
      animatorTransitionShapes := animatorTransitionShapes + [dr];
    }

    /**
     * ComputeAnimationShape: appends the animation's bar in the first lane
     * free just right of its first frame, with the ranges of the weight and
     * time curves it appends, and raises the animation lane count.
     */
    method ComputeAnimationShape(idx: int)
      requires timelinePortal.HasSpan()
      requires 0 <= idx < |wbData.animHistory| && idx <= |animationShapes|
      modifies this`animationShapes, this`outAnimBarCount, this`timelinePoints
      ensures |animationShapes| == |old(animationShapes)| + 1 && animationShapes[..|old(animationShapes)|] == old(animationShapes)
      ensures var e := animationShapes[|old(animationShapes)|];
        e == AnimationShapeFor(idx, e.rowIndex, baseY, |old(timelinePoints)|) && LaneChosen(old(animationShapes), idx, e, baseY)
      ensures var e := animationShapes[|old(animationShapes)|];
        outAnimBarCount == Max(old(outAnimBarCount), e.rowIndex + 1) &&
        timelinePoints == old(timelinePoints) + AnimationPoints(idx, e.rect)
    {
      var rd := wbData.animHistory[idx];
      var x0 := timelinePortal.GetPosXForFrame(rd.frameSpan.x);
      var laneIndex := GetFreeLaneIndex(animationShapes, idx, baseY, x0 + 0.001);
      AddAnimationShape(idx, laneIndex);
      assert animationShapes[|old(animationShapes)|] == AnimationShapeFor(idx, laneIndex, baseY, |old(timelinePoints)|);
    }

    /**
     * The bar ComputeAnimationShape appends for animation record idx in lane
     * `lane` of a section whose top is at `top`, its curves' points starting
     * at index `first`: the weight curve first, then the time curve.
     */
    function AnimationShapeFor(idx: int, lane: int, top: real, first: int): (e: AnimationRect)
      requires timelinePortal.HasSpan() && 0 <= idx < |wbData.animHistory|
      ensures e.eventId == idx && e.rowIndex == lane && e.rect.height == ANIMATION_BAR_HEIGHT
      ensures e.rect.y == top + lane as real * ANIMATION_ROW_HEIGHT
      ensures e.weightHistoryPointRange.y - e.weightHistoryPointRange.x == |wbData.animHistory[idx].historyWeights|
      ensures e.animTimeHistoryPointRange.y - e.animTimeHistoryPointRange.x == |wbData.animHistory[idx].historyAnimTime|
      ensures e.weightHistoryPointRange.x == first && e.weightHistoryPointRange.y == e.animTimeHistoryPointRange.x
    {
      var rd := wbData.animHistory[idx];
      var r := AnimationBar(timelinePortal, rd, top, lane);
      var nw := |rd.historyWeights|;
      AnimationRect(r, contentRect.Overlaps(r), idx, lane, Int2(first, first + nw), Int2(first + nw, first + nw + |rd.historyAnimTime|))
    }

    /** The points of both curves of animation record idx drawn in the bar r. */
    function AnimationPoints(idx: int, r: Rect): (pts: seq<Real2>)
      requires timelinePortal.HasSpan() && 0 <= idx < |wbData.animHistory|
      ensures |pts| == |wbData.animHistory[idx].historyWeights| + |wbData.animHistory[idx].historyAnimTime|
    {
      HistoryPoints(timelinePortal, wbData.animHistory[idx].historyWeights, r) +
      HistoryPoints(timelinePortal, wbData.animHistory[idx].historyAnimTime, r)
    }

    /**
     * The rest of ComputeAnimationShape once the lane is chosen: the bar, its
     * two curves, the lane count raised to cover the lane, and the bar appended.
     */
    method AddAnimationShape(idx: int, laneIndex: int)
      requires timelinePortal.HasSpan()
      requires 0 <= idx < |wbData.animHistory|
      modifies this`animationShapes, this`outAnimBarCount, this`timelinePoints
      ensures animationShapes == old(animationShapes) + [AnimationShapeFor(idx, laneIndex, baseY, |old(timelinePoints)|)]
      ensures outAnimBarCount == Max(old(outAnimBarCount), laneIndex + 1)
      ensures timelinePoints == old(timelinePoints) + AnimationPoints(idx, AnimationBar(timelinePortal, wbData.animHistory[idx], baseY, laneIndex))
    {
      var rd := wbData.animHistory[idx];
      var x0 := timelinePortal.GetPosXForFrame(rd.frameSpan.x);
      var x1 := timelinePortal.GetPosXForFrame(rd.frameSpan.y);
      var y0 := baseY + laneIndex as real * ANIMATION_ROW_HEIGHT;
      var y1 := y0 + ANIMATION_BAR_HEIGHT;
      var dx := x1 - x0;
      var dy := y1 - y0;
      var r := Rect(x0, y0, dx, dy);
      ghost var e := AnimationShapeFor(idx, laneIndex, baseY, |timelinePoints|);
      assert r == e.rect;
      ghost var points := AnimationPoints(idx, r);
      var weightRange, timeRange := ComputeAnimationCurves(idx, r);
      var dr := AnimationRect(r, contentRect.Overlaps(r), idx, laneIndex, weightRange, timeRange);
      assert dr == e;
      AppendAnimationShape(dr);
      assert AnimationPoints(idx, AnimationBar(timelinePortal, rd, baseY, laneIndex)) == points;
    }

    /** The two ComputeHistoryLine calls of ComputeAnimationShape: the weight curve, then the time curve. */
    method ComputeAnimationCurves(idx: int, r: Rect) returns (weightRange: Int2, timeRange: Int2)
      requires timelinePortal.HasSpan()
      requires 0 <= idx < |wbData.animHistory|
      modifies this`timelinePoints
      ensures var p := |old(timelinePoints)|; var nw := |wbData.animHistory[idx].historyWeights|;
        weightRange == Int2(p, p + nw) && timeRange == Int2(p + nw, |timelinePoints|)
      ensures timelinePoints == old(timelinePoints) + AnimationPoints(idx, r)
    {
      var rd := wbData.animHistory[idx];
      ghost var weights := HistoryPoints(timelinePortal, rd.historyWeights, r);
      weightRange := ComputeHistoryLine(r, rd.historyWeights);
      assert timelinePoints == old(timelinePoints) + weights;
      timeRange := ComputeHistoryLine(r, rd.historyAnimTime);
    }

    /** The last step of AddAnimationShape: the lane count raised to cover the bar, and the bar appended. */
    method AppendAnimationShape(dr: AnimationRect)
      modifies this`animationShapes, this`outAnimBarCount
      ensures Contents() == old(Contents()).(animationShapes := old(animationShapes) + [dr],
                                             animBarCount := Max(old(outAnimBarCount), dr.rowIndex + 1))
    {
      outAnimBarCount := Max(outAnimBarCount, dr.rowIndex + 1);
      animationShapes := animationShapes + [dr];
    }
  
    /** The bar ComputeControllerStateShape appends for state record idx when `counter` bars of its layer precede it. */
    function StateShapeFor(idx: int, top: real, counter: int): (e: AnimatorStateRect)
      requires timelinePortal.HasSpan() && 0 <= idx < |wbData.controllerStateHistory|
      ensures e.eventId == idx && e.rowIndex == wbData.controllerStateHistory[idx].layerIndex
      ensures e.color == (if counter % 2 == 0 then STATE_BAR_COLOR1 else STATE_BAR_COLOR2)
      ensures e.rect.y == top + e.rowIndex as real * STATE_ROW_HEIGHT && e.rect.height == STATE_BAR_HEIGHT
    {
      var rd := wbData.controllerStateHistory[idx];
      var r := StateBar(timelinePortal, wbData.controllerTransitionHistory, rd, top);
      AnimatorStateRect(r, contentRect.Overlaps(r), idx, rd.layerIndex, ParityColor(counter))
    }

    /** The bar ComputeControllerTransitionShape appends for transition record idx, given the state bars. */
    function TransitionShapeFor(idx: int, states: seq<AnimatorStateRect>, top: real): (e: AnimatorTransitionRect)
      requires timelinePortal.HasSpan() && 0 <= idx < |wbData.controllerTransitionHistory|
      requires StatesLinked(wbData.controllerTransitionHistory[idx], |states|)
      ensures var rd := wbData.controllerTransitionHistory[idx];
        e.eventId == idx && e.rowIndex == rd.layerIndex &&
        e.colorA == states[rd.dstStateDataIndex].color && e.colorB == states[rd.srcStateDataIndex].color
      ensures e.rect.y == top + e.rowIndex as real * STATE_ROW_HEIGHT && e.rect.height == STATE_BAR_HEIGHT
    {
      var rd := wbData.controllerTransitionHistory[idx];
      var r := TransitionBar(timelinePortal, rd, top);
      AnimatorTransitionRect(r, contentRect.Overlaps(r), idx, rd.layerIndex,
        states[rd.dstStateDataIndex].color, states[rd.srcStateDataIndex].color,
        Real2(rd.weightRange.x * STATE_BAR_HEIGHT, rd.weightRange.y * STATE_BAR_HEIGHT))
    }

    /** The state bars in history order, each coloured by the number of bars of its layer before it. */
    predicate StatesAt(shapes: seq<AnimatorStateRect>, top: real)
      requires timelinePortal.HasSpan()
    {
      var csh := wbData.controllerStateHistory;
      |shapes| <= |csh| &&
      forall j :: 0 <= j < |shapes| ==> shapes[j] == StateShapeFor(j, top, LayerCount(csh[..j], csh[j].layerIndex))
    }

    /** The transition bars in history order, coloured from the state bars given. */
    predicate TransitionsAt(shapes: seq<AnimatorTransitionRect>, states: seq<AnimatorStateRect>, top: real)
      requires timelinePortal.HasSpan()
    {
      var cth := wbData.controllerTransitionHistory;
      |shapes| <= |cth| &&
      forall j :: 0 <= j < |shapes| ==>
        StatesLinked(cth[j], |states|) && shapes[j] == TransitionShapeFor(j, states, top)
    }

    /**
     * The animation bars in history order, each with its lane, and its curves'
     * points after those of every earlier record.
     */
    predicate AnimationsAt(shapes: seq<AnimationRect>, top: real)
      requires timelinePortal.HasSpan()
    {
      var ah := wbData.animHistory;
      |shapes| <= |ah| &&
      forall j :: 0 <= j < |shapes| ==>
        shapes[j] == AnimationShapeFor(j, shapes[j].rowIndex, top, HistoryValueCount(ah[..j]))
    }

    /** The points of the curves of the first |shapes| animation records, record by record. */
    function CurvePoints(shapes: seq<AnimationRect>): (pts: seq<Real2>)
      requires timelinePortal.HasSpan() && |shapes| <= |wbData.animHistory|
      ensures |pts| == HistoryValueCount(wbData.animHistory[..|shapes|])
    {
      if shapes == [] then []
      else
        var n := |shapes| - 1;
        assert wbData.animHistory[..n + 1][..n] == wbData.animHistory[..n];
        CurvePoints(shapes[..n]) + AnimationPoints(n, shapes[n].rect)
    }

    /** One iteration of the animation-event loop: the marker of event k. */
    method AnimationEventStep(k: int, ghost init: int)
      requires timelinePortal.HasSpan() && 0 <= k < |wbData.animationEventHistory| && |animationEventShapes| == k
      requires AnimationEventsAt(animationEventShapes, baseY) && RowsChosen(animationEventShapes, 0, baseY)
      requires outEventBarsCount == RowCount(EventRows(animationEventShapes), init)
      modifies this`animationEventShapes, this`outEventBarsCount
      ensures |animationEventShapes| == k + 1
      ensures AnimationEventsAt(animationEventShapes, baseY) && RowsChosen(animationEventShapes, 0, baseY)
      ensures outEventBarsCount == RowCount(EventRows(animationEventShapes), init)
    {
      var eh := wbData.animationEventHistory[k];
      var shapes := ComputeEventShape(k, eh.frameIndex, 0, animationEventShapes);
      RowsChosenAppend(animationEventShapes, shapes[k], 0, baseY);
      AnimationEventsAtAppend(animationEventShapes, shapes[k], baseY);
      EventCountAppend(animationEventShapes, shapes[k], init);
      assert shapes == animationEventShapes + [shapes[k]];
      animationEventShapes := shapes;
    }

    /**
     * The state loop of Execute, with its 255 per-layer counters starting at
     * 0: one bar per state record (none when states are hidden).
     */
    method ComputeControllerStateShapes()
      requires timelinePortal.HasSpan() && FlagsBinary(settings) && animatorStateShapes == []
      requires IsStatesVisible(settings) ==> LayersInRange(wbData.controllerStateHistory)
      modifies this`animatorStateShapes, this`outStatesBarCount
      ensures |animatorStateShapes| == (if IsStatesVisible(settings) then |wbData.controllerStateHistory| else 0)
      ensures StatesAt(animatorStateShapes, baseY)
      ensures outStatesBarCount == RowCount(StateRows(animatorStateShapes), old(outStatesBarCount))
    {
      var csh := wbData.controllerStateHistory;
      var l4 := |csh| * settings.statesVisible;
      ShownByFlag(settings, |csh|);
      var layerCounters := new int[0xff](_ => 0);
      ghost var init := outStatesBarCount;
      for k := 0 to l4
        invariant |animatorStateShapes| == k
        invariant StatesAt(animatorStateShapes, baseY)
        invariant forall l :: 0 <= l < 0xff ==> layerCounters[l] == LayerCount(csh[..k], l)
        invariant outStatesBarCount == RowCount(StateRows(animatorStateShapes), init)
      {
        StateStep(k, layerCounters, init);
      }
    }

    /** One iteration of the state loop: the bar of record k, and its layer counted. */
    method StateStep(k: int, layerCounters: array<int>, ghost init: int)
      requires timelinePortal.HasSpan() && 0 <= k < |wbData.controllerStateHistory| && |animatorStateShapes| == k
      requires 0 <= wbData.controllerStateHistory[k].layerIndex < 0xff && layerCounters.Length == 0xff
      requires StatesAt(animatorStateShapes, baseY)
      requires forall l :: 0 <= l < 0xff ==> layerCounters[l] == LayerCount(wbData.controllerStateHistory[..k], l)
      requires outStatesBarCount == RowCount(StateRows(animatorStateShapes), init)
      modifies this`animatorStateShapes, this`outStatesBarCount, layerCounters
      ensures |animatorStateShapes| == k + 1 && StatesAt(animatorStateShapes, baseY)
      ensures forall l :: 0 <= l < 0xff ==> layerCounters[l] == LayerCount(wbData.controllerStateHistory[..k + 1], l)
      ensures outStatesBarCount == RowCount(StateRows(animatorStateShapes), init)
    {
      var csh := wbData.controllerStateHistory;
      ghost var before := animatorStateShapes;
      StatesAtAppend(before, baseY);
      StateCountAppend(before, StateShapeFor(k, baseY, LayerCount(csh[..k], csh[k].layerIndex)), init);
      forall l | 0 <= l < 0xff
        ensures LayerCount(csh[..k + 1], l) == LayerCount(csh[..k], l) + (if csh[k].layerIndex == l then 1 else 0)
      {
        assert csh[..k + 1][..k] == csh[..k];
      }
      ComputeControllerStateShape(k, layerCounters);
    }
  
    /** The transition loop of Execute: one bar per transition record (none when states are hidden). */
    method ComputeControllerTransitionShapes()
      requires timelinePortal.HasSpan() && FlagsBinary(settings) && animatorTransitionShapes == []
      requires IsStatesVisible(settings) ==>
        forall j :: 0 <= j < |wbData.controllerTransitionHistory| ==> StatesLinked(wbData.controllerTransitionHistory[j], |animatorStateShapes|)
      modifies this`animatorTransitionShapes, this`outStatesBarCount
      ensures |animatorTransitionShapes| == (if IsStatesVisible(settings) then |wbData.controllerTransitionHistory| else 0)
      ensures TransitionsAt(animatorTransitionShapes, animatorStateShapes, baseY)
      ensures outStatesBarCount == RowCount(TransitionRows(animatorTransitionShapes), old(outStatesBarCount))
    {
      var l5 := |wbData.controllerTransitionHistory| * settings.statesVisible;
      ShownByFlag(settings, |wbData.controllerTransitionHistory|);
      ghost var init := outStatesBarCount;
      for k := 0 to l5
        invariant |animatorTransitionShapes| == k
        invariant TransitionsAt(animatorTransitionShapes, animatorStateShapes, baseY)
        invariant outStatesBarCount == RowCount(TransitionRows(animatorTransitionShapes), init)
      {
        TransitionStep(k, init);
      }
    }

    /** One iteration of the transition loop: the bar of record k. */
    method TransitionStep(k: int, ghost init: int)
      requires timelinePortal.HasSpan() && 0 <= k < |wbData.controllerTransitionHistory| && |animatorTransitionShapes| == k
      requires StatesLinked(wbData.controllerTransitionHistory[k], |animatorStateShapes|)
      requires TransitionsAt(animatorTransitionShapes, animatorStateShapes, baseY)
      requires outStatesBarCount == RowCount(TransitionRows(animatorTransitionShapes), init)
      modifies this`animatorTransitionShapes, this`outStatesBarCount
      ensures |animatorTransitionShapes| == k + 1 && TransitionsAt(animatorTransitionShapes, animatorStateShapes, baseY)
      ensures outStatesBarCount == RowCount(TransitionRows(animatorTransitionShapes), init)
    {
      ghost var before := animatorTransitionShapes;
      TransitionsAtAppend(before, animatorStateShapes, baseY);
      TransitionCountAppend(before, TransitionShapeFor(k, animatorStateShapes, baseY), init);
      ComputeControllerTransitionShape(k);
    }

    /** The animation loop of Execute: one bar per animation record (none when animations are hidden). */
    method ComputeAnimationShapes()
      requires timelinePortal.HasSpan() && FlagsBinary(settings) && animationShapes == [] && timelinePoints == []
      modifies this`animationShapes, this`outAnimBarCount, this`timelinePoints
      ensures |animationShapes| == (if IsAnimationsVisible(settings) then |wbData.animHistory| else 0)
      ensures AnimationsAt(animationShapes, baseY) && LanesChosen(animationShapes, baseY)
      ensures timelinePoints == CurvePoints(animationShapes)
      ensures outAnimBarCount == RowCount(AnimationRows(animationShapes), old(outAnimBarCount))
    {
      var l := |wbData.animHistory| * settings.animationsVisible;
      ShownByFlag(settings, |wbData.animHistory|);
      ghost var init := outAnimBarCount;
      for i := 0 to l
        invariant |animationShapes| == i
        invariant AnimationsAt(animationShapes, baseY) && LanesChosen(animationShapes, baseY)
        invariant timelinePoints == CurvePoints(animationShapes)
        invariant outAnimBarCount == RowCount(AnimationRows(animationShapes), init)
      {
        AnimationStep(i, init);
      }
    }

    /** One iteration of the animation loop: the bar of record i. */
    method AnimationStep(i: int, ghost init: int)
      requires timelinePortal.HasSpan() && 0 <= i < |wbData.animHistory| && |animationShapes| == i
      requires AnimationsAt(animationShapes, baseY) && LanesChosen(animationShapes, baseY)
      requires timelinePoints == CurvePoints(animationShapes)
      requires outAnimBarCount == RowCount(AnimationRows(animationShapes), init)
      modifies this`animationShapes, this`outAnimBarCount, this`timelinePoints
      ensures |animationShapes| == i + 1
      ensures AnimationsAt(animationShapes, baseY) && LanesChosen(animationShapes, baseY)
      ensures timelinePoints == CurvePoints(animationShapes)
      ensures outAnimBarCount == RowCount(AnimationRows(animationShapes), init)
    {
      ghost var before := animationShapes;
      ghost var first := |timelinePoints|;
      ComputeAnimationShape(i);
      var e := animationShapes[i];
      PrefixAndLast(animationShapes, before);
      LanesChosenAppend(before, e, baseY);
      AnimationsAtAppend(before, e.rowIndex, baseY);
      AnimationCountAppend(before, e, init);
    }
  
    /** Where the state section starts once the event section has eventBars rows. */
    function StatesTop(eventBars: int): real
    {
      Below(eventsHeaderHeight, eventBars, EVENT_ROW_HEIGHT, statesHeaderHeight)
    }

    /** Where the animation section starts once the event and state sections have their rows. */
    function AnimationsTop(eventBars: int, stateBars: int): real
    {
      Below(StatesTop(eventBars), stateBars, STATE_ROW_HEIGHT, animHeaderHeight)
    }

    /** The two event loops of Execute: the animation events, then the animator events below them. */
    method EventSections()
      requires timelinePortal.HasSpan() && FlagsBinary(settings)
      requires animatorEventShapes == [] && animationEventShapes == []
      modifies this`animationEventShapes, this`animatorEventShapes, this`outEventBarsCount
      ensures |animationEventShapes| == (if IsEventsVisible(settings) then |wbData.animationEventHistory| else 0)
      ensures AnimationEventsAt(animationEventShapes, baseY) && RowsChosen(animationEventShapes, 0, baseY)
      ensures var hist := wbData.animatorEventHistory;
        AnimatorEventsAt(animatorEventShapes, MarkedEvents(if IsEventsVisible(settings) then hist else []), baseY) &&
        RowsChosen(animatorEventShapes, RowCount(EventRows(animationEventShapes), old(outEventBarsCount)), baseY)
      ensures outEventBarsCount == RowCount(EventRows(animatorEventShapes), RowCount(EventRows(animationEventShapes), old(outEventBarsCount)))
    {
      ComputeAnimationEventShapes();
      ComputeAnimatorEventShapes();
    }

    /** The state and transition loops of Execute, both counted in the state lanes. */
    method StateSections()
      requires timelinePortal.HasSpan() && FlagsBinary(settings)
      requires animatorStateShapes == [] && animatorTransitionShapes == []
      requires IsStatesVisible(settings) ==> LayersInRange(wbData.controllerStateHistory)
      requires IsStatesVisible(settings) ==> forall j :: 0 <= j < |wbData.controllerTransitionHistory| ==>
        StatesLinked(wbData.controllerTransitionHistory[j], |wbData.controllerStateHistory|)
      modifies this`animatorStateShapes, this`animatorTransitionShapes, this`outStatesBarCount
      ensures |animatorStateShapes| == (if IsStatesVisible(settings) then |wbData.controllerStateHistory| else 0)
      ensures |animatorTransitionShapes| == (if IsStatesVisible(settings) then |wbData.controllerTransitionHistory| else 0)
      ensures StatesAt(animatorStateShapes, baseY) && TransitionsAt(animatorTransitionShapes, animatorStateShapes, baseY)
      ensures outStatesBarCount ==
        RowCount(TransitionRows(animatorTransitionShapes), RowCount(StateRows(animatorStateShapes), old(outStatesBarCount)))
    {
      ComputeControllerStateShapes();
      ComputeControllerTransitionShapes();
    }

    /**
     * The rest of Execute once the events are laid out from the top: the
     * state section below the event rows, the animation section below the
     * state lanes.
     */
    method LowerSections()
      requires timelinePortal.HasSpan() && FlagsBinary(settings) && baseY == eventsHeaderHeight
      requires animatorStateShapes == [] && animatorTransitionShapes == [] && animationShapes == [] && timelinePoints == []
      requires IsStatesVisible(settings) ==> LayersInRange(wbData.controllerStateHistory)
      requires IsStatesVisible(settings) ==> forall j :: 0 <= j < |wbData.controllerTransitionHistory| ==>
        StatesLinked(wbData.controllerTransitionHistory[j], |wbData.controllerStateHistory|)
      modifies this`animatorStateShapes, this`animatorTransitionShapes, this`outStatesBarCount
      modifies this`animationShapes, this`outAnimBarCount, this`timelinePoints, this`baseY
      ensures |animatorStateShapes| == (if IsStatesVisible(settings) then |wbData.controllerStateHistory| else 0)
      ensures |animatorTransitionShapes| == (if IsStatesVisible(settings) then |wbData.controllerTransitionHistory| else 0)
      ensures StatesAt(animatorStateShapes, StatesTop(outEventBarsCount))
      ensures TransitionsAt(animatorTransitionShapes, animatorStateShapes, StatesTop(outEventBarsCount))
      ensures outStatesBarCount ==
        RowCount(TransitionRows(animatorTransitionShapes), RowCount(StateRows(animatorStateShapes), old(outStatesBarCount)))
      ensures |animationShapes| == (if IsAnimationsVisible(settings) then |wbData.animHistory| else 0)
      ensures AnimationsAt(animationShapes, AnimationsTop(outEventBarsCount, outStatesBarCount))
      ensures LanesChosen(animationShapes, AnimationsTop(outEventBarsCount, outStatesBarCount))
      ensures timelinePoints == CurvePoints(animationShapes)
      ensures outAnimBarCount == RowCount(AnimationRows(animationShapes), old(outAnimBarCount))
      ensures baseY == AnimationsTop(outEventBarsCount, outStatesBarCount)
    {
      baseY := Below(baseY, outEventBarsCount, EVENT_ROW_HEIGHT, statesHeaderHeight);
      StateSections();
      baseY := Below(baseY, outStatesBarCount, STATE_ROW_HEIGHT, animHeaderHeight);
      ComputeAnimationShapes();
    }

    /**
     * What Execute leaves behind, given the counts it started from: every
     * section as its loop lays it out (nothing for a hidden section), the
     * events from the top, the animator events below every animation-event
     * row, the states below the event rows, the animations below the state
     * lanes, and each count raised over its section's rows.
     */
    predicate LaidOut(l: Layout, events0: int, states0: int, anims0: int)
      requires timelinePortal.HasSpan()
    {
      var hist := wbData.animatorEventHistory;
      var statesTop := StatesTop(l.eventBarsCount);
      var animationsTop := AnimationsTop(l.eventBarsCount, l.statesBarCount);
      |l.animationEventShapes| == (if IsEventsVisible(settings) then |wbData.animationEventHistory| else 0) &&
      AnimationEventsAt(l.animationEventShapes, eventsHeaderHeight) && RowsChosen(l.animationEventShapes, 0, eventsHeaderHeight) &&
      AnimatorEventsAt(l.animatorEventShapes, MarkedEvents(if IsEventsVisible(settings) then hist else []), eventsHeaderHeight) &&
      RowsChosen(l.animatorEventShapes, RowCount(EventRows(l.animationEventShapes), events0), eventsHeaderHeight) &&
      |l.animatorStateShapes| == (if IsStatesVisible(settings) then |wbData.controllerStateHistory| else 0) &&
      |l.animatorTransitionShapes| == (if IsStatesVisible(settings) then |wbData.controllerTransitionHistory| else 0) &&
      StatesAt(l.animatorStateShapes, statesTop) && TransitionsAt(l.animatorTransitionShapes, l.animatorStateShapes, statesTop) &&
      |l.animationShapes| == (if IsAnimationsVisible(settings) then |wbData.animHistory| else 0) &&
      AnimationsAt(l.animationShapes, animationsTop) && LanesChosen(l.animationShapes, animationsTop) &&
      l.timelinePoints == CurvePoints(l.animationShapes) &&
      l.baseY == animationsTop &&
      CountsFollowRows(l, events0, states0, anims0)
    }

    /**
     * Execute: the event markers from the top of the events section, the
     * animator events below every animation-event row, then the state and
     * transition bars below the events, then the animation bars below the
     * states; each section as its loop lays it out, and every count covering
     * its section's rows.
     */
    method Execute()
      requires timelinePortal.HasSpan() && FlagsBinary(settings)
      requires animationShapes == [] && animatorStateShapes == [] && animatorTransitionShapes == []
      requires animatorEventShapes == [] && animationEventShapes == [] && timelinePoints == []
      requires Indexable(wbData, settings)
      modifies this`animationShapes, this`animatorStateShapes, this`animatorTransitionShapes, this`animatorEventShapes
      modifies this`animationEventShapes, this`timelinePoints, this`baseY
      modifies this`outEventBarsCount, this`outAnimBarCount, this`outStatesBarCount
      ensures LaidOut(Contents(), old(outEventBarsCount), old(outStatesBarCount), old(outAnimBarCount))
      ensures Covered(Contents())
    {
      baseY := eventsHeaderHeight;
      EventSections();
      LowerSections();
      CountsCover(Contents(), old(outEventBarsCount), old(outStatesBarCount), old(outAnimBarCount));
    }

    /**
     * A finished layout keeps its shapes apart: no event marker is near one
     * of the 32 before it in its list, every animator-event row lies below
     * every animation-event row, and no animation bar starts inside an
     * earlier bar of its lane.
     */
    lemma LaidOutApart(l: Layout, events0: int, states0: int, anims0: int)
      requires timelinePortal.HasSpan() && LaidOut(l, events0, states0, anims0)
      ensures Separated(l.animationEventShapes) && Separated(l.animatorEventShapes)
      ensures forall i, j :: 0 <= i < |l.animationEventShapes| && 0 <= j < |l.animatorEventShapes| ==>
        l.animationEventShapes[i].rowIndex < l.animatorEventShapes[j].rowIndex
      ensures forall i, j :: 0 <= i < j < |l.animationShapes| && l.animationShapes[i].rowIndex == l.animationShapes[j].rowIndex ==>
        !(l.animationShapes[i].rect.XMin() <= l.animationShapes[j].rect.x + 0.001 < l.animationShapes[i].rect.XMax())
    {
      var c1 := RowCount(EventRows(l.animationEventShapes), events0);
      RowsChosenSeparated(l.animationEventShapes, 0, eventsHeaderHeight);
      RowsChosenSeparated(l.animatorEventShapes, c1, eventsHeaderHeight);
      RowCountBounds(EventRows(l.animationEventShapes), events0);
      LanesChosenDisjoint(l.animationShapes, AnimationsTop(l.eventBarsCount, l.statesBarCount));
    }

    lemma TransitionsAtAppend(shapes: seq<AnimatorTransitionRect>, states: seq<AnimatorStateRect>, top: real)
      requires timelinePortal.HasSpan() && TransitionsAt(shapes, states, top)
      requires |shapes| < |wbData.controllerTransitionHistory| && StatesLinked(wbData.controllerTransitionHistory[|shapes|], |states|)
      ensures TransitionsAt(shapes + [TransitionShapeFor(|shapes|, states, top)], states, top)
    {
    }

    lemma StatesAtAppend(shapes: seq<AnimatorStateRect>, top: real)
      requires timelinePortal.HasSpan() && StatesAt(shapes, top) && |shapes| < |wbData.controllerStateHistory|
      ensures var csh := wbData.controllerStateHistory; var k := |shapes|;
        StatesAt(shapes + [StateShapeFor(k, top, LayerCount(csh[..k], csh[k].layerIndex))], top)
    {
    }

    lemma AnimationsAtAppend(shapes: seq<AnimationRect>, lane: int, top: real)
      requires timelinePortal.HasSpan() && AnimationsAt(shapes, top) && |shapes| < |wbData.animHistory|
      ensures var k := |shapes|;
        AnimationsAt(shapes + [AnimationShapeFor(k, lane, top, HistoryValueCount(wbData.animHistory[..k]))], top)
    {
    }
  
    lemma AnimationEventsAtAppend(shapes: seq<EventShape>, e: EventShape, top: real)
      requires timelinePortal.HasSpan() && AnimationEventsAt(shapes, top) && |shapes| < |wbData.animationEventHistory|
      requires e == EventShapeAt(|shapes|, wbData.animationEventHistory[|shapes|].frameIndex, top, e.rowIndex)
      ensures AnimationEventsAt(shapes + [e], top)
    {
    }

    lemma AnimatorEventsAtAppend(shapes: seq<EventShape>, ids: seq<int>, k: int, e: EventShape, top: real)
      requires timelinePortal.HasSpan() && AnimatorEventsAt(shapes, ids, top) && 0 <= k < |wbData.animatorEventHistory|
      requires e == EventShapeAt(k, wbData.animatorEventHistory[k].frameRange.x, top, e.rowIndex)
      ensures AnimatorEventsAt(shapes + [e], ids + [k], top)
    {
    }
  }
}

// What one frame of recording does to each history list, stated as
// functions of the list before the frame, and the invariants the recording
// keeps: an animation entry holds one value per frame of its span, a
// transition entry points at the state entries of its two states, and an
// animator event points back at the event that entered its state.
module WaybackRules {
  import opened Wrappers
  import opened AnimatorRuntime
  import opened WaybackHistory
  import opened WaybackData

  /** The last index of `s` whose element satisfies `p`, or -1: the backward searches of the recorder. */
  function LastIndex<T>(s: seq<T>, p: T -> bool): (k: int)
    ensures -1 <= k < |s|
    ensures 0 <= k ==> p(s[k])
    ensures forall j :: k < j < |s| ==> !p(s[j])
  {
    if s == [] then -1
    else if p(s[|s| - 1]) then |s| - 1
    else LastIndex(s[..|s| - 1], p)
  }

  /** A backward search that passes over an element that fails `p` finds the same index in the shorter prefix. */
  lemma LastIndexSkip<T>(s: seq<T>, p: T -> bool, k: nat)
    requires k < |s| && !p(s[k])
    ensures LastIndex(s[..k + 1], p) == LastIndex(s[..k], p)
  {
    assert s[..k + 1][..k] == s[..k];
  }

  /** A backward search stops at the first element from the end that satisfies `p`. */
  lemma LastIndexHit<T>(s: seq<T>, p: T -> bool, k: nat)
    requires k < |s| && p(s[k])
    ensures LastIndex(s[..k + 1], p) == k
  {
  }

  // ---------------------------------------------------------------- animations

  /** An entry that ended on the frame before frameIndex and hashes to `key`. */
  function ContinuesAnimation(frameIndex: int, key: HashInputs): AnimationHistoryData -> bool
  {
    (e: AnimationHistoryData) => e.frameSpan.y + 1 == frameIndex && ComputeHash(e) == key
  }

  /** The entry after one more frame: its span ends at frameIndex and each channel gains one value tagged with it. */
  function Extended(e: AnimationHistoryData, atp: AnimationToProcess, frameIndex: int): AnimationHistoryData
  {
    e.(frameSpan := Int2(e.frameSpan.x, frameIndex),
       historyWeights := e.historyWeights + [HistoryValue(atp.weight, frameIndex)],
       historyAnimTime := e.historyAnimTime + [HistoryValue(atp.time, frameIndex)])
  }

  /** The entry RecordAnimation continues, or -1 when it appends a new one. */
  function AnimationSlot(ahs: seq<AnimationHistoryData>, atp: AnimationToProcess, frameIndex: int): int
  {
    LastIndex(ahs, ContinuesAnimation(frameIndex, ComputeHash(NewAnimationHistory(atp, frameIndex))))
  }

  /**
   * The animation history after RecordAnimation(atp, frameIndex). The entry
   * it records into is the last one that ended on the previous frame with
   * the same hash, or else a new last entry; that entry then ends at
   * frameIndex, hashes like atp, and gains exactly one weight and one time
   * value tagged frameIndex. No other entry changes.
   */
  function RecordedAnimation(ahs: seq<AnimationHistoryData>, atp: AnimationToProcess, frameIndex: int): (r: seq<AnimationHistoryData>)
    ensures var k := AnimationSlot(ahs, atp, frameIndex);
      var at := if k < 0 then |ahs| else k;
      var before := if k < 0 then [] else ahs[k].historyWeights;
      var timesBefore := if k < 0 then [] else ahs[k].historyAnimTime;
      |r| == (if k < 0 then |ahs| + 1 else |ahs|) &&
      r[at].frameSpan.y == frameIndex &&
      ComputeHash(r[at]) == ComputeHash(NewAnimationHistory(atp, frameIndex)) &&
      r[at].historyWeights == before + [HistoryValue(atp.weight, frameIndex)] &&
      r[at].historyAnimTime == timesBefore + [HistoryValue(atp.time, frameIndex)] &&
      (k < 0 ==> r[at].frameSpan.x == frameIndex) &&
      (forall j :: 0 <= j < |ahs| && j != at ==> r[j] == ahs[j])
  {
    var k := AnimationSlot(ahs, atp, frameIndex);
    if k < 0 then ahs + [Extended(NewAnimationHistory(atp, frameIndex), atp, frameIndex)]
    else ahs[k := Extended(ahs[k], atp, frameIndex)]
  }

  /** The animation history after recording every animation of the frame in order. */
  function RecordedAnimations(ahs: seq<AnimationHistoryData>, atps: seq<AnimationToProcess>, frameIndex: int): seq<AnimationHistoryData>
  {
    if atps == [] then ahs
    else RecordedAnimation(RecordedAnimations(ahs, atps[..|atps| - 1], frameIndex), atps[|atps| - 1], frameIndex)
  }

  /** An entry holds one weight and one time value for each frame of its span, in frame order. */
  predicate Chronicle(e: AnimationHistoryData)
  {
    e.frameSpan.x <= e.frameSpan.y &&
    |e.historyWeights| == e.frameSpan.y - e.frameSpan.x + 1 &&
    |e.historyAnimTime| == e.frameSpan.y - e.frameSpan.x + 1 &&
    Consecutive(e.historyWeights, e.frameSpan.x) && Consecutive(e.historyAnimTime, e.frameSpan.x)
  }

  predicate Chronicled(ahs: seq<AnimationHistoryData>)
  {
    forall j :: 0 <= j < |ahs| ==> Chronicle(ahs[j])
  }

  /** Extending an entry that ended on the previous frame keeps one value per frame. */
  lemma ExtendedChronicle(e: AnimationHistoryData, atp: AnimationToProcess, frameIndex: int)
    requires Chronicle(e) && e.frameSpan.y + 1 == frameIndex
    ensures Chronicle(Extended(e, atp, frameIndex))
  {
    var x := Extended(e, atp, frameIndex);
    assert x.historyWeights[|e.historyWeights|].frameIndex == e.frameSpan.x + |e.historyWeights|;
    assert forall j :: 0 <= j < |e.historyWeights| ==> x.historyWeights[j] == e.historyWeights[j];
    assert forall j :: 0 <= j < |e.historyAnimTime| ==> x.historyAnimTime[j] == e.historyAnimTime[j];
  }

  /** RecordAnimation keeps every entry holding one value per frame of its span. */
  lemma RecordedAnimationChronicled(ahs: seq<AnimationHistoryData>, atp: AnimationToProcess, frameIndex: int)
    requires Chronicled(ahs)
    ensures Chronicled(RecordedAnimation(ahs, atp, frameIndex))
  {
    var key := ComputeHash(NewAnimationHistory(atp, frameIndex));
    var k := AnimationSlot(ahs, atp, frameIndex);
    if k >= 0 {
      assert ContinuesAnimation(frameIndex, key)(ahs[k]);
      ExtendedChronicle(ahs[k], atp, frameIndex);
    }
  }

  lemma {:induction false} RecordedAnimationsChronicled(ahs: seq<AnimationHistoryData>, atps: seq<AnimationToProcess>, frameIndex: int)
    requires Chronicled(ahs)
    ensures Chronicled(RecordedAnimations(ahs, atps, frameIndex))
  {
    if atps != [] {
      RecordedAnimationsChronicled(ahs, atps[..|atps| - 1], frameIndex);
      RecordedAnimationChronicled(RecordedAnimations(ahs, atps[..|atps| - 1], frameIndex), atps[|atps| - 1], frameIndex);
    }
  }

  lemma CountAppend(ahs: seq<AnimationHistoryData>, e: AnimationHistoryData)
    ensures HistoryValueCount(ahs + [e]) == HistoryValueCount(ahs) + |e.historyWeights| + |e.historyAnimTime|
  {
    assert (ahs + [e])[..|ahs|] == ahs;
  }

  lemma {:induction false} CountUpdate(ahs: seq<AnimationHistoryData>, k: nat, e: AnimationHistoryData)
    requires k < |ahs|
    ensures HistoryValueCount(ahs[k := e]) ==
      HistoryValueCount(ahs) - |ahs[k].historyWeights| - |ahs[k].historyAnimTime| + |e.historyWeights| + |e.historyAnimTime|
  {
    var n := |ahs| - 1;
    if k < n {
      assert ahs[k := e][..n] == ahs[..n][k := e];
      CountUpdate(ahs[..n], k, e);
    } else {
      assert ahs[k := e][..n] == ahs[..n];
    }
  }

  /** Each RecordAnimation adds exactly two history values: one weight, one time. */
  lemma RecordedAnimationCount(ahs: seq<AnimationHistoryData>, atp: AnimationToProcess, frameIndex: int)
    ensures HistoryValueCount(RecordedAnimation(ahs, atp, frameIndex)) == HistoryValueCount(ahs) + 2
  {
    var k := AnimationSlot(ahs, atp, frameIndex);
    if k < 0 {
      CountAppend(ahs, Extended(NewAnimationHistory(atp, frameIndex), atp, frameIndex));
    } else {
      CountUpdate(ahs, k, Extended(ahs[k], atp, frameIndex));
    }
  }

  /** Recording a frame's animations adds two history values per animation. */
  lemma {:induction false} RecordedAnimationsCount(ahs: seq<AnimationHistoryData>, atps: seq<AnimationToProcess>, frameIndex: int)
    ensures HistoryValueCount(RecordedAnimations(ahs, atps, frameIndex)) == HistoryValueCount(ahs) + 2 * |atps|
  {
    if atps != [] {
      RecordedAnimationsCount(ahs, atps[..|atps| - 1], frameIndex);
      RecordedAnimationCount(RecordedAnimations(ahs, atps[..|atps| - 1], frameIndex), atps[|atps| - 1], frameIndex);
    }
  }

  // ---------------------------------------------------------------- animator states and transitions

  /** A state entry of the same state, layer and motion that ended on the frame before frameIndex. */
  function ContinuesState(stateId: int, layerIndex: int, motionId: u32, frameIndex: int): AnimatorControllerStateHistoryData -> bool
  {
    (h: AnimatorControllerStateHistoryData) =>
      h.stateId == stateId && h.frameSpan.y + 1 == frameIndex && h.layerIndex == layerIndex && h.motionId == motionId
  }

  /** Every entry of `grown` at an index of `csh` records the same state of the same layer. */
  predicate Grows(csh: seq<AnimatorControllerStateHistoryData>, grown: seq<AnimatorControllerStateHistoryData>)
  {
    |csh| <= |grown| &&
    forall j :: 0 <= j < |csh| ==> grown[j].stateId == csh[j].stateId && grown[j].layerIndex == csh[j].layerIndex
  }

  /**
   * RecordAnimatorState at frame frameIndex: the new state history and the
   * index returned. A negative state id records nothing and returns -1.
   * Otherwise the index is that of the last entry of the same state, layer
   * and motion that ended on the previous frame, or of a new last entry, and
   * that entry now ends at frameIndex. No other entry changes.
   */
  function RecordedState(csh: seq<AnimatorControllerStateHistoryData>, layer: AnimatorLayer, stateId: int, motionId: u32, frameIndex: int)
    : (r: (seq<AnimatorControllerStateHistoryData>, int))
    requires stateId < |layer.transitionCounts|
    ensures stateId < 0 ==> r == (csh, -1)
    ensures 0 <= stateId ==>
      && 0 <= r.1 < |r.0| && r.0[r.1].stateId == stateId
      && r.0[r.1].layerIndex == layer.layerIndex && r.0[r.1].motionId == motionId && r.0[r.1].frameSpan.y == frameIndex
    ensures 0 <= stateId ==> |r.0| == |csh| || (|r.0| == |csh| + 1 && r.1 == |csh| && r.0[r.1].frameSpan.x == frameIndex)
    ensures |r.0| == |csh| && 0 <= r.1 ==> csh[r.1].frameSpan.y + 1 == frameIndex
    ensures forall j :: 0 <= j < |csh| && j != r.1 ==> r.0[j] == csh[j]
    ensures Grows(csh, r.0)
  {
    if stateId < 0 then (csh, -1)
    else
      var i := LastIndex(csh, ContinuesState(stateId, layer.layerIndex, motionId, frameIndex));
      var list := if i < 0 then csh + [NewStateHistory(layer, stateId, motionId, frameIndex)] else csh;
      var at := if i < 0 then |csh| else i;
      (list[at := list[at].(frameSpan := Int2(list[at].frameSpan.x, frameIndex))], at)
  }

  /** Every state entry spans at least one frame. */
  predicate Spanned(csh: seq<AnimatorControllerStateHistoryData>)
  {
    forall j :: 0 <= j < |csh| ==> csh[j].frameSpan.x <= csh[j].frameSpan.y
  }

  lemma RecordedStateSpanned(csh: seq<AnimatorControllerStateHistoryData>, layer: AnimatorLayer, stateId: int, motionId: u32, frameIndex: int)
    requires stateId < |layer.transitionCounts| && Spanned(csh)
    ensures Spanned(RecordedState(csh, layer, stateId, motionId, frameIndex).0)
  {
  }

  /** A transition entry continuing the same source and destination states on the same layer from the previous frame. */
  function ContinuesTransition(srcStateId: int, dstStateId: int, frameIndex: int, layerIndex: int): AnimatorControllerTransitionHistoryData -> bool
  {
    (t: AnimatorControllerTransitionHistoryData) =>
      t.srcStateId == srcStateId && t.dstStateId == dstStateId && t.frameSpan.y + 1 == frameIndex && layerIndex == t.layerIndex
  }

  /**
   * RecordAnimatorTransition at frame frameIndex, given the state history
   * indices of the layer's two states. Without an active transition nothing
   * changes. Otherwise the last entry with the same two states on the same
   * layer that ended on the previous frame, or a new last entry starting at
   * frameIndex with both weights at the transition's progress, now ends at
   * frameIndex, its final weight is the progress and it points at the two
   * state entries. The transition id is not compared.
   */
  function RecordedTransition(cth: seq<AnimatorControllerTransitionHistoryData>, layer: AnimatorLayer, frameIndex: int, si: int, di: int)
    : (r: seq<AnimatorControllerTransitionHistoryData>)
    ensures layer.activeTransition.id < 0 ==> r == cth
    ensures 0 <= layer.activeTransition.id ==> |r| == |cth| || |r| == |cth| + 1
    ensures 0 <= layer.activeTransition.id ==>
      var at := if |r| == |cth| then LastIndex(cth, ContinuesTransition(layer.srcState.id, layer.dstState.id, frameIndex, layer.layerIndex)) else |cth|;
      0 <= at < |r| &&
      r[at].srcStateId == layer.srcState.id && r[at].dstStateId == layer.dstState.id &&
      r[at].layerIndex == layer.layerIndex && r[at].frameSpan.y == frameIndex &&
      r[at].weightRange.y == layer.activeTransition.normalizedDuration &&
      r[at].srcStateDataIndex == si && r[at].dstStateDataIndex == di &&
      (at == |cth| ==>
        && r[at].transitionId == layer.activeTransition.id && r[at].frameSpan.x == frameIndex
        && r[at].weightRange.x == layer.activeTransition.normalizedDuration) &&
      (forall j :: 0 <= j < |cth| && j != at ==> r[j] == cth[j])
  {
    if layer.activeTransition.id < 0 then cth
    else
      var progress := layer.activeTransition.normalizedDuration;
      var std := AnimatorControllerTransitionHistoryData(
        Int2(frameIndex, frameIndex), layer.srcState.id, layer.dstState.id, layer.activeTransition.id,
        layer.layerIndex, Real2(progress, progress), 0, 0);
      var i := LastIndex(cth, ContinuesTransition(layer.srcState.id, layer.dstState.id, frameIndex, layer.layerIndex));
      var list := if i < 0 then cth + [std] else cth;
      var at := if i < 0 then |cth| else i;
      list[at := list[at].(frameSpan := Int2(list[at].frameSpan.x, frameIndex),
                           weightRange := Real2(list[at].weightRange.x, progress),
                           srcStateDataIndex := si, dstStateDataIndex := di)]
  }

  /** RecordAnimatorStates for one layer: its source state, then its destination state, then its transition. */
  function RecordedLayer(csh: seq<AnimatorControllerStateHistoryData>, cth: seq<AnimatorControllerTransitionHistoryData>,
                         layer: AnimatorLayer, frameIndex: int)
    : (seq<AnimatorControllerStateHistoryData>, seq<AnimatorControllerTransitionHistoryData>)
    requires ValidLayer(layer)
  {
    var src := RecordedState(csh, layer, layer.srcState.id, layer.srcState.motionId, frameIndex);
    var dst := RecordedState(src.0, layer, layer.dstState.id, layer.dstState.motionId, frameIndex);
    (dst.0, RecordedTransition(cth, layer, frameIndex, src.1, dst.1))
  }

  predicate ValidLayers(layers: seq<AnimatorLayer>)
  {
    forall j :: 0 <= j < |layers| ==> ValidLayer(layers[j])
  }

  /** RecordAnimatorStates: every layer in order. */
  function RecordedLayers(csh: seq<AnimatorControllerStateHistoryData>, cth: seq<AnimatorControllerTransitionHistoryData>,
                          layers: seq<AnimatorLayer>, frameIndex: int)
    : (seq<AnimatorControllerStateHistoryData>, seq<AnimatorControllerTransitionHistoryData>)
    requires ValidLayers(layers)
  {
    if layers == [] then (csh, cth)
    else
      var before := RecordedLayers(csh, cth, layers[..|layers| - 1], frameIndex);
      RecordedLayer(before.0, before.1, layers[|layers| - 1], frameIndex)
  }

  /** A state history index recorded for a state: -1 for no state, else an entry of that state on that layer. */
  predicate StateLink(csh: seq<AnimatorControllerStateHistoryData>, index: int, stateId: int, layerIndex: int)
  {
    (stateId < 0 && index == -1) ||
    (0 <= index < |csh| && csh[index].stateId == stateId && csh[index].layerIndex == layerIndex)
  }

  /** Every transition entry points at state entries of its own source and destination states. */
  predicate TransitionsLinked(csh: seq<AnimatorControllerStateHistoryData>, cth: seq<AnimatorControllerTransitionHistoryData>)
  {
    forall j :: 0 <= j < |cth| ==>
      StateLink(csh, cth[j].srcStateDataIndex, cth[j].srcStateId, cth[j].layerIndex) &&
      StateLink(csh, cth[j].dstStateDataIndex, cth[j].dstStateId, cth[j].layerIndex)
  }

  lemma GrowsLinked(csh: seq<AnimatorControllerStateHistoryData>, grown: seq<AnimatorControllerStateHistoryData>,
                    cth: seq<AnimatorControllerTransitionHistoryData>)
    requires TransitionsLinked(csh, cth) && Grows(csh, grown)
    ensures TransitionsLinked(grown, cth)
  {
    forall j | 0 <= j < |cth|
      ensures StateLink(grown, cth[j].srcStateDataIndex, cth[j].srcStateId, cth[j].layerIndex)
      ensures StateLink(grown, cth[j].dstStateDataIndex, cth[j].dstStateId, cth[j].layerIndex)
    {
      assert StateLink(csh, cth[j].srcStateDataIndex, cth[j].srcStateId, cth[j].layerIndex);
      assert StateLink(csh, cth[j].dstStateDataIndex, cth[j].dstStateId, cth[j].layerIndex);
    }
  }

  /** Recording one layer keeps every transition entry pointing at entries of its own states. */
  lemma RecordedLayerLinked(csh: seq<AnimatorControllerStateHistoryData>, cth: seq<AnimatorControllerTransitionHistoryData>,
                            layer: AnimatorLayer, frameIndex: int)
    requires ValidLayer(layer) && TransitionsLinked(csh, cth) && Spanned(csh)
    ensures TransitionsLinked(RecordedLayer(csh, cth, layer, frameIndex).0, RecordedLayer(csh, cth, layer, frameIndex).1)
    ensures Spanned(RecordedLayer(csh, cth, layer, frameIndex).0)
  {
    var src := RecordedState(csh, layer, layer.srcState.id, layer.srcState.motionId, frameIndex);
    var dst := RecordedState(src.0, layer, layer.dstState.id, layer.dstState.motionId, frameIndex);
    RecordedStateSpanned(csh, layer, layer.srcState.id, layer.srcState.motionId, frameIndex);
    RecordedStateSpanned(src.0, layer, layer.dstState.id, layer.dstState.motionId, frameIndex);
    GrowsLinked(csh, src.0, cth);
    GrowsLinked(src.0, dst.0, cth);
    assert StateLink(src.0, src.1, layer.srcState.id, layer.layerIndex);
    assert StateLink(dst.0, src.1, layer.srcState.id, layer.layerIndex);
    assert StateLink(dst.0, dst.1, layer.dstState.id, layer.layerIndex);
    var r := RecordedTransition(cth, layer, frameIndex, src.1, dst.1);
    assert RecordedLayer(csh, cth, layer, frameIndex) == (dst.0, r);
    forall j | 0 <= j < |r|
      ensures StateLink(dst.0, r[j].srcStateDataIndex, r[j].srcStateId, r[j].layerIndex)
      ensures StateLink(dst.0, r[j].dstStateDataIndex, r[j].dstStateId, r[j].layerIndex)
    {
      if j < |cth| && r[j] == cth[j] {
      }
    }
  }

  lemma {:induction false} RecordedLayersLinked(csh: seq<AnimatorControllerStateHistoryData>, cth: seq<AnimatorControllerTransitionHistoryData>,
                                                layers: seq<AnimatorLayer>, frameIndex: int)
    requires ValidLayers(layers) && TransitionsLinked(csh, cth) && Spanned(csh)
    ensures TransitionsLinked(RecordedLayers(csh, cth, layers, frameIndex).0, RecordedLayers(csh, cth, layers, frameIndex).1)
    ensures Spanned(RecordedLayers(csh, cth, layers, frameIndex).0)
  {
    if layers != [] {
      var init := layers[..|layers| - 1];
      assert ValidLayers(init);
      RecordedLayersLinked(csh, cth, init, frameIndex);
      var before := RecordedLayers(csh, cth, init, frameIndex);
      RecordedLayerLinked(before.0, before.1, layers[|layers| - 1], frameIndex);
    }
  }

  // ---------------------------------------------------------------- animator events

  /** A StateUpdate entry of the given layer and state. */
  function UpdateOf(layerId: int, stateId: int): AnimatorEventHistoryData -> bool
  {
    (h: AnimatorEventHistoryData) => h.stateId == stateId && h.layerId == layerId && h.eventType == StateUpdate
  }

  /** A StateEnter entry of the given layer and state. */
  function EnterOf(layerId: int, stateId: int): AnimatorEventHistoryData -> bool
  {
    (h: AnimatorEventHistoryData) => h.stateId == stateId && h.layerId == layerId && h.eventType == StateEnter
  }

  /**
   * The animator event history after recording one emitted event at frame
   * frameIndex. A StateUpdate with an earlier StateUpdate entry of the same
   * layer and state stretches the last such entry to frameIndex and adds
   * nothing. Any other event is appended over the one frame, pointing back
   * at the last StateEnter entry of its layer and state (or at -1 when there
   * is none, and always for a StateEnter).
   */
  function RecordedAnimatorEvent(hist: seq<AnimatorEventHistoryData>, ev: AnimatorEvent, frameIndex: int): (r: seq<AnimatorEventHistoryData>)
    ensures |r| == |hist| <==>
      ev.eventType == StateUpdate && exists j :: 0 <= j < |hist| && UpdateOf(ev.layerId, ev.stateId)(hist[j])
    ensures |r| == |hist| ==>
      var k := LastIndex(hist, UpdateOf(ev.layerId, ev.stateId));
      && 0 <= k
      && r == hist[k := hist[k].(frameRange := Int2(hist[k].frameRange.x, frameIndex))]
    ensures |r| != |hist| ==>
      && |r| == |hist| + 1 && r[..|hist|] == hist
      && r[|hist|].eventType == ev.eventType && r[|hist|].layerId == ev.layerId && r[|hist|].stateId == ev.stateId
      && r[|hist|].frameRange == Int2(frameIndex, frameIndex)
      && BeginOf(hist, |hist|, r[|hist|])
  {
    var k := if ev.eventType == StateUpdate then LastIndex(hist, UpdateOf(ev.layerId, ev.stateId)) else -1;
    var updated := if 0 <= k then hist[k := hist[k].(frameRange := Int2(hist[k].frameRange.x, frameIndex))] else hist;
    var l := if ev.eventType != StateEnter then LastIndex(updated, EnterOf(ev.layerId, ev.stateId)) else -1;
    var aehd := NewAnimatorEventHistory(ev, frameIndex);
    var aehd := if 0 <= l then aehd.(beginHistoryIndex := l) else aehd;
    if k < 0 then updated + [aehd] else updated
  }

  /**
   * The begin index of entry h, stored at index j of hist: -1 for a
   * StateEnter; otherwise the last StateEnter of h's layer and state before
   * j, or -1 when there is none.
   */
  predicate BeginOf(hist: seq<AnimatorEventHistoryData>, j: int, h: AnimatorEventHistoryData)
    requires 0 <= j <= |hist|
  {
    if h.eventType == StateEnter then h.beginHistoryIndex == -1
    else
      && -1 <= h.beginHistoryIndex < j
      && (0 <= h.beginHistoryIndex ==> EnterOf(h.layerId, h.stateId)(hist[h.beginHistoryIndex]))
      && (forall i :: h.beginHistoryIndex < i < j ==> !EnterOf(h.layerId, h.stateId)(hist[i]))
  }

  /** Every entry's begin index is the last StateEnter of its layer and state before it. */
  predicate BeginLinks(hist: seq<AnimatorEventHistoryData>)
  {
    forall j :: 0 <= j < |hist| ==> BeginOf(hist, j, hist[j])
  }

  /** No two StateUpdate entries share a layer and a state. */
  predicate UniqueUpdates(hist: seq<AnimatorEventHistoryData>)
  {
    forall i, j :: 0 <= i < j < |hist| && hist[i].eventType == StateUpdate && hist[j].eventType == StateUpdate ==>
      hist[i].layerId != hist[j].layerId || hist[i].stateId != hist[j].stateId
  }

  /** Stretching an entry's frame range keeps every begin index. */
  lemma StretchedBeginLinks(hist: seq<AnimatorEventHistoryData>, k: nat, frameIndex: int)
    requires BeginLinks(hist) && k < |hist|
    ensures BeginLinks(hist[k := hist[k].(frameRange := Int2(hist[k].frameRange.x, frameIndex))])
  {
    var r := hist[k := hist[k].(frameRange := Int2(hist[k].frameRange.x, frameIndex))];
    forall j | 0 <= j < |r|
      ensures BeginOf(r, j, r[j])
    {
      assert BeginOf(hist, j, hist[j]);
      var enter := EnterOf(hist[j].layerId, hist[j].stateId);
      assert forall i :: 0 <= i < |r| ==> enter(r[i]) == enter(hist[i]);
    }
  }

  /** Appending an entry whose begin index is right keeps every begin index. */
  lemma AppendedBeginLinks(hist: seq<AnimatorEventHistoryData>, h: AnimatorEventHistoryData)
    requires BeginLinks(hist) && BeginOf(hist, |hist|, h)
    ensures BeginLinks(hist + [h])
  {
    var r := hist + [h];
    forall j | 0 <= j < |r|
      ensures BeginOf(r, j, r[j])
    {
      if j < |hist| {
        assert BeginOf(hist, j, hist[j]);
      } else {
        assert BeginOf(hist, |hist|, h);
      }
    }
  }

  /** Recording one event keeps every begin index right. */
  lemma RecordedAnimatorEventBegins(hist: seq<AnimatorEventHistoryData>, ev: AnimatorEvent, frameIndex: int)
    requires BeginLinks(hist)
    ensures BeginLinks(RecordedAnimatorEvent(hist, ev, frameIndex))
  {
    var r := RecordedAnimatorEvent(hist, ev, frameIndex);
    if |r| == |hist| {
      StretchedBeginLinks(hist, LastIndex(hist, UpdateOf(ev.layerId, ev.stateId)), frameIndex);
    } else {
      assert r == hist + [r[|hist|]];
      AppendedBeginLinks(hist, r[|hist|]);
    }
  }

  /** Recording one event never adds a second StateUpdate entry for a layer and state. */
  lemma RecordedAnimatorEventUnique(hist: seq<AnimatorEventHistoryData>, ev: AnimatorEvent, frameIndex: int)
    requires UniqueUpdates(hist)
    ensures UniqueUpdates(RecordedAnimatorEvent(hist, ev, frameIndex))
  {
    var r := RecordedAnimatorEvent(hist, ev, frameIndex);
    if |r| != |hist| && ev.eventType == StateUpdate {
      assert forall j :: 0 <= j < |hist| ==> !UpdateOf(ev.layerId, ev.stateId)(hist[j]);
      assert forall j :: 0 <= j < |hist| ==> r[j] == hist[j];
    }
  }

  /** Recording one event keeps both invariants. */
  lemma RecordedAnimatorEventLinks(hist: seq<AnimatorEventHistoryData>, ev: AnimatorEvent, frameIndex: int)
    requires BeginLinks(hist) && UniqueUpdates(hist)
    ensures BeginLinks(RecordedAnimatorEvent(hist, ev, frameIndex))
    ensures UniqueUpdates(RecordedAnimatorEvent(hist, ev, frameIndex))
  {
    RecordedAnimatorEventBegins(hist, ev, frameIndex);
    RecordedAnimatorEventUnique(hist, ev, frameIndex);
  }

  /** RecordAnimatorEvents: every event emitted this frame, in order. */
  function RecordedAnimatorEvents(hist: seq<AnimatorEventHistoryData>, evs: seq<AnimatorEvent>, frameIndex: int): seq<AnimatorEventHistoryData>
  {
    if evs == [] then hist
    else RecordedAnimatorEvent(RecordedAnimatorEvents(hist, evs[..|evs| - 1], frameIndex), evs[|evs| - 1], frameIndex)
  }

  lemma {:induction false} RecordedAnimatorEventsLinks(hist: seq<AnimatorEventHistoryData>, evs: seq<AnimatorEvent>, frameIndex: int)
    requires BeginLinks(hist) && UniqueUpdates(hist)
    ensures BeginLinks(RecordedAnimatorEvents(hist, evs, frameIndex))
    ensures UniqueUpdates(RecordedAnimatorEvents(hist, evs, frameIndex))
  {
    if evs != [] {
      RecordedAnimatorEventsLinks(hist, evs[..|evs| - 1], frameIndex);
      RecordedAnimatorEventLinks(RecordedAnimatorEvents(hist, evs[..|evs| - 1], frameIndex), evs[|evs| - 1], frameIndex);
    }
  }

  // ---------------------------------------------------------------- animation events

  /** RecordAnimationEvents: one entry per animation event emitted this frame, in order, tagged with the frame. */
  function RecordedAnimationEvents(hist: seq<AnimationEventHistoryData>, evs: seq<AnimationEvent>, frameIndex: int)
    : (r: seq<AnimationEventHistoryData>)
    ensures |r| == |hist| + |evs| && r[..|hist|] == hist
    ensures forall i :: 0 <= i < |evs| ==> r[|hist| + i] == NewAnimationEventHistory(evs[i], frameIndex)
  {
    if evs == [] then hist
    else RecordedAnimationEvents(hist, evs[..|evs| - 1], frameIndex) + [NewAnimationEventHistory(evs[|evs| - 1], frameIndex)]
  }

  /** Animation event entries are in frame order and tagged with frames before `next`. */
  predicate InFrameOrder(hist: seq<AnimationEventHistoryData>, next: int)
  {
    (forall i, j :: 0 <= i < j < |hist| ==> hist[i].frameIndex <= hist[j].frameIndex) &&
    (forall i :: 0 <= i < |hist| ==> hist[i].frameIndex < next)
  }

  lemma RecordedAnimationEventsOrdered(hist: seq<AnimationEventHistoryData>, evs: seq<AnimationEvent>, frameIndex: int)
    requires InFrameOrder(hist, frameIndex)
    ensures InFrameOrder(RecordedAnimationEvents(hist, evs, frameIndex), frameIndex + 1)
  {
    var r := RecordedAnimationEvents(hist, evs, frameIndex);
    assert forall i :: 0 <= i < |hist| ==> r[i] == hist[i];
    assert forall i :: |hist| <= i < |r| ==> r[i].frameIndex == frameIndex by {
      forall i | |hist| <= i < |r|
        ensures r[i].frameIndex == frameIndex
      {
        assert r[|hist| + (i - |hist|)] == NewAnimationEventHistory(evs[i - |hist|], frameIndex);
      }
    }
  }

  // ---------------------------------------------------------------- one frame

  /**
   * The entity's buffers the recorder reads in one frame. A missing buffer
   * is None (for the two event buffers: false), and the step that reads it
   * is skipped.
   */
  datatype FrameInput = FrameInput(
    animations: Option<seq<AnimationToProcess>>, layers: Option<seq<AnimatorLayer>>,
    hasAnimationEvents: bool, hasAnimatorEvents: bool)

  predicate ValidInput(input: FrameInput)
  {
    input.layers.Some? ==> ValidLayers(input.layers.value)
  }

  /**
   * OnUpdate at frame counter `frame`: the frame is marked recorded, then
   * the animator states and transitions, the animation events, the
   * animator events and the animations are recorded, and the events
   * emitted this frame are forgotten.
   */
  function RecordedFrame(r: Recording, frame: int, input: FrameInput): (n: Recording)
    requires ValidInput(input)
    ensures n.fpsMode == r.fpsMode && n.lastRecordedFrame == frame
    ensures n.emittedAnimationEvents == [] && n.emittedAnimatorEvents == []
    ensures input.layers.None? ==>
      n.controllerStateHistory == r.controllerStateHistory && n.controllerTransitionHistory == r.controllerTransitionHistory
    ensures !input.hasAnimationEvents ==> n.animationEventHistory == r.animationEventHistory
    ensures !input.hasAnimatorEvents ==> n.animatorEventHistory == r.animatorEventHistory
    ensures input.animations.None? ==> n.animHistory == r.animHistory
  {
    var states := if input.layers.Some?
      then RecordedLayers(r.controllerStateHistory, r.controllerTransitionHistory, input.layers.value, frame)
      else (r.controllerStateHistory, r.controllerTransitionHistory);
    var animationEvents := if input.hasAnimationEvents
      then RecordedAnimationEvents(r.animationEventHistory, r.emittedAnimationEvents, frame)
      else r.animationEventHistory;
    var animatorEvents := if input.hasAnimatorEvents
      then RecordedAnimatorEvents(r.animatorEventHistory, r.emittedAnimatorEvents, frame)
      else r.animatorEventHistory;
    var animations := if input.animations.Some?
      then RecordedAnimations(r.animHistory, input.animations.value, frame)
      else r.animHistory;
    Recording(r.fpsMode, frame, animations, states.0, states.1, animationEvents, animatorEvents, [], [])
  }

  /** The invariants a recording keeps from frame to frame, given the next frame counter. */
  predicate Consistent(r: Recording, next: int)
  {
    && Chronicled(r.animHistory)
    && Spanned(r.controllerStateHistory)
    && TransitionsLinked(r.controllerStateHistory, r.controllerTransitionHistory)
    && InFrameOrder(r.animationEventHistory, next)
    && BeginLinks(r.animatorEventHistory) && UniqueUpdates(r.animatorEventHistory)
  }

  /** An empty recording is consistent at any frame. */
  lemma EmptyConsistent(r: Recording, next: int)
    requires r.animHistory == [] && r.controllerStateHistory == [] && r.controllerTransitionHistory == []
    requires r.animationEventHistory == [] && r.animatorEventHistory == []
    ensures Consistent(r, next)
  {
  }

  /** Every recorded frame keeps the recording consistent. */
  lemma RecordedFrameConsistent(r: Recording, frame: int, input: FrameInput)
    requires ValidInput(input) && Consistent(r, frame)
    ensures Consistent(RecordedFrame(r, frame, input), frame + 1)
  {
    if input.layers.Some? {
      RecordedLayersLinked(r.controllerStateHistory, r.controllerTransitionHistory, input.layers.value, frame);
    }
    RecordedAnimationEventsOrdered(r.animationEventHistory, r.emittedAnimationEvents, frame);
    RecordedAnimatorEventsLinks(r.animatorEventHistory, r.emittedAnimatorEvents, frame);
    if input.animations.Some? {
      RecordedAnimationsChronicled(r.animHistory, input.animations.value, frame);
    }
  }
}

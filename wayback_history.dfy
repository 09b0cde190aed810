// The records the wayback machine appends to its history lists: one per
// animation that played over a span of frames, per animator state, per
// transition, per animator event and per animation event, together with the
// components they are built from.
module WaybackHistory {
  import opened Wrappers
  import opened AnimatorRuntime

  /** int2: a pair of frame indices, first and last. */
  datatype Int2 = Int2(x: int, y: int)

  /** float2. */
  datatype Real2 = Real2(x: real, y: real)

  /** A Hash128 value; `new Hash128()` is zero. */
  type Hash128 = nat

  const ZeroHash: Hash128 := 0

  /** One recorded value of an animation channel, tagged with its frame. */
  datatype HistoryValue = HistoryValue(value: real, frameIndex: int)

  /**
   * The fields of AnimationToProcessComponent the recorder reads. The
   * animation and the avatar mask are blob references that may not be
   * created; when created they carry their hash.
   */
  datatype AnimationToProcess = AnimationToProcess(
    animation: Option<Hash128>, avatarMask: Option<Hash128>, blendMode: int,
    layerWeight: real, layerIndex: int, motionId: u32, weight: real, time: real)

  datatype AnimationHistoryData = AnimationHistoryData(
    frameSpan: Int2, animationHash: Hash128, avatarMaskHash: Hash128, blendMode: int,
    layerWeight: real, layerIndex: int, motionId: u32,
    historyWeights: seq<HistoryValue>, historyAnimTime: seq<HistoryValue>)

  /** The hash of a blob reference, zero when it is not created. */
  function BlobHash(blob: Option<Hash128>): (h: Hash128)
    ensures blob.None? ==> h == ZeroHash
  {
    if blob.Some? then blob.value else ZeroHash
  }

  /**
   * The AnimationHistoryData constructor: a one-frame span at frameIndex,
   * the identity of the animation copied, both histories empty.
   */
  function NewAnimationHistory(atp: AnimationToProcess, frameIndex: int): (e: AnimationHistoryData)
    ensures e.frameSpan == Int2(frameIndex, frameIndex)
    ensures e.historyWeights == [] && e.historyAnimTime == []
    ensures atp.animation.None? ==> e.animationHash == ZeroHash
    ensures atp.avatarMask.None? ==> e.avatarMaskHash == ZeroHash
  {
    AnimationHistoryData(Int2(frameIndex, frameIndex), BlobHash(atp.animation), BlobHash(atp.avatarMask),
      atp.blendMode, atp.layerWeight, atp.layerIndex, atp.motionId, [], [])
  }

  /** What ComputeHash feeds to xxHash3, in order. */
  datatype HashInputs = HashInputs(
    animationHash: Hash128, avatarMaskHash: Hash128, blendMode: int,
    layerIndex: int, layerWeight: real, motionId: u32)

  /**
   * ComputeHash, with xxHash3 taken as collision-free: two entries hash
   * alike exactly when these six inputs agree.
   */
  function ComputeHash(e: AnimationHistoryData): HashInputs
  {
    HashInputs(e.animationHash, e.avatarMaskHash, e.blendMode, e.layerIndex, e.layerWeight, e.motionId)
  }

  /** The hash ignores the span and both histories. */
  lemma HashIgnoresHistory(e: AnimationHistoryData, span: Int2, weights: seq<HistoryValue>, times: seq<HistoryValue>)
    ensures ComputeHash(e.(frameSpan := span, historyWeights := weights, historyAnimTime := times)) == ComputeHash(e)
  {
  }

  /**
   * The first index at or after `from` whose value is tagged with a frame at
   * or after frameIndex, or |hvs| when there is none.
   */
  function FirstAtOrAfter(hvs: seq<HistoryValue>, frameIndex: int, from: nat): (k: nat)
    requires from <= |hvs|
    ensures from <= k <= |hvs|
    ensures k < |hvs| ==> hvs[k].frameIndex >= frameIndex
    ensures forall j :: from <= j < k ==> hvs[j].frameIndex < frameIndex
    decreases |hvs| - from
  {
    if from == |hvs| then from
    else if hvs[from].frameIndex >= frameIndex then from
    else FirstAtOrAfter(hvs, frameIndex, from + 1)
  }

  /**
   * The value GetHistoryValueForFrame reports: 0 for an empty list, else the
   * first value tagged at or after the frame, else the last value.
   */
  function HistoryValueForFrame(hvs: seq<HistoryValue>, frameIndex: int): real
  {
    if hvs == [] then 0.0
    else
      var k := FirstAtOrAfter(hvs, frameIndex, 0);
      if k < |hvs| then hvs[k].value else hvs[|hvs| - 1].value
  }

  /** GetHistoryValueForFrame: the forward scan that stops at the first value tagged at or after the frame. */
  method GetHistoryValueForFrame(hvs: seq<HistoryValue>, frameIndex: int) returns (rv: real)
    ensures rv == HistoryValueForFrame(hvs, frameIndex)
  {
    if |hvs| == 0 {
      return 0.0;
    }
    rv := hvs[0].value;
    var i := 0;
    while i < |hvs|
      invariant 0 <= i <= |hvs|
      invariant FirstAtOrAfter(hvs, frameIndex, 0) == FirstAtOrAfter(hvs, frameIndex, i)
      invariant i > 0 ==> rv == hvs[i - 1].value
    {
      var hv := hvs[i];
      rv := hv.value;
      if hv.frameIndex >= frameIndex {
        return;
      }
      i := i + 1;
    }
  }

  /** A history whose values are tagged with consecutive frames from `first` on. */
  predicate Consecutive(hvs: seq<HistoryValue>, first: int)
  {
    forall j :: 0 <= j < |hvs| ==> hvs[j].frameIndex == first + j
  }

  /**
   * On a history recorded once per frame from `first` on, the value for a
   * frame it covers is the one recorded at that frame; before it comes the
   * first value and after it the last.
   */
  lemma {:induction false} ConsecutiveValue(hvs: seq<HistoryValue>, first: int, frameIndex: int)
    requires Consecutive(hvs, first) && hvs != []
    ensures first <= frameIndex < first + |hvs| ==> HistoryValueForFrame(hvs, frameIndex) == hvs[frameIndex - first].value
    ensures frameIndex < first ==> HistoryValueForFrame(hvs, frameIndex) == hvs[0].value
    ensures first + |hvs| <= frameIndex ==> HistoryValueForFrame(hvs, frameIndex) == hvs[|hvs| - 1].value
  {
    var k := FirstAtOrAfter(hvs, frameIndex, 0);
    if first <= frameIndex < first + |hvs| {
      var m := frameIndex - first;
      assert hvs[m].frameIndex >= frameIndex;
      assert k == m;
    } else if frameIndex < first {
      assert hvs[0].frameIndex >= frameIndex;
    } else {
      assert forall j :: 0 <= j < |hvs| ==> hvs[j].frameIndex < frameIndex;
    }
  }

  /** AnimatorControllerEventComponent.EventType. */
  datatype EventType = StateEnter | StateExit | StateUpdate

  /** AnimatorControllerEventComponent, as emitted by the controller this frame. */
  datatype AnimatorEvent = AnimatorEvent(eventType: EventType, layerId: int, stateId: int, timeInState: real)

  datatype AnimatorEventHistoryData = AnimatorEventHistoryData(
    layerId: int, stateId: int, beginHistoryIndex: int, frameRange: Int2, eventType: EventType)

  /**
   * The AnimatorEventHistoryData constructor: the event's type, layer and
   * state over a one-frame range, with no begin event yet (index -1).
   */
  function NewAnimatorEventHistory(ev: AnimatorEvent, frameIndex: int): (h: AnimatorEventHistoryData)
    ensures h.frameRange == Int2(frameIndex, frameIndex) && h.beginHistoryIndex == -1
    ensures h.eventType == ev.eventType && h.layerId == ev.layerId && h.stateId == ev.stateId
  {
    AnimatorEventHistoryData(ev.layerId, ev.stateId, -1, Int2(frameIndex, frameIndex), ev.eventType)
  }

  /** AnimationEventComponent: the fields the history copies. */
  datatype AnimationEvent = AnimationEvent(nameHash: u32, floatParam: real, intParam: int, stringParamHash: u32)

  datatype AnimationEventHistoryData = AnimationEventHistoryData(
    frameIndex: int, nameHash: u32, floatParam: real, intParam: int, stringParamHash: u32)

  /** The AnimationEventHistoryData constructor: the event's parameters tagged with the frame. */
  function NewAnimationEventHistory(ev: AnimationEvent, frameIndex: int): (h: AnimationEventHistoryData)
    ensures h.frameIndex == frameIndex && h.nameHash == ev.nameHash && h.intParam == ev.intParam
    ensures h.floatParam == ev.floatParam && h.stringParamHash == ev.stringParamHash
  {
    AnimationEventHistoryData(frameIndex, ev.nameHash, ev.floatParam, ev.intParam, ev.stringParamHash)
  }

  /**
   * The parts of AnimatorControllerLayerComponent the recorder reads: the
   * layer index, the number of transitions of each state of that layer in
   * the controller blob (so the number of states is their count), and the
   * runtime state of the layer.
   */
  datatype AnimatorLayer = AnimatorLayer(
    layerIndex: int, transitionCounts: seq<nat>,
    srcState: StateData, dstState: StateData, activeTransition: TransitionData)

  /**
   * The blob lookups the recorder makes are in range: a recorded state id is
   * a state of the layer, and an active transition is one of the source
   * state's transitions.
   */
  predicate ValidLayer(layer: AnimatorLayer)
  {
    layer.srcState.id < |layer.transitionCounts| && layer.dstState.id < |layer.transitionCounts| &&
    (layer.activeTransition.id >= 0 ==>
      0 <= layer.srcState.id && layer.activeTransition.id < layer.transitionCounts[layer.srcState.id])
  }

  datatype AnimatorControllerStateHistoryData = AnimatorControllerStateHistoryData(
    frameSpan: Int2, layerIndex: int, stateId: int, motionId: u32, weight: real)

  /**
   * The state-history constructor: a one-frame span at frameIndex, full
   * weight, the state and motion given and the layer's index. The state id
   * must name a state of the layer, which the blob lookup reads.
   */
  function NewStateHistory(layer: AnimatorLayer, stateId: int, motionId: u32, frameIndex: int): (h: AnimatorControllerStateHistoryData)
    requires 0 <= stateId < |layer.transitionCounts|
    ensures h.frameSpan == Int2(frameIndex, frameIndex) && h.weight == 1.0
    ensures h.stateId == stateId && h.motionId == motionId && h.layerIndex == layer.layerIndex
  {
    AnimatorControllerStateHistoryData(Int2(frameIndex, frameIndex), layer.layerIndex, stateId, motionId, 1.0)
  }

  datatype AnimatorControllerTransitionHistoryData = AnimatorControllerTransitionHistoryData(
    frameSpan: Int2, srcStateId: int, dstStateId: int, transitionId: int, layerIndex: int,
    weightRange: Real2, srcStateDataIndex: int, dstStateDataIndex: int)
}

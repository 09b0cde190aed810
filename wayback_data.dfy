// WaybackMachineData: the recording the wayback machine builds. It holds
// five history lists, the animation and animator events emitted during the
// current frame, the last frame recorded and the playback frame rate.
module WaybackData {
  import opened WaybackHistory

  datatype FPSMode = FPS120 | FPS60 | FPS30

  /** The frame rate each mode stands for. */
  function FramesPerSecond(mode: FPSMode): (fps: nat)
    ensures fps == 30 || fps == 60 || fps == 120
    ensures mode == FPS60 <==> fps == 60
  {
    match mode
    case FPS30 => 30
    case FPS60 => 60
    case FPS120 => 120
  }

  /** GetFrameDuration: the length of one frame in seconds, the inverse of the frame rate. */
  function GetFrameDuration(mode: FPSMode): (d: real)
    ensures d > 0.0 && d * FramesPerSecond(mode) as real == 1.0
  {
    1.0 / FramesPerSecond(mode) as real
  }

  /** UnsafeUtility.SizeOf of each element type of the lists. */
  datatype ElementSizes = ElementSizes(
    animation: nat, historyValue: nat, state: nat, transition: nat, animationEvent: nat, animatorEvent: nat)

  /** The number of history values the animation entries hold, both channels together. */
  function HistoryValueCount(ahs: seq<AnimationHistoryData>): nat
  {
    if ahs == [] then 0
    else HistoryValueCount(ahs[..|ahs| - 1]) + |ahs[|ahs| - 1].historyWeights| + |ahs[|ahs| - 1].historyAnimTime|
  }

  /** The contents of a WaybackMachineData, field by field. */
  datatype Recording = Recording(
    fpsMode: FPSMode, lastRecordedFrame: int,
    animHistory: seq<AnimationHistoryData>,
    controllerStateHistory: seq<AnimatorControllerStateHistoryData>,
    controllerTransitionHistory: seq<AnimatorControllerTransitionHistoryData>,
    animationEventHistory: seq<AnimationEventHistoryData>,
    animatorEventHistory: seq<AnimatorEventHistoryData>,
    emittedAnimationEvents: seq<AnimationEvent>,
    emittedAnimatorEvents: seq<AnimatorEvent>)

  /** The bytes a recording's lists take: each list's length times its element size, and every history value. */
  function DataSize(r: Recording, sizes: ElementSizes): int
  {
    |r.animHistory| * sizes.animation + HistoryValueCount(r.animHistory) * sizes.historyValue +
    |r.controllerStateHistory| * sizes.state + |r.controllerTransitionHistory| * sizes.transition +
    |r.animationEventHistory| * sizes.animationEvent + |r.animatorEventHistory| * sizes.animatorEvent
  }

  /** A recording with every history empty takes no space. */
  lemma EmptyDataSize(r: Recording, sizes: ElementSizes)
    requires r.animHistory == [] && r.controllerStateHistory == [] && r.controllerTransitionHistory == []
    requires r.animationEventHistory == [] && r.animatorEventHistory == []
    ensures DataSize(r, sizes) == 0
  {
  }

  class WaybackMachineData {
    var fpsMode: FPSMode
    var lastRecordedFrame: int
    var animHistory: seq<AnimationHistoryData>
    var controllerStateHistory: seq<AnimatorControllerStateHistoryData>
    var controllerTransitionHistory: seq<AnimatorControllerTransitionHistoryData>
    var animationEventHistory: seq<AnimationEventHistoryData>
    var animatorEventHistory: seq<AnimatorEventHistoryData>
    var emittedAnimationEvents: seq<AnimationEvent>
    var emittedAnimatorEvents: seq<AnimatorEvent>

    function Contents(): Recording
      reads this
    {
      Recording(fpsMode, lastRecordedFrame, animHistory, controllerStateHistory, controllerTransitionHistory,
        animationEventHistory, animatorEventHistory, emittedAnimationEvents, emittedAnimatorEvents)
    }

    /** A default WaybackMachineData: the first frame-rate mode, frame 0 and no entries. */
    constructor ()
      ensures Contents() == Recording(FPS120, 0, [], [], [], [], [], [], [])
    {
      fpsMode := FPS120;
      lastRecordedFrame := 0;
      animHistory := [];
      controllerStateHistory := [];
      controllerTransitionHistory := [];
      animationEventHistory := [];
      animatorEventHistory := [];
      emittedAnimationEvents := [];
      emittedAnimatorEvents := [];
    }

    /** Construct: 60 frames per second and all seven lists new and empty. */
    method Construct()
      modifies this
      ensures Contents() == Recording(FPS60, old(lastRecordedFrame), [], [], [], [], [], [], [])
    {
      fpsMode := FPS60;
      animHistory := [];
      animationEventHistory := [];
      animatorEventHistory := [];
      controllerStateHistory := [];
      controllerTransitionHistory := [];
      emittedAnimationEvents := [];
      emittedAnimatorEvents := [];
    }

    /** EndFrame: forgets the events emitted this frame and nothing else. */
    method EndFrame()
      modifies this
      ensures Contents() == old(Contents()).(emittedAnimationEvents := [], emittedAnimatorEvents := [])
    {
      emittedAnimationEvents := [];
      emittedAnimatorEvents := [];
    }

    /**
     * Clear: frame 0, every list empty, the frame-rate mode kept, so the
     * recording then takes no space whatever the element sizes.
     */
    method Clear()
      modifies this
      ensures Contents() == Recording(old(fpsMode), 0, [], [], [], [], [], [], [])
      ensures forall sizes :: DataSize(Contents(), sizes) == 0
    {
      lastRecordedFrame := 0;
      animHistory := [];
      animationEventHistory := [];
      animatorEventHistory := [];
      controllerStateHistory := [];
      controllerTransitionHistory := [];
      EndFrame();
      forall sizes: ElementSizes
        ensures DataSize(Contents(), sizes) == 0
      {
        EmptyDataSize(Contents(), sizes);
      }
    }

    /** GetDataSize: sums the list sizes, visiting every animation entry for its two histories. */
    method GetDataSize(sizes: ElementSizes) returns (rv: int)
      ensures rv == DataSize(Contents(), sizes)
    {
      rv := 0;
      rv := rv + |animHistory| * sizes.animation;
      var i := 0;
      while i < |animHistory|
        invariant 0 <= i <= |animHistory|
        invariant rv == |animHistory| * sizes.animation + HistoryValueCount(animHistory[..i]) * sizes.historyValue
      {
        var ah := animHistory[i];
        assert animHistory[..i + 1][..i] == animHistory[..i];
        rv := rv + |ah.historyWeights| * sizes.historyValue;
        rv := rv + |ah.historyAnimTime| * sizes.historyValue;
        i := i + 1;
      }
      assert animHistory[..i] == animHistory;
      rv := rv + |controllerStateHistory| * sizes.state;
      rv := rv + |controllerTransitionHistory| * sizes.transition;
      rv := rv + |animationEventHistory| * sizes.animationEvent;
      rv := rv + |animatorEventHistory| * sizes.animatorEvent;
    }
  }
}

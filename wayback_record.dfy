// WaybackMachineRecordSystem: once per frame it copies the animator states
// and transitions, the emitted events and the animations being played into
// the recording, then advances its frame counter and ends the frame.
module WaybackRecord {
  import opened Wrappers
  import opened AnimatorRuntime
  import opened WaybackHistory
  import opened WaybackData
  import opened WaybackRules

  class WaybackMachineRecordSystem {
    var frameCounter: int

    constructor ()
      ensures frameCounter == 0
    {
      frameCounter := 0;
    }

    /** OnStartRunning: recording starts again from frame 0. */
    method OnStartRunning()
      modifies this
      ensures frameCounter == 0
    {
      frameCounter := 0;
    }

    /** RecordAnimation: searches back for the entry to continue, appends one if there is none, and records one frame into it. */
    method RecordAnimation(atp: AnimationToProcess, data: WaybackMachineData, frameIndex: int)
      modifies data
      ensures data.Contents() == old(data.Contents()).(animHistory := RecordedAnimation(old(data.animHistory), atp, frameIndex))
    {
      ghost var before := data.Contents();
      var ahs := data.animHistory;
      var curHistory := NewAnimationHistory(atp, frameIndex);
      ghost var p := ContinuesAnimation(frameIndex, ComputeHash(curHistory));
      var foundIndex := -1;
      var k := |ahs| - 1;
      assert ahs[..k + 1] == ahs;
      while k >= 0
        invariant -1 <= k < |ahs|
        invariant LastIndex(ahs, p) == LastIndex(ahs[..k + 1], p)
        invariant data.Contents() == before
      {
        var ah := ahs[k];
        if ah.frameSpan.y + 1 != frameIndex {
          LastIndexSkip(ahs, p, k);
          k := k - 1;
          continue;
        }
        if ComputeHash(ah) == ComputeHash(curHistory) {
          LastIndexHit(ahs, p, k);
          foundIndex := k;
          break;
        }
        LastIndexSkip(ahs, p, k);
        k := k - 1;
      }
      assert foundIndex == AnimationSlot(ahs, atp, frameIndex);
      ghost var expected := RecordedAnimation(ahs, atp, frameIndex);
      if foundIndex < 0 {
        foundIndex := |ahs|;
        ahs := ahs + [curHistory];
      }
      assert expected == ahs[foundIndex := Extended(ahs[foundIndex], atp, frameIndex)];
      var historyElement := ahs[foundIndex];
      historyElement := historyElement.(frameSpan := Int2(historyElement.frameSpan.x, frameIndex));
      historyElement := historyElement.(historyWeights := historyElement.historyWeights + [HistoryValue(atp.weight, frameIndex)]);
      historyElement := historyElement.(historyAnimTime := historyElement.historyAnimTime + [HistoryValue(atp.time, frameIndex)]);
      data.animHistory := ahs[foundIndex := historyElement];
    }

    /** RecordAnimationEvents: when the entity has an animation event buffer, one entry per event emitted this frame. */
    method RecordAnimationEvents(hasBuffer: bool, data: WaybackMachineData)
      modifies data
      ensures data.Contents() == old(data.Contents()).(animationEventHistory :=
        if hasBuffer then RecordedAnimationEvents(old(data.animationEventHistory), old(data.emittedAnimationEvents), frameCounter)
        else old(data.animationEventHistory))
    {
      if !hasBuffer {
        return;
      }
      ghost var before := data.Contents();
      var animEvents := data.emittedAnimationEvents;
      for i := 0 to |animEvents|
        invariant data.Contents() ==
          before.(animationEventHistory := RecordedAnimationEvents(before.animationEventHistory, animEvents[..i], frameCounter))
      {
        assert animEvents[..i + 1][..i] == animEvents[..i];
        var ehd := NewAnimationEventHistory(animEvents[i], frameCounter);
        data.animationEventHistory := data.animationEventHistory + [ehd];
      }
      assert animEvents[..|animEvents|] == animEvents;
    }

    /** RecordAnimations: when the entity has an animation buffer, records each of its animations at the current frame. */
    method RecordAnimations(atps: Option<seq<AnimationToProcess>>, data: WaybackMachineData)
      modifies data
      ensures data.Contents() == old(data.Contents()).(animHistory :=
        if atps.Some? then RecordedAnimations(old(data.animHistory), atps.value, frameCounter) else old(data.animHistory))
    {
      if atps.None? {
        return;
      }
      ghost var before := data.Contents();
      var buffer := atps.value;
      for i := 0 to |buffer|
        invariant data.Contents() == before.(animHistory := RecordedAnimations(before.animHistory, buffer[..i], frameCounter))
      {
        assert buffer[..i + 1][..i] == buffer[..i];
        RecordAnimation(buffer[i], data, frameCounter);
      }
      assert buffer[..|buffer|] == buffer;
    }

    /** RecordAnimatorTransition: continues or starts the entry of the layer's active transition, if it has one. */
    method RecordAnimatorTransition(layer: AnimatorLayer, data: WaybackMachineData, si: int, di: int)
      requires ValidLayer(layer)
      modifies data
      ensures data.Contents() == old(data.Contents()).(controllerTransitionHistory :=
        RecordedTransition(old(data.controllerTransitionHistory), layer, frameCounter, si, di))
    {
      if layer.activeTransition.id < 0 {
        return;
      }
      ghost var before := data.Contents();
      // The blob lookup of the transition, which only the debug name reads.
      assert layer.activeTransition.id < layer.transitionCounts[layer.srcState.id];
      var progress := layer.activeTransition.normalizedDuration;
      var std := AnimatorControllerTransitionHistoryData(
        Int2(frameCounter, frameCounter), layer.srcState.id, layer.dstState.id, layer.activeTransition.id,
        layer.layerIndex, Real2(progress, progress), 0, 0);
      var cth := data.controllerTransitionHistory;
      ghost var p := ContinuesTransition(layer.srcState.id, layer.dstState.id, frameCounter, layer.layerIndex);
      var i := |cth| - 1;
      assert cth[..i + 1] == cth;
      while i >= 0
        invariant -1 <= i < |cth|
        invariant LastIndex(cth, p) == LastIndex(cth[..i + 1], p)
        invariant data.Contents() == before
      {
        var ct := cth[i];
        if ct.srcStateId == std.srcStateId && ct.dstStateId == std.dstStateId && ct.frameSpan.y + 1 == frameCounter && std.layerIndex == ct.layerIndex {
          LastIndexHit(cth, p, i);
          break;
        }
        LastIndexSkip(cth, p, i);
        i := i - 1;
      }
      if i < 0 {
        i := |cth|;
        cth := cth + [std];
      }
      var csv := cth[i];
      csv := csv.(frameSpan := Int2(csv.frameSpan.x, frameCounter));
      csv := csv.(weightRange := Real2(csv.weightRange.x, progress));
      csv := csv.(srcStateDataIndex := si, dstStateDataIndex := di);
      data.controllerTransitionHistory := cth[i := csv];
    }

    /** RecordAnimatorState: continues or starts the entry of one state of the layer and returns its index, or -1 for no state. */
    method RecordAnimatorState(layer: AnimatorLayer, stateId: int, motionId: u32, data: WaybackMachineData) returns (i: int)
      requires stateId < |layer.transitionCounts|
      modifies data
      ensures (data.controllerStateHistory, i) == RecordedState(old(data.controllerStateHistory), layer, stateId, motionId, frameCounter)
      ensures data.Contents() == old(data.Contents()).(controllerStateHistory := data.controllerStateHistory)
    {
      if stateId < 0 {
        return -1;
      }
      ghost var before := data.Contents();
      var shd := NewStateHistory(layer, stateId, motionId, frameCounter);
      var csh := data.controllerStateHistory;
      ghost var p := ContinuesState(stateId, layer.layerIndex, motionId, frameCounter);
      i := |csh| - 1;
      assert csh[..i + 1] == csh;
      while i >= 0
        invariant -1 <= i < |csh|
        invariant LastIndex(csh, p) == LastIndex(csh[..i + 1], p)
        invariant data.Contents() == before
      {
        var cs := csh[i];
        if cs.stateId == shd.stateId && cs.frameSpan.y + 1 == frameCounter && cs.layerIndex == shd.layerIndex && cs.motionId == shd.motionId {
          LastIndexHit(csh, p, i);
          break;
        }
        LastIndexSkip(csh, p, i);
        i := i - 1;
      }
      if i < 0 {
        i := |csh|;
        csh := csh + [shd];
      }
      var csv := csh[i];
      csv := csv.(frameSpan := Int2(csv.frameSpan.x, frameCounter));
      data.controllerStateHistory := csh[i := csv];
    }

    /** The body of the RecordAnimatorStates loop for one layer: its two states, then its transition. */
    method RecordAnimatorLayer(aclc: AnimatorLayer, data: WaybackMachineData)
      requires ValidLayer(aclc)
      modifies data
      ensures
        var recorded := RecordedLayer(old(data.controllerStateHistory), old(data.controllerTransitionHistory), aclc, frameCounter);
        data.Contents() == old(data.Contents()).(controllerStateHistory := recorded.0, controllerTransitionHistory := recorded.1)
    {
      var srcStateDataIndex := RecordAnimatorState(aclc, aclc.srcState.id, aclc.srcState.motionId, data);
      var dstStateDataIndex := RecordAnimatorState(aclc, aclc.dstState.id, aclc.dstState.motionId, data);
      RecordAnimatorTransition(aclc, data, srcStateDataIndex, dstStateDataIndex);
    }

    /** RecordAnimatorStates: when the entity has animator layers, records each layer's two states and its transition. */
    method RecordAnimatorStates(layers: Option<seq<AnimatorLayer>>, data: WaybackMachineData)
      requires layers.Some? ==> ValidLayers(layers.value)
      modifies data
      ensures layers.None? ==> data.Contents() == old(data.Contents())
      ensures layers.Some? ==>
        var recorded := RecordedLayers(old(data.controllerStateHistory), old(data.controllerTransitionHistory), layers.value, frameCounter);
        data.Contents() == old(data.Contents()).(controllerStateHistory := recorded.0, controllerTransitionHistory := recorded.1)
    {
      if layers.None? {
        return;
      }
      ghost var before := data.Contents();
      var aclcs := layers.value;
      for i := 0 to |aclcs|
        invariant
          var recorded := RecordedLayers(before.controllerStateHistory, before.controllerTransitionHistory, aclcs[..i], frameCounter);
          data.Contents() == before.(controllerStateHistory := recorded.0, controllerTransitionHistory := recorded.1)
      {
        assert aclcs[..i + 1][..i] == aclcs[..i];
        RecordAnimatorLayer(aclcs[i], data);
      }
      assert aclcs[..|aclcs|] == aclcs;
    }

    /** The first loop of RecordAnimatorEvents: stretches the last StateUpdate entry of the event's layer and state, if any, and returns its index. */
    method StretchUpdate(acec: AnimatorEvent, data: WaybackMachineData) returns (k: int)
      modifies data
      ensures k == LastIndex(old(data.animatorEventHistory), UpdateOf(acec.layerId, acec.stateId))
      ensures data.Contents() == old(data.Contents()).(animatorEventHistory :=
        if k < 0 then old(data.animatorEventHistory)
        else old(data.animatorEventHistory)[k := old(data.animatorEventHistory)[k].(frameRange :=
          Int2(old(data.animatorEventHistory)[k].frameRange.x, frameCounter))])
    {
      ghost var before := data.Contents();
      ghost var hist := data.animatorEventHistory;
      ghost var p := UpdateOf(acec.layerId, acec.stateId);
      k := |data.animatorEventHistory| - 1;
      assert hist[..k + 1] == hist;
      while k >= 0
        invariant -1 <= k < |hist|
        invariant LastIndex(hist, p) == LastIndex(hist[..k + 1], p)
        invariant data.Contents() == before
      {
        var hd := data.animatorEventHistory[k];
        if hd.stateId == acec.stateId && hd.layerId == acec.layerId && hd.eventType == StateUpdate {
          LastIndexHit(hist, p, k);
          data.animatorEventHistory := data.animatorEventHistory[k := hd.(frameRange := Int2(hd.frameRange.x, frameCounter))];
          return;
        }
        LastIndexSkip(hist, p, k);
        k := k - 1;
      }
    }

    /** The second loop of RecordAnimatorEvents: the index of the last StateEnter entry of the event's layer and state, or -1. */
    method FindBegin(acec: AnimatorEvent, data: WaybackMachineData) returns (l: int)
      ensures l == LastIndex(data.animatorEventHistory, EnterOf(acec.layerId, acec.stateId))
    {
      var hist := data.animatorEventHistory;
      ghost var p := EnterOf(acec.layerId, acec.stateId);
      l := |hist| - 1;
      assert hist[..l + 1] == hist;
      while l >= 0
        invariant -1 <= l < |hist|
        invariant LastIndex(hist, p) == LastIndex(hist[..l + 1], p)
      {
        var hd := hist[l];
        if hd.stateId == acec.stateId && hd.layerId == acec.layerId && hd.eventType == StateEnter {
          LastIndexHit(hist, p, l);
          return;
        }
        LastIndexSkip(hist, p, l);
        l := l - 1;
      }
    }

    /** One iteration of RecordAnimatorEvents: stretches the last matching StateUpdate entry or appends the event. */
    method RecordAnimatorEvent(acec: AnimatorEvent, data: WaybackMachineData)
      modifies data
      ensures data.Contents() == old(data.Contents()).(animatorEventHistory :=
        RecordedAnimatorEvent(old(data.animatorEventHistory), acec, frameCounter))
    {
      var aehd := NewAnimatorEventHistory(acec, frameCounter);
      var k := -1;
      if aehd.eventType == StateUpdate {
        k := StretchUpdate(acec, data);
      }
      if aehd.eventType != StateEnter {
        var l := FindBegin(acec, data);
        if l >= 0 {
          aehd := aehd.(beginHistoryIndex := l);
        }
      }
      if k < 0 {
        data.animatorEventHistory := data.animatorEventHistory + [aehd];
      }
    }

    /** RecordAnimatorEvents: when the entity has an animator event buffer, records each event emitted this frame. */
    method RecordAnimatorEvents(hasBuffer: bool, data: WaybackMachineData)
      modifies data
      ensures data.Contents() == old(data.Contents()).(animatorEventHistory :=
        if hasBuffer then RecordedAnimatorEvents(old(data.animatorEventHistory), old(data.emittedAnimatorEvents), frameCounter)
        else old(data.animatorEventHistory))
    {
      if !hasBuffer {
        return;
      }
      ghost var before := data.Contents();
      var acecs := data.emittedAnimatorEvents;
      for i := 0 to |acecs|
        invariant data.Contents() ==
          before.(animatorEventHistory := RecordedAnimatorEvents(before.animatorEventHistory, acecs[..i], frameCounter))
      {
        assert acecs[..i + 1][..i] == acecs[..i];
        RecordAnimatorEvent(acecs[i], data);
      }
      assert acecs[..|acecs|] == acecs;
    }

    /** The recording half of OnUpdate, at the current frame counter, ending with EndFrame. */
    method RecordFrame(data: WaybackMachineData, input: FrameInput)
      requires ValidInput(input)
      modifies data
      ensures data.Contents() == RecordedFrame(old(data.Contents()), frameCounter, input)
    {
      ghost var after := RecordedFrame(data.Contents(), frameCounter, input);
      data.lastRecordedFrame := frameCounter;
      RecordAnimatorStates(input.layers, data);
      assert data.controllerStateHistory == after.controllerStateHistory;
      assert data.controllerTransitionHistory == after.controllerTransitionHistory;
      RecordAnimationEvents(input.hasAnimationEvents, data);
      assert data.animationEventHistory == after.animationEventHistory;
      RecordAnimatorEvents(input.hasAnimatorEvents, data);
      assert data.animatorEventHistory == after.animatorEventHistory;
      RecordAnimations(input.animations, data);
      data.EndFrame();
    }

    /**
     * OnUpdate: one frame of recording, as RecordedFrame states it, after
     * which the frame counter moves on. A consistent recording stays
     * consistent.
     */
    method OnUpdate(data: WaybackMachineData, input: FrameInput)
      requires ValidInput(input)
      modifies this, data
      ensures frameCounter == old(frameCounter) + 1
      ensures data.Contents() == RecordedFrame(old(data.Contents()), old(frameCounter), input)
      ensures Consistent(old(data.Contents()), old(frameCounter)) ==> Consistent(data.Contents(), frameCounter)
    {
      ghost var before := data.Contents();
      if Consistent(before, frameCounter) {
        RecordedFrameConsistent(before, frameCounter, input);
      }
      RecordFrame(data, input);
      frameCounter := frameCounter + 1;
    }
  }
}

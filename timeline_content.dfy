// TimelineContent: the timeline view of the wayback machine. ComputeShapes
// rebuilds its shape lists from the recording with a BuildRectanglesJob, and
// the knob queries report the shapes under a horizontal position.
module TimelineView {
  import opened Wrappers
  import opened WaybackHistory
  import opened WaybackData
  import opened WaybackSettings
  import opened TimelinePortal
  import opened TimelineShapes
  import opened TimelineLayout

  /** The line ComputeEventLine would add for a StateUpdate event; the job never adds one. */
  datatype EventLine = EventLine(posMin: Real2, posMax: Real2, visible: bool)

  class TimelineContent {
    const timelinePortal: TimelinePortalData
    var recordedData: Option<Recording>
    var animHeaderHeight: real
    var eventsHeaderHeight: real
    var statesHeaderHeight: real
    var eventBarsCount: int
    var animBarsCount: int
    var stateBarsCount: int
    var contentRect: Rect
    var settings: WaybackMachineSettings

    var animationRects: seq<AnimationRect>
    var animatorStateShapes: seq<AnimatorStateRect>
    var animatorTransitionShapes: seq<AnimatorTransitionRect>
    var animationEventShapes: seq<EventShape>
    var animatorEventShapes: seq<EventShape>
    var animatorEventLines: seq<EventLine>
    var timelinePoints: seq<Real2>

    /** A view of the portal with no recording and no shapes. */
    constructor (timelinePortal: TimelinePortalData, contentRect: Rect, settings: WaybackMachineSettings)
      ensures this.timelinePortal == timelinePortal && this.contentRect == contentRect && this.settings == settings
      ensures recordedData == None && eventBarsCount == 0 && animBarsCount == 0 && stateBarsCount == 0
      ensures animationRects == [] && animatorStateShapes == [] && animatorTransitionShapes == []
      ensures animationEventShapes == [] && animatorEventShapes == [] && animatorEventLines == [] && timelinePoints == []
    {
      this.timelinePortal := timelinePortal;
      this.contentRect := contentRect;
      this.settings := settings;
      recordedData := None;
      animHeaderHeight, eventsHeaderHeight, statesHeaderHeight := 0.0, 0.0, 0.0;
      eventBarsCount, animBarsCount, stateBarsCount := 0, 0, 0;
      animationRects, animatorStateShapes, animatorTransitionShapes := [], [], [];
      animationEventShapes, animatorEventShapes, animatorEventLines, timelinePoints := [], [], [], [];
    }

    /** The shape lists and counts, as a layout whose last section starts at baseY. */
    function Shapes(baseY: real): Layout
      reads this
    {
      Layout(animationRects, animatorStateShapes, animatorTransitionShapes, animatorEventShapes,
        animationEventShapes, timelinePoints, eventBarsCount, animBarsCount, stateBarsCount, baseY)
    }

    /** The recording ComputeShapes lays out: one exists and it holds an animation record. */
    predicate HasHistory()
      reads this
    {
      recordedData.Some? && recordedData.value.animHistory != []
    }

    /**
     * ComputeShapes: every shape list cleared; without a recording holding
     * an animation record, nothing else happens. Otherwise a job over the
     * recording, the portal's frame mapping, the content rectangle, the
     * header heights and the settings lays the shapes out into the cleared
     * lists, starting from the current counts, and the lists and counts
     * are what it leaves.
     */
    method ComputeShapes() returns (ghost job: BuildRectanglesJob?)
      requires HasHistory() ==> timelinePortal.HasSpan() && FlagsBinary(settings) && Indexable(recordedData.value, settings)
      modifies this`animationRects, this`animatorStateShapes, this`animatorTransitionShapes
      modifies this`animationEventShapes, this`animatorEventShapes, this`animatorEventLines, this`timelinePoints
      modifies this`eventBarsCount, this`animBarsCount, this`stateBarsCount
      ensures animatorEventLines == []
      ensures !HasHistory() ==>
        animationRects == [] && animatorStateShapes == [] && animatorTransitionShapes == [] &&
        animationEventShapes == [] && animatorEventShapes == [] && timelinePoints == [] &&
        eventBarsCount == old(eventBarsCount) && animBarsCount == old(animBarsCount) && stateBarsCount == old(stateBarsCount)
      ensures HasHistory() ==>
        job != null && fresh(job) && JobOver(job) &&
        var top := job.AnimationsTop(eventBarsCount, stateBarsCount);
        job.LaidOut(Shapes(top), old(eventBarsCount), old(stateBarsCount), old(animBarsCount)) && Covered(Shapes(top))
    {
      if recordedData.None? || |recordedData.value.animHistory| == 0 {
        ClearShapes();
        return null;
      }
      job := RunJob();
    }

    /** The job's inputs are this view's recording, frame mapping, rectangle, settings and header heights. */
    predicate JobOver(job: BuildRectanglesJob)
      requires recordedData.Some?
      reads this, timelinePortal
    {
      job.wbData == recordedData.value && job.timelinePortal == timelinePortal.Mapping() &&
      job.contentRect == contentRect && job.settings == settings &&
      job.animHeaderHeight == animHeaderHeight && job.eventsHeaderHeight == eventsHeaderHeight &&
      job.statesHeaderHeight == statesHeaderHeight
    }

    /** The first step of ComputeShapes: every shape list and the event lines emptied. */
    method ClearShapes()
      modifies this`animationRects, this`animatorStateShapes, this`animatorTransitionShapes
      modifies this`animationEventShapes, this`animatorEventShapes, this`animatorEventLines, this`timelinePoints
      ensures animationRects == [] && animatorStateShapes == [] && animatorTransitionShapes == []
      ensures animationEventShapes == [] && animatorEventShapes == [] && animatorEventLines == [] && timelinePoints == []
    {
      animationRects := [];
      animationEventShapes := [];
      animatorEventShapes := [];
      animatorEventLines := [];
      animatorStateShapes := [];
      animatorTransitionShapes := [];
      timelinePoints := [];
    }

    /** ComputeShapes over a recording with history: the lists cleared, then a job's shapes and counts copied in. */
    method RunJob() returns (ghost job: BuildRectanglesJob)
      requires timelinePortal.HasSpan() && FlagsBinary(settings) && HasHistory() && Indexable(recordedData.value, settings)
      modifies this`animationRects, this`animatorStateShapes, this`animatorTransitionShapes
      modifies this`animationEventShapes, this`animatorEventShapes, this`timelinePoints
      modifies this`animatorEventLines, this`eventBarsCount, this`animBarsCount, this`stateBarsCount
      ensures animatorEventLines == [] && fresh(job) && JobOver(job)
      ensures var top := job.AnimationsTop(eventBarsCount, stateBarsCount);
        job.LaidOut(Shapes(top), old(eventBarsCount), old(stateBarsCount), old(animBarsCount)) && Covered(Shapes(top))
    {
      var j, laid := Lay();
      ghost var top := j.AnimationsTop(laid.eventBarsCount, laid.statesBarCount);
      assert laid.baseY == top;
      Adopt(laid);
      assert Shapes(top) == laid;
      job := j;
    }

    /** A job over the recording, set up from the current counts and run; laid is what it leaves. */
    method Lay() returns (job: BuildRectanglesJob, laid: Layout)
      requires timelinePortal.HasSpan() && FlagsBinary(settings) && HasHistory() && Indexable(recordedData.value, settings)
      ensures fresh(job) && JobOver(job) && laid == job.Contents()
      ensures job.LaidOut(laid, eventBarsCount, stateBarsCount, animBarsCount) && Covered(laid)
    {
      var start := Layout([], [], [], [], [], [], eventBarsCount, animBarsCount, stateBarsCount, 0.0);
      job := new BuildRectanglesJob(recordedData.value, timelinePortal.Mapping(), contentRect,
        animHeaderHeight, eventsHeaderHeight, statesHeaderHeight, settings, start);
      job.Execute();
      laid := job.Contents();
    }

    /**
     * Fills the cleared view from a layout: its lists and counts, and no
     * event lines, which the job never adds.
     */
    method Adopt(l: Layout)
      modifies this`animationRects, this`animatorStateShapes, this`animatorTransitionShapes
      modifies this`animationEventShapes, this`animatorEventShapes, this`animatorEventLines, this`timelinePoints
      modifies this`eventBarsCount, this`animBarsCount, this`stateBarsCount
      ensures Shapes(l.baseY) == l && animatorEventLines == []
    {
      ClearShapes();
      animationRects, animatorStateShapes, animatorTransitionShapes := l.animationShapes, l.animatorStateShapes, l.animatorTransitionShapes;
      animatorEventShapes, animationEventShapes, timelinePoints := l.animatorEventShapes, l.animationEventShapes, l.timelinePoints;
      eventBarsCount, animBarsCount, stateBarsCount := l.eventBarsCount, l.animBarCount, l.statesBarCount;
    }

    /** GetAnimationShapeIndicesForPos: the animation bars under posX. */
    method GetAnimationShapeIndicesForPos(posX: real) returns (outIndices: seq<Int2>)
      ensures outIndices == AnimationsUnder(animationRects, posX)
    {
      outIndices := GetAnimationShapeIndicesForPosBurst(animationRects, posX);
    }

    /** GetTransitionShapeIndicesForPos: the transition bars under posX. */
    method GetTransitionShapeIndicesForPos(posX: real) returns (outIndices: seq<Int4>)
      ensures outIndices == TransitionsUnder(animatorTransitionShapes, posX)
    {
      outIndices := GetTransitionShapeIndicesForPosBurst(animatorTransitionShapes, posX);
    }

    /** GetStateShapeIndicesForPos: the state bars under posX. */
    method GetStateShapeIndicesForPos(posX: real) returns (outIndices: seq<Int3>)
      ensures outIndices == StatesUnder(animatorStateShapes, posX)
    {
      outIndices := GetStateShapeIndicesForPosBurst(animatorStateShapes, posX);
    }

    /** GetAnimationEventShapeIndicesForPos: the animation-event markers under posX. */
    method GetAnimationEventShapeIndicesForPos(posX: real) returns (outIndices: seq<Int2>)
      ensures outIndices == EventsUnder(animationEventShapes, posX)
    {
      outIndices := GetAnimationEventShapeIndicesForPosBurst(animationEventShapes, posX);
    }

    /** GetAnimatorEventShapeIndicesForPos: the animator-event markers under posX, through the same filter. */
    method GetAnimatorEventShapeIndicesForPos(posX: real) returns (outIndices: seq<Int2>)
      ensures outIndices == EventsUnder(animatorEventShapes, posX)
    {
      outIndices := GetAnimationEventShapeIndicesForPosBurst(animatorEventShapes, posX);
    }
  }
}

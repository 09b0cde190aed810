// WaybackMachineSettings: what the timeline shows. The three sections are
// switched by int flags that the layout multiplies list lengths by.
module WaybackSettings {
  datatype RulerMode = Seconds | Frames

  datatype WaybackMachineSettings = WaybackMachineSettings(
    rulerMode: RulerMode, statesVisible: int, animationsVisible: int, eventsVisible: int,
    eventLabels: bool, animationWeightGraphs: bool, animationTimeGraphs: bool)

  /** The events section is shown; with 0/1 flags, exactly when its length multiplier is 1. */
  predicate IsEventsVisible(s: WaybackMachineSettings): (b: bool)
    ensures FlagsBinary(s) ==> (b <==> s.eventsVisible == 1)
  {
    s.eventsVisible != 0
  }

  /** The animations section is shown; with 0/1 flags, exactly when its length multiplier is 1. */
  predicate IsAnimationsVisible(s: WaybackMachineSettings): (b: bool)
    ensures FlagsBinary(s) ==> (b <==> s.animationsVisible == 1)
  {
    s.animationsVisible != 0
  }

  /** The states section is shown; with 0/1 flags, exactly when its length multiplier is 1. */
  predicate IsStatesVisible(s: WaybackMachineSettings): (b: bool)
    ensures FlagsBinary(s) ==> (b <==> s.statesVisible == 1)
  {
    s.statesVisible != 0
  }

  /** The three section flags are each 0 or 1, as the layout's multiplications need. */
  predicate FlagsBinary(s: WaybackMachineSettings)
  {
    0 <= s.statesVisible <= 1 && 0 <= s.animationsVisible <= 1 && 0 <= s.eventsVisible <= 1
  }

  /** MakeDefault: every section shown, the ruler in frames, event labels on and both graphs off. */
  function MakeDefault(): (s: WaybackMachineSettings)
    ensures IsEventsVisible(s) && IsAnimationsVisible(s) && IsStatesVisible(s) && FlagsBinary(s)
    ensures s.rulerMode == Frames && s.eventLabels && !s.animationWeightGraphs && !s.animationTimeGraphs
  {
    WaybackMachineSettings(Frames, 1, 1, 1, true, false, false)
  }

  /** The number of elements the layout visits for a section: a list's length times its flag. */
  function Shown(length: nat, flag: int): int
  {
    length * flag
  }

  /** With the flags 0 or 1, a section's count is its whole list when it is visible, and nothing otherwise. */
  lemma ShownByFlag(s: WaybackMachineSettings, length: nat)
    requires FlagsBinary(s)
    ensures Shown(length, s.eventsVisible) == if IsEventsVisible(s) then length else 0
    ensures Shown(length, s.statesVisible) == if IsStatesVisible(s) then length else 0
    ensures Shown(length, s.animationsVisible) == if IsAnimationsVisible(s) then length else 0
  {
  }
}

// TimelinePortalData: the window onto the recorded frames. It converts
// between frames, seconds and horizontal positions, places the knob and
// lays out the ruler's tick lines.
module TimelinePortal {
  import opened WaybackHistory

  /** `(int)` of a float: rounds toward zero. */
  function Truncate(r: real): (i: int)
    ensures (i as real) <= r < (i as real) + 1.0 || (i as real) - 1.0 < r <= (i as real)
    ensures r >= 0.0 ==> 0 <= i && (i as real) <= r
    ensures r <= 0.0 ==> i <= 0 && r <= (i as real)
    ensures r == r.Floor as real ==> i == r.Floor
  {
    if r >= 0.0 then r.Floor else -((-r).Floor)
  }

  /** math.ceil. */
  function Ceil(r: real): (i: int)
    ensures r <= (i as real) < r + 1.0
  {
    -((-r).Floor)
  }

  /** math.round: to the nearest integer, halves to the even one. */
  function Round(r: real): (i: int)
    ensures r - 0.5 <= (i as real) <= r + 0.5
    ensures r == (r.Floor as real) ==> i == r.Floor
  {
    var f := r.Floor;
    var frac := r - f as real;
    if frac < 0.5 then f else if frac > 0.5 then f + 1 else if f % 2 == 0 then f else f + 1
  }

  /** math.clamp(x, lo, hi) = max(lo, min(hi, x)). */
  function Clamp(x: real, lo: real, hi: real): (r: real)
    ensures lo <= hi ==> lo <= r <= hi
    ensures lo <= x <= hi ==> r == x
  {
    if lo > (if hi < x then hi else x) then lo else if hi < x then hi else x
  }

  predicate IsPowerOfTwo(n: int)
    decreases n
  {
    n == 1 || (n > 1 && n % 2 == 0 && IsPowerOfTwo(n / 2))
  }

  /** math.ceilpow2 for a positive int: the least power of two at least n (from `p` on). */
  function CeilPow2(n: int, p: int := 1): (r: int)
    requires n >= 1 && IsPowerOfTwo(p)
    ensures IsPowerOfTwo(r) && r >= n && r >= p
    ensures r == p || r < 2 * n
    decreases n - p
  {
    if p >= n then p else CeilPow2(n, 2 * p)
  }

  /** C#'s `/` on ints: the quotient rounded toward zero. */
  function Quotient(a: int, b: int): int
    requires b > 0
  {
    if a >= 0 then a / b else -((-a) / b)
  }

  /** The multiple of a positive step at or before x, rounded down. */
  lemma FloorStep(x: real, step: int)
    requires step >= 1
    ensures (x / step as real).Floor as real * step as real == ((x / step as real).Floor * step) as real
    ensures ((x / step as real).Floor * step) as real <= x < ((x / step as real).Floor * step + step) as real
  {
    var q := (x / step as real).Floor;
    var y := x / step as real;
    assert y * step as real == x;
    assert q as real <= y < q as real + 1.0;
    MulMonotone(q as real, y, step as real);
    MulMonotone(y, q as real + 1.0, step as real);
    assert (q + 1) as real * step as real == (q * step + step) as real;
  }

  /** Euclidean division is unique: x = q * m + r with 0 <= r < m fixes the remainder. */
  lemma ModUnique(x: int, m: int, q: int, r: int)
    requires m >= 1 && 0 <= r < m && x == q * m + r
    ensures x % m == r
  {
    var r' := x % m;
    var q' := x / m;
    assert x == q' * m + r' && 0 <= r' < m;
    assert (q - q') * m == r' - r;
    MulBounds(q - q', m);
  }

  lemma MultipleMod(q: int, step: int)
    requires step >= 1
    ensures (q * step) % step == 0
  {
    ModUnique(q * step, step, q, 0);
  }

  /** Adding the step keeps the remainder. */
  lemma ModStep(x: int, step: int)
    requires step >= 1
    ensures (x + step) % step == x % step
  {
    var q := x / step;
    assert x + step == (q + 1) * step + x % step;
    ModUnique(x + step, step, q + 1, x % step);
  }

  lemma MulBounds(m: int, step: int)
    requires step >= 1
    ensures m >= 1 ==> m * step >= step
    ensures m <= -1 ==> m * step <= -step
  {
  }

  /** A step of at least space / w frames spans at least `space` at width w per frame. */
  lemma SpacingCovered(w: real, step: int)
    requires w > 0.0 && TIMELINE_TICKS_MIN_SKIP_SPACE / w <= step as real
    ensures step as real * w >= TIMELINE_TICKS_MIN_SKIP_SPACE
  {
    var d := TIMELINE_TICKS_MIN_SKIP_SPACE / w;
    assert d * w == TIMELINE_TICKS_MIN_SKIP_SPACE;
    MulMonotone(d, step as real, w);
  }

  lemma MulMonotone(a: real, b: real, c: real)
    requires a <= b && c > 0.0
    ensures a * c <= b * c
    ensures a < b ==> a * c < b * c
  {
  }

  /** One ruler tick: where its line runs, whether it is a major tick and the frame it marks. */
  datatype VLineDef = VLineDef(majorTick: bool, lineFrom: Real2, lineTo: Real2, frameIndex: int)

  const TIMELINE_TICKS_MIN_SKIP_SPACE: real := 40.0

  /** Where frames fall along the content: the visible frame range spread over the content width. */
  datatype FrameMapping = FrameMapping(visibleRange: Real2, contentWidth: real)
  {
    predicate HasSpan()
    {
      visibleRange.y != visibleRange.x
    }

    function OneFrameWidth(): (w: real)
      requires HasSpan()
      ensures w * (visibleRange.y - visibleRange.x) == contentWidth
      ensures contentWidth > 0.0 && visibleRange.y > visibleRange.x ==> w > 0.0
    {
      contentWidth / (visibleRange.y - visibleRange.x)
    }

    function GetPosXForFrame(frameIndex: int): (x: real)
      requires HasSpan()
      ensures x == (frameIndex as real - visibleRange.x) * OneFrameWidth()
    {
      var oneFrameWidth := OneFrameWidth();
      var startOffset := visibleRange.x * oneFrameWidth;
      frameIndex as real * oneFrameWidth - startOffset
    }
  }

  class TimelinePortalData {
    var frameSizeInSec: real
    var frameRange: Real2
    var visibleRange: Real2
    var contentWidth: real
    var knobFrame: int
    var tickLines: seq<VLineDef>

    constructor (frameSizeInSec: real, frameRange: Real2, visibleRange: Real2, contentWidth: real)
      ensures this.frameSizeInSec == frameSizeInSec && this.frameRange == frameRange
      ensures this.visibleRange == visibleRange && this.contentWidth == contentWidth
      ensures knobFrame == 0 && tickLines == []
    {
      this.frameSizeInSec := frameSizeInSec;
      this.frameRange := frameRange;
      this.visibleRange := visibleRange;
      this.contentWidth := contentWidth;
      knobFrame := 0;
      tickLines := [];
    }

    /** The two fields that place frames along the content: what a job copying the portal works with. */
    function Mapping(): FrameMapping
      reads this`visibleRange, this`contentWidth
    {
      FrameMapping(visibleRange, contentWidth)
    }

    /** The visible frame span is not empty, so a frame has a width. */
    predicate HasSpan()
      reads this`visibleRange
    {
      visibleRange.y != visibleRange.x
    }

    /** OneFrameWidth: the content width shared out over the visible frames. */
    function OneFrameWidth(): (w: real)
      reads this`visibleRange, this`contentWidth
      requires HasSpan()
      ensures w * (visibleRange.y - visibleRange.x) == contentWidth
      ensures contentWidth > 0.0 && visibleRange.y > visibleRange.x ==> w > 0.0
    {
      Mapping().OneFrameWidth()
    }

    function GetPosXForFrame(frameIndex: int): (x: real)
      reads this`visibleRange, this`contentWidth
      requires HasSpan()
      ensures x == (frameIndex as real - visibleRange.x) * OneFrameWidth()
    {
      Mapping().GetPosXForFrame(frameIndex)
    }

    /** GetKnobPosX: where the knob is drawn; SetKnobFromPos at that position keeps a knob inside the recorded range. */
    function GetKnobPosX(): (x: real)
      reads this
      requires HasSpan()
      ensures contentWidth != 0.0 && frameRange.x <= knobFrame as real <= frameRange.y ==> KnobFor(x) == knobFrame
    {
      var x := GetPosXForFrame(knobFrame);
      if contentWidth != 0.0 && frameRange.x <= knobFrame as real <= frameRange.y then
        KnobAtFrame(this, knobFrame);
        x
      else
        x
    }

    /** GetTimeForPosX: the time of the fractional frame drawn at a position. */
    function GetTimeForPosX(xPos: real): (t: real)
      reads this
      requires HasSpan() && contentWidth != 0.0
      ensures frameSizeInSec != 0.0 ==> (t / frameSizeInSec - visibleRange.x) * OneFrameWidth() == xPos
    {
      var oneFrameWidth := OneFrameWidth();
      var startOffset := visibleRange.x * oneFrameWidth;
      var frame := (xPos + startOffset) / oneFrameWidth;
      assert oneFrameWidth != 0.0;
      assert frame * oneFrameWidth == xPos + startOffset;
      assert frameSizeInSec != 0.0 ==> frame * frameSizeInSec / frameSizeInSec == frame;
      frame * frameSizeInSec
    }

    /** GetFrameForTime: seconds to (fractional) frames. */
    function GetFrameForTime(t: real): (frame: real)
      reads this
      requires frameSizeInSec != 0.0
      ensures frame * frameSizeInSec == t
    {
      t / frameSizeInSec
    }

    /** GetTimeForFrame: frames to seconds. */
    function GetTimeForFrame(frame: real): (t: real)
      reads this
      ensures frameSizeInSec != 0.0 ==> t / frameSizeInSec == frame
    {
      frame * frameSizeInSec
    }

    /** GetFrameForPosX: the fractional frame drawn at a position. */
    function GetFrameForPosX(x: real): (frame: real)
      reads this
      requires HasSpan() && contentWidth != 0.0 && frameSizeInSec != 0.0
      ensures (frame - visibleRange.x) * OneFrameWidth() == x
    {
      GetFrameForTime(GetTimeForPosX(x))
    }

    /** The frame distance between ticks: the least power of two covering the minimum tick spacing. */
    function TickStep(): (step: int)
      reads this`visibleRange, this`contentWidth
      requires HasSpan() && OneFrameWidth() > 0.0
      ensures step >= 1 && IsPowerOfTwo(step)
      ensures step as real * OneFrameWidth() >= TIMELINE_TICKS_MIN_SKIP_SPACE
    {
      var d := TIMELINE_TICKS_MIN_SKIP_SPACE / OneFrameWidth();
      var n := Ceil(d);
      var step := CeilPow2(if n < 1 then 1 else n);
      SpacingCovered(OneFrameWidth(), step);
      step
    }

    /** How far the minor ticks have grown towards the next step: (d - step / 2) / (step - step / 2). */
    function TickLerpFactor(): real
      reads this`visibleRange, this`contentWidth
      requires HasSpan() && OneFrameWidth() > 0.0
    {
      var d := TIMELINE_TICKS_MIN_SKIP_SPACE / OneFrameWidth();
      var skipStep := TickStep();
      var prevStep := skipStep / 2;
      (d - prevStep as real) / (skipStep - prevStep) as real
    }

    /** The first tick: the multiple of the step at or before the first visible frame. */
    function TickStart(): (start: int)
      reads this`visibleRange, this`contentWidth
      requires HasSpan() && OneFrameWidth() > 0.0
      ensures start % TickStep() == 0
      ensures start as real <= visibleRange.x < (start + TickStep()) as real
    {
      var step := TickStep();
      var q := (visibleRange.x / step as real).Floor;
      FloorStep(visibleRange.x, step);
      MultipleMod(q, step);
      var start := q * step;
      assert q as real * step as real == start as real;
      assert Truncate(start as real) == start;
      assert start % step == 0;
      assert start as real <= visibleRange.x < (start + step) as real;
      Truncate(q as real * step as real)
    }

    /** The frame the ticks stop before: the visible range's end rounded up. */
    function TickEnd(): int
      reads this`visibleRange
    {
      Truncate(Ceil(visibleRange.y) as real)
    }

    /** The tick line of frame i. */
    function TickAt(i: int): (t: VLineDef)
      reads this`visibleRange, this`contentWidth
      requires HasSpan() && OneFrameWidth() > 0.0
      ensures t.frameIndex == i && t.lineTo.y == 1.0 && t.lineTo.x == t.lineFrom.x
      ensures t.majorTick <==> TickStep() == 1 || Quotient(i, TickStep()) % 2 == 0
      ensures t.majorTick ==> t.lineFrom.y == 0.0
      ensures -0.5 < t.lineFrom.x - GetPosXForFrame(i) < 1.5
    {
      var skipStep := TickStep();
      var marked := if Quotient(i, skipStep) % 2 == 0 || skipStep == 1 then 0 else 1;
      var x0 := GetPosXForFrame(i);
      var lineP0 := Real2(Truncate(x0) as real + 0.5, TickLerpFactor() * marked as real);
      VLineDef(marked == 0, lineP0, Real2(lineP0.x, 1.0), i)
    }

    /** The tick lines from frame `from` on, one per step, for every frame before `end`. */
    function Ticks(from: int, end: int): (ts: seq<VLineDef>)
      reads this`visibleRange, this`contentWidth
      requires HasSpan() && OneFrameWidth() > 0.0
      decreases end - from
    {
      if from >= end then [] else [TickAt(from)] + Ticks(from + TickStep(), end)
    }

    /**
     * The ticks from `from` on: one per step, each TickAt its frame, the
     * first at `from`, all before `end` and in the same residue class as
     * `from`, with the step after the last reaching `end`.
     */
    lemma {:induction false} TicksShape(from: int, end: int)
      requires HasSpan() && OneFrameWidth() > 0.0
      ensures Ticks(from, end) == [] <==> from >= end
      ensures Ticks(from, end) != [] ==> Ticks(from, end)[0].frameIndex == from
      ensures forall k :: 0 <= k < |Ticks(from, end)| ==>
        var f := Ticks(from, end)[k].frameIndex;
        Ticks(from, end)[k] == TickAt(f) && from <= f < end && f % TickStep() == from % TickStep()
      ensures forall k :: 0 <= k < |Ticks(from, end)| - 1 ==>
        Ticks(from, end)[k + 1].frameIndex == Ticks(from, end)[k].frameIndex + TickStep()
      ensures Ticks(from, end) != [] ==> Ticks(from, end)[|Ticks(from, end)| - 1].frameIndex + TickStep() >= end
      decreases end - from
    {
      if from < end {
        var step := TickStep();
        TicksShape(from + step, end);
        ModStep(from, step);
        var ts := Ticks(from, end);
        var rest := Ticks(from + step, end);
        assert ts == [TickAt(from)] + rest;
        assert forall k :: 0 < k < |ts| ==> ts[k] == rest[k - 1];
      }
    }

    /**
     * The ruler's ticks are the multiples of the step from the one at or
     * before the first visible frame up to the end of the visible range.
     */
    lemma TickLinesCoverRange()
      requires HasSpan() && OneFrameWidth() > 0.0
      ensures Ticks(TickStart(), TickEnd()) != [] ==> Ticks(TickStart(), TickEnd())[0].frameIndex as real <= visibleRange.x
      ensures forall k :: 0 <= k < |Ticks(TickStart(), TickEnd())| ==>
        Ticks(TickStart(), TickEnd())[k].frameIndex % TickStep() == 0
    {
      TicksShape(TickStart(), TickEnd());
    }

    /**
     * ComputeTicks: replaces the tick lines by those from the first tick to
     * the end of the visible range.
     */
    method ComputeTicks()
      requires HasSpan() && OneFrameWidth() > 0.0
      modifies this
      ensures frameSizeInSec == old(frameSizeInSec) && frameRange == old(frameRange) && visibleRange == old(visibleRange)
      ensures contentWidth == old(contentWidth) && knobFrame == old(knobFrame)
      ensures tickLines == Ticks(TickStart(), TickEnd())
    {
      var skipStep := TickStep();
      var lerpFactor := TickLerpFactor();
      var startIndex := TickStart();
      var endIndex := TickEnd();
      var lines := [];
      var i := startIndex;
      while i < endIndex
        invariant lines + Ticks(i, endIndex) == Ticks(startIndex, endIndex)
        decreases endIndex - i
      {
        var marked := if Quotient(i, skipStep) % 2 == 0 || skipStep == 1 then 0 else 1;
        var x0 := GetPosXForFrame(i);
        var y0 := lerpFactor * marked as real;
        var lineP0 := Real2(Truncate(x0) as real + 0.5, y0);
        var lineP1 := Real2(lineP0.x, 1.0);
        var tick := VLineDef(marked == 0, lineP0, lineP1, i);
        assert tick == TickAt(i);
        assert Ticks(i, endIndex) == [tick] + Ticks(i + skipStep, endIndex);
        assert (lines + [tick]) + Ticks(i + skipStep, endIndex) == lines + Ticks(i, endIndex);
        lines := lines + [tick];
        i := i + skipStep;
      }
      tickLines := lines;
    }

    /** The knob frame SetKnobFromPos picks for a position: the nearest frame, clamped into the recorded range. */
    function KnobFor(xPos: real): int
      reads this
      requires HasSpan() && contentWidth != 0.0
    {
      var zeroRelativePos := xPos - GetPosXForFrame(0);
      var fIndex := Round(zeroRelativePos / OneFrameWidth());
      Truncate(Clamp(fIndex as real, frameRange.x, frameRange.y))
    }

    /** SetKnobFromPos: moves the knob to the frame under a position. */
    method SetKnobFromPos(xPos: real)
      requires HasSpan() && contentWidth != 0.0
      modifies this
      ensures knobFrame == old(KnobFor(xPos))
      ensures frameSizeInSec == old(frameSizeInSec) && frameRange == old(frameRange) && visibleRange == old(visibleRange)
      ensures contentWidth == old(contentWidth) && tickLines == old(tickLines)
    {
      var zeroFramePos := GetPosXForFrame(0);
      var zeroRelativePos := xPos - zeroFramePos;
      var fIndex := Round(zeroRelativePos / OneFrameWidth());
      knobFrame := Truncate(Clamp(fIndex as real, frameRange.x, frameRange.y));
    }
  }

  // ---------------------------------------------------------------- conversions

  /** Consecutive frames lie one frame width apart, and the first visible frame is at 0. */
  lemma FrameSpacing(p: FrameMapping, f: int)
    requires p.HasSpan()
    ensures p.GetPosXForFrame(f + 1) - p.GetPosXForFrame(f) == p.OneFrameWidth()
    ensures p.visibleRange.x == f as real ==> p.GetPosXForFrame(f) == 0.0
  {
  }

  /** With a positive width, later frames lie further right. */
  lemma PosXIncreasing(p: FrameMapping, f: int, g: int)
    requires p.HasSpan() && p.OneFrameWidth() > 0.0 && f < g
    ensures p.GetPosXForFrame(f) < p.GetPosXForFrame(g)
  {
    var w := p.OneFrameWidth();
    assert p.GetPosXForFrame(g) - p.GetPosXForFrame(f) == (g - f) as real * w;
    MulPositive((g - f) as real, w);
  }

  lemma MulPositive(a: real, b: real)
    requires a > 0.0 && b > 0.0
    ensures a * b > 0.0
  {
  }

  /** Seconds and frames convert into each other exactly. */
  lemma FrameTimeInverse(p: TimelinePortalData, t: real, frame: real)
    requires p.frameSizeInSec != 0.0
    ensures p.GetFrameForTime(p.GetTimeForFrame(frame)) == frame
    ensures p.GetTimeForFrame(p.GetFrameForTime(t)) == t
  {
  }

  /** A frame's position converts back to the frame's time, and to the frame. */
  lemma PosXRoundTrip(p: TimelinePortalData, f: int)
    requires p.HasSpan() && p.contentWidth != 0.0
    ensures p.GetTimeForPosX(p.GetPosXForFrame(f)) == p.GetTimeForFrame(f as real)
    ensures p.frameSizeInSec != 0.0 ==> p.GetFrameForPosX(p.GetPosXForFrame(f)) == f as real
  {
    var w := p.OneFrameWidth();
    assert w != 0.0;
    assert p.GetPosXForFrame(f) + p.visibleRange.x * w == f as real * w;
    assert f as real * w / w == f as real;
    if p.frameSizeInSec != 0.0 {
      FrameTimeInverse(p, 0.0, f as real);
    }
  }

  /** The knob goes to the frame whose position was given, when that frame is in the recorded range. */
  lemma KnobAtFrame(p: TimelinePortalData, f: int)
    requires p.HasSpan() && p.contentWidth != 0.0
    requires p.frameRange.x <= f as real <= p.frameRange.y
    ensures p.KnobFor(p.GetPosXForFrame(f)) == f
  {
    var w := p.OneFrameWidth();
    assert w != 0.0;
    assert p.GetPosXForFrame(f) - p.GetPosXForFrame(0) == f as real * w;
    assert (p.GetPosXForFrame(f) - p.GetPosXForFrame(0)) / w == f as real;
  }

  /** With a whole-frame recorded range, the knob always lands inside it. */
  lemma KnobInRange(p: TimelinePortalData, xPos: real)
    requires p.HasSpan() && p.contentWidth != 0.0
    requires p.frameRange.x <= p.frameRange.y
    requires p.frameRange.x == p.frameRange.x.Floor as real && p.frameRange.y == p.frameRange.y.Floor as real
    ensures p.frameRange.x <= p.KnobFor(xPos) as real <= p.frameRange.y
  {
    var fIndex := Round((xPos - p.GetPosXForFrame(0)) / p.OneFrameWidth());
    TruncateBetween(Clamp(fIndex as real, p.frameRange.x, p.frameRange.y), p.frameRange.x.Floor, p.frameRange.y.Floor);
  }

  /** Truncating a value between two integers stays between them. */
  lemma TruncateBetween(r: real, lo: int, hi: int)
    requires lo as real <= r <= hi as real
    ensures lo <= Truncate(r) <= hi
  {
  }
}

/** Timeline geometry: where a date span is drawn inside the 40-day
    viewport, the viewport's day columns, and the bars of a task's phases. */
module Geometry {
  import opened Records

  /** The style of a span: not drawn at all (`display: none`), or drawn at
      `left` percent of the viewport width, `width` percent wide. */
  datatype Style = Hidden | Placed(left: real, width: real)

  /** Number of day columns in the viewport. */
  const DaysToShow: nat := 40

  /** Days the arrows move the viewport by. */
  const StepDays: nat := 7

  /** How many days before today the viewport starts after a reset. */
  const TodayOffset: nat := 10

  function Max(a: real, b: real): real {
    if a < b then b else a
  }

  /** `getPositionStyles(start, end, viewStart, viewEnd)`: the span's start and
      duration as fractions of the viewport, hidden when the span lies wholly
      after or wholly before it, pinned to the left edge when it starts before
      it, and never of negative width. */
  function PositionStyles(start: Day, end: Day, viewStart: Day, viewEnd: Day): (r: Style)
    requires viewStart < viewEnd
    ensures r.Hidden? <==> start > viewEnd || end < viewStart
    ensures r.Placed? ==> 0.0 <= r.left <= 100.0 && r.width >= 0.0
    ensures r.Placed? && start < viewStart ==>
      r.left == 0.0 && r.width == (end - viewStart) as real * 100.0 / (viewEnd - viewStart) as real
    ensures r.Placed? && viewStart <= start ==>
      r.left == (start - viewStart) as real * 100.0 / (viewEnd - viewStart) as real
    ensures r.Placed? && viewStart <= start ==>
      r.width == Max(0.0, (end - start) as real * 100.0 / (viewEnd - viewStart) as real)
  {
    var total := (viewEnd - viewStart) as real;
    var relStart := (start - viewStart) as real / total;
    var relDuration := (end - start) as real / total;
    DivCompare((start - viewStart) as real, total);
    DivCompare((end - viewStart) as real, total);
    DivCompare((end - start) as real, total);
    DivSum((start - viewStart) as real, (end - start) as real, total);
    if relStart > 1.0 || relStart + relDuration < 0.0 then Hidden
    else if relStart < 0.0 then
      Placed(0.0, Max(0.0, (relDuration + relStart) * 100.0))
    else
      Placed(relStart * 100.0, Max(0.0, relDuration * 100.0))
  }

  lemma DivCompare(a: real, t: real)
    requires t > 0.0
    ensures a / t > 1.0 <==> a > t
    ensures a / t < 0.0 <==> a < 0.0
    ensures a / t * 100.0 == a * 100.0 / t
  {
  }

  /** A span wholly inside the viewport is drawn inside it: its left edge
      and width are its offset and its length as percentages of the
      viewport, and it ends no further right than the viewport does. */
  lemma SpanInsideViewport(start: Day, end: Day, viewStart: Day, viewEnd: Day)
    requires viewStart <= start <= end <= viewEnd
    requires viewStart < viewEnd
    ensures var r := PositionStyles(start, end, viewStart, viewEnd);
      && r.Placed?
      && r.width == (end - start) as real * 100.0 / (viewEnd - viewStart) as real
      && r.left + r.width <= 100.0
  {
    var total := (viewEnd - viewStart) as real;
    var a := (start - viewStart) as real;
    var b := (end - start) as real;
    DivFacts(a, b, total);
    DivCompare(b, total);
    var r := PositionStyles(start, end, viewStart, viewEnd);
    assert r.width == b / total * 100.0;
  }

  lemma DivFacts(a: real, b: real, t: real)
    requires t > 0.0 && a >= 0.0 && b >= 0.0 && a + b <= t
    ensures b / t >= 0.0
    ensures a / t * 100.0 + b / t * 100.0 <= 100.0
  {
    DivSum(a, b, t);
    assert (a + b) / t <= 1.0;
  }

  lemma DivSum(a: real, b: real, t: real)
    requires t > 0.0
    ensures a / t + b / t == (a + b) / t
  {
    var x, y := a / t, b / t;
    assert x * t == a && y * t == b;
    assert (x + y) * t == a + b;
  }

  /** The two examples of a 40-day viewport starting at day 0: a span from
      day -5 to day 5 is clipped to the first 12.5 percent; a span from day 50
      to day 60 is not drawn; a span from day 30 to day 60 is not clipped on
      the right and runs past the viewport's edge. */
  lemma ClippingExamples()
    ensures PositionStyles(-5, 5, 0, 40) == Placed(0.0, 12.5)
    ensures PositionStyles(50, 60, 0, 40) == Hidden
    ensures PositionStyles(30, 60, 0, 40) == Placed(75.0, 75.0)
  {
  }

  /** The day columns of a viewport and the "today" marker agree: the marker
      for day `viewStart + i` sits at the left edge of column `i`, which is
      `i` fortieths of the way across. */
  lemma MarkerAtColumn(viewStart: Day, i: nat)
    requires i < DaysToShow
    ensures PositionStyles(viewStart + i, viewStart + i, viewStart, viewStart + DaysToShow)
         == Placed(i as real * 2.5, 0.0)
  {
  }

  /** The timeline's sliding viewport. */
  class Viewport {
    var start: Day

    /** The viewport starts ten days before today. */
    constructor (today: Day)
      ensures start == today - TodayOffset
    {
      start := today - TodayOffset;
    }

    /** `viewEnd`: forty days after the start. */
    function End(): (d: Day)
      reads this
      ensures d - start == DaysToShow
    {
      start + DaysToShow
    }

    method StepBack()
      modifies this
      ensures start == old(start) - StepDays
    {
      start := start - StepDays;
    }

    method StepForward()
      modifies this
      ensures start == old(start) + StepDays
    {
      start := start + StepDays;
    }

    method ResetToToday(today: Day)
      modifies this
      ensures start == today - TodayOffset
    {
      start := today - TodayOffset;
    }

    /** `calendarDays`: one column per day from the start of the viewport,
        each day the one after the previous, up to but not including the
        viewport's end. */
    method CalendarDays() returns (days: seq<Day>)
      ensures |days| == DaysToShow
      ensures forall i :: 0 <= i < |days| ==> days[i] == start + i
      ensures forall d :: d in days <==> start <= d < End()
    {
      days := [];
      var current := start;
      var i := 0;
      while i < DaysToShow
        invariant 0 <= i <= DaysToShow
        invariant |days| == i
        invariant current == start + i
        invariant forall k :: 0 <= k < i ==> days[k] == start + k
      {
        days := days + [current];
        current := current + 1;
        i := i + 1;
      }
      forall d | start <= d < End() ensures d in days {
        assert days[d - start] == d;
      }
    }
  }

  /** Where the bar of phase `idx` begins: the task's start for the first
      phase, the previous phase's end date for every later one. */
  function PhaseStart(t: Task, idx: nat): (d: Day)
    requires idx < |t.phases|
    ensures idx > 0 ==> d == t.phases[idx - 1].endDate
    ensures idx == 0 ==> d == t.startDate
  {
    if idx == 0 then t.startDate else t.phases[idx - 1].endDate
  }

  /** The style of every phase bar of a task row. */
  function PhaseBars(t: Task, viewStart: Day, viewEnd: Day): (r: seq<Style>)
    requires viewStart < viewEnd
    ensures |r| == |t.phases|
    ensures forall i :: 0 <= i < |r| ==>
      r[i] == PositionStyles(PhaseStart(t, i), t.phases[i].endDate, viewStart, viewEnd)
  {
    seq(|t.phases|, i requires 0 <= i < |t.phases| =>
      PositionStyles(PhaseStart(t, i), t.phases[i].endDate, viewStart, viewEnd))
  }

  /** Two spans that meet at a day inside the viewport are drawn end to
      start: the first bar ends exactly where the second begins. */
  lemma SpansAbut(start: Day, mid: Day, end: Day, viewStart: Day, viewEnd: Day)
    requires viewStart < viewEnd
    requires viewStart <= start <= mid <= viewEnd
    requires mid <= end
    ensures var first, second := PositionStyles(start, mid, viewStart, viewEnd), PositionStyles(mid, end, viewStart, viewEnd);
      && first.Placed? && second.Placed?
      && first.left + first.width == second.left
  {
    SpanInsideViewport(start, mid, viewStart, viewEnd);
    var total := (viewEnd - viewStart) as real;
    DivSum((start - viewStart) as real * 100.0, (mid - start) as real * 100.0, total);
  }

  /** Consecutive phase bars inside the viewport abut: each bar ends where
      the next one begins. */
  lemma PhaseBarsAbut(t: Task, viewStart: Day, viewEnd: Day, i: nat)
    requires viewStart < viewEnd
    requires i + 1 < |t.phases|
    requires viewStart <= PhaseStart(t, i) <= t.phases[i].endDate <= viewEnd
    requires t.phases[i].endDate <= t.phases[i + 1].endDate
    ensures var bars := PhaseBars(t, viewStart, viewEnd);
      && bars[i].Placed? && bars[i + 1].Placed?
      && bars[i].left + bars[i].width == bars[i + 1].left
  {
    SpansAbut(PhaseStart(t, i), t.phases[i].endDate, t.phases[i + 1].endDate, viewStart, viewEnd);
  }
}

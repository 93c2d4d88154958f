/** clickhouse/traces.go: the window of the Traces page and its buckets.

    The window covers the view it is made from; each of its instants is in exactly one bucket, the one
    the query groups it in, so no count is dropped. A view of at most an hour gets the finest step that
    leaves it no more than 61 buckets; a longer one always whole minutes. */
module TracesWindows {
  import opened Prelude
  import opened TimeSeriesPackage

  // Times are Unix seconds and durations seconds, as in the timeseries package.

  const MINUTE_STEP: int := 60
  const HOUR_LONG: int := 3600
  const MAX_POINTS: int := 60
  const FINE_STEPS: seq<int> := [1, 2, 5, 10, 15, 30, 60]

  datatype Window = Window(from: int, to: int, step: int)

  predicate MinuteAligned(w: Window) {
    Remainder(w.step, MINUTE_STEP) == 0 && Remainder(w.from, MINUTE_STEP) == 0
  }

  function Points(w: Window): int
    requires w.step > 0
  {
    Quotient(w.to - w.from + w.step - 1, w.step)
  }

  function ChartStep(step: int): int {
    var remainder := Remainder(step, MINUTE_STEP);
    if remainder != 0 then step + 60 - remainder else step
  }

  /** The step of a chart is the least whole number of minutes that is not below the step of the view. */
  lemma ChartStepIsLeast(step: int)
    requires step > 0
    ensures var r := ChartStep(step); r % 60 == 0 && step <= r && forall other :: other % 60 == 0 && step <= other ==> r <= other
  {
  }

  /** The step of the window: of the fine ones the first that gives a short view few enough buckets. */
  ghost predicate IsStep(step: int, duration: int, viewStep: int) {
    if duration <= HOUR_LONG then
      && step in FINE_STEPS && duration <= step * MAX_POINTS
      && forall fine :: fine in FINE_STEPS && duration <= fine * MAX_POINTS ==> step <= fine
    else
      step == ChartStep(viewStep)
  }

  /** What the page needs of its window: it starts with a bucket, and ends now or with a bucket. */
  ghost predicate IsWindow(w: Window, from: int, to: int, live: bool) {
    && w.step > 0
    && w.from % w.step == 0
    && from - w.step < w.from < from + w.step
    && (from >= 0 ==> w.from <= from)
    && (if live then w.to == to else w.to % w.step == 0 && to <= w.to < to + 2 * w.step && (to >= 0 ==> w.to < to + w.step))
  }

  lemma NextMultiple(t: int, step: int)
    requires step > 0 && t % step == 0
    ensures (t + step) % step == 0
  {
    FloorIs(t + step, step, t / step + 1, 0);
  }

  method NewTracesWindow(from: int, to: int, live: bool, viewStep: int) returns (w: Window)
    requires viewStep > 0 || to - from <= HOUR_LONG
    ensures IsStep(w.step, to - from, viewStep)
    ensures IsWindow(w, from, to, live)
  {
    var duration := to - from;
    var step := ChartStep(viewStep);
    if duration > HOUR_LONG {
      ChartStepIsLeast(viewStep);
    } else {
      var i := 0;
      while i < |FINE_STEPS|
        invariant 0 <= i <= |FINE_STEPS|
        invariant forall j :: 0 <= j < i ==> duration > FINE_STEPS[j] * MAX_POINTS
      {
        step := FINE_STEPS[i];
        if duration <= step * MAX_POINTS {
          break;
        }
        i := i + 1;
      }
      assert FINE_STEPS[6] == 60;
      assert forall j :: i <= j < |FINE_STEPS| ==> FINE_STEPS[i] <= FINE_STEPS[j];
    }
    TruncateIs(from, step);
    w := Window(Truncate(from, step), to, step);
    if !live {
      TruncateIs(to, step);
      var aligned := Truncate(to, step);
      if aligned != to {
        NextMultiple(aligned, step);
        w := w.(to := aligned + step);
      }
    }
  }

  /** The window starts at or before the view exactly when the view does not start inside a step
      before the epoch. */
  lemma CoversIff(from: int, step: int)
    requires step > 0
    ensures Truncate(from, step) <= from <==> from >= 0 || from % step == 0
  {
    if from < 0 {
      if from % step == 0 {
        NegatedMultiple(from, step);
      }
      if (-from) % step == 0 {
        NegatedMultiple(-from, step);
      }
    }
  }

  // ----- the buckets -----

  predicate InBucket(w: Window, i: int, t: int) {
    w.from + i * w.step <= t < w.from + (i + 1) * w.step
  }

  /** The bucket a row of the answer is counted in, from the time its query groups it by. */
  function Index(w: Window, grouped: int): int
    requires w.step > 0
  {
    Quotient(grouped - w.from, w.step)
  }

  lemma CeilIs(n: int, step: int)
    requires n > 0 && step > 0
    ensures var points := (n + step - 1) / step; (points - 1) * step < n <= points * step && points > 0
  {
    var points := (n + step - 1) / step;
    assert n + step - 1 == step * points + (n + step - 1) % step;
    MulBounds(step, points);
    assert (points - 1) * step == step * points - step;
  }

  /** The last bucket starts inside the window and ends at its end or after it. */
  lemma PointsAreWhole(w: Window)
    requires w.step > 0 && w.from < w.to
    ensures Points(w) > 0 && w.from + (Points(w) - 1) * w.step < w.to <= w.from + Points(w) * w.step
  {
    CeilIs(w.to - w.from, w.step);
  }

  /** toStartOfInterval groups an instant by the start of the one bucket it is in, a bucket of the chart:
      the guard on the index never drops a row. */
  lemma ExactlyOneBucket(w: Window, t: int)
    requires w.step > 0 && w.from % w.step == 0 && w.from <= t < w.to
    ensures var i := Index(w, FloorTo(t, w.step));
            && 0 <= i < Points(w)
            && FloorTo(t, w.step) == w.from + i * w.step
            && forall j :: InBucket(w, j, t) <==> j == i
  {
    var step, i := w.step, t / w.step - w.from / w.step;
    StepsFrom(w.from, t, step);
    FloorIs(step * i, step, i, 0);
    assert FloorTo(t, step) - w.from == step * i;
    PointsAreWhole(w);
    MulBounds(step, i);
    InsideIsBelow(w, i, t);
    forall j ensures InBucket(w, j, t) <==> j == i {
      QuotientIff(t - w.from, step, j);
      assert (j + 1) * step == j * step + step;
    }
  }

  /** Whole steps lie between an aligned start and the start of the step of t. */
  lemma StepsFrom(from: int, t: int, step: int)
    requires step > 0 && from % step == 0 && from <= t
    ensures var i := t / step - from / step; (t - from) / step == i >= 0 && FloorTo(t, step) == from + step * i
  {
    var first, n := from / step, t / step;
    var i := n - first;
    assert from == step * first && t == step * n + t % step;
    assert step * i == step * n - step * first;
    FloorIs(t - from, step, i, t % step);
    MulBounds(step, i);
  }

  lemma InsideIsBelow(w: Window, i: int, t: int)
    requires w.step > 0 && w.from < w.to && w.from + w.step * i <= t < w.to && w.to <= w.from + Points(w) * w.step
    ensures i < Points(w)
  {
    MulBounds(w.step, i - Points(w));
    assert w.step * (i - Points(w)) == w.step * i - Points(w) * w.step;
  }

  /** A view of at most an hour has at most 61 buckets. */
  lemma FewBuckets(w: Window, from: int, to: int, live: bool, viewStep: int)
    requires IsStep(w.step, to - from, viewStep) && IsWindow(w, from, to, live)
    requires to - from <= HOUR_LONG && to >= 0
    ensures Points(w) <= MAX_POINTS + 1
  {
    if w.from < w.to {
      PointsAreWhole(w);
      assert w.to - w.from < 62 * w.step;
      if !live {
        Multiples(w.to, w.from, w.step, 62);
      }
      MulBounds(w.step, Points(w) - 62);
      assert w.step * (Points(w) - 62) == Points(w) * w.step - 62 * w.step;
      assert (Points(w) - 1) * w.step == Points(w) * w.step - w.step;
    }
  }

  /** Two multiples of a step less than n steps apart are at most n - 1 apart. */
  lemma Multiples(a: int, b: int, step: int, n: int)
    requires step > 0 && a % step == 0 && b % step == 0 && a - b < n * step
    ensures a - b <= (n - 1) * step
  {
    var i, j := a / step, b / step;
    assert a == step * i && b == step * j;
    MulBounds(step, i - j - n + 1);
    assert step * (i - j - n + 1) == a - b - n * step + step;
  }

  /** A view longer than an hour is always read in whole minutes. */
  lemma LongViewsAreAligned(w: Window, from: int, to: int, live: bool, viewStep: int)
    requires viewStep > 0 && to - from > HOUR_LONG
    requires IsStep(w.step, to - from, viewStep) && IsWindow(w, from, to, live)
    ensures MinuteAligned(w)
  {
    ChartStepIsLeast(viewStep);
    MinutesOfSteps(w.from, w.step);
    if w.from < 0 {
      NegatedMultiple(w.from, 60);
    }
  }

  lemma MinutesOfSteps(t: int, step: int)
    requires step > 0 && step % 60 == 0 && t % step == 0
    ensures t % 60 == 0
  {
    assert t == step * (t / step) && step == 60 * (step / 60);
    assert t == 60 * ((step / 60) * (t / step));
    FloorIs(t, 60, (step / 60) * (t / step), 0);
  }

  /** A past window is a whole number of buckets. */
  lemma PastIsWhole(w: Window, from: int, to: int)
    requires IsWindow(w, from, to, false) && w.from < w.to
    ensures w.to == w.from + Points(w) * w.step
  {
    PointsAreWhole(w);
    StepsFrom(w.from, w.to, w.step);
    assert FloorTo(w.to, w.step) == w.to;
    SameSteps(w.to / w.step - w.from / w.step, Points(w), w.step);
  }

  lemma SameSteps(i: int, n: int, step: int)
    requires step > 0 && (n - 1) * step < step * i <= n * step
    ensures i == n
  {
    MulBounds(step, i - n);
    assert step * (i - n) == step * i - n * step && (n - 1) * step == n * step - step;
  }
}

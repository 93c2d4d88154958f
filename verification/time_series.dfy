/** timeseries/time.go and timeseries/timeseries.go: Go's integer arithmetic on times, and series of
    points that are set by time.

    A series has the points from its start, a step apart. Set puts a value at the point of its time
    and drops it when there is none. */
module TimeSeriesPackage {
  import opened Prelude

  // Times are Unix seconds and durations seconds.

  /** Go's remainder has the sign of the dividend. */
  function Remainder(a: int, b: int): int
    requires b > 0
  {
    if a >= 0 then a % b else -((-a) % b)
  }

  function Quotient(a: int, b: int): int
    requires b > 0
  {
    if a >= 0 then a / b else -((-a) / b)
  }

  /** Time.Truncate: towards the epoch. */
  function Truncate(t: int, step: int): int
    requires step > 0
  {
    t - Remainder(t, step)
  }

  lemma TruncateIs(t: int, step: int)
    requires step > 0
    ensures Truncate(t, step) % step == 0
    ensures t - step < Truncate(t, step) < t + step
    ensures t >= 0 ==> Truncate(t, step) <= t
    ensures t <= 0 ==> Truncate(t, step) >= t
  {
    if t >= 0 {
      FloorBounds(t, step);
      assert Truncate(t, step) == FloorTo(t, step);
    } else {
      FloorBounds(-t, step);
      NegatedMultiple(FloorTo(-t, step), step);
      assert Truncate(t, step) == -FloorTo(-t, step);
    }
  }

  lemma FloorBounds(t: int, step: int)
    requires step > 0
    ensures FloorTo(t, step) % step == 0 && FloorTo(t, step) <= t < FloorTo(t, step) + step
  {
    FloorIs(step * (t / step), step, t / step, 0);
  }

  lemma NegatedMultiple(t: int, step: int)
    requires step > 0 && t % step == 0
    ensures (-t) % step == 0
  {
    assert t == step * (t / step);
    assert -t == step * -(t / step);
    FloorIs(-t, step, -(t / step), 0);
  }

  // ----- the points of a series -----

  /** A point shows how much there is, and nothing (NaN) if that is none. */
  function Shown(n: nat): Option<nat> {
    if n == 0 then None else Some(n)
  }

  /** Where Set puts a value: nowhere before the start of the series or past its last point. */
  function Slot(from: int, step: int, points: nat, t: int): Option<nat>
    requires step > 0
  {
    var start := Truncate(t, step);
    if start < from || (start - from) / step >= points then None else Some((start - from) / step)
  }

  /** The start of the step whose values are set at point i: the first one at or after the point's time. */
  function StepAt(from: int, step: int, i: int): int
    requires step > 0
  {
    FloorTo(from + i * step + step - 1, step)
  }

  lemma MultipleIsTruncated(t: int, step: int)
    requires step > 0 && t % step == 0
    ensures Truncate(t, step) == t
  {
    if t < 0 {
      NegatedMultiple(t, step);
    }
  }

  lemma StepAtIs(from: int, step: int, i: int)
    requires step > 0
    ensures StepAt(from, step, i) % step == 0
    ensures from + i * step <= StepAt(from, step, i) < from + i * step + step
  {
    FloorBounds(from + i * step + step - 1, step);
  }

  /** Two multiples of a step less than a step apart are one. */
  lemma SameMultiple(a: int, b: int, step: int)
    requires step > 0 && a % step == 0 && b % step == 0 && -step < a - b < step
    ensures a == b
  {
    assert a == step * (a / step) && b == step * (b / step);
    MulBounds(step, a / step - b / step);
    assert step * (a / step - b / step) == a - b;
  }

  /** A start of a step that is not before the series: the point whose step of time it is in. */
  lemma SlotInside(from: int, step: int, points: nat, t: int, i: nat)
    requires step > 0 && t % step == 0 && i < points && t >= from
    ensures Slot(from, step, points, t) == Some(i) <==> i * step <= t - from < i * step + step
  {
    MultipleIsTruncated(t, step);
    QuotientIff(t - from, step, i);
  }

  /** Of the starts of steps, the one whose values are set at a point is the only one in [point, next). */
  lemma SlotIs(from: int, step: int, points: nat, t: int, i: nat)
    requires step > 0 && t % step == 0 && i < points
    ensures Slot(from, step, points, t) == Some(i) <==> t == StepAt(from, step, i)
  {
    StepAtIs(from, step, i);
    if t >= from {
      SlotInside(from, step, points, t, i);
      if i * step <= t - from < i * step + step {
        SameMultiple(t, StepAt(from, step, i), step);
      }
    } else {
      SlotBefore(from, step, points, t, i);
    }
  }

  /** A start of a step before the series has no point. */
  lemma SlotBefore(from: int, step: int, points: nat, t: int, i: nat)
    requires step > 0 && t % step == 0 && t < from
    ensures Slot(from, step, points, t) == None && t < from + i * step
  {
    MultipleIsTruncated(t, step);
    MulBounds(step, i);
  }

  class TimeSeries {
    const from: int
    const step: int
    var data: seq<Option<nat>>

    constructor (from: int, points: nat, step: int)
      ensures this.from == from && this.step == step && data == seq(points, i => None)
    {
      this.from, this.step := from, step;
      data := seq(points, i => None);
    }

    method Set(t: int, v: nat)
      requires step > 0
      modifies this
      ensures data == var slot := Slot(from, step, |old(data)|, t); if slot.Some? then old(data)[slot.value := Some(v)] else old(data)
    {
      var start := Truncate(t, step);
      if start < from {
        return;
      }
      var index := (start - from) / step;
      if index < |data| {
        data := data[index := Some(v)];
      }
    }
  }

  // ----- what a series of a range shows -----

  /** Context.PointsCount: the whole steps of the range. */
  function PointsCount(from: int, to: int, step: int): int
    requires step > 0
  {
    Quotient(to - from, step)
  }

  /** The second t of the range is shown: its step is set at some point. */
  predicate IsShown(from: int, to: int, step: int, t: int)
    requires step > 0 && from <= to
  {
    Slot(from, step, PointsCount(from, to, step), FloorTo(t, step)).Some?
  }

  /** A second is shown exactly when its step starts in the range and there is a whole step of the range for it. */
  lemma ShownIff(from: int, to: int, step: int, t: int)
    requires step > 0 && from <= to
    ensures IsShown(from, to, step, t) <==> from <= FloorTo(t, step) < from + step * ((to - from) / step)
  {
    var start, n := FloorTo(t, step), (to - from) / step;
    FloorBounds(t, step);
    MultipleIsTruncated(start, step);
    var k, rest := (start - from) / step, (start - from) % step;
    assert start - from == step * k + rest;
    MulBounds(step, k - n);
    assert step * (k - n) == step * k - step * n;
  }

  /** Every second of a range is shown exactly when the range starts and ends with a step. */
  lemma AllShownIffAligned(from: int, to: int, step: int)
    requires step > 0 && from < to
    ensures (forall t :: from <= t < to ==> IsShown(from, to, step, t)) <==> from % step == 0 && to % step == 0
  {
    forall t ensures IsShown(from, to, step, t) <==> from <= FloorTo(t, step) < from + step * ((to - from) / step) {
      ShownIff(from, to, step, t);
    }
    var n, rest := (to - from) / step, (to - from) % step;
    assert to - from == step * n + rest;
    if forall t :: from <= t < to ==> IsShown(from, to, step, t) {
      assert IsShown(from, to, step, from) && IsShown(from, to, step, to - 1);
      FloorBounds(from, step);
      FloorBounds(to - 1, step);
      assert from % step == 0;
      AlignedEnd(from, to, step);
    }
    if from % step == 0 && to % step == 0 {
      AlignedEnd(from, to, step);
      forall t | from <= t < to ensures IsShown(from, to, step, t) {
        AlignedFloor(from, t, step);
        AlignedFloor(from, to, step);
      }
    }
  }

  /** Of a range that starts with a step, the end is its last whole step's exactly when it is aligned too. */
  lemma AlignedEnd(from: int, to: int, step: int)
    requires step > 0 && from % step == 0 && from < to
    ensures to % step == (to - from) % step
    ensures FloorTo(to - 1, step) < from + step * ((to - from) / step) <==> to % step == 0
  {
    var a, n, rest := from / step, (to - from) / step, (to - from) % step;
    assert from == step * a;
    assert to == step * (a + n) + rest;
    FloorIs(to, step, a + n, rest);
    if rest == 0 {
      FloorBounds(to - 1, step);
    } else {
      FloorIs(to - 1, step, a + n, rest - 1);
      assert step * (a + n) == from + step * n;
    }
  }

  /** The end of an aligned range is past its last point. */
  lemma EndOfAligned(from: int, to: int, step: int)
    requires step > 0 && from <= to && from % step == 0 && to % step == 0
    ensures !IsShown(from, to, step, to)
  {
    ShownIff(from, to, step, to);
    if from < to {
      AlignedEnd(from, to, step);
    }
  }

  /** The step of a second from an aligned start on is not before it. */
  lemma AlignedFloor(from: int, t: int, step: int)
    requires step > 0 && from % step == 0 && from <= t
    ensures from <= FloorTo(t, step) <= t
  {
    var a, n, rest := from / step, (t - from) / step, (t - from) % step;
    assert from == step * a && t == step * (a + n) + rest;
    FloorIs(t, step, a + n, rest);
    assert step * (a + n) == step * a + step * n && n >= 0;
  }
}

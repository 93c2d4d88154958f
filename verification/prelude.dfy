/** What every part of the model shares: optional values, attribute maps as ClickHouse
    and Go read them, and the clock. */
module Prelude {

  datatype Option<+T> = None | Some(value: T)

  /** The attributes of a resource, a span or a log record. */
  type Attrs = map<string, string>

  /** A missing key of a Go map[string]string, or of a ClickHouse Map column, reads as "". */
  function Attr(attrs: Attrs, name: string): string {
    if name in attrs then attrs[name] else ""
  }

  function Max(a: int, b: int): int {
    if a <= b then b else a
  }

  /** The greatest multiple of step that is not above t (t may be negative). */
  function FloorTo(t: int, step: int): int
    requires step > 0
  {
    t - t % step
  }

  lemma FloorIs(t: int, step: int, n: int, rest: int)
    requires step > 0 && t == step * n + rest && 0 <= rest < step
    ensures FloorTo(t, step) == step * n && t / step == n
  {
    MulBounds(step, t / step - n);
    assert step * (t / step - n) == step * (t / step) - step * n;
  }

  lemma MulBounds(step: int, d: int)
    requires step > 0
    ensures d >= 1 ==> step * d >= step
    ensures d <= -1 ==> step * d <= -step
  {
    if d >= 1 {
      assert step * d == step + step * (d - 1);
    } else if d <= -1 {
      assert step * d == step * (d + 1) - step;
    }
  }

  /** The quotient is the one number of steps that leaves a rest. */
  lemma QuotientIff(t: int, step: int, n: int)
    requires step > 0
    ensures t / step == n <==> n * step <= t < n * step + step
  {
    if n * step <= t < n * step + step {
      FloorIs(t, step, n, t - n * step);
    }
    assert t == step * (t / step) + t % step;
  }

  /** Every time is a number of nanoseconds. The zero time.Time comes before every reading of a
      clock and every DateTime a table can hold. */
  const ZERO_TIME: int := 0

  type Instant = t: int | ZERO_TIME < t witness 1

  const SECOND: int := 1_000_000_000
  const MINUTE: int := 60 * SECOND
  const HOUR: int := 60 * MINUTE

  /** The OTLP kind of a span (SPAN_KIND_SERVER, ...). */
  datatype SpanKind = Unspecified | Internal | Server | Client | Producer | Consumer

  // ----- minutes -----

  /** toStartOfMinute: the start, in Unix seconds, of the minute an instant is in. */
  function MinuteOf(t: int): (m: int)
    ensures m % 60 == 0 && m * SECOND <= t < (m + 60) * SECOND
  {
    var minutes := t / MINUTE;
    assert FloorTo(t, MINUTE) == 60 * minutes * SECOND;
    assert FloorTo(t, MINUTE) / SECOND == 60 * minutes;
    FloorTo(t, MINUTE) / SECOND
  }

  /** toStartOfInterval: the start, in Unix seconds, of the step an instant is in. */
  function StepOf(t: int, step: int): int
    requires step > 0
  {
    FloorTo(t / SECOND, step)
  }

  /** An instant and its minute are in the same step when steps are whole minutes. */
  lemma StepOfMinute(t: int, step: int)
    requires step > 0 && step % 60 == 0
    ensures FloorTo(MinuteOf(t), step) == StepOf(t, step)
  {
    var seconds, minute := t / SECOND, MinuteOf(t);
    assert minute <= seconds < minute + 60;
    SameStep(minute / 60, step / 60, seconds - minute);
  }

  lemma SameStep(minutes: int, n: int, seconds: int)
    requires n > 0 && 0 <= seconds < 60
    ensures FloorTo(60 * minutes + seconds, 60 * n) == FloorTo(60 * minutes, 60 * n)
  {
    var steps, rest := minutes / n, minutes % n;
    assert minutes == n * steps + rest;
    FloorIs(60 * minutes + seconds, 60 * n, steps, 60 * rest + seconds);
    FloorIs(60 * minutes, 60 * n, steps, 60 * rest);
  }
}

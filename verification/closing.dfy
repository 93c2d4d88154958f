/** collector/traces.go, Close: how long a closing batch waits for its two reads.

    It waits for the server spans, then for the addresses, each time also for one timer. A timer fires
    once: when it ended the first wait, the second has only the addresses to wait for. */
module Closing {
  import opened Prelude
  import opened TracesBatches

  /** When Close is called, when its batch was made, and when the two reads are done, if ever. */
  datatype Closing = Closing(called: Instant, createdAt: Instant, servers: Option<Instant>, addresses: Option<Instant>) {
    /** When the timer fires: at once for a batch older than it may hold spans. */
    function Deadline(): int {
      Max(called, createdAt + MAX_HOLD)
    }
  }

  /** A select at time t on a channel that is closed at some time, if ever, and on the timer, unless it
      fired before, may end at end; fired tells that it was the timer. Ready both, either is picked. */
  predicate MayEnd(t: int, loaded: Option<Instant>, timer: Option<int>, end: int, fired: bool) {
    if fired then
      timer.Some? && end == Max(t, timer.value) && (loaded.Some? ==> end <= Max(t, loaded.value))
    else
      loaded.Some? && end == Max(t, loaded.value) && (timer.Some? ==> end <= Max(t, timer.value))
  }

  function TimerAfter(c: Closing, fired: bool): Option<int> {
    if fired then None else Some(c.Deadline())
  }

  /** Close may be through with its waiting at end. */
  ghost predicate MayWrite(c: Closing, end: int) {
    exists between, fired, again ::
      MayEnd(c.called, c.servers, Some(c.Deadline()), between, fired) && MayEnd(between, c.addresses, TimerAfter(c, fired), end, again)
  }

  /** Close may wait for ever: after the timer, for addresses that are never read. */
  ghost predicate MayHang(c: Closing) {
    exists between :: MayEnd(c.called, c.servers, Some(c.Deadline()), between, true) && c.addresses.None?
  }

  /** The two waits; the result is when they end, or nothing. */
  method Wait(c: Closing) returns (end: Option<int>)
    ensures end.Some? ==> MayWrite(c, end.value)
    ensures end.None? ==> MayHang(c)
  {
    var timer := Some(c.Deadline());
    var now: int := c.called;
    var loaded := [c.servers, c.addresses];
    ghost var between, first := now, false;
    for i := 0 to 2
      invariant i == 0 ==> now == c.called && timer == Some(c.Deadline())
      invariant i == 1 ==> MayEnd(c.called, c.servers, Some(c.Deadline()), now, first) && timer == TimerAfter(c, first)
      invariant i == 2 ==> MayWrite(c, now)
    {
      if timer.None? && loaded[i].None? {
        return None;
      }
      ghost var before, was := now, timer;
      ghost var fired := false;
      if {
        case loaded[i].Some? && (timer.Some? ==> Max(now, loaded[i].value) <= Max(now, timer.value)) =>
          now := Max(now, loaded[i].value);
        case timer.Some? && (loaded[i].Some? ==> Max(now, timer.value) <= Max(now, loaded[i].value)) =>
          now, timer, fired := Max(now, timer.value), None, true;
      }
      assert MayEnd(before, loaded[i], was, now, fired);
      if i == 0 {
        first := fired;
      }
    }
    end := Some(now);
  }

  /** Whenever Close writes, both reads are done or the deadline has passed. */
  lemma WritesInformedOrLate(c: Closing, end: int)
    requires MayWrite(c, end)
    ensures end >= Max(c.called, c.createdAt + 30 * SECOND) || (c.servers.Some? && c.servers.value <= end && c.addresses.Some? && c.addresses.value <= end)
  {
    var between, fired, again :|
      MayEnd(c.called, c.servers, Some(c.Deadline()), between, fired) && MayEnd(between, c.addresses, TimerAfter(c, fired), end, again);
  }

  /** Close is through by the deadline, whatever the selects pick, if and only if the addresses are read
      by then, or the server spans are read before it. */
  lemma ThroughByDeadlineIff(c: Closing)
    ensures var deadline := Max(c.called, c.createdAt + 30 * SECOND);
            (!MayHang(c) && forall end :: MayWrite(c, end) ==> end <= deadline) <==>
              || (c.addresses.Some? && c.addresses.value <= deadline)
              || (c.servers.Some? && Max(c.called, c.servers.value) < deadline)
  {
    var deadline := c.Deadline();
    if c.servers.None? || Max(c.called, c.servers.value) >= deadline {
      assert MayEnd(c.called, c.servers, Some(deadline), deadline, true);
      if c.addresses.Some? && c.addresses.value > deadline {
        assert MayEnd(deadline, c.addresses, TimerAfter(c, true), c.addresses.value, false);
        assert MayWrite(c, c.addresses.value);
      }
    }
  }

  /** It happens: neither is ever read. The timer ends the first wait, and the second never ends. */
  lemma NeverRead(called: Instant, createdAt: Instant)
    ensures MayHang(Closing(called, createdAt, None, None)) && forall end :: !MayWrite(Closing(called, createdAt, None, None), end)
  {
    var c := Closing(called, createdAt, None, None);
    assert MayEnd(c.called, c.servers, Some(c.Deadline()), c.Deadline(), true);
  }
}

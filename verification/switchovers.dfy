/** constructor/events.go: the primary of a cluster over time, and the switchovers it went through.

    The scanner keeps one half-open event; what it emits are exactly the changes between the known
    primaries next to each other, each from the first sign of the change to the new primary. */
module Switchovers {

  /** A point of a time series: the number of an instance, CONFLICT or NaN. */
  datatype Sample = NaN | Num(n: int)

  const CONFLICT: int := -1

  predicate IsKnown(s: Sample) {
    s.Num? && s.n >= 0
  }

  // ----- who is primary -----

  /** An instance that reports its role, by its number among the instances of the application. */
  datatype Member = Member(number: nat, primary: seq<bool>)

  /** The aggregation function: one number is kept, a second one makes a conflict. */
  function Accumulate(accumulator: Sample, v: Sample): Sample {
    if accumulator.Num? && accumulator.n < 0 then Num(CONFLICT)
    else if IsKnown(accumulator) && IsKnown(v) then Num(CONFLICT)
    else if IsKnown(v) then v
    else accumulator
  }

  predicate IsPrimary(members: seq<Member>, k: int, t: nat) {
    0 <= k < |members| && t < |members[k].primary| && members[k].primary[t]
  }

  /** The sample tells who is primary: the only one, a conflict of several, or NaN. */
  ghost predicate Tells(members: seq<Member>, t: nat, s: Sample) {
    match s
    case NaN => forall k :: !IsPrimary(members, k, t)
    case Num(n) =>
      if n < 0 then n == CONFLICT && exists j, k :: j < k && IsPrimary(members, j, t) && IsPrimary(members, k, t)
      else exists k :: IsPrimary(members, k, t) && members[k].number == n && forall j :: IsPrimary(members, j, t) ==> j == k
  }

  function NumberOf(m: Member, t: nat): Sample
    requires t < |m.primary|
  {
    if m.primary[t] then Num(m.number) else NaN
  }

  lemma OneMoreMember(before: seq<Member>, m: Member, t: nat, s: Sample)
    requires t < |m.primary| && Tells(before, t, s)
    ensures Tells(before + [m], t, Accumulate(s, NumberOf(m, t)))
  {
    var all, last := before + [m], |before|;
    assert forall k :: IsPrimary(all, k, t) <==> IsPrimary(before, k, t) || (k == last && m.primary[t]);
    assert m.primary[t] ==> IsPrimary(all, last, t) && all[last].number == m.number;
    match s {
      case NaN =>
      case Num(n) =>
        if n < 0 {
          var j, k :| j < k && IsPrimary(before, j, t) && IsPrimary(before, k, t);
          assert IsPrimary(all, j, t) && IsPrimary(all, k, t);
        } else {
          var k :| IsPrimary(before, k, t) && before[k].number == n;
          assert IsPrimary(all, k, t) && all[k] == before[k] && k < last;
        }
    }
  }

  /** Aggregate.Get of the members' series. */
  method PrimarySeries(members: seq<Member>, length: nat) returns (data: seq<Sample>)
    requires members != [] && forall m :: m in members ==> |m.primary| == length
    ensures |data| == length && forall t | 0 <= t < length :: Tells(members, t, data[t])
  {
    data := seq(length, t => NaN);
    for k := 0 to |members|
      invariant |data| == length
      invariant forall t | 0 <= t < length :: Tells(members[..k], t, data[t])
    {
      var m := members[k];
      ghost var before := data;
      for i := 0 to length
        invariant |data| == length
        invariant forall t | 0 <= t < i :: data[t] == Accumulate(before[t], NumberOf(m, t))
        invariant forall t | i <= t < length :: data[t] == before[t]
      {
        data := data[i := Accumulate(data[i], if m.primary[i] then Num(m.number) else NaN)];
      }
      assert members[..k + 1] == members[..k] + [m];
      forall t | 0 <= t < length ensures Tells(members[..k + 1], t, data[t]) {
        OneMoreMember(members[..k], m, t, before[t]);
      }
    }
    assert members[..|members|] == members;
  }

  // ----- the changes -----

  /** The series without NaN and conflicts. */
  function KnownOf(series: seq<Sample>): seq<int> {
    if series == [] then []
    else
      var before, s := KnownOf(series[..|series| - 1]), series[|series| - 1];
      if IsKnown(s) then before + [s.n] else before
  }

  /** Of equal values next to each other, one. */
  function Compact(values: seq<int>): (c: seq<int>)
    ensures c == [] <==> values == []
    ensures values != [] ==> c[|c| - 1] == values[|values| - 1]
  {
    if values == [] then []
    else
      var before, x := Compact(values[..|values| - 1]), values[|values| - 1];
      if before != [] && before[|before| - 1] == x then before else before + [x]
  }

  lemma {:induction false} CompactChanges(values: seq<int>)
    ensures forall k :: 0 < k < |Compact(values)| ==> Compact(values)[k - 1] != Compact(values)[k]
  {
    if values != [] {
      CompactChanges(values[..|values| - 1]);
    }
  }

  /** A switchover; its times are positions in the series. */
  datatype Switchover = Switchover(start: nat, end: nat, from: int, to: int)

  /** Where the values the k-th event starts from begin: the end of the event before, or the first known. */
  function Anchor(first: nat, events: seq<Switchover>, k: nat): nat
    requires k <= |events|
  {
    if k == 0 then first else events[k - 1].end
  }

  /** From the anchor the primary is known and the same until the start, where it first is not; before
      the end no other one is known, and at the end the new one is. */
  predicate IsSwitchover(series: seq<Sample>, anchor: nat, e: Switchover) {
    && anchor < e.start <= e.end < |series| && e.from != e.to && e.from >= 0 && e.to >= 0
    && (forall t :: anchor <= t < e.start ==> series[t] == Num(e.from))
    && series[e.start] != Num(e.from)
    && (forall t :: e.start <= t < e.end && IsKnown(series[t]) ==> series[t] == Num(e.from))
    && series[e.end] == Num(e.to)
  }

  ghost predicate EventAt(series: seq<Sample>, first: nat, events: seq<Switchover>, k: nat)
    requires k < |events|
  {
    IsSwitchover(series, Anchor(first, events, k), events[k])
  }

  ghost predicate AreSwitchovers(series: seq<Sample>, first: nat, events: seq<Switchover>) {
    forall k | 0 <= k < |events| :: EventAt(series, first, events, k)
  }

  ghost predicate IsFirstKnown(series: seq<Sample>, first: nat) {
    first < |series| && IsKnown(series[first]) && forall t :: 0 <= t < first ==> !IsKnown(series[t])
  }

  /** The pairs of the events are the values next to each other, of the known ones. */
  ghost predicate ArePairs(values: seq<int>, events: seq<Switchover>) {
    && |events| == (if values == [] then 0 else |values| - 1)
    && forall k :: 0 <= k < |events| ==> events[k].from == values[k] && events[k].to == values[k + 1]
  }

  /** The event that is open: where it started. */
  datatype Open = Nothing | Since(start: nat, from: int)

  /** The scanner between two samples, when values are those it has known, each once in a row. */
  ghost predicate Scanning(series: seq<Sample>, i: nat, values: seq<int>, prev: int, open: Open, first: nat, events: seq<Switchover>)
    requires i <= |series|
  {
    && ArePairs(values, events)
    && (prev < 0 <==> values == [])
    && (prev < 0 ==> prev == CONFLICT && open.Nothing? && forall t :: 0 <= t < i ==> !IsKnown(series[t]))
    && (prev >= 0 ==>
          && values[|values| - 1] == prev
          && first < i && IsFirstKnown(series, first)
          && AreSwitchovers(series, first, events)
          && Rest(series, i, prev, open, Anchor(first, events, |events|)))
  }

  /** What the scanner saw since the anchor: only prev, or prev until the event opened and none other known. */
  predicate Rest(series: seq<Sample>, i: nat, prev: int, open: Open, anchor: nat)
    requires i <= |series|
  {
    && anchor < i
    && match open
       case Nothing => forall t :: anchor <= t < i ==> series[t] == Num(prev)
       case Since(start, from) =>
         && from == prev && anchor < start < i
         && (forall t :: anchor <= t < start ==> series[t] == Num(prev))
         && series[start] != Num(prev)
         && (forall t :: start <= t < i && IsKnown(series[t]) ==> series[t] == Num(prev))
  }

  /** What the scanner has known of the first i samples: each value once in a row. */
  ghost function Known(series: seq<Sample>, i: nat): (values: seq<int>)
    requires i <= |series|
    ensures i == 0 ==> values == []
    ensures i == |series| ==> values == Compact(KnownOf(series))
  {
    assert i == |series| ==> series[..i] == series;
    Compact(KnownOf(series[..i]))
  }

  lemma KnownOfNext(series: seq<Sample>, s: Sample)
    ensures KnownOf(series + [s]) == if IsKnown(s) then KnownOf(series) + [s.n] else KnownOf(series)
  {
    assert (series + [s])[..|series|] == series;
  }

  lemma CompactNext(values: seq<int>, x: int)
    ensures var before := Compact(values);
            Compact(values + [x]) == if before != [] && before[|before| - 1] == x then before else before + [x]
  {
    assert (values + [x])[..|values|] == values;
  }

  lemma OneMoreSample(series: seq<Sample>, i: nat)
    requires i < |series|
    ensures var before := Known(series, i);
            Known(series, i + 1) ==
            if IsKnown(series[i]) && (before == [] || before[|before| - 1] != series[i].n) then before + [series[i].n] else before
  {
    assert series[..i + 1] == series[..i] + [series[i]];
    KnownOfNext(series[..i], series[i]);
    if IsKnown(series[i]) {
      CompactNext(KnownOf(series[..i]), series[i].n);
    }
  }

  lemma Emitted(series: seq<Sample>, first: nat, events: seq<Switchover>, e: Switchover)
    requires AreSwitchovers(series, first, events) && IsSwitchover(series, Anchor(first, events, |events|), e)
    ensures AreSwitchovers(series, first, events + [e])
  {
    var all := events + [e];
    forall k | 0 <= k < |all| ensures EventAt(series, first, all, k) {
      assert k < |events| ==> all[k] == events[k] && EventAt(series, first, events, k);
      assert Anchor(first, all, k) == Anchor(first, events, k);
    }
  }

  /** Before the first known primary. */
  lemma NotYet(series: seq<Sample>, i: nat, events: seq<Switchover>, first: nat)
    requires i < |series| && Scanning(series, i, [], CONFLICT, Nothing, first, events)
    ensures if IsKnown(series[i]) then Scanning(series, i + 1, [series[i].n], series[i].n, Nothing, i, events)
            else Scanning(series, i + 1, [], CONFLICT, Nothing, first, events)
  {
  }

  /** The known primary again, or no known one. */
  lemma NoChange(series: seq<Sample>, i: nat, values: seq<int>, prev: int, open: Open, first: nat, events: seq<Switchover>)
    requires i < |series| && prev >= 0 && Scanning(series, i, values, prev, open, first, events)
    requires IsKnown(series[i]) ==> series[i] == Num(prev)
    ensures Scanning(series, i + 1, values, prev, if series[i] != Num(prev) && open.Nothing? then Since(i, prev) else open, first, events)
  {
  }

  /** The event another known primary ends. */
  function Ended(series: seq<Sample>, i: nat, prev: int, open: Open): Switchover
    requires i < |series| && series[i].Num?
  {
    Switchover(if open.Nothing? then i else open.start, i, prev, series[i].n)
  }

  lemma RestEnds(series: seq<Sample>, i: nat, prev: int, open: Open, anchor: nat)
    requires i < |series| && prev >= 0 && Rest(series, i, prev, open, anchor)
    requires IsKnown(series[i]) && series[i] != Num(prev)
    ensures IsSwitchover(series, anchor, Ended(series, i, prev, open))
  {
  }

  lemma PairsNext(values: seq<int>, events: seq<Switchover>, e: Switchover)
    requires ArePairs(values, events) && values != [] && e.from == values[|values| - 1]
    ensures ArePairs(values + [e.to], events + [e])
  {
    var all, changes := values + [e.to], events + [e];
    forall k | 0 <= k < |changes| ensures changes[k].from == all[k] && changes[k].to == all[k + 1] {
      assert k < |events| ==> changes[k] == events[k];
    }
  }

  /** Another known primary: the event ends here. */
  lemma Change(series: seq<Sample>, i: nat, values: seq<int>, prev: int, open: Open, first: nat, events: seq<Switchover>)
    requires i < |series| && prev >= 0 && Scanning(series, i, values, prev, open, first, events)
    requires IsKnown(series[i]) && series[i] != Num(prev)
    ensures Scanning(series, i + 1, values + [series[i].n], series[i].n, Nothing, first, events + [Ended(series, i, prev, open)])
  {
    var e := Ended(series, i, prev, open);
    RestEnds(series, i, prev, open, Anchor(first, events, |events|));
    Emitted(series, first, events, e);
    PairsNext(values, events, e);
    assert Anchor(first, events + [e], |events| + 1) == i;
  }

  /** The scanner's variables, with the values it has known and where the first was. */
  datatype Scanner = Scanner(values: seq<int>, prev: int, open: Open, first: nat, events: seq<Switchover>)

  ghost predicate Scans(series: seq<Sample>, i: nat, sc: Scanner) {
    && i <= |series| && sc.values == Known(series, i)
    && Scanning(series, i, sc.values, sc.prev, sc.open, sc.first, sc.events)
  }

  /** One sample further. */
  function Scanned(series: seq<Sample>, i: nat, sc: Scanner): Scanner
    requires i < |series|
  {
    var curr := series[i];
    if sc.prev == CONFLICT then
      if IsKnown(curr) then Scanner([curr.n], curr.n, sc.open, i, sc.events) else sc
    else if IsKnown(curr) && curr != Num(sc.prev) then
      Scanner(sc.values + [curr.n], curr.n, Nothing, sc.first, sc.events + [Ended(series, i, sc.prev, sc.open)])
    else if curr != Num(sc.prev) && sc.open.Nothing? then sc.(open := Since(i, sc.prev))
    else sc
  }

  lemma ScansNext(series: seq<Sample>, i: nat, sc: Scanner)
    requires i < |series| && Scans(series, i, sc)
    ensures Scans(series, i + 1, Scanned(series, i, sc))
  {
    OneMoreSample(series, i);
    if sc.prev == CONFLICT {
      NotYet(series, i, sc.events, sc.first);
    } else if IsKnown(series[i]) && series[i] != Num(sc.prev) {
      Change(series, i, sc.values, sc.prev, sc.open, sc.first, sc.events);
    } else {
      NoChange(series, i, sc.values, sc.prev, sc.open, sc.first, sc.events);
    }
  }

  /** After the last event (or the first known primary) no other primary is known. */
  ghost predicate Settles(series: seq<Sample>, first: nat, events: seq<Switchover>) {
    var anchor := Anchor(first, events, |events|);
    forall t :: anchor <= t < |series| && IsKnown(series[t]) ==> series[t] == series[anchor]
  }

  /** The scanner at the end of the series. */
  lemma ScanEnds(series: seq<Sample>, values: seq<int>, prev: int, open: Open, first: nat, events: seq<Switchover>)
    requires Scanning(series, |series|, values, prev, open, first, events)
    ensures values != [] ==> IsFirstKnown(series, first)
    ensures AreSwitchovers(series, first, events) && Settles(series, first, events)
  {
    if prev >= 0 {
      var anchor := Anchor(first, events, |events|);
      assert Rest(series, |series|, prev, open, anchor);
      forall t | anchor <= t < |series| && IsKnown(series[t]) ensures series[t] == series[anchor] {
        assert series[t] == Num(prev) && series[anchor] == Num(prev);
      }
    } else {
      assert events == [];
    }
  }

  /** The events of a subcluster are the changes of its known primaries, one after another. */
  method CalcSwitchovers(series: seq<Sample>) returns (events: seq<Switchover>, ghost first: nat)
    requires forall s :: s in series && s.Num? ==> s.n >= CONFLICT
    ensures ArePairs(Compact(KnownOf(series)), events)
    ensures KnownOf(series) != [] ==> IsFirstKnown(series, first)
    ensures AreSwitchovers(series, first, events)
    ensures Settles(series, first, events)
  {
    events, first := [], 0;
    var open := Nothing;
    var prev := CONFLICT;
    ghost var sc := Scanner([], prev, open, first, events);
    for i := 0 to |series|
      invariant Scans(series, i, sc)
      invariant sc.prev == prev && sc.open == open && sc.first == first && sc.events == events
    {
      var curr := series[i];
      ScansNext(series, i, sc);
      sc := Scanned(series, i, sc);
      if prev == CONFLICT {
        if curr.Num? {
          prev := curr.n;
        }
        first := sc.first;
        continue;
      }
      if curr != Num(prev) && open.Nothing? {
        open := Since(i, prev);
      }
      if curr != Num(prev) && open.Since? && IsKnown(curr) {
        events := events + [Switchover(open.start, i, open.from, curr.n)];
        open := Nothing;
      }
      if IsKnown(curr) {
        prev := curr.n;
      }
    }
    ScanEnds(series, sc.values, prev, open, first, events);
  }

  /** Each switchover starts from where the one before went, after it ended. */
  lemma OneAfterAnother(series: seq<Sample>, first: nat, events: seq<Switchover>, k: nat)
    requires ArePairs(Compact(KnownOf(series)), events) && AreSwitchovers(series, first, events) && k < |events|
    ensures events[k].start <= events[k].end && events[k].from != events[k].to
    ensures k + 1 < |events| ==> events[k + 1].from == events[k].to && events[k].end < events[k + 1].start
  {
    assert EventAt(series, first, events, k);
    if k + 1 < |events| {
      assert EventAt(series, first, events, k + 1);
    }
  }

  lemma SameSwitchover(series: seq<Sample>, anchor: nat, x: Switchover, y: Switchover)
    requires IsSwitchover(series, anchor, x) && IsSwitchover(series, anchor, y)
    ensures x == y
  {
    assert series[anchor] == Num(x.from) && series[anchor] == Num(y.from);
    assert forall t :: anchor <= t < x.start ==> series[t] == Num(x.from);
    assert forall t :: anchor <= t < y.start ==> series[t] == Num(x.from);
    assert IsKnown(series[x.end]) && IsKnown(series[y.end]);
  }

  /** There is one such list of events of a length: nothing about them is left open. */
  lemma {:induction false} SwitchoversAreUnique(series: seq<Sample>, first: nat, a: seq<Switchover>, b: seq<Switchover>, n: nat)
    requires AreSwitchovers(series, first, a) && AreSwitchovers(series, first, b) && n <= |a| && n <= |b|
    ensures forall k :: 0 <= k < n ==> a[k] == b[k]
  {
    if n > 0 {
      SwitchoversAreUnique(series, first, a, b, n - 1);
      assert Anchor(first, a, n - 1) == Anchor(first, b, n - 1);
      assert EventAt(series, first, a, n - 1) && EventAt(series, first, b, n - 1);
      SameSwitchover(series, Anchor(first, a, n - 1), a[n - 1], b[n - 1]);
    }
  }

  // ----- when an event starts with the loss of the old primary -----

  /** The old primary is not seen again between the start of the event and its end. */
  predicate StartsWhenLost(series: seq<Sample>, e: Switchover) {
    forall t :: e.start <= t < e.end && t < |series| ==> series[t] != Num(e.from)
  }

  ghost predicate AllStartWhenLost(series: seq<Sample>, events: seq<Switchover>) {
    forall k :: 0 <= k < |events| ==> StartsWhenLost(series, events[k])
  }

  /** A primary is seen at a, none is known at g, it is seen again at b with no other in between, and at
      d another one. */
  predicate ComesBack(series: seq<Sample>, a: nat, g: nat, b: nat, d: nat) {
    && a < g < b < d < |series|
    && IsKnown(series[a]) && !IsKnown(series[g]) && series[b] == series[a]
    && IsKnown(series[d]) && series[d] != series[a]
    && forall t :: a < t < b && IsKnown(series[t]) ==> series[t] == series[a]
  }

  /** The event in which a known sample lies: from its anchor on, before its end. */
  lemma {:induction false} EventOf(series: seq<Sample>, first: nat, events: seq<Switchover>, a: nat, n: nat) returns (k: nat)
    requires AreSwitchovers(series, first, events) && n <= |events| && Anchor(first, events, n) > a >= first
    ensures k < n && Anchor(first, events, k) <= a < events[k].end
    decreases n
  {
    assert EventAt(series, first, events, n - 1);
    if Anchor(first, events, n - 1) <= a {
      k := n - 1;
    } else {
      k := EventOf(series, first, events, a, n - 1);
    }
  }

  lemma AfterFirst(series: seq<Sample>, first: nat, a: nat)
    requires IsFirstKnown(series, first) && a < |series| && IsKnown(series[a])
    ensures first <= a
  {
  }

  /** A primary that comes back makes an event that starts before its last loss. */
  lemma ComingBackStartsEarly(series: seq<Sample>, first: nat, events: seq<Switchover>, a: nat, g: nat, b: nat, d: nat)
    requires AreSwitchovers(series, first, events) && Settles(series, first, events) && IsFirstKnown(series, first)
    requires ComesBack(series, a, g, b, d)
    ensures !AllStartWhenLost(series, events)
  {
    AfterFirst(series, first, a);
    ChangeIsCovered(series, first, events, a, d);
    var k := EventOf(series, first, events, a, |events|);
    assert EventAt(series, first, events, k);
    InOneEvent(series, Anchor(first, events, k), events[k], a, g, b);
    assert !StartsWhenLost(series, events[k]);
  }

  lemma ChangeIsCovered(series: seq<Sample>, first: nat, events: seq<Switchover>, a: nat, d: nat)
    requires Settles(series, first, events) && a < d < |series|
    requires IsKnown(series[a]) && IsKnown(series[d]) && series[a] != series[d]
    ensures a < Anchor(first, events, |events|)
  {
  }

  lemma InOneEvent(series: seq<Sample>, anchor: nat, e: Switchover, a: nat, g: nat, b: nat)
    requires IsSwitchover(series, anchor, e) && anchor <= a < e.end && a < g < b < |series|
    requires IsKnown(series[a]) && !IsKnown(series[g]) && series[b] == series[a]
    requires forall t :: a < t < b && IsKnown(series[t]) ==> series[t] == series[a]
    ensures !StartsWhenLost(series, e)
  {
    assert series[anchor] == Num(e.from);
    assert series[a] == Num(e.from) by {
      if a < e.start {
        assert series[a] == Num(e.from);
      }
    }
    assert IsKnown(series[e.end]) && series[e.end] != series[a];
    assert b < e.end;
    assert e.start <= g;
  }

  /** Every event starts when its old primary was last lost if and only if no primary comes back after
      a gap or a conflict before another one takes over. */
  lemma StartsWhenLostIff(series: seq<Sample>, first: nat, events: seq<Switchover>)
    requires AreSwitchovers(series, first, events) && Settles(series, first, events)
    requires KnownOf(series) != [] ==> IsFirstKnown(series, first)
    ensures AllStartWhenLost(series, events) <==> !exists a, g, b, d :: ComesBack(series, a, g, b, d)
  {
    if a, g, b, d :| ComesBack(series, a, g, b, d) {
      KnownIsListed(series, a);
      ComingBackStartsEarly(series, first, events, a, g, b, d);
    }
    if !AllStartWhenLost(series, events) {
      var k :| 0 <= k < |events| && !StartsWhenLost(series, events[k]);
      assert EventAt(series, first, events, k);
      EarlyIsComingBack(series, Anchor(first, events, k), events[k]);
    }
  }

  lemma EarlyIsComingBack(series: seq<Sample>, anchor: nat, e: Switchover)
    requires IsSwitchover(series, anchor, e) && !StartsWhenLost(series, e)
    ensures exists a, g, b, d :: ComesBack(series, a, g, b, d)
  {
    var t :| e.start <= t < e.end && t < |series| && series[t] == Num(e.from);
    assert series[e.start - 1] == Num(e.from);
    assert ComesBack(series, e.start - 1, e.start, t, e.end);
  }

  lemma {:induction false} KnownIsListed(series: seq<Sample>, a: nat)
    requires a < |series| && IsKnown(series[a])
    ensures KnownOf(series) != []
  {
    if a < |series| - 1 {
      KnownIsListed(series[..|series| - 1], a);
    }
  }

  /** It happens: the primary 0 is not seen once, comes back, and 1 takes over; the event starts with
      the sample in which 0 was not seen, not with the one in which 1 is. */
  lemma EarlyStart(events: seq<Switchover>, first: nat)
    requires var series := [Num(0), NaN, Num(0), Num(1)];
             ArePairs(Compact(KnownOf(series)), events) && AreSwitchovers(series, first, events) && IsFirstKnown(series, first)
    ensures events == [Switchover(1, 3, 0, 1)]
    ensures !StartsWhenLost([Num(0), NaN, Num(0), Num(1)], events[0])
  {
    var series := [Num(0), NaN, Num(0), Num(1)];
    assert IsKnown(series[0]);
    assert first == 0;
    KnownOfExample(series);
    assert EventAt(series, first, events, 0);
    SameSwitchover(series, 0, events[0], Switchover(1, 3, 0, 1));
    assert series[2] == Num(0);
  }

  predicate IsExample(series: seq<Sample>) {
    |series| == 4 && series[0] == series[2] == Num(0) && series[1] == NaN && series[3] == Num(1)
  }

  lemma KnownAtFirst(series: seq<Sample>)
    requires IsExample(series)
    ensures Known(series, 1) == [0]
  {
    OneMoreSample(series, 0);
  }

  lemma KnownOfGap(series: seq<Sample>)
    requires IsExample(series)
    ensures Known(series, 2) == [0]
  {
    KnownAtFirst(series);
    OneMoreSample(series, 1);
  }

  lemma KnownOfReturn(series: seq<Sample>)
    requires IsExample(series)
    ensures Known(series, 3) == [0]
  {
    KnownOfGap(series);
    OneMoreSample(series, 2);
  }

  lemma KnownOfExample(series: seq<Sample>)
    requires IsExample(series)
    ensures Compact(KnownOf(series)) == [0, 1]
  {
    KnownOfReturn(series);
    OneMoreSample(series, 3);
  }
}

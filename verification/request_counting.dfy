/** collector/request_counting.go: the decision behind the Counted column.

    For each pair of a server and a protocol the collector keeps two times, the latest server span of
    a node agent and that of an SDK; it forgets lazily, and is taught by the spans it counts and by
    rows other replicas stored. Here the memory is run on its whole history of calls, and its answers
    are shown to be a plain statement about that history, whenever the forgetting happened. */
module RequestCounting {
  import opened Prelude

  // A server not heard of for this long is taken not to record.
  const SERVER_SPAN_MEMORY: int := HOUR

  datatype Key = Key(server: string, protocol: string)

  /** What ClickHouse has stored of a source: the server, the protocol, and when. */
  datatype Row = Row(key: Key, fromAgent: bool, lastSeen: Instant)

  datatype Span = Span(kind: SpanKind, fromAgent: bool, key: Key, now: Instant)

  /** One call: a span was counted, or rows were read from ClickHouse at some moment. */
  datatype Event = Counting(span: Span) | Reading(rows: seq<Row>, at: Instant)

  type Times = map<Key, Instant>

  datatype Memory = Memory(byAgent: Times, bySDK: Times, lastPrune: int) {
    function Of(fromAgent: bool): Times {
      if fromAgent then byAgent else bySDK
    }
  }

  const EMPTY: Memory := Memory(map[], map[], ZERO_TIME)

  predicate Recent(times: Times, key: Key, now: Instant) {
    key in times && now - times[key] < SERVER_SPAN_MEMORY
  }

  /** What is left of the times after a prune at now. */
  function Kept(times: Times, now: Instant): Times {
    map key | key in times && now - times[key] < SERVER_SPAN_MEMORY :: times[key]
  }

  function Pruned(m: Memory, now: Instant): Memory {
    Memory(Kept(m.byAgent, now), Kept(m.bySDK, now), now)
  }

  predicate PruneDue(m: Memory, now: Instant) {
    now - m.lastPrune >= SERVER_SPAN_MEMORY
  }

  /** A server span of a known protocol tells that its server records its side. */
  predicate Tells(span: Span) {
    span.kind == Server && span.key.protocol != ""
  }

  function Recorded(m: Memory, span: Span): Memory {
    if !Tells(span) then m
    else if span.fromAgent then m.(byAgent := m.byAgent[span.key := span.now])
    else m.(bySDK := m.bySDK[span.key := span.now])
  }

  /** The answer of counted, once the memory is pruned and the span recorded. */
  predicate Verdict(m: Memory, span: Span) {
    span.key.protocol == "" ||
    match span.kind
    case Server => !span.fromAgent || !Recent(m.bySDK, span.key, span.now)
    case Client => !Recent(m.byAgent, span.key, span.now) && !Recent(m.bySDK, span.key, span.now)
    case _ => true
  }

  function Later(times: Times, row: Row): Times {
    if row.lastSeen > (if row.key in times then times[row.key] else ZERO_TIME)
    then times[row.key := row.lastSeen] else times
  }

  function Remembered(m: Memory, rows: seq<Row>): Memory {
    if rows == [] then m
    else
      var before := Remembered(m, rows[..|rows| - 1]);
      var row := rows[|rows| - 1];
      if row.fromAgent then before.(byAgent := Later(before.byAgent, row))
      else before.(bySDK := Later(before.bySDK, row))
  }

  /** One call on the memory, with a prune before it or not. */
  function Step(m: Memory, e: Event, prune: bool): Memory {
    match e
    case Counting(span) => Recorded(if prune then Pruned(m, span.now) else m, span)
    case Reading(rows, at) => Remembered(if prune then Pruned(m, at) else m, rows)
  }

  /** The memory after a history, pruning before exactly the calls prunes says. */
  function RunPruning(h: seq<Event>, prunes: nat -> bool): Memory {
    if h == [] then EMPTY
    else Step(RunPruning(h[..|h| - 1], prunes), h[|h| - 1], prunes(|h| - 1))
  }

  /** The code prunes in counted only, and at most once per SERVER_SPAN_MEMORY. */
  predicate CodePrunes(m: Memory, e: Event) {
    e.Counting? && PruneDue(m, e.span.now)
  }

  function Run(h: seq<Event>): Memory {
    if h == [] then EMPTY
    else
      var m := Run(h[..|h| - 1]);
      Step(m, h[|h| - 1], CodePrunes(m, h[|h| - 1]))
  }

  /** The answer counted gives to a span after the history h. */
  predicate Answer(h: seq<Event>, span: Span) {
    Verdict(Step(Run(h), Counting(span), CodePrunes(Run(h), Counting(span))), span)
  }

  /** ... and the one it would give pruning when prunes and now say. */
  predicate AnswerPruning(h: seq<Event>, span: Span, prunes: nat -> bool) {
    Verdict(Step(RunPruning(h, prunes), Counting(span), prunes(|h|)), span)
  }

  // ----- the specification: a statement about the history -----

  function At(e: Event): Instant {
    match e
    case Counting(span) => span.now
    case Reading(_, at) => at
  }

  /** The clock never goes back and no row is from the future. */
  ghost predicate WellTimed(h: seq<Event>) {
    && (forall i, j :: 0 <= i < j < |h| ==> At(h[i]) <= At(h[j]))
    && (forall i :: 0 <= i < |h| ==> h[i].Reading? ==> forall row :: row in h[i].rows ==> row.lastSeen <= h[i].at)
  }

  /** The call tells that the source (agent or SDK) recorded key's side at time t. */
  ghost predicate ToldBy(e: Event, key: Key, fromAgent: bool, t: Instant) {
    match e
    case Counting(span) => Tells(span) && span.key == key && span.fromAgent == fromAgent && span.now == t
    case Reading(rows, _) => Row(key, fromAgent, t) in rows
  }

  ghost predicate Told(h: seq<Event>, key: Key, fromAgent: bool, t: Instant) {
    exists i :: 0 <= i < |h| && ToldBy(h[i], key, fromAgent, t)
  }

  /** Some earlier server span or row of the key is less than SERVER_SPAN_MEMORY old. */
  ghost predicate KnownToRecord(h: seq<Event>, key: Key, fromAgent: bool, now: Instant) {
    exists t: Instant :: Told(h, key, fromAgent, t) && now - t < SERVER_SPAN_MEMORY
  }

  /** What the documentation of serverSpanSources promises. */
  ghost predicate ShouldCount(h: seq<Event>, span: Span) {
    && (span.kind == Client && span.key.protocol != "" ==>
          !KnownToRecord(h, span.key, true, span.now) && !KnownToRecord(h, span.key, false, span.now))
    && (span.kind == Server && span.fromAgent && span.key.protocol != "" ==>
          !KnownToRecord(h, span.key, false, span.now))
  }

  // ----- the memory agrees with the history -----

  function Entry(m: Memory, key: Key, fromAgent: bool): Option<Instant> {
    var times := m.Of(fromAgent);
    if key in times then Some(times[key]) else None
  }

  /** What was told is covered by a later entry, or already forgotten by all. */
  predicate Covered(entry: Option<Instant>, t: Instant, clock: int) {
    (entry.Some? && t <= entry.value) || clock - t >= SERVER_SPAN_MEMORY
  }

  /** The entry of a key and source, clock being the time of the last call: it was told, and
      whatever was told is covered. */
  ghost predicate Agrees(entry: Option<Instant>, h: seq<Event>, key: Key, fromAgent: bool, clock: int) {
    && (entry.Some? ==> Told(h, key, fromAgent, entry.value))
    && (forall t: Instant :: Told(h, key, fromAgent, t) ==> Covered(entry, t, clock))
  }

  function Clock(h: seq<Event>): int {
    if h == [] then ZERO_TIME else At(h[|h| - 1])
  }

  lemma WellTimedPrefix(h: seq<Event>)
    requires WellTimed(h) && h != []
    ensures WellTimed(h[..|h| - 1]) && Clock(h[..|h| - 1]) <= At(h[|h| - 1])
  {
  }

  lemma ToldSplit(h: seq<Event>, key: Key, fromAgent: bool, t: Instant)
    requires h != []
    ensures Told(h, key, fromAgent, t)
            <==> Told(h[..|h| - 1], key, fromAgent, t) || ToldBy(h[|h| - 1], key, fromAgent, t)
  {
    var before := h[..|h| - 1];
    if Told(h, key, fromAgent, t) {
      var i :| 0 <= i < |h| && ToldBy(h[i], key, fromAgent, t);
      if i < |h| - 1 {
        assert ToldBy(before[i], key, fromAgent, t);
      }
    }
    if Told(before, key, fromAgent, t) {
      var i :| 0 <= i < |before| && ToldBy(before[i], key, fromAgent, t);
      assert ToldBy(h[i], key, fromAgent, t);
    }
  }

  lemma {:induction false} ToldNotAfterClock(h: seq<Event>, key: Key, fromAgent: bool, t: Instant)
    requires WellTimed(h) && Told(h, key, fromAgent, t)
    ensures t <= Clock(h)
  {
    var i :| 0 <= i < |h| && ToldBy(h[i], key, fromAgent, t);
    assert t <= At(h[i]) <= At(h[|h| - 1]);
  }

  /** The entry after a call is the one before it or what the call tells, whichever is later. */
  ghost predicate Updated(was: Option<Instant>, entry: Option<Instant>, e: Event, key: Key, fromAgent: bool) {
    && (was.Some? ==> entry.Some? && was.value <= entry.value)
    && (forall t: Instant :: ToldBy(e, key, fromAgent, t) ==> entry.Some? && t <= entry.value)
    && (entry.Some? && entry != was ==> ToldBy(e, key, fromAgent, entry.value))
  }

  lemma {:induction false} RememberedIsLatest(m: Memory, rows: seq<Row>, at: Instant, key: Key, fromAgent: bool)
    ensures Updated(Entry(m, key, fromAgent), Entry(Remembered(m, rows), key, fromAgent), Reading(rows, at), key, fromAgent)
  {
    if rows != [] {
      var before := rows[..|rows| - 1];
      RememberedIsLatest(m, before, at, key, fromAgent);
      assert rows == before + [rows[|rows| - 1]];
      assert forall t: Instant :: ToldBy(Reading(rows, at), key, fromAgent, t)
               <==> ToldBy(Reading(before, at), key, fromAgent, t) || rows[|rows| - 1] == Row(key, fromAgent, t);
    }
  }

  lemma StepUpdates(p: Memory, e: Event, key: Key, fromAgent: bool)
    requires var was := Entry(p, key, fromAgent); was.Some? ==> was.value <= At(e)
    ensures Updated(Entry(p, key, fromAgent), Entry(Step(p, e, false), key, fromAgent), e, key, fromAgent)
  {
    if e.Reading? {
      RememberedIsLatest(p, e.rows, e.at, key, fromAgent);
    }
  }

  /** A prune takes an entry away only once it is stale. */
  lemma PruneAtKey(m: Memory, now: Instant, key: Key, fromAgent: bool)
    ensures var was := Entry(m, key, fromAgent);
            Entry(Pruned(m, now), key, fromAgent)
            == if was.Some? && now - was.value >= SERVER_SPAN_MEMORY then None else was
  {
  }

  lemma UpdateKeepsAgreement(was: Option<Instant>, kept: Option<Instant>, entry: Option<Instant>, h: seq<Event>, key: Key, fromAgent: bool)
    requires WellTimed(h) && h != []
    requires Agrees(was, h[..|h| - 1], key, fromAgent, Clock(h[..|h| - 1]))
    requires kept == was || (kept == None && was.Some? && At(h[|h| - 1]) - was.value >= SERVER_SPAN_MEMORY)
    requires Updated(kept, entry, h[|h| - 1], key, fromAgent)
    ensures Agrees(entry, h, key, fromAgent, Clock(h))
  {
    var before := h[..|h| - 1];
    WellTimedPrefix(h);
    if entry.Some? {
      ToldSplit(h, key, fromAgent, entry.value);
    }
    forall t: Instant | Told(h, key, fromAgent, t) ensures Covered(entry, t, Clock(h)) {
      ToldSplit(h, key, fromAgent, t);
      if Told(before, key, fromAgent, t) {
        assert Covered(was, t, Clock(before));
      }
    }
  }

  lemma {:induction false} RunAgrees(h: seq<Event>, prunes: nat -> bool, key: Key, fromAgent: bool)
    requires WellTimed(h)
    ensures Agrees(Entry(RunPruning(h, prunes), key, fromAgent), h, key, fromAgent, Clock(h))
  {
    if h == [] {
      return;
    }
    var before, e := h[..|h| - 1], h[|h| - 1];
    WellTimedPrefix(h);
    RunAgrees(before, prunes, key, fromAgent);
    var m := RunPruning(before, prunes);
    var p := if prunes(|h| - 1) then Pruned(m, At(e)) else m;
    PruneAtKey(m, At(e), key, fromAgent);
    var was, kept := Entry(m, key, fromAgent), Entry(p, key, fromAgent);
    if was.Some? {
      ToldNotAfterClock(before, key, fromAgent, was.value);
    }
    StepUpdates(p, e, key, fromAgent);
    assert Step(p, e, false) == RunPruning(h, prunes);
    UpdateKeepsAgreement(was, kept, Entry(RunPruning(h, prunes), key, fromAgent), h, key, fromAgent);
  }

  /** The entries of a key that are not stale, and so the answers, are those of the history. */
  lemma RecentIsKnown(h: seq<Event>, prunes: nat -> bool, key: Key, fromAgent: bool, now: Instant)
    requires WellTimed(h) && Clock(h) <= now
    ensures Recent(RunPruning(h, prunes).Of(fromAgent), key, now) <==> KnownToRecord(h, key, fromAgent, now)
  {
    RunAgrees(h, prunes, key, fromAgent);
  }

  lemma {:induction false} CodeIsOneSchedule(h: seq<Event>, n: nat)
    requires n <= |h|
    ensures RunPruning(h[..n], CodeSchedule(h)) == Run(h[..n])
  {
    if n > 0 {
      CodeIsOneSchedule(h, n - 1);
      assert h[..n][..n - 1] == h[..n - 1];
    }
  }

  /** When the code prunes in the history h (and, for indices past it, that it does not). */
  function CodeSchedule(h: seq<Event>): nat -> bool {
    (i: nat) => i < |h| && CodePrunes(Run(h[..i]), h[i])
  }

  /** Whatever calls were pruned before, the answer is the one of the specification. */
  lemma PruningIsInvisible(h: seq<Event>, span: Span, prunes: nat -> bool)
    requires WellTimed(h + [Counting(span)])
    ensures AnswerPruning(h, span, prunes) <==> ShouldCount(h, span)
  {
    var all := h + [Counting(span)];
    assert all[..|all| - 1] == h;
    WellTimedPrefix(all);
    RecentIsKnown(h, prunes, span.key, true, span.now);
    RecentIsKnown(h, prunes, span.key, false, span.now);
  }

  /** The whole-run meaning of Counted. */
  lemma CountedMeaning(h: seq<Event>, span: Span)
    requires WellTimed(h + [Counting(span)])
    ensures Answer(h, span) <==> ShouldCount(h, span)
  {
    var all := h + [Counting(span)];
    var schedule := CodeSchedule(all);
    PruningIsInvisible(h, span, schedule);
    CodeIsOneSchedule(all, |h|);
    assert all[..|h|] == h;
  }

  // ----- the spans of one request -----

  /** The spans of one request, by their positions in the history: its client's, its server's by
      the node agent and its server's by the SDK. */
  datatype Request = Request(key: Key, client: Option<nat>, agent: Option<nat>, sdk: Option<nat>) {
    function Positions(): set<nat> {
      One(client) + One(agent) + One(sdk)
    }
  }

  function One(position: Option<nat>): set<nat> {
    if position.Some? then {position.value} else {}
  }

  ghost predicate SpanAt(h: seq<Event>, i: nat, key: Key, kind: SpanKind) {
    i < |h| && h[i].Counting? && h[i].span.key == key && h[i].span.kind == kind
  }

  /** The request's server side is recorded by exactly the sources in recorders (true: the agent). */
  ghost predicate RecordedBy(h: seq<Event>, q: Request, recorders: set<bool>) {
    && q.key.protocol != ""
    && (q.agent.Some? <==> true in recorders)
    && (q.sdk.Some? <==> false in recorders)
    && (q.client.Some? ==> SpanAt(h, q.client.value, q.key, Client))
    && (q.agent.Some? ==> SpanAt(h, q.agent.value, q.key, Server) && h[q.agent.value].span.fromAgent)
    && (q.sdk.Some? ==> SpanAt(h, q.sdk.value, q.key, Server) && !h[q.sdk.value].span.fromAgent)
  }

  /** Nothing ever told of another source recording this key. */
  ghost predicate OnlyRecorders(h: seq<Event>, key: Key, recorders: set<bool>) {
    forall fromAgent: bool, t: Instant :: Told(h, key, fromAgent, t) ==> fromAgent in recorders
  }

  predicate CountedAt(h: seq<Event>, i: nat) {
    i < |h| && h[i].Counting? && Answer(h[..i], h[i].span)
  }

  function Once(h: seq<Event>, position: Option<nat>): nat {
    if position.Some? && CountedAt(h, position.value) then 1 else 0
  }

  /** How many spans of the request the views count. */
  function TimesCounted(h: seq<Event>, q: Request): nat {
    Once(h, q.client) + Once(h, q.agent) + Once(h, q.sdk)
  }

  lemma AnswerAt(h: seq<Event>, i: nat)
    requires WellTimed(h) && i < |h| && h[i].Counting?
    ensures CountedAt(h, i) <==> ShouldCount(h[..i], h[i].span)
  {
    assert h[..i] + [h[i]] == h[..i + 1];
    CountedMeaning(h[..i], h[i].span);
  }

  lemma NotToldByOthers(h: seq<Event>, i: nat, key: Key, recorders: set<bool>, fromAgent: bool, now: Instant)
    requires OnlyRecorders(h, key, recorders) && i <= |h| && fromAgent !in recorders
    ensures !KnownToRecord(h[..i], key, fromAgent, now)
  {
    forall t: Instant | Told(h[..i], key, fromAgent, t) ensures false {
      var k :| 0 <= k < i && ToldBy(h[..i][k], key, fromAgent, t);
      assert ToldBy(h[k], key, fromAgent, t);
      assert Told(h, key, fromAgent, t);
    }
  }

  /** Never a request not counted: whatever is known when. */
  lemma NoUndercount(h: seq<Event>, q: Request, recorders: set<bool>)
    requires WellTimed(h) && RecordedBy(h, q, recorders) && OnlyRecorders(h, q.key, recorders)
    requires true in recorders || false in recorders || q.client.Some?
    ensures TimesCounted(h, q) >= 1
  {
    if false in recorders {
      AnswerAt(h, q.sdk.value);
    } else if true in recorders {
      var i := q.agent.value;
      AnswerAt(h, i);
      NotToldByOthers(h, i, q.key, recorders, false, h[i].span.now);
    } else {
      var i := q.client.value;
      AnswerAt(h, i);
      NotToldByOthers(h, i, q.key, recorders, false, h[i].span.now);
      NotToldByOthers(h, i, q.key, recorders, true, h[i].span.now);
    }
  }

  /** The source that decides for a key: its SDK, or its agent if no SDK records. */
  function Decider(recorders: set<bool>): bool {
    if false in recorders then false else true
  }

  /** A server span of the deciding source. */
  ghost predicate Deciding(h: seq<Event>, i: nat, key: Key, recorders: set<bool>) {
    SpanAt(h, i, key, Server) && h[i].span.fromAgent == Decider(recorders)
  }

  ghost predicate Consecutive(h: seq<Event>, i: nat, j: nat, key: Key, recorders: set<bool>) {
    && i < j && Deciding(h, i, key, recorders) && Deciding(h, j, key, recorders)
    && forall k: nat :: i < k < j ==> !Deciding(h, k, key, recorders)
  }

  /** Consecutive deciding spans of the key are less than SERVER_SPAN_MEMORY apart. */
  ghost predicate Steady(h: seq<Event>, key: Key, recorders: set<bool>) {
    forall i: nat, j: nat :: Consecutive(h, i, j, key, recorders) ==> At(h[j]) - At(h[i]) < SERVER_SPAN_MEMORY
  }

  /** The spans of the request are processed less than SERVER_SPAN_MEMORY apart. */
  ghost predicate Together(h: seq<Event>, q: Request) {
    forall i: nat, j: nat :: i in q.Positions() && j in q.Positions() && i < |h| && j < |h| ==> At(h[j]) - At(h[i]) < SERVER_SPAN_MEMORY
  }

  /** The last deciding span before a position. */
  lemma {:induction false} LastDeciding(h: seq<Event>, key: Key, recorders: set<bool>, first: nat, i: nat) returns (j: nat)
    requires first < i <= |h| && Deciding(h, first, key, recorders)
    ensures first <= j < i && Deciding(h, j, key, recorders)
    ensures forall k: nat :: j < k < i ==> !Deciding(h, k, key, recorders)
    decreases i
  {
    if Deciding(h, i - 1, key, recorders) {
      j := i - 1;
    } else {
      j := LastDeciding(h, key, recorders, first, i - 1);
    }
  }

  /** The first deciding span from a position on. */
  lemma {:induction false} NextDeciding(h: seq<Event>, key: Key, recorders: set<bool>, i: nat, last: nat) returns (j: nat)
    requires i <= last && Deciding(h, last, key, recorders)
    ensures i <= j <= last && Deciding(h, j, key, recorders)
    ensures forall k: nat :: i <= k < j ==> !Deciding(h, k, key, recorders)
    decreases last - i
  {
    if Deciding(h, i, key, recorders) {
      j := i;
    } else {
      j := NextDeciding(h, key, recorders, i + 1, last);
    }
  }

  /** The last deciding span before a span of such a request is recent then. */
  lemma DeciderIsRecent(h: seq<Event>, q: Request, recorders: set<bool>, own: nat, j: nat, i: nat)
    requires WellTimed(h) && Steady(h, q.key, recorders) && Together(h, q)
    requires i < |h| && j < i && own != i && i in q.Positions() && own in q.Positions()
    requires Deciding(h, own, q.key, recorders) && Deciding(h, j, q.key, recorders) && !Deciding(h, i, q.key, recorders)
    requires forall k: nat :: j < k < i ==> !Deciding(h, k, q.key, recorders)
    ensures At(h[i]) - At(h[j]) < SERVER_SPAN_MEMORY
  {
    if own > i {
      var k := NextDeciding(h, q.key, recorders, i, own);
      assert Consecutive(h, j, k, q.key, recorders);
      assert At(h[i]) <= At(h[k]);
    } else {
      assert own <= j;
      assert At(h[own]) <= At(h[j]);
      assert At(h[i]) - At(h[own]) < SERVER_SPAN_MEMORY;
    }
  }

  /** Any other span of such a request finds the deciding source known. */
  lemma DecidingIsKnown(h: seq<Event>, q: Request, recorders: set<bool>, first: nat, i: nat)
    requires WellTimed(h) && RecordedBy(h, q, recorders) && (true in recorders || false in recorders)
    requires Steady(h, q.key, recorders) && Together(h, q)
    requires Deciding(h, first, q.key, recorders) && first < i < |h|
    requires i in q.Positions() && !Deciding(h, i, q.key, recorders) && h[i].Counting?
    ensures KnownToRecord(h[..i], q.key, Decider(recorders), At(h[i]))
  {
    var own := if false in recorders then q.sdk.value else q.agent.value;
    var j := LastDeciding(h, q.key, recorders, first, i);
    DeciderIsRecent(h, q, recorders, own, j, i);
    assert ToldBy(h[..i][j], q.key, Decider(recorders), At(h[j]));
    assert Told(h[..i], q.key, Decider(recorders), At(h[j]));
  }

  /** Something that keeps a request's client span from counting is known when it is counted. */
  ghost predicate ClientSilenced(h: seq<Event>, q: Request) {
    q.client.Some? && SpanAt(h, q.client.value, q.key, Client) &&
    exists fromAgent :: KnownToRecord(h[..q.client.value], q.key, fromAgent, h[q.client.value].span.now)
  }

  ghost predicate AgentSilenced(h: seq<Event>, q: Request) {
    q.agent.Some? && SpanAt(h, q.agent.value, q.key, Server) &&
    KnownToRecord(h[..q.agent.value], q.key, false, h[q.agent.value].span.now)
  }

  /** A request is counted exactly once if and only if each of its spans that is not to count finds
      known what silences it. */
  lemma CountedOnceIff(h: seq<Event>, q: Request, recorders: set<bool>)
    requires WellTimed(h) && RecordedBy(h, q, recorders) && OnlyRecorders(h, q.key, recorders)
    requires true in recorders || false in recorders || q.client.Some?
    ensures TimesCounted(h, q) == 1
       <==> && (q.client.Some? && (true in recorders || false in recorders) ==> ClientSilenced(h, q))
            && (q.agent.Some? && q.sdk.Some? ==> AgentSilenced(h, q))
  {
    NoUndercount(h, q, recorders);
    if q.client.Some? {
      AnswerAt(h, q.client.value);
      ClientCounts(h, q, recorders);
    }
    if q.agent.Some? {
      AnswerAt(h, q.agent.value);
      if false !in recorders {
        NotToldByOthers(h, q.agent.value, q.key, recorders, false, h[q.agent.value].span.now);
      }
    }
    if q.sdk.Some? {
      AnswerAt(h, q.sdk.value);
    }
  }

  lemma ClientCounts(h: seq<Event>, q: Request, recorders: set<bool>)
    requires WellTimed(h) && RecordedBy(h, q, recorders) && OnlyRecorders(h, q.key, recorders) && q.client.Some?
    ensures CountedAt(h, q.client.value) <==> !ClientSilenced(h, q)
    ensures recorders == {} ==> !ClientSilenced(h, q)
  {
    var i := q.client.value;
    AnswerAt(h, i);
    assert KnownToRecord(h[..i], q.key, true, h[i].span.now) ==> ClientSilenced(h, q);
    assert KnownToRecord(h[..i], q.key, false, h[i].span.now) ==> ClientSilenced(h, q);
    if recorders == {} {
      NotToldByOthers(h, i, q.key, recorders, true, h[i].span.now);
      NotToldByOthers(h, i, q.key, recorders, false, h[i].span.now);
    }
  }

  /** Once the deciding source of a server was seen, it is known to all spans that are not to count, if
      it is never silent for long and the spans of the request come together. */
  lemma CountedExactlyOnce(h: seq<Event>, q: Request, recorders: set<bool>, first: nat)
    requires WellTimed(h) && RecordedBy(h, q, recorders) && OnlyRecorders(h, q.key, recorders)
    requires true in recorders || false in recorders
    requires Steady(h, q.key, recorders) && Together(h, q)
    requires Deciding(h, first, q.key, recorders) && forall i: nat :: i in q.Positions() ==> first < i
    ensures TimesCounted(h, q) == 1
  {
    CountedOnceIff(h, q, recorders);
    if q.client.Some? {
      DecidingIsKnown(h, q, recorders, first, q.client.value);
    }
    if q.agent.Some? && q.sdk.Some? {
      DecidingIsKnown(h, q, recorders, first, q.agent.value);
    }
  }

  // ----- the order of a batch -----

  /** The calls for the spans of a batch, one after another. */
  function Calls(spans: seq<Span>): seq<Event> {
    seq(|spans|, i requires 0 <= i < |spans| => Counting(spans[i]))
  }

  /** The answer for the i-th span of a batch written after the history h. */
  ghost predicate AnswerIn(h: seq<Event>, spans: seq<Span>, i: nat)
    requires i < |spans|
  {
    Answer(h + Calls(spans[..i]), spans[i])
  }

  /** Some span of the batch tells that the source records the key. */
  ghost predicate TellsIn(spans: seq<Span>, key: Key, fromAgent: bool) {
    exists s :: s in spans && Tells(s) && s.key == key && s.fromAgent == fromAgent
  }

  ghost predicate OneMoment(h: seq<Event>, spans: seq<Span>, now: Instant) {
    WellTimed(h) && Clock(h) <= now && forall s :: s in spans ==> s.now == now
  }

  lemma BatchWellTimed(h: seq<Event>, spans: seq<Span>, now: Instant, i: nat)
    requires OneMoment(h, spans, now) && i < |spans|
    ensures WellTimed(h + Calls(spans[..i]) + [Counting(spans[i])])
  {
    var all := h + Calls(spans[..i]) + [Counting(spans[i])];
    forall j | 0 <= j < |all| ensures if j < |h| then all[j] == h[j] else At(all[j]) == now {
      if j >= |h| {
        assert spans[j - |h|] in spans;
      }
    }
  }

  /** What is known within a batch: what was known before, and what its spans before this one told. */
  lemma KnownInBatch(h: seq<Event>, spans: seq<Span>, now: Instant, i: nat, key: Key, fromAgent: bool)
    requires OneMoment(h, spans, now) && i <= |spans|
    ensures KnownToRecord(h + Calls(spans[..i]), key, fromAgent, now)
       <==> KnownToRecord(h, key, fromAgent, now) || TellsIn(spans[..i], key, fromAgent)
  {
    var calls := Calls(spans[..i]);
    var all := h + calls;
    forall t: Instant ensures Told(all, key, fromAgent, t) <==> Told(h, key, fromAgent, t) || Told(calls, key, fromAgent, t) {
      ToldConcat(h, calls, key, fromAgent, t);
    }
    if t: Instant :| Told(calls, key, fromAgent, t) {
      var k :| 0 <= k < |calls| && ToldBy(calls[k], key, fromAgent, t);
      assert spans[..i][k] in spans[..i];
    }
    if TellsIn(spans[..i], key, fromAgent) {
      var s :| s in spans[..i] && Tells(s) && s.key == key && s.fromAgent == fromAgent;
      var k :| 0 <= k < i && spans[k] == s;
      assert s in spans && ToldBy(calls[k], key, fromAgent, now);
      assert Told(calls, key, fromAgent, now);
    }
    if KnownToRecord(all, key, fromAgent, now) {
      var t: Instant :| Told(all, key, fromAgent, t) && now - t < SERVER_SPAN_MEMORY;
      assert Told(h, key, fromAgent, t) || Told(calls, key, fromAgent, t);
    }
  }

  lemma ToldConcat(h: seq<Event>, calls: seq<Event>, key: Key, fromAgent: bool, t: Instant)
    ensures Told(h + calls, key, fromAgent, t) <==> Told(h, key, fromAgent, t) || Told(calls, key, fromAgent, t)
  {
    var all := h + calls;
    if Told(all, key, fromAgent, t) {
      var i :| 0 <= i < |all| && ToldBy(all[i], key, fromAgent, t);
      if i < |h| {
        assert ToldBy(h[i], key, fromAgent, t);
      } else {
        assert ToldBy(calls[i - |h|], key, fromAgent, t);
      }
    }
    if Told(h, key, fromAgent, t) {
      var i :| 0 <= i < |h| && ToldBy(h[i], key, fromAgent, t);
      assert ToldBy(all[i], key, fromAgent, t);
    }
    if Told(calls, key, fromAgent, t) {
      var i :| 0 <= i < |calls| && ToldBy(calls[i], key, fromAgent, t);
      assert ToldBy(all[|h| + i], key, fromAgent, t);
    }
  }

  /** A source is known, or told of by a span of the batch. */
  ghost predicate KnownOrTold(h: seq<Event>, spans: seq<Span>, key: Key, fromAgent: bool, now: Instant) {
    KnownToRecord(h, key, fromAgent, now) || TellsIn(spans, key, fromAgent)
  }

  /** The answer within a batch, in terms of what was known before it and what its earlier spans tell. */
  lemma AnswerInBatch(h: seq<Event>, spans: seq<Span>, now: Instant, i: nat)
    requires OneMoment(h, spans, now) && i < |spans|
    ensures var s := spans[i];
            AnswerIn(h, spans, i) <==>
              && (s.kind == Client && s.key.protocol != "" ==>
                    !KnownOrTold(h, spans[..i], s.key, true, now) && !KnownOrTold(h, spans[..i], s.key, false, now))
              && (s.kind == Server && s.fromAgent && s.key.protocol != "" ==> !KnownOrTold(h, spans[..i], s.key, false, now))
  {
    assert spans[i] in spans;
    BatchWellTimed(h, spans, now, i);
    CountedMeaning(h + Calls(spans[..i]), spans[i]);
    KnownInBatch(h, spans, now, i, spans[i].key, true);
    KnownInBatch(h, spans, now, i, spans[i].key, false);
  }

  /** A span that would heed another, when it does not know yet what that one tells. */
  ghost predicate Heeds(h: seq<Event>, now: Instant, s: Span, x: Span) {
    && s.key.protocol != "" && Tells(x) && x.key == s.key
    && (s.kind == Client || (s.kind == Server && s.fromAgent && !x.fromAgent))
    && !KnownToRecord(h, s.key, false, now) && (s.kind == Client ==> !KnownToRecord(h, s.key, true, now))
  }

  /** No span of the batch decides for another, or what it would tell is known already. */
  ghost predicate OrderFree(h: seq<Event>, spans: seq<Span>, now: Instant) {
    forall s :: s in spans && s.key.protocol != "" ==>
      && (s.kind == Client && (TellsIn(spans, s.key, true) || TellsIn(spans, s.key, false)) ==>
            KnownToRecord(h, s.key, true, now) || KnownToRecord(h, s.key, false, now))
      && (s.kind == Server && s.fromAgent && TellsIn(spans, s.key, false) ==> KnownToRecord(h, s.key, false, now))
  }

  /** Every order of the batch gives each of its spans the same answer. */
  ghost predicate SameInAnyOrder(h: seq<Event>, spans: seq<Span>) {
    forall p: seq<Span>, q: seq<Span>, i: nat, j: nat ::
      multiset(p) == multiset(spans) && multiset(q) == multiset(spans) && i < |p| && j < |q| && p[i] == q[j] ==>
        AnswerIn(h, p, i) == AnswerIn(h, q, j)
  }

  /** The order of the spans of a batch matters to Counted exactly when some span of it would tell
      another something that is not known yet. */
  lemma OrderMattersIff(h: seq<Event>, spans: seq<Span>, now: Instant)
    requires OneMoment(h, spans, now)
    ensures SameInAnyOrder(h, spans) <==> OrderFree(h, spans, now)
  {
    if OrderFree(h, spans, now) {
      forall p: seq<Span>, q: seq<Span>, i: nat, j: nat
        | multiset(p) == multiset(spans) && multiset(q) == multiset(spans) && i < |p| && j < |q| && p[i] == q[j]
        ensures AnswerIn(h, p, i) == AnswerIn(h, q, j)
      {
        FreeAnswer(h, spans, now, p, i);
        FreeAnswer(h, spans, now, q, j);
      }
    }
    forall s, x | s in spans && x in spans && Heeds(h, now, s, x) ensures !SameInAnyOrder(h, spans) {
      HeedingMatters(h, spans, now, s, x);
    }
    if !OrderFree(h, spans, now) {
      SomeHeeds(h, spans, now);
    }
  }

  /** When the condition fails, some span would heed another. */
  lemma SomeHeeds(h: seq<Event>, spans: seq<Span>, now: Instant)
    requires !OrderFree(h, spans, now)
    ensures exists s, x :: s in spans && x in spans && Heeds(h, now, s, x)
  {
    var s :| s in spans && s.key.protocol != "" &&
      !(&& (s.kind == Client && (TellsIn(spans, s.key, true) || TellsIn(spans, s.key, false)) ==>
              KnownToRecord(h, s.key, true, now) || KnownToRecord(h, s.key, false, now))
        && (s.kind == Server && s.fromAgent && TellsIn(spans, s.key, false) ==> KnownToRecord(h, s.key, false, now)));
    var fromAgent := s.kind == Client && TellsIn(spans, s.key, true);
    var x :| x in spans && Tells(x) && x.key == s.key && x.fromAgent == fromAgent;
    assert Heeds(h, now, s, x);
  }

  lemma SameElements(p: seq<Span>, spans: seq<Span>)
    requires multiset(p) == multiset(spans)
    ensures forall s :: s in p <==> s in spans
  {
    forall s ensures s in p <==> s in spans {
      assert s in p <==> s in multiset(p);
      assert s in spans <==> s in multiset(spans);
    }
  }

  /** In a batch whose order does not matter a span is answered by what was known before the batch. */
  lemma FreeAnswer(h: seq<Event>, spans: seq<Span>, now: Instant, p: seq<Span>, i: nat)
    requires OneMoment(h, spans, now) && OrderFree(h, spans, now) && multiset(p) == multiset(spans) && i < |p|
    ensures var s := p[i];
            AnswerIn(h, p, i) <==>
              && (s.kind == Client && s.key.protocol != "" ==> !KnownToRecord(h, s.key, true, now) && !KnownToRecord(h, s.key, false, now))
              && (s.kind == Server && s.fromAgent && s.key.protocol != "" ==> !KnownToRecord(h, s.key, false, now))
  {
    SameElements(p, spans);
    AnswerInBatch(h, p, now, i);
    var s := p[i];
    assert s in spans;
    forall fromAgent | TellsIn(p[..i], s.key, fromAgent) ensures TellsIn(spans, s.key, fromAgent) {
      var x :| x in p[..i] && Tells(x) && x.key == s.key && x.fromAgent == fromAgent;
      assert x in p;
    }
  }

  /** First it is counted, after the other one it is not. */
  lemma FirstIsCounted(h: seq<Event>, now: Instant, s: Span, x: Span, rest: seq<Span>)
    requires OneMoment(h, [s, x] + rest, now) && Heeds(h, now, s, x)
    ensures AnswerIn(h, [s, x] + rest, 0)
  {
    AnswerInBatch(h, [s, x] + rest, now, 0);
    assert ([s, x] + rest)[..0] == [];
  }

  lemma SecondIsNot(h: seq<Event>, now: Instant, s: Span, x: Span, rest: seq<Span>)
    requires OneMoment(h, [x, s] + rest, now) && Heeds(h, now, s, x)
    ensures !AnswerIn(h, [x, s] + rest, 1)
  {
    AnswerInBatch(h, [x, s] + rest, now, 1);
    assert ([x, s] + rest)[..1] == [x];
    assert x in [x] && TellsIn([x], s.key, x.fromAgent);
  }

  lemma HeedingMatters(h: seq<Event>, spans: seq<Span>, now: Instant, s: Span, x: Span)
    requires OneMoment(h, spans, now) && s in spans && x in spans && Heeds(h, now, s, x)
    ensures !SameInAnyOrder(h, spans)
  {
    var rest := InFront(spans, s, x);
    var p, q := [s, x] + rest, [x, s] + rest;
    SameElements(p, spans);
    SameElements(q, spans);
    FirstIsCounted(h, now, s, x, rest);
    SecondIsNot(h, now, s, x, rest);
    assert p[0] == s && q[1] == s;
  }

  lemma TakeOut(spans: seq<Span>, s: Span) returns (rest: seq<Span>)
    requires s in spans
    ensures multiset(spans) == multiset(rest) + multiset{s}
  {
    var i :| 0 <= i < |spans| && spans[i] == s;
    rest := spans[..i] + spans[i + 1..];
    assert spans == spans[..i] + [s] + spans[i + 1..];
  }

  /** Two different spans of a batch can be put in front, in either order. */
  lemma InFront(spans: seq<Span>, s: Span, x: Span) returns (rest: seq<Span>)
    requires s in spans && x in spans && s != x
    ensures multiset([s, x] + rest) == multiset(spans) && multiset([x, s] + rest) == multiset(spans)
  {
    var without := TakeOut(spans, s);
    assert x in multiset(spans) && x in multiset(without) && x in without;
    rest := TakeOut(without, x);
    assert multiset([s, x] + rest) == multiset{s, x} + multiset(rest);
    assert multiset([x, s] + rest) == multiset{s, x} + multiset(rest);
  }

  /** It happens: a client span before the first server span of its key is counted, after it it is not. */
  lemma CountedDependsOnOrder(key: Key, now: Instant)
    requires key.protocol != ""
    ensures var client, server := Span(Client, true, key, now), Span(Server, true, key, now);
            && Answer([], client) && !Answer([Counting(server)], client)
            && !SameInAnyOrder([], [client, server])
  {
    var client, server := Span(Client, true, key, now), Span(Server, true, key, now);
    CountedMeaning([], client);
    CountedMeaning([Counting(server)], client);
    assert ToldBy([Counting(server)][0], key, true, now);
    assert Told([Counting(server)], key, true, now);
    var batch := [client, server];
    OrderMattersIff([], batch, now);
    assert client in batch && server in batch;
    assert TellsIn(batch, key, true);
    assert !KnownToRecord([], key, true, now) && !KnownToRecord([], key, false, now);
  }

  // ----- the object -----

  /** Forgetting the stale times of one map, entry by entry. */
  method Forget(times: Times, now: Instant) returns (kept: Times)
    ensures kept == Kept(times, now)
  {
    kept := times;
    var todo := times.Keys;
    while todo != {}
      invariant todo <= times.Keys
      invariant kept == map key | key in times && (key in todo || now - times[key] < SERVER_SPAN_MEMORY) :: times[key]
      decreases todo
    {
      var key :| key in todo;
      if now - times[key] >= SERVER_SPAN_MEMORY {
        kept := kept - {key};
      }
      todo := todo - {key};
    }
  }

  class ServerSpanSources {
    var byAgent: Times
    var bySDK: Times
    var lastPrune: int
    ghost var history: seq<Event>

    function Value(): Memory reads this {
      Memory(byAgent, bySDK, lastPrune)
    }

    ghost predicate Valid() reads this {
      Value() == Run(history)
    }

    constructor ()
      ensures Valid() && history == []
    {
      byAgent, bySDK, lastPrune := map[], map[], ZERO_TIME;
      history := [];
    }

    method Prune(now: Instant)
      modifies this`byAgent, this`bySDK, this`lastPrune
      ensures Value() == if PruneDue(old(Value()), now) then Pruned(old(Value()), now) else old(Value())
    {
      if now - lastPrune < SERVER_SPAN_MEMORY {
        return;
      }
      lastPrune := now;
      byAgent := Forget(byAgent, now);
      bySDK := Forget(bySDK, now);
    }

    method Counted(kind: SpanKind, fromAgent: bool, server: string, protocol: string, now: Instant) returns (counts: bool)
      requires Valid()
      modifies this
      ensures Valid()
      ensures history == old(history) + [Counting(Span(kind, fromAgent, Key(server, protocol), now))]
      ensures counts == Answer(old(history), Span(kind, fromAgent, Key(server, protocol), now))
    {
      var key := Key(server, protocol);
      ghost var span := Span(kind, fromAgent, key, now);
      history := history + [Counting(span)];
      assert history[..|history| - 1] == old(history);
      Prune(now);
      counts := Decide(kind, fromAgent, key, now, span);
    }

    /** Records a server span and tells whether the span counts, once the memory is pruned. */
    method Decide(kind: SpanKind, fromAgent: bool, key: Key, now: Instant, ghost span: Span) returns (counts: bool)
      requires span == Span(kind, fromAgent, key, now)
      modifies this`byAgent, this`bySDK
      ensures Value() == Recorded(old(Value()), span) && counts == Verdict(Value(), span)
    {
      var protocol := key.protocol;
      counts := true;
      match kind {
        case Server =>
          if protocol != "" {
            if !fromAgent {
              bySDK := bySDK[key := now];
            } else {
              byAgent := byAgent[key := now];
              counts := !Recent(bySDK, key, now);
            }
          }
        case Client =>
          if protocol != "" {
            counts := !Recent(byAgent, key, now) && !Recent(bySDK, key, now);
          }
        case _ =>
      }
    }

    /** Adds the rows read from ClickHouse; now is only the moment of the history. */
    method Remember(rows: seq<Row>, ghost now: Instant)
      requires Valid()
      modifies this
      ensures Valid() && history == old(history) + [Reading(rows, now)]
    {
      ghost var was := Value();
      for i := 0 to |rows|
        invariant Value() == Remembered(was, rows[..i])
        invariant history == old(history)
      {
        var row := rows[i];
        assert rows[..i + 1][..i] == rows[..i];
        if row.fromAgent {
          if row.lastSeen > (if row.key in byAgent then byAgent[row.key] else ZERO_TIME) {
            byAgent := byAgent[row.key := row.lastSeen];
          }
        } else {
          if row.lastSeen > (if row.key in bySDK then bySDK[row.key] else ZERO_TIME) {
            bySDK := bySDK[row.key := row.lastSeen];
          }
        }
      }
      assert rows[..|rows|] == rows;
      history := history + [Reading(rows, now)];
      assert history[..|history| - 1] == old(history);
    }
  }
}

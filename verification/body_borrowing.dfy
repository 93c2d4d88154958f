/** clickhouse/traces.go: bodies that only the client's side recorded.

    One query fetches the client spans of all the server spans of a page, by key and by one range of
    time; each server span still gets what a search of the whole table for it alone would give: the
    nearest client span of its request, or nothing. */
module BodyBorrowing {
  import opened Prelude

  /** Two spans further apart than this are not taken for two sides of one request. */
  const CLIENT_SPAN_WINDOW: int := 5 * SECOND

  /** A span of the page, or a row of otel_traces: what matters here. */
  datatype TraceSpan = TraceSpan(kind: SpanKind, requestKey: nat, timestamp: Instant, httpMethod: string, target: string,
                                 requestBody: nat, responseBody: nat)

  /** Its bodies are to be looked for. */
  predicate LacksBodies(s: TraceSpan) {
    s.kind == Server && s.requestKey != 0 && s.requestBody == 0 && s.responseBody == 0
  }

  function Distance(a: TraceSpan, b: TraceSpan): int {
    if a.timestamp >= b.timestamp then a.timestamp - b.timestamp else b.timestamp - a.timestamp
  }

  /** The row is the other side of the server span: same key, method and target, close enough in time. */
  predicate IsClientOf(row: TraceSpan, server: TraceSpan) {
    && row.kind == Client && row.requestKey == server.requestKey
    && row.httpMethod == server.httpMethod && row.target == server.target
    && Distance(row, server) <= CLIENT_SPAN_WINDOW
  }

  /** The nearest of the client spans of a request. */
  ghost predicate IsNearest(table: seq<TraceSpan>, row: TraceSpan, server: TraceSpan) {
    && row in table && IsClientOf(row, server)
    && forall other :: other in table && IsClientOf(other, server) ==> Distance(row, server) <= Distance(other, server)
  }

  function WithBodies(server: TraceSpan, row: TraceSpan): TraceSpan {
    server.(requestBody := row.requestBody, responseBody := row.responseBody)
  }

  /** What a search of the table for this span alone gives. */
  ghost predicate Borrowed(table: seq<TraceSpan>, before: TraceSpan, after: TraceSpan) {
    if LacksBodies(before) && exists row :: row in table && IsClientOf(row, before) then
      exists row :: IsNearest(table, row, before) && after == WithBodies(before, row)
    else after == before
  }

  /** A span of the table is asked for. */
  predicate Asked(row: TraceSpan, keys: set<nat>, from: int, to: int) {
    row.requestKey in keys && row.kind == Client && from <= row.timestamp <= to
  }

  /** The database answers a query with the rows of the table it asks for, in any order, or fails. */
  ghost predicate Answers(table: seq<TraceSpan>, ask: (set<nat>, int, int) -> Option<seq<TraceSpan>>) {
    forall keys: set<nat>, from: int, to: int | ask(keys, from, to).Some? ::
      forall row :: row in ask(keys, from, to).value <==> row in table && Asked(row, keys, from, to)
  }

  ghost predicate CanFail(ask: (set<nat>, int, int) -> Option<seq<TraceSpan>>) {
    exists keys: set<nat>, from: int, to: int :: ask(keys, from, to).None?
  }

  // ----- the query -----

  /** The query that has been gathered from spans reaches all that they lack. */
  ghost predicate Covers(spans: seq<TraceSpan>, servers: seq<nat>, keys: set<nat>, from: int, to: int) {
    && (forall i :: i in servers <==> 0 <= i < |spans| && LacksBodies(spans[i]))
    && (forall i, j :: 0 <= i < j < |servers| ==> servers[i] != servers[j])
    && (forall i :: 0 <= i < |spans| && LacksBodies(spans[i]) ==> spans[i].requestKey in keys && from <= spans[i].timestamp <= to)
    && (servers == [] ==> from == ZERO_TIME && to == ZERO_TIME)
    && (servers != [] ==> ZERO_TIME < from <= to)
  }

  /** ... and no further. */
  ghost predicate NoFurther(spans: seq<TraceSpan>, keys: set<nat>, from: int, to: int) {
    && (forall key :: key in keys ==> Lacking(spans, key))
    && (from != ZERO_TIME ==> LackingAt(spans, from))
    && (to != ZERO_TIME ==> LackingAt(spans, to))
  }

  ghost predicate Lacking(spans: seq<TraceSpan>, key: nat) {
    exists s :: s in spans && LacksBodies(s) && s.requestKey == key
  }

  ghost predicate LackingAt(spans: seq<TraceSpan>, t: int) {
    exists s :: s in spans && LacksBodies(s) && s.timestamp == t
  }

  lemma LackingMore(spans: seq<TraceSpan>, s: TraceSpan, keys: set<nat>, from: int, to: int)
    requires NoFurther(spans, keys, from, to)
    ensures NoFurther(spans + [s], keys, from, to)
    ensures LacksBodies(s) ==> Lacking(spans + [s], s.requestKey) && LackingAt(spans + [s], s.timestamp)
  {
    assert forall x :: x in spans ==> x in spans + [s];
    assert s in spans + [s];
    forall key | key in keys ensures Lacking(spans + [s], key) {
      var x :| x in spans && LacksBodies(x) && x.requestKey == key;
      assert x in spans + [s];
    }
  }

  lemma CoversSkipped(spans: seq<TraceSpan>, s: TraceSpan, servers: seq<nat>, keys: set<nat>, from: int, to: int)
    requires Covers(spans, servers, keys, from, to) && !LacksBodies(s)
    ensures Covers(spans + [s], servers, keys, from, to)
  {
  }

  lemma CoversAdded(spans: seq<TraceSpan>, s: TraceSpan, servers: seq<nat>, keys: set<nat>, from: int, to: int)
    requires Covers(spans, servers, keys, from, to) && LacksBodies(s)
    ensures Covers(spans + [s], servers + [|spans|], keys + {s.requestKey},
                   if from == ZERO_TIME || s.timestamp < from then s.timestamp else from, Max(to, s.timestamp))
  {
    var all, last := spans + [s], |spans|;
    var more := servers + [last];
    assert last !in servers;
    forall i ensures i in more <==> 0 <= i < |all| && LacksBodies(all[i]) {
      if 0 <= i < last {
        assert all[i] == spans[i];
      }
      assert i in more <==> i in servers || i == last;
    }
    forall i | 0 <= i < |all| && LacksBodies(all[i]) ensures i == last || (i in servers && all[i] == spans[i]) {
    }
  }

  ghost predicate Gathered(spans: seq<TraceSpan>, servers: seq<nat>, keys: set<nat>, from: int, to: int) {
    Covers(spans, servers, keys, from, to) && NoFurther(spans, keys, from, to)
  }

  lemma GatherNext(spans: seq<TraceSpan>, s: TraceSpan, servers: seq<nat>, keys: set<nat>, from: int, to: int)
    requires Gathered(spans, servers, keys, from, to)
    ensures if LacksBodies(s) then
              Gathered(spans + [s], servers + [|spans|], keys + {s.requestKey},
                       if from == ZERO_TIME || s.timestamp < from then s.timestamp else from, Max(to, s.timestamp))
            else Gathered(spans + [s], servers, keys, from, to)
  {
    LackingMore(spans, s, keys, from, to);
    if LacksBodies(s) {
      CoversAdded(spans, s, servers, keys, from, to);
    } else {
      CoversSkipped(spans, s, servers, keys, from, to);
    }
  }

  method Gather(spans: array<TraceSpan>) returns (servers: seq<nat>, keys: set<nat>, from: int, to: int)
    ensures Gathered(spans[..], servers, keys, from, to)
  {
    servers, keys, from, to := [], {}, ZERO_TIME, ZERO_TIME;
    for i := 0 to spans.Length
      invariant Gathered(spans[..i], servers, keys, from, to)
    {
      var s := spans[i];
      assert spans[..i + 1] == spans[..i] + [s];
      GatherNext(spans[..i], s, servers, keys, from, to);
      if !LacksBodies(s) {
        continue;
      }
      servers := servers + [i];
      keys := keys + {s.requestKey};
      if from == ZERO_TIME || s.timestamp < from {
        from := s.timestamp;
      }
      if s.timestamp > to {
        to := s.timestamp;
      }
    }
    assert spans[..spans.Length] == spans[..];
  }

  /** The rows of the answer by key. */
  method ByKey(rows: seq<TraceSpan>) returns (clients: map<nat, seq<TraceSpan>>)
    ensures forall key, row :: key in clients && row in clients[key] <==> row in rows && row.requestKey == key
  {
    clients := map[];
    for i := 0 to |rows|
      invariant forall key, row :: key in clients && row in clients[key] <==> row in rows[..i] && row.requestKey == key
    {
      var row := rows[i];
      var so := if row.requestKey in clients then clients[row.requestKey] else [];
      assert rows[..i + 1] == rows[..i] + [row];
      clients := clients[row.requestKey := so + [row]];
    }
    assert rows[..|rows|] == rows;
  }

  /** The nearest client span among those of the key of a server span. */
  method FindBest(server: TraceSpan, clients: seq<TraceSpan>) returns (best: Option<TraceSpan>)
    requires forall row :: row in clients ==> row.kind == Client && row.requestKey == server.requestKey
    ensures best.None? ==> forall row :: row in clients ==> !IsClientOf(row, server)
    ensures best.Some? ==> IsNearest(clients, best.value, server)
  {
    best := None;
    var bestDistance := 0;
    for i := 0 to |clients|
      invariant best.None? ==> forall row :: row in clients[..i] ==> !IsClientOf(row, server)
      invariant best.Some? ==> IsNearest(clients[..i], best.value, server) && bestDistance == Distance(best.value, server)
    {
      var client := clients[i];
      assert clients[..i + 1] == clients[..i] + [client];
      if client.httpMethod != server.httpMethod || client.target != server.target {
        continue;
      }
      var distance := client.timestamp - server.timestamp;
      if distance < 0 {
        distance := -distance;
      }
      if distance > CLIENT_SPAN_WINDOW {
        continue;
      }
      if best.None? || distance < bestDistance {
        best, bestDistance := Some(client), distance;
      }
    }
    assert clients[..|clients|] == clients;
  }

  /** In the batched answer a span finds what it would in the whole table. */
  lemma BatchIsEnough(table: seq<TraceSpan>, spans: seq<TraceSpan>, servers: seq<nat>, keys: set<nat>, from: int, to: int,
                      rows: seq<TraceSpan>, i: nat, row: TraceSpan)
    requires Covers(spans, servers, keys, from, to) && i < |spans| && LacksBodies(spans[i])
    requires forall r :: r in rows <==> r in table && Asked(r, keys, from - CLIENT_SPAN_WINDOW, to + CLIENT_SPAN_WINDOW)
    ensures IsClientOf(row, spans[i]) ==> (row in table <==> row in rows)
  {
  }

  /** The spans looked at so far are as they should be, the others as they were. */
  ghost predicate Done(table: seq<TraceSpan>, was: seq<TraceSpan>, now: seq<TraceSpan>, done: seq<nat>) {
    && |now| == |was|
    && (forall i :: i in done && i < |was| ==> Borrowed(table, was[i], now[i]))
    && (forall i :: 0 <= i < |was| && i !in done ==> now[i] == was[i])
  }

  lemma DoneNext(table: seq<TraceSpan>, was: seq<TraceSpan>, now: seq<TraceSpan>, done: seq<nat>, i: nat, s: TraceSpan)
    requires Done(table, was, now, done) && i < |was| && i !in done && Borrowed(table, was[i], s)
    ensures Done(table, was, now[i := s], done + [i])
  {
  }

  lemma AllDone(table: seq<TraceSpan>, was: seq<TraceSpan>, now: seq<TraceSpan>, servers: seq<nat>, keys: set<nat>, from: int, to: int)
    requires Done(table, was, now, servers) && Covers(was, servers, keys, from, to)
    ensures forall i :: 0 <= i < |was| ==> Borrowed(table, was[i], now[i])
  {
  }

  /** Each span of the page ends as a search for it alone would leave it; if the query fails, as it was. */
  method BorrowClientBodies(spans: array<TraceSpan>, ask: (set<nat>, int, int) -> Option<seq<TraceSpan>>, ghost table: seq<TraceSpan>)
    returns (ok: bool)
    requires Answers(table, ask)
    modifies spans
    ensures ok ==> forall i :: 0 <= i < spans.Length ==> Borrowed(table, old(spans[i]), spans[i])
    ensures !ok ==> spans[..] == old(spans[..]) && CanFail(ask)
  {
    var servers, keys, from, to := Gather(spans);
    if |servers| == 0 {
      return true;
    }
    var answer := ask(keys, from - CLIENT_SPAN_WINDOW, to + CLIENT_SPAN_WINDOW);
    if answer.None? {
      return false;
    }
    var clients := ByKey(answer.value);
    GiveBodies(spans, servers, clients, table, keys, from, to, answer.value);
    return true;
  }

  /** Each of the spans that lack bodies takes those of its nearest client span. */
  method GiveBodies(spans: array<TraceSpan>, servers: seq<nat>, clients: map<nat, seq<TraceSpan>>,
                    ghost table: seq<TraceSpan>, ghost keys: set<nat>, ghost from: int, ghost to: int, ghost rows: seq<TraceSpan>)
    requires Covers(spans[..], servers, keys, from, to)
    requires forall r :: r in rows <==> r in table && Asked(r, keys, from - CLIENT_SPAN_WINDOW, to + CLIENT_SPAN_WINDOW)
    requires forall key, row :: key in clients && row in clients[key] <==> row in rows && row.requestKey == key
    modifies spans
    ensures forall i :: 0 <= i < spans.Length ==> Borrowed(table, old(spans[i]), spans[i])
  {
    ghost var was := spans[..];
    for n := 0 to |servers|
      invariant Done(table, was, spans[..], servers[..n])
    {
      var i := servers[n];
      assert i in servers && i !in servers[..n];
      var server := spans[i];
      assert server == was[i];
      var theirs := if server.requestKey in clients then clients[server.requestKey] else [];
      var best := FindBest(server, theirs);
      BestBorrows(table, was, servers, keys, from, to, rows, theirs, i, best);
      DoneNext(table, was, spans[..], servers[..n], i, if best.Some? then WithBodies(server, best.value) else server);
      if best.Some? {
        spans[i] := WithBodies(server, best.value);
      }
      assert servers[..n + 1] == servers[..n] + [i];
    }
    assert servers[..|servers|] == servers;
    AllDone(table, was, spans[..], servers, keys, from, to);
  }

  lemma BestBorrows(table: seq<TraceSpan>, spans: seq<TraceSpan>, servers: seq<nat>, keys: set<nat>, from: int, to: int,
                    rows: seq<TraceSpan>, theirs: seq<TraceSpan>, i: nat, best: Option<TraceSpan>)
    requires Covers(spans, servers, keys, from, to) && i < |spans| && LacksBodies(spans[i])
    requires forall r :: r in rows <==> r in table && Asked(r, keys, from - CLIENT_SPAN_WINDOW, to + CLIENT_SPAN_WINDOW)
    requires forall r :: r in theirs <==> r in rows && r.requestKey == spans[i].requestKey
    requires best.None? ==> forall r :: r in theirs ==> !IsClientOf(r, spans[i])
    requires best.Some? ==> IsNearest(theirs, best.value, spans[i])
    ensures Borrowed(table, spans[i], if best.Some? then WithBodies(spans[i], best.value) else spans[i])
  {
    forall r | IsClientOf(r, spans[i]) ensures r in table <==> r in theirs {
      BatchIsEnough(table, spans, servers, keys, from, to, rows, i, r);
    }
    if best.Some? {
      assert IsNearest(table, best.value, spans[i]);
    }
  }

  /** Unless two client spans are equally near with different bodies, there is one result: neither the
      other spans of the page nor the order of the rows matters. */
  lemma BorrowedIsUnique(table: seq<TraceSpan>, before: TraceSpan, a: TraceSpan, b: TraceSpan)
    requires Borrowed(table, before, a) && Borrowed(table, before, b)
    requires forall x, y :: IsNearest(table, x, before) && IsNearest(table, y, before) ==> WithBodies(before, x) == WithBodies(before, y)
    ensures a == b
  {
    if LacksBodies(before) && exists row :: row in table && IsClientOf(row, before) {
      var x :| IsNearest(table, x, before) && a == WithBodies(before, x);
      var y :| IsNearest(table, y, before) && b == WithBodies(before, y);
    }
  }

  /** A borrowing span keeps all but its hashes, and takes those of a client span within the window. */
  lemma BorrowedHashes(table: seq<TraceSpan>, before: TraceSpan, after: TraceSpan)
    requires Borrowed(table, before, after)
    ensures after == before.(requestBody := after.requestBody, responseBody := after.responseBody)
    ensures after != before ==> LacksBodies(before) && IsFromClient(table, before, after)
  {
    if LacksBodies(before) && exists row :: row in table && IsClientOf(row, before) {
      var row :| IsNearest(table, row, before) && after == WithBodies(before, row);
      assert row in table && IsClientOf(row, before);
    }
  }

  ghost predicate IsFromClient(table: seq<TraceSpan>, before: TraceSpan, after: TraceSpan) {
    exists row :: row in table && IsClientOf(row, before) && row.requestBody == after.requestBody && row.responseBody == after.responseBody
  }

  // ----- said of the spans -----

  /** A span that keeps no body of its own and can be told by its key is a server's. */
  predicate MayBorrow(s: TraceSpan) {
    s.kind == Server && s.requestKey > 0 && s.requestBody == 0 == s.responseBody
  }

  /** The other side of the request: a client span at most five seconds apart. */
  predicate SameRequest(row: TraceSpan, server: TraceSpan) {
    && row.kind == Client && (row.requestKey, row.httpMethod, row.target) == (server.requestKey, server.httpMethod, server.target)
    && server.timestamp - 5 * SECOND <= row.timestamp <= server.timestamp + 5 * SECOND
  }

  /** A client span is as near a server span as another. */
  predicate AsNear(row: TraceSpan, other: TraceSpan, server: TraceSpan) {
    || other.timestamp <= row.timestamp <= server.timestamp || server.timestamp <= row.timestamp <= other.timestamp
    || (row.timestamp <= server.timestamp <= other.timestamp && server.timestamp - row.timestamp <= other.timestamp - server.timestamp)
    || (other.timestamp <= server.timestamp <= row.timestamp && row.timestamp - server.timestamp <= server.timestamp - other.timestamp)
  }

  /** A server span with a key and no body gets the hashes of a client span of its request, one as near as any,
      if there is one; every other span stays as it was. */
  lemma BorrowedFrom(table: seq<TraceSpan>, before: TraceSpan, after: TraceSpan)
    requires Borrowed(table, before, after)
    ensures MayBorrow(before) && (exists row :: row in table && SameRequest(row, before)) ==>
              exists row :: row in table && SameRequest(row, before) && (after.requestBody, after.responseBody) == (row.requestBody, row.responseBody)
                && forall other :: other in table && SameRequest(other, before) ==> AsNear(row, other, before)
    ensures !MayBorrow(before) || !(exists row :: row in table && SameRequest(row, before)) ==> after == before
  {
    assert LacksBodies(before) == MayBorrow(before);
    forall row ensures IsClientOf(row, before) == SameRequest(row, before) {
    }
    if row :| IsNearest(table, row, before) && after == WithBodies(before, row) {
      forall other | other in table && SameRequest(other, before) ensures AsNear(row, other, before) {
        assert IsClientOf(other, before);
      }
    }
  }
}

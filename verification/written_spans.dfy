/** collector/traces.go against its readers: what stands in the rows of otel_traces.

    A row is read back as clickhouse/traces.go scans it, and as two materialized views of ch/client.go
    select from it. What is read is said of the spans that arrived, not of how their cells were made:
    the span itself, the names it was given, and whether the views of Coroot count it. */
module WrittenSpans {
  import opened Prelude
  import opened TraceSpans
  import opened SpanNaming
  import opened BatchState
  import opened TracesBatches
  import Counting = RequestCounting
  import Recent = RecentAddresses

  // ----- a row, as querySpans scans it -----

  datatype Event = Event(time: int, name: string, attrs: Attrs)

  datatype TraceSpan = TraceSpan(timestamp: int, traceId: string, spanId: string, parentSpanId: string, name: string,
                                 serviceName: string, client: string, server: string, duration: int,
                                 statusCode: string, statusMessage: string, resource: Attrs, attrs: Attrs, events: seq<Event>,
                                 requestBodyHash: int, responseBodyHash: int, kind: SpanKind, requestKey: int)

  function TextIn(r: Row, column: Column): string {
    if column in r && r[column].Text? then r[column].text else ""
  }

  function NumberIn(r: Row, column: Column): int {
    if column in r && r[column].Number? then r[column].number else 0
  }

  function MapIn(r: Row, column: Column): Attrs {
    if column in r && r[column].Map? then r[column].attrs else map[]
  }

  function KindIn(r: Row): SpanKind {
    if Kind in r && r[Kind].KindCell? then r[Kind].kind else Unspecified
  }

  function NumbersIn(r: Row, column: Column): seq<int> {
    if column in r && r[column].Numbers? then r[column].numbers else []
  }

  function TextsIn(r: Row, column: Column): seq<string> {
    if column in r && r[column].Texts? then r[column].texts else []
  }

  function MapsIn(r: Row, column: Column): seq<Attrs> {
    if column in r && r[column].Maps? then r[column].maps else []
  }

  /** The events, if their three columns are equally long. */
  function Events(times: seq<int>, names: seq<string>, attrs: seq<Attrs>): seq<Event> {
    if |times| == |names| == |attrs| then
      seq(|times|, i requires 0 <= i < |times| => Event(times[i], names[i], attrs[i]))
    else []
  }

  function Scan(r: Row): TraceSpan {
    TraceSpan(NumberIn(r, Timestamp), TextIn(r, TraceId), TextIn(r, SpanId), TextIn(r, ParentSpanId), TextIn(r, SpanName),
              TextIn(r, ServiceName), TextIn(r, ClientName), TextIn(r, ServerName), NumberIn(r, Duration),
              TextIn(r, StatusCode), TextIn(r, StatusMessage), MapIn(r, ResourceAttributes), MapIn(r, SpanAttributes),
              Events(NumbersIn(r, EventsTimestamp), TextsIn(r, EventsName), MapsIn(r, EventsAttributes)),
              NumberIn(r, RequestBodyHash), NumberIn(r, ResponseBodyHash), KindIn(r), NumberIn(r, RequestKey))
  }

  /** The links, which are stored and not read. */
  function LinksIn(r: Row): seq<SpanLink> {
    var ids, spans, states, attrs := TextsIn(r, LinksTraceId), TextsIn(r, LinksSpanId), TextsIn(r, LinksTraceState), MapsIn(r, LinksAttributes);
    if |ids| == |spans| == |states| == |attrs| then
      seq(|ids|, i requires 0 <= i < |ids| => SpanLink(ids[i], spans[i], states[i], attrs[i]))
    else []
  }

  // ----- what is read is what arrived -----

  /** The data columns of the row are those of the span. */
  ghost predicate RowFor(env: Env, s: Incoming, r: Row) {
    forall column: Column :: !column.Decided() ==> column in r && r[column] == CellOf(env, s, column)
  }

  /** A number keeps its value as a signed one when it is in the range of one. */
  lemma SignedIs(x: int)
    requires -0x1_0000_0000_0000_0000 < x < 0x1_0000_0000_0000_0000
    ensures Int64(x) == x <==> -0x8000_0000_0000_0000 <= x < 0x8000_0000_0000_0000
  {
  }

  lemma IdCells(env: Env, s: Incoming, r: Row)
    requires RowFor(env, s, r)
    ensures TextIn(r, TraceId) == s.span.traceId && TextIn(r, SpanId) == s.span.spanId
    ensures TextIn(r, ParentSpanId) == s.span.parentSpanId && TextIn(r, TraceState) == s.span.traceState
  {
    assert !TraceId.Decided() && !SpanId.Decided() && !ParentSpanId.Decided() && !TraceState.Decided();
  }

  lemma ScanIds(r: Row)
    ensures Scan(r).traceId == TextIn(r, TraceId) && Scan(r).spanId == TextIn(r, SpanId) && Scan(r).parentSpanId == TextIn(r, ParentSpanId)
  {
  }

  lemma IdsAreRead(env: Env, s: Incoming, r: Row)
    requires RowFor(env, s, r)
    ensures Scan(r).traceId == s.span.traceId && Scan(r).spanId == s.span.spanId && Scan(r).parentSpanId == s.span.parentSpanId
  {
    IdCells(env, s, r);
    ScanIds(r);
  }

  lemma NameCells(env: Env, s: Incoming, r: Row)
    requires RowFor(env, s, r)
    ensures TextIn(r, SpanName) == s.span.name && TextIn(r, ServiceName) == Attr(s.resource, "service.name") && KindIn(r) == s.span.kind
  {
    assert !SpanName.Decided() && !ServiceName.Decided() && !Kind.Decided();
  }

  lemma StatusCells(env: Env, s: Incoming, r: Row)
    requires RowFor(env, s, r)
    ensures TextIn(r, StatusCode) == s.span.statusCode && TextIn(r, StatusMessage) == s.span.statusMessage
  {
    assert !StatusCode.Decided() && !StatusMessage.Decided();
  }

  lemma ScanNames(r: Row)
    ensures Scan(r).name == TextIn(r, SpanName) && Scan(r).serviceName == TextIn(r, ServiceName) && Scan(r).kind == KindIn(r)
    ensures Scan(r).statusCode == TextIn(r, StatusCode) && Scan(r).statusMessage == TextIn(r, StatusMessage)
    ensures Scan(r).client == TextIn(r, ClientName) && Scan(r).server == TextIn(r, ServerName)
  {
  }

  lemma NamesAreRead(env: Env, s: Incoming, r: Row)
    requires RowFor(env, s, r)
    ensures Scan(r).name == s.span.name && Scan(r).serviceName == Attr(s.resource, "service.name") && Scan(r).kind == s.span.kind
    ensures Scan(r).statusCode == s.span.statusCode && Scan(r).statusMessage == s.span.statusMessage
  {
    NameCells(env, s, r);
    StatusCells(env, s, r);
    ScanNames(r);
  }

  lemma TimeCells(env: Env, s: Incoming, r: Row)
    requires RowFor(env, s, r)
    ensures NumberIn(r, Timestamp) == Int64(s.span.start) && NumberIn(r, Duration) == Int64(s.span.end - s.span.start)
  {
    assert !Timestamp.Decided() && !Duration.Decided();
  }

  lemma ScanTimes(r: Row)
    ensures Scan(r).timestamp == NumberIn(r, Timestamp) && Scan(r).duration == NumberIn(r, Duration)
  {
  }

  /** The start and the duration, of times a uint64 holds, are read exactly unless they leave an int64. */
  lemma TimesAreRead(env: Env, s: Incoming, r: Row)
    requires RowFor(env, s, r) && s.span.start < 0x1_0000_0000_0000_0000 && s.span.end < 0x1_0000_0000_0000_0000
    ensures Scan(r).timestamp == s.span.start <==> s.span.start < 0x8000_0000_0000_0000
    ensures Scan(r).duration == s.span.end - s.span.start
            <==> -0x8000_0000_0000_0000 <= s.span.end - s.span.start < 0x8000_0000_0000_0000
  {
    var t := Scan(r);
    var timestamp, duration := t.timestamp, t.duration;
    assert timestamp == Int64(s.span.start) && duration == Int64(s.span.end - s.span.start) by {
      TimeCells(env, s, r);
      ScanTimes(r);
    }
    SignedIs(s.span.start);
    SignedIs(s.span.end - s.span.start);
  }

  lemma EventCells(env: Env, s: Incoming, r: Row)
    requires RowFor(env, s, r)
    ensures |NumbersIn(r, EventsTimestamp)| == |TextsIn(r, EventsName)| == |MapsIn(r, EventsAttributes)| == |s.span.events|
    ensures forall i :: 0 <= i < |s.span.events| ==>
              && NumbersIn(r, EventsTimestamp)[i] == Int64(s.span.events[i].time)
              && TextsIn(r, EventsName)[i] == s.span.events[i].name && MapsIn(r, EventsAttributes)[i] == s.span.events[i].attrs
  {
    assert !EventsTimestamp.Decided() && !EventsName.Decided() && !EventsAttributes.Decided();
  }

  lemma EventsAreRead(env: Env, s: Incoming, r: Row, i: nat)
    requires RowFor(env, s, r) && i < |s.span.events| && s.span.events[i].time < 0x1_0000_0000_0000_0000
    ensures |Scan(r).events| == |s.span.events|
    ensures Scan(r).events[i].name == s.span.events[i].name && Scan(r).events[i].attrs == s.span.events[i].attrs
    ensures Scan(r).events[i].time == s.span.events[i].time <==> s.span.events[i].time < 0x8000_0000_0000_0000
  {
    EventCells(env, s, r);
    SignedIs(s.span.events[i].time);
  }

  lemma LinkIdCells(env: Env, s: Incoming, r: Row)
    requires RowFor(env, s, r)
    ensures |TextsIn(r, LinksTraceId)| == |TextsIn(r, LinksSpanId)| == |s.span.links|
    ensures forall i :: 0 <= i < |s.span.links| ==>
              TextsIn(r, LinksTraceId)[i] == s.span.links[i].traceId && TextsIn(r, LinksSpanId)[i] == s.span.links[i].spanId
  {
    assert !LinksTraceId.Decided() && !LinksSpanId.Decided();
  }

  lemma LinkCells(env: Env, s: Incoming, r: Row)
    requires RowFor(env, s, r)
    ensures |TextsIn(r, LinksTraceState)| == |MapsIn(r, LinksAttributes)| == |s.span.links|
    ensures forall i :: 0 <= i < |s.span.links| ==>
              TextsIn(r, LinksTraceState)[i] == s.span.links[i].traceState && MapsIn(r, LinksAttributes)[i] == s.span.links[i].attrs
  {
    assert !LinksTraceState.Decided() && !LinksAttributes.Decided();
  }

  lemma LinksAreStored(env: Env, s: Incoming, r: Row)
    requires RowFor(env, s, r)
    ensures LinksIn(r) == s.span.links
  {
    LinkIdCells(env, s, r);
    LinkCells(env, s, r);
    forall i | 0 <= i < |s.span.links| ensures LinksIn(r)[i] == s.span.links[i] {
      assert SpanLink(s.span.links[i].traceId, s.span.links[i].spanId, s.span.links[i].traceState, s.span.links[i].attrs) == s.span.links[i];
    }
  }

  // The attributes that do not stay among those of a span, and those its scope is told by.
  const EXTRACTED: set<string> := {"http.request.body", "http.response.body", "coroot.request.key"}
  const SCOPE: set<string> := {"otel.scope.name", "otel.scope.version"}

  lemma AttributeColumns(env: Env, s: Incoming, r: Row)
    requires RowFor(env, s, r)
    ensures MapIn(r, ResourceAttributes) == s.resource && MapIn(r, SpanAttributes) == Attributes(s)
  {
    assert !ResourceAttributes.Decided() && !SpanAttributes.Decided();
  }

  lemma AttributesKept(s: Incoming, key: string)
    ensures key !in EXTRACTED && key !in SCOPE ==> Attr(Attributes(s), key) == Attr(s.span.attrs, key)
    ensures key in EXTRACTED ==> key !in Attributes(s)
  {
  }

  lemma ScopeKept(s: Incoming)
    ensures Attr(Attributes(s), "otel.scope.name") == if s.scopeName != "" then s.scopeName else Attr(s.span.attrs, "otel.scope.name")
    ensures Attr(Attributes(s), "otel.scope.version") ==
            if s.scopeVersion != "" then s.scopeVersion else Attr(s.span.attrs, "otel.scope.version")
  {
    assert "otel.scope.name" != "otel.scope.version" by {
      assert "otel.scope.name"[11] == 'n' && "otel.scope.version"[11] == 'v';
    }
  }

  /** Of the attributes of a span those that are extracted are gone, and its scope is among them. */
  lemma AttributesAreRead(env: Env, s: Incoming, r: Row, key: string)
    requires RowFor(env, s, r)
    ensures Scan(r).resource == s.resource
    ensures key !in EXTRACTED && key !in SCOPE ==> Attr(Scan(r).attrs, key) == Attr(s.span.attrs, key)
    ensures key in EXTRACTED ==> key !in Scan(r).attrs
  {
    AttributeColumns(env, s, r);
    AttributesKept(s, key);
  }

  /** The hash of a body, of its first 16 KiB if it is longer; 0 for none. */
  function HashOf(env: Env, body: string): nat {
    if body == "" then 0 else if |body| > 16384 then env.hash(body[..16384]) else env.hash(body)
  }

  lemma HashOfIs(env: Env, s: Incoming)
    ensures BodyHash(env, RequestBody(s)) == HashOf(env, Attr(s.span.attrs, "http.request.body"))
    ensures BodyHash(env, ResponseBody(s)) == HashOf(env, Attr(s.span.attrs, "http.response.body"))
  {
  }

  lemma HashCells(env: Env, s: Incoming, r: Row)
    requires RowFor(env, s, r)
    ensures NumberIn(r, RequestBodyHash) == BodyHash(env, RequestBody(s))
    ensures NumberIn(r, ResponseBodyHash) == BodyHash(env, ResponseBody(s))
  {
    assert !RequestBodyHash.Decided() && !ResponseBodyHash.Decided();
  }

  lemma KeyCell(env: Env, s: Incoming, r: Row)
    requires RowFor(env, s, r)
    ensures NumberIn(r, RequestKey) == KeyOf(env, s)
  {
    assert !RequestKey.Decided();
  }

  lemma KeyIs(env: Env, s: Incoming)
    ensures "coroot.request.key" !in s.span.attrs ==> KeyOf(env, s) == 0
    ensures "coroot.request.key" in s.span.attrs ==>
              KeyOf(env, s) == match env.parseKey(s.span.attrs["coroot.request.key"]) case Some(key) => key case None => 0
  {
  }

  /** The hashes are those of the bodies among the attributes, and the key is the one there. */
  lemma HashesAreRead(env: Env, s: Incoming, r: Row)
    requires RowFor(env, s, r)
    ensures NumberIn(r, RequestBodyHash) == HashOf(env, Attr(s.span.attrs, "http.request.body"))
    ensures NumberIn(r, ResponseBodyHash) == HashOf(env, Attr(s.span.attrs, "http.response.body"))
    ensures "coroot.request.key" !in s.span.attrs ==> NumberIn(r, RequestKey) == 0
    ensures "coroot.request.key" in s.span.attrs ==>
              NumberIn(r, RequestKey) == match env.parseKey(s.span.attrs["coroot.request.key"]) case Some(key) => key case None => 0
    ensures Scan(r).requestBodyHash == NumberIn(r, RequestBodyHash) && Scan(r).responseBodyHash == NumberIn(r, ResponseBodyHash)
    ensures Scan(r).requestKey == NumberIn(r, RequestKey)
  {
    HashCells(env, s, r);
    KeyCell(env, s, r);
    HashOfIs(env, s);
    KeyIs(env, s);
  }

  // ----- over a run -----

  /** The spans that arrived, in order. */
  function AddedSpans(ops: seq<Op>): seq<Incoming> {
    if ops == [] then []
    else
      AddedSpans(ops[..|ops| - 1]) + match ops[|ops| - 1]
        case Add(spans, _) => spans
        case Write(_, _, _, _, _, _) => []
  }

  function RowsOf(env: Env, spans: seq<Incoming>): seq<Row> {
    seq(|spans|, i requires 0 <= i < |spans| => RowOf(env, spans[i]))
  }

  lemma RowsOfConcat(env: Env, a: seq<Incoming>, b: seq<Incoming>)
    ensures RowsOf(env, a + b) == RowsOf(env, a) + RowsOf(env, b)
  {
    var all := RowsOf(env, a) + RowsOf(env, b);
    forall i | 0 <= i < |a + b| ensures RowsOf(env, a + b)[i] == all[i] {
      assert (a + b)[i] == if i < |a| then a[i] else b[i - |a|];
    }
  }

  lemma {:induction false} AddedRowsAre(env: Env, ops: seq<Op>)
    ensures AddedRows(env, ops) == RowsOf(env, AddedSpans(ops))
  {
    if ops != [] {
      AddedRowsAre(env, ops[..|ops| - 1]);
      if ops[|ops| - 1].Add? {
        RowsOfConcat(env, AddedSpans(ops[..|ops| - 1]), ops[|ops| - 1].spans);
      }
    }
  }

  /** The i-th row ever inserted is the i-th span that arrived. */
  lemma InsertedRow(env: Env, ops: seq<Op>, i: nat)
    requires Possible(env, ops) && i < |TableRows(Run(env, ops).log)|
    ensures i < |AddedSpans(ops)| && RowFor(env, AddedSpans(ops)[i], TableRows(Run(env, ops).log)[i])
  {
    EverySpanWrittenOnce(env, ops);
    AddedRowsAre(env, ops);
    var rows := TableRows(Run(env, ops).log);
    assert (rows + ColumnRows(Run(env, ops).columns))[i] == rows[i];
    RowColumns(env, AddedSpans(ops)[i]);
  }

  /** Two rows are of one trace, and one is the parent of the other, exactly when their spans are. */
  lemma TracesAreKept(env: Env, ops: seq<Op>, i: nat, j: nat)
    requires Possible(env, ops) && i < |TableRows(Run(env, ops).log)| && j < |TableRows(Run(env, ops).log)|
    ensures i < |AddedSpans(ops)| && j < |AddedSpans(ops)|
    ensures var rows, spans := TableRows(Run(env, ops).log), AddedSpans(ops);
            && (Scan(rows[i]).traceId == Scan(rows[j]).traceId <==> spans[i].span.traceId == spans[j].span.traceId)
            && (Scan(rows[i]).parentSpanId == Scan(rows[j]).spanId <==> spans[i].span.parentSpanId == spans[j].span.spanId)
  {
    InsertedRow(env, ops, i);
    InsertedRow(env, ops, j);
    IdsAreRead(env, AddedSpans(ops)[i], TableRows(Run(env, ops).log)[i]);
    IdsAreRead(env, AddedSpans(ops)[j], TableRows(Run(env, ops).log)[j]);
  }

  // ----- the spans of one write -----

  /** The spans that arrived since the last write. */
  function HeldSpans(env: Env, ops: seq<Op>): seq<Incoming> {
    if ops == [] then []
    else
      match ops[|ops| - 1]
      case Add(spans, _) => HeldSpans(env, ops[..|ops| - 1]) + spans
      case Write(_, _, _, _, _, _) => []
  }

  function PendingsOf(spans: seq<Incoming>): seq<Pending> {
    seq(|spans|, i requires 0 <= i < |spans| => PendingOf(spans[i]))
  }

  lemma ArrivingPendings(env: Env, spans: seq<Incoming>)
    ensures Pendings(ArrivingAll(env, spans)) == PendingsOf(spans)
  {
  }

  /** What is held of spans: their pending parts and their rows. */
  ghost predicate Holds(env: Env, st: State, spans: seq<Incoming>) {
    st.pending == PendingsOf(spans) && Rows(st.held) == RowsOf(env, spans)
  }

  /** What is held is pending, and its rows are those of the spans. */
  lemma {:induction false} HeldAre(env: Env, ops: seq<Op>)
    requires Possible(env, ops)
    ensures Holds(env, Run(env, ops), HeldSpans(env, ops))
  {
    if ops == [] {
      return;
    }
    var before, op := ops[..|ops| - 1], ops[|ops| - 1];
    HeldAre(env, before);
    RunInvariant(env, before);
    HeldAfter(env, Run(env, before), HeldSpans(env, before), op);
  }

  lemma PendingsConcat(a: seq<Incoming>, b: seq<Incoming>)
    ensures PendingsOf(a + b) == PendingsOf(a) + PendingsOf(b)
  {
  }

  lemma HeldAfter(env: Env, st: State, spans: seq<Incoming>, op: Op)
    requires Holds(env, st, spans) && Matching(st.pending, st.held)
    ensures Holds(env, Apply(env, st, op), match op case Add(more, _) => spans + more case Write(_, _, _, _, _, _) => [])
  {
    match op {
      case Add(more, at) =>
        HeldAfterAdd(env, st, more, at);
        RowsOfConcat(env, spans, more);
        PendingsConcat(spans, more);
      case Write(at, clients, servers, counted, bodiesOk, spansOk) =>
        NothingHeld(st, at, clients, servers, counted, bodiesOk, spansOk);
    }
  }

  lemma NothingHeld(st: State, now: Instant, clients: seq<Cell>, servers: seq<Cell>, counted: seq<Cell>, bodiesOk: bool, spansOk: bool)
    requires Matching(st.pending, st.held)
    ensures var st' := Written(st, now, clients, servers, counted, bodiesOk, spansOk); st'.pending == [] && st'.held == []
  {
  }

  lemma HeldAfterAdd(env: Env, st: State, spans: seq<Incoming>, now: Instant)
    ensures var st' := AllArrived(env, st, ArrivingAll(env, spans), now);
            && st'.pending == st.pending + PendingsOf(spans) && Rows(st'.held) == Rows(st.held) + RowsOf(env, spans)
  {
    AllArrivedAdds(env, st, ArrivingAll(env, spans), now);
    ArrivingPendings(env, spans);
    AllArrivedHeld(env, st, ArrivingAll(env, spans), now);
    RowsConcat(st.held, Arrivals(ArrivingAll(env, spans), now));
    ArrivalRows(env, spans, now);
  }

  lemma {:induction false} AllArrivedHeld(env: Env, st: State, xs: seq<Arriving>, now: Instant)
    ensures AllArrived(env, st, xs, now).held == st.held + Arrivals(xs, now)
  {
    if xs == [] {
      assert st.held + Arrivals(xs, now) == st.held;
    } else {
      var before, x := xs[..|xs| - 1], xs[|xs| - 1];
      AllArrivedHeld(env, st, before, now);
      assert Arrivals(xs, now) == Arrivals(before, now) + [Arrival(x.row, now)];
    }
  }

  // ----- the decided columns -----

  /** The i-th row of all 27 columns of an insert. */
  function FullRow(c: Columns, i: nat): Row {
    map column | column in c && i < |c[column]| :: c[column][i]
  }

  /** What one write inserts: for each span held a row with its data, the names it is given, and a count. */
  ghost predicate Inserts(env: Env, columns: Columns, spans: seq<Incoming>, names: seq<Names>, counted: seq<Cell>) {
    |spans| == |names| == |counted| && forall i: nat :: i < |spans| ==> InsertsAt(env, columns, spans, names, counted, i)
  }

  ghost predicate InsertsAt(env: Env, columns: Columns, spans: seq<Incoming>, names: seq<Names>, counted: seq<Cell>, i: nat)
    requires i < |spans| == |names| == |counted|
  {
    var r := FullRow(columns, i);
    && RowFor(env, spans[i], r)
    && TextIn(r, ClientName) == names[i].client && TextIn(r, ServerName) == names[i].server
    && Counted in r && r[Counted] == counted[i]
  }

  /** The columns that a write of the spans held inserts, after the histories given. */
  ghost function ColumnsWritten(env: Env, directory: Directory, addresses: seq<Recent.Record>, servers: seq<Counting.Event>,
                                ops: seq<Op>, now: Instant, bodiesOk: bool, spansOk: bool): Columns
  {
    var op := WriteOp(env, directory, addresses, servers, PendingsOf(HeldSpans(env, ops)), now, bodiesOk, spansOk);
    var log := Apply(env, Run(env, ops), op).log;
    if log != [] && log[|log| - 1].SpanRows? then log[|log| - 1].columns else map[]
  }

  lemma ColumnsFilled(env: Env, directory: Directory, addresses: seq<Recent.Record>, servers: seq<Counting.Event>,
                      ops: seq<Op>, now: Instant, bodiesOk: bool, spansOk: bool)
    requires Run(env, ops).pending != []
    ensures var ps := PendingsOf(HeldSpans(env, ops));
            var names := BatchNames(env, directory, addresses, ps, now);
            ColumnsWritten(env, directory, addresses, servers, ops, now, bodiesOk, spansOk)
            == Fill(Run(env, ops).columns, Clients(names), Servers(names), CountedColumn(servers, Countings(ps, names, now)))
  {
    var ps := PendingsOf(HeldSpans(env, ops));
    var names := BatchNames(env, directory, addresses, ps, now);
    LastInsert(Run(env, ops), now, Clients(names), Servers(names), CountedColumn(servers, Countings(ps, names, now)), bodiesOk, spansOk);
  }

  lemma WriteInserts(env: Env, directory: Directory, addresses: seq<Recent.Record>, servers: seq<Counting.Event>,
                     ops: seq<Op>, now: Instant, bodiesOk: bool, spansOk: bool)
    requires Possible(env, ops) && HeldSpans(env, ops) != []
    ensures var spans := HeldSpans(env, ops);
            var names := BatchNames(env, directory, addresses, PendingsOf(spans), now);
            Inserts(env, ColumnsWritten(env, directory, addresses, servers, ops, now, bodiesOk, spansOk), spans, names,
                    CountedColumn(servers, Countings(PendingsOf(spans), names, now)))
  {
    var st, spans := Run(env, ops), HeldSpans(env, ops);
    HeldAre(env, ops);
    RunInvariant(env, ops);
    var names := BatchNames(env, directory, addresses, PendingsOf(spans), now);
    var counted := CountedColumn(servers, Countings(PendingsOf(spans), names, now));
    assert |PendingsOf(spans)| == |spans|;
    ColumnsFilled(env, directory, addresses, servers, ops, now, bodiesOk, spansOk);
    ColumnsInsert(env, st, spans, names, counted);
  }

  lemma ColumnsInsert(env: Env, st: State, spans: seq<Incoming>, names: seq<Names>, counted: seq<Cell>)
    requires Holds(env, st, spans) && Carries(st.columns, st.held) && |spans| == |names| == |counted|
    ensures Inserts(env, Fill(st.columns, Clients(names), Servers(names), counted), spans, names, counted)
  {
    var columns := Fill(st.columns, Clients(names), Servers(names), counted);
    forall i: nat | i < |spans| ensures InsertsAt(env, columns, spans, names, counted, i) {
      HeldRow(env, st, spans, i);
      FilledRow(env, st, spans, Clients(names), Servers(names), counted, i);
    }
  }

  lemma LastInsert(st: State, now: Instant, clients: seq<Cell>, servers: seq<Cell>, counted: seq<Cell>, bodiesOk: bool, spansOk: bool)
    requires st.pending != []
    ensures var log := Written(st, now, clients, servers, counted, bodiesOk, spansOk).log;
            && log != [] && log[|log| - 1] == SpanRows(Fill(st.columns, clients, servers, counted), st.held, spansOk)
  {
  }

  lemma HeldRow(env: Env, st: State, spans: seq<Incoming>, i: nat)
    requires Rows(st.held) == RowsOf(env, spans) && Carries(st.columns, st.held) && i < |spans|
    ensures i < |st.held|
    ensures forall column: Column :: !column.Decided() ==>
              column in st.columns && i < |st.columns[column]| && st.columns[column][i] == CellOf(env, spans[i], column)
  {
    assert |Rows(st.held)| == |st.held| && |RowsOf(env, spans)| == |spans|;
    assert Rows(st.held)[i] == st.held[i].row && RowsOf(env, spans)[i] == RowOf(env, spans[i]);
    RowColumns(env, spans[i]);
  }

  lemma FilledRow(env: Env, st: State, spans: seq<Incoming>, clients: seq<Cell>, servers: seq<Cell>, counted: seq<Cell>, i: nat)
    requires i < |spans| && i < |clients| && i < |servers| && i < |counted|
    requires forall column: Column :: !column.Decided() ==>
               column in st.columns && i < |st.columns[column]| && st.columns[column][i] == CellOf(env, spans[i], column)
    ensures var r := FullRow(Fill(st.columns, clients, servers, counted), i);
            && RowFor(env, spans[i], r)
            && ClientName in r && r[ClientName] == clients[i] && ServerName in r && r[ServerName] == servers[i]
            && Counted in r && r[Counted] == counted[i]
  {
  }

  // ----- which rows count -----

  /** The request protocol of a span, "" if it is of none. */
  function ProtocolOf(s: Incoming): string {
    RequestProtocol(Attributes(s))
  }

  /** Each kind of request tells its protocol; a database its own, before all others. */
  lemma ProtocolTold(attrs: Attrs)
    ensures Attr(attrs, "db.system") != "" ==> RequestProtocol(attrs) == Attr(attrs, "db.system")
    ensures Attr(attrs, "db.system") == "" ==>
              (RequestProtocol(attrs) == "grpc" <==> Attr(attrs, "rpc.system") == "grpc" || Attr(attrs, "rpc.grpc.status_code") != "")
    ensures RequestProtocol(attrs) == "" <==>
              && Attr(attrs, "db.system") == "" && Attr(attrs, "rpc.system") != "grpc" && Attr(attrs, "rpc.grpc.status_code") == ""
              && Attr(attrs, "http.method") == "" && Attr(attrs, "http.request.method") == ""
    ensures Attr(attrs, "db.system") == "" && RequestProtocol(attrs) !in {"", "grpc"} ==> RequestProtocol(attrs) == "http"
  {
  }

  /** The node agent sent the span, as its scope says. */
  predicate FromAgent(s: Incoming) {
    s.scopeName == "coroot-node-agent"
  }

  /** An earlier server span of the write, from the agent or from an SDK, has the i-th one's server and protocol. */
  ghost predicate EarlierSide(spans: seq<Incoming>, names: seq<Names>, i: nat, fromAgent: bool)
    requires i < |spans| == |names|
  {
    exists j :: 0 <= j < i && spans[j].span.kind == Server && FromAgent(spans[j]) == fromAgent
                && names[j].server == names[i].server && ProtocolOf(spans[j]) == ProtocolOf(spans[i])
  }

  /** The server the i-th span is named with records requests of the span's protocol itself, as is known by what was
      told in the hour before, or by an earlier span of the write. */
  ghost predicate RecordsSide(servers: seq<Counting.Event>, spans: seq<Incoming>, names: seq<Names>, now: Instant, i: nat, fromAgent: bool)
    requires i < |spans| == |names|
  {
    || (exists t: Instant :: Counting.Told(servers, Counting.Key(names[i].server, ProtocolOf(spans[i])), fromAgent, t) && now - t < HOUR)
    || EarlierSide(spans, names, i, fromAgent)
  }

  /** A client span counts unless its server's agent or SDK records the request, a server span of an agent
      unless the server's SDK does, and any other span counts. */
  ghost predicate IsCounted(servers: seq<Counting.Event>, spans: seq<Incoming>, names: seq<Names>, now: Instant, i: nat)
    requires i < |spans| == |names|
  {
    var s := spans[i];
    ProtocolOf(s) != "" ==>
      && (s.span.kind == Client ==>
            !RecordsSide(servers, spans, names, now, i, true) && !RecordsSide(servers, spans, names, now, i, false))
      && (s.span.kind == Server && FromAgent(s) ==> !RecordsSide(servers, spans, names, now, i, false))
  }

  function CountedSpans(spans: seq<Incoming>, names: seq<Names>, now: Instant): seq<Counting.Span>
    requires |spans| == |names|
  {
    seq(|spans|, i requires 0 <= i < |spans| => CountedSpan(PendingOf(spans[i]), names[i], now))
  }

  lemma CountedSpanIs(s: Incoming, names: Names, now: Instant)
    ensures CountedSpan(PendingOf(s), names, now)
            == Counting.Span(s.span.kind, FromAgent(s), Counting.Key(names.server, ProtocolOf(s)), now)
  {
  }

  lemma EarlierTells(spans: seq<Incoming>, names: seq<Names>, now: Instant, i: nat, fromAgent: bool)
    requires i < |spans| == |names| && ProtocolOf(spans[i]) != ""
    ensures Counting.TellsIn(CountedSpans(spans, names, now)[..i], Counting.Key(names[i].server, ProtocolOf(spans[i])), fromAgent)
            <==> EarlierSide(spans, names, i, fromAgent)
  {
    var all, key := CountedSpans(spans, names, now), Counting.Key(names[i].server, ProtocolOf(spans[i]));
    forall j | 0 <= j < i
      ensures all[j] == Counting.Span(spans[j].span.kind, FromAgent(spans[j]), Counting.Key(names[j].server, ProtocolOf(spans[j])), now)
    {
      CountedSpanIs(spans[j], names[j], now);
    }
    if x :| x in all[..i] && Counting.Tells(x) && x.key == key && x.fromAgent == fromAgent {
      var j :| 0 <= j < i && all[..i][j] == x;
      assert spans[j].span.kind == Server;
    }
    if j :| 0 <= j < i && spans[j].span.kind == Server && FromAgent(spans[j]) == fromAgent
            && names[j].server == names[i].server && ProtocolOf(spans[j]) == ProtocolOf(spans[i]) {
      assert all[j] in all[..i];
    }
  }

  lemma CountingsAre(spans: seq<Incoming>, names: seq<Names>, now: Instant, i: nat)
    requires i < |spans| == |names|
    ensures Countings(PendingsOf(spans), names, now)[..i] == Counting.Calls(CountedSpans(spans, names, now)[..i])
    ensures Countings(PendingsOf(spans), names, now)[i].span == CountedSpans(spans, names, now)[i]
  {
  }

  /** The cells of the Counted column of a write, after what was told before it. */
  lemma CountedCell(servers: seq<Counting.Event>, spans: seq<Incoming>, names: seq<Names>, now: Instant, i: nat)
    requires Counting.WellTimed(servers) && Counting.Clock(servers) <= now && i < |spans| == |names|
    ensures CountedColumn(servers, Countings(PendingsOf(spans), names, now))[i]
            == Number(if IsCounted(servers, spans, names, now, i) then 1 else 0)
  {
    var all, s := CountedSpans(spans, names, now), spans[i];
    CountingsAre(spans, names, now, i);
    CountedSpanIs(s, names[i], now);
    assert Counting.OneMoment(servers, all, now);
    Counting.AnswerInBatch(servers, all, now, i);
    if ProtocolOf(s) != "" {
      EarlierTells(spans, names, now, i, true);
      EarlierTells(spans, names, now, i, false);
    }
  }

  /** The rows of a write on timed histories: the data of the spans held, the names they are given, and a 1
      for those that count. */
  lemma WrittenRow(env: Env, directory: Directory, addresses: seq<Recent.Record>, servers: seq<Counting.Event>,
                   ops: seq<Op>, now: Instant, bodiesOk: bool, spansOk: bool, i: nat)
    requires Possible(env, ops) && i < |HeldSpans(env, ops)| && Timed(servers, addresses, now)
    ensures var spans := HeldSpans(env, ops);
            var names := BatchNames(env, directory, addresses, PendingsOf(spans), now);
            var r := FullRow(ColumnsWritten(env, directory, addresses, servers, ops, now, bodiesOk, spansOk), i);
            && RowFor(env, spans[i], r)
            && TextIn(r, ClientName) == names[i].client && TextIn(r, ServerName) == names[i].server
            && NumberIn(r, Counted) == if IsCounted(servers, spans, names, now, i) then 1 else 0
  {
    var spans := HeldSpans(env, ops);
    var names := BatchNames(env, directory, addresses, PendingsOf(spans), now);
    WriteInserts(env, directory, addresses, servers, ops, now, bodiesOk, spansOk);
    CountedCell(servers, spans, names, now, i);
    RowInserted(env, ColumnsWritten(env, directory, addresses, servers, ops, now, bodiesOk, spansOk), spans, names,
                CountedColumn(servers, Countings(PendingsOf(spans), names, now)), i);
  }

  lemma RowInserted(env: Env, columns: Columns, spans: seq<Incoming>, names: seq<Names>, counted: seq<Cell>, i: nat)
    requires Inserts(env, columns, spans, names, counted) && i < |spans| && counted[i].Number?
    ensures var r := FullRow(columns, i);
            && RowFor(env, spans[i], r) && TextIn(r, ClientName) == names[i].client && TextIn(r, ServerName) == names[i].server
            && NumberIn(r, Counted) == counted[i].number
  {
    assert InsertsAt(env, columns, spans, names, counted, i);
  }

  /** A client span to a server that nobody recorded counts, whatever is known of its client. */
  lemma UnrecordedServerCounts(servers: seq<Counting.Event>, spans: seq<Incoming>, names: seq<Names>, now: Instant, i: nat)
    requires Counting.WellTimed(servers) && Counting.Clock(servers) <= now && i < |spans| == |names|
    requires spans[i].span.kind == Client
    requires forall fromAgent, t: Instant :: !Counting.Told(servers, Counting.Key(names[i].server, ProtocolOf(spans[i])), fromAgent, t)
    requires forall j :: 0 <= j < i && spans[j].span.kind == Server ==> names[j].server != names[i].server
    ensures CountedColumn(servers, Countings(PendingsOf(spans), names, now))[i] == Number(1)
  {
    CountedCell(servers, spans, names, now, i);
    assert !RecordsSide(servers, spans, names, now, i, true) && !RecordsSide(servers, spans, names, now, i, false);
  }

  /** A server span with nothing told before counts. */
  lemma FirstServerCounts(spans: seq<Incoming>, names: seq<Names>, now: Instant)
    requires spans != [] && |spans| == |names| && spans[0].span.kind == Server
    ensures CountedColumn([], Countings(PendingsOf(spans), names, now))[0] == Number(1)
  {
    CountedCell([], spans, names, now, 0);
  }

  /** A server's request to an outside service, right after its own server span: both count. */
  lemma CallOutCounts(s: Incoming, c: Incoming, now: Instant)
    requires s.span.kind == Server && c.span.kind == Client
    ensures var names := [Names("a", "b"), Names("b", "external")];
            var counted := CountedColumn([], Countings(PendingsOf([s, c]), names, now));
            counted[0] == Number(1) && counted[1] == Number(1)
  {
    var spans, names := [s, c], [Names("a", "b"), Names("b", "external")];
    FirstServerCounts(spans, names, now);
    assert names[0].server == "b" && names[1].server == "external";
    UnrecordedServerCounts([], spans, names, now, 1);
  }

  // ----- what the views of ClickHouse keep of a row -----

  /** trace_server_sources: a server, a protocol, and who recorded its side. */
  datatype Source = Source(server: string, protocol: string, fromAgent: bool)

  function SourceOf(r: Row): Option<Source> {
    if KindIn(r) == Server && TextIn(r, Protocol) != "" then
      Some(Source(TextIn(r, ServerName), TextIn(r, Protocol), Attr(MapIn(r, SpanAttributes), "otel.scope.name") == "coroot-node-agent"))
    else None
  }

  lemma ProtocolCell(env: Env, s: Incoming, r: Row)
    requires RowFor(env, s, r)
    ensures TextIn(r, Protocol) == ProtocolOf(s)
  {
    assert !Protocol.Decided();
  }

  /** The span is not from the agent, and says so itself in an attribute. */
  predicate PosesAsAgent(s: Incoming) {
    s.scopeName == "" && Attr(s.span.attrs, "otel.scope.name") == "coroot-node-agent"
  }

  /** The view keeps of a row the source that counting the span told of: the same server and protocol, and from
      the same side exactly when the span does not pose as the agent's. */
  lemma SourceIsTold(env: Env, s: Incoming, r: Row, names: Names, now: Instant)
    requires RowFor(env, s, r) && TextIn(r, ServerName) == names.server
    ensures var span := CountedSpan(PendingOf(s), names, now);
            && (SourceOf(r).Some? <==> Counting.Tells(span))
            && (SourceOf(r).Some? ==>
                  && Counting.Key(SourceOf(r).value.server, SourceOf(r).value.protocol) == span.key
                  && (SourceOf(r).value.fromAgent == span.fromAgent <==> !PosesAsAgent(s)))
  {
    NameCells(env, s, r);
    ProtocolCell(env, s, r);
    AttributeColumns(env, s, r);
    ScopeKept(s);
    CountedSpanIs(s, names, now);
  }

  /** trace_addresses: an address and the application there. */
  datatype Address = Address(address: string, application: string)

  function HostPort(host: string, port: string): string {
    if ':' in host then "[" + host + "]:" + port else host + ":" + port
  }

  function AddressIn(r: Row): Option<Address> {
    var attrs := MapIn(r, SpanAttributes);
    var host, port, local := Attr(attrs, "server.address"), Attr(attrs, "server.port"), Attr(attrs, "network.local.address");
    if Attr(attrs, "otel.scope.name") != "coroot-node-agent" then None
    else if KindIn(r) == Server && host != "" && port != "" then Some(Address(HostPort(host, port), TextIn(r, ServerName)))
    else if KindIn(r) == Client && local != "" then Some(Address(local, TextIn(r, ClientName)))
    else None
  }

  /** The view keeps of a row the address its span taught: that of its own side, with the application there. */
  lemma AddressIsTaught(env: Env, directory: Directory, m: Recent.Memory, s: Incoming, r: Row, now: Instant)
    requires RowFor(env, s, r) && !PosesAsAgent(s)
    requires var names := NamesOf(env, directory, m, PendingOf(s), now);
             TextIn(r, ClientName) == names.client && TextIn(r, ServerName) == names.server
    requires forall host, port :: env.net.joinHostPort(host, port) == HostPort(host, port)
    ensures Lesson(env, directory, PendingOf(s), now) ==
            match AddressIn(r)
            case None => None
            case Some(a) => Some(Recent.Record(directory.nodeIps, a.address, Recent.Known(a.application, now), now))
  {
    NameCells(env, s, r);
    AttributeColumns(env, s, r);
    ScopeKept(s);
    OwnSideStays(env, directory, m, PendingOf(s), now);
  }

  /** Naming the peer of a span changes no other name of it, and none of an internal span. */
  lemma OwnSideStays(env: Env, directory: Directory, m: Recent.Memory, p: Pending, now: Instant)
    ensures p.kind !in {Client, Producer} ==> NamesOf(env, directory, m, p, now).server == directory.names(p).server
    ensures p.kind !in {Server, Consumer} ==> NamesOf(env, directory, m, p, now).client == directory.names(p).client
  {
  }
}

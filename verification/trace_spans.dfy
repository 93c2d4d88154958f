/** collector/traces.go: what becomes of an incoming span.

    An OTLP span turns into one row of the 24 data columns of otel_traces (Client, Server and
    Counted follow with the write) and what those three will depend on. */
module TraceSpans {
  import opened Prelude
  import Recent = RecentAddresses

  const MAX_SPAN_BODY_BYTES: nat := 16 * 1024
  const NODE_AGENT_SCOPE: string := "coroot-node-agent"

  const HTTP_REQUEST_BODY: string := "http.request.body"
  const HTTP_RESPONSE_BODY: string := "http.response.body"
  const REQUEST_KEY: string := "coroot.request.key"
  const SERVICE_NAME: string := "service.name"
  const SCOPE_NAME: string := "otel.scope.name"
  const SCOPE_VERSION: string := "otel.scope.version"

  /** What the model does not look into: the net package, xxhash, strconv.ParseUint(_, 16, 64)
      (None on an error) and the host of a parsed URL ("" when it has none). */
  datatype Env = Env(net: Recent.Net,
                     hash: string -> nat,
                     parseKey: string -> Option<nat>,
                     urlHost: string -> string)

  datatype SpanEvent = SpanEvent(time: nat, name: string, attrs: Attrs)

  datatype SpanLink = SpanLink(traceId: string, spanId: string, traceState: string, attrs: Attrs)

  datatype OtlpSpan = OtlpSpan(start: nat, end: nat, traceId: string, spanId: string, parentSpanId: string,
                               traceState: string, name: string, kind: SpanKind, attrs: Attrs,
                               statusCode: string, statusMessage: string,
                               events: seq<SpanEvent>, links: seq<SpanLink>)

  datatype ScopeSpans = ScopeSpans(name: string, version: string, spans: seq<OtlpSpan>)

  datatype ResourceSpans = ResourceSpans(attrs: Attrs, scopes: seq<ScopeSpans>)

  /** One span with what surrounds it in the request. */
  datatype Incoming = Incoming(resource: Attrs, scopeName: string, scopeVersion: string, span: OtlpSpan)

  /** int64 of a uint64: the timestamps of OTLP are unsigned. */
  function Int64(x: int): int {
    (x + 0x8000_0000_0000_0000) % 0x1_0000_0000_0000_0000 - 0x8000_0000_0000_0000
  }

  function CapBody(body: string): string {
    if |body| > MAX_SPAN_BODY_BYTES then body[..MAX_SPAN_BODY_BYTES] else body
  }

  function BodyHash(env: Env, body: string): nat {
    if body == "" then 0 else env.hash(body)
  }

  function RequestBody(s: Incoming): string {
    CapBody(Attr(s.span.attrs, HTTP_REQUEST_BODY))
  }

  function ResponseBody(s: Incoming): string {
    CapBody(Attr(s.span.attrs, HTTP_RESPONSE_BODY))
  }

  function KeyOf(env: Env, s: Incoming): nat {
    if REQUEST_KEY !in s.span.attrs then 0
    else match env.parseKey(s.span.attrs[REQUEST_KEY])
      case Some(key) => key
      case None => 0
  }

  /** The attributes without what has its own column, and with the scope. */
  function Attributes(s: Incoming): Attrs {
    var attrs := s.span.attrs - {HTTP_REQUEST_BODY, HTTP_RESPONSE_BODY, REQUEST_KEY};
    var named := if s.scopeName != "" then attrs[SCOPE_NAME := s.scopeName] else attrs;
    if s.scopeVersion != "" then named[SCOPE_VERSION := s.scopeVersion] else named
  }

  function RequestProtocol(attrs: Attrs): string {
    if Attr(attrs, "db.system") != "" then Attr(attrs, "db.system")
    else if Attr(attrs, "rpc.system") == "grpc" || Attr(attrs, "rpc.grpc.status_code") != "" then "grpc"
    else if Attr(attrs, "http.method") != "" || Attr(attrs, "http.request.method") != "" then "http"
    else ""
  }

  /** The 27 columns of an insert into otel_traces. */
  datatype Column =
    | Timestamp | TraceId | SpanId | ParentSpanId | TraceState | SpanName | Kind | ServiceName
    | ClientName | ServerName | Counted
    | Protocol | RequestKey | ResourceAttributes | SpanAttributes | Duration | StatusCode | StatusMessage
    | RequestBodyHash | ResponseBodyHash
    | EventsTimestamp | EventsName | EventsAttributes
    | LinksTraceId | LinksSpanId | LinksTraceState | LinksAttributes
  {
    /** Filled when the span is written, not when it arrives. */
    predicate Decided() {
      this == ClientName || this == ServerName || this == Counted
    }
  }

  datatype Cell =
    | Text(text: string) | Number(number: int) | KindCell(kind: SpanKind) | Map(attrs: Attrs)
    | Texts(texts: seq<string>) | Numbers(numbers: seq<int>) | Maps(maps: seq<Attrs>)

  /** The cell of a span in a data column. */
  function CellOf(env: Env, s: Incoming, column: Column): Cell {
    var span := s.span;
    match column
    case Timestamp => Number(Int64(span.start))
    case TraceId => Text(span.traceId)
    case SpanId => Text(span.spanId)
    case ParentSpanId => Text(span.parentSpanId)
    case TraceState => Text(span.traceState)
    case SpanName => Text(span.name)
    case Kind => KindCell(span.kind)
    case ServiceName => Text(Attr(s.resource, SERVICE_NAME))
    case Protocol => Text(RequestProtocol(Attributes(s)))
    case RequestKey => Number(KeyOf(env, s))
    case ResourceAttributes => Map(s.resource)
    case SpanAttributes => Map(Attributes(s))
    case Duration => Number(Int64(span.end - span.start))
    case StatusCode => Text(span.statusCode)
    case StatusMessage => Text(span.statusMessage)
    case RequestBodyHash => Number(BodyHash(env, RequestBody(s)))
    case ResponseBodyHash => Number(BodyHash(env, ResponseBody(s)))
    case EventsTimestamp => Numbers(seq(|span.events|, i requires 0 <= i < |span.events| => Int64(span.events[i].time)))
    case EventsName => Texts(seq(|span.events|, i requires 0 <= i < |span.events| => span.events[i].name))
    case EventsAttributes => Maps(seq(|span.events|, i requires 0 <= i < |span.events| => span.events[i].attrs))
    case LinksTraceId => Texts(seq(|span.links|, i requires 0 <= i < |span.links| => span.links[i].traceId))
    case LinksSpanId => Texts(seq(|span.links|, i requires 0 <= i < |span.links| => span.links[i].spanId))
    case LinksTraceState => Texts(seq(|span.links|, i requires 0 <= i < |span.links| => span.links[i].traceState))
    case LinksAttributes => Maps(seq(|span.links|, i requires 0 <= i < |span.links| => span.links[i].attrs))
    case ClientName | ServerName | Counted => Text("")
  }

  /** A row of the data columns. */
  type Row = map<Column, Cell>

  function RowOf(env: Env, s: Incoming): Row {
    map column: Column | !column.Decided() :: CellOf(env, s, column)
  }

  /** What naming and counting will need of a span that waits to be written. */
  datatype Pending = Pending(serviceName: string, kind: SpanKind, fromAgent: bool, protocol: string,
                             resource: Attrs, span: Attrs)

  function PendingOf(s: Incoming): Pending {
    var attrs := Attributes(s);
    Pending(Attr(s.resource, SERVICE_NAME), s.span.kind, s.scopeName == NODE_AGENT_SCOPE,
            RequestProtocol(attrs), s.resource, attrs)
  }

  /** The pending span and the row are of one span. */
  predicate SameSpan(p: Pending, r: Row) {
    && r.Keys >= {ServiceName, Kind, Protocol, ResourceAttributes, SpanAttributes}
    && r[ServiceName] == Text(p.serviceName) && r[Kind] == KindCell(p.kind) && r[Protocol] == Text(p.protocol)
    && r[ResourceAttributes] == Map(p.resource) && r[SpanAttributes] == Map(p.span)
  }

  /** What an incoming span leaves in a batch: its row, what is pending and its two bodies. */
  datatype Arriving = Arriving(row: Row, pending: Pending, request: string, response: string)

  function ArrivingOf(env: Env, s: Incoming): Arriving {
    Arriving(RowOf(env, s), PendingOf(s), RequestBody(s), ResponseBody(s))
  }

  /** The parts are of one span: a cell in each data column, and the hashes of the bodies. */
  ghost predicate OneSpan(env: Env, x: Arriving) {
    && (forall column: Column :: column in x.row <==> !column.Decided())
    && x.row[RequestBodyHash] == Number(BodyHash(env, x.request))
    && x.row[ResponseBodyHash] == Number(BodyHash(env, x.response))
    && SameSpan(x.pending, x.row)
  }

  lemma RowColumns(env: Env, s: Incoming)
    ensures forall column: Column :: column in RowOf(env, s) <==> !column.Decided()
    ensures forall column: Column :: !column.Decided() ==> RowOf(env, s)[column] == CellOf(env, s, column)
  {
  }

  lemma CellsOfSpan(env: Env, s: Incoming)
    ensures var p := PendingOf(s);
            && CellOf(env, s, ServiceName) == Text(p.serviceName) && CellOf(env, s, Kind) == KindCell(p.kind)
            && CellOf(env, s, Protocol) == Text(p.protocol)
  {
  }

  lemma AttributeCells(env: Env, s: Incoming)
    ensures CellOf(env, s, ResourceAttributes) == Map(PendingOf(s).resource)
    ensures CellOf(env, s, SpanAttributes) == Map(PendingOf(s).span)
  {
  }

  lemma ArrivingIsOneSpan(env: Env, s: Incoming)
    ensures OneSpan(env, ArrivingOf(env, s))
  {
    RowColumns(env, s);
    assert SameSpan(PendingOf(s), RowOf(env, s)) by {
      CellsOfSpan(env, s);
      AttributeCells(env, s);
      SameSpanOf(env, s, PendingOf(s), RowOf(env, s));
    }
    HashesOf(env, s);
  }

  lemma HashesOf(env: Env, s: Incoming)
    ensures CellOf(env, s, RequestBodyHash) == Number(BodyHash(env, RequestBody(s)))
    ensures CellOf(env, s, ResponseBodyHash) == Number(BodyHash(env, ResponseBody(s)))
  {
  }

  lemma SameSpanOf(env: Env, s: Incoming, p: Pending, r: Row)
    requires forall column: Column :: column in r <==> !column.Decided()
    requires forall column: Column :: !column.Decided() ==> r[column] == CellOf(env, s, column)
    requires CellOf(env, s, ServiceName) == Text(p.serviceName) && CellOf(env, s, Kind) == KindCell(p.kind)
    requires CellOf(env, s, Protocol) == Text(p.protocol) && CellOf(env, s, ResourceAttributes) == Map(p.resource)
    requires CellOf(env, s, SpanAttributes) == Map(p.span)
    ensures SameSpan(p, r)
  {
  }

  /** The spans of a request, in its order. */
  function Spans(resource: Attrs, scope: ScopeSpans): seq<Incoming> {
    seq(|scope.spans|, i requires 0 <= i < |scope.spans| => Incoming(resource, scope.name, scope.version, scope.spans[i]))
  }

  function ScopesSpans(resource: Attrs, scopes: seq<ScopeSpans>): seq<Incoming> {
    if scopes == [] then []
    else ScopesSpans(resource, scopes[..|scopes| - 1]) + Spans(resource, scopes[|scopes| - 1])
  }

  function RequestSpans(request: seq<ResourceSpans>): seq<Incoming> {
    if request == [] then []
    else
      var last := request[|request| - 1];
      RequestSpans(request[..|request| - 1]) + ScopesSpans(last.attrs, last.scopes)
  }
}

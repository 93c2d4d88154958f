/** collector/traces.go: the TracesBatch object.

    Add, the ticker's save and Close are steps on the object, each at a moment of the clock and with
    the outcome of its inserts given; what ClickHouse taught arrives by the two Remember methods.
    The ghost history ops ties the object to BatchState.Run, whose lemmas say what every run keeps. */
module TracesBatches {
  import opened Prelude
  import opened TraceSpans
  import opened SpanNaming
  import opened BatchState
  import Counting = RequestCounting
  import Recent = RecentAddresses

  // Waiting for the reads ends after this time ...
  const MAX_HOLD: int := 30 * SECOND
  // ... or with this many full batches.
  const MAX_HELD_BATCHES: nat := 10

  function Clients(names: seq<Names>): seq<Cell> {
    seq(|names|, i requires 0 <= i < |names| => Text(names[i].client))
  }

  function Servers(names: seq<Names>): seq<Cell> {
    seq(|names|, i requires 0 <= i < |names| => Text(names[i].server))
  }

  function CountedSpan(p: Pending, names: Names, now: Instant): Counting.Span {
    Counting.Span(p.kind, p.fromAgent, Counting.Key(names.server, p.protocol), now)
  }

  /** The calls of counted for the spans of a batch. */
  function Countings(ps: seq<Pending>, names: seq<Names>, now: Instant): (calls: seq<Counting.Event>)
    requires |ps| == |names|
    ensures forall e :: e in calls ==> e.Counting?
  {
    seq(|ps|, i requires 0 <= i < |ps| => Counting.Counting(CountedSpan(ps[i], names[i], now)))
  }

  /** The Counted column of the spans of calls, made after the calls of h. */
  function CountedColumn(h: seq<Counting.Event>, calls: seq<Counting.Event>): seq<Cell>
    requires forall e :: e in calls ==> e.Counting?
  {
    seq(|calls|, i requires 0 <= i < |calls| => Number(if Counting.Answer(h + calls[..i], calls[i].span) then 1 else 0))
  }

  /** What write does with the spans ps, after the addresses and the countings of the two histories:
      all named together, then counted one after another. */
  ghost function WriteOp(env: Env, directory: Directory, addresses: seq<Recent.Record>, servers: seq<Counting.Event>,
                         ps: seq<Pending>, now: Instant, bodiesOk: bool, spansOk: bool): Op {
    var names := BatchNames(env, directory, addresses, ps, now);
    Op.Write(now, Clients(names), Servers(names), CountedColumn(servers, Countings(ps, names, now)), bodiesOk, spansOk)
  }

  /** What is pending of the spans of a request. */
  function RequestPendings(env: Env, request: seq<ResourceSpans>): seq<Pending> {
    Pendings(ArrivingAll(env, RequestSpans(request)))
  }

  /** The spans of a request, resource by resource and scope by scope. */
  method Flatten(request: seq<ResourceSpans>) returns (spans: seq<Incoming>)
    ensures spans == RequestSpans(request)
  {
    spans := [];
    for i := 0 to |request|
      invariant spans == RequestSpans(request[..i])
    {
      var of := FlattenScopes(request[i].attrs, request[i].scopes);
      spans := spans + of;
      assert request[..i + 1][..i] == request[..i];
    }
    assert request[..|request|] == request;
  }

  method FlattenScopes(resource: Attrs, scopes: seq<ScopeSpans>) returns (spans: seq<Incoming>)
    ensures spans == ScopesSpans(resource, scopes)
  {
    spans := [];
    for j := 0 to |scopes|
      invariant spans == ScopesSpans(resource, scopes[..j])
    {
      var scope, before := scopes[j], spans;
      for k := 0 to |scope.spans|
        invariant spans == before + Spans(resource, scope)[..k]
      {
        spans := spans + [Incoming(resource, scope.name, scope.version, scope.spans[k])];
      }
      assert scopes[..j + 1][..j] == scopes[..j];
    }
    assert scopes[..|scopes|] == scopes;
  }

  /** The hashes of the bodies just written are remembered with the time. */
  method Stamp(known: map<nat, Instant>, bodies: map<nat, string>, now: Instant) returns (stamped: map<nat, Instant>)
    ensures stamped == known + map hash | hash in bodies :: now
  {
    stamped := known;
    var todo := bodies.Keys;
    while todo != {}
      invariant todo <= bodies.Keys
      invariant stamped == known + map hash | hash in bodies && hash !in todo :: now
      decreases todo
    {
      var hash :| hash in todo;
      stamped := stamped[hash := now];
      todo := todo - {hash};
    }
  }

  lemma ArrivesNext(env: Env, was: State, xs: seq<Arriving>, k: nat, now: Instant)
    requires k < |xs|
    ensures AllArrived(env, was, xs[..k + 1], now) == Arrived(env, AllArrived(env, was, xs[..k], now), xs[k], now)
  {
    assert xs[..k + 1][..k] == xs[..k];
  }

  /** The names the directory gives the spans. */
  function Given(directory: Directory, ps: seq<Pending>): seq<Names> {
    seq(|ps|, i requires 0 <= i < |ps| => directory.names(ps[i]))
  }

  lemma FirstPassNext(env: Env, directory: Directory, h: seq<Recent.Record>, ps: seq<Pending>, i: nat, now: Instant)
    requires i < |ps|
    ensures h + Lessons(env, directory, ps[..i + 1], now)
            == h + Lessons(env, directory, ps[..i], now) + LessonOf(env, directory, ps[i], now)
    ensures Given(directory, ps[..i + 1]) == Given(directory, ps[..i]) + [directory.names(ps[i])]
  {
    assert ps[..i + 1][..i] == ps[..i];
  }

  lemma CellsNext(h: seq<Counting.Event>, calls: seq<Counting.Event>, final: seq<Names>,
                  clients: seq<Cell>, servers: seq<Cell>, counted: seq<Cell>, i: nat, counts: bool)
    requires i < |calls| == |final| && forall e :: e in calls ==> e.Counting?
    requires clients == Clients(final)[..i] && servers == Servers(final)[..i] && counted == CountedColumn(h, calls)[..i]
    requires counts == Counting.Answer(h + calls[..i], calls[i].span)
    ensures h + calls[..i + 1] == h + calls[..i] + [calls[i]]
    ensures Clients(final)[..i + 1] == clients + [Text(final[i].client)]
    ensures Servers(final)[..i + 1] == servers + [Text(final[i].server)]
    ensures CountedColumn(h, calls)[..i + 1] == counted + [Number(if counts then 1 else 0)]
  {
    assert calls[..i + 1] == calls[..i] + [calls[i]];
  }

  /** A row of trace_addresses. */
  datatype AddressRow = AddressRow(address: string, application: string, lastSeen: Instant)

  function Records(nodeIps: Option<set<string>>, rows: seq<AddressRow>, now: Instant): seq<Recent.Record> {
    seq(|rows|, i requires 0 <= i < |rows| =>
      Recent.Record(nodeIps, rows[i].address, Recent.Known(rows[i].application, rows[i].lastSeen), now))
  }

  // ----- what the histories of the two memories mean, once they are timed -----

  /** The two histories up to a moment: no call went back in time, no row is from the future. */
  ghost predicate Timed(servers: seq<Counting.Event>, addresses: seq<Recent.Record>, t: int) {
    && Counting.WellTimed(servers) && Counting.Clock(servers) <= t
    && Recent.Monotone(addresses) && forall i :: 0 <= i < |addresses| ==> addresses[i].clock <= t
  }

  lemma TimedCalls(h: seq<Counting.Event>, calls: seq<Counting.Event>, now: Instant)
    requires Counting.WellTimed(h) && Counting.Clock(h) <= now
    requires forall i :: 0 <= i < |calls| ==> calls[i].Counting? && calls[i].span.now == now
    ensures Counting.WellTimed(h + calls) && Counting.Clock(h + calls) <= now
  {
    var all := h + calls;
    assert forall i :: |h| <= i < |all| ==> all[i] == calls[i - |h|];
    assert forall i :: 0 <= i < |h| ==> all[i] == h[i] && Counting.At(h[i]) <= now;
  }

  lemma TimedLessons(h: seq<Recent.Record>, ls: seq<Recent.Record>, now: Instant)
    requires Recent.Monotone(h) && (forall i :: 0 <= i < |h| ==> h[i].clock <= now) && forall r :: r in ls ==> r.clock == now
    ensures Recent.Monotone(h + ls) && forall i :: 0 <= i < |h + ls| ==> (h + ls)[i].clock <= now
  {
    assert forall i :: |h| <= i < |h + ls| ==> (h + ls)[i] in ls;
  }

  lemma {:induction false} LessonsAreNow(env: Env, directory: Directory, ps: seq<Pending>, now: Instant)
    ensures forall r :: r in Lessons(env, directory, ps, now) ==> r.clock == now
  {
    if ps != [] {
      LessonsAreNow(env, directory, ps[..|ps| - 1], now);
    }
  }

  lemma TimedWrite(env: Env, directory: Directory, addresses: seq<Recent.Record>, servers: seq<Counting.Event>,
                   ps: seq<Pending>, names: seq<Names>, now: Instant, servers': seq<Counting.Event>, addresses': seq<Recent.Record>)
    requires |ps| == |names|
    requires servers' == servers + Countings(ps, names, now) && addresses' == addresses + Lessons(env, directory, ps, now)
    ensures Timed(servers, addresses, now) ==> Timed(servers', addresses', now)
  {
    if Timed(servers, addresses, now) {
      TimedCalls(servers, Countings(ps, names, now), now);
      LessonsAreNow(env, directory, ps, now);
      TimedLessons(addresses, Lessons(env, directory, ps, now), now);
    }
  }

  lemma TimedRows(servers: seq<Counting.Event>, addresses: seq<Recent.Record>, rows: seq<Counting.Row>, now: Instant)
    requires Timed(servers, addresses, now) && forall row :: row in rows ==> row.lastSeen <= now
    ensures Timed(servers + [Counting.Reading(rows, now)], addresses, now)
  {
    var all := servers + [Counting.Reading(rows, now)];
    assert forall i :: 0 <= i < |servers| ==> all[i] == servers[i] && Counting.At(servers[i]) <= now;
  }

  /** The Counted column of a write says of each span what the documentation promises, from all that
      was known and counted before it. */
  lemma CountedColumnMeans(env: Env, directory: Directory, addresses: seq<Recent.Record>, servers: seq<Counting.Event>,
                           ps: seq<Pending>, now: Instant, bodiesOk: bool, spansOk: bool, i: nat)
    requires Timed(servers, addresses, now) && i < |ps|
    ensures var names := BatchNames(env, directory, addresses, ps, now);
            WriteOp(env, directory, addresses, servers, ps, now, bodiesOk, spansOk).counted[i] ==
            Number(if Counting.ShouldCount(servers + Countings(ps, names, now)[..i], CountedSpan(ps[i], names[i], now)) then 1 else 0)
  {
    var calls := Countings(ps, BatchNames(env, directory, addresses, ps, now), now);
    TimedCalls(servers, calls[..i + 1], now);
    assert servers + calls[..i] + [calls[i]] == servers + calls[..i + 1];
    Counting.CountedMeaning(servers + calls[..i], calls[i].span);
  }

  /** A peer named by its plain IP gets in a write the application of the latest record of the IP, of all
      that was recorded and that the batch itself teaches, if it is fresh. */
  lemma {:induction false} PeerNameMeans(env: Env, directory: Directory, addresses: seq<Recent.Record>, servers: seq<Counting.Event>,
                      ps: seq<Pending>, now: Instant, ip: string, application: string)
    requires Timed(servers, addresses, now) && ip != "" && !Recent.IsListen(env.net, ip) && application != ip
    ensures var h := addresses + Lessons(env, directory, ps, now);
            PeerName(env, Recent.Run(env.net, h), ip, ip, now) == application
            <==> Recent.LatestIs(env.net, h, ip, false, now, application)
  {
    LessonsAreNow(env, directory, ps, now);
    TimedLessons(addresses, Lessons(env, directory, ps, now), now);
    var h := addresses + Lessons(env, directory, ps, now);
    Recent.PlainIpLookup(env.net, h, ip, now, application);
  }

  class TracesBatch {
    const limit: nat
    const env: Env
    const createdAt: Instant
    const servers: Counting.ServerSpanSources
    const addresses: Recent.Addresses

    var serversLoaded: bool
    var addressesLoaded: bool

    var columns: Columns
    var pending: seq<Pending>
    var bodies: map<nat, string>
    var bodiesWrittenAt: map<nat, Instant>

    ghost var added: seq<Arrival>
    ghost var held: seq<Arrival>
    ghost var log: seq<BatchState.Write>
    ghost var clock: int
    ghost var ops: seq<Op>

    ghost function Value(): State reads this {
      State(columns, pending, bodies, bodiesWrittenAt, added, held, log, clock)
    }

    ghost predicate Parts() reads this, servers, addresses {
      servers.Valid() && addresses.Valid() && addresses.net == env.net
    }

    ghost predicate Valid() reads this, servers, addresses {
      Parts() && Possible(env, ops) && Value() == Run(env, ops)
    }

    /** Up to a moment everything happened in time. */
    ghost predicate OnTime(t: int) reads this, servers, addresses {
      clock <= t && Timed(servers.history, addresses.history, t)
    }

    /** readServers and readAddresses tell whether there is something to read from ClickHouse. */
    constructor (limit: nat, env: Env, createdAt: Instant, readServers: bool, readAddresses: bool)
      ensures Valid() && ops == [] && fresh(servers) && fresh(addresses) && OnTime(ZERO_TIME)
      ensures this.limit == limit && this.env == env && this.createdAt == createdAt
      ensures serversLoaded == !readServers && addressesLoaded == !readAddresses
    {
      this.limit, this.env, this.createdAt := limit, env, createdAt;
      servers := new Counting.ServerSpanSources();
      addresses := new Recent.Addresses(env.net);
      serversLoaded, addressesLoaded := !readServers, !readAddresses;
      columns := NO_ROWS;
      pending, bodies, bodiesWrittenAt := [], map[], map[];
      added, held, log, clock, ops := [], [], [], ZERO_TIME, [];
    }

    predicate ReadsDone() reads this {
      serversLoaded && addressesLoaded
    }

    method AddBody(body: string, now: Instant) returns (hash: nat)
      modifies this`bodies
      ensures hash == BodyHash(env, body)
      ensures bodies == KeepBody(env, old(bodies), bodiesWrittenAt, body, now)
    {
      hash := if body == "" then 0 else env.hash(body);
      if hash == 0 {
        return 0;
      }
      if hash in bodiesWrittenAt && now - bodiesWrittenAt[hash] < BODY_REWRITE_INTERVAL {
        return hash;
      }
      bodies := bodies[hash := body];
    }

    /** One span is appended to each data column and to pending. */
    method AddSpan(s: Incoming, now: Instant)
      modifies this`columns, this`pending, this`bodies, this`added, this`held, this`clock
      ensures Value() == Arrived(env, old(Value()), ArrivingOf(env, s), now)
    {
      AddArriving(ArrivingOf(env, s), now);
    }

    method AddArriving(x: Arriving, now: Instant)
      modifies this`columns, this`pending, this`bodies, this`added, this`held, this`clock
      ensures Value() == Arrived(env, old(Value()), x, now)
    {
      pending := pending + [x.pending];
      var requestHash := AddBody(x.request, now);
      var responseHash := AddBody(x.response, now);
      columns := AppendRow(columns, x.row);
      added, held, clock := added + [Arrival(x.row, now)], held + [Arrival(x.row, now)], now;
    }

    /** The batch knows what it waits for, or has waited long enough, or has too much (n spans). */
    predicate WritesNow(directoryReady: bool, now: Instant, n: nat) reads this {
      (ReadsDone() && directoryReady) || now - createdAt >= 30 * SECOND || n >= 10 * limit
    }

    /** Add: the spans of a request are appended, and the batch written once it is full, unless it is
        still waiting. */
    method Add(request: seq<ResourceSpans>, directory: Directory, directoryReady: bool, now: Instant,
               bodiesOk: bool, spansOk: bool)
      requires Valid() && clock <= now
      modifies this, servers, addresses
      ensures Valid() && clock == now
      ensures var ps, added := old(pending) + RequestPendings(env, request), old(ops) + [Op.Add(RequestSpans(request), now)];
              if |ps| >= limit && WritesNow(directoryReady, now, |ps|) then
                pending == [] && ops == added + [WriteOp(env, directory, old(addresses.history), old(servers.history), ps, now, bodiesOk, spansOk)]
              else
                pending == ps && ops == added
      ensures limit > 0 ==> |pending| < 10 * limit
      ensures limit > 0 && WritesNow(directoryReady, now, 0) ==> |pending| < limit
      ensures old(OnTime(now)) ==> OnTime(now)
      ensures serversLoaded == old(serversLoaded) && addressesLoaded == old(addressesLoaded)
    {
      AddRequest(request, now);
      RowsArePending();
      if |columns[Timestamp]| < limit {
        return;
      }
      Save(directory, directoryReady, now, bodiesOk, spansOk);
    }

    method AddRequest(request: seq<ResourceSpans>, now: Instant)
      requires Valid() && clock <= now
      modifies this`columns, this`pending, this`bodies, this`added, this`held, this`clock, this`ops
      ensures Valid() && clock == now
      ensures ops == old(ops) + [Op.Add(RequestSpans(request), now)]
      ensures pending == old(pending) + RequestPendings(env, request)
    {
      var spans := Flatten(request);
      ghost var was := Value();
      AddSpans(spans, now);
      AllArrivedAdds(env, was, ArrivingAll(env, spans), now);
      RunNext(env, ops, Op.Add(spans, now));
      ops := ops + [Op.Add(spans, now)];
    }

    method AddSpans(spans: seq<Incoming>, now: Instant)
      modifies this`columns, this`pending, this`bodies, this`added, this`held, this`clock
      ensures Value() == AllArrived(env, old(Value()), ArrivingAll(env, spans), now)
    {
      ghost var was, xs := Value(), ArrivingAll(env, spans);
      clock := now;
      for k := 0 to |spans|
        invariant Value() == AllArrived(env, was, xs[..k], now)
      {
        ArrivesNext(env, was, xs, k, now);
        AddSpan(spans[k], now);
      }
      assert xs[..|spans|] == xs;
    }

    lemma RowsArePending()
      requires Valid()
      ensures Timestamp in columns && |columns[Timestamp]| == |pending|
    {
      RunInvariant(env, ops);
      assert DataRows(Value().columns, |Value().held|);
    }

    /** save: write, unless the batch is new and does not know yet what it waits for. */
    method Save(directory: Directory, directoryReady: bool, now: Instant, bodiesOk: bool, spansOk: bool)
      requires Valid() && clock <= now
      modifies this, servers, addresses
      ensures Valid() && (old(OnTime(now)) ==> OnTime(now))
      ensures serversLoaded == old(serversLoaded) && addressesLoaded == old(addressesLoaded)
      ensures if WritesNow(directoryReady, now, old(|pending|)) then
                pending == [] && clock == now
                && ops == old(ops) + [WriteOp(env, directory, old(addresses.history), old(servers.history), old(pending), now, bodiesOk, spansOk)]
              else
                pending == old(pending) && clock == old(clock) && ops == old(ops)
                && addresses.history == old(addresses.history) && servers.history == old(servers.history)
    {
      RowsArePending();
      if !(ReadsDone() && directoryReady) && now - createdAt < MAX_HOLD && |columns[Timestamp]| < MAX_HELD_BATCHES * limit {
        return;
      }
      ghost var _ := Write(directory, now, bodiesOk, spansOk);
    }

    /** Close, once it has waited: whatever is held is written. */
    method Close(directory: Directory, now: Instant, bodiesOk: bool, spansOk: bool)
      requires Valid() && clock <= now
      modifies this, servers, addresses
      ensures Valid() && pending == [] && clock == now && (old(OnTime(now)) ==> OnTime(now))
      ensures ops == old(ops) + [WriteOp(env, directory, old(addresses.history), old(servers.history), old(pending), now, bodiesOk, spansOk)]
    {
      ghost var _ := Write(directory, now, bodiesOk, spansOk);
    }

    /** The rows read from trace_server_sources. */
    method RememberServers(rows: seq<Counting.Row>, now: Instant)
      requires Valid()
      modifies this`serversLoaded, servers
      ensures Valid() && serversLoaded
      ensures servers.history == old(servers.history) + [Counting.Reading(rows, now)]
      ensures old(OnTime(now)) && (forall row :: row in rows ==> row.lastSeen <= now) ==> OnTime(now)
    {
      if OnTime(now) && forall row :: row in rows ==> row.lastSeen <= now {
        TimedRows(servers.history, addresses.history, rows, now);
      }
      servers.Remember(rows, now);
      serversLoaded := true;
    }

    /** Addresses other replicas stored, checked against the nodes of the present directory. */
    method RememberAddresses(nodeIps: Option<set<string>>, rows: seq<AddressRow>, now: Instant)
      requires Valid()
      modifies this`addressesLoaded, addresses
      ensures Valid() && addressesLoaded
      ensures addresses.history == old(addresses.history) + Records(nodeIps, rows, now)
      ensures old(OnTime(now)) ==> OnTime(now)
    {
      if OnTime(now) {
        TimedLessons(addresses.history, Records(nodeIps, rows, now), now);
      }
      RecordAll(nodeIps, rows, now);
      addressesLoaded := true;
      assert Value() == old(Value());
    }

    method RecordAll(nodeIps: Option<set<string>>, rows: seq<AddressRow>, now: Instant)
      requires addresses.Valid()
      modifies addresses
      ensures addresses.Valid() && addresses.history == old(addresses.history) + Records(nodeIps, rows, now)
    {
      ghost var records := Records(nodeIps, rows, now);
      for i := 0 to |rows|
        invariant addresses.Valid() && addresses.history == old(addresses.history) + records[..i]
      {
        addresses.RecordAddress(nodeIps, rows[i].address, rows[i].application, rows[i].lastSeen, now);
        assert records[..i + 1] == records[..i] + [records[i]];
      }
      assert records[..|rows|] == records;
    }

    method Learn(directory: Directory, p: Pending, now: Instant)
      requires addresses.Valid() && addresses.net == env.net
      modifies addresses
      ensures addresses.Valid()
      ensures addresses.history == old(addresses.history) + LessonOf(env, directory, p, now)
    {
      var names := directory.names(p);
      if !p.fromAgent {
        return;
      }
      match p.kind {
        case Server =>
          var ip, port := Attr(p.span, "server.address"), Attr(p.span, "server.port");
          if ip != "" && port != "" {
            addresses.RecordAddress(directory.nodeIps, env.net.joinHostPort(ip, port), names.server, now, now);
          }
        case Client =>
          var ip := Attr(p.span, "network.local.address");
          if ip != "" {
            addresses.RecordAddress(directory.nodeIps, ip, names.client, now, now);
          }
        case _ =>
      }
    }

    method NamePeers(ghost directory: Directory, p: Pending, names: Names, now: Instant) returns (named: Names)
      requires addresses.net == env.net && names == directory.names(p)
      ensures named == NamesOf(env, directory, addresses.Value(), p, now)
    {
      named := names;
      match p.kind {
        case Server | Consumer =>
          var address := ClientAddress(p.span);
          if address != "" && names.client == address {
            var name := addresses.Lookup(address, now);
            if name.Some? {
              named := Names(name.value, names.server);
            }
          }
        case Client | Producer =>
          var address := ServerAddress(env, p.span);
          if address != "" && names.server == address {
            var name := addresses.Lookup(address, now);
            if name.Some? {
              named := Names(names.client, name.value);
            }
          }
        case _ =>
      }
    }

    /** The second pass of write: the cells of Client, Server and Counted. */
    method NameAndCount(directory: Directory, names: seq<Names>, ghost final: seq<Names>, now: Instant)
      returns (clients: seq<Cell>, serverNames: seq<Cell>, counted: seq<Cell>)
      requires Parts() && |names| == |pending| == |final|
      requires names == Given(directory, pending)
      requires forall i :: 0 <= i < |pending| ==> final[i] == NamesOf(env, directory, addresses.Value(), pending[i], now)
      modifies servers
      ensures Parts()
      ensures clients == Clients(final) && serverNames == Servers(final)
      ensures counted == CountedColumn(old(servers.history), Countings(pending, final, now))
      ensures servers.history == old(servers.history) + Countings(pending, final, now)
    {
      ghost var h, calls := servers.history, Countings(pending, final, now);
      clients, serverNames, counted := [], [], [];
      for i := 0 to |pending|
        invariant Parts()
        invariant clients == Clients(final)[..i] && serverNames == Servers(final)[..i]
        invariant counted == CountedColumn(h, calls)[..i]
        invariant servers.history == h + calls[..i]
      {
        var name, counts := NameAndCountOne(directory, pending[i], names[i], now);
        CellsNext(h, calls, final, clients, serverNames, counted, i, counts);
        clients := clients + [Text(name.client)];
        serverNames := serverNames + [Text(name.server)];
        counted := counted + [Number(if counts then 1 else 0)];
      }
      assert calls[..|pending|] == calls;
    }

    method NameAndCountOne(ghost directory: Directory, p: Pending, names: Names, now: Instant) returns (named: Names, counts: bool)
      requires Parts() && names == directory.names(p)
      modifies servers
      ensures Parts()
      ensures named == NamesOf(env, directory, addresses.Value(), p, now)
      ensures counts == Counting.Answer(old(servers.history), CountedSpan(p, named, now))
      ensures servers.history == old(servers.history) + [Counting.Counting(CountedSpan(p, named, now))]
    {
      named := NamePeers(directory, p, names, now);
      counts := servers.Counted(p.kind, p.fromAgent, named.server, p.protocol, now);
    }

    /** saveBodies, with the outcome of its insert. */
    method SaveBodies(now: Instant, ok: bool)
      modifies this`bodies, this`bodiesWrittenAt, this`log, this`clock
      ensures Value() == BodiesSaved(old(Value()), now, ok)
    {
      clock := now;
      if bodies == map[] {
        return;
      }
      log := log + [Bodies(bodies, now, ok)];
      if !ok {
        bodies := map[];
        return; // bodiesWrittenAt stays as it was, so a later span brings these bodies again
      }
      if |bodiesWrittenAt| + |bodies| > MAX_BODIES_WRITTEN {
        bodiesWrittenAt := map[];
      }
      bodiesWrittenAt := Stamp(bodiesWrittenAt, bodies, now);
      bodies := map[];
    }

    /** The 27 columns are inserted, and emptied whether that failed or not. */
    method ExecAndReset(ok: bool)
      modifies this`columns, this`held, this`log
      ensures columns == NO_ROWS && held == [] && log == old(log) + [SpanRows(old(columns), old(held), ok)]
    {
      log := log + [SpanRows(columns, held, ok)];
      held := [];
      columns := NO_ROWS;
    }

    /** write: learning, naming and counting, then the two inserts. names are those of the spans written. */
    method Write(directory: Directory, now: Instant, bodiesOk: bool, spansOk: bool) returns (ghost names: seq<Names>)
      requires Valid() && clock <= now
      modifies this, servers, addresses
      ensures Valid() && pending == [] && clock == now && (old(OnTime(now)) ==> OnTime(now))
      ensures serversLoaded == old(serversLoaded) && addressesLoaded == old(addressesLoaded)
      ensures names == BatchNames(env, directory, old(addresses.history), old(pending), now)
      ensures addresses.history == old(addresses.history) + Lessons(env, directory, old(pending), now)
      ensures servers.history == old(servers.history) + Countings(old(pending), names, now)
      ensures ops == old(ops) + [WriteOp(env, directory, old(addresses.history), old(servers.history), old(pending), now, bodiesOk, spansOk)]
    {
      RowsArePending();
      ghost var addressesBefore, serversBefore, ps := addresses.history, servers.history, pending;
      if |columns[Timestamp]| == 0 {
        names := WriteNothing(directory, now, bodiesOk, spansOk);
      } else {
        names := WriteSome(directory, now, bodiesOk, spansOk);
      }
      TimedWrite(env, directory, addressesBefore, serversBefore, ps, names, now, servers.history, addresses.history);
    }

    method WriteNothing(directory: Directory, now: Instant, bodiesOk: bool, spansOk: bool) returns (ghost names: seq<Names>)
      requires Valid() && clock <= now && pending == []
      modifies this`clock, this`ops
      ensures Valid() && clock == now
      ensures names == BatchNames(env, directory, addresses.history, [], now)
      ensures addresses.history == addresses.history + Lessons(env, directory, [], now)
      ensures servers.history == servers.history + Countings([], names, now)
      ensures ops == old(ops) + [WriteOp(env, directory, addresses.history, servers.history, [], now, bodiesOk, spansOk)]
    {
      names := [];
      EmptyWrite(directory, addresses.history, servers.history, now);
      RecordWrite(now, [], [], [], bodiesOk, spansOk);
      clock := now;
    }

    lemma EmptyWrite(directory: Directory, h: seq<Recent.Record>, calls: seq<Counting.Event>, now: Instant)
      ensures BatchNames(env, directory, h, [], now) == []
      ensures h + Lessons(env, directory, [], now) == h
      ensures Clients([]) == [] && Servers([]) == [] && Countings([], [], now) == [] && calls + [] == calls
      ensures CountedColumn(calls, []) == []
    {
    }

    method WriteSome(directory: Directory, now: Instant, bodiesOk: bool, spansOk: bool) returns (ghost names: seq<Names>)
      requires Valid() && clock <= now && pending != []
      modifies this`columns, this`pending, this`bodies, this`bodiesWrittenAt, this`held, this`log, this`clock, this`ops,
               servers, addresses
      ensures Valid() && pending == [] && clock == now
      ensures names == BatchNames(env, directory, old(addresses.history), old(pending), now)
      ensures addresses.history == old(addresses.history) + Lessons(env, directory, old(pending), now)
      ensures servers.history == old(servers.history) + Countings(old(pending), names, now)
      ensures ops == old(ops) + [WriteOp(env, directory, old(addresses.history), old(servers.history), old(pending), now, bodiesOk, spansOk)]
    {
      var clients, serverNames, counted;
      clients, serverNames, counted, names := Decide(directory, now);
      RecordWrite(now, clients, serverNames, counted, bodiesOk, spansOk);
      WriteDecided(clients, serverNames, counted, now, bodiesOk, spansOk);
    }

    /** The history of the object gets its next step, which the fields then take. */
    ghost method RecordWrite(now: Instant, clients: seq<Cell>, serverNames: seq<Cell>, counted: seq<Cell>, bodiesOk: bool, spansOk: bool)
      requires Possible(env, ops) && Value() == Run(env, ops) && clock <= now
      requires |clients| == |serverNames| == |counted| == |pending|
      modifies this`ops
      ensures ops == old(ops) + [Op.Write(now, clients, serverNames, counted, bodiesOk, spansOk)]
      ensures Possible(env, ops) && Run(env, ops) == Written(Value(), now, clients, serverNames, counted, bodiesOk, spansOk)
    {
      var op := Op.Write(now, clients, serverNames, counted, bodiesOk, spansOk);
      RunNext(env, ops, op);
      ops := ops + [op];
    }

    /** The decided columns are filled, the bodies and then the columns inserted. */
    method WriteDecided(clients: seq<Cell>, serverNames: seq<Cell>, counted: seq<Cell>, now: Instant, bodiesOk: bool, spansOk: bool)
      requires pending != []
      modifies this`columns, this`pending, this`bodies, this`bodiesWrittenAt, this`held, this`log, this`clock
      ensures Value() == Written(old(Value()), now, clients, serverNames, counted, bodiesOk, spansOk)
      ensures pending == [] && clock == now
    {
      columns := columns[ClientName := clients][ServerName := serverNames][Counted := counted];
      pending := [];
      SaveBodies(now, bodiesOk);
      ExecAndReset(spansOk);
    }

    /** The two passes of write. */
    method Decide(directory: Directory, now: Instant)
      returns (clients: seq<Cell>, serverNames: seq<Cell>, counted: seq<Cell>, ghost final: seq<Names>)
      requires Parts()
      modifies servers, addresses
      ensures Parts()
      ensures addresses.history == old(addresses.history) + Lessons(env, directory, pending, now)
      ensures final == BatchNames(env, directory, old(addresses.history), pending, now)
      ensures servers.history == old(servers.history) + Countings(pending, final, now)
      ensures clients == Clients(final) && serverNames == Servers(final)
      ensures counted == CountedColumn(old(servers.history), Countings(pending, final, now))
    {
      final := BatchNames(env, directory, addresses.history, pending, now);
      var names := LearnAll(directory, now);
      clients, serverNames, counted := NameAndCount(directory, names, final, now);
    }

    /** The first pass of write: the names the directory gives, and the addresses the spans teach. */
    method LearnAll(directory: Directory, now: Instant) returns (names: seq<Names>)
      requires Parts()
      modifies addresses
      ensures Parts()
      ensures addresses.history == old(addresses.history) + Lessons(env, directory, pending, now)
      ensures names == Given(directory, pending)
    {
      names := [];
      ghost var h, ps := addresses.history, pending;
      for i := 0 to |pending|
        invariant addresses.Valid()
        invariant addresses.history == h + Lessons(env, directory, ps[..i], now)
        invariant names == Given(directory, ps[..i])
      {
        FirstPassNext(env, directory, h, ps, i, now);
        names := names + [directory.names(pending[i])];
        Learn(directory, pending[i], now);
      }
      assert ps[..|ps|] == ps;
    }
  }
}

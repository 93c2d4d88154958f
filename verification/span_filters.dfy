/** clickhouse/traces.go: the WHERE of the Traces page, for otel_traces or the histogram.

    A span needs one of the wanted values of a field, none of the unwanted, and that for every field;
    filters on the dimensions of the histogram ask of a span only what its row there tells. */
module SpanFilters {
  import opened Prelude

  /** A row of otel_traces; times and durations are in nanoseconds. columns are those not named here. */
  datatype SpanRow = SpanRow(timestamp: int, parentSpanId: string, spanName: string, kind: string, service: string,
                             client: string, server: string, counted: int, duration: int, failed: bool,
                             spanAttrs: Attrs, columns: Attrs)

  datatype StatusClass = Http(hundreds: int) | Failed | Other

  /** The key of a row of otel_traces_histogram; minute is its Timestamp, in Unix seconds. */
  datatype HistKey = HistKey(service: string, spanName: string, kind: string, root: bool, peerAddr: string,
                             peerName: string, peerPort: string, minute: int, bucket: int, status: StatusClass,
                             client: string, server: string, counted: int)

  datatype View = Raw(row: SpanRow) | Minutely(key: HistKey)

  /** What the model does not look into: match(), toUInt16OrZero, and unicode.IsLetter of a whole name. */
  datatype Env = Env(matches: (string, string) -> bool, toUInt16: string -> int, letters: string -> bool)

  datatype Field = ServiceName | SpanName | SpanKind | NetSockPeerAddr | Client | Server | Source | Status | Namespace | ApiRoute
                 | Column(name: string)

  /** =, !=, ~, !~ and anything else. */
  datatype Op = Equal | NotEqual | Like | NotLike | Another

  datatype SpanFilter = SpanFilter(field: Field, op: Op, value: string)

  // ----- the key of a span in the histogram -----

  /** The lower bounds of the duration buckets, in milliseconds. */
  const BUCKETS: seq<int> := [0, 5, 10, 25, 50, 100, 250, 500, 1000, 2500, 5000, 10000]

  /** roundDown: the last bound that is not above the duration, or the first bound. */
  function RoundDown(nanoseconds: int, bounds: seq<int>): (bound: int)
    requires bounds != []
    ensures bound in bounds
  {
    var last := bounds[|bounds| - 1];
    if |bounds| == 1 || last * 1_000_000 <= nanoseconds then last
    else RoundDown(nanoseconds, bounds[..|bounds| - 1])
  }

  /** A duration is in the bucket of the greatest bound that is not above it. */
  lemma {:induction false} RoundDownIs(nanoseconds: int, bounds: seq<int>)
    requires bounds != [] && forall i, j :: 0 <= i < j < |bounds| ==> bounds[i] < bounds[j]
    ensures forall b :: b in bounds && b * 1_000_000 <= nanoseconds ==> b <= RoundDown(nanoseconds, bounds)
    ensures bounds[0] * 1_000_000 <= nanoseconds ==> RoundDown(nanoseconds, bounds) * 1_000_000 <= nanoseconds
  {
    var rest, last := bounds[..|bounds| - 1], bounds[|bounds| - 1];
    assert bounds == rest + [last];
    if |bounds| > 1 && last * 1_000_000 > nanoseconds {
      RoundDownIs(nanoseconds, rest);
    }
  }

  /** With the bounds the histogram has: the greatest of the twelve that is not above the duration. */
  lemma BucketOfDuration(nanoseconds: int)
    ensures var bounds, b := {0, 5, 10, 25, 50, 100, 250, 500, 1000, 2500, 5000, 10000}, RoundDown(nanoseconds, BUCKETS);
            && b in bounds && (nanoseconds >= 0 ==> b * 1_000_000 <= nanoseconds)
            && forall other | other in bounds :: other * 1_000_000 <= nanoseconds ==> other <= b
  {
    RoundDownIs(nanoseconds, BUCKETS);
    assert BUCKETS[0] == 0 && BUCKETS[1] == 5 && BUCKETS[2] == 10 && BUCKETS[3] == 25 && BUCKETS[4] == 50 && BUCKETS[5] == 100;
    assert BUCKETS[6] == 250 && BUCKETS[7] == 500 && BUCKETS[8] == 1000 && BUCKETS[9] == 2500 && BUCKETS[10] == 5000 && BUCKETS[11] == 10000;
    var bounds := {0, 5, 10, 25, 50, 100, 250, 500, 1000, 2500, 5000, 10000};
    forall other | other in bounds && other * 1_000_000 <= nanoseconds ensures other <= RoundDown(nanoseconds, BUCKETS) {
      assert other in BUCKETS;
    }
  }

  function HttpStatus(env: Env, row: SpanRow): int {
    var code := Attr(row.spanAttrs, "http.status_code");
    env.toUInt16(if code != "" then code else Attr(row.spanAttrs, "http.response.status_code"))
  }

  function StatusOf(env: Env, row: SpanRow): StatusClass {
    if 200 <= HttpStatus(env, row) <= 599 then Http(HttpStatus(env, row) / 100)
    else if row.failed then Failed
    else Other
  }

  const PEER_ADDR: string := "net.sock.peer.addr"

  /** What the materialized view groups a span by. */
  function KeyOf(env: Env, row: SpanRow): HistKey {
    HistKey(row.service, row.spanName, row.kind, row.parentSpanId == "", Attr(row.spanAttrs, PEER_ADDR),
            Attr(row.spanAttrs, "net.peer.name"), Attr(row.spanAttrs, "net.peer.port"), MinuteOf(row.timestamp),
            RoundDown(row.duration, BUCKETS), StatusOf(env, row), row.client, row.server, row.counted)
  }

  // ----- the fields -----

  function StatusText(status: StatusClass): string {
    match status
    case Http(2) => "2xx"
    case Http(3) => "3xx"
    case Http(4) => "4xx"
    case Http(_) => "5xx"
    case Failed => "error"
    case Other => "other"
  }

  /** splitByChar('/', s)[1] */
  function BeforeSlash(s: string): string {
    if s == "" || s[0] == '/' then "" else [s[0]] + BeforeSlash(s[1..])
  }

  /** The namespace of an application (namespace/name). */
  function NamespaceOf(server: string): string {
    if '/' in server then BeforeSlash(server) else "n/a"
  }

  /** How = compares a namespace, by the prefix of Server. */
  predicate InNamespace(value: string, server: string) {
    if value == "n/a" then '/' !in server else value + "/" <= server
  }

  lemma {:induction false} NoSlashBefore(s: string)
    ensures '/' !in BeforeSlash(s)
  {
    if s != "" && s[0] != '/' {
      NoSlashBefore(s[1..]);
    }
  }

  lemma {:induction false} PrefixIsBefore(value: string, server: string)
    requires '/' !in value
    ensures value + "/" <= server <==> '/' in server && BeforeSlash(server) == value
  {
    if server == "" {
      assert (value + "/")[|value|] == '/';
    } else if value == "" {
      assert value + "/" <= server <==> server[0] == '/';
    } else {
      PrefixIsBefore(value[1..], server[1..]);
      assert value == [value[0]] + value[1..] && server == [server[0]] + server[1..];
      assert value + "/" <= server <==> value[0] == server[0] && value[1..] + "/" <= server[1..] by {
        assert value + "/" == [value[0]] + (value[1..] + "/");
      }
    }
  }

  /** Comparing the prefix is comparing the namespace exactly for the values a namespace can have. */
  lemma PrefixIsNamespaceIff(value: string)
    ensures (forall server :: InNamespace(value, server) == (NamespaceOf(server) == value)) <==> '/' !in value || value == "n/a"
  {
    if value == "n/a" {
      forall server ensures InNamespace(value, server) == (NamespaceOf(server) == value) {
        NoSlashBefore(server);
        assert value[1] == '/';
      }
    } else if '/' !in value {
      forall server ensures InNamespace(value, server) == (NamespaceOf(server) == value) {
        PrefixIsBefore(value, server);
      }
    } else {
      var server := value + "/";
      NoSlashBefore(server);
      assert InNamespace(value, server) && NamespaceOf(server) != value;
    }
  }

  /** The text a filter compares, a column or an expression of columns. */
  function Text(env: Env, field: Field, view: View): string {
    match view
    case Raw(r) =>
      (match field
       case ServiceName => r.service
       case SpanName => r.spanName
       case SpanKind => r.kind
       case NetSockPeerAddr => Attr(r.spanAttrs, PEER_ADDR)
       case Client => r.client
       case Server => r.server
       case Source => if r.service != "" && r.service[0] == '/' then "agent" else "otel"
       case Status => StatusText(StatusOf(env, r))
       case Namespace => NamespaceOf(r.server)
       case ApiRoute => Attr(r.columns, "ApiRoute")
       case Column(name) => Attr(r.columns, name))
    case Minutely(k) =>
      (match field
       case ServiceName => k.service
       case SpanName => k.spanName
       case SpanKind => k.kind
       case NetSockPeerAddr => k.peerAddr
       case Client => k.client
       case Server => k.server
       case Source => if k.service != "" && k.service[0] == '/' then "agent" else "otel"
       case Status => StatusText(k.status)
       case Namespace => NamespaceOf(k.server)
       case _ => "")
  }

  /** The fields the histogram has too. */
  predicate OnDimension(field: Field) {
    !field.ApiRoute? && !field.Column?
  }

  lemma TextFactors(env: Env, field: Field, row: SpanRow)
    requires OnDimension(field)
    ensures Text(env, field, Raw(row)) == Text(env, field, Minutely(KeyOf(env, row)))
  {
  }

  // ----- conditions -----

  datatype Atom =
    | Is(field: Field, value: string)
    | Matches(field: Field, regexp: string)
    | ServerIn(namespace: string)
    | Root
    | CountedOne
    | PeerIn(addrs: seq<string>)
    | Within(from: int, to: int)

  datatype Test = Test(atom: Atom, negated: bool)

  datatype Cond = One(test: Test) | AnyOf(tests: seq<Test>)

  /** The timestamp of a row of the histogram is that of its minute. */
  function Seconds(view: View): int {
    match view
    case Raw(r) => r.timestamp
    case Minutely(k) => k.minute * SECOND
  }

  predicate HoldsAtom(env: Env, atom: Atom, view: View) {
    match atom
    case Is(field, value) => Text(env, field, view) == value
    case Matches(field, regexp) => env.matches(Text(env, field, view), regexp)
    case ServerIn(namespace) => InNamespace(namespace, Text(env, Field.Server, view))
    case Root => if view.Raw? then view.row.parentSpanId == "" else view.key.root
    case CountedOne => (if view.Raw? then view.row.counted else view.key.counted) == 1
    case PeerIn(addrs) => Text(env, NetSockPeerAddr, view) in addrs
    case Within(from, to) => from * SECOND <= Seconds(view) < to * SECOND
  }

  predicate HoldsTest(env: Env, test: Test, view: View) {
    HoldsAtom(env, test.atom, view) != test.negated
  }

  predicate Holds(env: Env, cond: Cond, view: View) {
    match cond
    case One(test) => HoldsTest(env, test, view)
    case AnyOf(tests) => exists t :: t in tests && HoldsTest(env, t, view)
  }

  predicate HoldsAll(env: Env, where: seq<Cond>, view: View) {
    forall c :: c in where ==> Holds(env, c, view)
  }

  lemma HoldsConcat(env: Env, a: seq<Cond>, b: seq<Cond>, view: View)
    ensures HoldsAll(env, a + b, view) == (HoldsAll(env, a, view) && HoldsAll(env, b, view))
  {
    assert forall c :: c in a + b <==> c in a || c in b;
  }

  // ----- what filters mean -----

  /** The row has the value a filter with = or != names. */
  predicate Compares(env: Env, f: SpanFilter, view: View) {
    if f.field == Namespace then InNamespace(f.value, Text(env, Field.Server, view)) else Text(env, f.field, view) == f.value
  }

  /** A value of the row matches the pattern of a filter with ~ or !~. */
  predicate Fits(env: Env, f: SpanFilter, view: View) {
    env.matches(Text(env, f.field, view), f.value)
  }

  /** What the filters of a field ask of a row: no value of a != and no pattern of a !~, and some value of a =
      or some pattern of a ~ if there are any. */
  predicate Passes(env: Env, filters: seq<SpanFilter>, field: Field, view: View) {
    && (forall f :: f in filters && f.field == field && f.op == NotEqual ==> !Compares(env, f, view))
    && (forall f :: f in filters && f.field == field && f.op == NotLike ==> !Fits(env, f, view))
    && ((exists f :: f in filters && f.field == field && (f.op == Equal || f.op == Like)) ==>
          exists f :: f in filters && f.field == field
                      && ((f.op == Equal && Compares(env, f, view)) || (f.op == Like && Fits(env, f, view))))
  }

  /** ... of all fields that are not skipped; a filter with an operator that is none of the four counts for
      nothing, nor does one on a column whose name is not of letters. */
  predicate FiltersMean(env: Env, filters: seq<SpanFilter>, skip: Option<Field>, view: View) {
    forall f | f in filters && f.op in {Equal, NotEqual, Like, NotLike} && skip != Some(f.field)
               && (f.field.Column? ==> env.letters(f.field.name)) :: Passes(env, filters, f.field, view)
  }

  // ----- the filters as the code groups them -----

  /** The filter counts: its operator is known and its field is one a query may name. */
  predicate Accepted(env: Env, f: SpanFilter, skip: Option<Field>) {
    && skip != Some(f.field)
    && !f.op.Another?
    && (f.field.Column? ==> env.letters(f.field.name))
  }

  predicate Wanted(f: SpanFilter) {
    f.op.Equal? || f.op.Like?
  }

  predicate HasValue(env: Env, f: SpanFilter, view: View) {
    if f.op.Like? || f.op.NotLike? then env.matches(Text(env, f.field, view), f.value)
    else if f.field.Namespace? then InNamespace(f.value, Text(env, Field.Server, view))
    else Text(env, f.field, view) == f.value
  }

  /** An accepted filter of a field that wants a value of it, or one that does not. */
  predicate Of(env: Env, f: SpanFilter, skip: Option<Field>, field: Field, wanted: bool) {
    Accepted(env, f, skip) && f.field == field && Wanted(f) == wanted
  }

  predicate AnyHas(env: Env, filters: seq<SpanFilter>, skip: Option<Field>, field: Field, wanted: bool, view: View) {
    exists f :: f in filters && Of(env, f, skip, field, wanted) && HasValue(env, f, view)
  }

  predicate AnyOfField(env: Env, filters: seq<SpanFilter>, skip: Option<Field>, field: Field, wanted: bool) {
    exists f :: f in filters && Of(env, f, skip, field, wanted)
  }

  /** None of the unwanted values, and one of the wanted if there are any. */
  predicate FieldMeans(env: Env, filters: seq<SpanFilter>, skip: Option<Field>, field: Field, view: View) {
    && !AnyHas(env, filters, skip, field, false, view)
    && (AnyOfField(env, filters, skip, field, true) ==> AnyHas(env, filters, skip, field, true, view))
  }

  /** The groups ask what the filters ask. */
  lemma FieldPasses(env: Env, filters: seq<SpanFilter>, skip: Option<Field>, g: SpanFilter, view: View)
    requires Accepted(env, g, skip)
    ensures FieldMeans(env, filters, skip, g.field, view) == Passes(env, filters, g.field, view)
  {
    forall f | f in filters && f.field == g.field
      ensures Of(env, f, skip, g.field, true) == (f.op == Equal || f.op == Like)
      ensures Of(env, f, skip, g.field, false) == (f.op == NotEqual || f.op == NotLike)
      ensures HasValue(env, f, view) == if f.op == Like || f.op == NotLike then Fits(env, f, view) else Compares(env, f, view)
    {
    }
  }

  lemma FieldsPass(env: Env, filters: seq<SpanFilter>, skip: Option<Field>, view: View)
    ensures FiltersMean(env, filters, skip, view)
            <==> forall f :: f in filters && Accepted(env, f, skip) ==> FieldMeans(env, filters, skip, f.field, view)
  {
    forall f | f in filters && Accepted(env, f, skip)
      ensures FieldMeans(env, filters, skip, f.field, view) == Passes(env, filters, f.field, view)
    {
      FieldPasses(env, filters, skip, f, view);
    }
    assert forall f :: Accepted(env, f, skip) <==>
      f.op in {Equal, NotEqual, Like, NotLike} && skip != Some(f.field) && (f.field.Column? ==> env.letters(f.field.name));
  }

  /** Filters on the dimensions of the histogram ask of a span only what its row tells. */
  lemma FiltersFactor(env: Env, filters: seq<SpanFilter>, skip: Option<Field>, row: SpanRow)
    requires forall f :: f in filters ==> OnDimension(f.field)
    ensures FiltersMean(env, filters, skip, Raw(row)) == FiltersMean(env, filters, skip, Minutely(KeyOf(env, row)))
  {
    var raw, rolled := Raw(row), Minutely(KeyOf(env, row));
    forall f | f in filters ensures Compares(env, f, raw) == Compares(env, f, rolled) && Fits(env, f, raw) == Fits(env, f, rolled) {
      TextFactors(env, f.field, row);
      TextFactors(env, Field.Server, row);
    }
    forall f | f in filters ensures Passes(env, filters, f.field, raw) == Passes(env, filters, f.field, rolled) {
    }
  }

  // ----- building the conditions -----

  /** What the loop makes of an accepted filter. */
  function TestOf(f: SpanFilter): Test {
    var atom := if f.op.Like? || f.op.NotLike? then Matches(f.field, f.value)
                else if f.field.Namespace? then ServerIn(f.value)
                else Is(f.field, f.value);
    Test(atom, !Wanted(f))
  }

  lemma TestMeans(env: Env, f: SpanFilter, view: View)
    ensures HoldsTest(env, TestOf(f), view) == (HasValue(env, f, view) == Wanted(f))
  {
  }

  /** The tests of the filters of a field, wanted or not, in their order. */
  function TestsOf(env: Env, filters: seq<SpanFilter>, skip: Option<Field>, field: Field, wanted: bool): seq<Test> {
    if filters == [] then []
    else
      var before, f := TestsOf(env, filters[..|filters| - 1], skip, field, wanted), filters[|filters| - 1];
      if Of(env, f, skip, field, wanted) then before + [TestOf(f)] else before
  }

  lemma OneMoreTest(env: Env, before: seq<SpanFilter>, f: SpanFilter, skip: Option<Field>, field: Field, wanted: bool)
    ensures TestsOf(env, before + [f], skip, field, wanted) ==
            TestsOf(env, before, skip, field, wanted) + if Of(env, f, skip, field, wanted) then [TestOf(f)] else []
  {
    assert (before + [f])[..|before|] == before;
  }

  lemma {:induction false} TestsAre(env: Env, filters: seq<SpanFilter>, skip: Option<Field>, field: Field, wanted: bool, t: Test)
    ensures t in TestsOf(env, filters, skip, field, wanted)
            <==> exists f :: f in filters && Of(env, f, skip, field, wanted) && t == TestOf(f)
  {
    if filters != [] {
      var before, last := filters[..|filters| - 1], filters[|filters| - 1];
      TestsAre(env, before, skip, field, wanted, t);
      assert forall f :: f in filters <==> f in before || f == last by {
        assert filters == before + [last];
      }
    }
  }

  lemma {:induction false} SomeTests(env: Env, filters: seq<SpanFilter>, skip: Option<Field>, field: Field, wanted: bool)
    ensures TestsOf(env, filters, skip, field, wanted) != [] <==> AnyOfField(env, filters, skip, field, wanted)
  {
    var tests := TestsOf(env, filters, skip, field, wanted);
    if tests != [] {
      TestsAre(env, filters, skip, field, wanted, tests[0]);
    }
    if f :| f in filters && Of(env, f, skip, field, wanted) {
      TestsAre(env, filters, skip, field, wanted, TestOf(f));
    }
  }

  predicate AnyHolds(env: Env, tests: seq<Test>, view: View) {
    exists t :: t in tests && HoldsTest(env, t, view)
  }

  predicate AllHold(env: Env, tests: seq<Test>, view: View) {
    forall t :: t in tests ==> HoldsTest(env, t, view)
  }

  lemma WantedTests(env: Env, filters: seq<SpanFilter>, skip: Option<Field>, field: Field, view: View)
    ensures AnyHolds(env, TestsOf(env, filters, skip, field, true), view) == AnyHas(env, filters, skip, field, true, view)
  {
    var tests := TestsOf(env, filters, skip, field, true);
    forall t ensures t in tests <==> exists f :: f in filters && Of(env, f, skip, field, true) && t == TestOf(f) {
      TestsAre(env, filters, skip, field, true, t);
    }
    forall f | f in filters && Of(env, f, skip, field, true) ensures HoldsTest(env, TestOf(f), view) == HasValue(env, f, view) {
      TestMeans(env, f, view);
      assert TestOf(f) in tests;
    }
  }

  lemma UnwantedTests(env: Env, filters: seq<SpanFilter>, skip: Option<Field>, field: Field, view: View)
    ensures AllHold(env, TestsOf(env, filters, skip, field, false), view) == !AnyHas(env, filters, skip, field, false, view)
  {
    var tests := TestsOf(env, filters, skip, field, false);
    forall t ensures t in tests <==> exists f :: f in filters && Of(env, f, skip, field, false) && t == TestOf(f) {
      TestsAre(env, filters, skip, field, false, t);
    }
    forall f | f in filters && Of(env, f, skip, field, false) ensures HoldsTest(env, TestOf(f), view) == !HasValue(env, f, view) {
      TestMeans(env, f, view);
      assert TestOf(f) in tests;
    }
  }

  /** A missing key of a Go map of slices reads as no slice. */
  function At(tests: map<Field, seq<Test>>, field: Field): seq<Test> {
    if field in tests then tests[field] else []
  }

  ghost predicate AreTests(env: Env, filters: seq<SpanFilter>, skip: Option<Field>, tests: map<Field, seq<Test>>, wanted: bool) {
    forall field :: At(tests, field) == TestsOf(env, filters, skip, field, wanted)
  }

  /** The n-th filter is accepted and names the field. */
  predicate Names(env: Env, filters: seq<SpanFilter>, skip: Option<Field>, n: nat, field: Field) {
    n < |filters| && Accepted(env, filters[n], skip) && filters[n].field == field
  }

  /** One field is named before another is for the first time. */
  ghost predicate NamedBefore(env: Env, filters: seq<SpanFilter>, skip: Option<Field>, first: Field, later: Field) {
    exists n: nat :: Names(env, filters, skip, n, first) && forall m: nat :: m <= n ==> !Names(env, filters, skip, m, later)
  }

  /** Some accepted filter names the field. */
  ghost predicate Named(env: Env, filters: seq<SpanFilter>, skip: Option<Field>, field: Field) {
    exists n: nat :: Names(env, filters, skip, n, field)
  }

  lemma NamedByFilter(env: Env, filters: seq<SpanFilter>, skip: Option<Field>, field: Field)
    ensures Named(env, filters, skip, field) <==> exists f :: f in filters && Accepted(env, f, skip) && f.field == field
  {
    if f :| f in filters && Accepted(env, f, skip) && f.field == field {
      var n: nat :| n < |filters| && filters[n] == f;
      assert Names(env, filters, skip, n, field);
    }
  }

  lemma NextTests(env: Env, before: seq<SpanFilter>, f: SpanFilter, skip: Option<Field>, tests: map<Field, seq<Test>>, wanted: bool)
    requires AreTests(env, before, skip, tests, wanted)
    ensures AreTests(env, before + [f], skip,
                     if Accepted(env, f, skip) && Wanted(f) == wanted then tests[f.field := At(tests, f.field) + [TestOf(f)]] else tests,
                     wanted)
  {
    forall field ensures
        TestsOf(env, before + [f], skip, field, wanted) ==
        At(tests, field) + if Of(env, f, skip, field, wanted) then [TestOf(f)] else []
    {
      OneMoreTest(env, before, f, skip, field, wanted);
    }
  }

  lemma NamesNext(env: Env, before: seq<SpanFilter>, f: SpanFilter, skip: Option<Field>, n: nat, field: Field)
    ensures n < |before| ==> Names(env, before + [f], skip, n, field) == Names(env, before, skip, n, field)
    ensures n == |before| ==> Names(env, before + [f], skip, n, field) == (Accepted(env, f, skip) && f.field == field)
  {
  }

  /** What is named before something else stays so. */
  lemma NamedBeforeNext(env: Env, before: seq<SpanFilter>, f: SpanFilter, skip: Option<Field>, first: Field, later: Field)
    requires NamedBefore(env, before, skip, first, later)
             || (Named(env, before, skip, first) && !Named(env, before, skip, later))
    ensures NamedBefore(env, before + [f], skip, first, later)
  {
    var n: nat :| Names(env, before, skip, n, first) && forall m: nat :: m <= n ==> !Names(env, before, skip, m, later);
    NamesNext(env, before, f, skip, n, first);
    forall m: nat | m <= n ensures !Names(env, before + [f], skip, m, later) {
      NamesNext(env, before, f, skip, m, later);
    }
  }

  lemma NextNamed(env: Env, before: seq<SpanFilter>, f: SpanFilter, skip: Option<Field>, field: Field)
    ensures Named(env, before + [f], skip, field) <==>
            Named(env, before, skip, field) || (Accepted(env, f, skip) && f.field == field)
  {
    if n: nat :| Names(env, before + [f], skip, n, field) {
      NamesNext(env, before, f, skip, n, field);
    }
    if n: nat :| Names(env, before, skip, n, field) {
      NamesNext(env, before, f, skip, n, field);
    }
    NamesNext(env, before, f, skip, |before|, field);
  }

  /** The fields Split lists. */
  function FieldsOf(env: Env, filters: seq<SpanFilter>, skip: Option<Field>): seq<Field> {
    if filters == [] then []
    else
      var before, f := FieldsOf(env, filters[..|filters| - 1], skip), filters[|filters| - 1];
      if Accepted(env, f, skip) && f.field !in before then before + [f.field] else before
  }

  /** They are the fields the accepted filters name ... */
  lemma {:induction false} FieldsAreNamed(env: Env, filters: seq<SpanFilter>, skip: Option<Field>, field: Field)
    ensures field in FieldsOf(env, filters, skip) <==> Named(env, filters, skip, field)
  {
    if filters != [] {
      var before, f := filters[..|filters| - 1], filters[|filters| - 1];
      FieldsAreNamed(env, before, skip, field);
      NextNamed(env, before, f, skip, field);
      assert filters == before + [f];
    }
  }

  /** ... each once, in the order in which they are first named. */
  lemma {:induction false} FieldsInOrder(env: Env, filters: seq<SpanFilter>, skip: Option<Field>, i: nat, j: nat)
    requires i < j < |FieldsOf(env, filters, skip)|
    ensures FieldsOf(env, filters, skip)[i] != FieldsOf(env, filters, skip)[j]
    ensures NamedBefore(env, filters, skip, FieldsOf(env, filters, skip)[i], FieldsOf(env, filters, skip)[j])
  {
    var before, f := filters[..|filters| - 1], filters[|filters| - 1];
    var fields := FieldsOf(env, before, skip);
    if j < |fields| {
      FieldsInOrder(env, before, skip, i, j);
    } else {
      FieldsAreNamed(env, before, skip, fields[i]);
      FieldsAreNamed(env, before, skip, f.field);
    }
    assert filters == before + [f];
    NamedBeforeNext(env, before, f, skip, FieldsOf(env, filters, skip)[i], FieldsOf(env, filters, skip)[j]);
  }

  lemma FieldsOfNext(env: Env, filters: seq<SpanFilter>, i: nat, skip: Option<Field>)
    requires i < |filters|
    ensures var before, f := FieldsOf(env, filters[..i], skip), filters[i];
            FieldsOf(env, filters[..i + 1], skip) ==
            if Accepted(env, f, skip) && f.field !in before then before + [f.field] else before
  {
    assert filters[..i + 1][..i] == filters[..i];
  }

  lemma TestsOfNext(env: Env, filters: seq<SpanFilter>, i: nat, skip: Option<Field>,
                    tests: map<Field, seq<Test>>, wanted: bool, next: map<Field, seq<Test>>)
    requires i < |filters| && AreTests(env, filters[..i], skip, tests, wanted)
    requires var f := filters[i];
             next == if Accepted(env, f, skip) && Wanted(f) == wanted then tests[f.field := At(tests, f.field) + [TestOf(f)]] else tests
    ensures AreTests(env, filters[..i + 1], skip, next, wanted)
  {
    NextTests(env, filters[..i], filters[i], skip, tests, wanted);
    assert filters[..i + 1] == filters[..i] + [filters[i]];
  }

  /** The fields, and the tests of each. */
  method Split(env: Env, filters: seq<SpanFilter>, skip: Option<Field>)
    returns (fields: seq<Field>, alternatives: map<Field, seq<Test>>, exclusions: map<Field, seq<Test>>)
    ensures fields == FieldsOf(env, filters, skip)
    ensures AreTests(env, filters, skip, alternatives, true) && AreTests(env, filters, skip, exclusions, false)
  {
    fields, alternatives, exclusions := [], map[], map[];
    for i := 0 to |filters|
      invariant fields == FieldsOf(env, filters[..i], skip)
      invariant AreTests(env, filters[..i], skip, alternatives, true) && AreTests(env, filters[..i], skip, exclusions, false)
      invariant forall field :: field in fields <==> field in alternatives || field in exclusions
    {
      var f := filters[i];
      ghost var wantedBefore, unwantedBefore := alternatives, exclusions;
      if Accepted(env, f, skip) {
        if f.field !in alternatives && f.field !in exclusions {
          fields := fields + [f.field];
        }
        if Wanted(f) {
          alternatives := alternatives[f.field := At(alternatives, f.field) + [TestOf(f)]];
        } else {
          exclusions := exclusions[f.field := At(exclusions, f.field) + [TestOf(f)]];
        }
      }
      FieldsOfNext(env, filters, i, skip);
      TestsOfNext(env, filters, i, skip, wantedBefore, true, alternatives);
      TestsOfNext(env, filters, i, skip, unwantedBefore, false, exclusions);
    }
    assert filters[..|filters|] == filters;
  }

  function Ones(tests: seq<Test>): seq<Cond> {
    seq(|tests|, i requires 0 <= i < |tests| => One(tests[i]))
  }

  lemma OnesHold(env: Env, tests: seq<Test>, view: View)
    ensures HoldsAll(env, Ones(tests), view) == AllHold(env, tests, view)
  {
    assert forall t :: t in tests ==> One(t) in Ones(tests) by {
      forall t | t in tests ensures One(t) in Ones(tests) {
        var i :| 0 <= i < |tests| && tests[i] == t;
        assert Ones(tests)[i] == One(t);
      }
    }
    assert forall c :: c in Ones(tests) ==> c.One? && c.test in tests;
    if HoldsAll(env, Ones(tests), view) {
      forall t | t in tests ensures HoldsTest(env, t, view) {
        assert Holds(env, One(t), view);
      }
    }
  }

  function AltConds(tests: seq<Test>): seq<Cond> {
    if |tests| == 0 then [] else if |tests| == 1 then [One(tests[0])] else [AnyOf(tests)]
  }

  lemma AltsHold(env: Env, tests: seq<Test>, view: View)
    ensures HoldsAll(env, AltConds(tests), view) == (tests != [] ==> AnyHolds(env, tests, view))
  {
    if |tests| == 1 {
      assert tests == [tests[0]];
    }
    if tests != [] {
      assert AltConds(tests)[0] in AltConds(tests);
    }
  }

  lemma FieldHolds(env: Env, filters: seq<SpanFilter>, skip: Option<Field>, field: Field, view: View)
    ensures HoldsAll(env, Ones(TestsOf(env, filters, skip, field, false)) + AltConds(TestsOf(env, filters, skip, field, true)), view)
            == FieldMeans(env, filters, skip, field, view)
  {
    var exclusions, alternatives := TestsOf(env, filters, skip, field, false), TestsOf(env, filters, skip, field, true);
    HoldsConcat(env, Ones(exclusions), AltConds(alternatives), view);
    OnesHold(env, exclusions, view);
    AltsHold(env, alternatives, view);
    WantedTests(env, filters, skip, field, view);
    UnwantedTests(env, filters, skip, field, view);
    SomeTests(env, filters, skip, field, true);
  }

  predicate FieldsMean(env: Env, filters: seq<SpanFilter>, skip: Option<Field>, fields: seq<Field>, view: View) {
    forall field :: field in fields ==> FieldMeans(env, filters, skip, field, view)
  }

  /** Conditions for the fields so far, and those of one more field. */
  lemma {:induction false} OneMoreField(env: Env, filters: seq<SpanFilter>, skip: Option<Field>, fields: seq<Field>, before: seq<Cond>,
                     field: Field, conds: seq<Cond>, view: View)
    requires HoldsAll(env, before, view) == FieldsMean(env, filters, skip, fields, view)
    requires conds == Ones(TestsOf(env, filters, skip, field, false)) + AltConds(TestsOf(env, filters, skip, field, true))
    ensures HoldsAll(env, before + conds, view) == FieldsMean(env, filters, skip, fields + [field], view)
  {
    FieldHolds(env, filters, skip, field, view);
    HoldsConcat(env, before, conds, view);
    assert forall f :: f in fields + [field] <==> f in fields || f == field;
  }

  lemma {:induction false} AllFieldsMean(env: Env, filters: seq<SpanFilter>, skip: Option<Field>, view: View)
    ensures FieldsMean(env, filters, skip, FieldsOf(env, filters, skip), view) == FiltersMean(env, filters, skip, view)
  {
    FieldsPass(env, filters, skip, view);
    forall field
      ensures field in FieldsOf(env, filters, skip) <==> exists f :: f in filters && Accepted(env, f, skip) && f.field == field
    {
      FieldsAreNamed(env, filters, skip, field);
      NamedByFilter(env, filters, skip, field);
    }
  }

  /** The conditions of the filters say of a row what the filters mean. */
  method Filter(env: Env, filters: seq<SpanFilter>, skip: Option<Field>) returns (where: seq<Cond>)
    ensures forall view :: HoldsAll(env, where, view) == FiltersMean(env, filters, skip, view)
  {
    var fields, alternatives, exclusions := Split(env, filters, skip);
    where := [];
    for i := 0 to |fields|
      invariant forall view :: HoldsAll(env, where, view) == FieldsMean(env, filters, skip, fields[..i], view)
    {
      ghost var before := where;
      var field := fields[i];
      var conds := Ones(At(exclusions, field));
      match |At(alternatives, field)| {
        case 0 =>
        case 1 => conds := conds + [One(At(alternatives, field)[0])];
        case _ => conds := conds + [AnyOf(At(alternatives, field))];
      }
      where := where + conds;
      assert conds == Ones(At(exclusions, field)) + AltConds(At(alternatives, field));
      assert fields[..i + 1] == fields[..i] + [field];
      forall view ensures HoldsAll(env, where, view) == FieldsMean(env, filters, skip, fields[..i + 1], view) {
        OneMoreField(env, filters, skip, fields[..i], before, field, conds, view);
      }
    }
    assert fields[..|fields|] == fields;
    forall view ensures HoldsAll(env, where, view) == FiltersMean(env, filters, skip, view) {
      AllFieldsMean(env, filters, skip, view);
    }
  }

  // ----- one filter -----

  /** The row has the value v of a field: the columns, and what is derived from them. */
  predicate HasOf(env: Env, field: Field, v: string, r: SpanRow) {
    match field
    case ServiceName => r.service == v
    case SpanName => r.spanName == v
    case SpanKind => r.kind == v
    case NetSockPeerAddr => Attr(r.spanAttrs, "net.sock.peer.addr") == v
    case Client => r.client == v
    case Server => r.server == v
    case Source => v == if "/" <= r.service then "agent" else "otel"
    case Status => HasStatus(HttpStatus(env, r), r.failed, v)
    case Namespace => if v == "n/a" then '/' !in r.server else v + "/" <= r.server
    case ApiRoute => Attr(r.columns, "ApiRoute") == v
    case Column(name) => Attr(r.columns, name) == v
  }

  /** By the code of the answer if it is one, and otherwise by whether the span failed. */
  predicate HasStatus(code: int, failed: bool, v: string) {
    if 200 <= code <= 599 then
      v == (if code < 300 then "2xx" else if code < 400 then "3xx" else if code < 500 then "4xx" else "5xx")
    else if failed then v == "error" else v == "other"
  }

  /** The code is in either of two attributes, the old name first. */
  lemma HttpStatusIs(env: Env, r: SpanRow)
    ensures Attr(r.spanAttrs, "http.status_code") != "" ==> HttpStatus(env, r) == env.toUInt16(Attr(r.spanAttrs, "http.status_code"))
    ensures Attr(r.spanAttrs, "http.status_code") == "" ==>
              HttpStatus(env, r) == env.toUInt16(Attr(r.spanAttrs, "http.response.status_code"))
  {
  }

  lemma StatusIs(env: Env, r: SpanRow, v: string)
    ensures StatusText(StatusOf(env, r)) == v <==> HasStatus(HttpStatus(env, r), r.failed, v)
  {
    var code := HttpStatus(env, r);
    if 200 <= code <= 599 {
      assert code / 100 == if code < 300 then 2 else if code < 400 then 3 else if code < 500 then 4 else 5;
    }
  }

  lemma ComparesRow(env: Env, f: SpanFilter, r: SpanRow)
    ensures Compares(env, f, Raw(r)) == HasOf(env, f.field, f.value, r)
  {
    if f.field == Status {
      StatusIs(env, r, f.value);
    }
  }

  /** A filter alone: = keeps the rows with its value, != the others, ~ and !~ likewise by its pattern, and any
      other operator keeps all. */
  lemma OneFilter(env: Env, f: SpanFilter, r: SpanRow)
    requires f.field.Column? ==> env.letters(f.field.name)
    ensures FiltersMean(env, [f], None, Raw(r)) ==
            match f.op
            case Equal => HasOf(env, f.field, f.value, r)
            case NotEqual => !HasOf(env, f.field, f.value, r)
            case Like => Fits(env, f, Raw(r))
            case NotLike => !Fits(env, f, Raw(r))
            case Another => true
  {
    ComparesRow(env, f, r);
    assert forall g :: g in [f] <==> g == f;
  }
}

/** clickhouse/logs.go: from a log query to the conditions of its WHERE.

    Conditions are built by one function for two tables, otel_logs and its per-minute rollup, with
    filters grouped by name in the order of a Go map. Whatever that order, the conditions of either
    table mean the query: a row needs one of the wanted values of a field, none of the
    unwanted, and that for every field. */
module LogFilters {
  import opened Prelude

  /** A row of otel_logs; times are in nanoseconds. */
  datatype LogRow = LogRow(timestamp: int, service: string, namespace: string, application: string, severity: int,
                           traceId: string, body: string, logAttrs: Attrs, resourceAttrs: Attrs)

  /** The key of a row of otel_logs_rollup; minute is its start, in seconds. */
  datatype LogKey = LogKey(minute: int, service: string, namespace: string, application: string, severity: int,
                           hostLog: string, hostRes: string)

  const HOST_NAME: string := "host.name"

  /** The field a filter is on, by its name: "Severity", "service.name", ... or any other attribute. */
  datatype Field = SeverityField | TraceIdField | ServiceField | SourceField | NamespaceField | ApplicationField
                 | MessageField | Attribute(name: string)

  /** =, !=, ~, !~, "not contains" and anything else. */
  datatype Op = Is | IsNot | Like | NotLike | NotContains | Another {
    predicate ByRegexp() {
      Like? || NotLike?
    }
  }

  datatype LogFilter = LogFilter(field: Field, op: Op, value: string)

  /** A time range is in seconds; since, in nanoseconds, is the zero time for a query that has none. */
  datatype LogQuery = LogQuery(from: int, to: int, step: int, source: string, services: seq<string>,
                               filters: seq<LogFilter>, since: int)

  /** What a search box asks for: words and substrings that must all occur. */
  datatype Search = Search(tokens: seq<string>, substrings: seq<string>) {
    predicate Empty() {
      tokens == [] && substrings == []
    }
  }

  /** What the model does not look into: match(), hasAllTokens of one token and
      positionCaseInsensitiveUTF8 over a body, strconv.Atoi (0 on an error) and parseMessageSearch. */
  datatype Env = Env(matches: (string, string) -> bool,
                     hasToken: (string, string) -> bool,
                     hasSubstring: (string, string) -> bool,
                     atoi: string -> int,
                     parse: string -> Search)

  // ----- conditions and what they mean -----

  datatype Column = ServiceName | Namespace | Application | TraceId | LogAttr(name: string) | ResAttr(name: string) | HostLog | HostRes

  datatype Cond =
    | Eq(column: Column, value: string)
    | In(column: Column, values: seq<string>)
    | Match(column: Column, regexp: string)
    | StartsWithSlash(column: Column)
    | SeverityBetween(low: int, high: int)
    | TimestampBetween(from: int, to: int)
    | TimestampAfter(since: int)
    | MinuteIn(from: int, to: int)
    | HasTokens(tokens: seq<string>)
    | HasSubstring(substring: string)
    | Not(cond: Cond)
    | Both(left: Cond, right: Cond)
    | Either(left: Cond, right: Cond)
    | All(conds: seq<Cond>)
    | Any(conds: seq<Cond>)

  /** A row of one of the two tables. */
  datatype View = Raw(row: LogRow) | Rolled(key: LogKey)

  /** A column of a row; "" if the table does not have it (see Typed). */
  function Text(view: View, column: Column): string {
    match view
    case Raw(r) =>
      (match column
       case ServiceName => r.service
       case Namespace => r.namespace
       case Application => r.application
       case TraceId => r.traceId
       case LogAttr(name) => Attr(r.logAttrs, name)
       case ResAttr(name) => Attr(r.resourceAttrs, name)
       case _ => "")
    case Rolled(k) =>
      (match column
       case ServiceName => k.service
       case Namespace => k.namespace
       case Application => k.application
       case HostLog => k.hostLog
       case HostRes => k.hostRes
       case _ => "")
  }

  function SeverityNumber(view: View): int {
    match view
    case Raw(r) => r.severity
    case Rolled(k) => k.severity
  }

  function Slash(s: string): bool {
    s != "" && s[0] == '/'
  }

  predicate Holds(env: Env, cond: Cond, view: View) {
    match cond
    case Eq(column, value) => Text(view, column) == value
    case In(column, values) => Text(view, column) in values
    case Match(column, regexp) => env.matches(Text(view, column), regexp)
    case StartsWithSlash(column) => Slash(Text(view, column))
    case SeverityBetween(low, high) => low <= SeverityNumber(view) <= high
    case TimestampBetween(from, to) => view.Raw? && from * SECOND <= view.row.timestamp <= to * SECOND
    case TimestampAfter(since) => view.Raw? && view.row.timestamp > since
    case MinuteIn(from, to) => view.Rolled? && from <= view.key.minute < to
    case HasTokens(tokens) => view.Raw? && forall t :: t in tokens ==> env.hasToken(view.row.body, t)
    case HasSubstring(substring) => view.Raw? && env.hasSubstring(view.row.body, substring)
    case Not(c) => !Holds(env, c, view)
    case Both(a, b) => Holds(env, a, view) && Holds(env, b, view)
    case Either(a, b) => Holds(env, a, view) || Holds(env, b, view)
    case All(conds) => forall c :: c in conds ==> Holds(env, c, view)
    case Any(conds) => exists c :: c in conds && Holds(env, c, view)
  }

  predicate HasColumn(column: Column, rollup: bool) {
    match column
    case ServiceName | Namespace | Application => true
    case HostLog | HostRes => rollup
    case _ => !rollup
  }

  /** The condition only uses columns of the table. */
  predicate Typed(cond: Cond, rollup: bool) {
    match cond
    case Eq(column, _) => HasColumn(column, rollup)
    case In(column, _) => HasColumn(column, rollup)
    case Match(column, _) => HasColumn(column, rollup)
    case StartsWithSlash(column) => HasColumn(column, rollup)
    case SeverityBetween(_, _) => true
    case MinuteIn(_, _) => rollup
    case TimestampBetween(_, _) | TimestampAfter(_) | HasTokens(_) | HasSubstring(_) => !rollup
    case Not(c) => Typed(c, rollup)
    case Both(a, b) => Typed(a, rollup) && Typed(b, rollup)
    case Either(a, b) => Typed(a, rollup) && Typed(b, rollup)
    case All(conds) => forall c :: c in conds ==> Typed(c, rollup)
    case Any(conds) => forall c :: c in conds ==> Typed(c, rollup)
  }

  /** The WHERE: the conditions joined by AND. */
  predicate HoldsAll(env: Env, where: seq<Cond>, view: View) {
    forall c :: c in where ==> Holds(env, c, view)
  }

  // ----- what a query asks for -----

  function SeverityOf(env: Env, value: string): int {
    match value
    case "unknown" => 0
    case "trace" => 1
    case "debug" => 2
    case "info" => 3
    case "warn" => 4
    case "warning" => 4
    case "error" => 5
    case "fatal" => 6
    case "critical" => 6
    case _ =>
      var digits := if "severity-" <= value then value[|"severity-"|..] else value;
      env.atoi(digits)
  }

  /** The SeverityNumbers of a severity. */
  function SeverityRange(severity: int): (int, int) {
    if severity == 0 then (0, 0)
    else if 1 <= severity <= 6 then (4 * severity - 3, 4 * severity)
    else (severity, severity)
  }

  /** A filter names a wanted value, an unwanted one, or nothing the query knows. */
  datatype Role = Wanted | Unwanted | Ignored

  function EqualityRole(op: Op): Role {
    if op.Is? then Wanted else if op.IsNot? then Unwanted else Ignored
  }

  function RoleOf(f: LogFilter): Role {
    match f.field
    case TraceIdField => if f.op.Is? then Wanted else Ignored
    case SourceField => if f.value == "agent" || f.value == "otel" then EqualityRole(f.op) else Ignored
    case SeverityField | NamespaceField | ApplicationField => EqualityRole(f.op)
    case _ => if f.op.Is? || f.op.Like? then Wanted else if f.op.IsNot? || f.op.NotLike? then Unwanted else Ignored
  }

  /** The value of a row for a field is, or matches, the value of a filter. */
  predicate Agrees(env: Env, f: LogFilter, value: string) {
    if f.op.ByRegexp() then env.matches(value, f.value) else value == f.value
  }

  /** The row has the value the filter names: an attribute may be of the record or of its resource. */
  predicate HasValue(env: Env, f: LogFilter, view: View) {
    match f.field
    case MessageField => false  // see MessageMeans
    case SeverityField =>
      var range := SeverityRange(SeverityOf(env, f.value));
      range.0 <= SeverityNumber(view) <= range.1
    case TraceIdField => Text(view, TraceId) == f.value
    case SourceField => Slash(Text(view, ServiceName)) == (f.value == "agent")
    case ServiceField => Agrees(env, f, Text(view, ServiceName))
    case NamespaceField => Agrees(env, f, Text(view, Namespace))
    case ApplicationField => Agrees(env, f, Text(view, Application))
    case Attribute(name) =>
      if view.Raw? then Agrees(env, f, Text(view, LogAttr(name))) || Agrees(env, f, Text(view, ResAttr(name)))
      else Agrees(env, f, Text(view, HostLog)) || Agrees(env, f, Text(view, HostRes))
  }

  /** What filters of one field ask: none of the unwanted values, and one of the wanted if there are any. */
  ghost predicate FieldMeans(env: Env, fs: set<LogFilter>, view: View) {
    && (forall f :: f in fs && RoleOf(f) == Unwanted ==> !HasValue(env, f, view))
    && ((exists f :: f in fs && RoleOf(f) == Wanted) ==> exists f :: f in fs && RoleOf(f) == Wanted && HasValue(env, f, view))
  }

  /** attr, if there is one, is the field whose filters are left out (the facet counts its values). */
  predicate Applies(f: LogFilter, attr: Option<Field>) {
    f.field != MessageField && attr != Some(f.field)
  }

  function Elements<T>(s: seq<T>): set<T> {
    set x | x in s
  }

  function OfField(filters: set<LogFilter>, field: Field): set<LogFilter> {
    set f | f in filters && f.field == field
  }

  predicate Contains(env: Env, search: Search, view: View) {
    view.Raw?
    && (forall t :: t in search.tokens ==> env.hasToken(view.row.body, t))
    && (forall s :: s in search.substrings ==> env.hasSubstring(view.row.body, s))
  }

  /** A filter of the message text; one with nothing to search for changes nothing. */
  predicate MessageMeans(env: Env, f: LogFilter, view: View) {
    var search := env.parse(f.value);
    search.Empty() || (if f.op.NotContains? then !Contains(env, search, view) else Contains(env, search, view))
  }

  predicate SourceMeans(q: LogQuery, view: View) {
    if q.services != [] then Text(view, ServiceName) in q.services
    else if q.source == "agent" then Slash(Text(view, ServiceName))
    else if q.source == "otel" then !Slash(Text(view, ServiceName))
    else true
  }

  /** The window of a raw query includes its end instant, that of a rollup query does not. */
  predicate WindowMeans(q: LogQuery, view: View) {
    match view
    case Raw(r) =>
      if q.since != ZERO_TIME then r.timestamp > q.since else q.from * SECOND <= r.timestamp <= q.to * SECOND
    case Rolled(k) => q.from <= k.minute < q.to
  }

  ghost predicate FiltersMean(env: Env, filters: set<LogFilter>, attr: Option<Field>, view: View) {
    && (forall f :: f in filters && Applies(f, attr) ==> FieldMeans(env, OfField(filters, f.field), view))
    && (forall f :: f in filters && f.field == MessageField ==> MessageMeans(env, f, view))
  }

  /** The rows the query asks for. */
  ghost predicate Asked(env: Env, q: LogQuery, attr: Option<Field>, view: View) {
    WindowMeans(q, view) && SourceMeans(q, view) && FiltersMean(env, Elements(q.filters), attr, view)
  }

  /** The fields the rollup keeps. */
  predicate InRollup(field: Field) {
    match field
    case SeverityField | ServiceField | SourceField | NamespaceField | ApplicationField => true
    case Attribute(name) => name == HOST_NAME
    case _ => false
  }

  /** Nothing is asked for that the rollup does not keep, nor a part of a minute. */
  predicate RollupAnswers(env: Env, q: LogQuery, attr: Option<Field>) {
    && q.since == ZERO_TIME && q.from % 60 == 0 && q.to % 60 == 0
    && (forall f :: f in q.filters && f.field == MessageField ==> env.parse(f.value).Empty())
    && (forall f :: f in q.filters && Applies(f, attr) ==> InRollup(f.field))
  }

  // ----- the conditions of one filter -----

  function Test(f: LogFilter, column: Column): Cond {
    if f.op.ByRegexp() then Match(column, f.value) else Eq(column, f.value)
  }

  function Negated(f: LogFilter, cond: Cond): Cond {
    if f.op.IsNot? || f.op.NotLike? then Not(cond) else cond
  }

  /** (a OR b) of a wanted value, (NOT a AND NOT b) of an unwanted one. */
  function InEither(f: LogFilter, a: Column, b: Column): Cond {
    if f.op.IsNot? || f.op.NotLike? then Both(Not(Test(f, a)), Not(Test(f, b))) else Either(Test(f, a), Test(f, b))
  }

  /** What the switch over the field of a filter makes of it. */
  function CondOf(env: Env, f: LogFilter, rollup: bool): Cond
    requires !f.field.MessageField?
  {
    match f.field
    case SeverityField =>
      var range := SeverityRange(SeverityOf(env, f.value));
      Negated(f, SeverityBetween(range.0, range.1))
    case TraceIdField => Eq(TraceId, f.value)
    case ServiceField => Negated(f, Test(f, ServiceName))
    case SourceField =>
      Negated(f, if f.value == "agent" then StartsWithSlash(ServiceName) else Not(StartsWithSlash(ServiceName)))
    case NamespaceField => Negated(f, Eq(Namespace, f.value))
    case ApplicationField => Negated(f, Eq(Application, f.value))
    case Attribute(name) => if rollup then InEither(f, HostLog, HostRes) else InEither(f, LogAttr(name), ResAttr(name))
  }

  predicate OfTable(view: View, rollup: bool) {
    view.Rolled? == rollup
  }

  lemma TestMeans(env: Env, f: LogFilter, column: Column, view: View, rollup: bool)
    ensures Holds(env, Test(f, column), view) == Agrees(env, f, Text(view, column))
    ensures Holds(env, Not(Test(f, column)), view) == !Agrees(env, f, Text(view, column))
    ensures Typed(Test(f, column), rollup) == Typed(Not(Test(f, column)), rollup) == HasColumn(column, rollup)
  {
  }

  lemma {:induction false} InEitherMeans(env: Env, f: LogFilter, a: Column, b: Column, view: View, rollup: bool)
    requires RoleOf(f) != Ignored && f.field.Attribute?
    ensures Holds(env, InEither(f, a, b), view)
            == ((Agrees(env, f, Text(view, a)) || Agrees(env, f, Text(view, b))) == (RoleOf(f) == Wanted))
    ensures Typed(InEither(f, a, b), rollup) == (HasColumn(a, rollup) && HasColumn(b, rollup))
  {
    TestMeans(env, f, a, view, rollup);
    TestMeans(env, f, b, view, rollup);
  }

  lemma NegatedMeans(env: Env, f: LogFilter, cond: Cond, view: View, rollup: bool)
    ensures Holds(env, Negated(f, cond), view) == (Holds(env, cond, view) == !(f.op.IsNot? || f.op.NotLike?))
    ensures Typed(Negated(f, cond), rollup) == Typed(cond, rollup)
  {
  }

  /** The condition of a filter holds of the rows that have its value, or, unwanted, of the others. */
  lemma CondMeans(env: Env, f: LogFilter, view: View, rollup: bool)
    requires OfTable(view, rollup) && !f.field.MessageField? && RoleOf(f) != Ignored
    ensures Holds(env, CondOf(env, f, rollup), view) == (HasValue(env, f, view) == (RoleOf(f) == Wanted))
  {
    match f.field {
      case SeverityField =>
        var range := SeverityRange(SeverityOf(env, f.value));
        NegatedMeans(env, f, SeverityBetween(range.0, range.1), view, rollup);
      case TraceIdField =>
      case ServiceField =>
        TestMeans(env, f, ServiceName, view, rollup);
        NegatedMeans(env, f, Test(f, ServiceName), view, rollup);
      case SourceField =>
        NegatedMeans(env, f, StartsWithSlash(ServiceName), view, rollup);
        NegatedMeans(env, f, Not(StartsWithSlash(ServiceName)), view, rollup);
      case NamespaceField => NegatedMeans(env, f, Eq(Namespace, f.value), view, rollup);
      case ApplicationField => NegatedMeans(env, f, Eq(Application, f.value), view, rollup);
      case Attribute(name) =>
        InEitherMeans(env, f, if rollup then HostLog else LogAttr(name), if rollup then HostRes else ResAttr(name), view, rollup);
    }
  }

  lemma CondTyped(env: Env, f: LogFilter, rollup: bool)
    requires !f.field.MessageField? && (rollup ==> InRollup(f.field))
    ensures Typed(CondOf(env, f, rollup), rollup)
  {
    if f.field.Attribute? {
      var a, b := if rollup then HostLog else LogAttr(f.field.name), if rollup then HostRes else ResAttr(f.field.name);
      assert Typed(Test(f, a), rollup) && Typed(Test(f, b), rollup);
      assert Typed(Not(Test(f, a)), rollup) && Typed(Not(Test(f, b)), rollup);
    } else if f.field.SourceField? {
      assert Typed(Not(StartsWithSlash(ServiceName)), rollup);
    }
  }

  // ----- building the WHERE -----

  /** The terms without repeats, in the order they first occur. */
  function Dedup(terms: seq<string>): seq<string> {
    if terms == [] then []
    else
      var before, last := Dedup(terms[..|terms| - 1]), terms[|terms| - 1];
      if last in terms[..|terms| - 1] then before else before + [last]
  }

  lemma {:induction false} DedupIs(terms: seq<string>)
    ensures forall t :: t in Dedup(terms) <==> t in terms
    ensures forall i, j :: 0 <= i < j < |Dedup(terms)| ==> Dedup(terms)[i] != Dedup(terms)[j]
    ensures Dedup(terms) == [] <==> terms == []
  {
    if terms != [] {
      var before, last := terms[..|terms| - 1], terms[|terms| - 1];
      DedupIs(before);
      assert terms == before + [last];
    }
  }

  method Uniq(terms: seq<string>) returns (uniq: seq<string>)
    ensures uniq == Dedup(terms)
  {
    uniq := [];
    var seen: set<string> := {};
    for i := 0 to |terms|
      invariant forall t :: t in seen <==> t in terms[..i]
      invariant uniq == Dedup(terms[..i])
    {
      assert terms[..i + 1][..i] == terms[..i];
      if terms[i] !in seen {
        seen := seen + {terms[i]};
        uniq := uniq + [terms[i]];
      }
    }
    assert terms[..|terms|] == terms;
  }

  lemma OneMore(env: Env, where: seq<Cond>, cond: Cond, view: View)
    ensures HoldsAll(env, where + [cond], view) <==> HoldsAll(env, where, view) && Holds(env, cond, view)
  {
    assert forall c :: c in where + [cond] <==> c in where || c == cond;
  }

  lemma OnlyOne(env: Env, cond: Cond, view: View)
    ensures HoldsAll(env, [cond], view) == Holds(env, cond, view)
    ensures Holds(env, Not(cond), view) == !Holds(env, cond, view)
  {
    assert forall c :: c in [cond] <==> c == cond;
  }

  predicate ContainsThese(env: Env, tokens: seq<string>, substrings: seq<string>, view: View) {
    Contains(env, Search(tokens, substrings), view)
  }

  lemma DedupContains(env: Env, search: Search, view: View)
    ensures Contains(env, Search(Dedup(search.tokens), Dedup(search.substrings)), view) == Contains(env, search, view)
    ensures Search(Dedup(search.tokens), Dedup(search.substrings)).Empty() == search.Empty()
  {
    DedupIs(search.tokens);
    DedupIs(search.substrings);
  }

  /** messageExpr of the deduplicated search, for one that is not empty. */
  method MessageCond(env: Env, search: Search) returns (cond: Cond)
    requires !search.Empty()
    ensures forall view :: Holds(env, cond, view) == Contains(env, search, view)
    ensures Typed(cond, false)
  {
    var tokens := Uniq(search.tokens);
    var substrings := Uniq(search.substrings);
    forall view ensures ContainsThese(env, tokens, substrings, view) == Contains(env, search, view) {
      DedupContains(env, search, view);
    }
    DedupIs(search.tokens);
    DedupIs(search.substrings);
    cond := MessageExpr(env, tokens, substrings);
  }

  method MessageExpr(env: Env, tokens: seq<string>, substrings: seq<string>) returns (cond: Cond)
    requires tokens != [] || substrings != []
    ensures forall view :: Holds(env, cond, view) == ContainsThese(env, tokens, substrings, view)
    ensures Typed(cond, false)
  {
    var ands: seq<Cond> := [];
    if |tokens| > 0 {
      ands := [HasTokens(tokens)];
      forall view ensures HoldsAll(env, ands, view) <==> ContainsThese(env, tokens, [], view) {
        OnlyOne(env, HasTokens(tokens), view);
      }
    }
    for i := 0 to |substrings|
      invariant ands == [] ==> i == 0 && tokens == []
      invariant forall c :: c in ands ==> Typed(c, false)
      invariant ands != [] ==> forall view :: HoldsAll(env, ands, view) <==> ContainsThese(env, tokens, substrings[..i], view)
    {
      var next := HasSubstring(substrings[i]);
      forall view ensures HoldsAll(env, ands + [next], view) <==> ContainsThese(env, tokens, substrings[..i + 1], view) {
        OneMore(env, ands, next, view);
        assert substrings[..i + 1] == substrings[..i] + [substrings[i]];
      }
      ands := ands + [next];
    }
    assert substrings[..|substrings|] == substrings;
    cond := All(ands);
    forall view ensures Holds(env, cond, view) == ContainsThese(env, tokens, substrings, view) {
      assert Holds(env, cond, view) == HoldsAll(env, ands, view);
    }
  }

  ghost predicate TypedAll(where: seq<Cond>, rollup: bool) {
    forall c :: c in where ==> Typed(c, rollup)
  }

  /** The condition on the service. */
  method ServiceConds(env: Env, q: LogQuery, rollup: bool) returns (where: seq<Cond>)
    ensures forall view :: HoldsAll(env, where, view) == SourceMeans(q, view)
    ensures TypedAll(where, rollup)
  {
    if |q.services| == 0 {
      if q.source == "agent" {
        where := [StartsWithSlash(ServiceName)];
      } else if q.source == "otel" {
        where := [Not(StartsWithSlash(ServiceName))];
      } else {
        where := [];
        return;
      }
    } else if |q.services| == 1 {
      where := [Eq(ServiceName, q.services[0])];
    } else {
      where := [In(ServiceName, q.services)];
    }
    forall view ensures HoldsAll(env, where, view) == SourceMeans(q, view) {
      OnlyOne(env, where[0], view);
      assert Holds(env, where[0], view) == SourceMeans(q, view);
    }
  }

  /** The condition on the time, for a rollup query one of whole minutes. */
  function TimeCond(q: LogQuery, rollup: bool): Cond {
    if rollup then MinuteIn(q.from, q.to)
    else if q.since != ZERO_TIME then TimestampAfter(q.since)
    else TimestampBetween(q.from, q.to)
  }

  // --- the filters of one field ---

  ghost predicate NoneUnwanted(env: Env, fs: seq<LogFilter>, view: View) {
    forall f :: f in fs && RoleOf(f) == Unwanted ==> !HasValue(env, f, view)
  }

  ghost predicate SomeWanted(env: Env, fs: seq<LogFilter>, view: View) {
    exists f :: f in fs && RoleOf(f) == Wanted && HasValue(env, f, view)
  }

  predicate HoldsAny(env: Env, ors: seq<Cond>, view: View) {
    exists c :: c in ors && Holds(env, c, view)
  }

  lemma OneMoreAny(env: Env, ors: seq<Cond>, cond: Cond, view: View)
    ensures HoldsAny(env, ors + [cond], view) <==> HoldsAny(env, ors, view) || Holds(env, cond, view)
  {
    assert forall c :: c in ors + [cond] <==> c in ors || c == cond;
  }

  /** The alternatives and the exclusions of one field, from its filters so far. */
  ghost predicate SoFarAt(env: Env, fs: seq<LogFilter>, ors: seq<Cond>, ands: seq<Cond>, view: View) {
    HoldsAll(env, ands, view) == NoneUnwanted(env, fs, view) && HoldsAny(env, ors, view) == SomeWanted(env, fs, view)
  }

  ghost predicate SoFar(env: Env, fs: seq<LogFilter>, ors: seq<Cond>, ands: seq<Cond>, rollup: bool) {
    && TypedAll(ors, rollup) && TypedAll(ands, rollup)
    && (ors != [] <==> exists f :: f in fs && RoleOf(f) == Wanted)
    && forall view | OfTable(view, rollup) :: SoFarAt(env, fs, ors, ands, view)
  }

  lemma NextFilterAt(env: Env, fs: seq<LogFilter>, f: LogFilter, ors: seq<Cond>, ands: seq<Cond>, rollup: bool, view: View)
    requires !f.field.MessageField? && OfTable(view, rollup) && SoFarAt(env, fs, ors, ands, view)
    ensures SoFarAt(env, fs + [f], MoreOrs(env, f, ors, rollup), MoreAnds(env, f, ands, rollup), view)
  {
    var all, cond := fs + [f], CondOf(env, f, rollup);
    assert forall g :: g in all <==> g in fs || g == f;
    if RoleOf(f) != Ignored {
      CondMeans(env, f, view, rollup);
      OneMore(env, ands, cond, view);
      OneMoreAny(env, ors, cond, view);
    }
  }

  function MoreOrs(env: Env, f: LogFilter, ors: seq<Cond>, rollup: bool): seq<Cond>
    requires !f.field.MessageField?
  {
    if RoleOf(f) == Wanted then ors + [CondOf(env, f, rollup)] else ors
  }

  function MoreAnds(env: Env, f: LogFilter, ands: seq<Cond>, rollup: bool): seq<Cond>
    requires !f.field.MessageField?
  {
    if RoleOf(f) == Unwanted then ands + [CondOf(env, f, rollup)] else ands
  }

  lemma MoreWanted(env: Env, fs: seq<LogFilter>, f: LogFilter, ors: seq<Cond>, rollup: bool)
    requires !f.field.MessageField? && (ors != [] <==> exists g :: g in fs && RoleOf(g) == Wanted)
    ensures MoreOrs(env, f, ors, rollup) != [] <==> exists g :: g in fs + [f] && RoleOf(g) == Wanted
  {
    assert forall g :: g in fs + [f] <==> g in fs || g == f;
  }

  lemma NextFilter(env: Env, fs: seq<LogFilter>, f: LogFilter, ors: seq<Cond>, ands: seq<Cond>, rollup: bool)
    requires !f.field.MessageField? && (rollup ==> InRollup(f.field)) && SoFar(env, fs, ors, ands, rollup)
    ensures SoFar(env, fs + [f], MoreOrs(env, f, ors, rollup), MoreAnds(env, f, ands, rollup), rollup)
  {
    assert Typed(CondOf(env, f, rollup), rollup) by {
      CondTyped(env, f, rollup);
    }
    MoreWanted(env, fs, f, ors, rollup);
    forall view | OfTable(view, rollup)
      ensures SoFarAt(env, fs + [f], MoreOrs(env, f, ors, rollup), MoreAnds(env, f, ands, rollup), view)
    {
      NextFilterAt(env, fs, f, ors, ands, rollup, view);
    }
  }

  /** The conditions of one field: (its exclusions) AND (its alternatives). */
  method FieldConds(env: Env, fs: seq<LogFilter>, field: Field, rollup: bool) returns (where: seq<Cond>, ok: bool)
    requires field != MessageField && forall f :: f in fs ==> f.field == field
    ensures ok == (!rollup || InRollup(field))
    ensures ok ==> TypedAll(where, rollup)
    ensures ok ==> forall view | OfTable(view, rollup) :: HoldsAll(env, where, view) == FieldMeans(env, Elements(fs), view)
  {
    where := [];
    if rollup && !InRollup(field) {
      return [], false;
    }
    var ors, ands: seq<Cond> := [], [];
    for j := 0 to |fs|
      invariant SoFar(env, fs[..j], ors, ands, rollup)
    {
      var f := fs[j];
      NextFilter(env, fs[..j], f, ors, ands, rollup);
      assert fs[..j + 1] == fs[..j] + [f];
      if RoleOf(f) == Wanted {
        ors := ors + [CondOf(env, f, rollup)];
      } else if RoleOf(f) == Unwanted {
        ands := ands + [CondOf(env, f, rollup)];
      }
    }
    assert fs[..|fs|] == fs;
    if |ands| > 0 {
      where := where + [All(ands)];
    }
    if |ors| > 0 {
      where := where + [Any(ors)];
    }
    assert where == Join(ors, ands);
    JoinMeans(env, fs, ors, ands, rollup);
    ok := true;
  }

  function Join(ors: seq<Cond>, ands: seq<Cond>): seq<Cond> {
    (if ands != [] then [All(ands)] else []) + if ors != [] then [Any(ors)] else []
  }

  lemma JoinHolds(env: Env, ors: seq<Cond>, ands: seq<Cond>, view: View)
    ensures HoldsAll(env, Join(ors, ands), view) == (HoldsAll(env, ands, view) && (ors != [] ==> HoldsAny(env, ors, view)))
  {
    assert Holds(env, All(ands), view) == HoldsAll(env, ands, view);
    assert Holds(env, Any(ors), view) == HoldsAny(env, ors, view);
    assert forall c :: c in Join(ors, ands) <==> (ands != [] && c == All(ands)) || (ors != [] && c == Any(ors));
  }

  lemma JoinMeans(env: Env, fs: seq<LogFilter>, ors: seq<Cond>, ands: seq<Cond>, rollup: bool)
    requires SoFar(env, fs, ors, ands, rollup)
    ensures TypedAll(Join(ors, ands), rollup)
    ensures forall view | OfTable(view, rollup) :: HoldsAll(env, Join(ors, ands), view) == FieldMeans(env, Elements(fs), view)
  {
    forall view | OfTable(view, rollup)
      ensures HoldsAll(env, Join(ors, ands), view) == FieldMeans(env, Elements(fs), view)
    {
      JoinHolds(env, ors, ands, view);
      assert SoFarAt(env, fs, ors, ands, view);
    }
  }

  // --- the filters of a query, by field ---

  /** The text filters so far: all that must occur, as one search, and the searches that must not. */
  ghost predicate Searches(env: Env, done: set<LogFilter>, message: Search, notMessage: seq<Search>) {
    && (forall t :: t in message.tokens <==>
          exists f :: f in done && f.field.MessageField? && !f.op.NotContains? && t in env.parse(f.value).tokens)
    && (forall t :: t in message.substrings <==>
          exists f :: f in done && f.field.MessageField? && !f.op.NotContains? && t in env.parse(f.value).substrings)
    && (forall s :: s in notMessage <==>
          exists f :: f in done && f.field.MessageField? && f.op.NotContains? && !env.parse(f.value).Empty() && s == env.parse(f.value))
  }

  ghost predicate ByField(done: set<LogFilter>, attr: Option<Field>, byField: map<Field, seq<LogFilter>>) {
    && (forall f :: f in done && Applies(f, attr) ==> f.field in byField)
    && (forall field :: field in byField ==> field != MessageField && attr != Some(field) && byField[field] != [] && Elements(byField[field]) == OfField(done, field))
  }

  lemma NextSearch(env: Env, done: set<LogFilter>, f: LogFilter, message: Search, notMessage: seq<Search>)
    requires f.field.MessageField? && Searches(env, done, message, notMessage)
    ensures var terms := env.parse(f.value);
            if f.op.NotContains? then
              Searches(env, done + {f}, message, if terms.Empty() then notMessage else notMessage + [terms])
            else
              Searches(env, done + {f}, Search(message.tokens + terms.tokens, message.substrings + terms.substrings), notMessage)
  {
    assert forall g :: g in done + {f} <==> g in done || g == f;
  }

  lemma NextByField(done: set<LogFilter>, f: LogFilter, attr: Option<Field>, byField: map<Field, seq<LogFilter>>)
    requires ByField(done, attr, byField)
    ensures ByField(done + {f}, attr, if Applies(f, attr) then byField[f.field := (if f.field in byField then byField[f.field] else []) + [f]] else byField)
  {
    var all := done + {f};
    if Applies(f, attr) {
      var before := if f.field in byField then byField[f.field] else [];
      assert Elements(before) == OfField(done, f.field);
      assert Elements(before + [f]) == Elements(before) + {f};
      assert OfField(all, f.field) == OfField(done, f.field) + {f};
      var after := byField[f.field := before + [f]];
      forall field | field in after
        ensures field != MessageField && attr != Some(field) && after[field] != [] && Elements(after[field]) == OfField(all, field)
      {
        if field != f.field {
          assert OfField(all, field) == OfField(done, field);
        }
      }
    } else {
      forall field | field in byField ensures Elements(byField[field]) == OfField(all, field) {
        assert OfField(all, field) == OfField(done, field);
      }
    }
  }

  /** The filters by field, and the text filters apart, taken in any order. The rollup knows no text. */
  method SplitFilters(env: Env, filters: set<LogFilter>, attr: Option<Field>, rollup: bool)
    returns (byField: map<Field, seq<LogFilter>>, message: Search, notMessage: seq<Search>, ok: bool)
    ensures ok == (rollup ==> forall f :: f in filters && f.field == MessageField ==> env.parse(f.value).Empty())
    ensures ok ==> ByField(filters, attr, byField) && Searches(env, filters, message, notMessage)
  {
    byField, message, notMessage, ok := map[], Search([], []), [], true;
    var rest := filters;
    while rest != {}
      invariant rest <= filters
      invariant ByField(filters - rest, attr, byField) && Searches(env, filters - rest, message, notMessage)
      invariant rollup ==> forall f :: f in filters - rest && f.field == MessageField ==> env.parse(f.value).Empty()
      decreases rest
    {
      var f :| f in rest;
      ghost var done := filters - rest;
      rest := rest - {f};
      assert filters - rest == done + {f};
      NextByField(done, f, attr, byField);
      if f.field == MessageField {
        NextSearch(env, done, f, message, notMessage);
        var terms := env.parse(f.value);
        if rollup && !terms.Empty() {
          ok := false;
          return;
        }
        if f.op.NotContains? {
          if !terms.Empty() {
            notMessage := notMessage + [terms];
          }
        } else {
          message := Search(message.tokens + terms.tokens, message.substrings + terms.substrings);
        }
      } else {
        OtherSearch(env, done, f, message, notMessage);
        if attr != Some(f.field) {
          byField := byField[f.field := (if f.field in byField then byField[f.field] else []) + [f]];
        }
      }
    }
    assert filters - rest == filters;
  }

  lemma OtherSearch(env: Env, done: set<LogFilter>, f: LogFilter, message: Search, notMessage: seq<Search>)
    requires !f.field.MessageField? && Searches(env, done, message, notMessage)
    ensures Searches(env, done + {f}, message, notMessage)
  {
    assert forall g :: g in done + {f} && g.field.MessageField? ==> g in done;
  }

  // --- the whole WHERE ---

  lemma HoldsConcat(env: Env, a: seq<Cond>, b: seq<Cond>, view: View)
    ensures HoldsAll(env, a + b, view) == (HoldsAll(env, a, view) && HoldsAll(env, b, view))
  {
    assert forall c :: c in a + b <==> c in a || c in b;
  }

  ghost predicate FieldsMean(env: Env, filters: set<LogFilter>, fields: set<Field>, view: View) {
    forall field :: field in fields ==> FieldMeans(env, OfField(filters, field), view)
  }

  ghost predicate TextMeans(env: Env, filters: set<LogFilter>, view: View) {
    forall f :: f in filters && f.field == MessageField ==> MessageMeans(env, f, view)
  }

  /** The conditions of the fields, in any order of the fields. */
  method AllFieldConds(env: Env, filters: set<LogFilter>, attr: Option<Field>, byField: map<Field, seq<LogFilter>>, rollup: bool)
    returns (where: seq<Cond>, ok: bool)
    requires ByField(filters, attr, byField)
    ensures ok == (rollup ==> forall f :: f in filters && Applies(f, attr) ==> InRollup(f.field))
    ensures ok ==> TypedAll(where, rollup)
    ensures ok ==> forall view | OfTable(view, rollup) :: HoldsAll(env, where, view) == FieldsMean(env, filters, byField.Keys, view)
  {
    where, ok := [], true;
    var rest := byField.Keys;
    while rest != {}
      invariant rest <= byField.Keys
      invariant TypedAll(where, rollup)
      invariant rollup ==> forall field :: field in byField.Keys - rest ==> InRollup(field)
      invariant forall view | OfTable(view, rollup) ::
                  HoldsAll(env, where, view) == FieldsMean(env, filters, byField.Keys - rest, view)
      decreases rest
    {
      var field :| field in rest;
      ghost var done := byField.Keys - rest;
      ghost var before := where;
      assert forall f :: f in byField[field] ==> f in Elements(byField[field]) && f in OfField(filters, field);
      var conds, known := FieldConds(env, byField[field], field, rollup);
      if !known {
        FilterOf(filters, attr, byField, field);
        return [], false;
      }
      where := where + conds;
      rest := rest - {field};
      forall view | OfTable(view, rollup)
        ensures HoldsAll(env, where, view) == FieldsMean(env, filters, byField.Keys - rest, view)
      {
        HoldsConcat(env, before, conds, view);
        assert byField.Keys - rest == done + {field};
        assert HoldsAll(env, conds, view) == FieldMeans(env, OfField(filters, field), view);
      }
    }
    assert byField.Keys - rest == byField.Keys;
  }

  lemma FilterOf(filters: set<LogFilter>, attr: Option<Field>, byField: map<Field, seq<LogFilter>>, field: Field)
    requires ByField(filters, attr, byField) && field in byField
    ensures exists f :: f in filters && Applies(f, attr) && f.field == field
  {
    var f := byField[field][0];
    assert f in Elements(byField[field]) && f in OfField(filters, field);
  }

  lemma ByFieldMeans(env: Env, filters: set<LogFilter>, attr: Option<Field>, byField: map<Field, seq<LogFilter>>, view: View)
    requires ByField(filters, attr, byField)
    ensures FiltersMean(env, filters, attr, view) == (FieldsMean(env, filters, byField.Keys, view) && TextMeans(env, filters, view))
  {
    if FiltersMean(env, filters, attr, view) {
      forall field | field in byField.Keys ensures FieldMeans(env, OfField(filters, field), view) {
        FilterOf(filters, attr, byField, field);
      }
    }
  }

  ghost predicate SearchesMean(env: Env, message: Search, notMessage: seq<Search>, view: View) {
    (message.Empty() || Contains(env, message, view)) && NoneContained(env, notMessage, view)
  }

  predicate NoneContained(env: Env, notMessage: seq<Search>, view: View) {
    forall s :: s in notMessage ==> !Contains(env, s, view)
  }

  /** One search for everything wanted, and one each for what is not, mean the text filters. */
  lemma SearchesMeanText(env: Env, filters: set<LogFilter>, message: Search, notMessage: seq<Search>, row: LogRow)
    requires Searches(env, filters, message, notMessage)
    ensures SearchesMean(env, message, notMessage, Raw(row)) == TextMeans(env, filters, Raw(row))
  {
    var view := Raw(row);
    if SearchesMean(env, message, notMessage, view) {
      forall f | f in filters && f.field == MessageField ensures MessageMeans(env, f, view) {
        var search := env.parse(f.value);
        if f.op.NotContains? {
          assert search.Empty() || search in notMessage;
        } else {
          assert forall t :: t in search.tokens ==> t in message.tokens;
          assert forall t :: t in search.substrings ==> t in message.substrings;
        }
      }
    }
    if TextMeans(env, filters, view) {
      forall s | s in notMessage ensures !Contains(env, s, view) {
        var f :| f in filters && f.field.MessageField? && f.op.NotContains? && !env.parse(f.value).Empty() && s == env.parse(f.value);
        assert MessageMeans(env, f, view);
      }
      forall t | t in message.tokens ensures env.hasToken(row.body, t) {
        var f :| f in filters && f.field.MessageField? && !f.op.NotContains? && t in env.parse(f.value).tokens;
        assert MessageMeans(env, f, view) && t in env.parse(f.value).tokens;
      }
      forall t | t in message.substrings ensures env.hasSubstring(row.body, t) {
        var f :| f in filters && f.field.MessageField? && !f.op.NotContains? && t in env.parse(f.value).substrings;
        assert MessageMeans(env, f, view) && t in env.parse(f.value).substrings;
      }
    }
  }

  /** The conditions on the message text of a raw row. */
  method MessageConds(env: Env, message: Search, notMessage: seq<Search>) returns (where: seq<Cond>)
    requires forall s :: s in notMessage ==> !s.Empty()
    ensures TypedAll(where, false)
    ensures forall view :: HoldsAll(env, where, view) == SearchesMean(env, message, notMessage, view)
    ensures message.Empty() && notMessage == [] ==> where == []
  {
    where := [];
    if !message.Empty() {
      var cond := MessageCond(env, message);
      where := [cond];
      forall view ensures HoldsAll(env, where, view) == SearchesMean(env, message, [], view) {
        OnlyOne(env, cond, view);
      }
    }
    for k := 0 to |notMessage|
      invariant TypedAll(where, false)
      invariant message.Empty() && k == 0 ==> where == []
      invariant forall view :: HoldsAll(env, where, view) == SearchesMean(env, message, notMessage[..k], view)
    {
      var cond := MessageCond(env, notMessage[k]);
      forall view ensures HoldsAll(env, where + [Not(cond)], view) == SearchesMean(env, message, notMessage[..k + 1], view) {
        OneMore(env, where, Not(cond), view);
        OnlyOne(env, cond, view);
        assert notMessage[..k + 1] == notMessage[..k] + [notMessage[k]];
      }
      where := where + [Not(cond)];
    }
    assert notMessage[..|notMessage|] == notMessage;
  }

  lemma NoText(env: Env, filters: set<LogFilter>, message: Search, notMessage: seq<Search>, view: View)
    requires Searches(env, filters, message, notMessage)
    requires forall f :: f in filters && f.field == MessageField ==> env.parse(f.value).Empty()
    ensures message.Empty() && notMessage == [] && TextMeans(env, filters, view)
  {
    EmptyIff(message.tokens);
    EmptyIff(message.substrings);
    EmptyIff(notMessage);
  }

  lemma EmptyIff<T>(s: seq<T>)
    ensures s == [] <==> forall x :: x !in s
  {
    if s != [] {
      assert s[0] in s;
    }
  }

  lemma TimeMeans(env: Env, q: LogQuery, view: View, rollup: bool)
    requires OfTable(view, rollup)
    ensures Holds(env, TimeCond(q, rollup), view) == WindowMeans(q, view)
    ensures Typed(TimeCond(q, rollup), rollup)
  {
  }

  /** The parts of the WHERE, joined by AND, say what the query asks. */
  lemma WhereMeans(env: Env, q: LogQuery, attr: Option<Field>, services: seq<Cond>, fields: seq<Cond>, texts: seq<Cond>,
                   rollup: bool, view: View)
    requires OfTable(view, rollup)
    requires HoldsAll(env, services, view) == SourceMeans(q, view)
    requires (HoldsAll(env, fields, view) && HoldsAll(env, texts, view)) == FiltersMean(env, Elements(q.filters), attr, view)
    ensures HoldsAll(env, services + [TimeCond(q, rollup)] + fields + texts, view) == Asked(env, q, attr, view)
  {
    TimeMeans(env, q, view, rollup);
    OneMore(env, services, TimeCond(q, rollup), view);
    HoldsConcat(env, services + [TimeCond(q, rollup)], fields, view);
    HoldsConcat(env, services + [TimeCond(q, rollup)] + fields, texts, view);
  }

  lemma TypedConcat(a: seq<Cond>, b: seq<Cond>, rollup: bool)
    requires TypedAll(a, rollup) && TypedAll(b, rollup)
    ensures TypedAll(a + b, rollup)
  {
  }

  lemma WhereTyped(env: Env, q: LogQuery, services: seq<Cond>, fields: seq<Cond>, texts: seq<Cond>, rollup: bool)
    requires TypedAll(services, rollup) && TypedAll(fields, rollup) && TypedAll(texts, rollup)
    ensures TypedAll(services + [TimeCond(q, rollup)] + fields + texts, rollup)
  {
    assert TypedAll([TimeCond(q, rollup)], rollup);
    TypedConcat(services, [TimeCond(q, rollup)], rollup);
    TypedConcat(services + [TimeCond(q, rollup)], fields, rollup);
    TypedConcat(services + [TimeCond(q, rollup)] + fields, texts, rollup);
  }

  /** The fields and the text, whichever the table, are the filters. */
  lemma FiltersBySplit(env: Env, filters: set<LogFilter>, attr: Option<Field>, byField: map<Field, seq<LogFilter>>,
                       message: Search, notMessage: seq<Search>, rollup: bool, view: View)
    requires OfTable(view, rollup)
    requires ByField(filters, attr, byField) && Searches(env, filters, message, notMessage)
    requires rollup ==> forall f :: f in filters && f.field == MessageField ==> env.parse(f.value).Empty()
    ensures rollup ==> message.Empty() && notMessage == []
    ensures FiltersMean(env, filters, attr, view) ==
            (FieldsMean(env, filters, byField.Keys, view) && SearchesMean(env, message, notMessage, view))
  {
    ByFieldMeans(env, filters, attr, byField, view);
    if rollup {
      NoText(env, filters, message, notMessage, view);
    } else {
      SearchesMeanText(env, filters, message, notMessage, view.row);
    }
  }

  /** buildFilters: the rows of either table that satisfy the WHERE are the rows the query asks for;
      and the rollup is refused exactly when the query needs what it does not have. */
  method BuildFilters(env: Env, q: LogQuery, attr: Option<Field>, rollup: bool) returns (where: seq<Cond>, ok: bool)
    ensures ok == (rollup ==> RollupAnswers(env, q, attr))
    ensures ok ==> TypedAll(where, rollup)
    ensures ok ==> forall view | OfTable(view, rollup) :: HoldsAll(env, where, view) == Asked(env, q, attr, view)
  {
    var services := ServiceConds(env, q, rollup);
    if rollup && (q.since != ZERO_TIME || q.from % 60 != 0 || q.to % 60 != 0) {
      return [], false;
    }
    where := services + [TimeCond(q, rollup)];
    var filters := Elements(q.filters);
    var byField, message, notMessage, noText := SplitFilters(env, filters, attr, rollup);
    if !noText {
      return [], false;
    }
    var fields, known := AllFieldConds(env, filters, attr, byField, rollup);
    if !known {
      return [], false;
    }
    ok := true;
    var texts := MessageConds(env, message, notMessage);
    where := where + fields + texts;
    forall view | OfTable(view, rollup)
      ensures HoldsAll(env, where, view) == Asked(env, q, attr, view)
      ensures rollup ==> texts == []
    {
      FiltersBySplit(env, filters, attr, byField, message, notMessage, rollup, view);
      WhereMeans(env, q, attr, services, fields, texts, rollup, view);
    }
    if rollup {
      NoText(env, filters, message, notMessage, Rolled(LogKey(0, "", "", "", 0, "", "")));
    }
    WhereTyped(env, q, services, fields, texts, rollup);
  }

  // ----- severities by name -----

  /** Severity.String, by which the page names a severity; itoa is strconv.Itoa. */
  function SeverityName(itoa: int -> string, severity: int): string {
    match severity
    case 0 => "unknown"
    case 1 => "trace"
    case 2 => "debug"
    case 3 => "info"
    case 4 => "warning"
    case 5 => "error"
    case 6 => "fatal"
    case _ => "severity-" + itoa(severity)
  }

  /** The name of a severity is read back as that severity. */
  lemma SeverityNameIsRead(env: Env, itoa: int -> string, severity: int)
    requires forall n :: env.atoi(itoa(n)) == n
    ensures SeverityOf(env, SeverityName(itoa, severity)) == severity
  {
    if !(0 <= severity <= 6) {
      var name := SeverityName(itoa, severity);
      assert name[0] == 's' && "severity-" <= name;
      assert name[|"severity-"|..] == itoa(severity);
    }
  }

  const SEVERITIES: seq<string> := ["unknown", "trace", "debug", "info", "warning", "error", "fatal"]

  /** The SeverityNumbers each name stands for. */
  predicate Numbers(name: string, number: int) {
    match name
    case "unknown" => number == 0
    case "trace" => 1 <= number <= 4
    case "debug" => 5 <= number <= 8
    case "info" => 9 <= number <= 12
    case "warning" | "warn" => 13 <= number <= 16
    case "error" => 17 <= number <= 20
    case "fatal" | "critical" => 21 <= number <= 24
    case _ => false
  }

  /** The seven names share out the numbers 0 to 24, in their order. */
  lemma NumbersAreShared(number: int)
    ensures 0 <= number <= 24 <==> exists i :: 0 <= i < |SEVERITIES| && Numbers(SEVERITIES[i], number)
    ensures forall i, j, other :: 0 <= i < j < |SEVERITIES| && Numbers(SEVERITIES[i], number) && Numbers(SEVERITIES[j], other)
              ==> number < other
  {
    assert SEVERITIES[0] == "unknown" && SEVERITIES[1] == "trace" && SEVERITIES[2] == "debug" && SEVERITIES[3] == "info";
    assert SEVERITIES[4] == "warning" && SEVERITIES[5] == "error" && SEVERITIES[6] == "fatal";
    if 0 <= number <= 24 {
      assert Numbers(SEVERITIES[if number == 0 then 0 else (number + 3) / 4], number);
    }
  }

  /** The range of a severity filter is that of the name in it. */
  lemma RangeOfName(env: Env, name: string, number: int)
    requires name in SEVERITIES || name == "warn" || name == "critical"
    ensures var range := SeverityRange(SeverityOf(env, name)); range.0 <= number <= range.1 <==> Numbers(name, number)
  {
  }

  /** With the one filter Severity = name the rows kept are those whose number the name stands for, with
      Severity != name the others. */
  lemma SeverityFilterKeeps(env: Env, q: LogQuery, attr: Option<Field>, name: string, row: LogRow)
    requires name in SEVERITIES || name == "warn" || name == "critical"
    requires attr != Some(SeverityField)
    ensures q.filters == [LogFilter(SeverityField, Is, name)] ==>
              (Asked(env, q, attr, Raw(row)) <==>
                 WindowMeans(q, Raw(row)) && SourceMeans(q, Raw(row)) && Numbers(name, row.severity))
    ensures q.filters == [LogFilter(SeverityField, IsNot, name)] ==>
              (Asked(env, q, attr, Raw(row)) <==>
                 WindowMeans(q, Raw(row)) && SourceMeans(q, Raw(row)) && !Numbers(name, row.severity))
  {
    RangeOfName(env, name, row.severity);
    OneFilter(env, LogFilter(SeverityField, Is, name), attr, row);
    OneFilter(env, LogFilter(SeverityField, IsNot, name), attr, row);
    assert forall f: LogFilter :: Elements([f]) == {f};
  }

  // ----- one filter -----

  /** The row has the value v of a field. */
  predicate HasOf(env: Env, field: Field, v: string, r: LogRow) {
    match field
    case SeverityField => SeverityRange(SeverityOf(env, v)).0 <= r.severity <= SeverityRange(SeverityOf(env, v)).1
    case TraceIdField => r.traceId == v
    case ServiceField => r.service == v
    case SourceField => v == if "/" <= r.service then "agent" else "otel"
    case NamespaceField => r.namespace == v
    case ApplicationField => r.application == v
    case MessageField => false
    case Attribute(name) => Attr(r.logAttrs, name) == v || Attr(r.resourceAttrs, name) == v
  }

  /** A text of a field of the row matches a pattern. */
  predicate FitsOf(env: Env, field: Field, pattern: string, r: LogRow) {
    match field
    case ServiceField => env.matches(r.service, pattern)
    case Attribute(name) => env.matches(Attr(r.logAttrs, name), pattern) || env.matches(Attr(r.resourceAttrs, name), pattern)
    case _ => false
  }

  /** The operators a field has beside =: a trace id has none, only services and attributes have patterns,
      and a source is one of two. */
  predicate HasOp(f: LogFilter) {
    match f.op
    case Is => f.field.SourceField? ==> f.value == "agent" || f.value == "otel"
    case IsNot => !f.field.TraceIdField? && (f.field.SourceField? ==> f.value == "agent" || f.value == "otel")
    case Like | NotLike => f.field.ServiceField? || f.field.Attribute?
    case _ => false
  }

  /** A filter alone: = keeps the rows that have its value, != the others, ~ and !~ likewise by its pattern;
      with an operator or a value its field does not have it keeps all. */
  lemma OneFilter(env: Env, f: LogFilter, attr: Option<Field>, r: LogRow)
    requires !f.field.MessageField? && attr != Some(f.field)
    ensures FiltersMean(env, {f}, attr, Raw(r)) ==
            (HasOp(f) ==>
               match f.op
               case Is => HasOf(env, f.field, f.value, r)
               case IsNot => !HasOf(env, f.field, f.value, r)
               case Like => FitsOf(env, f.field, f.value, r)
               case _ => !FitsOf(env, f.field, f.value, r))
  {
    assert OfField({f}, f.field) == {f};
    OneMeans(env, f, r);
  }

  lemma OneMeans(env: Env, f: LogFilter, r: LogRow)
    requires !f.field.MessageField?
    ensures FieldMeans(env, {f}, Raw(r)) ==
            (HasOp(f) ==>
               match f.op
               case Is => HasOf(env, f.field, f.value, r)
               case IsNot => !HasOf(env, f.field, f.value, r)
               case Like => FitsOf(env, f.field, f.value, r)
               case _ => !FitsOf(env, f.field, f.value, r))
  {
    assert RoleOf(f) == Ignored <==> !HasOp(f);
    assert f in {f};
  }

  /** A text filter alone: the rows whose message has all its words and substrings, or with "not contains" the
      others; one with nothing to look for keeps all. */
  lemma OneText(env: Env, op: Op, value: string, attr: Option<Field>, r: LogRow)
    ensures FiltersMean(env, {LogFilter(MessageField, op, value)}, attr, Raw(r)) ==
            var search := env.parse(value);
            var has := (forall t :: t in search.tokens ==> env.hasToken(r.body, t))
                       && (forall s :: s in search.substrings ==> env.hasSubstring(r.body, s));
            search == Search([], []) || (op != NotContains <==> has)
  {
    var f := LogFilter(MessageField, op, value);
    assert FiltersMean(env, {f}, attr, Raw(r)) == MessageMeans(env, f, Raw(r));
    assert env.parse(value).Empty() <==> env.parse(value) == Search([], []);
  }
}

/** clickhouse/logs_facets.go: how often each value of a facet occurs, by either table of logs.

    Both tables have the same value of a row for each facet. The lists shown are the counts of the table
    that answers: fixed values, or names by falling count and then by name. */
module LogFacets {
  import opened Prelude
  import opened LogFilters
  import opened Rollups
  import opened LogRollup

  datatype Facet = SeverityFacet | ServiceFacet | HostFacet | ClusterFacet | SourceFacet | NamespaceFacet | ApplicationFacet

  /** The field whose filters do not apply to the facet of its values. */
  function FieldOf(facet: Facet): Field {
    match facet
    case SeverityFacet => SeverityField
    case ServiceFacet => ServiceField
    case HostFacet => Attribute(HOST_NAME)
    case ClusterFacet => Attribute("Cluster")
    case SourceFacet => SourceField
    case NamespaceFacet => NamespaceField
    case ApplicationFacet => ApplicationField
  }

  datatype FacetValue = Class(severity: int) | Name(name: string) | Agent | Otel | Everything

  /** What each facet groups by. */
  function ValueOf(facet: Facet, view: View): FacetValue {
    match facet
    case SeverityFacet => Class(SeverityClass(SeverityNumber(view)))
    case ServiceFacet => Name(Text(view, ServiceName))
    case HostFacet =>
      var log := Text(view, if view.Raw? then LogAttr(HOST_NAME) else HostLog);
      Name(if log != "" then log else Text(view, if view.Raw? then ResAttr(HOST_NAME) else HostRes))
    case ClusterFacet => Everything
    case SourceFacet => if Slash(Text(view, ServiceName)) then Agent else Otel
    case NamespaceFacet => Name(Text(view, Namespace))
    case ApplicationFacet => Name(Text(view, Application))
  }

  function Values(facet: Facet): View -> FacetValue {
    view => ValueOf(facet, view)
  }

  lemma ValuesFactor(facet: Facet)
    ensures Factors(Values(facet))
  {
  }

  /** The rows counted under a name that a facet lists. */
  predicate ListedUnder(facet: Facet, name: string, r: LogRow) {
    match facet
    case ServiceFacet => r.service == name
    case HostFacet =>
      Attr(r.logAttrs, "host.name") == name || (Attr(r.logAttrs, "host.name") == "" && Attr(r.resourceAttrs, "host.name") == name)
    case NamespaceFacet => r.namespace == name
    case ApplicationFacet => r.application == name
    case _ => false
  }

  lemma ListedIs(facet: Facet, name: string, r: LogRow)
    requires facet.HostFacet? ==> name != ""
    ensures ValueOf(facet, Raw(r)) == Name(name) <==> ListedUnder(facet, name, r)
  {
  }

  lemma SourceListedIs(r: LogRow)
    ensures ValueOf(SourceFacet, Raw(r)) == if "/" <= r.service then Agent else Otel
  {
  }

  /** The filter that a name of a facet stands for keeps exactly the rows that were counted under it, but for a
      host: it keeps also the rows of which only the resource has it, the record having another. */
  lemma FilterOfListed(env: Env, facet: Facet, name: string, r: LogRow)
    requires facet in {ServiceFacet, HostFacet, NamespaceFacet, ApplicationFacet} && (facet.HostFacet? ==> name != "")
    ensures FiltersMean(env, {LogFilter(FieldOf(facet), Is, name)}, None, Raw(r)) <==>
              ValueOf(facet, Raw(r)) == Name(name)
              || (facet.HostFacet? && Attr(r.logAttrs, "host.name") != "" && Attr(r.resourceAttrs, "host.name") == name)
  {
    OneFilter(env, LogFilter(FieldOf(facet), Is, name), None, r);
    ListedIs(facet, name, r);
  }

  // ----- the order of names -----

  /** The order of strings. */
  predicate Below(a: string, b: string) {
    b != "" && (a == "" || a[0] < b[0] || (a[0] == b[0] && Below(a[1..], b[1..])))
  }

  lemma {:induction false} BelowIsTotal(a: string, b: string)
    ensures a == b || Below(a, b) || Below(b, a)
    ensures !(Below(a, b) && Below(b, a)) && !Below(a, a)
  {
    if a != "" && b != "" {
      BelowIsTotal(a[1..], b[1..]);
      assert a == [a[0]] + a[1..] && b == [b[0]] + b[1..];
    }
    if a != "" {
      BelowIsTotal(a[1..], a[1..]);
    }
  }

  lemma {:induction false} BelowIsTransitive(a: string, b: string, c: string)
    requires Below(a, b) && Below(b, c)
    ensures Below(a, c)
  {
    if a != "" && a[0] == b[0] == c[0] {
      BelowIsTransitive(a[1..], b[1..], c[1..]);
    }
  }

  /** The first n characters are those of both, and then a ends or has the smaller one. */
  predicate PartAt(a: string, b: string, n: nat) {
    n <= |a| && n < |b| && a[..n] == b[..n] && (n == |a| || a[n] < b[n])
  }

  /** A name is below another when it is a part of its beginning, or smaller where they part. */
  lemma {:induction false} BelowIs(a: string, b: string)
    ensures Below(a, b) <==> exists n: nat :: PartAt(a, b, n)
  {
    if a == "" || b == "" || a[0] != b[0] {
      assert Below(a, b) ==> PartAt(a, b, 0);
      return;
    }
    BelowIs(a[1..], b[1..]);
    if n: nat :| PartAt(a[1..], b[1..], n) {
      assert a[..n + 1] == [a[0]] + a[1..][..n] && b[..n + 1] == [b[0]] + b[1..][..n];
      assert PartAt(a, b, n + 1);
    }
    if n: nat :| PartAt(a, b, n) {
      assert n > 0;
      assert a[1..][..n - 1] == a[..n][1..] && b[1..][..n - 1] == b[..n][1..];
      assert PartAt(a[1..], b[1..], n - 1);
    }
  }

  /** ORDER BY the count, descending, and then the name. */
  predicate Ahead(x: Counted<FacetValue>, y: Counted<FacetValue>) {
    x.key.Name? && y.key.Name? && (x.count > y.count || (x.count == y.count && Below(x.key.name, y.key.name)))
  }

  predicate InOrder(rows: seq<Counted<FacetValue>>) {
    forall i, j :: 0 <= i < j < |rows| ==> Ahead(rows[i], rows[j])
  }

  /** In such a list the counts go down, and among equal ones the names are alphabetical, each once. */
  lemma MostFirst(rows: seq<Counted<FacetValue>>, i: nat, j: nat)
    requires InOrder(rows) && i < j < |rows|
    ensures rows[i].count >= rows[j].count && rows[i].key.Name? && rows[j].key.Name?
    ensures rows[i].count == rows[j].count ==> exists n: nat :: PartAt(rows[i].key.name, rows[j].key.name, n)
  {
    assert Ahead(rows[i], rows[j]);
    BelowIs(rows[i].key.name, rows[j].key.name);
  }

  // ----- what is shown -----

  const MAX_VALUES: nat := 1000
  const NO_NAMESPACE: FacetValue := Name("n/a")

  /** The facets whose query lists the most frequent names, empty ones left out. */
  predicate Ranked(facet: Facet) {
    facet.ServiceFacet? || facet.HostFacet? || facet.ApplicationFacet?
  }

  /** The first names by count, at most MAX_VALUES: one left out is behind all of a full list. */
  ghost predicate IsRanking(counts: FacetValue -> nat, rows: seq<Counted<FacetValue>>) {
    && InOrder(rows) && |rows| <= MAX_VALUES
    && (forall x :: x in rows ==> x.key.Name? && x.key.name != "" && x.count == counts(x.key) > 0)
    && (forall name: string | name != "" && counts(Name(name)) > 0 && Counted(Name(name), counts(Name(name))) !in rows ::
          |rows| == MAX_VALUES && forall x :: x in rows ==> Ahead(x, Counted(Name(name), counts(Name(name)))))
  }

  /** The namespaces there are, by count, and last what has none. */
  ghost predicate AreNamespaces(counts: FacetValue -> nat, rows: seq<Counted<FacetValue>>) {
    && rows != [] && rows[|rows| - 1] == Counted(NO_NAMESPACE, counts(NO_NAMESPACE))
    && var names := rows[..|rows| - 1];
    && InOrder(names)
    && (forall x :: x in names <==> x.key.Name? && x.key != NO_NAMESPACE && x.count == counts(x.key) > 0)
  }

  ghost predicate Shows(facet: Facet, counts: FacetValue -> nat, rows: seq<Counted<FacetValue>>) {
    match facet
    case SeverityFacet => rows == Fixed([Class(0), Class(3), Class(4), Class(5)], counts)
    case SourceFacet => rows == Fixed([Agent, Otel], counts)
    case ClusterFacet => rows == Fixed([Everything], counts)
    case NamespaceFacet => AreNamespaces(counts, rows)
    case _ => IsRanking(counts, rows)
  }

  function Fixed(values: seq<FacetValue>, counts: FacetValue -> nat): seq<Counted<FacetValue>> {
    seq(|values|, i requires 0 <= i < |values| => Counted(values[i], counts(values[i])))
  }

  // ----- what ClickHouse answers -----

  /** The number of rows of a table that satisfy the WHERE and have the value. */
  ghost function WhereCount(env: Env, where: seq<Cond>, rollup: bool, facet: Facet, raw: seq<LogRow>, rolled: seq<Counted<LogKey>>,
                            value: FacetValue): nat {
    if rollup then Sum(rolled, key => HoldsAll(env, where, Rolled(key)) && ValueOf(facet, Rolled(key)) == value)
    else Count(raw, row => HoldsAll(env, where, Raw(row)) && ValueOf(facet, Raw(row)) == value)
  }

  ghost predicate FacetAnswer(env: Env, where: seq<Cond>, rollup: bool, facet: Facet, raw: seq<LogRow>, rolled: seq<Counted<LogKey>>,
                              answer: seq<Counted<FacetValue>>) {
    if Ranked(facet) then IsRanking(value => WhereCount(env, where, rollup, facet, raw, rolled, value), answer)
    else Answers(env, where, rollup, Values(facet), raw, rolled, answer)
  }

  /** What the table that answers has of a value. */
  ghost function FacetCount(env: Env, q: LogQuery, facet: Facet, raw: seq<LogRow>, rolled: seq<Counted<LogKey>>, value: FacetValue): nat {
    var attr := Some(FieldOf(facet));
    if RollupAnswers(env, q, attr) then RollupCount(env, q, attr, Values(facet), value, rolled)
    else RawCount(env, q, attr, Values(facet), value, raw)
  }

  /** The counts shown are those of the raw table, but for rows whose time is the very end. */
  lemma FacetCountIs(env: Env, q: LogQuery, facet: Facet, raw: seq<LogRow>, rolled: seq<Counted<LogKey>>, value: FacetValue)
    requires Represents(KeyOf, raw, rolled)
    ensures var attr := Some(FieldOf(facet));
            FacetCount(env, q, facet, raw, rolled, value)
            + (if RollupAnswers(env, q, attr) then EndCount(env, q, attr, Values(facet), value, raw) else 0)
            == RawCount(env, q, attr, Values(facet), value, raw)
  {
    var attr := Some(FieldOf(facet));
    if RollupAnswers(env, q, attr) {
      ValuesFactor(facet);
      RollupAgrees(env, q, attr, Values(facet), value, raw, rolled);
    }
  }

  lemma SameWhere<G(!new)>(env: Env, q: LogQuery, attr: Option<Field>, where: seq<Cond>, rollup: bool, group: View -> G,
                           raw: seq<LogRow>, rolled: seq<Counted<LogKey>>, g: G, byRow: LogRow -> bool, byKey: LogKey -> bool)
    requires forall view | OfTable(view, rollup) :: HoldsAll(env, where, view) == Asked(env, q, attr, view)
    requires forall row :: byRow(row) == (HoldsAll(env, where, Raw(row)) && group(Raw(row)) == g)
    requires forall key :: byKey(key) == (HoldsAll(env, where, Rolled(key)) && group(Rolled(key)) == g)
    ensures if rollup then Sum(rolled, byKey) == RollupCount(env, q, attr, group, g, rolled)
            else Count(raw, byRow) == RawCount(env, q, attr, group, g, raw)
  {
    if rollup {
      SumSame(rolled, byKey, key => Asked(env, q, attr, Rolled(key)) && group(Rolled(key)) == g);
    } else {
      CountSame(raw, byRow, row => Asked(env, q, attr, Raw(row)) && group(Raw(row)) == g);
    }
  }

  /** Counting by the query's WHERE is counting what it asks for. */
  lemma WhereCountIs(env: Env, q: LogQuery, where: seq<Cond>, facet: Facet, raw: seq<LogRow>, rolled: seq<Counted<LogKey>>, value: FacetValue)
    requires var rollup := RollupAnswers(env, q, Some(FieldOf(facet)));
             forall view | OfTable(view, rollup) :: HoldsAll(env, where, view) == Asked(env, q, Some(FieldOf(facet)), view)
    ensures WhereCount(env, where, RollupAnswers(env, q, Some(FieldOf(facet))), facet, raw, rolled, value)
            == FacetCount(env, q, facet, raw, rolled, value)
  {
    SameWhere(env, q, Some(FieldOf(facet)), where, RollupAnswers(env, q, Some(FieldOf(facet))), Values(facet), raw, rolled, value,
              row => HoldsAll(env, where, Raw(row)) && ValueOf(facet, Raw(row)) == value,
              key => HoldsAll(env, where, Rolled(key)) && ValueOf(facet, Rolled(key)) == value);
  }

  // ----- reading the answer -----

  /** Each value with its count, from the rows of the answer. */
  method ReadFacet(answer: seq<Counted<FacetValue>>) returns (counts: map<FacetValue, nat>)
    requires forall i, j :: 0 <= i < j < |answer| ==> answer[i].key != answer[j].key
    ensures counts.Keys == Keys(answer) && forall x :: x in answer ==> counts[x.key] == x.count
  {
    counts := map[];
    for i := 0 to |answer|
      invariant counts.Keys == Keys(answer[..i])
      invariant forall j :: 0 <= j < i ==> answer[j].key in counts && counts[answer[j].key] == answer[j].count
    {
      counts := counts[answer[i].key := answer[i].count];
      KeysMore(answer, i);
    }
    assert answer[..|answer|] == answer;
  }

  lemma AheadIsTransitive(x: Counted<FacetValue>, y: Counted<FacetValue>, z: Counted<FacetValue>)
    requires Ahead(x, y) && Ahead(y, z)
    ensures Ahead(x, z)
  {
    if x.count == y.count == z.count {
      BelowIsTransitive(x.key.name, y.key.name, z.key.name);
    }
  }

  /** One name more in its place, in a list in order. */
  method Insert(rows: seq<Counted<FacetValue>>, x: Counted<FacetValue>) returns (r: seq<Counted<FacetValue>>)
    requires InOrder(rows) && x.key.Name? && forall y :: y in rows ==> y.key.Name? && y.key != x.key
    ensures InOrder(r) && forall y :: y in r <==> y in rows || y == x
  {
    var i := 0;
    while i < |rows| && Ahead(rows[i], x)
      invariant 0 <= i <= |rows| && forall j :: 0 <= j < i ==> Ahead(rows[j], x)
    {
      i := i + 1;
    }
    r := rows[..i] + [x] + rows[i..];
    forall j | i <= j < |rows| ensures Ahead(x, rows[j]) {
      assert rows[i] in rows;
      BelowIsTotal(rows[i].key.name, x.key.name);
      assert Ahead(x, rows[i]);
      if j > i {
        AheadIsTransitive(x, rows[i], rows[j]);
      }
    }
    assert rows == rows[..i] + rows[i..];
  }

  /** The namespaces of a map of counts, in order. */
  method SortNames(counts: map<FacetValue, nat>) returns (rows: seq<Counted<FacetValue>>)
    requires forall value :: value in counts ==> value.Name?
    ensures InOrder(rows) && forall x :: x in rows <==> x.key in counts && x.key != NO_NAMESPACE && x.count == counts[x.key]
  {
    rows := [];
    var rest := counts.Keys;
    while rest != {}
      invariant rest <= counts.Keys && InOrder(rows)
      invariant forall x :: x in rows <==> x.key in counts && x.key !in rest && x.key != NO_NAMESPACE && x.count == counts[x.key]
      decreases rest
    {
      var value :| value in rest;
      rest := rest - {value};
      if value != NO_NAMESPACE {
        rows := Insert(rows, Counted(value, counts[value]));
      }
    }
  }

  /** The rows shown for a facet, from the answer, whose counts are given. */
  method ShowFacet(facet: Facet, answer: seq<Counted<FacetValue>>, ghost counts: FacetValue -> nat)
    returns (rows: seq<Counted<FacetValue>>)
    requires if Ranked(facet) then IsRanking(counts, answer)
             else && (forall i, j :: 0 <= i < j < |answer| ==> answer[i].key != answer[j].key)
                  && (forall x :: x in answer ==> x.count == counts(x.key) > 0)
                  && (forall value :: value !in Keys(answer) ==> counts(value) == 0)
                  && (facet.NamespaceFacet? ==> forall x :: x in answer ==> x.key.Name?)
    ensures Shows(facet, counts, rows)
  {
    if Ranked(facet) {
      rows := [];
      for i := 0 to |answer|
        invariant rows == answer[..i]
      {
        assert answer[i] in answer;
        if answer[i].key == Name("") {
          continue;
        }
        rows := rows + [answer[i]];
      }
      return;
    }
    var counted := ReadFacet(answer);
    forall value ensures CountAt(counted, value) == counts(value) {
      if value in counted {
        var x :| x in answer && x.key == value;
      }
    }
    match facet {
      case SeverityFacet => rows := FixedRows([Class(0), Class(3), Class(4), Class(5)], counted);
      case SourceFacet => rows := FixedRows([Agent, Otel], counted);
      case ClusterFacet => rows := FixedRows([Everything], counted);
      case _ =>
        rows := SortNames(counted);
        rows := rows + [Counted(NO_NAMESPACE, CountAt(counted, NO_NAMESPACE))];
    }
  }

  method FixedRows(values: seq<FacetValue>, counted: map<FacetValue, nat>) returns (rows: seq<Counted<FacetValue>>)
    ensures rows == seq(|values|, i requires 0 <= i < |values| => Counted(values[i], CountAt(counted, values[i])))
  {
    rows := [];
    for i := 0 to |values|
      invariant |rows| == i && forall j :: 0 <= j < i ==> rows[j] == Counted(values[j], CountAt(counted, values[j]))
    {
      rows := rows + [Counted(values[i], CountAt(counted, values[i]))];
    }
  }

  /** A facet shows the counts of the rows the query asks for, the filters on the facet's own field left
      out, of the table that answers. */
  method GetLogFacetCounts(env: Env, q: LogQuery, facet: Facet, ask: (seq<Cond>, bool) -> seq<Counted<FacetValue>>,
                           ghost raw: seq<LogRow>, ghost rolled: seq<Counted<LogKey>>)
    returns (rows: seq<Counted<FacetValue>>)
    requires forall where: seq<Cond>, rollup: bool :: FacetAnswer(env, where, rollup, facet, raw, rolled, ask(where, rollup))
    ensures Shows(facet, value => FacetCount(env, q, facet, raw, rolled, value), rows)
  {
    var attr := Some(FieldOf(facet));
    var where, rollup := BuildFilters(env, q, attr, true);
    if !rollup {
      var ok;
      where, ok := BuildFilters(env, q, attr, false);
    }
    var answer := ask(where, rollup);
    ghost var counts := (value: FacetValue) => FacetCount(env, q, facet, raw, rolled, value);
    AnswerHas(env, q, where, facet, raw, rolled, answer, counts);
    rows := ShowFacet(facet, answer, counts);
  }

  /** A value no row has is not counted. */
  lemma NeverCounted<G(!new)>(env: Env, q: LogQuery, attr: Option<Field>, group: View -> G, g: G, raw: seq<LogRow>, rolled: seq<Counted<LogKey>>)
    requires forall view :: group(view) != g
    ensures RawCount(env, q, attr, group, g, raw) == 0 && RollupCount(env, q, attr, group, g, rolled) == 0
  {
    CountZero(raw, row => Asked(env, q, attr, Raw(row)) && group(Raw(row)) == g);
    SumNothing(rolled, key => Asked(env, q, attr, Rolled(key)) && group(Rolled(key)) == g);
  }

  lemma AnswerHas(env: Env, q: LogQuery, where: seq<Cond>, facet: Facet, raw: seq<LogRow>, rolled: seq<Counted<LogKey>>,
                  answer: seq<Counted<FacetValue>>, counts: FacetValue -> nat)
    requires var rollup := RollupAnswers(env, q, Some(FieldOf(facet)));
             && (forall view | OfTable(view, rollup) :: HoldsAll(env, where, view) == Asked(env, q, Some(FieldOf(facet)), view))
             && FacetAnswer(env, where, rollup, facet, raw, rolled, answer)
    requires forall value :: counts(value) == FacetCount(env, q, facet, raw, rolled, value)
    ensures if Ranked(facet) then IsRanking(counts, answer)
            else && (forall i, j :: 0 <= i < j < |answer| ==> answer[i].key != answer[j].key)
                 && (forall x :: x in answer ==> x.count == counts(x.key) > 0)
                 && (forall value :: value !in Keys(answer) ==> counts(value) == 0)
                 && (facet.NamespaceFacet? ==> forall x :: x in answer ==> x.key.Name?)
  {
    var rollup := RollupAnswers(env, q, Some(FieldOf(facet)));
    if Ranked(facet) {
      forall value ensures WhereCount(env, where, rollup, facet, raw, rolled, value) == counts(value) {
        WhereCountIs(env, q, where, facet, raw, rolled, value);
      }
    } else {
      forall value ensures value !in Keys(answer) ==> counts(value) == 0 {
        if value !in Keys(answer) {
          ReadIs(env, q, Some(FieldOf(facet)), where, rollup, Values(facet), raw, rolled, answer, value, 0);
        }
      }
      forall x | x in answer ensures x.count == counts(x.key) > 0 && (facet.NamespaceFacet? ==> x.key.Name?) {
        OnlyOneOf(answer, x);
        if facet.NamespaceFacet? && !x.key.Name? {
          NeverCounted(env, q, Some(FieldOf(facet)), Values(facet), x.key, raw, rolled);
        }
        ReadIs(env, q, Some(FieldOf(facet)), where, rollup, Values(facet), raw, rolled, answer, x.key, x.count);
      }
    }
  }
}

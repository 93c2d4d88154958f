/** clickhouse/logs.go: the histogram of the Logs page, by either of two tables.

    A query the rollup accepts asks of a row only what its key in the rollup tells, so each count is
    the one of the raw table, short of the asked rows whose time is the very end of the window:
    the raw table would count them, the rollup does not. */
module LogRollup {
  import opened Prelude
  import opened LogFilters
  import opened Rollups
  import opened TimeSeriesPackage

  // ----- the key of a row -----

  /** What the materialized view groups a row by. */
  function KeyOf(row: LogRow): LogKey {
    LogKey(MinuteOf(row.timestamp), row.service, row.namespace, row.application, row.severity,
           Attr(row.logAttrs, HOST_NAME), Attr(row.resourceAttrs, HOST_NAME))
  }

  /** The row has the very end of the window as its time. */
  predicate AtEnd(q: LogQuery, row: LogRow) {
    row.timestamp == q.to * SECOND
  }

  /** A whole minute is not after an instant exactly when it is not after the minute of the instant. */
  lemma MinuteBound(minute: int, t: int)
    requires minute % 60 == 0
    ensures minute * SECOND <= t <==> minute <= MinuteOf(t)
  {
    var m := MinuteOf(t);
    assert minute == 60 * (minute / 60) && m == 60 * (m / 60);
  }

  /** Being in a window of whole minutes is a matter of the minute. */
  lemma WindowFactors(q: LogQuery, row: LogRow)
    requires q.since == ZERO_TIME && q.from % 60 == 0 && q.to % 60 == 0
    ensures WindowMeans(q, Raw(row)) && !AtEnd(q, row) ==> WindowMeans(q, Rolled(KeyOf(row)))
    ensures WindowMeans(q, Rolled(KeyOf(row))) ==> WindowMeans(q, Raw(row)) && !AtEnd(q, row)
  {
    MinuteBound(q.from, row.timestamp);
    MinuteBound(q.to, row.timestamp);
  }

  lemma ValueFactors(env: Env, f: LogFilter, row: LogRow)
    requires InRollup(f.field)
    ensures HasValue(env, f, Raw(row)) == HasValue(env, f, Rolled(KeyOf(row)))
  {
  }

  lemma FieldFactors(env: Env, fs: set<LogFilter>, row: LogRow)
    requires forall f :: f in fs ==> InRollup(f.field)
    ensures FieldMeans(env, fs, Raw(row)) == FieldMeans(env, fs, Rolled(KeyOf(row)))
  {
    forall f | f in fs ensures HasValue(env, f, Raw(row)) == HasValue(env, f, Rolled(KeyOf(row))) {
      ValueFactors(env, f, row);
    }
  }

  /** The filters the rollup accepts ask nothing of a row but what its key tells. */
  lemma FiltersFactor(env: Env, q: LogQuery, attr: Option<Field>, row: LogRow)
    requires RollupAnswers(env, q, attr)
    ensures FiltersMean(env, Elements(q.filters), attr, Raw(row)) == FiltersMean(env, Elements(q.filters), attr, Rolled(KeyOf(row)))
  {
    var filters := Elements(q.filters);
    forall f | f in filters && Applies(f, attr)
      ensures FieldMeans(env, OfField(filters, f.field), Raw(row)) == FieldMeans(env, OfField(filters, f.field), Rolled(KeyOf(row)))
    {
      FieldFactors(env, OfField(filters, f.field), row);
    }
    assert forall f, view :: f in filters && f.field == MessageField ==> MessageMeans(env, f, view);
  }

  /** A row is asked for through the rollup when the raw query asks for it, except at the very end. */
  lemma AskedFactors(env: Env, q: LogQuery, attr: Option<Field>, row: LogRow)
    requires RollupAnswers(env, q, attr)
    ensures Asked(env, q, attr, Rolled(KeyOf(row))) == (Asked(env, q, attr, Raw(row)) && !AtEnd(q, row))
  {
    WindowFactors(q, row);
    FiltersFactor(env, q, attr, row);
  }

  // ----- counting by anything the key tells -----

  ghost predicate Factors<G(!new)>(group: View -> G) {
    forall row: LogRow :: group(Raw(row)) == group(Rolled(KeyOf(row)))
  }

  ghost function RawCount<G(!new)>(env: Env, q: LogQuery, attr: Option<Field>, group: View -> G, g: G, raw: seq<LogRow>): nat {
    Count(raw, row => Asked(env, q, attr, Raw(row)) && group(Raw(row)) == g)
  }

  ghost function RollupCount<G(!new)>(env: Env, q: LogQuery, attr: Option<Field>, group: View -> G, g: G,
                                      rolled: seq<Counted<LogKey>>): nat {
    Sum(rolled, key => Asked(env, q, attr, Rolled(key)) && group(Rolled(key)) == g)
  }

  /** The asked rows of a group whose time is the very end of the window. */
  ghost function EndCount<G(!new)>(env: Env, q: LogQuery, attr: Option<Field>, group: View -> G, g: G, raw: seq<LogRow>): nat {
    Count(raw, row => Asked(env, q, attr, Raw(row)) && AtEnd(q, row) && group(Raw(row)) == g)
  }

  lemma RollupAgrees<G(!new)>(env: Env, q: LogQuery, attr: Option<Field>, group: View -> G, g: G,
                              raw: seq<LogRow>, rolled: seq<Counted<LogKey>>)
    requires RollupAnswers(env, q, attr) && Factors(group) && Represents(KeyOf, raw, rolled)
    ensures RawCount(env, q, attr, group, g, raw) ==
            RollupCount(env, q, attr, group, g, rolled) + EndCount(env, q, attr, group, g, raw)
  {
    var ofKey := (key: LogKey) => Asked(env, q, attr, Rolled(key)) && group(Rolled(key)) == g;
    var before := (row: LogRow) => Asked(env, q, attr, Raw(row)) && !AtEnd(q, row) && group(Raw(row)) == g;
    var atEnd := (row: LogRow) => Asked(env, q, attr, Raw(row)) && AtEnd(q, row) && group(Raw(row)) == g;
    assert Sum(rolled, ofKey) == Count(raw, Through(KeyOf, ofKey));
    forall row | row in raw ensures Through(KeyOf, ofKey)(row) == before(row) {
      AskedFactors(env, q, attr, row);
    }
    CountSame(raw, Through(KeyOf, ofKey), before);
    CountSplit(raw, before, atEnd, row => Asked(env, q, attr, Raw(row)) && group(Raw(row)) == g);
  }

  /** The two tables give the same counts exactly when no asked row is stamped at the very end. */
  lemma SameCountsIff<G(!new)>(env: Env, q: LogQuery, attr: Option<Field>, group: View -> G,
                               raw: seq<LogRow>, rolled: seq<Counted<LogKey>>)
    requires RollupAnswers(env, q, attr) && Factors(group) && Represents(KeyOf, raw, rolled)
    ensures (forall g: G :: RawCount(env, q, attr, group, g, raw) == RollupCount(env, q, attr, group, g, rolled))
       <==> forall row :: row in raw && Asked(env, q, attr, Raw(row)) ==> !AtEnd(q, row)
  {
    forall g: G ensures
        RawCount(env, q, attr, group, g, raw) ==
        RollupCount(env, q, attr, group, g, rolled) + EndCount(env, q, attr, group, g, raw)
    {
      RollupAgrees(env, q, attr, group, g, raw, rolled);
    }
    forall row | row in raw && Asked(env, q, attr, Raw(row)) && AtEnd(q, row)
      ensures exists g :: RawCount(env, q, attr, group, g, raw) != RollupCount(env, q, attr, group, g, rolled)
    {
      var g := group(Raw(row));
      CountZero(raw, row => Asked(env, q, attr, Raw(row)) && AtEnd(q, row) && group(Raw(row)) == g);
      assert EndCount(env, q, attr, group, g, raw) != 0;
      assert RawCount(env, q, attr, group, g, raw) != RollupCount(env, q, attr, group, g, rolled);
    }
    if forall row :: row in raw && Asked(env, q, attr, Raw(row)) ==> !AtEnd(q, row) {
      forall g: G ensures EndCount(env, q, attr, group, g, raw) == 0 {
        CountZero(raw, row => Asked(env, q, attr, Raw(row)) && AtEnd(q, row) && group(Raw(row)) == g);
      }
    }
  }

  // ----- the histogram -----

  /** The class of a severity number: four numbers to a class, 0 alone; the division truncates. */
  function SeverityClass(severity: int): int {
    if severity == 0 then 0
    else if severity > 0 then severity / 4 + 1
    else 1 - (-severity) / 4
  }

  /** The class of a row is the severity whose filter finds it, unless its number is a multiple of
      four or beyond those that OpenTelemetry defines. */
  lemma ClassIsSeverityIff(severity: int)
    ensures var range := SeverityRange(SeverityClass(severity));
            range.0 <= severity <= range.1 <==> severity == 0 || (1 <= severity <= 24 && severity % 4 != 0)
  {
  }

  /** Four numbers of a sign to a class, from its first to its last. */
  lemma NumbersOfClass(severity: int)
    ensures severity > 0 ==> 4 * (SeverityClass(severity) - 1) <= severity < 4 * SeverityClass(severity)
    ensures severity < 0 ==> 4 * (SeverityClass(severity) - 2) < severity <= 4 * (SeverityClass(severity) - 1)
  {
  }

  /** A severity class and the start of a bucket, in seconds. */
  datatype Cell = Cell(severity: int, bucket: int)

  function CellOf(step: int, view: View): Cell
    requires step > 0
  {
    match view
    case Raw(row) => Cell(SeverityClass(row.severity), StepOf(row.timestamp, step))
    case Rolled(key) => Cell(SeverityClass(key.severity), FloorTo(key.minute, step))
  }

  /** The bucket of a row is the bucket of its minute when buckets are whole minutes. */
  lemma CellFactors(step: int, row: LogRow)
    requires step > 0 && step % 60 == 0
    ensures CellOf(step, Raw(row)) == CellOf(step, Rolled(KeyOf(row)))
  {
    StepOfMinute(row.timestamp, step);
  }

  // ----- what ClickHouse answers -----

  /** The counts of the rows of a table that satisfy the WHERE, by group. */
  ghost predicate Answers<G(!new)>(env: Env, where: seq<Cond>, rollup: bool, group: View -> G,
                                   raw: seq<LogRow>, rolled: seq<Counted<LogKey>>, answer: seq<Counted<G>>) {
    if rollup then IsSumBy(rolled, key => HoldsAll(env, where, Rolled(key)), key => group(Rolled(key)), answer)
    else IsCountBy(raw, row => HoldsAll(env, where, Raw(row)), row => group(Raw(row)), answer)
  }

  /** What the answer to the query's WHERE has for a group. */
  lemma AnswerCounts<G(!new)>(env: Env, q: LogQuery, attr: Option<Field>, where: seq<Cond>, rollup: bool, group: View -> G,
                              raw: seq<LogRow>, rolled: seq<Counted<LogKey>>, answer: seq<Counted<G>>, g: G)
    requires forall view | OfTable(view, rollup) :: HoldsAll(env, where, view) == Asked(env, q, attr, view)
    requires Answers(env, where, rollup, group, raw, rolled, answer)
    ensures Sum(answer, other => other == g) ==
            if rollup then RollupCount(env, q, attr, group, g, rolled) else RawCount(env, q, attr, group, g, raw)
  {
    if rollup {
      SumByCounts(rolled, key => HoldsAll(env, where, Rolled(key)), key => group(Rolled(key)), answer, other => other == g,
                  key => Asked(env, q, attr, Rolled(key)) && group(Rolled(key)) == g);
    } else {
      CountByCounts(raw, row => HoldsAll(env, where, Raw(row)), row => group(Raw(row)), answer, other => other == g,
                    row => Asked(env, q, attr, Raw(row)) && group(Raw(row)) == g);
    }
  }

  /** What is read for a group from the answer to the query's WHERE. */
  lemma ReadIs<G(!new)>(env: Env, q: LogQuery, attr: Option<Field>, where: seq<Cond>, rollup: bool, group: View -> G,
                        raw: seq<LogRow>, rolled: seq<Counted<LogKey>>, answer: seq<Counted<G>>, g: G, read: nat)
    requires forall view | OfTable(view, rollup) :: HoldsAll(env, where, view) == Asked(env, q, attr, view)
    requires Answers(env, where, rollup, group, raw, rolled, answer)
    requires forall x :: x in answer && x.key == g ==> read == x.count
    requires g !in Keys(answer) ==> read == 0
    ensures read == if rollup then RollupCount(env, q, attr, group, g, rolled) else RawCount(env, q, attr, group, g, raw)
  {
    AnswerCounts(env, q, attr, where, rollup, group, raw, rolled, answer, g);
    SumOne(answer, g, other => other == g, read);
  }

  lemma EndCountZero<G(!new)>(env: Env, q: LogQuery, attr: Option<Field>, group: View -> G, g: G, raw: seq<LogRow>)
    ensures EndCount(env, q, attr, group, g, raw) == 0
       <==> forall row :: row in raw && Asked(env, q, attr, Raw(row)) && AtEnd(q, row) ==> group(Raw(row)) != g
  {
    CountZero(raw, row => Asked(env, q, attr, Raw(row)) && AtEnd(q, row) && group(Raw(row)) == g);
  }

  function CountAt<G>(counts: map<G, nat>, g: G): nat {
    if g in counts then counts[g] else 0
  }

  /** A database that answers the queries of one grouping. */
  ghost predicate Asking<G(!new)>(env: Env, group: View -> G, raw: seq<LogRow>, rolled: seq<Counted<LogKey>>,
                                  ask: (seq<Cond>, bool) -> seq<Counted<G>>) {
    forall where: seq<Cond>, rollup: bool :: Answers(env, where, rollup, group, raw, rolled, ask(where, rollup))
  }

  // ----- GetLogsHistogram -----

  function Cells(step: int): View -> Cell
    requires step > 0
  {
    view => CellOf(step, view)
  }

  /** Whether the histogram is taken from the rollup. */
  predicate HistogramFromRollup(env: Env, q: LogQuery) {
    RollupAnswers(env, q, None) && q.step >= 60 && q.step % 60 == 0
  }

  lemma KeysMore<G>(answer: seq<Counted<G>>, i: nat)
    requires i < |answer|
    ensures Keys(answer[..i + 1]) == Keys(answer[..i]) + {answer[i].key}
  {
    assert answer[..i + 1] == answer[..i] + [answer[i]];
    assert answer[i] in answer[..i + 1];
    assert forall x :: x in answer[..i] ==> x in answer[..i + 1];
    assert forall k :: k in Keys(answer[..i]) ==> k in Keys(answer[..i + 1]);
  }

  /** The series of each severity: its points, None for NaN. */
  type Points = map<int, seq<Option<nat>>>

  function PointOf(series: Points, severity: int, i: int): Option<nat> {
    if severity in series && 0 <= i < |series[severity]| then series[severity][i] else None
  }

  /** The buckets ClickHouse answers with are starts of steps, each with some rows. */
  lemma AnswerBuckets(env: Env, where: seq<Cond>, rollup: bool, step: int,
                      raw: seq<LogRow>, rolled: seq<Counted<LogKey>>, answer: seq<Counted<Cell>>)
    requires step > 0 && Answers(env, where, rollup, Cells(step), raw, rolled, answer)
    ensures forall x :: x in answer ==> x.count > 0 && x.key.bucket % step == 0
  {
    var unaligned := (cell: Cell) => cell.bucket % step != 0;
    if rollup {
      forall y: Counted<LogKey> ensures !unaligned(CellOf(step, Rolled(y.key))) {
        FloorBounds(y.key.minute, step);
      }
      SumByCounts(rolled, key => HoldsAll(env, where, Rolled(key)), key => Cells(step)(Rolled(key)), answer, unaligned, key => false);
      SumNothing(rolled, key => false);
    } else {
      forall row: LogRow ensures !unaligned(CellOf(step, Raw(row))) {
        FloorBounds(row.timestamp / SECOND, step);
      }
      CountByCounts(raw, row => HoldsAll(env, where, Raw(row)), row => Cells(step)(Raw(row)), answer, unaligned, row => false);
      CountZero(raw, row => false);
    }
    SumZero(answer, unaligned);
  }

  /** The series made so far: apart from each other, of the points asked for. */
  ghost predicate Made(series: map<int, TimeSeries>, from: int, points: nat, step: int)
    reads series.Values
  {
    && (forall severity :: severity in series ==>
          series[severity].from == from && series[severity].step == step && |series[severity].data| == points)
    && (forall a, b :: a in series && b in series && a != b ==> series[a] != series[b])
  }

  ghost predicate SetAt(data: seq<Option<nat>>, from: int, step: int, x: Counted<Cell>)
    requires step > 0
  {
    var slot := Slot(from, step, |data|, x.key.bucket);
    slot.Some? ==> data[slot.value] == Some(x.count)
  }

  /** The points set by some rows of an answer, and no others. */
  ghost predicate Filled(series: Points, from: int, points: nat, step: int, rows: seq<Counted<Cell>>)
    requires step > 0
  {
    && (forall severity :: severity in series <==> exists x :: x in rows && x.key.severity == severity)
    && (forall severity :: severity in series ==> |series[severity]| == points)
    && (forall x :: x in rows && x.key.severity in series ==> SetAt(series[x.key.severity], from, step, x))
    && (forall severity, i :: severity in series && 0 <= i < points && Cell(severity, StepAt(from, step, i)) !in Keys(rows) ==>
          series[severity][i] == None)
  }

  function Put(series: Points, from: int, points: nat, step: int, x: Counted<Cell>): Points
    requires step > 0
  {
    var data := if x.key.severity in series then series[x.key.severity] else seq(points, i => None);
    var slot := Slot(from, step, points, x.key.bucket);
    series[x.key.severity := if slot.Some? && slot.value < |data| then data[slot.value := Some(x.count)] else data]
  }

  /** A row set before stays set: two buckets have one point only if they are one. */
  lemma PutKeeps(series: Points, from: int, points: nat, step: int, x: Counted<Cell>, y: Counted<Cell>)
    requires step > 0 && x.key != y.key && x.key.bucket % step == 0 && y.key.bucket % step == 0
    requires x.key.severity in series && |series[x.key.severity]| == points && SetAt(series[x.key.severity], from, step, x)
    ensures SetAt(Put(series, from, points, step, y)[x.key.severity], from, step, x)
  {
    var slot := Slot(from, step, points, y.key.bucket);
    if slot.Some? {
      SlotIs(from, step, points, y.key.bucket, slot.value);
      SlotIs(from, step, points, x.key.bucket, slot.value);
    }
  }

  /** A point without a row in the answer stays NaN. */
  lemma PutLeaves(series: Points, from: int, points: nat, step: int, y: Counted<Cell>, severity: int, i: nat)
    requires step > 0 && y.key.bucket % step == 0 && i < points && Cell(severity, StepAt(from, step, i)) != y.key
    requires forall s :: s in series ==> |series[s]| == points
    requires severity in series ==> series[severity][i] == None
    ensures var next := Put(series, from, points, step, y); severity in next ==> |next[severity]| == points && next[severity][i] == None
  {
    SlotIs(from, step, points, y.key.bucket, i);
  }

  lemma FilledNext(series: Points, from: int, points: nat, step: int, answer: seq<Counted<Cell>>, n: nat)
    requires step > 0 && n < |answer| && Filled(series, from, points, step, answer[..n])
    requires forall i, j :: 0 <= i < j < |answer| ==> answer[i].key != answer[j].key
    requires forall x :: x in answer ==> x.key.bucket % step == 0
    ensures Filled(Put(series, from, points, step, answer[n]), from, points, step, answer[..n + 1])
  {
    var y, rows := answer[n], answer[..n];
    var next := Put(series, from, points, step, y);
    assert answer[..n + 1] == rows + [y];
    KeysMore(answer, n);
    forall x | x in rows ensures x.key.severity in next && SetAt(next[x.key.severity], from, step, x) {
      var m :| 0 <= m < n && answer[m] == x;
      assert answer[m].key != answer[n].key;
      PutKeeps(series, from, points, step, x, y);
    }
    forall severity, i | severity in next && 0 <= i < points && Cell(severity, StepAt(from, step, i)) !in Keys(answer[..n + 1])
      ensures |next[severity]| == points && next[severity][i] == None
    {
      PutLeaves(series, from, points, step, y, severity, i);
    }
  }

  ghost function DataOf(series: map<int, TimeSeries>): Points
    reads series.Values
  {
    map severity | severity in series :: series[severity].data
  }

  /** A row of the answer is set in the series of its severity, made when it is the first. */
  method SetRow(bySeverity: map<int, TimeSeries>, from: int, points: nat, step: int, x: Counted<Cell>)
    returns (series: map<int, TimeSeries>)
    requires step > 0 && Made(bySeverity, from, points, step)
    modifies bySeverity.Values
    ensures Made(series, from, points, step)
    ensures fresh(series.Values - bySeverity.Values)
    ensures DataOf(series) == Put(old(DataOf(bySeverity)), from, points, step, x)
  {
    ghost var before := DataOf(bySeverity);
    var severity := x.key.severity;
    series := bySeverity;
    if severity !in series {
      var ts := new TimeSeries(from, points, step);
      series := series[severity := ts];
    }
    series[severity].Set(x.key.bucket, x.count);
    forall s | s in series ensures series[s].data == Put(before, from, points, step, x)[s] {
      assert s != severity ==> s in bySeverity && series[s] == bySeverity[s];
    }
    assert DataOf(series) == Put(before, from, points, step, x);
  }

  /** The series of each severity, from the rows of the answer; a bucket with no point is dropped. */
  method ReadHistogram(from: int, points: nat, step: int, answer: seq<Counted<Cell>>) returns (res: Points)
    requires step > 0
    requires forall i, j :: 0 <= i < j < |answer| ==> answer[i].key != answer[j].key
    requires forall x :: x in answer ==> x.key.bucket % step == 0
    ensures Filled(res, from, points, step, answer)
  {
    var bySeverity: map<int, TimeSeries> := map[];
    ghost var filled: Points := map[];
    for n := 0 to |answer|
      invariant Made(bySeverity, from, points, step) && fresh(bySeverity.Values) && DataOf(bySeverity) == filled
      invariant Filled(filled, from, points, step, answer[..n])
    {
      FilledNext(filled, from, points, step, answer, n);
      filled := Put(filled, from, points, step, answer[n]);
      bySeverity := SetRow(bySeverity, from, points, step, answer[n]);
    }
    assert answer[..|answer|] == answer;
    res := map severity | severity in bySeverity :: bySeverity[severity].data;
  }

  /** What the table that answers has of a group. */
  ghost function TableCount(env: Env, q: LogQuery, rollup: bool, raw: seq<LogRow>, rolled: seq<Counted<LogKey>>, cell: Cell): nat
    requires q.step > 0
  {
    if rollup then RollupCount(env, q, None, Cells(q.step), cell, rolled) else RawCount(env, q, None, Cells(q.step), cell, raw)
  }

  /** The rows counted at point i of a severity. */
  function CellAt(q: LogQuery, severity: int, i: int): Cell
    requires q.step > 0
  {
    Cell(severity, StepAt(q.from, q.step, i))
  }

  lemma ListedPoint(q: LogQuery, answer: seq<Counted<Cell>>, series: Points, points: nat, severity: int, i: nat, x: Counted<Cell>)
    requires q.step > 0 && i < points && Filled(series, q.from, points, q.step, answer)
    requires x in answer && x.key == CellAt(q, severity, i) && x.count > 0 && x.key.bucket % q.step == 0
    ensures PointOf(series, severity, i) == Shown(x.count)
  {
    SlotIs(q.from, q.step, points, x.key.bucket, i);
    assert x.key.severity in series;
    assert SetAt(series[severity], q.from, q.step, x);
  }

  lemma PointIs(env: Env, q: LogQuery, where: seq<Cond>, rollup: bool, raw: seq<LogRow>, rolled: seq<Counted<LogKey>>,
                answer: seq<Counted<Cell>>, series: Points, points: nat, severity: int, i: nat)
    requires q.step > 0 && i < points && Filled(series, q.from, points, q.step, answer)
    requires forall view | OfTable(view, rollup) :: HoldsAll(env, where, view) == Asked(env, q, None, view)
    requires Answers(env, where, rollup, Cells(q.step), raw, rolled, answer)
    requires forall x :: x in answer ==> x.count > 0 && x.key.bucket % q.step == 0
    ensures PointOf(series, severity, i) == Shown(TableCount(env, q, rollup, raw, rolled, CellAt(q, severity, i)))
  {
    var cell := CellAt(q, severity, i);
    if cell in Keys(answer) {
      var x :| x in answer && x.key == cell;
      ListedPoint(q, answer, series, points, severity, i, x);
      OnlyOneOf(answer, x);
      ReadIs(env, q, None, where, rollup, Cells(q.step), raw, rolled, answer, cell, x.count);
    } else {
      ReadIs(env, q, None, where, rollup, Cells(q.step), raw, rolled, answer, cell, 0);
    }
  }

  lemma OnlyOneOf<G>(answer: seq<Counted<G>>, x: Counted<G>)
    requires (forall i, j :: 0 <= i < j < |answer| ==> answer[i].key != answer[j].key) && x in answer
    ensures forall y :: y in answer && y.key == x.key ==> y == x
  {
  }

  /** Whichever table answers, point i of a severity shows how many rows of the table are asked for, of
      its class and of the one step that starts between the times of the points i and i + 1. */
  method GetLogsHistogram(env: Env, q: LogQuery, ask: (seq<Cond>, bool) -> seq<Counted<Cell>>,
                          ghost raw: seq<LogRow>, ghost rolled: seq<Counted<LogKey>>)
    returns (series: Points)
    requires q.step > 0 && (q.from <= q.to || q.since == ZERO_TIME) && Asking(env, Cells(q.step), raw, rolled, ask)
    ensures forall severity, i | 0 <= i < PointsCount(q.from, q.to, q.step) ::
              PointOf(series, severity, i) ==
              Shown(TableCount(env, q, HistogramFromRollup(env, q), raw, rolled, CellAt(q, severity, i)))
    ensures forall severity | severity in series :: |series[severity]| == Max(0, PointsCount(q.from, q.to, q.step))
  {
    var where, ok := BuildFilters(env, q, None, true);
    var rollup := ok && q.step >= 60 && q.step % 60 == 0;
    if !rollup {
      where, ok := BuildFilters(env, q, None, false);
    }
    var answer := ask(where, rollup);
    AnswerBuckets(env, where, rollup, q.step, raw, rolled, answer);
    var points := Max(0, PointsCount(q.from, q.to, q.step)); // no row is asked for of a range of less than none
    series := ReadHistogram(q.from, points, q.step, answer);
    forall severity, i | 0 <= i < PointsCount(q.from, q.to, q.step)
      ensures PointOf(series, severity, i) == Shown(TableCount(env, q, rollup, raw, rolled, CellAt(q, severity, i)))
    {
      PointIs(env, q, where, rollup, raw, rolled, answer, series, points, severity, i);
    }
  }

  // ----- what the series leave out -----

  /** The row is counted at some point. */
  predicate AtSomePoint(q: LogQuery, row: LogRow)
    requires q.step > 0 && q.from <= q.to
  {
    IsShown(q.from, q.to, q.step, row.timestamp / SECOND)
  }

  /** Which point that is. */
  lemma AtPointIff(q: LogQuery, row: LogRow, i: nat)
    requires q.step > 0 && q.from <= q.to && i < PointsCount(q.from, q.to, q.step)
    ensures CellOf(q.step, Raw(row)) == CellAt(q, SeverityClass(row.severity), i)
       <==> Slot(q.from, q.step, PointsCount(q.from, q.to, q.step), StepOf(row.timestamp, q.step)) == Some(i)
  {
    FloorBounds(row.timestamp / SECOND, q.step);
    SlotIs(q.from, q.step, PointsCount(q.from, q.to, q.step), StepOf(row.timestamp, q.step), i);
  }

  /** Whatever rows there are before the end of the range are all at points exactly when the range
      starts and ends with a step. */
  lemma NothingDroppedIffAligned(q: LogQuery)
    requires q.step > 0 && q.from < q.to
    ensures (forall row: LogRow | q.from * SECOND <= row.timestamp < q.to * SECOND :: AtSomePoint(q, row))
       <==> q.from % q.step == 0 && q.to % q.step == 0
  {
    AllShownIffAligned(q.from, q.to, q.step);
    if forall row: LogRow | q.from * SECOND <= row.timestamp < q.to * SECOND :: AtSomePoint(q, row) {
      forall t | q.from <= t < q.to ensures IsShown(q.from, q.to, q.step, t) {
        var row := StampedAt(t);
        assert row.timestamp / SECOND == t;
        assert AtSomePoint(q, row);
      }
    }
  }

  function StampedAt(t: int): LogRow {
    LogRow(t * SECOND, "/k8s/ns/app", "ns", "app", 9, "", "", map[], map[])
  }

  /** A query without filters asks for all rows of its range. */
  lemma PlainQueryAsks(env: Env, q: LogQuery, row: LogRow)
    requires q.filters == [] && q.services == [] && q.source == "" && q.since == ZERO_TIME
    ensures Asked(env, q, None, Raw(row)) == (q.from * SECOND <= row.timestamp <= q.to * SECOND)
  {
    assert Elements(q.filters) == {};
  }

  /** It happens: the range starts in the middle of a step, and a row a minute later has no point. */
  lemma UnalignedStartDrops(env: Env)
    ensures var q, row := LogQuery(120, 1020, 300, "", [], [], ZERO_TIME), StampedAt(180);
            Asked(env, q, None, Raw(row)) && !AtSomePoint(q, row)
  {
    var q, row := LogQuery(120, 1020, 300, "", [], [], ZERO_TIME), StampedAt(180);
    PlainQueryAsks(env, q, row);
    assert row.timestamp / SECOND == 180;
    ShownIff(120, 1020, 300, 180);
  }

  // ----- the series of the two tables -----

  /** The end of the range, which the raw table counts and the rollup does not, is at a point. */
  predicate EndIsShown(q: LogQuery)
    requires q.step > 0 && q.from <= q.to
  {
    IsShown(q.from, q.to, q.step, q.to)
  }

  ghost predicate SameSeries(env: Env, q: LogQuery, raw: seq<LogRow>, rolled: seq<Counted<LogKey>>)
    requires q.step > 0
  {
    forall severity, i | 0 <= i < PointsCount(q.from, q.to, q.step) ::
      TableCount(env, q, true, raw, rolled, CellAt(q, severity, i)) == TableCount(env, q, false, raw, rolled, CellAt(q, severity, i))
  }

  lemma CellsFactor(step: int)
    requires step > 0 && step % 60 == 0
    ensures Factors(Cells(step))
  {
    forall row: LogRow ensures Cells(step)(Raw(row)) == Cells(step)(Rolled(KeyOf(row))) {
      CellFactors(step, row);
    }
  }

  /** The two tables give the same series exactly when the end of the range is at no point, or no asked
      row has the very end as its time. */
  lemma SameSeriesIff(env: Env, q: LogQuery, raw: seq<LogRow>, rolled: seq<Counted<LogKey>>)
    requires q.step > 0 && q.from <= q.to && HistogramFromRollup(env, q) && Represents(KeyOf, raw, rolled)
    ensures SameSeries(env, q, raw, rolled)
       <==> !EndIsShown(q) || forall row :: row in raw && Asked(env, q, None, Raw(row)) ==> !AtEnd(q, row)
  {
    CellsFactor(q.step);
    forall cell ensures TableCount(env, q, false, raw, rolled, cell) ==
                        TableCount(env, q, true, raw, rolled, cell) + EndCount(env, q, None, Cells(q.step), cell, raw)
    {
      RollupAgrees(env, q, None, Cells(q.step), cell, raw, rolled);
    }
    forall row | row in raw && Asked(env, q, None, Raw(row)) && AtEnd(q, row) && EndIsShown(q) ensures !SameSeries(env, q, raw, rolled) {
      EndRowIsCounted(env, q, raw, row);
    }
    forall severity, i | 0 <= i < PointsCount(q.from, q.to, q.step)
                         && (!EndIsShown(q) || forall row :: row in raw && Asked(env, q, None, Raw(row)) ==> !AtEnd(q, row))
      ensures EndCount(env, q, None, Cells(q.step), CellAt(q, severity, i), raw) == 0
    {
      NoEndRows(env, q, raw, severity, i);
    }
  }

  lemma EndRowIsCounted(env: Env, q: LogQuery, raw: seq<LogRow>, row: LogRow)
    requires q.step > 0 && q.from <= q.to && row in raw && Asked(env, q, None, Raw(row)) && AtEnd(q, row) && EndIsShown(q)
    ensures exists i :: 0 <= i < PointsCount(q.from, q.to, q.step)
                        && EndCount(env, q, None, Cells(q.step), CellAt(q, SeverityClass(row.severity), i), raw) != 0
  {
    assert row.timestamp / SECOND == q.to;
    var i := Slot(q.from, q.step, PointsCount(q.from, q.to, q.step), StepOf(row.timestamp, q.step)).value;
    AtPointIff(q, row, i);
    var cell := CellAt(q, SeverityClass(row.severity), i);
    EndCountZero(env, q, None, Cells(q.step), cell, raw);
    assert EndCount(env, q, None, Cells(q.step), cell, raw) != 0;
  }

  lemma NoEndRows(env: Env, q: LogQuery, raw: seq<LogRow>, severity: int, i: int)
    requires q.step > 0 && q.from <= q.to && 0 <= i < PointsCount(q.from, q.to, q.step)
    requires !EndIsShown(q) || forall row :: row in raw && Asked(env, q, None, Raw(row)) ==> !AtEnd(q, row)
    ensures EndCount(env, q, None, Cells(q.step), CellAt(q, severity, i), raw) == 0
  {
    var cell := CellAt(q, severity, i);
    forall row | row in raw && Asked(env, q, None, Raw(row)) && AtEnd(q, row) ensures Cells(q.step)(Raw(row)) != cell {
      assert row.timestamp / SECOND == q.to;
      AtPointIff(q, row, i);
    }
    EndCountZero(env, q, None, Cells(q.step), cell, raw);
  }

  /** A range that starts and ends with a step has the same series from either table, whatever rows
      there are. */
  lemma AlignedSeriesAreTheSame(env: Env, q: LogQuery, raw: seq<LogRow>, rolled: seq<Counted<LogKey>>)
    requires q.step > 0 && q.from <= q.to && HistogramFromRollup(env, q) && Represents(KeyOf, raw, rolled)
    requires q.from % q.step == 0 && q.to % q.step == 0
    ensures SameSeries(env, q, raw, rolled)
  {
    EndOfAligned(q.from, q.to, q.step);
    SameSeriesIff(env, q, raw, rolled);
  }

  /** It happens: a row whose time is the very end is counted from the raw table, not from the rollup;
      here the end is at a point, as the range starts in the middle of a step. */
  lemma EndRowIsMissed(env: Env, row: LogRow)
    requires row == StampedAt(1140)
    ensures var q, rolled := LogQuery(240, 1140, 300, "", [], [], ZERO_TIME), [Counted(KeyOf(row), 1)];
            && HistogramFromRollup(env, q) && Represents(KeyOf, [row], rolled)
            && Asked(env, q, None, Raw(row)) && AtEnd(q, row) && EndIsShown(q) && !SameSeries(env, q, [row], rolled)
  {
    var q, rolled := LogQuery(240, 1140, 300, "", [], [], ZERO_TIME), [Counted(KeyOf(row), 1)];
    PlainQueryAsks(env, q, row);
    RepresentsOne(row);
    ShownIff(240, 1140, 300, 1140);
    SameSeriesIff(env, q, [row], rolled);
    assert row in [row];
  }

  lemma RepresentsOne(row: LogRow)
    ensures Represents(KeyOf, [row], [Counted(KeyOf(row), 1)])
  {
    forall p: LogKey -> bool ensures Sum([Counted(KeyOf(row), 1)], p) == Count([row], Through(KeyOf, p)) {
      assert [row][..0] == [] && [Counted(KeyOf(row), 1)][..0] == [];
    }
  }
}

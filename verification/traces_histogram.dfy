/** clickhouse/traces.go: the two charts of the Traces page, by either of two tables.

    Each chart point counts the matching spans of its bucket, whichever table answers; the histogram
    adds the matching spans of the rest of the minute the window ends in, and nothing else. */
module TracesHistogram {
  import opened Prelude
  import opened SpanFilters
  import opened Rollups
  import opened TimeSeriesPackage
  import opened TracesWindows

  datatype SpanQuery = SpanQuery(filters: seq<SpanFilter>, excludePeerAddrs: seq<string>)

  // ----- root spans -----

  /** One span per request: root, the one counted, not from an excluded address, and as the filters ask. */
  predicate Matches(env: Env, q: SpanQuery, skip: Option<Field>, view: View) {
    && FiltersMean(env, q.filters, skip, view)
    && HoldsAtom(env, Root, view) && HoldsAtom(env, CountedOne, view)
    && (q.excludePeerAddrs != [] ==> Text(env, NetSockPeerAddr, view) !in q.excludePeerAddrs)
  }

  /** Said of the row: it has no parent, the collector marked it as counted, and its peer is not excluded. */
  lemma MatchesRow(env: Env, q: SpanQuery, skip: Option<Field>, row: SpanRow)
    ensures Matches(env, q, skip, Raw(row)) <==>
              && row.parentSpanId == "" && row.counted == 1
              && (q.excludePeerAddrs != [] ==> Attr(row.spanAttrs, "net.sock.peer.addr") !in q.excludePeerAddrs)
              && FiltersMean(env, q.filters, skip, Raw(row))
  {
  }

  /** A span of a point of the chart by status: when it started, and its class. */
  lemma PointOfStatus(env: Env, q: SpanQuery, w: Window, row: SpanRow, v: string, i: int)
    requires w.step > 0 && w.from % w.step == 0
    ensures Counts(env, q, w, false, row) && StatusText(ByStatus(env)(row)) == v && InPoint(w, i, row) <==>
              && Matches(env, q, None, Raw(row)) && HasStatus(HttpStatus(env, row), row.failed, v)
              && (w.from + i * w.step) * SECOND <= row.timestamp < (w.from + (i + 1) * w.step) * SECOND
              && w.from * SECOND <= row.timestamp < w.to * SECOND
  {
    StatusIs(env, row, v);
    StartOfStep(w.from, w.step, row.timestamp, i);
  }

  /** An instant is in the step that starts at a multiple of it when it is not before that and before the next. */
  lemma StartOfStep(from: int, step: int, t: int, i: int)
    requires step > 0 && from % step == 0
    ensures StepOf(t, step) == from + i * step <==> (from + i * step) * SECOND <= t < (from + (i + 1) * step) * SECOND
  {
    var seconds := t / SECOND;
    QuotientIff(seconds - from, step, i);
    FloorIs(seconds, step, seconds / step, seconds % step);
    assert from == step * (from / step);
    assert seconds - from == step * (seconds / step - from / step) + seconds % step;
    FloorIs(seconds - from, step, seconds / step - from / step, seconds % step);
    assert (i + 1) * step == i * step + step;
  }

  method RootSpansFilter(env: Env, q: SpanQuery, skip: Option<Field>) returns (where: seq<Cond>)
    ensures forall view :: HoldsAll(env, where, view) == Matches(env, q, skip, view)
  {
    var filters := Filter(env, q.filters, skip);
    where := filters + [One(Test(Root, false)), One(Test(CountedOne, false))];
    if |q.excludePeerAddrs| > 0 {
      where := where + [One(Test(PeerIn(q.excludePeerAddrs), true))];
    }
    forall view ensures HoldsAll(env, where, view) == Matches(env, q, skip, view) {
      var rest := where[|filters|..];
      assert where == filters + rest;
      HoldsConcat(env, filters, rest, view);
      assert rest[0] == One(Test(Root, false)) && rest[1] == One(Test(CountedOne, false));
      assert q.excludePeerAddrs != [] ==> rest[2] == One(Test(PeerIn(q.excludePeerAddrs), true));
      assert HoldsAll(env, rest, view) == forall i :: 0 <= i < |rest| ==> Holds(env, rest[i], view);
    }
  }

  method FiltersOnHistogramDimensions(q: SpanQuery) returns (ok: bool)
    ensures ok <==> forall f :: f in q.filters ==> OnDimension(f.field)
  {
    for i := 0 to |q.filters|
      invariant forall f :: f in q.filters[..i] ==> OnDimension(f.field)
    {
      if !OnDimension(q.filters[i].field) {
        return false;
      }
    }
    assert q.filters[..|q.filters|] == q.filters;
    return true;
  }

  /** Whether the histogram answers: it has the fields, and was there before the window (createdAt is
      in nanoseconds, the zero time if it does not exist). */
  predicate FromHistogram(q: SpanQuery, w: Window, createdAt: int) {
    && MinuteAligned(w)
    && (forall f :: f in q.filters ==> OnDimension(f.field))
    && createdAt != ZERO_TIME && w.from * SECOND > createdAt
  }

  lemma MatchesFactors(env: Env, q: SpanQuery, skip: Option<Field>, row: SpanRow)
    requires forall f :: f in q.filters ==> OnDimension(f.field)
    ensures Matches(env, q, skip, Raw(row)) == Matches(env, q, skip, Minutely(KeyOf(env, row)))
  {
    FiltersFactor(env, q.filters, skip, row);
  }

  // ----- the points of the charts -----

  /** What the query groups by: the start of the bucket, in seconds, the status class and the duration bucket. */
  datatype Cell = Cell(start: int, status: StatusClass, duration: int)

  function CellOf(env: Env, step: int, view: View): Cell
    requires step > 0
  {
    match view
    case Raw(r) => Cell(StepOf(r.timestamp, step), StatusOf(env, r), RoundDown(r.duration, BUCKETS))
    case Minutely(k) => Cell(FloorTo(k.minute, step), k.status, k.bucket)
  }

  lemma CellFactors(env: Env, step: int, row: SpanRow)
    requires step > 0 && step % 60 == 0
    ensures CellOf(env, step, Raw(row)) == CellOf(env, step, Minutely(KeyOf(env, row)))
  {
    StepOfMinute(row.timestamp, step);
  }

  /** The time condition of the table that answers. */
  predicate InWindow(w: Window, histogram: bool, row: SpanRow) {
    if histogram then w.from <= MinuteOf(row.timestamp) < w.to
    else w.from * SECOND <= row.timestamp < w.to * SECOND
  }

  /** A span after the end of the window, in the minute the window ends in. */
  predicate Overhangs(w: Window, row: SpanRow) {
    w.from <= MinuteOf(row.timestamp) < w.to && w.to * SECOND <= row.timestamp
  }

  predicate Counts(env: Env, q: SpanQuery, w: Window, histogram: bool, row: SpanRow) {
    Matches(env, q, None, Raw(row)) && InWindow(w, histogram, row)
  }

  predicate InPoint(w: Window, i: int, row: SpanRow)
    requires w.step > 0
  {
    StepOf(row.timestamp, w.step) == w.from + i * w.step
  }

  /** The spans of a point of a chart, of the given key. */
  function PointCount<K(==)>(env: Env, q: SpanQuery, w: Window, histogram: bool, raw: seq<SpanRow>, key: SpanRow -> K, k: K, i: int): nat
    requires w.step > 0
  {
    Count(raw, row => Counts(env, q, w, histogram, row) && key(row) == k && InPoint(w, i, row))
  }

  function ByStatus(env: Env): SpanRow -> StatusClass {
    row => StatusOf(env, row)
  }

  function ByDuration(): SpanRow -> int {
    (row: SpanRow) => RoundDown(row.duration, BUCKETS)
  }

  // ----- what ClickHouse answers -----

  function Cells(env: Env, step: int): View -> Cell
    requires step > 0
  {
    view => CellOf(env, step, view)
  }

  function Key(env: Env): SpanRow -> HistKey {
    row => KeyOf(env, row)
  }

  /** The counts of the rows of a table that satisfy the WHERE, by cell. */
  ghost predicate Answers(env: Env, where: seq<Cond>, histogram: bool, cells: View -> Cell,
                          raw: seq<SpanRow>, rolled: seq<Counted<HistKey>>, answer: seq<Counted<Cell>>) {
    if histogram then IsSumBy(rolled, key => HoldsAll(env, where, Minutely(key)), key => cells(Minutely(key)), answer)
    else IsCountBy(raw, row => HoldsAll(env, where, Raw(row)), row => cells(Raw(row)), answer)
  }

  /** A span is counted through its key in the histogram. */
  lemma CountedByKey(env: Env, q: SpanQuery, w: Window, where: seq<Cond>, p: Cell -> bool, row: SpanRow)
    requires w.step > 0 && MinuteAligned(w) && (forall f :: f in q.filters ==> OnDimension(f.field))
    requires HoldsAll(env, where, Minutely(KeyOf(env, row))) ==
             (Matches(env, q, None, Minutely(KeyOf(env, row))) && HoldsAtom(env, Within(w.from, w.to), Minutely(KeyOf(env, row))))
    ensures (HoldsAll(env, where, Minutely(KeyOf(env, row))) && p(CellOf(env, w.step, Minutely(KeyOf(env, row)))))
            == (Counts(env, q, w, true, row) && p(CellOf(env, w.step, Raw(row))))
  {
    MatchesFactors(env, q, None, row);
    CellFactors(env, w.step, row);
  }

  lemma HistogramCounts(env: Env, q: SpanQuery, w: Window, where: seq<Cond>, createdAt: int,
                        before: seq<SpanRow>, after: seq<SpanRow>, rolled: seq<Counted<HistKey>>, answer: seq<Counted<Cell>>,
                        p: Cell -> bool, both: SpanRow -> bool)
    requires w.step > 0 && (forall view :: HoldsAll(env, where, view) == (Matches(env, q, None, view) && HoldsAtom(env, Within(w.from, w.to), view)))
    requires FromHistogram(q, w, createdAt) && Feeds(env, createdAt, before, after, rolled)
    requires Answers(env, where, true, Cells(env, w.step), before + after, rolled, answer)
    requires forall row :: both(row) == (Counts(env, q, w, true, row) && p(CellOf(env, w.step, Raw(row))))
    ensures Sum(answer, p) == Count(before + after, both)
  {
    var asked := (key: HistKey) => HoldsAll(env, where, Minutely(key)) && p(CellOf(env, w.step, Minutely(key)));
    SumByCounts(rolled, key => HoldsAll(env, where, Minutely(key)), key => Cells(env, w.step)(Minutely(key)), answer, p, asked);
    assert Sum(rolled, asked) == Count(after, Through(Key(env), asked));
    forall row: SpanRow ensures Through(Key(env), asked)(row) == both(row) {
      CountedByKey(env, q, w, where, p, row);
    }
    CountSame(after, Through(Key(env), asked), both);
    BeforeWindow(env, q, w, createdAt, before, both);
    CountConcat(before, after, both);
  }

  lemma {:induction false} BeforeWindow(env: Env, q: SpanQuery, w: Window, createdAt: int, before: seq<SpanRow>, both: SpanRow -> bool)
    requires w.from * SECOND > createdAt && forall row :: row in before ==> row.timestamp <= createdAt
    requires forall row :: both(row) ==> Counts(env, q, w, true, row)
    ensures Count(before, both) == 0
  {
    CountZero(before, both);
  }

  /** The answer counts, over any cells, the spans that match and are in the window of its table. */
  lemma {:induction false} AnswerCounts(env: Env, q: SpanQuery, w: Window, where: seq<Cond>, histogram: bool, createdAt: int,
                     before: seq<SpanRow>, after: seq<SpanRow>, rolled: seq<Counted<HistKey>>, answer: seq<Counted<Cell>>,
                     p: Cell -> bool, both: SpanRow -> bool)
    requires w.step > 0 && (forall view :: HoldsAll(env, where, view) == (Matches(env, q, None, view) && HoldsAtom(env, Within(w.from, w.to), view)))
    requires histogram ==> FromHistogram(q, w, createdAt) && Feeds(env, createdAt, before, after, rolled)
    requires Answers(env, where, histogram, Cells(env, w.step), before + after, rolled, answer)
    requires forall row :: both(row) == (Counts(env, q, w, histogram, row) && p(CellOf(env, w.step, Raw(row))))
    ensures Sum(answer, p) == Count(before + after, both)
  {
    if histogram {
      HistogramCounts(env, q, w, where, createdAt, before, after, rolled, answer, p, both);
    } else {
      CountByCounts(before + after, row => HoldsAll(env, where, Raw(row)), row => Cells(env, w.step)(Raw(row)), answer, p, both);
    }
  }

  /** The histogram counts the spans inserted since its view was created; those from before are no
      younger than it. */
  ghost predicate Feeds(env: Env, createdAt: int, before: seq<SpanRow>, after: seq<SpanRow>, rolled: seq<Counted<HistKey>>) {
    && (forall row :: row in before ==> row.timestamp <= createdAt)
    && Represents(Key(env), after, rolled)
  }

  /** A row of the answer is counted at the point of its bucket. */
  lemma PointOfRow(w: Window, histogram: bool, row: SpanRow, i: int)
    requires w.step > 0 && w.from % w.step == 0 && InWindow(w, histogram, row) && (histogram ==> MinuteAligned(w))
    ensures InPoint(w, i, row) <==> Index(w, StepOf(row.timestamp, w.step)) == i
    ensures 0 <= Index(w, StepOf(row.timestamp, w.step)) < Points(w)
  {
    if histogram {
      StepOfMinute(row.timestamp, w.step);
      OnePoint(w, MinuteOf(row.timestamp), i);
    } else {
      OnePoint(w, row.timestamp / SECOND, i);
    }
  }

  lemma OnePoint(w: Window, t: int, i: int)
    requires w.step > 0 && w.from % w.step == 0 && w.from <= t < w.to
    ensures FloorTo(t, w.step) == w.from + i * w.step <==> Index(w, FloorTo(t, w.step)) == i
    ensures 0 <= Index(w, FloorTo(t, w.step)) < Points(w)
  {
    ExactlyOneBucket(w, t);
    var index := Index(w, FloorTo(t, w.step));
    MulBounds(w.step, i - index);
    assert w.step * (i - index) == i * w.step - index * w.step;
  }

  // ----- the points -----

  /** A chart: of each key a value for each point, or NaN (None) where nothing is counted. */
  type Chart<!K> = map<K, seq<Option<nat>>>

  function PointOf<K>(chart: Chart<K>, k: K, i: int): Option<nat> {
    if k in chart && 0 <= i < |chart[k]| then chart[k][i] else None
  }

  function Value(point: Option<nat>): nat {
    if point.None? then 0 else point.value
  }

  method AddCount<K(==)>(counts: Chart<K>, key: K, points: nat, index: nat, count: nat) returns (r: Chart<K>)
    requires index < points && forall k :: k in counts ==> |counts[k]| == points
    ensures forall k :: k in r ==> |r[k]| == points
    ensures forall k, i :: PointOf(r, k, i) ==
                           if k == key && i == index then Some(Value(PointOf(counts, k, i)) + count) else PointOf(counts, k, i)
  {
    var data := if key in counts then counts[key] else seq(points, i => None);
    if data[index].None? {
      data := data[index := Some(0)];
    }
    data := data[index := Some(data[index].value + count)];
    r := counts[key := data];
  }

  /** A chart so far: each point the sum of the rows of its key and bucket, NaN if there are none. */
  ghost predicate Plots<K(!new)>(w: Window, key: Cell -> K, rows: seq<Counted<Cell>>, chart: Chart<K>)
    requires w.step > 0
  {
    && (forall k :: k in chart ==> |chart[k]| == Max(0, Points(w)))
    && forall k, i | 0 <= i < Points(w) ::
         && Value(PointOf(chart, k, i)) == Sum(rows, cell => key(cell) == k && Index(w, cell.start) == i)
         && (PointOf(chart, k, i).None? <==> forall x :: x in rows ==> !(key(x.key) == k && Index(w, x.key.start) == i))
  }

  lemma PlotsNext<K(!new)>(w: Window, key: Cell -> K, rows: seq<Counted<Cell>>, x: Counted<Cell>, chart: Chart<K>, next: Chart<K>)
    requires w.step > 0 && Plots(w, key, rows, chart)
    requires forall k :: k in next ==> |next[k]| == Max(0, Points(w))
    requires forall k, i | 0 <= i < Points(w) :: PointOf(next, k, i) ==
               if k == key(x.key) && i == Index(w, x.key.start) then Some(Value(PointOf(chart, k, i)) + x.count) else PointOf(chart, k, i)
    ensures Plots(w, key, rows + [x], next)
  {
    forall k, i | 0 <= i < Points(w)
      ensures Value(PointOf(next, k, i)) == Sum(rows + [x], cell => key(cell) == k && Index(w, cell.start) == i)
      ensures PointOf(next, k, i).None? <==> forall y :: y in rows + [x] ==> !(key(y.key) == k && Index(w, y.key.start) == i)
    {
      assert (rows + [x])[..|rows|] == rows;
      assert forall y :: y in rows + [x] <==> y in rows || y == x;
    }
  }

  method ReadCounts(w: Window, answer: seq<Counted<Cell>>)
    returns (byStatus: Chart<StatusClass>, byDuration: Chart<int>)
    requires w.step > 0
    ensures Plots(w, (cell: Cell) => cell.status, answer, byStatus) && Plots(w, (cell: Cell) => cell.duration, answer, byDuration)
  {
    byStatus, byDuration := map[], map[];
    for n := 0 to |answer|
      invariant Plots(w, (cell: Cell) => cell.status, answer[..n], byStatus)
      invariant Plots(w, (cell: Cell) => cell.duration, answer[..n], byDuration)
    {
      var x := answer[n];
      ghost var statusBefore, durationBefore := byStatus, byDuration;
      var index := Index(w, x.key.start);
      if 0 <= index < Points(w) {
        byStatus := AddCount(byStatus, x.key.status, Points(w), index, x.count);
        byDuration := AddCount(byDuration, x.key.duration, Points(w), index, x.count);
      }
      assert answer[..n + 1] == answer[..n] + [x];
      PlotsNext(w, (cell: Cell) => cell.status, answer[..n], x, statusBefore, byStatus);
      PlotsNext(w, (cell: Cell) => cell.duration, answer[..n], x, durationBefore, byDuration);
    }
    assert answer[..|answer|] == answer;
  }

  lemma AnswerIsPositive(env: Env, where: seq<Cond>, histogram: bool, cells: View -> Cell,
                         raw: seq<SpanRow>, rolled: seq<Counted<HistKey>>, answer: seq<Counted<Cell>>)
    requires Answers(env, where, histogram, cells, raw, rolled, answer)
    ensures Positive(answer)
  {
  }

  lemma PointShows<K(!new)>(env: Env, q: SpanQuery, w: Window, where: seq<Cond>, histogram: bool, createdAt: int,
                            before: seq<SpanRow>, after: seq<SpanRow>, rolled: seq<Counted<HistKey>>, answer: seq<Counted<Cell>>,
                            cellKey: Cell -> K, key: SpanRow -> K, chart: Chart<K>, k: K, i: int)
    requires w.step > 0 && w.from % w.step == 0 && 0 <= i < Points(w)
    requires forall view :: HoldsAll(env, where, view) == (Matches(env, q, None, view) && HoldsAtom(env, Within(w.from, w.to), view))
    requires histogram ==> FromHistogram(q, w, createdAt) && Feeds(env, createdAt, before, after, rolled)
    requires Answers(env, where, histogram, Cells(env, w.step), before + after, rolled, answer)
    requires Plots(w, cellKey, answer, chart) && forall row :: key(row) == cellKey(CellOf(env, w.step, Raw(row)))
    ensures PointOf(chart, k, i) == Shown(PointCount(env, q, w, histogram, before + after, key, k, i))
  {
    var p := (cell: Cell) => cellKey(cell) == k && Index(w, cell.start) == i;
    var both := (row: SpanRow) => Counts(env, q, w, histogram, row) && key(row) == k && InPoint(w, i, row);
    forall row ensures both(row) == (Counts(env, q, w, histogram, row) && p(CellOf(env, w.step, Raw(row)))) {
      if Counts(env, q, w, histogram, row) {
        PointOfRow(w, histogram, row, i);
      }
    }
    AnswerCounts(env, q, w, where, histogram, createdAt, before, after, rolled, answer, p, both);
    AnswerIsPositive(env, where, histogram, Cells(env, w.step), before + after, rolled, answer);
    SumZero(answer, p);
  }

  /** Whichever table answers, every point of both charts is the number of matching spans of its bucket
      that the table has in the window. */
  method GetRootSpansCounts(env: Env, q: SpanQuery, w: Window, createdAt: int, ask: (seq<Cond>, bool) -> seq<Counted<Cell>>,
                            ghost before: seq<SpanRow>, ghost after: seq<SpanRow>, ghost rolled: seq<Counted<HistKey>>)
    returns (byStatus: Chart<StatusClass>, byDuration: Chart<int>)
    requires w.step > 0 && w.from % w.step == 0
    requires createdAt != ZERO_TIME ==> Feeds(env, createdAt, before, after, rolled)
    requires forall where: seq<Cond>, histogram: bool ::
               Answers(env, where, histogram, Cells(env, w.step), before + after, rolled, ask(where, histogram))
    ensures forall status, i | 0 <= i < Points(w) :: PointOf(byStatus, status, i) ==
              Shown(PointCount(env, q, w, FromHistogram(q, w, createdAt), before + after, ByStatus(env), status, i))
    ensures forall duration, i | 0 <= i < Points(w) :: PointOf(byDuration, duration, i) ==
              Shown(PointCount(env, q, w, FromHistogram(q, w, createdAt), before + after, ByDuration(), duration, i))
  {
    var onDimensions := FiltersOnHistogramDimensions(q);
    var histogram := MinuteAligned(w) && onDimensions && createdAt != ZERO_TIME && w.from * SECOND > createdAt;
    var filters := RootSpansFilter(env, q, None);
    var where := filters + [One(Test(Within(w.from, w.to), false))];
    forall view ensures HoldsAll(env, where, view) == (Matches(env, q, None, view) && HoldsAtom(env, Within(w.from, w.to), view)) {
      HoldsOne(env, Within(w.from, w.to), view);
      HoldsConcat(env, filters, [One(Test(Within(w.from, w.to), false))], view);
    }
    var answer := ask(where, histogram);
    byStatus, byDuration := ReadCounts(w, answer);
    forall status, i | 0 <= i < Points(w)
      ensures PointOf(byStatus, status, i) == Shown(PointCount(env, q, w, histogram, before + after, ByStatus(env), status, i))
    {
      PointShows(env, q, w, where, histogram, createdAt, before, after, rolled, answer,
                 (cell: Cell) => cell.status, ByStatus(env), byStatus, status, i);
    }
    forall duration, i | 0 <= i < Points(w)
      ensures PointOf(byDuration, duration, i) == Shown(PointCount(env, q, w, histogram, before + after, ByDuration(), duration, i))
    {
      PointShows(env, q, w, where, histogram, createdAt, before, after, rolled, answer,
                 (cell: Cell) => cell.duration, ByDuration(), byDuration, duration, i);
    }
  }

  lemma HoldsOne(env: Env, atom: Atom, view: View)
    ensures HoldsAll(env, [One(Test(atom, false))], view) == HoldsAtom(env, atom, view)
  {
    var cond := One(Test(atom, false));
    assert forall c :: c in [cond] <==> c == cond;
    assert HoldsAll(env, [cond], view) == Holds(env, cond, view);
    assert Holds(env, cond, view) == HoldsAtom(env, atom, view);
  }

  // ----- the histogram and raw spans -----

  lemma CountsSplit(env: Env, q: SpanQuery, w: Window, row: SpanRow)
    requires MinuteAligned(w)
    ensures InWindow(w, true, row) == (InWindow(w, false, row) || Overhangs(w, row))
    ensures !(InWindow(w, false, row) && Overhangs(w, row))
  {
    if InWindow(w, false, row) {
      MinuteStarts(w, MinuteOf(row.timestamp));
    }
  }

  lemma MinuteStarts(w: Window, minute: int)
    requires MinuteAligned(w) && minute % 60 == 0 && w.from < minute + 60
    ensures w.from <= minute
  {
    if w.from < 0 {
      NegatedMultiple(-w.from, 60);
    }
  }

  /** A point read from the histogram is the point of raw spans and its share of the overhanging ones. */
  lemma HistogramIsRawAndOverhang<K>(env: Env, q: SpanQuery, w: Window, raw: seq<SpanRow>, key: SpanRow -> K, k: K, i: int)
    requires w.step > 0 && MinuteAligned(w)
    ensures PointCount(env, q, w, true, raw, key, k, i) ==
            PointCount(env, q, w, false, raw, key, k, i) +
            Count(raw, row => Matches(env, q, None, Raw(row)) && Overhangs(w, row) && key(row) == k && InPoint(w, i, row))
  {
    forall row ensures InWindow(w, true, row) == (InWindow(w, false, row) || Overhangs(w, row)) && !(InWindow(w, false, row) && Overhangs(w, row)) {
      CountsSplit(env, q, w, row);
    }
    CountSplit(raw, row => Counts(env, q, w, false, row) && key(row) == k && InPoint(w, i, row),
               row => Matches(env, q, None, Raw(row)) && Overhangs(w, row) && key(row) == k && InPoint(w, i, row),
               row => Counts(env, q, w, true, row) && key(row) == k && InPoint(w, i, row));
  }

  /** The two tables give the same chart exactly when no matching span is past the end of the window in
      the minute it ends in. */
  lemma HistogramIsRawIff<K>(env: Env, q: SpanQuery, w: Window, raw: seq<SpanRow>, key: SpanRow -> K)
    requires w.step > 0 && w.from % w.step == 0 && MinuteAligned(w)
    ensures (forall row :: row in raw && Matches(env, q, None, Raw(row)) ==> !Overhangs(w, row))
       <==> forall row, i | row in raw && 0 <= i < Points(w) ::
              PointCount(env, q, w, true, raw, key, key(row), i) == PointCount(env, q, w, false, raw, key, key(row), i)
  {
    forall row, i | row in raw && 0 <= i < Points(w)
      ensures PointCount(env, q, w, true, raw, key, key(row), i) ==
              PointCount(env, q, w, false, raw, key, key(row), i) + OverhangCount(env, q, w, raw, key, key(row), i)
    {
      HistogramIsRawAndOverhang(env, q, w, raw, key, key(row), i);
    }
    forall row | row in raw && Matches(env, q, None, Raw(row)) && Overhangs(w, row)
      ensures exists i | 0 <= i < Points(w) ::
                PointCount(env, q, w, true, raw, key, key(row), i) != PointCount(env, q, w, false, raw, key, key(row), i)
    {
      var i := Index(w, StepOf(row.timestamp, w.step));
      PointOfRow(w, true, row, i);
      CountZero(raw, other => Matches(env, q, None, Raw(other)) && Overhangs(w, other) && key(other) == key(row) && InPoint(w, i, other));
      HistogramIsRawAndOverhang(env, q, w, raw, key, key(row), i);
    }
    if forall row :: row in raw && Matches(env, q, None, Raw(row)) ==> !Overhangs(w, row) {
      forall row, i | row in raw && 0 <= i < Points(w) ensures OverhangCount(env, q, w, raw, key, key(row), i) == 0 {
        CountZero(raw, other => Matches(env, q, None, Raw(other)) && Overhangs(w, other) && key(other) == key(row) && InPoint(w, i, other));
      }
    }
  }

  function OverhangCount<K(==)>(env: Env, q: SpanQuery, w: Window, raw: seq<SpanRow>, key: SpanRow -> K, k: K, i: int): nat
    requires w.step > 0
  {
    Count(raw, row => Matches(env, q, None, Raw(row)) && Overhangs(w, row) && key(row) == k && InPoint(w, i, row))
  }

  const PLAIN: SpanQuery := SpanQuery([], [])

  /** A root span of no client's, at a second. */
  function RootAt(t: int): SpanRow {
    SpanRow(t * SECOND, "", "GET /", "SPAN_KIND_SERVER", "app", "", "ns/app", 1, 1_000_000, false, map[], map[])
  }

  /** It happens: a live view of two hours ends half way through a minute, and a span is written at the
      end of that minute before the query is. */
  lemma OverhangIsCounted(env: Env)
    ensures var w, row := Window(60, 7290, 60), RootAt(7300);
            && IsStep(w.step, 7290 - 60, 60) && IsWindow(w, 60, 7290, true) && FromHistogram(PLAIN, w, 1)
            && Matches(env, PLAIN, None, Raw(row)) && Overhangs(w, row)
            && PointCount(env, PLAIN, w, true, [row], ByStatus(env), StatusOf(env, row), 120) == 1
            && PointCount(env, PLAIN, w, false, [row], ByStatus(env), StatusOf(env, row), 120) == 0
  {
    var w, row := Window(60, 7290, 60), RootAt(7300);
    assert MinuteOf(row.timestamp) == 7260;
    StepOfMinute(row.timestamp, 60);
    assert FloorTo(7260, 60) == 7260;
    assert InPoint(w, 120, row);
    assert !InWindow(w, false, row) && InWindow(w, true, row);
    PointOfOne(env, PLAIN, w, true, row, ByStatus(env), StatusOf(env, row), 120);
    PointOfOne(env, PLAIN, w, false, row, ByStatus(env), StatusOf(env, row), 120);
  }

  lemma PointOfOne<K>(env: Env, q: SpanQuery, w: Window, histogram: bool, row: SpanRow, key: SpanRow -> K, k: K, i: int)
    requires w.step > 0
    ensures PointCount(env, q, w, histogram, [row], key, k, i) ==
            if Counts(env, q, w, histogram, row) && key(row) == k && InPoint(w, i, row) then 1 else 0
  {
    CountOne(row, other => Counts(env, q, w, histogram, other) && key(other) == k && InPoint(w, i, other));
  }

  /** A window that ends with a minute has nothing past its end in that minute. */
  lemma AlignedEndHasNoOverhang(w: Window, row: SpanRow)
    requires w.to % 60 == 0
    ensures !Overhangs(w, row)
  {
  }

  // ----- both charts count the same spans -----

  const STATUSES: seq<StatusClass> := [Http(2), Http(3), Http(4), Http(5), Failed, Other]

  lemma StatusesAreAll(env: Env, row: SpanRow)
    ensures StatusOf(env, row) in STATUSES
  {
    var code := HttpStatus(env, row);
    if 200 <= code <= 599 {
      var hundreds := code / 100;
      assert hundreds == 2 || hundreds == 3 || hundreds == 4 || hundreds == 5;
      assert STATUSES[hundreds - 2] == Http(hundreds);
    } else {
      assert STATUSES[4] == Failed && STATUSES[5] == Other;
    }
  }

  /** The points of a bucket add up, over the status classes and over the duration buckets, to the
      matching spans of the bucket. */
  lemma ChartsAddUp(env: Env, q: SpanQuery, w: Window, histogram: bool, raw: seq<SpanRow>, i: int)
    requires w.step > 0
    ensures var all := BucketCount(env, q, w, histogram, raw, i);
            && SumOver(STATUSES, status => PointCount(env, q, w, histogram, raw, ByStatus(env), status, i)) == all
            && SumOver(BUCKETS, duration => PointCount(env, q, w, histogram, raw, ByDuration(), duration, i)) == all
  {
    forall row: SpanRow ensures StatusOf(env, row) in STATUSES && RoundDown(row.duration, BUCKETS) in BUCKETS {
      StatusesAreAll(env, row);
    }
    KeysAddUp(env, q, w, histogram, raw, ByStatus(env), STATUSES, i);
    KeysAddUp(env, q, w, histogram, raw, ByDuration(), BUCKETS, i);
  }

  lemma {:induction false} KeysAddUp<K(!new)>(env: Env, q: SpanQuery, w: Window, histogram: bool, raw: seq<SpanRow>, key: SpanRow -> K, keys: seq<K>, i: int)
    requires w.step > 0 && (forall m, n :: 0 <= m < n < |keys| ==> keys[m] != keys[n]) && forall row :: key(row) in keys
    ensures SumOver(keys, k => PointCount(env, q, w, histogram, raw, key, k, i)) ==
            BucketCount(env, q, w, histogram, raw, i)
  {
    CountsAddUp(raw, row => Counts(env, q, w, histogram, row) && InPoint(w, i, row), key, keys,
                k => PointCount(env, q, w, histogram, raw, key, k, i),
                k => row => Counts(env, q, w, histogram, row) && key(row) == k && InPoint(w, i, row),
                row => Counts(env, q, w, histogram, row) && InPoint(w, i, row));
  }

  /** The buckets add up to all the matching spans: the guard on the index drops none. */
  lemma PointsAddUp(env: Env, q: SpanQuery, w: Window, histogram: bool, raw: seq<SpanRow>)
    requires w.step > 0 && w.from % w.step == 0 && (histogram ==> MinuteAligned(w))
    ensures SumOver(Indices(w), i => BucketCount(env, q, w, histogram, raw, i)) == Count(raw, row => Counts(env, q, w, histogram, row))
  {
    var index := (row: SpanRow) => Index(w, StepOf(row.timestamp, w.step));
    var counts := (row: SpanRow) => Counts(env, q, w, histogram, row);
    var inBucket := (i: int) => (row: SpanRow) => Counts(env, q, w, histogram, row) && InPoint(w, i, row);
    forall i, row ensures inBucket(i)(row) == (counts(row) && index(row) == i) {
      if Counts(env, q, w, histogram, row) {
        PointOfRow(w, histogram, row, i);
      }
    }
    forall row ensures counts(row) == (counts(row) && index(row) in Indices(w)) {
      if Counts(env, q, w, histogram, row) {
        PointOfRow(w, histogram, row, 0);
        assert Indices(w)[index(row)] == index(row);
      }
    }
    CountsAddUp(raw, counts, index, Indices(w), i => BucketCount(env, q, w, histogram, raw, i), inBucket, counts);
  }

  function Indices(w: Window): seq<int>
    requires w.step > 0
  {
    seq(Max(0, Points(w)), i => i)
  }

  /** The matching spans of a bucket. */
  function BucketCount(env: Env, q: SpanQuery, w: Window, histogram: bool, raw: seq<SpanRow>, i: int): nat
    requires w.step > 0
  {
    Count(raw, row => Counts(env, q, w, histogram, row) && InPoint(w, i, row))
  }
}

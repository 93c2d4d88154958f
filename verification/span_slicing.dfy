/** clickhouse/traces.go and clickhouse/sort.go: the newest spans of a range, slice by slice.

    A query with a LIMIT is cut into growing time slices, newest first, each asking for what the
    slices before it left, and each with a condition on the k-th newest timestamp that lets
    ClickHouse skip reading. Both are shown to change nothing: the result is a top of the whole
    range, up to the order of equal timestamps, which ClickHouse is free to choose. */
module SpanSlicing {
  import opened Prelude

  /** A stored span; id tells two rows with equal columns apart. */
  datatype Row = Row(id: nat, timestamp: int, duration: int, traceId: string)

  /** The ORDER BY of a query. Newest is also the order of a query that asks for none. */
  datatype OrderBy = Newest | Oldest | Longest | Shortest

  /** listOrderBy of the trace list, None for no order; column and dir are trimmed and lower-cased. */
  function ListOrderBy(column: string, dir: string): Option<OrderBy> {
    var ascending := dir == "asc";
    if column == "date" then if ascending then Some(Oldest) else None
    else if column == "duration" then Some(if ascending then Shortest else Longest)
    else None
  }

  function OrderOf(order: Option<OrderBy>): OrderBy {
    if order.Some? then order.value else Newest
  }

  /** What an order puts first has the larger key. */
  function Key(order: OrderBy, r: Row): int {
    match order
    case Newest => r.timestamp
    case Oldest => -r.timestamp
    case Longest => r.duration
    case Shortest => -r.duration
  }

  // ----- what a query with a limit answers -----

  predicate Distinct<T(==)>(s: seq<T>) {
    forall i, j :: 0 <= i < j < |s| ==> s[i] != s[j]
  }

  predicate Sorted(s: seq<Row>, order: OrderBy) {
    forall i, j :: 0 <= i < j < |s| ==> Key(order, s[i]) >= Key(order, s[j])
  }

  /** The rows a LIMIT leaves of n; none when it is not positive. */
  function Limited(n: nat, limit: int): nat {
    if limit <= 0 || n <= limit then n else limit
  }

  /** res lists limit rows, none twice, in order, and no row left out comes before any of them. */
  ghost predicate IsTop(res: seq<Row>, rows: set<Row>, limit: int, order: OrderBy) {
    && Distinct(res) && Sorted(res, order)
    && |res| == Limited(|rows|, limit)
    && (forall r :: r in res ==> r in rows)
    && (forall r, s :: r in rows && r !in res && s in res ==> Key(order, r) <= Key(order, s))
  }

  function Elements<T>(s: seq<T>): set<T> {
    set x | x in s
  }

  lemma {:induction false} DistinctSize<T>(s: seq<T>)
    requires Distinct(s)
    ensures |Elements(s)| == |s|
  {
    if s != [] {
      var before, last := s[..|s| - 1], s[|s| - 1];
      DistinctSize(before);
      assert Elements(s) == Elements(before) + {last};
      assert last !in Elements(before);
    }
  }

  lemma {:induction false} SubsetSize<T>(a: set<T>, b: set<T>)
    requires a <= b
    ensures |a| <= |b| && (|a| == |b| ==> a == b)
  {
    assert b == a + (b - a);
    assert |b| == |a| + |b - a|;
  }

  /** A result shorter than its limit lists all rows. */
  lemma ShortListsAll(res: seq<Row>, rows: set<Row>, limit: int, order: OrderBy)
    requires IsTop(res, rows, limit, order) && (limit <= 0 || |res| < limit || |rows| <= limit)
    ensures Elements(res) == rows
  {
    DistinctSize(res);
    SubsetSize(Elements(res), rows);
  }

  // ----- the condition on the k-th timestamp -----

  /** timestampLimitCutoff: with a limit, an order by Timestamp gets the extra condition. */
  predicate HasCutoff(limit: int, order: OrderBy) {
    limit > 0 && (order == Newest || order == Oldest)
  }

  /** The rows not beyond the last of the inner query: Timestamp >= min, or <= max, of its rows. */
  function NotBeyond(rows: set<Row>, inner: seq<Row>, order: OrderBy): set<Row> {
    set r | r in rows && (inner != [] ==> Key(order, r) >= Key(order, inner[|inner| - 1]))
  }

  /** What the query as it is written may answer over the rows its condition selects. */
  ghost predicate IsAnswer(res: seq<Row>, rows: set<Row>, limit: int, order: OrderBy) {
    if HasCutoff(limit, order) then
      exists inner :: IsTop(inner, rows, limit, order) && IsTop(res, NotBeyond(rows, inner, order), limit, order)
    else IsTop(res, rows, limit, order)
  }

  /** The rows kept by the condition hold any top, and at least as many rows as a limit takes. */
  lemma CutoffKeeps(rows: set<Row>, inner: seq<Row>, limit: int, order: OrderBy)
    requires IsTop(inner, rows, limit, order) && limit > 0
    ensures var kept := NotBeyond(rows, inner, order);
            Elements(inner) <= kept <= rows && Limited(|kept|, limit) == Limited(|rows|, limit)
  {
    var kept := NotBeyond(rows, inner, order);
    forall r | r in inner ensures r in kept {
      var i :| 0 <= i < |inner| && inner[i] == r;
      assert Key(order, inner[i]) >= Key(order, inner[|inner| - 1]);
    }
    assert Elements(inner) <= kept;
    DistinctSize(inner);
    SubsetSize(Elements(inner), kept);
    SubsetSize(kept, rows);
  }

  lemma CutoffAnswerIsTop(res: seq<Row>, inner: seq<Row>, rows: set<Row>, limit: int, order: OrderBy)
    requires limit > 0 && IsTop(inner, rows, limit, order) && IsTop(res, NotBeyond(rows, inner, order), limit, order)
    ensures IsTop(res, rows, limit, order)
  {
    CutoffKeeps(rows, inner, limit, order);
    forall r, s | r in rows && r !in res && s in res ensures Key(order, r) <= Key(order, s) {
      assert s in NotBeyond(rows, inner, order);
    }
  }

  lemma TopIsCutoffAnswer(res: seq<Row>, rows: set<Row>, limit: int, order: OrderBy)
    requires limit > 0 && IsTop(res, rows, limit, order)
    ensures IsTop(res, NotBeyond(rows, res, order), limit, order)
  {
    CutoffKeeps(rows, res, limit, order);
    assert forall r :: r in res ==> r in Elements(res);
  }

  /** The extra condition changes nothing: the answers are exactly the tops of the whole range. */
  lemma CutoffChangesNothing(res: seq<Row>, rows: set<Row>, limit: int, order: OrderBy)
    ensures IsAnswer(res, rows, limit, order) <==> IsTop(res, rows, limit, order)
  {
    if HasCutoff(limit, order) {
      if IsAnswer(res, rows, limit, order) {
        var inner :| IsTop(inner, rows, limit, order) && IsTop(res, NotBeyond(rows, inner, order), limit, order);
        CutoffAnswerIsTop(res, inner, rows, limit, order);
      }
      if IsTop(res, rows, limit, order) {
        TopIsCutoffAnswer(res, rows, limit, order);
      }
    }
  }

  // ----- queries -----

  /** A time range, in seconds since 1970. */
  datatype Range = Range(from: int, to: int)

  predicate InRange(r: Row, range: Range) {
    range.from * SECOND <= r.timestamp < range.to * SECOND
  }

  /** A range has its first instant and not its last, so that ranges side by side share no row. */
  lemma RangeEnds(r: Row, range: Range)
    ensures r.timestamp == range.from * SECOND ==> (InRange(r, range) <==> range.from < range.to)
    ensures r.timestamp == range.to * SECOND ==> !InRange(r, range)
  {
  }

  /** keep are the filters and the selection; an end of the range that is the zero time asks for no
      range at all. */
  datatype Query = Query(keep: Row -> bool, from: nat, to: nat, limit: int)

  function Selected(table: set<Row>, q: Query): set<Row> {
    set r | r in table && q.keep(r) && (q.from != 0 && q.to != 0 ==> InRange(r, Range(q.from, q.to)))
  }

  /** ClickHouse: the stored rows, and some answer to each query; ids answers a query for the number
      and the distinct trace ids of the newest rows. */
  datatype Database = Database(table: set<Row>,
                               answer: (Query, OrderBy) -> seq<Row>,
                               ids: (Row -> bool, Range, int) -> (nat, seq<string>))

  function Kept(table: set<Row>, keep: Row -> bool, range: Range): set<Row> {
    set r | r in table && keep(r) && InRange(r, range)
  }

  function TraceIds(rows: seq<Row>): set<string> {
    set r | r in rows :: r.traceId
  }

  /** The answer to a query for the trace ids of the newest rows. */
  ghost predicate AreIdsOf(answer: (nat, seq<string>), top: seq<Row>) {
    answer.0 == |top| && Distinct(answer.1) && Elements(answer.1) == TraceIds(top)
  }

  ghost predicate Answers(db: Database) {
    && (forall q: Query, order :: IsAnswer(db.answer(q, order), Selected(db.table, q), q.limit, order))
    && (forall keep, range, limit :: exists top ::
          IsTop(top, Kept(db.table, keep, range), limit, Newest) && AreIdsOf(db.ids(keep, range, limit), top))
  }

  // ----- slices -----

  /** The growing slices: an hour, two, four, and the rest of the range. */
  const SLICES: seq<int> := [3600, 2 * 3600, 4 * 3600]

  /** The tops of two ranges, the newer one first, make the top of both, if the first took all. */
  lemma TopOfTwo(a: seq<Row>, newer: set<Row>, b: seq<Row>, older: set<Row>, limit: int)
    requires IsTop(a, newer, limit, Newest) && |a| < limit
    requires IsTop(b, older, limit - |a|, Newest)
    requires forall r, s :: r in newer && s in older ==> r.timestamp > s.timestamp
    ensures IsTop(a + b, newer + older, limit, Newest)
  {
    ShortListsAll(a, newer, limit, Newest);
    assert newer !! older;
    assert |newer + older| == |newer| + |older|;
    forall i, j | 0 <= i < j < |a + b|
      ensures (a + b)[i] != (a + b)[j] && Key(Newest, (a + b)[i]) >= Key(Newest, (a + b)[j])
    {
      if i < |a| <= j {
        assert a[i] in newer && b[j - |a|] in older;
      }
    }
    forall r, s | r in newer + older && r !in a + b && s in a + b ensures Key(Newest, r) <= Key(Newest, s) {
      assert r !in newer;
    }
  }

  lemma PartsOfRange(db: Database, q: Query, from: int, middle: int, to: int)
    requires from <= middle <= to
    ensures Kept(db.table, q.keep, Range(middle, to)) + Kept(db.table, q.keep, Range(from, middle)) == Kept(db.table, q.keep, Range(from, to))
    ensures forall r, s :: r in Kept(db.table, q.keep, Range(middle, to)) && s in Kept(db.table, q.keep, Range(from, middle)) ==> r.timestamp > s.timestamp
  {
  }

  lemma NothingYet(db: Database, q: Query, limit: int)
    ensures Kept(db.table, q.keep, Range(q.to, q.to)) == {} && IsTop([], Kept(db.table, q.keep, Range(q.to, q.to)), limit, Newest)
  {
    assert Kept(db.table, q.keep, Range(q.to, q.to)) == {};
  }

  /** The top of a slice, after the tops of the newer ones, makes the top of all of them. */
  lemma NextSlice(db: Database, q: Query, top: seq<Row>, part: seq<Row>, from: int, to: int)
    requires IsTop(top, Kept(db.table, q.keep, Range(to, q.to)), q.limit, Newest) && |top| < q.limit && to <= q.to
    requires IsTop(part, Kept(db.table, q.keep, Range(from, to)), q.limit - |top|, Newest)
    requires from <= to || to == q.to
    ensures IsTop(top + part, Kept(db.table, q.keep, Range(from, q.to)), q.limit, Newest)
  {
    if from <= to {
      PartsOfRange(db, q, from, to, q.to);
      TopOfTwo(top, Kept(db.table, q.keep, Range(to, q.to)), part, Kept(db.table, q.keep, Range(from, to)), q.limit);
    } else {
      assert Kept(db.table, q.keep, Range(to, q.to)) == {} && Kept(db.table, q.keep, Range(from, to)) == {};
      assert top + part == [];
    }
  }

  /** getSpans: the answer is a top of the whole range, whichever way it is asked. */
  method GetSpans(db: Database, q: Query, order: Option<OrderBy>) returns (res: seq<Row>)
    requires Answers(db)
    ensures IsTop(res, Selected(db.table, q), q.limit, OrderOf(order))
  {
    if order.Some? || q.limit <= 0 || q.from == 0 || q.to == 0 {
      res := QuerySpans(db, q, OrderOf(order));
      return;
    }
    assert Selected(db.table, q) == Kept(db.table, q.keep, Range(q.from, q.to));
    res := [];
    var to := q.to;
    NothingYet(db, q, q.limit);
    var k := 0;
    while k < |SLICES|
      invariant 0 <= k <= |SLICES| && to <= q.to && (to == q.to || q.from < to)
      invariant |res| < q.limit && IsTop(res, Kept(db.table, q.keep, Range(to, q.to)), q.limit, Newest)
    {
      var from := to - SLICES[k];
      if from <= q.from {
        break;
      }
      var spans := QuerySlice(db, q, from, to, q.limit - |res|);
      NextSlice(db, q, res, spans, from, to);
      res := res + spans;
      if |res| >= q.limit {
        FullTop(res, db, q, from);
        return;
      }
      to := from;
      k := k + 1;
    }
    var spans := QuerySlice(db, q, q.from, to, q.limit - |res|);
    NextSlice(db, q, res, spans, q.from, to);
    res := res + spans;
  }

  /** The trace list: the first spans by the column it is sorted by, up to the limit. */
  method GetRootSpans(db: Database, q: Query, column: string, dir: string) returns (res: seq<Row>)
    requires Answers(db)
    ensures IsTop(res, Selected(db.table, q), q.limit,
                  if column == "date" then (if dir == "asc" then Oldest else Newest)
                  else if column == "duration" then (if dir == "asc" then Shortest else Longest)
                  else Newest)
  {
    res := GetSpans(db, q, ListOrderBy(column, dir));
  }

  /** Once the limit is reached, the rest of the range does not matter. */
  lemma FullTop(res: seq<Row>, db: Database, q: Query, from: int)
    requires q.limit > 0 && q.from <= from <= q.to
    requires IsTop(res, Kept(db.table, q.keep, Range(from, q.to)), q.limit, Newest) && |res| >= q.limit
    ensures IsTop(res, Kept(db.table, q.keep, Range(q.from, q.to)), q.limit, Newest)
  {
    PartsOfRange(db, q, q.from, from, q.to);
    SubsetSize(Kept(db.table, q.keep, Range(from, q.to)), Kept(db.table, q.keep, Range(q.from, q.to)));
  }

  method QuerySpans(db: Database, q: Query, order: OrderBy) returns (res: seq<Row>)
    requires Answers(db)
    ensures IsTop(res, Selected(db.table, q), q.limit, order)
  {
    res := db.answer(q, order);
    CutoffChangesNothing(res, Selected(db.table, q), q.limit, order);
  }

  /** A slice; the range conditions are there unless an end is the zero time. */
  method QuerySlice(db: Database, q: Query, from: nat, to: nat, limit: int) returns (res: seq<Row>)
    requires Answers(db) && from != 0 && to != 0
    ensures IsTop(res, Kept(db.table, q.keep, Range(from, to)), limit, Newest)
  {
    var sq := Query(q.keep, from, to, limit);
    res := QuerySpans(db, sq, Newest);
    assert Selected(db.table, sq) == Kept(db.table, q.keep, Range(from, to));
  }

  // ----- the trace ids of the newest spans -----

  // How many spans the traces of a selection are taken from.
  const TRACES_LIMIT: nat := 200

  /** Adjacent slices, newest first, from one end of the range to the other. */
  ghost predicate Cover(bounds: seq<Range>, from: int, to: int) {
    && bounds != [] && bounds[0].to == to && bounds[|bounds| - 1].from == from
    && forall i :: 0 <= i < |bounds| - 1 ==> from < bounds[i].from < bounds[i].to && bounds[i + 1].to == bounds[i].from
  }

  /** Where slice k is. */
  lemma {:induction false} SliceAt(bounds: seq<Range>, from: int, to: int, k: nat)
    requires Cover(bounds, from, to) && k < |bounds|
    ensures from <= bounds[k].from && bounds[k].to <= to
    ensures bounds[k].from <= bounds[k].to || (bounds[k].to == to && bounds[k].from == from)
    ensures bounds[k].from == if k + 1 < |bounds| then bounds[k + 1].to else from
  {
    if k > 0 {
      SliceAt(bounds, from, to, k - 1);
    }
  }

  /** Each slice but the last is as long as the list of slices says, and the last only when the next
      would not leave anything for it, or there is no next. */
  ghost predicate Growing(bounds: seq<Range>, from: int) {
    && 0 < |bounds| <= |SLICES| + 1
    && (forall i :: 0 <= i < |bounds| - 1 ==> bounds[i].from == bounds[i].to - SLICES[i])
    && (|bounds| <= |SLICES| ==> bounds[|bounds| - 1].to - SLICES[|bounds| - 1] <= from)
  }

  /** Slices cut off so far, the rest of the range ending at sliceTo. */
  ghost predicate CutOff(bounds: seq<Range>, from: int, to: int, sliceTo: int) {
    && |bounds| <= |SLICES|
    && sliceTo == (if bounds == [] then to else bounds[|bounds| - 1].from)
    && (bounds != [] ==> bounds[0].to == to)
    && (forall i :: 0 <= i < |bounds| ==> from < bounds[i].from < bounds[i].to && bounds[i].from == bounds[i].to - SLICES[i])
    && (forall i :: 0 <= i < |bounds| - 1 ==> bounds[i + 1].to == bounds[i].from)
  }

  lemma CutOffNext(bounds: seq<Range>, from: int, to: int, sliceTo: int)
    requires CutOff(bounds, from, to, sliceTo) && |bounds| < |SLICES| && from < sliceTo - SLICES[|bounds|]
    ensures CutOff(bounds + [Range(sliceTo - SLICES[|bounds|], sliceTo)], from, to, sliceTo - SLICES[|bounds|])
  {
    assert SLICES[|bounds|] > 0;
  }

  lemma CutOffEnds(bounds: seq<Range>, from: int, to: int, sliceTo: int)
    requires CutOff(bounds, from, to, sliceTo)
    requires |bounds| == |SLICES| || sliceTo - SLICES[|bounds|] <= from
    ensures Cover(bounds + [Range(from, sliceTo)], from, to) && Growing(bounds + [Range(from, sliceTo)], from)
  {
  }

  /** The slices getTraces asks for, newest first. */
  method SliceBounds(from: nat, to: nat) returns (bounds: seq<Range>)
    ensures Cover(bounds, from, to) && Growing(bounds, from)
  {
    bounds := [];
    var sliceTo: int := to;
    var k := 0;
    while k < |SLICES|
      invariant 0 <= k == |bounds| && CutOff(bounds, from, to, sliceTo)
    {
      var sliceFrom := sliceTo - SLICES[k];
      if sliceFrom <= from {
        break;
      }
      CutOffNext(bounds, from, to, sliceTo);
      bounds := bounds + [Range(sliceFrom, sliceTo)];
      sliceTo := sliceFrom;
      k := k + 1;
    }
    CutOffEnds(bounds, from, to, sliceTo);
    bounds := bounds + [Range(from, sliceTo)];
  }

  function AllIds(groups: seq<seq<string>>): set<string> {
    set i, j | 0 <= i < |groups| && 0 <= j < |groups[i]| :: groups[i][j]
  }

  /** No id is in a group twice, nor in two groups, and no group is empty. */
  ghost predicate DisjointGroups(groups: seq<seq<string>>) {
    && (forall i :: 0 <= i < |groups| ==> groups[i] != [] && Distinct(groups[i]))
    && (forall i, j, id :: 0 <= i < j < |groups| && id in groups[i] ==> id !in groups[j])
  }

  /** The ids not seen yet, in their order. */
  method Unseen(ids: seq<string>, seen: set<string>) returns (group: seq<string>, seen': set<string>)
    requires Distinct(ids)
    ensures Distinct(group) && Elements(group) == Elements(ids) - seen
    ensures seen' == seen + Elements(ids)
  {
    group, seen' := [], seen;
    for i := 0 to |ids|
      invariant Distinct(group) && Elements(group) == Elements(ids[..i]) - seen
      invariant seen' == seen + Elements(ids[..i])
    {
      assert Elements(ids[..i + 1]) == Elements(ids[..i]) + {ids[i]};
      assert ids[i] !in Elements(ids[..i]);
      if ids[i] !in seen' {
        seen' := seen' + {ids[i]};
        assert ids[i] !in Elements(group);
        assert Elements(group + [ids[i]]) == Elements(group) + {ids[i]};
        group := group + [ids[i]];
      }
    }
    assert ids[..|ids|] == ids;
  }

  lemma AnotherGroup(groups: seq<seq<string>>, group: seq<string>)
    requires DisjointGroups(groups) && group != [] && Distinct(group)
    requires Elements(group) !! AllIds(groups)
    ensures DisjointGroups(groups + [group]) && AllIds(groups + [group]) == AllIds(groups) + Elements(group)
  {
    var all := groups + [group];
    assert all[|groups|] == group;
    forall i, j, id | 0 <= i < j < |all| && id in all[i] ensures id !in all[j] {
      if j == |groups| {
        assert id in AllIds(groups);
      }
    }
    forall id ensures id in AllIds(all) <==> id in AllIds(groups) + Elements(group) {
      if id in AllIds(groups) {
        var i, j :| 0 <= i < |groups| && 0 <= j < |groups[i]| && groups[i][j] == id;
        assert all[i][j] == id;
      }
      if id in Elements(group) {
        var j :| 0 <= j < |group| && group[j] == id;
        assert all[|groups|][j] == id;
      }
    }
  }

  lemma IdsOfBoth(a: seq<Row>, b: seq<Row>)
    ensures TraceIds(a + b) == TraceIds(a) + TraceIds(b)
  {
    assert forall r :: r in a + b <==> r in a || r in b;
  }

  /** The ids of a slice are those of the spans it adds to the top. */
  lemma NextIds(db: Database, q: Query, top: seq<Row>, part: seq<Row>, cnt: nat, ids: seq<string>, b: Range)
    requires IsTop(top, Kept(db.table, q.keep, Range(b.to, q.to)), q.limit, Newest) && |top| < q.limit
    requires IsTop(part, Kept(db.table, q.keep, b), q.limit - |top|, Newest) && AreIdsOf((cnt, ids), part)
    requires q.from <= b.from && b.to <= q.to && (b.from <= b.to || (b.to == q.to && b.from == q.from))
    ensures IsTop(top + part, Kept(db.table, q.keep, Range(b.from, q.to)), q.limit, Newest)
    ensures TraceIds(top + part) == TraceIds(top) + Elements(ids) && |top + part| == |top| + cnt
    ensures |top + part| >= q.limit ==> IsTop(top + part, Kept(db.table, q.keep, Range(q.from, q.to)), q.limit, Newest)
  {
    NextSlice(db, q, top, part, b.from, b.to);
    IdsOfBoth(top, part);
    if |top + part| >= q.limit && b.from <= q.to {
      FullTop(top + part, db, q, b.from);
    }
  }

  /** What a slice is asked: the number and the ids of its newest spans (part is one list of them). */
  method AskIds(db: Database, keep: Row -> bool, b: Range, remaining: int)
    returns (cnt: nat, ids: seq<string>, ghost part: seq<Row>)
    requires Answers(db)
    ensures IsTop(part, Kept(db.table, keep, b), remaining, Newest) && AreIdsOf((cnt, ids), part)
  {
    var answer := db.ids(keep, b, remaining);
    part :| IsTop(part, Kept(db.table, keep, b), remaining, Newest) && AreIdsOf(answer, part);
    cnt, ids := answer.0, answer.1;
  }

  /** The ids of a slice not seen in the newer ones become a group. */
  method AddGroup(groups: seq<seq<string>>, seen: set<string>, ids: seq<string>)
    returns (groups': seq<seq<string>>, seen': set<string>)
    requires DisjointGroups(groups) && AllIds(groups) == seen && Distinct(ids)
    ensures DisjointGroups(groups') && AllIds(groups') == seen' == seen + Elements(ids)
  {
    var group: seq<string>;
    group, seen' := Unseen(ids, seen);
    groups' := groups;
    assert seen + Elements(group) == seen + Elements(ids);
    if |group| > 0 {
      AnotherGroup(groups, group);
      groups' := groups + [group];
    } else {
      assert Elements(group) == {};
    }
  }

  /** getTraces: disjoint groups of the distinct trace ids of the newest TRACES_LIMIT spans of the
      range (top is one such list of spans). */
  method GetTraceIds(db: Database, keep: Row -> bool, from: nat, to: nat)
    returns (groups: seq<seq<string>>, ghost top: seq<Row>)
    requires Answers(db)
    ensures DisjointGroups(groups) && AllIds(groups) == TraceIds(top)
    ensures IsTop(top, Kept(db.table, keep, Range(from, to)), 200, Newest)
  {
    ghost var q := Query(keep, from, to, TRACES_LIMIT);
    var bounds := SliceBounds(from, to);
    groups, top := [], [];
    var seen: set<string> := {};
    var remaining: int := TRACES_LIMIT;
    NothingYet(db, q, TRACES_LIMIT);
    var k := 0;
    while k < |bounds|
      invariant 0 <= k <= |bounds|
      invariant DisjointGroups(groups) && AllIds(groups) == seen == TraceIds(top)
      invariant remaining == TRACES_LIMIT - |top| && remaining > 0
      invariant IsTop(top, Kept(db.table, keep, Range(if k < |bounds| then bounds[k].to else from, to)), TRACES_LIMIT, Newest)
    {
      SliceAt(bounds, from, to, k);
      var cnt, ids, part := AskIds(db, keep, bounds[k], remaining);
      NextIds(db, q, top, part, cnt, ids, bounds[k]);
      top := top + part;
      k := k + 1;
      if cnt == 0 {
        continue;
      }
      groups, seen := AddGroup(groups, seen, ids);
      remaining := remaining - cnt;
      if remaining <= 0 {
        return;
      }
    }
  }

  // ----- such answers exist -----

  lemma {:induction false} FirstOf(rows: set<Row>, order: OrderBy) returns (first: Row)
    requires rows != {}
    ensures first in rows && forall r :: r in rows ==> Key(order, r) <= Key(order, first)
  {
    first :| first in rows;
    var others := rows - {first};
    if others != {} {
      var best := FirstOf(others, order);
      if Key(order, best) > Key(order, first) {
        first := best;
      }
    }
  }

  lemma FirstThenRest(first: Row, rest: seq<Row>, rows: set<Row>, order: OrderBy)
    requires first in rows && forall r :: r in rows ==> Key(order, r) <= Key(order, first)
    requires Distinct(rest) && Sorted(rest, order) && Elements(rest) == rows - {first}
    ensures Distinct([first] + rest) && Sorted([first] + rest, order) && Elements([first] + rest) == rows
  {
    var s := [first] + rest;
    assert Elements(s) == {first} + Elements(rest);
    forall i, j | 0 <= i < j < |s| ensures s[i] != s[j] && Key(order, s[i]) >= Key(order, s[j]) {
      assert s[j] == rest[j - 1] && rest[j - 1] in Elements(rest);
      if i > 0 {
        assert s[i] == rest[i - 1];
      }
    }
  }

  /** The rows in an order. */
  ghost function Listed(rows: set<Row>, order: OrderBy): (s: seq<Row>)
    ensures Distinct(s) && Sorted(s, order) && Elements(s) == rows
  {
    if rows == {} then []
    else
      assert exists first :: first in rows && forall r :: r in rows ==> Key(order, r) <= Key(order, first) by {
        var first := FirstOf(rows, order);
      }
      var first :| first in rows && forall r :: r in rows ==> Key(order, r) <= Key(order, first);
      var rest := Listed(rows - {first}, order);
      FirstThenRest(first, rest, rows, order);
      [first] + rest
  }

  /** What an order leaves out of its first rows does not come before any of them. */
  lemma PrefixComesFirst(s: seq<Row>, n: nat, r: Row, x: Row, order: OrderBy)
    requires Sorted(s, order) && n <= |s| && r in s && r !in s[..n] && x in s[..n]
    ensures Key(order, r) <= Key(order, x)
  {
    assert s[..n] + s[n..] == s;
    assert r in s[n..];
    var i :| 0 <= i < |s[n..]| && s[n..][i] == r;
    var j :| 0 <= j < n && s[..n][j] == x;
    assert s[n + i] == r && s[j] == x;
  }

  lemma PrefixIsTop(s: seq<Row>, rows: set<Row>, limit: int, order: OrderBy)
    requires Distinct(s) && Sorted(s, order) && Elements(s) == rows
    ensures IsTop(s[..Limited(|s|, limit)], rows, limit, order)
  {
    DistinctSize(s);
    var n := Limited(|s|, limit);
    forall r, x | r in rows && r !in s[..n] && x in s[..n] ensures Key(order, r) <= Key(order, x) {
      assert r in Elements(s);
      PrefixComesFirst(s, n, r, x, order);
    }
    forall r | r in s[..n] ensures r in rows {
      assert r in Elements(s);
    }
  }

  /** Every query has an answer: the first rows of an order. */
  lemma AnswersExist(rows: set<Row>, limit: int, order: OrderBy)
    ensures exists res :: IsAnswer(res, rows, limit, order)
  {
    var s := Listed(rows, order);
    PrefixIsTop(s, rows, limit, order);
    CutoffChangesNothing(s[..Limited(|s|, limit)], rows, limit, order);
  }

  // ----- what an order is, said of the columns -----

  /** The first row comes no later than the second. */
  predicate NotAfter(order: OrderBy, a: Row, b: Row) {
    match order
    case Newest => a.timestamp >= b.timestamp
    case Oldest => a.timestamp <= b.timestamp
    case Longest => a.duration >= b.duration
    case Shortest => a.duration <= b.duration
  }

  /** A top is in its order, and no row left out comes before one of it. */
  lemma TopIsInOrder(res: seq<Row>, rows: set<Row>, limit: int, order: OrderBy)
    requires IsTop(res, rows, limit, order)
    ensures forall i, j :: 0 <= i < j < |res| ==> NotAfter(order, res[i], res[j])
    ensures forall r, s :: r in rows && r !in res && s in res ==> NotAfter(order, s, r)
  {
    forall r, s | r in rows && r !in res && s in res ensures NotAfter(order, s, r) {
      assert Key(order, r) <= Key(order, s);
    }
    forall i, j | 0 <= i < j < |res| ensures NotAfter(order, res[i], res[j]) {
      assert Key(order, res[i]) >= Key(order, res[j]);
    }
  }
}

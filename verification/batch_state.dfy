/** collector/traces.go: what a TracesBatch holds and has written, as a value.

    Each step of the object (a span arrives, bodies are written, spans are written) is a function
    on this value, and what every run keeps is an invariant of the steps. The object itself is in
    traces_batch.dfy. */
module BatchState {
  import opened Prelude
  import opened TraceSpans
  import opened SpanNaming

  // A stored body is left out of later inserts for this long.
  const BODY_REWRITE_INTERVAL: int := HOUR
  // With more hashes than this the memory of stored bodies starts over.
  const MAX_BODIES_WRITTEN: nat := 100000

  /** The cells of each column, in the order the spans arrived. */
  type Columns = map<Column, seq<Cell>>

  const NO_ROWS: Columns := map column: Column | true :: []

  /** Every data column has n cells. */
  ghost predicate DataRows(c: Columns, n: nat) {
    forall column: Column :: !column.Decided() ==> column in c && |c[column]| == n
  }

  /** The columns ClientName, ServerName and Counted have n cells. */
  ghost predicate DecidedRows(c: Columns, n: nat) {
    forall column: Column :: column.Decided() ==> column in c && |c[column]| == n
  }

  /** The i-th row across the data columns. */
  ghost function RowAt(c: Columns, n: nat, i: nat): Row
    requires DataRows(c, n) && i < n
  {
    map column: Column | !column.Decided() :: c[column][i]
  }

  /** Each data column with its cell of the row appended. */
  function AppendRow(c: Columns, r: Row): Columns {
    map column | column in c :: if column in r then c[column] + [r[column]] else c[column]
  }

  /** The columns with the decided ones filled. */
  function Fill(c: Columns, clients: seq<Cell>, servers: seq<Cell>, counted: seq<Cell>): Columns {
    c[ClientName := clients][ServerName := servers][Counted := counted]
  }

  /** A span that arrived, when. */
  datatype Arrival = Arrival(row: Row, at: Instant)

  /** A call of exec: into trace_bodies or into otel_traces, and whether it succeeded. The arrivals
      say which spans the columns carry. */
  datatype Write =
    | Bodies(bodies: map<nat, string>, at: Instant, ok: bool)
    | SpanRows(columns: Columns, arrivals: seq<Arrival>, ok: bool)

  datatype State = State(columns: Columns, pending: seq<Pending>,
                         bodies: map<nat, string>, writtenAt: map<nat, Instant>,
                         added: seq<Arrival>, held: seq<Arrival>, log: seq<Write>, clock: int)

  const NEW: State := State(NO_ROWS, [], map[], map[], [], [], [], ZERO_TIME)

  // ----- the steps -----

  /** addBody: keep a body to write, unless it was written lately. */
  function KeepBody(env: Env, bodies: map<nat, string>, writtenAt: map<nat, Instant>, body: string, now: Instant): map<nat, string> {
    var hash := BodyHash(env, body);
    if hash == 0 || (hash in writtenAt && now - writtenAt[hash] < BODY_REWRITE_INTERVAL) then bodies
    else bodies[hash := body]
  }

  /** A span arrives. */
  function Arrived(env: Env, st: State, x: Arriving, now: Instant): State {
    State(AppendRow(st.columns, x.row), st.pending + [x.pending],
          KeepBody(env, KeepBody(env, st.bodies, st.writtenAt, x.request, now), st.writtenAt, x.response, now),
          st.writtenAt, st.added + [Arrival(x.row, now)], st.held + [Arrival(x.row, now)], st.log, now)
  }

  function AllArrived(env: Env, st: State, xs: seq<Arriving>, now: Instant): State {
    if xs == [] then st.(clock := now)
    else Arrived(env, AllArrived(env, st, xs[..|xs| - 1], now), xs[|xs| - 1], now)
  }

  /** saveBodies: the bodies are written before the spans that carry them. */
  function BodiesSaved(st: State, now: Instant, ok: bool): State {
    if st.bodies == map[] then st.(clock := now)
    else
      var kept := if |st.writtenAt| + |st.bodies| > MAX_BODIES_WRITTEN then map[] else st.writtenAt;
      st.(bodies := map[],
          writtenAt := if ok then kept + map hash | hash in st.bodies :: now else st.writtenAt,
          log := st.log + [Bodies(st.bodies, now, ok)],
          clock := now)
  }

  /** The insert of the columns, and the reset after it. */
  function Inserted(st: State, ok: bool): State {
    st.(columns := NO_ROWS, held := [], log := st.log + [SpanRows(st.columns, st.held, ok)])
  }

  /** write: nothing for an empty batch. */
  function Written(st: State, now: Instant, clients: seq<Cell>, servers: seq<Cell>, counted: seq<Cell>,
                   bodiesOk: bool, spansOk: bool): State {
    if st.pending == [] then st.(clock := now)
    else
      var decided := st.(columns := Fill(st.columns, clients, servers, counted), pending := []);
      Inserted(BodiesSaved(decided, now, bodiesOk), spansOk)
  }

  // ----- what every run keeps -----

  /** The columns carry exactly the rows of the arrivals, in order. */
  ghost predicate Carries(c: Columns, arrivals: seq<Arrival>) {
    && DataRows(c, |arrivals|)
    && forall i, column: Column :: 0 <= i < |arrivals| && !column.Decided() ==>
         column in arrivals[i].row && c[column][i] == arrivals[i].row[column]
  }

  ghost predicate DataRow(r: Row) {
    forall column: Column :: column in r <==> !column.Decided()
  }

  function WrittenArrivals(log: seq<Write>): seq<Arrival> {
    if log == [] then []
    else
      WrittenArrivals(log[..|log| - 1]) + match log[|log| - 1]
        case SpanRows(_, arrivals, _) => arrivals
        case Bodies(_, _, _) => []
  }

  /** All 27 columns of every insert have equal length and carry the spans of their arrivals. */
  ghost predicate Aligned(log: seq<Write>) {
    forall k :: 0 <= k < |log| && log[k].SpanRows? ==>
      && Carries(log[k].columns, log[k].arrivals) && DecidedRows(log[k].columns, |log[k].arrivals|)
      && forall a :: a in log[k].arrivals ==> DataRow(a.row)
  }

  /** A successful insert wrote the body less than an hour before the span arrived. */
  ghost predicate BodyWritten(log: seq<Write>, hash: nat, arrived: Instant) {
    exists k :: 0 <= k < |log| && log[k].Bodies? && log[k].ok && hash in log[k].bodies
      && arrived - log[k].at < HOUR
  }

  function Hashes(r: Row): set<nat> {
    HashesIn(r, RequestBodyHash) + HashesIn(r, ResponseBodyHash)
  }

  function HashesIn(r: Row, column: Column): set<nat> {
    if column in r && r[column].Number? && r[column].number > 0 then {r[column].number} else {}
  }

  /** The bodies of the spans held are written, or wait to be. */
  ghost predicate HeldBodies(st: State) {
    forall a, hash | a in st.held && hash in Hashes(a.row) :: hash in st.bodies || BodyWritten(st.log, hash, a.at)
  }

  /** The body insert right before an insert of spans failed. */
  predicate BodiesFailed(log: seq<Write>, k: nat) {
    0 < k < |log| && log[k - 1].Bodies? && !log[k - 1].ok
  }

  /** A span carries the hash of a body only if the body is there, unless its insert failed. */
  ghost predicate BodiesBeforeSpans(log: seq<Write>) {
    forall k, a, hash | 0 <= k < |log| && log[k].SpanRows? && !BodiesFailed(log, k) && a in log[k].arrivals
                        && hash in Hashes(a.row) :: BodyWritten(log[..k], hash, a.at)
  }

  /** What is remembered as written was written then. */
  ghost predicate Remembered(st: State) {
    forall hash | hash in st.writtenAt ::
      exists k :: 0 <= k < |st.log| && st.log[k].Bodies? && st.log[k].ok && hash in st.log[k].bodies
        && st.log[k].at == st.writtenAt[hash]
  }

  /** The remembered hashes are at most MAX_BODIES_WRITTEN, or as many as one batch wrote. */
  ghost predicate RememberedBound(st: State) {
    || |st.writtenAt| <= MAX_BODIES_WRITTEN
    || exists k :: 0 <= k < |st.log| && st.log[k].Bodies? && |st.writtenAt| <= |st.log[k].bodies|
  }

  ghost predicate Timely(st: State) {
    forall a :: a in st.held ==> a.at <= st.clock
  }

  /** What is pending and the rows held are of the same spans, in the same order. */
  ghost predicate Matching(pending: seq<Pending>, held: seq<Arrival>) {
    |pending| == |held| && forall i :: 0 <= i < |held| ==> SameSpan(pending[i], held[i].row)
  }

  lemma MatchingNext(pending: seq<Pending>, held: seq<Arrival>, p: Pending, a: Arrival)
    requires Matching(pending, held) && SameSpan(p, a.row)
    ensures Matching(pending + [p], held + [a])
  {
  }

  /** The columns and the history: nothing is lost, nothing is written twice. */
  ghost predicate Conserved(st: State) {
    && Carries(st.columns, st.held) && DecidedRows(st.columns, 0)
    && Matching(st.pending, st.held) && (forall a :: a in st.held ==> DataRow(a.row))
    && Aligned(st.log)
    && st.added == WrittenArrivals(st.log) + st.held
  }

  /** The bodies. */
  ghost predicate BodiesKept(st: State) {
    HeldBodies(st) && BodiesBeforeSpans(st.log) && Remembered(st) && RememberedBound(st) && Timely(st)
  }

  ghost predicate Invariant(st: State) {
    Conserved(st) && BodiesKept(st)
  }

  lemma NewInvariant()
    ensures Invariant(NEW)
  {
  }

  lemma AppendCarries(c: Columns, arrivals: seq<Arrival>, a: Arrival)
    requires Carries(c, arrivals) && DecidedRows(c, 0) && DataRow(a.row)
    ensures Carries(AppendRow(c, a.row), arrivals + [a]) && DecidedRows(AppendRow(c, a.row), 0)
  {
  }

  lemma ArrivedConserved(env: Env, st: State, x: Arriving, now: Instant)
    requires Conserved(st) && OneSpan(env, x)
    ensures Conserved(Arrived(env, st, x, now))
  {
    AppendCarries(st.columns, st.held, Arrival(x.row, now));
    OneMoreConserved(st, Arrived(env, st, x, now), Arrival(x.row, now), x.pending);
  }

  lemma OneMoreConserved(st: State, st': State, a: Arrival, p: Pending)
    requires Conserved(st) && SameSpan(p, a.row) && DataRow(a.row)
    requires st'.pending == st.pending + [p] && st'.held == st.held + [a] && st'.added == st.added + [a] && st'.log == st.log
    requires Carries(st'.columns, st'.held) && DecidedRows(st'.columns, 0)
    ensures Conserved(st')
  {
    MatchingNext(st.pending, st.held, p, a);
    AddedNext(WrittenArrivals(st.log), st.held, a);
    DataRowsNext(st.held, a);
  }

  lemma DataRowsNext(held: seq<Arrival>, a: Arrival)
    requires (forall b :: b in held ==> DataRow(b.row)) && DataRow(a.row)
    ensures forall b :: b in held + [a] ==> DataRow(b.row)
  {
  }

  lemma AddedNext(written: seq<Arrival>, held: seq<Arrival>, a: Arrival)
    ensures (written + held) + [a] == written + (held + [a])
  {
  }

  lemma BodyKept(env: Env, bodies: map<nat, string>, st: State, body: string, now: Instant)
    requires Remembered(st)
    ensures var hash := BodyHash(env, body);
            hash == 0 || hash in KeepBody(env, bodies, st.writtenAt, body, now) || BodyWritten(st.log, hash, now)
    ensures bodies.Keys <= KeepBody(env, bodies, st.writtenAt, body, now).Keys
  {
  }

  lemma HashesOfSpan(env: Env, x: Arriving, hash: nat)
    requires OneSpan(env, x) && hash in Hashes(x.row)
    ensures hash != 0 && (hash == BodyHash(env, x.request) || hash == BodyHash(env, x.response))
  {
  }

  /** The bodies of a span that arrives are kept to write, or were written lately. */
  lemma ArrivedItsBodies(env: Env, st: State, x: Arriving, now: Instant)
    requires Remembered(st) && OneSpan(env, x)
    ensures forall hash :: hash in Hashes(x.row) ==>
              hash in Arrived(env, st, x, now).bodies || BodyWritten(st.log, hash, now)
  {
    BodyKept(env, st.bodies, st, x.request, now);
    BodyKept(env, KeepBody(env, st.bodies, st.writtenAt, x.request, now), st, x.response, now);
    forall hash | hash in Hashes(x.row)
      ensures hash in Arrived(env, st, x, now).bodies || BodyWritten(st.log, hash, now)
    {
      HashesOfSpan(env, x, hash);
    }
  }

  /** Held spans whose bodies are kept or written, and one more. */
  lemma OneMoreHeldBodies(st: State, st': State, a: Arrival)
    requires HeldBodies(st) && st.bodies.Keys <= st'.bodies.Keys && st'.log == st.log && st'.held == st.held + [a]
    requires forall hash :: hash in Hashes(a.row) ==> hash in st'.bodies || BodyWritten(st.log, hash, a.at)
    ensures HeldBodies(st')
  {
    forall b, hash | b in st'.held && hash in Hashes(b.row) ensures hash in st'.bodies || BodyWritten(st'.log, hash, b.at) {
      if b in st.held {
        assert hash in st.bodies || BodyWritten(st.log, hash, b.at);
      }
    }
  }

  lemma ArrivedKeepsBodies(env: Env, st: State, x: Arriving, now: Instant)
    ensures st.bodies.Keys <= Arrived(env, st, x, now).bodies.Keys
  {
  }

  lemma ArrivedHeldBodies(env: Env, st: State, x: Arriving, now: Instant)
    requires HeldBodies(st) && Remembered(st) && OneSpan(env, x)
    ensures HeldBodies(Arrived(env, st, x, now))
  {
    ArrivedKeepsBodies(env, st, x, now);
    ArrivedItsBodies(env, st, x, now);
    OneMoreHeldBodies(st, Arrived(env, st, x, now), Arrival(x.row, now));
  }

  lemma ArrivedBodies(env: Env, st: State, x: Arriving, now: Instant)
    requires BodiesKept(st) && st.clock <= now && OneSpan(env, x)
    ensures BodiesKept(Arrived(env, st, x, now))
  {
    ArrivedHeldBodies(env, st, x, now);
    OneMoreHeld(st, Arrived(env, st, x, now), Arrival(x.row, now));
  }

  lemma OneMoreHeld(st: State, st': State, a: Arrival)
    requires BodiesKept(st) && HeldBodies(st') && st'.log == st.log && st'.writtenAt == st.writtenAt
    requires st'.held == st.held + [a] && st.clock <= a.at == st'.clock
    ensures BodiesKept(st')
  {
  }

  function Pendings(xs: seq<Arriving>): seq<Pending> {
    seq(|xs|, i requires 0 <= i < |xs| => xs[i].pending)
  }

  function Arrivals(xs: seq<Arriving>, now: Instant): seq<Arrival> {
    seq(|xs|, i requires 0 <= i < |xs| => Arrival(xs[i].row, now))
  }

  lemma ArrivedInvariant(env: Env, st: State, x: Arriving, now: Instant)
    requires Invariant(st) && st.clock <= now && OneSpan(env, x)
    ensures Invariant(Arrived(env, st, x, now))
  {
    ArrivedConserved(env, st, x, now);
    ArrivedBodies(env, st, x, now);
  }

  /** Several spans arrive: they are added in their order, nothing is written. */
  lemma {:induction false} AllArrivedAdds(env: Env, st: State, xs: seq<Arriving>, now: Instant)
    ensures var st' := AllArrived(env, st, xs, now);
            && st'.clock == now && st'.log == st.log
            && st'.added == st.added + Arrivals(xs, now)
            && st'.pending == st.pending + Pendings(xs)
  {
    if xs == [] {
      assert AllArrived(env, st, xs, now) == st.(clock := now);
      assert st.added + Arrivals(xs, now) == st.added;
      assert st.pending + Pendings(xs) == st.pending;
      return;
    }
    var before, x := xs[..|xs| - 1], xs[|xs| - 1];
    AllArrivedAdds(env, st, before, now);
    assert Arrivals(xs, now) == Arrivals(before, now) + [Arrival(x.row, now)];
    assert Pendings(xs) == Pendings(before) + [x.pending];
  }

  lemma {:induction false} AllArrivedInvariant(env: Env, st: State, xs: seq<Arriving>, now: Instant)
    requires Invariant(st) && st.clock <= now && forall x :: x in xs ==> OneSpan(env, x)
    ensures Invariant(AllArrived(env, st, xs, now))
  {
    if xs != [] {
      var before, x := xs[..|xs| - 1], xs[|xs| - 1];
      AllArrivedInvariant(env, st, before, now);
      AllArrivedAdds(env, st, before, now);
      ArrivedInvariant(env, AllArrived(env, st, before, now), x, now);
    }
  }

  lemma LongerLogKeeps(log: seq<Write>, w: Write, hash: nat, arrived: Instant)
    requires BodyWritten(log, hash, arrived)
    ensures BodyWritten(log + [w], hash, arrived)
  {
    var k :| 0 <= k < |log| && log[k].Bodies? && log[k].ok && hash in log[k].bodies && arrived - log[k].at < HOUR;
    assert (log + [w])[k] == log[k];
  }

  /** After the bodies are saved, each hash a held span carries is written, unless the insert failed. */
  lemma SavedBodiesWritten(st: State, now: Instant, ok: bool)
    requires HeldBodies(st) && Timely(st) && st.clock <= now && (ok || st.bodies == map[])
    ensures forall a, hash | a in st.held && hash in Hashes(a.row) :: BodyWritten(BodiesSaved(st, now, ok).log, hash, a.at)
  {
    var w := Bodies(st.bodies, now, ok);
    forall a, hash | a in st.held && hash in Hashes(a.row) ensures BodyWritten(BodiesSaved(st, now, ok).log, hash, a.at) {
      if hash in st.bodies {
        assert (st.log + [w])[|st.log|] == w;
      } else {
        assert BodyWritten(st.log, hash, a.at);
        LongerLogKeeps(st.log, w, hash, a.at);
      }
    }
  }

  lemma SavedRemembered(st: State, now: Instant, ok: bool)
    requires Remembered(st)
    ensures Remembered(BodiesSaved(st, now, ok))
  {
    if st.bodies == map[] {
      return;
    }
    var w, st' := Bodies(st.bodies, now, ok), BodiesSaved(st, now, ok);
    assert st'.log[|st.log|] == w;
    forall hash | hash in st'.writtenAt
      ensures exists k :: 0 <= k < |st'.log| && st'.log[k].Bodies? && st'.log[k].ok && hash in st'.log[k].bodies
                && st'.log[k].at == st'.writtenAt[hash]
    {
      if !(ok && hash in st.bodies) {
        assert hash in st.writtenAt && st'.writtenAt[hash] == st.writtenAt[hash];
        var k :| 0 <= k < |st.log| && st.log[k].Bodies? && st.log[k].ok && hash in st.log[k].bodies
          && st.log[k].at == st.writtenAt[hash];
        assert st'.log[k] == st.log[k];
      }
    }
  }

  /** At most MAX_BODIES_WRITTEN hashes are remembered, or as many as one batch wrote. */
  lemma SavedBound(st: State, now: Instant, ok: bool)
    requires RememberedBound(st)
    ensures RememberedBound(BodiesSaved(st, now, ok))
  {
    if st.bodies == map[] {
      return;
    }
    var st' := BodiesSaved(st, now, ok);
    assert st'.log[|st.log|] == Bodies(st.bodies, now, ok);
    assert forall k :: 0 <= k < |st.log| ==> st'.log[k] == st.log[k];
    if ok {
      var news: map<nat, Instant> := map hash | hash in st.bodies :: now;
      var kept: map<nat, Instant> := if |st.writtenAt| + |st.bodies| > MAX_BODIES_WRITTEN then map[] else st.writtenAt;
      assert news.Keys == st.bodies.Keys;
      assert (kept + news).Keys == kept.Keys + st.bodies.Keys;
      UnionSize(kept.Keys, st.bodies.Keys);
      assert |kept + news| == |(kept + news).Keys|;
    }
  }

  lemma UnionSize<T>(a: set<T>, b: set<T>)
    ensures |a + b| <= |a| + |b|
  {
    assert a + b == a + (b - a);
    assert |a + (b - a)| == |a| + |b - a|;
    assert b == (b - a) + (b * a);
  }

  lemma WrittenConserved(st: State, now: Instant, clients: seq<Cell>, servers: seq<Cell>, counted: seq<Cell>,
                         bodiesOk: bool, spansOk: bool)
    requires Conserved(st)
    requires |clients| == |servers| == |counted| == |st.pending|
    ensures Conserved(Written(st, now, clients, servers, counted, bodiesOk, spansOk))
  {
    if st.pending == [] {
      return;
    }
    var decided := st.(columns := Fill(st.columns, clients, servers, counted), pending := []);
    SavedArrivals(decided, now, bodiesOk);
    FilledCarries(st.columns, st.held, clients, servers, counted);
    InsertKeeps(BodiesSaved(decided, now, bodiesOk).log, SpanRows(decided.columns, st.held, spansOk));
  }

  lemma FilledCarries(c: Columns, arrivals: seq<Arrival>, clients: seq<Cell>, servers: seq<Cell>, counted: seq<Cell>)
    requires Carries(c, arrivals) && |clients| == |servers| == |counted| == |arrivals|
    ensures Carries(Fill(c, clients, servers, counted), arrivals)
    ensures DecidedRows(Fill(c, clients, servers, counted), |arrivals|)
  {
  }

  lemma SavedArrivals(st: State, now: Instant, ok: bool)
    requires Aligned(st.log)
    ensures Aligned(BodiesSaved(st, now, ok).log)
    ensures WrittenArrivals(BodiesSaved(st, now, ok).log) == WrittenArrivals(st.log)
  {
    if st.bodies != map[] {
      var log1 := BodiesSaved(st, now, ok).log;
      assert log1[..|log1| - 1] == st.log;
    }
  }

  lemma InsertKeeps(log: seq<Write>, w: Write)
    requires Aligned(log) && w.SpanRows?
    requires Carries(w.columns, w.arrivals) && DecidedRows(w.columns, |w.arrivals|) && forall a :: a in w.arrivals ==> DataRow(a.row)
    ensures Aligned(log + [w]) && WrittenArrivals(log + [w]) == WrittenArrivals(log) + w.arrivals
  {
    assert (log + [w])[..|log|] == log;
  }

  lemma SpansAfterBodies(st: State, now: Instant, bodiesOk: bool, w: Write)
    requires BodiesKept(st) && st.clock <= now && w.SpanRows? && w.arrivals == st.held
    ensures BodiesBeforeSpans(BodiesSaved(st, now, bodiesOk).log + [w])
  {
    var log1 := BodiesSaved(st, now, bodiesOk).log;
    var log := log1 + [w];
    forall k, a, hash | 0 <= k < |log| && log[k].SpanRows? && !BodiesFailed(log, k) && a in log[k].arrivals
                        && hash in Hashes(a.row)
      ensures BodyWritten(log[..k], hash, a.at)
    {
      if k == |log1| {
        assert log[..k] == log1;
        if st.bodies != map[] {
          assert log[k - 1] == Bodies(st.bodies, now, bodiesOk);
        }
        SavedBodiesWritten(st, now, bodiesOk);
      } else {
        assert k < |st.log| && log[k] == st.log[k] && log[..k] == st.log[..k];
        assert k > 0 ==> log[k - 1] == st.log[k - 1];
      }
    }
  }

  lemma SpansKeepRemembered(st1: State, w: Write, st2: State)
    requires Remembered(st1) && st2.writtenAt == st1.writtenAt && st2.log == st1.log + [w]
    ensures Remembered(st2)
  {
    forall hash | hash in st2.writtenAt
      ensures exists k :: 0 <= k < |st2.log| && st2.log[k].Bodies? && st2.log[k].ok && hash in st2.log[k].bodies
                && st2.log[k].at == st2.writtenAt[hash]
    {
      var k :| 0 <= k < |st1.log| && st1.log[k].Bodies? && st1.log[k].ok && hash in st1.log[k].bodies
        && st1.log[k].at == st1.writtenAt[hash];
      assert st2.log[k] == st1.log[k];
    }
  }

  lemma SpansKeepBound(st1: State, w: Write, st2: State)
    requires RememberedBound(st1) && st2.writtenAt == st1.writtenAt && st2.log == st1.log + [w]
    ensures RememberedBound(st2)
  {
    if |st1.writtenAt| > MAX_BODIES_WRITTEN {
      var k :| 0 <= k < |st1.log| && st1.log[k].Bodies? && |st1.writtenAt| <= |st1.log[k].bodies|;
      assert st2.log[k] == st1.log[k];
    }
  }

  lemma WrittenBodies(st: State, now: Instant, clients: seq<Cell>, servers: seq<Cell>, counted: seq<Cell>,
                      bodiesOk: bool, spansOk: bool)
    requires BodiesKept(st) && st.clock <= now
    ensures BodiesKept(Written(st, now, clients, servers, counted, bodiesOk, spansOk))
  {
    if st.pending == [] {
      return;
    }
    var decided := st.(columns := Fill(st.columns, clients, servers, counted), pending := []);
    var st1 := BodiesSaved(decided, now, bodiesOk);
    var w := SpanRows(decided.columns, st.held, spansOk);
    SpansAfterBodies(decided, now, bodiesOk, w);
    SavedRemembered(decided, now, bodiesOk);
    SavedBound(decided, now, bodiesOk);
    SpansKeepRemembered(st1, w, Inserted(st1, spansOk));
    SpansKeepBound(st1, w, Inserted(st1, spansOk));
  }

  // ----- every run -----

  /** What happens to a batch: the spans of a request arrive, or the batch is written with what was
      decided for its spans, each insert failing or not. */
  datatype Op =
    | Add(spans: seq<Incoming>, at: Instant)
    | Write(at: Instant, clients: seq<Cell>, servers: seq<Cell>, counted: seq<Cell>, bodiesOk: bool, spansOk: bool)

  function ArrivingAll(env: Env, spans: seq<Incoming>): seq<Arriving> {
    seq(|spans|, i requires 0 <= i < |spans| => ArrivingOf(env, spans[i]))
  }

  lemma ArrivingAllSound(env: Env, spans: seq<Incoming>)
    ensures forall x :: x in ArrivingAll(env, spans) ==> OneSpan(env, x)
  {
    forall i | 0 <= i < |spans| ensures OneSpan(env, ArrivingAll(env, spans)[i]) {
      ArrivingIsOneSpan(env, spans[i]);
    }
  }

  function Apply(env: Env, st: State, op: Op): State {
    match op
    case Add(spans, at) => AllArrived(env, st, ArrivingAll(env, spans), at)
    case Write(at, clients, servers, counted, bodiesOk, spansOk) =>
      Written(st, at, clients, servers, counted, bodiesOk, spansOk)
  }

  function Run(env: Env, ops: seq<Op>): State {
    if ops == [] then NEW else Apply(env, Run(env, ops[..|ops| - 1]), ops[|ops| - 1])
  }

  /** The clock does not go back, and a write decides for each span held. */
  ghost predicate Possible(env: Env, ops: seq<Op>) {
    ops != [] ==>
      var before, op := ops[..|ops| - 1], ops[|ops| - 1];
      && Possible(env, before)
      && Run(env, before).clock <= op.at
      && (op.Write? ==> |op.clients| == |op.servers| == |op.counted| == |Run(env, before).pending|)
  }

  lemma RunNext(env: Env, ops: seq<Op>, op: Op)
    requires Possible(env, ops) && Run(env, ops).clock <= op.at
    requires op.Write? ==> |op.clients| == |op.servers| == |op.counted| == |Run(env, ops).pending|
    ensures Possible(env, ops + [op]) && Run(env, ops + [op]) == Apply(env, Run(env, ops), op)
  {
    assert (ops + [op])[..|ops|] == ops;
  }

  lemma {:induction false} RunInvariant(env: Env, ops: seq<Op>)
    requires Possible(env, ops)
    ensures Invariant(Run(env, ops))
  {
    if ops == [] {
      NewInvariant();
      return;
    }
    var before, op := ops[..|ops| - 1], ops[|ops| - 1];
    RunInvariant(env, before);
    match op {
      case Add(spans, at) =>
        ArrivingAllSound(env, spans);
        AllArrivedInvariant(env, Run(env, before), ArrivingAll(env, spans), at);
      case Write(at, clients, servers, counted, bodiesOk, spansOk) =>
        WrittenConserved(Run(env, before), at, clients, servers, counted, bodiesOk, spansOk);
        WrittenBodies(Run(env, before), at, clients, servers, counted, bodiesOk, spansOk);
    }
  }

  /** The rows of the spans that arrived, in order. */
  function AddedRows(env: Env, ops: seq<Op>): seq<Row> {
    if ops == [] then []
    else
      AddedRows(env, ops[..|ops| - 1]) + match ops[|ops| - 1]
        case Add(spans, _) => seq(|spans|, i requires 0 <= i < |spans| => RowOf(env, spans[i]))
        case Write(_, _, _, _, _, _) => []
  }

  function Rows(arrivals: seq<Arrival>): seq<Row> {
    seq(|arrivals|, i requires 0 <= i < |arrivals| => arrivals[i].row)
  }

  /** The rows across the data columns, none if these are not equally long. */
  ghost function ColumnRows(c: Columns): seq<Row> {
    if Timestamp in c && DataRows(c, |c[Timestamp]|) then
      seq(|c[Timestamp]|, i requires 0 <= i < |c[Timestamp]| => RowAt(c, |c[Timestamp]|, i))
    else []
  }

  /** The rows passed to exec, insert after insert. */
  ghost function TableRows(log: seq<Write>): seq<Row> {
    if log == [] then []
    else
      TableRows(log[..|log| - 1]) + match log[|log| - 1]
        case SpanRows(columns, _, _) => ColumnRows(columns)
        case Bodies(_, _, _) => []
  }

  lemma CarriedRow(c: Columns, arrivals: seq<Arrival>, i: nat)
    requires Carries(c, arrivals) && i < |arrivals| && DataRow(arrivals[i].row)
    ensures RowAt(c, |arrivals|, i) == arrivals[i].row
  {
  }

  lemma CarriedRows(c: Columns, arrivals: seq<Arrival>)
    requires Carries(c, arrivals) && forall a :: a in arrivals ==> DataRow(a.row)
    ensures ColumnRows(c) == Rows(arrivals)
  {
    assert !Timestamp.Decided() && |c[Timestamp]| == |arrivals|;
    forall i: nat | i < |arrivals| ensures RowAt(c, |arrivals|, i) == arrivals[i].row {
      CarriedRow(c, arrivals, i);
    }
  }

  lemma RowsConcat(a: seq<Arrival>, b: seq<Arrival>)
    ensures Rows(a + b) == Rows(a) + Rows(b)
  {
  }

  lemma {:induction false} TableRowsAreArrivals(log: seq<Write>)
    requires Aligned(log)
    ensures TableRows(log) == Rows(WrittenArrivals(log))
  {
    if log != [] {
      var before := log[..|log| - 1];
      TableRowsAreArrivals(before);
      match log[|log| - 1] {
        case SpanRows(columns, arrivals, _) =>
          CarriedRows(columns, arrivals);
          RowsConcat(WrittenArrivals(before), arrivals);
        case Bodies(_, _, _) =>
      }
    }
  }

  lemma ArrivalRows(env: Env, spans: seq<Incoming>, at: Instant)
    ensures Rows(Arrivals(ArrivingAll(env, spans), at)) == seq(|spans|, i requires 0 <= i < |spans| => RowOf(env, spans[i]))
  {
  }

  lemma {:induction false} AddedByRun(env: Env, ops: seq<Op>)
    requires Possible(env, ops)
    ensures Rows(Run(env, ops).added) == AddedRows(env, ops)
  {
    if ops != [] {
      var before, op := ops[..|ops| - 1], ops[|ops| - 1];
      AddedByRun(env, before);
      RunInvariant(env, before);
      if op.Add? {
        ArrivingAllSound(env, op.spans);
        AllArrivedAdds(env, Run(env, before), ArrivingAll(env, op.spans), op.at);
        RowsConcat(Run(env, before).added, Arrivals(ArrivingAll(env, op.spans), op.at));
        ArrivalRows(env, op.spans, op.at);
      }
    }
  }

  /** Conservation: the rows passed to exec, then those held, are those of the spans that arrived,
      each once and in order, even when inserts fail; the 27 columns of each insert are equally long. */
  lemma EverySpanWrittenOnce(env: Env, ops: seq<Op>)
    requires Possible(env, ops)
    ensures var st := Run(env, ops);
            && TableRows(st.log) + ColumnRows(st.columns) == AddedRows(env, ops)
            && (forall k :: 0 <= k < |st.log| && st.log[k].SpanRows? ==>
                  DataRows(st.log[k].columns, |st.log[k].arrivals|) && DecidedRows(st.log[k].columns, |st.log[k].arrivals|))
            && DataRows(st.columns, |st.pending|)
  {
    RunInvariant(env, ops);
    AddedByRun(env, ops);
    var st := Run(env, ops);
    TableRowsAreArrivals(st.log);
    CarriedRows(st.columns, st.held);
    RowsConcat(WrittenArrivals(st.log), st.held);
  }

  /** A span is never written before its bodies are, unless their insert failed, and the bodies were
      written less than an hour before it arrived; what is remembered is bounded. */
  lemma BodiesWrittenFirst(env: Env, ops: seq<Op>)
    requires Possible(env, ops)
    ensures BodiesBeforeSpans(Run(env, ops).log) && RememberedBound(Run(env, ops))
  {
    RunInvariant(env, ops);
  }
}

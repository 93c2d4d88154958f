/** ch/migrations.go: the schema migration protocol of a project's ClickHouse database.

    Replicas of Coroot take turns under a lock in Postgres, which also holds the recorded version;
    the tables are in ClickHouse, and nothing spans the two stores. A statement or a write of the
    version may fail, before or after it took effect, and a replica may die between any two steps.
    Every interleaving of such steps is shown to be one migration history, run by nobody in
    particular: statements in order, each version recorded once its migration ran to its end. */
module Migrations {
  import opened Prelude

  /** The migrations of all releases: migration m (Version m + 1) has steps[m] statements, its Run
      being the last. Statement sentinelAt of the first creates the sentinel table. Replica r knows
      the first knows[r] migrations: a released migration never changes. */
  datatype Config = Config(steps: seq<nat>, sentinelAt: nat, knows: seq<nat>) {
    predicate Sound() {
      && |steps| > 0 && sentinelAt < steps[0]
      && forall r :: 0 <= r < |knows| ==> knows[r] <= |steps|
    }
  }

  datatype Phase =
    | Idle
    | Reading
    | Checking(version: nat)
    | Running(migration: nat, statement: nat)
    | Recording(migration: nat)
    | Returned(ok: bool)
  {
    predicate Active() {
      Reading? || Checking? || Running? || Recording?
    }
  }

  /** What completed: a statement of a migration, or the recording of a version. */
  datatype Event = Ran(replica: nat, migration: nat, statement: nat) | Recorded(replica: nat, version: nat)

  /** version is in Postgres; present are the statements in effect in ClickHouse. */
  datatype State = State(version: nat, present: set<(nat, nat)>, log: seq<Event>, lock: Option<nat>, phases: seq<Phase>)

  function Init(c: Config): State {
    State(0, {}, [], None, seq(|c.knows|, i => Idle))
  }

  /** How a call to a store ends: it may fail with or without its effect. */
  datatype Outcome = Succeeded | FailedAfter | FailedBefore

  datatype Action =
    | Lock(replica: nat)
    | Read(replica: nat, ok: bool)
    | Check(replica: nat, ok: bool)
    | Run(replica: nat, outcome: Outcome)
    | Record(replica: nat, outcome: Outcome)
    | Crash(replica: nat)
    | Wipe

  predicate Enabled(c: Config, s: State, a: Action) {
    a.Wipe? ||
    (a.replica < |s.phases| &&
     var phase := s.phases[a.replica];
     match a
     case Lock(_) => s.lock == None && !phase.Active()
     case Read(_, _) => phase.Reading?
     case Check(_, _) => phase.Checking?
     case Run(_, _) => phase.Running?
     case Record(_, _) => phase.Recording?
     case Crash(_) => phase.Active()
     case Wipe => true)
  }

  /** The sentinel table exists. */
  predicate Sentinel(c: Config, s: State) {
    (0, c.sentinelAt) in s.present
  }

  /** Where the loop over the migrations is, at migration m. */
  function AtMigration(c: Config, r: nat, m: nat): Phase
    requires r < |c.knows|
  {
    if m >= c.knows[r] || m >= |c.steps| then Returned(true)
    else if c.steps[m] == 0 then Recording(m)
    else Running(m, 0)
  }

  /** The replica goes on; returning gives the lock back. */
  function Goes(s: State, r: nat, phase: Phase): State
    requires r < |s.phases|
  {
    s.(phases := s.phases[r := phase], lock := if phase.Active() then Some(r) else None)
  }

  /** Statement k of migration m ends. */
  function DoRun(c: Config, s: State, r: nat, m: nat, k: nat, outcome: Outcome): State
    requires r < |s.phases|
  {
    match outcome
    case Succeeded =>
      Goes(s.(present := s.present + {(m, k)}, log := s.log + [Ran(r, m, k)]), r,
           if m < |c.steps| && k + 1 < c.steps[m] then Running(m, k + 1) else Recording(m))
    case FailedAfter => Goes(s.(present := s.present + {(m, k)}), r, Returned(false))
    case FailedBefore => Goes(s, r, Returned(false))
  }

  /** The recording of the version after migration m ends. */
  function DoRecord(c: Config, s: State, r: nat, m: nat, outcome: Outcome): State
    requires r < |s.phases| == |c.knows|
  {
    var recorded := s.(version := m + 1, log := s.log + [Recorded(r, m + 1)]);
    match outcome
    case Succeeded => Goes(recorded, r, AtMigration(c, r, m + 1))
    case FailedAfter => Goes(recorded, r, Returned(false))
    case FailedBefore => Goes(s, r, Returned(false))
  }

  function Do(c: Config, s: State, a: Action): State
    requires Enabled(c, s, a) && |s.phases| == |c.knows|
  {
    if a.Wipe? then s.(present := {}) else
    var r := a.replica;
    var phase := s.phases[r];
    match a
    case Lock(_) => Goes(s, r, Reading)
    case Read(_, ok) =>
      if !ok then Goes(s, r, Returned(false))
      else if s.version > 0 then Goes(s, r, Checking(s.version))
      else Goes(s, r, AtMigration(c, r, 0))
    case Check(_, ok) =>
      if !ok then Goes(s, r, Returned(false))
      else Goes(s, r, AtMigration(c, r, if Sentinel(c, s) then phase.version else 0))
    case Run(_, outcome) => DoRun(c, s, r, phase.migration, phase.statement, outcome)
    case Record(_, outcome) => DoRecord(c, s, r, phase.migration, outcome)
    case Crash(_) => Goes(s, r, Idle)
  }

  /** The run of some actions is possible from the start. */
  ghost predicate Possible(c: Config, acts: seq<Action>)
    decreases |acts|, 0
  {
    acts != [] ==> Possible(c, acts[..|acts| - 1]) && Enabled(c, After(c, acts[..|acts| - 1]), acts[|acts| - 1])
  }

  ghost function After(c: Config, acts: seq<Action>): (s: State)
    requires Possible(c, acts)
    ensures |s.phases| == |c.knows|
    decreases |acts|, 1
  {
    if acts == [] then Init(c) else Do(c, After(c, acts[..|acts| - 1]), acts[|acts| - 1])
  }

  // ----- the specification: one sequential migration -----

  /** version migrations are recorded, and of the next one done statements ran in order. */
  datatype Progress = Progress(version: nat, done: nat)

  /** The log as the history of one migrator that may start a migration anew, but records it only
      after its last statement; None if it is no such history. */
  function Replay(c: Config, log: seq<Event>): Option<Progress> {
    if log == [] then Some(Progress(0, 0))
    else
      match Replay(c, log[..|log| - 1])
      case None => None
      case Some(p) =>
        if p.version >= |c.steps| then None
        else
          match log[|log| - 1]
          case Ran(_, m, k) =>
            if m == p.version && k < c.steps[m] && (k == 0 || k == p.done) then Some(Progress(m, k + 1)) else None
          case Recorded(_, v) =>
            if v == p.version + 1 && p.done == c.steps[p.version] then Some(Progress(v, 0)) else None
  }

  /** All statements of the first n migrations are in effect. */
  ghost predicate Applied(c: Config, present: set<(nat, nat)>, n: nat) {
    forall m, k :: 0 <= m < n && m < |c.steps| && 0 <= k < c.steps[m] ==> (m, k) in present
  }

  // ----- what every wipe-free run keeps -----

  /** What the replica holding the lock knows to be so. */
  ghost predicate HolderKnows(c: Config, s: State, r: nat, p: Progress)
    requires r < |s.phases| == |c.knows|
  {
    match s.phases[r]
    case Checking(v) => v == s.version && v > 0
    case Running(m, k) => m == s.version && m < c.knows[r] && m < |c.steps| && k < c.steps[m] && (k == 0 || k == p.done)
    case Recording(m) => m == s.version && m < c.knows[r] && m < |c.steps| && p.done == c.steps[m]
    case Returned(ok) => ok ==> s.version >= c.knows[r]
    case _ => true
  }

  ghost predicate Inv(c: Config, s: State) {
    && |s.phases| == |c.knows|
    && Replay(c, s.log).Some?
    && var p := Replay(c, s.log).value;
    && p.version == s.version
    && (forall r :: 0 <= r < |s.phases| ==> HolderKnows(c, s, r, p))
    && (forall r :: 0 <= r < |s.phases| ==> (s.phases[r].Active() <==> s.lock == Some(r)))
    && Applied(c, s.present, s.version)
    && (s.version < |c.steps| ==> forall k :: 0 <= k < p.done && k < c.steps[s.version] ==> (s.version, k) in s.present)
    && KnownOnly(c, s.log)
  }

  /** A replica only touches the migrations it knows. */
  ghost predicate KnownOnly(c: Config, log: seq<Event>) {
    forall e :: e in log ==> Knows(c, e)
  }

  predicate Knows(c: Config, e: Event) {
    && e.replica < |c.knows|
    && match e
       case Ran(r, m, _) => m < c.knows[r]
       case Recorded(r, v) => v <= c.knows[r]
  }

  lemma InitInv(c: Config)
    requires c.Sound()
    ensures Inv(c, Init(c))
  {
  }

  lemma {:induction false} ReplayNext(c: Config, log: seq<Event>, e: Event, p: Progress)
    requires Replay(c, log) == Some(p) && p.version < |c.steps|
    ensures e.Ran? && e.migration == p.version && e.statement < c.steps[p.version] && (e.statement == 0 || e.statement == p.done)
            ==> Replay(c, log + [e]) == Some(Progress(p.version, e.statement + 1))
    ensures e.Recorded? && e.version == p.version + 1 && p.done == c.steps[p.version]
            ==> Replay(c, log + [e]) == Some(Progress(p.version + 1, 0))
  {
    assert (log + [e])[..|log|] == log;
  }

  /** The holder goes on to a phase it may be in, nothing else having changed for the others. */
  lemma GoesInv(c: Config, s: State, s': State, r: nat, phase: Phase)
    requires c.Sound() && Inv(c, s) && r < |s.phases| && (s.lock == Some(r) || s.lock == None)
    requires s'.version >= s.version && s'.present >= s.present && s'.phases == s.phases && s'.lock == s.lock
    requires Replay(c, s'.log).Some? && Replay(c, s'.log).value.version == s'.version && KnownOnly(c, s'.log)
    requires Applied(c, s'.present, s'.version)
    requires var p := Replay(c, s'.log).value;
             s'.version < |c.steps| ==> forall k :: 0 <= k < p.done && k < c.steps[s'.version] ==> (s'.version, k) in s'.present
    requires HolderKnows(c, s'.(phases := s'.phases[r := phase]), r, Replay(c, s'.log).value)
    ensures Inv(c, Goes(s', r, phase))
  {
    var after, p := Goes(s', r, phase), Replay(c, s'.log).value;
    forall q | 0 <= q < |after.phases| ensures HolderKnows(c, after, q, p) {
      if q == r {
        assert after.phases[r] == s'.phases[r := phase][r];
      } else {
        assert !s.phases[q].Active() && after.phases[q] == s.phases[q];
        assert HolderKnows(c, s, q, Replay(c, s.log).value);
      }
    }
  }

  /** A statement that failed, with its effect or without. */
  lemma FailedInv(c: Config, s: State, r: nat, present: set<(nat, nat)>)
    requires c.Sound() && Inv(c, s) && r < |s.phases| && s.phases[r].Active() && present >= s.present
    ensures Inv(c, Goes(s.(present := present), r, Returned(false)))
  {
    GoesInv(c, s, s.(present := present), r, Returned(false));
  }

  lemma DoneRunInv(c: Config, s: State, r: nat, m: nat, k: nat)
    requires c.Sound() && Inv(c, s) && r < |s.phases| && s.phases[r] == Running(m, k)
    ensures m < |c.steps|
    ensures Inv(c, Goes(s.(present := s.present + {(m, k)}, log := s.log + [Ran(r, m, k)]), r,
                        if k + 1 < c.steps[m] then Running(m, k + 1) else Recording(m)))
  {
    var p := Replay(c, s.log).value;
    assert HolderKnows(c, s, r, p);
    ReplayNext(c, s.log, Ran(r, m, k), p);
    GoesInv(c, s, s.(present := s.present + {(m, k)}, log := s.log + [Ran(r, m, k)]), r,
            if k + 1 < c.steps[m] then Running(m, k + 1) else Recording(m));
  }

  lemma RunInv(c: Config, s: State, r: nat, m: nat, k: nat, outcome: Outcome)
    requires c.Sound() && Inv(c, s) && r < |s.phases| && s.phases[r] == Running(m, k)
    ensures Inv(c, DoRun(c, s, r, m, k, outcome))
  {
    match outcome {
      case Succeeded => DoneRunInv(c, s, r, m, k);
      case FailedAfter => FailedInv(c, s, r, s.present + {(m, k)});
      case FailedBefore => FailedInv(c, s, r, s.present);
    }
  }

  /** A recording that took effect, whether the replica learns of it or not. */
  lemma RecordedInv(c: Config, s: State, r: nat, m: nat, phase: Phase)
    requires c.Sound() && Inv(c, s) && r < |s.phases| && s.phases[r] == Recording(m)
    requires phase == AtMigration(c, r, m + 1) || phase == Returned(false)
    ensures Inv(c, Goes(s.(version := m + 1, log := s.log + [Recorded(r, m + 1)]), r, phase))
  {
    var p := Replay(c, s.log).value;
    assert HolderKnows(c, s, r, p);
    ReplayNext(c, s.log, Recorded(r, m + 1), p);
    GoesInv(c, s, s.(version := m + 1, log := s.log + [Recorded(r, m + 1)]), r, phase);
  }

  lemma RecordInv(c: Config, s: State, r: nat, m: nat, outcome: Outcome)
    requires c.Sound() && Inv(c, s) && r < |s.phases| && s.phases[r] == Recording(m)
    ensures Inv(c, DoRecord(c, s, r, m, outcome))
  {
    match outcome {
      case Succeeded => RecordedInv(c, s, r, m, AtMigration(c, r, m + 1));
      case FailedAfter => RecordedInv(c, s, r, m, Returned(false));
      case FailedBefore => FailedInv(c, s, r, s.present);
    }
  }

  lemma StepInv(c: Config, s: State, a: Action)
    requires c.Sound() && Inv(c, s) && Enabled(c, s, a) && !a.Wipe?
    ensures Inv(c, Do(c, s, a))
  {
    var p := Replay(c, s.log).value;
    match a
    case Run(r, outcome) => RunInv(c, s, r, s.phases[r].migration, s.phases[r].statement, outcome);
    case Record(r, outcome) => RecordInv(c, s, r, s.phases[r].migration, outcome);
    case Lock(r) => GoesInv(c, s, s, r, Reading);
    case Read(r, ok) =>
      GoesInv(c, s, s, r, if !ok then Returned(false) else if s.version > 0 then Checking(s.version) else AtMigration(c, r, 0));
    case Check(r, ok) =>
      assert HolderKnows(c, s, r, p);
      assert Sentinel(c, s);
      GoesInv(c, s, s, r, if !ok then Returned(false) else AtMigration(c, r, s.version));
    case Crash(r) => GoesInv(c, s, s, r, Idle);
  }

  /** No outside wipe of ClickHouse in the run. */
  predicate WipeFree(acts: seq<Action>) {
    forall i :: 0 <= i < |acts| ==> !acts[i].Wipe?
  }

  lemma {:induction false} RunsKeepInv(c: Config, acts: seq<Action>)
    requires c.Sound() && Possible(c, acts) && WipeFree(acts)
    ensures Inv(c, After(c, acts))
  {
    if acts == [] {
      InitInv(c);
    } else {
      RunsKeepInv(c, acts[..|acts| - 1]);
      StepInv(c, After(c, acts[..|acts| - 1]), acts[|acts| - 1]);
    }
  }

  // ----- what an accepted history is -----

  /** The statements that ran, in order. */
  function Statements(log: seq<Event>): seq<(nat, nat)> {
    if log == [] then []
    else
      Statements(log[..|log| - 1]) + match log[|log| - 1]
        case Ran(_, m, k) => [(m, k)]
        case Recorded(_, _) => []
  }

  /** The versions that were recorded, in order. */
  function Versions(log: seq<Event>): seq<nat> {
    if log == [] then []
    else
      Versions(log[..|log| - 1]) + match log[|log| - 1]
        case Ran(_, _, _) => []
        case Recorded(_, v) => [v]
  }

  /** The first n statements of a migration. */
  function Pass(m: nat, n: nat): seq<(nat, nat)> {
    seq(n, k => (m, k))
  }

  predicate EndsWith<T(==)>(s: seq<T>, end: seq<T>) {
    |end| <= |s| && s[|s| - |end|..] == end
  }

  /** When version v is recorded, the statements that ran end with all those of migration v, in order. */
  ghost predicate RecordedAfterPass(c: Config, log: seq<Event>) {
    forall i :: 0 <= i < |log| && log[i].Recorded? ==>
      0 < log[i].version <= |c.steps| && EndsWith(Statements(log[..i]), Pass(log[i].version - 1, c.steps[log[i].version - 1]))
  }

  lemma {:induction false} VersionsInOrder(c: Config, log: seq<Event>)
    requires Replay(c, log).Some?
    ensures Versions(log) == seq(Replay(c, log).value.version, i => i + 1)
  {
    if log != [] {
      VersionsInOrder(c, log[..|log| - 1]);
    }
  }

  lemma PassNext(s: seq<(nat, nat)>, m: nat, k: nat, done: nat)
    requires EndsWith(s, Pass(m, done)) && (k == 0 || k == done)
    ensures EndsWith(s + [(m, k)], Pass(m, k + 1))
  {
    var all := s + [(m, k)];
    assert Pass(m, k + 1) == Pass(m, k) + [(m, k)];
    assert all[|all| - (k + 1)..] == s[|s| - k..] + [(m, k)];
  }

  lemma {:induction false} StatementsInOrder(c: Config, log: seq<Event>)
    requires Replay(c, log).Some?
    ensures EndsWith(Statements(log), Pass(Replay(c, log).value.version, Replay(c, log).value.done))
  {
    if log != [] {
      var before := log[..|log| - 1];
      StatementsInOrder(c, before);
      var q := Replay(c, before).value;
      if log[|log| - 1].Ran? {
        PassNext(Statements(before), q.version, log[|log| - 1].statement, q.done);
      }
    }
  }

  lemma {:induction false} AcceptedPrefix(c: Config, log: seq<Event>, i: nat)
    requires Replay(c, log).Some? && i <= |log|
    ensures Replay(c, log[..i]).Some?
  {
    if i < |log| {
      AcceptedPrefix(c, log[..|log| - 1], i);
      assert log[..|log| - 1][..i] == log[..i];
    } else {
      assert log[..i] == log;
    }
  }

  lemma {:induction false} RecordedInOrder(c: Config, log: seq<Event>)
    requires Replay(c, log).Some?
    ensures RecordedAfterPass(c, log)
  {
    forall i | 0 <= i < |log| && log[i].Recorded?
      ensures 0 < log[i].version <= |c.steps|
      ensures EndsWith(Statements(log[..i]), Pass(log[i].version - 1, c.steps[log[i].version - 1]))
    {
      AcceptedPrefix(c, log, i);
      AcceptedPrefix(c, log, i + 1);
      assert log[..i + 1][..i] == log[..i];
      StatementsInOrder(c, log[..i]);
    }
  }

  // ----- the safety of every wipe-free run -----

  /** A recorded version v means that migrations 1..v ran to completion, in order, and are in effect. */
  lemma VersionMeansMigrated(c: Config, acts: seq<Action>)
    requires c.Sound() && Possible(c, acts) && WipeFree(acts)
    ensures var s := After(c, acts);
            && Versions(s.log) == seq(s.version, i => i + 1)
            && RecordedAfterPass(c, s.log)
            && Applied(c, s.present, s.version)
  {
    RunsKeepInv(c, acts);
    VersionsInOrder(c, After(c, acts).log);
    RecordedInOrder(c, After(c, acts).log);
  }

  /** A call that returned nil left the version at least at what its replica knows, for good. */
  lemma {:induction false} NilMeansMigrated(c: Config, acts: seq<Action>, r: nat)
    requires c.Sound() && Possible(c, acts) && WipeFree(acts)
    requires r < |c.knows| && After(c, acts).phases[r] == Returned(true)
    ensures After(c, acts).version >= c.knows[r] && Applied(c, After(c, acts).present, c.knows[r])
  {
    RunsKeepInv(c, acts);
    assert HolderKnows(c, After(c, acts), r, Replay(c, After(c, acts).log).value);
  }

  /** No step lowers the version, and a replica that knows fewer migrations changes nothing. */
  lemma {:induction false} StepsAreSafe(c: Config, acts: seq<Action>, a: Action)
    requires c.Sound() && Possible(c, acts) && WipeFree(acts) && Enabled(c, After(c, acts), a) && !a.Wipe?
    ensures var s, s' := After(c, acts), Do(c, After(c, acts), a);
            && s'.version >= s.version
            && (s.version > c.knows[a.replica] ==> s'.version == s.version && s'.present == s.present && s'.log == s.log)
  {
    RunsKeepInv(c, acts);
    assert HolderKnows(c, After(c, acts), a.replica, Replay(c, After(c, acts).log).value);
  }

  /** ... so the version never goes down over a run. */
  lemma {:induction false} VersionNeverDecreases(c: Config, acts: seq<Action>, i: nat)
    requires c.Sound() && Possible(c, acts) && WipeFree(acts) && i <= |acts|
    ensures Possible(c, acts[..i]) && After(c, acts[..i]).version <= After(c, acts).version
  {
    if i == |acts| {
      assert acts[..i] == acts;
    } else {
      var before := acts[..|acts| - 1];
      assert before[..i] == acts[..i];
      VersionNeverDecreases(c, before, i);
      StepsAreSafe(c, before, acts[|acts| - 1]);
    }
  }

  // ----- one call of Migrate -----

  lemma PossibleNext(c: Config, acts: seq<Action>, a: Action)
    requires Possible(c, acts) && Enabled(c, After(c, acts), a)
    ensures Possible(c, acts + [a]) && After(c, acts + [a]) == Do(c, After(c, acts), a)
    ensures WipeFree(acts) && !a.Wipe? ==> WipeFree(acts + [a])
  {
    assert (acts + [a])[..|acts|] == acts;
  }

  lemma StatementsNext(c: Config, present: set<(nat, nat)>, from: nat, m: nat)
    requires from <= m < |c.steps|
    ensures present + StatementsOf(c, from, m) + StatementsOf(c, m, m + 1) == present + StatementsOf(c, from, m + 1)
  {
    assert StatementsOf(c, from, m + 1) == StatementsOf(c, from, m) + StatementsOf(c, m, m + 1);
  }

  lemma NoStatements(c: Config, present: set<(nat, nat)>, from: nat)
    requires from <= |c.steps|
    ensures present + StatementsOf(c, from, from) == present
  {
    assert StatementsOf(c, from, from) == {};
  }

  /** The statements of the migrations from..to. */
  function StatementsOf(c: Config, from: nat, to: nat): set<(nat, nat)>
    requires to <= |c.steps|
  {
    set m, k | from <= m < to && 0 <= k < c.steps[m] :: (m, k)
  }

  /** Where a call starts: the recorded version, or the first migration when the sentinel is gone. */
  function StartOf(c: Config, version: nat, present: set<(nat, nat)>): nat {
    if version > 0 && (0, c.sentinelAt) in present then version else 0
  }

  /** The statements from a start on complete what is known exactly if those before it were there. */
  lemma MigratedIff(c: Config, present: set<(nat, nat)>, start: nat, known: nat)
    requires start <= known <= |c.steps|
    ensures Applied(c, present + StatementsOf(c, start, known), known) <==> start == 0 || Applied(c, present, start)
  {
    var all := present + StatementsOf(c, start, known);
    if start == 0 || Applied(c, present, start) {
      forall m, k | 0 <= m < known && 0 <= k < c.steps[m] ensures (m, k) in all {
        if m >= start {
          assert (m, k) in StatementsOf(c, start, known);
        }
      }
    }
    if Applied(c, all, known) {
      forall m, k | 0 <= m < start && m < |c.steps| && 0 <= k < c.steps[m] ensures (m, k) in present {
        assert (m, k) in all;
      }
    }
  }

  lemma StepTo(c: Config, acts: seq<Action>, s: State, a: Action, s': State)
    requires Possible(c, acts) && After(c, acts) == s && Enabled(c, s, a) && |s.phases| == |c.knows| && Do(c, s, a) == s'
    ensures Possible(c, acts + [a]) && After(c, acts + [a]) == s'
  {
    PossibleNext(c, acts, a);
  }

  // One migration of two statements, the first creating the sentinel table, and one replica.
  const TWO_STATEMENTS: Config := Config([2], 0, [1])

  /** The state of that replica's stores between or within its calls. */
  function Lone(version: nat, present: set<(nat, nat)>, log: seq<Event>, phase: Phase): State {
    State(version, present, log, if phase.Active() then Some(0) else None, [phase])
  }

  /** A call that finds no version, or no sentinel, starts from the first migration ... */
  lemma StartsAnew(acts: seq<Action>, version: nat, log: seq<Event>, was: Phase) returns (longer: seq<Action>)
    requires Possible(TWO_STATEMENTS, acts) && After(TWO_STATEMENTS, acts) == Lone(version, {}, log, was) && !was.Active()
    ensures Possible(TWO_STATEMENTS, longer) && (forall a :: a in acts ==> a in longer)
    ensures After(TWO_STATEMENTS, longer) == Lone(version, {}, log, Running(0, 0))
  {
    var reading := Lone(version, {}, log, Reading);
    StepTo(TWO_STATEMENTS, acts, After(TWO_STATEMENTS, acts), Lock(0), reading);
    longer := acts + [Lock(0)];
    var next := Lone(version, {}, log, if version == 0 then Running(0, 0) else Checking(version));
    StepTo(TWO_STATEMENTS, longer, reading, Read(0, true), next);
    longer := longer + [Read(0, true)];
    if version > 0 {
      longer := FindsNoSentinel(longer, version, log);
    }
  }

  lemma FindsNoSentinel(acts: seq<Action>, version: nat, log: seq<Event>) returns (longer: seq<Action>)
    requires Possible(TWO_STATEMENTS, acts) && After(TWO_STATEMENTS, acts) == Lone(version, {}, log, Checking(version))
    ensures Possible(TWO_STATEMENTS, longer) && (forall a :: a in acts ==> a in longer)
    ensures After(TWO_STATEMENTS, longer) == Lone(version, {}, log, Running(0, 0))
  {
    StepTo(TWO_STATEMENTS, acts, After(TWO_STATEMENTS, acts), Check(0, true), Lone(version, {}, log, Running(0, 0)));
    longer := acts + [Check(0, true)];
  }

  /** ... and runs its first statement. */
  lemma RunsFirst(acts: seq<Action>, version: nat, log: seq<Event>, was: Phase) returns (longer: seq<Action>)
    requires Possible(TWO_STATEMENTS, acts) && After(TWO_STATEMENTS, acts) == Lone(version, {}, log, was) && !was.Active()
    ensures Possible(TWO_STATEMENTS, longer) && (forall a :: a in acts ==> a in longer)
    ensures After(TWO_STATEMENTS, longer) == Lone(version, {(0, 0)}, log + [Ran(0, 0, 0)], Running(0, 1))
  {
    longer := StartsAnew(acts, version, log, was);
    StepTo(TWO_STATEMENTS, longer, After(TWO_STATEMENTS, longer), Run(0, Succeeded),
           Lone(version, {(0, 0)}, log + [Ran(0, 0, 0)], Running(0, 1)));
    longer := longer + [Run(0, Succeeded)];
  }

  lemma RunsSecond(acts: seq<Action>, s: State, log: seq<Event>) returns (longer: seq<Action>)
    requires Possible(TWO_STATEMENTS, acts) && After(TWO_STATEMENTS, acts) == s == Lone(0, {(0, 0)}, log, Running(0, 1))
    ensures Possible(TWO_STATEMENTS, longer) && Wipe in longer
    ensures After(TWO_STATEMENTS, longer) == Lone(1, {}, log + [Ran(0, 0, 1)] + [Recorded(0, 1)], Returned(true))
  {
    var c := TWO_STATEMENTS;
    var both: set<(nat, nat)> := {(0, 0), (0, 1)};
    var s1 := Lone(0, both, log + [Ran(0, 0, 1)], Recording(0));
    StepTo(c, acts, s, Run(0, Succeeded), s1);
    longer := acts + [Run(0, Succeeded)];
    var s2 := Lone(1, both, log + [Ran(0, 0, 1)] + [Recorded(0, 1)], Returned(true));
    StepTo(c, longer, s1, Record(0, Succeeded), s2);
    longer := longer + [Record(0, Succeeded)];
    StepTo(c, longer, s2, Wipe, s2.(present := {}));
    longer := longer + [Wipe];
  }

  /** After a wipe migration 1, run again, fails half way after its sentinel table is created; its
      version stays recorded. */
  lemma WipeCanLoseTheSchema() returns (acts: seq<Action>)
    ensures TWO_STATEMENTS.Sound() && Possible(TWO_STATEMENTS, acts) && Wipe in acts
    ensures var s := After(TWO_STATEMENTS, acts);
            && s == Lone(1, {(0, 0)}, s.log, Returned(false))
            && StartOf(TWO_STATEMENTS, s.version, s.present) == s.version == 1 && !Applied(TWO_STATEMENTS, s.present, 1)
  {
    var s0 := Lone(0, {}, [], Idle);
    assert After(TWO_STATEMENTS, []) == s0;
    acts := RunsFirst([], 0, [], Idle);
    acts := RunsSecond(acts, After(TWO_STATEMENTS, acts), [Ran(0, 0, 0)]);
    var log := After(TWO_STATEMENTS, acts).log;
    acts := RunsFirst(acts, 1, log, Returned(true));
    var s := After(TWO_STATEMENTS, acts);
    var lost := Lone(1, {(0, 0)}, s.log, Returned(false));
    StepTo(TWO_STATEMENTS, acts, s, Run(0, FailedBefore), lost);
    acts := acts + [Run(0, FailedBefore)];
    assert (0, 1) !in lost.present;
  }

  /** What is in effect after the first k statements of a migration ran. */
  ghost function WithPass(present: set<(nat, nat)>, m: nat, k: nat): set<(nat, nat)> {
    present + set j | 0 <= j < k :: (m, j)
  }

  lemma WithPassNext(present: set<(nat, nat)>, m: nat, k: nat)
    ensures WithPass(present, m, k + 1) == WithPass(present, m, k) + {(m, k)}
  {
  }

  lemma PassIsStatements(c: Config, present: set<(nat, nat)>, m: nat)
    requires m < |c.steps|
    ensures WithPass(present, m, c.steps[m]) == present + StatementsOf(c, m, m + 1)
  {
  }

  ghost predicate AllSucceed(outcomes: nat -> Outcome) {
    forall n :: outcomes(n).Succeeded?
  }

  /** Replica r is at a phase and holds the lock if that is one of a call; the others are in none. */
  ghost predicate Alone(s: State, r: nat, phase: Phase) {
    && r < |s.phases| && s.phases[r] == phase && s.lock == (if phase.Active() then Some(r) else None)
    && forall q :: 0 <= q < |s.phases| && q != r ==> !s.phases[q].Active()
  }

  /** The two stores, as the calls of Migrate leave them; outcomes says how the calls to the stores
      end, one after the other. The ghost fields tie them to a run of the protocol: acts are its
      actions so far, st its state, wiped whether ClickHouse was ever wiped from outside. */
  class Stores {
    const c: Config
    var version: nat
    var present: set<(nat, nat)>
    ghost var acts: seq<Action>
    ghost var st: State
    ghost var wiped: bool

    ghost predicate Tied() reads this {
      c.Sound() && Possible(c, acts) && st == After(c, acts) && (wiped || WipeFree(acts))
    }

    ghost predicate Stored() reads this {
      st.version == version && st.present == present && |st.phases| == |c.knows|
    }

    /** Replica r is at a phase of its call, the others are in none. */
    ghost predicate At(r: nat, phase: Phase) reads this {
      Stored() && r < |c.knows| && Alone(st, r, phase)
    }

    /** No call is under way. */
    ghost predicate Valid() reads this {
      Tied() && Stored() && st.lock == None && forall q :: 0 <= q < |c.knows| ==> !st.phases[q].Active()
    }

    constructor (c: Config)
      requires c.Sound()
      ensures Valid() && this.c == c && !wiped
    {
      this.c := c;
      version, present := 0, {};
      acts, st, wiped := [], Init(c), false;
    }

    /** The stores take a step of the protocol. */
    ghost method Act(a: Action)
      requires Tied() && |st.phases| == |c.knows| && Enabled(c, st, a) && !a.Wipe?
      modifies this`acts, this`st
      ensures Tied() && st == Do(c, old(st), a)
    {
      PossibleNext(c, acts, a);
      acts := acts + [a];
      st := Do(c, st, a);
    }

    /** Everything in ClickHouse is dropped, by somebody else. */
    method DropAll()
      requires Valid()
      modifies this
      ensures Valid() && wiped && version == old(version) && present == {}
    {
      PossibleNext(c, acts, Wipe);
      acts := acts + [Wipe];
      st, wiped := Do(c, st, Wipe), true;
      present := {};
    }

    /** One statement of a migration, or its Run. */
    method RunStatement(r: nat, m: nat, k: nat, outcome: Outcome) returns (ok: bool)
      requires Tied() && m < |c.steps| && k < c.steps[m] && At(r, Running(m, k))
      modifies this`present, this`acts, this`st
      ensures Tied()
      ensures ok == outcome.Succeeded?
      ensures present == if outcome.FailedBefore? then old(present) else old(present) + {(m, k)}
      ensures At(r, if !ok then Returned(false) else if k + 1 < c.steps[m] then Running(m, k + 1) else Recording(m))
    {
      Act(Run(r, outcome));
      if outcome != FailedBefore {
        present := present + {(m, k)};
      }
      ok := outcome == Succeeded;
    }

    method ExecMigration(r: nat, m: nat, outcomes: nat -> Outcome, n: nat) returns (ok: bool, n': nat)
      requires Tied() && m < |c.steps| && At(r, if c.steps[m] == 0 then Recording(m) else Running(m, 0))
      modifies this`present, this`acts, this`st
      ensures Tied()
      ensures ok ==> At(r, Recording(m)) && present == old(present) + StatementsOf(c, m, m + 1)
      ensures !ok ==> At(r, Returned(false)) && !AllSucceed(outcomes)
    {
      n' := n;
      var k := 0;
      while k < c.steps[m]
        invariant 0 <= k <= c.steps[m] && Tied()
        invariant At(r, if k < c.steps[m] then Running(m, k) else Recording(m))
        invariant present == WithPass(old(present), m, k)
      {
        var done := RunStatement(r, m, k, outcomes(n'));
        n' := n' + 1;
        if !done {
          return false, n';
        }
        WithPassNext(old(present), m, k);
        k := k + 1;
      }
      PassIsStatements(c, old(present), m);
      ok := true;
    }

    /** SetClickhouseSchemaVersion, after migration m. */
    method RecordVersion(r: nat, m: nat, outcome: Outcome) returns (ok: bool)
      requires Tied() && At(r, Recording(m))
      modifies this`version, this`acts, this`st
      ensures Tied() && ok == outcome.Succeeded?
      ensures version == if outcome.FailedBefore? then old(version) else m + 1
      ensures At(r, if ok then AtMigration(c, r, m + 1) else Returned(false))
    {
      Act(Record(r, outcome));
      if outcome != FailedBefore {
        version := m + 1;
      }
      ok := outcome == Succeeded;
    }

    /** The version the call starts from: the recorded one, or 0 when the sentinel is gone. */
    method FindVersion(r: nat, outcomes: nat -> Outcome) returns (ok: bool, start: nat)
      requires Valid() && r < |c.knows|
      modifies this`acts, this`st
      ensures Tied()
      ensures ok <==> outcomes(0).Succeeded? && (version > 0 ==> outcomes(1).Succeeded?)
      ensures ok ==> start == StartOf(c, version, present) && At(r, AtMigration(c, r, start))
      ensures !ok ==> At(r, Returned(false))
    {
      Act(Lock(r));
      start := version;
      if outcomes(0) != Succeeded {
        Act(Read(r, false));
        return false, start;
      }
      Act(Read(r, true));
      if start > 0 {
        if outcomes(1) != Succeeded {
          Act(Check(r, false));
          return false, start;
        }
        var exists' := (0, c.sentinelAt) in present;
        Act(Check(r, true));
        if !exists' {
          start := 0;
        }
      }
      ok := true;
    }

    /** Migrate, run to its end by one replica. A call that returns nil ran all migrations from where it
        started; with more recorded than it knows it does nothing. */
    method Migrate(r: nat, outcomes: nat -> Outcome) returns (ok: bool)
      requires Valid() && r < |c.knows|
      modifies this`version, this`present, this`acts, this`st
      ensures Valid() && wiped == old(wiped) && st.phases[r] == Returned(ok)
      ensures !ok ==> !AllSucceed(outcomes)
      ensures ok && !wiped ==> version >= c.knows[r] && Applied(c, present, c.knows[r])
      ensures var start := StartOf(c, old(version), old(present));
              && (start > c.knows[r] ==> version == old(version) && present == old(present))
              && (start <= c.knows[r] && ok ==>
                    && present == old(present) + StatementsOf(c, start, c.knows[r])
                    && (Applied(c, present, c.knows[r]) <==> start == 0 || Applied(c, old(present), start))
                    && version == if start < c.knows[r] then c.knows[r] else old(version))
    {
      var start;
      ok, start := FindVersion(r, outcomes);
      if !ok {
        return;
      }
      if start > c.knows[r] {
        if !wiped {
          NilMeansMigrated(c, acts, r);
        }
        return;
      }
      ok := MigrateFrom(r, start, outcomes);
      MigratedIff(c, old(present), start, c.knows[r]);
      if ok && !wiped {
        NilMeansMigrated(c, acts, r);
      }
    }

    /** The loop over the migrations the replica knows. */
    method MigrateFrom(r: nat, start: nat, outcomes: nat -> Outcome) returns (ok: bool)
      requires Tied() && r < |c.knows| && start <= c.knows[r] && At(r, AtMigration(c, r, start))
      modifies this`version, this`present, this`acts, this`st
      ensures Tied() && At(r, Returned(ok))
      ensures !ok ==> !AllSucceed(outcomes)
      ensures ok ==> present == old(present) + StatementsOf(c, start, c.knows[r])
      ensures ok ==> version == if start < c.knows[r] then c.knows[r] else old(version)
    {
      ok := true;
      var n, m := 2, start;
      NoStatements(c, present, start);
      while m < c.knows[r]
        invariant start <= m <= c.knows[r] && Tied() && At(r, AtMigration(c, r, m))
        invariant present == old(present) + StatementsOf(c, start, m)
        invariant version == if start < m then m else old(version)
      {
        ok, n := MigrateOne(r, start, m, outcomes, n, old(present));
        if !ok {
          return;
        }
        m := m + 1;
      }
      assert m == c.knows[r] && AtMigration(c, r, m) == Returned(true);
    }

    /** One turn of the loop: the migration runs, then its version is recorded. */
    method MigrateOne(r: nat, ghost start: nat, m: nat, outcomes: nat -> Outcome, n: nat, ghost was: set<(nat, nat)>)
      returns (ok: bool, n': nat)
      requires Tied() && r < |c.knows| && start <= m < c.knows[r] && m < |c.steps| && At(r, AtMigration(c, r, m))
      requires present == was + StatementsOf(c, start, m)
      modifies this`version, this`present, this`acts, this`st
      ensures Tied()
      ensures ok ==> present == was + StatementsOf(c, start, m + 1) && version == m + 1 && At(r, AtMigration(c, r, m + 1))
      ensures !ok ==> At(r, Returned(false)) && !AllSucceed(outcomes)
    {
      StatementsNext(c, was, start, m);
      ok, n' := ExecMigration(r, m, outcomes, n);
      if ok {
        ok := RecordVersion(r, m, outcomes(n'));
        n' := n' + 1;
      }
    }
  }
}

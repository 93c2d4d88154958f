/** ch/migrations.go: the migration protocol when somebody else wipes ClickHouse.

    What is in effect is what took effect since the last wipe. A call that returns nil has run
    everything from where it started; whether all that its replica knows is in effect then is decided
    by what it found when it started, and by the wipes while it ran. What was lost stays lost until
    the next wipe. */
module MigrationWipes {
  import opened Prelude
  import opened Migrations

  /** A statement, or the place of a call before it. */
  type Place = (nat, nat)

  // ----- what is in effect -----

  /** The statements that took effect since the last wipe. */
  ghost function InEffect(c: Config, acts: seq<Action>): set<Place>
    requires Possible(c, acts)
  {
    if acts == [] then {}
    else
      var before, s := InEffect(c, acts[..|acts| - 1]), After(c, acts[..|acts| - 1]);
      match acts[|acts| - 1]
      case Wipe => {}
      case Run(r, outcome) =>
        if outcome.FailedBefore? then before else before + {(s.phases[r].migration, s.phases[r].statement)}
      case _ => before
  }

  lemma {:induction false} PresentIsInEffect(c: Config, acts: seq<Action>)
    requires Possible(c, acts)
    ensures After(c, acts).present == InEffect(c, acts)
  {
    if acts != [] {
      PresentIsInEffect(c, acts[..|acts| - 1]);
    }
  }

  // ----- the places of a call -----

  predicate Earlier(a: Place, b: Place) {
    a.0 < b.0 || (a.0 == b.0 && a.1 < b.1)
  }

  /** The statements from one place to another. */
  ghost function Between(c: Config, from: Place, to: Place): set<Place> {
    set m, k | 0 <= m < |c.steps| && 0 <= k < c.steps[m] && !Earlier((m, k), from) && Earlier((m, k), to) :: (m, k)
  }

  predicate InLoop(phase: Phase) {
    phase.Running? || phase.Recording?
  }

  /** Where a call is; the recording of a version comes after the statements of its migration. */
  function PlaceOf(c: Config, phase: Phase): Place
    requires InLoop(phase)
  {
    match phase
    case Running(m, k) => (m, k)
    case Recording(m) => (m, if m < |c.steps| then c.steps[m] else 0)
  }

  /** A call of Migrate once it knows where to start: what was in effect then, and where it was at the
      last wipe since. */
  datatype Call = Call(start: nat, found: set<Place>, wipedAt: Option<Place>) {
    function First(): Place {
      if wipedAt.Some? then wipedAt.value else (start, 0)
    }

    function Base(): set<Place> {
      if wipedAt.Some? then {} else found
    }
  }

  /** The last call of a replica. */
  ghost function CallOf(c: Config, acts: seq<Action>, r: nat): Option<Call>
    requires Possible(c, acts) && r < |c.knows|
  {
    if acts == [] then None
    else
      var before, s := CallOf(c, acts[..|acts| - 1], r), After(c, acts[..|acts| - 1]);
      NextCall(c, before, s, acts[|acts| - 1], r)
  }

  function NextCall(c: Config, call: Option<Call>, s: State, a: Action, r: nat): Option<Call>
    requires r < |s.phases|
  {
    if a.Wipe? then
      if call.Some? && InLoop(s.phases[r]) then Some(call.value.(wipedAt := Some(PlaceOf(c, s.phases[r])))) else call
    else if a.replica != r then call
    else
      match a
      case Lock(_) => None
      case Read(_, true) => if s.version == 0 then Some(Call(0, s.present, None)) else None
      case Check(_, true) => if s.phases[r].Checking? then Some(Call(if Sentinel(c, s) then s.phases[r].version else 0, s.present, None)) else None
      case _ => call
  }

  /** In the loop there is a call whose statements, from where it started or from where it was at the
      last wipe, are what is in effect beside what it found. */
  ghost predicate Tracked(c: Config, present: set<Place>, call: Option<Call>, place: Place) {
    && call.Some?
    && present == call.value.Base() + Between(c, call.value.First(), place)
    && !Earlier(place, call.value.First())
    && (call.value.wipedAt.Some? ==> call.value.wipedAt.value.0 <= place.0)
  }

  predicate Placed(c: Config, phase: Phase, known: nat) {
    match phase
    case Running(m, k) => m < known && m < |c.steps| && k < c.steps[m]
    case Recording(m) => m < known && m < |c.steps|
    case _ => true
  }

  ghost predicate Follows(c: Config, acts: seq<Action>)
    requires Possible(c, acts)
  {
    var s := After(c, acts);
    && (forall r :: 0 <= r < |s.phases| ==> (s.phases[r].Active() <==> s.lock == Some(r)))
    && (forall r :: 0 <= r < |s.phases| ==> Placed(c, s.phases[r], c.knows[r]))
    && (forall r | 0 <= r < |s.phases| && InLoop(s.phases[r]) :: Tracked(c, s.present, CallOf(c, acts, r), PlaceOf(c, s.phases[r])))
  }

  lemma BetweenNothing(c: Config, from: Place)
    ensures Between(c, from, from) == {}
  {
  }

  lemma BetweenNext(c: Config, from: Place, m: nat, k: nat)
    requires m < |c.steps| && k < c.steps[m] && !Earlier((m, k), from)
    ensures Between(c, from, (m, k + 1)) == Between(c, from, (m, k)) + {(m, k)}
  {
  }

  lemma BetweenOver(c: Config, from: Place, m: nat)
    requires m < |c.steps|
    ensures Between(c, from, (m + 1, 0)) == Between(c, from, (m, c.steps[m]))
  {
  }

  /** Where a call starts there is nothing of it yet. */
  lemma StartTracked(c: Config, present: set<Place>, start: nat, r: nat)
    requires c.Sound() && r < |c.knows|
    ensures var phase := AtMigration(c, r, start);
            Placed(c, phase, c.knows[r]) && (InLoop(phase) ==> Tracked(c, present, Some(Call(start, present, None)), PlaceOf(c, phase)))
  {
    BetweenNothing(c, (start, 0));
  }

  lemma RunTracked(c: Config, present: set<Place>, call: Option<Call>, m: nat, k: nat)
    requires m < |c.steps| && k < c.steps[m] && Tracked(c, present, call, (m, k))
    ensures Tracked(c, present + {(m, k)}, call, (m, k + 1))
  {
    BetweenNext(c, call.value.First(), m, k);
  }

  lemma RecordTracked(c: Config, present: set<Place>, call: Option<Call>, m: nat)
    requires m < |c.steps| && Tracked(c, present, call, (m, c.steps[m]))
    ensures Tracked(c, present, call, (m + 1, 0))
  {
    BetweenOver(c, call.value.First(), m);
  }

  lemma WipeTracked(c: Config, call: Call, place: Place)
    ensures Tracked(c, {}, Some(call.(wipedAt := Some(place))), place)
  {
    BetweenNothing(c, place);
  }

  /** The replica that acts. */
  lemma StarterTracked(c: Config, s: State, a: Action, r: nat, call: Option<Call>)
    requires c.Sound() && |s.phases| == |c.knows| && r < |c.knows| && !a.Wipe? && a.replica == r && Enabled(c, s, a)
    requires a.Lock? || a.Read? || a.Check? || a.Crash?
    ensures var s' := Do(c, s, a);
            && Placed(c, s'.phases[r], c.knows[r])
            && (InLoop(s'.phases[r]) ==> Tracked(c, s'.present, NextCall(c, call, s, a, r), PlaceOf(c, s'.phases[r])))
  {
    if a.Read? {
      StartTracked(c, s.present, 0, r);
    } else if a.Check? {
      StartTracked(c, s.present, if Sentinel(c, s) then s.phases[r].version else 0, r);
    }
  }

  lemma RunnerTracked(c: Config, s: State, a: Action, r: nat, call: Option<Call>)
    requires c.Sound() && |s.phases| == |c.knows| && r < |c.knows| && !a.Wipe? && a.replica == r && Enabled(c, s, a) && a.Run?
    requires Placed(c, s.phases[r], c.knows[r]) && Tracked(c, s.present, call, PlaceOf(c, s.phases[r]))
    ensures var s' := Do(c, s, a);
            && Placed(c, s'.phases[r], c.knows[r])
            && (InLoop(s'.phases[r]) ==> Tracked(c, s'.present, NextCall(c, call, s, a, r), PlaceOf(c, s'.phases[r])))
  {
    RunTracked(c, s.present, call, s.phases[r].migration, s.phases[r].statement);
  }

  lemma RecorderTracked(c: Config, s: State, a: Action, r: nat, call: Option<Call>)
    requires c.Sound() && |s.phases| == |c.knows| && r < |c.knows| && !a.Wipe? && a.replica == r && Enabled(c, s, a) && a.Record?
    requires Placed(c, s.phases[r], c.knows[r]) && Tracked(c, s.present, call, PlaceOf(c, s.phases[r]))
    ensures var s' := Do(c, s, a);
            && Placed(c, s'.phases[r], c.knows[r])
            && (InLoop(s'.phases[r]) ==> Tracked(c, s'.present, NextCall(c, call, s, a, r), PlaceOf(c, s'.phases[r])))
  {
    RecordTracked(c, s.present, call, s.phases[r].migration);
  }

  /** Nobody but the holder of the lock acts, and nobody but a wipe changes what the holder relies on. */
  lemma OthersWait(c: Config, s: State, a: Action, r: nat)
    requires |s.phases| == |c.knows| && r < |c.knows| && !a.Wipe? && a.replica != r && Enabled(c, s, a)
    requires forall q :: 0 <= q < |s.phases| ==> (s.phases[q].Active() <==> s.lock == Some(q))
    ensures !s.phases[r].Active() && Do(c, s, a).phases[r] == s.phases[r]
  {
    assert s.phases[r].Active() ==> s.lock == Some(r);
    assert s.phases[a.replica].Active() ==> s.lock == Some(a.replica);
  }

  lemma LockKept(c: Config, s: State, a: Action)
    requires |s.phases| == |c.knows| && Enabled(c, s, a)
    requires forall q :: 0 <= q < |s.phases| ==> (s.phases[q].Active() <==> s.lock == Some(q))
    ensures var s' := Do(c, s, a); forall q :: 0 <= q < |s'.phases| ==> (s'.phases[q].Active() <==> s'.lock == Some(q))
  {
    if !a.Wipe? {
      var s' := Do(c, s, a);
      forall q | 0 <= q < |s'.phases| ensures s'.phases[q].Active() <==> s'.lock == Some(q) {
        if q != a.replica {
          OthersWait(c, s, a, q);
        }
      }
    }
  }

  /** Every run, wipes included, is followed by the calls as tracked. */
  lemma {:induction false} RunsFollow(c: Config, acts: seq<Action>)
    requires c.Sound() && Possible(c, acts)
    ensures Follows(c, acts)
  {
    if acts == [] {
      return;
    }
    var before, a := acts[..|acts| - 1], acts[|acts| - 1];
    RunsFollow(c, before);
    var s, s' := After(c, before), After(c, acts);
    LockKept(c, s, a);
    forall r | 0 <= r < |s'.phases|
      ensures Placed(c, s'.phases[r], c.knows[r])
      ensures InLoop(s'.phases[r]) ==> Tracked(c, s'.present, CallOf(c, acts, r), PlaceOf(c, s'.phases[r]))
    {
      StepTracked(c, s, a, r, CallOf(c, before, r));
    }
  }

  lemma StepTracked(c: Config, s: State, a: Action, r: nat, call: Option<Call>)
    requires c.Sound() && |s.phases| == |c.knows| && r < |c.knows| && Enabled(c, s, a)
    requires forall q :: 0 <= q < |s.phases| ==> (s.phases[q].Active() <==> s.lock == Some(q))
    requires Placed(c, s.phases[r], c.knows[r])
    requires InLoop(s.phases[r]) ==> Tracked(c, s.present, call, PlaceOf(c, s.phases[r]))
    ensures var s' := Do(c, s, a);
            && Placed(c, s'.phases[r], c.knows[r])
            && (InLoop(s'.phases[r]) ==> Tracked(c, s'.present, NextCall(c, call, s, a, r), PlaceOf(c, s'.phases[r])))
  {
    if a.Wipe? {
      if InLoop(s.phases[r]) {
        WipeTracked(c, call.value, PlaceOf(c, s.phases[r]));
      }
    } else if a.replica == r {
      match a {
        case Run(_, _) => RunnerTracked(c, s, a, r, call);
        case Record(_, _) => RecorderTracked(c, s, a, r, call);
        case _ => StarterTracked(c, s, a, r, call);
      }
    } else {
      OthersWait(c, s, a, r);
    }
  }

  // ----- a call that returns nil -----

  /** What makes a nil return mean what it says: with no wipe since the call started, everything before
      its start was found in effect; with one, the call had not run anything yet and started anew. */
  ghost predicate FoundAll(c: Config, call: Call, known: nat) {
    match call.wipedAt
    case None => call.start == 0 || Applied(c, call.found, if call.start <= known then call.start else known)
    case Some(place) => place == (0, 0)
  }

  /** The action is the last of a call of r that returns nil. */
  ghost predicate ReturnsNil(c: Config, acts: seq<Action>, r: nat)
    requires Possible(c, acts)
  {
    && acts != [] && !acts[|acts| - 1].Wipe? && acts[|acts| - 1].replica == r
    && r < |c.knows| && After(c, acts).phases[r] == Returned(true)
  }

  /** The i-th action is the one with which the call found its start: what it found is what had taken
      effect since the last wipe, and wiped tells whether there was another one since. */
  ghost predicate StartedAt(c: Config, acts: seq<Action>, r: nat, call: Call, i: nat)
    requires Possible(c, acts)
  {
    && i < |acts| && (acts[i] == Read(r, true) || acts[i] == Check(r, true))
    && Possible(c, acts[..i]) && call.found == InEffect(c, acts[..i])
    && (call.wipedAt.Some? <==> Wipe in acts[i + 1..])
  }

  lemma StartedBefore(c: Config, acts: seq<Action>, r: nat, was: Call, call: Call, i: nat)
    requires Possible(c, acts) && acts != [] && StartedAt(c, acts[..|acts| - 1], r, was, i) && call.found == was.found
    requires call.wipedAt.Some? <==> was.wipedAt.Some? || acts[|acts| - 1].Wipe?
    ensures StartedAt(c, acts, r, call, i)
  {
    var before, a := acts[..|acts| - 1], acts[|acts| - 1];
    assert acts[i + 1..] == before[i + 1..] + [a] && acts[..i] == before[..i] && acts[i] == before[i];
  }

  lemma StartedNow(c: Config, acts: seq<Action>, r: nat, call: Call)
    requires Possible(c, acts) && acts != [] && (acts[|acts| - 1] == Read(r, true) || acts[|acts| - 1] == Check(r, true))
    requires call.found == After(c, acts[..|acts| - 1]).present && call.wipedAt.None?
    ensures StartedAt(c, acts, r, call, |acts| - 1)
  {
    PresentIsInEffect(c, acts[..|acts| - 1]);
    assert acts[|acts| - 1 + 1..] == [];
  }

  /** A call in the loop did start. */
  lemma {:induction false} CallStarted(c: Config, acts: seq<Action>, r: nat) returns (i: nat)
    requires c.Sound() && Possible(c, acts) && r < |c.knows| && InLoop(After(c, acts).phases[r])
    ensures CallOf(c, acts, r).Some? && StartedAt(c, acts, r, CallOf(c, acts, r).value, i)
  {
    var before, a := acts[..|acts| - 1], acts[|acts| - 1];
    var s := After(c, before);
    RunsFollow(c, acts);
    RunsFollow(c, before);
    if !a.Wipe? && a.replica == r && (a.Read? || a.Check?) {
      StartedNow(c, acts, r, CallOf(c, acts, r).value);
      i := |acts| - 1;
    } else {
      if !a.Wipe? && a.replica != r {
        OthersWait(c, s, a, r);
      }
      i := CallStarted(c, before, r);
      StartedBefore(c, acts, r, CallOf(c, before, r).value, CallOf(c, acts, r).value, i);
    }
  }

  lemma AppliedBetween(c: Config, call: Call, known: nat)
    requires c.Sound() && 0 < known <= |c.steps| && call.First().0 < known
    requires call.wipedAt.None? ==> call.start < known
    ensures Applied(c, call.Base() + Between(c, call.First(), (known, 0)), known) <==> FoundAll(c, call, known)
  {
    var first, base := call.First(), call.Base();
    var all := base + Between(c, first, (known, 0));
    if Applied(c, all, known) {
      assert (0, 0) in all;
      forall m, k | 0 <= m < call.start && m < |c.steps| && 0 <= k < c.steps[m] && call.wipedAt.None? ensures (m, k) in call.found {
        assert (m, k) in all;
      }
    }
    if FoundAll(c, call, known) {
      forall m, k | 0 <= m < known && m < |c.steps| && 0 <= k < c.steps[m] ensures (m, k) in all {
        if !Earlier((m, k), first) {
          assert (m, k) in Between(c, first, (known, 0));
        }
      }
    }
  }

  /** The call ends with the recording of the last version its replica knows ... */
  lemma {:induction false} NilAfterRecord(c: Config, acts: seq<Action>, r: nat)
    requires c.Sound() && Possible(c, acts) && ReturnsNil(c, acts, r) && acts[|acts| - 1].Record?
    ensures CallOf(c, acts, r).Some? && c.knows[r] > 0
    ensures Applied(c, After(c, acts).present, c.knows[r]) <==> FoundAll(c, CallOf(c, acts, r).value, c.knows[r])
  {
    RecordReturns(c, acts, r);
    AppliedBetween(c, CallOf(c, acts, r).value, c.knows[r]);
  }

  lemma LastRecord(c: Config, s: State, r: nat, outcome: Outcome)
    requires c.Sound() && Enabled(c, s, Record(r, outcome)) && |s.phases| == |c.knows| && Placed(c, s.phases[r], c.knows[r])
    requires Do(c, s, Record(r, outcome)).phases[r] == Returned(true)
    ensures s.phases[r].migration + 1 == c.knows[r] <= |c.steps| && Do(c, s, Record(r, outcome)).present == s.present
  {
  }

  lemma {:induction false} RecordReturns(c: Config, acts: seq<Action>, r: nat)
    requires c.Sound() && Possible(c, acts) && ReturnsNil(c, acts, r) && acts[|acts| - 1].Record?
    ensures 0 < c.knows[r] <= |c.steps| && Tracked(c, After(c, acts).present, CallOf(c, acts, r), (c.knows[r], 0))
    ensures CallOf(c, acts, r).value.First().0 < c.knows[r]
    ensures CallOf(c, acts, r).value.wipedAt.None? ==> CallOf(c, acts, r).value.start < c.knows[r]
  {
    var before := acts[..|acts| - 1];
    RunsFollow(c, before);
    var s := After(c, before);
    LastRecord(c, s, r, acts[|acts| - 1].outcome);
    RecordTracked(c, s.present, CallOf(c, before, r), s.phases[r].migration);
  }

  /** ... or finds at its start that there is nothing to do. */
  lemma NilAtOnce(c: Config, acts: seq<Action>, r: nat)
    requires c.Sound() && Possible(c, acts) && ReturnsNil(c, acts, r) && !acts[|acts| - 1].Record?
    ensures acts[|acts| - 1] == Read(r, true) || acts[|acts| - 1] == Check(r, true)
    ensures CallOf(c, acts, r).Some? && CallOf(c, acts, r).value.wipedAt.None?
    ensures CallOf(c, acts, r).value.found == After(c, acts[..|acts| - 1]).present
    ensures Applied(c, After(c, acts).present, c.knows[r]) <==> FoundAll(c, CallOf(c, acts, r).value, c.knows[r]) || c.knows[r] == 0
  {
    RunsFollow(c, acts[..|acts| - 1]);
  }

  /** Over every run, wipes included: when a call returns nil, all that its replica knows is in effect if
      and only if the call found everything before its start in effect and no wipe came after its
      first statement. */
  lemma {:induction false} NilMeansMigratedIff(c: Config, acts: seq<Action>, r: nat)
    requires c.Sound() && Possible(c, acts) && ReturnsNil(c, acts, r)
    ensures CallOf(c, acts, r).Some? && exists i :: StartedAt(c, acts, r, CallOf(c, acts, r).value, i)
    ensures Applied(c, After(c, acts).present, c.knows[r]) <==> FoundAll(c, CallOf(c, acts, r).value, c.knows[r]) || c.knows[r] == 0
  {
    if acts[|acts| - 1].Record? {
      NilAfterRecord(c, acts, r);
      RecordStarted(c, acts, r);
    } else {
      NilAtOnce(c, acts, r);
      StartedNow(c, acts, r, CallOf(c, acts, r).value);
    }
  }

  lemma RecordStarted(c: Config, acts: seq<Action>, r: nat)
    requires c.Sound() && Possible(c, acts) && ReturnsNil(c, acts, r) && acts[|acts| - 1].Record? && CallOf(c, acts, r).Some?
    ensures exists i :: StartedAt(c, acts, r, CallOf(c, acts, r).value, i)
  {
    var i := CallStarted(c, acts[..|acts| - 1], r);
    StartedBefore(c, acts, r, CallOf(c, acts[..|acts| - 1], r).value, CallOf(c, acts, r).value, i);
  }

  lemma OneLess(acts: seq<Action>, n: nat)
    requires n < |acts| && WipeFree(acts[n..])
    ensures var before := acts[..|acts| - 1]; before[..n] == acts[..n] && WipeFree(before[n..])
    ensures !acts[|acts| - 1].Wipe?
  {
    var before := acts[..|acts| - 1];
    assert acts[|acts| - 1] == acts[n..][|acts| - n - 1];
    assert forall i :: 0 <= i < |before| - n ==> before[n..][i] == acts[n..][i];
  }

  /** ... and it stays in effect until the next wipe. */
  lemma {:induction false} StaysInEffect(c: Config, acts: seq<Action>, n: nat)
    requires Possible(c, acts) && n <= |acts| && WipeFree(acts[n..])
    ensures Possible(c, acts[..n]) && After(c, acts[..n]).present <= After(c, acts).present
  {
    if n == |acts| {
      assert acts[..n] == acts;
    } else {
      var before := acts[..|acts| - 1];
      OneLess(acts, n);
      StaysInEffect(c, before, n);
    }
  }

  // ----- what is lost -----

  /** A statement of a recorded migration is missing while the sentinel table is there, and every call
      is past it. */
  ghost predicate Lost(c: Config, s: State, m: nat, k: nat) {
    && m < s.version && Sentinel(c, s) && (m, k) !in s.present
    && forall r :: 0 <= r < |s.phases| ==>
         match s.phases[r]
         case Checking(v) => v > m
         case Running(i, _) => i > m
         case Recording(i) => i > m
         case _ => true
  }

  lemma LostNext(c: Config, s: State, a: Action, m: nat, k: nat)
    requires |s.phases| == |c.knows| && Enabled(c, s, a) && !a.Wipe? && Lost(c, s, m, k)
    ensures Lost(c, Do(c, s, a), m, k)
  {
    var s' := Do(c, s, a);
    assert forall r :: 0 <= r < |s.phases| && r != a.replica ==> s'.phases[r] == s.phases[r];
  }

  /** A statement that was lost is not run by any call until the next wipe. */
  lemma {:induction false} LostUntilWipe(c: Config, acts: seq<Action>, n: nat, m: nat, k: nat)
    requires Possible(c, acts) && n <= |acts| && WipeFree(acts[n..])
    requires Possible(c, acts[..n]) && Lost(c, After(c, acts[..n]), m, k)
    ensures Lost(c, After(c, acts), m, k)
  {
    if n == |acts| {
      assert acts[..n] == acts;
    } else {
      var before := acts[..|acts| - 1];
      OneLess(acts, n);
      LostUntilWipe(c, before, n, m, k);
      LostNext(c, After(c, before), acts[|acts| - 1], m, k);
    }
  }

  /** It happens: ClickHouse is wiped, migration 1, run again, fails half way after its sentinel table
      is created, and the next call returns nil without the rest of it. */
  lemma NilWithoutTheSchema() returns (acts: seq<Action>)
    ensures var c := TWO_STATEMENTS;
            && c.Sound() && Possible(c, acts) && Wipe in acts && ReturnsNil(c, acts, 0)
            && !Applied(c, After(c, acts).present, c.knows[0]) && Lost(c, After(c, acts), 0, 1)
  {
    var c := TWO_STATEMENTS;
    acts := WipeCanLoseTheSchema();
    var log := After(c, acts).log;
    var s1 := Lone(1, {(0, 0)}, log, Reading);
    StepTo(c, acts, After(c, acts), Lock(0), s1);
    acts := acts + [Lock(0)];
    var s2 := Lone(1, {(0, 0)}, log, Checking(1));
    StepTo(c, acts, s1, Read(0, true), s2);
    acts := acts + [Read(0, true)];
    var s3 := Lone(1, {(0, 0)}, log, Returned(true));
    StepTo(c, acts, s2, Check(0, true), s3);
    acts := acts + [Check(0, true)];
    assert (0, 1) !in s3.present;
  }
}

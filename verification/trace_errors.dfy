/** clickhouse/traces.go, getTraceErrors: the errors of a trace are its deepest error spans.

    The code walks from each error span up its parents and deletes the errors it meets from the map
    it is iterating over; an entry deleted before its turn is never visited. Whatever the order of
    the iteration, what is left are the error spans with no error span below them, if spans that share
    an id name one parent; and some error is left of any choice of errors exactly if none is above itself. */
module TraceErrors {
  datatype Span = Span(id: string, parent: string, isError: bool)

  type Parents = map<string, string>

  type Errors = map<string, Span>

  /** parents[id] in Go: "" for an id that is not there. */
  function Up(parents: Parents, id: string): string {
    if id in parents then parents[id] else ""
  }

  /** The id n steps up from start. */
  function Walk(parents: Parents, start: string, n: nat): string {
    if n == 0 then start else Up(parents, Walk(parents, start, n - 1))
  }

  ghost predicate Reaches(parents: Parents, start: string, id: string, n: nat) {
    Walk(parents, start, n) == id && forall k: nat :: k <= n ==> Walk(parents, start, k) != ""
  }

  /** The walk that starts at start comes by id before it ends at "". */
  ghost predicate Above(parents: Parents, id: string, start: string) {
    exists n: nat :: Reaches(parents, start, id, n)
  }

  // ----- when the walk ends -----

  ghost predicate Ends(parents: Parents, start: string) {
    exists n: nat :: Walk(parents, start, n) == ""
  }

  /** No cycle: the parents can be ranked below their children. */
  ghost predicate Ranked(parents: Parents, rank: string -> nat) {
    forall id :: id in parents && id != "" && parents[id] != "" ==> rank(parents[id]) < rank(id)
  }

  lemma {:induction false} WalkFromUp(parents: Parents, start: string, n: nat)
    ensures Walk(parents, Up(parents, start), n) == Walk(parents, start, n + 1)
  {
    if n > 0 {
      WalkFromUp(parents, start, n - 1);
    }
  }

  lemma {:induction false} WalkFurther(parents: Parents, start: string, n: nat, m: nat)
    ensures Walk(parents, Walk(parents, start, n), m) == Walk(parents, start, n + m)
  {
    if m > 0 {
      WalkFurther(parents, start, n, m - 1);
    }
  }

  lemma {:induction false} RankedEnds(parents: Parents, rank: string -> nat, start: string)
    requires Ranked(parents, rank)
    ensures Ends(parents, start)
    decreases if start == "" then 0 else 1 + rank(start)
  {
    if start == "" {
      assert Walk(parents, start, 0) == "";
    } else {
      RankedEnds(parents, rank, Up(parents, start));
      var n: nat :| Walk(parents, Up(parents, start), n) == "";
      WalkFromUp(parents, start, n);
    }
  }

  /** The steps until the walk ends, if it ends by n. */
  ghost function StepsToEnd(parents: Parents, start: string, n: nat): (k: nat)
    requires Walk(parents, start, n) == ""
    ensures k <= n && Walk(parents, start, k) == "" && forall j: nat :: j < k ==> Walk(parents, start, j) != ""
  {
    if exists j: nat :: j < n && Walk(parents, start, j) == "" then
      var j: nat :| j < n && Walk(parents, start, j) == "";
      StepsToEnd(parents, start, j)
    else n
  }

  /** The number of spans the walk comes by. */
  ghost function Length(parents: Parents, start: string): (k: nat)
    requires Ends(parents, start)
    ensures Walk(parents, start, k) == "" && forall j: nat :: j < k ==> Walk(parents, start, j) != ""
  {
    var n: nat :| Walk(parents, start, n) == "";
    StepsToEnd(parents, start, n)
  }

  /** What the walk comes by has the rest of the walk to go. */
  lemma RestOfWalk(parents: Parents, start: string, id: string, n: nat)
    requires Ends(parents, start) && Reaches(parents, start, id, n)
    ensures Ends(parents, id) && Length(parents, start) == n + Length(parents, id)
  {
    var all := Length(parents, start);
    assert Walk(parents, start, all) == "";
    assert n < all;
    WalkFurther(parents, start, n, all - n);
    assert Walk(parents, id, all - n) == "";
    var rest := Length(parents, id);
    WalkFurther(parents, start, n, rest);
    assert Walk(parents, start, n + rest) == "";
    assert rest <= all - n && all <= n + rest;
  }

  /** A parent has one span less to go. */
  lemma ParentIsShorter(parents: Parents, id: string)
    requires Ends(parents, id) && id != ""
    ensures Ends(parents, Up(parents, id)) && Length(parents, id) == 1 + Length(parents, Up(parents, id))
  {
    var up, all := Up(parents, id), Length(parents, id);
    assert Walk(parents, id, 0) != "";
    WalkFromUp(parents, id, all - 1);
    assert Walk(parents, up, all - 1) == "";
    var rest := Length(parents, up);
    WalkFromUp(parents, id, rest);
    assert Walk(parents, id, rest + 1) == "";
  }

  ghost predicate AllEnd(parents: Parents) {
    forall start :: Ends(parents, start)
  }

  lemma RankedAllEnd(parents: Parents, rank: string -> nat)
    requires Ranked(parents, rank)
    ensures AllEnd(parents)
  {
    forall start ensures Ends(parents, start) {
      RankedEnds(parents, rank, start);
    }
  }

  lemma AllEndRanked(parents: Parents) returns (rank: string -> nat)
    requires AllEnd(parents)
    ensures Ranked(parents, rank)
  {
    rank := start => if Ends(parents, start) then Length(parents, start) else 0;
    forall id | id in parents && id != "" && parents[id] != "" ensures rank(parents[id]) < rank(id) {
      assert Ends(parents, id);
      ParentIsShorter(parents, id);
    }
  }

  /** The walk of the code ends from every span if and only if the parents have no cycle. */
  lemma WalksEndIffRanked(parents: Parents)
    ensures AllEnd(parents) <==> exists rank: string -> nat :: Ranked(parents, rank)
  {
    if rank: string -> nat :| Ranked(parents, rank) {
      RankedAllEnd(parents, rank);
    }
    if AllEnd(parents) {
      var rank := AllEndRanked(parents);
    }
  }

  // ----- the deepest errors -----

  function ParentsOf(spans: seq<Span>): Parents {
    if spans == [] then map[]
    else
      var last := spans[|spans| - 1];
      ParentsOf(spans[..|spans| - 1])[last.id := last.parent]
  }

  function ErrorsOf(spans: seq<Span>): Errors {
    if spans == [] then map[]
    else
      var before, last := ErrorsOf(spans[..|spans| - 1]), spans[|spans| - 1];
      if last.isError then before[last.id := last] else before
  }

  /** Spans with one id have one parent. */
  ghost predicate OneParent(parents: Parents, errors: Errors) {
    forall id :: id in errors ==> Up(parents, id) == errors[id].parent
  }

  /** Some error of the trace is a proper descendant of id. */
  ghost predicate HasErrorBelow(parents: Parents, errors: Errors, id: string) {
    exists e :: e in errors && Above(parents, id, errors[e].parent)
  }

  /** What is above the parent of an id that is above start is above start. */
  lemma AboveIsTransitive(parents: Parents, a: string, b: string, start: string)
    requires Above(parents, b, start) && Above(parents, a, Up(parents, b))
    ensures Above(parents, a, start)
  {
    var n: nat :| Reaches(parents, start, b, n);
    var m: nat :| Reaches(parents, Up(parents, b), a, m);
    forall k: nat | k <= n + 1 + m ensures Walk(parents, start, k) != "" {
      if k > n {
        WalkFromUp(parents, b, k - n - 1);
        WalkFurther(parents, start, n, k - n);
      }
    }
    WalkFromUp(parents, b, m);
    WalkFurther(parents, start, n, m + 1);
    assert Reaches(parents, start, a, n + 1 + m);
  }

  /** The walks of the code end: they start at the parents of errors. */
  ghost predicate ErrorsEnd(parents: Parents, errors: Errors) {
    forall e :: e in errors ==> Ends(parents, errors[e].parent)
  }

  /** How far an error is from the end of its walk. */
  ghost function Depth(parents: Parents, errors: Errors): string -> nat {
    e => if e in errors && Ends(parents, errors[e].parent) then Length(parents, errors[e].parent) else 0
  }

  lemma AboveIsShallower(parents: Parents, errors: Errors, a: string, b: string)
    requires ErrorsEnd(parents, errors) && OneParent(parents, errors)
    requires a in errors && b in errors && Above(parents, a, errors[b].parent)
    ensures Depth(parents, errors)(a) < Depth(parents, errors)(b)
  {
    var n: nat :| Reaches(parents, errors[b].parent, a, n);
    assert Walk(parents, errors[b].parent, n) != "";
    RestOfWalk(parents, errors[b].parent, a, n);
    ParentIsShorter(parents, a);
  }

  /** An element of the largest rank. */
  lemma {:induction false} LargestRank(ids: set<string>, rank: string -> nat) returns (largest: string)
    requires ids != {}
    ensures largest in ids && forall id :: id in ids ==> rank(id) <= rank(largest)
  {
    largest :| largest in ids;
    var others := ids - {largest};
    if others != {} {
      var best := LargestRank(others, rank);
      if rank(best) > rank(largest) {
        largest := best;
      }
    }
  }

  /** An error of the trace with no error below it. */
  ghost predicate Deepest(parents: Parents, errors: Errors, id: string) {
    id in errors && !HasErrorBelow(parents, errors, id)
  }

  /** What is above an error is above a deepest one. */
  ghost predicate DeepestBelowAll(parents: Parents, errors: Errors) {
    forall id :: id in errors && HasErrorBelow(parents, errors, id) ==>
      exists b :: Deepest(parents, errors, b) && Above(parents, id, errors[b].parent)
  }

  /** So it is when spans that share an id name one parent. */
  lemma OneParentDeepestBelow(parents: Parents, errors: Errors)
    requires ErrorsEnd(parents, errors) && OneParent(parents, errors)
    ensures DeepestBelowAll(parents, errors)
  {
    forall id | id in errors && HasErrorBelow(parents, errors, id)
      ensures exists b :: Deepest(parents, errors, b) && Above(parents, id, errors[b].parent)
    {
      var below := set b | b in errors && Above(parents, id, errors[b].parent);
      var b :| b in errors && Above(parents, id, errors[b].parent);
      assert b in below;
      var lowest := LargestRank(below, Depth(parents, errors));
      if HasErrorBelow(parents, errors, lowest) {
        var e :| e in errors && Above(parents, lowest, errors[e].parent);
        AboveIsTransitive(parents, id, lowest, errors[e].parent);
        assert e in below;
        AboveIsShallower(parents, errors, lowest, e);
      }
    }
  }

  // ----- the orders of the iteration -----

  /** The errors left after some were visited, in that order. */
  ghost function After(parents: Parents, errors: Errors, order: seq<string>): (left: set<string>)
    ensures left <= errors.Keys
  {
    if order == [] then errors.Keys
    else
      var before, last := After(parents, errors, order[..|order| - 1]), order[|order| - 1];
      if last in errors then set id | id in before && !Above(parents, id, errors[last].parent) else before
  }

  /** Each error visited is there when its turn comes, and is visited once. */
  ghost predicate Visited(parents: Parents, errors: Errors, order: seq<string>) {
    order != [] ==>
      var before, last := order[..|order| - 1], order[|order| - 1];
      Visited(parents, errors, before) && last in After(parents, errors, before) && last !in before
  }

  /** An iteration over the map: it ends when every error left was visited. */
  ghost predicate IsRun(parents: Parents, errors: Errors, order: seq<string>) {
    Visited(parents, errors, order) && forall id :: id in After(parents, errors, order) ==> id in order
  }

  lemma {:induction false} VisitedAreErrors(parents: Parents, errors: Errors, order: seq<string>)
    requires Visited(parents, errors, order)
    ensures forall v :: v in order ==> v in errors
  {
    if order != [] {
      VisitedAreErrors(parents, errors, order[..|order| - 1]);
    }
  }

  /** What is left is what no error visited is below. */
  lemma {:induction false} LeftIffNotDeleted(parents: Parents, errors: Errors, order: seq<string>, id: string)
    ensures id in After(parents, errors, order) <==>
            id in errors && forall v :: v in order && v in errors ==> !Above(parents, id, errors[v].parent)
  {
    if order != [] {
      var before, last := order[..|order| - 1], order[|order| - 1];
      LeftIffNotDeleted(parents, errors, before, id);
      assert order == before + [last];
    }
  }

  /** No walk comes back to the error it starts from. */
  ghost predicate NoneAboveItself(parents: Parents, errors: Errors) {
    forall e :: e in errors ==> !Above(parents, e, errors[e].parent)
  }

  /** Some error is left, whatever the order of the iteration. */
  ghost predicate KeepsOne(parents: Parents, errors: Errors) {
    forall order | IsRun(parents, errors, order) :: After(parents, errors, order) != {}
  }

  /** The last error visited is left. */
  lemma LastIsLeft(parents: Parents, errors: Errors, order: seq<string>)
    requires NoneAboveItself(parents, errors) && errors != map[] && IsRun(parents, errors, order)
    ensures order != [] && order[|order| - 1] in After(parents, errors, order)
  {
    var e :| e in errors;
    assert e in After(parents, errors, []);
  }

  /** An error above itself, being the only one, is deleted when it is visited. */
  lemma OnlyErrorIsLost(parents: Parents, e: string, span: Span)
    requires Above(parents, e, span.parent)
    ensures !KeepsOne(parents, map[e := span])
  {
    var only := map[e := span];
    assert [e][..0] == [] && After(parents, only, []) == {e};
    assert Visited(parents, only, []) && Visited(parents, only, [e]);
    assert After(parents, only, [e]) == {};
    assert IsRun(parents, only, [e]);
  }

  /** Some error is left in every order of the iteration, of these errors and of every choice from them,
      if and only if none of them is above itself. */
  lemma SomeErrorIsLeft(parents: Parents, errors: Errors)
    ensures (forall chosen: Errors :: chosen != map[] && chosen.Items <= errors.Items ==> KeepsOne(parents, chosen))
            <==> NoneAboveItself(parents, errors)
  {
    if NoneAboveItself(parents, errors) {
      forall chosen: Errors | chosen != map[] && chosen.Items <= errors.Items ensures KeepsOne(parents, chosen) {
        ChosenNoneAboveItself(parents, errors, chosen);
        forall order | IsRun(parents, chosen, order) ensures After(parents, chosen, order) != {} {
          LastIsLeft(parents, chosen, order);
        }
      }
    } else {
      var e :| e in errors && Above(parents, e, errors[e].parent);
      var only := map[e := errors[e]];
      assert (e, errors[e]) in errors.Items;
      assert only != map[] by {
        assert e in only;
      }
      assert only.Items <= errors.Items;
      OnlyErrorIsLost(parents, e, errors[e]);
    }
  }

  lemma ChosenNoneAboveItself(parents: Parents, errors: Errors, chosen: Errors)
    requires NoneAboveItself(parents, errors) && chosen.Items <= errors.Items
    ensures NoneAboveItself(parents, chosen)
  {
    forall e | e in chosen ensures !Above(parents, e, chosen[e].parent) {
      assert (e, chosen[e]) in chosen.Items;
    }
  }

  /** None is, when spans that share an id name one parent: its walk would not end. */
  lemma OneParentIsEnough(parents: Parents, errors: Errors)
    requires ErrorsEnd(parents, errors) && OneParent(parents, errors)
    ensures NoneAboveItself(parents, errors)
  {
    forall e | e in errors ensures !Above(parents, e, errors[e].parent) {
      if Above(parents, e, errors[e].parent) {
        AboveIsShallower(parents, errors, e, e);
      }
    }
  }

  /** None of the errors left is above another, or itself. */
  lemma ErrorsLeftAreApart(parents: Parents, errors: Errors, order: seq<string>, a: string, b: string)
    requires IsRun(parents, errors, order) && a in After(parents, errors, order) && b in After(parents, errors, order)
    ensures !Above(parents, a, errors[b].parent)
  {
    LeftIffNotDeleted(parents, errors, order, a);
  }

  /** A deepest error is left, and what is above it is not. */
  lemma DeepestAreLeft(parents: Parents, errors: Errors, order: seq<string>, id: string)
    requires IsRun(parents, errors, order) && DeepestBelowAll(parents, errors)
    ensures id in After(parents, errors, order) <==> Deepest(parents, errors, id)
  {
    LeftIffNotDeleted(parents, errors, order, id);
    if id in errors && HasErrorBelow(parents, errors, id) {
      var b :| Deepest(parents, errors, b) && Above(parents, id, errors[b].parent);
      LeftIffNotDeleted(parents, errors, order, b);
      assert b in order;
    }
  }

  lemma VisitedNext(parents: Parents, errors: Errors, order: seq<string>, id: string)
    requires Visited(parents, errors, order) && id in After(parents, errors, order) && id !in order
    ensures Visited(parents, errors, order + [id])
    ensures forall other :: other in After(parents, errors, order + [id]) <==>
              other in After(parents, errors, order) && !Above(parents, other, errors[id].parent)
  {
    assert (order + [id])[..|order|] == order;
  }

  /** Deepest errors can be visited first. */
  lemma {:induction false} VisitDeepest(parents: Parents, errors: Errors, ids: set<string>) returns (order: seq<string>)
    requires forall id :: id in ids ==> Deepest(parents, errors, id)
    ensures Visited(parents, errors, order) && forall id :: id in order <==> id in ids
  {
    order := [];
    if ids != {} {
      var id :| id in ids;
      order := VisitDeepest(parents, errors, ids - {id});
      LeftIffNotDeleted(parents, errors, order, id);
      VisitedAreErrors(parents, errors, order);
      VisitedNext(parents, errors, order, id);
      order := order + [id];
    }
  }

  ghost function Unvisited(errors: Errors, order: seq<string>): set<string> {
    set id | id in errors && id !in order
  }

  /** Any start of an iteration can be gone on with to its end. */
  lemma {:induction false} GoOn(parents: Parents, errors: Errors, order: seq<string>) returns (run: seq<string>)
    requires Visited(parents, errors, order)
    ensures IsRun(parents, errors, run) && order <= run
    decreases Unvisited(errors, order)
  {
    run := order;
    if id :| id in After(parents, errors, order) && id !in order {
      VisitedNext(parents, errors, order, id);
      assert Unvisited(errors, order + [id]) == Unvisited(errors, order) - {id};
      run := GoOn(parents, errors, order + [id]);
    }
  }

  /** Every order leaves exactly the deepest errors. */
  ghost predicate LeavesDeepest(parents: Parents, errors: Errors) {
    forall order, id | IsRun(parents, errors, order) :: id in After(parents, errors, order) <==> Deepest(parents, errors, id)
  }

  /** With no error above itself, every order leaves exactly the deepest errors if and only if each of the
      others has a deepest one below it. */
  lemma LeavesDeepestIff(parents: Parents, errors: Errors)
    requires NoneAboveItself(parents, errors)
    ensures LeavesDeepest(parents, errors) <==> DeepestBelowAll(parents, errors)
  {
    if DeepestBelowAll(parents, errors) {
      forall order, id | IsRun(parents, errors, order)
        ensures id in After(parents, errors, order) <==> Deepest(parents, errors, id)
      {
        DeepestAreLeft(parents, errors, order, id);
      }
    } else {
      var id :| id in errors && HasErrorBelow(parents, errors, id)
                && forall b :: Deepest(parents, errors, b) ==> !Above(parents, id, errors[b].parent);
      AnotherIsLeft(parents, errors, id);
    }
  }

  /** When the deepest errors, visited first, do not delete an error, one of the others is left. */
  lemma AnotherIsLeft(parents: Parents, errors: Errors, id: string)
    requires NoneAboveItself(parents, errors) && id in errors && HasErrorBelow(parents, errors, id)
    requires forall b :: Deepest(parents, errors, b) ==> !Above(parents, id, errors[b].parent)
    ensures !LeavesDeepest(parents, errors)
  {
    var first := VisitDeepest(parents, errors, set b | b in errors && Deepest(parents, errors, b));
    var run := GoOn(parents, errors, first);
    LeftIffNotDeleted(parents, errors, first, id);
    assert id in After(parents, errors, first) && id !in first;
    assert run != first;
    LastIsLeft(parents, errors, run);
    var last := run[|run| - 1];
    assert first <= run[..|run| - 1];
    assert last !in first;
    assert !Deepest(parents, errors, last);
  }

  // ----- when they do not name one parent -----

  lemma ParentsOfNext(spans: seq<Span>, last: Span)
    ensures ParentsOf(spans + [last]) == ParentsOf(spans)[last.id := last.parent]
    ensures ErrorsOf(spans + [last]) == if last.isError then ErrorsOf(spans)[last.id := last] else ErrorsOf(spans)
  {
    assert (spans + [last])[..|spans|] == spans;
  }

  /** An error is lost, when two spans share an id and the error is not the last: the error names itself
      as its parent, which the other span does not. The walk from it ends, and deletes the error itself. */
  lemma SharedIdLosesTheError()
    ensures var spans := [Span("a", "a", true), Span("a", "", false)];
            var parents, errors := ParentsOf(spans), ErrorsOf(spans);
            && ErrorsEnd(parents, errors) && !NoneAboveItself(parents, errors)
            && errors != map[] && !KeepsOne(parents, errors)
  {
    var first, second := Span("a", "a", true), Span("a", "", false);
    ParentsOfNext([], first);
    ParentsOfNext([first], second);
    assert [] + [first] == [first] && [first] + [second] == [first, second];
    var parents, errors := ParentsOf([first, second]), ErrorsOf([first, second]);
    assert parents == map["a" := ""] && errors == map["a" := first];
    assert Walk(parents, "a", 1) == "";
    assert Reaches(parents, "a", "a", 0);
    assert "a" in errors;
    OnlyErrorIsLost(parents, "a", first);
  }

  /** Two errors that name each other as their parents: the one visited first deletes the other. */
  lemma VisitOne(parents: Parents, errors: Errors, first: string, other: string)
    requires parents == map[first := "", other := ""] && errors.Keys == {first, other} && first != other
    requires first != "" && other != "" && errors[first].parent == other
    ensures IsRun(parents, errors, [first]) && After(parents, errors, [first]) == {first}
    ensures Ends(parents, other) && !Above(parents, first, other)
  {
    assert Walk(parents, other, 1) == "" && Walk(parents, other, 0) == other;
    EndsAt(parents, other, first, 1);
    assert Reaches(parents, other, other, 0);
    VisitedNext(parents, errors, [], first);
    assert [] + [first] == [first];
    forall id ensures id in After(parents, errors, [first]) <==> id == first {
      LeftIffNotDeleted(parents, errors, [first], id);
      assert first in [first];
      assert id == other ==> Above(parents, id, errors[first].parent);
    }
  }

  /** The spans of two errors and, after them, of two more with their ids. */
  function Mutual(): seq<Span> {
    [Span("a", "b", true), Span("b", "a", true), Span("a", "", false), Span("b", "", false)]
  }

  lemma MutualTrace()
    ensures ParentsOf(Mutual()) == map["a" := "", "b" := ""]
    ensures ErrorsOf(Mutual()) == map["a" := Mutual()[0], "b" := Mutual()[1]]
  {
    var s := Mutual();
    assert s[..4] == s;
    assert s[..0] == [];
    forall i | 0 <= i < 4
      ensures ParentsOf(s[..i + 1]) == ParentsOf(s[..i])[s[i].id := s[i].parent]
      ensures ErrorsOf(s[..i + 1]) == if s[i].isError then ErrorsOf(s[..i])[s[i].id := s[i]] else ErrorsOf(s[..i])
    {
      ParentsOfNext(s[..i], s[i]);
      assert s[..i] + [s[i]] == s[..i + 1];
    }
    assert ParentsOf(s[..0 + 1]) == map["a" := "b"] && ErrorsOf(s[..0 + 1]) == map["a" := s[0]];
    assert ParentsOf(s[..1 + 1]) == map["a" := "b", "b" := "a"] && ErrorsOf(s[..1 + 1]) == map["a" := s[0], "b" := s[1]];
    assert ParentsOf(s[..2 + 1]) == map["a" := "", "b" := "a"] && ErrorsOf(s[..2 + 1]) == ErrorsOf(s[..1 + 1]);
    assert ErrorsOf(s[..3 + 1]) == ErrorsOf(s[..2 + 1]);
  }

  /** The order can decide which error is left, though none is above itself. */
  lemma OrderDecides()
    ensures var parents, errors := ParentsOf(Mutual()), ErrorsOf(Mutual());
            && ErrorsEnd(parents, errors) && NoneAboveItself(parents, errors)
            && IsRun(parents, errors, ["a"]) && After(parents, errors, ["a"]) == {"a"}
            && IsRun(parents, errors, ["b"]) && After(parents, errors, ["b"]) == {"b"}
  {
    var parents, errors := ParentsOf(Mutual()), ErrorsOf(Mutual());
    MutualTrace();
    assert parents == map["b" := "", "a" := ""];
    VisitOne(parents, errors, "a", "b");
    VisitOne(parents, errors, "b", "a");
  }

  // ----- the loops -----

  /** The inner loop: everything above the span is deleted. */
  method DeleteAbove(parents: Parents, errors: Errors, start: string) returns (left: Errors)
    requires Ends(parents, start)
    ensures forall id :: id in left <==> id in errors && !Above(parents, id, start)
    ensures forall id :: id in left ==> left[id] == errors[id]
  {
    left := errors;
    var parentId := start;
    ghost var n := 0;
    while parentId != ""
      invariant parentId == Walk(parents, start, n) && n <= Length(parents, start)
      invariant forall k: nat :: k < n ==> Walk(parents, start, k) != ""
      invariant forall id :: id in left <==> id in errors && forall k: nat :: k < n ==> Walk(parents, start, k) != id
      invariant forall id :: id in left ==> left[id] == errors[id]
      decreases Length(parents, start) - n
    {
      left := left - {parentId};
      parentId := Up(parents, parentId);
      n := n + 1;
    }
    forall id ensures id in left <==> id in errors && !Above(parents, id, start) {
      EndsAt(parents, start, id, n);
    }
  }

  /** What the walk comes by before its end at step n. */
  lemma EndsAt(parents: Parents, start: string, id: string, n: nat)
    requires Walk(parents, start, n) == "" && forall k: nat :: k < n ==> Walk(parents, start, k) != ""
    ensures Above(parents, id, start) <==> exists k: nat :: k < n && Walk(parents, start, k) == id
  {
    if k: nat :| k < n && Walk(parents, start, k) == id {
      assert Reaches(parents, start, id, k);
    }
    if Above(parents, id, start) {
      var k: nat :| Reaches(parents, start, id, k);
      assert forall j: nat :: j <= k ==> Walk(parents, start, j) != "";
      assert k < n;
      assert Walk(parents, start, k) == id;
    }
  }

  /** getTraceErrors, for the spans of one trace: what is left is what some order of the iteration leaves.
      It asks that the walks of the code end, or there are orders in which the code does not. */
  method GetTraceErrors(spans: seq<Span>) returns (errorSpans: Errors, ghost order: seq<string>)
    requires ErrorsEnd(ParentsOf(spans), ErrorsOf(spans))
    ensures var parents, errors := ParentsOf(spans), ErrorsOf(spans);
            && IsRun(parents, errors, order) && errorSpans.Keys == After(parents, errors, order)
            && (errors != map[] && NoneAboveItself(parents, errors) ==> errorSpans != map[])
            && (DeepestBelowAll(parents, errors) ==> forall id :: id in errorSpans <==> Deepest(parents, errors, id))
            && (OneParent(parents, errors) ==> DeepestBelowAll(parents, errors) && NoneAboveItself(parents, errors))
    ensures forall id :: id in errorSpans ==> errorSpans[id] == ErrorsOf(spans)[id]
  {
    var parents: Parents := map[];
    errorSpans := map[];
    for i := 0 to |spans|
      invariant parents == ParentsOf(spans[..i]) && errorSpans == ErrorsOf(spans[..i])
    {
      ParentsOfNext(spans[..i], spans[i]);
      assert spans[..i] + [spans[i]] == spans[..i + 1];
      parents := parents[spans[i].id := spans[i].parent];
      if spans[i].isError {
        errorSpans := errorSpans[spans[i].id := spans[i]];
      }
    }
    assert spans[..|spans|] == spans;
    ghost var errors := errorSpans;
    errorSpans, order := DeleteAllAbove(parents, errorSpans);
    LeftOfRun(parents, errors, order, errorSpans);
  }

  lemma {:induction false} LeftOfRun(parents: Parents, errors: Errors, order: seq<string>, left: Errors)
    requires ErrorsEnd(parents, errors) && IsRun(parents, errors, order) && left.Keys == After(parents, errors, order)
    ensures errors != map[] && NoneAboveItself(parents, errors) ==> left != map[]
    ensures DeepestBelowAll(parents, errors) ==> forall id :: id in left <==> Deepest(parents, errors, id)
    ensures OneParent(parents, errors) ==> DeepestBelowAll(parents, errors) && NoneAboveItself(parents, errors)
  {
    if errors != map[] && NoneAboveItself(parents, errors) {
      LastIsLeft(parents, errors, order);
    }
    if DeepestBelowAll(parents, errors) {
      forall id ensures id in left <==> Deepest(parents, errors, id) {
        DeepestAreLeft(parents, errors, order, id);
      }
    }
    if OneParent(parents, errors) {
      OneParentDeepestBelow(parents, errors);
      OneParentIsEnough(parents, errors);
    }
  }

  /** The outer loop, over a map that the inner one deletes from. */
  method DeleteAllAbove(parents: Parents, errors: Errors) returns (left: Errors, ghost order: seq<string>)
    requires ErrorsEnd(parents, errors)
    ensures IsRun(parents, errors, order) && left.Keys == After(parents, errors, order)
    ensures forall id :: id in left ==> left[id] == errors[id]
  {
    left, order := errors, [];
    var visited: set<string> := {};
    while left.Keys - visited != {}
      invariant visited <= errors.Keys && forall v :: v in visited <==> v in order
      invariant Visited(parents, errors, order) && left.Keys == After(parents, errors, order)
      invariant forall id :: id in left ==> left[id] == errors[id]
      decreases errors.Keys - visited
    {
      var id :| id in left.Keys - visited;
      VisitedNext(parents, errors, order, id);
      left := DeleteAbove(parents, left, left[id].parent);
      visited, order := visited + {id}, order + [id];
    }
    forall id | id in After(parents, errors, order) ensures id in order {
      assert id in left.Keys && id !in left.Keys - visited;
    }
  }
}

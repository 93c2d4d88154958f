/** A summing table fed by a materialized view (ch/client.go): for each inserted block of rows one row
    per key with the number of its rows, and now and then rows of one key merged into one.

    Whatever was inserted and merged, the sum of the counts over any set of keys is the number of
    raw rows that have them. Both otel_logs_rollup and otel_traces_histogram are such tables. */
module Rollups {

  datatype Counted<K> = Counted(key: K, count: nat)

  /** How many rows satisfy p. */
  function Count<R>(rows: seq<R>, p: R -> bool): nat {
    if rows == [] then 0
    else Count(rows[..|rows| - 1], p) + if p(rows[|rows| - 1]) then 1 else 0
  }

  /** The sum of the counts of the keys that satisfy p. */
  function Sum<K>(rolled: seq<Counted<K>>, p: K -> bool): nat {
    if rolled == [] then 0
    else Sum(rolled[..|rolled| - 1], p) + if p(rolled[|rolled| - 1].key) then rolled[|rolled| - 1].count else 0
  }

  /** A predicate of keys, as one of rows. */
  function Through<R, K>(key: R -> K, p: K -> bool): R -> bool {
    r => p(key(r))
  }

  ghost predicate Represents<R(!new), K(!new)>(key: R -> K, raw: seq<R>, rolled: seq<Counted<K>>) {
    forall p: K -> bool :: Sum(rolled, p) == Count(raw, Through(key, p))
  }

  /** Every row of the rollup counts something. */
  ghost predicate Positive<K>(rolled: seq<Counted<K>>) {
    forall x :: x in rolled ==> x.count > 0
  }

  // ----- counting -----

  lemma {:induction false} CountSame<R>(rows: seq<R>, p: R -> bool, q: R -> bool)
    requires forall r :: r in rows ==> p(r) == q(r)
    ensures Count(rows, p) == Count(rows, q)
  {
    if rows != [] {
      CountSame(rows[..|rows| - 1], p, q);
    }
  }

  lemma {:induction false} CountSplit<R>(rows: seq<R>, p: R -> bool, q: R -> bool, either: R -> bool)
    requires forall r :: r in rows ==> either(r) == (p(r) || q(r)) && !(p(r) && q(r))
    ensures Count(rows, either) == Count(rows, p) + Count(rows, q)
  {
    if rows != [] {
      CountSplit(rows[..|rows| - 1], p, q, either);
    }
  }

  lemma {:induction false} CountConcat<R>(a: seq<R>, b: seq<R>, p: R -> bool)
    ensures Count(a + b, p) == Count(a, p) + Count(b, p)
  {
    if b == [] {
      assert a + b == a;
    } else {
      CountConcat(a, b[..|b| - 1], p);
      assert (a + b)[..|a + b| - 1] == a + b[..|b| - 1];
    }
  }

  lemma {:induction false} CountZero<R>(rows: seq<R>, p: R -> bool)
    ensures Count(rows, p) == 0 <==> forall r :: r in rows ==> !p(r)
  {
    if rows != [] {
      var before, last := rows[..|rows| - 1], rows[|rows| - 1];
      CountZero(before, p);
      assert rows == before + [last];
    }
  }

  lemma CountOne<R>(row: R, p: R -> bool)
    ensures Count([row], p) == if p(row) then 1 else 0
  {
    assert [row][..0] == [];
  }

  lemma {:induction false} SumConcat<K>(a: seq<Counted<K>>, b: seq<Counted<K>>, p: K -> bool)
    ensures Sum(a + b, p) == Sum(a, p) + Sum(b, p)
  {
    if b == [] {
      assert a + b == a;
    } else {
      SumConcat(a, b[..|b| - 1], p);
      assert (a + b)[..|a + b| - 1] == a + b[..|b| - 1];
    }
  }

  lemma {:induction false} SumSame<K>(rolled: seq<Counted<K>>, p: K -> bool, q: K -> bool)
    requires forall x :: x in rolled ==> p(x.key) == q(x.key)
    ensures Sum(rolled, p) == Sum(rolled, q)
  {
    if rolled != [] {
      SumSame(rolled[..|rolled| - 1], p, q);
    }
  }

  lemma {:induction false} SumZero<K>(rolled: seq<Counted<K>>, p: K -> bool)
    requires Positive(rolled)
    ensures Sum(rolled, p) == 0 <==> forall x :: x in rolled ==> !p(x.key)
  {
    if rolled != [] {
      var before, last := rolled[..|rolled| - 1], rolled[|rolled| - 1];
      SumZero(before, p);
      assert rolled == before + [last];
    }
  }

  lemma {:induction false} SumNothing<K>(rolled: seq<Counted<K>>, p: K -> bool)
    requires forall x :: x in rolled ==> !p(x.key)
    ensures Sum(rolled, p) == 0
  {
    if rolled != [] {
      SumNothing(rolled[..|rolled| - 1], p);
    }
  }

  lemma {:induction false} SumSplit<K>(rolled: seq<Counted<K>>, p: K -> bool, q: K -> bool, either: K -> bool)
    requires forall x :: x in rolled ==> either(x.key) == (p(x.key) || q(x.key)) && !(p(x.key) && q(x.key))
    ensures Sum(rolled, either) == Sum(rolled, p) + Sum(rolled, q)
  {
    if rolled != [] {
      SumSplit(rolled[..|rolled| - 1], p, q, either);
    }
  }

  /** The rows that satisfy p, as a WHERE keeps them. */
  function Kept<R>(rows: seq<R>, p: R -> bool): seq<R> {
    if rows == [] then []
    else
      var before, last := Kept(rows[..|rows| - 1], p), rows[|rows| - 1];
      if p(last) then before + [last] else before
  }

  lemma {:induction false} CountKept<R>(rows: seq<R>, p: R -> bool, q: R -> bool, both: R -> bool)
    requires forall r :: r in rows ==> both(r) == (p(r) && q(r))
    ensures Count(Kept(rows, p), q) == Count(rows, both)
  {
    if rows != [] {
      var before, last := rows[..|rows| - 1], rows[|rows| - 1];
      CountKept(before, p, q, both);
      if p(last) {
        assert (Kept(before, p) + [last])[..|Kept(before, p)|] == Kept(before, p);
      }
    }
  }

  /** The sum of n over keys. */
  function SumOver<K>(keys: seq<K>, n: K -> nat): nat {
    if keys == [] then 0 else SumOver(keys[..|keys| - 1], n) + n(keys[|keys| - 1])
  }

  /** Rows counted by a key whose values are all listed, each once, add up to the rows. */
  lemma {:induction false} CountsAddUp<R, K>(rows: seq<R>, p: R -> bool, key: R -> K, keys: seq<K>, n: K -> nat, ofKey: K -> R -> bool,
                                             listed: R -> bool)
    requires forall i, j :: 0 <= i < j < |keys| ==> keys[i] != keys[j]
    requires forall k :: k in keys ==> n(k) == Count(rows, ofKey(k))
    requires forall k, r :: k in keys && r in rows ==> ofKey(k)(r) == (p(r) && key(r) == k)
    requires forall r :: r in rows ==> listed(r) == (p(r) && key(r) in keys)
    ensures SumOver(keys, n) == Count(rows, listed)
  {
    if keys == [] {
      CountZero(rows, listed);
      return;
    }
    var before, last := keys[..|keys| - 1], keys[|keys| - 1];
    assert keys == before + [last];
    var others := r => p(r) && key(r) in before;
    CountsAddUp(rows, p, key, before, n, ofKey, others);
    CountSplit(rows, others, ofKey(last), listed);
  }

  // ----- the view -----

  function Keys<K>(groups: seq<Counted<K>>): set<K> {
    set x | x in groups :: x.key
  }

  /** SELECT key, count() ... GROUP BY key of a block, in any order. */
  ghost predicate IsGrouping<R(!new), K(!new)>(key: R -> K, block: seq<R>, groups: seq<Counted<K>>) {
    && (forall i, j :: 0 <= i < j < |groups| ==> groups[i].key != groups[j].key)
    && (forall x :: x in groups ==> x.count == Count(block, r => key(r) == x.key) && x.count > 0)
    && (forall r :: r in block ==> key(r) in Keys(groups))
  }

  lemma {:induction false} GroupsCount<R(!new), K(!new)>(key: R -> K, block: seq<R>, groups: seq<Counted<K>>, p: K -> bool)
    requires forall i, j :: 0 <= i < j < |groups| ==> groups[i].key != groups[j].key
    requires forall x :: x in groups ==> x.count == Count(block, r => key(r) == x.key)
    ensures Sum(groups, p) == Count(block, r => p(key(r)) && key(r) in Keys(groups))
  {
    var counted := r => p(key(r)) && key(r) in Keys(groups);
    if groups == [] {
      CountZero(block, counted);
      return;
    }
    var before, last := groups[..|groups| - 1], groups[|groups| - 1];
    GroupsCount(key, block, before, p);
    var others, these := r => p(key(r)) && key(r) in Keys(before), r => p(key(r)) && key(r) == last.key;
    assert groups == before + [last];
    assert forall k :: k in Keys(groups) <==> k in Keys(before) || k == last.key;
    assert last.key !in Keys(before);
    CountSplit(block, others, these, counted);
    if p(last.key) {
      CountSame(block, these, r => key(r) == last.key);
    } else {
      CountZero(block, these);
    }
  }

  lemma GroupingRepresents<R(!new), K(!new)>(key: R -> K, block: seq<R>, groups: seq<Counted<K>>)
    requires IsGrouping(key, block, groups)
    ensures Represents(key, block, groups)
  {
    forall p: K -> bool ensures Sum(groups, p) == Count(block, Through(key, p)) {
      GroupsCount(key, block, groups, p);
      CountSame(block, r => p(key(r)) && key(r) in Keys(groups), Through(key, p));
    }
  }

  // ----- what the two tables answer -----

  /** SELECT group, count() FROM the raw table WHERE ... GROUP BY group. */
  ghost predicate IsCountBy<R(!new), G(!new)>(raw: seq<R>, holds: R -> bool, group: R -> G, answer: seq<Counted<G>>) {
    IsGrouping(group, Kept(raw, holds), answer)
  }

  /** SELECT group, sum(Count) FROM the rollup WHERE ... GROUP BY group. */
  ghost predicate IsSumBy<K, G>(rolled: seq<Counted<K>>, holds: K -> bool, group: K -> G, answer: seq<Counted<G>>) {
    && (forall i, j :: 0 <= i < j < |answer| ==> answer[i].key != answer[j].key)
    && (forall x :: x in answer ==> x.count == Sum(rolled, k => holds(k) && group(k) == x.key) && x.count > 0)
    && (forall y :: y in rolled && holds(y.key) ==> group(y.key) in Keys(answer))
  }

  /** The answer of the raw table, summed over any of its groups, counts their rows. */
  lemma {:induction false} CountByCounts<R(!new), G(!new)>(raw: seq<R>, holds: R -> bool, group: R -> G, answer: seq<Counted<G>>, p: G -> bool, both: R -> bool)
    requires IsCountBy(raw, holds, group, answer)
    requires forall r :: r in raw ==> both(r) == (holds(r) && p(group(r)))
    ensures Sum(answer, p) == Count(raw, both)
  {
    GroupingRepresents(group, Kept(raw, holds), answer);
    CountKept(raw, holds, Through(group, p), both);
  }

  lemma {:induction false} SumGroups<K, G>(rolled: seq<Counted<K>>, holds: K -> bool, group: K -> G, answer: seq<Counted<G>>,
                                           p: G -> bool, listed: K -> bool)
    requires forall i, j :: 0 <= i < j < |answer| ==> answer[i].key != answer[j].key
    requires forall x :: x in answer ==> x.count == Sum(rolled, k => holds(k) && group(k) == x.key)
    requires forall y :: y in rolled ==> listed(y.key) == (holds(y.key) && p(group(y.key)) && group(y.key) in Keys(answer))
    ensures Sum(answer, p) == Sum(rolled, listed)
  {
    if answer == [] {
      SumNothing(rolled, listed);
      return;
    }
    var before, last := answer[..|answer| - 1], answer[|answer| - 1];
    assert answer == before + [last];
    assert forall g :: g in Keys(answer) <==> g in Keys(before) || g == last.key;
    assert last.key !in Keys(before);
    var others, these := k => holds(k) && p(group(k)) && group(k) in Keys(before), k => holds(k) && p(group(k)) && group(k) == last.key;
    SumGroups(rolled, holds, group, before, p, others);
    SumSplit(rolled, others, these, listed);
    if p(last.key) {
      SumSame(rolled, these, k => holds(k) && group(k) == last.key);
    } else {
      SumNothing(rolled, these);
    }
  }

  /** The answer of the rollup, summed over any of its groups, is the sum of their rows. */
  lemma {:induction false} SumByCounts<K, G>(rolled: seq<Counted<K>>, holds: K -> bool, group: K -> G, answer: seq<Counted<G>>, p: G -> bool, both: K -> bool)
    requires IsSumBy(rolled, holds, group, answer)
    requires forall y :: y in rolled ==> both(y.key) == (holds(y.key) && p(group(y.key)))
    ensures Sum(answer, p) == Sum(rolled, both)
  {
    SumGroups(rolled, holds, group, answer, p, both);
  }

  /** One group of an answer. */
  lemma {:induction false} SumOne<G>(answer: seq<Counted<G>>, g: G, only: G -> bool, read: nat)
    requires forall i, j :: 0 <= i < j < |answer| ==> answer[i].key != answer[j].key
    requires forall x :: x in answer ==> only(x.key) == (x.key == g)
    requires forall x :: x in answer && x.key == g ==> read == x.count
    requires g !in Keys(answer) ==> read == 0
    ensures Sum(answer, only) == read
  {
    if answer != [] {
      var before, last := answer[..|answer| - 1], answer[|answer| - 1];
      assert answer == before + [last];
      assert forall k :: k in Keys(answer) <==> k in Keys(before) || k == last.key;
      if last.key == g {
        SumNothing(before, only);
      } else {
        SumOne(before, g, only, read);
      }
    }
  }

  // ----- the life of the two tables -----

  /** A block of rows is inserted, the view adding its groups; or two rows of the rollup are merged. */
  datatype Change<R, K> = Insert(block: seq<R>, groups: seq<Counted<K>>) | Merge(i: nat, j: nat)

  datatype Tables<R, K> = Tables(raw: seq<R>, rolled: seq<Counted<K>>)

  ghost predicate Happens<R(!new), K(!new)>(key: R -> K, t: Tables<R, K>, change: Change<R, K>) {
    match change
    case Insert(block, groups) => IsGrouping(key, block, groups)
    case Merge(i, j) => i < j < |t.rolled| && t.rolled[i].key == t.rolled[j].key
  }

  /** The j-th row merged into the i-th. */
  function Merged<K>(rolled: seq<Counted<K>>, i: nat, j: nat): seq<Counted<K>>
    requires i < j < |rolled|
  {
    rolled[..i] + [Counted(rolled[i].key, rolled[i].count + rolled[j].count)] + (rolled[i + 1..j] + rolled[j + 1..])
  }

  function Changed<R, K>(t: Tables<R, K>, change: Change<R, K>): Tables<R, K> {
    match change
    case Insert(block, groups) => Tables(t.raw + block, t.rolled + groups)
    case Merge(i, j) =>
      if i < j < |t.rolled| then
        t.(rolled := Merged(t.rolled, i, j))
      else t
  }

  function Life<R, K>(changes: seq<Change<R, K>>): Tables<R, K> {
    if changes == [] then Tables([], [])
    else Changed(Life(changes[..|changes| - 1]), changes[|changes| - 1])
  }

  ghost predicate Lived<R(!new), K(!new)>(key: R -> K, changes: seq<Change<R, K>>) {
    changes != [] ==>
      Lived(key, changes[..|changes| - 1]) && Happens(key, Life(changes[..|changes| - 1]), changes[|changes| - 1])
  }

  lemma SumAround<K>(a: seq<Counted<K>>, x: Counted<K>, b: seq<Counted<K>>, p: K -> bool)
    ensures Sum(a + [x] + b, p) == Sum(a, p) + Sum(b, p) + if p(x.key) then x.count else 0
  {
    SumConcat(a + [x], b, p);
    assert (a + [x])[..|a|] == a;
  }

  lemma MergeKeepsSum<K>(rolled: seq<Counted<K>>, i: nat, j: nat, p: K -> bool)
    requires i < j < |rolled| && rolled[i].key == rolled[j].key
    ensures Sum(Merged(rolled, i, j), p) == Sum(rolled, p)
  {
    var rest := rolled[i + 1..];
    SumAt(rolled, i, p);
    SumAt(rest, j - i - 1, p);
    assert rest[..j - i - 1] == rolled[i + 1..j] && rest[j - i..] == rolled[j + 1..];
    SumConcat(rolled[i + 1..j], rolled[j + 1..], p);
    SumAround(rolled[..i], Counted(rolled[i].key, rolled[i].count + rolled[j].count), rolled[i + 1..j] + rolled[j + 1..], p);
  }

  lemma {:induction false} SumAt<K>(rolled: seq<Counted<K>>, i: nat, p: K -> bool)
    requires i < |rolled|
    ensures Sum(rolled, p) == Sum(rolled[..i], p) + Sum(rolled[i + 1..], p) + if p(rolled[i].key) then rolled[i].count else 0
  {
    assert rolled == rolled[..i] + [rolled[i]] + rolled[i + 1..];
    SumAround(rolled[..i], rolled[i], rolled[i + 1..], p);
  }

  lemma InsertKeeps<R(!new), K(!new)>(key: R -> K, t: Tables<R, K>, block: seq<R>, groups: seq<Counted<K>>)
    requires Represents(key, t.raw, t.rolled) && Positive(t.rolled) && IsGrouping(key, block, groups)
    ensures Represents(key, t.raw + block, t.rolled + groups) && Positive(t.rolled + groups)
  {
    GroupingRepresents(key, block, groups);
    forall p: K -> bool ensures Sum(t.rolled + groups, p) == Count(t.raw + block, Through(key, p)) {
      SumConcat(t.rolled, groups, p);
      CountConcat(t.raw, block, Through(key, p));
    }
  }

  lemma MergeKeeps<R(!new), K(!new)>(key: R -> K, t: Tables<R, K>, i: nat, j: nat)
    requires Represents(key, t.raw, t.rolled) && Positive(t.rolled)
    requires i < j < |t.rolled| && t.rolled[i].key == t.rolled[j].key
    ensures Represents(key, t.raw, Merged(t.rolled, i, j)) && Positive(Merged(t.rolled, i, j))
  {
    forall p: K -> bool ensures Sum(Merged(t.rolled, i, j), p) == Count(t.raw, Through(key, p)) {
      MergeKeepsSum(t.rolled, i, j, p);
    }
    forall x | x in Merged(t.rolled, i, j) ensures x.count > 0 {
      assert t.rolled[i] in t.rolled;
    }
  }

  /** Whatever was inserted and merged, the rollup counts the raw rows. */
  lemma {:induction false} RollupCountsRaw<R(!new), K(!new)>(key: R -> K, changes: seq<Change<R, K>>)
    requires Lived(key, changes)
    ensures Represents(key, Life(changes).raw, Life(changes).rolled) && Positive(Life(changes).rolled)
  {
    if changes == [] {
      return;
    }
    var before := Life(changes[..|changes| - 1]);
    RollupCountsRaw(key, changes[..|changes| - 1]);
    match changes[|changes| - 1] {
      case Insert(block, groups) => InsertKeeps(key, before, block, groups);
      case Merge(i, j) => MergeKeeps(key, before, i, j);
    }
  }
}

/**
 * The grouping step of the `TemplateExercise.sets` and
 * `TrainingExercise.sets` readers: flat rows, each with a `set_number`,
 * are gathered into one set per distinct number through a JavaScript `Map`,
 * whose values come out in order of first insertion.
 */
module SetGroups {
  import opened Sorting

  datatype SetGroup<V> = SetGroup(setNumber: int, variables: seq<V>)

  /** The distinct set numbers of the rows, in order of first occurrence. */
  function DistinctKeys<V>(rows: seq<(int, V)>): (d: seq<int>)
    ensures forall k :: k in d <==> exists i :: 0 <= i < |rows| && rows[i].0 == k
  {
    if rows == [] then []
    else
      var front := rows[..|rows| - 1];
      var d := DistinctKeys(front);
      if rows[|rows| - 1].0 in d then d else d + [rows[|rows| - 1].0]
  }

  /** The values of the rows with set number `k`, in row order. */
  function WithKey<V>(rows: seq<(int, V)>, k: int): (r: seq<V>)
    ensures |r| <= |rows|
  {
    if rows == [] then []
    else
      var front := WithKey(rows[..|rows| - 1], k);
      if rows[|rows| - 1].0 == k then front + [rows[|rows| - 1].1] else front
  }

  lemma WithKeySnoc<V>(rows: seq<(int, V)>, x: (int, V), k: int)
    ensures WithKey(rows + [x], k) == if x.0 == k then WithKey(rows, k) + [x.1] else WithKey(rows, k)
  {
    assert (rows + [x])[..|rows|] == rows;
  }

  predicate NoDuplicates(s: seq<int>)
  {
    forall i, j :: 0 <= i < j < |s| ==> s[i] != s[j]
  }

  /** The groups a reader returns for these rows. */
  ghost predicate IsGrouping<V>(groups: seq<SetGroup<V>>, rows: seq<(int, V)>)
  {
    |groups| == |DistinctKeys(rows)|
    && forall j :: 0 <= j < |groups| ==>
         groups[j].setNumber == DistinctKeys(rows)[j] && groups[j].variables == WithKey(rows, groups[j].setNumber)
  }

  /** The state of the grouping loop after the rows `prefix`. */
  ghost predicate Grouped<V>(setMap: map<int, SetGroup<V>>, order: seq<int>, prefix: seq<(int, V)>)
  {
    order == DistinctKeys(prefix)
    && (forall k :: k in setMap <==> k in order)
    && (forall j :: 0 <= j < |order| ==> order[j] in setMap)
    && (forall k :: k in setMap ==> setMap[k] == SetGroup(k, WithKey(prefix, k)))
  }

  /** One row of the loop: open its set if needed, then append its value. */
  lemma GroupStep<V>(setMap: map<int, SetGroup<V>>, order: seq<int>, prefix: seq<(int, V)>, x: (int, V))
    requires Grouped(setMap, order, prefix)
    ensures var started := if x.0 in setMap then setMap else setMap[x.0 := SetGroup(x.0, [])];
            Grouped(started[x.0 := started[x.0].(variables := started[x.0].variables + [x.1])],
                    if x.0 in setMap then order else order + [x.0], prefix + [x])
  {
    assert (prefix + [x])[..|prefix|] == prefix;
    forall k {
      WithKeySnoc(prefix, x, k);
    }
    if x.0 !in setMap {
      WithKeyAbsent(prefix, x.0);
    }
  }

  /**
   * `rows.forEach`: open a set the first time its number is seen, then
   * append the row's value to it; `Array.from(setMap.values())` at the end.
   */
  method GroupBySetNumber<V>(rows: seq<(int, V)>) returns (groups: seq<SetGroup<V>>)
    ensures IsGrouping(groups, rows)
  {
    var setMap: map<int, SetGroup<V>> := map[];
    var order: seq<int> := [];
    var i := 0;
    while i < |rows|
      invariant 0 <= i <= |rows|
      invariant Grouped(setMap, order, rows[..i])
    {
      var (k, v) := rows[i];
      GroupStep(setMap, order, rows[..i], rows[i]);
      assert rows[..i + 1] == rows[..i] + [rows[i]];
      if k !in setMap {
        setMap := setMap[k := SetGroup(k, [])];
        order := order + [k];
      }
      setMap := setMap[k := setMap[k].(variables := setMap[k].variables + [v])];
      i := i + 1;
    }
    assert rows[..i] == rows;
    groups := seq(|order|, j requires 0 <= j < |order| => setMap[order[j]]);
  }

  // ---------------------------------------------------------------------
  // What the grouping guarantees

  lemma {:induction false} DistinctKeysNoDuplicates<V>(rows: seq<(int, V)>)
    ensures NoDuplicates(DistinctKeys(rows))
  {
    if rows != [] {
      DistinctKeysNoDuplicates(rows[..|rows| - 1]);
    }
  }

  /** Sets come out in ascending `set_number` order when the rows are ordered by it. */
  lemma {:induction false} DistinctKeysAscending<V>(rows: seq<(int, V)>)
    requires forall i, j :: 0 <= i < j < |rows| ==> rows[i].0 <= rows[j].0
    ensures forall i, j :: 0 <= i < j < |DistinctKeys(rows)| ==> DistinctKeys(rows)[i] < DistinctKeys(rows)[j]
  {
    if rows != [] {
      var front := rows[..|rows| - 1];
      var last := rows[|rows| - 1].0;
      DistinctKeysAscending(front);
      DistinctKeysNoDuplicates(rows);
      var d := DistinctKeys(front);
      forall i | 0 <= i < |d|
        ensures d[i] <= last
      {
        assert d[i] in d;
        var w :| 0 <= w < |front| && front[w].0 == d[i];
      }
    }
  }

  /** The number of rows with each of the keys `ks`, summed. */
  function SumSizes<V>(rows: seq<(int, V)>, ks: seq<int>): nat
  {
    if ks == [] then 0 else SumSizes(rows, ks[..|ks| - 1]) + |WithKey(rows, ks[|ks| - 1])|
  }

  lemma {:induction false} SumSizesSnoc<V>(rows: seq<(int, V)>, x: (int, V), ks: seq<int>)
    requires NoDuplicates(ks)
    ensures SumSizes(rows + [x], ks) == SumSizes(rows, ks) + (if x.0 in ks then 1 else 0)
  {
    assert (rows + [x])[..|rows|] == rows;
    if ks != [] {
      var front := ks[..|ks| - 1];
      SumSizesSnoc(rows, x, front);
      assert ks == front + [ks[|ks| - 1]];
    }
  }

  /** Every row lands in exactly one set: the sets' sizes add up to the number of rows. */
  lemma {:induction false} EveryRowGrouped<V>(rows: seq<(int, V)>)
    ensures SumSizes(rows, DistinctKeys(rows)) == |rows|
  {
    if rows != [] {
      var front := rows[..|rows| - 1];
      var x := rows[|rows| - 1];
      assert rows == front + [x];
      EveryRowGrouped(front);
      DistinctKeysNoDuplicates(front);
      SumSizesSnoc(front, x, DistinctKeys(front));
      if x.0 !in DistinctKeys(front) {
        assert WithKey(front, x.0) == [] by {
          WithKeyAbsent(front, x.0);
        }
      }
    }
  }

  lemma {:induction false} WithKeyAbsent<V>(rows: seq<(int, V)>, k: int)
    requires forall i :: 0 <= i < |rows| ==> rows[i].0 != k
    ensures WithKey(rows, k) == []
  {
    if rows != [] {
      WithKeyAbsent(rows[..|rows| - 1], k);
    }
  }

  /** A row's set is the only one with its number, and holds its value. */
  lemma {:induction false} RowInItsSet<V>(groups: seq<SetGroup<V>>, rows: seq<(int, V)>, i: nat)
    requires IsGrouping(groups, rows) && i < |rows|
    ensures exists j :: 0 <= j < |groups| && groups[j].setNumber == rows[i].0
    ensures forall j1, j2 :: 0 <= j1 < j2 < |groups| ==> groups[j1].setNumber != groups[j2].setNumber
    ensures forall j :: 0 <= j < |groups| && groups[j].setNumber == rows[i].0 ==> rows[i].1 in groups[j].variables
  {
    DistinctKeysNoDuplicates(rows);
    var d := DistinctKeys(rows);
    assert rows[i].0 in d;
    var j :| 0 <= j < |d| && d[j] == rows[i].0;
    assert groups[j].setNumber == rows[i].0;
    WithKeyHolds(rows, i);
  }

  lemma {:induction false} WithKeyHolds<V>(rows: seq<(int, V)>, i: nat)
    requires i < |rows|
    ensures rows[i].1 in WithKey(rows, rows[i].0)
  {
    if i < |rows| - 1 {
      WithKeyHolds(rows[..|rows| - 1], i);
    }
  }

  // ---------------------------------------------------------------------
  // Rows read in `set_number` order, then in a second order within a set

  /** `ORDER BY set_number ASC, <le>`. */
  function ByKeyThen<V>(le: (V, V) -> bool): ((int, V), (int, V)) -> bool
  {
    (x: (int, V), y: (int, V)) => x.0 < y.0 || (x.0 == y.0 && le(x.1, y.1))
  }

  lemma ByKeyThenTotal<V(!new)>(le: (V, V) -> bool)
    requires TotalPreorder(le)
    ensures TotalPreorder(ByKeyThen(le))
  {
    var o := ByKeyThen(le);
    forall a: (int, V), b: (int, V)
      ensures o(a, b) || o(b, a)
    {
      if a.0 == b.0 {
        assert le(a.1, b.1) || le(b.1, a.1);
      }
    }
    forall a: (int, V), b: (int, V), c: (int, V) | o(a, b) && o(b, c)
      ensures o(a, c)
    {
      if a.0 == b.0 && b.0 == c.0 {
        assert le(a.1, b.1) && le(b.1, c.1);
      }
    }
  }

  lemma {:induction false} WithKeyMember<V>(rows: seq<(int, V)>, k: int, v: V)
    requires v in WithKey(rows, k)
    ensures exists i :: 0 <= i < |rows| && rows[i] == (k, v)
  {
    var front := rows[..|rows| - 1];
    if v in WithKey(front, k) {
      WithKeyMember(front, k, v);
      var i :| 0 <= i < |front| && front[i] == (k, v);
      assert rows[i] == (k, v);
    } else {
      assert rows[|rows| - 1] == (k, v);
    }
  }

  /** Within one set, values keep the second order. */
  lemma {:induction false} WithKeySorted<V>(rows: seq<(int, V)>, le: (V, V) -> bool, k: int)
    requires Sorted(rows, ByKeyThen(le))
    ensures Sorted(WithKey(rows, k), le)
  {
    if rows != [] {
      var front := rows[..|rows| - 1];
      var last := rows[|rows| - 1];
      assert Sorted(front, ByKeyThen(le));
      WithKeySorted(front, le, k);
      if last.0 == k {
        var w := WithKey(front, k);
        forall i | 0 <= i < |w|
          ensures le(w[i], last.1)
        {
          assert w[i] in w;
          WithKeyMember(front, k, w[i]);
          var j :| 0 <= j < |front| && front[j] == (k, w[i]);
          assert ByKeyThen(le)(rows[j], last);
        }
      }
    }
  }

  lemma SortedKeysAscend<V>(s: seq<(int, V)>, le: (V, V) -> bool)
    requires Sorted(s, ByKeyThen(le))
    ensures forall i, j :: 0 <= i < j < |DistinctKeys(s)| ==> DistinctKeys(s)[i] < DistinctKeys(s)[j]
  {
    forall i, j | 0 <= i < j < |s|
      ensures s[i].0 <= s[j].0
    {
      assert ByKeyThen(le)(s[i], s[j]);
    }
    DistinctKeysAscending(s);
  }

  lemma SortedByKeyThen<V(!new)>(rows: seq<(int, V)>, le: (V, V) -> bool)
    requires TotalPreorder(le)
    ensures Sorted(SortBy(rows, ByKeyThen(le)), ByKeyThen(le))
  {
    ByKeyThenTotal(le);
    SortBySorted(rows, ByKeyThen(le));
  }

  /** Set numbers strictly ascending, so each appears once. */
  predicate SetsAscending<V>(groups: seq<SetGroup<V>>)
  {
    forall i, j :: 0 <= i < j < |groups| ==> groups[i].setNumber < groups[j].setNumber
  }

  /** The variables of every set in `le` order. */
  predicate SetsSorted<V>(groups: seq<SetGroup<V>>, le: (V, V) -> bool)
  {
    forall j :: 0 <= j < |groups| ==> Sorted(groups[j].variables, le)
  }

  /** The grouping of rows in `set_number`-then-`le` order. */
  lemma SortedGrouping<V>(groups: seq<SetGroup<V>>, s: seq<(int, V)>, le: (V, V) -> bool)
    requires Sorted(s, ByKeyThen(le))
    requires IsGrouping(groups, s)
    ensures SetsAscending(groups)
    ensures SetsSorted(groups, le)
  {
    SortedKeysAscend(s, le);
    forall j | 0 <= j < |groups|
      ensures Sorted(groups[j].variables, le)
    {
      WithKeySorted(s, le, groups[j].setNumber);
    }
  }

  /**
   * A reader that sorts its rows by `set_number` and then by `le`, and groups
   * them: the sets come out in strictly ascending number, each set in `le`
   * order, and together they hold every row once.
   */
  lemma SortedGroupsOrdered<V(!new)>(groups: seq<SetGroup<V>>, rows: seq<(int, V)>, le: (V, V) -> bool)
    requires TotalPreorder(le)
    requires IsGrouping(groups, SortBy(rows, ByKeyThen(le)))
    ensures SetsAscending(groups)
    ensures SetsSorted(groups, le)
    ensures SumSizes(SortBy(rows, ByKeyThen(le)), DistinctKeys(SortBy(rows, ByKeyThen(le)))) == |rows|
  {
    var s := SortBy(rows, ByKeyThen(le));
    SortedByKeyThen(rows, le);
    SortedGrouping(groups, s, le);
    EveryRowGrouped(s);
  }
}

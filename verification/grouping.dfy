/** `DataFrame.groupby(key)` with `sort=True`: the sorted distinct keys of a
    column, the rows of each group in their original order, and the `count`
    aggregation. */
module Grouping {
  import opened StringOrder

  /** The key column of a table. */
  function Keys<T>(rows: seq<T>, key: T -> string): (ks: seq<string>)
    ensures |ks| == |rows|
    ensures forall i :: 0 <= i < |rows| ==> ks[i] == key(rows[i])
  {
    seq(|rows|, i requires 0 <= i < |rows| => key(rows[i]))
  }

  /** The group keys, in the order `groupby(sort=True)` produces them: the keys
      that occur in the column and no others (ascending and without repeats, by
      `GroupKeysSorted`). */
  function GroupKeys<T>(rows: seq<T>, key: T -> string): (ks: seq<string>)
    ensures forall k :: k in ks <==> k in Keys(rows, key)
  {
    SortedKeys(Keys(rows, key))
  }

  /** The group keys are ascending, so each occurs once. */
  lemma GroupKeysSorted<T>(rows: seq<T>, key: T -> string)
    ensures StrictlySorted(GroupKeys(rows, key))
    ensures Distinct(GroupKeys(rows, key))
  {
    StrictlySortedIsDistinct(GroupKeys(rows, key));
  }

  /** The rows whose key is `k`, in their original order. */
  function Group<T>(rows: seq<T>, key: T -> string, k: string): (g: seq<T>)
    ensures |g| <= |rows|
    ensures forall i :: 0 <= i < |g| ==> key(g[i]) == k
  {
    if |rows| == 0 then []
    else
      var last := rows[|rows| - 1];
      Group(rows[..|rows| - 1], key, k) + (if key(last) == k then [last] else [])
  }

  /** `idx` lists, in increasing order, positions of `rows` whose values are `out`. */
  ghost predicate Picks<T>(rows: seq<T>, out: seq<T>, idx: seq<int>) {
    && |idx| == |out|
    && (forall j :: 0 <= j < |idx| ==> 0 <= idx[j] < |rows| && out[j] == rows[idx[j]])
    && (forall j1, j2 :: 0 <= j1 < j2 < |idx| ==> idx[j1] < idx[j2])
  }

  /** The positions of the rows whose key is `k`. */
  ghost function GroupPositions<T>(rows: seq<T>, key: T -> string, k: string): seq<int> {
    if |rows| == 0 then []
    else
      var n := |rows| - 1;
      GroupPositions(rows[..n], key, k) + (if key(rows[n]) == k then [n] else [])
  }

  /** A group holds exactly the rows with its key, in their original order:
      it picks rows at increasing positions, and every row with key `k` is picked. */
  lemma {:induction false} GroupSelects<T>(rows: seq<T>, key: T -> string, k: string)
    ensures Picks(rows, Group(rows, key, k), GroupPositions(rows, key, k))
    ensures forall i :: 0 <= i < |rows| && key(rows[i]) == k ==> i in GroupPositions(rows, key, k)
  {
    if |rows| > 0 {
      var n := |rows| - 1;
      GroupSelects(rows[..n], key, k);
      var idx := GroupPositions(rows[..n], key, k);
      assert forall j :: 0 <= j < |idx| ==> idx[j] < n;
    }
  }

  /** pandas' `count`: the number of rows for which `p` holds. */
  function CountWhere<T>(rows: seq<T>, p: T -> bool): (n: nat)
    ensures n <= |rows|
  {
    if |rows| == 0 then 0
    else CountWhere(rows[..|rows| - 1], p) + (if p(rows[|rows| - 1]) then 1 else 0)
  }

  /** The row positions in group `k` at which `p` holds. */
  ghost function GroupIndices<T>(rows: seq<T>, key: T -> string, p: T -> bool, k: string): set<int> {
    set i | 0 <= i < |rows| && key(rows[i]) == k && p(rows[i])
  }

  lemma CountWhereSnoc<T>(s: seq<T>, x: T, p: T -> bool)
    ensures CountWhere(s + [x], p) == CountWhere(s, p) + (if p(x) then 1 else 0)
  {
    assert (s + [x])[..|s|] == s;
  }

  /** The per-group count agrees with counting row positions directly. */
  lemma {:induction false} GroupCountIsIndexCount<T>(rows: seq<T>, key: T -> string, p: T -> bool, k: string)
    ensures CountWhere(Group(rows, key, k), p) == |GroupIndices(rows, key, p, k)|
  {
    if |rows| == 0 {
      assert GroupIndices(rows, key, p, k) == {};
    } else {
      var n := |rows| - 1;
      var init, last := rows[..n], rows[n];
      GroupCountIsIndexCount(init, key, p, k);
      var g := Group(init, key, k);
      if key(last) == k {
        CountWhereSnoc(g, last, p);
      } else {
        assert g + [] == g;
      }
      GroupIndicesSnoc(rows, key, p, k);
    }
  }

  lemma GroupIndicesSnoc<T>(rows: seq<T>, key: T -> string, p: T -> bool, k: string)
    requires |rows| > 0
    ensures var n := |rows| - 1;
      |GroupIndices(rows, key, p, k)|
      == |GroupIndices(rows[..n], key, p, k)| + (if key(rows[n]) == k && p(rows[n]) then 1 else 0)
  {
    var n := |rows| - 1;
    var before := GroupIndices(rows[..n], key, p, k);
    var here: set<int> := if key(rows[n]) == k && p(rows[n]) then {n} else {};
    assert GroupIndices(rows, key, p, k) == before + here;
    assert n !in before;
  }

  /** The sum of the group counts over the keys `ks`. */
  function SumGroupCounts<T>(rows: seq<T>, key: T -> string, p: T -> bool, ks: seq<string>): nat {
    if |ks| == 0 then 0
    else CountWhere(Group(rows, key, ks[0]), p) + SumGroupCounts(rows, key, p, ks[1..])
  }

  lemma {:induction false} SumGroupCountsEmpty<T>(key: T -> string, p: T -> bool, ks: seq<string>)
    ensures SumGroupCounts([], key, p, ks) == 0
  {
    if |ks| > 0 {
      SumGroupCountsEmpty(key, p, ks[1..]);
    }
  }

  /** Appending one row adds it to exactly the one group its key names, if that
      key is listed. */
  lemma {:induction false} SumGroupCountsSnoc<T>(rows: seq<T>, x: T, key: T -> string, p: T -> bool, ks: seq<string>)
    requires Distinct(ks)
    ensures SumGroupCounts(rows + [x], key, p, ks)
         == SumGroupCounts(rows, key, p, ks) + (if p(x) && key(x) in ks then 1 else 0)
  {
    if |ks| > 0 {
      var s := rows + [x];
      assert s[..|s| - 1] == rows;
      assert Distinct(ks[1..]);
      SumGroupCountsSnoc(rows, x, key, p, ks[1..]);
      if key(x) == ks[0] {
        CountWhereSnoc(Group(rows, key, ks[0]), x, p);
        assert key(x) !in ks[1..];
      } else {
        assert Group(s, key, ks[0]) == Group(rows, key, ks[0]) + [];
        assert Group(s, key, ks[0]) == Group(rows, key, ks[0]);
        assert key(x) in ks <==> key(x) in ks[1..];
      }
    }
  }

  /** Counts add up: over a list of distinct keys that covers every row, the
      group counts sum to the count over the whole table. */
  lemma {:induction false} CountsAddUp<T>(rows: seq<T>, key: T -> string, p: T -> bool, ks: seq<string>)
    requires Distinct(ks)
    requires forall i :: 0 <= i < |rows| ==> key(rows[i]) in ks
    ensures SumGroupCounts(rows, key, p, ks) == CountWhere(rows, p)
  {
    if |rows| == 0 {
      SumGroupCountsEmpty(key, p, ks);
    } else {
      var n := |rows| - 1;
      assert rows == rows[..n] + [rows[n]];
      CountsAddUp(rows[..n], key, p, ks);
      SumGroupCountsSnoc(rows[..n], rows[n], key, p, ks);
    }
  }

  /** The group counts of `groupby` sum to the count over the whole table. */
  lemma GroupCountsAddUp<T>(rows: seq<T>, key: T -> string, p: T -> bool)
    ensures SumGroupCounts(rows, key, p, GroupKeys(rows, key)) == CountWhere(rows, p)
  {
    var ks := GroupKeys(rows, key);
    GroupKeysSorted(rows, key);
    forall i | 0 <= i < |rows| ensures key(rows[i]) in ks {
      assert Keys(rows, key)[i] == key(rows[i]);
    }
    CountsAddUp(rows, key, p, ks);
  }

  /** When `p` holds everywhere, the count is the number of rows. */
  lemma {:induction false} CountWhereAll<T>(rows: seq<T>, p: T -> bool)
    requires forall i :: 0 <= i < |rows| ==> p(rows[i])
    ensures CountWhere(rows, p) == |rows|
  {
    if |rows| > 0 {
      CountWhereAll(rows[..|rows| - 1], p);
    }
  }

  /** The sum of a column of counts. */
  function Total(cs: seq<nat>): nat {
    if |cs| == 0 then 0 else cs[0] + Total(cs[1..])
  }

  /** A column holding the count of each listed group sums to `SumGroupCounts`. */
  lemma {:induction false} TotalOfGroupCounts<T>(rows: seq<T>, key: T -> string, p: T -> bool, ks: seq<string>, cs: seq<nat>)
    requires |cs| == |ks|
    requires forall i :: 0 <= i < |ks| ==> cs[i] == CountWhere(Group(rows, key, ks[i]), p)
    ensures Total(cs) == SumGroupCounts(rows, key, p, ks)
  {
    if |ks| > 0 {
      TotalOfGroupCounts(rows, key, p, ks[1..], cs[1..]);
    }
  }
}
